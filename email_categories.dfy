/**
 * The categories page: the category list, its create / edit / delete handlers and the
 * category modal's open state.
 */
module EmailCategories {
  import opened Base
  import opened Lists

  datatype Category = Category(
    id: int,
    name: string,
    description: string,
    instructions: Option<string>,
    emailCount: Option<int>)

  datatype View = ListView | KanbanView

  function IdIs(id: int): Category -> bool {
    (c: Category) => c.id == id
  }

  function IdIsNot(id: int): Category -> bool {
    (c: Category) => c.id != id
  }

  /** Delete removes exactly the categories with the id: the others stay, as often as they occur and in order. */
  lemma DeleteRemovesExactlyTheId(categories: seq<Category>, id: int, c: Category)
    ensures forall x :: x in Filter(categories, IdIsNot(id)) <==> x in categories && x.id != id
    ensures IsSubsequence(Filter(categories, IdIsNot(id)), categories)
    ensures multiset(Filter(categories, IdIsNot(id)))[c] == if c.id != id then multiset(categories)[c] else 0
  {
    FilterIsSubsequence(categories, IdIsNot(id));
    FilterCount(categories, IdIsNot(id), c);
  }

  /** An edit keeps the length and every entry with another id in its place; the entries with the id become the saved record. */
  lemma EditReplacesExactlyTheId(categories: seq<Category>, id: int, saved: Category)
    ensures |ReplaceWhere(categories, IdIs(id), saved)| == |categories|
    ensures forall i :: 0 <= i < |categories| ==>
              ReplaceWhere(categories, IdIs(id), saved)[i] == if categories[i].id == id then saved else categories[i]
    ensures saved.id == id ==> forall x :: x in ReplaceWhere(categories, IdIs(id), saved) && x.id != id ==> x in categories
  {
    var r := ReplaceWhere(categories, IdIs(id), saved);
    if saved.id == id {
      forall x | x in r && x.id != id
        ensures x in categories
      {
        var i :| 0 <= i < |r| && r[i] == x;
        assert categories[i] == x;
      }
    }
  }

  /** The page's state. */
  class Page {
    var view: View
    var categories: seq<Category>
    var loading: bool
    var error: Option<string>
    var isModalOpen: bool
    var editingCategory: Option<Category>

    constructor ()
      ensures view == ListView && categories == [] && loading && error == None
      ensures !isModalOpen && editingCategory == None
    {
      view := ListView;
      categories := [];
      loading := true;
      error := None;
      isModalOpen := false;
      editingCategory := None;
    }

    /** fetchCategories: the response replaces the list, or the error message shows; loading ends either way. */
    method FetchCategories(response: Response<seq<Category>>)
      modifies this
      ensures categories == (if response.Ok? then response.data else old(categories))
      ensures error == (if response.Ok? then old(error) else Some("Failed to load categories. Please try again later."))
      ensures !loading
      ensures view == old(view) && isModalOpen == old(isModalOpen) && editingCategory == old(editingCategory)
    {
      loading := true;
      if response.Ok? {
        categories := response.data;
      } else {
        error := Some("Failed to load categories. Please try again later.");
      }
      loading := false;
    }

    /** handleCreateCategory: the modal opens on an empty form. */
    method HandleCreate()
      modifies this
      ensures isModalOpen && editingCategory == None
      ensures view == old(view) && categories == old(categories) && loading == old(loading) && error == old(error)
    {
      editingCategory := None;
      isModalOpen := true;
    }

    /** handleEditCategory: the modal opens on the category. */
    method HandleEdit(c: Category)
      modifies this
      ensures isModalOpen && editingCategory == Some(c)
      ensures view == old(view) && categories == old(categories) && loading == old(loading) && error == old(error)
    {
      editingCategory := Some(c);
      isModalOpen := true;
    }

    /** The modal's onClose: only the open flag changes, the edit target stays. */
    method CloseModal()
      modifies this
      ensures !isModalOpen
      ensures editingCategory == old(editingCategory)
      ensures view == old(view) && categories == old(categories) && loading == old(loading) && error == old(error)
    {
      isModalOpen := false;
    }

    /**
     * handleDeleteCategory: only when the confirmation is accepted and the server deletes do
     * the categories with the id leave the list.
     */
    method HandleDelete(id: int, confirmed: bool, deleted: bool) returns (toast: Toast)
      modifies this
      ensures categories == if confirmed && deleted then Filter(old(categories), IdIsNot(id)) else old(categories)
      ensures toast == if !confirmed then NoToast
                       else if deleted then ToastSuccess("Category deleted successfully")
                       else ToastError("Failed to delete category")
      ensures view == old(view) && loading == old(loading) && error == old(error)
      ensures isModalOpen == old(isModalOpen) && editingCategory == old(editingCategory)
    {
      toast := NoToast;
      if confirmed {
        if deleted {
          categories := Filter(categories, IdIsNot(id));
          toast := ToastSuccess("Category deleted successfully");
        } else {
          toast := ToastError("Failed to delete category");
        }
      }
    }

    /**
     * handleSaveCategory: with a category being edited the server's record replaces the
     * entries with its id, otherwise the created record is appended; the modal closes only
     * on success, and the edit target is never cleared here.
     */
    method HandleSave(response: Response<Category>) returns (toast: Toast)
      modifies this
      ensures response.Ok? && old(editingCategory).Some? ==>
                categories == ReplaceWhere(old(categories), IdIs(old(editingCategory).value.id), response.data)
                && toast == ToastSuccess("Category updated successfully")
      ensures response.Ok? && old(editingCategory).None? ==>
                categories == old(categories) + [response.data]
                && toast == ToastSuccess("Category created successfully")
      ensures response.Ok? ==> !isModalOpen
      ensures response.Failed? ==>
                categories == old(categories) && isModalOpen == old(isModalOpen)
                && toast == ToastError("Failed to save category")
      ensures editingCategory == old(editingCategory)
      ensures view == old(view) && loading == old(loading) && error == old(error)
    {
      if response.Failed? {
        return ToastError("Failed to save category");
      }
      if editingCategory.Some? {
        categories := ReplaceWhere(categories, IdIs(editingCategory.value.id), response.data);
        toast := ToastSuccess("Category updated successfully");
      } else {
        categories := categories + [response.data];
        toast := ToastSuccess("Category created successfully");
      }
      isModalOpen := false;
    }
  }
}
