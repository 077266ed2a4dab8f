/**
 * The inbox page: the query of the list request, opening an e-mail (and marking it read),
 * deleting one, the category filter select and the one-line preview of a body.
 */
module EmailInbox {
  import opened Base
  import opened Lists
  import opened JsString

  datatype Email = Email(
    id: int,
    subject: string,
    sender: string,
    body: string,
    status: string,
    category: Option<int>,
    createdAt: string)

  /** An entry of the category filter's options. */
  datatype Category = Category(id: int, name: string, color: string)

  /** A JavaScript number as the select produces it: an integer or NaN. */
  datatype JsNumber = Num(value: int) | NaN

  /** JavaScript truthiness of `number | null`: null, 0 and NaN are falsy. */
  predicate Truthy(n: Option<JsNumber>) {
    n.Some? && n.value.Num? && n.value.value != 0
  }

  /** The query parameters of the list request; an absent field is not sent. */
  datatype Params = Params(search: Option<string>, categoryId: Option<int>)

  /**
   * fetchEmails' query object, filled field by field: `search` when the query is not the
   * empty string, `category_id` when the selected category is truthy.
   */
  method BuildParams(searchQuery: string, selectedCategory: Option<JsNumber>) returns (params: Params)
    ensures params.search.Some? <==> searchQuery != []
    ensures params.search.Some? ==> params.search.value == searchQuery
    ensures params.categoryId.Some? <==> Truthy(selectedCategory)
    ensures params.categoryId.Some? ==> selectedCategory == Some(Num(params.categoryId.value))
  {
    params := Params(None, None);
    if searchQuery != [] {
      params := params.(search := Some(searchQuery));
    }
    if Truthy(selectedCategory) {
      params := params.(categoryId := Some(selectedCategory.value.value));
    }
  }

  /** The select's onChange: "" (All Categories) is null, any other value is `Number(value)`. */
  function CategoryFromSelect(value: string): (r: Option<JsNumber>)
    ensures r.None? <==> value == []
  {
    if value == [] then None
    else match ToNumber(value)
      case Some(n) => Some(Num(n))
      case None => Some(NaN)
  }

  /** The value of a category's option is its id written out, and the select reads that id back. */
  lemma SelectReadsBackCategoryId(id: int)
    ensures CategoryFromSelect(IntToString(id)) == Some(Num(id))
  {
    ToNumberToString(id);
  }

  /** A category with id 0 can be selected but is falsy, so the list request then filters by nothing. */
  lemma CategoryZeroIsNotSent()
    ensures CategoryFromSelect("0") == Some(Num(0)) && !Truthy(CategoryFromSelect("0"))
  {
    SelectReadsBackCategoryId(0);
    assert IntToString(0) == "0";
  }

  /** The list's preview line: `body.substring(0, 100)`, then "..." when the body is longer than 100. */
  function Preview(body: string): (r: string)
    ensures |body| <= 100 ==> r == body
    ensures |body| > 100 ==> r == body[..100] + "..."
  {
    Substring(body, 0, 100) + (if |body| > 100 then "..." else "")
  }

  /**
   * The preview keeps a body of up to 100 characters whole and cuts a longer one to 103
   * characters; either way it starts with the body's first (up to) 100 characters.
   */
  lemma PreviewBounds(body: string)
    ensures |Preview(body)| == if |body| <= 100 then |body| else 103
    ensures var n := if |body| < 100 then |body| else 100; Preview(body)[..n] == body[..n]
  {
  }

  function IdIsNot(id: int): Email -> bool {
    (e: Email) => e.id != id
  }

  /** The page's state. */
  class Inbox {
    var emails: seq<Email>
    var categories: seq<Category>
    var loading: bool
    var error: Option<string>
    var selectedEmail: Option<Email>
    var searchQuery: string
    var selectedCategory: Option<JsNumber>
    var showEmailDetail: bool

    constructor ()
      ensures emails == [] && categories == [] && loading && error == None && selectedEmail == None
      ensures searchQuery == [] && selectedCategory == None && !showEmailDetail
    {
      emails := [];
      categories := [];
      loading := true;
      error := None;
      selectedEmail := None;
      searchQuery := [];
      selectedCategory := None;
      showEmailDetail := false;
    }

    /** fetchEmails: the request carries the current filters; its list replaces the shown one, or the error message shows. */
    method FetchEmails(response: Response<seq<Email>>) returns (params: Params)
      modifies this
      ensures params.search.Some? <==> searchQuery != []
      ensures params.search.Some? ==> params.search.value == searchQuery
      ensures params.categoryId.Some? <==> Truthy(selectedCategory)
      ensures params.categoryId.Some? ==> selectedCategory == Some(Num(params.categoryId.value))
      ensures emails == (if response.Ok? then response.data else old(emails))
      ensures error == (if response.Ok? then old(error) else Some("Failed to load emails. Please try again later."))
      ensures !loading
      ensures selectedEmail == old(selectedEmail) && showEmailDetail == old(showEmailDetail)
      ensures searchQuery == old(searchQuery) && selectedCategory == old(selectedCategory)
      ensures categories == old(categories)
    {
      loading := true;
      params := BuildParams(searchQuery, selectedCategory);
      if response.Ok? {
        emails := response.data;
      } else {
        error := Some("Failed to load emails. Please try again later.");
      }
      loading := false;
    }

    /**
     * fetchCategories: the loaded categories become the filter select's options; a failed
     * request is only logged, and everything stays as it was.
     */
    method FetchCategories(response: Response<seq<Category>>)
      modifies this
      ensures categories == (if response.Ok? then response.data else old(categories))
      ensures emails == old(emails) && loading == old(loading) && error == old(error)
      ensures selectedEmail == old(selectedEmail) && showEmailDetail == old(showEmailDetail)
      ensures searchQuery == old(searchQuery) && selectedCategory == old(selectedCategory)
    {
      if response.Ok? {
        categories := response.data;
      }
    }

    /** The search box; the effect on [searchQuery, selectedCategory] then fetches again. */
    method SetSearchQuery(q: string)
      modifies this
      ensures searchQuery == q
      ensures emails == old(emails) && loading == old(loading) && error == old(error)
      ensures selectedEmail == old(selectedEmail) && showEmailDetail == old(showEmailDetail)
      ensures selectedCategory == old(selectedCategory) && categories == old(categories)
    {
      searchQuery := q;
    }

    /** The category select; the effect on [searchQuery, selectedCategory] then fetches again. */
    method SelectCategory(value: string)
      modifies this
      ensures selectedCategory == CategoryFromSelect(value)
      ensures emails == old(emails) && loading == old(loading) && error == old(error)
      ensures selectedEmail == old(selectedEmail) && showEmailDetail == old(showEmailDetail)
      ensures searchQuery == old(searchQuery) && categories == old(categories)
    {
      selectedCategory := CategoryFromSelect(value);
    }

    /**
     * handleEmailClick: the fetched e-mail opens in the detail pane; `markRead` tells whether
     * the status update to "read" is then sent, which happens iff the clicked list entry was
     * not already read. A failed fetch changes nothing.
     */
    method HandleEmailClick(email: Email, details: Response<Email>) returns (markRead: bool)
      modifies this
      ensures markRead <==> details.Ok? && email.status != "read"
      ensures details.Ok? ==> selectedEmail == Some(details.data) && showEmailDetail
      ensures details.Failed? ==> selectedEmail == old(selectedEmail) && showEmailDetail == old(showEmailDetail)
      ensures emails == old(emails) && loading == old(loading) && error == old(error)
      ensures searchQuery == old(searchQuery) && selectedCategory == old(selectedCategory)
      ensures categories == old(categories)
    {
      markRead := false;
      if details.Ok? {
        selectedEmail := Some(details.data);
        showEmailDetail := true;
        if email.status != "read" {
          markRead := true;
        }
      }
    }

    /** The detail pane's back button. */
    method CloseDetail()
      modifies this
      ensures !showEmailDetail
      ensures emails == old(emails) && loading == old(loading) && error == old(error)
      ensures selectedEmail == old(selectedEmail)
      ensures searchQuery == old(searchQuery) && selectedCategory == old(selectedCategory)
      ensures categories == old(categories)
    {
      showEmailDetail := false;
    }

    /**
     * handleDelete: nothing happens unless the confirm dialog is accepted and the server
     * deletes; then the e-mails with the id leave the list, and the selection and detail
     * pane are cleared iff the selected e-mail had that id.
     */
    method HandleDelete(emailId: int, confirmed: bool, deleted: bool)
      modifies this
      ensures !(confirmed && deleted) ==>
                emails == old(emails) && selectedEmail == old(selectedEmail) && showEmailDetail == old(showEmailDetail)
      ensures confirmed && deleted ==> emails == Filter(old(emails), IdIsNot(emailId))
      ensures confirmed && deleted && old(selectedEmail).Some? && old(selectedEmail).value.id == emailId ==>
                selectedEmail == None && !showEmailDetail
      ensures !(old(selectedEmail).Some? && old(selectedEmail).value.id == emailId) ==>
                selectedEmail == old(selectedEmail) && showEmailDetail == old(showEmailDetail)
      ensures loading == old(loading) && error == old(error)
      ensures searchQuery == old(searchQuery) && selectedCategory == old(selectedCategory)
      ensures categories == old(categories)
    {
      if !confirmed {
        return;
      }
      if deleted {
        emails := Filter(emails, IdIsNot(emailId));
        if selectedEmail.Some? && selectedEmail.value.id == emailId {
          selectedEmail := None;
          showEmailDetail := false;
        }
      }
    }
  }

  /** Delete removes exactly the e-mails with the id: the others stay, as often as they occur and in order. */
  lemma DeleteRemovesExactlyTheId(emails: seq<Email>, id: int, e: Email)
    ensures forall x :: x in Filter(emails, IdIsNot(id)) <==> x in emails && x.id != id
    ensures IsSubsequence(Filter(emails, IdIsNot(id)), emails)
    ensures multiset(Filter(emails, IdIsNot(id)))[e] == if e.id != id then multiset(emails)[e] else 0
  {
    FilterIsSubsequence(emails, IdIsNot(id));
    FilterCount(emails, IdIsNot(id), e);
  }
}
