/**
 * The Kanban board of e-mails: an "Uncategorized" column and one column per category,
 * and the drag-end handler that moves an e-mail to the category of the column it is
 * dropped on. Draggable items carry the e-mail id and droppable columns carry the
 * category id (or "uncategorized"); both reach the handler as strings and go through
 * parseInt.
 */
module KanbanBoard {
  import opened Base
  import opened Lists
  import opened JsString

  datatype Category = Category(
    id: int,
    name: string,
    description: string,
    instructions: string,
    createdAt: string,
    updatedAt: string)

  datatype Email = Email(
    id: int,
    subject: string,
    sender: string,
    body: string,
    category: Option<Category>,
    emailId: string,
    status: string,
    summary: string,
    createdAt: string,
    updatedAt: string,
    urgentText: Option<string>)

  /** The id of the column with no category. */
  const UncategorizedId := "uncategorized"

  // ---------------------------------------------------------------------------
  // Columns
  // ---------------------------------------------------------------------------

  function IsUncategorized(): Email -> bool {
    (e: Email) => e.category.None?
  }

  function InCategory(categoryId: int): Email -> bool {
    (e: Email) => e.category.Some? && e.category.value.id == categoryId
  }

  /** `emails.filter((email) => !email.category)`: a category object is always truthy. */
  function UncategorizedColumn(emails: seq<Email>): (r: seq<Email>)
    ensures forall e :: e in r <==> e in emails && e.category.None?
  {
    Filter(emails, IsUncategorized())
  }

  /** `emails.filter((email) => email.category?.id === category.id)`. */
  function CategoryColumn(emails: seq<Email>, c: Category): (r: seq<Email>)
    ensures forall e :: e in r <==> e in emails && e.category.Some? && e.category.value.id == c.id
  {
    Filter(emails, InCategory(c.id))
  }

  /** Every column lists its e-mails in the order of the list. */
  lemma ColumnsKeepOrder(emails: seq<Email>, c: Category)
    ensures IsSubsequence(UncategorizedColumn(emails), emails)
    ensures IsSubsequence(CategoryColumn(emails, c), emails)
  {
    FilterIsSubsequence(emails, IsUncategorized());
    FilterIsSubsequence(emails, InCategory(c.id));
  }

  /**
   * The columns partition the board: an e-mail shows in the Uncategorized column iff it has
   * no category, in no two columns of different ids, and in some column iff it has no
   * category or its category's id is among the board's categories.
   */
  lemma ColumnsPartition(emails: seq<Email>, categories: seq<Category>, e: Email)
    requires e in emails
    ensures e in UncategorizedColumn(emails) ==> forall c :: c in categories ==> e !in CategoryColumn(emails, c)
    ensures forall c, d :: c in categories && d in categories && c.id != d.id && e in CategoryColumn(emails, c)
              ==> e !in CategoryColumn(emails, d)
    ensures (e in UncategorizedColumn(emails) || exists c :: c in categories && e in CategoryColumn(emails, c))
        <==> (e.category.None? || exists c :: c in categories && c.id == e.category.value.id)
  {
    if e.category.Some? && exists c :: c in categories && c.id == e.category.value.id {
      var c :| c in categories && c.id == e.category.value.id;
      assert e in CategoryColumn(emails, c);
    }
  }

  // ---------------------------------------------------------------------------
  // The move
  // ---------------------------------------------------------------------------

  function HasId(categoryId: int): Category -> bool {
    (c: Category) => c.id == categoryId
  }

  /** `categories.find((c) => c.id === newCategoryId) || null`. */
  function FindCategory(categories: seq<Category>, categoryId: int): (r: Option<Category>)
    ensures r.Some? ==> r.value in categories && r.value.id == categoryId
    ensures r.Some? ==> exists i :: 0 <= i < |categories| && categories[i] == r.value
                                   && forall j :: 0 <= j < i ==> categories[j].id != categoryId
    ensures r.None? <==> forall c :: c in categories ==> c.id != categoryId
  {
    var r := Find(categories, HasId(categoryId));
    assert r.None? <==> forall c :: c in categories ==> c.id != categoryId by {
      if r.Some? {
        assert r.value == categories[FirstIndex(categories, HasId(categoryId))];
      }
    }
    r
  }

  function OtherThan(emailId: int): Email -> bool {
    (e: Email) => e.id != emailId
  }

  /**
   * The state update of a successful move: every e-mail with the id gets the category with
   * the new id, or null when the board has no such category; no other e-mail changes.
   */
  function MoveEmail(emails: seq<Email>, categories: seq<Category>, emailId: int, newCategoryId: int): (r: seq<Email>)
    ensures |r| == |emails|
    ensures forall i :: 0 <= i < |emails| && emails[i].id != emailId ==> r[i] == emails[i]
    ensures forall i :: 0 <= i < |emails| && emails[i].id == emailId ==>
              r[i] == emails[i].(category := FindCategory(categories, newCategoryId))
  {
    seq(|emails|, i requires 0 <= i < |emails| =>
      if emails[i].id == emailId then emails[i].(category := FindCategory(categories, newCategoryId)) else emails[i])
  }

  /**
   * After a move the e-mail shows in the column of the target category when the board has it,
   * and in the Uncategorized column otherwise.
   */
  lemma MovedEmailLandsInTargetColumn(emails: seq<Email>, categories: seq<Category>, emailId: int, newCategoryId: int, i: int)
    requires 0 <= i < |emails| && emails[i].id == emailId
    ensures var r := MoveEmail(emails, categories, emailId, newCategoryId);
            forall c :: c in categories && c.id == newCategoryId ==> r[i] in CategoryColumn(r, c)
    ensures var r := MoveEmail(emails, categories, emailId, newCategoryId);
            (forall c :: c in categories ==> c.id != newCategoryId) ==> r[i] in UncategorizedColumn(r)
  {
    var r := MoveEmail(emails, categories, emailId, newCategoryId);
    assert r[i] in r;
  }

  /** A move leaves every column's share of the other e-mails as it was: the column only gains or loses the moved one. */
  lemma MoveKeepsOtherEmailsInPlace(emails: seq<Email>, categories: seq<Category>, emailId: int, newCategoryId: int, c: Category)
    ensures Filter(CategoryColumn(MoveEmail(emails, categories, emailId, newCategoryId), c), OtherThan(emailId))
         == Filter(CategoryColumn(emails, c), OtherThan(emailId))
  {
    MoveOthersUnchanged(emails, categories, emailId, newCategoryId, InCategory(c.id));
  }

  lemma {:induction false} MoveOthersUnchanged(emails: seq<Email>, categories: seq<Category>, emailId: int, newCategoryId: int, p: Email -> bool)
    ensures Filter(Filter(MoveEmail(emails, categories, emailId, newCategoryId), p), OtherThan(emailId))
         == Filter(Filter(emails, p), OtherThan(emailId))
  {
    var other := OtherThan(emailId);
    if emails != [] {
      var r := MoveEmail(emails, categories, emailId, newCategoryId);
      MoveOthersUnchanged(emails[1..], categories, emailId, newCategoryId, p);
      assert r[1..] == MoveEmail(emails[1..], categories, emailId, newCategoryId);
      if emails[0].id == emailId {
        FilterDropsHead(r, p, other);
        FilterDropsHead(emails, p, other);
      } else {
        assert r[0] == emails[0];
        FilterSameHead(r, emails, p, other);
      }
    }
  }

  /** A head that the outer filter drops does not matter. */
  lemma FilterDropsHead(s: seq<Email>, p: Email -> bool, q: Email -> bool)
    requires s != [] && !q(s[0])
    ensures Filter(Filter(s, p), q) == Filter(Filter(s[1..], p), q)
  {
    if p(s[0]) {
      assert Filter(s, p) == [s[0]] + Filter(s[1..], p);
      assert ([s[0]] + Filter(s[1..], p))[1..] == Filter(s[1..], p);
    }
  }

  lemma FilterSameHead(s: seq<Email>, t: seq<Email>, p: Email -> bool, q: Email -> bool)
    requires s != [] && t != [] && s[0] == t[0]
    requires Filter(Filter(s[1..], p), q) == Filter(Filter(t[1..], p), q)
    ensures Filter(Filter(s, p), q) == Filter(Filter(t, p), q)
  {
    if p(s[0]) {
      assert ([s[0]] + Filter(s[1..], p))[1..] == Filter(s[1..], p);
      assert ([t[0]] + Filter(t[1..], p))[1..] == Filter(t[1..], p);
    }
  }

  /**
   * "uncategorized" does not start with a digit, so parseInt gives NaN for it and a drop on
   * the Uncategorized column always takes HandleDragEnd's "Invalid drag operation" branch.
   */
  lemma UncategorizedIsNotAnId()
    ensures ParseInt(UncategorizedId) == None
  {
    ParseIntWithoutDigit(UncategorizedId);
  }

  /** The board's state. */
  class Board {
    var categories: seq<Category>
    var emails: seq<Email>
    var loading: bool
    var error: Option<string>

    constructor ()
      ensures categories == [] && emails == [] && loading && error == None
    {
      categories := [];
      emails := [];
      loading := true;
      error := None;
    }

    /** fetchData: both lists arrive together, or the error message shows; loading ends either way. */
    method FetchData(response: Response<(seq<Category>, seq<Email>)>)
      modifies this
      ensures response.Ok? ==> categories == response.data.0 && emails == response.data.1 && error == old(error)
      ensures response.Failed? ==>
                categories == old(categories) && emails == old(emails)
                && error == Some("Failed to load data. Please try again later.")
      ensures !loading
    {
      loading := true;
      if response.Ok? {
        categories := response.data.0;
        emails := response.data.1;
      } else {
        error := Some("Failed to load data. Please try again later.");
      }
      loading := false;
    }

    /**
     * handleDragEnd. `activeId` is the dragged item's id and `over` the id of the column under
     * the pointer (None when it is dropped outside every column); `updated` is the outcome of
     * the update request, which is only sent for a drag whose two ids parse.
     */
    method HandleDragEnd(activeId: string, over: Option<string>, updated: bool) returns (toast: Toast)
      modifies this
      ensures categories == old(categories) && loading == old(loading) && error == old(error)
      ensures over.None? ==> emails == old(emails) && toast == NoToast
      ensures over.Some? && (ParseInt(activeId).None? || ParseInt(over.value).None?) ==>
                emails == old(emails) && toast == ToastError("Invalid drag operation")
      ensures over.Some? && ParseInt(activeId).Some? && ParseInt(over.value).Some? && !updated ==>
                emails == old(emails) && toast == ToastError("Failed to move email")
      ensures over.Some? && ParseInt(activeId).Some? && ParseInt(over.value).Some? && updated ==>
                emails == MoveEmail(old(emails), categories, ParseInt(activeId).value, ParseInt(over.value).value)
                && toast == ToastSuccess("Email moved successfully")
    {
      if over.None? {
        return NoToast;
      }
      var emailId := ParseInt(activeId);
      var newCategoryId := ParseInt(over.value);
      if emailId.None? || newCategoryId.None? {
        return ToastError("Invalid drag operation");
      }
      if updated {
        emails := MoveEmail(emails, categories, emailId.value, newCategoryId.value);
        toast := ToastSuccess("Email moved successfully");
      } else {
        toast := ToastError("Failed to move email");
      }
    }
  }

  /** Dragging an e-mail's item onto a category's column passes the parse check with exactly those two ids. */
  lemma DragBetweenBoardIdsParses(e: Email, c: Category)
    ensures ParseInt(IntToString(e.id)) == Some(e.id)
    ensures ParseInt(IntToString(c.id)) == Some(c.id)
  {
    ParseIntToString(e.id);
    ParseIntToString(c.id);
  }
}
