/**
 * The category form's submit handler: the comma-separated list of target e-mail
 * addresses is split on ",", each entry trimmed, the empty entries dropped and the
 * rest joined again with ","; every other field goes to onSave as entered.
 */
module CategoryModal {
  import opened Base
  import opened Lists
  import opened JsString

  /** The form's values (a category as react-hook-form holds it). */
  datatype CategoryForm = CategoryForm(
    id: Option<int>,
    name: string,
    description: string,
    instructions: Option<string>,
    targetEmails: Option<string>)

  /** `.map((email) => email.trim())`. */
  function TrimEach(parts: seq<string>): (r: seq<string>)
    ensures |r| == |parts|
    ensures forall i :: 0 <= i < |parts| ==> r[i] == Trim(parts[i])
  {
    seq(|parts|, i requires 0 <= i < |parts| => Trim(parts[i]))
  }

  /** `.filter((email) => email)`: the empty string is the only falsy string. */
  function NonEmpty(): string -> bool {
    (e: string) => e != []
  }

  /** Every trimmed part is free of commas and is its own trim. */
  lemma TrimmedPartsAreClean(s: string)
    ensures forall e :: e in TrimEach(Split(s, ',')) ==> ',' !in e && Trim(e) == e
  {
    var parts := Split(s, ',');
    var trimmed := TrimEach(parts);
    forall i | 0 <= i < |trimmed|
      ensures ',' !in trimmed[i] && Trim(trimmed[i]) == trimmed[i]
    {
      assert ',' !in parts[i];
      TrimmedIsFixed(trimmed[i]);
    }
  }

  /** The entries that survive: the trimmed parts between commas that are not empty, in order. */
  function KeptEntries(s: string): (r: seq<string>)
    ensures forall e :: e in r ==> e != [] && ',' !in e && Trim(e) == e
  {
    TrimmedPartsAreClean(s);
    Filter(TrimEach(Split(s, ',')), NonEmpty())
  }

  /** The cleaned target_emails: "" for an absent or empty value, otherwise the kept entries joined by ",". */
  function CleanTargetEmails(targetEmails: Option<string>): (r: string)
    ensures targetEmails.None? || targetEmails.value == [] ==> r == []
    ensures targetEmails.Some? && targetEmails.value != [] ==> r == Join(KeptEntries(targetEmails.value), ',')
  {
    if targetEmails.None? || targetEmails.value == [] then []
    else Join(KeptEntries(targetEmails.value), ',')
  }

  /**
   * The cleaned value lists exactly the kept entries: splitting it on "," gives them back, so
   * no entry is empty or padded, and it is "" when no entry is kept.
   */
  lemma CleanedSplitsIntoKeptEntries(s: string)
    requires s != []
    ensures KeptEntries(s) == [] ==> CleanTargetEmails(Some(s)) == []
    ensures KeptEntries(s) != [] ==> Split(CleanTargetEmails(Some(s)), ',') == KeptEntries(s)
  {
    var kept := KeptEntries(s);
    assert CleanTargetEmails(Some(s)) == Join(kept, ',');
    if kept != [] {
      SplitJoinOfEntries(kept);
    }
  }

  /** Trimming entries that are already trimmed changes nothing. */
  lemma TrimEachOfTrimmed(parts: seq<string>)
    requires forall e :: e in parts ==> Trim(e) == e
    ensures TrimEach(parts) == parts
  {
    var r := TrimEach(parts);
    forall i | 0 <= i < |parts|
      ensures r[i] == parts[i]
    {
      assert parts[i] in parts;
    }
  }

  /** Dropping the empty entries of a list without empty entries changes nothing. */
  lemma NonEmptyKeepsAll(parts: seq<string>)
    requires forall e :: e in parts ==> e != []
    ensures Filter(parts, NonEmpty()) == parts
  {
    forall i | 0 <= i < |parts|
      ensures NonEmpty()(parts[i])
    {
      assert parts[i] in parts;
    }
    FilterKeepsAll(parts, NonEmpty());
  }

  /** Joining entries without commas and splitting again gives them back. */
  lemma SplitJoinOfEntries(kept: seq<string>)
    requires kept != []
    requires forall e :: e in kept ==> ',' !in e
    ensures Split(Join(kept, ','), ',') == kept
  {
    forall i | 0 <= i < |kept|
      ensures ',' !in kept[i]
    {
      assert kept[i] in kept;
    }
    SplitJoin(kept, ',');
  }

  /** The cleaning of the kept entries joined together keeps all of them. */
  lemma KeptEntriesOfJoin(kept: seq<string>)
    requires kept != []
    requires forall e :: e in kept ==> e != [] && ',' !in e && Trim(e) == e
    ensures KeptEntries(Join(kept, ',')) == kept
  {
    var j := Join(kept, ',');
    assert Split(j, ',') == kept by { SplitJoinOfEntries(kept); }
    assert TrimEach(kept) == kept by { TrimEachOfTrimmed(kept); }
    assert Filter(kept, NonEmpty()) == kept by { NonEmptyKeepsAll(kept); }
    assert KeptEntries(j) == Filter(TrimEach(Split(j, ',')), NonEmpty());
  }

  /** The kept entries are the non-empty trimmed parts in their original relative order. */
  lemma KeptEntriesInOrder(s: string)
    ensures IsSubsequence(KeptEntries(s), TrimEach(Split(s, ',')))
    ensures forall e :: e in KeptEntries(s) <==> e in TrimEach(Split(s, ',')) && e != []
  {
    FilterIsSubsequence(TrimEach(Split(s, ',')), NonEmpty());
  }

  /** Cleaning a cleaned value changes nothing. */
  lemma CleanIsIdempotent(targetEmails: Option<string>)
    ensures CleanTargetEmails(Some(CleanTargetEmails(targetEmails))) == CleanTargetEmails(targetEmails)
  {
    var r := CleanTargetEmails(targetEmails);
    if r != [] {
      var kept := KeptEntries(targetEmails.value);
      assert r == Join(kept, ',');
      assert kept != [];
      KeptEntriesOfJoin(kept);
    }
  }

  /** onSubmit: onSave receives the entered values with target_emails replaced by the cleaned list. */
  function Submit(data: CategoryForm): (saved: CategoryForm)
    ensures saved.id == data.id && saved.name == data.name && saved.description == data.description
    ensures saved.instructions == data.instructions
    ensures saved.targetEmails == Some(CleanTargetEmails(data.targetEmails))
  {
    data.(targetEmails := Some(CleanTargetEmails(data.targetEmails)))
  }

  /** Submitting a submitted form again sends the same values. */
  lemma SubmitIsIdempotent(data: CategoryForm)
    ensures Submit(Submit(data)) == Submit(data)
  {
    CleanIsIdempotent(data.targetEmails);
  }
}
