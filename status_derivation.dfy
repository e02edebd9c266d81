/** The derived status of an (athlete, form) pair and the per-athlete counts built on it.
    AthleteDashboard, AthleteOverview and CoachDashboard each carry an identical copy of
    this lookup (`getFormStatus`, `getSubmissionStatus`, `getSubmission`,
    `getFormSubmission`, the `getStatusText` label); it is modelled once here. */
module StatusDerivation {
  import opened MockData
  import opened Collections

  /** The predicate handed to `submissions.find`. */
  predicate IsFor(s: Submission, athleteId: string, formId: string) {
    s.athleteId == athleteId && s.formId == formId
  }

  /** Position `i` holds the first submission for the pair. */
  predicate IsFirstFor(subs: seq<Submission>, athleteId: string, formId: string, i: int) {
    && 0 <= i < |subs|
    && IsFor(subs[i], athleteId, formId)
    && forall j :: 0 <= j < i ==> !IsFor(subs[j], athleteId, formId)
  }

  /** No submission is for the pair. */
  predicate NoneFor(subs: seq<Submission>, athleteId: string, formId: string) {
    forall i :: 0 <= i < |subs| ==> !IsFor(subs[i], athleteId, formId)
  }

  /** Where `find` stops: the position of the first submission for the pair. */
  function FirstFor(subs: seq<Submission>, athleteId: string, formId: string): (r: Option<nat>)
    ensures r.None? <==> NoneFor(subs, athleteId, formId)
    ensures r.Some? ==> IsFirstFor(subs, athleteId, formId, r.value)
  {
    if |subs| == 0 then None
    else if IsFor(subs[0], athleteId, formId) then Some(0)
    else match FirstFor(subs[1..], athleteId, formId)
      case None => None
      case Some(k) => Some(k + 1)
  }

  /** The first position for a pair is unique. */
  lemma FirstForUnique(subs: seq<Submission>, athleteId: string, formId: string, i: int, j: int)
    requires IsFirstFor(subs, athleteId, formId, i) && IsFirstFor(subs, athleteId, formId, j)
    ensures i == j
  {
  }

  /** `getFormSubmission` / `getSubmission`: the first submission for the pair, if any. */
  function FindSubmission(subs: seq<Submission>, athleteId: string, formId: string): (r: Option<Submission>)
    ensures r.None? <==> NoneFor(subs, athleteId, formId)
    ensures forall i :: IsFirstFor(subs, athleteId, formId, i) ==> r == Some(subs[i])
  {
    match FirstFor(subs, athleteId, formId)
    case None => None
    case Some(k) =>
      forall i | IsFirstFor(subs, athleteId, formId, i)
        ensures i == k
      {
        FirstForUnique(subs, athleteId, formId, i, k);
      }
      Some(subs[k])
  }

  /** `getFormStatus` / `getSubmissionStatus`: `find(...)?.status || "not_submitted"`.
      Every status literal is a non-empty string, so the `||` falls back only when
      nothing was found. */
  function DerivedStatus(subs: seq<Submission>, athleteId: string, formId: string): (r: Status)
    ensures NoneFor(subs, athleteId, formId) ==> r == NotSubmitted
    ensures forall i :: IsFirstFor(subs, athleteId, formId, i) ==> r == subs[i].status
  {
    match FindSubmission(subs, athleteId, formId)
    case None => NotSubmitted
    case Some(s) => s.status
  }

  /** Every stored submission is `pending` or `approved`. */
  predicate AllStored(subs: seq<Submission>) {
    forall i :: 0 <= i < |subs| ==> subs[i].status != NotSubmitted
  }

  /** Over stored submissions, a pair reads `not_submitted` exactly when no submission
      is for it. */
  lemma NotSubmittedIffNoSubmission(subs: seq<Submission>, athleteId: string, formId: string)
    requires AllStored(subs)
    ensures DerivedStatus(subs, athleteId, formId) == NotSubmitted <==> NoneFor(subs, athleteId, formId)
  {
    match FirstFor(subs, athleteId, formId)
    case None =>
    case Some(k) =>
  }

  /** Appending a submission changes a pair's status only when the pair had none:
      the first match wins. */
  lemma DerivedStatusAppend(subs: seq<Submission>, x: Submission, athleteId: string, formId: string)
    ensures DerivedStatus(subs + [x], athleteId, formId) ==
      if !NoneFor(subs, athleteId, formId) then DerivedStatus(subs, athleteId, formId)
      else if IsFor(x, athleteId, formId) then x.status
      else NotSubmitted
  {
    var all := subs + [x];
    match FirstFor(subs, athleteId, formId)
    case Some(k) =>
      assert IsFirstFor(all, athleteId, formId, k);
    case None =>
      if IsFor(x, athleteId, formId) {
        assert IsFirstFor(all, athleteId, formId, |subs|);
      } else {
        assert NoneFor(all, athleteId, formId);
      }
  }

  /** `forms.filter(f => status(athlete, f.id) === st)`. */
  function FormsWithStatus(forms: seq<Form>, subs: seq<Submission>, athleteId: string, st: Status): (r: seq<Form>)
    ensures forall f :: f in r <==> f in forms && DerivedStatus(subs, athleteId, f.id) == st
    ensures forall f :: multiset(r)[f] == if DerivedStatus(subs, athleteId, f.id) == st then multiset(forms)[f] else 0
  {
    var p := (f: Form) => DerivedStatus(subs, athleteId, f.id) == st;
    FilterMember(forms, p);
    FilterCount(forms, p);
    Filter(forms, p)
  }

  /** Each form has exactly one derived status, so the three status counts of an athlete
      add up to the number of forms. */
  lemma {:induction false} StatusCountsPartition(forms: seq<Form>, subs: seq<Submission>, athleteId: string)
    ensures |FormsWithStatus(forms, subs, athleteId, Approved)|
          + |FormsWithStatus(forms, subs, athleteId, Pending)|
          + |FormsWithStatus(forms, subs, athleteId, NotSubmitted)| == |forms|
  {
    if |forms| > 0 {
      StatusCountsPartition(forms[1..], subs, athleteId);
    }
  }

  /** The TypeScript literal of a status. */
  function StatusLiteral(st: Status): string {
    match st
    case NotSubmitted => "not_submitted"
    case Pending => "pending"
    case Approved => "approved"
  }

  /** The three literals are distinct, and none is the empty string, so
      `submission?.status || "not_submitted"` keeps every stored status. */
  lemma StatusLiteralsDistinct(st: Status, other: Status)
    ensures StatusLiteral(st) != ""
    ensures StatusLiteral(st) == StatusLiteral(other) ==> st == other
  {
  }

  /** The lookup as the views write it, on strings: `find(...)?.status` is the empty
      string's stand-in `""` when nothing is found, and `|| "not_submitted"` replaces
      every falsy string. */
  function StatusString(subs: seq<Submission>, athleteId: string, formId: string): string {
    var found := match FindSubmission(subs, athleteId, formId)
      case None => ""
      case Some(s) => StatusLiteral(s.status);
    if found == "" then "not_submitted" else found
  }

  /** The `||` fallback never replaces a stored status, so the string the views read is
      the literal of the derived status, and `getSubmission` and `getSubmissionStatus`
      agree. */
  lemma StatusStringIsDerived(subs: seq<Submission>, athleteId: string, formId: string)
    ensures StatusString(subs, athleteId, formId) == StatusLiteral(DerivedStatus(subs, athleteId, formId))
  {
    match FindSubmission(subs, athleteId, formId)
    case None =>
    case Some(s) =>
      StatusLiteralsDistinct(s.status, s.status);
  }

  /** `getStatusText`: the label shown for a status string; anything that is not
      "approved" or "pending" reads "Not Submitted". */
  function StatusText(status: string): (r: string)
    ensures r == "Approved" <==> status == "approved"
    ensures r == "Pending" <==> status == "pending"
    ensures r == "Not Submitted" <==> status != "approved" && status != "pending"
  {
    if status == "approved" then "Approved"
    else if status == "pending" then "Pending"
    else "Not Submitted"
  }

  /** The label of each status, and distinct statuses get distinct labels. */
  lemma StatusTextOfStatus(st: Status, other: Status)
    ensures StatusText(StatusLiteral(st)) ==
      match st
      case Approved => "Approved"
      case Pending => "Pending"
      case NotSubmitted => "Not Submitted"
    ensures StatusText(StatusLiteral(st)) == StatusText(StatusLiteral(other)) ==> st == other
  {
  }
}
