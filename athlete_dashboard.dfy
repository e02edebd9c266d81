/** The athlete's own view: the status of each form for the signed-in athlete, the
    progress counts, the status-ordered and searchable form list, and the submit dialog
    that appends a pending submission. */
module AthleteDashboard {
  import opened MockData
  import opened Text
  import opened Collections
  import opened StatusDerivation

  /** `sub${submissions.length + 1}`. */
  function NextSubmissionId(subs: seq<Submission>): (r: string)
    ensures |r| > 3 && r[..3] == "sub" && r[3] != '0'
    ensures forall i :: 3 <= i < |r| ==> IsDigit(r[i])
    ensures DecimalValue(r[3..]) == |subs| + 1
  {
    var digits := Decimal(|subs| + 1);
    DecimalRoundTrip(|subs| + 1);
    assert ("sub" + digits)[3..] == digits;
    "sub" + digits
  }

  /** The placeholder link recorded for a chosen file, from its name alone. */
  function UploadedUrl(fileName: Option<string>): (r: Option<string>)
    ensures r.None? <==> fileName.None?
    ensures fileName.Some? ==> r.value == "https://example.com/" + fileName.value
  {
    match fileName
    case None => None
    case Some(name) => Some("https://example.com/" + name)
  }

  /** The record `handleSubmit` appends for `formId`. */
  function NewSubmission(subs: seq<Submission>, user: User, formId: string, notes: string,
                         fileName: Option<string>, now: int): (r: Submission)
    requires user.teamId.Some?
    ensures r.id == NextSubmissionId(subs) && r.status == Pending
    ensures IsFor(r, user.id, formId) && r.teamId == user.teamId.value
    ensures r.notes == Some(notes) && r.documentUrl == UploadedUrl(fileName) && r.reviewNotes.None?
    ensures r.athleteName == user.name && r.submittedAt == now
  {
    Submission(NextSubmissionId(subs), formId, user.id, user.name, user.teamId.value, now,
      Pending, UploadedUrl(fileName), Some(notes), None)
  }

  /** What submitting does to every (athlete, form) status: the submitted pair becomes
      pending when it had no submission, and no other pair changes. A pair that was
      already submitted keeps its status, because the first match wins. */
  lemma SubmitStatusEffect(subs: seq<Submission>, user: User, formId: string, notes: string,
                           fileName: Option<string>, now: int, athleteId: string, otherFormId: string)
    requires user.teamId.Some?
    ensures DerivedStatus(subs + [NewSubmission(subs, user, formId, notes, fileName, now)], athleteId, otherFormId) ==
      if athleteId == user.id && otherFormId == formId && NoneFor(subs, athleteId, otherFormId) then Pending
      else DerivedStatus(subs, athleteId, otherFormId)
  {
    var x := NewSubmission(subs, user, formId, notes, fileName, now);
    DerivedStatusAppend(subs, x, athleteId, otherFormId);
  }

  /** As long as submission ids are `sub1`, `sub2`, ... (nothing ever deletes a
      submission), the generated id is new and the numbering continues. */
  lemma SubmitKeepsIdsNumbered(subs: seq<Submission>, user: User, formId: string, notes: string,
                               fileName: Option<string>, now: int)
    requires user.teamId.Some?
    requires NumberedFromOne(SubmissionIds(subs), "sub")
    ensures NextSubmissionId(subs) !in SubmissionIds(subs)
    ensures NumberedFromOne(SubmissionIds(subs + [NewSubmission(subs, user, formId, notes, fileName, now)]), "sub")
  {
    NextNumberedIdFresh(SubmissionIds(subs), "sub");
  }

  /** `completedCount`, `pendingCount` and `totalCount`. */
  datatype Progress = Progress(completed: nat, pending: nat, total: nat)

  function ProgressOf(forms: seq<Form>, subs: seq<Submission>, athleteId: string): (r: Progress)
    ensures r.total == |forms|
    ensures r.completed == |FormsWithStatus(forms, subs, athleteId, Approved)|
    ensures r.pending == |FormsWithStatus(forms, subs, athleteId, Pending)|
    ensures r.completed + r.pending <= r.total
    ensures r.completed + r.pending == r.total <==> |FormsWithStatus(forms, subs, athleteId, NotSubmitted)| == 0
  {
    StatusCountsPartition(forms, subs, athleteId);
    Progress(|FormsWithStatus(forms, subs, athleteId, Approved)|,
             |FormsWithStatus(forms, subs, athleteId, Pending)|,
             |forms|)
  }

  /** The order of the list: not submitted, then pending, then approved. */
  function StatusRank(st: Status): int {
    match st
    case NotSubmitted => 0
    case Pending => 1
    case Approved => 2
  }

  /** The comparator key of `sortedForms` for one athlete. */
  function RankKey(subs: seq<Submission>, athleteId: string): Form -> int {
    (f: Form) => StatusRank(DerivedStatus(subs, athleteId, f.id))
  }

  /** `sortedForms`: a sorted copy of `forms`; `forms` itself is left in its order. */
  function SortedForms(forms: seq<Form>, subs: seq<Submission>, athleteId: string): (r: seq<Form>)
    ensures multiset(r) == multiset(forms)
    ensures |r| == |forms|
  {
    var r := SortBy(forms, RankKey(subs, athleteId));
    assert |multiset(r)| == |multiset(forms)|;
    r
  }

  /** `sortedForms` holds the same forms as `forms`, not-submitted ones first, then
      pending, then approved, and within one status in their original order. */
  lemma SortedFormsOrder(forms: seq<Form>, subs: seq<Submission>, athleteId: string, st: Status)
    ensures multiset(SortedForms(forms, subs, athleteId)) == multiset(forms)
    ensures forall i, j :: 0 <= i < j < |SortedForms(forms, subs, athleteId)| ==>
      StatusRank(DerivedStatus(subs, athleteId, SortedForms(forms, subs, athleteId)[i].id)) <=
      StatusRank(DerivedStatus(subs, athleteId, SortedForms(forms, subs, athleteId)[j].id))
    ensures Filter(SortedForms(forms, subs, athleteId), KeyIs(RankKey(subs, athleteId), StatusRank(st))) ==
      Filter(forms, KeyIs(RankKey(subs, athleteId), StatusRank(st)))
  {
    var key := RankKey(subs, athleteId);
    var r := SortedForms(forms, subs, athleteId);
    assert SortedBy(r, key);
    forall i, j | 0 <= i < j < |r|
      ensures StatusRank(DerivedStatus(subs, athleteId, r[i].id)) <= StatusRank(DerivedStatus(subs, athleteId, r[j].id))
    {
      assert key(r[i]) <= key(r[j]);
    }
    SortByStable(forms, key, StatusRank(st));
  }

  /** The search of the form list: the query, lower-cased, occurs in the lower-cased
      title or description. */
  predicate FormMatches(f: Form, query: string) {
    MatchesQuery(f.title, query) || MatchesQuery(f.description, query)
  }

  function SearchKey(query: string): Form -> bool {
    (f: Form) => FormMatches(f, query)
  }

  /** `filteredForms`: the sorted list restricted to the forms the search matches. */
  function FilteredForms(forms: seq<Form>, subs: seq<Submission>, athleteId: string, query: string): (r: seq<Form>)
    ensures forall f :: f in r <==> f in forms && FormMatches(f, query)
    ensures SortedBy(r, RankKey(subs, athleteId))
  {
    var sorted := SortedForms(forms, subs, athleteId);
    FilterMember(sorted, SearchKey(query));
    FilterSorted(sorted, SearchKey(query), RankKey(subs, athleteId));
    SortByMember(forms, RankKey(subs, athleteId));
    Filter(sorted, SearchKey(query))
  }

  /** An empty search shows the whole sorted list. */
  lemma EmptySearchShowsAll(forms: seq<Form>, subs: seq<Submission>, athleteId: string)
    ensures FilteredForms(forms, subs, athleteId, "") == SortedForms(forms, subs, athleteId)
  {
    var sorted := SortedForms(forms, subs, athleteId);
    forall i | 0 <= i < |sorted|
      ensures SearchKey("")(sorted[i])
    {
      EmptyQueryMatches(sorted[i].title);
    }
    FilterAll(sorted, SearchKey(""));
  }

  /** The state of one athlete's dashboard: the submissions it may replace, and the
      submit dialog's selected form, notes and chosen file name. */
  class Dashboard {
    const user: User
    var submissions: seq<Submission>
    var selectedFormId: Option<string>
    var submissionNotes: string
    var selectedFile: Option<string>

    constructor (user: User, submissions: seq<Submission>)
      ensures this.user == user && this.submissions == submissions
      ensures selectedFormId == None && submissionNotes == "" && selectedFile == None
    {
      this.user := user;
      this.submissions := submissions;
      selectedFormId := None;
      submissionNotes := "";
      selectedFile := None;
    }

    /** `handleSubmit`: with no form selected nothing happens; otherwise one pending
        submission is appended and the dialog is reset. */
    method HandleSubmit(now: int)
      requires user.teamId.Some?
      modifies this
      ensures !IsSet(old(selectedFormId)) ==>
        && submissions == old(submissions)
        && selectedFormId == old(selectedFormId)
        && submissionNotes == old(submissionNotes)
        && selectedFile == old(selectedFile)
      ensures IsSet(old(selectedFormId)) ==>
        && submissions == old(submissions) +
             [NewSubmission(old(submissions), user, old(selectedFormId).value, old(submissionNotes), old(selectedFile), now)]
        && selectedFormId == None
        && submissionNotes == ""
        && selectedFile == None
    {
      if !IsSet(selectedFormId) {
        return;
      }
      var submission := NewSubmission(submissions, user, selectedFormId.value, submissionNotes, selectedFile, now);
      submissions := submissions + [submission];
      selectedFormId := None;
      submissionNotes := "";
      selectedFile := None;
    }
  }
}
