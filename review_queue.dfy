/** The director's review queue: the pending submissions, newest first, and the one
    transition of the workflow, pending to approved, with the reviewer's notes. */
module ReviewQueue {
  import opened MockData
  import opened Collections
  import opened StatusDerivation

  predicate IsPending(s: Submission) {
    s.status == Pending
  }

  /** `submissions.filter(s => s.status === "pending")`. */
  function PendingOnly(subs: seq<Submission>): (r: seq<Submission>)
    ensures forall x :: x in r <==> x in subs && x.status == Pending
  {
    FilterMember(subs, IsPending);
    Filter(subs, IsPending)
  }

  /** The sort key of `(a, b) => b.submittedAt - a.submittedAt`: newest first. */
  function NewestFirstKey(s: Submission): int {
    -s.submittedAt
  }

  /** `pendingSubmissions`: the pending ones, sorted newest first on a copy. */
  function PendingSubmissions(subs: seq<Submission>): (r: seq<Submission>)
    ensures multiset(r) == multiset(PendingOnly(subs))
    ensures |r| <= |subs|
  {
    var r := SortBy(PendingOnly(subs), NewestFirstKey);
    assert |multiset(r)| == |multiset(PendingOnly(subs))|;
    r
  }

  /** The queue holds exactly the pending submissions, each as often as it is stored. */
  lemma PendingQueueMembers(subs: seq<Submission>)
    ensures forall x :: multiset(PendingSubmissions(subs))[x] == if x.status == Pending then multiset(subs)[x] else 0
  {
    FilterCount(subs, IsPending);
  }

  /** The queue is ordered newest first. */
  lemma PendingQueueNewestFirst(subs: seq<Submission>)
    ensures forall i, j :: 0 <= i < j < |PendingSubmissions(subs)| ==>
      PendingSubmissions(subs)[i].submittedAt >= PendingSubmissions(subs)[j].submittedAt
  {
    var r := PendingSubmissions(subs);
    assert SortedBy(r, NewestFirstKey);
    forall i, j | 0 <= i < j < |r|
      ensures r[i].submittedAt >= r[j].submittedAt
    {
      assert NewestFirstKey(r[i]) <= NewestFirstKey(r[j]);
    }
  }

  /** Pending submissions of the same instant stay in stored order. */
  lemma PendingQueueStable(subs: seq<Submission>, instant: int)
    ensures Filter(PendingSubmissions(subs), KeyIs(NewestFirstKey, -instant)) ==
      Filter(PendingOnly(subs), KeyIs(NewestFirstKey, -instant))
  {
    SortByStable(PendingOnly(subs), NewestFirstKey, -instant);
  }

  /** The record `{ ...sub, status: "approved", reviewNotes }`. */
  function ApproveOne(sub: Submission, notes: string): (r: Submission)
    ensures r.status == Approved && r.reviewNotes == Some(notes)
    ensures r.(status := sub.status, reviewNotes := sub.reviewNotes) == sub
  {
    sub.(status := Approved, reviewNotes := Some(notes))
  }

  /** `submissions.map(sub => sub.id === submissionId ? approved copy : sub)`. */
  function ApproveById(subs: seq<Submission>, submissionId: string, notes: string): (r: seq<Submission>)
    ensures |r| == |subs|
    ensures forall i :: 0 <= i < |subs| && subs[i].id == submissionId ==>
      && r[i].status == Approved
      && r[i].reviewNotes == Some(notes)
      && r[i].(status := subs[i].status, reviewNotes := subs[i].reviewNotes) == subs[i]
    ensures forall i :: 0 <= i < |subs| && subs[i].id != submissionId ==> r[i] == subs[i]
  {
    seq(|subs|, i requires 0 <= i < |subs| =>
      if subs[i].id == submissionId then ApproveOne(subs[i], notes) else subs[i])
  }

  lemma ApproveByIdCons(subs: seq<Submission>, submissionId: string, notes: string)
    requires |subs| > 0
    ensures ApproveById(subs, submissionId, notes) ==
      [if subs[0].id == submissionId then ApproveOne(subs[0], notes) else subs[0]] +
      ApproveById(subs[1..], submissionId, notes)
  {
  }

  /** Approving an id no submission carries changes nothing. */
  lemma ApproveUnknownId(subs: seq<Submission>, submissionId: string, notes: string)
    requires submissionId !in SubmissionIds(subs)
    ensures ApproveById(subs, submissionId, notes) == subs
  {
    assert forall i :: 0 <= i < |subs| ==> subs[i].id != submissionId by {
      forall i | 0 <= i < |subs| ensures subs[i].id != submissionId {
        assert SubmissionIds(subs)[i] == subs[i].id;
      }
    }
  }

  /** Approving twice with the same notes is approving once. */
  lemma ApproveIdempotent(subs: seq<Submission>, submissionId: string, notes: string)
    ensures ApproveById(ApproveById(subs, submissionId, notes), submissionId, notes) ==
      ApproveById(subs, submissionId, notes)
  {
  }

  /** Approval keeps every id in place, so the `sub1`, `sub2`, ... numbering survives it. */
  lemma ApproveKeepsIds(subs: seq<Submission>, submissionId: string, notes: string)
    ensures SubmissionIds(ApproveById(subs, submissionId, notes)) == SubmissionIds(subs)
  {
  }

  /** After approving `submissionId`, the queue holds no submission with that id. */
  lemma ApprovedLeavesQueue(subs: seq<Submission>, submissionId: string, notes: string)
    ensures forall x :: x in PendingSubmissions(ApproveById(subs, submissionId, notes)) ==> x.id != submissionId
  {
    var after := ApproveById(subs, submissionId, notes);
    PendingQueueMembers(after);
    forall x | x in PendingSubmissions(after)
      ensures x.id != submissionId
    {
      assert x in multiset(PendingSubmissions(after));
      assert x in multiset(after);
      var i :| 0 <= i < |after| && after[i] == x;
    }
  }

  predicate IsPendingWithId(s: Submission, submissionId: string) {
    s.status == Pending && s.id == submissionId
  }

  /** The pending records carrying `submissionId`. */
  function PendingWithId(subs: seq<Submission>, submissionId: string): seq<Submission> {
    Filter(subs, (s: Submission) => IsPendingWithId(s, submissionId))
  }

  /** Approval shrinks the queue by exactly the pending records with the approved id. */
  lemma {:induction false} ApprovePendingCount(subs: seq<Submission>, submissionId: string, notes: string)
    ensures |PendingOnly(ApproveById(subs, submissionId, notes))| ==
      |PendingOnly(subs)| - |PendingWithId(subs, submissionId)|
  {
    if |subs| > 0 {
      ApproveByIdCons(subs, submissionId, notes);
      ApprovePendingCount(subs[1..], submissionId, notes);
    }
  }

  /** How approval changes a pair's derived status: it becomes approved when the pair's
      first submission carries the approved id, and stays as it was otherwise. */
  lemma ApproveStatusEffect(subs: seq<Submission>, submissionId: string, notes: string,
                            athleteId: string, formId: string)
    ensures DerivedStatus(ApproveById(subs, submissionId, notes), athleteId, formId) ==
      match FindSubmission(subs, athleteId, formId)
      case Some(s) => if s.id == submissionId then Approved else s.status
      case None => NotSubmitted
  {
    var after := ApproveById(subs, submissionId, notes);
    assert forall i :: 0 <= i < |subs| ==> (IsFor(after[i], athleteId, formId) <==> IsFor(subs[i], athleteId, formId));
    match FirstFor(subs, athleteId, formId)
    case None =>
      assert NoneFor(after, athleteId, formId);
    case Some(k) =>
      assert IsFirstFor(after, athleteId, formId, k);
  }

  /** A concrete approval: with the seed submission "sub1" as the only, pending, record,
      approving it with the notes "Looks good" approves it and empties the queue. */
  lemma ApproveExample()
    ensures ApproveById([MockSubmissions[0]], "sub1", "Looks good") ==
      [MockSubmissions[0].(status := Approved, reviewNotes := Some("Looks good"))]
    ensures PendingSubmissions(ApproveById([MockSubmissions[0]], "sub1", "Looks good")) == []
  {
    var after := ApproveById([MockSubmissions[0]], "sub1", "Looks good");
    assert after[0].status == Approved;
    assert PendingOnly(after) == [];
  }

  /** The review dialog's state: the submissions it may replace, the submission being
      reviewed and the notes typed for it. */
  class Queue {
    var submissions: seq<Submission>
    var selectedSubmission: Option<string>
    var reviewNotes: string

    constructor (submissions: seq<Submission>)
      ensures this.submissions == submissions
      ensures selectedSubmission == None && reviewNotes == ""
    {
      this.submissions := submissions;
      selectedSubmission := None;
      reviewNotes := "";
    }

    /** `handleApprove`: approve every submission with the id, with the typed notes,
        then close the dialog and clear the notes. */
    method HandleApprove(submissionId: string)
      modifies this
      ensures submissions == ApproveById(old(submissions), submissionId, old(reviewNotes))
      ensures selectedSubmission == None && reviewNotes == ""
    {
      submissions := ApproveById(submissions, submissionId, reviewNotes);
      selectedSubmission := None;
      reviewNotes := "";
    }

    /** The dialog's Approve button: `selectedSubmission && handleApprove(selectedSubmission)`. */
    method ApproveSelected()
      modifies this
      ensures !IsSet(old(selectedSubmission)) ==>
        submissions == old(submissions) && selectedSubmission == old(selectedSubmission) && reviewNotes == old(reviewNotes)
      ensures IsSet(old(selectedSubmission)) ==>
        && submissions == ApproveById(old(submissions), old(selectedSubmission).value, old(reviewNotes))
        && selectedSubmission == None
        && reviewNotes == ""
    {
      if IsSet(selectedSubmission) {
        HandleApprove(selectedSubmission.value);
      }
    }
  }
}
