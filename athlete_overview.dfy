/** The director's overview of every athlete: per-athlete completion counts and
    expandable rows. */
module AthleteOverview {
  import opened MockData
  import opened Collections
  import opened StatusDerivation

  /** The record `getCompletionStats` returns. */
  datatype CompletionStats = CompletionStats(total: int, approved: int, pending: int, notSubmitted: int)

  /** `getCompletionStats`: `notSubmitted` is computed as `total - approved - pending`,
      and it is never negative because every form has exactly one derived status. */
  function Stats(forms: seq<Form>, subs: seq<Submission>, athleteId: string): (r: CompletionStats)
    ensures r.total == |forms|
    ensures r.approved == |FormsWithStatus(forms, subs, athleteId, Approved)|
    ensures r.pending == |FormsWithStatus(forms, subs, athleteId, Pending)|
    ensures r.approved >= 0 && r.pending >= 0 && r.notSubmitted >= 0
    ensures r.approved + r.pending + r.notSubmitted == r.total
    ensures r.notSubmitted == |FormsWithStatus(forms, subs, athleteId, NotSubmitted)|
  {
    StatusCountsPartition(forms, subs, athleteId);
    var total := |forms|;
    var approved := |FormsWithStatus(forms, subs, athleteId, Approved)|;
    var pending := |FormsWithStatus(forms, subs, athleteId, Pending)|;
    CompletionStats(total, approved, pending, total - approved - pending)
  }

  /** The state of the overview: which athletes' rows are expanded. */
  class Overview {
    var expandedAthletes: set<string>

    constructor ()
      ensures expandedAthletes == {}
    {
      expandedAthletes := {};
    }

    /** `toggleAthlete`: copy the set, add or delete the id on the copy, store the copy. */
    method ToggleAthlete(athleteId: string)
      modifies this
      ensures expandedAthletes == Toggled(old(expandedAthletes), athleteId)
    {
      var newExpanded := expandedAthletes;
      if athleteId in newExpanded {
        newExpanded := newExpanded - {athleteId};
      } else {
        newExpanded := newExpanded + {athleteId};
      }
      expandedAthletes := newExpanded;
    }
  }
}
