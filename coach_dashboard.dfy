/** The coach's view of one team: the roster of the coach's team, searchable by name,
    each athlete with an approved-of-total count and an expandable row. */
module CoachDashboard {
  import opened MockData
  import opened Text
  import opened Collections
  import opened StatusDerivation

  /** `a.teamId === user.teamId`: a user without a team matches no athlete. */
  predicate OnTeam(a: Athlete, teamId: Option<string>) {
    teamId == Some(a.teamId)
  }

  function OnTeamKey(teamId: Option<string>): Athlete -> bool {
    (a: Athlete) => OnTeam(a, teamId)
  }

  /** `teamAthletes`: the athletes of the coach's team, in roster order. */
  function TeamAthletes(athletes: seq<Athlete>, teamId: Option<string>): (r: seq<Athlete>)
    ensures forall a :: a in r <==> a in athletes && teamId == Some(a.teamId)
    ensures forall a :: multiset(r)[a] == if teamId == Some(a.teamId) then multiset(athletes)[a] else 0
  {
    FilterMember(athletes, OnTeamKey(teamId));
    FilterCount(athletes, OnTeamKey(teamId));
    Filter(athletes, OnTeamKey(teamId))
  }

  /** Rosters keep roster order: splitting the athletes splits the roster. */
  lemma TeamAthletesAppend(a: seq<Athlete>, b: seq<Athlete>, teamId: Option<string>)
    ensures TeamAthletes(a + b, teamId) == TeamAthletes(a, teamId) + TeamAthletes(b, teamId)
  {
    FilterAppend(a, b, OnTeamKey(teamId));
  }

  /** A user without a team sees an empty roster. */
  lemma NoTeamNoRoster(athletes: seq<Athlete>)
    ensures TeamAthletes(athletes, None) == []
  {
    NoneOnTeam(athletes, None);
  }

  /** A roster with nobody on the team filters to nothing. */
  lemma NoneOnTeam(athletes: seq<Athlete>, teamId: Option<string>)
    requires forall i :: 0 <= i < |athletes| ==> teamId != Some(athletes[i].teamId)
    ensures TeamAthletes(athletes, teamId) == []
  {
    var r := TeamAthletes(athletes, teamId);
    assert forall a :: a !in r;
  }

  /** The roster search: the lower-cased query occurs in the lower-cased name. */
  function NameSearch(query: string): Athlete -> bool {
    (a: Athlete) => MatchesQuery(a.name, query)
  }

  function ShownRoster(athletes: seq<Athlete>, teamId: Option<string>, query: string): (r: seq<Athlete>)
    ensures forall a :: a in r <==> a in athletes && teamId == Some(a.teamId) && MatchesQuery(a.name, query)
  {
    var team := TeamAthletes(athletes, teamId);
    FilterMember(team, NameSearch(query));
    Filter(team, NameSearch(query))
  }

  /** An empty search shows the whole team. */
  lemma EmptySearchShowsTeam(athletes: seq<Athlete>, teamId: Option<string>)
    ensures ShownRoster(athletes, teamId, "") == TeamAthletes(athletes, teamId)
  {
    var team := TeamAthletes(athletes, teamId);
    forall i | 0 <= i < |team|
      ensures NameSearch("")(team[i])
    {
      EmptyQueryMatches(team[i].name);
    }
    FilterAll(team, NameSearch(""));
  }

  /** The record `getCompletionStats` returns here. */
  datatype CoachStats = CoachStats(total: int, approved: int)

  function Stats(forms: seq<Form>, subs: seq<Submission>, athleteId: string): (r: CoachStats)
    ensures r.total == |forms|
    ensures r.approved == |FormsWithStatus(forms, subs, athleteId, Approved)|
    ensures 0 <= r.approved <= r.total
    ensures r.approved == r.total <==>
      |FormsWithStatus(forms, subs, athleteId, Pending)| + |FormsWithStatus(forms, subs, athleteId, NotSubmitted)| == 0
  {
    StatusCountsPartition(forms, subs, athleteId);
    CoachStats(|forms|, |FormsWithStatus(forms, subs, athleteId, Approved)|)
  }

  /** The state of the coach's view: the expanded rows and the search box. */
  class Dashboard {
    const user: User
    var expandedAthletes: set<string>
    var searchQuery: string

    constructor (user: User)
      ensures this.user == user && expandedAthletes == {} && searchQuery == ""
    {
      this.user := user;
      expandedAthletes := {};
      searchQuery := "";
    }

    /** `toggleAthlete`: copy the set, add or delete the id on the copy, store the copy. */
    method ToggleAthlete(athleteId: string)
      modifies this
      ensures expandedAthletes == Toggled(old(expandedAthletes), athleteId)
      ensures searchQuery == old(searchQuery)
    {
      var newExpanded := expandedAthletes;
      if athleteId in newExpanded {
        newExpanded := newExpanded - {athleteId};
      } else {
        newExpanded := newExpanded + {athleteId};
      }
      expandedAthletes := newExpanded;
    }

    /** Typing in the search box. */
    method SetSearchQuery(query: string)
      modifies this
      ensures searchQuery == query && expandedAthletes == old(expandedAthletes)
    {
      searchQuery := query;
    }
  }
}
