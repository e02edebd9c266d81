/** The records of the compliance-form store and the seed collections the application
    starts from. Dates are `Date.getTime()` values: milliseconds since the epoch, at
    midnight UTC of the literal date. */
module MockData {
  import opened Text

  datatype Option<T> = None | Some(value: T)

  /** The three values a submission's `status` may hold. No stored record uses
      `NotSubmitted`; the views derive it for a form that has no submission. */
  datatype Status = NotSubmitted | Pending | Approved

  datatype Form = Form(
    id: string,
    title: string,
    description: string,
    createdAt: int,
    documentUrl: Option<string>)

  datatype Submission = Submission(
    id: string,
    formId: string,
    athleteId: string,
    athleteName: string,
    teamId: string,
    submittedAt: int,
    status: Status,
    documentUrl: Option<string>,
    notes: Option<string>,
    reviewNotes: Option<string>)

  datatype Team = Team(id: string, name: string, sport: string)

  datatype Athlete = Athlete(id: string, name: string, teamId: string, email: string)

  /** A `string | null` id in a JavaScript condition: `null` and `""` are both false. */
  predicate IsSet(id: Option<string>) {
    id.Some? && id.value != ""
  }

  /** The signed-in user handed to the dashboards; coaches and athletes carry a team. */
  datatype User = User(id: string, name: string, teamId: Option<string>)

  function FormIds(forms: seq<Form>): (ids: seq<string>)
    ensures |ids| == |forms|
    ensures forall i :: 0 <= i < |forms| ==> ids[i] == forms[i].id
  {
    seq(|forms|, i requires 0 <= i < |forms| => forms[i].id)
  }

  function SubmissionIds(subs: seq<Submission>): (ids: seq<string>)
    ensures |ids| == |subs|
    ensures forall i :: 0 <= i < |subs| ==> ids[i] == subs[i].id
  {
    seq(|subs|, i requires 0 <= i < |subs| => subs[i].id)
  }

  const MockTeams: seq<Team> := [
    Team("team1", "Varsity Basketball", "Basketball"),
    Team("team2", "Varsity Soccer", "Soccer")
  ]

  const MockAthletes: seq<Athlete> := [
    Athlete("athlete1", "Abby Ryan", "team1", "alex@school.edu"),
    Athlete("athlete2", "Jordan Smith", "team1", "jordan@school.edu"),
    Athlete("athlete3", "Taylor Brown", "team2", "taylor@school.edu"),
    Athlete("athlete4", "Casey Davis", "team2", "casey@school.edu")
  ]

  const MockForms: seq<Form> := [
    Form("form1", "Medical Clearance Form",
      "Annual medical examination and clearance for athletic participation",
      1736899200000, Some("https://example.com/medical-form.pdf")),
    Form("form2", "Emergency Contact Information",
      "Emergency contact details and medical information",
      1737158400000, Some("https://example.com/emergency-form.pdf")),
    Form("form3", "Athlete Code of Conduct",
      "Acknowledgment of athletic department rules and expectations",
      1738368000000, None),
    Form("form4", "Insurance Waiver",
      "Proof of insurance or waiver documentation",
      1738713600000, None)
  ]

  const MockSubmissions: seq<Submission> := [
    Submission("sub1", "form1", "athlete1", "Abby Ryan", "team1", 1739145600000, Pending,
      Some("https://example.com/alex-medical-form.pdf"), None, None),
    Submission("sub2", "form2", "athlete1", "Abby Ryan", "team1", 1739318400000, Approved,
      Some("https://example.com/alex-emergency-form.pdf"), None, None),
    Submission("sub3", "form1", "athlete2", "Jordan Smith", "team1", 1738972800000, Approved,
      Some("https://example.com/jordan-medical-form.pdf"), None, None),
    Submission("sub4", "form2", "athlete2", "Jordan Smith", "team1", 1739491200000, Pending,
      Some("https://example.com/jordan-emergency-form.pdf"), None, None),
    Submission("sub5", "form3", "athlete2", "Jordan Smith", "team1", 1739577600000, Pending,
      Some("https://example.com/jordan-conduct-form.pdf"), None, None),
    Submission("sub6", "form1", "athlete3", "Taylor Brown", "team2", 1739059200000, Approved,
      Some("https://example.com/taylor-medical-form.pdf"), None, None)
  ]

  /** No seed submission is stored with the derived-only status `NotSubmitted`. */
  lemma MockSubmissionsStored()
    ensures forall i :: 0 <= i < |MockSubmissions| ==> MockSubmissions[i].status != NotSubmitted
  {
  }

  /** The seed submission ids are pairwise distinct. */
  lemma MockSubmissionIdsDistinct()
    ensures forall i, j :: 0 <= i < j < |MockSubmissions| ==>
      MockSubmissions[i].id != MockSubmissions[j].id
  {
  }

  /** The seed data holds at most one submission per (athlete, form) pair. */
  lemma MockOneSubmissionPerPair()
    ensures forall i, j :: 0 <= i < j < |MockSubmissions| ==>
      MockSubmissions[i].athleteId != MockSubmissions[j].athleteId ||
      MockSubmissions[i].formId != MockSubmissions[j].formId
  {
  }

  /** `athletes` lists an athlete `athleteId` who belongs to `teamId`. */
  predicate AthleteOnTeam(athletes: seq<Athlete>, athleteId: string, teamId: string) {
    exists k :: 0 <= k < |athletes| && athletes[k].id == athleteId && athletes[k].teamId == teamId
  }

  /** Every seed submission names a seed form and a seed athlete of its own team. */
  lemma MockReferencesResolve()
    ensures forall i :: 0 <= i < |MockSubmissions| ==>
      MockSubmissions[i].formId in FormIds(MockForms)
    ensures forall i :: 0 <= i < |MockSubmissions| ==>
      AthleteOnTeam(MockAthletes, MockSubmissions[i].athleteId, MockSubmissions[i].teamId)
  {
    assert FormIds(MockForms) == ["form1", "form2", "form3", "form4"];
    forall i | 0 <= i < |MockSubmissions|
      ensures AthleteOnTeam(MockAthletes, MockSubmissions[i].athleteId, MockSubmissions[i].teamId)
    {
      var k := if i < 2 then 0 else if i < 5 then 1 else 2;
      assert MockAthletes[k].id == MockSubmissions[i].athleteId;
    }
  }

  /** The seed form ids are form1 to form4 in order, and the seed submission ids sub1 to
      sub6, so the first generated ids, `form5` and `sub7`, are new. */
  lemma MockIdsNumbered()
    ensures NumberedFromOne(FormIds(MockForms), "form")
    ensures NumberedFromOne(SubmissionIds(MockSubmissions), "sub")
    ensures "form" + Decimal(|MockForms| + 1) == "form5"
    ensures "form5" !in FormIds(MockForms)
    ensures "sub" + Decimal(|MockSubmissions| + 1) == "sub7"
    ensures "sub7" !in SubmissionIds(MockSubmissions)
  {
    assert FormIds(MockForms) == ["form1", "form2", "form3", "form4"];
    assert SubmissionIds(MockSubmissions) == ["sub1", "sub2", "sub3", "sub4", "sub5", "sub6"];
    NextNumberedIdFresh(FormIds(MockForms), "form");
    NextNumberedIdFresh(SubmissionIds(MockSubmissions), "sub");
  }
}
