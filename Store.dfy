/** The relational store of the quality-control app held in memory: its four
    tables with their id counters, the invariant every write keeps, and the write
    operations behind the `/add-branch`, `/add-criteria`, `/add-question` and
    `/add-inspection` handlers and the start-up seeding. */
module Store {
  import opened Records
  import opened Text
  import opened Scoring

  /** The contents of every table together with the next id each table hands out. */
  datatype Tables = Tables(
    branches: seq<Branch>,
    criteria: seq<Criteria>,
    questions: seq<Question>,
    inspections: seq<Inspection>,
    nextBranchId: nat,
    nextCriteriaId: nat,
    nextQuestionId: nat,
    nextInspectionId: nat)

  ghost predicate BranchesOk(bs: seq<Branch>, next: nat) {
    (forall i :: 0 <= i < |bs| ==>
       1 <= bs[i].id < next && bs[i].name != [] && Trimmed(bs[i].name)
       && (bs[i].location.Some? ==> bs[i].location.value != [] && Trimmed(bs[i].location.value)))
    && (forall i, j :: 0 <= i < j < |bs| ==> bs[i].id < bs[j].id)
    && (forall i, j :: 0 <= i < j < |bs| ==> bs[i].name != bs[j].name)
  }

  ghost predicate CriteriaOk(cs: seq<Criteria>, next: nat) {
    (forall i :: 0 <= i < |cs| ==> 1 <= cs[i].id < next && cs[i].name != [] && Trimmed(cs[i].name))
    && (forall i, j :: 0 <= i < j < |cs| ==> cs[i].id < cs[j].id)
    && (forall i, j :: 0 <= i < j < |cs| ==> cs[i].name != cs[j].name)
  }

  ghost predicate QuestionsOk(qs: seq<Question>, next: nat) {
    (forall i :: 0 <= i < |qs| ==>
       1 <= qs[i].id < next && qs[i].text != [] && Trimmed(qs[i].text) && qs[i].maxScore >= 1)
    && (forall i, j :: 0 <= i < j < |qs| ==> qs[i].id < qs[j].id)
  }

  /** Every inspection's percentage lies in `[0, 100]`, its inspector and notes
      are stripped, and its answers match the first questions of the table one for
      one (questions are only ever appended, so the questions an inspection was
      scored against stay a prefix of the table). */
  ghost predicate InspectionsOk(ins: seq<Inspection>, next: nat, qs: seq<Question>) {
    (forall i :: 0 <= i < |ins| ==>
       1 <= ins[i].id < next && 0 <= ins[i].score <= 100
       && Trimmed(ins[i].inspector) && Trimmed(ins[i].notes)
       && AnswersMatch(qs, ins[i].answers))
    && (forall i, j :: 0 <= i < j < |ins| ==> ins[i].id < ins[j].id)
  }

  /** The store invariant: ids ascending and below the next id of their table,
      branch and criteria names unique, every stored text stripped, every
      question worth at least one point. */
  ghost predicate Consistent(t: Tables) {
    t.nextBranchId >= 1 && t.nextCriteriaId >= 1 && t.nextQuestionId >= 1 && t.nextInspectionId >= 1
    && BranchesOk(t.branches, t.nextBranchId)
    && CriteriaOk(t.criteria, t.nextCriteriaId)
    && QuestionsOk(t.questions, t.nextQuestionId)
    && InspectionsOk(t.inspections, t.nextInspectionId, t.questions)
  }

  /** `Branch.query.filter_by(name=name).first()`: the first branch carrying the
      name, or `None` when no branch does. */
  function FindBranch(bs: seq<Branch>, name: string): (r: Option<Branch>)
    ensures r.None? <==> forall i :: 0 <= i < |bs| ==> bs[i].name != name
    ensures r.Some? ==>
      exists i :: 0 <= i < |bs| && bs[i] == r.value && r.value.name == name
        && forall j :: 0 <= j < i ==> bs[j].name != name
  {
    if bs == [] then None
    else if bs[0].name == name then Some(bs[0])
    else
      var r := FindBranch(bs[1..], name);
      assert r.Some? ==>
        exists i :: 1 <= i < |bs| && bs[i] == r.value && (forall j :: 0 <= j < i ==> bs[j].name != name)
      by {
        if r.Some? {
          var i :| 0 <= i < |bs| - 1 && bs[1..][i] == r.value && r.value.name == name
            && forall j :: 0 <= j < i ==> bs[1..][j].name != name;
          assert bs[i + 1] == r.value;
          assert forall j :: 1 <= j < i + 1 ==> bs[j].name == bs[1..][j - 1].name;
        }
      }
      r
  }

  /** `Criteria.query.filter_by(name=name).first()`. */
  function FindCriteria(cs: seq<Criteria>, name: string): (r: Option<Criteria>)
    ensures r.None? <==> forall i :: 0 <= i < |cs| ==> cs[i].name != name
    ensures r.Some? ==>
      exists i :: 0 <= i < |cs| && cs[i] == r.value && r.value.name == name
        && forall j :: 0 <= j < i ==> cs[j].name != name
  {
    if cs == [] then None
    else if cs[0].name == name then Some(cs[0])
    else
      var r := FindCriteria(cs[1..], name);
      assert r.Some? ==>
        exists i :: 1 <= i < |cs| && cs[i] == r.value && (forall j :: 0 <= j < i ==> cs[j].name != name)
      by {
        if r.Some? {
          var i :| 0 <= i < |cs| - 1 && cs[1..][i] == r.value && r.value.name == name
            && forall j :: 0 <= j < i ==> cs[1..][j].name != name;
          assert cs[i + 1] == r.value;
          assert forall j :: 1 <= j < i + 1 ==> cs[j].name == cs[1..][j - 1].name;
        }
      }
      r
  }

  /** Answers that match a question table still match it once more questions
      are appended. */
  lemma AnswersMatchExtended(qs: seq<Question>, more: seq<Question>, answers: seq<Answer>)
    requires AnswersMatch(qs, answers)
    ensures AnswersMatch(qs + more, answers)
  {
    assert forall k :: 0 <= k < |answers| ==> (qs + more)[k] == qs[k];
  }

  /** Appending a branch with the next id and a fresh stored name keeps the
      branch table well formed. */
  lemma BranchAppended(bs: seq<Branch>, next: nat, b: Branch)
    requires BranchesOk(bs, next) && next >= 1
    requires b.id == next && b.name != [] && Trimmed(b.name) && FindBranch(bs, b.name).None?
    requires b.location.Some? ==> b.location.value != [] && Trimmed(b.location.value)
    ensures BranchesOk(bs + [b], next + 1)
  {
  }

  /** Appending a criteria with the next id and a fresh stored name keeps the
      criteria table well formed. */
  lemma CriteriaAppended(cs: seq<Criteria>, next: nat, c: Criteria)
    requires CriteriaOk(cs, next) && next >= 1
    requires c.id == next && c.name != [] && Trimmed(c.name) && FindCriteria(cs, c.name).None?
    ensures CriteriaOk(cs + [c], next + 1)
  {
  }

  /** Appending questions keeps every stored inspection's answers matched. */
  lemma QuestionsExtended(ins: seq<Inspection>, nextIns: nat, qs: seq<Question>, more: seq<Question>)
    requires InspectionsOk(ins, nextIns, qs)
    ensures InspectionsOk(ins, nextIns, qs + more)
  {
    forall i | 0 <= i < |ins|
      ensures AnswersMatch(qs + more, ins[i].answers)
    {
      AnswersMatchExtended(qs, more, ins[i].answers);
    }
  }

  /** Appending a question with the next id, a stored text and a maximum of at
      least one keeps the question table well formed. */
  lemma QuestionAppended(qs: seq<Question>, next: nat, q: Question)
    requires QuestionsOk(qs, next) && next >= 1
    requires q.id == next && q.text != [] && Trimmed(q.text) && q.maxScore >= 1
    ensures QuestionsOk(qs + [q], next + 1)
  {
  }

  /** Appending an inspection with the next id, a percentage in `[0, 100]` and
      matched answers keeps the inspection table well formed. */
  lemma InspectionAppended(ins: seq<Inspection>, next: nat, x: Inspection, qs: seq<Question>)
    requires InspectionsOk(ins, next, qs) && next >= 1
    requires x.id == next && 0 <= x.score <= 100 && Trimmed(x.inspector) && Trimmed(x.notes)
    requires AnswersMatch(qs, x.answers)
    ensures InspectionsOk(ins + [x], next + 1, qs)
  {
  }

  /** The branches `setup_database` writes into an empty branch table. */
  function SeedBranches(t: Tables): (r: Tables)
    ensures r == t.(branches := r.branches, nextBranchId := r.nextBranchId)
    ensures |t.branches| != 0 ==> r == t
    ensures |t.branches| == 0 ==> |r.branches| == 3 && r.nextBranchId == t.nextBranchId + 3
  {
    if |t.branches| != 0 then t
    else
      var n := t.nextBranchId;
      t.(branches := SeededBranches(n), nextBranchId := n + 3)
  }

  /** The seeded branches, given the first free branch id. */
  function SeededBranches(n: nat): (bs: seq<Branch>)
    ensures |bs| == 3
    ensures forall i :: 0 <= i < |bs| ==> bs[i].id == n + i && bs[i].location.Some?
    ensures bs[0].name == "Central Kitchen"
  {
    [Branch(n, "Central Kitchen", Some("Main Street")),
     Branch(n + 1, "Airport Outlet", Some("Terminal 1")),
     Branch(n + 2, "Mall Food Court", Some("Downtown Mall"))]
  }

  /** The sample inspection `setup_database` writes into an empty inspection
      table, for the branch named "Central Kitchen"; without such a branch the
      lookup yields nothing and seeding stops with an error. */
  function SeedInspection(t: Tables): (r: (Tables, Outcome))
    ensures r.0 == t.(inspections := r.0.inspections, nextInspectionId := r.0.nextInspectionId)
    ensures |t.inspections| != 0 ==> r == (t, Done)
    ensures r.1.Failed? <==> |t.inspections| == 0 && FindBranch(t.branches, "Central Kitchen").None?
    ensures r.1.Failed? ==> r == (t, Failed(NoCentralKitchen))
    ensures |t.inspections| == 0 && r.1.Done? ==>
      |r.0.inspections| == 1 && r.0.nextInspectionId == t.nextInspectionId + 1
      && r.0.inspections[0].branchId == FindBranch(t.branches, "Central Kitchen").value.id
  {
    if |t.inspections| != 0 then (t, Done)
    else
      match FindBranch(t.branches, "Central Kitchen")
      case None => (t, Failed(NoCentralKitchen))
      case Some(central) =>
        var n := t.nextInspectionId;
        (t.(inspections := [SeededInspection(n, central.id)], nextInspectionId := n + 1),
         Done)
  }

  /** The seeded inspection, given the first free inspection id and the id of
      the "Central Kitchen" branch. */
  function SeededInspection(n: nat, branchId: int): (x: Inspection)
    ensures x.id == n && x.branchId == branchId && x.answers == [] && 0 <= x.score <= 100
  {
    Inspection(n, branchId, "System", 92, "Initial seeded inspection.", [])
  }

  /** The two criteria and their three questions `setup_database` writes when
      the criteria table is empty. */
  function SeedCriteria(t: Tables): (r: Tables)
    ensures r == t.(criteria := r.criteria, questions := r.questions,
                    nextCriteriaId := r.nextCriteriaId, nextQuestionId := r.nextQuestionId)
    ensures |t.criteria| != 0 ==> r == t
    ensures |t.criteria| == 0 ==>
      |r.criteria| == 2 && |r.questions| == |t.questions| + 3
      && r.questions[..|t.questions|] == t.questions
      && r.nextCriteriaId == t.nextCriteriaId + 2 && r.nextQuestionId == t.nextQuestionId + 3
  {
    if |t.criteria| != 0 then t
    else
      var c := t.nextCriteriaId;
      var q := t.nextQuestionId;
      t.(criteria := SeededCriteria(c),
         questions := t.questions + SeededQuestions(q, c),
         nextCriteriaId := c + 2,
         nextQuestionId := q + 3)
  }

  /** The seeded criteria, given the first free criteria id. */
  function SeededCriteria(c: nat): (cs: seq<Criteria>)
    ensures |cs| == 2 && forall i :: 0 <= i < |cs| ==> cs[i].id == c + i
  {
    [Criteria(c, "Hygiene"), Criteria(c + 1, "Safety")]
  }

  /** The seeded questions, given the first free question id and the id of the
      seeded "Hygiene" criteria ("Safety" follows it). */
  function SeededQuestions(q: nat, c: nat): (qs: seq<Question>)
    ensures |qs| == 3
    ensures forall i :: 0 <= i < |qs| ==>
      qs[i].id == q + i && qs[i].maxScore >= 1 && (qs[i].criteriaId == c || qs[i].criteriaId == c + 1)
  {
    [Question(q, c, "Work surfaces clean", 10),
     Question(q + 1, c, "Proper food storage", 10),
     Question(q + 2, c + 1, "Fire exits accessible", 5)]
  }

  /** `setup_database` as a function of the tables: the three seeding steps in
      order, where a failed sample-inspection step ends the run (the branch step
      before it has already been committed). */
  function Seed(t: Tables): (r: (Tables, Outcome))
    ensures r.1 == Done || r.1 == Failed(NoCentralKitchen)
    ensures |t.branches| == 0 || |t.inspections| != 0 ==> r.1 == Done
  {
    var (t2, outcome) := SeedInspection(SeedBranches(t));
    if outcome.Failed? then (t2, outcome) else (SeedCriteria(t2), Done)
  }

  /** Seeding writes only into tables that were empty: a non-empty table is left
      as it was, an empty branch table receives three branches including
      "Central Kitchen", and a run that starts with branches absent always
      succeeds. */
  lemma SeedFillsOnlyEmptyTables(t: Tables)
    ensures var (t', outcome) := Seed(t);
      (|t.branches| != 0 ==> t'.branches == t.branches && t'.nextBranchId == t.nextBranchId)
      && (|t.branches| == 0 ==>
            outcome == Done && |t'.branches| == 3
            && FindBranch(t'.branches, "Central Kitchen").Some?)
      && (|t.inspections| != 0 ==>
            t'.inspections == t.inspections && t'.nextInspectionId == t.nextInspectionId)
      && (|t.inspections| == 0 && outcome == Done ==> |t'.inspections| == 1)
      && (|t.criteria| != 0 ==>
            t'.criteria == t.criteria && t'.questions == t.questions
            && t'.nextCriteriaId == t.nextCriteriaId && t'.nextQuestionId == t.nextQuestionId)
      && (|t.criteria| == 0 && outcome == Done ==>
            |t'.criteria| == 2 && |t'.questions| == |t.questions| + 3)
      && (outcome.Failed? ==> t' == t && outcome == Failed(NoCentralKitchen))
  {
  }

  /** Running the seeding twice is the same as running it once, in the tables it
      leaves and in the outcome it reports. */
  lemma SeedIdempotent(t: Tables)
    ensures Seed(Seed(t).0) == Seed(t)
  {
    var t1 := SeedBranches(t);
    if |t.branches| == 0 {
      assert t1.branches[0].name == "Central Kitchen";
      assert FindBranch(t1.branches, "Central Kitchen").Some?;
    }
  }

  /** Every text `setup_database` seeds is already stripped. */
  lemma SeededTextsTrimmed()
    ensures Trimmed("Central Kitchen") && Trimmed("Airport Outlet") && Trimmed("Mall Food Court")
    ensures Trimmed("Main Street") && Trimmed("Terminal 1") && Trimmed("Downtown Mall")
    ensures Trimmed("Hygiene") && Trimmed("Safety")
    ensures Trimmed("Work surfaces clean") && Trimmed("Proper food storage")
            && Trimmed("Fire exits accessible")
    ensures Trimmed("System") && Trimmed("Initial seeded inspection.")
  {
  }

  /** The seeded branches are well formed on their own. */
  lemma SeededBranchesOk(b: nat)
    requires b >= 1
    ensures BranchesOk(SeededBranches(b), b + 3)
  {
    assert "Central Kitchen"[0] == 'C' && "Airport Outlet"[0] == 'A' && "Mall Food Court"[0] == 'M';
    SeededTextsTrimmed();
  }

  /** The seeded inspection alone forms a well-formed inspection table. */
  lemma SeededInspectionOk(n: nat, branchId: int, qs: seq<Question>)
    requires n >= 1
    ensures InspectionsOk([SeededInspection(n, branchId)], n + 1, qs)
  {
    SeededTextsTrimmed();
    InspectionAppended([], n, SeededInspection(n, branchId), qs);
  }

  /** The seeded criteria are well formed on their own, and appending the seeded
      questions keeps the question table well formed. */
  lemma SeededCriteriaOk(c: nat, q: nat, qs: seq<Question>)
    requires c >= 1 && q >= 1 && QuestionsOk(qs, q)
    ensures CriteriaOk(SeededCriteria(c), c + 2)
    ensures QuestionsOk(qs + SeededQuestions(q, c), q + 3)
  {
    assert "Hygiene"[0] == 'H' && "Safety"[0] == 'S';
    SeededTextsTrimmed();
  }

  /** The location a new branch gets: the stripped field, or null when that is
      empty (`location or None`). */
  function StoredLocation(location: Option<string>): (r: Option<string>)
    ensures r.None? <==>
      location.None? || forall m :: 0 <= m < |location.value| ==> IsSpace(location.value[m])
    ensures r.Some? ==> r.value == Strip(location.value) && r.value != [] && Trimmed(r.value)
  {
    var l := Strip(TextOr(location));
    if l == [] then None else Some(l)
  }

  /** The in-memory store. Its tables only grow: no handler updates or deletes a
      row. */
  class Store {
    var branches: seq<Branch>
    var criteria: seq<Criteria>
    var questions: seq<Question>
    var inspections: seq<Inspection>
    var nextBranchId: nat
    var nextCriteriaId: nat
    var nextQuestionId: nat
    var nextInspectionId: nat

    ghost function Snapshot(): Tables
      reads this
    {
      Tables(branches, criteria, questions, inspections,
             nextBranchId, nextCriteriaId, nextQuestionId, nextInspectionId)
    }

    ghost predicate Valid()
      reads this
    {
      Consistent(Snapshot())
    }

    /** A store whose tables are all empty (as `db.create_all()` leaves a new
        database). */
    constructor ()
      ensures Valid()
      ensures Snapshot() == Tables([], [], [], [], 1, 1, 1, 1)
    {
      branches, criteria, questions, inspections := [], [], [], [];
      nextBranchId, nextCriteriaId, nextQuestionId, nextInspectionId := 1, 1, 1, 1;
    }

    /** `add_branch`: a missing name field is a bad request, an empty stripped
        name and a name already present are rejected, and otherwise one branch
        with the stripped name is appended. */
    method AddBranch(name: Option<string>, location: Option<string>) returns (r: Outcome)
      requires Valid()
      modifies this
      ensures Valid()
      ensures name.None? ==> r == Failed(BadRequest)
      ensures name.Some? && Strip(name.value) == [] ==> r == Failed(NameRequired)
      ensures name.Some? && Strip(name.value) != [] && FindBranch(old(branches), Strip(name.value)).Some?
              ==> r == Failed(NameExists)
      ensures r.Done? <==>
              name.Some? && Strip(name.value) != [] && FindBranch(old(branches), Strip(name.value)).None?
      ensures r.Failed? ==> Snapshot() == old(Snapshot())
      ensures r.Done? ==>
        Snapshot() == old(Snapshot()).(
          branches := old(branches) + [Branch(old(nextBranchId), Strip(name.value), StoredLocation(location))],
          nextBranchId := old(nextBranchId) + 1)
    {
      if name.None? {
        return Failed(BadRequest);
      }
      var n := Strip(name.value);
      var loc := StoredLocation(location);
      if n == [] {
        return Failed(NameRequired);
      }
      if FindBranch(branches, n).Some? {
        return Failed(NameExists);
      }
      BranchAppended(branches, nextBranchId, Branch(nextBranchId, n, loc));
      branches := branches + [Branch(nextBranchId, n, loc)];
      nextBranchId := nextBranchId + 1;
      r := Done;
    }

    /** `add_criteria`: the same unique-name insertion for the criteria table. */
    method AddCriteria(name: Option<string>) returns (r: Outcome)
      requires Valid()
      modifies this
      ensures Valid()
      ensures name.None? ==> r == Failed(BadRequest)
      ensures name.Some? && Strip(name.value) == [] ==> r == Failed(NameRequired)
      ensures name.Some? && Strip(name.value) != [] && FindCriteria(old(criteria), Strip(name.value)).Some?
              ==> r == Failed(NameExists)
      ensures r.Done? <==>
              name.Some? && Strip(name.value) != [] && FindCriteria(old(criteria), Strip(name.value)).None?
      ensures r.Failed? ==> Snapshot() == old(Snapshot())
      ensures r.Done? ==>
        Snapshot() == old(Snapshot()).(
          criteria := old(criteria) + [Criteria(old(nextCriteriaId), Strip(name.value))],
          nextCriteriaId := old(nextCriteriaId) + 1)
    {
      if name.None? {
        return Failed(BadRequest);
      }
      var n := Strip(name.value);
      if n == [] {
        return Failed(NameRequired);
      }
      if FindCriteria(criteria, n).Some? {
        return Failed(NameExists);
      }
      CriteriaAppended(criteria, nextCriteriaId, Criteria(nextCriteriaId, n));
      criteria := criteria + [Criteria(nextCriteriaId, n)];
      nextCriteriaId := nextCriteriaId + 1;
      r := Done;
    }

    /** `add_question`: a missing or non-integer criteria id or maximum score, or
        a missing text, is an invalid form; an empty stripped text or a maximum
        score below 1 is rejected; otherwise one question is appended. The
        criteria id is not checked against the criteria table. */
    method AddQuestion(criteriaId: Field, text: Option<string>, maxScore: Field) returns (r: Outcome)
      requires Valid()
      modifies this
      ensures Valid()
      ensures !criteriaId.Int? || text.None? || !maxScore.Int? ==> r == Failed(InvalidForm)
      ensures criteriaId.Int? && text.Some? && maxScore.Int? ==>
              (Strip(text.value) == [] || maxScore.value <= 0 ==> r == Failed(QuestionRequired))
      ensures r.Done? <==>
              criteriaId.Int? && text.Some? && maxScore.Int?
              && Strip(text.value) != [] && maxScore.value > 0
      ensures r.Failed? ==> Snapshot() == old(Snapshot())
      ensures r.Done? ==>
        Snapshot() == old(Snapshot()).(
          questions := old(questions)
            + [Question(old(nextQuestionId), criteriaId.value, Strip(text.value), maxScore.value)],
          nextQuestionId := old(nextQuestionId) + 1)
    {
      if !criteriaId.Int? || text.None? || !maxScore.Int? {
        return Failed(InvalidForm);
      }
      var t := Strip(text.value);
      if t == [] || maxScore.value <= 0 {
        return Failed(QuestionRequired);
      }
      var q := Question(nextQuestionId, criteriaId.value, t, maxScore.value);
      QuestionAppended(questions, nextQuestionId, q);
      QuestionsExtended(inspections, nextInspectionId, questions, [q]);
      questions := questions + [q];
      nextQuestionId := nextQuestionId + 1;
      r := Done;
    }

    /** `add_inspection`: a missing or non-integer branch id or a missing
        inspector name is an invalid form. Otherwise every question, in
        ascending id order, must have an integer score field within its range;
        the first question that does not decides the rejection and nothing is
        written. When all pass, exactly one inspection is appended, carrying the
        stripped inspector and notes, one answer per question and the
        percentage of the score sum over the maximum sum. The branch id is not
        checked against the branch table. */
    method AddInspection(branchId: Field, inspector: Option<string>, notes: Option<string>,
                         scoreField: nat -> Field)
      returns (r: Outcome)
      requires Valid()
      modifies this
      ensures Valid()
      ensures !branchId.Int? || inspector.None? ==> r == Failed(InvalidForm)
      ensures branchId.Int? && inspector.Some? ==>
              (r.Done? <==> AllAccepted(old(questions), scoreField))
      ensures branchId.Int? && inspector.Some? && r.Failed? ==>
              exists k :: FirstRejected(old(questions), scoreField, k, r.why)
      ensures r.Failed? ==> Snapshot() == old(Snapshot())
      ensures r.Done? ==>
        |inspections| == |old(inspections)| + 1
        && inspections[..|old(inspections)|] == old(inspections)
        && Snapshot() == old(Snapshot()).(inspections := inspections,
                                         nextInspectionId := old(nextInspectionId) + 1)
      ensures r.Done? ==>
        var ins := inspections[|inspections| - 1];
        ins.id == old(nextInspectionId)
        && ins.branchId == branchId.value
        && ins.inspector == Strip(inspector.value)
        && ins.notes == Strip(TextOr(notes))
        && AnswersSubmitted(old(questions), scoreField, ins.answers)
        && ins.score == Percentage(SumScores(ins.answers), SumMaxScores(old(questions)))
    {
      if !branchId.Int? || inspector.None? {
        return Failed(InvalidForm);
      }
      var who := Strip(inspector.value);
      var text := Strip(TextOr(notes));
      var checked := TallyAnswers(questions, scoreField);
      if checked.Rejected? {
        return Failed(checked.why);
      }
      var tally := checked.tally;
      var percentage := Percentage(tally.total, tally.maxTotal);
      var ins := Inspection(nextInspectionId, branchId.value, who, percentage, text, tally.answers);
      InspectionAppended(inspections, nextInspectionId, ins, questions);
      ghost var before := inspections;
      inspections := inspections + [ins];
      nextInspectionId := nextInspectionId + 1;
      assert inspections[..|before|] == before;
      r := Done;
    }

    /** `setup_database`: seeds each of the branch, inspection and criteria
        tables only when it is empty, in that order; see `Seed`,
        `SeedIdempotent` and `SeedFillsOnlyEmptyTables`. */
    method SetupDatabase() returns (r: Outcome)
      requires Valid()
      modifies this
      ensures Valid()
      ensures (Snapshot(), r) == Seed(old(Snapshot()))
    {
      SeedBranchTable();
      r := SeedInspectionTable();
      if r.Failed? {
        return;
      }
      SeedCriteriaTable();
    }

    /** The first block of `setup_database`: three branches when there are none. */
    method SeedBranchTable()
      requires Valid()
      modifies this
      ensures Valid()
      ensures Snapshot() == SeedBranches(old(Snapshot()))
    {
      if |branches| == 0 {
        SeededBranchesOk(nextBranchId);
        branches := SeededBranches(nextBranchId);
        nextBranchId := nextBranchId + 3;
      }
    }

    /** The second block of `setup_database`: the sample inspection of the
        "Central Kitchen" branch when there are no inspections. */
    method SeedInspectionTable() returns (r: Outcome)
      requires Valid()
      modifies this
      ensures Valid()
      ensures (Snapshot(), r) == SeedInspection(old(Snapshot()))
    {
      if |inspections| == 0 {
        var central := FindBranch(branches, "Central Kitchen");
        if central.None? {
          return Failed(NoCentralKitchen);
        }
        var seeded := SeededInspection(nextInspectionId, central.value.id);
        SeededInspectionOk(nextInspectionId, central.value.id, questions);
        inspections := [seeded];
        nextInspectionId := nextInspectionId + 1;
      }
      r := Done;
    }

    /** The third block of `setup_database`: two criteria with three questions
        when there are no criteria. */
    method SeedCriteriaTable()
      requires Valid()
      modifies this
      ensures Valid()
      ensures Snapshot() == SeedCriteria(old(Snapshot()))
    {
      if |criteria| == 0 {
        SeededCriteriaOk(nextCriteriaId, nextQuestionId, questions);
        QuestionsExtended(inspections, nextInspectionId, questions, SeededQuestions(nextQuestionId, nextCriteriaId));
        criteria := SeededCriteria(nextCriteriaId);
        questions := questions + SeededQuestions(nextQuestionId, nextCriteriaId);
        nextCriteriaId := nextCriteriaId + 2;
        nextQuestionId := nextQuestionId + 3;
      }
    }
  }
}
