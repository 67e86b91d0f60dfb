/** Concrete runs of the store's operations on a freshly created database. */
module Scenarios {
  import opened Records
  import opened Text
  import opened Store

  /** A new store after `setup_database`: the three seeded branches, one of
      them "Central Kitchen". */
  method SeededStore() returns (s: Store)
    ensures fresh(s) && s.Valid()
    ensures |s.branches| == 3 && FindBranch(s.branches, "Central Kitchen").Some?
  {
    s := new Store();
    ghost var empty := s.Snapshot();
    var seeded := s.SetupDatabase();
    SeedFillsOnlyEmptyTables(empty);
  }

  /** After seeding, submitting the branch name "Central Kitchen" again (with
      a blank on either side) is rejected as a duplicate and the branch count stays
      at the three seeded branches. */
  method DuplicateSeededBranch() returns (r: Outcome, count: nat)
    ensures r == Failed(NameExists) && count == 3
  {
    var s := SeededStore();
    var name := "Central Kitchen";
    StripPadded(" ", name, " ");
    r := s.AddBranch(Some(" " + name + " "), None);
    count := |s.branches|;
  }

  /** An inspection submitted while no question exists is accepted with no
      answers and a stored percentage of 0. */
  method EmptyChecklistScoresZero() returns (r: Outcome, score: int, answers: nat)
    ensures r == Done && score == 0 && answers == 0
  {
    var s := new Store();
    r := s.AddInspection(Int(1), Some("Inspector"), None, (id: nat) => Missing);
    score := s.inspections[|s.inspections| - 1].score;
    answers := |s.inspections[|s.inspections| - 1].answers|;
  }
}
