/** Task families (backend/service/scheduling/TaskFamily.py): an optional label
    per task, the same-family test, and the cheapest change-over between tasks
    of different families that the third heuristic multiplies by. */
module TaskFamilies {
  import opened Wrappers
  import opened Costs
  import opened SetupMatrices

  datatype TaskFamily = TaskFamily(families: map<int, string>)

  /** `TaskFamily(family_assignments)`: `None` and an empty dictionary both give
      the empty map (`family_assignments or {}`). */
  function FromAssignments(assignments: Option<map<int, string>>): (f: TaskFamily)
    ensures assignments.None? ==> f.families == map[]
    ensures assignments.Some? ==> f.families == assignments.value
  {
    match assignments
    case None => TaskFamily(map[])
    case Some(a) => TaskFamily(a)
  }

  /** `same_family`: both tasks labelled, with equal labels; never with no labels. */
  predicate SameFamily(f: TaskFamily, t1: int, t2: int)
  {
    if f.families == map[] then false
    else t1 in f.families && t2 in f.families && f.families[t1] == f.families[t2]
  }

  lemma SameFamilySymmetric(f: TaskFamily, t1: int, t2: int)
    ensures SameFamily(f, t1, t2) <==> SameFamily(f, t2, t1)
  {
  }

  lemma SameFamilyMeansLabelled(f: TaskFamily, t1: int, t2: int)
    ensures SameFamily(f, t1, t2) <==> t1 in f.families && t2 in f.families && f.families[t1] == f.families[t2]
    ensures f.families == map[] ==> !SameFamily(f, t1, t2)
  {
  }

  /** Positions (a, b) of the task list whose change-over the minimum ranges over:
      different tasks, not in one family, with a recorded (finite) cost. */
  ghost predicate Candidate(f: TaskFamily, m: SetupMatrix, a: int, b: int)
  {
    0 <= a < |m.tasks| && 0 <= b < |m.tasks| && m.tasks[a] != m.tasks[b]
    && !SameFamily(f, m.tasks[a], m.tasks[b]) && (m.tasks[a], m.tasks[b]) in m.setupCosts
  }

  /** The candidates among the first `a` rows, and the first `b` entries of row `a`. */
  ghost predicate Scanned(a: int, b: int, a': int, b': int)
  {
    a' < a || (a' == a && b' < b)
  }

  /** The recorded costs between candidate positions. */
  ghost function CandidateCosts(f: TaskFamily, m: SetupMatrix): set<nat>
  {
    set a, b | 0 <= a < |m.tasks| && 0 <= b < |m.tasks| && Candidate(f, m, a, b)
      :: m.setupCosts[(m.tasks[a], m.tasks[b])]
  }

  /** The least element of a non-empty set. */
  ghost function SetMin(s: set<nat>): (x: nat)
    requires s != {}
    ensures x in s && forall y :: y in s ==> x <= y
    decreases |s|
  {
    var y :| y in s;
    if s == {y} then y
    else
      var x := SetMin(s - {y});
      assert forall z :: z in s ==> z == y || z in s - {y};
      if y < x then y else x
  }

  /** What `get_min_interfamily_cost` returns: with no labels 0; otherwise the
      smallest recorded cost between two different tasks not in one family,
      and 0 (never infinity) when there is no such pair. */
  ghost function MinInterfamily(f: TaskFamily, m: SetupMatrix): (c: nat)
    ensures f.families == map[] ==> c == 0
    ensures CandidateCosts(f, m) == {} ==> c == 0
    ensures f.families != map[] && CandidateCosts(f, m) != {} ==>
              c in CandidateCosts(f, m) && forall y :: y in CandidateCosts(f, m) ==> c <= y
  {
    if f.families == map[] || CandidateCosts(f, m) == {} then 0 else SetMin(CandidateCosts(f, m))
  }

  /** `get_min_interfamily_cost`: the nested loops keeping a running minimum. */
  method MinInterfamilyCost(f: TaskFamily, m: SetupMatrix) returns (r: nat)
    ensures r == MinInterfamily(f, m)
  {
    if f.families == map[] {
      return 0;
    }
    var best := Inf;
    for a := 0 to |m.tasks|
      invariant best.Fin? ==> best.n in CandidateCosts(f, m)
      invariant forall a', b' :: Candidate(f, m, a', b') && a' < a ==> Le(best, Fin(m.setupCosts[(m.tasks[a'], m.tasks[b'])]))
    {
      for b := 0 to |m.tasks|
        invariant best.Fin? ==> best.n in CandidateCosts(f, m)
        invariant forall a', b' :: Candidate(f, m, a', b') && Scanned(a, b, a', b')
                    ==> Le(best, Fin(m.setupCosts[(m.tasks[a'], m.tasks[b'])]))
      {
        var i, j := m.tasks[a], m.tasks[b];
        if i != j && !SameFamily(f, i, j) {
          var cost := GetSetupCost(m, i, j);
          if Less(cost, best) {
            best := cost;
            assert Candidate(f, m, a, b);
          }
        }
      }
    }
    if best == Inf {
      assert forall a', b' :: !Candidate(f, m, a', b');
      assert CandidateCosts(f, m) == {};
      r := 0;
    } else {
      forall c | c in CandidateCosts(f, m)
        ensures best.n <= c
      {
        var a, b :| 0 <= a < |m.tasks| && 0 <= b < |m.tasks| && Candidate(f, m, a, b)
                    && c == m.setupCosts[(m.tasks[a], m.tasks[b])];
      }
      r := best.n;
    }
  }
}
