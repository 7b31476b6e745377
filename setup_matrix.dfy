/** The setup-cost table (backend/service/implementation/TaskSchedulingData.py):
    the task list, and the cost of changing over from task `i` (or from the idle
    machine, task 0) to task `j`, read from string keys of the form "(i,j)". */
module SetupMatrices {
  import opened Wrappers
  import opened Costs
  import opened Strings

  /** The table after construction. Setup costs are non-negative integers here. */
  datatype SetupMatrix = SetupMatrix(tasks: seq<int>, nTasks: nat, setupCosts: map<(int, int), nat>)

  /** Python's `int(s)` on a base-10 literal: surrounding white space, an
      optional sign, then one or more ASCII digits; anything else raises. */
  function PyInt(s: string): Option<int>
  {
    var t := Trim(s, PySpace);
    if |t| > 0 && (t[0] == '-' || t[0] == '+') then
      if |t| > 1 && AllDigits(t[1..]) then
        var v: int := DigitsToNat(t[1..]);
        Some(if t[0] == '-' then -v else v)
      else None
    else if |t| > 0 && AllDigits(t) then Some(DigitsToNat(t))
    else None
  }

  /** `i, j = map(int, key.strip("()").split(","))`: None where Python raises. */
  function ParseKey(key: string): Option<(int, int)>
  {
    var parts := Split(Trim(key, Parens), ',');
    if |parts| == 2 && PyInt(parts[0]).Some? && PyInt(parts[1]).Some? then
      Some((PyInt(parts[0]).value, PyInt(parts[1]).value))
    else None
  }

  /** The key under which the wire format records the pair (i, j). */
  function KeyString(i: int, j: int): string
  {
    "(" + IntToString(i) + "," + IntToString(j) + ")"
  }

  lemma PyIntOfDigits(t: string)
    requires |t| > 0 && AllDigits(t)
    ensures PyInt(t) == Some(DigitsToNat(t))
  {
    assert !IsPySpace(t[0]) && !IsPySpace(t[|t| - 1]);
    TrimIdentity(t, PySpace);
  }

  lemma PyIntOfNegated(t: string)
    requires |t| > 0 && AllDigits(t)
    ensures PyInt("-" + t) == Some(-(DigitsToNat(t) as int))
  {
    var s := "-" + t;
    assert !IsPySpace(s[0]) && !IsPySpace(s[|s| - 1]);
    TrimIdentity(s, PySpace);
    assert s[1..] == t;
  }

  lemma PyIntOfRendering(i: int)
    ensures PyInt(IntToString(i)) == Some(i)
  {
    var n: nat := if i < 0 then -i else i;
    var d := NatToString(n);
    NatToStringRoundTrip(n);
    if i < 0 {
      PyIntOfNegated(d);
      assert IntToString(i) == "-" + d;
    } else {
      PyIntOfDigits(d);
      assert IntToString(i) == d;
    }
  }

  /** Every key the wire format writes parses back to its pair. */
  lemma ParseKeyString(i: int, j: int)
    ensures ParseKey(KeyString(i, j)) == Some((i, j))
  {
    var a, b := IntToString(i), IntToString(j);
    RenderingShape(i);
    RenderingShape(j);
    KeyTrim(a, b);
    PyIntOfRendering(i);
    PyIntOfRendering(j);
    ParseKeyOf(KeyString(i, j), a, b, i, j);
  }

  /** A rendered integer is not empty, holds no comma, and neither starts
      nor ends with a parenthesis. */
  lemma RenderingShape(i: int)
    ensures var s := IntToString(i);
            |s| > 0 && ',' !in s && !Stripped(Parens, s[0]) && !Stripped(Parens, s[|s| - 1])
  {
    var d := NatToString(if i < 0 then -i else i);
    assert IsDigit(d[0]) && IsDigit(d[|d| - 1]) && ',' !in d;
  }

  /** Stripping the parentheses off a key leaves the two renderings and the comma. */
  lemma KeyTrim(a: string, b: string)
    requires |a| > 0 && |b| > 0 && !Stripped(Parens, a[0]) && !Stripped(Parens, b[|b| - 1])
    ensures Trim("(" + a + "," + b + ")", Parens) == a + "," + b
  {
    var key := "(" + a + "," + b + ")";
    var inner := a + "," + b;
    assert key == "(" + inner + ")";
    assert !Stripped(Parens, inner[0]) && !Stripped(Parens, inner[|inner| - 1]);
    assert TrimStart(key, Parens) == inner + ")" by {
      assert key[1..] == inner + ")";
    }
    assert TrimEnd(inner + ")", Parens) == inner by {
      assert (inner + ")")[..|inner|] == inner;
    }
  }

  /** A key whose inside is two comma-free integers parses to them. */
  lemma ParseKeyOf(key: string, a: string, b: string, i: int, j: int)
    requires Trim(key, Parens) == a + "," + b && ',' !in a && ',' !in b
    requires PyInt(a) == Some(i) && PyInt(b) == Some(j)
    ensures ParseKey(key) == Some((i, j))
  {
    SplitPrefix(a, b, ',');
    SplitNoSep(b, ',');
    assert Split(a + "," + b, ',') == [a, b];
  }

  /** Each entry's key read by `keyOf` (None where `int()` would raise),
      with its cost. */
  function ParseEntries(keyOf: string -> Option<(int, int)>, entries: seq<(string, nat)>): (parsed: seq<(Option<(int, int)>, nat)>)
    ensures |parsed| == |entries|
    ensures forall k :: 0 <= k < |entries| ==> parsed[k] == (keyOf(entries[k].0), entries[k].1)
  {
    seq(|entries|, k requires 0 <= k < |entries| => (keyOf(entries[k].0), entries[k].1))
  }

  /** The table the constructor's loop builds from parsed entries: in order, each
      pair set to its cost, so that a later entry for the same pair wins. */
  function CostTable(parsed: seq<(Option<(int, int)>, nat)>): map<(int, int), nat>
    decreases |parsed|
  {
    if parsed == [] then map[]
    else
      var last := parsed[|parsed| - 1];
      var before := CostTable(parsed[..|parsed| - 1]);
      if last.0.Some? then before[last.0.value := last.1] else before
  }

  /** A pair is recorded iff some entry parses to it, and it holds the cost of
      the last such entry. */
  lemma {:induction false} CostTableLookup(parsed: seq<(Option<(int, int)>, nat)>, p: (int, int))
    ensures p in CostTable(parsed) <==> exists k :: 0 <= k < |parsed| && parsed[k].0 == Some(p)
    ensures forall k :: 0 <= k < |parsed| && parsed[k].0 == Some(p)
                        && (forall q :: k < q < |parsed| ==> parsed[q].0 != Some(p))
                        ==> p in CostTable(parsed) && CostTable(parsed)[p] == parsed[k].1
    decreases |parsed|
  {
    if parsed != [] {
      var n := |parsed| - 1;
      var init := parsed[..n];
      CostTableLookup(init, p);
      assert forall k :: 0 <= k < n ==> init[k] == parsed[k];
      if parsed[n].0 != Some(p) {
        assert (exists k :: 0 <= k < |parsed| && parsed[k].0 == Some(p))
          ==> (exists k :: 0 <= k < n && init[k].0 == Some(p));
      }
    }
  }

  /** One more parsed entry sets its pair, when it has one. */
  lemma CostTableStep(parsed: seq<(Option<(int, int)>, nat)>, k: nat)
    requires k < |parsed|
    ensures CostTable(parsed[..k + 1]) ==
      if parsed[k].0.Some? then CostTable(parsed[..k])[parsed[k].0.value := parsed[k].1] else CostTable(parsed[..k])
  {
    assert parsed[..k + 1][..k] == parsed[..k];
  }

  /** The constructor `SetupMatrix(tasks, setup_costs)`: the key loop of
      TaskSchedulingData.py fails, as `int()` raises, on the first malformed key. */
  method NewSetupMatrix(tasks: seq<int>, setupCosts: seq<(string, nat)>) returns (r: Result<SetupMatrix, string>)
    ensures r.Success? <==> forall k :: 0 <= k < |setupCosts| ==> ParseKey(setupCosts[k].0).Some?
    ensures r.Success? ==> r.value.tasks == tasks && r.value.nTasks == |tasks|
                           && r.value.setupCosts == CostTable(ParseEntries(ParseKey, setupCosts))
    ensures r.Failure? ==> exists k :: 0 <= k < |setupCosts| && r.error == setupCosts[k].0
                                       && ParseKey(setupCosts[k].0).None?
                                       && forall q :: 0 <= q < k ==> ParseKey(setupCosts[q].0).Some?
  {
    var table := ReadCosts(ParseKey, setupCosts);
    if table.Failure? {
      return Failure(table.error);
    }
    r := Success(SetupMatrix(tasks, |tasks|, table.value));
  }

  /** The key loop of the constructor, for a key reader `keyOf`: every pair
      set to its cost in order, stopping at the first key that does not read. */
  method ReadCosts(keyOf: string -> Option<(int, int)>, setupCosts: seq<(string, nat)>)
    returns (r: Result<map<(int, int), nat>, string>)
    ensures r.Success? <==> forall k :: 0 <= k < |setupCosts| ==> keyOf(setupCosts[k].0).Some?
    ensures r.Success? ==> r.value == CostTable(ParseEntries(keyOf, setupCosts))
    ensures r.Failure? ==> exists k :: 0 <= k < |setupCosts| && r.error == setupCosts[k].0
                                       && keyOf(setupCosts[k].0).None?
                                       && forall q :: 0 <= q < k ==> keyOf(setupCosts[q].0).Some?
  {
    ghost var parsed := ParseEntries(keyOf, setupCosts);
    var table: map<(int, int), nat> := map[];
    for k := 0 to |setupCosts|
      invariant forall q :: 0 <= q < k ==> parsed[q].0.Some?
      invariant table == CostTable(parsed[..k])
    {
      var key := keyOf(setupCosts[k].0);
      if key.None? {
        return Failure(setupCosts[k].0);
      }
      CostTableStep(parsed, k);
      table := table[key.value := setupCosts[k].1];
    }
    assert parsed[..|setupCosts|] == parsed;
    r := Success(table);
  }

  /** `get_setup_cost`: the recorded cost, or infinity for an unrecorded pair. */
  function GetSetupCost(m: SetupMatrix, from: int, to: int): (c: Cost)
    ensures c.Fin? <==> (from, to) in m.setupCosts
    ensures c.Fin? ==> c.n == m.setupCosts[(from, to)]
  {
    if (from, to) in m.setupCosts then Fin(m.setupCosts[(from, to)]) else Inf
  }

  /** The rows `validate_matrix` scans: the idle machine, then every task. */
  function Sources(m: SetupMatrix): seq<int>
  {
    [0] + m.tasks
  }

  /** Every change-over a schedule may need is recorded: from 0 or a task, to a
      different task. */
  predicate Complete(m: SetupMatrix)
  {
    forall a, b :: 0 <= a < |Sources(m)| && 0 <= b < |m.tasks| && Sources(m)[a] != m.tasks[b]
      ==> (Sources(m)[a], m.tasks[b]) in m.setupCosts
  }

  /** `validate_matrix`: the nested loop with its early `return False`. */
  method ValidateMatrix(m: SetupMatrix) returns (ok: bool)
    ensures ok <==> Complete(m)
    ensures ok ==> forall i, j :: (i == 0 || i in m.tasks) && j in m.tasks && i != j
                                  ==> GetSetupCost(m, i, j).Fin?
  {
    var sources := Sources(m);
    for a := 0 to |sources|
      invariant forall a', b :: 0 <= a' < a && 0 <= b < |m.tasks| && sources[a'] != m.tasks[b]
                                ==> (sources[a'], m.tasks[b]) in m.setupCosts
    {
      for b := 0 to |m.tasks|
        invariant forall a', b' :: (0 <= a' <= a && 0 <= b' < |m.tasks| && (a' < a || b' < b)
                                    && sources[a'] != m.tasks[b']) ==> (sources[a'], m.tasks[b']) in m.setupCosts
      {
        if sources[a] != m.tasks[b] && (sources[a], m.tasks[b]) !in m.setupCosts {
          return false;
        }
      }
    }
    ok := true;
    CompleteCoversRequiredPairs(m);
  }

  /** The index-wise completeness condition, stated over task identifiers. */
  lemma CompleteCoversRequiredPairs(m: SetupMatrix)
    requires Complete(m)
    ensures forall i, j :: (i == 0 || i in m.tasks) && j in m.tasks && i != j ==> (i, j) in m.setupCosts
  {
    forall i, j | (i == 0 || i in m.tasks) && j in m.tasks && i != j
      ensures (i, j) in m.setupCosts
    {
      var b :| 0 <= b < |m.tasks| && m.tasks[b] == j;
      if i == 0 {
        assert Sources(m)[0] == i;
      } else {
        var a :| 0 <= a < |m.tasks| && m.tasks[a] == i;
        assert Sources(m)[a + 1] == i;
      }
    }
  }

  /** Entries back to the idle machine, `(j, 0)`, and self-loops `(i, i)` are never
      required: removing them does not change the verdict. */
  lemma {:induction false} CompleteIgnoresReturnAndSelfPairs(m: SetupMatrix, extra: set<(int, int)>)
    requires 0 !in m.tasks
    requires forall p :: p in extra ==> p.0 == p.1 || p.1 == 0
    ensures Complete(m) <==> Complete(m.(setupCosts := m.setupCosts - extra))
  {
    var m' := m.(setupCosts := m.setupCosts - extra);
    assert Sources(m') == Sources(m);
    forall a, b | 0 <= a < |Sources(m)| && 0 <= b < |m.tasks| && Sources(m)[a] != m.tasks[b]
      ensures (Sources(m)[a], m.tasks[b]) !in extra
    {
    }
  }
}
