/** The frontend's reading of a task file
    (frontend/src/features/TaskSchedule/utils/parseTaskFile.ts): every line
    of the form `from,to:cost` sets the setup cost of that transition, and
    the task ids are the non-zero ids the transitions mention, ascending. */
module TaskFiles {
  import opened Wrappers
  import opened Strings
  import opened JsRecords
  import SetupMatrices

  /** The parts of a matched line: the two ids and the cost, as written. */
  datatype SetupLine = SetupLine(from: string, to: string, whole: string, frac: string)

  predicate WellFormed(m: SetupLine)
  {
    |m.from| > 0 && AllDigits(m.from) && |m.to| > 0 && AllDigits(m.to)
    && |m.whole| > 0 && AllDigits(m.whole) && AllDigits(m.frac)
  }

  /** The text a well-formed line consists of. */
  function LineText(m: SetupLine): string
  {
    m.from + "," + m.to + ":" + NumberText(m.whole, m.frac)
  }

  /** The whole-string match of `^(\d+),(\d+):(\d+(?:\.\d+)?)$`: each digit
      run takes all the digits there are, so there is one way to match. */
  function MatchSetupLine(t: string): (r: Option<SetupLine>)
    ensures r.Some? ==> WellFormed(r.value)
  {
    var ids := MatchIds(t);
    if ids.None? then None
    else
      var (a, b) := ids.value;
      var n := MatchNumber(t, |a| + |b| + 2);
      if n.None? || n.value.2 != |t| then None
      else Some(SetupLine(a, b, n.value.0, n.value.1))
  }

  /** `^(\d+),(\d+):`: the two ids at the start of `t`. */
  function MatchIds(t: string): (r: Option<(string, string)>)
    ensures r.Some? ==> var (a, b) := r.value;
      |a| > 0 && AllDigits(a) && |b| > 0 && AllDigits(b) && |a| + |b| + 2 <= |t|
  {
    var a := DigitsAt(t, 0);
    var i := |a|;
    if a == [] || i >= |t| || t[i] != ',' then None
    else
      var b := DigitsAt(t, i + 1);
      var j := i + 1 + |b|;
      if b == [] || j >= |t| || t[j] != ':' then None
      else Some((a, b))
  }

  /** Matched ids are what the line starts with. */
  lemma MatchIdsSound(t: string)
    requires MatchIds(t).Some?
    ensures var (a, b) := MatchIds(t).value; t[..|a| + |b| + 2] == a + "," + b + ":"
  {
    var (a, b) := MatchIds(t).value;
    var i := |a|;
    var j := i + 1 + |b|;
    assert t[..j + 1] == t[..i] + [t[i]] + t[i + 1..j] + [t[j]];
  }

  /** A matched line consists of its parts. */
  lemma MatchSetupLineSound(t: string)
    ensures var r := MatchSetupLine(t);
      r.Some? ==> WellFormed(r.value) && t == LineText(r.value)
  {
    var r := MatchSetupLine(t);
    if r.Some? {
      var m := r.value;
      var ids := MatchIds(t).value;
      var j := |ids.0| + |ids.1| + 2;
      var n := MatchNumber(t, j).value;
      assert m == SetupLine(ids.0, ids.1, n.0, n.1);
      MatchIdsSound(t);
      MatchNumberSound(t, j);
      assert t[..j] == m.from + "," + m.to + ":";
      assert t[j..|t|] == NumberText(m.whole, m.frac);
      assert t == t[..j] + t[j..|t|];
    }
  }

  /** Every well-formed line is matched, into its own parts. */
  lemma MatchSetupLineComplete(m: SetupLine)
    requires WellFormed(m)
    ensures MatchSetupLine(LineText(m)) == Some(m)
  {
    var rest := NumberText(m.whole, m.frac);
    var t := LineText(m);
    var j := |m.from| + |m.to| + 2;
    assert t == m.from + "," + m.to + ":" + rest;
    MatchIdsComplete(m.from, m.to, rest);
    assert t[j..] == rest;
    MatchNumberComplete(t, j, m.whole, m.frac);
    assert MatchIds(t) == Some((m.from, m.to));
    assert MatchNumber(t, j) == Some((m.whole, m.frac, |t|));
    MatchSetupLineOf(t, m, j);
  }

  lemma MatchSetupLineOf(t: string, m: SetupLine, j: nat)
    requires MatchIds(t) == Some((m.from, m.to)) && j == |m.from| + |m.to| + 2
    requires j <= |t| && MatchNumber(t, j) == Some((m.whole, m.frac, |t|))
    ensures MatchSetupLine(t) == Some(m)
  {
    var (a, b) := MatchIds(t).value;
    assert a == m.from && b == m.to && |a| + |b| + 2 == j;
    var n := MatchNumber(t, j).value;
    assert m == SetupLine(a, b, n.0, n.1);
  }

  lemma MatchIdsComplete(a: string, b: string, rest: string)
    requires |a| > 0 && AllDigits(a) && |b| > 0 && AllDigits(b)
    ensures MatchIds(a + "," + b + ":" + rest) == Some((a, b))
  {
    var t := a + "," + b + ":" + rest;
    var i := |a|;
    var j := i + 1 + |b|;
    assert t[0..i] == a && t[i] == ',';
    DigitsAtIs(t, 0, a);
    assert t[i + 1..j] == b && t[j] == ':';
    DigitsAtIs(t, i + 1, b);
  }

  /** What a line contributes: its trimmed text matched, the ids read with
      `parseInt` and the cost with `parseFloat`; blank and other lines
      contribute nothing. */
  function LineEntry(line: string): Option<(nat, nat, Decimal)>
  {
    var t := JsTrim(line);
    if t == "" then None
    else match MatchSetupLine(t)
      case None => None
      case Some(m) => Some((DigitsToNat(m.from), DigitsToNat(m.to), ParseFloat(m.whole, m.frac)))
  }

  /** The setup record after a line with the given entry. */
  function Apply(r: StrRecord, e: Option<(nat, nat, Decimal)>): (r': StrRecord)
    requires UniqueKeys(r)
    ensures UniqueKeys(r')
  {
    if e.None? then r
    else
      PutGet(r, SetupMatrices.KeyString(e.value.0, e.value.1), e.value.2, "");
      Put(r, SetupMatrices.KeyString(e.value.0, e.value.1), e.value.2)
  }

  /** The non-zero ids of a line with the given entry. */
  function Ids(e: Option<(nat, nat, Decimal)>): (ids: set<int>)
    ensures 0 !in ids
  {
    if e.None? then {}
    else (if e.value.0 == 0 then {} else {e.value.0 as int}) + (if e.value.1 == 0 then {} else {e.value.1 as int})
  }

  /** The setup record after the given lines, each matched line writing its
      transition's key. */
  function SetupOf(lines: seq<string>): (r: StrRecord)
    ensures UniqueKeys(r)
  {
    if lines == [] then [] else Apply(SetupOf(lines[..|lines| - 1]), LineEntry(lines[|lines| - 1]))
  }

  /** The non-zero ids the matched lines mention. */
  function TaskIds(lines: seq<string>): (ids: set<int>)
    ensures 0 !in ids
  {
    if lines == [] then {} else TaskIds(lines[..|lines| - 1]) + Ids(LineEntry(lines[|lines| - 1]))
  }

  lemma Prefix(lines: seq<string>, k: nat, e: Option<(nat, nat, Decimal)>)
    requires k < |lines| && e == LineEntry(lines[k])
    ensures SetupOf(lines[..k + 1]) == Apply(SetupOf(lines[..k]), e)
    ensures TaskIds(lines[..k + 1]) == TaskIds(lines[..k]) + Ids(e)
  {
    assert lines[..k + 1][..k] == lines[..k];
  }

  predicate Increasing(xs: seq<int>)
  {
    forall i, j :: 0 <= i < j < |xs| ==> xs[i] < xs[j]
  }

  predicate Distinct(xs: seq<int>)
  {
    forall i, j :: 0 <= i < j < |xs| ==> xs[i] != xs[j]
  }

  /** `Set.prototype.add` on a set kept as its elements in insertion order. */
  function Add(xs: seq<int>, x: int): (r: seq<int>)
    requires Distinct(xs)
    ensures Distinct(r) && forall y :: y in r <==> y in xs || y == x
  {
    if x in xs then xs else xs + [x]
  }

  /** `x` put into its place in the increasing `xs`. */
  function Insert(x: int, xs: seq<int>): (r: seq<int>)
    requires Increasing(xs) && x !in xs
    ensures Increasing(r) && |r| == |xs| + 1
    ensures forall y :: y in r <==> y == x || y in xs
    ensures r[0] == if xs == [] || x < xs[0] then x else xs[0]
  {
    if xs == [] || x < xs[0] then [x] + xs
    else [xs[0]] + Insert(x, xs[1..])
  }

  /** `.sort((a, b) => a - b)` of distinct numbers: the same numbers, ascending. */
  function Sort(xs: seq<int>): (r: seq<int>)
    requires Distinct(xs)
    ensures Increasing(r) && |r| == |xs|
    ensures forall y :: y in r <==> y in xs
  {
    if xs == [] then []
    else Insert(xs[|xs| - 1], Sort(xs[..|xs| - 1]))
  }

  /** `parseTaskFile`: the file's lines read in order into the setup
      record and the set of task ids, which is then sorted. */
  method ParseTaskFile(lines: seq<string>) returns (data: TaskSchedulingData)
    ensures data.setupMatrix == SetupOf(lines)
    ensures Increasing(data.tasks) && forall t :: t in data.tasks <==> t in TaskIds(lines)
    ensures data.families.None?
  {
    var setupMatrix: StrRecord := [];
    var taskSet: seq<int> := [];
    var k := 0;
    while k < |lines|
      invariant 0 <= k <= |lines| && setupMatrix == SetupOf(lines[..k])
      invariant Distinct(taskSet) && forall t :: t in taskSet <==> t in TaskIds(lines[..k])
    {
      Prefix(lines, k, LineEntry(lines[k]));
      setupMatrix, taskSet := ReadLine(lines[k], setupMatrix, taskSet);
      k := k + 1;
    }
    assert lines[..k] == lines;
    data := TaskSchedulingData(Sort(taskSet), setupMatrix, None);
  }

  /** One pass of `parseTaskFile`'s loop: a trimmed line that matches sets
      its transition's cost and adds its non-zero ids to the task set. */
  method ReadLine(line: string, setupMatrix: StrRecord, taskSet: seq<int>)
      returns (setupMatrix': StrRecord, taskSet': seq<int>)
    requires UniqueKeys(setupMatrix) && Distinct(taskSet)
    ensures setupMatrix' == Apply(setupMatrix, LineEntry(line))
    ensures Distinct(taskSet') && forall t :: t in taskSet' <==> t in taskSet || t in Ids(LineEntry(line))
  {
    setupMatrix', taskSet' := setupMatrix, taskSet;
    var trimmedLine := JsTrim(line);
    if trimmedLine != "" {
      var setupMatch := MatchSetupLine(trimmedLine);
      if setupMatch.Some? {
        var m := setupMatch.value;
        ParseIntDigits(m.from);
        ParseIntDigits(m.to);
        var fromNum := ParseInt(m.from).value;
        var toNum := ParseInt(m.to).value;
        var cost := ParseFloat(m.whole, m.frac);
        assert LineEntry(line) == Some((fromNum, toNum, cost));
        setupMatrix' := Put(setupMatrix', SetupMatrices.KeyString(fromNum, toNum), cost);
        if fromNum != 0 {
          taskSet' := Add(taskSet', fromNum);
        }
        if toNum != 0 {
          taskSet' := Add(taskSet', toNum);
        }
      }
    }
  }

  /** Every key read from a task file names two ids, each zero or a task id,
      and the backend reads the key back into those ids. */
  lemma {:induction false} SetupKeys(lines: seq<string>)
    ensures forall e :: e in SetupOf(lines) ==>
      var p := SetupMatrices.ParseKey(e.0);
      p.Some? && p.value.0 >= 0 && p.value.1 >= 0
      && (p.value.0 == 0 || p.value.0 in TaskIds(lines))
      && (p.value.1 == 0 || p.value.1 in TaskIds(lines))
  {
    if lines != [] {
      var init := lines[..|lines| - 1];
      SetupKeys(init);
      var entry := LineEntry(lines[|lines| - 1]);
      if entry.Some? {
        var (i, j, v) := entry.value;
        SetupMatrices.ParseKeyString(i, j);
        PutEntries(SetupOf(init), SetupMatrices.KeyString(i, j), v);
      }
    }
  }

  /** The last line with a transition's key decides its cost. */
  lemma LaterLineWins(lines: seq<string>, line: string)
    requires LineEntry(line).Some?
    ensures var (i, j, v) := LineEntry(line).value;
      Get(SetupOf(lines + [line]), SetupMatrices.KeyString(i, j)) == Some(v)
  {
    var (i, j, v) := LineEntry(line).value;
    assert (lines + [line])[..|lines|] == lines;
    PutGet(SetupOf(lines), SetupMatrices.KeyString(i, j), v, SetupMatrices.KeyString(i, j));
  }
}
