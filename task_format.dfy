/** The frontend's display and check of task-scheduling input
    (frontend/src/features/TaskSchedule/utils/formatTaskData.ts):
    `formatTaskDataForDisplay` writes the data back as the form's three text
    fields, and `validateTaskData` lists what is wrong with it. */
module TaskFormat {
  import opened Wrappers
  import opened Strings
  import opened JsRecords
  import SetupMatrices

  /** The three text fields of the task form. */
  datatype Display = Display(tasksString: string, setupMatrixString: string, familiesString: string)

  function TaskTexts(tasks: seq<int>): (ts: seq<string>)
    ensures |ts| == |tasks| && forall k :: 0 <= k < |tasks| ==> ts[k] == IntToString(tasks[k])
  {
    seq(|tasks|, k requires 0 <= k < |tasks| => IntToString(tasks[k]))
  }

  /** One `key: value` line per setup entry, in the record's order. */
  function SetupLines(r: StrRecord): (ls: seq<string>)
    ensures |ls| == |r| && forall k :: 0 <= k < |r| ==> ls[k] == r[k].0 + ": " + Render(r[k].1)
  {
    seq(|r|, k requires 0 <= k < |r| => r[k].0 + ": " + Render(r[k].1))
  }

  /** One `task: family` line per family entry, in the record's order. */
  function FamilyLines(f: NumRecord): (ls: seq<string>)
    ensures |ls| == |f| && forall k :: 0 <= k < |f| ==> ls[k] == NatToString(f[k].0) + ": " + f[k].1
  {
    seq(|f|, k requires 0 <= k < |f| => NatToString(f[k].0) + ": " + f[k].1)
  }

  /** `formatTaskDataForDisplay`: tasks joined by commas, one line per setup
      entry, and one line per family entry or nothing without families. */
  function FormatTaskData(data: TaskSchedulingData): Display
  {
    Display(
      Join(TaskTexts(data.tasks), ","),
      Join(SetupLines(data.setupMatrix), "\n"),
      if data.families.Some? then Join(FamilyLines(data.families.value), "\n") else "")
  }

  const NoTasks: string := "Nenhuma tarefa foi definida"
  const EmptyMatrix: string := "Matriz de setup vazia"

  function MissingMessage(n: nat): string
  {
    "Faltam " + NatToString(n) + " transi\U{E7}\U{F5}es na matriz de setup"
  }

  function UndefinedMessage(tasks: seq<int>): string
  {
    "Tarefas sem fam\U{ED}lia definida: " + Join(TaskTexts(tasks), ", ")
  }

  /** The cost recorded from `t1` to `t2` is truthy (present and not zero). */
  predicate Covered(m: StrRecord, t1: int, t2: int)
  {
    Truthy(Get(m, SetupMatrices.KeyString(t1, t2)))
  }

  /** The check on a transition between tasks: it is needed when the two
      differ and `t1` is not the initial state, and it fails unless the
      transition is covered. */
  predicate MissingPair(m: StrRecord, t1: int, t2: int)
  {
    t1 != t2 && !Covered(m, t1, t2) && t1 != 0
  }

  /** The failing-check tests as values, so that the counts below can be
      reasoned about once for any test. */
  function MissingPairs(m: StrRecord): (int, int) -> bool
  {
    (t1, t2) => MissingPair(m, t1, t2)
  }

  function Uncovered(m: StrRecord): (int, int) -> bool
  {
    (t1, t2) => !Covered(m, t1, t2)
  }

  /** The number of `cols` to which `p` fails the transition from `row`. */
  function RowCount(p: (int, int) -> bool, row: int, cols: seq<int>): nat
  {
    if cols == [] then 0
    else RowCount(p, row, cols[..|cols| - 1]) + (if p(row, cols[|cols| - 1]) then 1 else 0)
  }

  /** The number of pairs of `rows` and `cols` whose transition `p` fails. */
  function PairCount(p: (int, int) -> bool, rows: seq<int>, cols: seq<int>): nat
  {
    if rows == [] then 0
    else PairCount(p, rows[..|rows| - 1], cols) + RowCount(p, rows[|rows| - 1], cols)
  }

  /** The count of `validateTaskData`: the failed checks over every ordered
      pair of tasks, plus the tasks without a truthy cost from the initial
      state 0. */
  function Missing(m: StrRecord, tasks: seq<int>): nat
  {
    PairCount(MissingPairs(m), tasks, tasks) + RowCount(Uncovered(m), 0, tasks)
  }

  /** The tasks without a family: those no family key names. */
  function Unassigned(tasks: seq<int>, families: NumRecord): (u: seq<int>)
    ensures forall t :: t in u <==> t in tasks && forall k :: 0 <= k < |families| ==> families[k].0 != t
  {
    if tasks == [] then []
    else
      var t := tasks[|tasks| - 1];
      Unassigned(tasks[..|tasks| - 1], families)
      + (if forall k :: 0 <= k < |families| ==> families[k].0 != t then [t] else [])
  }

  /** `validateTaskData`: the errors in their order of detection. */
  method ValidateTaskData(data: TaskSchedulingData) returns (errors: seq<string>)
    ensures errors ==
      (if |data.tasks| == 0 then [NoTasks] else [])
      + (if |data.setupMatrix| == 0 then [EmptyMatrix] else [])
      + (if |data.tasks| > 1 && Missing(data.setupMatrix, data.tasks) > 0
         then [MissingMessage(Missing(data.setupMatrix, data.tasks))] else [])
      + (if data.families.Some? && Unassigned(data.tasks, data.families.value) != []
         then [UndefinedMessage(Unassigned(data.tasks, data.families.value))] else [])
  {
    var tasks, m := data.tasks, data.setupMatrix;
    errors := [];
    if |tasks| == 0 {
      errors := errors + [NoTasks];
    }
    if |m| == 0 {
      errors := errors + [EmptyMatrix];
    }
    if |tasks| > 1 {
      var missingTransitions := CountMissing(m, tasks);
      if missingTransitions > 0 {
        errors := errors + [MissingMessage(missingTransitions)];
      }
    }
    if data.families.Some? {
      var undefinedTasks := Unassigned(tasks, data.families.value);
      if |undefinedTasks| > 0 {
        errors := errors + [UndefinedMessage(undefinedTasks)];
      }
    }
  }

  /** The transition count of `validateTaskData`: every ordered pair of
      tasks, then every transition from the initial state. */
  method CountMissing(m: StrRecord, tasks: seq<int>) returns (missingTransitions: nat)
    ensures missingTransitions == Missing(m, tasks)
  {
    var pairs := CountPairsMissing(m, tasks);
    var initial := CountInitialMissing(m, tasks);
    missingTransitions := pairs + initial;
  }

  /** The nested loop over ordered pairs of tasks. */
  method CountPairsMissing(m: StrRecord, tasks: seq<int>) returns (missingTransitions: nat)
    ensures missingTransitions == PairCount(MissingPairs(m), tasks, tasks)
  {
    missingTransitions := 0;
    var a := 0;
    while a < |tasks|
      invariant 0 <= a <= |tasks| && missingTransitions == PairCount(MissingPairs(m), tasks[..a], tasks)
    {
      var row := CountRowMissing(m, tasks[a], tasks);
      missingTransitions := missingTransitions + row;
      assert tasks[..a + 1][..a] == tasks[..a];
      a := a + 1;
    }
    assert tasks[..a] == tasks;
  }

  /** The inner loop: the transitions from `from` to each task. */
  method CountRowMissing(m: StrRecord, from: int, tasks: seq<int>) returns (missingTransitions: nat)
    ensures missingTransitions == RowCount(MissingPairs(m), from, tasks)
  {
    missingTransitions := 0;
    var b := 0;
    while b < |tasks|
      invariant 0 <= b <= |tasks| && missingTransitions == RowCount(MissingPairs(m), from, tasks[..b])
    {
      if from != tasks[b] {
        var key1 := SetupMatrices.KeyString(from, tasks[b]);
        if !Truthy(Get(m, key1)) && from != 0 {
          missingTransitions := missingTransitions + 1;
        }
      }
      RowCountStep(MissingPairs(m), from, tasks, b);
      b := b + 1;
    }
    assert tasks[..b] == tasks;
  }

  /** The loop over transitions from the initial state 0. */
  method CountInitialMissing(m: StrRecord, tasks: seq<int>) returns (missingTransitions: nat)
    ensures missingTransitions == RowCount(Uncovered(m), 0, tasks)
  {
    missingTransitions := 0;
    var c := 0;
    while c < |tasks|
      invariant 0 <= c <= |tasks| && missingTransitions == RowCount(Uncovered(m), 0, tasks[..c])
    {
      var initialKey := SetupMatrices.KeyString(0, tasks[c]);
      assert Uncovered(m)(0, tasks[c]) == !Truthy(Get(m, initialKey));
      if !Truthy(Get(m, initialKey)) {
        missingTransitions := missingTransitions + 1;
      }
      RowCountStep(Uncovered(m), 0, tasks, c);
      c := c + 1;
    }
    assert tasks[..c] == tasks;
  }

  /** Counting one more column adds one exactly when its transition fails. */
  lemma RowCountStep(p: (int, int) -> bool, row: int, cols: seq<int>, b: nat)
    requires b < |cols|
    ensures RowCount(p, row, cols[..b + 1]) == RowCount(p, row, cols[..b]) + (if p(row, cols[b]) then 1 else 0)
  {
    assert cols[..b + 1][..b] == cols[..b];
  }

  lemma {:induction false} RowCountZero(p: (int, int) -> bool, row: int, cols: seq<int>)
    ensures RowCount(p, row, cols) == 0 <==> forall j :: 0 <= j < |cols| ==> !p(row, cols[j])
  {
    if cols != [] {
      var init := cols[..|cols| - 1];
      RowCountZero(p, row, init);
      assert forall j :: 0 <= j < |init| ==> init[j] == cols[j];
    }
  }

  lemma {:induction false} PairCountZero(p: (int, int) -> bool, rows: seq<int>, cols: seq<int>)
    ensures PairCount(p, rows, cols) == 0 <==>
      forall i, j :: 0 <= i < |rows| && 0 <= j < |cols| ==> !p(rows[i], cols[j])
  {
    if rows != [] {
      var init := rows[..|rows| - 1];
      PairCountZero(p, init, cols);
      RowCountZero(p, rows[|rows| - 1], cols);
      assert forall i :: 0 <= i < |init| ==> init[i] == rows[i];
    }
  }

  /** No transition is reported missing exactly when every transition
      between two different tasks, from a task other than 0, and every
      transition from 0 to a task has a truthy cost. */
  lemma MissingZero(m: StrRecord, tasks: seq<int>)
    ensures Missing(m, tasks) == 0 <==>
      (forall i, j :: 0 <= i < |tasks| && 0 <= j < |tasks| ==> !MissingPair(m, tasks[i], tasks[j]))
      && forall j :: 0 <= j < |tasks| ==> Covered(m, 0, tasks[j])
  {
    PairCountZero(MissingPairs(m), tasks, tasks);
    RowCountZero(Uncovered(m), 0, tasks);
  }

  /** A recorded cost of zero, `0` or `0.0` alike, is reported as missing. */
  lemma ZeroCostIsMissing(m: StrRecord, tasks: seq<int>, j: nat)
    requires j < |tasks| && Get(m, SetupMatrices.KeyString(0, tasks[j])).Some?
    requires Get(m, SetupMatrices.KeyString(0, tasks[j])).value.whole == 0
    requires forall k :: 0 <= k < |Get(m, SetupMatrices.KeyString(0, tasks[j])).value.frac| ==>
               Get(m, SetupMatrices.KeyString(0, tasks[j])).value.frac[k] == '0'
    ensures Missing(m, tasks) > 0
  {
    MissingZero(m, tasks);
  }
}
