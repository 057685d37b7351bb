/** The parallel CSV reader as its workers really run, the steps of all tasks in any order
    the pool allows: exactly which files it reads right. */
module CsvParallel {
  import opened Options
  import opened CInts
  import opened CsvText
  import opened CsvLines
  import opened CsvFile
  import opened CsvRaces
  import opened CsvRuns
  import opened DispatchRing

  // ----- the programs of the reader -----

  /** One field stored, as the row loop does. */
  function CellActions(row: nat, c: nat, v: Cell): Program {
    [Put(row, c, v)] + if v.None? then [Load(c, row / 8), Store(c, row / 8, row % 8), Flag(c)] else []
  }

  /** The fields of a row from column `c` on. */
  function RowActions(spec: seq<Cell>, row: nat, c: nat): Program
    decreases |spec| - c
  {
    if c >= |spec| then [] else CellActions(row, c, spec[c]) + RowActions(spec, row, c + 1)
  }

  /** The rows of a task from `lo` on. */
  function RangeActions(b: string, starts: seq<nat>, n: nat, lo: nat, hi: nat): Program
    requires GoodStarts(b, starts) && hi <= |starts|
    decreases hi - lo
  {
    if lo >= hi then [] else RowActions(RowSpec(b, starts, n, lo), lo, 0) + RangeActions(b, starts, n, lo + 1, hi)
  }

  lemma ReadFirstBoth(p: Program, q: Program)
    requires ReadFirst(p) && ReadFirst(q)
    ensures ReadFirst(p + q)
  {
    forall i | 0 <= i < |p + q| && (p + q)[i].Store?
      ensures i > 0 && (p + q)[i - 1] == Load((p + q)[i].c, (p + q)[i].k)
    {
      if i >= |p| { assert q[i - |p|] == (p + q)[i]; }
    }
  }

  lemma OnceBoth(p: Program, q: Program)
    requires Once(p) && Once(q) && forall x :: x in p && x in q ==> !x.Store?
    ensures Once(p + q)
  {
    forall i, j | 0 <= i < j < |p + q| && (p + q)[i].Store?
      ensures (p + q)[i] != (p + q)[j]
    {
      if j < |p| { assert p[i] != p[j]; }
      else if i >= |p| { assert q[i - |p|] != q[j - |p|]; }
      else { assert p[i] in p && q[j - |p|] in q; }
    }
  }

  /** What the programs of a row say. */
  ghost predicate RowSays(p: Program, spec: seq<Cell>, row: nat, c0: nat) {
    && ReadFirst(p) && Once(p)
    && (forall r: nat, c: nat, v: Cell :: Put(r, c, v) in p <==> r == row && c0 <= c < |spec| && v == spec[c])
    && (forall c: nat, k: nat, bit: nat ::
          Store(c, k, bit) in p <==> (c0 <= c < |spec| && spec[c].None? && k == row / 8 && bit == row % 8))
    && (forall c: nat :: Flag(c) in p <==> c0 <= c < |spec| && spec[c].None?)
  }

  lemma CellIs(row: nat, c: nat, v: Cell)
    ensures var p := CellActions(row, c, v);
            && ReadFirst(p) && Once(p)
            && forall x ::
                 x in p <==>
                 (x == Put(row, c, v)
                  || (v.None? && (x == Load(c, row / 8) || x == Store(c, row / 8, row % 8) || x == Flag(c))))
  {
  }

  lemma {:induction false} RowIs(spec: seq<Cell>, row: nat, c: nat)
    ensures RowSays(RowActions(spec, row, c), spec, row, c)
    decreases |spec| - c
  {
    if c < |spec| {
      RowIs(spec, row, c + 1);
      RowNext(RowActions(spec, row, c + 1), spec, row, c);
    }
  }

  lemma RowNext(q: Program, spec: seq<Cell>, row: nat, c: nat)
    requires c < |spec| && RowSays(q, spec, row, c + 1)
    ensures RowSays(CellActions(row, c, spec[c]) + q, spec, row, c)
  {
    hide ReadFirst, Once, CellActions;
    var p := CellActions(row, c, spec[c]);
    CellIs(row, c, spec[c]);
    ReadFirstBoth(p, q);
    OnceBoth(p, q);
    assert forall x :: x in p + q <==> x in p || x in q;
  }

  ghost predicate NullAt(b: string, starts: seq<nat>, n: nat, r: nat, c: nat)
    requires GoodStarts(b, starts)
  {
    r < |starts| && c < n && RowSpec(b, starts, n, r)[c].None?
  }

  ghost predicate RangeSays(p: Program, b: string, starts: seq<nat>, n: nat, lo: nat, hi: nat)
    requires GoodStarts(b, starts) && hi <= |starts|
  {
    && ReadFirst(p) && Once(p)
    && (forall r: nat, c: nat, v: Cell :: Put(r, c, v) in p <==>
         lo <= r < hi && c < n && v == RowSpec(b, starts, n, r)[c])
    && (forall c: nat, k: nat, bit: nat ::
          Store(c, k, bit) in p <==> (bit < 8 && lo <= 8 * k + bit < hi && NullAt(b, starts, n, 8 * k + bit, c)))
    && (forall c: nat :: Flag(c) in p <==> exists r: nat :: lo <= r < hi && NullAt(b, starts, n, r, c))
  }

  lemma {:induction false} RangeIs(b: string, starts: seq<nat>, n: nat, lo: nat, hi: nat)
    requires GoodStarts(b, starts) && hi <= |starts|
    ensures RangeSays(RangeActions(b, starts, n, lo, hi), b, starts, n, lo, hi)
    decreases hi - lo
  {
    hide RowSpec, RowActions;
    if lo < hi {
      RangeIs(b, starts, n, lo + 1, hi);
      RowIs(RowSpec(b, starts, n, lo), lo, 0);
      var p, q := RowActions(RowSpec(b, starts, n, lo), lo, 0), RangeActions(b, starts, n, lo + 1, hi);
      RangeNext(p, q, b, starts, n, lo, hi);
    }
  }

  lemma SameBit(row: nat, k: nat, bit: nat)
    ensures k == row / 8 && bit == row % 8 ==> 8 * k + bit == row
    ensures bit < 8 ==> (8 * k + bit) / 8 == k && (8 * k + bit) % 8 == bit
  {
  }

  lemma RangeNext(p: Program, q: Program, b: string, starts: seq<nat>, n: nat, lo: nat, hi: nat)
    requires GoodStarts(b, starts) && lo < hi <= |starts|
    requires RowSays(p, RowSpec(b, starts, n, lo), lo, 0) && RangeSays(q, b, starts, n, lo + 1, hi)
    ensures RangeSays(p + q, b, starts, n, lo, hi)
  {
    hide RowSpec, ReadFirst, Once;
    ReadFirstBoth(p, q);
    forall x | x in p && x in q
      ensures !x.Store?
    {
      if x.Store? { SameBit(lo, x.k, x.bit); }
    }
    OnceBoth(p, q);
    assert forall x :: x in p + q <==> x in p || x in q;
    forall c: nat
      ensures Flag(c) in p + q <==> exists r: nat :: lo <= r < hi && NullAt(b, starts, n, r, c)
    {
      if Flag(c) in p { assert NullAt(b, starts, n, lo, c); }
    }
  }

  // ----- the programs of the tasks -----

  /** A task's program: its rows in order; an empty task does nothing. */
  function TaskActions(b: string, starts: seq<nat>, n: nat, t: Task): Program
    requires GoodStarts(b, starts) && 0 <= t.start && t.end <= |starts|
  {
    if t.start <= t.end then RangeActions(b, starts, n, t.start, t.end) else []
  }

  ghost predicate InRange(starts: seq<nat>, tasks: seq<Task>) {
    forall t :: 0 <= t < |tasks| ==> 0 <= tasks[t].start && tasks[t].end <= |starts|
  }

  function Programs(b: string, starts: seq<nat>, n: nat, tasks: seq<Task>): (r: seq<Program>)
    requires GoodStarts(b, starts) && InRange(starts, tasks)
    ensures |r| == |tasks|
  {
    seq(|tasks|, t requires 0 <= t < |tasks| => TaskActions(b, starts, n, tasks[t]))
  }

  ghost predicate TaskSays(p: Program, b: string, starts: seq<nat>, n: nat, t: Task)
    requires GoodStarts(b, starts)
  {
    && ReadFirst(p) && Once(p)
    && (forall r: nat, c: nat, v: Cell ::
          Put(r, c, v) in p <==> (InTask(t, r) && r < |starts| && c < n && v == RowSpec(b, starts, n, r)[c]))
    && (forall c: nat, k: nat, bit: nat ::
          Store(c, k, bit) in p <==> (bit < 8 && InTask(t, 8 * k + bit) && NullAt(b, starts, n, 8 * k + bit, c)))
    && (forall c: nat :: Flag(c) in p <==> exists r: nat :: InTask(t, r) && NullAt(b, starts, n, r, c))
  }

  lemma TaskIs(b: string, starts: seq<nat>, n: nat, t: Task)
    requires GoodStarts(b, starts) && 0 <= t.start && t.end <= |starts|
    ensures TaskSays(TaskActions(b, starts, n, t), b, starts, n, t)
  {
    hide RowSpec, ReadFirst, Once, NullAt;
    if t.start <= t.end {
      RangeIs(b, starts, n, t.start, t.end);
      var p := RangeActions(b, starts, n, t.start, t.end);
      forall c: nat
        ensures Flag(c) in p <==> exists r: nat :: InTask(t, r) && NullAt(b, starts, n, r, c)
      {
        if Flag(c) in p {
          var r: nat :| t.start <= r < t.end && NullAt(b, starts, n, r, c);
          assert InTask(t, r);
        }
      }
    } else {
      NothingRead();
    }
  }

  lemma NothingRead()
    ensures ReadFirst([]) && Once([])
  {
  }

  lemma MadeWell(b: string, starts: seq<nat>, n: nat, tasks: seq<Task>)
    requires GoodStarts(b, starts) && InRange(starts, tasks) && Partition(tasks, |starts|)
    ensures WellMade(Programs(b, starts, n, tasks))
  {
    hide RowSpec, TaskActions, InTask, ReadFirst, Once, Partition;
    var progs := Programs(b, starts, n, tasks);
    forall t: nat | t < |tasks|
      ensures TaskSays(progs[t], b, starts, n, tasks[t])
    {
      TaskIs(b, starts, n, tasks[t]);
    }
    forall t: nat, u: nat, c: nat, k: nat, bit: nat |
      t < |progs| && u < |progs| && Store(c, k, bit) in progs[t] && Store(c, k, bit) in progs[u]
      ensures t == u
    {
      OneTask(tasks, |starts|, t, u, 8 * k + bit);
    }
  }

  lemma OneTask(tasks: seq<Task>, total: nat, t: nat, u: nat, e: nat)
    requires Partition(tasks, total) && e < total && t < |tasks| && u < |tasks| && InTask(tasks[t], e)
             && InTask(tasks[u], e)
    ensures t == u
  {
    hide InTask;
    assert InAtMostOne(tasks, e);
  }

  lemma SomeTask(tasks: seq<Task>, total: nat, e: nat) returns (t: nat)
    requires Partition(tasks, total) && e < total
    ensures t < |tasks| && InTask(tasks[t], e)
  {
    hide InTask;
    assert InSome(tasks, e);
    t :| t < |tasks| && InTask(tasks[t], e);
  }

  // ----- which files share bytes -----

  /** No column has null rows of two tasks in one byte. */
  ghost predicate NullsApart(b: string, starts: seq<nat>, n: nat, tasks: seq<Task>)
    requires GoodStarts(b, starts)
  {
    forall t: nat, u: nat, c: nat, r: nat, q: nat ::
      (t < |tasks| && u < |tasks| && r / 8 == q / 8 && InTask(tasks[t], r) && InTask(tasks[u], q)
       && NullAt(b, starts, n, r, c) && NullAt(b, starts, n, q, c)) ==> t == u
  }

  lemma ApartIs(b: string, starts: seq<nat>, n: nat, tasks: seq<Task>)
    requires GoodStarts(b, starts) && InRange(starts, tasks)
    ensures Apart(Programs(b, starts, n, tasks)) <==> NullsApart(b, starts, n, tasks)
  {
    hide RowSpec, TaskActions, InTask, NullAt, ReadFirst, Once;
    var progs := Programs(b, starts, n, tasks);
    forall t: nat | t < |tasks|
      ensures TaskSays(progs[t], b, starts, n, tasks[t])
    {
      TaskIs(b, starts, n, tasks[t]);
    }
    if NullsApart(b, starts, n, tasks) {
      forall t: nat, u: nat, c: nat, k: nat | t < |progs| && u < |progs| && Touches(progs[t], c, k)
        && Touches(progs[u], c, k)
        ensures t == u
      {
        var y: nat :| Store(c, k, y) in progs[t];
        var z: nat :| Store(c, k, z) in progs[u];
        SameBit(0, k, y);
        SameBit(0, k, z);
      }
    }
    if Apart(progs) {
      forall t: nat, u: nat, c: nat, r: nat, q: nat |
        t < |tasks| && u < |tasks| && r / 8 == q / 8 && InTask(tasks[t], r) && InTask(tasks[u], q)
        && NullAt(b, starts, n, r, c) && NullAt(b, starts, n, q, c)
        ensures t == u
      {
        StoredBy(progs[t], b, starts, n, tasks[t], r, c);
        StoredBy(progs[u], b, starts, n, tasks[u], q, c);
      }
    }
  }

  lemma StoredBy(p: Program, b: string, starts: seq<nat>, n: nat, t: Task, r: nat, c: nat)
    requires GoodStarts(b, starts) && TaskSays(p, b, starts, n, t) && InTask(t, r) && NullAt(b, starts, n, r, c)
    ensures Store(c, r / 8, r % 8) in p && Touches(p, c, r / 8)
  {
    hide RowSpec, InTask, NullAt, ReadFirst, Once;
    SameBit(r, r / 8, r % 8);
  }

  /** No byte has rows of two tasks. */
  ghost predicate BytesApart(tasks: seq<Task>, total: nat) {
    forall t: nat, u: nat, r: nat, q: nat ::
      t < |tasks| && u < |tasks| && r < total && q < total && r / 8 == q / 8 ==>
        (InTask(tasks[t], r) && InTask(tasks[u], q) ==> t == u)
  }

  /** With the ranges of a dispatch that is so exactly when they begin at whole bytes, or
      one range has everything. */
  lemma ApartExactly(tasks: seq<Task>, total: nat, grain: nat)
    requires grain > 0 && Ranges(tasks, total, grain) && tasks != []
    ensures BytesApart(tasks, total) <==> grain % 8 == 0 || |tasks| == 1 || total <= grain
  {
    if grain % 8 == 0 || |tasks| == 1 || total <= grain {
      forall t: nat, u: nat, r: nat, q: nat | t < |tasks| && u < |tasks| && r < total && q < total && r / 8 == q / 8
                                              && InTask(tasks[t], r) && InTask(tasks[u], q)
        ensures t == u
      {
        SameRange(total, grain, t, u, r, q);
      }
    } else {
      assert InTask(TaskOf(total, grain, 0), grain - 1) && InTask(TaskOf(total, grain, 1), grain);
      assert tasks[0] == TaskOf(total, grain, 0) && tasks[1] == TaskOf(total, grain, 1);
    }
  }

  lemma SameRange(total: nat, grain: nat, t: nat, u: nat, r: nat, q: nat)
    requires grain > 0 && (grain % 8 == 0 || (t == 0 && u == 0) || total <= grain) && r < total && q < total
             && r / 8 == q / 8
    requires InTask(TaskOf(total, grain, t), r) && InTask(TaskOf(total, grain, u), q)
    ensures t == u
  {
    if t < u { Behind(total, grain, t, u, r, q); }
    if u < t { Behind(total, grain, u, t, q, r); }
  }

  /** The later range begins at or behind the end of the earlier one. */
  lemma Behind(total: nat, grain: nat, t: nat, u: nat, r: nat, q: nat)
    requires grain > 0 && t < u && InTask(TaskOf(total, grain, t), r) && InTask(TaskOf(total, grain, u), q) && q < total
    ensures r < u * grain <= q && total > grain && (grain % 8 == 0 ==> r / 8 != q / 8)
  {
    MulLess(t, u, grain);
    MulLess(0, u, grain);
    if grain % 8 == 0 {
      assert u * grain == 8 * (u * (grain / 8)) by { assert grain == 8 * (grain / 8); }
      WholeBytes(u * (grain / 8), r, q);
    }
  }

  lemma WholeBytes(s: nat, r: nat, q: nat)
    requires r < 8 * s <= q
    ensures r / 8 < s <= q / 8
  {
  }

  // ----- what is in the columns afterwards -----

  /** What a reader of the columns finds in row `r`, column `c`. */
  ghost predicate CellRight(w: World, b: string, starts: seq<nat>, n: nat, r: nat, c: nat)
    requires GoodStarts(b, starts) && r < |starts| && c < n
  {
    && (r, c) in w.cells && w.cells[(r, c)] == RowSpec(b, starts, n, r)[c]
    && (r % 8 in Byte(w, c, r / 8) <==> RowSpec(b, starts, n, r)[c].None?)
  }

  /** The cell is, and so are the bits of all cells that are not null. */
  ghost predicate CellAlmost(w: World, b: string, starts: seq<nat>, n: nat, r: nat, c: nat)
    requires GoodStarts(b, starts) && r < |starts| && c < n
  {
    && (r, c) in w.cells && w.cells[(r, c)] == RowSpec(b, starts, n, r)[c]
    && (r % 8 in Byte(w, c, r / 8) ==> RowSpec(b, starts, n, r)[c].None?)
  }

  ghost predicate AllRight(w: World, b: string, starts: seq<nat>, n: nat)
    requires GoodStarts(b, starts)
  {
    forall r: nat, c: nat :: r < |starts| && c < n ==> CellRight(w, b, starts, n, r, c)
  }

  /** Column `c` had a null for some worker exactly if it has one. */
  ghost predicate FlagRight(w: World, b: string, starts: seq<nat>, n: nat, c: nat)
    requires GoodStarts(b, starts) && c < n
  {
    (exists x: nat :: (x, c) in w.flags) <==> NullIn(b, starts, n, c, 0, |starts|)
  }

  lemma AlmostAt(w: World, b: string, starts: seq<nat>, n: nat, tasks: seq<Task>, workers: seq<nat>, r: nat, c: nat)
    requires GoodStarts(b, starts) && InRange(starts, tasks) && Partition(tasks, |starts|) && r < |starts| && c < n
    requires Inv(w, Programs(b, starts, n, tasks), workers) && Finished(w, Programs(b, starts, n, tasks))
    ensures CellAlmost(w, b, starts, n, r, c)
  {
    hide RowSpec, TaskActions, InTask, Did, FlagsDone, ReadFirst, Once, Partition, Finished;
    var progs := Programs(b, starts, n, tasks);
    var t := SomeTask(tasks, |starts|, r);
    TaskIs(b, starts, n, tasks[t]);
    DidAll(w, progs, t, Put(r, c, RowSpec(b, starts, n, r)[c]));
    assert Did(w, progs, t, Put(r, c, RowSpec(b, starts, n, r)[c]));
    if r % 8 in Byte(w, c, r / 8) {
      assert Done(w, progs, c, r / 8, r % 8);
      var u: nat :| Did(w, progs, u, Store(c, r / 8, r % 8));
      DidIn(w, progs, u, Store(c, r / 8, r % 8));
      TaskIs(b, starts, n, tasks[u]);
      SameBit(r, r / 8, r % 8);
    }
  }

  lemma BitsTell(w: World, b: string, starts: seq<nat>, n: nat, tasks: seq<Task>)
    requires GoodStarts(b, starts) && InRange(starts, tasks) && Partition(tasks, |starts|)
    requires forall r: nat, c: nat :: r < |starts| && c < n ==> CellAlmost(w, b, starts, n, r, c)
    ensures NoneLost(w, Programs(b, starts, n, tasks)) <==> AllRight(w, b, starts, n)
  {
    hide RowSpec, TaskActions, InTask, ReadFirst, Once, Partition, Byte;
    var progs := Programs(b, starts, n, tasks);
    forall t: nat | t < |tasks|
      ensures TaskSays(progs[t], b, starts, n, tasks[t])
    {
      TaskIs(b, starts, n, tasks[t]);
    }
    if NoneLost(w, progs) {
      forall r: nat, c: nat | r < |starts| && c < n
        ensures CellRight(w, b, starts, n, r, c)
      {
        assert CellAlmost(w, b, starts, n, r, c);
        if RowSpec(b, starts, n, r)[c].None? {
          var t := SomeTask(tasks, |starts|, r);
          StoredBy(progs[t], b, starts, n, tasks[t], r, c);
        }
      }
    }
    if AllRight(w, b, starts, n) {
      forall t: nat, c: nat, k: nat, z: nat | t < |progs| && Store(c, k, z) in progs[t]
        ensures z in Byte(w, c, k)
      {
        SameBit(0, k, z);
        assert CellRight(w, b, starts, n, 8 * k + z, c);
      }
    }
  }

  lemma FlagAt(w: World, b: string, starts: seq<nat>, n: nat, tasks: seq<Task>, workers: seq<nat>, c: nat)
    requires GoodStarts(b, starts) && InRange(starts, tasks) && Partition(tasks, |starts|) && c < n
    requires Inv(w, Programs(b, starts, n, tasks), workers) && Finished(w, Programs(b, starts, n, tasks))
    ensures FlagRight(w, b, starts, n, c)
  {
    hide RowSpec, TaskActions, InTask, Did, CellsDone, Sourced, ReadFirst, Once, Partition, Finished;
    var progs := Programs(b, starts, n, tasks);
    forall t: nat | t < |tasks|
      ensures Did(w, progs, t, Flag(c)) <==> exists r: nat :: InTask(tasks[t], r) && NullAt(b, starts, n, r, c)
    {
      TaskIs(b, starts, n, tasks[t]);
      DidAll(w, progs, t, Flag(c));
    }
    if NullIn(b, starts, n, c, 0, |starts|) {
      var r: nat :| 0 <= r < |starts| && RowSpec(b, starts, n, r)[c].None?;
      var t := SomeTask(tasks, |starts|, r);
      assert NullAt(b, starts, n, r, c);
      assert Flagged(w, progs, workers, workers[t], c);
    }
    if x: nat :| (x, c) in w.flags {
      assert Flagged(w, progs, workers, x, c);
      var t: nat :| t < |workers| && workers[t] == x && Did(w, progs, t, Flag(c));
      var r: nat :| InTask(tasks[t], r) && NullAt(b, starts, n, r, c);
    }
  }

  /** The tasks' programs taken step by step in any order, each by whatever worker: when
      all are done, every cell and every column's null flag is what the file says, and so
      are the bits of the cells that are not null. Those of null cells are all there if and
      only if no task ever wrote a byte that another had read and not yet written back. */
  lemma SideBySide(b: string, starts: seq<nat>, n: nat, tasks: seq<Task>, workers: seq<nat>, schedule: seq<nat>)
    requires GoodStarts(b, starts) && InRange(starts, tasks) && Partition(tasks, |starts|)
    requires |workers| == |tasks| && Legal(schedule, |tasks|)
    requires Finished(Result(Programs(b, starts, n, tasks), workers, schedule), Programs(b, starts, n, tasks))
    ensures var progs := Programs(b, starts, n, tasks);
            var w := Result(progs, workers, schedule);
            && (forall r: nat, c: nat :: r < |starts| && c < n ==> CellAlmost(w, b, starts, n, r, c))
            && (forall c: nat :: c < n ==> FlagRight(w, b, starts, n, c))
            && (AllRight(w, b, starts, n) <==> NoneLost(w, progs))
            && (AllRight(w, b, starts, n) <==> AllClear(Start(|progs|), progs, workers, schedule))
  {
    hide RowSpec, TaskActions, Inv, CellAlmost, FlagRight, AllRight, NoneLost, Exec, Finished, Partition, InRange,
         WellMade, AllClear, Current;
    var progs := Programs(b, starts, n, tasks);
    var w := Result(progs, workers, schedule);
    MadeWell(b, starts, n, tasks);
    StartInv(progs, workers);
    StartCurrent(progs);
    ExecKeeps(Start(|progs|), progs, workers, schedule);
    KeptExactly(Start(|progs|), progs, workers, schedule);
    forall r: nat, c: nat | r < |starts| && c < n
      ensures CellAlmost(w, b, starts, n, r, c)
    {
      AlmostAt(w, b, starts, n, tasks, workers, r, c);
    }
    BitsTell(w, b, starts, n, tasks);
    forall c: nat | c < n
      ensures FlagRight(w, b, starts, n, c)
    {
      FlagAt(w, b, starts, n, tasks, workers, c);
    }
  }

  /** Every run of a pool of `pool` threads fills the columns as the file says. */
  ghost predicate AlwaysRight(b: string, starts: seq<nat>, n: nat, tasks: seq<Task>, pool: nat)
    requires GoodStarts(b, starts) && InRange(starts, tasks)
  {
    forall workers, schedule :: IsRun(Programs(b, starts, n, tasks), workers, pool, schedule) ==>
      AllRight(Result(Programs(b, starts, n, tasks), workers, schedule), b, starts, n)
  }

  /** So it is if and only if no column has null rows of two tasks in one byte, or the pool
      has but one thread. */
  lemma RightExactly(b: string, starts: seq<nat>, n: nat, tasks: seq<Task>, pool: nat)
    requires GoodStarts(b, starts) && InRange(starts, tasks) && Partition(tasks, |starts|)
    ensures AlwaysRight(b, starts, n, tasks, pool) <==> NullsApart(b, starts, n, tasks) || pool <= 1
  {
    hide NullsApart, Partition, InRange, Apart, AllRight, NoneLost, WellMade, AllClear, Orderly, CellAlmost, FlagRight,
         TaskActions, Exec;
    var progs := Programs(b, starts, n, tasks);
    MadeWell(b, starts, n, tasks);
    ApartIs(b, starts, n, tasks);
    SafeExactly(progs, pool);
    forall workers, schedule | IsRun(progs, workers, pool, schedule)
      ensures AllRight(Result(progs, workers, schedule), b, starts, n) <==>
                NoneLost(Result(progs, workers, schedule), progs)
    {
      SideBySide(b, starts, n, tasks, workers, schedule);
    }
  }

  // ----- the ring of a dispatch -----

  lemma RangesInside(starts: seq<nat>, tasks: seq<Task>, grain: nat)
    requires Ranges(tasks, |starts|, grain)
    ensures InRange(starts, tasks)
  {
    forall t | 0 <= t < |tasks|
      ensures 0 <= tasks[t].start && tasks[t].end <= |starts|
    {
      assert tasks[t] == TaskOf(|starts|, grain, t);
    }
  }

  /** What the number of rows says of its grains, for a ring of `slots` slots. */
  lemma GrainsTell(rows: nat, slots: nat)
    requires slots <= MAX_RING_CAP
    ensures rows <= MAX_RING_CAP * TASK_GRAIN ==> CeilDiv(rows, TASK_GRAIN) <= MAX_RING_CAP
    ensures CeilDiv(rows, TASK_GRAIN) <= slots ==> rows <= INT64_MAX - TASK_GRAIN + 1 && AllServed(rows, slots)
    ensures CeilDiv(rows, TASK_GRAIN) <= slots ==> CeilDiv(rows, TASK_GRAIN) % TWO_32 == CeilDiv(rows, TASK_GRAIN)
    ensures rows < TWO_32 ==> CeilDiv(rows, TASK_GRAIN) < TWO_32 && rows + slots - 1 <= INT64_MAX - TASK_GRAIN + 1
  {
    hide CeilDiv;
  }

  /** The rows of a file given to a pool. With a ring that has a slot for every grain the
      file is always read right; with one that has not, exactly if no column has null rows
      of two tasks in one byte. */
  method ParseOnRing(ring: Ring, b: string, starts: seq<nat>, n: nat, room: bool, pool: nat)
    returns (tasks: seq<Task>, grain: int)
    requires ring.Valid() && GoodStarts(b, starts) && |starts| <= INT64_MAX
    modifies ring, ring.tasks
    ensures ring.Valid() && (!room ==> ring.tasks == old(ring.tasks))
    ensures room && |starts| <= MAX_RING_CAP * TASK_GRAIN ==> CeilDiv(|starts|, TASK_GRAIN) <= ring.tasks.Length
    ensures CeilDiv(|starts|, TASK_GRAIN) <= ring.tasks.Length ==>
              InRange(starts, tasks) && Partition(tasks, |starts|) && AlwaysRight(b, starts, n, tasks, pool)
    ensures 0 < |starts| <= INT64_MAX - TASK_GRAIN + 1 && AllServed(|starts|, ring.tasks.Length) ==>
              grain > 0 && Ranges(tasks, |starts|, grain) && InRange(starts, tasks) && Partition(tasks, |starts|)
              && (AlwaysRight(b, starts, n, tasks, pool) <==> NullsApart(b, starts, n, tasks) || pool <= 1)
    ensures |starts| < TWO_32 && CeilDiv(|starts|, TASK_GRAIN) > ring.tasks.Length ==>
              grain == CeilDiv(|starts|, ring.tasks.Length) && |tasks| == ring.tasks.Length
  {
    hide Partition, Ranges, InRange, NullsApart, AlwaysRight, CeilDiv, AllServed, EndsFit;
    var k, total;
    k, total, grain := ring.Fill(|starts|, room);
    tasks := ring.tasks[..k];
    GrainsTell(|starts|, ring.tasks.Length);
    if |starts| == 0 {
      NoRows(b, starts, n, tasks, pool);
    } else if |starts| <= INT64_MAX - TASK_GRAIN + 1 && AllServed(|starts|, ring.tasks.Length) {
      RangesInside(starts, tasks, grain);
      RightExactly(b, starts, n, tasks, pool);
      if CeilDiv(|starts|, TASK_GRAIN) <= ring.tasks.Length { WholeGrains(b, starts, n, tasks); }
    }
  }

  lemma NoRows(b: string, starts: seq<nat>, n: nat, tasks: seq<Task>, pool: nat)
    requires GoodStarts(b, starts) && starts == [] && tasks == []
    ensures InRange(starts, tasks) && Partition(tasks, |starts|) && AlwaysRight(b, starts, n, tasks, pool)
  {
    RightExactly(b, starts, n, tasks, pool);
  }

  lemma WholeGrains(b: string, starts: seq<nat>, n: nat, tasks: seq<Task>)
    requires GoodStarts(b, starts) && Ranges(tasks, |starts|, TASK_GRAIN) && tasks != []
    ensures NullsApart(b, starts, n, tasks)
  {
    hide NullsApart, BytesApart, Ranges;
    ApartExactly(tasks, |starts|, TASK_GRAIN);
    ApartNulls(b, starts, n, tasks);
  }

  lemma ApartNulls(b: string, starts: seq<nat>, n: nat, tasks: seq<Task>)
    requires GoodStarts(b, starts) && BytesApart(tasks, |starts|)
    ensures NullsApart(b, starts, n, tasks)
  {
    hide RowSpec, InTask;
  }

  /** The columns `cols` and the memory `w` show the same. */
  ghost predicate SameColumns(w: World, cols: Columns, rows: nat, n: nat)
    requires cols.Shaped(rows, n) && cols.hadNull.Length0 > 0
    reads cols, cols.cells, cols.nulls, cols.hadNull
  {
    && (forall r: nat, c: nat :: r < rows && c < n ==>
          (r, c) in w.cells && w.cells[(r, c)] == cols.cells[r, c]
            && (r % 8 in Byte(w, c, r / 8) <==> cols.Marked(r, c)))
    && (forall c: nat :: c < n ==> ((exists x: nat :: (x, c) in w.flags) <==> cols.hadNull[0, c]))
  }

  /** The serial reader and the parallel one on the same file: with a slot for every grain
      each run of the pool leaves the cells, null bits and null flags of the serial reader. */
  method SerialAndParallel(ring: Ring, cols: Columns, b: string, starts: seq<nat>, n: nat, room: bool, pool: nat)
    returns (tasks: seq<Task>)
    requires ring.Valid() && GoodStarts(b, starts) && |starts| <= INT64_MAX
    requires cols.Shaped(|starts|, n) && 0 < cols.hadNull.Length0
    requires forall r: nat, c: nat :: r < |starts| && c < n ==> !cols.Marked(r, c)
    requires forall w, d :: 0 <= w < cols.hadNull.Length0 && 0 <= d < n ==> !cols.hadNull[w, d]
    modifies ring, ring.tasks, cols.cells, cols.nulls, cols.hadNull
    ensures ring.Valid()
    ensures room && |starts| <= MAX_RING_CAP * TASK_GRAIN ==> CeilDiv(|starts|, TASK_GRAIN) <= ring.tasks.Length
    ensures CeilDiv(|starts|, TASK_GRAIN) <= ring.tasks.Length ==>
              InRange(starts, tasks) && Partition(tasks, |starts|)
              && forall workers, schedule :: IsRun(Programs(b, starts, n, tasks), workers, pool, schedule) ==>
                   SameColumns(Result(Programs(b, starts, n, tasks), workers, schedule), cols, |starts|, n)
  {
    hide Partition, Ranges, InRange, NullsApart, AllFilled, NullIn, SameColumns, AllRight, Orderly, Exec, Finished;
    var grain;
    tasks, grain := ParseOnRing(ring, b, starts, n, room, pool);
    ParseSerial(cols, b, starts, n);
    if CeilDiv(|starts|, TASK_GRAIN) <= ring.tasks.Length {
      forall workers, schedule | IsRun(Programs(b, starts, n, tasks), workers, pool, schedule)
        ensures SameColumns(Result(Programs(b, starts, n, tasks), workers, schedule), cols, |starts|, n)
      {
        SideBySide(b, starts, n, tasks, workers, schedule);
        BothRight(Result(Programs(b, starts, n, tasks), workers, schedule), cols, b, starts, n);
      }
    }
  }

  lemma BothRight(w: World, cols: Columns, b: string, starts: seq<nat>, n: nat)
    requires GoodStarts(b, starts) && cols.Shaped(|starts|, n) && cols.hadNull.Length0 > 0
    requires AllFilled(cols, b, starts, n) && AllRight(w, b, starts, n)
    requires forall c: nat :: c < n ==> FlagRight(w, b, starts, n, c)
    requires forall d: nat :: d < n ==> cols.hadNull[0, d] == NullIn(b, starts, n, d, 0, |starts|)
    ensures SameColumns(w, cols, |starts|, n)
  {
    hide RowSpec, NullIn;
    forall r: nat, c: nat | r < |starts| && c < n
      ensures (r, c) in w.cells && w.cells[(r, c)] == cols.cells[r, c]
              && (r % 8 in Byte(w, c, r / 8) <==> cols.Marked(r, c))
    {
      assert CellRight(w, b, starts, n, r, c) && cols.Filled(r, RowSpec(b, starts, n, r), n);
    }
    forall c: nat | c < n
      ensures (exists x: nat :: (x, c) in w.flags) <==> cols.hadNull[0, c]
    {
      assert FlagRight(w, b, starts, n, c);
    }
  }

  // ----- files that fail -----

  /** Where the rows of a file start. */
  function RowsOf(b: string): (starts: seq<nat>)
    ensures GoodStarts(b, starts)
  {
    var data := PastLine(b, HeaderFields(b, 0, Delims(b, 0, false) + 1).1);
    OffsetsInside(b, data);
    RowOffsets(b, data)
  }

  /** A written table: its cells, as they are read. */
  lemma WrittenTable(names: seq<string>, rows: seq<seq<Cell>>)
    requires names != [] && forall i :: 0 <= i < |rows| ==> |rows[i]| == |names|
    ensures var b := FileText(names, rows);
            && |RowsOf(b)| == |rows|
            && forall r: nat, c: nat :: r < |rows| && c < |names| ==>
                 RowSpec(b, RowsOf(b), |names|, r)[c] == Kept(rows[r][c], c == |names| - 1)
  {
    hide FileText, RowCells, RowOffsets, HeaderFields, Delims, Kept, PastLine;
    var b := FileText(names, rows);
    FileRoundTrip(names, rows);
    assert ReadFile(b).1 == RowsRead(b, RowsOf(b), |names|) == KeptRows(rows);
    forall r: nat, c: nat | r < |rows| && c < |names|
      ensures RowSpec(b, RowsOf(b), |names|, r)[c] == Kept(rows[r][c], c == |names| - 1)
    {
      assert RowsRead(b, RowsOf(b), |names|)[r] == RowSpec(b, RowsOf(b), |names|, r);
      assert KeptRows(rows)[r] == KeptRow(rows[r]);
    }
  }

  /** A column of `rows` cells, null in the rows of `nulls`. */
  function OneColumn(rows: nat, nulls: set<nat>): (t: seq<seq<Cell>>)
    ensures |t| == rows && forall i :: 0 <= i < |t| ==> |t[i]| == 1
  {
    seq(rows, i => if i in nulls then [None] else [Some("x")])
  }

  lemma OneColumnNulls(rows: nat, nulls: set<nat>)
    ensures var b := FileText(["a"], OneColumn(rows, nulls));
            && |RowsOf(b)| == rows
            && forall r: nat, c: nat :: NullAt(b, RowsOf(b), 1, r, c) <==> r < rows && c == 0 && r in nulls
  {
    hide FileText, RowSpec, RowsOf;
    WrittenTable(["a"], OneColumn(rows, nulls));
    assert Kept(None, true) == None && Kept(Some("x"), true) == Some("x");
  }

  /** Tasks are safe for every file of that many rows if and only if no byte has rows of
      two of them. */
  lemma EveryFileExactly(tasks: seq<Task>, total: nat)
    ensures BytesApart(tasks, total) <==>
            forall b, starts: seq<nat>, n: nat :: GoodStarts(b, starts) && |starts| == total ==>
                NullsApart(b, starts, n, tasks)
  {
    hide RowSpec, InTask, FileText, RowsOf;
    if BytesApart(tasks, total) {
      forall b, starts: seq<nat>, n: nat | GoodStarts(b, starts) && |starts| == total
        ensures NullsApart(b, starts, n, tasks)
      {
        ApartNulls(b, starts, n, tasks);
      }
    } else {
      var t: nat, u: nat, r: nat, q: nat :| t < |tasks| && u < |tasks| && r < total && q < total && r / 8 == q / 8
                                            && InTask(tasks[t], r) && InTask(tasks[u], q) && t != u;
      var b := FileText(["a"], OneColumn(total, {r, q}));
      OneColumnNulls(total, {r, q});
      assert NullAt(b, RowsOf(b), 1, r, 0) && NullAt(b, RowsOf(b), 1, q, 0);
      assert !NullsApart(b, RowsOf(b), 1, tasks);
    }
  }

  lemma Grains8193()
    ensures CeilDiv(8388609, TASK_GRAIN) == 1025 && CeilDiv(8388609, FIRST_CAP) == 8193
  {
  }

  lemma FirstTwoTasks(tasks: seq<Task>)
    requires Ranges(tasks, 8388609, 8193) && |tasks| == FIRST_CAP
    ensures InTask(tasks[0], 8192) && InTask(tasks[1], 8193)
  {
    assert tasks[0] == TaskOf(8388609, 8193, 0) && tasks[1] == TaskOf(8388609, 8193, 1);
  }

  lemma LosingFile(b: string, starts: seq<nat>, tasks: seq<Task>, pool: nat)
    returns (workers: seq<nat>, schedule: seq<nat>, lost: nat)
    requires GoodStarts(b, starts) && InRange(starts, tasks) && Partition(tasks, |starts|) && |starts| == 8388609
    requires Ranges(tasks, 8388609, 8193) && |tasks| == FIRST_CAP && pool >= 2
    requires forall r: nat, c: nat :: NullAt(b, starts, 1, r, c) <==> r < |starts| && c == 0 && r in {8192, 8193}
    ensures IsRun(Programs(b, starts, 1, tasks), workers, pool, schedule)
    ensures lost == 8192 || lost == 8193
    ensures var w := Result(Programs(b, starts, 1, tasks), workers, schedule);
            && !CellRight(w, b, starts, 1, lost, 0)
            && forall r: nat :: r < |starts| && r != 8192 && r != 8193 ==> CellRight(w, b, starts, 1, r, 0)
  {
    hide RowSpec, Ranges, InRange, Partition, Orderly, Exec, Finished, Programs, InTask, FlagRight, AllClear, NoneLost;
    FirstTwoTasks(tasks);
    RightExactly(b, starts, 1, tasks, pool);
    assert NullAt(b, starts, 1, 8192, 0) && NullAt(b, starts, 1, 8193, 0);
    assert !NullsApart(b, starts, 1, tasks);
    workers, schedule :| IsRun(Programs(b, starts, 1, tasks), workers, pool, schedule)
                         && !AllRight(Result(Programs(b, starts, 1, tasks), workers, schedule), b, starts, 1);
    SideBySide(b, starts, 1, tasks, workers, schedule);
    var w := Result(Programs(b, starts, 1, tasks), workers, schedule);
    var r: nat, c: nat :| r < |starts| && c < 1 && !CellRight(w, b, starts, 1, r, c);
    lost := r;
    assert CellAlmost(w, b, starts, 1, r, c);
    assert NullAt(b, starts, 1, r, c);
    forall r: nat | r < |starts| && r != 8192 && r != 8193
      ensures CellRight(w, b, starts, 1, r, 0)
    {
      assert CellAlmost(w, b, starts, 1, r, 0) && !NullAt(b, starts, 1, r, 0);
    }
  }

  /** A ring that could not grow, 8388609 rows of one column, two of them null: a run of
      the pool, with as few as two threads, that loses the null bit of one of them, and
      nothing else. */
  method LostBit(pool: nat)
    returns (b: string, starts: seq<nat>, tasks: seq<Task>,
             ghost workers: seq<nat>, ghost schedule: seq<nat>, ghost lost: nat)
    requires pool >= 2
    ensures b == FileText(["a"], OneColumn(8388609, {8192, 8193})) && starts == RowsOf(b) && |starts| == 8388609
    ensures |tasks| == FIRST_CAP && Ranges(tasks, 8388609, 8193) && InRange(starts, tasks)
    ensures IsRun(Programs(b, starts, 1, tasks), workers, pool, schedule)
    ensures lost == 8192 || lost == 8193
    ensures var w := Result(Programs(b, starts, 1, tasks), workers, schedule);
            && !CellRight(w, b, starts, 1, lost, 0)
            && forall r: nat :: r < |starts| && r != 8192 && r != 8193 ==> CellRight(w, b, starts, 1, r, 0)
  {
    hide FileText, RowsOf, OneColumn, RowSpec, Ranges, InRange, Partition, Orderly, Exec, Finished, Programs;
    b := FileText(["a"], OneColumn(8388609, {8192, 8193}));
    starts := RowsOf(b);
    OneColumnNulls(8388609, {8192, 8193});
    var ring := new Ring();
    var grain;
    tasks, grain := ParseOnRing(ring, b, starts, 1, false, pool);
    Grains8193();
    workers, schedule, lost := LosingFile(b, starts, tasks, pool);
  }
}
