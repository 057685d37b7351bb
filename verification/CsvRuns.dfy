/** Whole runs of a pool: the tasks are claimed in their order, each by one worker, which
    finishes it before it claims the next. For which programs every run keeps every bit. */
module CsvRuns {
  import opened Options
  import opened CsvRaces

  ghost predicate Unfinished(w: World, progs: seq<Program>, t: int) {
    0 <= t < |progs| == |w.pcs| && w.pcs[t] < |progs[t]|
  }

  /** Task `t` can have been claimed: so have all before it, and of those that are not
      finished each has a worker of its own. */
  ghost predicate Claimed(w: World, progs: seq<Program>, workers: seq<nat>, t: nat)
    requires t < |progs| == |workers|
  {
    forall j, k :: 0 <= j < k <= t && Unfinished(w, progs, j) && Unfinished(w, progs, k) ==> workers[j] != workers[k]
  }

  ghost predicate Orderly(w: World, progs: seq<Program>, workers: seq<nat>, schedule: seq<nat>)
    requires Fits(w, progs, workers) && Legal(schedule, |progs|)
    decreases |schedule|
  {
    schedule == [] ||
    (Claimed(w, progs, workers, schedule[0])
      && Orderly(Step(w, progs, workers, schedule[0]), progs, workers, schedule[1..]))
  }

  /** All tasks run to their ends by the workers of a pool of `pool` threads. */
  ghost predicate IsRun(progs: seq<Program>, workers: seq<nat>, pool: nat, schedule: seq<nat>) {
    && |workers| == |progs| && (forall t :: 0 <= t < |progs| ==> workers[t] < pool) && Legal(schedule, |progs|)
    && Orderly(Start(|progs|), progs, workers, schedule)
    && Finished(Exec(Start(|progs|), progs, workers, schedule), progs)
  }

  /** What a run leaves in memory. */
  ghost function Result(progs: seq<Program>, workers: seq<nat>, schedule: seq<nat>): World
    requires |workers| == |progs| && Legal(schedule, |progs|)
  {
    Exec(Start(|progs|), progs, workers, schedule)
  }

  ghost predicate Touches(p: Program, c: nat, k: nat) { exists bit: nat :: Store(c, k, bit) in p }

  /** Only one task ever writes a byte. */
  ghost predicate Apart(progs: seq<Program>) {
    forall t: nat, u: nat, c: nat, k: nat ::
      t < |progs| && u < |progs| && Touches(progs[t], c, k) && Touches(progs[u], c, k) ==> t == u
  }

  // ----- bytes of one task each -----

  lemma ApartClear(w: World, progs: seq<Program>, t: nat)
    requires Apart(progs)
    ensures Clear(w, progs, t)
  {
    forall s: nat, c: nat, k: nat, y: nat, z: nat | Pending(w, progs, t, c, k, y) && Pending(w, progs, s, c, k, z)
      ensures s == t
    {
      assert Store(c, k, y) in progs[t] && Store(c, k, z) in progs[s];
      assert Touches(progs[t], c, k) && Touches(progs[s], c, k);
    }
  }

  lemma {:induction false} ApartAllClear(w: World, progs: seq<Program>, workers: seq<nat>, schedule: seq<nat>)
    requires Fits(w, progs, workers) && Legal(schedule, |progs|) && Apart(progs)
    ensures AllClear(w, progs, workers, schedule)
    decreases |schedule|
  {
    hide Apart, Clear, Step;
    if schedule != [] {
      ApartClear(w, progs, schedule[0]);
      ApartAllClear(Step(w, progs, workers, schedule[0]), progs, workers, schedule[1..]);
    }
  }

  // ----- one worker -----

  /** Of two tasks the later has not begun until the earlier is finished. */
  ghost predicate OneByOne(w: World, progs: seq<Program>) {
    forall s: nat, t: nat :: s < t < |progs| == |w.pcs| && w.pcs[t] > 0 ==> !Unfinished(w, progs, s)
  }

  lemma AloneStep(w: World, progs: seq<Program>, workers: seq<nat>, t: nat)
    requires Fits(w, progs, workers) && WellMade(progs) && t < |progs| && Claimed(w, progs, workers, t)
    requires OneByOne(w, progs) && forall i, j :: 0 <= i < |progs| && 0 <= j < |progs| ==> workers[i] == workers[j]
    ensures Clear(w, progs, t) && OneByOne(Step(w, progs, workers, t), progs)
  {
    hide WellMade, ReadFirst;
    forall s: nat, c: nat, k: nat, y: nat | Pending(w, progs, s, c, k, y)
      ensures w.pcs[s] > 0 && Unfinished(w, progs, s)
    {
      Begun(w, progs, s, c, k, y);
    }
    var u := Step(w, progs, workers, t);
    forall s: nat, v: nat | s < v < |progs| && u.pcs[v] > 0
      ensures !Unfinished(u, progs, s)
    {
      assert Unfinished(u, progs, s) ==> Unfinished(w, progs, s);
      if v == t && Unfinished(w, progs, s) { assert !Unfinished(w, progs, t); }
    }
  }

  lemma Begun(w: World, progs: seq<Program>, t: nat, c: nat, k: nat, bit: nat)
    requires WellMade(progs) && Pending(w, progs, t, c, k, bit)
    ensures w.pcs[t] > 0
  {
    assert ReadFirst(progs[t]);
  }

  lemma {:induction false} AloneAllClear(w: World, progs: seq<Program>, workers: seq<nat>, schedule: seq<nat>)
    requires Fits(w, progs, workers) && Legal(schedule, |progs|) && WellMade(progs)
             && Orderly(w, progs, workers, schedule)
    requires OneByOne(w, progs) && forall i, j :: 0 <= i < |progs| && 0 <= j < |progs| ==> workers[i] == workers[j]
    ensures AllClear(w, progs, workers, schedule)
    decreases |schedule|
  {
    hide WellMade, Clear, Claimed, OneByOne, Step;
    if schedule != [] {
      AloneStep(w, progs, workers, schedule[0]);
      AloneAllClear(Step(w, progs, workers, schedule[0]), progs, workers, schedule[1..]);
    }
  }

  // ----- runs put together -----

  lemma {:induction false} Joined(w: World, progs: seq<Program>, workers: seq<nat>, a: seq<nat>, b: seq<nat>)
    requires Fits(w, progs, workers) && Legal(a, |progs|) && Legal(b, |progs|)
    ensures Legal(a + b, |progs|)
    ensures var u := Exec(w, progs, workers, a);
            && Exec(w, progs, workers, a + b) == Exec(u, progs, workers, b)
            && (Orderly(w, progs, workers, a + b) <==> Orderly(w, progs, workers, a) && Orderly(u, progs, workers, b))
            && (AllClear(w, progs, workers, a + b) <==>
                 AllClear(w, progs, workers, a) && AllClear(u, progs, workers, b))
    decreases |a|
  {
    hide Step, Clear, Claimed;
    if a == [] {
      assert a + b == b;
    } else {
      assert (a + b)[0] == a[0] && (a + b)[1..] == a[1..] + b;
      Joined(Step(w, progs, workers, a[0]), progs, workers, a[1..], b);
    }
  }

  function Times(t: nat, m: nat): (s: seq<nat>)
    ensures |s| == m && forall i :: 0 <= i < m ==> s[i] == t
  {
    seq(m, _ => t)
  }

  lemma StillClaimed(w: World, progs: seq<Program>, workers: seq<nat>, t: nat)
    requires Fits(w, progs, workers) && t < |progs| && Claimed(w, progs, workers, t)
    ensures Claimed(Step(w, progs, workers, t), progs, workers, t)
  {
    var u := Step(w, progs, workers, t);
    assert forall j :: Unfinished(u, progs, j) ==> Unfinished(w, progs, j);
  }

  lemma OneStep(w: World, progs: seq<Program>, workers: seq<nat>, t: nat)
    requires Fits(w, progs, workers) && t < |progs| && w.pcs[t] < |progs[t]|
    ensures |w.pcs| == |progs| && Step(w, progs, workers, t).pcs == w.pcs[t := w.pcs[t] + 1]
  {
  }

  /** A claimed task takes `m` steps in a row. */
  lemma {:induction false} RunSome(w: World, progs: seq<Program>, workers: seq<nat>, t: nat, m: nat)
    requires Fits(w, progs, workers) && t < |progs| && w.pcs[t] + m <= |progs[t]| && Claimed(w, progs, workers, t)
    ensures Orderly(w, progs, workers, Times(t, m))
    ensures Exec(w, progs, workers, Times(t, m)).pcs == w.pcs[t := w.pcs[t] + m]
    decreases m
  {
    if m > 0 {
      hide Claimed, Step, Times, Fits;
      assert Times(t, m)[0] == t && Times(t, m)[1..] == Times(t, m - 1);
      OneStep(w, progs, workers, t);
      StillClaimed(w, progs, workers, t);
      RunSome(Step(w, progs, workers, t), progs, workers, t, m - 1);
    }
  }

  /** The tasks from `lo` up to `hi`, one after the other. */
  function Whole(progs: seq<Program>, lo: nat, hi: nat): (s: seq<nat>)
    requires lo <= hi <= |progs|
    ensures Legal(s, |progs|)
    decreases hi - lo
  {
    if lo == hi then [] else Times(lo, |progs[lo]|) + Whole(progs, lo + 1, hi)
  }

  /** The tasks from `lo` up to `hi` have not begun; of those before, at most one is not
      finished, and its worker does none of them. */
  ghost predicate Waiting(w: World, progs: seq<Program>, workers: seq<nat>, lo: nat, hi: nat)
    requires hi <= |progs| == |workers|
  {
    && |w.pcs| == |progs| && (forall i :: lo <= i < hi ==> w.pcs[i] == 0)
    && (forall j, k :: 0 <= j < k < lo && Unfinished(w, progs, j) ==> !Unfinished(w, progs, k))
    && (forall j, i :: 0 <= j < lo <= i < hi && Unfinished(w, progs, j) ==> workers[j] != workers[i])
  }

  /** From `p` to `q` the tasks from `lo` up to `hi` have run to their ends. */
  ghost predicate Ended(progs: seq<Program>, p: seq<nat>, q: seq<nat>, lo: nat, hi: nat) {
    |p| == |q| == |progs| && forall i :: 0 <= i < |progs| ==> q[i] == if lo <= i < hi then |progs[i]| else p[i]
  }

  lemma {:induction false} RunWhole(w: World, progs: seq<Program>, workers: seq<nat>, lo: nat, hi: nat)
    requires Fits(w, progs, workers) && lo <= hi <= |progs| && Waiting(w, progs, workers, lo, hi)
    ensures Orderly(w, progs, workers, Whole(progs, lo, hi))
    ensures Ended(progs, w.pcs, Exec(w, progs, workers, Whole(progs, lo, hi)).pcs, lo, hi)
    decreases hi - lo
  {
    if lo < hi {
      assert Whole(progs, lo, hi) == Times(lo, |progs[lo]|) + Whole(progs, lo + 1, hi);
      hide Step, Waiting, Claimed, Orderly, Exec, Ended, Legal, Fits, Whole, Times;
      NextWaits(w, progs, workers, lo, hi);
      RunSome(w, progs, workers, lo, |progs[lo]|);
      var u := Exec(w, progs, workers, Times(lo, |progs[lo]|));
      StillWaiting(w, progs, workers, lo, hi, u);
      RunWhole(u, progs, workers, lo + 1, hi);
      Joined(w, progs, workers, Times(lo, |progs[lo]|), Whole(progs, lo + 1, hi));
      EndedNext(progs, w.pcs, Exec(u, progs, workers, Whole(progs, lo + 1, hi)).pcs, lo, hi);
    } else {
      Nothing(w, progs, workers);
    }
  }

  lemma EndedNext(progs: seq<Program>, p: seq<nat>, q: seq<nat>, lo: nat, hi: nat)
    requires lo < hi <= |progs| == |p| && Ended(progs, p[lo := |progs[lo]|], q, lo + 1, hi)
    ensures Ended(progs, p, q, lo, hi)
  {
  }

  lemma NextWaits(w: World, progs: seq<Program>, workers: seq<nat>, lo: nat, hi: nat)
    requires lo < hi <= |progs| == |workers| && Waiting(w, progs, workers, lo, hi)
    ensures Claimed(w, progs, workers, lo) && |w.pcs| == |progs| && w.pcs[lo] == 0
  {
  }

  lemma StillWaiting(w: World, progs: seq<Program>, workers: seq<nat>, lo: nat, hi: nat, u: World)
    requires lo < hi <= |progs| == |workers| && Waiting(w, progs, workers, lo, hi) && |w.pcs| == |progs|
    requires u.pcs == w.pcs[lo := |progs[lo]|]
    ensures Waiting(u, progs, workers, lo + 1, hi)
  {
    assert forall j :: Unfinished(u, progs, j) ==> Unfinished(w, progs, j) && j != lo;
  }

  lemma Nothing(w: World, progs: seq<Program>, workers: seq<nat>)
    requires Fits(w, progs, workers)
    ensures Exec(w, progs, workers, []) == w && Orderly(w, progs, workers, [])
  {
  }

  // ----- a byte of two tasks -----

  /** Two workers: the first does the tasks up to `t`, the second the others. */
  function TwoWorkers(tasks: nat, t: nat): seq<nat> { seq(tasks, i => if i <= t then 0 else 1) }

  /** Both tasks have read the byte and are about to write it. */
  lemma Collision(progs: seq<Program>, t: nat, u: nat, i: nat, j: nat) returns (s: seq<nat>)
    requires t < u < |progs| && i < |progs[t]| && j < |progs[u]|
    ensures Legal(s, |progs|)
    ensures var workers := TwoWorkers(|progs|, t);
            var w := Exec(Start(|progs|), progs, workers, s);
            && Orderly(Start(|progs|), progs, workers, s)
            && forall x :: 0 <= x < |progs| ==>
                 w.pcs[x] == if x == t then i else if x == u then j else if x < u then |progs[x]| else 0
  {
    hide Step, Orderly, Exec;
    var workers := TwoWorkers(|progs|, t);
    var w0 := Start(|progs|);
    RunWhole(w0, progs, workers, 0, t);
    var w1 := Exec(w0, progs, workers, Whole(progs, 0, t));
    RunSome(w1, progs, workers, t, i);
    var w2 := Exec(w1, progs, workers, Times(t, i));
    RunWhole(w2, progs, workers, t + 1, u);
    var w3 := Exec(w2, progs, workers, Whole(progs, t + 1, u));
    RunSome(w3, progs, workers, u, j);
    s := ((Whole(progs, 0, t) + Times(t, i)) + Whole(progs, t + 1, u)) + Times(u, j);
    Joined(w0, progs, workers, Whole(progs, 0, t), Times(t, i));
    Joined(w0, progs, workers, Whole(progs, 0, t) + Times(t, i), Whole(progs, t + 1, u));
    Joined(w0, progs, workers, (Whole(progs, 0, t) + Times(t, i)) + Whole(progs, t + 1, u), Times(u, j));
  }

  /** From there to the end, the first of the two first. */
  lemma ToTheEnd(progs: seq<Program>, w: World, t: nat, u: nat) returns (s: seq<nat>)
    requires t < u < |progs| && Fits(w, progs, TwoWorkers(|progs|, t)) && Unfinished(w, progs, t)
    requires forall x :: 0 <= x < |progs| && x != t && x != u ==> w.pcs[x] == if x < u then |progs[x]| else 0
    ensures s != [] && s[0] == t && Legal(s, |progs|)
    ensures var workers := TwoWorkers(|progs|, t);
            Orderly(w, progs, workers, s) && Finished(Exec(w, progs, workers, s), progs)
  {
    hide Step, Orderly, Exec;
    var workers := TwoWorkers(|progs|, t);
    var m, n := |progs[t]| - w.pcs[t], |progs[u]| - w.pcs[u];
    RunSome(w, progs, workers, t, m);
    var w1 := Exec(w, progs, workers, Times(t, m));
    RunSome(w1, progs, workers, u, n);
    var w2 := Exec(w1, progs, workers, Times(u, n));
    RunWhole(w2, progs, workers, u + 1, |progs|);
    s := (Times(t, m) + Times(u, n)) + Whole(progs, u + 1, |progs|);
    Joined(w, progs, workers, Times(t, m), Times(u, n));
    Joined(w, progs, workers, Times(t, m) + Times(u, n), Whole(progs, u + 1, |progs|));
  }

  lemma NotClear(w: World, progs: seq<Program>, workers: seq<nat>, t: nat, u: nat, c: nat, k: nat, y: nat, z: nat,
                 s: seq<nat>)
    requires Fits(w, progs, workers) && Pending(w, progs, t, c, k, y) && Pending(w, progs, u, c, k, z) && t != u
    requires s != [] && s[0] == t && Legal(s, |progs|)
    ensures !AllClear(w, progs, workers, s)
  {
    hide Step;
    assert !Clear(w, progs, t);
  }

  lemma PlaceOf(p: Program, x: Action) returns (i: nat)
    requires x in p
    ensures i < |p| && p[i] == x
  {
    i :| 0 <= i < |p| && p[i] == x;
  }

  /** A run of two workers in which a bit of the byte is lost. */
  lemma LosingRun(progs: seq<Program>, t: nat, u: nat, c: nat, k: nat, y: nat, z: nat) returns (schedule: seq<nat>)
    requires WellMade(progs) && t < u < |progs| && Store(c, k, y) in progs[t] && Store(c, k, z) in progs[u]
    ensures IsRun(progs, TwoWorkers(|progs|, t), 2, schedule)
    ensures !NoneLost(Result(progs, TwoWorkers(|progs|, t), schedule), progs)
  {
    hide WellMade, Orderly, Exec, AllClear, Finished, NoneLost, Legal;
    var workers := TwoWorkers(|progs|, t);
    var i := PlaceOf(progs[t], Store(c, k, y));
    var j := PlaceOf(progs[u], Store(c, k, z));
    var s1 := Collision(progs, t, u, i, j);
    var w0 := Start(|progs|);
    StartInv(progs, workers);
    StartCurrent(progs);
    var w := Exec(w0, progs, workers, s1);
    assert Pending(w, progs, t, c, k, y) && Pending(w, progs, u, c, k, z);
    var s2 := ToTheEnd(progs, w, t, u);
    NotClear(w, progs, workers, t, u, c, k, y, z, s2);
    Joined(w0, progs, workers, s1, s2);
    schedule := s1 + s2;
    KeptExactly(w0, progs, workers, schedule);
  }

  lemma LosingPair(progs: seq<Program>, t: nat, u: nat, c: nat, k: nat, y: nat, z: nat)
    returns (workers: seq<nat>, schedule: seq<nat>)
    requires WellMade(progs) && t < |progs| && u < |progs| && t != u
    requires Store(c, k, y) in progs[t] && Store(c, k, z) in progs[u]
    ensures IsRun(progs, workers, 2, schedule) && !NoneLost(Result(progs, workers, schedule), progs)
  {
    hide WellMade, IsRun, NoneLost;
    if t < u {
      schedule := LosingRun(progs, t, u, c, k, y, z);
      workers := TwoWorkers(|progs|, t);
    } else {
      schedule := LosingRun(progs, u, t, c, k, z, y);
      workers := TwoWorkers(|progs|, u);
    }
  }

  lemma MoreThreads(progs: seq<Program>, workers: seq<nat>, pool: nat, schedule: seq<nat>)
    requires IsRun(progs, workers, 2, schedule) && pool >= 2
    ensures IsRun(progs, workers, pool, schedule)
  {
    hide Orderly, Exec;
  }

  lemma SafeRun(progs: seq<Program>, workers: seq<nat>, pool: nat, schedule: seq<nat>)
    requires WellMade(progs) && IsRun(progs, workers, pool, schedule) && (Apart(progs) || pool <= 1)
    ensures NoneLost(Result(progs, workers, schedule), progs)
  {
    hide WellMade, Orderly, AllClear, Exec, Finished, NoneLost;
    StartInv(progs, workers);
    StartCurrent(progs);
    if Apart(progs) {
      ApartAllClear(Start(|progs|), progs, workers, schedule);
    } else {
      AloneAllClear(Start(|progs|), progs, workers, schedule);
    }
    KeptExactly(Start(|progs|), progs, workers, schedule);
  }

  ghost predicate AlwaysKept(progs: seq<Program>, pool: nat) {
    forall workers, schedule :: IsRun(progs, workers, pool, schedule) ==>
        NoneLost(Result(progs, workers, schedule), progs)
  }

  lemma SharedByte(progs: seq<Program>) returns (t: nat, u: nat, c: nat, k: nat, y: nat, z: nat)
    requires !Apart(progs)
    ensures t < |progs| && u < |progs| && t != u && Store(c, k, y) in progs[t] && Store(c, k, z) in progs[u]
  {
    t, u, c, k :| t < |progs| && u < |progs| && Touches(progs[t], c, k) && Touches(progs[u], c, k) && t != u;
    y :| Store(c, k, y) in progs[t];
    z :| Store(c, k, z) in progs[u];
  }

  lemma NotAlways(progs: seq<Program>, pool: nat)
    requires WellMade(progs) && !Apart(progs) && pool >= 2
    ensures !AlwaysKept(progs, pool)
  {
    hide WellMade, IsRun, NoneLost, Result, Apart;
    var t, u, c, k, y, z := SharedByte(progs);
    var workers, schedule := LosingPair(progs, t, u, c, k, y, z);
    MoreThreads(progs, workers, pool, schedule);
  }

  /** Every run of a pool keeps every bit if and only if each byte is written by one task
      only, or the pool has but one thread. */
  lemma SafeExactly(progs: seq<Program>, pool: nat)
    requires WellMade(progs)
    ensures AlwaysKept(progs, pool) <==> Apart(progs) || pool <= 1
  {
    hide WellMade, Apart, Orderly, Exec, Finished, NoneLost, Legal;
    if Apart(progs) || pool <= 1 {
      forall workers, schedule | IsRun(progs, workers, pool, schedule)
        ensures NoneLost(Result(progs, workers, schedule), progs)
      {
        SafeRun(progs, workers, pool, schedule);
      }
    } else {
      NotAlways(progs, pool);
    }
  }
}
