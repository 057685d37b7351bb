/** One parallel dispatch as interleaved atomic steps: the dispatcher stores the task
    count, the tail and the pending count, signals the workers, claims tasks like them,
    and then spins until nothing is pending. */
module Dispatch {

  /** Where a thread is: before its next atomic step. */
  datatype Pc =
    | StoreCount | StoreTail | StorePending | Signal(left: nat)
    | Parked | Claim | Check(i: nat) | Test(i: nat) | Run(i: nat) | Finish(i: nat)
    | Spin | Left

  datatype State = State(
    n: nat,
    count: nat, tail: nat, pending: int, sem: nat, cancelled: bool,
    main: Pc, workers: seq<Pc>,
    started: seq<nat>, finished: set<nat>)

  datatype Choice = Main | Worker(w: nat) | Cancel

  /** Thread 0 is the dispatcher. */
  function PcOf(s: State, t: nat): Pc
    requires t <= |s.workers|
  {
    if t == 0 then s.main else s.workers[t - 1]
  }

  function At(s: State, t: nat, pc: Pc): State
    requires t <= |s.workers|
  {
    if t == 0 then s.(main := pc) else s.(workers := s.workers[t - 1 := pc])
  }

  /** The claim loop, the same for dispatcher and workers but for what a claim past the
      end leads to and which count it is compared with. */
  function LoopStep(s: State, t: nat): State
    requires t <= |s.workers|
  {
    match PcOf(s, t)
    case Claim => At(s, t, Check(s.tail)).(tail := s.tail + 1)
    case Check(i) =>
      if t == 0 then At(s, t, if i >= s.n then Spin else Test(i))
      else At(s, t, if i >= s.count then Parked else Test(i))
    case Test(i) =>
      if s.cancelled then At(s, t, Finish(i)) else At(s, t, Run(i)).(started := s.started + [i])
    case Run(i) => At(s, t, Finish(i))
    case Finish(i) => At(s, t, Claim).(pending := s.pending - 1, finished := s.finished + {i})
    case _ => s
  }

  /** One atomic step; a thread that cannot move stays. */
  function Step(s: State, c: Choice): State {
    match c
    case Cancel => s.(cancelled := true)
    case Worker(w) =>
      if w >= |s.workers| then s
      else if s.workers[w] == Parked then
        if s.sem > 0 then At(s, w + 1, Claim).(sem := s.sem - 1) else s
      else LoopStep(s, w + 1)
    case Main =>
      match s.main
      case StoreCount => s.(count := s.n, main := StoreTail)
      case StoreTail => s.(tail := 0, main := StorePending)
      case StorePending => s.(pending := s.n, main := Signal(|s.workers|))
      case Signal(left) => if left > 0 then s.(sem := s.sem + 1, main := Signal(left - 1)) else s.(main := Claim)
      case Spin => if s.pending > 0 then s else s.(main := Left)
      case _ => LoopStep(s, 0)
  }

  function Exec(s: State, cs: seq<Choice>): State
    decreases |cs|
  {
    if cs == [] then s else Exec(Step(s, cs[0]), cs[1..])
  }

  // ----- the states a dispatch starts from -----

  /** Between two dispatches: the previous one finished, its workers on their way back
      to the semaphore or asleep on it; the caller has cleared the cancel flag. */
  ghost predicate Between(s: State) {
    && s.n > 0 && s.main == StoreCount && s.pending == 0 && !s.cancelled && s.started == [] && s.finished == {}
    && forall w: nat :: w < |s.workers| ==>
         s.workers[w] == Parked || s.workers[w] == Claim || (s.workers[w].Check? && s.workers[w].i >= s.count)
  }

  /** No worker can reach a task of the new dispatch before it is published. */
  ghost predicate Ready(s: State) {
    && (s.sem == 0 || s.workers == [])
    && forall w: nat :: w < |s.workers| ==> s.workers[w] == Parked || (s.workers[w].Check? && s.workers[w].i >= s.n)
  }

  // ----- what is promised -----

  ghost predicate NoneTwice(started: seq<nat>) {
    forall j, k :: 0 <= j < k < |started| ==> started[j] != started[k]
  }

  ghost predicate AllOf(n: nat, done: set<nat>) { forall i: nat :: i < n <==> i in done }

  /** `i` is claimed by thread `t` and not yet finished. */
  ghost predicate Holds(s: State, t: nat, i: nat) {
    t <= |s.workers| && var pc := PcOf(s, t);
    (pc.Check? || pc.Test? || pc.Run? || pc.Finish?) && pc.i == i
  }

  ghost predicate SomeoneWorks(s: State) {
    exists t: nat, i: nat :: Holds(s, t, i) && i < s.n
  }

  /** No task is started twice; the dispatcher leaves only when every task has finished
      and nobody works on one, each task then started once unless the query was
      cancelled; while it spins, some worker has a task, and once every task has
      finished nothing is pending. */
  ghost predicate Good(s: State) {
    && NoneTwice(s.started)
    && (s.main == Left ==>
          && AllOf(s.n, s.finished)
          && (forall t: nat, i: nat :: Holds(s, t, i) ==> i >= s.n)
          && (s.cancelled || forall i: nat :: i < s.n ==> i in s.started))
    && (s.main == Spin && AllOf(s.n, s.finished) ==> s.pending == 0)
    && (s.main == Spin && s.pending > 0 ==> SomeoneWorks(s))
  }

  // ----- the invariant -----

  ghost predicate Before(s: State) {
    && (s.main == StoreCount || s.main == StoreTail || s.main == StorePending)
    && (s.main != StoreCount ==> s.count == s.n)
    && s.started == [] && s.finished == {} && (s.sem == 0 || s.workers == [])
    && (s.main == StorePending ==> s.tail == 0)
    && forall w: nat :: w < |s.workers| ==>
         s.workers[w] == Parked || (s.workers[w].Check? && s.workers[w].i >= s.n && s.workers[w].i >= s.count)
  }

  ghost predicate Shapes(s: State) {
    && s.count == s.n
    && s.pending == s.n - |s.finished|
    && (s.main.Signal? || s.main == Claim || s.main.Check? || s.main.Test? || s.main.Run? || s.main.Finish?
        || s.main == Spin || s.main == Left)
    && (forall w: nat :: w < |s.workers| ==>
          var pc := s.workers[w]; pc == Parked || pc == Claim || pc.Check? || pc.Test? || pc.Run? || pc.Finish?)
    && (forall i :: i in s.finished ==> i < s.n && i < s.tail)
    && (s.main.Check? ==> s.main.i < s.tail)
    && (s.main == Spin || s.main == Left ==> s.tail > s.n)
  }

  /** Only a claim may be past the end; and it is the holder's alone. */
  ghost predicate Claims(s: State) {
    && (forall t: nat, i: nat :: Holds(s, t, i) && i < s.n ==> i < s.tail && i !in s.finished)
    && (forall t: nat, i: nat :: Holds(s, t, i) && !PcOf(s, t).Check? ==> i < s.n)
    && (forall t: nat, u: nat, i: nat :: Holds(s, t, i) && Holds(s, u, i) && i < s.n ==> t == u)
    && (forall i: nat :: i < s.tail && i < s.n ==> i in s.finished || exists t: nat :: Holds(s, t, i))
  }

  ghost predicate Starts(s: State) {
    && NoneTwice(s.started)
    && (forall i :: i in s.started ==> i < s.tail && i < s.n)
    && (forall t: nat, i: nat :: Holds(s, t, i) && (PcOf(s, t).Check? || PcOf(s, t).Test?) ==> i !in s.started)
    && (forall t: nat, i: nat :: Holds(s, t, i) && (PcOf(s, t).Run? || PcOf(s, t).Finish?) ==>
         i in s.started || s.cancelled)
    && (forall i :: i in s.finished ==> i in s.started || s.cancelled)
  }

  ghost predicate Inv(s: State) {
    Before(s) || (Shapes(s) && Claims(s) && Starts(s) && (s.main == Left ==> s.pending <= 0))
  }

  lemma PublishKeeps(s: State, c: Choice)
    requires Before(s)
    ensures Inv(Step(s, c))
  {
    var u := Step(s, c);
    if c.Main? && s.main == StorePending {
      assert forall t: nat, i: nat :: Holds(u, t, i) ==> i >= u.n;
    } else {
      assert Before(u);
    }
  }

  /** Only thread `t` moved. */
  lemma OthersSame(s: State, t: nat, pc: Pc, u: State)
    requires t <= |s.workers| && u.main == At(s, t, pc).main && u.workers == At(s, t, pc).workers
    ensures |u.workers| == |s.workers| && PcOf(u, t) == pc
    ensures forall k: nat :: k <= |s.workers| && k != t ==> PcOf(u, k) == PcOf(s, k)
    ensures forall k: nat, i: nat :: k != t ==> (Holds(u, k, i) <==> Holds(s, k, i))
  {
  }

  lemma ClaimKeeps(s: State, t: nat)
    requires Shapes(s) && Claims(s) && Starts(s) && t <= |s.workers| && PcOf(s, t) == Claim
    ensures var u := LoopStep(s, t); Shapes(u) && Claims(u) && Starts(u)
  {
    var u := LoopStep(s, t);
    OthersSame(s, t, Check(s.tail), u);
    assert Holds(u, t, s.tail);
    forall i: nat | i < u.tail && i < u.n
      ensures i in u.finished || exists k: nat :: Holds(u, k, i)
    {
      if i < s.tail && i !in s.finished {
        var k: nat :| Holds(s, k, i);
        assert Holds(u, k, i);
      }
    }
  }

  /** A step of a thread that keeps its task, or lets a claim past the end go. */
  lemma MoveKeeps(s: State, t: nat, i: nat, pc: Pc, u: State)
    requires Shapes(s) && Claims(s) && Starts(s) && Holds(s, t, i) && !PcOf(s, t).Finish?
    requires u == At(s, t, pc).(started := u.started)
    requires || (u.started == s.started && i >= s.n && PcOf(s, t).Check? && pc == (if t == 0 then Spin else Parked))
             || (u.started == s.started && i < s.n && PcOf(s, t).Check? && pc == Test(i))
             || (u.started == s.started && PcOf(s, t).Test? && s.cancelled && pc == Finish(i))
             || (u.started == s.started && PcOf(s, t).Run? && pc == Finish(i))
             || (u.started == s.started + [i] && PcOf(s, t).Test? && pc == Run(i))
    ensures Shapes(u) && Claims(u) && Starts(u)
  {
    OthersSame(s, t, pc, u);
    assert forall j: nat :: Holds(u, t, j) ==> j == i && j < s.n;
    forall j: nat | j < u.tail && j < u.n
      ensures j in u.finished || exists k: nat :: Holds(u, k, j)
    {
      if j !in s.finished {
        var k: nat :| Holds(s, k, j);
        assert Holds(u, k, j);
      }
    }
  }

  lemma FinishKeeps(s: State, t: nat, i: nat)
    requires Shapes(s) && Claims(s) && Starts(s) && Holds(s, t, i) && PcOf(s, t) == Finish(i)
    ensures var u := LoopStep(s, t); Shapes(u) && Claims(u) && Starts(u)
  {
    var u := LoopStep(s, t);
    OthersSame(s, t, Claim, u);
    assert i < s.n && i !in s.finished;
    forall j: nat | j < u.tail && j < u.n
      ensures j in u.finished || exists k: nat :: Holds(u, k, j)
    {
      if j !in s.finished && j != i {
        var k: nat :| Holds(s, k, j);
        assert Holds(u, k, j);
      }
    }
  }

  lemma LoopKeeps(s: State, t: nat)
    requires Shapes(s) && Claims(s) && Starts(s) && t <= |s.workers|
    ensures var u := LoopStep(s, t); Shapes(u) && Claims(u) && Starts(u)
  {
    hide Claims, Starts;
    match PcOf(s, t)
    case Claim => ClaimKeeps(s, t);
    case Check(i) => assert Holds(s, t, i); MoveKeeps(s, t, i, PcOf(LoopStep(s, t), t), LoopStep(s, t));
    case Test(i) => assert Holds(s, t, i); MoveKeeps(s, t, i, PcOf(LoopStep(s, t), t), LoopStep(s, t));
    case Run(i) => assert Holds(s, t, i); MoveKeeps(s, t, i, Finish(i), LoopStep(s, t));
    case Finish(i) => assert Holds(s, t, i); FinishKeeps(s, t, i);
    case _ =>
  }

  /** A step that moves no task. */
  lemma IdleKeeps(s: State, u: State)
    requires Shapes(s) && Claims(s) && Starts(s) && Shapes(u) && u.started == s.started && u.finished == s.finished
    requires u.tail == s.tail && u.n == s.n && |u.workers| == |s.workers| && (s.cancelled ==> u.cancelled)
    requires forall t: nat, i: nat :: Holds(u, t, i) <==> Holds(s, t, i)
    requires forall t: nat, i: nat :: Holds(s, t, i) ==> PcOf(u, t) == PcOf(s, t)
    ensures Claims(u) && Starts(u)
  {
    forall i: nat | i < u.tail && i < u.n
      ensures i in u.finished || exists t: nat :: Holds(u, t, i)
    {
      if i !in s.finished {
        var t: nat :| Holds(s, t, i);
        assert Holds(u, t, i);
      }
    }
  }

  /** A parked worker woken; a signal sent; the spin loop left. */
  lemma WakeKeeps(s: State, c: Choice)
    requires Shapes(s) && Claims(s) && Starts(s)
    requires || (c.Worker? && c.w < |s.workers| && s.workers[c.w] == Parked)
             || (c.Main? && (s.main.Signal? || s.main == Spin))
             || c.Cancel?
    ensures var u := Step(s, c); Shapes(u) && Claims(u) && Starts(u)
  {
    hide Claims, Starts;
    var u := Step(s, c);
    if c.Worker? && s.sem > 0 {
      OthersSame(s, c.w + 1, Claim, u);
    } else if c.Main? {
      OthersSame(s, 0, u.main, u);
    }
    IdleKeeps(s, u);
  }

  lemma RunningKeeps(s: State, c: Choice)
    requires Shapes(s) && Claims(s) && Starts(s)
    ensures var u := Step(s, c); Shapes(u) && Claims(u) && Starts(u)
  {
    hide Claims, Starts, Shapes, LoopStep;
    if c.Cancel? || (c.Main? && (s.main.Signal? || s.main == Spin))
       || (c.Worker? && c.w < |s.workers| && s.workers[c.w] == Parked) {
      WakeKeeps(s, c);
    } else if c.Main? {
      MainLoops(s);
      LoopKeeps(s, 0);
    } else if c.w < |s.workers| {
      LoopKeeps(s, c.w + 1);
    }
  }

  lemma LeftKeeps(s: State, c: Choice)
    requires s.main == Left ==> s.pending <= 0
    ensures var u := Step(s, c); u.main == Left ==> u.pending <= 0
  {
  }

  lemma InvKeeps(s: State, c: Choice)
    requires Inv(s)
    ensures Inv(Step(s, c))
  {
    hide Claims, Starts, Shapes, Step;
    if Before(s) {
      PublishKeeps(s, c);
    } else {
      RunningKeeps(s, c);
      LeftKeeps(s, c);
    }
  }

  lemma MainLoops(s: State)
    requires Shapes(s) && !s.main.Signal? && s.main != Spin
    ensures Step(s, Main) == LoopStep(s, 0)
  {
  }

  lemma {:induction false} RunKeeps(s: State, cs: seq<Choice>)
    requires Inv(s)
    ensures Inv(Exec(s, cs))
    decreases |cs|
  {
    if cs != [] {
      InvKeeps(s, cs[0]);
      RunKeeps(Step(s, cs[0]), cs[1..]);
    }
  }

  // ----- what follows for a dispatch that starts with its workers parked -----

  lemma {:induction false} RangeSize(n: nat, done: set<nat>)
    requires forall i :: i in done ==> i < n
    ensures |done| <= n && (|done| == n <==> AllOf(n, done))
    decreases n
  {
    if n == 0 {
      assert done == {};
    } else {
      var less := done - {n - 1};
      RangeSize(n - 1, less);
      if n - 1 in done {
        assert |done| == |less| + 1;
        assert forall i: nat :: i in less <==> i in done && i != n - 1;
        if AllOf(n - 1, less) {
          forall i: nat
            ensures i < n <==> i in done
          {
            assert i < n - 1 <==> i in less;
          }
        }
        if AllOf(n, done) {
          forall i: nat
            ensures i < n - 1 <==> i in less
          {
            assert i < n <==> i in done;
          }
        }
      } else {
        assert less == done;
      }
    }
  }

  lemma InvGood(s: State)
    requires Inv(s)
    ensures Good(s)
  {
    if !Before(s) {
      RangeSize(s.n, s.finished);
      if s.main == Spin && s.pending > 0 {
        var i: nat :| i < s.n && i !in s.finished;
        var t: nat :| Holds(s, t, i);
      }
    }
  }

  /** Whatever the interleaving, a dispatch begun in a ready state keeps its promises. */
  lemma ReadyIsSafe(s: State, cs: seq<Choice>)
    requires Between(s) && Ready(s)
    ensures Good(Exec(s, cs))
  {
    forall w: nat | w < |s.workers|
      ensures s.workers[w] == Parked || (s.workers[w].Check? && s.workers[w].i >= s.n && s.workers[w].i >= s.count)
    {
      assert s.workers[w] != Claim;
    }
    assert Before(s);
    RunKeeps(s, cs);
    InvGood(Exec(s, cs));
  }

  /** The next dispatch, of `n` tasks, begun where this one left off. */
  function Next(s: State, n: nat): State {
    s.(n := n, cancelled := false, main := StoreCount, started := [], finished := {})
  }

  /** The dispatcher leaves a state in which the next dispatch may begin. */
  lemma NextMayBegin(s: State, n: nat)
    requires Inv(s) && s.main == Left && n > 0
    ensures Between(Next(s, n))
  {
    RangeSize(s.n, s.finished);
    forall w: nat | w < |s.workers|
      ensures s.workers[w] == Parked || s.workers[w] == Claim || (s.workers[w].Check? && s.workers[w].i >= s.count)
    {
      var pc := s.workers[w];
      if pc.Check? || pc.Test? || pc.Run? || pc.Finish? { assert Holds(s, w + 1, pc.i); }
    }
  }

  // ----- and for one that does not -----

  lemma {:induction false} ExecAppend(s: State, a: seq<Choice>, b: seq<Choice>)
    ensures Exec(s, a + b) == Exec(Exec(s, a), b)
    decreases |a|
  {
    if a == [] {
      assert a + b == b;
    } else {
      assert (a + b)[1..] == a[1..] + b;
      ExecAppend(Step(s, a[0]), a[1..], b);
    }
  }

  function Times(c: Choice, k: nat): seq<Choice> { seq(k, _ => c) }

  lemma ExecOne(s: State, c: Choice)
    ensures Exec(s, [c]) == Step(s, c)
  {
    assert Exec(Step(s, c), []) == Step(s, c);
  }

  lemma {:induction false} Signals(s: State, k: nat)
    requires s.main == Signal(k)
    ensures Exec(s, Times(Main, k + 1)) == s.(sem := s.sem + k, main := Claim)
    decreases k
  {
    assert Times(Main, k + 1)[1..] == Times(Main, k);
    if k > 0 {
      Signals(Step(s, Main), k - 1);
    } else {
      assert Exec(Step(s, Main), []) == Step(s, Main);
    }
  }

  function UpTo(j: nat, m: nat): seq<nat> { seq(m, k requires k >= 0 => j + k) }

  ghost function Marked(done: set<nat>, j: nat, m: nat): set<nat> { done + set i | i in UpTo(j, m) }

  lemma NoMore(started: seq<nat>, done: set<nat>, j: nat)
    ensures started + UpTo(j, 0) == started && Marked(done, j, 0) == done
  {
  }

  lemma OneMore(started: seq<nat>, done: set<nat>, j: nat, m: nat)
    requires m > 0
    ensures started + [j] + UpTo(j + 1, m - 1) == started + UpTo(j, m)
    ensures Marked(done + {j}, j + 1, m - 1) == Marked(done, j, m)
  {
    assert UpTo(j, m) == [j] + UpTo(j + 1, m - 1);
  }

  /** The dispatcher alone works off `m` tasks. */
  lemma {:induction false} WorksOff(s: State, m: nat)
    requires s.main == Claim && !s.cancelled && s.tail + m <= s.n
    ensures Exec(s, Times(Main, 5 * m)) ==
            s.(tail := s.tail + m, pending := s.pending - m, started := s.started + UpTo(s.tail, m),
               finished := Marked(s.finished, s.tail, m))
    decreases m
  {
    hide UpTo, Marked, Step;
    if m == 0 {
      assert Times(Main, 0) == [];
      NoMore(s.started, s.finished, s.tail);
    } else {
      var u := OneTask(s);
      assert Times(Main, 5 * m) == Times(Main, 5) + Times(Main, 5 * (m - 1));
      ExecAppend(s, Times(Main, 5), Times(Main, 5 * (m - 1)));
      WorksOff(u, m - 1);
      OneMore(s.started, s.finished, s.tail, m);
    }
  }

  lemma OneTask(s: State) returns (u: State)
    requires s.main == Claim && !s.cancelled && s.tail < s.n
    ensures u == Exec(s, Times(Main, 5))
    ensures u == s.(tail := s.tail + 1, pending := s.pending - 1, started := s.started + [s.tail],
                    finished := s.finished + {s.tail})
  {
    var i := s.tail;
    var s1 := Step(s, Main);
    var s2 := Step(s1, Main);
    var s3 := Step(s2, Main);
    var s4 := Step(s3, Main);
    u := Step(s4, Main);
    assert s1 == s.(main := Check(i), tail := i + 1);
    assert s2 == s1.(main := Test(i));
    assert s3 == s2.(main := Run(i), started := s.started + [i]);
    assert s4 == s3.(main := Finish(i));
    assert Times(Main, 5) == [Main] + [Main] + [Main] + [Main] + [Main];
    ExecOne(s, Main);
    ExecOne(s1, Main);
    ExecOne(s2, Main);
    ExecOne(s3, Main);
    ExecOne(s4, Main);
    ExecAppend(s, [Main], [Main]);
    ExecAppend(s, [Main] + [Main], [Main]);
    ExecAppend(s, [Main] + [Main] + [Main], [Main]);
    ExecAppend(s, [Main] + [Main] + [Main] + [Main], [Main]);
  }

  /** From the signals on, the dispatcher alone: `m` tasks worked off. */
  lemma SignalsThenWork(s: State, m: nat)
    requires s.main == StorePending && !s.cancelled && s.tail + m <= s.n
    ensures var u := Exec(s, [Main] + Times(Main, |s.workers| + 1) + Times(Main, 5 * m));
            && u.main == Claim && u.n == s.n && u.tail == s.tail + m && u.pending == s.n - m
            && u.started == s.started + UpTo(s.tail, m) && u.finished == Marked(s.finished, s.tail, m)
            && u.sem == s.sem + |s.workers| && u.workers == s.workers
  {
    var s1 := Step(s, Main);
    ExecOne(s, Main);
    Signals(s1, |s.workers|);
    var s2 := s1.(sem := s1.sem + |s.workers|, main := Claim);
    WorksOff(s2, m);
    ExecAppend(s, [Main], Times(Main, |s.workers| + 1));
    ExecAppend(s, [Main] + Times(Main, |s.workers| + 1), Times(Main, 5 * m));
  }

  /** A claim made before the count is stored, and compared after it: the task is run
      early, and once more when the tail starts from 0. */
  lemma EarlyClaimTwice(s: State, w: nat) returns (cs: seq<Choice>)
    requires Between(s) && w < |s.workers| && s.workers[w].Check? && s.workers[w].i < s.n
    ensures !Good(Exec(s, cs))
  {
    var i := s.workers[w].i;
    var s1 := Step(s, Main);
    var s2 := Step(s1, Worker(w));
    var s3 := Step(s2, Worker(w));
    var s4 := Step(s3, Main);
    assert s2 == s1.(workers := s.workers[w := Test(i)]);
    assert s3.started == [i] && s4.main == StorePending && s4.tail == 0 && s4.started == [i];
    var front := [Main, Worker(w), Worker(w), Main];
    FourSteps(s, Main, Worker(w), Worker(w), Main);
    var rest := [Main] + Times(Main, |s4.workers| + 1) + Times(Main, 5 * (i + 1));
    SignalsThenWork(s4, i + 1);
    ExecAppend(s, front, rest);
    cs := front + rest;
    var u := Exec(s, cs);
    assert u.started[0] == i && u.started[i + 1] == UpTo(0, i + 1)[i] == i;
  }

  lemma FourSteps(s: State, a: Choice, b: Choice, c: Choice, d: Choice)
    ensures Exec(s, [a, b, c, d]) == Step(Step(Step(Step(s, a), b), c), d)
  {
    ExecOne(s, a);
    ExecOne(Step(s, a), b);
    ExecOne(Step(Step(s, a), b), c);
    ExecOne(Step(Step(Step(s, a), b), c), d);
    ExecAppend(s, [a], [b]);
    ExecAppend(s, [a] + [b], [c]);
    ExecAppend(s, [a] + [b] + [c], [d]);
    assert [a, b, c, d] == [a] + [b] + [c] + [d];
  }

  /** A worker let in between the stores of tail and pending count: its task is finished
      before the count is stored, and so never counted off. The dispatcher spins for
      ever. */
  lemma LostDecrement(s: State, w: nat) returns (cs: seq<Choice>)
    requires Between(s) && w < |s.workers| && s.workers[w] == Claim
    ensures !Good(Exec(s, cs))
  {
    hide Exec, Times, UpTo, Marked, Good;
    var s2 := Step(Step(s, Main), Main);
    var s7 := OneWorkerTask(s2, w);
    assert s7.main == StorePending && s7.tail == 1 && s7.started == [0] && s7.finished == {0};
    TwoSteps(s, Main, Main);
    var front := [Main, Main] + Times(Worker(w), 5);
    ExecAppend(s, [Main, Main], Times(Worker(w), 5));
    var rest := [Main] + Times(Main, |s7.workers| + 1) + Times(Main, 5 * (s.n - 1));
    SignalsThenWork(s7, s.n - 1);
    ExecAppend(s, front, rest);
    var u := Exec(s7, rest);
    AllMarked(s.n);
    TwoSteps(u, Main, Main);
    ExecAppend(s, front + rest, [Main, Main]);
    cs := front + rest + [Main, Main];
    SpinsForEver(u);
  }

  /** All tasks finished, one not counted off. */
  lemma SpinsForEver(u: State)
    requires u.main == Claim && u.tail >= u.n && u.pending == 1 && AllOf(u.n, u.finished)
    ensures !Good(Step(Step(u, Main), Main))
  {
    var v := Step(Step(u, Main), Main);
    assert v.main == Spin && v.pending == 1 && v.finished == u.finished;
  }

  lemma TwoSteps(s: State, a: Choice, b: Choice)
    ensures Exec(s, [a, b]) == Step(Step(s, a), b)
  {
    ExecOne(s, a);
    ExecOne(Step(s, a), b);
    ExecAppend(s, [a], [b]);
    assert [a, b] == [a] + [b];
  }

  lemma AllMarked(n: nat)
    requires n > 0
    ensures AllOf(n, Marked({0}, 1, n - 1))
  {
    var done := Marked({0}, 1, n - 1);
    forall i: nat
      ensures i < n <==> i in done
    {
      if 0 < i < n { assert UpTo(1, n - 1)[i - 1] == i; }
    }
  }

  lemma OneWorkerTask(s: State, w: nat) returns (u: State)
    requires w < |s.workers| && s.workers[w] == Claim && !s.cancelled && s.tail < s.n && s.count == s.n
    ensures u == Exec(s, Times(Worker(w), 5))
    ensures u == s.(tail := s.tail + 1, pending := s.pending - 1, started := s.started + [s.tail],
                    finished := s.finished + {s.tail})
  {
    hide Exec;
    var i, c := s.tail, Worker(w);
    var s1 := Step(s, c);
    var s2 := Step(s1, c);
    var s3 := Step(s2, c);
    var s4 := Step(s3, c);
    u := Step(s4, c);
    assert s1 == s.(workers := s.workers[w := Check(i)], tail := i + 1);
    assert s2 == s1.(workers := s.workers[w := Test(i)]);
    assert s3 == s2.(workers := s.workers[w := Run(i)], started := s.started + [i]);
    assert s4 == s3.(workers := s.workers[w := Finish(i)]);
    assert s.workers[w := Claim] == s.workers;
    assert Times(c, 5) == [c, c, c, c] + [c];
    FourSteps(s, c, c, c, c);
    ExecOne(s4, c);
    ExecAppend(s, [c, c, c, c], [c]);
  }

  /** A signal left over from an earlier dispatch lets a worker through. */
  lemma StraySignal(s: State) returns (c: Choice, d: Choice, u: State)
    requires Between(s) && s.sem > 0 && s.workers != []
    requires forall w: nat :: w < |s.workers| ==> !(s.workers[w].Check? && s.workers[w].i < s.n)
    ensures u == Step(Step(s, c), d) && Between(u) && |u.workers| == |s.workers| && u.workers[0] == Claim
  {
    if s.workers[0] == Claim {
      c, d := Worker(|s.workers|), Worker(|s.workers|);
    } else if s.workers[0] == Parked {
      c, d := Worker(0), Worker(|s.workers|);
    } else {
      c, d := Worker(0), Worker(0);
    }
    u := Step(Step(s, c), d);
  }

  /** A dispatch keeps its promises in every interleaving exactly when it begins with
      every worker parked, or on its way there with a claim beyond the new tasks, and
      no signal left over. */
  lemma SafeExactlyWhenReady(s: State)
    requires Between(s)
    ensures Ready(s) <==> forall cs :: Good(Exec(s, cs))
  {
    if Ready(s) {
      forall cs
        ensures Good(Exec(s, cs))
      {
        ReadyIsSafe(s, cs);
      }
    } else {
      var cs := Failing(s);
      assert !Good(Exec(s, cs));
    }
  }

  lemma Failing(s: State) returns (cs: seq<Choice>)
    requires Between(s) && !Ready(s)
    ensures !Good(Exec(s, cs))
  {
    if w: nat :| w < |s.workers| && s.workers[w].Check? && s.workers[w].i < s.n {
      cs := EarlyClaimTwice(s, w);
    } else if w: nat :| w < |s.workers| && s.workers[w] == Claim {
      cs := LostDecrement(s, w);
    } else {
      var c, d, u := StraySignal(s);
      var rest := LostDecrement(u, 0);
      TwoSteps(s, c, d);
      ExecAppend(s, [c, d], rest);
      cs := [c, d] + rest;
    }
  }

  // ----- two dispatches in a row -----

  /** The dispatcher may be done with everything before any worker wakes: all the signals
      it sent are left over. */
  lemma DoneAlone(s: State) returns (cs: seq<Choice>)
    requires Between(s) && Ready(s)
    ensures var u := Exec(s, cs); u.main == Left && u.sem == s.sem + |s.workers| && u.workers == s.workers
  {
    hide Good, Marked, UpTo, Times;
    var s2 := Step(Step(s, Main), Main);
    TwoSteps(s, Main, Main);
    var work := [Main] + Times(Main, |s2.workers| + 1) + Times(Main, 5 * s.n);
    SignalsThenWork(s2, s.n);
    ExecAppend(s, [Main, Main], work);
    var u := Exec(s2, work);
    TwoSteps(u, Main, Main);
    ExecOne(Step(Step(u, Main), Main), Main);
    ExecAppend(u, [Main, Main], [Main]);
    var front := [Main, Main] + work;
    cs := front + ([Main, Main] + [Main]);
    ExecAppend(s, front, [Main, Main] + [Main]);
  }

  /** A dispatch that keeps all its promises can leave a state from which the next one
      does not: with at least one worker, two dispatches in a row are not safe. */
  lemma SecondMayFail(s: State, n: nat) returns (first: seq<Choice>, second: seq<Choice>)
    requires Between(s) && Ready(s) && s.workers != [] && n > 0
    ensures var u := Exec(s, first);
            && Good(u) && u.main == Left && Between(Next(u, n)) && !Ready(Next(u, n))
            && !Good(Exec(Next(u, n), second))
  {
    hide Good;
    first := DoneAlone(s);
    ReadyIsSafe(s, first);
    ReadyInv(s);
    RunKeeps(s, first);
    NextMayBegin(Exec(s, first), n);
    second := Failing(Next(Exec(s, first), n));
  }

  /** A pool just made, with its workers asleep, about to dispatch `n` tasks. */
  function NewPool(workers: nat, n: nat): State {
    State(n, 0, 0, 0, 0, false, StoreCount, seq(workers, _ => Parked), [], {})
  }

  /** The first dispatch of a pool always keeps its promises; its second need not. */
  lemma FirstTwo(workers: nat, n: nat, m: nat) returns (first: seq<Choice>, second: seq<Choice>)
    requires workers > 0 && n > 0 && m > 0
    ensures forall cs :: Good(Exec(NewPool(workers, n), cs))
    ensures var u := Exec(NewPool(workers, n), first);
            u.main == Left && Between(Next(u, m)) && !Good(Exec(Next(u, m), second))
  {
    hide Good;
    SafeExactlyWhenReady(NewPool(workers, n));
    first, second := SecondMayFail(NewPool(workers, n), m);
  }

  lemma ReadyInv(s: State)
    requires Between(s) && Ready(s)
    ensures Inv(s)
  {
  }

  // ----- cancelling -----

  /** Once the query is cancelled no further task is started, by anyone. */
  lemma {:induction false} CancelStops(s: State, cs: seq<Choice>)
    requires s.cancelled
    ensures Exec(s, cs).started == s.started && Exec(s, cs).cancelled
    decreases |cs|
  {
    if cs != [] { CancelStops(Step(s, cs[0]), cs[1..]); }
  }

  // ----- the semaphore -----

  /** Whether the step sends a signal. */
  function Sent(s: State, c: Choice): nat { if c == Main && s.main.Signal? && s.main.left > 0 then 1 else 0 }

  /** Whether the step lets a parked worker go. */
  function Woke(s: State, c: Choice): nat {
    if c.Worker? && c.w < |s.workers| && s.workers[c.w] == Parked && Step(s, c).workers[c.w] != Parked then 1 else 0
  }

  function AllSent(s: State, cs: seq<Choice>): nat
    decreases |cs|
  {
    if cs == [] then 0 else Sent(s, cs[0]) + AllSent(Step(s, cs[0]), cs[1..])
  }

  function AllWoke(s: State, cs: seq<Choice>): nat
    decreases |cs|
  {
    if cs == [] then 0 else Woke(s, cs[0]) + AllWoke(Step(s, cs[0]), cs[1..])
  }

  /** The signals the dispatcher has still to send. */
  function Due(s: State): nat {
    match s.main
    case StoreCount => |s.workers|
    case StoreTail => |s.workers|
    case StorePending => |s.workers|
    case Signal(left) => left
    case _ => 0
  }

  /** Each signal lets one worker go, and is gone then: in every run those let go and the
      signals left over are together those there were and those sent, of which there are
      as many as workers and no more. */
  lemma {:induction false} SignalsCount(s: State, cs: seq<Choice>)
    ensures Exec(s, cs).sem + AllWoke(s, cs) == s.sem + AllSent(s, cs)
    ensures Due(Exec(s, cs)) + AllSent(s, cs) == Due(s)
    decreases |cs|
  {
    if cs != [] {
      StepCounts(s, cs[0]);
      hide Step, Woke, Sent, Due;
      SignalsCount(Step(s, cs[0]), cs[1..]);
    }
  }

  lemma StepCounts(s: State, c: Choice)
    ensures Step(s, c).sem + Woke(s, c) == s.sem + Sent(s, c)
    ensures Due(Step(s, c)) + Sent(s, c) == Due(s)
  {
  }
}
