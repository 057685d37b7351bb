/** The queue of heaps waiting to be merged: a linked stack that threads push on by
    compare and swap, and that a drain takes whole by one exchange. */
module PendingHeaps {

  const NULL: nat := 0

  /** Where a thread is: nothing to do, pushing a heap whose link is written, or walking
      a list it has taken, from `cur` on. */
  datatype Pc = Idle | Push(h: nat) | Drain(cur: nat)

  /** `pushed` and `merged` are the histories of completed pushes and merges; `queue` and
      `rest` are the lists that the links spell out. */
  datatype State = State(
    head: nat, next: map<nat, nat>, pcs: seq<Pc>,
    queue: seq<nat>, rest: seq<seq<nat>>,
    pushed: multiset<nat>, merged: multiset<nat>)

  datatype Choice = StartPush(t: nat, h: nat) | Swap(t: nat) | Spurious(t: nat) | Exchange(t: nat) | MergeNext(t: nat)

  /** The links from `cur` run through `list` and end. */
  ghost predicate Chain(next: map<nat, nat>, cur: nat, list: seq<nat>)
    decreases |list|
  {
    if list == [] then cur == NULL
    else cur == list[0] != NULL && cur in next && Chain(next, next[cur], list[1..])
  }

  /** The heap is on its way in, waiting, or on its way out. */
  ghost predicate Known(s: State, h: nat) {
    || h in s.queue
    || (exists t :: 0 <= t < |s.pcs| && s.pcs[t] == Push(h))
    || (exists t :: 0 <= t < |s.rest| && h in s.rest[t])
  }

  /** One atomic step. A heap is pushed once while it lives: not again before it has been
      merged. */
  ghost function Step(s: State, c: Choice): State {
    var t := c.t;
    if t >= |s.pcs| || t >= |s.rest| then s
    else
      match c
      case StartPush(_, h) =>
        if s.pcs[t] == Idle && h != NULL && !Known(s, h) then
          s.(next := s.next[h := s.head], pcs := s.pcs[t := Push(h)])
        else s
      case Swap(_) =>
        if s.pcs[t].Push? && s.pcs[t].h in s.next then
          var h := s.pcs[t].h;
          if s.head == s.next[h] then
            s.(head := h, pcs := s.pcs[t := Idle], queue := [h] + s.queue, pushed := s.pushed + multiset{h})
          else s.(next := s.next[h := s.head])
        else s
      case Spurious(_) =>
        if s.pcs[t].Push? then s.(next := s.next[s.pcs[t].h := s.head]) else s
      case Exchange(_) =>
        if s.pcs[t] == Idle then
          s.(head := NULL, pcs := s.pcs[t := Drain(s.head)], queue := [], rest := s.rest[t := s.queue])
        else s
      case MergeNext(_) =>
        if s.pcs[t].Drain? then
          var cur := s.pcs[t].cur;
          if cur == NULL then s.(pcs := s.pcs[t := Idle])
          else if cur in s.next && s.rest[t] != [] then
            s.(pcs := s.pcs[t := Drain(s.next[cur])], rest := s.rest[t := s.rest[t][1..]],
               merged := s.merged + multiset{cur})
          else s
        else s
  }

  ghost function Exec(s: State, cs: seq<Choice>): State
    decreases |cs|
  {
    if cs == [] then s else Exec(Step(s, cs[0]), cs[1..])
  }

  ghost predicate Distinct(l: seq<nat>) { forall i, j :: 0 <= i < j < |l| ==> l[i] != l[j] }

  ghost predicate Disjoint(a: seq<nat>, b: seq<nat>) { forall x :: x in a ==> x !in b }

  /** Every list is what the links say, and no heap is in two places. */
  ghost predicate Lists(s: State) {
    && |s.rest| == |s.pcs|
    && Chain(s.next, s.head, s.queue) && Distinct(s.queue)
    && (forall t :: 0 <= t < |s.rest| ==> Distinct(s.rest[t]) && Disjoint(s.queue, s.rest[t]))
    && (forall t :: 0 <= t < |s.rest| ==>
          if s.pcs[t].Drain? then Chain(s.next, s.pcs[t].cur, s.rest[t]) else s.rest[t] == [])
    && (forall t, u :: 0 <= t < |s.rest| && 0 <= u < |s.rest| && t != u ==> Disjoint(s.rest[t], s.rest[u]))
  }

  ghost predicate Pushes(s: State) {
    && |s.rest| == |s.pcs|
    && (forall t :: 0 <= t < |s.pcs| && s.pcs[t].Push? ==>
          s.pcs[t].h != NULL && s.pcs[t].h in s.next && s.pcs[t].h !in s.queue)
    && (forall t, u :: 0 <= t < |s.pcs| && 0 <= u < |s.rest| && s.pcs[t].Push? ==> s.pcs[t].h !in s.rest[u])
    && (forall t, u :: 0 <= t < |s.pcs| && 0 <= u < |s.pcs| && s.pcs[t].Push? && s.pcs[u].Push? && t != u ==>
          s.pcs[t].h != s.pcs[u].h)
  }

  ghost function Waiting(rest: seq<seq<nat>>): multiset<nat> {
    if rest == [] then multiset{} else multiset(rest[0]) + Waiting(rest[1..])
  }

  /** Every completed push is merged once, or still waits in exactly one list. */
  ghost predicate Balanced(s: State) {
    s.pushed == s.merged + multiset(s.queue) + Waiting(s.rest)
  }

  lemma Regroup(a: multiset<nat>, b: multiset<nat>, c: multiset<nat>, d: multiset<nat>, e: multiset<nat>)
    requires b + c == d + e
    ensures (a + b) + c == (a + d) + e
  {
    assert (a + b) + c == a + (b + c);
  }

  lemma {:induction false} WaitingUpdate(rest: seq<seq<nat>>, t: nat, l: seq<nat>)
    requires t < |rest|
    ensures Waiting(rest[t := l]) + multiset(rest[t]) == Waiting(rest) + multiset(l)
  {
    if t > 0 {
      WaitingUpdate(rest[1..], t - 1, l);
      assert rest[t := l][1..] == rest[1..][t - 1 := l];
      assert Waiting(rest[t := l]) == multiset(rest[0]) + Waiting(rest[1..][t - 1 := l]);
      assert Waiting(rest) == multiset(rest[0]) + Waiting(rest[1..]);
      assert rest[1..][t - 1] == rest[t];
      Regroup(multiset(rest[0]), Waiting(rest[1..][t - 1 := l]), multiset(rest[t]), Waiting(rest[1..]), multiset(l));
    } else {
      assert rest[t := l][1..] == rest[1..];
    }
  }

  lemma {:induction false} ChainFrame(next: map<nat, nat>, next': map<nat, nat>, cur: nat, list: seq<nat>, h: nat)
    requires Chain(next, cur, list) && h !in list
    requires forall x :: x in next && x != h ==> x in next' && next'[x] == next[x]
    ensures Chain(next', cur, list)
    decreases |list|
  {
    if list != [] { ChainFrame(next, next', next[cur], list[1..], h); }
  }

  /** Writing the link of a heap that is being pushed disturbs no list. */
  lemma LinkKeeps(s: State, t: nat, h: nat, pc: Pc)
    requires Lists(s) && Pushes(s) && t < |s.pcs| && pc == Push(h) && h != NULL
    requires s.pcs[t] == Push(h) || (s.pcs[t] == Idle && !Known(s, h))
    ensures var u := s.(next := s.next[h := s.head], pcs := s.pcs[t := pc]); Lists(u) && Pushes(u)
  {
    var u := s.(next := s.next[h := s.head], pcs := s.pcs[t := pc]);
    assert h !in s.queue && forall k :: 0 <= k < |s.rest| ==> h !in s.rest[k];
    ChainFrame(s.next, u.next, s.head, s.queue, h);
    forall k | 0 <= k < |u.rest|
      ensures if u.pcs[k].Drain? then Chain(u.next, u.pcs[k].cur, u.rest[k]) else u.rest[k] == []
    {
      if s.pcs[k].Drain? { ChainFrame(s.next, u.next, s.pcs[k].cur, s.rest[k], h); }
    }
  }

  lemma ChainPush(next: map<nat, nat>, head: nat, queue: seq<nat>, h: nat)
    requires Chain(next, head, queue) && h != NULL && h in next && next[h] == head
    ensures Chain(next, h, [h] + queue)
  {
    assert ([h] + queue)[1..] == queue;
  }

  lemma SwapLists(s: State, t: nat, u: State)
    requires Lists(s) && Pushes(s) && t < |s.pcs| && s.pcs[t].Push?
    requires var h := s.pcs[t].h;
             && h in s.next && s.head == s.next[h]
             && u == s.(head := h, pcs := s.pcs[t := Idle], queue := [h] + s.queue, pushed := u.pushed)
    ensures Lists(u)
  {
    hide Chain;
    var h := s.pcs[t].h;
    ChainPush(s.next, s.head, s.queue, h);
    assert forall x :: x in u.queue <==> x == h || x in s.queue;
  }

  lemma SwapPushes(s: State, t: nat, u: State)
    requires Lists(s) && Pushes(s) && t < |s.pcs| && s.pcs[t].Push?
    requires var h := s.pcs[t].h;
             u == s.(head := h, pcs := s.pcs[t := Idle], queue := [h] + s.queue, pushed := u.pushed)
    ensures Pushes(u)
  {
    hide Lists;
    assert forall x :: x in u.queue <==> x == s.pcs[t].h || x in s.queue;
  }

  lemma SwapKeeps(s: State, t: nat)
    requires Lists(s) && Pushes(s) && Balanced(s) && t < |s.pcs| && t < |s.rest| && s.pcs[t].Push?
    requires s.pcs[t].h in s.next && s.head == s.next[s.pcs[t].h]
    ensures var u := Step(s, Swap(t)); Lists(u) && Pushes(u) && Balanced(u)
  {
    hide Lists, Pushes, Waiting;
    var u := Step(s, Swap(t));
    SwapLists(s, t, u);
    SwapPushes(s, t, u);
    assert multiset(u.queue) == multiset{s.pcs[t].h} + multiset(s.queue);
  }

  lemma ExchangeLists(s: State, t: nat, u: State)
    requires Lists(s) && Pushes(s) && t < |s.pcs| && s.pcs[t] == Idle
    requires u == s.(head := NULL, pcs := s.pcs[t := Drain(s.head)], queue := [], rest := s.rest[t := s.queue])
    ensures Lists(u) && s.rest[t] == []
  {
    assert Chain(u.next, NULL, []);
  }

  lemma ExchangePushes(s: State, t: nat, u: State)
    requires Pushes(s) && t < |s.pcs|
    requires u == s.(head := NULL, pcs := s.pcs[t := Drain(s.head)], queue := [], rest := s.rest[t := s.queue])
    ensures Pushes(u)
  {
  }

  lemma ExchangeKeeps(s: State, t: nat)
    requires Lists(s) && Pushes(s) && Balanced(s) && t < |s.pcs| && t < |s.rest| && s.pcs[t] == Idle
    ensures var u := Step(s, Exchange(t)); Lists(u) && Pushes(u) && Balanced(u)
  {
    hide Lists, Pushes, Waiting;
    var u := Step(s, Exchange(t));
    ExchangeLists(s, t, u);
    ExchangePushes(s, t, u);
    WaitingUpdate(s.rest, t, s.queue);
    assert Waiting(u.rest) == Waiting(s.rest) + multiset(s.queue);
  }

  lemma ChainPop(next: map<nat, nat>, cur: nat, l: seq<nat>)
    requires Chain(next, cur, l) && l != []
    ensures cur == l[0] != NULL && cur in next && Chain(next, next[cur], l[1..])
  {
  }

  lemma MergeLists(s: State, t: nat, u: State)
    requires Lists(s) && t < |s.pcs| && s.pcs[t].Drain? && s.rest[t] != [] && s.pcs[t].cur in s.next
    requires var cur := s.pcs[t].cur;
             u == s.(pcs := s.pcs[t := Drain(s.next[cur])], rest := s.rest[t := s.rest[t][1..]], merged := u.merged)
    ensures Lists(u)
  {
    hide Chain;
    ChainPop(s.next, s.pcs[t].cur, s.rest[t]);
    assert forall x :: x in s.rest[t][1..] ==> x in s.rest[t];
  }

  lemma MergePushes(s: State, t: nat, u: State)
    requires Pushes(s) && t < |s.pcs| && s.pcs[t].Drain? && s.rest[t] != [] && s.pcs[t].cur in s.next
    requires var cur := s.pcs[t].cur;
             u == s.(pcs := s.pcs[t := Drain(s.next[cur])], rest := s.rest[t := s.rest[t][1..]], merged := u.merged)
    ensures Pushes(u)
  {
    assert forall x :: x in s.rest[t][1..] ==> x in s.rest[t];
  }

  /** A walk that has come to the end of its list. */
  lemma DrainEnds(s: State, t: nat)
    requires Lists(s) && Pushes(s) && t < |s.pcs| && s.pcs[t] == Drain(NULL)
    ensures s.rest[t] == []
    ensures var u := s.(pcs := s.pcs[t := Idle]); Lists(u) && Pushes(u)
  {
    assert Chain(s.next, NULL, s.rest[t]);
  }

  lemma MergeKeeps(s: State, t: nat)
    requires Lists(s) && Pushes(s) && Balanced(s) && t < |s.pcs| && t < |s.rest| && s.pcs[t].Drain?
    ensures var u := Step(s, MergeNext(t)); Lists(u) && Pushes(u) && Balanced(u)
  {
    hide Lists, Pushes, Waiting;
    var u := Step(s, MergeNext(t));
    var cur, l := s.pcs[t].cur, s.rest[t];
    if cur == NULL {
      DrainEnds(s, t);
    } else if cur in s.next && l != [] {
      MergeLists(s, t, u);
      MergePushes(s, t, u);
      DrainChain(s, t);
      ChainPop(s.next, cur, l);
      assert l == [cur] + l[1..];
      assert multiset(l) == multiset{cur} + multiset(l[1..]);
      WaitingUpdate(s.rest, t, l[1..]);
      Cancelled(Waiting(u.rest), multiset{cur}, Waiting(s.rest), multiset(l[1..]));
    }
  }

  lemma Cancelled(a: multiset<nat>, b: multiset<nat>, c: multiset<nat>, d: multiset<nat>)
    requires a + (b + d) == c + d
    ensures a + b == c
  {
    forall x: nat
      ensures (a + b)[x] == c[x]
    {
      assert (a + (b + d))[x] == (c + d)[x];
    }
  }

  lemma DrainChain(s: State, t: nat)
    requires Lists(s) && t < |s.pcs| && s.pcs[t].Drain?
    ensures t < |s.rest| && Chain(s.next, s.pcs[t].cur, s.rest[t])
  {
  }

  lemma StepKeeps(s: State, c: Choice)
    requires Lists(s) && Pushes(s) && Balanced(s)
    ensures var u := Step(s, c); Lists(u) && Pushes(u) && Balanced(u)
  {
    hide Lists, Balanced, Step, Known;
    StepCases(s, c);
    if c.t < |s.pcs| && c.t < |s.rest| {
      match c
      case StartPush(t, h) =>
        if s.pcs[t] == Idle && h != NULL && !Known(s, h) {
          LinkKeeps(s, t, h, Push(h));
          LinkBalanced(s, t, h);
        }
      case Swap(t) =>
        if s.pcs[t].Push? {
          if s.head == s.next[s.pcs[t].h] { SwapKeeps(s, t); } else { Relink(s, t); }
        }
      case Spurious(t) => if s.pcs[t].Push? { Relink(s, t); }
      case Exchange(t) => if s.pcs[t] == Idle { ExchangeKeeps(s, t); }
      case MergeNext(t) => if s.pcs[t].Drain? { MergeKeeps(s, t); }
    }
  }

  lemma StepCases(s: State, c: Choice)
    requires Pushes(s)
    ensures c.t >= |s.pcs| ==> Step(s, c) == s
    ensures c.t < |s.pcs| ==>
              match c
              case StartPush(t, h) =>
                Step(s, c) == if s.pcs[t] == Idle && h != NULL && !Known(s, h)
                              then s.(next := s.next[h := s.head], pcs := s.pcs[t := Push(h)]) else s
              case Swap(t) => (s.pcs[t].Push? ==> s.pcs[t].h in s.next)
                  && (!s.pcs[t].Push? ==> Step(s, c) == s)
                  && (s.pcs[t].Push? && s.head != s.next[s.pcs[t].h] ==>
                       Step(s, c) == s.(next := s.next[s.pcs[t].h := s.head]))
              case Spurious(t) => Step(s, c) == if s.pcs[t].Push? then s.(next := s.next[s.pcs[t].h := s.head]) else s
              case Exchange(t) => s.pcs[t] != Idle ==> Step(s, c) == s
              case MergeNext(t) => !s.pcs[t].Drain? ==> Step(s, c) == s
  {
  }

  lemma LinkBalanced(s: State, t: nat, h: nat)
    requires Balanced(s) && t < |s.pcs|
    ensures Balanced(s.(next := s.next[h := s.head], pcs := s.pcs[t := Push(h)]))
  {
  }

  lemma Relink(s: State, t: nat)
    requires Lists(s) && Pushes(s) && Balanced(s) && t < |s.pcs| && s.pcs[t].Push?
    ensures var u := s.(next := s.next[s.pcs[t].h := s.head]); Lists(u) && Pushes(u) && Balanced(u)
  {
    var h := s.pcs[t].h;
    LinkKeeps(s, t, h, Push(h));
    assert s.pcs[t := Push(h)] == s.pcs;
  }

  /** Over every run of pushes and drains, each push is taken by one drain, once: the
      heaps merged and those still waiting are together exactly the heaps pushed. */
  lemma {:induction false} EachTakenOnce(s: State, cs: seq<Choice>)
    requires Lists(s) && Pushes(s) && Balanced(s)
    ensures var u := Exec(s, cs);
            && Lists(u) && Pushes(u)
            && u.pushed == u.merged + multiset(u.queue) + Waiting(u.rest)
            && (u.head == NULL && (forall t :: 0 <= t < |u.pcs| ==> !u.pcs[t].Drain?) ==> u.merged == u.pushed)
    decreases |cs|
  {
    if cs != [] {
      StepKeeps(s, cs[0]);
      EachTakenOnce(Step(s, cs[0]), cs[1..]);
    } else {
      if s.head == NULL && (forall t :: 0 <= t < |s.pcs| ==> !s.pcs[t].Drain?) {
        NothingWaiting(s.rest);
      }
    }
  }

  lemma {:induction false} NothingWaiting(rest: seq<seq<nat>>)
    requires forall t :: 0 <= t < |rest| ==> rest[t] == []
    ensures Waiting(rest) == multiset{}
  {
    if rest != [] { NothingWaiting(rest[1..]); }
  }

  /** The queue at program start. */
  function Initial(threads: nat): State {
    State(NULL, map[], seq(threads, _ => Idle), [], seq(threads, _ => []), multiset{}, multiset{})
  }

  /** In every run from program start each heap pushed is merged once or still waits. */
  lemma FromStart(threads: nat, cs: seq<Choice>)
    ensures var u := Exec(Initial(threads), cs);
            && u.pushed == u.merged + multiset(u.queue) + Waiting(u.rest)
            && (u.head == NULL && (forall t :: 0 <= t < |u.pcs| ==> !u.pcs[t].Drain?) ==> u.merged == u.pushed)
  {
    NothingWaiting(Initial(threads).rest);
    EachTakenOnce(Initial(threads), cs);
  }

  // ----- a thread alone -----

  /** A heap that is not there yet is pushed in two steps if nobody interferes, and is then
      the first to be taken. */
  lemma PushedAlone(s: State, t: nat, h: nat)
    requires t < |s.pcs| == |s.rest| && s.pcs[t] == Idle && h != NULL
    requires h !in s.queue && (forall u :: 0 <= u < |s.pcs| ==> s.pcs[u] != Push(h) && h !in s.rest[u])
    ensures var u := Exec(s, [StartPush(t, h), Swap(t)]);
            && u.head == h && u.queue == [h] + s.queue && u.pcs == s.pcs && u.rest == s.rest
            && u.pushed == s.pushed + multiset{h} && u.merged == s.merged
  {
    var one := Step(s, StartPush(t, h));
    assert Exec(s, [StartPush(t, h), Swap(t)]) == Exec(one, [Swap(t)]) == Step(one, Swap(t)) by {
      assert [StartPush(t, h), Swap(t)][1..] == [Swap(t)] && [Swap(t)][1..] == [];
    }
    assert s.pcs[t := Push(h)][t := Idle] == s.pcs;
  }

  lemma MergesAre(s: State, t: nat, n: nat)
    ensures Exec(s, seq(n + 1, _ => MergeNext(t))) == Exec(Step(s, MergeNext(t)), seq(n, _ => MergeNext(t)))
  {
    assert seq(n + 1, _ => MergeNext(t))[1..] == seq(n, _ => MergeNext(t));
  }

  /** The list a thread has taken is merged to its end. */
  lemma {:induction false} MergedAlone(s: State, t: nat)
    requires t < |s.pcs| == |s.rest| && s.pcs[t].Drain? && Chain(s.next, s.pcs[t].cur, s.rest[t])
    ensures var u := Exec(s, seq(|s.rest[t]| + 1, _ => MergeNext(t)));
            && u.merged == s.merged + multiset(s.rest[t]) && u.rest == s.rest[t := []] && u.pcs == s.pcs[t := Idle]
            && u.head == s.head && u.queue == s.queue && u.pushed == s.pushed
    decreases |s.rest[t]|
  {
    hide Exec;
    var list := s.rest[t];
    MergesAre(s, t, |list|);
    if list == [] {
      NoMerge(Step(s, MergeNext(t)), t);
      assert s.rest[t := []] == s.rest;
    } else {
      OneMerged(s, t);
      hide Step;
      var one := Step(s, MergeNext(t));
      MergedAlone(one, t);
      Gathered(s.merged, list);
      assert one.rest[t := []] == s.rest[t := []] && one.pcs[t := Idle] == s.pcs[t := Idle];
    }
  }

  lemma NoMerge(s: State, t: nat)
    ensures Exec(s, seq(0, _ => MergeNext(t))) == s
  {
    assert seq(0, _ => MergeNext(t)) == [];
  }

  lemma Gathered(m: multiset<nat>, list: seq<nat>)
    requires list != []
    ensures (m + multiset{list[0]}) + multiset(list[1..]) == m + multiset(list)
  {
    assert list == [list[0]] + list[1..];
  }

  lemma OneMerged(s: State, t: nat)
    requires t < |s.pcs| == |s.rest| && s.rest[t] != []
    requires s.pcs[t].Drain? && Chain(s.next, s.pcs[t].cur, s.rest[t])
    ensures var list, cur := s.rest[t], s.pcs[t].cur;
            && cur == list[0] && cur in s.next && Chain(s.next, s.next[cur], list[1..])
            && Step(s, MergeNext(t)) == s.(pcs := s.pcs[t := Drain(s.next[cur])], rest := s.rest[t := list[1..]],
                                           merged := s.merged + multiset{list[0]})
  {
  }

  /** A drain that nobody interrupts merges every heap that waited, once each, and leaves
      the stack empty. */
  lemma DrainedAlone(s: State, t: nat)
    requires Lists(s) && t < |s.pcs| && s.pcs[t] == Idle
    ensures var u := Exec(s, [Exchange(t)] + seq(|s.queue| + 1, _ => MergeNext(t)));
            && u.merged == s.merged + multiset(s.queue) && u.queue == [] && u.head == NULL
            && u.pcs == s.pcs && u.rest == s.rest && u.pushed == s.pushed
  {
    hide Exec;
    var one := Step(s, Exchange(t));
    assert one.rest[t] == s.queue && one.pcs[t] == Drain(s.head);
    MergedAlone(one, t);
    FirstStep(s, Exchange(t), seq(|s.queue| + 1, _ => MergeNext(t)));
    assert s.rest[t := s.queue][t := []] == s.rest && s.pcs[t := Drain(s.head)][t := Idle] == s.pcs;
  }

  lemma FirstStep(s: State, c: Choice, cs: seq<Choice>)
    ensures Exec(s, [c] + cs) == Exec(Step(s, c), cs)
  {
    assert ([c] + cs)[1..] == cs;
  }
}
