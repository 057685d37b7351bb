/** The bitmap of heap ids under interleaved atomic steps: load a word, compare and swap
    it with one more bit set, clear a bit. */
module HeapIds {
  import opened CInts

  const WORD_BITS: nat := 64

  /** Where a thread is: about to start, with words still to look at and the last value
      seen of the first of them, holding an id, or told that none is left. */
  datatype Pc =
    | Idle
    | Scan(start: nat, off: nat)
    | Try(start: nat, off: nat, seen: set<nat>)
    | Owns(id: nat)
    | Exhausted

  datatype State = State(words: seq<set<nat>>, cursor: nat, pcs: seq<Pc>)

  datatype Choice = Go(t: nat) | Release(t: nat) | Retry(t: nat)

  /** The lowest clear bit of a word that has one. */
  function LowestClear(word: set<nat>, b: nat): (r: nat)
    requires b <= WORD_BITS
    requires exists k: nat :: b <= k < WORD_BITS && k !in word
    ensures b <= r < WORD_BITS && r !in word
    decreases WORD_BITS - b
  {
    if b !in word then b else LowestClear(word, b + 1)
  }

  predicate HasClear(word: set<nat>) { exists k: nat :: k < WORD_BITS && k !in word }

  function IdOf(idx: nat, bit: nat): nat { idx * WORD_BITS + bit }

  /** heap_id_acquire, one atomic step of thread `t`; a weak compare and swap may also
      fail for no reason, which is a `Retry`. */
  function Step(s: State, c: Choice): State {
    var t := c.t;
    if t >= |s.pcs| || s.words == [] then s
    else
      var pc := s.pcs[t];
      match c
      case Release(_) =>
        if pc.Owns? && pc.id / WORD_BITS < |s.words| then
          var idx := pc.id / WORD_BITS;
          s.(words := s.words[idx := s.words[idx] - {pc.id % WORD_BITS}], pcs := s.pcs[t := Idle])
        else s
      case Retry(_) =>
        if pc.Try? then
          s.(pcs := s.pcs[t := Try(pc.start, pc.off, s.words[(pc.start + pc.off) % |s.words|])])
        else s
      case Go(_) =>
        match pc
        case Idle => s.(cursor := s.cursor + 1, pcs := s.pcs[t := Scan(s.cursor, 0)])
        case Scan(start, off) =>
          if off >= |s.words| then s.(pcs := s.pcs[t := Exhausted])
          else s.(pcs := s.pcs[t := Try(start, off, s.words[(start + off) % |s.words|])])
        case Try(start, off, seen) =>
          var idx := (start + off) % |s.words|;
          if !HasClear(seen) then s.(pcs := s.pcs[t := Scan(start, off + 1)])
          else if s.words[idx] == seen then
            var bit := LowestClear(seen, 0);
            s.(words := s.words[idx := seen + {bit}], pcs := s.pcs[t := Owns(IdOf(idx, bit))])
          else s.(pcs := s.pcs[t := Try(start, off, s.words[idx])])
        case _ => s
  }

  function Exec(s: State, cs: seq<Choice>): State
    decreases |cs|
  {
    if cs == [] then s else Exec(Step(s, cs[0]), cs[1..])
  }

  /** Every id in use has its bit set, is not 0, and is held by one thread. */
  ghost predicate Inv(s: State) {
    && s.words != [] && 0 in s.words[0]
    && (forall t :: 0 <= t < |s.pcs| && s.pcs[t].Owns? ==>
          var id := s.pcs[t].id; id != 0 && id / WORD_BITS < |s.words| && id % WORD_BITS in s.words[id / WORD_BITS])
    && (forall t, u :: 0 <= t < |s.pcs| && 0 <= u < |s.pcs| && s.pcs[t].Owns? && s.pcs[u].Owns? ==>
          (s.pcs[t].id == s.pcs[u].id ==> t == u))
  }

  lemma IdParts(idx: nat, bit: nat)
    requires bit < WORD_BITS
    ensures IdOf(idx, bit) / WORD_BITS == idx && IdOf(idx, bit) % WORD_BITS == bit
  {
  }

  lemma SameId(a: nat, b: nat)
    ensures a / WORD_BITS == b / WORD_BITS && a % WORD_BITS == b % WORD_BITS ==> a == b
  {
  }

  lemma TakeKeeps(s: State, t: nat)
    requires Inv(s) && t < |s.pcs| && s.pcs[t].Try? && HasClear(s.pcs[t].seen)
    requires s.words[(s.pcs[t].start + s.pcs[t].off) % |s.words|] == s.pcs[t].seen
    ensures Inv(Step(s, Go(t)))
  {
    var idx := (s.pcs[t].start + s.pcs[t].off) % |s.words|;
    var bit := LowestClear(s.pcs[t].seen, 0);
    IdParts(idx, bit);
    var u := Step(s, Go(t));
    assert u.pcs == s.pcs[t := Owns(IdOf(idx, bit))] && u.words == s.words[idx := s.words[idx] + {bit}];
  }

  lemma ReleaseKeeps(s: State, t: nat)
    requires Inv(s) && t < |s.pcs| && s.pcs[t].Owns?
    ensures Inv(Step(s, Release(t)))
  {
    var id := s.pcs[t].id;
    var v := Step(s, Release(t));
    forall u | 0 <= u < |v.pcs| && v.pcs[u].Owns?
      ensures v.pcs[u].id % WORD_BITS in v.words[v.pcs[u].id / WORD_BITS]
    {
      assert u != t && s.pcs[u].id != id;
      SameId(v.pcs[u].id, id);
    }
    SameId(id, 0);
  }

  ghost predicate Held(s: State, id: nat) { exists t :: 0 <= t < |s.pcs| && s.pcs[t] == Owns(id) }

  /** And no other bit is set, but that of id 0. */
  ghost predicate Marked(s: State) {
    forall idx: nat, bit: nat :: idx < |s.words| && bit in s.words[idx] ==>
      bit < WORD_BITS && (IdOf(idx, bit) == 0 || Held(s, IdOf(idx, bit)))
  }

  lemma HeldStill(s: State, u: State, t: nat, id: nat)
    requires Held(s, id) && t < |s.pcs| == |u.pcs| && s.pcs[t] != Owns(id)
    requires forall v :: 0 <= v < |s.pcs| && v != t ==> u.pcs[v] == s.pcs[v]
    ensures Held(u, id)
  {
    var v :| 0 <= v < |s.pcs| && s.pcs[v] == Owns(id);
    assert u.pcs[v] == Owns(id);
  }

  lemma MarkedStill(s: State, u: State, t: nat)
    requires Marked(s) && t < |s.pcs| && u.words == s.words && !s.pcs[t].Owns?
    requires |u.pcs| == |s.pcs| && forall v :: 0 <= v < |s.pcs| && v != t ==> u.pcs[v] == s.pcs[v]
    ensures Marked(u)
  {
    forall idx: nat, bit: nat | idx < |u.words| && bit in u.words[idx]
      ensures bit < WORD_BITS && (IdOf(idx, bit) == 0 || Held(u, IdOf(idx, bit)))
    {
      if IdOf(idx, bit) != 0 { HeldStill(s, u, t, IdOf(idx, bit)); }
    }
  }

  lemma MarkedTake(s: State, u: State, t: nat, k: nat, b: nat)
    requires Marked(s) && t < |s.pcs| && !s.pcs[t].Owns? && k < |s.words| && b < WORD_BITS
    requires u.words == s.words[k := s.words[k] + {b}] && u.pcs == s.pcs[t := Owns(IdOf(k, b))]
    ensures Marked(u)
  {
    forall idx: nat, bit: nat | idx < |u.words| && bit in u.words[idx]
      ensures bit < WORD_BITS && (IdOf(idx, bit) == 0 || Held(u, IdOf(idx, bit)))
    {
      if idx == k && bit == b {
        assert u.pcs[t] == Owns(IdOf(k, b));
      } else if IdOf(idx, bit) != 0 {
        HeldStill(s, u, t, IdOf(idx, bit));
      }
    }
  }

  lemma MarkedRelease(s: State, u: State, t: nat)
    requires Marked(s) && t < |s.pcs| && s.pcs[t].Owns? && s.pcs[t].id / WORD_BITS < |s.words|
    requires var id := s.pcs[t].id;
             var k := id / WORD_BITS;
             u.words == s.words[k := s.words[k] - {id % WORD_BITS}] && u.pcs == s.pcs[t := Idle]
    ensures Marked(u)
  {
    forall idx: nat, bit: nat | idx < |u.words| && bit in u.words[idx]
      ensures bit < WORD_BITS && (IdOf(idx, bit) == 0 || Held(u, IdOf(idx, bit)))
    {
      assert bit in s.words[idx];
      if IdOf(idx, bit) != 0 {
        IdParts(idx, bit);
        HeldStill(s, u, t, IdOf(idx, bit));
      }
    }
  }

  lemma StepMarks(s: State, c: Choice)
    requires Marked(s)
    ensures Marked(Step(s, c))
  {
    hide Marked;
    if c.t < |s.pcs| && s.words != [] {
      var u := Step(s, c);
      var pc := s.pcs[c.t];
      if c.Release? && pc.Owns? {
        if pc.id / WORD_BITS < |s.words| { MarkedRelease(s, u, c.t); }
      } else if c.Go? && pc.Try? && HasClear(pc.seen) && s.words[(pc.start + pc.off) % |s.words|] == pc.seen {
        MarkedTake(s, u, c.t, (pc.start + pc.off) % |s.words|, LowestClear(pc.seen, 0));
      } else if !pc.Owns? {
        MarkedStill(s, u, c.t);
      }
    }
  }

  lemma StepKeeps(s: State, c: Choice)
    requires Inv(s)
    ensures Inv(Step(s, c))
  {
    if c.t < |s.pcs| {
      var pc := s.pcs[c.t];
      if c.Release? && pc.Owns? {
        ReleaseKeeps(s, c.t);
      } else if c.Go? && pc.Try? && HasClear(pc.seen) && s.words[(pc.start + pc.off) % |s.words|] == pc.seen {
        TakeKeeps(s, c.t);
      } else {
        assert Step(s, c).words == s.words;
      }
    }
  }

  /** In every run of any number of threads, no two hold the same id and none holds 0, and
      the bits set are those of 0 and of the ids held. */
  lemma {:induction false} IdsUnique(s: State, cs: seq<Choice>)
    requires Inv(s) && Marked(s)
    ensures var u := Exec(s, cs);
            && Inv(u) && Marked(u)
            && (forall t :: 0 <= t < |u.pcs| && u.pcs[t].Owns? ==> u.pcs[t].id != 0)
            && (forall t, v :: 0 <= t < v < |u.pcs| && u.pcs[t].Owns? && u.pcs[v].Owns? ==> u.pcs[t].id != u.pcs[v].id)
    decreases |cs|
  {
    if cs != [] {
      StepKeeps(s, cs[0]);
      StepMarks(s, cs[0]);
      IdsUnique(Step(s, cs[0]), cs[1..]);
    }
  }

  /** The bitmap at program start: id 0 is taken, and no thread has asked for one. */
  function Initial(words: nat, threads: nat): State
    requires words > 0
  {
    State([{0}] + seq(words - 1, _ => {}), 0, seq(threads, _ => Idle))
  }

  /** So it is in every run from program start: the bitmap says exactly which ids are in
      use. */
  lemma FromStart(words: nat, threads: nat, cs: seq<Choice>)
    requires words > 0
    ensures var u := Exec(Initial(words, threads), cs);
            && (forall t :: 0 <= t < |u.pcs| && u.pcs[t].Owns? ==> u.pcs[t].id != 0)
            && (forall t, v :: 0 <= t < v < |u.pcs| && u.pcs[t].Owns? && u.pcs[v].Owns? ==> u.pcs[t].id != u.pcs[v].id)
            && |u.words| == words
            && forall idx: nat, bit: nat :: idx < words && bit < WORD_BITS ==>
                 (bit in u.words[idx] <==> IdOf(idx, bit) == 0 || Held(u, IdOf(idx, bit)))
  {
    InitialMarked(words, threads);
    WordsStay(Initial(words, threads), cs);
    IdsUnique(Initial(words, threads), cs);
    var u := Exec(Initial(words, threads), cs);
    forall idx: nat, bit: nat | idx < words && bit < WORD_BITS
      ensures bit in u.words[idx] <==> IdOf(idx, bit) == 0 || Held(u, IdOf(idx, bit))
    {
      IdParts(idx, bit);
    }
  }

  lemma InitialMarked(words: nat, threads: nat)
    requires words > 0
    ensures Inv(Initial(words, threads)) && Marked(Initial(words, threads))
  {
  }

  lemma {:induction false} WordsStay(s: State, cs: seq<Choice>)
    ensures |Exec(s, cs).words| == |s.words| && |Exec(s, cs).pcs| == |s.pcs|
    decreases |cs|
  {
    if cs != [] { WordsStay(Step(s, cs[0]), cs[1..]); }
  }

  // ----- a thread alone -----

  /** The word looked at `k`-th. */
  function WordAt(s: State, start: nat, k: nat): set<nat>
    requires s.words != []
  {
    s.words[(start + k) % |s.words|]
  }

  /** From the `off`-th word on there is one with a clear bit. */
  ghost predicate ClearFrom(s: State, start: nat, off: nat)
    requires s.words != []
  {
    exists k: nat :: off <= k < |s.words| && HasClear(WordAt(s, start, k))
  }

  lemma ClearNext(s: State, start: nat, off: nat)
    requires s.words != [] && off < |s.words|
    ensures ClearFrom(s, start, off) <==> HasClear(WordAt(s, start, off)) || ClearFrom(s, start, off + 1)
  {
    hide HasClear, WordAt;
  }

  /** The `j`-th word is the first from the `off`-th on with a clear bit. */
  ghost predicate Nearest(s: State, start: nat, off: nat, j: nat)
    requires s.words != []
  {
    off <= j < |s.words| && HasClear(WordAt(s, start, j)) && forall i: nat :: off <= i < j ==>
        !HasClear(WordAt(s, start, i))
  }

  /** The id of the lowest clear bit of the word looked at `k`-th. */
  function IdAt(s: State, start: nat, k: nat): nat
    requires s.words != [] && HasClear(WordAt(s, start, k))
  {
    IdOf((start + k) % |s.words|, LowestClear(WordAt(s, start, k), 0))
  }

  /** Two steps look at one word. */
  lemma LookAt(s: State, t: nat, start: nat, off: nat)
    requires t < |s.pcs| && s.words != [] && off < |s.words| && s.pcs[t] == Scan(start, off)
    ensures var u := Step(Step(s, Go(t)), Go(t));
            && |u.pcs| == |s.pcs|
            && if HasClear(WordAt(s, start, off)) then u.pcs[t] == Owns(IdAt(s, start, off))
               else u.pcs[t] == Scan(start, off + 1) && u.words == s.words
  {
    hide LowestClear, HasClear;
    var one := Step(s, Go(t));
    assert one.pcs[t] == Try(start, off, WordAt(s, start, off)) && one.words == s.words;
  }

  lemma {:induction false} ScanAlone(s: State, t: nat, start: nat, off: nat) returns (n: nat, j: nat)
    requires t < |s.pcs| && s.words != [] && off <= |s.words| && s.pcs[t] == Scan(start, off)
    ensures var u := Exec(s, seq(n, _ => Go(t)));
            && t < |u.pcs|
            && if ClearFrom(s, start, off) then Nearest(s, start, off, j) && u.pcs[t] == Owns(IdAt(s, start, j))
               else u.pcs[t] == Exhausted
    decreases |s.words| - off
  {
    hide Exec, HasClear, WordAt, IdAt;
    if off == |s.words| {
      n, j := 1, 0;
      StepsAre(s, t, 0);
      NoStep(Step(s, Go(t)), t);
    } else {
      LookAt(s, t, start, off);
      ClearNext(s, start, off);
      hide Step;
      var two := Step(Step(s, Go(t)), Go(t));
      var m := 0;
      if HasClear(WordAt(s, start, off)) {
        j := off;
        NoStep(two, t);
      } else {
        m, j := ScanAlone(two, t, start, off + 1);
        SameWords(s, two, start, off + 1);
      }
      StepsAre(Step(s, Go(t)), t, m);
      StepsAre(s, t, m + 1);
      n := m + 2;
    }
  }

  lemma SameWords(s: State, u: State, start: nat, off: nat)
    requires s.words != [] && u.words == s.words
    ensures ClearFrom(u, start, off) <==> ClearFrom(s, start, off)
    ensures forall j: nat :: Nearest(u, start, off, j) <==> Nearest(s, start, off, j)
    ensures forall j: nat :: WordAt(u, start, j) == WordAt(s, start, j)
    ensures forall j: nat :: HasClear(WordAt(s, start, j)) ==> IdAt(u, start, j) == IdAt(s, start, j)
  {
    hide HasClear, LowestClear;
    assert forall k: nat :: WordAt(u, start, k) == WordAt(s, start, k);
  }

  lemma StepsAre(s: State, t: nat, n: nat)
    ensures Exec(s, seq(n + 1, _ => Go(t))) == Exec(Step(s, Go(t)), seq(n, _ => Go(t)))
  {
    assert seq(n + 1, _ => Go(t))[1..] == seq(n, _ => Go(t));
  }

  lemma NoStep(s: State, t: nat)
    ensures Exec(s, seq(0, _ => Go(t))) == s
  {
    assert seq(0, _ => Go(t)) == [];
  }

  /** Going round from any start, every word is looked at. */
  lemma Around(start: nat, k: nat, n: nat) returns (j: nat)
    requires k < n
    ensures j < n && (start + j) % n == k
  {
    var q, r := start / n, start % n;
    assert start == n * q + r;
    j := if k >= r then k - r else k + n - r;
    var w := if k >= r then q else q + 1;
    assert n * (q + 1) == n * q + n;
    assert start + j == n * w + k;
    QuotientIs(n, w, k);
  }

  /** A thread that asks for an id while no other moves gets one if and only if some id is
      not in use: that of the lowest clear bit of the first word that has one, going round
      from the cursor. */
  lemma AcquiredAlone(s: State, t: nat) returns (n: nat, j: nat)
    requires t < |s.pcs| && s.words != [] && s.pcs[t] == Idle
    ensures var u := Exec(s, seq(n, _ => Go(t)));
            && t < |u.pcs| && (u.pcs[t].Owns? || u.pcs[t] == Exhausted)
            && (u.pcs[t].Owns? <==> exists k: nat :: k < |s.words| && HasClear(s.words[k]))
            && (u.pcs[t].Owns? ==> Nearest(s, s.cursor, 0, j) && u.pcs[t].id == IdAt(s, s.cursor, j))
  {
    hide Exec, HasClear, IdAt;
    var one := Step(s, Go(t));
    assert one.words == s.words && one.pcs[t] == Scan(s.cursor, 0);
    var m;
    m, j := ScanAlone(one, t, s.cursor, 0);
    SameWords(s, one, s.cursor, 0);
    StepsAre(s, t, m);
    n := m + 1;
    AnyWord(one, s.cursor);
  }

  /** The first two threads to ask, one after the other, get the ids 1 and 64. */
  lemma FirstIds(words: nat, threads: nat) returns (n: nat, m: nat)
    requires words > 1 && threads > 1
    ensures var u := Exec(Initial(words, threads), seq(n, _ => Go(0)));
            var v := Exec(u, seq(m, _ => Go(1)));
            |u.pcs| == |v.pcs| == threads && u.pcs[0] == Owns(1) && v.pcs[1] == Owns(64)
  {
    hide Exec, Step;
    var s := Initial(words, threads);
    n, m := 3, 3;
    ClearOf({0}, 1);
    ThreeSteps(s, 0);
    var u := Took(s, 0);
    ClearOf({}, 0);
    ThreeSteps(u, 1);
  }

  lemma ClearOf(word: set<nat>, bit: nat)
    requires bit < WORD_BITS && bit !in word && bit <= 1 && (bit == 1 ==> 0 in word)
    ensures HasClear(word) && LowestClear(word, 0) == bit
  {
    if bit == 1 { assert LowestClear(word, 1) == 1; }
  }

  /** What a thread that starts on a word with a clear bit does in three steps. */
  function Took(s: State, t: nat): State
    requires t < |s.pcs| && s.words != [] && HasClear(WordAt(s, s.cursor, 0))
  {
    var idx := s.cursor % |s.words|;
    State(s.words[idx := s.words[idx] + {LowestClear(s.words[idx], 0)}], s.cursor + 1,
          s.pcs[t := Owns(IdAt(s, s.cursor, 0))])
  }

  lemma ThreeSteps(s: State, t: nat)
    requires t < |s.pcs| && s.words != [] && s.pcs[t] == Idle && HasClear(WordAt(s, s.cursor, 0))
    ensures Exec(s, seq(3, _ => Go(t))) == Took(s, t)
  {
    hide HasClear, LowestClear, Exec;
    StepsAre(s, t, 2);
    StepsAre(Step(s, Go(t)), t, 1);
    StepsAre(Step(Step(s, Go(t)), Go(t)), t, 0);
    NoStep(Step(Step(Step(s, Go(t)), Go(t)), Go(t)), t);
  }

  lemma AnyWord(s: State, start: nat)
    requires s.words != []
    ensures ClearFrom(s, start, 0) <==> exists k: nat :: k < |s.words| && HasClear(s.words[k])
  {
    hide HasClear;
    if k: nat :| k < |s.words| && HasClear(s.words[k]) {
      var j := Around(start, k, |s.words|);
      assert HasClear(WordAt(s, start, j));
    }
    if j: nat :| j < |s.words| && HasClear(WordAt(s, start, j)) {
      assert HasClear(s.words[(start + j) % |s.words|]);
    }
  }

  lemma ReleasedAgain(s: State, t: nat) returns (n: nat)
    requires Inv(s) && t < |s.pcs| && s.pcs[t].Owns?
    ensures var u := Exec(Step(s, Release(t)), seq(n, _ => Go(t))); t < |u.pcs| && u.pcs[t].Owns?
  {
    var id := s.pcs[t].id;
    var v := Step(s, Release(t));
    assert id % WORD_BITS !in v.words[id / WORD_BITS];
    assert HasClear(v.words[id / WORD_BITS]);
    var j;
    n, j := AcquiredAlone(v, t);
  }
}
