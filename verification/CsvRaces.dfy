/** Programs that share memory as the tasks of the parallel CSV reader do: each cell, each
    read and each write of a byte of null bits is a step of its own, and the steps of
    different tasks come in any order. Only a byte of null bits is read before it is
    written. Which runs leave every bit in place, and which lose one. */
module CsvRaces {
  import opened Options
  import opened CsvText

  /** A cell written; a byte of null bits read, and written back with one bit more; the
      worker's record set. */
  datatype Action =
    | Put(row: nat, c: nat, v: Cell)
    | Load(c: nat, k: nat)
    | Store(c: nat, k: nat, bit: nat)
    | Flag(c: nat)

  type Program = seq<Action>

  /** What is in memory, and for each task the byte it last read and its next action. */
  datatype World = World(
    cells: map<(nat, nat), Cell>, bytes: map<(nat, nat), set<nat>>, flags: set<(nat, nat)>,
    regs: seq<set<nat>>, pcs: seq<nat>)

  function Byte(w: World, c: nat, k: nat): set<nat> { if (c, k) in w.bytes then w.bytes[(c, k)] else {} }

  ghost predicate Fits(w: World, progs: seq<Program>, workers: seq<nat>) {
    && |progs| == |workers| == |w.regs| == |w.pcs|
    && forall t :: 0 <= t < |progs| ==> w.pcs[t] <= |progs[t]|
  }

  /** Task `t` takes its next step, if it has one. */
  ghost function Step(w: World, progs: seq<Program>, workers: seq<nat>, t: nat): (u: World)
    requires Fits(w, progs, workers) && t < |progs|
    ensures Fits(u, progs, workers)
  {
    if w.pcs[t] >= |progs[t]| then w
    else
      var u := w.(pcs := w.pcs[t := w.pcs[t] + 1]);
      match progs[t][w.pcs[t]]
      case Put(row, c, v) => u.(cells := w.cells[(row, c) := v])
      case Load(c, k) => u.(regs := w.regs[t := Byte(w, c, k)])
      case Store(c, k, bit) => u.(bytes := w.bytes[(c, k) := w.regs[t] + {bit}])
      case Flag(c) => u.(flags := w.flags + {(workers[t], c)})
  }

  predicate Legal(schedule: seq<nat>, tasks: nat) { forall i :: 0 <= i < |schedule| ==> schedule[i] < tasks }

  ghost function Exec(w: World, progs: seq<Program>, workers: seq<nat>, schedule: seq<nat>): (u: World)
    requires Fits(w, progs, workers) && Legal(schedule, |progs|)
    ensures Fits(u, progs, workers)
    decreases |schedule|
  {
    if schedule == [] then w else Exec(Step(w, progs, workers, schedule[0]), progs, workers, schedule[1..])
  }

  function Start(tasks: nat): World { World(map[], map[], {}, seq(tasks, _ => {}), seq(tasks, _ => 0)) }

  ghost predicate Finished(w: World, progs: seq<Program>) {
    |w.pcs| == |progs| && forall t :: 0 <= t < |progs| ==> w.pcs[t] == |progs[t]|
  }

  // ----- well-made programs -----

  /** A byte is written only right after it was read. */
  ghost predicate ReadFirst(p: Program) {
    forall i :: 0 <= i < |p| && p[i].Store? ==> i > 0 && p[i - 1] == Load(p[i].c, p[i].k)
  }

  /** No bit is written twice. */
  ghost predicate Once(p: Program) { forall i, j :: 0 <= i < j < |p| && p[i].Store? ==> p[i] != p[j] }

  /** No two tasks write the same bit, and all that write a cell agree on it. */
  ghost predicate WellMade(progs: seq<Program>) {
    && (forall t :: 0 <= t < |progs| ==> ReadFirst(progs[t]) && Once(progs[t]))
    && (forall t: nat, u: nat, c: nat, k: nat, bit: nat ::
          t < |progs| && u < |progs| && Store(c, k, bit) in progs[t] && Store(c, k, bit) in progs[u] ==> t == u)
    && (forall t: nat, u: nat, row: nat, c: nat, v: Cell, x: Cell ::
          t < |progs| && u < |progs| && Put(row, c, v) in progs[t] && Put(row, c, x) in progs[u] ==> v == x)
  }

  // ----- what has been done, and what is about to be -----

  /** Task `t` has taken step `x`. */
  ghost predicate Did(w: World, progs: seq<Program>, t: nat, x: Action) {
    t < |progs| && t < |w.pcs| && w.pcs[t] <= |progs[t]| && x in progs[t][..w.pcs[t]]
  }

  ghost predicate Done(w: World, progs: seq<Program>, c: nat, k: nat, bit: nat) {
    exists t: nat :: Did(w, progs, t, Store(c, k, bit))
  }

  /** Task `t` has read byte `k` of column `c` and will write it next. */
  ghost predicate Pending(w: World, progs: seq<Program>, t: nat, c: nat, k: nat, bit: nat) {
    t < |progs| && t < |w.pcs| && t < |w.regs| && w.pcs[t] < |progs[t]| && progs[t][w.pcs[t]] == Store(c, k, bit)
  }

  lemma DidNext(w: World, progs: seq<Program>, workers: seq<nat>, t: nat)
    requires Fits(w, progs, workers) && t < |progs| && w.pcs[t] < |progs[t]|
    ensures var u := Step(w, progs, workers, t);
            forall s: nat, x :: Did(u, progs, s, x) <==> Did(w, progs, s, x) || (s == t && x == progs[t][w.pcs[t]])
  {
    var p, i := progs[t], w.pcs[t];
    assert p[..i + 1] == p[..i] + [p[i]];
  }

  lemma DidIn(w: World, progs: seq<Program>, t: nat, x: Action)
    requires Did(w, progs, t, x)
    ensures t < |progs| && x in progs[t]
  {
  }

  /** In a finished run a task has taken exactly the steps of its program. */
  lemma DidAll(w: World, progs: seq<Program>, t: nat, x: Action)
    requires Finished(w, progs) && t < |progs|
    ensures Did(w, progs, t, x) <==> x in progs[t]
  {
    assert progs[t][..|progs[t]|] == progs[t];
  }

  lemma DoneNext(w: World, progs: seq<Program>, workers: seq<nat>, t: nat)
    requires Fits(w, progs, workers) && t < |progs| && w.pcs[t] < |progs[t]|
    ensures var u := Step(w, progs, workers, t);
            forall c: nat, k: nat, bit: nat ::
              Done(u, progs, c, k, bit) <==> Done(w, progs, c, k, bit) || progs[t][w.pcs[t]] == Store(c, k, bit)
  {
    hide Did, Step;
    DidNext(w, progs, workers, t);
    var u := Step(w, progs, workers, t);
    forall c: nat, k: nat, bit: nat
      ensures Done(u, progs, c, k, bit) <==> Done(w, progs, c, k, bit) || progs[t][w.pcs[t]] == Store(c, k, bit)
    {
      if s: nat :| Did(w, progs, s, Store(c, k, bit)) { assert Did(u, progs, s, Store(c, k, bit)); }
      if progs[t][w.pcs[t]] == Store(c, k, bit) { assert Did(u, progs, t, Store(c, k, bit)); }
    }
  }

  /** What is pending afterwards: a step other than a reading makes nothing pending. */
  lemma PendingNext(w: World, progs: seq<Program>, workers: seq<nat>, t: nat)
    requires Fits(w, progs, workers) && WellMade(progs) && t < |progs| && w.pcs[t] < |progs[t]|
    ensures var u := Step(w, progs, workers, t);
            && (forall s: nat, c: nat, k: nat, bit: nat :: s != t ==>
                  (Pending(u, progs, s, c, k, bit) <==> Pending(w, progs, s, c, k, bit)))
            && (forall s :: 0 <= s < |progs| && s != t ==> u.regs[s] == w.regs[s])
            && (forall c: nat, k: nat, bit: nat :: Pending(u, progs, t, c, k, bit) ==>
                  progs[t][w.pcs[t]] == Load(c, k) && u.regs[t] == Byte(w, c, k))
  {
    assert ReadFirst(progs[t]);
  }

  /** A bit about to be written has not been. */
  lemma PendingNotDone(w: World, progs: seq<Program>, workers: seq<nat>, t: nat, c: nat, k: nat, bit: nat)
    requires Fits(w, progs, workers) && WellMade(progs) && Pending(w, progs, t, c, k, bit)
    ensures !Done(w, progs, c, k, bit) && Store(c, k, bit) in progs[t]
    ensures forall s: nat :: Pending(w, progs, s, c, k, bit) ==> s == t
  {
    assert Once(progs[t]);
    forall s: nat | Did(w, progs, s, Store(c, k, bit))
      ensures s == t
    {
      DidIn(w, progs, s, Store(c, k, bit));
    }
    forall s: nat | Pending(w, progs, s, c, k, bit)
      ensures s == t
    {
      assert Store(c, k, bit) in progs[s];
    }
  }

  // ----- what every run keeps -----

  ghost predicate CellsDone(w: World, progs: seq<Program>) {
    forall t: nat, row: nat, c: nat, v: Cell ::
      Did(w, progs, t, Put(row, c, v)) ==> (row, c) in w.cells && w.cells[(row, c)] == v
  }

  ghost predicate Flagged(w: World, progs: seq<Program>, workers: seq<nat>, x: nat, c: nat) {
    exists t: nat :: t < |workers| && workers[t] == x && Did(w, progs, t, Flag(c))
  }

  ghost predicate FlagsDone(w: World, progs: seq<Program>, workers: seq<nat>) {
    forall x: nat, c: nat :: (x, c) in w.flags <==> Flagged(w, progs, workers, x, c)
  }

  /** Every bit in a byte, or in the copy of one about to be written, has been written by
      some task. */
  ghost predicate Sourced(w: World, progs: seq<Program>) {
    && (forall c: nat, k: nat, z: nat :: z in Byte(w, c, k) ==> Done(w, progs, c, k, z))
    && (forall t: nat, c: nat, k: nat, bit: nat, z: nat ::
          Pending(w, progs, t, c, k, bit) && z in w.regs[t] ==> Done(w, progs, c, k, z))
  }

  /** The cells and records are those written, and no bit comes from nowhere. */
  ghost predicate Inv(w: World, progs: seq<Program>, workers: seq<nat>) {
    Fits(w, progs, workers) && CellsDone(w, progs) && FlagsDone(w, progs, workers) && Sourced(w, progs)
  }

  lemma InProgram(p: Program, i: nat)
    requires i < |p|
    ensures p[i] in p
  {
  }

  lemma CellsStep(w: World, progs: seq<Program>, workers: seq<nat>, t: nat)
    requires Fits(w, progs, workers) && CellsDone(w, progs) && WellMade(progs) && t < |progs| && w.pcs[t] < |progs[t]|
    ensures CellsDone(Step(w, progs, workers, t), progs)
  {
    hide Did;
    var u := Step(w, progs, workers, t);
    DidNext(w, progs, workers, t);
    InProgram(progs[t], w.pcs[t]);
    forall s: nat, row: nat, c: nat, v: Cell | Did(u, progs, s, Put(row, c, v))
      ensures (row, c) in u.cells && u.cells[(row, c)] == v
    {
      DidIn(u, progs, s, Put(row, c, v));
    }
  }

  lemma FlagsStep(w: World, progs: seq<Program>, workers: seq<nat>, t: nat)
    requires Fits(w, progs, workers) && FlagsDone(w, progs, workers) && t < |progs| && w.pcs[t] < |progs[t]|
    ensures FlagsDone(Step(w, progs, workers, t), progs, workers)
  {
    hide Did;
    var u, a := Step(w, progs, workers, t), progs[t][w.pcs[t]];
    DidNext(w, progs, workers, t);
    forall x: nat, c: nat
      ensures (x, c) in u.flags <==> Flagged(u, progs, workers, x, c)
    {
      assert (x, c) in w.flags <==> Flagged(w, progs, workers, x, c);
      if Flagged(w, progs, workers, x, c) {
        var s: nat :| s < |workers| && workers[s] == x && Did(w, progs, s, Flag(c));
        assert Did(u, progs, s, Flag(c));
      }
      if a == Flag(c) && workers[t] == x { assert Did(u, progs, t, Flag(c)); }
      if Flagged(u, progs, workers, x, c) {
        var s: nat :| s < |workers| && workers[s] == x && Did(u, progs, s, Flag(c));
        assert Did(w, progs, s, Flag(c)) || (s == t && Flag(c) == a);
      }
    }
  }

  lemma SourcedStep(w: World, progs: seq<Program>, workers: seq<nat>, t: nat)
    requires Fits(w, progs, workers) && Sourced(w, progs) && WellMade(progs) && t < |progs| && w.pcs[t] < |progs[t]|
    ensures Sourced(Step(w, progs, workers, t), progs)
  {
    hide Done, WellMade;
    var u, a := Step(w, progs, workers, t), progs[t][w.pcs[t]];
    DoneNext(w, progs, workers, t);
    PendingNext(w, progs, workers, t);
    forall c: nat, k: nat, z: nat | z in Byte(u, c, k)
      ensures Done(u, progs, c, k, z)
    {
      if a.Store? && a.c == c && a.k == k && z != a.bit { assert Pending(w, progs, t, c, k, a.bit); }
    }
  }

  /** Every step of every task keeps it. */
  lemma StepKeeps(w: World, progs: seq<Program>, workers: seq<nat>, t: nat)
    requires Inv(w, progs, workers) && WellMade(progs) && t < |progs|
    ensures Inv(Step(w, progs, workers, t), progs, workers)
  {
    hide CellsDone, FlagsDone, Sourced, WellMade;
    if w.pcs[t] < |progs[t]| {
      CellsStep(w, progs, workers, t);
      FlagsStep(w, progs, workers, t);
      SourcedStep(w, progs, workers, t);
    }
  }

  lemma {:induction false} ExecKeeps(w: World, progs: seq<Program>, workers: seq<nat>, schedule: seq<nat>)
    requires Inv(w, progs, workers) && WellMade(progs) && Legal(schedule, |progs|)
    ensures Inv(Exec(w, progs, workers, schedule), progs, workers)
    decreases |schedule|
  {
    hide CellsDone, FlagsDone, Sourced, WellMade, Step;
    if schedule != [] {
      StepKeeps(w, progs, workers, schedule[0]);
      ExecKeeps(Step(w, progs, workers, schedule[0]), progs, workers, schedule[1..]);
    }
  }

  lemma StartInv(progs: seq<Program>, workers: seq<nat>)
    requires |progs| == |workers| && WellMade(progs)
    ensures Inv(Start(|progs|), progs, workers)
  {
    assert forall t :: 0 <= t < |progs| ==> ReadFirst(progs[t]);
  }

  // ----- which runs keep every bit -----

  /** The next step of task `t` writes no byte that another task has read and is about to
      write. */
  ghost predicate Clear(w: World, progs: seq<Program>, t: nat) {
    forall s: nat, c: nat, k: nat, y: nat, z: nat ::
      Pending(w, progs, t, c, k, y) && Pending(w, progs, s, c, k, z) ==> s == t
  }

  /** So it is at every step of the run. */
  ghost predicate AllClear(w: World, progs: seq<Program>, workers: seq<nat>, schedule: seq<nat>)
    requires Fits(w, progs, workers) && Legal(schedule, |progs|)
    decreases |schedule|
  {
    schedule == [] ||
    (Clear(w, progs, schedule[0]) && AllClear(Step(w, progs, workers, schedule[0]), progs, workers, schedule[1..]))
  }

  /** Every bit written is in its byte, and a byte about to be written is as it was read. */
  ghost predicate Current(w: World, progs: seq<Program>) {
    && (forall c: nat, k: nat, z: nat :: Done(w, progs, c, k, z) ==> z in Byte(w, c, k))
    && (forall t: nat, c: nat, k: nat, bit: nat :: Pending(w, progs, t, c, k, bit) ==> w.regs[t] == Byte(w, c, k))
  }

  /** Bit `z` has been written or is about to be. */
  ghost predicate Told(w: World, progs: seq<Program>, c: nat, k: nat, z: nat) {
    Done(w, progs, c, k, z) || exists t: nat :: Pending(w, progs, t, c, k, z)
  }

  ghost predicate Lacks(w: World, progs: seq<Program>, c: nat, k: nat, bits: set<nat>) {
    exists z: nat :: z !in bits && Told(w, progs, c, k, z)
  }

  /** A bit of the byte is lost already: it is missing from the byte, or from every copy of
      it about to be written, and only one of these can become the byte in the end. */
  ghost predicate Doomed(w: World, progs: seq<Program>, c: nat, k: nat) {
    && Lacks(w, progs, c, k, Byte(w, c, k))
    && forall t: nat, bit: nat :: Pending(w, progs, t, c, k, bit) ==> Lacks(w, progs, c, k, w.regs[t] + {bit})
  }

  lemma ClearStep(w: World, progs: seq<Program>, workers: seq<nat>, t: nat)
    requires Fits(w, progs, workers) && Current(w, progs) && WellMade(progs) && t < |progs| && Clear(w, progs, t)
    ensures Current(Step(w, progs, workers, t), progs)
  {
    hide Done, WellMade;
    if w.pcs[t] < |progs[t]| {
      var u, a := Step(w, progs, workers, t), progs[t][w.pcs[t]];
      DoneNext(w, progs, workers, t);
      PendingNext(w, progs, workers, t);
      if a.Store? { assert Pending(w, progs, t, a.c, a.k, a.bit); }
    }
  }

  lemma DoomStep(w: World, progs: seq<Program>, workers: seq<nat>, t: nat, s: nat, c: nat, k: nat, y: nat, x: nat)
    requires Fits(w, progs, workers) && Sourced(w, progs) && WellMade(progs)
    requires Pending(w, progs, t, c, k, y) && Pending(w, progs, s, c, k, x) && s != t
    ensures Doomed(Step(w, progs, workers, t), progs, c, k)
  {
    hide Done, WellMade;
    var u := Step(w, progs, workers, t);
    DoneNext(w, progs, workers, t);
    PendingNext(w, progs, workers, t);
    PendingNotDone(w, progs, workers, t, c, k, y);
    PendingNotDone(w, progs, workers, s, c, k, x);
    assert Pending(u, progs, s, c, k, x);
    assert Told(u, progs, c, k, x) && Told(u, progs, c, k, y);
    assert x !in Byte(u, c, k);
    forall v: nat, z: nat | Pending(u, progs, v, c, k, z)
      ensures Lacks(u, progs, c, k, u.regs[v] + {z})
    {
      assert Pending(w, progs, v, c, k, z);
      PendingNotDone(w, progs, workers, v, c, k, z);
      if v == s { assert y !in u.regs[v] + {z}; } else { assert x !in u.regs[v] + {z}; }
    }
  }

  lemma ToldNext(w: World, progs: seq<Program>, workers: seq<nat>, t: nat, c: nat, k: nat, z: nat)
    requires Fits(w, progs, workers) && WellMade(progs) && t < |progs| && w.pcs[t] < |progs[t]|
             && Told(w, progs, c, k, z)
    ensures Told(Step(w, progs, workers, t), progs, c, k, z)
  {
    hide Done, WellMade, Step;
    var u := Step(w, progs, workers, t);
    DoneNext(w, progs, workers, t);
    PendingNext(w, progs, workers, t);
    if !Done(w, progs, c, k, z) {
      var s: nat :| Pending(w, progs, s, c, k, z);
      if s != t { assert Pending(u, progs, s, c, k, z); }
    }
  }

  lemma LacksNext(w: World, progs: seq<Program>, workers: seq<nat>, t: nat, c: nat, k: nat, bits: set<nat>)
    requires Fits(w, progs, workers) && WellMade(progs) && t < |progs| && w.pcs[t] < |progs[t]|
             && Lacks(w, progs, c, k, bits)
    ensures Lacks(Step(w, progs, workers, t), progs, c, k, bits)
    ensures forall bit: nat :: Pending(Step(w, progs, workers, t), progs, t, c, k, bit) ==>
              Lacks(Step(w, progs, workers, t), progs, c, k, bits + {bit})
  {
    hide Told, WellMade, Step;
    var u := Step(w, progs, workers, t);
    var z: nat :| z !in bits && Told(w, progs, c, k, z);
    ToldNext(w, progs, workers, t, c, k, z);
    forall bit: nat | Pending(u, progs, t, c, k, bit)
      ensures Lacks(u, progs, c, k, bits + {bit})
    {
      NotToldYet(w, progs, workers, t, c, k, bit);
      assert z !in bits + {bit};
    }
  }

  /** A bit whose byte has only just been read was not to be written before. */
  lemma NotToldYet(w: World, progs: seq<Program>, workers: seq<nat>, t: nat, c: nat, k: nat, bit: nat)
    requires Fits(w, progs, workers) && WellMade(progs) && t < |progs| && w.pcs[t] < |progs[t]|
    requires Pending(Step(w, progs, workers, t), progs, t, c, k, bit)
    ensures !Told(w, progs, c, k, bit)
  {
    hide Done, WellMade, Step;
    var u := Step(w, progs, workers, t);
    PendingNotDone(u, progs, workers, t, c, k, bit);
    DoneNext(w, progs, workers, t);
    PendingNext(w, progs, workers, t);
    forall s: nat | s != t
      ensures !Pending(w, progs, s, c, k, bit)
    {
      assert Pending(u, progs, s, c, k, bit) <==> Pending(w, progs, s, c, k, bit);
    }
  }

  lemma DoomKeeps(w: World, progs: seq<Program>, workers: seq<nat>, t: nat, c: nat, k: nat)
    requires Fits(w, progs, workers) && WellMade(progs) && t < |progs| && Doomed(w, progs, c, k)
    ensures Doomed(Step(w, progs, workers, t), progs, c, k)
  {
    hide Lacks, WellMade;
    if w.pcs[t] < |progs[t]| {
      var u, a := Step(w, progs, workers, t), progs[t][w.pcs[t]];
      PendingNext(w, progs, workers, t);
      LacksNext(w, progs, workers, t, c, k, Byte(w, c, k));
      if a.Store? && a.c == c && a.k == k {
        assert Pending(w, progs, t, c, k, a.bit);
        LacksNext(w, progs, workers, t, c, k, w.regs[t] + {a.bit});
      }
      forall s: nat, bit: nat | Pending(u, progs, s, c, k, bit)
        ensures Lacks(u, progs, c, k, u.regs[s] + {bit})
      {
        if s != t { LacksNext(w, progs, workers, t, c, k, w.regs[s] + {bit}); }
      }
    }
  }

  lemma {:induction false} DoomStays(w: World, progs: seq<Program>, workers: seq<nat>, schedule: seq<nat>, c: nat,
                                     k: nat)
    requires Fits(w, progs, workers) && WellMade(progs) && Legal(schedule, |progs|) && Doomed(w, progs, c, k)
    ensures Doomed(Exec(w, progs, workers, schedule), progs, c, k)
    decreases |schedule|
  {
    hide WellMade, Doomed, Step;
    if schedule != [] {
      DoomKeeps(w, progs, workers, schedule[0], c, k);
      DoomStays(Step(w, progs, workers, schedule[0]), progs, workers, schedule[1..], c, k);
    }
  }

  /** Every bit some program writes is in its byte. */
  ghost predicate NoneLost(w: World, progs: seq<Program>) {
    forall t: nat, c: nat, k: nat, z: nat :: t < |progs| && Store(c, k, z) in progs[t] ==> z in Byte(w, c, k)
  }

  lemma DoomedLost(w: World, progs: seq<Program>, c: nat, k: nat)
    requires Finished(w, progs) && Doomed(w, progs, c, k)
    ensures !NoneLost(w, progs)
  {
    hide Did;
    var z: nat :| z !in Byte(w, c, k) && Told(w, progs, c, k, z);
    assert Done(w, progs, c, k, z);
    var t: nat :| Did(w, progs, t, Store(c, k, z));
    DidIn(w, progs, t, Store(c, k, z));
  }

  lemma CurrentKept(w: World, progs: seq<Program>)
    requires Finished(w, progs) && Current(w, progs)
    ensures NoneLost(w, progs)
  {
    hide Did;
    forall t: nat, c: nat, k: nat, z: nat | t < |progs| && Store(c, k, z) in progs[t]
      ensures z in Byte(w, c, k)
    {
      DidAll(w, progs, t, Store(c, k, z));
      assert Done(w, progs, c, k, z);
    }
  }

  /** A run loses no bit if and only if no task ever writes a byte that another has read
      and not yet written back. */
  lemma {:induction false} KeptExactly(w: World, progs: seq<Program>, workers: seq<nat>, schedule: seq<nat>)
    requires Inv(w, progs, workers) && Current(w, progs) && WellMade(progs) && Legal(schedule, |progs|)
    requires Finished(Exec(w, progs, workers, schedule), progs)
    ensures NoneLost(Exec(w, progs, workers, schedule), progs) <==> AllClear(w, progs, workers, schedule)
    decreases |schedule|
  {
    hide WellMade, Current, Inv, Step, Sourced, NoneLost, Finished;
    InvParts(w, progs, workers);
    if schedule == [] {
      CurrentKept(w, progs);
    } else {
      var t := schedule[0];
      StepKeeps(w, progs, workers, t);
      if Clear(w, progs, t) {
        ClearStep(w, progs, workers, t);
        KeptExactly(Step(w, progs, workers, t), progs, workers, schedule[1..]);
      } else {
        var s: nat, c: nat, k: nat, y: nat, z: nat :|
          Pending(w, progs, t, c, k, y) && Pending(w, progs, s, c, k, z) && s != t;
        DoomStep(w, progs, workers, t, s, c, k, y, z);
        DoomStays(Step(w, progs, workers, t), progs, workers, schedule[1..], c, k);
        DoomedLost(Exec(w, progs, workers, schedule), progs, c, k);
      }
    }
  }

  lemma InvParts(w: World, progs: seq<Program>, workers: seq<nat>)
    requires Inv(w, progs, workers)
    ensures Fits(w, progs, workers) && Sourced(w, progs)
  {
  }

  lemma StartCurrent(progs: seq<Program>)
    requires WellMade(progs)
    ensures Current(Start(|progs|), progs)
  {
    assert forall t :: 0 <= t < |progs| ==> ReadFirst(progs[t]);
  }
}
