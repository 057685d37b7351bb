/** Objects that own references to others: what each kind owns, and what reference counts
    must say about it. */
module Ownership {

  /** An address; 0 is no object. */
  type Ref = nat

  const NULL: Ref := 0

  datatype Obj =
    | Lambda(slots: seq<Ref>, nfo: Ref, dbg: Ref)
    | Atom(obj: Ref, owns: bool)
    | Slice(parent: Ref)
    | Vector(nullmap: Ref, pool: Ref, data: seq<int>)
    | Parted(nullmap: Ref, segs: seq<Ref>)
    | MapCommon(keys: Ref, rows: Ref)
    | Table(schema: Ref, cols: seq<Ref>)
    | List(nullmap: Ref, items: seq<Ref>)

  function NonNull(s: seq<Ref>): seq<Ref> {
    if s == [] then [] else (if s[0] == NULL then [] else [s[0]]) + NonNull(s[1..])
  }

  /** The owned references of an object, in the order they are released. */
  function Refs(o: Obj): seq<Ref> {
    match o
    case Lambda(slots, nfo, dbg) => NonNull(slots + [nfo, dbg])
    case Atom(obj, owns) => if owns then NonNull([obj]) else []
    case Slice(parent) => NonNull([parent])
    case Vector(nullmap, pool, _) => NonNull([nullmap, pool])
    case Parted(nullmap, segs) => NonNull([nullmap] + segs)
    case MapCommon(keys, rows) => NonNull([keys, rows])
    case Table(schema, cols) => NonNull([schema] + cols)
    case List(nullmap, items) => NonNull([nullmap] + items)
  }

  type Objects = map<Ref, Obj>

  /** Every owned reference of every object, counted. */
  ghost function Owned(objs: Objects): multiset<Ref>
    decreases |objs|
  {
    if objs == map[] then multiset{} else
      var k :| k in objs;
      FewerObjects(objs, k);
      multiset(Refs(objs[k])) + Owned(objs - {k})
  }

  lemma FewerObjects(objs: Objects, k: Ref)
    requires k in objs
    ensures |objs - {k}| == |objs| - 1
  {
    assert (objs - {k}).Keys == objs.Keys - {k};
    assert |objs.Keys| == |objs| && |(objs - {k}).Keys| == |objs - {k}|;
  }

  lemma Swap(a: multiset<Ref>, b: multiset<Ref>, c: multiset<Ref>)
    ensures a + (b + c) == b + (a + c)
  {
  }

  /** Any object may be counted first. */
  lemma {:induction false} OwnedSplit(objs: Objects, k: Ref)
    requires k in objs
    ensures Owned(objs) == multiset(Refs(objs[k])) + Owned(objs - {k})
    decreases |objs|
  {
    hide Refs;
    var j :| j in objs && Owned(objs) == multiset(Refs(objs[j])) + Owned(objs - {j});
    if j != k {
      hide Owned;
      FewerObjects(objs, j);
      FewerObjects(objs, k);
      OwnedSplit(objs - {j}, k);
      OwnedSplit(objs - {k}, j);
      assert objs - {j} - {k} == objs - {k} - {j};
      Swap(multiset(Refs(objs[j])), multiset(Refs(objs[k])), Owned(objs - {j} - {k}));
    }
  }

  lemma OwnedAdd(objs: Objects, k: Ref, o: Obj)
    requires k !in objs
    ensures Owned(objs[k := o]) == Owned(objs) + multiset(Refs(o))
  {
    OwnedSplit(objs[k := o], k);
    assert objs[k := o] - {k} == objs;
  }

  type Counts = map<Ref, nat>

  /** Each count is the number of owning slots and outside holders; nothing refers to an
      object that is not there; no object is unowned. */
  ghost predicate Counted(objs: Objects, rc: Counts, outside: multiset<Ref>) {
    && objs.Keys <= rc.Keys
    && (forall x :: x in objs ==> rc[x] == Owned(objs)[x] + outside[x] && rc[x] >= 1)
    && (forall x :: Owned(objs)[x] + outside[x] > 0 ==> x in objs)
    && NULL !in objs
  }

  lemma RefCounted(objs: Objects, x: Ref, r: Ref)
    requires x in objs && r in Refs(objs[x])
    ensures Owned(objs)[r] > 0
  {
    OwnedSplit(objs, x);
    assert r in multiset(Refs(objs[x]));
  }

  /** No object points at one that is gone. */
  lemma NothingDangles(objs: Objects, rc: Counts, outside: multiset<Ref>, x: Ref, r: Ref)
    requires Counted(objs, rc, outside) && x in objs && r in Refs(objs[x])
    ensures r in objs
  {
    RefCounted(objs, x, r);
  }

  // ----- acyclic graphs -----

  /** A rank that falls along every reference. */
  ghost predicate Ranked(objs: Objects, rank: map<Ref, nat>) {
    forall x, r :: x in objs && r in Refs(objs[x]) && r in objs ==> x in rank && r in rank && rank[r] < rank[x]
  }

  /** A chain of references from an outside holder. */
  ghost predicate Path(objs: Objects, outside: multiset<Ref>, path: seq<Ref>, x: Ref)
    decreases |path|
  {
    && path != [] && path[|path| - 1] == x && x in objs
    && if |path| == 1 then x in outside
       else var y := path[|path| - 2];
            y in objs && x in Refs(objs[y]) && Path(objs, outside, path[..|path| - 1], y)
  }

  lemma PathOn(objs: Objects, outside: multiset<Ref>, path: seq<Ref>, y: Ref, x: Ref)
    requires Path(objs, outside, path, y) && x in objs && x in Refs(objs[y])
    ensures Path(objs, outside, path + [x], x)
  {
    assert (path + [x])[..|path|] == path;
  }

  ghost predicate Reachable(objs: Objects, outside: multiset<Ref>, x: Ref) {
    exists path :: Path(objs, outside, path, x)
  }

  /** Who owns a reference, if the objects own it. */
  lemma {:induction false} OwnerOf(objs: Objects, r: Ref) returns (x: Ref)
    requires Owned(objs)[r] > 0
    ensures x in objs && r in Refs(objs[x])
    decreases |objs|
  {
    var k :| k in objs && Owned(objs) == multiset(Refs(objs[k])) + Owned(objs - {k});
    if r in Refs(objs[k]) {
      x := k;
    } else {
      FewerObjects(objs, k);
      x := OwnerOf(objs - {k}, r);
    }
  }

  function RankOf(rank: map<Ref, nat>, x: Ref): nat { if x in rank then rank[x] else 0 }

  /** In an acyclic graph whose counts are right there is no garbage: every object is
      reached from an outside holder. */
  lemma {:induction false} NoGarbage(objs: Objects, rc: Counts, outside: multiset<Ref>, rank: map<Ref, nat>, top: nat,
                                     x: Ref)
    requires Counted(objs, rc, outside) && Ranked(objs, rank) && x in objs
    requires forall y :: y in objs ==> RankOf(rank, y) <= top
    ensures Reachable(objs, outside, x)
    decreases top - RankOf(rank, x)
  {
    hide Refs, Owned;
    if outside[x] > 0 {
      assert Path(objs, outside, [x], x);
    } else {
      var y := OwnerOf(objs, x);
      assert RankOf(rank, x) < RankOf(rank, y);
      NoGarbage(objs, rc, outside, rank, top, y);
      var path :| Path(objs, outside, path, y);
      PathOn(objs, outside, path, y, x);
    }
  }

  lemma {:induction false} SomeHolder(objs: Objects, outside: multiset<Ref>, path: seq<Ref>, x: Ref)
    requires Path(objs, outside, path, x)
    ensures outside != multiset{}
    decreases |path|
  {
    if |path| > 1 { SomeHolder(objs, outside, path[..|path| - 1], path[|path| - 2]); }
  }

  lemma {:induction false} TopRank(objs: Objects, rank: map<Ref, nat>) returns (top: nat)
    ensures forall y :: y in objs ==> RankOf(rank, y) <= top
    decreases |objs|
  {
    top := 0;
    if objs != map[] {
      var k :| k in objs;
      FewerObjects(objs, k);
      var t := TopRank(objs - {k}, rank);
      top := if t > RankOf(rank, k) then t else RankOf(rank, k);
      forall y | y in objs
        ensures RankOf(rank, y) <= top
      {
        if y != k { assert y in objs - {k}; }
      }
    }
  }

  /** With right counts and no cycles, the objects there are exactly those that outside
      holders reach; with no holder left, none is left. */
  lemma LiveIsReachable(objs: Objects, rc: Counts, outside: multiset<Ref>, rank: map<Ref, nat>)
    requires Counted(objs, rc, outside) && Ranked(objs, rank)
    ensures forall x :: x in objs <==> Reachable(objs, outside, x)
    ensures outside == multiset{} ==> objs == map[]
  {
    var top := TopRank(objs, rank);
    forall x
      ensures x in objs <==> Reachable(objs, outside, x)
    {
      if x in objs { NoGarbage(objs, rc, outside, rank, top, x); }
    }
    if objs != map[] {
      var k :| k in objs;
      assert Reachable(objs, outside, k);
      var path :| Path(objs, outside, path, k);
      SomeHolder(objs, outside, path, k);
    }
  }

  // ----- what a holder sees -----

  /** An object with everything it owns, all the way down. */
  datatype View = View(o: Obj, parts: seq<View>) | Gone

  ghost function ViewOf(objs: Objects, rank: map<Ref, nat>, x: Ref): View
    requires Ranked(objs, rank)
    decreases RankOf(rank, x)
  {
    if x !in objs then Gone
    else View(objs[x], seq(|Refs(objs[x])|, i requires 0 <= i < |Refs(objs[x])| =>
                assert Refs(objs[x])[i] in Refs(objs[x]);
                if Refs(objs[x])[i] in objs then ViewOf(objs, rank, Refs(objs[x])[i]) else Gone))
  }

  /** Replacing or adding objects that nothing else owns changes no other object's view. */
  lemma {:induction false} UnownedUnseen(objs: Objects, objs': Objects, rank: map<Ref, nat>, rank': map<Ref, nat>,
                                         written: set<Ref>, x: Ref)
    requires Ranked(objs, rank) && Ranked(objs', rank') && x !in written
    requires forall y :: y in objs && y !in written ==> y in objs' && objs'[y] == objs[y]
    requires forall y, z :: y in objs && y !in written && z in Refs(objs[y]) ==> z in objs && z !in written
    requires x in objs
    ensures ViewOf(objs', rank', x) == ViewOf(objs, rank, x)
    decreases RankOf(rank, x)
  {
    var refs := Refs(objs[x]);
    forall i | 0 <= i < |refs|
      ensures ViewOf(objs', rank', refs[i]) == ViewOf(objs, rank, refs[i])
    {
      assert refs[i] in refs;
      UnownedUnseen(objs, objs', rank, rank', written, refs[i]);
    }
  }

  /** A chain of owned references out of `x`. */
  ghost predicate Leads(objs: Objects, x: Ref, path: seq<Ref>)
    decreases |path|
  {
    path == [] || (x in objs && path[0] in Refs(objs[x]) && Leads(objs, path[0], path[1..]))
  }

  function End(x: Ref, path: seq<Ref>): Ref { if path == [] then x else path[|path| - 1] }

  /** Equal views agree on every object that can be reached, however far down. */
  lemma {:induction false} ViewTells(a: Objects, rank: map<Ref, nat>, b: Objects, rank': map<Ref, nat>, x: Ref,
                                     path: seq<Ref>)
    requires Ranked(a, rank) && Ranked(b, rank') && ViewOf(a, rank, x) == ViewOf(b, rank', x) && Leads(a, x, path)
    ensures End(x, path) in a <==> End(x, path) in b
    ensures End(x, path) in a ==> b[End(x, path)] == a[End(x, path)]
    decreases |path|
  {
    if path != [] {
      var refs := Refs(a[x]);
      var i :| 0 <= i < |refs| && refs[i] == path[0];
      assert b[x] == a[x];
      assert ViewOf(a, rank, x).parts[i] == ViewOf(b, rank', x).parts[i];
      ViewTells(a, rank, b, rank', path[0], path[1..]);
      assert End(x, path) == End(path[0], path[1..]);
    }
  }

  // ----- what each kind owns -----

  /** How often an object holds an address, field by field. */
  function Holds(o: Obj, r: Ref): nat {
    match o
    case Lambda(slots, nfo, dbg) => multiset(slots)[r] + multiset{nfo, dbg}[r]
    case Atom(obj, owns) => if owns && obj == r then 1 else 0
    case Slice(parent) => if parent == r then 1 else 0
    case Vector(nullmap, pool, _) => multiset{nullmap, pool}[r]
    case Parted(nullmap, segs) => multiset{nullmap}[r] + multiset(segs)[r]
    case MapCommon(keys, rows) => multiset{keys, rows}[r]
    case Table(schema, cols) => multiset{schema}[r] + multiset(cols)[r]
    case List(nullmap, items) => multiset{nullmap}[r] + multiset(items)[r]
  }

  /** An object owns each address as often as it holds it, and never 0. */
  lemma OwnsExactly(o: Obj, r: Ref)
    ensures multiset(Refs(o))[r] == if r == NULL then 0 else Holds(o, r)
  {
    hide NonNull;
    match o
    case Lambda(slots, nfo, dbg) => NonNullCount(slots + [nfo, dbg], r);
    case Atom(obj, owns) => NonNullCount([obj], r);
    case Slice(parent) => NonNullCount([parent], r);
    case Vector(nullmap, pool, _) => NonNullCount([nullmap, pool], r);
    case Parted(nullmap, segs) => NonNullCount([nullmap] + segs, r);
    case MapCommon(keys, rows) => NonNullCount([keys, rows], r);
    case Table(schema, cols) => NonNullCount([schema] + cols, r);
    case List(nullmap, items) => NonNullCount([nullmap] + items, r);
  }

  lemma {:induction false} NonNullCount(s: seq<Ref>, r: Ref)
    ensures multiset(NonNull(s))[r] == if r == NULL then 0 else multiset(s)[r]
  {
    if s != [] {
      NonNullCount(s[1..], r);
      assert s == [s[0]] + s[1..];
    }
  }
}
