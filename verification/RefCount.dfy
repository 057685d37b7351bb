/** Retain, release and copy on write over objects with reference counts. */
module RefCount {
  import opened Ownership

  class Memory {
    var objs: Objects
    var rc: Counts
    /** References held from outside the objects, and objects in the middle of being
        freed or copied: in memory, but nobody's. */
    ghost var outside: multiset<Ref>
    ghost var limbo: set<Ref>

    ghost function Live(): Objects
      reads this
    {
      objs - limbo
    }

    ghost predicate Valid()
      reads this
    {
      limbo <= objs.Keys && Counted(Live(), rc, outside)
    }

    constructor ()
      ensures Valid() && objs == map[] && limbo == {} && outside == multiset{}
    {
      objs, rc, outside, limbo := map[], map[], multiset{}, {};
    }

    /** An object made of references its maker holds; the maker holds the object instead. */
    method New(x: Ref, o: Obj)
      requires Valid() && x != NULL && x !in objs && multiset(Refs(o)) <= outside
      modifies this
      ensures Valid() && limbo == old(limbo) && Live() == old(Live())[x := o] && objs == old(objs)[x := o]
      ensures rc == old(rc)[x := 1] && outside == old(outside) - multiset(Refs(o)) + multiset{x}
    {
      hide Refs, Owned, Counted;
      ghost var live := Live();
      UncountedKeeps(live, rc, rc[x := 1], outside, x);
      CopyCounted(live, rc[x := 1], outside, x, o);
      LiveAdds(objs, limbo, x, o);
      objs := objs[x := o];
      rc := rc[x := 1];
      outside := outside - multiset(Refs(o)) + multiset{x};
    }

    /** ray_retain. */
    method Retain(v: Ref)
      requires Valid() && v in Live()
      modifies this`rc, this`outside
      ensures Valid() && outside == old(outside) + multiset{v}
      ensures v in old(rc) && rc == old(rc)[v := old(rc)[v] + 1]
    {
      hide Owned;
      rc := rc[v := rc[v] + 1];
      outside := outside + multiset{v};
    }

    /** ray_release: the count drops, and an object without owners is freed. */
    method Release(v: Ref)
      requires Valid() && v in outside
      modifies this
      ensures Valid() && limbo == old(limbo) && outside == old(outside) - multiset{v}
      ensures Shrunk(old(Live()), Live(), old(objs), objs, limbo)
      ensures v in old(rc) && (v in Live() <==> old(rc)[v] > 1)
      ensures old(rc)[v] > 1 ==> objs == old(objs) && rc == old(rc)[v := old(rc)[v] - 1]
      ensures forall x :: x in limbo && x in old(rc) ==> x in rc && rc[x] == old(rc)[x]
      decreases |Live()|, 1
    {
      hide Owned, Refs, Counted, LastGone;
      OutsideLives(Live(), rc, outside, v);
      ReleaseOne(Live(), rc, outside, v);
      var prev := rc[v];
      rc := rc[v := rc[v] - 1];
      outside := outside - multiset{v};
      if prev == 1 {
        Free(v);
      }
    }

    /** Releasing one reference frees exactly the objects that no outside holder reaches
        any more, and leaves the rest untouched. */
    method ReleaseExactly(v: Ref, ghost rank: map<Ref, nat>)
      requires Valid() && v in outside && Ranked(Live(), rank)
      modifies this
      ensures Valid() && outside == old(outside) - multiset{v}
      ensures forall x :: x in old(Live()) ==>
                (x in Live() <==> Reachable(old(Live()), old(outside) - multiset{v}, x))
                  && (x in Live() ==> Live()[x] == old(Live())[x])
    {
      hide Owned, Refs, Counted, Reachable, Ranked;
      ghost var live := Live();
      Release(v);
      StillReached(live, Live(), rc, outside, rank);
    }

    /** ray_free of an object whose count has come to nothing: pinned at one while what
        it owns is released, then gone. */
    method Free(v: Ref)
      requires v in Live() && limbo <= objs.Keys && LastGone(Live(), rc, outside, v)
      modifies this
      ensures Valid() && limbo == old(limbo) && outside == old(outside) && v !in objs
      ensures Shrunk(old(Live()), Live(), old(objs), objs, limbo)
      ensures forall x :: x in limbo && x in old(rc) ==> x in rc && rc[x] == old(rc)[x]
      decreases |Live()|, 0
    {
      hide Owned, Refs, Counted, LastGone, Shrunk;
      ghost var live, objs0, out0, limbo0 := Live(), objs, outside, limbo;
      var refs := Refs(objs[v]);
      Pin(v);
      PlusMinus(out0, refs);
      ReleaseOwned(refs);
      FreedShrunk(live, Live(), objs0, objs, limbo0, v);
      Drop(v);
    }

    /** The count set back to one: the object is nobody's, and what it owned is held from
        outside until it is released. */
    method Pin(v: Ref)
      requires v in Live() && limbo <= objs.Keys && LastGone(Live(), rc, outside, v)
      modifies this`rc, this`limbo, this`outside
      ensures Valid() && limbo == old(limbo) + {v} && v !in old(limbo) && Live() == old(Live()) - {v}
      ensures v in objs && outside == old(outside) + multiset(Refs(objs[v])) && rc == old(rc)[v := 1]
      ensures |Live()| < |old(Live())|
    {
      hide Owned, Refs, Counted, LastGone;
      LimboMap(objs, limbo, v);
      FewerObjects(Live(), v);
      PinnedKeeps(Live(), rc, outside, v);
      rc := rc[v := 1];
      limbo := limbo + {v};
      outside := outside + multiset(Refs(objs[v]));
    }

    /** The memory of an object set aside given back. */
    method Drop(v: Ref)
      requires Valid() && v in limbo
      modifies this`objs, this`limbo
      ensures Valid() && objs == old(objs) - {v} && limbo == old(limbo) - {v} && Live() == old(Live())
    {
      hide Owned, Refs, Counted;
      LimboMap(objs, limbo - {v}, v);
      assert limbo - {v} + {v} == limbo;
      objs := objs - {v};
      limbo := limbo - {v};
    }

    /** ray_release_owned_refs, on the references an object being freed held. */
    method ReleaseOwned(refs: seq<Ref>)
      requires Valid() && multiset(refs) <= outside
      modifies this
      ensures Valid() && limbo == old(limbo) && outside == old(outside) - multiset(refs)
      ensures Shrunk(old(Live()), Live(), old(objs), objs, limbo)
      ensures forall x :: x in limbo && x in old(rc) ==> x in rc && rc[x] == old(rc)[x]
      decreases |Live()|, 2
    {
      hide Owned, Refs, Counted, LastGone, Shrunk, Left;
      ghost var live, objs0, out0 := Live(), objs, outside;
      ShrunkRefl(live, objs, limbo);
      var i := 0;
      ghost var kept := out0 - multiset(refs);
      LeftStart(out0, refs);
      while i < |refs|
        invariant 0 <= i <= |refs| && Valid() && limbo == old(limbo) && outside == Left(kept, refs, i)
        invariant Shrunk(live, Live(), objs0, objs, limbo) && |Live()| <= |live|
        invariant forall x :: x in limbo && x in old(rc) ==> x in rc && rc[x] == old(rc)[x]
      {
        LeftStep(kept, refs, i);
        ghost var before, objs1 := Live(), objs;
        Release(refs[i]);
        ShrunkTrans(live, before, Live(), objs0, objs1, objs, limbo);
        ShrunkSize(before, Live(), objs1, objs, limbo);
        i := i + 1;
      }
      LeftEnd(kept, refs);
    }

    /** ray_cow for the kinds it may be used on: the object itself for its only holder,
        else a copy of its own. */
    method Cow(v: Ref, addr: Ref) returns (r: Ref)
      requires Valid() && v in outside && v in Live() && (Live()[v].Vector? || Live()[v].Table?)
      requires addr != NULL && addr !in objs
      modifies this
      ensures Valid() && limbo == old(limbo)
      ensures r in Live() && Live()[r] == old(Live())[v] && r in rc && rc[r] == 1 && r in outside
      ensures outside == old(outside) - multiset{v} + multiset{r}
      ensures v in old(rc) && (r == v <==> old(rc)[v] == 1) && (r == v || r == addr)
      ensures old(rc)[v] == 1 ==> rc == old(rc) && objs == old(objs)
      ensures objs.Keys == old(objs).Keys + {r}
      ensures Live() == (if old(rc)[v] == 1 then old(Live()) else old(Live())[addr := old(Live())[v]])
    {
      hide Owned, Refs, Counted;
      CountsOfLive(Live(), rc, outside, v);
      if rc[v] == 1 {
        assert outside - multiset{v} + multiset{v} == outside;
        return v;
      }
      r := Copy(v, addr);
      ghost var live := Live();
      Release(v);
      assert Live() == live;
    }

    /** ray_retain_owned_refs. */
    method RetainOwned(v: Ref, o: Obj)
      requires Valid() && v in Live() && Live()[v] == o
      modifies this`rc, this`outside
      ensures Valid() && outside == old(outside) + multiset(Refs(o))
      ensures forall x :: x in old(rc) && x !in Live() ==> x in rc && rc[x] == old(rc)[x]
      ensures forall x :: x in old(rc) ==> x in rc && rc[x] >= old(rc)[x]
    {
      hide Owned, Refs, Counted;
      var refs := Refs(o);
      var i := 0;
      assert refs[..0] == [];
      while i < |refs|
        invariant 0 <= i <= |refs| && Valid() && outside == old(outside) + multiset(refs[..i])
        invariant forall x :: x in old(rc) && x !in Live() ==> x in rc && rc[x] == old(rc)[x]
        invariant forall x :: x in old(rc) ==> x in rc && rc[x] >= old(rc)[x]
      {
        assert refs[i] in refs;
        NothingDangles(Live(), rc, outside, v, refs[i]);
        assert refs[..i + 1] == refs[..i] + [refs[i]];
        Retain(refs[i]);
        i := i + 1;
      }
      assert refs[..i] == refs;
    }

    /** ray_alloc_copy: the slots copied, and each owned reference retained. */
    method Copy(v: Ref, addr: Ref) returns (r: Ref)
      requires Valid() && v in Live() && addr != NULL && addr !in objs
      modifies this
      ensures Valid() && limbo == old(limbo) && r == addr && outside == old(outside) + multiset{addr}
      ensures Live() == old(Live())[addr := old(Live())[v]] && objs.Keys == old(objs).Keys + {addr}
      ensures addr in rc && rc[addr] == 1 && v in old(rc) && v in rc && rc[v] >= old(rc)[v]
    {
      hide Owned, Refs, Counted;
      ghost var live, out0 := Live(), outside;
      CountsOfLive(live, rc, outside, v);
      r := addr;
      var o := objs[v];
      NotYetReferred(live, rc, outside, addr);
      objs := objs[addr := o];
      rc := rc[addr := 1];
      limbo := limbo + {addr};
      assert Live() == live;
      UncountedKeeps(live, old(rc), rc, outside, addr);
      RetainOwned(v, o);
      limbo := limbo - {addr};
      CopyCounted(live, rc, outside, addr, o);
      outside := outside - multiset(Refs(o)) + multiset{addr};
      assert Live() == live[addr := o];
      assert outside == out0 + multiset{addr};
    }

    /** A vector element set in place, as callers do with what ray_cow returns. */
    method SetElem(r: Ref, k: nat, value: int)
      requires Valid() && r in Live() && Live()[r].Vector? && k < |Live()[r].data|
      modifies this`objs
      ensures Valid() && r in old(Live()) && old(Live())[r].Vector? && k < |old(Live())[r].data|
      ensures Live() == old(Live())[r := old(Live())[r].(data := old(Live())[r].data[k := value])]
    {
      hide Owned, Counted;
      ghost var live := Live();
      var o := objs[r];
      SameRefsCounted(live, rc, outside, r, o.(data := o.data[k := value]));
      objs := objs[r := o.(data := o.data[k := value])];
      assert Live() == live[r := o.(data := o.data[k := value])];
    }

    /** The slots of an object written over with references that its writer holds; the
        ones that stood there are the writer's now. */
    method Rewrite(r: Ref, o: Obj)
      requires Valid() && r in Live() && multiset(Refs(o)) <= outside + multiset(Refs(Live()[r]))
      modifies this`objs, this`outside
      ensures Valid() && r in old(Live()) && Live() == old(Live())[r := o] && objs.Keys == old(objs).Keys
      ensures outside == old(outside) + multiset(Refs(old(Live())[r])) - multiset(Refs(o))
    {
      hide Refs, Owned, Counted;
      RewriteCounted(Live(), rc, outside, r, o);
      LiveAdds(objs, limbo, r, o);
      ghost var o0 := Live()[r];
      objs := objs[r := o];
      outside := outside + multiset(Refs(o0)) - multiset(Refs(o));
    }

    /** ray_scratch_realloc: the object moved to a larger block. What it owned is the new
        block's, the old one is detached from it and freed. */
    method Move(v: Ref, addr: Ref) returns (r: Ref)
      requires Valid() && v in outside && v in Live() && (Live()[v].Vector? || Live()[v].Table?)
      requires v in rc && rc[v] == 1 && addr != NULL && addr !in objs
      modifies this
      ensures Valid() && limbo == old(limbo) && r == addr && r in outside && rc == old(rc)[addr := 1]
      ensures Live() == (old(Live()) - {v})[addr := old(Live())[v]] && objs.Keys == old(objs).Keys - {v} + {addr}
      ensures outside == old(outside) - multiset{v} + multiset{addr}
    {
      hide Owned, Refs, Counted, Detached;
      ghost var live, out0 := Live(), outside;
      var o := objs[v];
      Detach(v);
      HeldParts(out0, Refs(o));
      New(addr, o);
      r := addr;
      FreeEmpty(v);
      TakenOver(out0, Refs(o), addr, v);
      MovedMap(live, v, addr, Detached(o), o);
    }

    /** ray_detach_owned_refs: what the object owned is the writer's. */
    method Detach(v: Ref)
      requires Valid() && v in Live() && (Live()[v].Vector? || Live()[v].Table?)
      modifies this`objs, this`outside
      ensures Valid() && objs.Keys == old(objs).Keys && v in old(Live())
      ensures old(Live())[v].Vector? || old(Live())[v].Table?
      ensures Live() == old(Live())[v := Detached(old(Live())[v])] && Refs(Live()[v]) == []
      ensures outside == old(outside) + multiset(Refs(old(Live())[v]))
    {
      hide Owned, Refs, Counted, Detached;
      ghost var out0 := outside;
      var o := objs[v];
      DetachedOwnsNothing(o);
      Rewrite(v, Detached(o));
      assert outside == out0 + multiset(Refs(o)) - multiset{};
    }

    /** ray_free by the only holder of an object that owns nothing. */
    method FreeEmpty(v: Ref)
      requires Valid() && v in outside && v in Live() && v in rc && rc[v] == 1 && Refs(Live()[v]) == []
      modifies this
      ensures Valid() && limbo == old(limbo) && rc == old(rc) && Live() == old(Live()) - {v} && objs == old(objs) - {v}
      ensures outside == old(outside) - multiset{v}
    {
      hide Owned, Refs, Counted, LastGone;
      ghost var rc0, out0, limbo0 := rc, outside, limbo;
      ReleaseOne(Live(), rc, outside, v);
      rc := rc[v := 0];
      outside := outside - multiset{v};
      Pin(v);
      assert rc == rc0 && outside == out0 - multiset{v};
      Drop(v);
      assert limbo == limbo0;
    }

    /** The writer's own object, in a larger block if it is full. */
    method Own(v: Ref, addr: Ref, addr2: Ref, full: bool) returns (r: Ref)
      requires Valid() && v in outside && v in Live() && (Live()[v].Vector? || Live()[v].Table?)
      requires addr != NULL && addr2 != NULL && addr != addr2 && addr !in objs && addr2 !in objs
      modifies this
      ensures Valid() && limbo == old(limbo) && objs.Keys <= old(objs).Keys + {r} && (r == v || r == addr || r == addr2)
      ensures v in old(rc) && (r == v <==> old(rc)[v] == 1 && !full)
      ensures Live() == Rehoused(old(Live()), v, r, old(rc)[v] == 1)
      ensures outside == old(outside) - multiset{v} + multiset{r} && r in outside && r in Live() && r in rc
              && rc[r] == 1
      ensures old(rc)[v] == 1 ==> forall x :: x in old(rc) && x != r ==> x in rc && rc[x] == old(rc)[x]
    {
      hide Owned, Refs, Counted, Rehoused;
      ghost var before, rc0, out0 := Live(), rc, outside;
      OutsideLives(before, rc, outside, v);
      r := Cow(v, addr);
      if full {
        ghost var live, own := Live(), r;
        r := Move(r, addr2);
        MovedTwice(before, live, v, own, r, rc0[v] == 1);
        assert outside == out0 - multiset{v} + multiset{r};
      } else {
        MovedNot(before, v, r, rc0[v] == 1);
      }
    }

    /** The object to write to, which nobody else sees. */
    method Writable(v: Ref, addr: Ref, addr2: Ref, full: bool, ghost rank: map<Ref, nat>)
      returns (r: Ref, ghost rank': map<Ref, nat>)
      requires Valid() && v in outside && v in Live() && (Live()[v].Vector? || Live()[v].Table?) && Ranked(Live(), rank)
      requires addr != NULL && addr2 != NULL && addr != addr2 && addr !in objs && addr2 !in objs
      modifies this
      ensures Valid() && limbo == old(limbo) && objs.Keys <= old(objs).Keys + {r} && (r == v || r == addr || r == addr2)
      ensures v in old(rc) && (r == v <==> old(rc)[v] == 1 && !full)
      ensures Live() == Rehoused(old(Live()), v, r, old(rc)[v] == 1)
      ensures outside == old(outside) - multiset{v} + multiset{r} && r in outside && Unowned(Live(), r)
      ensures old(rc)[v] == 1 ==> forall x :: x in old(rc) && x != r ==> x in rc && rc[x] == old(rc)[x]
      ensures Ranked(Live(), rank') && KeepsViews(old(Live()), rank, Live(), rank', {r})
    {
      hide Owned, Refs, Counted, Ranked, KeepsViews, Rehoused;
      ghost var before, rc0, out0 := Live(), rc, outside;
      r := Own(v, addr, addr2, full);
      RehousedIs(before, v, r, rc0[v] == 1);
      SoleHolder(Live(), rc, outside, r);
      rank' := OneWritten(before, rc0, out0, Live(), rc, outside, rank, r);
    }

    /** ray_vec_append: the element goes to the end of a vector of the writer's own. */
    method VecAppend(v: Ref, addr: Ref, addr2: Ref, full: bool, value: int, ghost rank: map<Ref, nat>)
      returns (r: Ref, ghost rank': map<Ref, nat>)
      requires Valid() && v in outside && v in Live() && Live()[v].Vector? && Ranked(Live(), rank)
      requires addr != NULL && addr2 != NULL && addr != addr2 && addr !in objs && addr2 !in objs
      modifies this
      ensures Valid() && r in Live() && (r == v || r == addr || r == addr2)
      ensures v in old(rc) && (r == v <==> old(rc)[v] == 1 && !full)
      ensures v in old(Live()) && old(Live())[v].Vector?
      ensures Live() == Rehoused(old(Live()), v, r, old(rc)[v] == 1)[r := Appended(old(Live())[v], value)]
      ensures Live()[r] == old(Live())[v].(data := old(Live())[v].data + [value])
      ensures outside == old(outside) - multiset{v} + multiset{r} && r in outside && Unowned(Live(), r)
      ensures Ranked(Live(), rank') && KeepsViews(old(Live()), rank, Live(), rank', {r})
    {
      hide Owned, Refs, Counted, Ranked, KeepsViews, Unowned;
      ghost var before, rc0, out0 := Live(), rc, outside;
      r, rank' := Writable(v, addr, addr2, full, rank);
      ghost var live := Live();
      RehousedIs(before, v, r, rc0[v] == 1);
      var o := objs[r];
      DataOwnsNothing(o, o.data + [value]);
      SameRefsCounted(live, rc, outside, r, Appended(o, value));
      LiveAdds(objs, limbo, r, Appended(o, value));
      StillUnowned(live, r, Appended(o, value), r) by { NotItself(live, r, o.data + [value]); }
      objs := objs[r := Appended(o, value)];
      rank' := OneWritten(before, rc0, out0, Live(), rc, outside, rank, r);
    }

    /** Copy on write at work: the writer gets a vector with the element set, and every
        object there was before is seen by its holders as before, unless the writer was
        the only holder of the vector it wrote to. */
    method CowThenSet(v: Ref, addr: Ref, k: nat, value: int, ghost rank: map<Ref, nat>)
      returns (r: Ref, ghost rank': map<Ref, nat>)
      requires Valid() && v in outside && v in Live() && Live()[v].Vector? && k < |Live()[v].data|
      requires addr != NULL && addr !in objs && Ranked(Live(), rank)
      modifies this
      ensures Valid() && r in Live() && r in outside && rc[r] == 1
      ensures v in old(Live()) && old(Live())[v].Vector? && k < |old(Live())[v].data|
      ensures Live()[r] == old(Live())[v].(data := old(Live())[v].data[k := value])
      ensures (r == v <==> old(rc)[v] == 1) && Ranked(Live(), rank')
      ensures forall x :: x in old(Live()) && x != r ==>
                x in Live() && ViewOf(Live(), rank', x) == ViewOf(old(Live()), rank, x)
    {
      hide Owned, Refs, Counted, ViewOf, Ranked;
      ghost var before := Live();
      r := Cow(v, addr);
      SetElem(r, k, value);
      var o := Live()[r];
      SoleHolder(Live(), rc, outside, r);
      rank' := OneWritten(before, old(rc), old(outside), Live(), rc, outside, rank, r);
    }

    /** ray_table_add_col: the writer's own table, in a larger block if it is `full`, with
        the name appended to a schema of its own and the column stored and retained. Every
        object that is still there is seen by its holders as before, but for the table and
        the schema written to; gone are at most the blocks that these two moved out of,
        and only if nobody else held them. */
    method AddColumn(t: Ref, name: int, col: Ref, addrs: seq<Ref>, full: bool, schemaFull: bool,
                     ghost rank: map<Ref, nat>)
      returns (r: Ref, s: Ref, ghost rank': map<Ref, nat>)
      requires Valid() && multiset{t, col} <= outside && t in Live() && HasSchema(Live(), t) && Ranked(Live(), rank)
      requires |addrs| == 4 && Spare(addrs, objs)
      modifies this
      ensures Valid() && r in Live() && s in Live() && HasSchema(old(Live()), t)
      ensures Live()[r] == Table(s, old(Live())[t].cols + [col])
      ensures var schema := old(Live())[old(Live())[t].schema]; Live()[s] == schema.(data := schema.data + [name])
      ensures outside == old(outside) - multiset{t} + multiset{r}
      ensures t in old(rc) && old(Live())[t].schema in old(rc) && (r == t <==> old(rc)[t] == 1 && !full)
      ensures Unowned(Live(), r) && (forall y :: y in Live() && y != r ==> s !in Refs(Live()[y]))
      ensures forall x :: x in Live() && x != r && x != s ==> x in old(Live())
      ensures forall x :: x in old(Live()) && x !in Live() ==>
                  old(rc)[t] == 1 &&
                  ((x == t && full) || (x == old(Live())[t].schema && old(rc)[x] == 1 && schemaFull))
      ensures Ranked(Live(), rank') && KeepsViews(old(Live()), rank, Live(), rank', {r, s})
    {
      hide Owned, Refs, Counted, KeepsViews, Ranked, Unowned, Rehoused;
      ghost var before, rc0, out0 := Live(), rc, outside;
      TableFacts(before, rc, outside, t, col, rank);
      var schema := objs[t].schema;
      CountsOfLive(before, rc, outside, schema);
      ghost var rank1;
      r, rank1 := Writable(t, addrs[0], addrs[1], full, rank);
      ghost var live1, rc1 := Live(), rc;
      RehousedIs(before, t, r, rc0[t] == 1);
      ColumnHeld(out0, t, col, r);
      if rc0[t] != 1 { TwoOwners(live1, rc1, outside, t, r, schema); }
      s, rank' := WriteColumn(r, name, col, addrs[2], addrs[3], schemaFull, rank1);
      ViewsThen(before, rank, live1, rank1, Live(), rank', {r}, {r, s});
      assert {r} + {r, s} == {r, s};
    }

    /** The name appended to the schema, the column stored. */
    method WriteColumn(r: Ref, name: int, col: Ref, addr: Ref, addr2: Ref, full: bool, ghost rank: map<Ref, nat>)
      returns (s: Ref, ghost rank': map<Ref, nat>)
      requires Valid() && HasSchema(Live(), r) && Live()[r].schema != NULL && col in outside && col != r
      requires Unowned(Live(), r) && Ranked(Live(), rank)
      requires addr != NULL && addr2 != NULL && addr != addr2 && addr !in objs && addr2 !in objs
      modifies this
      ensures Valid() && r in Live() && s in Live() && HasSchema(old(Live()), r)
      ensures Live()[r] == Table(s, old(Live())[r].cols + [col])
      ensures Live()[s] == Appended(old(Live())[old(Live())[r].schema], name)
      ensures outside == old(outside) && old(Live())[r].schema in old(rc) && s != r
      ensures Unowned(Live(), r) && (forall y :: y in Live() && y != r ==> s !in Refs(Live()[y]))
      ensures forall x :: x in Live() && x != r && x != s ==> x in old(Live())
      ensures forall x :: x in old(Live()) && x !in Live() ==>
                x == old(Live())[r].schema && old(rc)[x] == 1 && full
      ensures Ranked(Live(), rank') && KeepsViews(old(Live()), rank, Live(), rank', {r, s})
    {
      hide Owned, Refs, Counted, Ranked, Unowned, KeepsViews;
      ghost var live1, out1 := Live(), outside;
      var schema, cols := objs[r].schema, objs[r].cols;
      SchemaApart(live1, r, schema, cols);
      InMemory(live1, rc, outside, r);
      ghost var rank3;
      s, rank3 := AppendName(r, schema, cols, name, addr, addr2, full, rank);
      ghost var live3 := Live();
      InMemory(live3, rc, outside, s);
      OutsideLives(live3, rc, outside, col);
      rank' := StoreColumn(r, s, cols, col, rank3);
      OnlyTable(live3, Live(), r, s);
      ViewsThen(live1, rank, live3, rank3, Live(), rank', {r, s}, {r});
      assert {r, s} + {r} == {r, s};
      assert outside == out1;
    }

    /** The schema out of its slot, of the writer's own and with the name at its end. */
    method AppendName(r: Ref, schema: Ref, cols: seq<Ref>, name: int, addr: Ref, addr2: Ref, full: bool,
                      ghost rank: map<Ref, nat>)
      returns (s: Ref, ghost rank': map<Ref, nat>)
      requires Valid() && r in Live() && Live()[r] == Table(schema, cols) && schema in Live() && Live()[schema].Vector?
      requires schema != NULL && schema != r && Unowned(Live(), r) && Ranked(Live(), rank)
      requires addr != NULL && addr2 != NULL && addr != addr2 && addr !in objs && addr2 !in objs
      modifies this
      ensures Valid() && r in Live() && Live()[r] == Table(NULL, cols) && s in Live() && s != r && s in outside
      ensures schema in old(Live()) && old(Live())[schema].Vector? && Live()[s] == Appended(old(Live())[schema], name)
      ensures outside == old(outside) + multiset{s} && Unowned(Live(), r) && Unowned(Live(), s)
      ensures forall x :: x in Live() && x != r && x != s ==> x in old(Live())
      ensures schema in old(rc)
      ensures forall x :: x in old(Live()) && x !in Live() ==> x == schema && old(rc)[x] == 1 && full
      ensures Ranked(Live(), rank') && KeepsViews(old(Live()), rank, Live(), rank', {r, s})
    {
      hide Owned, Refs, Counted, Ranked, Unowned, KeepsViews, Rehoused;
      ghost var live1, out1 := Live(), outside;
      ghost var rank2 := TakeSchema(r, schema, cols, rank);
      ghost var live2, rc2 := Live(), rc;
      s, rank' := VecAppend(schema, addr, addr2, full, name, rank2);
      RehousedIs(live2, schema, s, rc2[schema] == 1);
      NowUnowned(live2, Live(), schema, s, name, r);
      ViewsThen(live1, rank, live2, rank2, Live(), rank', {r}, {s});
      assert {r} + {s} == {r, s};
      assert outside == out1 + multiset{schema} - multiset{schema} + multiset{s};
    }

    /** The reference in the schema slot is the writer's until the slot is written again. */
    method TakeSchema(r: Ref, schema: Ref, cols: seq<Ref>, ghost rank: map<Ref, nat>)
      returns (ghost rank': map<Ref, nat>)
      requires Valid() && r in Live() && Live()[r] == Table(schema, cols) && schema != NULL
      requires Unowned(Live(), r) && Ranked(Live(), rank)
      modifies this`objs, this`outside
      ensures Valid() && Live() == old(Live())[r := Table(NULL, cols)] && objs.Keys == old(objs).Keys
      ensures outside == old(outside) + multiset{schema} && Unowned(Live(), r)
      ensures Ranked(Live(), rank') && KeepsViews(old(Live()), rank, Live(), rank', {r})
    {
      hide Owned, Refs, Counted, Ranked, KeepsViews, Unowned;
      ghost var before, out0 := Live(), outside;
      SchemaTaken(schema, cols, outside);
      Rewrite(r, Table(NULL, cols));
      TableOwns(before, r, schema, cols);
      StillUnowned(before, r, Table(NULL, cols), r);
      rank' := OneWritten(before, rc, out0, Live(), rc, outside, rank, r);
    }

    /** Schema and column stored, the column retained. */
    method StoreColumn(r: Ref, s: Ref, cols: seq<Ref>, col: Ref, ghost rank: map<Ref, nat>)
      returns (ghost rank': map<Ref, nat>)
      requires Valid() && r in Live() && Live()[r] == Table(NULL, cols) && s in outside && s != NULL && col in Live()
      requires r != s && r != col && Unowned(Live(), r) && Ranked(Live(), rank)
      modifies this
      ensures Valid() && r in old(Live()) && Live() == old(Live())[r := Table(s, cols + [col])]
      ensures outside == old(outside) - multiset{s} && Unowned(Live(), r)
      ensures Ranked(Live(), rank') && KeepsViews(old(Live()), rank, Live(), rank', {r})
    {
      hide Owned, Refs, Counted, Ranked, KeepsViews, Unowned;
      ghost var before, rc0, out0 := Live(), rc, outside;
      InMemory(Live(), rc, outside, col);
      Retain(col);
      ColumnStored(s, cols, col, outside);
      Rewrite(r, Table(s, cols + [col]));
      ColumnOwns(before, r, s, cols, col);
      StillUnowned(before, r, Table(s, cols + [col]), r);
      rank' := OneWritten(before, rc0, out0, Live(), rc, outside, rank, r);
    }
  }

  /** A table whose schema is a vector that is there. */
  ghost predicate HasSchema(live: Objects, t: Ref) {
    t in live && live[t].Table? && live[t].schema in live && live[live[t].schema].Vector?
  }

  function Appended(o: Obj, x: int): Obj
    requires o.Vector?
  {
    o.(data := o.data + [x])
  }

  /** What is left is unchanged, and so is what is in limbo. */
  ghost predicate Shrunk(live: Objects, live': Objects, objs: Objects, objs': Objects, limbo: set<Ref>) {
    && (forall x :: x in live' ==> x in live && live'[x] == live[x])
    && (forall x :: x in limbo && x in objs ==> x in objs' && objs'[x] == objs[x])
  }

  lemma ShrunkTrans(a: Objects, b: Objects, c: Objects, o1: Objects, o2: Objects, o3: Objects, limbo: set<Ref>)
    requires Shrunk(a, b, o1, o2, limbo) && Shrunk(b, c, o2, o3, limbo)
    ensures Shrunk(a, c, o1, o3, limbo)
  {
  }

  lemma ShrunkRefl(live: Objects, objs: Objects, limbo: set<Ref>)
    ensures Shrunk(live, live, objs, objs, limbo)
  {
  }

  lemma ShrunkSize(a: Objects, b: Objects, o1: Objects, o2: Objects, limbo: set<Ref>)
    requires Shrunk(a, b, o1, o2, limbo)
    ensures |b| <= |a|
  {
    SubMapSize(a, b);
  }

  lemma SubMapSize(a: Objects, b: Objects)
    requires forall x :: x in b ==> x in a
    ensures |b| <= |a|
  {
    assert b.Keys <= a.Keys;
    SubSetSize(b.Keys, a.Keys);
    assert |a.Keys| == |a| && |b.Keys| == |b|;
  }

  lemma {:induction false} SubSetSize(a: set<Ref>, b: set<Ref>)
    requires a <= b
    ensures |a| <= |b|
    decreases |a|
  {
    if a != {} {
      var x :| x in a;
      SubSetSize(a - {x}, b - {x});
    }
  }

  /** What is held from outside with the references from `i` on still to be released. */
  ghost function Left(kept: multiset<Ref>, refs: seq<Ref>, i: nat): multiset<Ref>
    requires i <= |refs|
  {
    kept + multiset(refs[i..])
  }

  lemma LeftStart(outside: multiset<Ref>, refs: seq<Ref>)
    requires multiset(refs) <= outside
    ensures Left(outside - multiset(refs), refs, 0) == outside
  {
    assert refs[0..] == refs;
  }

  lemma LeftStep(kept: multiset<Ref>, refs: seq<Ref>, i: nat)
    requires i < |refs|
    ensures refs[i] in Left(kept, refs, i) && Left(kept, refs, i) - multiset{refs[i]} == Left(kept, refs, i + 1)
  {
    assert refs[i..] == [refs[i]] + refs[i + 1..];
  }

  lemma LeftEnd(kept: multiset<Ref>, refs: seq<Ref>)
    ensures Left(kept, refs, |refs|) == kept
  {
  }

  lemma PlusMinus(outside: multiset<Ref>, refs: seq<Ref>)
    ensures outside + multiset(refs) - multiset(refs) == outside && multiset(refs) <= outside + multiset(refs)
  {
  }

  /** Setting an object aside, and removing one set aside. */
  lemma LimboMap(objs: Objects, limbo: set<Ref>, v: Ref)
    ensures objs - (limbo + {v}) == (objs - limbo) - {v} == (objs - {v}) - limbo
  {
  }

  lemma LiveAdds(objs: Objects, limbo: set<Ref>, x: Ref, o: Obj)
    requires limbo <= objs.Keys && (x !in objs || x !in limbo)
    ensures objs[x := o] - limbo == (objs - limbo)[x := o] && limbo <= objs[x := o].Keys
  {
  }

  lemma NotYetReferred(live: Objects, rc: Counts, outside: multiset<Ref>, x: Ref)
    requires Counted(live, rc, outside) && x !in live
    ensures Owned(live)[x] == 0 && outside[x] == 0
  {
  }

  lemma OutsideLives(live: Objects, rc: Counts, outside: multiset<Ref>, v: Ref)
    requires Counted(live, rc, outside) && v in outside
    ensures v in live && v in rc && rc[v] >= 1
  {
    assert Owned(live)[v] + outside[v] > 0;
  }

  lemma CountsOfLive(live: Objects, rc: Counts, outside: multiset<Ref>, v: Ref)
    requires Counted(live, rc, outside) && v in live
    ensures v in rc && rc[v] >= 1 && rc[v] == Owned(live)[v] + outside[v]
  {
  }

  /** The last owner of `v` is gone, and all other counts are right. */
  ghost predicate LastGone(live: Objects, rc: Counts, outside: multiset<Ref>, v: Ref) {
    && live.Keys <= rc.Keys && v in live
    && (forall x :: x in live ==> rc[x] == Owned(live)[x] + outside[x] && (x != v ==> rc[x] >= 1))
    && rc[v] == 0
    && (forall x :: Owned(live)[x] + outside[x] > 0 ==> x in live)
    && NULL !in live
  }

  /** An object being freed is nobody's, and holds what it owned from outside. */
  lemma PinnedKeeps(live: Objects, rc: Counts, outside: multiset<Ref>, v: Ref)
    requires LastGone(live, rc, outside, v)
    ensures Counted(live - {v}, rc[v := 1], outside + multiset(Refs(live[v])))
  {
    hide Refs;
    OwnedSplit(live, v);
    var rest := live - {v};
    forall x | x in rest
      ensures rc[v := 1][x] == Owned(rest)[x] + (outside + multiset(Refs(live[v])))[x] && rc[v := 1][x] >= 1
    {
      assert x in live && Owned(live)[x] == multiset(Refs(live[v]))[x] + Owned(rest)[x];
    }
    forall x | Owned(rest)[x] + (outside + multiset(Refs(live[v])))[x] > 0
      ensures x in rest
    {
      assert Owned(live)[x] == multiset(Refs(live[v]))[x] + Owned(rest)[x];
    }
  }

  lemma UncountedKeeps(live: Objects, rc: Counts, rc': Counts, outside: multiset<Ref>, x: Ref)
    requires Counted(live, rc, outside) && x !in live && rc' == rc[x := 1]
    ensures Counted(live, rc', outside)
  {
  }

  /** The references retained for a copy become the copy's own. */
  lemma CopyCounted(live: Objects, rc: Counts, outside: multiset<Ref>, x: Ref, o: Obj)
    requires Counted(live, rc, outside) && x !in live && x != NULL && x in rc && rc[x] == 1
             && multiset(Refs(o)) <= outside
    ensures Counted(live[x := o], rc, outside - multiset(Refs(o)) + multiset{x})
  {
    hide Refs;
    NotYetReferred(live, rc, outside, x);
    OwnedAdd(live, x, o);
  }

  /** One reference from outside less; the last one leaves the object without owners. */
  lemma ReleaseOne(live: Objects, rc: Counts, outside: multiset<Ref>, v: Ref)
    requires Counted(live, rc, outside) && v in outside && v in rc && rc[v] >= 1
    ensures var rc', out' := rc[v := rc[v] - 1], outside - multiset{v};
            if rc[v] == 1 then LastGone(live, rc', out', v) else Counted(live, rc', out')
  {
    hide Owned;
    OutsideLives(live, rc, outside, v);
  }

  lemma FreedShrunk(live: Objects, left: Objects, objs0: Objects, objs: Objects, limbo0: set<Ref>, v: Ref)
    requires Shrunk(live - {v}, left, objs0, objs, limbo0 + {v}) && v !in limbo0
    ensures Shrunk(live, left, objs0, objs - {v}, limbo0)
  {
  }

  /** References moved between an object's slots and its writer are counted as before. */
  lemma RewriteCounted(live: Objects, rc: Counts, outside: multiset<Ref>, r: Ref, o: Obj)
    requires Counted(live, rc, outside) && r in live && multiset(Refs(o)) <= outside + multiset(Refs(live[r]))
    ensures Counted(live[r := o], rc, outside + multiset(Refs(live[r])) - multiset(Refs(o)))
  {
    hide Refs, Owned;
    OwnedSplit(live, r);
    OwnedSplit(live[r := o], r);
    assert live[r := o] - {r} == live - {r};
    SameTotals(multiset(Refs(live[r])), multiset(Refs(o)), Owned(live - {r}), outside);
  }

  lemma SameTotals(a: multiset<Ref>, b: multiset<Ref>, rest: multiset<Ref>, outside: multiset<Ref>)
    requires b <= outside + a
    ensures forall x :: (b + rest)[x] + (outside + a - b)[x] == (a + rest)[x] + outside[x]
  {
  }

  lemma SameRefsCounted(live: Objects, rc: Counts, outside: multiset<Ref>, r: Ref, o: Obj)
    requires Counted(live, rc, outside) && r in live && Refs(o) == Refs(live[r])
    ensures Counted(live[r := o], rc, outside)
  {
    hide Refs;
    OwnedSplit(live, r);
    OwnedSplit(live[r := o], r);
    assert live[r := o] - {r} == live - {r};
  }

  lemma DataOwnsNothing(o: Obj, data: seq<int>)
    requires o.Vector?
    ensures Refs(o.(data := data)) == Refs(o)
  {
  }

  ghost predicate Unowned(live: Objects, r: Ref) { forall y :: y in live ==> r !in Refs(live[y]) }

  /** An object with a count of one held from outside is owned by no object. */
  lemma SoleHolder(live: Objects, rc: Counts, outside: multiset<Ref>, r: Ref)
    requires Counted(live, rc, outside) && r in live && r in outside && rc[r] == 1
    ensures Unowned(live, r)
  {
    hide Refs, Owned;
    forall y | y in live
      ensures r !in Refs(live[y])
    {
      if r in Refs(live[y]) { RefCounted(live, y, r); }
    }
  }

  /** What every object outside `written` is seen as has not changed, as far as it is
      still there. */
  ghost predicate KeepsViews(before: Objects, rank: map<Ref, nat>, after: Objects, rank': map<Ref, nat>,
                             written: set<Ref>)
    requires Ranked(before, rank) && Ranked(after, rank')
  {
    forall x :: x in before && x in after && x !in written ==> ViewOf(after, rank', x) == ViewOf(before, rank, x)
  }

  lemma ViewsThen(a: Objects, rank: map<Ref, nat>, b: Objects, rank': map<Ref, nat>, c: Objects, rank'': map<Ref, nat>,
                  first: set<Ref>, second: set<Ref>)
    requires Ranked(a, rank) && Ranked(b, rank') && Ranked(c, rank'')
    requires KeepsViews(a, rank, b, rank', first) && KeepsViews(b, rank', c, rank'', second)
    requires forall x :: x in c && x !in second ==> x in b
    ensures KeepsViews(a, rank, c, rank'', first + second)
  {
    hide ViewOf, Ranked;
  }

  /** Writing an object that no other owns, and dropping objects, is seen by nobody. */
  lemma OneWritten(before: Objects, rc0: Counts, out0: multiset<Ref>,
                   after: Objects, rc: Counts, outside: multiset<Ref>,
                   rank: map<Ref, nat>, r: Ref) returns (rank': map<Ref, nat>)
    requires Counted(before, rc0, out0) && Counted(after, rc, outside) && Ranked(before, rank) && Unowned(after, r)
    requires forall y :: y in after && y != r ==> y in before && after[y] == before[y]
    ensures Ranked(after, rank') && KeepsViews(before, rank, after, rank', {r})
  {
    hide Refs, Owned, Counted, ViewOf;
    var top := TopRank(before, rank);
    rank' := map y | y in after :: if y == r then top + 1 else RankOf(rank, y);
    forall x, z | x in after && z in Refs(after[x]) && z in after
      ensures x in rank' && z in rank' && rank'[z] < rank'[x]
    {
      assert z != r;
      if x != r { assert rank[z] < rank[x]; }
    }
    var written := before.Keys - after.Keys + {r};
    forall y, z | y in before && y !in written && z in Refs(before[y])
      ensures z in before && z !in written
    {
      assert after[y] == before[y];
      NothingDangles(after, rc, outside, y, z);
    }
    forall x | x in before && x in after && x != r
      ensures ViewOf(after, rank', x) == ViewOf(before, rank, x)
    {
      UnownedUnseen(before, after, rank, rank', written, x);
    }
  }

  /** Nobody owns `r` after `w` is written with what does not own it either. */
  lemma StillUnowned(live: Objects, w: Ref, o: Obj, r: Ref)
    requires Unowned(live, r) && r !in Refs(o)
    ensures Unowned(live[w := o], r)
  {
    hide Refs;
  }

  // ----- moved to a larger block -----

  /** What is left in a block whose references have been taken over. */
  function Detached(o: Obj): (d: Obj)
    requires o.Vector? || o.Table?
  {
    if o.Vector? then Vector(NULL, NULL, o.data) else Table(NULL, seq(|o.cols|, _ => NULL))
  }

  lemma {:induction false} NoneNonNull(s: seq<Ref>)
    requires forall i :: 0 <= i < |s| ==> s[i] == NULL
    ensures NonNull(s) == []
  {
    if s != [] { NoneNonNull(s[1..]); }
  }

  lemma DetachedOwnsNothing(o: Obj)
    requires o.Vector? || o.Table?
    ensures Refs(Detached(o)) == [] && multiset(Refs(Detached(o))) == multiset{}
  {
    if o.Vector? { NoneNonNull([NULL, NULL]); } else { NoneNonNull([NULL] + Detached(o).cols); }
  }

  /** The object of `v` at `r`: where it was, or at a new place, which its only holder
      leaves the old one for. */
  ghost function Rehoused(live: Objects, v: Ref, r: Ref, sole: bool): Objects
    requires v in live
  {
    (if sole && r != v then live - {v} else live)[r := live[v]]
  }

  lemma HeldParts(outside: multiset<Ref>, refs: seq<Ref>)
    ensures multiset(refs) <= outside + multiset(refs)
  {
  }

  lemma TakenOver(outside: multiset<Ref>, refs: seq<Ref>, addr: Ref, v: Ref)
    requires v in outside
    ensures outside + multiset(refs) - multiset(refs) + multiset{addr} - multiset{v} ==
            outside - multiset{v} + multiset{addr}
  {
  }

  lemma MovedMap(live: Objects, v: Ref, addr: Ref, d: Obj, o: Obj)
    requires v in live && addr != v
    ensures live[v := d][addr := o] - {v} == (live - {v})[addr := o]
  {
  }

  lemma MovedTwice(before: Objects, live: Objects, v: Ref, own: Ref, r: Ref, sole: bool)
    requires v in before && own in live && live[own] == before[v] && r != own && r != v
    requires live == if sole then before else before[own := before[v]]
    requires if sole then own == v else own != v && own !in before
    ensures (live - {own})[r := live[own]] == Rehoused(before, v, r, sole)
  {
  }

  lemma MovedNot(before: Objects, v: Ref, r: Ref, sole: bool)
    requires v in before && (sole <==> r == v)
    ensures Rehoused(before, v, r, sole) == if sole then before else before[r := before[v]]
  {
  }

  lemma RehousedIs(live: Objects, v: Ref, r: Ref, sole: bool)
    requires v in live
    ensures var u := Rehoused(live, v, r, sole);
            && r in u && u[r] == live[v] && (forall x :: x in u && x != r ==> x in live && u[x] == live[x])
            && (forall x :: x in live && x !in u ==> x == v && sole && r != v)
  {
  }

  // ----- a column added to a table -----

  lemma {:induction false} NonNullBoth(s: seq<Ref>, t: seq<Ref>)
    ensures NonNull(s + t) == NonNull(s) + NonNull(t)
  {
    if s == [] {
      assert s + t == t;
    } else {
      assert (s + t)[1..] == s[1..] + t;
      NonNullBoth(s[1..], t);
    }
  }

  /** The references of a table: its schema's and its columns'. */
  lemma TableRefs(s: Ref, cols: seq<Ref>)
    ensures Refs(Table(s, cols)) == (if s == NULL then [] else [s]) + NonNull(cols)
    ensures multiset(Refs(Table(s, cols))) == (if s == NULL then multiset{} else multiset{s}) + multiset(NonNull(cols))
  {
    assert ([s] + cols)[1..] == cols;
  }

  lemma SchemaTaken(s: Ref, cols: seq<Ref>, outside: multiset<Ref>)
    requires s != NULL
    ensures multiset(Refs(Table(NULL, cols))) <= outside + multiset(Refs(Table(s, cols)))
    ensures outside + multiset(Refs(Table(s, cols))) - multiset(Refs(Table(NULL, cols))) == outside + multiset{s}
  {
    TableRefs(NULL, cols);
    TableRefs(s, cols);
  }

  lemma ColumnRefs(s: Ref, cols: seq<Ref>, col: Ref)
    requires s != NULL && col != NULL
    ensures multiset(Refs(Table(s, cols + [col]))) == multiset(Refs(Table(NULL, cols))) + multiset{s, col}
  {
    TableRefs(NULL, cols);
    TableRefs(s, cols + [col]);
    NonNullBoth(cols, [col]);
  }

  lemma ColumnStored(s: Ref, cols: seq<Ref>, col: Ref, held: multiset<Ref>)
    requires s != NULL && col != NULL && s in held && col in held && (s == col ==> held[s] >= 2)
    ensures var o0, o := Table(NULL, cols), Table(s, cols + [col]);
            && multiset(Refs(o)) <= held + multiset(Refs(o0))
            && held + multiset(Refs(o0)) - multiset(Refs(o)) == held - multiset{col} - multiset{s}
  {
    ColumnRefs(s, cols, col);
  }

  lemma InMemory(live: Objects, rc: Counts, outside: multiset<Ref>, x: Ref)
    requires Counted(live, rc, outside) && x in live
    ensures x != NULL
  {
  }

  lemma TableFacts(live: Objects, rc: Counts, outside: multiset<Ref>, t: Ref, col: Ref, rank: map<Ref, nat>)
    requires Counted(live, rc, outside) && HasSchema(live, t) && Ranked(live, rank) && multiset{t, col} <= outside
    ensures live[t].schema != NULL && live[t].schema != t && col in live && col != NULL && t in outside
    ensures t in rc && (rc[t] == 1 ==> col != t)
  {
    hide Refs, Owned;
    assert col in outside && t in outside;
    OutsideLives(live, rc, outside, col);
    OutsideLives(live, rc, outside, t);
    TableRefs(live[t].schema, live[t].cols);
    assert live[t] == Table(live[t].schema, live[t].cols);
    assert live[t].schema in Refs(live[t]);
  }

  lemma TableOwns(live: Objects, r: Ref, schema: Ref, cols: seq<Ref>)
    requires r in live && live[r] == Table(schema, cols) && Unowned(live, r)
    ensures r !in Refs(Table(NULL, cols))
  {
    hide Refs;
    TableRefs(NULL, cols);
    TableRefs(schema, cols);
    assert r !in Refs(live[r]);
  }

  lemma ColumnOwns(live: Objects, r: Ref, s: Ref, cols: seq<Ref>, col: Ref)
    requires r in live && live[r] == Table(NULL, cols) && Unowned(live, r) && r != s && r != col && s != NULL
             && col != NULL
    ensures r !in Refs(Table(s, cols + [col]))
  {
    hide Refs;
    ColumnRefs(s, cols, col);
    assert r !in Refs(live[r]);
    assert r !in multiset(Refs(Table(s, cols + [col])));
  }

  ghost predicate Spare(addrs: seq<Ref>, objs: Objects) {
    && (forall i :: 0 <= i < |addrs| ==> addrs[i] != NULL && addrs[i] !in objs)
    && forall i, j :: 0 <= i < j < |addrs| ==> addrs[i] != addrs[j]
  }

  /** The schema of a table that has been copied is that of both. */
  lemma TwoOwners(live: Objects, rc: Counts, outside: multiset<Ref>, t: Ref, r: Ref, schema: Ref)
    requires Counted(live, rc, outside) && t != r && t in live && r in live && live[t] == live[r] && live[t].Table?
    requires live[t].schema == schema != NULL
    ensures schema in rc && rc[schema] >= 2
  {
    hide Refs;
    var o := live[t];
    TableRefs(schema, o.cols);
    assert o == Table(schema, o.cols) && schema in Refs(o);
    OwnedSplit(live, t);
    OwnedSplit(live - {t}, r);
    NothingDangles(live, rc, outside, t, schema);
  }

  /** The schema of a table nobody owns is another object. */
  lemma SchemaApart(live: Objects, r: Ref, schema: Ref, cols: seq<Ref>)
    requires r in live && live[r] == Table(schema, cols) && schema != NULL && Unowned(live, r)
    ensures schema != r
  {
    hide Refs;
    TableRefs(schema, cols);
    assert r !in Refs(live[r]);
  }

  lemma NotItself(live: Objects, r: Ref, data: seq<int>)
    requires Unowned(live, r) && r in live && live[r].Vector?
    ensures r !in Refs(live[r].(data := data))
  {
    DataOwnsNothing(live[r], data);
    assert r !in Refs(live[r]);
  }

  lemma NowUnowned(live: Objects, after: Objects, schema: Ref, s: Ref, name: int, r: Ref)
    requires Unowned(live, r) && schema in live && live[schema].Vector? && s in after
             && after[s] == Appended(live[schema], name)
    requires forall y :: y in after && y != s ==> y in live && after[y] == live[y]
    ensures Unowned(after, r)
  {
    DataOwnsNothing(live[schema], live[schema].data + [name]);
    assert r !in Refs(live[schema]);
  }

  lemma ColumnHeld(out0: multiset<Ref>, t: Ref, col: Ref, r: Ref)
    requires multiset{t, col} <= out0
    ensures col in out0 - multiset{t} + multiset{r}
  {
    if t == col { assert out0[t] >= 2; }
  }

  lemma OnlyTable(live: Objects, after: Objects, r: Ref, s: Ref)
    requires Unowned(live, s) && forall y :: y in after && y != r ==> y in live && after[y] == live[y]
    ensures forall y :: y in after && y != r ==> s !in Refs(after[y])
  {
    hide Refs;
  }

  lemma {:induction false} PathKept(live: Objects, left: Objects, rc: Counts, outside: multiset<Ref>, path: seq<Ref>,
                                    x: Ref)
    requires Counted(left, rc, outside) && (forall y :: y in left ==> y in live && left[y] == live[y])
    requires Path(live, outside, path, x)
    ensures x in left
    decreases |path|
  {
    hide Refs, Owned;
    if |path| == 1 {
      OutsideLives(left, rc, outside, x);
    } else {
      var y := path[|path| - 2];
      PathKept(live, left, rc, outside, path[..|path| - 1], y);
      NothingDangles(left, rc, outside, y, x);
    }
  }

  lemma {:induction false} PathBefore(live: Objects, left: Objects, outside: multiset<Ref>, path: seq<Ref>, x: Ref)
    requires (forall y :: y in left ==> y in live && left[y] == live[y]) && Path(left, outside, path, x)
    ensures Path(live, outside, path, x)
    decreases |path|
  {
    hide Refs;
    if |path| > 1 { PathBefore(live, left, outside, path[..|path| - 1], path[|path| - 2]); }
  }

  /** What is left of a graph is what its holders still reach in it. */
  lemma StillReached(live: Objects, left: Objects, rc: Counts, outside: multiset<Ref>, rank: map<Ref, nat>)
    requires Counted(left, rc, outside) && Ranked(live, rank)
             && (forall y :: y in left ==> y in live && left[y] == live[y])
    ensures forall x :: x in live ==> (x in left <==> Reachable(live, outside, x))
  {
    hide Refs, Owned, Counted;
    LiveIsReachable(left, rc, outside, rank);
    forall x | x in live
      ensures x in left <==> Reachable(live, outside, x)
    {
      if x in left {
        assert Reachable(left, outside, x);
        var path :| Path(left, outside, path, x);
        PathBefore(live, left, outside, path, x);
      }
      if Reachable(live, outside, x) {
        var path :| Path(live, outside, path, x);
        PathKept(live, left, rc, outside, path, x);
      }
    }
  }
}
