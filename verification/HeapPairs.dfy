/** What a caller can check before a collection: whether two buddies stand on the heap's
    lists in a pool it gives back from. Without such a pair every walk keeps to its list;
    with one, some order of the lists leads a walk astray. */
module HeapPairs {
  import opened Tiles
  import opened FreeLists
  import opened HeapModel
  import opened HeapSteps
  import opened HeapBytes
  import opened HeapMerge
  import opened HeapReturn
  import opened Options

  /** `y` stands right behind `x`. */
  predicate Adjacent(s: seq<nat>, x: nat, y: nat) {
    |s| >= 2 && ((s[0] == x && s[1] == y) || Adjacent(s[1..], x, y))
  }

  lemma {:induction false} AdjacentIn(s: seq<nat>, x: nat, y: nat)
    requires Adjacent(s, x, y)
    ensures x in s && y in s[1..]
  {
    if !(s[0] == x && s[1] == y) { AdjacentIn(s[1..], x, y); }
  }

  lemma {:induction false} AdjacentWithout(s: seq<nat>, x: nat, y: nat, b: nat)
    requires Adjacent(s, x, y) && b != x && b != y
    ensures Adjacent(Without(s, b), x, y)
  {
    if s[0] == b {
    } else if s[0] == x && s[1] == y {
      assert Without(s, b)[1..] == Without(s[1..], b);
    } else {
      AdjacentWithout(s[1..], x, y, b);
      assert Without(s, b)[1..] == Without(s[1..], b);
    }
  }

  lemma AdjacentBehind(s: seq<nat>, x: nat, y: nat, v: nat)
    requires Adjacent(s, x, y)
    ensures Adjacent([v] + s, x, y)
  {
    assert ([v] + s)[1..] == s;
  }

  /** Two free buddies of order `o` on the list of heap `h`, one right behind the other. */
  ghost predicate Tight(m: Mem, h: nat, x: nat, y: nat, o: nat) {
    && IsPair(m, h, x, y) && m.g.ord[x] == o && Head(h, o) in m.lists && Adjacent(m.lists[Head(h, o)], x, y)
  }

  /** Nobody's buddy but each other's. */
  lemma NotTheirs(m: Mem, h: nat, x: nat, y: nat, v: nat)
    requires Sound(m) && IsPair(m, h, x, y) && BelowTop(m, v) && v != x && v != y && BuddyAt(m, v) in m.g.ord
    requires m.g.ord[BuddyAt(m, v)] == m.g.ord[v]
    ensures BuddyAt(m, v) != x && BuddyAt(m, v) != y
  {
    hide Sound, BuddyOf;
    BuddyPair(m, v);
    BuddyPair(m, x);
    BuddyBack(m, v);
    BuddyBack(m, x);
  }

  lemma JoinTight(m: Mem, w: nat, v: nat, h: nat, x: nat, y: nat, o: nat)
    requires Sound(m) && OnlyHeld(m.g, v) && w in m.avail && Mergeable(m, v) && Tight(m, h, x, y, o)
    ensures Tight(JoinedWith(m, w, v), h, x, y, o)
  {
    hide Sound, BuddyOf, Without, Adjacent, TakenOff;
    var b, hd := BuddyAt(m, v), Head(h, o);
    HeldPlace(m.g, v);
    NotTheirs(m, h, x, y, v);
    TakenGround(m, b, w);
    AdjacentWithout(m.lists[hd], x, y, b);
    KeysAgree(m);
    JoinOther(m, w, v, x);
    JoinOther(m, w, v, y);
  }

  lemma JoinOther(m: Mem, w: nat, v: nat, a: nat)
    requires Sound(m) && w in m.avail && Mergeable(m, v) && a != v && a != BuddyAt(m, v) && a in m.g.ord && a in m.g.st
             && a in m.g.home
    ensures var u := JoinedWith(m, w, v).g;
            a in u.ord && a in u.st && a in u.home && u.ord[a] == m.g.ord[a] && u.st[a] == m.g.st[a]
              && u.home[a] == m.g.home[a]
  {
    hide Sound, BuddyOf, TakenOff, Pow2;
    BuddyPair(m, v);
    TakenGround(m, BuddyAt(m, v), w);
  }

  lemma ListedTight(m: Mem, w: nat, v: nat, h: nat, x: nat, y: nat, o: nat)
    requires OnlyHeld(m.g, v) && Tight(m, h, x, y, o)
    ensures Tight(Listed(m, w, v), h, x, y, o)
  {
    hide BuddyOf, Adjacent;
    HeldPlace(m.g, v);
    AdjacentBehind(m.lists[Head(h, o)], x, y, v);
  }

  lemma {:induction false} MergedTight(m: Mem, w: nat, v: nat, h: nat, x: nat, y: nat, o: nat)
    requires Sound(m) && HeadersOK(m.g, m.pools) && OnlyHeld(m.g, v) && w in m.avail && Tight(m, h, x, y, o)
    ensures Tight(Merged(m, w, v), h, x, y, o)
    decreases if v in m.g.ord then MAX_ORDER - m.g.ord[v] else 0
  {
    hide Sound, HeadersOK, OnlyHeld, Tight, JoinedWith, Low, Listed, FreeAt, BuddyAt, SameUsed, Grown;
    if Mergeable(m, v) {
      JoinKeeps(m, w, v);
      JoinRest(m, w, v);
      JoinTight(m, w, v, h, x, y, o);
      MergedTight(JoinedWith(m, w, v), w, Low(m, v), h, x, y, o);
    } else {
      ListedTight(m, w, v, h, x, y, o);
    }
  }

  lemma TakenTight(m: Mem, v: nat, h: nat, x: nat, y: nat, o: nat)
    requires Settled(m) && Tight(m, h, x, y, o) && v in m.g.ord && v in m.g.st && m.g.st[v].Free? && v != x && v != y
             && h in m.avail
    ensures Head(m.g.st[v].h, m.g.ord[v]) in m.lists && Tight(TakenOff(m, v, h), h, x, y, o)
  {
    hide Settled, BuddyOf, Without, Adjacent, TakenOff;
    FreeIsListed(m, v) by { SettledParts(m); }
    TakenGround(m, v, h);
    AdjacentWithout(m.lists[Head(h, o)], x, y, v);
  }

  lemma SentTight(m: Mem, h: nat, registry: set<nat>, v: nat, x: nat, y: nat, o: nat)
    requires Settled(m) && Sendable(m, h, registry, v) && registry <= m.avail.Keys && Tight(m, h, x, y, o) && v != x
             && v != y
    ensures Tight(Sent(m, h, registry, v), h, x, y, o)
  {
    hide Settled, Tight, TakenOff, Merged, Sound, HeadersOK, OnlyHeld, SameUsed;
    TakenOnly(m, v, h);
    TakenTight(m, v, h, x, y, o);
    MergedTight(TakenOff(m, v, h), OwnerOf(m, v), v, h, x, y, o);
  }

  /** Walks over the lists of lower orders leave the pair where it is. */
  lemma {:induction false} WalkTight(m: Mem, h: nat, registry: set<nat>, j: nat, done: seq<nat>, todo: seq<nat>,
                                     x: nat, y: nat, o: nat)
    requires Settled(m) && registry <= m.avail.Keys && AtList(m, h, j, done, todo) && j < o && Tight(m, h, x, y, o)
    ensures var n := Walk(m, h, registry, todo);
            n.Some? ==> Settled(n.value) && SameRest(m, n.value) && Tight(n.value, h, x, y, o)
    decreases |todo|
  {
    hide Settled, AtList, Sent, Sendable, Rest, BuddyAhead, SameUsed, Grown, Tight;
    if todo != [] {
      var v := todo[0];
      AtIsListed(m, h, j, done, todo);
      assert v in todo;
      PairOrder(m, h, x, y, o);
      if !Sendable(m, h, registry, v) {
        Passed(m, h, j, done, todo);
        WalkTight(m, h, registry, j, done + [v], todo[1..], x, y, o);
      } else if !BuddyAhead(m, v, todo[1..]) {
        var u := Sent(m, h, registry, v);
        SentKeeps(m, h, registry, v);
        SentTight(m, h, registry, v, x, y, o);
        SentList(m, h, registry, j, done, todo);
        RestShorter(m, v, todo[1..]);
        WalkTight(u, h, registry, j, DoneAfter(m, h, registry, v, done), Rest(m, v, todo[1..]), x, y, o);
        var n := Walk(m, h, registry, todo);
        if n.Some? { RestTrans(m, u, n.value); }
      }
    }
  }

  lemma PairOrder(m: Mem, h: nat, x: nat, y: nat, o: nat)
    requires Tight(m, h, x, y, o)
    ensures IsFree(m.g, x, h, o) && IsFree(m.g, y, h, o) && BelowTop(m, x) && BuddyAt(m, x) == y
  {
    hide BuddyOf;
  }

  /** The walk over the pair's own list is led astray, by this pair or before it. */
  lemma {:induction false} WalkTrips(m: Mem, h: nat, registry: set<nat>, done: seq<nat>, todo: seq<nat>, x: nat,
                                     y: nat, o: nat)
    requires Settled(m) && registry <= m.avail.Keys && AtList(m, h, o, done, todo)
    requires Tight(m, h, x, y, o) && Returnable(m, h, registry, x) && Adjacent(todo, x, y)
    ensures Walk(m, h, registry, todo).None?
    decreases |todo|
  {
    hide Settled, AtList, Sent, Rest, BelowTop, BuddyAt, SameUsed, Grown, Tight, Sendable;
    var v := todo[0];
    AtIsListed(m, h, o, done, todo);
    assert v in todo;
    PairOrder(m, h, x, y, o);
    if v == x {
      FirstAdjacent(todo, x, y);
      AwaySendable(m, h, registry, x);
    } else {
      LaterAdjacent(todo, x, y);
      if !Sendable(m, h, registry, v) {
        Passed(m, h, o, done, todo);
        WalkTrips(m, h, registry, done + [v], todo[1..], x, y, o);
      } else if !BuddyAhead(m, v, todo[1..]) {
        TripsLater(m, h, registry, done, todo, x, y, o);
        RestShorter(m, v, todo[1..]);
        WalkTrips(Sent(m, h, registry, v), h, registry, DoneAfter(m, h, registry, v, done), Rest(m, v, todo[1..]),
                  x, y, o);
      }
    }
  }

  /** The turn of a block in front of the pair. */
  lemma TripsLater(m: Mem, h: nat, registry: set<nat>, done: seq<nat>, todo: seq<nat>, x: nat, y: nat, o: nat)
    requires Settled(m) && registry <= m.avail.Keys && AtList(m, h, o, done, todo) && todo != []
    requires Tight(m, h, x, y, o) && Returnable(m, h, registry, x) && Adjacent(todo[1..], x, y)
    requires Sendable(m, h, registry, todo[0]) && todo[0] != x && todo[0] != y && IsFree(m.g, todo[0], h, o)
    ensures var u, v := Sent(m, h, registry, todo[0]), todo[0];
            && Settled(u) && registry <= u.avail.Keys && Tight(u, h, x, y, o) && Returnable(u, h, registry, x)
            && Adjacent(Rest(m, v, todo[1..]), x, y)
            && AtList(u, h, o, DoneAfter(m, h, registry, v, done), Rest(m, v, todo[1..]))
  {
    hide Settled, Sound, AtList, Sent, SameUsed, Grown, Tight, Sendable, Adjacent, BuddyOf, Without;
    var v := todo[0];
    var u := Sent(m, h, registry, v);
    SentKeeps(m, h, registry, v);
    SentTight(m, h, registry, v, x, y, o);
    SentList(m, h, registry, o, done, todo);
    SettledParts(m);
    SettledParts(u);
    StaysAway(m, u, h, registry, x, y, o);
    if BelowTop(m, v) { RestAdjacent(m, h, todo[1..], v, x, y, o); }
  }

  lemma StaysAway(m: Mem, u: Mem, h: nat, registry: set<nat>, x: nat, y: nat, o: nat)
    requires Sound(m) && Sound(u) && Tight(m, h, x, y, o) && Tight(u, h, x, y, o) && SameRest(m, u)
    requires Returnable(m, h, registry, x)
    ensures Returnable(u, h, registry, x)
  {
    hide Sound, BuddyOf, Adjacent, Pow2;
    HomeFacts(m, x);
    HomeFacts(u, x);
  }

  lemma RestAdjacent(m: Mem, h: nat, s: seq<nat>, v: nat, x: nat, y: nat, o: nat)
    requires Sound(m) && Tight(m, h, x, y, o) && BelowTop(m, v) && v != x && v != y && m.g.ord[v] == o
             && Adjacent(s, x, y)
    ensures Adjacent(Without(s, BuddyAt(m, v)), x, y)
  {
    hide Sound, BuddyOf, Adjacent, Without;
    var b := BuddyAt(m, v);
    if b in m.g.ord && m.g.ord[b] == o { NotTheirs(m, h, x, y, v); }
    AdjacentWithout(s, x, y, b);
  }

  lemma FirstAdjacent(s: seq<nat>, x: nat, y: nat)
    requires Distinct(s) && Adjacent(s, x, y) && s[0] == x
    ensures |s| > 1 && s[1] == y
  {
    if s[1] != y { AdjacentIn(s[1..], x, y); }
  }

  lemma LaterAdjacent(s: seq<nat>, x: nat, y: nat)
    requires Distinct(s) && Adjacent(s, x, y) && s[0] != x
    ensures Adjacent(s[1..], x, y) && s[0] != y
  {
    AdjacentIn(s, x, y);
  }

  /** A pair one right behind the other leads the walks astray. */
  lemma {:induction false} WalksTrip(m: Mem, h: nat, registry: set<nat>, j: nat, x: nat, y: nat, o: nat)
    requires Settled(m) && h in m.avail && registry <= m.avail.Keys && j <= o <= MAX_ORDER
    requires Tight(m, h, x, y, o) && Returnable(m, h, registry, x)
    ensures Walks(m, h, registry, j).None?
    decreases o - j
  {
    hide Settled, Tight, Walk, ListOf, AtList, SameUsed, Returnable, Adjacent;
    ListThere(m, h, j);
    var n := Walk(m, h, registry, ListOf(m, h, j));
    if j == o {
      TightList(m, h, x, y, o);
      WalkTrips(m, h, registry, [], ListOf(m, h, j), x, y, o);
    } else {
      WalkTight(m, h, registry, j, [], ListOf(m, h, j), x, y, o);
      if n.Some? {
        StaysAway(m, n.value, h, registry, x, y, o) by { SettledParts(m); SettledParts(n.value); }
        WalksTrip(n.value, h, registry, j + 1, x, y, o);
      }
    }
  }

  lemma TightList(m: Mem, h: nat, x: nat, y: nat, o: nat)
    requires Tight(m, h, x, y, o)
    ensures Adjacent(ListOf(m, h, o), x, y)
  {
    hide BuddyOf, Adjacent;
  }

  // ----- the same blocks in another order -----

  ghost predicate Reordered(lists: Lists, l: Lists) {
    && l.Keys == lists.Keys
    && forall n :: n in lists ==> Distinct(l[n]) && forall x: nat :: x in l[n] <==> x in lists[n]
  }

  lemma ReorderedSettled(m: Mem, l: Lists)
    requires Settled(m) && Reordered(m.lists, l)
    ensures Settled(m.(lists := l))
  {
    hide TilesOK, Canonical, HeadersOK, NothingHeld, SlabsOK, ForeignOK, BytesOK;
    ReorderedLists(m.lists, l, m.g);
    ReorderedAvail(m.avail, m.lists, l);
  }

  lemma ReorderedLists(lists: Lists, l: Lists, g: Ground)
    requires ListsOK(lists, g) && Reordered(lists, l)
    ensures ListsOK(l, g)
  {
  }

  lemma ReorderedAvail(avail: map<nat, set<nat>>, lists: Lists, l: Lists)
    requires AvailOK(avail, lists) && Reordered(lists, l)
    ensures AvailOK(avail, l)
  {
    forall h, o | Head(h, o) in l && l[Head(h, o)] != []
      ensures lists[Head(h, o)] != []
    {
      assert l[Head(h, o)][0] in l[Head(h, o)];
    }
  }

  /** The list with `x` and `y` brought to the front. */
  lemma InFront(s: seq<nat>, x: nat, y: nat) returns (t: seq<nat>)
    requires Distinct(s) && x in s && y in s && x != y
    ensures Distinct(t) && (forall v: nat :: v in t <==> v in s) && Adjacent(t, x, y)
  {
    hide Without, Distinct;
    var r := Without(s, x);
    WithoutMembers(s, x);
    var q := Without(r, y);
    WithoutMembers(r, y);
    t := [x, y] + q;
    FrontDistinct(x, y, q);
  }

  lemma FrontDistinct(x: nat, y: nat, q: seq<nat>)
    requires Distinct(q) && x !in q && y !in q && x != y
    ensures Distinct([x, y] + q)
  {
  }

  /** Exactly when the walks keep to their lists in whatever order the blocks stand on
      them: no two buddies of a pool to be given back from are on the heap's lists. */
  lemma KeptExactly(m: Mem, h: nat, registry: set<nat>)
    requires Settled(m) && h in m.avail && registry <= m.avail.Keys
    ensures NoPair(m, h, registry) <==>
            forall l: Lists :: Reordered(m.lists, l) ==> Walks(m.(lists := l), h, registry, ORDER_MIN).Some?
  {
    hide Settled, Walks, NoPair, Reordered;
    if NoPair(m, h, registry) {
      forall l: Lists | Reordered(m.lists, l)
        ensures Walks(m.(lists := l), h, registry, ORDER_MIN).Some?
      {
        ReorderedSettled(m, l);
        NoPairReordered(m, l, h, registry);
        WalksKept(m.(lists := l), h, registry, ORDER_MIN);
      }
    } else {
      var l := PairTogether(m, h, registry);
    }
  }

  lemma NoPairReordered(m: Mem, l: Lists, h: nat, registry: set<nat>)
    requires NoPair(m, h, registry)
    ensures NoPair(m.(lists := l), h, registry)
  {
    hide BuddyOf;
    forall x, y | IsPair(m.(lists := l), h, x, y)
      ensures !Returnable(m.(lists := l), h, registry, x)
    {
      assert IsPair(m, h, x, y);
    }
  }

  lemma PairTogether(m: Mem, h: nat, registry: set<nat>) returns (l: Lists)
    requires Settled(m) && h in m.avail && registry <= m.avail.Keys && !NoPair(m, h, registry)
    ensures Reordered(m.lists, l) && Walks(m.(lists := l), h, registry, ORDER_MIN).None?
  {
    hide Settled, Walks, IsPair, Distinct, Adjacent, Returnable, Sound;
    var x, y :| IsPair(m, h, x, y) && Returnable(m, h, registry, x);
    PairPlaces(m, h, x, y);
    SettledParts(m);
    OrderBound(m, x);
    var o := m.g.ord[x];
    var hd := Head(h, o);
    HasList(m, h, o);
    ListDistinct(m, hd);
    ListTold(m, h, o, x);
    ListTold(m, h, o, y);
    var t := InFront(m.lists[hd], x, y);
    l := m.lists[hd := t];
    forall n | n in m.lists
      ensures Distinct(l[n])
    {
      ListDistinct(m, n);
    }
    ReorderedSettled(m, l);
    PairReordered(m, l, h, registry, x, y, o);
    WalksTrip(m.(lists := l), h, registry, ORDER_MIN, x, y, o);
  }

  lemma PairReordered(m: Mem, l: Lists, h: nat, registry: set<nat>, x: nat, y: nat, o: nat)
    requires IsPair(m, h, x, y) && Returnable(m, h, registry, x) && m.g.ord[x] == o
    requires Head(h, o) in l && Adjacent(l[Head(h, o)], x, y)
    ensures Tight(m.(lists := l), h, x, y, o) && Returnable(m.(lists := l), h, registry, x)
  {
    hide BuddyOf, Adjacent;
  }
}
