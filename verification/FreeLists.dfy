/** Free lists as the allocator keeps them: circular doubly linked lists through the
    free blocks themselves, one sentinel per heap and order. A block can be unlinked
    without knowing which list holds it. */
module FreeLists {

  datatype Node = Head(heap: nat, order: nat) | Block(addr: nat)

  type Links = map<Node, Node>

  type Lists = map<Node, seq<nat>>

  /** The node after position i of the list under `hd`; the sentinel closes the ring. */
  function After(hd: Node, s: seq<nat>, i: nat): Node
  {
    if i + 1 < |s| then Block(s[i + 1]) else hd
  }

  function Before(hd: Node, s: seq<nat>, i: nat): Node
    requires i <= |s|
  {
    if i > 0 then Block(s[i - 1]) else hd
  }

  ghost predicate Ring(next: Links, prev: Links, hd: Node, s: seq<nat>) {
    && hd in next && next[hd] == (if s == [] then hd else Block(s[0]))
    && hd in prev && prev[hd] == Before(hd, s, |s|)
    && (forall i :: 0 <= i < |s| ==> Block(s[i]) in next && next[Block(s[i])] == After(hd, s, i))
    && (forall i :: 0 <= i < |s| ==> Block(s[i]) in prev && prev[Block(s[i])] == Before(hd, s, i))
  }

  lemma RingAt(next: Links, prev: Links, hd: Node, s: seq<nat>, i: nat)
    requires Ring(next, prev, hd, s) && i < |s|
    ensures Block(s[i]) in next && next[Block(s[i])] == After(hd, s, i)
    ensures Block(s[i]) in prev && prev[Block(s[i])] == Before(hd, s, i)
  {
  }

  lemma RingEnds(next: Links, prev: Links, hd: Node, s: seq<nat>)
    requires Ring(next, prev, hd, s)
    ensures hd in next && next[hd] == (if s == [] then hd else Block(s[0]))
    ensures hd in prev && prev[hd] == Before(hd, s, |s|)
  {
  }

  ghost predicate Distinct(s: seq<nat>) {
    forall i, j :: 0 <= i < j < |s| ==> s[i] != s[j]
  }

  /** No block is in two places. */
  ghost predicate Separate(lists: Lists) {
    && (forall hd :: hd in lists ==> Distinct(lists[hd]))
    && (forall h1, h2, a :: h1 in lists && h2 in lists && a in lists[h1] && a in lists[h2] ==> h1 == h2)
  }

  ghost predicate Linked(next: Links, prev: Links, lists: Lists) {
    && (forall hd :: hd in lists ==> hd.Head? && Ring(next, prev, hd, lists[hd]))
    && Separate(lists)
  }

  /** A ring is unaffected by changes to links of nodes outside it. */
  lemma RingFrame(next: Links, prev: Links, next': Links, prev': Links, hd: Node, s: seq<nat>)
    requires Ring(next, prev, hd, s)
    requires hd in next' && next'[hd] == next[hd] && hd in prev' && prev'[hd] == prev[hd]
    requires forall a :: a in s ==> Block(a) in next' && next'[Block(a)] == next[Block(a)]
    requires forall a :: a in s ==> Block(a) in prev' && prev'[Block(a)] == prev[Block(a)]
    ensures Ring(next', prev', hd, s)
  {
  }

  /** The four assignments of an insertion behind the sentinel. */
  lemma RingInsert(next: Links, prev: Links, hd: Node, s: seq<nat>, a: nat)
    requires Ring(next, prev, hd, s) && hd.Head? && a !in s && Distinct(s)
    ensures Ring(next[Block(a) := next[hd]][hd := Block(a)],
                 prev[Block(a) := hd][next[hd] := Block(a)], hd, [a] + s)
  {
    var t := [a] + s;
    var next', prev' := next[Block(a) := next[hd]][hd := Block(a)], prev[Block(a) := hd][next[hd] := Block(a)];
    forall i | 0 <= i < |t|
      ensures Block(t[i]) in next' && next'[Block(t[i])] == After(hd, t, i)
      ensures Block(t[i]) in prev' && prev'[Block(t[i])] == Before(hd, t, i)
    {
      if i > 0 { assert t[i] == s[i - 1] && s[i - 1] in s; }
    }
  }

  function Cut(s: seq<nat>, k: nat): seq<nat>
    requires k < |s|
  {
    s[..k] + s[k + 1..]
  }

  /** The two assignments of an unlinking, forward links. */
  lemma RingCutNext(next: Links, prev: Links, hd: Node, s: seq<nat>, k: nat)
    requires Ring(next, prev, hd, s) && hd.Head? && k < |s| && Distinct(s)
    ensures var t := Cut(s, k);
            var next' := next[Before(hd, s, k) := After(hd, s, k)];
            && hd in next' && next'[hd] == (if t == [] then hd else Block(t[0]))
            && forall i :: 0 <= i < |t| ==> Block(t[i]) in next' && next'[Block(t[i])] == After(hd, t, i)
  {
    hide Ring;
    RingEnds(next, prev, hd, s);
    var t := Cut(s, k);
    forall i | 0 <= i < |t|
      ensures var next' := next[Before(hd, s, k) := After(hd, s, k)];
              Block(t[i]) in next' && next'[Block(t[i])] == After(hd, t, i)
    {
      var j := if i < k then i else i + 1;
      assert t[i] == s[j];
      RingAt(next, prev, hd, s, j);
      if i + 1 < |t| { assert t[i + 1] == s[if i + 1 < k then i + 1 else i + 2]; }
    }
    if t != [] { assert t[0] == s[if k == 0 then 1 else 0]; }
  }

  lemma RingCutPrev(next: Links, prev: Links, hd: Node, s: seq<nat>, k: nat)
    requires Ring(next, prev, hd, s) && hd.Head? && k < |s| && Distinct(s)
    ensures var t := Cut(s, k);
            var prev' := prev[After(hd, s, k) := Before(hd, s, k)];
            && hd in prev' && prev'[hd] == Before(hd, t, |t|)
            && forall i :: 0 <= i < |t| ==> Block(t[i]) in prev' && prev'[Block(t[i])] == Before(hd, t, i)
  {
    hide Ring;
    RingEnds(next, prev, hd, s);
    var t := Cut(s, k);
    forall i | 0 <= i < |t|
      ensures var prev' := prev[After(hd, s, k) := Before(hd, s, k)];
              Block(t[i]) in prev' && prev'[Block(t[i])] == Before(hd, t, i)
    {
      var j := if i < k then i else i + 1;
      assert t[i] == s[j];
      RingAt(next, prev, hd, s, j);
      if i > 0 { assert t[i - 1] == s[if i - 1 < k then i - 1 else i]; }
    }
    if t != [] { assert t[|t| - 1] == s[if k == |s| - 1 then |s| - 2 else |s| - 1]; }
  }

  function Without(s: seq<nat>, a: nat): seq<nat> {
    if s == [] then [] else if s[0] == a then s[1..] else [s[0]] + Without(s[1..], a)
  }

  lemma {:induction false} WithoutAt(s: seq<nat>, a: nat, k: nat)
    requires k < |s| && s[k] == a && Distinct(s)
    ensures Without(s, a) == Cut(s, k)
  {
    if k > 0 {
      WithoutAt(s[1..], a, k - 1);
      assert Cut(s, k) == [s[0]] + Cut(s[1..], k - 1);
    }
  }

  lemma CutMembers(s: seq<nat>, k: nat)
    requires k < |s| && Distinct(s)
    ensures Distinct(Cut(s, k))
    ensures forall x :: x in Cut(s, k) <==> x in s && x != s[k]
  {
    var t := Cut(s, k);
    forall x | x in s && x != s[k]
      ensures x in t
    {
      var i :| 0 <= i < |s| && s[i] == x;
      assert t[if i < k then i else i - 1] == x;
    }
    forall i | 0 <= i < |t|
      ensures t[i] in s && t[i] != s[k]
    {
      assert t[i] == s[if i < k then i else i + 1];
    }
  }

  /** Removing the first occurrence leaves exactly the other members. */
  lemma WithoutMembers(s: seq<nat>, a: nat)
    requires Distinct(s) && a in s
    ensures Distinct(Without(s, a))
    ensures forall x :: x in Without(s, a) <==> x in s && x != a
  {
    var k :| 0 <= k < |s| && s[k] == a;
    WithoutAt(s, a, k);
    CutMembers(s, k);
  }

  lemma SeparateInsert(lists: Lists, hd: Node, a: nat)
    requires Separate(lists) && hd in lists && forall h :: h in lists ==> a !in lists[h]
    ensures Separate(lists[hd := [a] + lists[hd]])
  {
    assert forall x :: x in [a] + lists[hd] <==> x == a || x in lists[hd];
  }

  lemma SeparateRemove(lists: Lists, hd: Node, a: nat)
    requires Separate(lists) && hd in lists && a in lists[hd]
    ensures Separate(lists[hd := Without(lists[hd], a)])
  {
    WithoutMembers(lists[hd], a);
  }

  /** Changing links of one list's nodes leaves every other list as it is. */
  lemma OthersFrame(next: Links, prev: Links, next': Links, prev': Links, lists: Lists, hd: Node, touched: seq<nat>)
    requires Linked(next, prev, lists) && hd in lists
    requires forall h :: h in lists && h != hd ==> forall a :: a in touched ==> a !in lists[h]
    requires forall n :: n in next && n != hd && (n.Head? || n.addr !in touched) ==> n in next' && next'[n] == next[n]
    requires forall n :: n in prev && n != hd && (n.Head? || n.addr !in touched) ==> n in prev' && prev'[n] == prev[n]
    ensures forall h :: h in lists && h != hd ==> Ring(next', prev', h, lists[h])
  {
    forall h | h in lists && h != hd
      ensures Ring(next', prev', h, lists[h])
    {
      assert forall a :: a in lists[h] ==> Block(a) in next && Block(a) in prev;
      RingFrame(next, prev, next', prev', h, lists[h]);
    }
  }

  lemma LinkedFacts(next: Links, prev: Links, lists: Lists)
    requires Linked(next, prev, lists)
    ensures forall hd :: hd in lists ==> hd.Head? && Distinct(lists[hd])
  {
  }

  lemma LinkedInsert(next: Links, prev: Links, lists: Lists, hd: Node, a: nat)
    requires Linked(next, prev, lists) && hd in lists && forall h :: h in lists ==> a !in lists[h]
    ensures hd in next
    ensures Linked(next[Block(a) := next[hd]][hd := Block(a)], prev[Block(a) := hd][next[hd] := Block(a)],
                   lists[hd := [a] + lists[hd]])
  {
    hide Ring;
    var s := lists[hd];
    RingEnds(next, prev, hd, s);
    RingInsert(next, prev, hd, s, a);
    OthersFrame(next, prev, next[Block(a) := next[hd]][hd := Block(a)], prev[Block(a) := hd][next[hd] := Block(a)],
                lists, hd, [a] + s);
    SeparateInsert(lists, hd, a);
  }

  lemma LinkedRemove(next: Links, prev: Links, lists: Lists, hd: Node, a: nat)
    requires Linked(next, prev, lists) && hd in lists && a in lists[hd]
    ensures Block(a) in next && Block(a) in prev
    ensures Linked(next[prev[Block(a)] := next[Block(a)]], prev[next[Block(a)] := prev[Block(a)]],
                   lists[hd := Without(lists[hd], a)])
  {
    hide Ring, Cut, Without, Separate, Before, After;
    var s := lists[hd];
    var k :| 0 <= k < |s| && s[k] == a;
    LinkedFacts(next, prev, lists);
    RingAt(next, prev, hd, s, k);
    RingCut(next, prev, hd, s, k);
    WithoutAt(s, a, k);
    NeighboursIn(hd, s, k);
    OnlyThere(lists, hd);
    OthersFrame(next, prev, next[prev[Block(a)] := next[Block(a)]], prev[next[Block(a)] := prev[Block(a)]],
                lists, hd, s);
    SeparateRemove(lists, hd, a);
  }

  lemma OnlyThere(lists: Lists, hd: Node)
    requires Separate(lists) && hd in lists
    ensures forall h :: h in lists && h != hd ==> forall a :: a in lists[hd] ==> a !in lists[h]
  {
  }

  /** The two assignments of an unlinking. */
  lemma RingCut(next: Links, prev: Links, hd: Node, s: seq<nat>, k: nat)
    requires Ring(next, prev, hd, s) && hd.Head? && k < |s| && Distinct(s)
    ensures Ring(next[Before(hd, s, k) := After(hd, s, k)], prev[After(hd, s, k) := Before(hd, s, k)], hd, Cut(s, k))
  {
    hide Ring, Cut, Before, After;
    RingCutNext(next, prev, hd, s, k);
    RingCutPrev(next, prev, hd, s, k);
    RingParts(next[Before(hd, s, k) := After(hd, s, k)], prev[After(hd, s, k) := Before(hd, s, k)], hd, Cut(s, k));
  }

  lemma NeighboursIn(hd: Node, s: seq<nat>, k: nat)
    requires k < |s|
    ensures Before(hd, s, k) == hd || (Before(hd, s, k).Block? && Before(hd, s, k).addr in s)
    ensures After(hd, s, k) == hd || (After(hd, s, k).Block? && After(hd, s, k).addr in s)
  {
  }

  lemma RingParts(next: Links, prev: Links, hd: Node, s: seq<nat>)
    requires hd in next && next[hd] == (if s == [] then hd else Block(s[0]))
    requires hd in prev && prev[hd] == Before(hd, s, |s|)
    requires forall i :: 0 <= i < |s| ==> Block(s[i]) in next && next[Block(s[i])] == After(hd, s, i)
    requires forall i :: 0 <= i < |s| ==> Block(s[i]) in prev && prev[Block(s[i])] == Before(hd, s, i)
    ensures Ring(next, prev, hd, s)
  {
  }

  // ----- splicing a whole ring into another -----

  function SplicedNext(next: Links, prev: Links, d: Node, s: Node): Links
    requires d in next && s in next && s in prev
  {
    next[d := next[s]][prev[s] := next[d]][s := s]
  }

  function SplicedPrev(next: Links, prev: Links, d: Node, s: Node): Links
    requires d in next && s in next && s in prev
  {
    prev[next[s] := d][next[d] := prev[s]][s := s]
  }

  ghost predicate Apart(a: seq<nat>, b: seq<nat>) { forall x :: x in a ==> x !in b }

  lemma SpliceNext(next: Links, prev: Links, d: Node, s: Node, l: seq<nat>, t: seq<nat>)
    requires Ring(next, prev, d, l) && Ring(next, prev, s, t) && d.Head? && s.Head? && d != s
    requires t != [] && Distinct(l) && Distinct(t) && Apart(t, l)
    ensures var u := SplicedNext(next, prev, d, s);
            && d in u && u[d] == Block((t + l)[0]) && s in u && u[s] == s
            && forall i :: 0 <= i < |t + l| ==> Block((t + l)[i]) in u && u[Block((t + l)[i])] == After(d, t + l, i)
  {
    hide Ring;
    RingEnds(next, prev, d, l);
    RingEnds(next, prev, s, t);
    var u := SplicedNext(next, prev, d, s);
    var r := t + l;
    forall i | 0 <= i < |r|
      ensures Block(r[i]) in u && u[Block(r[i])] == After(d, r, i)
    {
      if i < |t| {
        RingAt(next, prev, s, t, i);
      } else {
        RingAt(next, prev, d, l, i - |t|);
        assert t[|t| - 1] in t && r[i] in l;
      }
    }
  }

  lemma SplicePrev(next: Links, prev: Links, d: Node, s: Node, l: seq<nat>, t: seq<nat>)
    requires Ring(next, prev, d, l) && Ring(next, prev, s, t) && d.Head? && s.Head? && d != s
    requires t != [] && Distinct(l) && Distinct(t) && Apart(t, l)
    ensures var u := SplicedPrev(next, prev, d, s);
            && d in u && u[d] == Before(d, t + l, |t + l|) && s in u && u[s] == s
            && forall i :: 0 <= i < |t + l| ==> Block((t + l)[i]) in u && u[Block((t + l)[i])] == Before(d, t + l, i)
  {
    hide Ring;
    RingEnds(next, prev, d, l);
    RingEnds(next, prev, s, t);
    var u := SplicedPrev(next, prev, d, s);
    var r := t + l;
    forall i | 0 <= i < |r|
      ensures Block(r[i]) in u && u[Block(r[i])] == Before(d, r, i)
    {
      if i < |t| {
        RingAt(next, prev, s, t, i);
        assert r[i] == t[i] && t[i] in t;
        if l != [] { assert l[0] in l; }
      } else {
        RingAt(next, prev, d, l, i - |t|);
        assert t[0] in t && r[i] in l;
      }
    }
  }

  lemma SpliceSeparate(lists: Lists, d: Node, s: Node)
    requires Separate(lists) && d in lists && s in lists && d != s
    ensures Separate(lists[d := lists[s] + lists[d]][s := []])
  {
    var r := lists[s] + lists[d];
    assert forall a :: a in r <==> a in lists[s] || a in lists[d];
    forall i, j | 0 <= i < j < |r|
      ensures r[i] != r[j]
    {
      if i < |lists[s]| <= j { assert r[i] in lists[s] && r[j] in lists[d]; }
    }
  }

  lemma TwoApart(lists: Lists, d: Node, s: Node)
    requires Separate(lists) && d in lists && s in lists && d != s
    ensures Distinct(lists[d]) && Distinct(lists[s]) && Apart(lists[s], lists[d])
  {
  }

  lemma LinkedSplice(next: Links, prev: Links, lists: Lists, d: Node, s: Node)
    requires Linked(next, prev, lists) && d in lists && s in lists && d != s && lists[s] != []
    ensures d in next && s in next && s in prev
    ensures Linked(SplicedNext(next, prev, d, s), SplicedPrev(next, prev, d, s),
                   lists[d := lists[s] + lists[d]][s := []])
  {
    hide Ring, Separate, Distinct, Apart, SplicedNext, SplicedPrev;
    var l, t := lists[d], lists[s];
    RingEnds(next, prev, d, l);
    RingEnds(next, prev, s, t);
    TwoApart(lists, d, s);
    SpliceNext(next, prev, d, s, l, t);
    SplicePrev(next, prev, d, s, l, t);
    SpliceSeparate(lists, d, s);
    var u, v := SplicedNext(next, prev, d, s), SplicedPrev(next, prev, d, s);
    RingParts(u, v, d, t + l);
    RingParts(u, v, s, []);
    SpliceOthers(next, prev, lists, d, s);
  }

  lemma SpliceOthers(next: Links, prev: Links, lists: Lists, d: Node, s: Node)
    requires Linked(next, prev, lists) && d in lists && s in lists && d != s && lists[s] != []
    requires d in next && s in next && s in prev
    ensures forall h :: h in lists && h != d && h != s ==>
              Ring(SplicedNext(next, prev, d, s), SplicedPrev(next, prev, d, s), h, lists[h])
  {
    hide Ring;
    var l, t := lists[d], lists[s];
    RingEnds(next, prev, d, l);
    RingEnds(next, prev, s, t);
    var u, v := SplicedNext(next, prev, d, s), SplicedPrev(next, prev, d, s);
    assert t[0] in t && t[|t| - 1] in t;
    if l != [] { assert l[0] in l; }
    forall h | h in lists && h != d && h != s
      ensures Ring(u, v, h, lists[h])
    {
      RingMembers(next, prev, h, lists[h]);
      RingFrame(next, prev, u, v, h, lists[h]);
    }
  }

  lemma RingMembers(next: Links, prev: Links, hd: Node, s: seq<nat>)
    requires Ring(next, prev, hd, s)
    ensures hd in next && hd in prev
    ensures forall a :: a in s ==> Block(a) in next && Block(a) in prev
  {
  }

  // ----- the blocks of one region on a list -----

  /** The bytes of the blocks of `s` in [lo, hi), each of the given size. */
  function BytesIn(s: seq<nat>, lo: nat, hi: nat, size: nat): nat {
    if s == [] then 0
    else BytesIn(s[..|s| - 1], lo, hi, size) + if lo <= s[|s| - 1] < hi then size else 0
  }

  /** The blocks of `s` that are not in [lo, hi). */
  function Outside(s: seq<nat>, lo: nat, hi: nat): (r: seq<nat>)
    ensures |r| <= |s|
  {
    if s == [] then []
    else Outside(s[..|s| - 1], lo, hi) + if lo <= s[|s| - 1] < hi then [] else [s[|s| - 1]]
  }

  lemma {:induction false} OutsideMembers(s: seq<nat>, lo: nat, hi: nat)
    ensures forall x :: x in Outside(s, lo, hi) <==> x in s && !(lo <= x < hi)
    ensures Distinct(s) ==> Distinct(Outside(s, lo, hi))
  {
    if s != [] {
      var init, last := s[..|s| - 1], s[|s| - 1];
      OutsideMembers(init, lo, hi);
      assert s == init + [last];
      if Distinct(s) { assert last !in init; }
    }
  }

  /** The list once the walk has passed its first `i` blocks. */
  function Walked(s: seq<nat>, i: nat, lo: nat, hi: nat): seq<nat>
    requires i <= |s|
  {
    Outside(s[..i], lo, hi) + s[i..]
  }

  ghost predicate HasWithin(s: seq<nat>, lo: nat, hi: nat) { exists x :: x in s && lo <= x < hi }

  lemma HasNone(lo: nat, hi: nat)
    ensures !HasWithin([], lo, hi)
  {
  }

  lemma HasNext(s: seq<nat>, i: nat, lo: nat, hi: nat)
    requires i < |s|
    ensures HasWithin(s[..i + 1], lo, hi) <==> HasWithin(s[..i], lo, hi) || lo <= s[i] < hi
  {
    var t := s[..i + 1];
    assert t == s[..i] + [s[i]];
    if HasWithin(s[..i], lo, hi) {
      var x :| x in s[..i] && lo <= x < hi;
      assert x in t;
    }
    assert t[i] == s[i] && s[i] in t;
  }

  lemma WalkedStart(s: seq<nat>, lo: nat, hi: nat)
    ensures Walked(s, 0, lo, hi) == s
  {
  }

  lemma WalkedEnd(s: seq<nat>, lo: nat, hi: nat)
    ensures Walked(s, |s|, lo, hi) == Outside(s, lo, hi)
  {
    assert s[..|s|] == s;
  }

  lemma WalkedMembers(s: seq<nat>, i: nat, lo: nat, hi: nat)
    requires i < |s| && Distinct(s)
    ensures var k, u := |Outside(s[..i], lo, hi)|, Walked(s, i, lo, hi);
            && Distinct(u) && k < |u| && u[k] == s[i] && s[i] in u
            && (k + 1 < |u| <==> i + 1 < |s|) && (i + 1 < |s| ==> u[k + 1] == s[i + 1])
  {
    OutsideMembers(s[..i], lo, hi);
    var k, u := |Outside(s[..i], lo, hi)|, Walked(s, i, lo, hi);
    forall p, q | 0 <= p < q < |u|
      ensures u[p] != u[q]
    {
      if p < k <= q { assert u[p] in s[..i] && u[q] in s[i..]; }
    }
  }

  lemma WalkedNext(s: seq<nat>, i: nat, lo: nat, hi: nat)
    requires i < |s| && Distinct(s)
    ensures Walked(s, i + 1, lo, hi) ==
            if lo <= s[i] < hi then Without(Walked(s, i, lo, hi), s[i]) else Walked(s, i, lo, hi)
  {
    hide Without, Outside, Cut;
    var done := Outside(s[..i], lo, hi);
    OutsideNext(s, i, lo, hi);
    assert s[i..] == [s[i]] + s[i + 1..];
    if lo <= s[i] < hi {
      WalkedMembers(s, i, lo, hi);
      WithoutAt(Walked(s, i, lo, hi), s[i], |done|);
      CutAt(done, s[i], s[i + 1..]);
      assert done + [] == done;
    } else {
      assert done + [s[i]] + s[i + 1..] == done + ([s[i]] + s[i + 1..]);
    }
  }

  lemma CutAt(p: seq<nat>, x: nat, q: seq<nat>)
    ensures |p + ([x] + q)| > |p| && Cut(p + ([x] + q), |p|) == p + q
  {
    assert (p + ([x] + q))[|p| + 1..] == q;
  }

  lemma OutsideNext(s: seq<nat>, i: nat, lo: nat, hi: nat)
    requires i < |s|
    ensures Outside(s[..i + 1], lo, hi) == Outside(s[..i], lo, hi) + if lo <= s[i] < hi then [] else [s[i]]
  {
    assert s[..i + 1][..i] == s[..i];
  }

  class FreeList {
    var next: Links
    var prev: Links
    ghost var lists: Lists

    ghost predicate Valid()
      reads this
    {
      Linked(next, prev, lists)
    }

    constructor ()
      ensures Valid() && lists == map[]
    {
      next, prev, lists := map[], map[], map[];
    }

    /** An empty list: the sentinel points to itself. */
    method Init(hd: Node)
      requires Valid() && hd.Head? && hd !in lists
      modifies this
      ensures Valid() && lists == old(lists)[hd := []]
    {
      ghost var next0, prev0 := next, prev;
      next, prev := next[hd := hd], prev[hd := hd];
      ghost var lists0 := lists;
      lists := lists[hd := []];
      forall h | h in lists0
        ensures Ring(next, prev, h, lists[h])
      {
        RingFrame(next0, prev0, next, prev, h, lists[h]);
      }
    }

    method IsEmpty(hd: Node) returns (b: bool)
      requires Valid() && hd in lists
      ensures b == (lists[hd] == [])
    {
      b := next[hd] == hd;
    }

    /** The block most recently inserted. */
    method First(hd: Node) returns (a: nat)
      requires Valid() && hd in lists && lists[hd] != []
      ensures a == lists[hd][0]
    {
      a := next[hd].addr;
    }

    method Insert(hd: Node, a: nat)
      requires Valid() && hd in lists
      requires forall h :: h in lists ==> a !in lists[h]
      modifies this
      ensures Valid() && lists == old(lists)[hd := [a] + old(lists)[hd]]
    {
      hide Linked;
      LinkedInsert(next, prev, lists, hd, a);
      var blk := Block(a);
      var first := next[hd];
      prev := prev[blk := hd];
      next := next[blk := first];
      prev := prev[first := blk];
      next := next[hd := blk];
      lists := lists[hd := [a] + lists[hd]];
    }

    /** Unlinks a block from whatever list holds it, by its own two links. */
    method Remove(a: nat, ghost hd: Node)
      requires Valid() && hd in lists && a in lists[hd]
      modifies this
      ensures Valid() && lists == old(lists)[hd := Without(old(lists)[hd], a)]
    {
      hide Linked;
      LinkedRemove(next, prev, lists, hd, a);
      var blk := Block(a);
      var p, n := prev[blk], next[blk];
      next := next[p := n];
      prev := prev[n := p];
      lists := lists[hd := Without(lists[hd], a)];
    }

    /** Walks a list and adds up its blocks of one region. */
    method BytesWithin(hd: Node, lo: nat, hi: nat, size: nat) returns (n: nat)
      requires Valid() && hd in lists
      ensures n == BytesIn(lists[hd], lo, hi, size)
    {
      hide Ring, Separate;
      RingEnds(next, prev, hd, lists[hd]);
      n := 0;
      var blk := next[hd];
      ghost var s, i := lists[hd], 0;
      while blk != hd
        invariant 0 <= i <= |s| && blk == (if i < |s| then Block(s[i]) else hd)
        invariant n == BytesIn(s[..i], lo, hi, size)
        decreases |s| - i
      {
        RingAt(next, prev, hd, s, i);
        if lo <= blk.addr < hi { n := n + size; }
        blk := next[blk];
        assert s[..i + 1][..i] == s[..i];
        i := i + 1;
      }
      assert s[..i] == s;
    }

    /** Walks a list and unlinks its blocks of one region, looking one block ahead. */
    method RemoveWithin(hd: Node, lo: nat, hi: nat) returns (any: bool)
      requires Valid() && hd in lists
      modifies this
      ensures Valid() && lists == old(lists)[hd := Outside(old(lists)[hd], lo, hi)]
      ensures any == HasWithin(old(lists)[hd], lo, hi)
    {
      hide Linked, Outside, Without, Walked, Distinct, HasWithin;
      LinkedFacts(next, prev, lists);
      Links(hd);
      any := false;
      var blk := next[hd];
      ghost var s, i := lists[hd], 0;
      WalkedStart(s, lo, hi);
      HasNone(lo, hi);
      while blk != hd
        invariant Valid() && 0 <= i <= |s| && blk == (if i < |s| then Block(s[i]) else hd)
        invariant hd in lists && lists == old(lists)[hd := lists[hd]] && lists[hd] == Walked(s, i, lo, hi)
        invariant any == HasWithin(s[..i], lo, hi)
        decreases |s| - i
      {
        WalkedMembers(s, i, lo, hi);
        WalkedNext(s, i, lo, hi);
        RingHere(hd, |Outside(s[..i], lo, hi)|);
        var ahead := next[blk];
        HasNext(s, i, lo, hi);
        if lo <= blk.addr < hi {
          Remove(blk.addr, hd);
          any := true;
        }
        assert lists[hd] == Walked(s, i + 1, lo, hi);
        blk := ahead;
        i := i + 1;
      }
      assert s[..i] == s;
      WalkedEnd(s, lo, hi);
    }

    lemma Links(hd: Node)
      requires Valid() && hd in lists
      ensures hd.Head? && hd in next && next[hd] == (if lists[hd] == [] then hd else Block(lists[hd][0]))
    {
      RingEnds(next, prev, hd, lists[hd]);
    }

    lemma RingHere(hd: Node, k: nat)
      requires Valid() && hd in lists && k < |lists[hd]|
      ensures Block(lists[hd][k]) in next && next[Block(lists[hd][k])] == After(hd, lists[hd], k)
    {
      RingAt(next, prev, hd, lists[hd], k);
    }

    /** Moves a whole non-empty list in front of another: six assignments. */
    method Splice(d: Node, s: Node)
      requires Valid() && d in lists && s in lists && d != s && lists[s] != []
      modifies this
      ensures Valid() && lists == old(lists)[d := old(lists)[s] + old(lists)[d]][s := []]
    {
      hide Linked;
      LinkedSplice(next, prev, lists, d, s);
      var first, last := next[s], prev[s];
      var after := next[d];
      next := next[d := first];
      prev := prev[first := d];
      next := next[last := after];
      prev := prev[after := last];
      next := next[s := s];
      prev := prev[s := s];
      lists := lists[d := lists[s] + lists[d]][s := []];
    }
  }
}
