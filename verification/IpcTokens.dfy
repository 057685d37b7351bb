/** Compressed messages as tokens, runs and literals: which code stands for what, and
    which one the compressor chooses. */
module IpcTokens {
  import opened Bytes
  import opened IpcCodec
  import opened Options

  // ----- which codes there are -----

  /** A run of 1 to 127 equal differences, or up to 128 differences as they are. */
  datatype Token = Run(n: nat, b: byte) | Literal(part: bytes)

  predicate WellSized(t: Token) { match t case Run(n, _) => 1 <= n <= 127 case Literal(part) => |part| <= 128 }

  function TokenBytes(t: Token): bytes
    requires WellSized(t)
  {
    match t
    case Run(n, b) => [n, b]
    case Literal(part) => [(256 - |part|) % 256] + part
  }

  function TokenMeaning(t: Token): bytes {
    match t case Run(n, b) => seq(n, _ => b) case Literal(part) => part
  }

  ghost predicate AllSized(ts: seq<Token>) { forall i :: 0 <= i < |ts| ==> WellSized(ts[i]) }

  function CodeBytes(ts: seq<Token>): bytes
    requires AllSized(ts)
  {
    if ts == [] then [] else TokenBytes(ts[0]) + CodeBytes(ts[1..])
  }

  function Meaning(ts: seq<Token>): bytes { if ts == [] then [] else TokenMeaning(ts[0]) + Meaning(ts[1..]) }

  lemma TokensCons(t: Token, rest: seq<Token>)
    requires WellSized(t) && AllSized(rest)
    ensures AllSized([t] + rest) && CodeBytes([t] + rest) == TokenBytes(t) + CodeBytes(rest)
    ensures Meaning([t] + rest) == TokenMeaning(t) + Meaning(rest)
  {
    assert ([t] + rest)[1..] == rest;
  }

  lemma Joined(a: bytes, b: bytes, c: bytes)
    ensures (a + b) + c == a + (b + c)
  {
  }

  lemma NoMoreCode(code: bytes, out: bytes, cap: nat)
    requires |out| <= cap && (code == [] || |out| == cap)
    ensures Expand(code, out, cap) == Some(out) && out + [] == out
  {
  }

  /** Tokens that fit the buffer are decoded to what they stand for. */
  lemma {:induction false} TokensExpand(ts: seq<Token>, out: bytes, cap: nat)
    requires AllSized(ts) && |out| + |Meaning(ts)| <= cap
    ensures Expand(CodeBytes(ts), out, cap) == Some(out + Meaning(ts))
    decreases |ts|
  {
    hide Expand, TokenBytes, TokenMeaning, WellSized;
    if ts == [] || |out| == cap {
      NoMoreCode(CodeBytes(ts), out, cap);
      assert Meaning(ts) == [];
    } else {
      var t := ts[0];
      assert ts == [t] + ts[1..];
      TokensCons(t, ts[1..]);
      TokenNext(t, CodeBytes(ts[1..]), out, cap);
      TokensExpand(ts[1..], out + TokenMeaning(t), cap);
      Joined(out, TokenMeaning(t), Meaning(ts[1..]));
    }
  }

  lemma TokenNext(t: Token, rest: bytes, out: bytes, cap: nat)
    requires WellSized(t) && |out| + |TokenMeaning(t)| <= cap && |out| < cap
    ensures Expand(TokenBytes(t) + rest, out, cap) == Expand(rest, out + TokenMeaning(t), cap)
  {
    hide Expand;
    match t
    case Run(n, b) => RunNext(n, b, rest, out, cap);
    case Literal(part) => LiteralNext(part, rest, out, cap);
  }

  lemma RunNext(n: nat, b: byte, rest: bytes, out: bytes, cap: nat)
    requires 1 <= n <= 127 && |out| + n <= cap
    ensures Expand([n, b] + rest, out, cap) == Expand(rest, out + TokenMeaning(Run(n, b)), cap)
  {
    hide Expand;
    ExpandRun(rest, out, cap, n, b);
    assert seq(n, _ => b) == TokenMeaning(Run(n, b));
  }

  lemma LiteralNext(part: bytes, rest: bytes, out: bytes, cap: nat)
    requires |part| <= 128 && |out| + |part| <= cap && |out| < cap
    ensures Expand([(256 - |part|) % 256] + part + rest, out, cap) == Expand(rest, out + part, cap)
  {
    hide Expand;
    if part == [] {
      ExpandNone(rest, out, cap);
      assert [0] + part == [0] && out + part == out;
    } else {
      ExpandLiteral(rest, out, cap, part);
    }
  }

  lemma ExpandNone(rest: bytes, out: bytes, cap: nat)
    requires |out| < cap
    ensures Expand([0] + rest, out, cap) == Expand(rest, out, cap)
  {
    var code := [0] + rest;
    assert code[1..] == rest && out + code[1..1] == out;
  }

  /** And whatever is decoded is what some tokens at the start of the code stand for: the
      whole code, or as many as fill the buffer. */
  lemma {:induction false} ExpandTokens(code: bytes, out: bytes, cap: nat) returns (ts: seq<Token>)
    requires |out| <= cap && Expand(code, out, cap).Some?
    ensures AllSized(ts) && CodeBytes(ts) <= code && Expand(code, out, cap).value == out + Meaning(ts)
    ensures CodeBytes(ts) == code || |out + Meaning(ts)| == cap
    decreases |code|
  {
    hide Expand, TokenBytes, TokenMeaning, WellSized;
    if code == [] || |out| == cap {
      ts := [];
      NoMoreCode(code, out, cap);
    } else {
      var t := FirstToken(code, out, cap);
      var k := |TokenBytes(t)|;
      assert code == TokenBytes(t) + code[k..];
      TokenNext(t, code[k..], out, cap);
      var rest := ExpandTokens(code[k..], out + TokenMeaning(t), cap);
      ts := [t] + rest;
      TokensCons(t, rest);
      Joined(out, TokenMeaning(t), Meaning(rest));
    }
  }

  lemma FirstToken(code: bytes, out: bytes, cap: nat) returns (t: Token)
    requires code != [] && |out| < cap && Expand(code, out, cap).Some?
    ensures WellSized(t) && 0 < |TokenBytes(t)| <= |code| && TokenBytes(t) <= code
    ensures |out| + |TokenMeaning(t)| <= cap
  {
    var count := Signed8(code[0]);
    if count > 0 {
      t := Run(count, code[1]);
      assert TokenBytes(t) == code[..2];
    } else {
      t := Literal(code[1..1 - count]);
      assert TokenBytes(t) == code[..1 - count];
    }
  }

  // ----- which code is chosen -----

  function Last(t: Token): (r: byte)
    requires TokenMeaning(t) != []
  {
    TokenMeaning(t)[|TokenMeaning(t)| - 1]
  }

  predicate Shaped(t: Token) {
    match t
    case Run(n, _) => 2 <= n <= 127
    case Literal(part) => 1 <= |part| <= 128 && forall j :: 0 <= j < |part| - 1 ==> part[j] != part[j + 1]
  }

  /** One token behind another: only a full run is followed by the same difference, and
      only a full literal by another one. */
  predicate Follows(t: Token, u: Token) {
    && TokenMeaning(t) != [] && TokenMeaning(u) != []
    && (Last(t) == TokenMeaning(u)[0] ==> t.Run? && t.n == 127)
    && (t.Literal? && u.Literal? ==> |t.part| == 128)
  }

  predicate Greedy(ts: seq<Token>) {
    ts == [] || (Shaped(ts[0]) && (|ts| > 1 ==> Follows(ts[0], ts[1])) && Greedy(ts[1..]))
  }

  lemma GreedyCons(t: Token, rest: seq<Token>)
    requires Shaped(t) && Greedy(rest) && (rest != [] ==> Follows(t, rest[0]))
    ensures Greedy([t] + rest)
  {
    assert ([t] + rest)[1..] == rest;
  }

  /** A token of the code at `i`, as far as `k`. */
  ghost predicate TokenAt(d: bytes, i: nat, k: nat, t: Token) {
    && i < k <= |d| && Shaped(t) && TokenMeaning(t) == d[i..k] && (t.Run? <==> RunStarts(d, i))
    && (k < |d| ==> (d[k - 1] == d[k] ==> t.Run? && t.n == 127) && (t.Literal? && |t.part| < 128 ==> RunStarts(d, k)))
  }

  /** The tokens of a code: runs and literals each as long as they can be. */
  lemma {:induction false} RleGreedy(d: bytes, i: nat) returns (ts: seq<Token>)
    requires i <= |d|
    ensures AllSized(ts) && Greedy(ts) && CodeBytes(ts) == Rle(d, i) && Meaning(ts) == d[i..]
    ensures if i == |d| then ts == [] else ts != [] && TokenMeaning(ts[0]) != [] && TokenMeaning(ts[0])[0] == d[i]
    ensures i < |d| ==> (ts[0].Run? <==> RunStarts(d, i))
    decreases |d| - i
  {
    hide Rle, RunFrom, LiteralFrom, Greedy, TokenBytes, TokenMeaning, Shaped, RunStarts, TokenAt, Follows;
    if i == |d| {
      CodeEnds(d);
      ts := [];
    } else {
      var t, k := NextToken(d, i);
      AtPlace(d, i, k, t);
      var rest := RleGreedy(d, k);
      if k < |d| { NextFollows(d, i, k, t, rest[0]); }
      GreedyCons(t, rest);
      TokensCons(t, rest);
      ts := [t] + rest;
      assert d[i..] == d[i..k] + d[k..];
    }
  }

  lemma CodeEnds(d: bytes)
    ensures Rle(d, |d|) == [] && Greedy([])
  {
  }

  lemma AtPlace(d: bytes, i: nat, k: nat, t: Token)
    requires TokenAt(d, i, k, t)
    ensures i < k <= |d| && Shaped(t) && WellSized(t) && (t.Run? <==> RunStarts(d, i))
    ensures TokenMeaning(t) == d[i..k] && TokenMeaning(t)[0] == d[i]
  {
  }

  lemma NextFollows(d: bytes, i: nat, k: nat, t: Token, u: Token)
    requires TokenAt(d, i, k, t) && k < |d| && (u.Run? <==> RunStarts(d, k))
    requires TokenMeaning(u) != [] && TokenMeaning(u)[0] == d[k]
    ensures Follows(t, u)
  {
  }

  lemma NextToken(d: bytes, i: nat) returns (t: Token, k: nat)
    requires i < |d|
    ensures TokenAt(d, i, k, t) && WellSized(t) && Rle(d, i) == TokenBytes(t) + Rle(d, k)
  {
    hide Rle;
    if RunStarts(d, i) {
      RleNext(d, i);
      k := i + RunFrom(d, i, 1);
      t := Run(k - i, d[i]);
    } else {
      RleNext(d, i);
      LiteralUneven(d, i, 0);
      k := i + LiteralFrom(d, i, 0);
      t := Literal(d[i..k]);
      LiteralToken(d, i, k);
    }
  }

  lemma LiteralToken(d: bytes, i: nat, k: nat)
    requires i < |d| && !RunStarts(d, i) && k == i + LiteralFrom(d, i, 0)
    requires forall j :: i <= j < k ==> !RunStarts(d, j)
    ensures TokenAt(d, i, k, Literal(d[i..k])) && (256 - (k - i)) % 256 == 256 - (k - i)
  {
    hide LiteralFrom;
    forall j | 0 <= j < k - i - 1
      ensures d[i..k][j] != d[i..k][j + 1]
    {
      assert !RunStarts(d, i + j);
    }
    assert !RunStarts(d, k - 1);
  }

  /** No two neighbours in a literal stretch, nor its last and what follows, are equal. */
  lemma {:induction false} LiteralUneven(d: bytes, i: nat, n: nat)
    requires n <= MAX_LITERAL && i + n <= |d| && forall j :: i <= j < i + n ==> !RunStarts(d, j)
    ensures forall j :: i <= j < i + LiteralFrom(d, i, n) ==> !RunStarts(d, j)
    decreases |d| - i - n
  {
    if i + n < |d| && n < MAX_LITERAL && !RunStarts(d, i + n) { LiteralUneven(d, i, n + 1); }
  }

  lemma EncodedGreedy(s: bytes) returns (ts: seq<Token>)
    ensures AllSized(ts) && Greedy(ts) && Encoded(s) == CodeBytes(ts) && Meaning(ts) == Delta(s)
  {
    ts := RleGreedy(Delta(s), 0);
    assert Delta(s)[0..] == Delta(s);
  }

  /** What the first two tokens of a list stand for, within the whole. */
  lemma FirstTwo(ts: seq<Token>)
    requires ts != [] && Greedy(ts)
    ensures var m, k := Meaning(ts), |TokenMeaning(ts[0])|;
            && Shaped(ts[0]) && 0 < k <= |m| && TokenMeaning(ts[0]) == m[..k] && Meaning(ts[1..]) == m[k..]
            && (k < |m| ==> |ts| > 1 && Shaped(ts[1]) && Follows(ts[0], ts[1]) && TokenMeaning(ts[1]) <= m[k..])
  {
  }

  /** The first token is a run if the first two differences are equal, and as long as a
      run or a literal can be. */
  lemma FirstIs(ts: seq<Token>)
    requires ts != [] && Greedy(ts)
    ensures var m := Meaning(ts);
            && m != [] && (ts[0].Run? <==> RunStarts(m, 0))
            && (if ts[0].Run? then ts[0] == Run(RunFrom(m, 0, 1), m[0])
               else ts[0] == Literal(m[..LiteralFrom(m, 0, 0)]))
  {
    FirstTwo(ts);
    hide Greedy, Meaning, LiteralFrom, RunFrom;
    var m := Meaning(ts);
    match ts[0]
    case Run(n, b) =>
      RunLength(m, n, b, ts);
    case Literal(part) =>
      LiteralLength(m, part, ts);
  }

  lemma RunLength(m: bytes, n: nat, b: byte, ts: seq<Token>)
    requires 2 <= n <= 127 && n <= |m| && m[..n] == TokenMeaning(Run(n, b)) && ts != [] && ts[0] == Run(n, b)
    requires n < |m| ==> |ts| > 1 && Follows(ts[0], ts[1]) && TokenMeaning(ts[1]) <= m[n..]
    ensures RunStarts(m, 0) && m[0] == b && n == RunFrom(m, 0, 1)
  {
    hide RunFrom;
    assert forall j :: 0 <= j < n ==> m[j] == m[..n][j] == b;
    if n < |m| { assert m[n] == m[n..][0] == TokenMeaning(ts[1])[0] && Last(ts[0]) == b; }
    var r := RunFrom(m, 0, 1);
    assert r < |m| && r < 127 ==> m[r] != m[0];
  }

  lemma LiteralLength(m: bytes, part: bytes, ts: seq<Token>)
    requires 1 <= |part| <= |m| && m[..|part|] == part && ts != [] && ts[0] == Literal(part) && Shaped(ts[0])
    requires |part| < |m| ==> |ts| > 1 && Shaped(ts[1]) && Follows(ts[0], ts[1]) && TokenMeaning(ts[1]) <= m[|part|..]
    ensures !RunStarts(m, 0) && |part| == LiteralFrom(m, 0, 0)
  {
    var k := |part|;
    if k < |m| { assert m[k] == m[k..][0] == TokenMeaning(ts[1])[0] && Last(ts[0]) == m[k - 1]; }
    Uneven(m, part);
    if k < |m| && k < 128 { RunBehind(m, k, ts[1]); }
    hide Shaped, Follows, TokenMeaning, RunStarts;
    LiteralEnds(m, k);
  }

  lemma Uneven(m: bytes, part: bytes)
    requires 1 <= |part| <= |m| && m[..|part|] == part && Shaped(Literal(part))
    requires |part| < |m| ==> m[|part| - 1] != m[|part|]
    ensures forall j: nat :: j < |part| ==> !RunStarts(m, j)
  {
    forall j: nat | j < |part|
      ensures !RunStarts(m, j)
    {
      if j < |part| - 1 { assert part[j] == m[j] && part[j + 1] == m[j + 1]; }
    }
  }

  lemma RunBehind(m: bytes, k: nat, t: Token)
    requires k < |m| && t.Run? && Shaped(t) && TokenMeaning(t) <= m[k..]
    ensures RunStarts(m, k)
  {
    assert m[k + 1] == m[k..][1] == t.b == m[k..][0] == m[k];
  }

  lemma LiteralEnds(m: bytes, k: nat)
    requires 1 <= k <= |m| && k <= 128 && forall j: nat :: j < k ==> !RunStarts(m, j)
    requires k < |m| && k < 128 ==> RunStarts(m, k)
    ensures k == LiteralFrom(m, 0, 0)
  {
    hide LiteralFrom, RunStarts;
    LiteralUneven(m, 0, 0);
  }

  lemma {:induction false} GreedyUnique(a: seq<Token>, b: seq<Token>)
    requires Greedy(a) && Greedy(b) && Meaning(a) == Meaning(b)
    ensures a == b
  {
    hide RunFrom, LiteralFrom;
    if a == [] {
      if b != [] { FirstTwo(b); }
    } else {
      FirstTwo(a);
      assert b != [];
      FirstTwo(b);
      FirstIs(a);
      FirstIs(b);
      GreedyUnique(a[1..], b[1..]);
      assert a == [a[0]] + a[1..] && b == [b[0]] + b[1..];
    }
  }

  /** So the code is what any greedy tokens for the differences spell. */
  lemma EncodedExactly(s: bytes, ts: seq<Token>)
    requires AllSized(ts) && Greedy(ts) && Meaning(ts) == Delta(s)
    ensures Encoded(s) == CodeBytes(ts)
  {
    var us := EncodedGreedy(s);
    GreedyUnique(ts, us);
  }
}
