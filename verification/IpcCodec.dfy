/** Message compression: byte differences, then run lengths. A run of 2 to 127 equal
    differences is its length and the difference; other stretches, up to 128 long, are
    a negative signed count and the differences themselves. */
module IpcCodec {
  import opened Bytes
  import opened Options

  const THRESHOLD: nat := 2000
  const MAX_RUN: nat := 127
  const MAX_LITERAL: nat := 128

  function Sub8(a: int, b: int): byte { (a - b) % 256 }

  function Add8(a: int, b: int): byte { (a + b) % 256 }

  /** The differences of successive bytes, modulo 256. */
  function Delta(s: bytes): (d: bytes)
    ensures |d| == |s|
  {
    if s == [] then [] else
      var n := |s| - 1;
      Delta(s[..n]) + [if n == 0 then s[0] else Sub8(s[n], s[n - 1])]
  }

  function Undelta(d: bytes): (s: bytes)
    ensures |s| == |d|
  {
    if d == [] then [] else
      var n := |d| - 1;
      var p := Undelta(d[..n]);
      p + [if n == 0 then d[0] else Add8(d[n], p[n - 1])]
  }

  lemma {:induction false} DeltaAt(s: bytes, i: nat)
    requires i < |s|
    ensures Delta(s)[i] == if i == 0 then s[0] else Sub8(s[i], s[i - 1])
    ensures Delta(s)[..i] == Delta(s[..i])
  {
    var n := |s| - 1;
    if i < n {
      DeltaAt(s[..n], i);
      assert s[..n][..i] == s[..i];
      assert Delta(s)[..i] == Delta(s[..n])[..i];
    } else {
      assert Delta(s)[..n] == Delta(s[..n]);
    }
  }

  lemma {:induction false} UndeltaAt(d: bytes, i: nat)
    requires i < |d|
    ensures Undelta(d)[i] == if i == 0 then d[0] else Add8(d[i], Undelta(d)[i - 1])
    ensures Undelta(d)[..i] == Undelta(d[..i])
  {
    var n := |d| - 1;
    if i < n {
      UndeltaAt(d[..n], i);
      assert d[..n][..i] == d[..i];
      assert Undelta(d)[..i] == Undelta(d[..n])[..i];
      if i > 0 { assert Undelta(d)[i - 1] == Undelta(d[..n])[i - 1]; }
    } else {
      assert Undelta(d)[..n] == Undelta(d[..n]);
    }
  }

  lemma AddSub(a: byte, b: byte)
    ensures Add8(Sub8(a, b), b) == a
  {
  }

  lemma {:induction false} UndeltaDelta(s: bytes)
    ensures Undelta(Delta(s)) == s
  {
    hide Sub8, Add8;
    if s != [] {
      var n := |s| - 1;
      UndeltaDelta(s[..n]);
      var d := Delta(s);
      assert d[..n] == Delta(s[..n]);
      assert Undelta(d)[..n] == s[..n] by { assert Undelta(d) == Undelta(d[..n]) + [Undelta(d)[n]]; }
      UndeltaAt(d, n);
      DeltaAt(s, n);
      if n > 0 { AddSub(s[n], s[n - 1]); }
      assert s == s[..n] + [s[n]] && Undelta(d) == Undelta(d)[..n] + [Undelta(d)[n]];
    }
  }

  /** How far a run starting at `i`, already `run` long, goes on. */
  function RunFrom(d: bytes, i: nat, run: nat): (r: nat)
    requires 0 < run <= MAX_RUN && i + run <= |d|
    requires forall j :: i <= j < i + run ==> d[j] == d[i]
    ensures run <= r <= MAX_RUN && i + r <= |d| && forall j :: i <= j < i + r ==> d[j] == d[i]
    ensures i + r < |d| && r < MAX_RUN ==> d[i + r] != d[i]
    decreases |d| - i - run
  {
    if i + run < |d| && d[i + run] == d[i] && run < MAX_RUN then RunFrom(d, i, run + 1) else run
  }

  predicate RunStarts(d: bytes, i: nat) { i + 1 < |d| && d[i] == d[i + 1] }

  /** How far a literal stretch starting at `i`, already `n` long, goes on. */
  function LiteralFrom(d: bytes, i: nat, n: nat): (r: nat)
    requires n <= MAX_LITERAL && i + n <= |d|
    ensures n <= r <= MAX_LITERAL && i + r <= |d|
    ensures i + r < |d| && r < MAX_LITERAL ==> RunStarts(d, i + r)
    ensures n == 0 && i < |d| && !RunStarts(d, i) ==> r > 0
    decreases |d| - i - n
  {
    if i + n < |d| && n < MAX_LITERAL && !RunStarts(d, i + n) then LiteralFrom(d, i, n + 1) else n
  }

  function LiteralCode(part: bytes, rest: bytes): bytes
    requires 0 < |part| <= MAX_LITERAL
  {
    [256 - |part|] + part + rest
  }

  /** The code of the differences from position `i` on. */
  function Rle(d: bytes, i: nat): (code: bytes)
    requires i <= |d|
    decreases |d| - i
  {
    if i == |d| then []
    else if RunStarts(d, i) then
      var run := RunFrom(d, i, 1);
      [run, d[i]] + Rle(d, i + run)
    else
      var n := LiteralFrom(d, i, 0);
      LiteralCode(d[i..i + n], Rle(d, i + n))
  }

  function Encoded(s: bytes): bytes { Rle(Delta(s), 0) }

  function Signed8(b: byte): int { if b < 128 then b else b - 256 }

  /** The differences a code stands for, after those already decoded: none if the code
      breaks off or runs past `cap`; what follows a full buffer is not looked at. */
  function Expand(code: bytes, out: bytes, cap: nat): (r: Option<bytes>)
    requires |out| <= cap
    ensures r.Some? ==> out <= r.value && |r.value| <= cap
    decreases |code|
  {
    if code == [] || |out| == cap then Some(out)
    else
      var count := Signed8(code[0]);
      if count > 0 then
        if |code| < 2 || |out| + count > cap then None
        else Expand(code[2..], out + seq(count, _ => code[1]), cap)
      else
        var n := -count;
        if 1 + n > |code| || |out| + n > cap then None
        else Expand(code[1 + n..], out + code[1..1 + n], cap)
  }

  function Decoded(code: bytes, cap: nat): (r: Option<bytes>)
    ensures r.Some? ==> |r.value| <= cap
  {
    match Expand(code, [], cap)
    case Some(d) => Some(Undelta(d))
    case None => None
  }

  lemma ExpandRun(code: bytes, out: bytes, cap: nat, run: nat, val: byte)
    requires 0 < run <= MAX_RUN && |out| + run <= cap
    ensures Expand([run, val] + code, out, cap) == Expand(code, out + seq(run, _ => val), cap)
  {
    assert ([run, val] + code)[2..] == code;
  }

  lemma ExpandLiteral(code: bytes, out: bytes, cap: nat, part: bytes)
    requires 0 < |part| <= MAX_LITERAL && |out| + |part| <= cap
    ensures Expand([256 - |part|] + part + code, out, cap) == Expand(code, out + part, cap)
  {
    var all := [256 - |part|] + part + code;
    assert all[1..1 + |part|] == part;
    assert all[1 + |part|..] == code;
  }

  /** One step of the code, run or literal. */
  lemma RleNext(d: bytes, i: nat)
    requires i < |d|
    ensures RunStarts(d, i) ==> Rle(d, i) == [RunFrom(d, i, 1), d[i]] + Rle(d, i + RunFrom(d, i, 1))
    ensures !RunStarts(d, i) ==>
              var n := LiteralFrom(d, i, 0); Rle(d, i) == [256 - n] + d[i..i + n] + Rle(d, i + n)
  {
    hide RunFrom, LiteralFrom, Rle;
    if RunStarts(d, i) {
      RleNextRun(d, i, Rle(d, i + RunFrom(d, i, 1)));
    } else {
      var n := LiteralFrom(d, i, 0);
      RleNextLiteral(d, i, n, Rle(d, i + n));
    }
  }

  lemma RleNextRun(d: bytes, i: nat, rest: bytes)
    requires RunStarts(d, i) && rest == Rle(d, i + RunFrom(d, i, 1))
    ensures Rle(d, i) == [RunFrom(d, i, 1), d[i]] + rest
  {
    hide RunFrom, LiteralFrom, RunStarts;
  }

  lemma RleNextLiteral(d: bytes, i: nat, n: nat, rest: bytes)
    requires i < |d| && !RunStarts(d, i) && n == LiteralFrom(d, i, 0) && rest == Rle(d, i + n)
    ensures n > 0 && Rle(d, i) == LiteralCode(d[i..i + n], rest)
  {
    hide RunFrom, LiteralFrom, LiteralCode;
  }

  lemma RleRun(d: bytes, i: nat)
    requires RunStarts(d, i)
    ensures var run := RunFrom(d, i, 1);
            && Rle(d, i) == [run, d[i]] + Rle(d, i + run)
            && 2 <= run <= MAX_RUN && i + run <= |d|
            && d[..i] + seq(run, _ => d[i]) == d[..i + run]
  {
    hide Rle;
    RleNext(d, i);
    RunIsSeq(d, i);
  }

  lemma RunIsSeq(d: bytes, i: nat)
    requires RunStarts(d, i)
    ensures var run := RunFrom(d, i, 1);
            i + run <= |d| && d[..i] + seq(run, _ => d[i]) == d[..i + run]
  {
    hide Rle;
    var run := RunFrom(d, i, 1);
    var a, b := d[..i] + seq(run, _ => d[i]), d[..i + run];
    forall k | 0 <= k < |b|
      ensures a[k] == b[k]
    {
    }
  }

  lemma RleLiteral(d: bytes, i: nat)
    requires i < |d| && !RunStarts(d, i)
    ensures var n := LiteralFrom(d, i, 0);
            && 0 < n <= MAX_LITERAL && i + n <= |d|
            && Rle(d, i) == [256 - n] + d[i..i + n] + Rle(d, i + n)
            && (i + n == |d| || n == MAX_LITERAL || RunStarts(d, i + n))
            && d[..i] + d[i..i + n] == d[..i + n]
  {
    hide Rle, LiteralFrom;
    RleNext(d, i);
  }

  lemma {:induction false} ExpandRle(d: bytes, i: nat)
    requires i <= |d|
    ensures Expand(Rle(d, i), d[..i], |d|) == Some(d)
    decreases |d| - i
  {
    hide Expand, RunFrom, LiteralFrom, Rle;
    if i == |d| {
      ExpandEnd(d);
    } else if RunStarts(d, i) {
      RleRun(d, i);
      var run := RunFrom(d, i, 1);
      ExpandRun(Rle(d, i + run), d[..i], |d|, run, d[i]);
      ExpandRle(d, i + run);
    } else {
      RleLiteral(d, i);
      var n := LiteralFrom(d, i, 0);
      ExpandLiteral(Rle(d, i + n), d[..i], |d|, d[i..i + n]);
      ExpandRle(d, i + n);
    }
  }

  lemma ExpandEnd(d: bytes)
    ensures Expand(Rle(d, |d|), d[..|d|], |d|) == Some(d)
  {
    assert d[..|d|] == d;
  }

  /** Decoding a code into a buffer of the original length gives the original back. */
  lemma CodecRoundTrip(s: bytes)
    ensures Decoded(Encoded(s), |s|) == Some(s)
  {
    ExpandRle(Delta(s), 0);
    UndeltaDelta(s);
  }

  /** Three bytes of code never stand for less than four of input, but for two over;
      a stretch that starts with a run has none over. */
  lemma {:induction false} CodeBound(d: bytes, i: nat)
    requires i <= |d|
    ensures 3 * |Rle(d, i)| <= 4 * (|d| - i) + 2
    ensures i == |d| || RunStarts(d, i) ==> 3 * |Rle(d, i)| <= 4 * (|d| - i)
    decreases |d| - i
  {
    hide RunFrom, LiteralFrom, Rle;
    if i == |d| {
      RleEnd([], d);
    } else if RunStarts(d, i) {
      RleRun(d, i);
      CodeBound(d, i + RunFrom(d, i, 1));
    } else {
      RleLiteral(d, i);
      CodeBound(d, i + LiteralFrom(d, i, 0));
    }
  }

  lemma EncodedBound(s: bytes)
    ensures 3 * |Encoded(s)| <= 4 * |s| + 2
  {
    CodeBound(Delta(s), 0);
  }

  /** The code ray_ipc_compress yields, if it yields any. */
  function Compressed(s: bytes, cap: nat): (r: Option<bytes>)
    ensures r.Some? ==> |r.value| < |s|
  {
    var code := Encoded(s);
    if |s| <= THRESHOLD || |code| > cap || |code| >= |s| then None else Some(code)
  }

  method DeltaOf(src: bytes) returns (delta: array<byte>)
    requires src != []
    ensures fresh(delta) && delta[..] == Delta(src)
  {
    delta := new byte[|src|](_ => 0);
    delta[0] := src[0];
    var i := 1;
    assert delta[..1] == Delta(src[..1]);
    while i < |src|
      invariant 1 <= i <= |src| && delta[..i] == Delta(src[..i])
    {
      delta[i] := Sub8(src[i], src[i - 1]);
      assert src[..i + 1][..i] == src[..i];
      assert delta[..i + 1] == delta[..i] + [delta[i]];
      i := i + 1;
    }
    assert src[..i] == src;
  }

  /** Copies `part` into `dst` behind the first `at` bytes. */
  method Append(dst: array<byte>, at: nat, part: bytes)
    requires at + |part| <= dst.Length
    modifies dst
    ensures dst[..at + |part|] == old(dst[..at]) + part
  {
    var k := 0;
    while k < |part|
      invariant 0 <= k <= |part| && dst[..at] == old(dst[..at]) && dst[at..at + k] == part[..k]
    {
      dst[at + k] := part[k];
      k := k + 1;
    }
  }

  /** The inner loop that measures a run. */
  method ScanRun(delta: array<byte>, si: nat) returns (run: nat)
    requires RunStarts(delta[..], si)
    ensures 1 <= run <= MAX_RUN && si + run <= delta.Length && run == RunFrom(delta[..], si, 1)
  {
    ghost var d := delta[..];
    var val := delta[si];
    run := 1;
    while si + run < delta.Length && delta[si + run] == val && run < MAX_RUN
      invariant 1 <= run <= MAX_RUN && si + run <= delta.Length
      invariant forall j :: si <= j < si + run ==> d[j] == val
      invariant RunFrom(d, si, run) == RunFrom(d, si, 1)
    {
      run := run + 1;
    }
  }

  /** The inner loop that measures a literal stretch. */
  method ScanLiteral(delta: array<byte>, start: nat) returns (llen: nat)
    requires start < delta.Length
    ensures llen <= MAX_LITERAL && start + llen <= delta.Length && llen == LiteralFrom(delta[..], start, 0)
    ensures !RunStarts(delta[..], start) ==> llen > 0
  {
    ghost var d := delta[..];
    var si := start;
    llen := 0;
    while si < delta.Length && llen < MAX_LITERAL && !(si + 1 < delta.Length && delta[si] == delta[si + 1])
      invariant start <= si <= delta.Length && llen == si - start <= MAX_LITERAL
      invariant LiteralFrom(d, start, llen) == LiteralFrom(d, start, 0)
    {
      si := si + 1;
      llen := llen + 1;
    }
  }

  /** What is written grows by what the code of the rest gives up. */
  lemma Associates(a: bytes, b: bytes, c: bytes)
    ensures (a + b) + c == a + (b + c)
  {
  }

  lemma RunWritten(done: bytes, d: bytes, i: nat)
    requires RunStarts(d, i)
    ensures var run := RunFrom(d, i, 1); (done + [run, d[i]]) + Rle(d, i + run) == done + Rle(d, i)
  {
    hide RunFrom, Rle;
    RleNext(d, i);
    var run := RunFrom(d, i, 1);
    Associates(done, [run, d[i]], Rle(d, i + run));
  }

  lemma LiteralWritten(done: bytes, d: bytes, i: nat)
    requires i < |d| && !RunStarts(d, i)
    ensures var n := LiteralFrom(d, i, 0);
            (done + ([256 - n] + d[i..i + n])) + Rle(d, i + n) == done + Rle(d, i)
  {
    hide LiteralFrom, Rle;
    RleNext(d, i);
    var n := LiteralFrom(d, i, 0);
    Associates(done, [256 - n] + d[i..i + n], Rle(d, i + n));
  }

  /** The next run or literal of the differences written, if it fits: how many of them it
      takes and how many bytes it puts. */
  method WriteNext(delta: array<byte>, si: nat, dst: array<byte>, di: nat) returns (fits: bool, taken: nat, put: nat)
    requires si < delta.Length && di <= dst.Length && delta != dst
    modifies dst
    ensures fits ==> taken > 0 && si + taken <= delta.Length && di + put <= dst.Length
    ensures fits ==> dst[..di + put] + Rle(delta[..], si + taken) == old(dst[..di]) + Rle(delta[..], si)
    ensures !fits ==> |old(dst[..di]) + Rle(delta[..], si)| > dst.Length
  {
    hide RunFrom, LiteralFrom, Rle;
    ghost var done, d := dst[..di], delta[..];
    var part: bytes;
    if si + 1 < delta.Length && delta[si] == delta[si + 1] {
      taken := ScanRun(delta, si);
      part := [taken, delta[si]];
      RunWritten(done, d, si);
    } else {
      taken := ScanLiteral(delta, si);
      part := [256 - taken] + delta[si..si + taken];
      LiteralWritten(done, d, si);
    }
    put := |part|;
    fits := di + put <= dst.Length;
    if fits { Append(dst, di, part); }
  }

  /** ray_ipc_compress: the length of the code written to `dst`, or 0 when the input is
      short, the code does not fit, or it would be no shorter than the input. */
  method Compress(src: bytes, dst: array<byte>) returns (n: nat)
    modifies dst
    ensures n <= dst.Length
    ensures (if n == 0 then None else Some(dst[..n])) == Compressed(src, dst.Length)
  {
    hide RunFrom, LiteralFrom, Delta, Rle;
    if |src| <= THRESHOLD { return 0; }
    var delta := DeltaOf(src);
    ghost var d := delta[..];
    var si: nat, di: nat := 0, 0;
    while si < delta.Length
      invariant si <= delta.Length && di <= dst.Length && delta[..] == d && d == Delta(src)
      invariant dst[..di] + Rle(d, si) == Encoded(src)
      decreases delta.Length - si
    {
      var fits, taken, put := WriteNext(delta, si, dst, di);
      if !fits { return 0; }
      si, di := si + taken, di + put;
    }
    RleEnd(dst[..di], d);
    if di >= |src| { return 0; }
    EncodedSome(src);
    n := di;
  }

  lemma RleEnd(done: bytes, d: bytes)
    ensures done + Rle(d, |d|) == done
  {
  }

  lemma EncodedSome(s: bytes)
    requires s != []
    ensures Encoded(s) != []
  {
  }

  /** The three ways a step of decoding at position `si` can go. */
  lemma ExpandAt(src: bytes, si: nat, out: bytes, cap: nat)
    requires si < |src| && |out| < cap
    ensures var count := Signed8(src[si]);
            var more := if count > 0 then 1 else -count;
            var len := if count > 0 then count else -count;
            var e := Expand(src[si..], out, cap);
            if si + 1 + more > |src| || |out| + len > cap then e == None
            else e == Expand(src[si + 1 + more..],
                             out + (if count > 0 then seq(count, _ => src[si + 1]) else src[si + 1..si + 1 + more]),
                             cap)
  {
    var rest := src[si..];
    var count := Signed8(src[si]);
    if count > 0 {
      if |rest| >= 2 { assert rest[2..] == src[si + 2..] && rest[1] == src[si + 1]; }
    } else if 1 - count <= |rest| {
      assert rest[1 - count..] == src[si + 1 - count..];
      assert rest[1..1 - count] == src[si + 1..si + 1 - count];
    }
  }

  lemma ExpandStops(src: bytes, si: nat, out: bytes, cap: nat)
    requires si <= |src| && |out| <= cap && (si == |src| || |out| == cap)
    ensures Expand(src[si..], out, cap) == Some(out)
  {
  }

  /** The loop that undoes the run lengths. */
  method Unpack(src: bytes, decoded: array<byte>) returns (ok: bool, di: nat)
    modifies decoded
    ensures di <= decoded.Length
    ensures (if ok then Some(decoded[..di]) else None) == Expand(src, [], decoded.Length)
  {
    hide Expand;
    var si: nat := 0;
    di := 0;
    assert src[0..] == src;
    while si < |src| && di < decoded.Length
      invariant si <= |src| && di <= decoded.Length
      invariant Expand(src[si..], decoded[..di], decoded.Length) == Expand(src, [], decoded.Length)
      decreases |src| - si
    {
      ExpandAt(src, si, decoded[..di], decoded.Length);
      var count := Signed8(src[si]);
      var part: bytes;
      if count > 0 {
        if si + 1 >= |src| || di + count > decoded.Length { return false, 0; }
        part := seq(count, _ => src[si + 1]);
        si := si + 2;
      } else {
        var k := -count;
        if si + 1 + k > |src| || di + k > decoded.Length { return false, 0; }
        part := src[si + 1..si + 1 + k];
        si := si + 1 + k;
      }
      Append(decoded, di, part);
      di := di + |part|;
    }
    ExpandStops(src, si, decoded[..di], decoded.Length);
    ok := true;
  }

  /** The loop that undoes the differences. */
  method Integrate(decoded: array<byte>, di: nat, dst: array<byte>)
    requires 0 < di <= decoded.Length && di <= dst.Length && decoded != dst
    modifies dst
    ensures dst[..di] == Undelta(decoded[..di])
  {
    ghost var d := decoded[..di];
    UndeltaAt(d, 0);
    dst[0] := decoded[0];
    var i := 1;
    assert dst[..1] == Undelta(d)[..1];
    while i < di
      invariant 1 <= i <= di && decoded[..di] == d
      invariant dst[..i] == Undelta(d)[..i]
    {
      UndeltaAt(d, i);
      dst[i] := Add8(decoded[i], dst[i - 1]);
      assert dst[..i + 1] == dst[..i] + [dst[i]];
      i := i + 1;
    }
  }

  /** ray_ipc_decompress: the length of the bytes written to `dst`, or 0 when the code is
      broken or stands for nothing. */
  method Decompress(src: bytes, dst: array<byte>) returns (n: nat)
    modifies dst
    ensures n <= dst.Length
    ensures match Decoded(src, dst.Length)
            case Some(s) => n == |s| && dst[..n] == s
            case None => n == 0
  {
    var decoded := new byte[dst.Length](_ => 0);
    var ok, di := Unpack(src, decoded);
    if !ok || di == 0 { return 0; }
    Integrate(decoded, di, dst);
    n := di;
  }

  /** Whatever the compressor yields for a buffer, the decompressor turns back into it. */
  method Transfer(src: bytes, cap: nat) returns (back: Option<bytes>)
    ensures back.Some? <==> |src| > THRESHOLD && |Encoded(src)| <= cap && |Encoded(src)| < |src|
    ensures back.Some? ==> back.value == src
  {
    var wire := new byte[cap](_ => 0);
    var n := Compress(src, wire);
    if n == 0 { return None; }
    var out := new byte[|src|](_ => 0);
    var m := Decompress(wire[..n], out);
    CodecRoundTrip(src);
    back := Some(out[..m]);
  }

  // ----- the bytes the differences add up to -----

  function Sum(d: bytes): nat { if d == [] then 0 else Sum(d[..|d| - 1]) + d[|d| - 1] }

  /** Byte `i` is the sum of the differences up to it, modulo 256. */
  lemma {:induction false} UndeltaSums(d: bytes, i: nat)
    requires i < |d|
    ensures Undelta(d)[i] == Sum(d[..i + 1]) % 256
  {
    assert d[..i + 1][..i] == d[..i];
    UndeltaAt(d, i);
    if i > 0 {
      UndeltaSums(d, i - 1);
      SumMod(d[i], Sum(d[..i]));
    } else {
      assert d[..0] == [];
    }
  }

  lemma SumMod(a: byte, n: nat)
    ensures Add8(a, n % 256) == (n + a) % 256
  {
  }
}
