/** Messages on the wire: a 16-byte header, then the payload, compressed if that helps. */
module IpcWire {
  import opened Bytes
  import opened CInts
  import opened Options
  import opened IpcCodec
  import opened IpcTokens

  const PREFIX: nat := 0xcefadefa
  const VERSION: byte := 2
  const HEADER_SIZE: nat := 16
  const MAX_BODY: nat := 256 * 1024 * 1024
  const COMPRESSED: byte := 1

  datatype Header = Header(prefix: nat, version: byte, flags: byte, endian: byte, msgtype: byte, size: int)

  function Power256(k: nat): (r: nat)
    ensures r > 0
  {
    if k == 0 then 1 else 256 * Power256(k - 1)
  }

  /** A number in `k` bytes, least significant first. */
  function LeBytes(n: nat, k: nat): (s: bytes)
    ensures |s| == k
  {
    if k == 0 then [] else [n % 256] + LeBytes(n / 256, k - 1)
  }

  function LeValue(s: bytes): nat {
    if s == [] then 0 else s[0] + 256 * LeValue(s[1..])
  }

  lemma {:induction false} LeRoundTrip(n: nat, k: nat)
    requires n < Power256(k)
    ensures LeValue(LeBytes(n, k)) == n
  {
    if k > 0 {
      LeRoundTrip(n / 256, k - 1);
      assert LeBytes(n, k)[1..] == LeBytes(n / 256, k - 1);
    }
  }

  const TWO_63: nat := 0x8000_0000_0000_0000

  function Signed64(v: nat): int { if v < TWO_63 then v else v - 2 * TWO_63 }

  function WriteHeader(h: Header): (s: bytes)
    requires h.size >= 0
    ensures |s| == HEADER_SIZE
  {
    LeBytes(h.prefix, 4) + [h.version, h.flags, h.endian, h.msgtype] + LeBytes(h.size, 8)
  }

  function ReadHeader(s: bytes): Header
    requires |s| == HEADER_SIZE
  {
    Header(LeValue(s[..4]), s[4], s[5], s[6], s[7], Signed64(LeValue(s[8..])))
  }

  lemma PowersFit()
    ensures Power256(4) == 0x1_0000_0000 && Power256(8) == 2 * TWO_63
  {
    assert Power256(2) == 65536;
    assert Power256(4) == 256 * (256 * Power256(2));
    assert Power256(6) == 256 * (256 * Power256(4));
    assert Power256(8) == 256 * (256 * Power256(6));
  }

  lemma HeaderRoundTrip(h: Header)
    requires h.prefix < 0x1_0000_0000 && 0 <= h.size < TWO_63
    ensures ReadHeader(WriteHeader(h)) == h
  {
    hide LeBytes, LeValue, Power256;
    PowersFit();
    LeRoundTrip(h.prefix, 4);
    LeRoundTrip(h.size, 8);
    var s := WriteHeader(h);
    assert s[..4] == LeBytes(h.prefix, 4) && s[8..] == LeBytes(h.size, 8);
  }

  /** The header tests on which a connection is dropped. */
  predicate BadHeader(h: Header) { h.prefix != PREFIX || h.size <= 0 || h.size > MAX_BODY }

  /** What client_send_msg and send_response put behind the header: the payload, or its
      length and its code when the two together are shorter. */
  function Body(payload: bytes): (r: (byte, bytes)) {
    var code := Compressed(payload, |payload|);
    if code.Some? && |code.value| > 0 && |code.value| + 4 < |payload| then
      (COMPRESSED, LeBytes(|payload|, 4) + code.value)
    else (0, payload)
  }

  function Frame(payload: bytes, msgtype: byte): bytes {
    var b := Body(payload);
    WriteHeader(Header(PREFIX, VERSION, b.0, 0, msgtype, |b.1|)) + b.1
  }

  /** The payload eval_payload works on, if the body is in order. */
  function Opened(flags: byte, body: bytes): Option<bytes> {
    if flags % 2 == 0 then Some(body)
    else if |body| < 4 then None
    else
      var size := LeValue(body[..4]);
      if size == 0 || size > MAX_BODY then None
      else match Decoded(body[4..], size)
           case Some(s) => if |s| == size then Some(s) else None
           case None => None
  }

  /** What the sender wraps up the receiver unwraps, for payloads within the limit. */
  lemma BodyOpens(payload: bytes)
    requires 0 < |payload| <= MAX_BODY
    ensures var b := Body(payload); 0 < |b.1| <= |payload| && Opened(b.0, b.1) == Some(payload)
  {
    hide LeBytes, LeValue, Decoded, Encoded;
    var b := Body(payload);
    if b.0 == COMPRESSED {
      var code := Encoded(payload);
      PowersFit();
      LeRoundTrip(|payload|, 4);
      CodecRoundTrip(payload);
      assert b.1[..4] == LeBytes(|payload|, 4) && b.1[4..] == code;
    }
  }

  /** Which payloads go out as they are, and what is sent of the others. */
  lemma BodyExactly(payload: bytes)
    ensures Body(payload).0 == COMPRESSED <==> |payload| > 2000 && |Encoded(payload)| + 4 < |payload|
    ensures Body(payload).0 == COMPRESSED ==> Body(payload).1 == LeBytes(|payload|, 4) + Encoded(payload)
    ensures Body(payload).0 != COMPRESSED ==> Body(payload) == (0, payload)
  {
    hide Encoded;
    if |payload| > 2000 { EncodedSome(payload); }
  }

  /** A compressed body that announces at least what its tokens stand for is opened if it
      announces just that, from 1 to 2^28 bytes; a body without the flag is not looked at. */
  lemma OpenedExactly(ts: seq<Token>, flags: byte, n: nat)
    requires AllSized(ts) && |Meaning(ts)| <= n < 0x1_0000_0000
    ensures var body := LeBytes(n, 4) + CodeBytes(ts);
            Opened(flags, body) ==
            if flags % 2 == 0 then Some(body)
            else if n == |Meaning(ts)| && 1 <= n <= 0x1000_0000 then Some(Undelta(Meaning(ts))) else None
  {
    hide LeBytes, LeValue, Expand, CodeBytes, Meaning, Undelta;
    var body := LeBytes(n, 4) + CodeBytes(ts);
    PowersFit();
    LeRoundTrip(n, 4);
    assert body[..4] == LeBytes(n, 4) && body[4..] == CodeBytes(ts);
    TokensExpand(ts, [], n);
    assert [] + Meaning(ts) == Meaning(ts);
  }

  // ----- the bytes -----

  /** Byte `i` of a number, counted from the least. */
  lemma {:induction false} LeByteAt(n: nat, k: nat, i: nat)
    requires i < k
    ensures LeBytes(n, k)[i] == n / Power256(i) % 256
  {
    if i > 0 {
      LeByteAt(n / 256, k - 1, i - 1);
      DivDiv(n, 256, Power256(i - 1));
    }
  }

  /** The header byte by byte: the four bytes of the prefix, four single bytes, and the
      size, least byte first. */
  lemma HeaderBytes(h: Header, i: nat)
    requires h.prefix == PREFIX && h.size >= 0 && i < 8
    ensures WriteHeader(h)[..8] == [0xfa, 0xde, 0xfa, 0xce, h.version, h.flags, h.endian, h.msgtype]
    ensures WriteHeader(h)[8 + i] == h.size / Power256(i) % 256
  {
    hide LeBytes, Power256;
    LeByteAt(h.size, 8, i);
    PrefixBytes();
  }

  lemma PrefixBytes()
    ensures LeBytes(PREFIX, 4) == [0xfa, 0xde, 0xfa, 0xce]
  {
    var n := 0xcefade;
    assert LeBytes(PREFIX, 4) == [0xfa] + LeBytes(n, 3);
    assert LeBytes(n, 3) == [0xde] + LeBytes(0xcefa, 2);
    assert LeBytes(0xcefa, 2) == [0xfa] + LeBytes(0xce, 1);
    assert LeBytes(0xce, 1) == [0xce] + LeBytes(0, 0);
  }

  /** What four bytes stand for, the least first. */
  function Four(a: nat, b: nat, c: nat, d: nat): nat { a + 0x100 * b + 0x1_0000 * c + 0x100_0000 * d }

  /** The size in a header. */
  function SizeIn(s: bytes): nat
    requires |s| == HEADER_SIZE
  {
    Four(s[8], s[9], s[10], s[11]) + 0x1_0000_0000 * Four(s[12], s[13], s[14], s[15])
  }

  /** A header is accepted if it begins with the prefix and its size is from 1 to 2^28. */
  lemma AcceptedExactly(s: bytes)
    requires |s| == HEADER_SIZE
    ensures !BadHeader(ReadHeader(s)) <==> s[..4] == [0xfa, 0xde, 0xfa, 0xce] && 1 <= SizeIn(s) <= 0x1000_0000
    ensures !BadHeader(ReadHeader(s)) ==> ReadHeader(s).size == SizeIn(s)
    ensures var h := ReadHeader(s); h.version == s[4] && h.flags == s[5] && h.endian == s[6] && h.msgtype == s[7]
  {
    hide LeValue;
    FourBytes(s[..4]);
    FourBytes(s[8..][..4]);
    FourBytes(s[8..][4..]);
    LowHigh(s[8..]);
    SamePrefix(s[0], s[1], s[2], s[3]);
  }

  lemma SamePrefix(a: byte, b: byte, c: byte, d: byte)
    ensures Four(a, b, c, d) == PREFIX <==> [a, b, c, d] == [0xfa, 0xde, 0xfa, 0xce]
  {
  }

  lemma FourBytes(t: bytes)
    requires |t| == 4
    ensures LeValue(t) == Four(t[0], t[1], t[2], t[3])
  {
    assert t[1..][1..] == t[2..] && t[2..][1..] == t[3..] && t[3..][1..] == [];
    assert LeValue(t[3..]) == t[3];
    assert LeValue(t[2..]) == t[2] + 256 * LeValue(t[3..]);
    assert LeValue(t[1..]) == t[1] + 256 * LeValue(t[2..]);
  }

  lemma LowHigh(t: bytes)
    requires |t| == 8
    ensures LeValue(t) == LeValue(t[..4]) + 0x1_0000_0000 * LeValue(t[4..])
  {
    LePrefix(t, 4);
    assert Power256(4) == 0x1_0000_0000 by { PowersFit(); }
  }

  lemma {:induction false} LePrefix(t: bytes, k: nat)
    requires k <= |t|
    ensures LeValue(t) == LeValue(t[..k]) + Power256(k) * LeValue(t[k..])
  {
    if k > 0 {
      LePrefix(t[1..], k - 1);
      assert t[1..][..k - 1] == t[..k][1..] && t[1..][k - 1..] == t[k..];
      var v := LeValue(t[k..]);
      assert 256 * (Power256(k - 1) * v) == Power256(k) * v;
    } else {
      assert t[0..] == t;
    }
  }
}
