/** A server connection as a machine over the bytes that arrive: handshake, credentials
    if a secret is set, then header and payload in turn. */
module IpcConn {
  import opened Bytes
  import opened Options
  import opened IpcWire

  datatype Phase = Handshake | Creds | Head | Payload

  /** What a connection does that can be seen from outside. */
  datatype Event = Greeted(auth: bool) | Judged(ok: bool) | Delivered(hdr: Header, body: bytes)

  datatype State =
    | Open(phase: Phase, rx: bytes, need: nat, hdr: Header, log: seq<Event>)
    | Closed(log: seq<Event>)

  const NO_HEADER := Header(0, 0, 0, 0, 0, 0)

  const SECRET_SIZE: nat := 256

  type Secret = s: bytes | |s| == SECRET_SIZE witness seq(SECRET_SIZE, _ => 0)

  predicate AuthRequired(secret: Secret) { secret[0] != 0 }

  const COLON: byte := 58

  /** The bytes behind the first colon, or all of them. */
  function PasswordPart(creds: bytes): (pw: bytes)
    ensures |pw| <= |creds|
  {
    if creds == [] then [] else if creds[0] == COLON then creds[1..]
    else if COLON in creds then PasswordPart(creds[1..]) else creds
  }

  function Padded(pw: bytes): Secret
    requires |pw| <= SECRET_SIZE
  {
    pw + seq(SECRET_SIZE - |pw|, _ => 0)
  }

  /** validate_creds: one trailing zero dropped, at most 255 bytes, padded and compared. */
  predicate ValidCreds(creds: bytes, secret: Secret) {
    creds != [] &&
    var pw := PasswordPart(creds);
    var bare := if pw != [] && pw[|pw| - 1] == 0 then pw[..|pw| - 1] else pw;
    Padded(if |bare| > 255 then bare[..255] else bare) == secret
  }

  const START := Open(Handshake, [], 2, NO_HEADER, [])

  /** The phase handlers, run when the bytes a phase waits for are all there. */
  function OnFull(secret: Secret, s: State): (r: State)
    requires s.Open? && |s.rx| == s.need > 0 && (s.phase == Head ==> s.need == HEADER_SIZE)
  {
    match s.phase
    case Handshake =>
      var log := s.log + [Greeted(AuthRequired(secret))];
      if AuthRequired(secret) then Open(Creds, [], 1, s.hdr, log) else Open(Head, [], HEADER_SIZE, s.hdr, log)
    case Creds =>
      if |s.rx| == 1 then s.(need := s.rx[0] as nat + 1)
      else
        var ok := ValidCreds(s.rx[1..], secret);
        if ok then Open(Head, [], HEADER_SIZE, s.hdr, s.log + [Judged(true)]) else Closed(s.log + [Judged(false)])
    case Head =>
      var h := ReadHeader(s.rx);
      if BadHeader(h) then Closed(s.log) else Open(Payload, [], h.size, h, s.log)
    case Payload =>
      Open(Head, [], HEADER_SIZE, s.hdr, s.log + [Delivered(s.hdr, s.rx)])
  }

  ghost predicate Proper(s: State) {
    s.Open? ==> && |s.rx| <= s.need && s.need > 0 && (s.phase == Head ==> s.need == HEADER_SIZE)
                && (|s.rx| == s.need ==> s.phase == Creds && s.need == 1)
                && (s.phase == Payload ==> s.need == s.hdr.size && !BadHeader(s.hdr))
                && (s.phase == Creds && s.need > 1 ==> s.rx != [])
  }

  /** One more byte arrives. A connection that waits for nothing, after credentials of
      length 0, reads nothing and is closed. */
  function Feed(secret: Secret, s: State, b: byte): (r: State)
    requires Proper(s)
    ensures Proper(r)
  {
    if s.Closed? then s
    else if |s.rx| == s.need then Closed(s.log)
    else if |s.rx| + 1 < s.need then s.(rx := s.rx + [b])
    else OnFull(secret, s.(rx := s.rx + [b]))
  }

  function FeedAll(secret: Secret, s: State, bs: bytes): (r: State)
    requires Proper(s)
    ensures Proper(r)
    decreases |bs|
  {
    if bs == [] then s else FeedAll(secret, Feed(secret, s, bs[0]), bs[1..])
  }

  lemma {:induction false} FeedAppend(secret: Secret, s: State, a: bytes, b: bytes)
    requires Proper(s)
    ensures FeedAll(secret, s, a + b) == FeedAll(secret, FeedAll(secret, s, a), b)
    decreases |a|
  {
    if a == [] {
      assert a + b == b;
    } else {
      assert (a + b)[1..] == a[1..] + b;
      FeedAppend(secret, Feed(secret, s, a[0]), a[1..], b);
    }
  }

  lemma {:induction false} FeedClosed(secret: Secret, s: State, bs: bytes)
    requires s.Closed?
    ensures FeedAll(secret, s, bs) == s
    decreases |bs|
  {
    if bs != [] { FeedClosed(secret, s, bs[1..]); }
  }

  /** Bytes a phase still waits for, taken together. */
  lemma {:induction false} FeedFill(secret: Secret, s: State, bs: bytes)
    requires Proper(s) && s.Open? && bs != [] && |s.rx| + |bs| <= s.need
    ensures FeedAll(secret, s, bs) ==
            if |s.rx| + |bs| < s.need then s.(rx := s.rx + bs) else OnFull(secret, s.(rx := s.rx + bs))
    decreases |bs|
  {
    hide OnFull;
    var t := Feed(secret, s, bs[0]);
    assert bs == [bs[0]] + bs[1..];
    if |bs| > 1 {
      FeedFill(secret, t, bs[1..]);
      assert t.rx + bs[1..] == s.rx + bs;
    } else {
      assert s.rx + [bs[0]] == s.rx + bs;
    }
  }

  // ----- the whole stream read at once -----

  /** All complete messages of a stream, and whether it ends the connection. */
  function Messages(s: bytes): (r: (seq<Event>, bool))
    decreases |s|
  {
    if |s| < HEADER_SIZE then ([], true)
    else
      var h := ReadHeader(s[..HEADER_SIZE]);
      if BadHeader(h) then ([], false)
      else if |s| < HEADER_SIZE + h.size then ([], true)
      else
        var r := Messages(s[HEADER_SIZE + h.size..]);
        ([Delivered(h, s[HEADER_SIZE..HEADER_SIZE + h.size])] + r.0, r.1)
  }

  function Login(secret: Secret, s: bytes): (r: (seq<Event>, bool)) {
    if |s| < 1 then ([], true)
    else
      var n: nat := s[0];
      if n == 0 then ([], |s| == 1)
      else if |s| < 1 + n then ([], true)
      else if !ValidCreds(s[1..1 + n], secret) then ([Judged(false)], false)
      else var r := Messages(s[1 + n..]); ([Judged(true)] + r.0, r.1)
  }

  function Session(secret: Secret, s: bytes): (r: (seq<Event>, bool)) {
    if |s| < 2 then ([], true)
    else
      var r := if AuthRequired(secret) then Login(secret, s[2..]) else Messages(s[2..]);
      ([Greeted(AuthRequired(secret))] + r.0, r.1)
  }

  lemma FeedHeader(secret: Secret, s: State, bs: bytes)
    requires Proper(s) && s.Open? && s.phase == Head && s.rx == [] && |bs| >= HEADER_SIZE
    ensures var h := ReadHeader(bs[..HEADER_SIZE]);
            FeedAll(secret, s, bs) == if BadHeader(h) then Closed(s.log)
                                      else FeedAll(secret, Open(Payload, [], h.size, h, s.log), bs[HEADER_SIZE..])
  {
    var front := bs[..HEADER_SIZE];
    assert bs == front + bs[HEADER_SIZE..];
    FeedAppend(secret, s, front, bs[HEADER_SIZE..]);
    FeedFill(secret, s, front);
    assert [] + front == front;
    if BadHeader(ReadHeader(front)) { FeedClosed(secret, Closed(s.log), bs[HEADER_SIZE..]); }
  }

  lemma {:induction false} FeedMessages(secret: Secret, s: State, bs: bytes)
    requires Proper(s) && s.Open? && s.phase == Head && s.rx == []
    ensures var r := FeedAll(secret, s, bs);
            r.log == s.log + Messages(bs).0 && r.Open? == Messages(bs).1
    decreases |bs|
  {
    hide FeedAll, OnFull, Feed;
    if |bs| < HEADER_SIZE {
      if bs != [] { FeedFill(secret, s, bs); } else { FeedNothing(secret, s); }
      assert s.log + [] == s.log;
    } else {
      FeedHeader(secret, s, bs);
      var h := ReadHeader(bs[..HEADER_SIZE]);
      if BadHeader(h) {
        assert s.log + [] == s.log;
      } else {
        FeedPayload(secret, Open(Payload, [], h.size, h, s.log), bs[HEADER_SIZE..]);
        if |bs| >= HEADER_SIZE + h.size {
          var event := Delivered(h, bs[HEADER_SIZE..HEADER_SIZE + h.size]);
          assert bs[HEADER_SIZE..][..h.size] == bs[HEADER_SIZE..HEADER_SIZE + h.size];
          assert bs[HEADER_SIZE..][h.size..] == bs[HEADER_SIZE + h.size..];
          FeedMessages(secret, Open(Head, [], HEADER_SIZE, h, s.log + [event]), bs[HEADER_SIZE + h.size..]);
          assert s.log + ([event] + Messages(bs[HEADER_SIZE + h.size..]).0)
              == (s.log + [event]) + Messages(bs[HEADER_SIZE + h.size..]).0;
        } else {
          assert s.log + [] == s.log;
        }
      }
    }
  }

  lemma FeedNothing(secret: Secret, s: State)
    requires Proper(s)
    ensures FeedAll(secret, s, []) == s
  {
  }

  lemma FeedPayload(secret: Secret, s: State, bs: bytes)
    requires Proper(s) && s.Open? && s.phase == Payload && s.rx == []
    ensures var n := s.need;
            FeedAll(secret, s, bs) ==
            if |bs| < n then s.(rx := bs)
            else FeedAll(secret, Open(Head, [], HEADER_SIZE, s.hdr, s.log + [Delivered(s.hdr, bs[..n])]), bs[n..])
  {
    hide FeedAll;
    var n := s.need;
    if |bs| < n {
      if bs != [] { FeedFill(secret, s, bs); assert [] + bs == bs; } else { FeedNothing(secret, s); }
    } else {
      assert bs == bs[..n] + bs[n..];
      FeedAppend(secret, s, bs[..n], bs[n..]);
      FeedFill(secret, s, bs[..n]);
      assert [] + bs[..n] == bs[..n];
    }
  }

  lemma FeedFirst(secret: Secret, s: State, bs: bytes)
    requires Proper(s) && bs != []
    ensures FeedAll(secret, s, bs) == FeedAll(secret, Feed(secret, s, bs[0]), bs[1..])
  {
  }

  /** The credentials, their length byte `n` already read. */
  lemma FeedCreds(secret: Secret, s: State, n: byte, bs: bytes)
    requires s.Open? && n > 0 && s == Open(Creds, [n], n + 1, s.hdr, s.log)
    ensures var k: nat := n;
            FeedAll(secret, s, bs) ==
            if |bs| < k then s.(rx := [n] + bs)
            else FeedAll(secret, if ValidCreds(bs[..k], secret)
                                 then Open(Head, [], HEADER_SIZE, s.hdr, s.log + [Judged(true)])
                                 else Closed(s.log + [Judged(false)]), bs[k..])
  {
    hide FeedAll, ValidCreds;
    var k: nat := n;
    if |bs| < k {
      if bs != [] { FeedFill(secret, s, bs); } else { FeedNothing(secret, s); assert [n] + [] == [n]; }
    } else {
      assert bs == bs[..k] + bs[k..];
      FeedAppend(secret, s, bs[..k], bs[k..]);
      FeedFill(secret, s, bs[..k]);
      assert ([n] + bs[..k])[1..] == bs[..k];
    }
  }

  lemma FeedLogin(secret: Secret, s: State, bs: bytes)
    requires s.Open? && s == Open(Creds, [], 1, s.hdr, s.log)
    ensures var r := FeedAll(secret, s, bs);
            r.log == s.log + Login(secret, bs).0 && r.Open? == Login(secret, bs).1
  {
    hide FeedAll, ValidCreds, Messages;
    assert s.log + [] == s.log;
    if bs == [] {
      FeedNothing(secret, s);
    } else {
      var n: nat := bs[0];
      var rest := bs[1..];
      FeedFirst(secret, s, bs);
      var t := Open(Creds, [bs[0]], n + 1, s.hdr, s.log);
      assert Feed(secret, s, bs[0]) == t;
      if n == 0 {
        if rest == [] { FeedNothing(secret, t); } else {
          FeedFirst(secret, t, rest);
          FeedClosed(secret, Closed(s.log), rest[1..]);
        }
      } else {
        FeedCreds(secret, t, bs[0], rest);
        if |rest| >= n {
          assert rest[..n] == bs[1..1 + n] && rest[n..] == bs[1 + n..];
          if ValidCreds(rest[..n], secret) {
            FeedMessages(secret, Open(Head, [], HEADER_SIZE, s.hdr, s.log + [Judged(true)]), rest[n..]);
            assert s.log + ([Judged(true)] + Messages(rest[n..]).0) == (s.log + [Judged(true)]) + Messages(rest[n..]).0;
          } else {
            FeedClosed(secret, Closed(s.log + [Judged(false)]), rest[n..]);
          }
        }
      }
    }
  }

  /** Byte by byte, a connection does exactly what reading its whole stream at once says. */
  lemma StreamMeaning(secret: Secret, bs: bytes)
    ensures var r := FeedAll(secret, START, bs);
            r.log == Session(secret, bs).0 && r.Open? == Session(secret, bs).1
  {
    hide FeedAll, Login, Messages;
    if |bs| < 2 {
      if bs != [] { FeedFill(secret, START, bs); } else { FeedNothing(secret, START); }
    } else {
      assert bs == bs[..2] + bs[2..];
      FeedAppend(secret, START, bs[..2], bs[2..]);
      FeedFill(secret, START, bs[..2]);
      var log := [Greeted(AuthRequired(secret))];
      assert [] + log == log;
      if AuthRequired(secret) {
        FeedLogin(secret, Open(Creds, [], 1, NO_HEADER, log), bs[2..]);
      } else {
        FeedMessages(secret, Open(Head, [], HEADER_SIZE, NO_HEADER, log), bs[2..]);
      }
    }
  }
}
