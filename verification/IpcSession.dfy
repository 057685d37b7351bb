/** Client and server together: what one side sends the other side gets. */
module IpcSession {
  import opened Bytes
  import opened Options
  import opened IpcCodec
  import opened IpcWire
  import opened IpcConn
  import opened IpcServer

  datatype Message = Message(payload: bytes, msgtype: byte)

  function Stream(ms: seq<Message>): bytes {
    if ms == [] then [] else Frame(ms[0].payload, ms[0].msgtype) + Stream(ms[1..])
  }

  /** The message an event hands to the evaluator, if it hands over one. */
  function Received(e: Event): Option<Message> {
    match e
    case Delivered(h, body) =>
      (match Opened(h.flags, body)
       case Some(payload) => Some(Message(payload, h.msgtype))
       case None => None)
    case _ => None
  }

  ghost predicate Arrived(log: seq<Event>, ms: seq<Message>) {
    |log| == |ms| && forall i :: 0 <= i < |ms| ==> Received(log[i]) == Some(ms[i])
  }

  ghost predicate Sendable(ms: seq<Message>) { forall i :: 0 <= i < |ms| ==> 0 < |ms[i].payload| <= MAX_BODY }

  lemma FrameRead(m: Message, rest: bytes)
    requires 0 < |m.payload| <= MAX_BODY
    ensures var b := Body(m.payload);
            var h := Header(PREFIX, VERSION, b.0, 0, m.msgtype, |b.1|);
            var s := Frame(m.payload, m.msgtype) + rest;
            && |s| >= HEADER_SIZE + |b.1| && ReadHeader(s[..HEADER_SIZE]) == h && !BadHeader(h)
            && s[HEADER_SIZE..HEADER_SIZE + |b.1|] == b.1 && s[HEADER_SIZE + |b.1|..] == rest
            && Received(Delivered(h, b.1)) == Some(m)
  {
    hide Body, Opened, WriteHeader, ReadHeader;
    var b := Body(m.payload);
    var h := Header(PREFIX, VERSION, b.0, 0, m.msgtype, |b.1|);
    BodyOpens(m.payload);
    HeaderRoundTrip(h);
    var s := Frame(m.payload, m.msgtype) + rest;
    assert s == WriteHeader(h) + (b.1 + rest);
    assert s[..HEADER_SIZE] == WriteHeader(h);
  }

  lemma {:induction false} StreamRead(ms: seq<Message>)
    requires Sendable(ms)
    ensures Arrived(Messages(Stream(ms)).0, ms) && Messages(Stream(ms)).1
    decreases |ms|
  {
    hide Frame, Body, ReadHeader, Received;
    if ms != [] {
      FrameRead(ms[0], Stream(ms[1..]));
      assert Sendable(ms[1..]);
      StreamRead(ms[1..]);
    }
  }

  /** Any messages within the limit, sent after the handshake to a server without a
      secret and cut by the transport in any way, arrive one by one, decompressed, in
      order, and leave the connection open. */
  method Exchange(ms: seq<Message>, secret: Secret, cuts: nat -> nat) returns (log: seq<Event>)
    requires Sendable(ms) && !AuthRequired(secret)
    ensures log != [] && log[0] == Greeted(false) && Arrived(log[1..], ms)
  {
    var c := new Conn(secret);
    var hello := [VERSION, 0];
    var stream := hello + Stream(ms);
    assert stream[2..] == Stream(ms);
    StreamRead(ms);
    Receive(c, stream, cuts);
    assert c.open;
    log := c.log;
  }

  // ----- logging in -----

  /** The credentials ray_ipc_connect sends, if they fit its buffer: a length byte, the
      user, a colon and the password, and a final zero that the length counts. */
  function Credentials(user: bytes, password: bytes): Option<bytes> {
    var cred := user + [COLON] + password;
    if |cred| >= 256 then None else Some([(|cred| + 1) % 256] + cred + [0])
  }

  lemma {:induction false} FirstColon(user: bytes, tail: bytes)
    requires COLON !in user
    ensures PasswordPart(user + [COLON] + tail) == tail
  {
    var s := user + [COLON] + tail;
    if user == [] {
      assert s == [COLON] + tail;
    } else {
      assert s[1..] == user[1..] + [COLON] + tail;
      assert COLON in s by { assert s[|user|] == COLON; }
      FirstColon(user[1..], tail);
    }
  }

  lemma {:induction false} EarlierColon(user: bytes, tail: bytes)
    requires COLON in user
    ensures var pw := PasswordPart(user + [COLON] + tail);
            |pw| > |tail| && exists k: nat :: k <= |user| && pw == user[k..] + [COLON] + tail
  {
    var s := user + [COLON] + tail;
    assert COLON in s by { assert s[|user|] == COLON; }
    assert s[1..] == user[1..] + [COLON] + tail;
    if user[0] == COLON {
      assert s[1..] == user[1..] + [COLON] + tail;
      LaterPart(user, 1, tail);
    } else {
      EarlierColon(user[1..], tail);
      var k: nat :| k <= |user[1..]| && PasswordPart(s[1..]) == user[1..][k..] + [COLON] + tail;
      assert user[1..][k..] == user[k + 1..];
    }
  }

  lemma LaterPart(user: bytes, k: nat, tail: bytes)
    requires k <= |user|
    ensures user[k..] + [COLON] + tail == (user + [COLON] + tail)[k..]
  {
  }

  ghost predicate NoZero(s: bytes) { forall b :: b in s ==> b != 0 }

  lemma PaddedDiffer(a: bytes, b: bytes)
    requires |a| < |b| <= SECRET_SIZE && NoZero(b)
    ensures Padded(b) != Padded(a)
  {
    assert Padded(b)[|a|] == b[|a|] && b[|a|] in b;
    assert Padded(a)[|a|] == 0;
  }

  /** The password is taken for the whole of what follows the first colon. */
  lemma CredentialsJudged(user: bytes, password: bytes)
    requires NoZero(user) && NoZero(password) && |user| + 1 + |password| <= 254 && password != []
    ensures ValidCreds(user + [COLON] + password + [0], Padded(password)) <==> COLON !in user
  {
    var creds := user + [COLON] + password + [0];
    assert creds == user + [COLON] + (password + [0]);
    var pw := PasswordPart(creds);
    if COLON !in user {
      FirstColon(user, password + [0]);
      assert pw[..|pw| - 1] == password;
    } else {
      EarlierColon(user, password + [0]);
      var k: nat :| k <= |user| && pw == user[k..] + [COLON] + (password + [0]);
      var bare := user[k..] + [COLON] + password;
      assert pw == bare + [0] && pw[..|pw| - 1] == bare;
      assert NoZero(bare) by {
        forall b | b in bare
          ensures b != 0
        {
          assert b in user[k..] || b == COLON || b in password;
          if b in user[k..] { assert b in user; }
        }
      }
      PaddedDiffer(password, bare);
    }
  }

  /** A login with the right password is let in exactly when the user name has no colon
      and user, colon and password together are at most 254 bytes. At 255 the client
      still sends them, but the length byte wraps to 0 and the server hangs up. */
  lemma LoginAccepted(user: bytes, password: bytes)
    requires NoZero(user) && NoZero(password) && 0 < |password| <= 255
    requires Credentials(user, password).Some?
    ensures Login(Padded(password), Credentials(user, password).value) == ([Judged(true)], true)
            <==> COLON !in user && |user| + 1 + |password| <= 254
    ensures |user| + 1 + |password| == 255 ==>
              Login(Padded(password), Credentials(user, password).value) == ([], false)
  {
    hide ValidCreds;
    var s := Credentials(user, password).value;
    var cred := user + [COLON] + password;
    if |cred| <= 254 {
      CredentialsJudged(user, password);
      var n := |cred| + 1;
      assert s[0] == n && s[1..1 + n] == cred + [0] && s[1 + n..] == [];
      assert [Judged(true)] + [] == [Judged(true)];
    } else {
      assert s[0] == 0;
    }
  }

  // ----- the gate -----

  lemma {:induction false} OnlyDelivered(s: bytes)
    ensures forall i :: 0 <= i < |Messages(s).0| ==> Messages(s).0[i].Delivered?
    decreases |s|
  {
    hide ReadHeader;
    if |s| >= HEADER_SIZE && !BadHeader(ReadHeader(s[..HEADER_SIZE])) {
      var n := ReadHeader(s[..HEADER_SIZE]).size;
      if |s| >= HEADER_SIZE + n { OnlyDelivered(s[HEADER_SIZE + n..]); }
    }
  }

  /** A stream of messages ends the connection at its first header exactly if that does not
      begin with the prefix, or its size is 0 or beyond 2^28. */
  lemma DroppedExactly(s: bytes)
    requires |s| >= HEADER_SIZE
    ensures Messages(s) == ([], false) <==>
              s[..4] != [0xfa, 0xde, 0xfa, 0xce] || !(1 <= SizeIn(s[..HEADER_SIZE]) <= 0x1000_0000)
  {
    hide ReadHeader, BadHeader;
    AcceptedExactly(s[..HEADER_SIZE]);
    assert s[..HEADER_SIZE][..4] == s[..4];
  }

  lemma Asks(password: bytes)
    requires NoZero(password) && 0 < |password| <= 255
    ensures Padded(password)[0] == password[0] != 0
  {
    assert password[0] in password;
  }

  /** A server with a password delivers nothing before it has let the client in. */
  lemma NothingBeforeLogin(password: bytes, s: bytes)
    requires NoZero(password) && 0 < |password| <= 255
    ensures var log := Session(Padded(password), s).0;
            && (|s| >= 2 ==> log != [] && log[0] == Greeted(true))
            && forall i :: 0 <= i < |log| && log[i].Delivered? ==> i >= 2 && log[1] == Judged(true)
  {
    hide ValidCreds, Messages;
    Asks(password);
  }

  /** Wrong credentials are judged and end the connection, whatever follows them. */
  lemma Refused(password: bytes, hello: bytes, creds: bytes, rest: bytes)
    requires NoZero(password) && 0 < |password| <= 255 && |hello| == 2 && 0 < |creds| <= 255
    requires !ValidCreds(creds, Padded(password))
    ensures Session(Padded(password), hello + [|creds|] + creds + rest) == ([Greeted(true), Judged(false)], false)
  {
    hide ValidCreds, Messages;
    Asks(password);
    var s := hello + [|creds|] + creds + rest;
    assert s[2..] == [|creds|] + creds + rest;
    assert s[2..][1..1 + |creds|] == creds;
    assert [Greeted(true)] + [Judged(false)] == [Greeted(true), Judged(false)];
  }

  /** A server without one never asks. */
  lemma NeverAsks(s: bytes)
    ensures var log := Session(Padded([]), s).0;
            && (|s| >= 2 ==> log != [] && log[0] == Greeted(false))
            && forall i :: 0 <= i < |log| ==> !log[i].Judged?
  {
    hide Messages;
    if |s| >= 2 { OnlyDelivered(s[2..]); }
  }

  /** A whole session: two bytes of handshake, the right credentials, then messages. All of
      them arrive, however the stream is cut. */
  method LoginThenExchange(user: bytes, password: bytes, ms: seq<Message>, hello: bytes, cuts: nat -> nat)
    returns (log: seq<Event>)
    requires NoZero(user) && NoZero(password) && password != [] && COLON !in user && |user| + 1 + |password| <= 254
    requires Sendable(ms) && |hello| == 2
    ensures |log| >= 2 && log[0] == Greeted(true) && log[1] == Judged(true) && Arrived(log[2..], ms)
  {
    hide ValidCreds, Session;
    var c := new Conn(Padded(password));
    var creds := Credentials(user, password).value;
    var stream := hello + creds + Stream(ms);
    SessionRead(user, password, ms, hello);
    Receive(c, stream, cuts);
    log := c.log;
  }

  lemma SessionRead(user: bytes, password: bytes, ms: seq<Message>, hello: bytes)
    requires NoZero(user) && NoZero(password) && password != [] && COLON !in user && |user| + 1 + |password| <= 254
    requires Sendable(ms) && |hello| == 2
    ensures Credentials(user, password).Some?
    ensures var r := Session(Padded(password), hello + Credentials(user, password).value + Stream(ms));
            r.1 && |r.0| >= 2 && r.0[0] == Greeted(true) && r.0[1] == Judged(true) && Arrived(r.0[2..], ms)
  {
    hide ValidCreds, Messages, Stream;
    Asks(password);
    CredentialsJudged(user, password);
    StreamRead(ms);
    var cred := user + [COLON] + password;
    var n := |cred| + 1;
    var creds := [n] + cred + [0];
    var s := hello + creds + Stream(ms);
    var t := s[2..];
    assert t == creds + Stream(ms);
    assert t[0] == n && t[1..1 + n] == cred + [0] && t[1 + n..] == Stream(ms);
    assert Login(Padded(password), t) == ([Judged(true)] + Messages(Stream(ms)).0, true);
    assert ([Greeted(true)] + ([Judged(true)] + Messages(Stream(ms)).0))[2..] == Messages(Stream(ms)).0;
  }

  function Zeros(k: nat): bytes { seq(k, _ => 0) }

  lemma PaddedSame(bare: bytes, password: bytes)
    requires |bare| <= 255 && NoZero(password) && |password| <= 255
    ensures Padded(bare) == Padded(password) <==>
              |bare| >= |password| && bare == password + Zeros(|bare| - |password|)
  {
    if |bare| < |password| {
      PaddedDiffer(bare, password);
    } else {
      PaddedZeros(password, |bare| - |password|);
      assert forall i :: 0 <= i < |bare| ==> Padded(bare)[i] == bare[i];
      assert forall i :: 0 <= i < |bare| ==> Padded(password)[i] == (password + Zeros(|bare| - |password|))[i];
    }
  }

  lemma PaddedZeros(password: bytes, k: nat)
    requires |password| + k <= 255
    ensures Padded(password + Zeros(k)) == Padded(password)
  {
    assert Padded(password + Zeros(k)) == password + (Zeros(k) + Zeros(SECRET_SIZE - |password| - k));
    assert Zeros(k) + Zeros(SECRET_SIZE - |password| - k) == Zeros(SECRET_SIZE - |password|);
  }

  /** The credentials carry the password, with or without a user before it, and with any
      number of zeros behind. */
  ghost predicate Carries(creds: bytes, user: Option<bytes>, password: bytes, k: nat) {
    match user
    case None => COLON !in creds && creds == password + Zeros(k)
    case Some(u) => COLON !in u && creds == u + [COLON] + (password + Zeros(k))
  }

  lemma {:induction false} PartIs(creds: bytes) returns (user: Option<bytes>)
    ensures user.None? ==> COLON !in creds && PasswordPart(creds) == creds
    ensures user.Some? ==> COLON !in user.value && creds == user.value + [COLON] + PasswordPart(creds)
  {
    if COLON !in creds {
      user := None;
    } else if creds[0] == COLON {
      user := Some([]);
    } else {
      var u := PartIs(creds[1..]);
      user := Some([creds[0]] + u.value);
    }
  }

  lemma PartOf(creds: bytes, user: Option<bytes>, password: bytes, k: nat)
    requires Carries(creds, user, password, k)
    ensures PasswordPart(creds) == password + Zeros(k)
  {
    if user.Some? { FirstColon(user.value, password + Zeros(k)); }
  }

  /** Any credentials a client can send are judged exactly by that. */
  lemma JudgedExactly(creds: bytes, password: bytes)
    requires |creds| <= 255 && NoZero(password) && 0 < |password| <= 255
    ensures ValidCreds(creds, Padded(password)) <==> exists user, k: nat :: Carries(creds, user, password, k)
  {
    var pw := PasswordPart(creds);
    var bare := if pw != [] && pw[|pw| - 1] == 0 then pw[..|pw| - 1] else pw;
    PaddedSame(bare, password);
    if ValidCreds(creds, Padded(password)) {
      var user := PartIs(creds);
      assert Padded(bare) == Padded(password) && |pw| >= |bare| >= |password|;
      assert pw == bare + Zeros(|pw| - |bare|);
      var k: nat := |pw| - |password|;
      assert pw == password + Zeros(k);
      assert Carries(creds, user, password, k);
    }
    if user, k: nat :| Carries(creds, user, password, k) {
      PartOf(creds, user, password, k);
      PasswordLast(password, k);
      assert bare == password + Zeros(if k > 0 then k - 1 else 0);
    }
  }

  lemma PasswordLast(password: bytes, k: nat)
    requires NoZero(password) && password != []
    ensures var pw := password + Zeros(k);
            && (k == 0 ==> pw[|pw| - 1] != 0)
            && (k > 0 ==> pw[|pw| - 1] == 0 && pw[..|pw| - 1] == password + Zeros(k - 1))
  {
    assert password[|password| - 1] in password;
  }
}
