/** The legacy server connection: a buffer allocated for what the phase waits for, and a
    receive per readable event. */
module IpcServer {
  import opened Bytes
  import opened Options
  import opened IpcWire
  import opened IpcConn

  class Conn {
    const secret: Secret
    var rxBuf: array?<byte>
    var rxLen: nat
    var rxNeed: nat
    var phase: Phase
    var hdr: Header
    var open: bool
    var log: seq<Event>

    ghost predicate Valid()
      reads this, rxBuf
    {
      && (rxBuf != null ==> rxBuf.Length == rxNeed && rxLen <= rxNeed)
      && (rxBuf == null ==> rxLen == 0)
      && Proper(Now())
    }

    ghost function Now(): State
      reads this, rxBuf
      requires rxBuf != null ==> rxLen <= rxBuf.Length
    {
      if !open then Closed(log)
      else Open(phase, if rxBuf == null then [] else rxBuf[..rxLen], rxNeed, hdr, log)
    }

    constructor (secret: Secret)
      ensures Valid() && open && Now() == START && rxBuf == null && this.secret == secret
    {
      this.secret := secret;
      rxBuf, rxLen, rxNeed, phase, hdr, open, log := null, 0, 2, Handshake, NO_HEADER, true, [];
    }

    method Close()
      requires rxBuf != null ==> rxLen <= rxBuf.Length
      modifies this
      ensures Valid() && !open && log == old(log) && rxBuf == null
    {
      rxBuf, rxLen, rxNeed, open := null, 0, 0, false;
    }

    /** The bytes a receive puts behind those already there. */
    method Store(incoming: bytes)
      requires rxBuf != null && rxLen + |incoming| <= rxBuf.Length
      modifies rxBuf
      ensures rxBuf[..rxLen + |incoming|] == old(rxBuf[..rxLen]) + incoming
    {
      var k := 0;
      while k < |incoming|
        invariant 0 <= k <= |incoming|
        invariant rxBuf[..rxLen] == old(rxBuf[..rxLen]) && rxBuf[rxLen..rxLen + k] == incoming[..k]
      {
        rxBuf[rxLen + k] := incoming[k];
        k := k + 1;
      }
    }

    /** conn_on_readable: `incoming` is what one receive returned, empty when it returned
        nothing or failed. */
    method OnReadable(incoming: bytes)
      requires Valid() && open && |incoming| <= rxNeed - rxLen
      modifies this, rxBuf
      ensures Valid() && (rxBuf == null || rxBuf == old(rxBuf) || fresh(rxBuf))
      ensures incoming == [] ==> Now() == Closed(old(log))
      ensures incoming != [] ==> Now() == FeedAll(secret, old(Now()), incoming)
    {
      hide FeedAll, OnFull;
      if rxBuf == null {
        rxBuf := new byte[rxNeed](_ => 0);
      }
      ghost var s := Now();
      var n := |incoming|;
      if n <= 0 {
        Close();
        return;
      }
      FeedFill(secret, s, incoming);
      Store(incoming);
      rxLen := rxLen + n;
      if rxLen < rxNeed { return; }
      Dispatch();
    }

    method Dispatch()
      requires open && rxBuf != null && rxBuf.Length == rxNeed == rxLen > 0
      requires (phase == Head ==> rxNeed == HEADER_SIZE) && Proper(OnFull(secret, Now()))
      modifies this, rxBuf
      ensures Valid() && Now() == OnFull(secret, old(Now())) && (rxBuf == null || rxBuf == old(rxBuf) || fresh(rxBuf))
    {
      hide ValidCreds, ReadHeader, FeedAll;
      match phase
      case Handshake => OnHandshake();
      case Creds => OnCreds();
      case Head => OnHeader();
      case Payload => OnPayload();
    }

    method OnHandshake()
      requires open && rxBuf != null && rxBuf.Length == rxNeed == rxLen > 0 && phase == Handshake
      modifies this
      ensures Valid() && Now() == OnFull(secret, old(Now())) && rxBuf == null
    {
      hide ValidCreds, ReadHeader;
      log := log + [Greeted(secret[0] != 0)];
      rxBuf, rxLen := null, 0;
      if secret[0] != 0 {
        rxNeed, phase := 1, Creds;
      } else {
        rxNeed, phase := HEADER_SIZE, Head;
      }
    }

    method OnCreds()
      requires open && rxBuf != null && rxBuf.Length == rxNeed == rxLen > 0 && phase == Creds
      modifies this, rxBuf
      ensures Valid() && Now() == OnFull(secret, old(Now())) && (rxBuf == null || fresh(rxBuf))
    {
      hide ValidCreds, ReadHeader;
      if rxLen == 1 {
        var need := rxBuf[0] as nat + 1;
        var newBuf := new byte[need](_ => 0);
        newBuf[0] := rxBuf[0];
        assert newBuf[..1] == rxBuf[..1];
        rxBuf, rxNeed := newBuf, need;
        return;
      }
      var ok := ValidCreds(rxBuf[1..rxLen], secret);
      assert rxBuf[..rxLen][1..] == rxBuf[1..rxLen];
      log := log + [Judged(ok)];
      if !ok {
        Close();
        return;
      }
      rxBuf, rxLen, rxNeed, phase := null, 0, HEADER_SIZE, Head;
    }

    method OnHeader()
      requires open && rxBuf != null && rxBuf.Length == rxNeed == rxLen == HEADER_SIZE && phase == Head
      modifies this
      ensures Valid() && Now() == OnFull(secret, old(Now())) && (rxBuf == null || fresh(rxBuf))
    {
      hide ValidCreds, ReadHeader;
      hdr := ReadHeader(rxBuf[..HEADER_SIZE]);
      if hdr.prefix != PREFIX { Close(); return; }
      if hdr.size <= 0 { Close(); return; }
      if hdr.size > MAX_BODY { Close(); return; }
      rxBuf := new byte[hdr.size](_ => 0);
      rxLen, rxNeed, phase := 0, hdr.size, Payload;
    }

    method OnPayload()
      requires open && rxBuf != null && rxBuf.Length == rxNeed == rxLen > 0 && phase == Payload
      modifies this
      ensures Valid() && Now() == OnFull(secret, old(Now())) && rxBuf == null
    {
      hide ValidCreds, ReadHeader;
      log := log + [Delivered(hdr, rxBuf[..rxLen])];
      rxBuf, rxLen, rxNeed, phase := null, 0, HEADER_SIZE, Head;
    }
  }

  /** A whole stream, cut by the transport as it likes: `cuts(i)` bounds how much the i-th
      receive returns, beyond the first byte. The cuts make no difference. */
  method Receive(c: Conn, stream: bytes, cuts: nat -> nat)
    requires c.Valid() && c.open && c.Now() == START && c.rxBuf == null
    modifies c
    ensures c.Valid() && c.log == Session(c.secret, stream).0 && c.open == Session(c.secret, stream).1
  {
    hide FeedAll, Session;
    var at, i := 0, 0;
    FeedNothing(c.secret, START);
    while c.open && at < |stream|
      invariant 0 <= at <= |stream| && 0 <= i && c.Valid() && (c.rxBuf == null || fresh(c.rxBuf))
      invariant c.open ==> c.Now() == FeedAll(c.secret, START, stream[..at])
      invariant !c.open ==> c.Now() == FeedAll(c.secret, START, stream)
      decreases c.open, |stream| - at
    {
      var n := 1 + cuts(i);
      if n > |stream| - at { n := |stream| - at; }
      if n > c.rxNeed - c.rxLen { n := c.rxNeed - c.rxLen; }
      var part := stream[at..at + n];
      StreamStep(c.secret, stream, at, n);
      c.OnReadable(part);
      at := at + n;
      i := i + 1;
    }
    assert c.open ==> stream[..at] == stream;
    StreamMeaning(c.secret, stream);
  }

  /** Taking `n` more bytes; taking none when some are there closes the connection. */
  lemma StreamStep(secret: Secret, stream: bytes, at: nat, n: nat)
    requires at < |stream| && at + n <= |stream|
    ensures var s := FeedAll(secret, START, stream[..at]);
            && FeedAll(secret, START, stream[..at + n]) == FeedAll(secret, s, stream[at..at + n])
            && (FeedAll(secret, s, stream[at..at + n]).Closed? ==>
                  FeedAll(secret, START, stream) == FeedAll(secret, s, stream[at..at + n]))
            && (s.Open? && |s.rx| == s.need ==> FeedAll(secret, START, stream) == Closed(s.log))
  {
    hide FeedAll;
    var s := FeedAll(secret, START, stream[..at]);
    assert stream[..at + n] == stream[..at] + stream[at..at + n];
    FeedAppend(secret, START, stream[..at], stream[at..at + n]);
    assert stream == stream[..at + n] + stream[at + n..];
    FeedAppend(secret, START, stream[..at + n], stream[at + n..]);
    var t := FeedAll(secret, s, stream[at..at + n]);
    if t.Closed? { FeedClosed(secret, t, stream[at + n..]); }
    if s.Open? && |s.rx| == s.need {
      assert stream == stream[..at] + stream[at..];
      FeedAppend(secret, START, stream[..at], stream[at..]);
      FeedFirst(secret, s, stream[at..]);
      FeedClosed(secret, Closed(s.log), stream[at..][1..]);
    }
  }
}
