/** The poll-driven connection without credentials: a receive buffer that is reused or
    replaced for each request, and a loop that serves as many phases as the bytes at
    hand allow. */
module IpcPoll {
  import opened Bytes
  import opened Options
  import opened IpcWire
  import opened IpcConn

  /** No secret set. */
  predicate NoAuth(secret: Secret) { !AuthRequired(secret) }

  class Selector {
    const secret: Secret
    /** The rx buffer: its storage, the size asked for, and how much has arrived. */
    var data: array<byte>
    var size: nat
    var offset: nat
    var readFn: Phase
    var hdr: Header
    var alive: bool
    var log: seq<Event>

    ghost predicate Valid()
      reads this, data
    {
      && offset <= size <= data.Length && NoAuth(secret)
      && Proper(Now())
      && (alive ==> readFn != Creds)
    }

    ghost function Now(): State
      reads this, data
      requires offset <= data.Length
    {
      if alive then Open(readFn, data[..offset], size, hdr, log) else Closed(log)
    }

    constructor (secret: Secret)
      requires NoAuth(secret)
      ensures Valid() && alive && Now() == START && fresh(data) && this.secret == secret
    {
      this.secret := secret;
      data := new byte[2](_ => 0);
      size, offset, readFn, hdr, alive, log := 2, 0, Handshake, NO_HEADER, true, [];
    }

    /** ray_poll_rx_request: the buffer is reused if it is as large as asked. */
    method RxRequest(n: nat)
      requires size <= data.Length
      modifies this`data, this`size, this`offset
      ensures offset == 0 && size == n <= data.Length && (data == old(data) || fresh(data))
    {
      if size >= n {
        offset, size := 0, n;
        return;
      }
      data := new byte[n](_ => 0);
      offset, size := 0, n;
    }

    /** Receives until the buffer is full or nothing is left for now; `cuts` bounds each
        receive beyond its first byte. */
    method Fill(incoming: bytes, cuts: nat -> nat) returns (taken: nat)
      requires offset <= size <= data.Length
      modifies this`offset, data
      ensures taken <= |incoming| && offset == old(offset) + taken <= size
      ensures data[..offset] == old(data[..offset]) + incoming[..taken]
      ensures offset == size || taken == |incoming|
    {
      taken := 0;
      ghost var before := data[..offset];
      var i := 0;
      while offset < size && taken < |incoming|
        invariant 0 <= i && taken <= |incoming| && offset == old(offset) + taken <= size <= data.Length
        invariant data[..offset] == before + incoming[..taken]
        decreases |incoming| - taken
      {
        var n := 1 + cuts(i);
        if n > |incoming| - taken { n := |incoming| - taken; }
        if n > size - offset { n := size - offset; }
        Store(incoming[taken..taken + n]);
        offset := offset + n;
        assert incoming[..taken] + incoming[taken..taken + n] == incoming[..taken + n];
        taken := taken + n;
        i := i + 1;
      }
    }

    method Store(part: bytes)
      requires offset + |part| <= data.Length
      modifies data
      ensures data[..offset + |part|] == old(data[..offset]) + part
    {
      var k := 0;
      while k < |part|
        invariant 0 <= k <= |part| && data[..offset] == old(data[..offset]) && data[offset..offset + k] == part[..k]
      {
        data[offset + k] := part[k];
        k := k + 1;
      }
    }

    /** The read callbacks, run on a full buffer. */
    method Read()
      requires alive && offset == size <= data.Length && size > 0 && NoAuth(secret) && readFn != Creds
      requires (readFn == Head ==> size == HEADER_SIZE) && Proper(OnFull(secret, Now()))
      modifies this
      ensures Valid() && Now() == OnFull(secret, old(Now())) && (data == old(data) || fresh(data))
      ensures alive ==> offset == 0
    {
      hide ReadHeader, ValidCreds;
      match readFn
      case Handshake =>
        log := log + [Greeted(false)];
        readFn := Head;
        RxRequest(HEADER_SIZE);
      case Head =>
        hdr := ReadHeader(data[..HEADER_SIZE]);
        if hdr.prefix != PREFIX || hdr.size <= 0 || hdr.size > MAX_BODY {
          alive := false;
          return;
        }
        readFn := Payload;
        RxRequest(hdr.size);
      case Payload =>
        log := log + [Delivered(hdr, data[..offset])];
        readFn := Head;
        RxRequest(HEADER_SIZE);
      case Creds =>
    }

    /** One readable event of ray_poll_run: fill, call back, and again while bytes are at
        hand. What has arrived is served completely, whatever the cuts. */
    method OnReadable(incoming: bytes, cuts: nat -> nat)
      requires Valid() && alive && offset < size
      modifies this, data
      ensures Valid() && (data == old(data) || fresh(data))
      ensures Now() == FeedAll(secret, old(Now()), incoming)
      ensures alive ==> offset < size
    {
      hide FeedAll, OnFull, ValidCreds, ReadHeader;
      var rest := incoming;
      ghost var s0 := Now();
      while true
        invariant Valid() && alive && offset < size && (data == old(data) || fresh(data))
        invariant FeedAll(secret, Now(), rest) == FeedAll(secret, s0, incoming)
        decreases |rest|
      {
        ghost var s := Now();
        var taken := Fill(rest, cuts);
        Taken(secret, s, rest, taken);
        rest := rest[taken..];
        if offset < size { return; }
        Read();
        if !alive {
          FeedClosed(secret, Now(), rest);
          return;
        }
      }
    }
  }

  /** What a fill and the callback after it do to the rest of the bytes. */
  lemma Taken(secret: Secret, s: State, rest: bytes, taken: nat)
    requires Proper(s) && s.Open? && taken <= |rest| && |s.rx| < s.need && |s.rx| + taken <= s.need
    ensures var full := s.(rx := s.rx + rest[..taken]);
            && (|full.rx| < s.need ==> FeedAll(secret, s, rest) == FeedAll(secret, full, rest[taken..]))
            && (|full.rx| == s.need ==>
                  (Proper(OnFull(secret, full)) &&
                   FeedAll(secret, s, rest) == FeedAll(secret, OnFull(secret, full), rest[taken..])))
    ensures taken == |rest| && |s.rx| + taken < s.need ==> FeedAll(secret, s, rest) == s.(rx := s.rx + rest)
  {
    hide FeedAll, OnFull;
    assert rest == rest[..taken] + rest[taken..];
    FeedAppend(secret, s, rest[..taken], rest[taken..]);
    if taken > 0 { FeedFill(secret, s, rest[..taken]); } else { FeedNothing(secret, s); assert s.rx + [] == s.rx; }
    if taken == |rest| && |s.rx| + taken < s.need {
      assert rest[..taken] == rest;
      FeedNothing(secret, s.(rx := s.rx + rest));
    }
  }

  /** A whole stream over any number of readable events: the same as reading it at once,
      and so the same as the legacy connection. */
  method Serve(c: Selector, parts: seq<bytes>, cuts: nat -> nat)
    requires c.Valid() && c.alive && c.Now() == START && c.offset < c.size
    modifies c, c.data
    ensures c.Valid()
    ensures c.log == Session(c.secret, Concat(parts)).0 && c.alive == Session(c.secret, Concat(parts)).1
  {
    hide FeedAll, Session;
    var i := 0;
    FeedNothing(c.secret, START);
    while c.alive && i < |parts|
      invariant 0 <= i <= |parts| && c.Valid() && (c.data == old(c.data) || fresh(c.data))
                && (c.alive ==> c.offset < c.size)
      invariant c.Now() == FeedAll(c.secret, START, Concat(parts[..i]))
      decreases c.alive, |parts| - i
    {
      ConcatLast(parts, i);
      FeedAppend(c.secret, START, Concat(parts[..i]), parts[i]);
      c.OnReadable(parts[i], cuts);
      i := i + 1;
    }
    ConcatSplit(parts, i);
    FeedAppend(c.secret, START, Concat(parts[..i]), Concat(parts[i..]));
    if !c.alive {
      FeedClosed(c.secret, c.Now(), Concat(parts[i..]));
    } else {
      assert Concat(parts[i..]) == [];
      FeedNothing(c.secret, c.Now());
    }
    StreamMeaning(c.secret, Concat(parts));
  }

  function Concat(parts: seq<bytes>): bytes {
    if parts == [] then [] else parts[0] + Concat(parts[1..])
  }

  lemma {:induction false} ConcatSplit(parts: seq<bytes>, i: nat)
    requires i <= |parts|
    ensures Concat(parts) == Concat(parts[..i]) + Concat(parts[i..])
    decreases i
  {
    if i > 0 {
      ConcatSplit(parts[1..], i - 1);
      assert parts[..i][1..] == parts[1..][..i - 1] && parts[1..][i - 1..] == parts[i..];
    } else {
      assert parts[0..] == parts;
    }
  }

  lemma ConcatLast(parts: seq<bytes>, i: nat)
    requires i < |parts|
    ensures Concat(parts[..i + 1]) == Concat(parts[..i]) + parts[i]
  {
    ConcatSplit(parts[..i + 1], i);
    assert parts[..i + 1][..i] == parts[..i] && parts[..i + 1][i..] == [parts[i]];
    assert Concat([parts[i]]) == parts[i] + Concat([]);
  }
}
