/** Cutting the inbound byte stream into packets. */
module Framer {
  import opened Prelude
  import opened RemainingLength
  import opened Wire

  // ---------- Packets on the wire ----------

  /** A packet as a peer may send it: the length field need not be the shortest one. */
  datatype WirePacket = WirePacket(header: byte, lengthField: seq<byte>, body: seq<byte>)

  function WireBytes(p: WirePacket): (r: seq<byte>) {
    [p.header] + p.lengthField + p.body
  }

  /** The length field, of at most four bytes, announces the body. */
  predicate IsWirePacket(p: WirePacket) {
    Decode(p.lengthField) == Some((|p.body|, |p.lengthField|))
  }

  /** A remaining length for which the size test of the framer is right: the rewritten frame fits
      the buffer, or the packet is refused. */
  predicate SizeTestWorks(n: nat, bufSize: nat) {
    n >= bufSize || 1 + |Encode(n)| + n <= bufSize
  }

  /** Only the remaining length is compared with the buffer size, so packets in a window just below
      the size pass the test without fitting: those for which the header byte and the length field
      do not fit any more. With the configured buffer of 2248 bytes these are exactly 2246 and 2247. */
  lemma SizeTestWindow(n: nat, bufSize: nat)
    requires bufSize <= LIMIT
    ensures !SizeTestWorks(n, bufSize) <==>
            n < bufSize <= n + (if n < 128 then 1 else if n < 16384 then 2 else if n < 2097152 then 3 else 4)
    ensures bufSize == 2248 ==> (!SizeTestWorks(n, bufSize) <==> n == 2246 || n == 2247)
  {
    if n < LIMIT {
      EncodedSize(n);
    }
  }

  /** In the window, and nowhere else, the framer takes a packet for one that fits and then puts more
      bytes than the buffer has room for. */
  lemma WindowOverrunsBuffer(f: Frame, bufSize: nat)
    ensures !SizeTestWorks(|f.body|, bufSize) <==>
            OutcomeOf(f, bufSize) == Received(f) && |Canonical(f)| > bufSize
  {
  }

  /** The packet at the head of a stream, and the stream after it. */
  function FrameAt(s: seq<byte>): (r: Option<(Frame, seq<byte>)>)
    ensures r.Some? ==> |r.value.1| < |s|
  {
    if |s| == 0 then None
    else
      match StreamDecode(s[1..], 0, 1)
      case None => None
      case Some((n, used)) =>
        if |s| < 1 + used + n then None
        else Some((Frame(s[0], s[1 + used..1 + used + n]), s[1 + used + n..]))
  }

  /** Whatever encoding the length field uses, the framer sees the packet and stops right after it. */
  lemma FrameAtWirePacket(p: WirePacket, rest: seq<byte>)
    requires IsWirePacket(p)
    ensures FrameAt(WireBytes(p) + rest) == Some((Frame(p.header, p.body), rest))
  {
    var s := WireBytes(p) + rest;
    var u := |p.lengthField|;
    assert s[1..] == p.lengthField + (p.body + rest);
    DecodeIgnoresRest(p.lengthField, p.body + rest, 4);
    assert Power128(0) == 1;
    StreamDecodeWithin(s[1..], 4, 0, 0);
    assert s[1 + u..1 + u + |p.body|] == p.body;
    assert s[1 + u + |p.body|..] == rest;
  }

  lemma {:induction false} DecodeIgnoresRest(s: seq<byte>, rest: seq<byte>, budget: nat)
    requires DecodeWithin(s, budget).Some?
    ensures DecodeWithin(s + rest, budget) == DecodeWithin(s, budget)
    decreases budget
  {
    if s[0] >= 128 {
      assert (s + rest)[1..] == s[1..] + rest;
      DecodeIgnoresRest(s[1..], rest, budget - 1);
    }
  }

  lemma CanonicalIsWirePacket(f: Frame)
    requires |f.body| < LIMIT
    ensures var p := WirePacket(f.header, Encode(|f.body|), f.body);
            IsWirePacket(p) && WireBytes(p) == Canonical(f)
  {
    RoundTrip(|f.body|, []);
    assert Encode(|f.body|) + [] == Encode(|f.body|);
  }

  // ---------- A run of the framer ----------

  /** What one call leaves behind. */
  datatype Outcome = Received(frame: Frame) | Dropped

  function OutcomeOf(f: Frame, bufSize: nat): (r: Outcome) {
    if |f.body| >= bufSize then Dropped else Received(f)
  }

  /** `count` packets taken from the head of a stream, or fewer when it runs out. */
  function Receive(s: seq<byte>, bufSize: nat, count: nat): (r: (seq<Outcome>, seq<byte>))
    decreases count
  {
    if count == 0 then ([], s)
    else
      match FrameAt(s)
      case None => ([], s)
      case Some((f, rest)) =>
        var (more, last) := Receive(rest, bufSize, count - 1);
        ([OutcomeOf(f, bufSize)] + more, last)
  }

  function Concat(ps: seq<WirePacket>): (r: seq<byte>) {
    if |ps| == 0 then [] else WireBytes(ps[0]) + Concat(ps[1..])
  }

  function Outcomes(ps: seq<WirePacket>, bufSize: nat): (r: seq<Outcome>)
    ensures |r| == |ps|
  {
    if |ps| == 0 then [] else [OutcomeOf(Frame(ps[0].header, ps[0].body), bufSize)] + Outcomes(ps[1..], bufSize)
  }

  /** Framing stays synchronised: each packet of a stream gives its own outcome, dropped packets
      included, and what follows the last one is untouched. */
  lemma {:induction false} FramingStaysInSync(ps: seq<WirePacket>, rest: seq<byte>, bufSize: nat)
    requires forall p | p in ps :: IsWirePacket(p)
    ensures Receive(Concat(ps) + rest, bufSize, |ps|) == (Outcomes(ps, bufSize), rest)
    decreases |ps|
  {
    if |ps| == 0 {
      assert [] + rest == rest;
    } else {
      Associate(WireBytes(ps[0]), Concat(ps[1..]), rest);
      FrameAtWirePacket(ps[0], Concat(ps[1..]) + rest);
      FramingStaysInSync(ps[1..], rest, bufSize);
    }
  }

  // ---------- The socket ----------

  predicate IsReadResult(rc: Rc) {
    rc == MqttSuccess || rc == NetworkSslNothingToRead || rc == NetworkSslReadError || rc == NetworkSslReadTimeout
  }

  /** The receiving side of a socket. A read delivers exactly the requested bytes, or fails after
      taking fewer; on a reliable socket it fails only when too few bytes are there. */
  class Socket {
    var pending: seq<byte>
    const reliable: bool

    constructor (pending: seq<byte>, reliable: bool)
      ensures this.pending == pending && this.reliable == reliable
    {
      this.pending, this.reliable := pending, reliable;
    }

    method Take(len: nat) returns (rc: Rc, data: seq<byte>)
      modifies this
      ensures IsReadResult(rc)
      ensures |data| <= len && |data| <= |old(pending)|
      ensures data == old(pending)[..|data|] && pending == old(pending)[|data|..]
      ensures rc == MqttSuccess <==> |data| == len
      ensures rc == NetworkSslNothingToRead ==> |data| == 0
      ensures reliable && len <= |old(pending)| ==> rc == MqttSuccess
    {
      var available: nat := if len <= |pending| then len else |pending|;
      if !reliable {
        available :| 0 <= available <= len && available <= |pending|;
      }
      data := pending[..available];
      pending := pending[available..];
      var broken: bool := *;
      rc := if available == len then MqttSuccess
            else if broken then NetworkSslReadError
            else if available == 0 then NetworkSslNothingToRead
            else NetworkSslReadTimeout;
    }

    method Read(buf: array<byte>, at: nat, len: nat) returns (rc: Rc, readLen: nat)
      requires at + len <= buf.Length
      modifies this, buf
      ensures IsReadResult(rc)
      ensures rc == MqttSuccess ==>
                && readLen == len <= |old(pending)|
                && pending == old(pending)[len..]
                && buf[..] == Splice(old(buf[..]), at, old(pending)[..len])
      ensures rc == NetworkSslNothingToRead ==> pending == old(pending) && buf[..] == old(buf[..])
      ensures |pending| <= |old(pending)|
      ensures reliable && len <= |old(pending)| ==> rc == MqttSuccess
    {
      var data;
      rc, data := Take(len);
      WriteBytes(buf, at, data);
      readLen := |data|;
    }
  }

  /** The length field, read one byte at a time. Each read sets the counter to 1, so the test
      against four never succeeds. */
  method DecodePacketRemainingLen(socket: Socket) returns (rc: Rc, remLen: nat)
    modifies socket
    ensures IsReadResult(rc) || rc == DecodeRemainingLengthError
    ensures rc == MqttSuccess ==>
              match StreamDecode(old(socket.pending), 0, 1)
              case Some((n, used)) => remLen == n && socket.pending == old(socket.pending)[used..]
              case None => false
    ensures socket.reliable && StreamDecode(old(socket.pending), 0, 1).Some? ==> rc == MqttSuccess
  {
    ghost var s := socket.pending;
    ghost var used: nat := 0;
    var multiplier: nat, len: nat := 1, 0;
    remLen := 0;
    var more := true;
    while more
      invariant len <= 1 && used <= |s| && socket.pending == s[used..]
      invariant more ==> StreamDecode(s, 0, 1) == AfterUsed(StreamDecode(s[used..], remLen, multiplier), used)
      invariant !more ==> StreamDecode(s, 0, 1) == Some((remLen, used))
      decreases more, |socket.pending|
    {
      len := len + 1;
      if len > MAX_FIELD_BYTES {
        return DecodeRemainingLengthError, remLen;
      }
      var data;
      rc, data := socket.Take(1);
      if rc != MqttSuccess {
        return;
      }
      len := 1;
      var encodedByte := data[0];
      assert encodedByte == s[used..][0] && s[used..][1..] == s[used + 1..];
      used := used + 1;
      remLen := (remLen + encodedByte % 128 * multiplier) % WORD;
      multiplier := multiplier * 128 % WORD;
      more := encodedByte >= 128;
    }
    rc := MqttSuccess;
  }

  function AfterUsed(r: Option<(nat, nat)>, used: nat): Option<(nat, nat)> {
    match r
    case None => None
    case Some((value, size)) => Some((value, used + size))
  }

  /** The announced body of a packet that is refused, read in chunks no larger than the buffer. */
  method DrainPacket(socket: Socket, readBuf: array<byte>, remLen: nat)
    requires 0 < readBuf.Length <= remLen
    modifies socket, readBuf
    ensures socket.reliable && remLen <= |old(socket.pending)| ==> socket.pending == old(socket.pending)[remLen..]
  {
    ghost var s := socket.pending;
    var total: nat := 0;
    var chunk: nat := readBuf.Length;
    var rc := MqttSuccess;
    var again := true;
    while again
      invariant total <= remLen && again == (total < remLen && rc == MqttSuccess)
      invariant rc == MqttSuccess ==> total <= |s| && socket.pending == s[total..]
      invariant rc == MqttSuccess ==>
                  chunk == if remLen - total >= readBuf.Length then readBuf.Length else remLen - total
      invariant socket.reliable && remLen <= |s| ==> rc == MqttSuccess
      decreases again, remLen - total
    {
      var readLen;
      rc, readLen := socket.Read(readBuf, 0, chunk);
      if rc == MqttSuccess {
        total := total + readLen;
        chunk := if remLen - total >= readBuf.Length then readBuf.Length else remLen - total;
      }
      again := total < remLen && rc == MqttSuccess;
    }
  }

  /** A stream whose first packet, if any, does not fall into the window of the size test. */
  predicate HeadIsSafe(s: seq<byte>, bufSize: nat) {
    |s| > 0 && StreamDecode(s[1..], 0, 1).Some? ==> SizeTestWorks(StreamDecode(s[1..], 0, 1).value.0, bufSize)
  }

  lemma SafeWhenFrameIs(s: seq<byte>, bufSize: nat)
    requires FrameAt(s).Some? && SizeTestWorks(|FrameAt(s).value.0.body|, bufSize)
    ensures HeadIsSafe(s, bufSize)
  {
  }

  /** What reading one packet can report. */
  predicate IsReadPacketResult(rc: Rc) {
    || rc == MqttSuccess || rc == NothingToRead || rc == MqttFailure || rc == RxBufferTooShort
    || rc == DecodeRemainingLengthError || IsReadResult(rc)
  }

  /** Reads one packet. `lastType` is what the caller's variable held before; it is set only when a
      packet was read. Success leaves header, shortest length field and body in the buffer. */
  method ReadPacket(socket: Socket, readBuf: array<byte>, lastType: nat) returns (rc: Rc, packetType: nat)
    requires readBuf.Length > 0 && HeadIsSafe(socket.pending, readBuf.Length)
    modifies socket, readBuf
    ensures IsReadPacketResult(rc)
    ensures old(socket.pending) == [] ==> rc != MqttSuccess && socket.pending == []
    ensures rc != MqttSuccess ==> packetType == lastType
    ensures rc == NothingToRead ==> socket.pending == old(socket.pending)
    ensures rc == MqttSuccess ==>
              match FrameAt(old(socket.pending))
              case None => false
              case Some((f, rest)) =>
                && OutcomeOf(f, readBuf.Length) == Received(f)
                && socket.pending == rest
                && |Canonical(f)| <= readBuf.Length
                && readBuf[..] == Splice(old(readBuf[..]), 0, Canonical(f))
                && packetType == TypeOf(f.header)
    ensures socket.reliable ==>
              match FrameAt(old(socket.pending))
              case None => true
              case Some((f, rest)) =>
                && socket.pending == rest
                && rc == if OutcomeOf(f, readBuf.Length).Received? then MqttSuccess else RxBufferTooShort
  {
    ghost var s, start := socket.pending, readBuf[..];
    packetType := lastType;
    var readLen, remLen;
    rc, readLen := socket.Read(readBuf, 0, 1);
    if rc == NetworkSslNothingToRead {
      return NothingToRead, packetType;
    } else if rc != MqttSuccess {
      return;
    }
    rc, remLen := DecodePacketRemainingLen(socket);
    if rc != MqttSuccess {
      return;
    }
    ghost var tail := socket.pending;
    rc := FinishPacket(socket, readBuf, remLen, start, s[0]);
    HeadParts(s);
    if rc == MqttSuccess {
      packetType := TypeOf(readBuf[0]);
    }
  }

  /** The frame at the head of a stream, from its header byte, its decoded length and the bytes after it. */
  lemma HeadParts(s: seq<byte>)
    requires |s| > 0 && StreamDecode(s[1..], 0, 1).Some?
    ensures var (n, used) := StreamDecode(s[1..], 0, 1).value;
            var tail := s[1..][used..];
            FrameAt(s) == if |tail| < n then None else Some((Frame(s[0], tail[..n]), tail[n..]))
  {
    var (n, used) := StreamDecode(s[1..], 0, 1).value;
    assert s[1..][used..] == s[1 + used..];
    if |s| >= 1 + used + n {
      assert s[1 + used..][..n] == s[1 + used..1 + used + n];
    }
  }

  /** Everything after the length field: the body is refused or stored. */
  method FinishPacket(socket: Socket, readBuf: array<byte>, remLen: nat, ghost start: seq<byte>, ghost header: byte)
    returns (rc: Rc)
    requires readBuf.Length > 0 && SizeTestWorks(remLen, readBuf.Length)
    requires |start| == readBuf.Length && readBuf[..] == Splice(start, 0, [header])
    modifies socket, readBuf
    ensures rc == MqttSuccess || rc == MqttFailure || rc == RxBufferTooShort
    ensures rc == MqttSuccess ==>
              && remLen < readBuf.Length
              && remLen <= |old(socket.pending)|
              && socket.pending == old(socket.pending)[remLen..]
              && readBuf[..] == Splice(start, 0, Canonical(Frame(header, old(socket.pending)[..remLen])))
    ensures socket.reliable && remLen <= |old(socket.pending)| ==>
              && socket.pending == old(socket.pending)[remLen..]
              && rc == if remLen >= readBuf.Length then RxBufferTooShort else MqttSuccess
  {
    if remLen >= readBuf.Length {
      DrainPacket(socket, readBuf, remLen);
      return RxBufferTooShort;
    }
    rc := StorePacket(socket, readBuf, remLen, start, header);
  }

  /** Rewrites the length field behind the header byte and reads the body after it. */
  method StorePacket(socket: Socket, readBuf: array<byte>, remLen: nat, ghost start: seq<byte>, ghost header: byte)
    returns (rc: Rc)
    requires 1 + |Encode(remLen)| + remLen <= readBuf.Length == |start|
    requires readBuf[..] == Splice(start, 0, [header])
    modifies socket, readBuf
    ensures rc == MqttSuccess || rc == MqttFailure
    ensures rc == MqttSuccess ==>
              && remLen <= |old(socket.pending)|
              && socket.pending == old(socket.pending)[remLen..]
              && readBuf[..] == Splice(start, 0, Canonical(Frame(header, old(socket.pending)[..remLen])))
    ensures socket.reliable && remLen <= |old(socket.pending)| ==> rc == MqttSuccess
  {
    ghost var tail := socket.pending;
    var n := WriteLength(readBuf, 1, remLen);
    ghost var fixed := FixedHeader(header, remLen);
    SpliceAppend(start, 0, [header], Encode(remLen));
    assert readBuf[..] == Splice(start, 0, fixed);
    if remLen > 0 {
      var readLen;
      rc, readLen := socket.Read(readBuf, 1 + n, remLen);
      if rc != MqttSuccess || readLen != remLen {
        return MqttFailure;
      }
      SpliceAppend(start, 0, fixed, tail[..remLen]);
    } else {
      assert fixed + [] == fixed && tail[..0] == [] && tail[0..] == tail;
    }
    rc := MqttSuccess;
  }

  method ReadOne(socket: Socket, readBuf: array<byte>, ghost p: WirePacket, ghost after: seq<byte>)
    returns (outcome: Outcome)
    requires socket.reliable && 0 < readBuf.Length <= LIMIT
    requires IsWirePacket(p) && SizeTestWorks(|p.body|, readBuf.Length)
    requires socket.pending == WireBytes(p) + after
    modifies socket, readBuf
    ensures socket.pending == after
    ensures outcome == OutcomeOf(Frame(p.header, p.body), readBuf.Length)
  {
    hide Encode, DecodeWithin, StreamDecode, HeadIsSafe;
    ghost var f := Frame(p.header, p.body);
    FrameAtWirePacket(p, after);
    SafeWhenFrameIs(socket.pending, readBuf.Length);
    ghost var start := readBuf[..];
    var rc, packetType := ReadPacket(socket, readBuf, 0);
    outcome := Dropped;
    if rc == MqttSuccess {
      assert Canonical(f) <= readBuf[..];
      CanonicalHoldsPacket(readBuf[..], f);
      outcome := Received(TakeFrame(readBuf[..]).value.0);
    }
  }

  /** `count` calls of the framer on a socket that delivers whole packets: the k-th call consumes
      exactly the k-th packet. */
  method ReadPackets(socket: Socket, readBuf: array<byte>, count: nat, ghost ps: seq<WirePacket>, ghost rest: seq<byte>)
    returns (outcomes: seq<Outcome>)
    requires socket.reliable && 0 < readBuf.Length <= LIMIT
    requires |ps| == count && socket.pending == Concat(ps) + rest
    requires forall p | p in ps :: IsWirePacket(p) && SizeTestWorks(|p.body|, readBuf.Length)
    modifies socket, readBuf
    ensures socket.pending == rest
    ensures outcomes == Outcomes(ps, readBuf.Length)
  {
    outcomes := [];
    var k := 0;
    assert ps[0..] == ps;
    while k < count
      invariant 0 <= k <= count
      invariant socket.pending == Concat(ps[k..]) + rest
      invariant outcomes + Outcomes(ps[k..], readBuf.Length) == Outcomes(ps, readBuf.Length)
    {
      ghost var p := ps[k];
      assert p in ps && ps[k..][0] == p && ps[k..][1..] == ps[k + 1..];
      Associate(WireBytes(p), Concat(ps[k + 1..]), rest);
      var outcome := ReadOne(socket, readBuf, p, Concat(ps[k + 1..]) + rest);
      assert outcomes + ([outcome] + Outcomes(ps[k + 1..], readBuf.Length)) ==
          (outcomes + [outcome]) + Outcomes(ps[k + 1..], readBuf.Length);
      outcomes := outcomes + [outcome];
      k := k + 1;
    }
    assert [] + rest == rest;
    assert outcomes + [] == outcomes;
  }
}
