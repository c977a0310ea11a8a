/** CONNECT packets (section 3.1 of MQTT 3.1.1). */
module ConnectCodec {
  import opened Prelude
  import opened RemainingLength
  import opened Wire

  const MQTT_3_1_1: nat := 4
  /** The protocol name "MQTT". */
  const PROTOCOL_NAME: Text := [77, 81, 84, 84]

  datatype Will = Will(topic: Text, message: Text, qos: QoS, retain: bool)

  /** Absent strings are null pointers in the source. */
  datatype ConnectOptions = ConnectOptions(
    version: nat, clientId: Option<Text>, keepAlive: uint16, cleanSession: bool,
    will: Option<Will>, username: Option<Text>, password: Option<Text>)

  const DEFAULT_OPTIONS: ConnectOptions := ConnectOptions(MQTT_3_1_1, None, 60, true, None, None, None)

  /** A client id is either absent or not empty. */
  predicate AcceptableClientId(o: ConnectOptions) {
    o.clientId != Some([])
  }

  function ClientIdText(o: ConnectOptions): (t: Text) {
    match o.clientId case None => [] case Some(t) => t
  }

  // ---------- The packet ----------

  function FlagsByte(o: ConnectOptions): (r: byte) {
    2 * Bit(o.cleanSession)
    + (match o.will case None => 0 case Some(w) => 4 + 8 * QosBits(w.qos) + 32 * Bit(w.retain))
    + 64 * Bit(o.password.Some?) + 128 * Bit(o.username.Some?)
  }

  function VariableHeader(o: ConnectOptions): (r: seq<byte>)
    requires o.version == MQTT_3_1_1
    ensures |r| == 10
  {
    TextBytes(PROTOCOL_NAME) + [o.version] + [FlagsByte(o)] + U16(o.keepAlive)
  }

  function WillBytes(w: Option<Will>): (r: seq<byte>) {
    match w case None => [] case Some(w) => TextBytes(w.topic) + TextBytes(w.message)
  }

  function OptionalText(t: Option<Text>): (r: seq<byte>) {
    match t case None => [] case Some(t) => TextBytes(t)
  }

  function Payload(o: ConnectOptions): (r: seq<byte>) {
    TextBytes(ClientIdText(o)) + (WillBytes(o.will) + (OptionalText(o.username) + OptionalText(o.password)))
  }

  function ConnectFrame(o: ConnectOptions): (f: Frame)
    requires o.version == MQTT_3_1_1
  {
    Frame(HeaderByte(CONNECT, false, 0, false), VariableHeader(o) + Payload(o))
  }

  // ---------- A reader written from section 3.1 ----------

  function TakeOptionalText(present: bool, s: seq<byte>): (r: Option<(Option<Text>, seq<byte>)>) {
    if !present then Some((None, s))
    else
      match TakeText(s)
      case None => None
      case Some((t, rest)) => Some((Some(t), rest))
  }

  /** Will topic and message, when the flag announces them (sections 3.1.3.2 and 3.1.3.3). */
  function TakeWill(flags: byte, s: seq<byte>): (r: Option<(Option<Will>, seq<byte>)>) {
    if flags / 4 % 2 == 0 then
      // without a will its QoS and retain flags must be zero (section 3.1.2.6)
      if flags / 8 % 4 == 0 && flags / 32 % 2 == 0 then Some((None, s)) else None
    else if flags / 8 % 4 > 1 then None
    else
      match TakeText(s)
      case None => None
      case Some((topic, rest)) =>
        match TakeText(rest)
        case None => None
        case Some((message, rest')) =>
          Some((Some(Will(topic, message, if flags / 8 % 4 == 1 then QOS1 else QOS0, flags / 32 % 2 == 1)), rest'))
  }

  function ParsePayload(flags: byte, keepAlive: uint16, s: seq<byte>): (r: Option<ConnectOptions>) {
    match TakeText(s)
    case None => None
    case Some((clientId, afterId)) =>
      match TakeWill(flags, afterId)
      case None => None
      case Some((will, afterWill)) =>
        match TakeOptionalText(flags / 128 % 2 == 1, afterWill)
        case None => None
        case Some((username, afterUser)) =>
          match TakeOptionalText(flags / 64 % 2 == 1, afterUser)
          case None => None
          case Some((password, rest)) =>
            if rest != [] then None
            else
              Some(ConnectOptions(MQTT_3_1_1, if clientId == [] then None else Some(clientId), keepAlive,
                                  flags / 2 % 2 == 1, will, username, password))
  }

  /** Header, protocol name and level, flags, keep-alive and then the payload; the reserved flag
      bit must be zero (section 3.1.2.3). */
  function ReadConnect(f: Frame): (r: Option<ConnectOptions>) {
    if f.header != 16 || |f.body| < 10 then None
    else if f.body[..7] != [0, 4, 77, 81, 84, 84, 4] || f.body[7] % 2 != 0 then None
    else ParsePayload(f.body[7], U16At(f.body[8..]), f.body[10..])
  }

  /** What section 3.1 forbids besides: a password without a user name (3.1.2.9), and an empty client
      id without a clean session (3.1.3.1). */
  predicate Forbidden(flags: byte, payload: seq<byte>) {
    || (flags / 64 % 2 == 1 && flags / 128 % 2 == 0)
    || (flags / 2 % 2 == 0 && payload[..if |payload| < 2 then 0 else 2] == [0, 0])
  }

  /** A CONNECT as section 3.1 has it. */
  function ParseConnect(f: Frame): (r: Option<ConnectOptions>) {
    if |f.body| < 10 || Forbidden(f.body[7], f.body[10..]) then None else ReadConnect(f)
  }

  lemma FlagsFields(o: ConnectOptions)
    ensures var flags := FlagsByte(o);
            && flags % 2 == 0
            && (flags / 2 % 2 == 1 <==> o.cleanSession)
            && (flags / 4 % 2 == 1 <==> o.will.Some?)
            && (flags / 64 % 2 == 1 <==> o.password.Some?)
            && (flags / 128 % 2 == 1 <==> o.username.Some?)
            && flags / 8 % 4 == (if o.will.Some? then QosBits(o.will.value.qos) else 0)
            && (flags / 32 % 2 == 1 <==> o.will.Some? && o.will.value.retain)
  {
    var c, w, p, u := Bit(o.cleanSession), Bit(o.will.Some?), Bit(o.password.Some?), Bit(o.username.Some?);
    var q := if o.will.Some? then QosBits(o.will.value.qos) else 0;
    var r := Bit(o.will.Some? && o.will.value.retain);
    SixFields(c, w, q, r, p, u);
    assert FlagsByte(o) == 2 * c + 4 * w + 8 * q + 32 * r + 64 * p + 128 * u;
  }

  lemma SixFields(c: nat, w: nat, q: nat, r: nat, p: nat, u: nat)
    requires c < 2 && w < 2 && q < 4 && r < 2 && p < 2 && u < 2
    ensures var f := 2 * c + 4 * w + 8 * q + 32 * r + 64 * p + 128 * u;
            && f % 2 == 0 && f / 2 % 2 == c && f / 4 % 2 == w && f / 8 % 4 == q && f / 32 % 2 == r
            && f / 64 % 2 == p && f / 128 % 2 == u && f < 256
  {
    var f := 2 * c + 4 * w + 8 * q + 32 * r + 64 * p + 128 * u;
    assert f / 2 == c + 2 * w + 4 * q + 16 * r + 32 * p + 64 * u;
    assert f / 4 == w + 2 * q + 8 * r + 16 * p + 32 * u;
    assert f / 8 == q + 4 * r + 8 * p + 16 * u;
    assert f / 32 == r + 2 * p + 4 * u;
    assert f / 64 == p + 2 * u;
    assert f / 128 == u;
  }

  lemma OptionalTextRoundTrip(t: Option<Text>, rest: seq<byte>)
    ensures TakeOptionalText(t.Some?, OptionalText(t) + rest) == Some((t, rest))
  {
    match t {
      case None => assert [] + rest == rest;
      case Some(t) => TextRoundTrip(t, rest);
    }
  }

  lemma WillRoundTrip(o: ConnectOptions, rest: seq<byte>)
    ensures TakeWill(FlagsByte(o), WillBytes(o.will) + rest) == Some((o.will, rest))
  {
    FlagsFields(o);
    match o.will {
      case None => assert [] + rest == rest;
      case Some(w) =>
        Associate(TextBytes(w.topic), TextBytes(w.message), rest);
        TextRoundTrip(w.topic, TextBytes(w.message) + rest);
        TextRoundTrip(w.message, rest);
    }
  }

  lemma PayloadRoundTrip(o: ConnectOptions)
    requires o.version == MQTT_3_1_1 && AcceptableClientId(o)
    ensures ParsePayload(FlagsByte(o), o.keepAlive, Payload(o)) == Some(o)
  {
    FlagsFields(o);
    var tail := OptionalText(o.username) + OptionalText(o.password);
    TextRoundTrip(ClientIdText(o), WillBytes(o.will) + tail);
    WillRoundTrip(o, tail);
    OptionalTextRoundTrip(o.username, OptionalText(o.password));
    assert OptionalText(o.password) + [] == OptionalText(o.password);
    OptionalTextRoundTrip(o.password, []);
  }

  lemma VariableHeaderBytes(o: ConnectOptions)
    requires o.version == MQTT_3_1_1
    ensures VariableHeader(o) == [0, 4, 77, 81, 84, 84, 4, FlagsByte(o), o.keepAlive / 256, o.keepAlive % 256]
  {
    assert TextBytes(PROTOCOL_NAME) == [0, 4, 77, 81, 84, 84];
  }

  /** Every option the application set is in the serialised CONNECT, for every combination of will,
      user name, password and client id. */
  lemma ConnectLayoutRoundTrip(o: ConnectOptions)
    requires o.version == MQTT_3_1_1 && AcceptableClientId(o)
    ensures ReadConnect(ConnectFrame(o)) == Some(o)
  {
    var vh := VariableHeader(o);
    VariableHeaderBytes(o);
    BodyParts(vh, Payload(o));
    assert vh[..7] == [0, 4, 77, 81, 84, 84, 4];
    assert U16At(vh[8..]) == o.keepAlive;
    FlagsFields(o);
    PayloadRoundTrip(o);
  }

  /** A broker that keeps to the standard reads them back exactly when a password comes with a user
      name and an absent client id with a clean session; the serialiser checks neither. */
  lemma ConnectRoundTrip(o: ConnectOptions)
    requires o.version == MQTT_3_1_1 && AcceptableClientId(o)
    ensures ParseConnect(ConnectFrame(o)) == Some(o) <==>
            (o.password.Some? ==> o.username.Some?) && (o.clientId.None? ==> o.cleanSession)
    ensures ParseConnect(ConnectFrame(o)) == None <==>
            (o.password.Some? && o.username.None?) || (o.clientId.None? && !o.cleanSession)
  {
    hide ReadConnect, FlagsByte, Payload, TextBytes;
    ConnectLayoutRoundTrip(o);
    VariableHeaderBytes(o);
    BodyParts(VariableHeader(o), Payload(o));
    FlagsFields(o);
    PayloadStart(o);
  }

  lemma PayloadStart(o: ConnectOptions)
    requires AcceptableClientId(o)
    ensures |Payload(o)| >= 2
    ensures Payload(o)[..2] == [0, 0] <==> o.clientId.None?
  {
    var n: uint16 := |ClientIdText(o)|;
    assert Payload(o)[..2] == U16(n);
    Uint16RoundTrip(n);
  }

  /** CONNECT packets that the serialiser writes and the standard forbids. */
  lemma ForbiddenConnects(secret: Text)
    ensures ParseConnect(ConnectFrame(DEFAULT_OPTIONS.(password := Some(secret)))) == None
    ensures ParseConnect(ConnectFrame(DEFAULT_OPTIONS.(cleanSession := false))) == None
  {
    ConnectRoundTrip(DEFAULT_OPTIONS.(password := Some(secret)));
    ConnectRoundTrip(DEFAULT_OPTIONS.(cleanSession := false));
  }

  lemma BodyParts(vh: seq<byte>, payload: seq<byte>)
    requires |vh| == 10
    ensures var body := vh + payload;
            body[..7] == vh[..7] && body[7] == vh[7] && U16At(body[8..]) == U16At(vh[8..]) && body[10..] == payload
  {
  }

  // ---------- Length and serialiser ----------

  function TextLength(t: Option<Text>): (r: nat) {
    match t case None => 0 case Some(t) => |t| + 2
  }

  /** The remaining length, computed before anything is written. */
  function ConnectPacketLength(o: ConnectOptions): (len: nat) {
    10 + |ClientIdText(o)| + 2
    + (match o.will case None => 0 case Some(w) => |w.topic| + 2 + |w.message| + 2)
    + TextLength(o.username) + TextLength(o.password)
  }

  lemma ConnectLengthIsBodyLength(o: ConnectOptions)
    requires o.version == MQTT_3_1_1
    ensures ConnectPacketLength(o) == |ConnectFrame(o).body| < 0x6_0000
  {
  }

  method SerializeConnect(buf: array<byte>, txBufLen: nat, o: ConnectOptions) returns (rc: Rc, len: nat)
    requires txBufLen <= buf.Length
    modifies buf
    ensures rc == if !AcceptableClientId(o) then NullValueError
                  else if o.version != MQTT_3_1_1 then ConnackUnacceptableProtocolVersion
                  else if FinalPacketLength(ConnectPacketLength(o)) > txBufLen then TxBufferTooShort
                  else MqttSuccess
    ensures rc != MqttSuccess ==> buf[..] == old(buf[..])
    ensures rc == MqttSuccess ==>
              var packet := Canonical(ConnectFrame(o));
              len == |packet| <= txBufLen && buf[..len] == packet && buf[..] == Splice(old(buf[..]), 0, packet)
  {
    hide Encode, Splice, TextBytes, FlagsByte, HeaderByte;
    len := 0;
    if o.clientId == Some([]) {
      return NullValueError, len;
    }
    if o.version != MQTT_3_1_1 {
      return ConnackUnacceptableProtocolVersion, len;
    }
    var remLen := ConnectPacketLength(o);
    ConnectLengthIsBodyLength(o);
    if FinalPacketLength(remLen) > txBufLen {
      return TxBufferTooShort, len;
    }
    EstimateIsExactUnlessAtBoundary(remLen);
    var header;
    rc, header := InitHeader(CONNECT, QOS0, 0, 0);
    len := PutConnect(buf, header, remLen, o);
  }

  method PutConnect(buf: array<byte>, header: byte, remLen: nat, o: ConnectOptions) returns (len: nat)
    requires o.version == MQTT_3_1_1
    requires header == ConnectFrame(o).header && remLen == |ConnectFrame(o).body|
    requires |Canonical(ConnectFrame(o))| <= buf.Length
    modifies buf
    ensures len == |Canonical(ConnectFrame(o))|
    ensures buf[..len] == Canonical(ConnectFrame(o)) && buf[..] == Splice(old(buf[..]), 0, Canonical(ConnectFrame(o)))
  {
    hide Encode, TextBytes, FlagsByte, HeaderByte;
    ghost var start := buf[..];
    ghost var fixed := FixedHeader(header, remLen);
    len := PutFixedHeader(buf, header, remLen, start);
    len := PutVariableHeader(buf, len, o, start, fixed);
    len := PutPayload(buf, len, o, start, fixed + VariableHeader(o));
    Associate(fixed, VariableHeader(o), Payload(o));
    SpliceStart(start, Canonical(ConnectFrame(o)));
  }

  method PutPayload(buf: array<byte>, at: nat, o: ConnectOptions, ghost start: seq<byte>, ghost before: seq<byte>)
    returns (next: nat)
    requires Written(buf, start, before) && at == |before| && at + |Payload(o)| <= buf.Length
    modifies buf
    ensures next == |before + Payload(o)| && Written(buf, start, before + Payload(o))
  {
    ghost var out := before;
    next := PutText(buf, at, if o.clientId.None? then [] else o.clientId.value, start, out);
    out := out + TextBytes(ClientIdText(o));
    next := PutWill(buf, next, o.will, start, out);
    out := out + WillBytes(o.will);
    next := PutOptionalText(buf, next, o.username, start, out);
    out := out + OptionalText(o.username);
    next := PutOptionalText(buf, next, o.password, start, out);
    AssociatePayload(before, TextBytes(ClientIdText(o)), WillBytes(o.will),
                     OptionalText(o.username), OptionalText(o.password));
  }

  lemma AssociatePayload(b: seq<byte>, c: seq<byte>, w: seq<byte>, u: seq<byte>, p: seq<byte>)
    ensures b + c + w + u + p == b + (c + (w + (u + p)))
  {
  }

  method PutVariableHeader(buf: array<byte>, at: nat, o: ConnectOptions, ghost start: seq<byte>, ghost out: seq<byte>)
    returns (next: nat)
    requires o.version == MQTT_3_1_1
    requires Written(buf, start, out) && at == |out| && at + 10 <= buf.Length
    modifies buf
    ensures next == |out + VariableHeader(o)| && Written(buf, start, out + VariableHeader(o))
  {
    hide TextBytes, U16;
    next := PutText(buf, at, PROTOCOL_NAME, start, out);
    ghost var sofar := out + TextBytes(PROTOCOL_NAME);
    next := PutByte(buf, next, o.version, start, sofar);
    var flags := 0;
    if o.cleanSession {
      flags := flags + 2;
    }
    if o.will.Some? {
      flags := flags + 4 + 8 * QosBits(o.will.value.qos);
      if o.will.value.retain {
        flags := flags + 32;
      }
    }
    if o.username.Some? {
      flags := flags + 128;
    }
    if o.password.Some? {
      flags := flags + 64;
    }
    next := PutByte(buf, next, flags, start, sofar + [o.version]);
    next := PutUint16(buf, next, o.keepAlive, start, sofar + [o.version] + [flags]);
    AssociateHeader(out, TextBytes(PROTOCOL_NAME), [o.version], [flags], U16(o.keepAlive));
  }

  lemma AssociateHeader(out: seq<byte>, n: seq<byte>, v: seq<byte>, f: seq<byte>, k: seq<byte>)
    ensures out + n + v + f + k == out + (n + v + f + k)
  {
  }

  method PutWill(buf: array<byte>, at: nat, w: Option<Will>, ghost start: seq<byte>, ghost out: seq<byte>)
    returns (next: nat)
    requires Written(buf, start, out) && at == |out| && at + |WillBytes(w)| <= buf.Length
    modifies buf
    ensures next == |out + WillBytes(w)| && Written(buf, start, out + WillBytes(w))
  {
    next := at;
    if w.Some? {
      next := PutText(buf, next, w.value.topic, start, out);
      next := PutText(buf, next, w.value.message, start, out + TextBytes(w.value.topic));
      Associate(out, TextBytes(w.value.topic), TextBytes(w.value.message));
    } else {
      assert out + [] == out;
    }
  }

  method PutOptionalText(buf: array<byte>, at: nat, t: Option<Text>, ghost start: seq<byte>, ghost out: seq<byte>)
    returns (next: nat)
    requires Written(buf, start, out) && at == |out| && at + |OptionalText(t)| <= buf.Length
    modifies buf
    ensures next == |out + OptionalText(t)| && Written(buf, start, out + OptionalText(t))
  {
    next := at;
    if t.Some? {
      next := PutText(buf, next, t.value, start, out);
    } else {
      assert out + [] == out;
    }
  }
}
