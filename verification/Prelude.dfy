/** Bytes, optional values, return codes and in-place buffer updates, shared by every module. */
module Prelude {

  datatype Option<+T> = None | Some(value: T)

  /** One octet. The source's masks and shifts on octets are written as arithmetic. */
  type byte = x: int | 0 <= x < 256

  /** A length-prefixed string: the prefix has 16 bits. */
  type Text = s: seq<byte> | |s| < 0x1_0000 witness []

  type uint16 = x: int | 0 <= x < 0x1_0000

  /** The return codes that the modelled functions produce. */
  datatype Rc =
    | MqttSuccess
    | MqttFailure
    | NullValueError
    | NothingToRead
    | RxBufferTooShort
    | TxBufferTooShort
    | DecodeRemainingLengthError
    | PacketTypeInvalid
    | RequestTimeout
    | UnexpectedClientState
    | ClientNotIdle
    | MaxSubscriptionsReached
    | NetworkSslNothingToRead
    | NetworkSslReadError
    | NetworkSslReadTimeout
    | NetworkSslWriteError
    | NetworkSslWriteTimeout
    | TcpConnectionError
    | SslConnectionError
    | NetworkPhysicalLayerConnected
    | NetworkManuallyDisconnected
    | NetworkAttemptingReconnect
    | NetworkReconnected
    | NetworkDisconnected
    | NetworkReconnectTimedOut
    | NetworkAlreadyConnected
    | ConnackAccepted
    | ConnackUnacceptableProtocolVersion
    | ConnackIdentifierRejected
    | ConnackServerUnavailable
    | ConnackBadUserdata
    | ConnackNotAuthorized
    | ConnackUnknown

  /** `s` with the bytes from `at` on overwritten by `data`; nothing else changes. */
  function Splice(s: seq<byte>, at: nat, data: seq<byte>): (r: seq<byte>)
    requires at + |data| <= |s|
    ensures |r| == |s|
  {
    s[..at] + data + s[at + |data|..]
  }

  lemma SpliceAppend(s: seq<byte>, at: nat, a: seq<byte>, b: seq<byte>)
    requires at + |a| + |b| <= |s|
    ensures Splice(Splice(s, at, a), at + |a|, b) == Splice(s, at, a + b)
  {
    var left := Splice(Splice(s, at, a), at + |a|, b);
    var right := Splice(s, at, a + b);
    forall i | 0 <= i < |s| ensures left[i] == right[i] {
    }
  }

  lemma SpliceNothing(s: seq<byte>, at: nat)
    requires at <= |s|
    ensures Splice(s, at, []) == s
  {
  }

  lemma SpliceStart(s: seq<byte>, data: seq<byte>)
    requires |data| <= |s|
    ensures Splice(s, 0, data)[..|data|] == data
  {
  }

  lemma Associate(a: seq<byte>, b: seq<byte>, c: seq<byte>)
    ensures a + (b + c) == a + b + c
  {
  }

  /** Stores one byte; the source advances its pointer past it. */
  method WriteByte(buf: array<byte>, at: nat, b: byte)
    requires at < buf.Length
    modifies buf
    ensures buf[..] == Splice(old(buf[..]), at, [b])
  {
    buf[at] := b;
  }

  method WriteBytes(buf: array<byte>, at: nat, data: seq<byte>)
    requires at + |data| <= buf.Length
    modifies buf
    ensures buf[..] == Splice(old(buf[..]), at, data)
  {
    forall i | 0 <= i < |data| {
      buf[at + i] := data[i];
    }
  }
}
