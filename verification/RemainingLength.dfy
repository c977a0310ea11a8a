/** The remaining-length field of section 2.2.3 of MQTT 3.1.1: the two decoders, the encoder
    and the packet-length estimate. */
module RemainingLength {
  import opened Prelude

  const MAX_FIELD_BYTES: nat := 4
  /** One more than the largest remaining length the standard allows. */
  const LIMIT: nat := 0x1000_0000
  /** One more than the largest 32-bit unsigned integer. */
  const WORD: nat := 0x1_0000_0000

  /** The field for `n`: base 128, least significant digit first, top bit set on all but the last. */
  function Encode(n: nat): (r: seq<byte>)
    ensures 1 <= |r|
  {
    if n < 128 then [n] else [128 + n % 128] + Encode(n / 128)
  }

  /** Value and size of the field at the head of `s`, when it ends within `budget` bytes. */
  function DecodeWithin(s: seq<byte>, budget: nat): (r: Option<(nat, nat)>)
    ensures r.Some? ==> 1 <= r.value.1 <= budget && r.value.1 <= |s|
    decreases budget
  {
    if budget == 0 || |s| == 0 then None
    else if s[0] < 128 then Some((s[0], 1))
    else
      match DecodeWithin(s[1..], budget - 1)
      case None => None
      case Some((value, used)) => Some((s[0] - 128 + 128 * value, used + 1))
  }

  /** The decoder the standard describes: at most four bytes. */
  function Decode(s: seq<byte>): (r: Option<(nat, nat)>)
    ensures r.Some? ==> 1 <= r.value.1 <= 4 && r.value.1 <= |s|
  {
    DecodeWithin(s, MAX_FIELD_BYTES)
  }

  function Power128(k: nat): (r: nat)
    ensures r >= 1
  {
    if k == 0 then 1 else 128 * Power128(k - 1)
  }

  /** Reading back a field gives its value and its size, whatever follows it. */
  lemma {:induction false} RoundTripWithin(n: nat, rest: seq<byte>, budget: nat)
    requires 0 < budget && n < Power128(budget)
    ensures |Encode(n)| <= budget
    ensures DecodeWithin(Encode(n) + rest, budget) == Some((n, |Encode(n)|))
    decreases budget
  {
    if n >= 128 {
      assert n / 128 < Power128(budget - 1);
      RoundTripWithin(n / 128, rest, budget - 1);
      assert (Encode(n) + rest)[1..] == Encode(n / 128) + rest;
    }
  }

  lemma RoundTrip(n: nat, rest: seq<byte>)
    requires n < LIMIT
    ensures |Encode(n)| <= 4
    ensures Decode(Encode(n) + rest) == Some((n, |Encode(n)|))
  {
    SmallPowers();
    RoundTripWithin(n, rest, 4);
  }

  /** No accepted field for a value is shorter than the encoder's, and one of the same size is the encoder's. */
  lemma {:induction false} EncodeIsShortestWithin(s: seq<byte>, budget: nat)
    requires DecodeWithin(s, budget).Some?
    ensures var (n, used) := DecodeWithin(s, budget).value;
            && |Encode(n)| <= used
            && n < Power128(budget)
            && (|Encode(n)| == used ==> s[..used] == Encode(n))
    decreases budget
  {
    var (n, used) := DecodeWithin(s, budget).value;
    if s[0] < 128 {
      assert s[..1] == [s[0]];
    } else {
      EncodeIsShortestWithin(s[1..], budget - 1);
      var (m, k) := DecodeWithin(s[1..], budget - 1).value;
      assert n == s[0] - 128 + 128 * m;
      if n >= 128 {
        assert n / 128 == m && n % 128 == s[0] - 128;
        assert s[..used] == [s[0]] + s[1..][..k];
      }
    }
  }

  lemma EncodeIsShortest(s: seq<byte>)
    requires Decode(s).Some?
    ensures var (n, used) := Decode(s).value;
            && n < LIMIT
            && |Encode(n)| <= used <= 4
            && (|Encode(n)| == used <==> s[..used] == Encode(n))
  {
    SmallPowers();
    EncodeIsShortestWithin(s, 4);
  }

  // ---------- Size of a packet ----------

  /** The size the serialisers compare with the transmit buffer. */
  function FinalPacketLength(remLen: nat): (r: nat)
  {
    var withHeader := remLen + 1;
    if withHeader < 128 then withHeader + 1
    else if withHeader < 16384 then withHeader + 2
    else if withHeader < 2097152 then withHeader + 3
    else withHeader + 4
  }

  /** The three remaining lengths at which counting the header byte first crosses a boundary. */
  predicate AtBoundary(n: nat) {
    n == 127 || n == 16383 || n == 2097151
  }

  lemma EncodedSize(n: nat)
    requires n < LIMIT
    ensures |Encode(n)| == if n < 128 then 1 else if n < 16384 then 2 else if n < 2097152 then 3 else 4
  {
    if n >= 128 {
      assert n / 128 < 2097152;
      if n / 128 >= 128 {
        assert n / 128 / 128 < 16384;
        if n / 128 / 128 >= 128 {
          assert n / 128 / 128 / 128 < 128;
          assert |Encode(n / 128 / 128 / 128)| == 1;
        }
      }
    }
  }

  /** The estimate never falls short of the real packet size; it is exact except at the three
      boundary values, where it is one byte too large. */
  lemma EstimateIsExactUnlessAtBoundary(n: nat)
    requires n < LIMIT
    ensures FinalPacketLength(n) == 1 + |Encode(n)| + n + (if AtBoundary(n) then 1 else 0)
  {
    EncodedSize(n);
  }

  // ---------- Encoder and decoder over buffers ----------

  method WriteLength(buf: array<byte>, at: nat, length: nat) returns (outLen: nat)
    requires at + |Encode(length)| <= buf.Length
    modifies buf
    ensures outLen == |Encode(length)|
    ensures buf[..] == Splice(old(buf[..]), at, Encode(length))
  {
    hide Encode, Splice;
    ghost var start := buf[..];
    SpliceNothing(start, at);
    outLen := 0;
    var rest: nat := length;
    var more := true;
    ghost var done: seq<byte> := [];
    while more
      invariant outLen == |done|
      invariant Encode(length) == done + (if more then Encode(rest) else [])
      invariant at + outLen <= buf.Length && buf[..] == Splice(start, at, done)
      decreases more, rest
    {
      EncodeOnce(rest);
      var encodedByte: byte := rest % 128;
      ghost var tail := if rest < 128 then [] else Encode(rest / 128);
      rest := rest / 128;
      if rest > 0 {
        encodedByte := encodedByte + 128;
      }
      AppendOne(done, encodedByte, tail);
      StoreByte(buf, at, outLen, encodedByte, start, done);
      outLen := outLen + 1;
      done := done + [encodedByte];
      more := rest > 0;
    }
    assert done + [] == done;
  }

  /** One more byte behind those already written from `at` on. */
  method StoreByte(buf: array<byte>, at: nat, outLen: nat, b: byte, ghost start: seq<byte>, ghost done: seq<byte>)
    requires outLen == |done| && at + outLen < buf.Length == |start| && buf[..] == Splice(start, at, done)
    modifies buf
    ensures buf[..] == Splice(start, at, done + [b])
  {
    WriteByte(buf, at + outLen, b);
    SpliceAppend(start, at, done, [b]);
  }

  lemma EncodeOnce(n: nat)
    ensures Encode(n) == if n < 128 then [n] else [128 + n % 128] + Encode(n / 128)
  {
  }

  lemma AppendOne(done: seq<byte>, b: byte, tail: seq<byte>)
    ensures done + ([b] + tail) == (done + [b]) + tail
  {
  }

  /** The buffer decoder, with `budget` bytes still allowed, stops before it runs off the end of `s`. */
  predicate Readable(s: seq<byte>, budget: nat)
    decreases budget
  {
    budget == 0 || (|s| > 0 && (s[0] < 128 || Readable(s[1..], budget - 1)))
  }

  lemma {:induction false} DecodableIsReadable(s: seq<byte>, budget: nat)
    requires DecodeWithin(s, budget).Some?
    ensures Readable(s, budget)
    decreases budget
  {
    if s[0] >= 128 {
      DecodableIsReadable(s[1..], budget - 1);
    }
  }

  method DecodeFromBuffer(buf: array<byte>, at: nat) returns (rc: Rc, decodedLen: nat, readBytesLen: nat)
    requires at <= buf.Length && Readable(buf[at..], MAX_FIELD_BYTES)
    ensures rc == match Decode(buf[at..]) case Some(_) => MqttSuccess case None => DecodeRemainingLengthError
    ensures rc == MqttSuccess ==> (decodedLen, readBytesLen) == Decode(buf[at..]).value
  {
    hide DecodeWithin, Readable, Shifted;
    ghost var s := buf[at..];
    DecodeStart(s);
    var multiplier: nat := 1;
    var len: nat := 0;
    decodedLen, readBytesLen := 0, 0;
    var more := true;
    while more
      invariant len <= 4 && len <= |s|
      invariant more ==> Readable(s[len..], 4 - len)
      invariant more ==> Decode(s) == Shifted(DecodeWithin(s[len..], 4 - len), decodedLen, multiplier, len)
      invariant !more ==> Decode(s) == Some((decodedLen, len))
      decreases more, 5 - len
    {
      DecodeStep(s, len, decodedLen, multiplier);
      len := len + 1;
      if len > MAX_FIELD_BYTES {
        return DecodeRemainingLengthError, decodedLen, readBytesLen;
      }
      var encodedByte: byte := buf[at + len - 1];
      decodedLen := decodedLen + encodedByte % 128 * multiplier;
      multiplier := multiplier * 128;
      more := encodedByte >= 128;
    }
    return MqttSuccess, decodedLen, len;
  }

  lemma DecodeStart(s: seq<byte>)
    ensures s[0..] == s
    ensures Decode(s) == Shifted(DecodeWithin(s[0..], 4), 0, 1, 0)
  {
    assert s[0..] == s;
  }

  lemma DecodeStep(s: seq<byte>, len: nat, base: nat, multiplier: nat)
    requires len <= |s| && len <= 4 && Readable(s[len..], 4 - len)
    ensures len == 4 ==> Shifted(DecodeWithin(s[len..], 4 - len), base, multiplier, len) == None
    ensures len < 4 ==>
              && len < |s|
              && (s[len] >= 128 ==> Readable(s[len + 1..], 3 - len))
              && Shifted(DecodeWithin(s[len..], 4 - len), base, multiplier, len)
                 == if s[len] < 128 then Some((base + s[len] % 128 * multiplier, len + 1))
                    else Shifted(DecodeWithin(s[len + 1..], 3 - len),
                                 base + s[len] % 128 * multiplier, multiplier * 128, len + 1)
  {
    if len < 4 {
      assert s[len..][1..] == s[len + 1..];
      ShiftedStep(s[len..], 4 - len, base, multiplier, len);
    }
  }

  /** A decoded suffix seen from `used` bytes earlier, when those contributed `base`. */
  function Shifted(r: Option<(nat, nat)>, base: nat, multiplier: nat, used: nat): Option<(nat, nat)> {
    match r
    case None => None
    case Some((value, size)) => Some((base + value * multiplier, used + size))
  }

  lemma ShiftedStep(s: seq<byte>, budget: nat, base: nat, multiplier: nat, used: nat)
    requires |s| > 0 && budget > 0
    ensures Shifted(DecodeWithin(s, budget), base, multiplier, used)
         == if s[0] < 128 then Some((base + s[0] % 128 * multiplier, used + 1))
            else Shifted(DecodeWithin(s[1..], budget - 1), base + s[0] % 128 * multiplier, multiplier * 128, used + 1)
  {
    if s[0] >= 128 && DecodeWithin(s[1..], budget - 1).Some? {
      Regroup(s[0] - 128, DecodeWithin(s[1..], budget - 1).value.0, multiplier);
    }
  }

  // ---------- The decoder used on the stream ----------

  /** What the stream decoder computes. Its four-byte limit has no effect, because every read
      overwrites the counter, so it goes on while the top bit is set; `size_t` has 32 bits. */
  function StreamDecode(s: seq<byte>, remLen: nat, multiplier: nat): (r: Option<(nat, nat)>)
    ensures r.Some? ==> 1 <= r.value.1 <= |s|
  {
    if |s| == 0 then None
    else
      var sum := (remLen + s[0] % 128 * multiplier) % WORD;
      if s[0] < 128 then Some((sum, 1))
      else
        match StreamDecode(s[1..], sum, multiplier * 128 % WORD)
        case None => None
        case Some((value, used)) => Some((value, used + 1))
  }

  lemma SmallPowers()
    ensures Power128(0) == 1 && Power128(1) == 128 && Power128(2) == 16384
    ensures Power128(3) == 2097152 && Power128(4) == LIMIT
  {
    assert Power128(1) == 128;
    assert Power128(2) == 16384;
    assert Power128(3) == 2097152;
  }

  lemma NextSum(b: byte, done: nat, remLen: nat)
    requires done < 4 && remLen < Power128(done)
    ensures remLen + b % 128 * Power128(done) < Power128(done + 1) < WORD
    ensures Power128(done + 1) == Power128(done) * 128
  {
    SmallPowers();
    assert b % 128 * Power128(done) <= 127 * Power128(done);
  }

  /** One step of the stream decoder while nothing overflows. */
  lemma StreamStep(s: seq<byte>, remLen: nat, multiplier: nat, sum: nat, next: nat)
    requires |s| > 0 && sum == remLen + s[0] % 128 * multiplier && next == multiplier * 128
    requires sum < WORD && next < WORD
    ensures StreamDecode(s, remLen, multiplier)
         == if s[0] < 128 then Some((sum, 1)) else OneMore(StreamDecode(s[1..], sum, next))
  {
  }

  function OneMore(r: Option<(nat, nat)>): Option<(nat, nat)> {
    match r
    case None => None
    case Some((value, used)) => Some((value, used + 1))
  }

  lemma {:induction false} StreamDecodeWithin(s: seq<byte>, budget: nat, done: nat, remLen: nat)
    requires done + budget == 4
    requires remLen < Power128(done)
    ensures match DecodeWithin(s, budget)
            case Some((value, used)) => StreamDecode(s, remLen, Power128(done)) ==
                Some((remLen + value * Power128(done), used))
            case None => StreamDecode(s, remLen, Power128(done)).Some? ==>
                StreamDecode(s, remLen, Power128(done)).value.1 > budget
    decreases budget
  {
    hide Power128;
    if budget > 0 && |s| > 0 {
      hide StreamDecode;
      NextSum(s[0], done, remLen);
      var sum: nat := remLen + s[0] % 128 * Power128(done);
      StreamStep(s, remLen, Power128(done), sum, Power128(done + 1));
      if s[0] >= 128 {
        StreamDecodeWithin(s[1..], budget - 1, done + 1, sum);
        if DecodeWithin(s[1..], budget - 1).Some? {
          Regroup(s[0] - 128, DecodeWithin(s[1..], budget - 1).value.0, Power128(done));
        }
      }
    }
  }

  lemma Regroup(low: nat, high: nat, multiplier: nat)
    ensures (low + 128 * high) * multiplier == low * multiplier + high * (multiplier * 128)
  {
  }

  /** The index of the first byte without its top bit, or the length when there is none. */
  function FieldEnd(s: seq<byte>): (i: nat)
    ensures i <= |s|
    ensures i < |s| ==> s[i] < 128
    ensures forall j | 0 <= j < i :: s[j] >= 128
  {
    if |s| == 0 || s[0] < 128 then 0 else 1 + FieldEnd(s[1..])
  }

  /** The stream decoder goes on to the first byte without its top bit, wherever that is. */
  lemma {:induction false} StreamDecodeEndsAtFieldEnd(s: seq<byte>, remLen: nat, multiplier: nat)
    ensures StreamDecode(s, remLen, multiplier).Some? <==> FieldEnd(s) < |s|
    ensures StreamDecode(s, remLen, multiplier).Some? ==> StreamDecode(s, remLen, multiplier).value.1 == FieldEnd(s) + 1
    decreases |s|
  {
    if |s| > 0 && s[0] >= 128 {
      StreamDecodeEndsAtFieldEnd(s[1..], (remLen + s[0] % 128 * multiplier) % WORD, multiplier * 128 % WORD);
    }
  }

  /** The stream decoder agrees with the standard exactly when one of the first four bytes ends the
      field, or no byte of the stream does. */
  lemma StreamDecoderObeysLimitExactlyUpToFourBytes(s: seq<byte>)
    ensures StreamDecode(s, 0, 1) == Decode(s) <==>
            (exists i :: 0 <= i < 4 && i < |s| && s[i] < 128) || (forall i | 0 <= i < |s| :: s[i] >= 128)
  {
    hide StreamDecode, DecodeWithin, FieldEnd;
    assert Power128(0) == 1;
    StreamDecodeWithin(s, 4, 0, 0);
    StreamDecodeEndsAtFieldEnd(s, 0, 1);
  }

  /** A five-byte field, which the standard forbids, is accepted as length 0. */
  lemma StreamDecoderAcceptsFiveBytes()
    ensures Decode([128, 128, 128, 128, 0]) == None
    ensures StreamDecode([128, 128, 128, 128, 0], 0, 1) == Some((0, 5))
  {
    var s: seq<byte> := [128, 128, 128, 128, 0];
    assert s[1..] == [128, 128, 128, 0];
    assert s[1..][1..] == [128, 128, 0];
    assert s[1..][1..][1..] == [128, 0];
    assert s[1..][1..][1..][1..] == [0];
    assert StreamDecode([0], 0, LIMIT) == Some((0, 1));
    assert StreamDecode([128, 0], 0, 2097152) == Some((0, 2));
    assert StreamDecode([128, 128, 0], 0, 16384) == Some((0, 3));
    assert StreamDecode([128, 128, 128, 0], 0, 128) == Some((0, 4));
    assert DecodeWithin([128, 0], 1) == None;
    assert DecodeWithin([128, 128, 0], 2) == None;
    assert DecodeWithin([128, 128, 128, 0], 3) == None;
  }
}
