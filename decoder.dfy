/** The packet functions of apps/decoder/services/decoder.go: the integrity check of one
    RECT-separated part of a payload, the extraction of the TAP packet it carries, and the
    walk over a TAP-wrapper frame that collects its uplink messages. A Go slice that a
    function writes through is an array window `part[lo..hi]` (capacity up to `max`); a slice
    that is only read is a sequence. */
module Decoder {
  import opened Bytes
  import opened Text
  import opened Crc16
  import IntCodec
  import opened Addresses
  import opened Tap
  import opened Wrapper

  // ---- checkPacketIntegrity ----

  datatype IntegrityError =
    | EmptyPart
    | StartByteNotDefined
    | PartLengthIssue
    | CrcMismatch(dcuPort: int, inPacket: nat, computed: nat)

  /** The parts checkPacketIntegrity does not panic on: an empty part is refused before any
      index only when the offset is 4 or 0; any other part must reach its length byte. */
  predicate IntegrityDefined(len: nat, offset: int) {
    if len == 0 then offset == 4 || offset == 0 else len >= 12
  }

  /** The data length a part declares: the byte after the marker and the 10 header bytes. */
  function PartDataLen(w: seq<byte>): nat
    requires |w| >= 12
  {
    w[11] as nat
  }

  /** `len(part) >= part[11]+13+1`: room for the marker, header, data and two CRC bytes. */
  predicate PartLongEnough(w: seq<byte>)
    requires |w| >= 12
  {
    |w| >= PartDataLen(w) + 14
  }

  /** The CRC stored after the data, big-endian. */
  function PartStoredCrc(w: seq<byte>): nat
    requires |w| >= 12 && PartLongEnough(w)
  {
    var n := PartDataLen(w);
    w[12 + n] as nat * 256 + w[13 + n] as nat
  }

  /** The CRC of the header and data after the marker, zero-padded to even length. */
  function PartComputedCrc(w: seq<byte>): nat
    requires |w| >= 12 && PartLongEnough(w)
  {
    PaddedCrc(w[1..12 + PartDataLen(w)])
  }

  /** What checkPacketIntegrity reports for a part: `None` when it passes. */
  function Integrity(w: seq<byte>, offset: int, dcuPort: int): Option<IntegrityError>
    requires IntegrityDefined(|w|, offset)
  {
    if |w| == 0 then Some(EmptyPart)
    else if !PartLongEnough(w) then Some(PartLengthIssue)
    else if w[0] != TapStartByte then Some(StartByteNotDefined)
    else if PartComputedCrc(w) == PartStoredCrc(w) then None
    else Some(CrcMismatch(dcuPort, PartStoredCrc(w), PartComputedCrc(w)))
  }

  /** The offset in the part that checkPacketIntegrity sets to 0: when the CRC is compared and
      the header and data span is odd, the pad byte is written over the first stored CRC byte. */
  function IntegrityPad(w: seq<byte>, offset: int): (z: Option<nat>)
    requires IntegrityDefined(|w|, offset)
    ensures z.Some? ==> z.value < |w|
  {
    if |w| > 0 && PartLongEnough(w) && w[0] == TapStartByte && (11 + PartDataLen(w)) % 2 == 1
    then Some(12 + PartDataLen(w))
    else None
  }

  /** The array after checkPacketIntegrity of the part `w` starting at `lo`. */
  function PartAfterCheck(a: seq<byte>, lo: nat, w: seq<byte>, offset: int): seq<byte>
    requires IntegrityDefined(|w|, offset) && lo + |w| <= |a|
  {
    var z := IntegrityPad(w, offset);
    if z.Some? then a[lo + z.value := 0] else a
  }

  /** checkPacketIntegrity of `part[lo:hi]`: an empty part, a part too short for its declared
      data, a missing 0xAA marker and a CRC mismatch are errors; `ok` holds exactly when there
      is none. The only write is the pad byte of PartAfterCheck. */
  method CheckPacketIntegrity(part: array<byte>, lo: nat, hi: nat, offset: int, dcuPort: int)
    returns (ok: bool, err: Option<IntegrityError>)
    requires lo <= hi <= part.Length && IntegrityDefined(hi - lo, offset)
    modifies part
    ensures err == Integrity(old(part[lo..hi]), offset, dcuPort)
    ensures ok <==> err.None?
    ensures part[..] == PartAfterCheck(old(part[..]), lo, old(part[lo..hi]), offset)
  {
    ghost var w := part[lo..hi];
    ghost var before := part[..];
    var len := hi - lo;
    if (len < 18 && offset == 4) || (len < 14 && offset == 0) {
      if len == 0 {
        return false, Some(EmptyPart);
      }
    }

    if len >= part[lo + 11] as int + 13 + 1 {
      var startByte := part[lo];
      if startByte != 0xAA {
        return false, Some(StartByteNotDefined);
      }
      ok, err := CompareCrc(part, lo, hi, offset, dcuPort, w);
      return;
    }
    return false, Some(PartLengthIssue);
  }

  /** The array contents after the pad write of an odd span `a[at..at + len]`. */
  function ZeroAfterOddSpan(a: seq<byte>, at: nat, len: nat): seq<byte>
    requires at + len < |a|
  {
    if len % 2 != 0 then a[at + len := 0] else a
  }

  /** The CRC comparison of checkPacketIntegrity, for a part `w == part[lo:hi]` long enough
      for its declared data and starting with the marker: `part = part[1:]`, the stop byte
      position, the stored CRC read with DeserializeUInt16 and the computed one. */
  method CompareCrc(part: array<byte>, lo: nat, hi: nat, offset: int, dcuPort: int, ghost w: seq<byte>)
    returns (ok: bool, err: Option<IntegrityError>)
    requires lo + 12 <= hi <= part.Length && w == part[lo..hi] && IntegrityDefined(|w|, offset)
    requires PartLongEnough(w) && w[0] == TapStartByte
    modifies part
    ensures err == Integrity(w, offset, dcuPort)
    ensures ok <==> err.None?
    ensures part[..] == PartAfterCheck(old(part[..]), lo, w, offset)
  {
    PartWindow(part[..], lo, hi);
    // part = part[1:]; its length is at least 11 + part[10] + 2 here, so the source's
    // "stop byte issue" branch cannot be taken.
    var base := lo + 1;
    var stopBytePos := 11 + part[base + 10] as int;
    assert stopBytePos == 11 + PartDataLen(w);
    assert part[base + stopBytePos] == w[12 + PartDataLen(w)];
    assert part[base + stopBytePos + 1] == w[13 + PartDataLen(w)];
    var crcInPacket := ReadStoredCrc(part, base + stopBytePos);
    assert crcInPacket == PartStoredCrc(w);
    var crcComputed := PaddedSpanCrc(part, base, stopBytePos, w[1..12 + PartDataLen(w)]);
    assert crcComputed == PartComputedCrc(w);
    IntegrityOfCheckedPart(w, offset, dcuPort);
    if crcComputed == crcInPacket {
      ok, err := true, None;
    } else {
      ok, err := false, Some(CrcMismatch(dcuPort, crcInPacket, crcComputed));
    }
  }

  /** `DeserializeUInt16(part[at:at+2], "normal")`: two bytes always deserialize, so the
      source's error branch cannot be taken. */
  method ReadStoredCrc(part: array<byte>, at: nat) returns (crc: nat)
    requires at + 2 <= part.Length
    ensures crc == part[at] as nat * 256 + part[at + 1] as nat
  {
    assert |"normal"| != |"reverse"|;
    var r := IntCodec.DeserializeUInt16(part[at..at + 2], "normal");
    crc := r.value;
  }

  /** The CRC step of checkPacketIntegrity: the CRC-16/XMODEM of `part[at:at+len]`, where an
      odd span is first padded by writing 0 into the byte after it. */
  method PaddedSpanCrc(part: array<byte>, at: nat, len: nat, ghost span: seq<byte>) returns (crcComputed: nat)
    requires at + len < part.Length && span == part[at..at + len]
    modifies part
    ensures crcComputed == PaddedCrc(span)
    ensures part[..] == ZeroAfterOddSpan(old(part[..]), at, len)
  {
    ghost var before := part[..];
    if len % 2 != 0 {
      part[at + len] := 0x00;
      assert part[..] == before[at + len := 0];
      WrittenPad(before, part[..], at, len);
      var c := Crc16XModem(Octets(part[at..at + len + 1]), []);
      crcComputed := c as nat;
    } else {
      var c := Crc16XModem(Octets(part[at..at + len]), []);
      crcComputed := c as nat;
    }
  }

  /** The outcome of a part that reaches the CRC comparison, and the byte it pads. */
  lemma IntegrityOfCheckedPart(w: seq<byte>, offset: int, dcuPort: int)
    requires |w| >= 12 && PartLongEnough(w) && w[0] == TapStartByte
    ensures IntegrityDefined(|w|, offset)
    ensures Integrity(w, offset, dcuPort)
            == if PartComputedCrc(w) == PartStoredCrc(w) then None
               else Some(CrcMismatch(dcuPort, PartStoredCrc(w), PartComputedCrc(w)))
    ensures IntegrityPad(w, offset) == if (11 + PartDataLen(w)) % 2 == 1 then Some(12 + PartDataLen(w)) else None
  {
  }

  /** Where the header and data span and the stored CRC of a part lie in the array. */
  lemma PartWindow(a: seq<byte>, lo: nat, hi: nat)
    requires lo + 12 <= hi <= |a| && PartLongEnough(a[lo..hi])
    ensures var w := a[lo..hi];
      && a[lo + 11] as int == PartDataLen(w)
      && a[lo + 1..lo + 12 + PartDataLen(w)] == w[1..12 + PartDataLen(w)]
      && a[lo + 12 + PartDataLen(w)] == w[12 + PartDataLen(w)]
      && a[lo + 13 + PartDataLen(w)] == w[13 + PartDataLen(w)]
  {
    var n := PartDataLen(a[lo..hi]);
    var u := a[lo..hi][1..12 + n];
    var v := a[lo + 1..lo + 12 + n];
    forall k | 0 <= k < |u|
      ensures u[k] == v[k]
    {
      assert u[k] == a[lo..hi][1 + k] == a[lo + 1 + k];
    }
    assert u == v;
  }

  /** Writing 0 just after an odd-length span gives that span zero-padded to even length. */
  lemma WrittenPad(before: seq<byte>, after: seq<byte>, at: nat, len: nat)
    requires at + len < |before| && after == before[at + len := 0] && len % 2 == 1
    ensures after[at..at + len + 1] == PadEven(before[at..at + len])
  {
    assert after[at..at + len] == before[at..at + len];
  }

  // ---- getMyTapPacket ----

  /** The packet NewTAPPacket makes. */
  const NewTapValue := TapValue(Some(""), 0, Some(""), 0, 0, [])

  /** The bytes of the command-ID address getMyTapPacket prints: `0.0.part[5].part[6]` for
      offset 4, `0.0.part[6].part[7]` otherwise. */
  function CommandBytes(w: seq<byte>, offset: int): (b: seq<byte>)
    requires |w| >= 8
    ensures |b| == 4
  {
    if offset == 4 then [0, 0, w[5], w[6]] else [0, 0, w[6], w[7]]
  }

  /** The command ID: DumpToInteger of that address. */
  function CommandId(w: seq<byte>, offset: int): nat
    requires |w| >= 8
  {
    Unsigned(CommandBytes(w, offset))
  }

  /** `part[0] & part[1] & part[2] & part[3]`. */
  function AndOfFirstFour(w: seq<byte>): bv8
    requires |w| >= 4
  {
    (w[0] as bv8) & (w[1] as bv8) & (w[2] as bv8) & (w[3] as bv8)
  }

  /** The span up to the stop byte is deserialized whole for a part whose first four bytes AND
      to 0xFF, or whose command ID lies in [59900, 60050); otherwise the offset is cut off. */
  predicate WholeSpan(w: seq<byte>, offset: int)
    requires |w| >= 8
  {
    AndOfFirstFour(w) == 0xFF || (59900 <= CommandId(w, offset) < 60050)
  }

  /** The length of the slice getMyTapPacket deserializes: `stopBytePos = 11 + part[10]`,
      less the offset unless the span is whole. */
  function SpanEnd(w: seq<byte>, offset: int): int
    requires |w| >= 11
  {
    var stopBytePos := 11 + w[10] as int;
    if WholeSpan(w, offset) then stopBytePos else stopBytePos - offset
  }

  /** The parts getMyTapPacket does not panic on: it indexes bytes 0 to 10, and the slice it
      deserializes lies within the capacity `w` and can be deserialized. */
  predicate MyTapDefined(w: seq<byte>, len: nat, offset: int) {
    11 <= len <= |w| && 0 <= SpanEnd(w, offset) <= |w| && CanDeserialize(w, SpanEnd(w, offset))
  }

  /** `DataLen -= uint8(offset)`: uint8 subtraction of the truncated offset. */
  function LessOffset(dataLen: byte, offset: int): (r: byte)
    ensures (r as int + offset) % 256 == dataLen as int
  {
    ((dataLen as int - offset) % 256) as byte
  }

  /** The packet getMyTapPacket returns: the slice deserialized into a new packet, with the
      offset taken off the data length when the span was cut and deserializing succeeded. */
  function MyTapValue(w: seq<byte>, offset: int): TapValue
    requires MyTapDefined(w, 11, offset)
  {
    var end := SpanEnd(w, offset);
    var v := Deserialized(NewTapValue, w, end);
    if !WholeSpan(w, offset) && DeserializeError(w, end).None? then v.(dataLen := LessOffset(v.dataLen, offset))
    else v
  }

  /** The error getMyTapPacket returns: that of Deserialize. */
  function MyTapError(w: seq<byte>, offset: int): Option<DecodeError>
    requires MyTapDefined(w, 11, offset)
  {
    DeserializeError(w, SpanEnd(w, offset))
  }

  /** getMyTapPacket of `part[lo:hi]` with capacity up to `max`: a new packet holding
      MyTapValue, the error of Deserialize, and the pad byte Deserialize writes into the part. */
  method GetMyTapPacket(part: array<byte>, lo: nat, hi: nat, max: nat, offset: int)
    returns (p: TapPacket, err: Option<DecodeError>)
    requires lo <= hi <= max <= part.Length && MyTapDefined(part[lo..max], hi - lo, offset)
    modifies part
    ensures fresh(p)
    ensures p.Value() == MyTapValue(old(part[lo..max]), offset)
    ensures err == MyTapError(old(part[lo..max]), offset)
    ensures part[..] == PadBuffer(old(part[..]), lo, old(part[lo..max]), SpanEnd(old(part[lo..max]), offset))
  {
    ghost var w := part[lo..max];
    p := new TapPacket();
    var whole := IsWholeSpan(part, lo, max, offset);
    if whole {
      err := DeserializeWhole(p, part, lo, max, offset, w);
    } else {
      err := DeserializeCut(p, part, lo, max, offset, w);
    }
  }

  /** The branch of getMyTapPacket for a whole span: the slice up to the stop byte is
      deserialized as it is. */
  method DeserializeWhole(p: TapPacket, part: array<byte>, lo: nat, max: nat, offset: int, ghost w: seq<byte>)
    returns (err: Option<DecodeError>)
    requires lo <= max <= part.Length && w == part[lo..max] && MyTapDefined(w, 11, offset)
    requires WholeSpan(w, offset) && p.Value() == NewTapValue
    modifies p, part
    ensures p.Value() == MyTapValue(w, offset)
    ensures err == MyTapError(w, offset)
    ensures part[..] == PadBuffer(old(part[..]), lo, w, SpanEnd(w, offset))
  {
    var stopBytePos := 11 + part[lo + 10] as int;
    assert SpanEnd(w, offset) == stopBytePos;
    err := DeserializeSpan(p, part, lo, stopBytePos, max, w);
    MyTapWhole(w, offset);
  }

  /** The branch of getMyTapPacket for a cut span: the offset is cut off the slice, and off
      the data length once deserializing succeeded. */
  method DeserializeCut(p: TapPacket, part: array<byte>, lo: nat, max: nat, offset: int, ghost w: seq<byte>)
    returns (err: Option<DecodeError>)
    requires lo <= max <= part.Length && w == part[lo..max] && MyTapDefined(w, 11, offset)
    requires !WholeSpan(w, offset) && p.Value() == NewTapValue
    modifies p, part
    ensures p.Value() == MyTapValue(w, offset)
    ensures err == MyTapError(w, offset)
    ensures part[..] == PadBuffer(old(part[..]), lo, w, SpanEnd(w, offset))
  {
    var stopBytePos := 11 + part[lo + 10] as int;
    assert SpanEnd(w, offset) == stopBytePos - offset;
    err := DeserializeSpan(p, part, lo, stopBytePos - offset, max, w);
    MyTapCut(w, offset);
    if err.Some? {
      return;
    }
    ghost var v := p.Value();
    p.dataLen := LessOffset(p.dataLen, offset);
    assert p.Value() == v.(dataLen := LessOffset(v.dataLen, offset));
  }

  /** `p.Deserialize(part[lo:lo+len])` into a new packet, the part `w == part[lo:max]`. */
  method DeserializeSpan(p: TapPacket, part: array<byte>, lo: nat, len: nat, max: nat, ghost w: seq<byte>)
    returns (err: Option<DecodeError>)
    requires lo + len <= max <= part.Length && w == part[lo..max] && CanDeserialize(w, len)
    requires p.Value() == NewTapValue
    modifies p, part
    ensures p.Value() == Deserialized(NewTapValue, w, len)
    ensures err == DeserializeError(w, len)
    ensures part[..] == PadBuffer(old(part[..]), lo, w, len)
  {
    err := p.Deserialize(part, lo, lo + len, max);
  }

  /** The condition of getMyTapPacket's branch: the first four bytes AND to 0xFF, or the
      command ID lies in [59900, 60050). */
  method IsWholeSpan(part: array<byte>, lo: nat, max: nat, offset: int) returns (whole: bool)
    requires lo + 8 <= max <= part.Length
    ensures whole == WholeSpan(part[lo..max], offset)
  {
    var cmdID := PartCommandId(part, lo, max, offset);
    assert AndOfFirstFour(part[lo..lo + 4]) == AndOfFirstFour(part[lo..max]);
    whole := AndOfFirstFour(part[lo..lo + 4]) == 0xFF || (cmdID >= 59900 && cmdID < 60050);
  }

  /** The command ID of getMyTapPacket: the bytes printed as a dotted address, made an
      Address and read back with DumpToInteger. */
  method PartCommandId(part: array<byte>, lo: nat, max: nat, offset: int) returns (cmdID: int)
    requires lo + 8 <= max <= part.Length
    ensures cmdID == CommandId(part[lo..max], offset)
  {
    ghost var w := part[lo..max];
    var commandID: string;
    if offset == 4 {
      commandID := Dotted([0, 0, part[lo + 5], part[lo + 6]]);
    } else {
      commandID := Dotted([0, 0, part[lo + 6], part[lo + 7]]);
    }
    assert commandID == Dotted(CommandBytes(w, offset));
    DumpDotted(CommandBytes(w, offset));
    // The printed bytes always form a valid address, so neither error of NewAddress nor of
    // DumpToInteger can occur.
    var address := NewAddress(commandID);
    var dumped := address.DumpToInteger();
    cmdID := dumped.value;
  }

  /** The packet and error of getMyTapPacket for a whole span. */
  lemma MyTapWhole(w: seq<byte>, offset: int)
    requires MyTapDefined(w, 11, offset) && WholeSpan(w, offset)
    ensures var end := 11 + w[10] as int;
      && MyTapError(w, offset) == DeserializeError(w, end)
      && MyTapValue(w, offset) == Deserialized(NewTapValue, w, end)
  {
  }

  /** The packet and error of getMyTapPacket for a cut span: the offset comes off the data
      length only when deserializing succeeds. */
  lemma MyTapCut(w: seq<byte>, offset: int)
    requires MyTapDefined(w, 11, offset) && !WholeSpan(w, offset)
    ensures var end := 11 + w[10] as int - offset;
      var v := Deserialized(NewTapValue, w, end);
      && MyTapError(w, offset) == DeserializeError(w, end)
      && (MyTapError(w, offset).Some? ==> MyTapValue(w, offset) == v)
      && (MyTapError(w, offset).None? ==> MyTapValue(w, offset) == v.(dataLen := LessOffset(v.dataLen, offset)))
  {
  }

  // ---- getTwUplinkPackets ----

  /** The deframing walk of getTwUplinkPackets, from `index` on, reads only within the data:
      it stops once `index` reaches the 10 trailer bytes. */
  predicate WalkDefined(data: seq<byte>, index: int)
    decreases |data| - index
  {
    index >= |data| - 10
    || (DeframeDefined(data, index) && WalkDefined(data, index + Consumed(data, index)))
  }

  /** The answers getTwUplinkPackets keeps from `index` on: those of the "Uplink_Msg"
      messages, in order; the context's downlink status follows the status messages on the
      way. */
  function UplinkPackets(c: Context, data: seq<byte>, index: int): seq<Resp>
    requires WalkDefined(data, index)
    decreases |data| - index
  {
    if index >= |data| - 10 then []
    else
      var rest := UplinkPackets(c.(status := StatusAfter(c.status, data, index)), data, index + Consumed(data, index));
      if UplinkAt(data, index) then [RespAt(c, data, index)] + rest else rest
  }

  /** The message at `index` is an "Uplink_Msg": a case "2" message from an endpoint that is
      neither 0x16 nor 240 or above (UplinkIsUplinkMsg). */
  predicate UplinkAt(data: seq<byte>, index: int)
    requires DeframeDefined(data, index)
  {
    data[index + 1] == UplinkTag && IsUplinkEP(data[index + 10])
  }

  /** The context of a frame's first message: the sink id, DCU time and DCU number that
      validateUplinkPacket reads, and the initial downlink status. */
  function FrameContext(data: seq<byte>): Context
    requires |data| >= 10
  {
    Context(data[3], data[|data| - 10], data[|data| - 6], [0])
  }

  /** getTwUplinkPackets: "invalid wp packet" for a frame whose CRC byte does not match;
      otherwise the answers of its uplink messages, in frame order. */
  method GetTwUplinkPackets(data: seq<byte>) returns (tapPackets: seq<Resp>, err: Option<string>)
    requires |data| >= 10
    requires ValidFrame(data) ==> WalkDefined(data, 4)
    ensures err.Some? <==> !ValidFrame(data)
    ensures err.Some? ==> err.value == "invalid wp packet" && tapPackets == []
    ensures err.None? ==> tapPackets == UplinkPackets(FrameContext(data), data, 4)
  {
    var twPacket := new TapWrapperPacket();
    tapPackets := [];
    var isValid := twPacket.ValidateUplinkPacket(data);

    if isValid {
      tapPackets := KeepUplinks(twPacket, data);
      return tapPackets, None;
    }
    return [], Some("invalid wp packet");
  }

  /** The loop of getTwUplinkPackets over a valid frame: deframe message after message up to
      the 10 trailer bytes and keep the answers typed "Uplink_Msg". */
  method KeepUplinks(twPacket: TapWrapperPacket, data: seq<byte>) returns (tapPackets: seq<Resp>)
    requires |data| >= 10 && WalkDefined(data, 4)
    requires twPacket.sinkID == data[3] && twPacket.uplinkMsgDcuTime == data[|data| - 10]
    requires twPacket.uplinkMsgDcuNum == data[|data| - 6] && twPacket.downlinkMsgSentStatus == [0]
    modifies twPacket`protocolVersion, twPacket`messageType, twPacket`messageID, twPacket`downlinkMsgSentStatus
    modifies twPacket`uplinkMsgSrcAddress, twPacket`uplinkMsgDestAddress, twPacket`uplinkMsgSrcEP
    modifies twPacket`uplinkMsgDstEP, twPacket`uplinkMsgTravelTime, twPacket`uplinkMsgRxQos
    modifies twPacket`uplinkMsgMsgLen, twPacket`uplinkMsgHopCnt, twPacket`uplinkTapMsg
    ensures tapPackets == UplinkPackets(FrameContext(data), data, 4)
  {
    tapPackets := [];
    var dataLen := |data| - 10;
    var index := 4;
    ghost var total := UplinkPackets(FrameContext(data), data, 4);
    ghost var c := FrameContext(data);
    while dataLen > index
      invariant WalkDefined(data, index)
      invariant twPacket.sinkID == data[3] && twPacket.uplinkMsgDcuTime == data[|data| - 10]
      invariant twPacket.uplinkMsgDcuNum == data[|data| - 6]
      invariant c == Context(data[3], data[|data| - 10], data[|data| - 6], twPacket.downlinkMsgSentStatus)
      invariant tapPackets + UplinkPackets(c, data, index) == total
      decreases |data| - index
    {
      var newIndex;
      newIndex, tapPackets := WalkOnce(twPacket, data, index, tapPackets, c, total);
      c := c.(status := StatusAfter(c.status, data, index));
      index := index + newIndex;
    }
  }

  /** The body of getTwUplinkPackets' loop: deframe the message at `index` and keep its
      answer when it is typed "Uplink_Msg"; the answers kept followed by those still to come
      stay the same. */
  method WalkOnce(twPacket: TapWrapperPacket, data: seq<byte>, index: int, tapPackets: seq<Resp>,
                  ghost c: Context, ghost total: seq<Resp>)
    returns (newIndex: int, kept: seq<Resp>)
    requires WalkDefined(data, index) && index < |data| - 10
    requires c == Context(twPacket.sinkID, twPacket.uplinkMsgDcuTime, twPacket.uplinkMsgDcuNum,
                          twPacket.downlinkMsgSentStatus)
    requires tapPackets + UplinkPackets(c, data, index) == total
    modifies twPacket`protocolVersion, twPacket`messageType, twPacket`messageID, twPacket`downlinkMsgSentStatus
    modifies twPacket`uplinkMsgSrcAddress, twPacket`uplinkMsgDestAddress, twPacket`uplinkMsgSrcEP
    modifies twPacket`uplinkMsgDstEP, twPacket`uplinkMsgTravelTime, twPacket`uplinkMsgRxQos
    modifies twPacket`uplinkMsgMsgLen, twPacket`uplinkMsgHopCnt, twPacket`uplinkTapMsg
    ensures newIndex == Consumed(data, index) && WalkDefined(data, index + newIndex)
    ensures twPacket.downlinkMsgSentStatus == StatusAfter(c.status, data, index)
    ensures kept + UplinkPackets(c.(status := StatusAfter(c.status, data, index)), data, index + newIndex) == total
  {
    var tempPacket;
    newIndex, tempPacket := twPacket.DeframeUplinkPacket(data, index);
    WalkAdvance(tapPackets, c, data, index, tempPacket, total);
    kept := tapPackets;
    if "MessageType" in tempPacket && tempPacket["MessageType"] == TextField("Uplink_Msg") {
      kept := kept + [tempPacket];
    }
  }

  /** One iteration of the walk: the answer at `index` is kept exactly when it is an
      "Uplink_Msg", and the answers kept so far followed by those still to come stay the same. */
  lemma WalkAdvance(kept: seq<Resp>, c: Context, data: seq<byte>, index: int, respData: Resp, total: seq<Resp>)
    requires WalkDefined(data, index) && index < |data| - 10
    requires kept + UplinkPackets(c, data, index) == total
    requires DeframeDefined(data, index) && respData == RespAt(c, data, index)
    ensures WalkDefined(data, index + Consumed(data, index))
    ensures var keep := "MessageType" in respData && respData["MessageType"] == TextField("Uplink_Msg");
      (if keep then kept + [respData] else kept)
      + UplinkPackets(c.(status := StatusAfter(c.status, data, index)), data, index + Consumed(data, index))
      == total
  {
    WalkStep(c, data, index);
    KeptIffUplink(c, data, index);
    KeepStep(kept, if UplinkAt(data, index) then [RespAt(c, data, index)] else [],
             UplinkPackets(c.(status := StatusAfter(c.status, data, index)), data, index + Consumed(data, index)),
             total, respData, UplinkAt(data, index));
  }

  /** The walk at a message before the trailer: the message can be read, the walk goes on
      after it, and its answer comes first when it is an "Uplink_Msg". */
  lemma WalkStep(c: Context, data: seq<byte>, index: int)
    requires WalkDefined(data, index) && index < |data| - 10
    ensures DeframeDefined(data, index) && WalkDefined(data, index + Consumed(data, index))
    ensures UplinkPackets(c, data, index)
            == (if UplinkAt(data, index) then [RespAt(c, data, index)] else [])
               + UplinkPackets(c.(status := StatusAfter(c.status, data, index)), data, index + Consumed(data, index))
  {
  }

  /** The answer at `index` has message type "Uplink_Msg" exactly when the message is one. */
  lemma KeptIffUplink(c: Context, data: seq<byte>, index: int)
    requires DeframeDefined(data, index)
    ensures var r := RespAt(c, data, index);
      ("MessageType" in r && r["MessageType"] == TextField("Uplink_Msg")) <==> UplinkAt(data, index)
  {
    RespShape(c, data, index);
    UplinkIsUplinkMsg(data, index);
  }

  /** Only a case "2" message from an uplink endpoint is typed "Uplink_Msg". */
  lemma UplinkIsUplinkMsg(data: seq<byte>, index: int)
    requires DeframeDefined(data, index)
    ensures MessageTypeAt(data, index) == "Uplink_Msg" <==> UplinkAt(data, index)
  {
    var tag := data[index + 1];
    if tag == UplinkTag {
      UplinkKindCases(data[index + 10]);
    } else if tag == SentStatusTag {
      assert MessageTypeAt(data, index) == "Downlink_Sent_Status_Msg";
    } else if IsStatusTag(tag) {
      assert MessageTypeAt(data, index)[0] == 'S';
    }
  }

  /** Keeping an answer exactly when it is the walk's next one moves it from the answers to
      come to the answers kept. */
  lemma KeepStep(kept: seq<Resp>, first: seq<Resp>, rest: seq<Resp>, total: seq<Resp>, respData: Resp, isUplink: bool)
    requires kept + (first + rest) == total
    requires first == if isUplink then [respData] else []
    requires ("MessageType" in respData && respData["MessageType"] == TextField("Uplink_Msg")) == isUplink
    ensures var keep := "MessageType" in respData && respData["MessageType"] == TextField("Uplink_Msg");
      (if keep then kept + [respData] else kept) + rest == total
  {
    if isUplink {
      assert kept + [respData] + rest == kept + ([respData] + rest);
    } else {
      assert first + rest == rest;
    }
  }

  // ---- Properties ----

  /** An answer typed "Uplink_Msg" that carries TAP bytes. */
  predicate IsUplinkAnswer(r: Resp) {
    "MessageType" in r && r["MessageType"] == TextField("Uplink_Msg") && "TAP" in r
  }

  /** Every answer getTwUplinkPackets keeps is an "Uplink_Msg" carrying TAP bytes. */
  lemma {:induction false} UplinkPacketsAreUplinks(c: Context, data: seq<byte>, index: int)
    requires WalkDefined(data, index)
    ensures forall r :: r in UplinkPackets(c, data, index) ==> IsUplinkAnswer(r)
    decreases |data| - index
  {
    if index < |data| - 10 {
      var c' := c.(status := StatusAfter(c.status, data, index));
      var rest := UplinkPackets(c', data, index + Consumed(data, index));
      UplinkPacketsAreUplinks(c', data, index + Consumed(data, index));
      WalkStep(c, data, index);
      if UplinkAt(data, index) {
        RespShape(c, data, index);
        UplinkIsUplinkMsg(data, index);
        assert IsUplinkAnswer(RespAt(c, data, index));
      }
    }
  }

  /** Uplink messages written one after the other. */
  function EncodeUplinks(ms: seq<UplinkMessage>): (e: seq<byte>)
    requires forall i :: 0 <= i < |ms| ==> WellFormedUplink(ms[i])
    ensures |e| >= 19 * |ms|
  {
    if ms == [] then [] else EncodeUplink(ms[0]) + EncodeUplinks(ms[1..])
  }

  /** The answer the deframer gives for an uplink message in context `c`. */
  function UplinkAnswer(c: Context, m: UplinkMessage): Resp
    requires WellFormedUplink(m)
  {
    map["sinkId" := ByteField(c.sinkID), "MsgVersion" := ByteField(m.version),
        "MessageType" := TextField("Uplink_Msg"), "SrcAddress" := ByteField(m.srcAddress[0]),
        "DstAddress" := ByteField(m.destAddress[0]), "DcuTime" := ByteField(c.dcuTime),
        "DcuNumber" := ByteField(c.dcuNum), "TAP" := BytesField(m.tap),
        "TravelTime" := ByteField(m.travelTime[0]), "HopCount" := ByteField(m.hopCount)]
  }

  function UplinkAnswers(c: Context, ms: seq<UplinkMessage>): (rs: seq<Resp>)
    requires forall i :: 0 <= i < |ms| ==> WellFormedUplink(ms[i])
    ensures |rs| == |ms|
  {
    if ms == [] then [] else [UplinkAnswer(c, ms[0])] + UplinkAnswers(c, ms[1..])
  }

  /** Walking uplink messages that sit at `index` and are followed by just the 10 trailer
      bytes gives their answers, one per message, in order. */
  lemma {:induction false} WalkUplinks(data: seq<byte>, index: nat, ms: seq<UplinkMessage>, c: Context)
    requires forall i :: 0 <= i < |ms| ==> WellFormedUplink(ms[i]) && IsUplinkEP(ms[i].srcEP)
    requires index + |EncodeUplinks(ms)| + 10 == |data|
    requires data[index..index + |EncodeUplinks(ms)|] == EncodeUplinks(ms)
    ensures WalkDefined(data, index) && UplinkPackets(c, data, index) == UplinkAnswers(c, ms)
    decreases |ms|
  {
    if ms != [] {
      UplinksSplit(data, index, ms);
      WalkUplinks(data, index + |EncodeUplink(ms[0])|, ms[1..], c);
      UplinksCons(data, index, ms, c);
    }
  }

  /** The step of WalkUplinks: when the walk over the messages after the first gives their
      answers, the walk over all of them gives the first answer followed by those. */
  lemma UplinksCons(data: seq<byte>, index: nat, ms: seq<UplinkMessage>, c: Context)
    requires ms != []
    requires forall i :: 0 <= i < |ms| ==> WellFormedUplink(ms[i]) && IsUplinkEP(ms[i].srcEP)
    requires index + |EncodeUplink(ms[0])| + 10 <= |data|
    requires data[index..index + |EncodeUplink(ms[0])|] == EncodeUplink(ms[0])
    requires forall i :: 0 <= i < |ms[1..]| ==> WellFormedUplink(ms[1..][i])
    requires WalkDefined(data, index + |EncodeUplink(ms[0])|)
    requires UplinkPackets(c, data, index + |EncodeUplink(ms[0])|) == UplinkAnswers(c, ms[1..])
    ensures WalkDefined(data, index) && UplinkPackets(c, data, index) == UplinkAnswers(c, ms)
  {
    UplinkHead(data, index, ms[0], c);
    assert UplinkAnswers(c, ms) == [UplinkAnswer(c, ms[0])] + UplinkAnswers(c, ms[1..]);
  }

  /** Encoded uplink messages in a window: the first one, then the others. */
  lemma UplinksSplit(data: seq<byte>, index: nat, ms: seq<UplinkMessage>)
    requires ms != []
    requires forall i :: 0 <= i < |ms| ==> WellFormedUplink(ms[i]) && IsUplinkEP(ms[i].srcEP)
    requires index + |EncodeUplinks(ms)| + 10 == |data|
    requires data[index..index + |EncodeUplinks(ms)|] == EncodeUplinks(ms)
    ensures forall i :: 0 <= i < |ms[1..]| ==> WellFormedUplink(ms[1..][i]) && IsUplinkEP(ms[1..][i].srcEP)
    ensures var e := EncodeUplink(ms[0]);
      && index + |e| + 10 <= |data| && data[index..index + |e|] == e
      && index + |e| + |EncodeUplinks(ms[1..])| + 10 == |data|
      && data[index + |e|..index + |e| + |EncodeUplinks(ms[1..])|] == EncodeUplinks(ms[1..])
  {
    var e := EncodeUplink(ms[0]);
    var rest := EncodeUplinks(ms[1..]);
    assert EncodeUplinks(ms) == e + rest;
    SplitWindow(data, index, e, rest);
    forall i | 0 <= i < |ms[1..]|
      ensures WellFormedUplink(ms[1..][i]) && IsUplinkEP(ms[1..][i].srcEP)
    {
      assert ms[1..][i] == ms[i + 1];
    }
  }

  /** Walking from an encoded uplink message puts its answer before those of what follows it. */
  lemma UplinkHead(data: seq<byte>, index: nat, m: UplinkMessage, c: Context)
    requires WellFormedUplink(m) && IsUplinkEP(m.srcEP)
    requires index + |EncodeUplink(m)| + 10 <= |data|
    requires data[index..index + |EncodeUplink(m)|] == EncodeUplink(m)
    requires WalkDefined(data, index + |EncodeUplink(m)|)
    ensures WalkDefined(data, index)
    ensures UplinkPackets(c, data, index) == [UplinkAnswer(c, m)] + UplinkPackets(c, data, index + |EncodeUplink(m)|)
  {
    UplinkFirst(data, index, m, c);
    WalkOverUplink(c, data, index, |EncodeUplink(m)|, UplinkAnswer(c, m));
  }

  /** A window holding two pieces holds each of them in turn. */
  lemma SplitWindow(data: seq<byte>, index: nat, e: seq<byte>, rest: seq<byte>)
    requires index + |e| + |rest| <= |data| && data[index..index + |e| + |rest|] == e + rest
    ensures data[index..index + |e|] == e && data[index + |e|..index + |e| + |rest|] == rest
  {
    assert data[index..index + |e|] == (e + rest)[..|e|];
    assert data[index + |e|..index + |e| + |rest|] == (e + rest)[|e|..];
  }

  /** An encoded uplink message, followed by at least the trailer, is read as one "Uplink_Msg"
      of its own length whose answer is UplinkAnswer, and it leaves the downlink status alone. */
  lemma UplinkFirst(data: seq<byte>, index: nat, m: UplinkMessage, c: Context)
    requires WellFormedUplink(m) && IsUplinkEP(m.srcEP)
    requires index + |EncodeUplink(m)| + 10 <= |data|
    requires data[index..index + |EncodeUplink(m)|] == EncodeUplink(m)
    ensures index < |data| - 10 && DeframeDefined(data, index)
    ensures Consumed(data, index) == |EncodeUplink(m)| && UplinkAt(data, index)
    ensures StatusAfter(c.status, data, index) == c.status
    ensures RespAt(c, data, index) == UplinkAnswer(c, m)
  {
    var n := |EncodeUplink(m)|;
    assert data == data[..index] + EncodeUplink(m) + data[index + n..];
    UplinkRoundTrip(m, data[..index], data[index + n..], c);
    UplinkIsUplinkMsg(data, index);
  }

  /** Walking over an "Uplink_Msg" that keeps the status puts its answer first. */
  lemma WalkOverUplink(c: Context, data: seq<byte>, index: int, n: int, a: Resp)
    requires index < |data| - 10 && DeframeDefined(data, index)
    requires Consumed(data, index) == n && UplinkAt(data, index)
    requires StatusAfter(c.status, data, index) == c.status && RespAt(c, data, index) == a
    requires WalkDefined(data, index + n)
    ensures WalkDefined(data, index) && UplinkPackets(c, data, index) == [a] + UplinkPackets(c, data, index + n)
  {
    assert c.(status := StatusAfter(c.status, data, index)) == c;
  }

  /** A frame of a four-byte head, uplink messages and a ten-byte trailer whose ninth byte is
      the low byte of the CRC is valid, and getTwUplinkPackets returns the messages' answers
      in order. */
  lemma FrameOfUplinks(head: seq<byte>, ms: seq<UplinkMessage>, trailer: seq<byte>)
    requires |head| == 4 && |trailer| == 10
    requires forall i :: 0 <= i < |ms| ==> WellFormedUplink(ms[i]) && IsUplinkEP(ms[i].srcEP)
    requires trailer[8] == LowByte16(BitwiseCrc(Octets(PadEven(head + EncodeUplinks(ms) + trailer[..8]))))
    ensures var data := head + EncodeUplinks(ms) + trailer;
      ValidFrame(data) && WalkDefined(data, 4)
      && UplinkPackets(FrameContext(data), data, 4) == UplinkAnswers(FrameContext(data), ms)
  {
    var data := head + EncodeUplinks(ms) + trailer;
    SealedFrame(head, EncodeUplinks(ms), trailer);
    WalkUplinks(data, 4, ms, FrameContext(data));
  }

  /** A frame whose ninth trailer byte is the low CRC byte of what precedes it is valid, and
      its messages start at byte 4. */
  lemma SealedFrame(head: seq<byte>, messages: seq<byte>, trailer: seq<byte>)
    requires |head| == 4 && |trailer| == 10
    requires trailer[8] == LowByte16(BitwiseCrc(Octets(PadEven(head + messages + trailer[..8]))))
    ensures var data := head + messages + trailer;
      ValidFrame(data) && data[4..4 + |messages|] == messages
  {
    var data := head + messages + trailer;
    assert data[..|data| - 2] == head + messages + trailer[..8];
  }

  /** A part passes the integrity check exactly when it is long enough for its declared data,
      starts with the 0xAA marker and stores the CRC of everything between the marker and the
      CRC, big-endian. */
  lemma IntegrityPasses(w: seq<byte>, offset: int, dcuPort: int)
    requires IntegrityDefined(|w|, offset)
    ensures Integrity(w, offset, dcuPort).None? <==>
      |w| >= 12 && |w| >= w[11] as int + 14 && w[0] == TapStartByte
      && Unsigned(w[12 + w[11] as int..14 + w[11] as int]) == PaddedCrc(w[1..12 + w[11] as int])
  {
    if |w| >= 12 && |w| >= w[11] as int + 14 {
      var n := w[11] as int;
      var stored := w[12 + n..14 + n];
      UnsignedPair(stored);
      assert Unsigned(stored) == PartStoredCrc(w);
      if w[0] == TapStartByte {
        IntegrityOfCheckedPart(w, offset, dcuPort);
      } else {
        assert Integrity(w, offset, dcuPort) == Some(StartByteNotDefined);
      }
    } else {
      assert Integrity(w, offset, dcuPort).Some?;
    }
  }

  /** A packet as Serialize writes it, followed by any trailer, passes the integrity check
      when its length byte is the data length. */
  lemma SerializedPartPasses(src: nat, dest: nat, srcPort: byte, destPort: byte, data: seq<byte>,
                             trailer: seq<byte>, offset: int, dcuPort: int)
    requires src < 0x1_0000_0000 && dest < 0x1_0000_0000 && |data| < 256
    ensures var w := Encode(src, dest, srcPort, destPort, |data| as byte, data) + trailer;
      IntegrityDefined(|w|, offset) && Integrity(w, offset, dcuPort) == None
  {
    var e := Encode(src, dest, srcPort, destPort, |data| as byte, data);
    var w := e + trailer;
    var n := |data|;
    EncodeLayout(src, dest, srcPort, destPort, |data| as byte, data);
    assert w[1..12 + n] == e[1..12 + n];
    assert w[12 + n..14 + n] == e[12 + n..];
    IntegrityPasses(w, offset, dcuPort);
  }

  /** The command ID getMyTapPacket filters on is the big-endian value of the two bytes it
      prints: bytes 5 and 6 for offset 4, bytes 6 and 7 otherwise. */
  lemma CommandIdBytes(w: seq<byte>, offset: int)
    requires |w| >= 8
    ensures offset == 4 ==> CommandId(w, offset) == w[5] as int * 256 + w[6] as int
    ensures offset != 4 ==> CommandId(w, offset) == w[6] as int * 256 + w[7] as int
  {
    UnsignedFour(CommandBytes(w, offset));
  }

  /** The first four bytes AND to 0xFF exactly when all four are 0xFF: a broadcast address. */
  lemma AllOnesIffBroadcast(w: seq<byte>)
    requires |w| >= 4
    ensures AndOfFirstFour(w) == 0xFF <==> w[0] == 0xFF && w[1] == 0xFF && w[2] == 0xFF && w[3] == 0xFF
  {
    AndAllOnes(w[0] as bv8, w[1] as bv8);
    AndAllOnes((w[0] as bv8) & (w[1] as bv8), w[2] as bv8);
    AndAllOnes((w[0] as bv8) & (w[1] as bv8) & (w[2] as bv8), w[3] as bv8);
    ByteOnes(w[0]);
    ByteOnes(w[1]);
    ByteOnes(w[2]);
    ByteOnes(w[3]);
  }

  lemma AndAllOnes(x: bv8, y: bv8)
    ensures x & y == 0xFF <==> x == 0xFF && y == 0xFF
  {
  }

  lemma ByteOnes(b: byte)
    ensures b as bv8 == 0xFF <==> b == 0xFF
  {
  }

  /** getMyTapPacket reads the header from the part's first byte, the marker included: for a
      part that passes the integrity check, the source address it deserializes starts with
      170, the marker, and the destination address ends with byte 7. */
  lemma MarkerReadAsAddress(w: seq<byte>, offset: int, dcuPort: int)
    requires IntegrityDefined(|w|, offset) && Integrity(w, offset, dcuPort).None?
    requires MyTapDefined(w, 11, offset) && SpanEnd(w, offset) >= 13
    ensures MyTapValue(w, offset).srcAddr == Some(Dotted([TapStartByte, w[1], w[2], w[3]]))
    ensures MyTapValue(w, offset).destAddr == Some(Dotted(w[4..8]))
  {
    assert w[0..4] == [TapStartByte, w[1], w[2], w[3]];
  }
}
