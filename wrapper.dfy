/** The wrapper frame of apps/decoder/services/wp_mode.go: a frame of wrapped messages closed
    by a DCU time, a DCU number and a CRC, and the deframer that reads one wrapped message at a
    given index. The packet object is updated in place, field by field, as in the source.

    Many fields are declared `byte` in the source but filled with expressions such as
    `data[i] + (data[i+1] << 8)`: a shift of a `byte` stays a `byte`, so every shifted term is
    0 and such a field holds the low byte only. The model keeps the source's expressions
    (Shl, AddB) and proves what they amount to. */
module Wrapper {
  import opened Bytes
  import opened Text
  import opened Crc16

  // ---- Go byte arithmetic ----

  /** `b << k` on a Go `byte`, given the factor 2^k: the bits shifted past bit 7 are lost. */
  function Shl(b: byte, factor: nat): byte {
    ((b as int * factor) % 256) as byte
  }

  /** `a + b` on Go `byte`s: addition modulo 256. */
  function AddB(a: byte, b: byte): byte {
    ((a as int + b as int) % 256) as byte
  }

  /** A shift of a byte by 8 or more bits (a factor that is a multiple of 256) is 0. */
  lemma ShlVanishes(b: byte, factor: nat)
    requires factor % 256 == 0
    ensures Shl(b, factor) == 0
  {
    var m := factor / 256;
    assert b as int * factor == 256 * (b as int * m);
    DivModUnique(b as int * factor, 256, b as int * m, 0);
  }

  /** `b0 + (b1 << 8)` on bytes, as the two-byte fields are read: only the low byte remains. */
  function HalfWord(b0: byte, b1: byte): (r: byte)
    ensures r == b0
  {
    ShlVanishes(b1, 0x100);
    AddB(b0, Shl(b1, 0x100))
  }

  /** `b0 + (b1 << 8) + (b2 << 16) + (b3 << 24)` on bytes, as the four-byte fields are read:
      only the low byte remains. */
  function Word(b0: byte, b1: byte, b2: byte, b3: byte): (r: byte)
    ensures r == b0
  {
    ShlVanishes(b1, 0x100);
    ShlVanishes(b2, 0x1_0000);
    ShlVanishes(b3, 0x100_0000);
    AddB(AddB(AddB(b0, Shl(b1, 0x100)), Shl(b2, 0x1_0000)), Shl(b3, 0x100_0000))
  }

  /** `byte(x)` of a uint16: the low eight bits. */
  function LowByte16(x: bv16): (r: byte)
    ensures r as int == x as int % 256
  {
    (x as int % 256) as byte
  }

  /** A value of the `map[string]interface{}` the deframer returns. */
  datatype RespValue =
    | ByteField(b: byte)
    | TextField(s: string)
    | BytesField(bs: seq<byte>)

  type Resp = map<string, RespValue>

  // ---- validateUplinkPacket ----

  /** The CRC validateUplinkPacket computes: CRC-16/XMODEM of all but the last two bytes,
      zero-padded to even length. */
  function FrameCrc(data: seq<byte>): (c: bv16)
    requires |data| >= 2
    ensures c as nat == PaddedCrc(data[..|data| - 2])
  {
    BitwiseCrc(Octets(PadEven(data[..|data| - 2])))
  }

  /** The check validateUplinkPacket makes: the byte before the last equals the low byte of
      the CRC of everything before the last two bytes. The last byte is never compared. */
  predicate ValidFrame(data: seq<byte>)
    requires |data| >= 2
  {
    data[|data| - 2] == LowByte16(FrameCrc(data))
  }

  /** A frame stays valid or invalid whatever its last byte is: only the low CRC byte is
      compared. */
  lemma HighCrcByteIgnored(data: seq<byte>, x: byte)
    requires |data| >= 2
    ensures ValidFrame(data[..|data| - 1] + [x]) == ValidFrame(data)
  {
    var d := data[..|data| - 1] + [x];
    assert d[..|d| - 2] == data[..|data| - 2];
  }

  /** Appending the low byte of the body's padded CRC and any last byte makes a valid frame. */
  lemma SealedFrameValid(body: seq<byte>, hi: byte)
    ensures ValidFrame(body + [LowByte16(BitwiseCrc(Octets(PadEven(body))))] + [hi])
  {
    var d := body + [LowByte16(BitwiseCrc(Octets(PadEven(body))))] + [hi];
    assert d[..|d| - 2] == body;
  }

  // ---- hexValuesFromBytes ----

  function HexDigit(d: nat): (c: char)
    requires d < 16
  {
    if d < 10 then ('0' as int + d) as char else ('A' as int + d - 10) as char
  }

  /** `%02X` of a byte: two upper-case hexadecimal digits. */
  function Hex(b: byte): (s: string)
    ensures |s| == 2 && ' ' !in s
  {
    [HexDigit(b as int / 16), HexDigit(b as int % 16)]
  }

  /** The value of an upper-case hexadecimal digit. */
  function HexValue(c: char): nat {
    if '0' <= c <= '9' then c as int - '0' as int
    else if 'A' <= c <= 'F' then c as int - 'A' as int + 10
    else 0
  }

  /** Reading back the two digits of `%02X`. */
  function ParseHex(s: string): int
    requires |s| == 2
  {
    HexValue(s[0]) * 16 + HexValue(s[1])
  }

  lemma {:induction false} HexParses(b: byte)
    ensures ParseHex(Hex(b)) == b as int
  {
    var hi, lo := b as int / 16, b as int % 16;
    assert HexValue(HexDigit(hi)) == hi;
    assert HexValue(HexDigit(lo)) == lo;
  }

  /** The hexValues slice: one piece per byte, in order. */
  function HexPieces(data: seq<byte>): (pieces: seq<string>)
    ensures |pieces| == |data|
    ensures forall i :: 0 <= i < |data| ==> pieces[i] == Hex(data[i])
  {
    if data == [] then [] else HexPieces(data[..|data| - 1]) + [Hex(data[|data| - 1])]
  }

  /** hexValuesFromBytes: append the two hex digits of every byte, then join them with single
      spaces. */
  method HexValuesFromBytes(data: seq<byte>) returns (s: string)
    ensures s == Join(HexPieces(data), ' ')
  {
    var hexValues: seq<string> := [];
    for k := 0 to |data|
      invariant hexValues == HexPieces(data[..k])
    {
      hexValues := hexValues + [Hex(data[k])];
      assert data[..k + 1][..k] == data[..k];
    }
    assert data[..|data|] == data;
    s := Join(hexValues, ' ');
  }

  /** The rendering is empty for no bytes, three characters per byte less one otherwise, and
      splitting it on spaces and reading each piece gives back the bytes. */
  lemma HexValuesRoundTrip(data: seq<byte>)
    ensures data == [] ==> Join(HexPieces(data), ' ') == []
    ensures data != [] ==> |Join(HexPieces(data), ' ')| == 3 * |data| - 1
    ensures data != [] ==> var pieces := Split(Join(HexPieces(data), ' '), ' ');
      |pieces| == |data| && forall i :: 0 <= i < |data| ==> |pieces[i]| == 2 && ParseHex(pieces[i]) == data[i] as int
  {
    if data != [] {
      var pieces := HexPieces(data);
      JoinLength(pieces);
      SplitJoin(pieces, ' ');
      forall i | 0 <= i < |data| ensures ParseHex(pieces[i]) == data[i] as int {
        HexParses(data[i]);
      }
    }
  }

  /** Joining n two-character pieces with one-character separators gives 3n - 1 characters. */
  lemma {:induction false} JoinLength(pieces: seq<string>)
    requires |pieces| >= 1
    requires forall i :: 0 <= i < |pieces| ==> |pieces[i]| == 2
    ensures |Join(pieces, ' ')| == 3 * |pieces| - 1
  {
    if |pieces| > 1 {
      JoinLength(pieces[1..]);
    }
  }

  // ---- deframeUplinkPacket ----

  /** `string(data[index+1])`: the one-character string of the byte's code point. */
  function Discriminator(b: byte): (tag: string)
    ensures |tag| == 1
  {
    [(b as int) as char]
  }

  /** The case labels of the deframer's switch that are longer than one character. */
  const MultiCharLabels: set<string> :=
    {"10", "12", "14", "16", "31", "33", "35", "37", "129", "130"}

  /** No discriminator reaches a multi-character case label, because the discriminator is
      one character long and every such label is at least two: every byte that is not '1',
      '2', '4', '6' or '8' falls through to the default case. */
  lemma MultiCharLabelsUnreachable(b: byte)
    ensures |Discriminator(b)| == 1
    ensures forall tag :: tag in MultiCharLabels ==> |tag| >= 2
    ensures Discriminator(b) !in MultiCharLabels
  {
  }

  /** The message type of a case "2" message, by its source endpoint. */
  function UplinkKind(srcEP: byte): string {
    if srcEP == 0x16 then "Sink_Change_Msg"
    else if srcEP >= 240 then "Wp_Rf_Diag_Msg"
    else "Uplink_Msg"
  }

  /** The source endpoints of an ordinary uplink message. */
  predicate IsUplinkEP(srcEP: byte) {
    srcEP != 0x16 && srcEP < 240
  }

  lemma UplinkKindCases(srcEP: byte)
    ensures UplinkKind(srcEP) == "Uplink_Msg" <==> IsUplinkEP(srcEP)
  {
    if srcEP == 0x16 {
      assert UplinkKind(srcEP)[0] == 'S';
    } else if srcEP >= 240 {
      assert UplinkKind(srcEP)[0] == 'W';
    }
  }

  /** The discriminator bytes of the named cases: '1', '2', and the statuses '4', '6', '8'. */
  const SentStatusTag: byte := 0x31
  const UplinkTag: byte := 0x32

  predicate IsStatusTag(b: byte) {
    b == 0x34 || b == 0x36 || b == 0x38
  }

  /** The switch on the one-character string matches the named cases exactly for their
      digit bytes. */
  lemma DiscriminatorCases(b: byte)
    ensures Discriminator(b) == "1" <==> b == SentStatusTag
    ensures Discriminator(b) == "2" <==> b == UplinkTag
    ensures Discriminator(b) == "4" <==> b == 0x34
    ensures Discriminator(b) == "6" <==> b == 0x36
    ensures Discriminator(b) == "8" <==> b == 0x38
  {
    var c := Discriminator(b)[0];
    assert c as int == b as int;
  }

  /** The name of a status response '4', '6' or '8'. */
  function StatusKind(b: byte): string {
    if b == 0x34 then "Set_App_Config_Resp_Msg"
    else if b == 0x36 then "Set_Sink_Config_Resp_Msg"
    else "Set_Diag_Resp_Msg"
  }

  /** The indexes deframeUplinkPacket reads at `index` lie within the data. */
  predicate DeframeDefined(data: seq<byte>, index: int) {
    0 <= index && index + 1 < |data|
    && var tag := data[index + 1];
       (tag == SentStatusTag ==> index + 3 < |data|)
       && (tag == UplinkTag ==> index + 18 < |data| && index + 19 + data[index + 17] as int <= |data|)
       && (IsStatusTag(tag) ==> index + 2 < |data|)
  }

  /** How many bytes the message at `index` takes, as deframeUplinkPacket reports it: the
      whole data for an unknown message. */
  function Consumed(data: seq<byte>, index: int): (n: int)
    requires DeframeDefined(data, index)
    ensures n > 0
  {
    var tag := data[index + 1];
    if tag == SentStatusTag then 4
    else if tag == UplinkTag then 19 + data[index + 17] as int
    else if IsStatusTag(tag) then 3
    else |data|
  }

  /** The message type deframeUplinkPacket gives the message at `index`. */
  function MessageTypeAt(data: seq<byte>, index: int): string
    requires DeframeDefined(data, index)
  {
    var tag := data[index + 1];
    if tag == SentStatusTag then "Downlink_Sent_Status_Msg"
    else if tag == UplinkTag then UplinkKind(data[index + 10])
    else if IsStatusTag(tag) then StatusKind(tag)
    else "Unkown_Msg"
  }

  /** The TAP bytes of a case "2" message. */
  function TapAt(data: seq<byte>, index: int): seq<byte>
    requires DeframeDefined(data, index) && data[index + 1] == UplinkTag
  {
    data[index + 19..index + 19 + data[index + 17] as int]
  }

  /** The downlink status after the message at `index`: a status message replaces it. */
  function StatusAfter(status: seq<byte>, data: seq<byte>, index: int): seq<byte>
    requires DeframeDefined(data, index)
  {
    var tag := data[index + 1];
    if tag == SentStatusTag then [data[index + 3]]
    else if IsStatusTag(tag) then [data[index + 2]]
    else status
  }

  /** The packet fields an answer reads but a deframing step does not write: the sink id and
      the DCU time and number of the frame, and the last downlink status. */
  datatype Context = Context(sinkID: byte, dcuTime: byte, dcuNum: byte, status: seq<byte>)

  /** The response map deframeUplinkPacket returns for the message at `index`, its keys set in
      the source's order. */
  function RespAt(c: Context, data: seq<byte>, index: int): Resp
    requires DeframeDefined(data, index)
  {
    var tag := data[index + 1];
    var kind := MessageTypeAt(data, index);
    var head := map["sinkId" := ByteField(c.sinkID)]["MsgVersion" := ByteField(data[index])]
                   ["MessageType" := TextField(kind)];
    if tag == SentStatusTag then
      head["MessageId" := ByteField(data[index + 2])]["Status" := BytesField([data[index + 3]])]
          ["DcuTime" := ByteField(c.dcuTime)]["DcuNumber" := ByteField(c.dcuNum)]
    else if tag == UplinkTag then
      var resp := head["SrcAddress" := ByteField(data[index + 2])]["DstAddress" := ByteField(data[index + 6])]
                      ["DcuTime" := ByteField(c.dcuTime)]["DcuNumber" := ByteField(c.dcuNum)];
      if IsUplinkEP(data[index + 10]) then
        resp["TAP" := BytesField(TapAt(data, index))]["TravelTime" := ByteField(data[index + 12])]
            ["HopCount" := ByteField(data[index + 18])]
      else resp
    else
      head["DcuTime" := ByteField(c.dcuTime)]["DcuNumber" := ByteField(c.dcuNum)]
          ["Status" := BytesField(StatusAfter(c.status, data, index))]
  }

  /** Every answer names its message type, sink id and DCU fields; it carries TAP bytes exactly
      when it is an "Uplink_Msg", and those are the message's own payload. */
  lemma RespShape(c: Context, data: seq<byte>, index: int)
    requires DeframeDefined(data, index)
    ensures var r := RespAt(c, data, index);
      && "MessageType" in r && r["MessageType"] == TextField(MessageTypeAt(data, index))
      && "sinkId" in r && r["sinkId"] == ByteField(c.sinkID)
      && "DcuTime" in r && r["DcuTime"] == ByteField(c.dcuTime)
      && "DcuNumber" in r && r["DcuNumber"] == ByteField(c.dcuNum)
      && ("TAP" in r <==> MessageTypeAt(data, index) == "Uplink_Msg")
      && (MessageTypeAt(data, index) == "Uplink_Msg" ==>
            data[index + 1] == UplinkTag && r["TAP"] == BytesField(TapAt(data, index)))
  {
  }

  /** An uplink message as a sink writes it into a wrapper frame. */
  datatype UplinkMessage = UplinkMessage(
    version: byte, srcAddress: seq<byte>, destAddress: seq<byte>, srcEP: byte, dstEP: byte,
    travelTime: seq<byte>, rxQos: byte, hopCount: byte, tap: seq<byte>)

  predicate WellFormedUplink(m: UplinkMessage) {
    |m.srcAddress| == 4 && |m.destAddress| == 4 && |m.travelTime| == 4 && |m.tap| < 256
  }

  /** The bytes of a case "2" message: version, '2', addresses, endpoints, travel time, QoS,
      TAP length, hop count, then the TAP bytes. */
  function EncodeUplink(m: UplinkMessage): (e: seq<byte>)
    requires WellFormedUplink(m)
    ensures |e| == 19 + |m.tap|
  {
    [m.version, '2' as int as byte] + m.srcAddress + m.destAddress + [m.srcEP, m.dstEP]
    + m.travelTime + [m.rxQos, |m.tap| as byte, m.hopCount] + m.tap
  }

  /** Deframing an encoded uplink message, wherever it sits in the data, takes exactly its bytes
      and gives back its TAP payload, low address bytes, travel time and hop count. */
  lemma UplinkRoundTrip(m: UplinkMessage, before: seq<byte>, after: seq<byte>, c: Context)
    requires WellFormedUplink(m)
    requires m.srcEP != 0x16 && m.srcEP < 240
    ensures var data := before + EncodeUplink(m) + after;
      var index := |before|;
      && DeframeDefined(data, index)
      && Consumed(data, index) == |EncodeUplink(m)|
      && MessageTypeAt(data, index) == "Uplink_Msg"
      && RespAt(c, data, index) == map[
           "sinkId" := ByteField(c.sinkID), "MsgVersion" := ByteField(m.version),
           "MessageType" := TextField("Uplink_Msg"), "SrcAddress" := ByteField(m.srcAddress[0]),
           "DstAddress" := ByteField(m.destAddress[0]), "DcuTime" := ByteField(c.dcuTime),
           "DcuNumber" := ByteField(c.dcuNum), "TAP" := BytesField(m.tap),
           "TravelTime" := ByteField(m.travelTime[0]), "HopCount" := ByteField(m.hopCount)]
  {
    var e := EncodeUplink(m);
    var data := before + e + after;
    var index := |before|;
    assert data[index..index + |e|] == e;
    assert e[1] == '2' as int as byte;
    assert data[index + 17] as int == |m.tap|;
    assert TapAt(data, index) == e[19..] == m.tap;
  }

  /** The calculated CRC of validateUplinkPacket: all but the last two bytes are copied, one
      `append` at a time, into a new buffer, which is padded with a zero byte to even length. */
  method ComputeFrameCrc(data: seq<byte>) returns (rxCrc: bv16)
    requires |data| >= 2
    ensures rxCrc == FrameCrc(data)
  {
    var n := |data|;
    var buf: seq<byte> := [];
    for j := 0 to n - 2
      invariant buf == data[..j]
    {
      buf := buf + [data[j]];
    }
    if |buf| % 2 != 0 {
      var tempBuf := buf + [0];
      rxCrc := Crc16XModem(Octets(tempBuf), []);
    } else {
      rxCrc := Crc16XModem(Octets(buf), []);
    }
    assert buf == data[..n - 2];
  }

  // ---- The packet object ----

  class TapWrapperPacket {
    var startByte: byte
    var packetLen: byte
    var sinkID: byte
    var protocolVersion: byte
    var messageType: string
    var messageID: byte
    var crc: byte
    var twpLen: int
    var rxCrc: bv16
    var downlinkMsgDestAddress: byte
    var downlinkMsgSrcEP: byte
    var downlinkMsgDstEP: byte
    var downlinkMsgTxQos: byte
    var downlinkMsgLen: int
    var downlinkMsgSentStatus: seq<byte>
    var uplinkMsgSrcAddress: byte
    var uplinkMsgDestAddress: byte
    var uplinkMsgSrcEP: byte
    var uplinkMsgDstEP: byte
    var uplinkMsgTravelTime: byte
    var uplinkMsgRxQos: byte
    var uplinkMsgMsgLen: byte
    var uplinkMsgHopCnt: byte
    var uplinkTapMsg: seq<byte>
    var uplinkMsgDcuTime: byte
    var uplinkMsgDcuNum: byte

    /** NewTapWrapperPacket. */
    constructor ()
      ensures startByte == 0xFE && packetLen == 0 && sinkID == 1 && protocolVersion == 0
      ensures messageType == "0" && messageID == 0 && crc == 0 && twpLen == 6 && rxCrc == 0
      ensures downlinkMsgDestAddress == 0 && downlinkMsgSrcEP == 0x15 && downlinkMsgDstEP == 0x15
      ensures downlinkMsgTxQos == 0 && downlinkMsgLen == 7 && downlinkMsgSentStatus == [0]
      ensures uplinkMsgSrcAddress == 0 && uplinkMsgDestAddress == 0 && uplinkMsgSrcEP == 0
      ensures uplinkMsgDstEP == 0 && uplinkMsgTravelTime == 0 && uplinkMsgRxQos == 0
      ensures uplinkMsgMsgLen == 0 && uplinkMsgHopCnt == 0 && uplinkTapMsg == [0]
      ensures uplinkMsgDcuTime == 0 && uplinkMsgDcuNum == 0
    {
      startByte, packetLen, sinkID, protocolVersion, messageType := 0xFE, 0, 1, 0, "0";
      messageID, crc, twpLen, rxCrc := 0, 0, 6, 0;
      downlinkMsgDestAddress, downlinkMsgSrcEP, downlinkMsgDstEP, downlinkMsgTxQos := 0, 0x15, 0x15, 0;
      downlinkMsgLen, downlinkMsgSentStatus := 7, [0];
      uplinkMsgSrcAddress, uplinkMsgDestAddress, uplinkMsgSrcEP, uplinkMsgDstEP := 0, 0, 0, 0;
      uplinkMsgTravelTime, uplinkMsgRxQos, uplinkMsgMsgLen, uplinkMsgHopCnt := 0, 0, 0, 0;
      uplinkTapMsg, uplinkMsgDcuTime, uplinkMsgDcuNum := [0], 0, 0;
    }

    /** validateUplinkPacket: read the header and trailer fields, copy all but the last two
        bytes into a new buffer, pad it to even length and compare the low byte of its
        CRC-16/XMODEM with the byte before the last. The data itself is only read. */
    method ValidateUplinkPacket(data: seq<byte>) returns (retVal: bool)
      requires |data| >= 10
      modifies this`startByte, this`packetLen, this`sinkID, this`uplinkMsgDcuTime, this`uplinkMsgDcuNum
      modifies this`crc, this`rxCrc
      ensures startByte == data[0] && packetLen == data[1] && sinkID == data[3]
      ensures uplinkMsgDcuTime == data[|data| - 10] && uplinkMsgDcuNum == data[|data| - 6]
      ensures crc == data[|data| - 2] && rxCrc == FrameCrc(data)
      ensures retVal == ValidFrame(data)
    {
      var n := |data|;
      startByte := data[0];
      packetLen := HalfWord(data[1], data[2]);
      sinkID := data[3];
      uplinkMsgDcuTime := Word(data[n - 10], data[n - 9], data[n - 8], data[n - 7]);
      uplinkMsgDcuNum := Word(data[n - 6], data[n - 5], data[n - 4], data[n - 3]);
      crc := HalfWord(data[n - 2], data[n - 1]);
      rxCrc := ComputeFrameCrc(data);

      retVal := false;
      if crc == LowByte16(rxCrc) {
        retVal := true;
      }
    }

    /** The packet after deframing the message at `index`, from the context `c` and the
        previous message id: the step's length and answer, the version and message type
        read, the status and message id a status message replaces, the uplink fields a
        case "2" message fills, and the context fields untouched. */
    predicate Deframed(data: seq<byte>, index: int, c: Context, previousID: byte, consumed: int, respData: Resp)
      requires DeframeDefined(data, index)
      reads this
    {
      && consumed == Consumed(data, index)
      && respData == RespAt(c, data, index)
      && protocolVersion == data[index] && messageType == MessageTypeAt(data, index)
      && downlinkMsgSentStatus == StatusAfter(c.status, data, index)
      && messageID == (if data[index + 1] == SentStatusTag then data[index + 2] else previousID)
      && (data[index + 1] == UplinkTag ==> UplinkFieldsRead(data, index))
      && sinkID == c.sinkID && uplinkMsgDcuTime == c.dcuTime && uplinkMsgDcuNum == c.dcuNum
    }

    /** deframeUplinkPacket: read the message at `index`, update the packet's fields and
        return how many bytes it takes and its response map. Only the labels "1", "2", "4",
        "6" and "8" can match a one-character discriminator; every other byte is an unknown
        message that takes the rest of the data. */
    method DeframeUplinkPacket(data: seq<byte>, index: int) returns (consumed: int, respData: Resp)
      requires DeframeDefined(data, index)
      modifies this`protocolVersion, this`messageType, this`messageID, this`downlinkMsgSentStatus
      modifies this`uplinkMsgSrcAddress, this`uplinkMsgDestAddress, this`uplinkMsgSrcEP, this`uplinkMsgDstEP
      modifies this`uplinkMsgTravelTime, this`uplinkMsgRxQos, this`uplinkMsgMsgLen, this`uplinkMsgHopCnt
      modifies this`uplinkTapMsg
      ensures Deframed(data, index, old(Context(sinkID, uplinkMsgDcuTime, uplinkMsgDcuNum, downlinkMsgSentStatus)),
                       old(messageID), consumed, respData)
      ensures data[index + 1] != UplinkTag ==>
        unchanged(this`uplinkMsgSrcAddress, this`uplinkMsgDestAddress, this`uplinkMsgSrcEP,
                  this`uplinkMsgDstEP, this`uplinkMsgTravelTime, this`uplinkMsgRxQos,
                  this`uplinkMsgMsgLen, this`uplinkMsgHopCnt, this`uplinkTapMsg)
    {
      ghost var c := Context(sinkID, uplinkMsgDcuTime, uplinkMsgDcuNum, downlinkMsgSentStatus);
      ghost var previousID := messageID;
      protocolVersion := data[index + 0];
      messageType := Discriminator(data[index + 1]);
      DiscriminatorCases(data[index + 1]);

      if messageType == "1" {
        consumed, respData := DeframeSentStatus(data, index, c, previousID);
      } else if messageType == "2" {
        consumed, respData := DeframeUplink(data, index, c, previousID);
      } else if messageType == "4" || messageType == "6" || messageType == "8" {
        consumed, respData := DeframeStatus(data, index, c, previousID);
      } else {
        consumed, respData := DeframeUnknown(data, index, c, previousID);
      }
    }

    /** The uplink fields hold what a case "2" message at `index` carries. */
    predicate UplinkFieldsRead(data: seq<byte>, index: int)
      requires DeframeDefined(data, index) && data[index + 1] == UplinkTag
      reads this
    {
      && uplinkMsgSrcAddress == data[index + 2] && uplinkMsgDestAddress == data[index + 6]
      && uplinkMsgSrcEP == data[index + 10] && uplinkMsgDstEP == data[index + 11]
      && uplinkMsgTravelTime == data[index + 12] && uplinkMsgRxQos == data[index + 16]
      && uplinkMsgMsgLen == data[index + 17] && uplinkMsgHopCnt == data[index + 18]
      && uplinkTapMsg == TapAt(data, index)
    }

    /** Case "1": a downlink-sent status, four bytes. */
    method DeframeSentStatus(data: seq<byte>, index: int, ghost c: Context, ghost previousID: byte) returns (consumed: int, respData: Resp)
      requires DeframeDefined(data, index) && data[index + 1] == SentStatusTag
      requires protocolVersion == data[index]
      requires c == Context(sinkID, uplinkMsgDcuTime, uplinkMsgDcuNum, downlinkMsgSentStatus) && previousID == messageID
      modifies this`messageType, this`messageID, this`downlinkMsgSentStatus
      ensures Deframed(data, index, c, previousID, consumed, respData)
    {
      messageType := "Downlink_Sent_Status_Msg";
      messageID := data[index + 2];
      downlinkMsgSentStatus := [data[index + 3]];
      respData := map[];
      respData := respData["sinkId" := ByteField(sinkID)]["MsgVersion" := ByteField(protocolVersion)]
                          ["MessageType" := TextField(messageType)]["MessageId" := ByteField(messageID)]
                          ["Status" := BytesField(downlinkMsgSentStatus)]["DcuTime" := ByteField(uplinkMsgDcuTime)]
                          ["DcuNumber" := ByteField(uplinkMsgDcuNum)];
      return 4, respData;
    }

    /** Case "2": an uplink message, named by its source endpoint, with its TAP payload. */
    method DeframeUplink(data: seq<byte>, index: int, ghost c: Context, ghost previousID: byte) returns (consumed: int, respData: Resp)
      requires DeframeDefined(data, index) && data[index + 1] == UplinkTag
      requires protocolVersion == data[index]
      requires c == Context(sinkID, uplinkMsgDcuTime, uplinkMsgDcuNum, downlinkMsgSentStatus) && previousID == messageID
      modifies this`messageType, this`uplinkMsgSrcAddress, this`uplinkMsgDestAddress, this`uplinkMsgSrcEP
      modifies this`uplinkMsgDstEP, this`uplinkMsgTravelTime, this`uplinkMsgRxQos, this`uplinkMsgMsgLen
      modifies this`uplinkMsgHopCnt, this`uplinkTapMsg
      ensures Deframed(data, index, c, previousID, consumed, respData)
    {
      ReadUplinkFields(data, index);
      UplinkKindCases(uplinkMsgSrcEP);
      respData := map[];
      respData := respData["sinkId" := ByteField(sinkID)]["MsgVersion" := ByteField(protocolVersion)]
                          ["MessageType" := TextField(messageType)]["SrcAddress" := ByteField(uplinkMsgSrcAddress)]
                          ["DstAddress" := ByteField(uplinkMsgDestAddress)]["DcuTime" := ByteField(uplinkMsgDcuTime)]
                          ["DcuNumber" := ByteField(uplinkMsgDcuNum)];
      if messageType == "Uplink_Msg" {
        respData := respData["TAP" := BytesField(uplinkTapMsg)]["TravelTime" := ByteField(uplinkMsgTravelTime)]
                            ["HopCount" := ByteField(uplinkMsgHopCnt)];
      }
      return 19 + uplinkMsgMsgLen as int, respData;
    }

    /** The field assignments of case "2", in the source's order: the addressing part, which
        names the message, then the payload part. */
    method ReadUplinkFields(data: seq<byte>, index: int)
      requires DeframeDefined(data, index) && data[index + 1] == UplinkTag
      modifies this`messageType, this`uplinkMsgSrcAddress, this`uplinkMsgDestAddress, this`uplinkMsgSrcEP
      modifies this`uplinkMsgDstEP, this`uplinkMsgTravelTime, this`uplinkMsgRxQos, this`uplinkMsgMsgLen
      modifies this`uplinkMsgHopCnt, this`uplinkTapMsg
      ensures messageType == MessageTypeAt(data, index)
      ensures UplinkFieldsRead(data, index)
    {
      ReadUplinkAddressing(data, index);
      ReadUplinkPayload(data, index);
    }

    method ReadUplinkAddressing(data: seq<byte>, index: int)
      requires DeframeDefined(data, index) && data[index + 1] == UplinkTag
      modifies this`messageType, this`uplinkMsgSrcAddress, this`uplinkMsgDestAddress, this`uplinkMsgSrcEP
      ensures messageType == UplinkKind(data[index + 10])
      ensures uplinkMsgSrcAddress == data[index + 2] && uplinkMsgDestAddress == data[index + 6]
      ensures uplinkMsgSrcEP == data[index + 10]
    {
      messageType := "Uplink_Msg";
      uplinkMsgSrcAddress := Word(data[index + 2], data[index + 3], data[index + 4], data[index + 5]);
      uplinkMsgDestAddress := Word(data[index + 6], data[index + 7], data[index + 8], data[index + 9]);
      uplinkMsgSrcEP := data[index + 10];
      if uplinkMsgSrcEP == 0x16 {
        messageType := "Sink_Change_Msg";
      } else if uplinkMsgSrcEP >= 240 {
        messageType := "Wp_Rf_Diag_Msg";
      }
    }

    method ReadUplinkPayload(data: seq<byte>, index: int)
      requires DeframeDefined(data, index) && data[index + 1] == UplinkTag
      modifies this`uplinkMsgDstEP, this`uplinkMsgTravelTime, this`uplinkMsgRxQos, this`uplinkMsgMsgLen
      modifies this`uplinkMsgHopCnt, this`uplinkTapMsg
      ensures uplinkMsgDstEP == data[index + 11] && uplinkMsgTravelTime == data[index + 12]
      ensures uplinkMsgRxQos == data[index + 16] && uplinkMsgMsgLen == data[index + 17]
      ensures uplinkMsgHopCnt == data[index + 18] && uplinkTapMsg == TapAt(data, index)
    {
      uplinkMsgDstEP := data[index + 11];
      uplinkMsgTravelTime := Word(data[index + 12], data[index + 13], data[index + 14], data[index + 15]);
      uplinkMsgRxQos := data[index + 16];
      uplinkMsgMsgLen := data[index + 17];
      uplinkMsgHopCnt := data[index + 18];
      uplinkTapMsg := data[index + 19..index + 19 + uplinkMsgMsgLen as int];
    }

    /** Cases "4", "6" and "8": a configuration or diagnostics response status, three bytes. */
    method DeframeStatus(data: seq<byte>, index: int, ghost c: Context, ghost previousID: byte) returns (consumed: int, respData: Resp)
      requires DeframeDefined(data, index) && IsStatusTag(data[index + 1])
      requires protocolVersion == data[index]
      requires c == Context(sinkID, uplinkMsgDcuTime, uplinkMsgDcuNum, downlinkMsgSentStatus) && previousID == messageID
      modifies this`messageType, this`downlinkMsgSentStatus
      ensures Deframed(data, index, c, previousID, consumed, respData)
    {
      messageType := StatusKind(data[index + 1]);
      downlinkMsgSentStatus := [data[index + 2]];
      respData := map[];
      respData := respData["sinkId" := ByteField(sinkID)]["MsgVersion" := ByteField(protocolVersion)]
                          ["MessageType" := TextField(messageType)]["DcuTime" := ByteField(uplinkMsgDcuTime)]
                          ["DcuNumber" := ByteField(uplinkMsgDcuNum)]["Status" := BytesField(downlinkMsgSentStatus)];
      return 3, respData;
    }

    /** The default case: an unknown message, reported as taking the whole data. */
    method DeframeUnknown(data: seq<byte>, index: int, ghost c: Context, ghost previousID: byte) returns (consumed: int, respData: Resp)
      requires DeframeDefined(data, index)
      requires var tag := data[index + 1]; tag != SentStatusTag && tag != UplinkTag && !IsStatusTag(tag)
      requires protocolVersion == data[index]
      requires c == Context(sinkID, uplinkMsgDcuTime, uplinkMsgDcuNum, downlinkMsgSentStatus) && previousID == messageID
      modifies this`messageType
      ensures Deframed(data, index, c, previousID, consumed, respData)
    {
      messageType := "Unkown_Msg";
      respData := map[];
      respData := respData["sinkId" := ByteField(sinkID)]["MsgVersion" := ByteField(protocolVersion)]
                          ["MessageType" := TextField(messageType)]["DcuTime" := ByteField(uplinkMsgDcuTime)]
                          ["DcuNumber" := ByteField(uplinkMsgDcuNum)]["Status" := BytesField(downlinkMsgSentStatus)];
      return |data|, respData;
    }
  }
}
