/** The direct-mode consumer of apps/decoder/services/consumer.go: a payload is split on the
    delimiter "RECT", each part is checked for integrity, its TAP packet is extracted and the
    command ID is read back from the packet's destination address. Batches of messages are
    processed in order and each non-empty batch is committed after its messages. */
module Consumer {
  import opened Bytes
  import opened Text
  import IntCodec
  import opened Addresses
  import opened Tap
  import opened Decoder

  // ---- bytes.Split(payload, []byte("RECT")) ----

  /** The delimiter "RECT" as bytes. */
  const Delimiter: seq<byte> := [0x52, 0x45, 0x43, 0x54]

  predicate DelimiterAt(s: seq<byte>, i: int) {
    0 <= i && i + |Delimiter| <= |s| && s[i..i + |Delimiter|] == Delimiter
  }

  /** The leftmost delimiter at or after `from`, or `|s|` when there is none. */
  function NextDelimiter(s: seq<byte>, from: nat): (i: nat)
    requires from <= |s|
    ensures from <= i <= |s|
    ensures i < |s| ==> DelimiterAt(s, i)
    ensures forall j :: from <= j < i ==> !DelimiterAt(s, j)
    decreases |s| - from
  {
    if from + |Delimiter| > |s| then |s|
    else if DelimiterAt(s, from) then from
    else NextDelimiter(s, from + 1)
  }

  /** bytes.Split: the pieces between the leftmost non-overlapping delimiters, in order; a
      payload without a delimiter, the empty one included, is one piece. */
  function SplitParts(s: seq<byte>): (parts: seq<seq<byte>>)
    ensures |parts| >= 1
    decreases |s|
  {
    var i := NextDelimiter(s, 0);
    if i == |s| then [s] else [s[..i]] + SplitParts(s[i + |Delimiter|..])
  }

  /** The pieces joined back with the delimiter between each two. */
  function JoinParts(parts: seq<seq<byte>>): seq<byte> {
    if |parts| == 0 then []
    else if |parts| == 1 then parts[0]
    else parts[0] + Delimiter + JoinParts(parts[1..])
  }

  predicate HasDelimiter(s: seq<byte>) {
    exists j :: 0 <= j < |s| && DelimiterAt(s, j)
  }

  /** Joining the pieces of a split with the delimiter gives back the payload. */
  lemma {:induction false} JoinSplit(s: seq<byte>)
    ensures JoinParts(SplitParts(s)) == s
    decreases |s|
  {
    var i := NextDelimiter(s, 0);
    if i < |s| {
      var rest := s[i + |Delimiter|..];
      JoinSplit(rest);
      var tail := SplitParts(rest);
      assert SplitParts(s) == [s[..i]] + tail;
      JoinCons(s[..i], tail);
      Rejoin(s, i);
    }
  }

  /** Joining a first piece before at least one more puts the delimiter after it. */
  lemma JoinCons(x: seq<byte>, tail: seq<seq<byte>>)
    requires |tail| >= 1
    ensures JoinParts([x] + tail) == x + Delimiter + JoinParts(tail)
  {
    assert ([x] + tail)[1..] == tail;
  }

  /** A payload is what comes before a delimiter, the delimiter and what comes after it. */
  lemma Rejoin(s: seq<byte>, i: int)
    requires DelimiterAt(s, i)
    ensures s == s[..i] + Delimiter + s[i + |Delimiter|..]
  {
    assert s == s[..i] + s[i..i + |Delimiter|] + s[i + |Delimiter|..];
  }

  /** No piece of a split contains the delimiter. */
  lemma {:induction false} PartsHaveNoDelimiter(s: seq<byte>)
    ensures forall k :: 0 <= k < |SplitParts(s)| ==> !HasDelimiter(SplitParts(s)[k])
    decreases |s|
  {
    var i := NextDelimiter(s, 0);
    var parts := SplitParts(s);
    if i == |s| {
      NoDelimiterBefore(s, |s|);
    } else {
      var rest := s[i + |Delimiter|..];
      PartsHaveNoDelimiter(rest);
      NoDelimiterBefore(s, i);
      assert parts == [s[..i]] + SplitParts(rest);
      forall k | 0 <= k < |parts| ensures !HasDelimiter(parts[k]) {
        if k > 0 {
          assert parts[k] == SplitParts(rest)[k - 1];
        }
      }
    }
  }

  /** A prefix with no delimiter starting in it contains none. */
  lemma NoDelimiterBefore(s: seq<byte>, i: nat)
    requires i <= |s| && forall j :: 0 <= j < i ==> !DelimiterAt(s, j)
    ensures !HasDelimiter(s[..i])
  {
    forall j | 0 <= j < i ensures !DelimiterAt(s[..i], j) {
      if j + |Delimiter| <= i {
        assert s[..i][j..j + |Delimiter|] == s[j..j + |Delimiter|];
        assert !DelimiterAt(s, j);
      }
    }
  }

  // ---- getCmdIDAndMeterIp ----

  /** `byte(x)` of a Go int: the low eight bits, two's complement for negative x. */
  function ToByte(x: int): (b: byte)
    ensures (b as int - x) % 256 == 0
  {
    (x % 256) as byte
  }

  datatype CmdIdResult =
    | Found(meterIp: Option<string>, cmdID: int)
    | CmdIdError(message: string)

  /** getCmdIDAndMeterIp: the second and third dot parts of the destination address, each
      truncated to a byte, read big-endian; the meter IP is the source address. */
  function CmdIdAndMeterIp(v: TapValue): (r: CmdIdResult)
    requires v.destAddr.Some?
    ensures r.Found? ==> 0 <= r.cmdID < 0x1_0000 && r.meterIp == v.srcAddr
    ensures r.CmdIdError? ==> r.message in {"invalid address format", "Error converting parts to integers"}
  {
    var parts := Split(v.destAddr.value, '.');
    if |parts| < 3 then CmdIdError("invalid address format")
    else
      var part1 := Atoi(parts[1]);
      var part2 := Atoi(parts[2]);
      if part1.None? || part2.None? then CmdIdError("Error converting parts to integers")
      else
        // DeserializeUInt16 of two bytes cannot fail.
        var cmdID := IntCodec.DeserializeUInt16([ToByte(part1.value), ToByte(part2.value)], "normal");
        Found(v.srcAddr, cmdID.value)
  }

  /** For an address printed from four bytes, the command ID is the middle two, big-endian. */
  lemma CmdIdOfDotted(v: TapValue, b: seq<byte>)
    requires |b| == 4 && v.destAddr == Some(Dotted(b))
    ensures CmdIdAndMeterIp(v) == Found(v.srcAddr, b[1] as int * 256 + b[2] as int)
  {
    DottedParts(b);
    var parts := Split(Dotted(b), '.');
    AtoiItoa(b[1] as nat);
    AtoiItoa(b[2] as nat);
    assert Atoi(parts[1]) == Some(b[1] as int) && Atoi(parts[2]) == Some(b[2] as int);
    assert ToByte(b[1] as int) == b[1] && ToByte(b[2] as int) == b[2];
    assert |"normal"| != |"reverse"|;
  }

  /** On a valid address the consumer reads the same command ID as Address.GetCmdID. */
  lemma CmdIdAgreesWithGetCmdID(v: TapValue)
    requires v.destAddr.Some? && IsValidIPv4(v.destAddr.value)
    ensures CmdIdAndMeterIp(v) == Found(v.srcAddr, CmdId(v.destAddr.value))
  {
    var parts := Split(v.destAddr.value, '.');
    assert ComponentByte(parts[1]).Some? && ComponentByte(parts[2]).Some?;
    ComponentsWord(Atoi(parts[1]).value, Atoi(parts[2]).value);
  }

  /** Two components from 0 to 255 read big-endian give the same word as GetCmdID's sum. */
  lemma ComponentsWord(x: int, y: int)
    requires 0 <= x <= 255 && 0 <= y <= 255
    ensures IntCodec.DeserializeUInt16([ToByte(x), ToByte(y)], "normal").value == Wrap64(Wrap64(x * 256) + y)
  {
    assert ToByte(x) as int == x && ToByte(y) as int == y;
    assert |"normal"| != |"reverse"|;
  }

  // ---- processPackets ----

  /** What processPackets reports for one part. */
  datatype PartOutcome =
    | IntegrityFailed(err: IntegrityError)
    | TapFailed(tapErr: DecodeError)
    | CmdIdFailed(message: string)
    | Decoded(meterIp: Option<string>, cmdID: int)

  /** The part as getMyTapPacket sees it: checkPacketIntegrity may have zeroed its pad byte. */
  function CheckedPart(w: seq<byte>, offset: int): (c: seq<byte>)
    requires IntegrityDefined(|w|, offset)
    ensures |c| == |w|
  {
    var z := IntegrityPad(w, offset);
    if z.Some? then w[z.value := 0] else w
  }

  /** The parts processPackets does not panic on: checkPacketIntegrity can index the part, and
      getMyTapPacket can index the checked part when the check passes. */
  predicate PartDefined(w: seq<byte>, offset: int, dcuPort: int) {
    IntegrityDefined(|w|, offset)
    && (Integrity(w, offset, dcuPort).None? ==> MyTapDefined(CheckedPart(w, offset), |w|, offset))
  }

  /** A packet built by getMyTapPacket always carries both addresses. */
  lemma PacketHasAddresses(c: seq<byte>, offset: int)
    requires MyTapDefined(c, 11, offset)
    ensures MyTapValue(c, offset).srcAddr.Some? && MyTapValue(c, offset).destAddr.Some?
  {
    if WholeSpan(c, offset) { MyTapWhole(c, offset); } else { MyTapCut(c, offset); }
  }

  /** The outcome of one part: the integrity error, else the error of getMyTapPacket, else the
      command ID and meter IP of the packet. */
  function PartOutcomeOf(w: seq<byte>, offset: int, dcuPort: int): PartOutcome
    requires PartDefined(w, offset, dcuPort)
  {
    var integrity := Integrity(w, offset, dcuPort);
    if integrity.Some? then IntegrityFailed(integrity.value)
    else
      var c := CheckedPart(w, offset);
      var tapErr := MyTapError(c, offset);
      if tapErr.Some? then TapFailed(tapErr.value)
      else
        PacketHasAddresses(c, offset);
        match CmdIdAndMeterIp(MyTapValue(c, offset))
        case Found(meterIp, cmdID) => Decoded(meterIp, cmdID)
        case CmdIdError(message) => CmdIdFailed(message)
  }

  /** The outcomes of the parts, one per part, in order. */
  function PartOutcomes(parts: seq<seq<byte>>, offset: int, dcuPort: int): (r: seq<PartOutcome>)
    requires forall k :: 0 <= k < |parts| ==> PartDefined(parts[k], offset, dcuPort)
    ensures |r| == |parts|
  {
    seq(|parts|, k requires 0 <= k < |parts| => PartOutcomeOf(parts[k], offset, dcuPort))
  }

  /** A message after JSON decoding: a string-keyed map with the payload bytes (the gob
      encoding of its "payload" entry, empty when that fails), or any other value. */
  datatype Message = MapMessage(payload: seq<byte>) | OtherMessage

  predicate MessageDefined(msg: Message, offset: int, dcuPort: int) {
    msg.MapMessage? ==>
      var parts := SplitParts(msg.payload);
      forall k :: 0 <= k < |parts| ==> PartDefined(parts[k], offset, dcuPort)
  }

  /** What processPackets reports for a message: nothing for a value that is not a map. */
  function MessageOutcomes(msg: Message, offset: int, dcuPort: int): seq<PartOutcome>
    requires MessageDefined(msg, offset, dcuPort)
  {
    if msg.OtherMessage? then [] else PartOutcomes(SplitParts(msg.payload), offset, dcuPort)
  }

  /** processPackets: every part of the payload is examined in order, a failing part does not
      stop the later ones, and a part reaches getMyTapPacket only when its integrity check
      passed. Each part is processed in a buffer of its own, its capacity its length. */
  method ProcessPackets(msg: Message, offset: int, dcuPort: int) returns (outcomes: seq<PartOutcome>)
    requires MessageDefined(msg, offset, dcuPort)
    ensures outcomes == MessageOutcomes(msg, offset, dcuPort)
  {
    if !msg.MapMessage? {
      return [];
    }
    var splitted := SplitParts(msg.payload);
    outcomes := [];
    for k := 0 to |splitted|
      invariant outcomes == PartOutcomes(splitted, offset, dcuPort)[..k]
    {
      var outcome := ProcessPart(splitted[k], offset, dcuPort);
      outcomes := outcomes + [outcome];
    }
    assert PartOutcomes(splitted, offset, dcuPort)[..|splitted|] == PartOutcomes(splitted, offset, dcuPort);
  }

  /** One iteration of processPackets on a part. */
  method ProcessPart(w: seq<byte>, offset: int, dcuPort: int) returns (outcome: PartOutcome)
    requires PartDefined(w, offset, dcuPort)
    ensures outcome == PartOutcomeOf(w, offset, dcuPort)
  {
    var part := new byte[|w|](i requires 0 <= i < |w| => w[i]);
    assert part[0..part.Length] == w;
    var packetIntegrityFlag, err := CheckPacketIntegrity(part, 0, part.Length, offset, dcuPort);
    if packetIntegrityFlag && err.None? {
      assert part[0..part.Length] == CheckedPart(w, offset);
      var myTapPacket, tapErr := GetMyTapPacket(part, 0, part.Length, part.Length, offset);
      if tapErr.Some? {
        return TapFailed(tapErr.value);
      }
      PacketHasAddresses(CheckedPart(w, offset), offset);
      var ok := CmdIdAndMeterIp(myTapPacket.Value());
      match ok
      case Found(meterIp, cmdID) => return Decoded(meterIp, cmdID);
      case CmdIdError(message) => return CmdIdFailed(message);
    }
    return IntegrityFailed(err.value);
  }

  // ---- Properties of processPackets ----

  /** A part is decoded exactly when it passes the integrity check and getMyTapPacket succeeds;
      the consumer's command ID then never fails, the meter IP is the part's first four bytes
      (the 0xAA marker first), and for offset 4 the command ID is the one getMyTapPacket
      filters on. */
  lemma DecodedPart(w: seq<byte>, offset: int, dcuPort: int)
    requires PartDefined(w, offset, dcuPort)
    ensures !PartOutcomeOf(w, offset, dcuPort).CmdIdFailed?
    ensures PartOutcomeOf(w, offset, dcuPort).Decoded? <==>
      Integrity(w, offset, dcuPort).None? && MyTapError(CheckedPart(w, offset), offset).None?
    ensures var c := CheckedPart(w, offset);
      PartOutcomeOf(w, offset, dcuPort).Decoded? ==>
        && PartOutcomeOf(w, offset, dcuPort).meterIp == Some(Dotted(c[0..4]))
        && c[0] == TapStartByte
        && (offset == 4 ==> PartOutcomeOf(w, offset, dcuPort).cmdID == CommandId(c, 4))
  {
    if Integrity(w, offset, dcuPort).None? {
      var c := CheckedPart(w, offset);
      if MyTapError(c, offset).None? {
        DecodedValue(w, offset, dcuPort);
        CommandIdBytes(c, offset);
        assert c[0] == w[0];
      }
    }
  }

  /** A packet getMyTapPacket decodes without error carries the first four bytes as its
      source address and the next four as its destination. */
  lemma DecodedAddresses(c: seq<byte>, offset: int)
    requires MyTapDefined(c, 11, offset) && MyTapError(c, offset).None?
    ensures MyTapValue(c, offset).srcAddr == Some(Dotted(c[0..4]))
    ensures MyTapValue(c, offset).destAddr == Some(Dotted(c[4..8]))
  {
    if WholeSpan(c, offset) { MyTapWhole(c, offset); } else { MyTapCut(c, offset); }
  }

  /** The outcome of a part that passes both checks. */
  lemma DecodedValue(w: seq<byte>, offset: int, dcuPort: int)
    requires PartDefined(w, offset, dcuPort) && Integrity(w, offset, dcuPort).None?
    requires MyTapError(CheckedPart(w, offset), offset).None?
    ensures var c := CheckedPart(w, offset);
      PartOutcomeOf(w, offset, dcuPort) == Decoded(Some(Dotted(c[0..4])), c[5] as int * 256 + c[6] as int)
  {
    var c := CheckedPart(w, offset);
    DecodedAddresses(c, offset);
    CmdIdOfDotted(MyTapValue(c, offset), c[4..8]);
  }

  // ---- processMessages ----

  /** A Kafka message: its value as JSON decoding gives it, or None when decoding fails. */
  datatype KafkaMessage = KafkaMessage(decoded: Option<Message>)

  /** unmarshalKafkaMessages: the decoded messages, in order, skipping those that fail. */
  function Unmarshalled(messages: seq<KafkaMessage>): seq<Message> {
    if messages == [] then []
    else
      var last := messages[|messages| - 1].decoded;
      Unmarshalled(messages[..|messages| - 1]) + (if last.Some? then [last.value] else [])
  }

  method UnmarshalKafkaMessages(messages: seq<KafkaMessage>) returns (kafkaMessages: seq<Message>)
    ensures kafkaMessages == Unmarshalled(messages)
  {
    kafkaMessages := [];
    for i := 0 to |messages|
      invariant kafkaMessages == Unmarshalled(messages[..i])
    {
      assert messages[..i + 1][..i] == messages[..i];
      var singleMsg := messages[i].decoded;
      if singleMsg.None? {
        continue;
      }
      kafkaMessages := kafkaMessages + [singleMsg.value];
    }
    assert messages[..|messages|] == messages;
  }

  /** Every message JSON can decode is kept, and nothing else. */
  lemma {:induction false} UnmarshalledKeepsDecoded(messages: seq<KafkaMessage>)
    ensures |Unmarshalled(messages)| <= |messages|
    ensures forall m :: m in Unmarshalled(messages) <==> KafkaMessage(Some(m)) in messages
  {
    if messages != [] {
      var init := messages[..|messages| - 1];
      UnmarshalledKeepsDecoded(init);
      assert messages == init + [messages[|messages| - 1]];
    }
  }

  /** The observable steps of processMessages: the outcomes of one message of a batch, and the
      commit of a batch. */
  datatype Event = Processed(batch: nat, outcomes: seq<PartOutcome>) | Committed(batch: nat)

  predicate BatchDefined(messages: seq<KafkaMessage>, offset: int, dcuPort: int) {
    forall i :: 0 <= i < |messages| && messages[i].decoded.Some? ==>
      MessageDefined(messages[i].decoded.value, offset, dcuPort)
  }

  /** The events of processing the messages `msgs` of batch `b`. */
  function ProcessedEvents(b: nat, msgs: seq<Message>, offset: int, dcuPort: int): (r: seq<Event>)
    requires forall i :: 0 <= i < |msgs| ==> MessageDefined(msgs[i], offset, dcuPort)
    ensures |r| == |msgs|
    ensures forall i :: 0 <= i < |r| ==> r[i].Processed? && r[i].batch == b
  {
    seq(|msgs|, i requires 0 <= i < |msgs| => Processed(b, MessageOutcomes(msgs[i], offset, dcuPort)))
  }

  /** The events of batch `b`: nothing for an empty batch; otherwise its decoded messages'
      outcomes, then its commit. */
  function BatchEvents(b: nat, messages: seq<KafkaMessage>, offset: int, dcuPort: int): seq<Event>
    requires BatchDefined(messages, offset, dcuPort)
  {
    if |messages| == 0 then []
    else
      UnmarshalledDefined(messages, offset, dcuPort);
      ProcessedEvents(b, Unmarshalled(messages), offset, dcuPort) + [Committed(b)]
  }

  lemma UnmarshalledDefined(messages: seq<KafkaMessage>, offset: int, dcuPort: int)
    requires BatchDefined(messages, offset, dcuPort)
    ensures forall i :: 0 <= i < |Unmarshalled(messages)| ==> MessageDefined(Unmarshalled(messages)[i], offset, dcuPort)
  {
    UnmarshalledKeepsDecoded(messages);
    forall i | 0 <= i < |Unmarshalled(messages)|
      ensures MessageDefined(Unmarshalled(messages)[i], offset, dcuPort)
    {
      var m := Unmarshalled(messages)[i];
      assert m in Unmarshalled(messages);
      var j :| 0 <= j < |messages| && messages[j] == KafkaMessage(Some(m));
    }
  }

  /** The events of the batches, in order. */
  function Log(batches: seq<seq<KafkaMessage>>, offset: int, dcuPort: int): seq<Event>
    requires forall b :: 0 <= b < |batches| ==> BatchDefined(batches[b], offset, dcuPort)
  {
    if batches == [] then []
    else
      var n := |batches| - 1;
      Log(batches[..n], offset, dcuPort) + BatchEvents(n, batches[n], offset, dcuPort)
  }

  /** processMessages over the batches received from the channel, in order. */
  method ProcessMessages(batches: seq<seq<KafkaMessage>>, offset: int, dcuPort: int) returns (log: seq<Event>)
    requires forall b :: 0 <= b < |batches| ==> BatchDefined(batches[b], offset, dcuPort)
    ensures log == Log(batches, offset, dcuPort)
  {
    log := [];
    for b := 0 to |batches|
      invariant log == Log(batches[..b], offset, dcuPort)
    {
      assert batches[..b + 1][..b] == batches[..b];
      var events := ProcessBatch(b, batches[b], offset, dcuPort);
      log := log + events;
    }
    assert batches[..|batches|] == batches;
  }

  /** One batch of processMessages: when it is not empty, its decoded messages are processed
      in order and then the batch is committed (CommitSyncBatch; its error is only logged). */
  method ProcessBatch(b: nat, messages: seq<KafkaMessage>, offset: int, dcuPort: int) returns (events: seq<Event>)
    requires BatchDefined(messages, offset, dcuPort)
    ensures events == BatchEvents(b, messages, offset, dcuPort)
  {
    events := [];
    if |messages| > 0 {
      var unmarshalMessages := UnmarshalKafkaMessages(messages);
      UnmarshalledDefined(messages, offset, dcuPort);
      for i := 0 to |unmarshalMessages|
        invariant events == ProcessedEvents(b, unmarshalMessages, offset, dcuPort)[..i]
      {
        var outcomes := ProcessPackets(unmarshalMessages[i], offset, dcuPort);
        events := events + [Processed(b, outcomes)];
      }
      assert ProcessedEvents(b, unmarshalMessages, offset, dcuPort)[..|unmarshalMessages|]
             == ProcessedEvents(b, unmarshalMessages, offset, dcuPort);
      events := events + [Committed(b)];
    }
  }

  // ---- Properties of processMessages ----

  /** How many times batch `b` is committed. */
  function Commits(log: seq<Event>, b: nat): nat {
    if log == [] then 0
    else Commits(log[..|log| - 1], b) + (if log[|log| - 1] == Committed(b) then 1 else 0)
  }

  /** Each non-empty batch is committed exactly once, and an empty batch never. */
  lemma {:induction false} CommittedOnce(batches: seq<seq<KafkaMessage>>, offset: int, dcuPort: int, b: nat)
    requires forall k :: 0 <= k < |batches| ==> BatchDefined(batches[k], offset, dcuPort)
    requires b < |batches|
    ensures Commits(Log(batches, offset, dcuPort), b) == if |batches[b]| > 0 then 1 else 0
  {
    var n := |batches| - 1;
    var init := batches[..n];
    assert forall k :: 0 <= k < |init| ==> init[k] == batches[k];
    if b < n {
      CommittedOnce(init, offset, dcuPort, b);
    } else {
      CommitsOfEarlier(init, offset, dcuPort, b);
    }
    CommitsAppend(Log(init, offset, dcuPort), BatchEvents(n, batches[n], offset, dcuPort), b);
    BatchCommits(n, batches[n], offset, dcuPort, b);
  }

  /** The batches before `b` never commit `b`. */
  lemma {:induction false} CommitsOfEarlier(batches: seq<seq<KafkaMessage>>, offset: int, dcuPort: int, b: nat)
    requires forall k :: 0 <= k < |batches| ==> BatchDefined(batches[k], offset, dcuPort)
    requires b >= |batches|
    ensures Commits(Log(batches, offset, dcuPort), b) == 0
  {
    if batches != [] {
      var n := |batches| - 1;
      var init := batches[..n];
      assert forall k :: 0 <= k < |init| ==> init[k] == batches[k];
      CommitsOfEarlier(init, offset, dcuPort, b);
      CommitsAppend(Log(init, offset, dcuPort), BatchEvents(n, batches[n], offset, dcuPort), b);
      BatchCommits(n, batches[n], offset, dcuPort, b);
    }
  }

  /** A batch's events commit it once when it is non-empty, and commit no other batch. */
  lemma BatchCommits(n: nat, messages: seq<KafkaMessage>, offset: int, dcuPort: int, b: nat)
    requires BatchDefined(messages, offset, dcuPort)
    ensures Commits(BatchEvents(n, messages, offset, dcuPort), b) == if |messages| > 0 && b == n then 1 else 0
  {
    if |messages| > 0 {
      UnmarshalledDefined(messages, offset, dcuPort);
      var ps := ProcessedEvents(n, Unmarshalled(messages), offset, dcuPort);
      NoCommitsInProcessed(ps, b);
      CommitsAppend(ps, [Committed(n)], b);
      assert [Committed(n)][..0] == [];
    }
  }

  lemma {:induction false} NoCommitsInProcessed(ps: seq<Event>, b: nat)
    requires forall i :: 0 <= i < |ps| ==> ps[i].Processed?
    ensures Commits(ps, b) == 0
  {
    if ps != [] {
      NoCommitsInProcessed(ps[..|ps| - 1], b);
    }
  }

  lemma {:induction false} CommitsAppend(x: seq<Event>, y: seq<Event>, b: nat)
    ensures Commits(x + y, b) == Commits(x, b) + Commits(y, b)
    decreases |y|
  {
    if y != [] {
      var y' := y[..|y| - 1];
      CommitsAppend(x, y', b);
      assert (x + y)[..|x + y| - 1] == x + y';
      var last := if y[|y| - 1] == Committed(b) then 1 else 0;
      assert (x + y)[|x + y| - 1] == y[|y| - 1];
      assert Commits(x + y, b) == Commits(x + y', b) + last;
      assert Commits(y, b) == Commits(y', b) + last;
    } else {
      assert x + y == x;
    }
  }

  /** Every event that processes a message of a batch comes before the event that commits
      that batch. */
  predicate CommitAfter(log: seq<Event>) {
    forall i, j :: 0 <= i < |log| && 0 <= j < |log| && log[i].Processed? && log[j] == Committed(log[i].batch) ==> i < j
  }

  /** A batch is committed only after all of its messages are processed, and the log holds
      events of the given batches only. */
  lemma {:induction false} CommitAfterProcessing(batches: seq<seq<KafkaMessage>>, offset: int, dcuPort: int)
    requires forall k :: 0 <= k < |batches| ==> BatchDefined(batches[k], offset, dcuPort)
    ensures CommitAfter(Log(batches, offset, dcuPort))
    ensures forall e :: e in Log(batches, offset, dcuPort) ==> e.batch < |batches|
  {
    if batches != [] {
      var n := |batches| - 1;
      var init := batches[..n];
      assert forall k :: 0 <= k < |init| ==> init[k] == batches[k];
      CommitAfterProcessing(init, offset, dcuPort);
      BatchEventsShape(n, batches[n], offset, dcuPort);
      OrderedAppend(Log(init, offset, dcuPort), BatchEvents(n, batches[n], offset, dcuPort), n);
    }
  }

  /** A batch's events all belong to it, and only the last of them commits. */
  lemma BatchEventsShape(n: nat, messages: seq<KafkaMessage>, offset: int, dcuPort: int)
    requires BatchDefined(messages, offset, dcuPort)
    ensures var tail := BatchEvents(n, messages, offset, dcuPort);
      forall i :: 0 <= i < |tail| ==> tail[i].batch == n && (tail[i].Committed? ==> i == |tail| - 1)
  {
    if |messages| > 0 {
      UnmarshalledDefined(messages, offset, dcuPort);
    }
  }

  /** Appending the events of a later batch, whose only commit comes last, keeps commits after
      processing. */
  lemma OrderedAppend(head: seq<Event>, tail: seq<Event>, n: nat)
    requires CommitAfter(head) && forall e :: e in head ==> e.batch < n
    requires forall i :: 0 <= i < |tail| ==> tail[i].batch == n && (tail[i].Committed? ==> i == |tail| - 1)
    ensures CommitAfter(head + tail) && forall e :: e in head + tail ==> e.batch <= n
  {
    var log := head + tail;
    assert forall k :: 0 <= k < |head| ==> log[k] == head[k] && head[k] in head;
    assert forall k :: |head| <= k < |log| ==> log[k] == tail[k - |head|];
  }
}
