# Parsing-Service-Go decoding core in Dafny

This project models the byte-level decoding engine of the Parsing-Service-Go meter-data
service and proves properties of the model. The engine has these parts:

- **Integer codec** (`IntCodec`). Fixed-width signed and unsigned integers of 1 to 4
  bytes, big-endian or byte-reversed, with the `inRange` check and the length-mismatch
  errors.
- **CRC-16/XMODEM** (`Crc16`). The table-driven engine and the bit-loop engine, with
  polynomial 0x1021 and initial value 0x0000. `Crc16.TableCrcIsBitwise` proves that the two
  agree on every input and every initial value. `Crc16.PaddedCrc` is the zero-pad-to-even
  rule that every caller applies.
- **Addresses** (`Addresses`). The dotted-quad `Address` object: `isValidIPv4`,
  `NewAddress`, `LoadFromInteger`, `DumpToInteger` and `GetCmdID`.
- **TAP packets** (`Tap`). The TAP packet object and its wire layout: the 0xAA marker,
  two big-endian addresses, two ports, a length byte, the data and a big-endian CRC.
  - `Serialize`, `Deserialize` and `TapDecode` are modelled on that layout.
  - `Deserialize` keeps its 8-bit length guard, which wraps around.
  - `Deserialize` also keeps the `append` that writes a zero pad byte into the caller's buffer.
  - `convertBitMaskCode` is modelled as well.
- **Wrapper frames** (`Wrapper`). The wrapper-frame packet object: `validateUplinkPacket`,
  `hexValuesFromBytes` and `deframeUplinkPacket`, with Go's byte shifts that discard the
  high bytes and the one-character discriminator string.
- **Decoder services** (`Decoder`). `checkPacketIntegrity` (it zeroes a byte of the
  caller's part in place), `getMyTapPacket` and `getTwUplinkPackets` with its deframing loop.
- **Direct-mode consumer** (`Consumer`). The consumer's direct-mode path:
  - splitting a payload on "RECT";
  - classifying each part by integrity check, TAP decoding and command-ID derivation
    (`getCmdIDAndMeterIp`);
  - the batch loop that commits each non-empty batch after processing it.

The model's forms:

- Go slices that the source writes into are Dafny arrays, passed with the bounds of the
  slice (`buf[lo:hi]` with capacity up to `max`), so that a write through a sub-slice
  reaches the caller's array as it does in Go.
- Objects whose fields the source assigns are classes: `Address`, `TapPacket` and
  `TapWrapperPacket`.
- Every method is proved against a specification function of the inputs and the old
  state. The properties the source promises are lemmas about those functions.
- Go's fixed-width arithmetic is written out: `byte` wrap-around, 64-bit `int` wrap in
  `GetCmdID`, and the `uint8` guard and length subtraction.
- `strconv.Atoi` from Go's standard library is stated two ways: by the syntax and range
  it accepts (`Text.Atoi`, `Text.AtoiValue`), and by its own scanning algorithm on a 64-bit
  platform (`Text.StrconvAtoi`). `Text.AtoiIsStrconv` proves the two agree. This matters
  where `GetCmdID` ignores the error: a component such as "99999999999999999999x"
  yields the int64 bound, not 0.

Two behaviours are modelled as the code is written:

- `getMyTapPacket` is handed the whole part, 0xAA marker included. The source address it
  deserializes therefore starts with the byte 170 (`Decoder.MarkerReadAsAddress`).
- For an offset other than 4, `getMyTapPacket` filters on the command ID from bytes 6
  and 7. The consumer's `getCmdIDAndMeterIp` reads bytes 5 and 6 of the checked part
  (through the destination address) for every offset. `Consumer.DecodedValue` states
  the consumer's reading.

## Model

| member | source | states |
|---|---|---|
| IntCodec.InRangeIsRepresentable | pkg/tap/tap.go:125-135 | inRange holds exactly for the values that some buffer of the width decodes to |
| IntCodec.SerializeGeneric | pkg/tap/tap.go:79-93 | the loop computes Serialize of the inputs, whose meaning RoundTrip, ReverseRoundTrip and SerializedByte state |
| IntCodec.SerializedByte | pkg/tap/tap.go:83-88 | byte i of the serialization is `(value >> 8(n-1-i)) & 0xFF`, negative values included (arithmetic shift) |
| IntCodec.ReverseBytes | pkg/tap/tap.go:118-122 | the array afterwards holds the old contents reversed |
| IntCodec.CopyInOrder | apps/decoder/services/deserializer.go:34-39 | a fresh copy of the caller's buffer, reversed for "reverse" |
| IntCodec.DeserializeGeneric | apps/decoder/services/deserializer.go:34-53 | the result is Deserialize of the buffer's contents; the caller's buffer is not in any modifies clause, so it is never written |
| IntCodec.Deserialize | apps/decoder/services/deserializer.go:34-53 | an error exactly when the length is not the width, carrying the copied buffer in order; otherwise an in-range value |
| IntCodec.RoundTrip | pkg/tap/tap.go:79-115 | every in-range value, in either order, serializes and deserializes back to itself |
| IntCodec.ReverseRoundTrip | pkg/tap/tap.go:79-115 | every buffer of the right length is the serialization of the value it decodes to |
| IntCodec.ReverseOrderIsReversedBuffer | apps/decoder/services/deserializer.go:37-39 | decoding in "reverse" order is decoding the reversed buffer in "normal" order |
| IntCodec.UnsignedReading | apps/decoder/services/deserializer.go:43-48 | the unsigned reading is the big-endian byte sum, below 2^(8n) |
| IntCodec.SignedReading | apps/decoder/services/deserializer.go:49-51 | the signed reading subtracts 2^(8n) exactly when the unsigned reading is at least 2^(8n-1), and is negative exactly then |
| IntCodec.FromBytesInRange | apps/decoder/services/deserializer.go:43-51 | every decoded value passes inRange for its width and signedness |
| IntCodec.SerializeInt32 | pkg/tap/tap.go:141-143 | succeeds exactly for values in [-2^31, 2^31-1], with 4 bytes |
| IntCodec.SerializeInt24 | pkg/tap/tap.go:145-147 | succeeds exactly for values in [-2^23, 2^23-1], with 3 bytes |
| IntCodec.SerializeInt16 | pkg/tap/tap.go:149-151 | succeeds exactly for values in [-2^15, 2^15-1], with 2 bytes |
| IntCodec.SerializeInt8 | pkg/tap/tap.go:153-155 | succeeds exactly for values in [-128, 127], with 1 byte |
| IntCodec.SerializeUInt8 | pkg/tap/tap.go:157-159 | succeeds exactly for values in [0, 255], and the byte is the value |
| IntCodec.SerializeUInt16 | pkg/tap/tap.go:161-163 | succeeds exactly for values in [0, 0xFFFF], with 2 bytes |
| IntCodec.SerializeUInt24 | pkg/tap/tap.go:165-167 | succeeds exactly for values in [0, 0xFFFFFF], with 3 bytes |
| IntCodec.SerializeUInt32 | pkg/tap/tap.go:169-171 | succeeds exactly for values in [0, 0xFFFFFFFF], with 4 bytes |
| IntCodec.DeserializeInt32 | apps/decoder/services/deserializer.go:63-69 | drops the error: a wrong-length buffer reads as 0; the result is a signed 32-bit value; a 4-byte buffer reads as Deserialize's value |
| IntCodec.DeserializeInt24 | apps/decoder/services/deserializer.go:71-77 | an error exactly when the length is not 3; otherwise a signed 24-bit value |
| IntCodec.DeserializeInt16 | apps/decoder/services/deserializer.go:79-85 | an error exactly when the length is not 2; otherwise a signed 16-bit value |
| IntCodec.DeserializeInt8 | apps/decoder/services/deserializer.go:87-93 | an error exactly when the length is not 1; otherwise a signed 8-bit value |
| IntCodec.DeserializeUInt32 | apps/decoder/services/deserializer.go:103-109 | drops the error: a wrong-length buffer reads as 0; the result is below 2^32; a 4-byte buffer reads as Deserialize's value |
| IntCodec.DeserializeUInt24 | apps/decoder/services/deserializer.go:111-117 | an error exactly when the length is not 3; otherwise a value below 2^24 |
| IntCodec.DeserializeUInt16 | apps/decoder/services/deserializer.go:119-125 | an error exactly when the length is not 2; in normal order two bytes read as `hi*256 + lo` |
| IntCodec.DeserializeUInt8 | apps/decoder/services/deserializer.go:127-133 | an error exactly when the length is not 1; otherwise the byte itself |
| Bytes.BigEndian | pkg/tap/tap.go:83-88 | the n-byte encoding has length n and reads back as the value |
| Bytes.BigEndianUnique | pkg/tap/tap.go:83-88 | every byte string is the encoding of its own value |
| Bytes.PadEven | pkg/tap/tap.go:396-400 | the zero-pad-to-even rule: even length, the input as a prefix, and a 0 byte only when the input was odd |
| Crc16.Crc16UsingPolynomial | apps/decoder/services/deserializer.go:144-158 | the bit loop from 0x0000 computes BitwiseCrc, the byte-by-byte CRC with polynomial 0x1021 |
| Crc16.TopBitSet | apps/decoder/services/deserializer.go:150-151 | a register with bit 15 set shifts left and is xored with 0x1021 |
| Crc16.TopBitClear | apps/decoder/services/deserializer.go:152-153 | a register with bit 15 clear only shifts left |
| Crc16.Crc16 | apps/decoder/services/decoder.go:87-98 | the table loop computes the fold of `((crc << 8) & 0xff00) ^ table[((crc >> 8) & 0xff) ^ b]` over the data |
| Crc16.Crc16XModem | apps/decoder/services/decoder.go:100-116 | crc16xModem equals the bit-loop CRC started from the first optional initial value, or 0 |
| Crc16.TableEntry | apps/decoder/services/decoder.go:52-85 | entry i of CRC16_XMODEM_TABLE is eight bit-loop shifts of i placed in the high byte |
| Crc16.CrcTableIsShiftTable | apps/decoder/services/decoder.go:52-85 | the whole table has that form for polynomial 0x1021 |
| Crc16.TableIsSingleByteCrc | apps/decoder/services/decoder.go:52-85 | each entry w is the bit-loop CRC of the single byte w from 0 |
| Crc16.WordStepAgrees | apps/decoder/services/decoder.go:94-96 | with such a table, one table step is one bit-loop byte step |
| Crc16.StepAgrees | apps/decoder/services/decoder.go:94-96 | a table step on a data byte equals the bit-loop step on it |
| Crc16.TableCrcIsBitwise | apps/decoder/services/decoder.go:87-98 | the table-driven CRC equals the bit-loop CRC on every input and every initial value |
| Crc16.TimesLinear | apps/decoder/services/deserializer.go:149-155 | the eight-shift step distributes over xor |
| Crc16.LowByteMovesUp | apps/decoder/services/deserializer.go:149-155 | a register below 0x100 never meets the polynomial within one byte: it only moves up |
| Crc16.PaddedCrc | apps/decoder/services/decoder.go:239-245 | the CRC of the zero-padded bytes, always below 2^16 |
| Text.Split | pkg/tap/tap.go:270 | strings.Split on one separator: at least one piece, and no piece contains the separator |
| Text.JoinSplit | pkg/tap/tap.go:270 | joining the pieces of a split with the separator gives back the string |
| Text.SplitJoin | apps/decoder/services/wp_mode.go:123 | splitting a join of separator-free pieces gives back the pieces |
| Text.Itoa | pkg/tap/tap.go:294 | `%d` of a natural number: decimal digits with no leading zero |
| Text.ItoaValue | pkg/tap/tap.go:294 | the digits `%d` writes have the number as their value |
| Text.Atoi | pkg/tap/tap.go:275 | strconv.Atoi succeeds exactly on numerals whose value fits in 64 bits, and returns that value |
| Text.AtoiValue | pkg/tap/tap.go:329-332 | the value Atoi returns next to its error: Atoi's value when it succeeds; the int64 bound of the sign for a numeral out of range, and also for a string whose digits after the sign are worth more than 2^64-1 before a syntax error; 0 for every other non-numeral |
| Text.ScanUintReads | pkg/tap/tap.go:329-332 | strconv.ParseUint's base-10 loop reports a range error with 2^64-1 exactly when the leading digits are worth more than 2^64-1; otherwise it yields the value of an all-digit string and a syntax error with 0 for anything else |
| Text.ScanSmallReads | pkg/tap/tap.go:329-332 | the loop of Atoi's fast path (inputs under 19 bytes) yields the value of an all-digit string and a syntax error otherwise |
| Text.AtoiIsStrconv | pkg/tap/tap.go:329-332 | Atoi and AtoiValue agree with strconv.Atoi's own algorithm (the fast path under 19 bytes, ParseInt over ParseUint otherwise) on every string: the same value, and success exactly when it reports no error |
| Text.AtoiItoa | pkg/tap/tap.go:294-311 | Atoi reads back every number `%d` writes |
| Addresses.Address.constructor | pkg/tap/tap.go:334-336 | `&Address{s}` stores the string without validation |
| Addresses.NewAddress | pkg/tap/tap.go:262-281 | an address exactly for strings that pass isValidIPv4: four dot parts, each a numeral in [0, 255] |
| Addresses.Address.LoadFromInteger | pkg/tap/tap.go:290-296 | an error exactly outside [0, 0xFFFFFFFF], leaving the string unchanged; otherwise the string is the dotted quad |
| Addresses.Address.DumpToInteger | pkg/tap/tap.go:300-314 | the result is Dump of the string: the format error for a part count other than 4, the first invalid component's error, else the bytes big-endian |
| Addresses.Dump | pkg/tap/tap.go:300-314 | a successful dump is below 2^32 |
| Addresses.ValidPrefix | pkg/tap/tap.go:306-312 | the loop stops at the first invalid component; all components before it are valid |
| Addresses.FirstInvalid | pkg/tap/tap.go:306-312 | any index with valid components before it and an invalid one at it is where the loop stops |
| Addresses.ComponentStep | pkg/tap/tap.go:311 | one more valid component shifts the value up by a byte and adds it |
| Addresses.ValidIffDumps | pkg/tap/tap.go:269-314 | DumpToInteger succeeds exactly on the strings isValidIPv4 accepts |
| Addresses.LoadDumpRoundTrip | pkg/tap/tap.go:290-314 | an accepted integer becomes a valid address that dumps back to it |
| Addresses.QuadIsBigEndian | pkg/tap/tap.go:294 | the four printed bytes are the big-endian encoding of the integer |
| Addresses.QuadOfBytes | pkg/tap/tap.go:294 | printing the value of four bytes gives those bytes back |
| Addresses.DottedParts | pkg/tap/tap.go:294-301 | the dot parts of a printed address are the decimal strings of its bytes |
| Addresses.DumpDotted | pkg/tap/tap.go:294-314 | an address printed from four bytes is valid and dumps to their big-endian value |
| Addresses.Wrap64 | pkg/tap/tap.go:325 | Go `int` arithmetic: the result is a 64-bit value and equals the input when it fits |
| Addresses.Address.GetCmdID | pkg/tap/tap.go:318-327 | for a valid address, the middle two bytes as one 16-bit number |
| Addresses.CmdIdOfValid | pkg/tap/tap.go:318-327 | for a valid address GetCmdID is `(value >> 8) & 0xFFFF` of its dumped value |
| Tap.TapPacket.Zero | pkg/tap/tap.go:488 | the zero packet: no addresses, zero ports and length, no data |
| Tap.TapPacket.constructor | apps/decoder/services/decoder.go:186-195 | NewTAPPacket: two fresh, distinct empty addresses, zero fields, empty data |
| Tap.AddressField | pkg/tap/tap.go:383-390 | an address as Serialize writes it: four bytes whose big-endian value is the address |
| Tap.AddressValue | pkg/tap/tap.go:372-379 | the value Serialize writes for an address always fits its four bytes (below 2^32) |
| Tap.CrcField | pkg/tap/tap.go:395-403 | two bytes whose big-endian value is the padded CRC of the bytes after the marker |
| Tap.AppendAddress | pkg/tap/tap.go:383-390 | the four appends of an address add its AddressField |
| Tap.AppendCrc | pkg/tap/tap.go:395-403 | the CRC appends add the CRC field of everything after the marker |
| Tap.TapPacket.Serialize | pkg/tap/tap.go:371-406 | the bytes are Encode of the dumped addresses, the ports, the length byte as set and the data |
| Tap.EncodeLayout | pkg/tap/tap.go:371-406 | 14 + len(data) bytes: 0xAA, the addresses big-endian, the ports, the length, the data, and the big-endian padded CRC of everything after the marker |
| Tap.CrcBytes | pkg/tap/tap.go:403 | `byte(crc>>8), byte(crc&0xFF)` is the big-endian encoding of the CRC |
| Tap.TapPacket.Deserialize | apps/decoder/services/deserializer.go:160-233 | the packet becomes Deserialized: unchanged for fewer than 13 bytes; otherwise the header fields, and the data when the wrapping guard passes. The error is DeserializeError. The caller's array changes only by PadBuffer |
| Tap.TapPacket.LoadHeader | apps/decoder/services/deserializer.go:164-194 | fresh addresses holding the dotted quads of bytes 0-3 and 4-7, ports from bytes 8 and 9, the length from byte 10, the data kept |
| Tap.LoadAddress | apps/decoder/services/deserializer.go:167-187 | `NewAddress("0.0.0.0")` then `LoadFromInteger` of four big-endian bytes gives a fresh address holding their dotted quad |
| Tap.ZeroAddressIsValid | apps/decoder/services/deserializer.go:170-183 | "0.0.0.0" passes isValidIPv4, so NewAddress never fails there |
| Tap.CheckCrc | apps/decoder/services/deserializer.go:201-224 | the error is a CRC mismatch exactly when the stored big-endian CRC differs from the padded CRC of the header and data; the array changes only by the pad write over the first stored CRC byte |
| Tap.GuardWraps | apps/decoder/services/deserializer.go:201 | the 8-bit guard is `len - 16 > DataLen` for 16 to 271 bytes, but wraps and is `len + 240 > DataLen` below 16 bytes |
| Tap.SerializeDeserializeRoundTrip | pkg/tap/tap.go:371-481 | the bytes Serialize writes after the marker, plus a 4-byte DCU number, deserialize without error to the same addresses, ports, length and data |
| Tap.LayoutDeserializes | apps/decoder/services/deserializer.go:160-233 | any window laid out as Serialize writes it, plus four bytes, passes the guard and the CRC check and gives back its fields |
| Tap.TapDecode | pkg/tap/tap.go:483-503 | a fresh packet: the zero packet when the marker is neither at byte 0 nor at byte 18 (with byte 16 equal to 16), else what Deserialize makes of the bytes after the marker (errors are only logged); the buffer changes only by that call's pad write |
| Tap.Bit | pkg/tap/tap.go:543-545 | `(b >> k) & 0x01` is 0 or 1 |
| Tap.BitMaskChar | pkg/tap/tap.go:538-549 | each character of the mask string is '0' or '1' |
| Tap.ConvertBitMaskCode | pkg/tap/tap.go:534-555 | int(bitMaskPktLen) characters (none for a negative length); character k is bit 7-(k mod 8) of byte k/8, or bit k mod 8 when reversed |
| Tap.ReverseMirrorsBits | pkg/tap/tap.go:542-546 | reversed order mirrors the bits within each byte |
| Tap.BitsSpellByte | pkg/tap/tap.go:534-555 | the eight normal-order characters of a byte spell that byte in binary |
| Tap.BitsPrefix | pkg/tap/tap.go:534-555 | the first m characters of a byte spell its top m bits |
| Wrapper.ShlVanishes | apps/decoder/services/wp_mode.go:80-85 | a byte shifted left by 8 or more bits is 0 |
| Wrapper.HalfWord | apps/decoder/services/wp_mode.go:80 | `b0 + (b1 << 8)` on bytes is b0 |
| Wrapper.Word | apps/decoder/services/wp_mode.go:82-84 | `b0 + (b1 << 8) + (b2 << 16) + (b3 << 24)` on bytes is b0 |
| Wrapper.LowByte16 | apps/decoder/services/wp_mode.go:102 | `byte(x)` of a uint16 is x mod 256 |
| Wrapper.FrameCrc | apps/decoder/services/wp_mode.go:88-99 | the CRC computed is the padded CRC of all but the last two bytes |
| Wrapper.ComputeFrameCrc | apps/decoder/services/wp_mode.go:88-99 | the append loop and padding compute FrameCrc, without writing the data |
| Wrapper.TapWrapperPacket.constructor | apps/decoder/services/wp_mode.go:40-71 | every field holds NewTapWrapperPacket's initial value |
| Wrapper.TapWrapperPacket.ValidateUplinkPacket | apps/decoder/services/wp_mode.go:73-116 | the header and trailer fields are the low bytes read; the result is true exactly when the byte before the last equals the low byte of the frame CRC (ValidFrame) |
| Wrapper.HighCrcByteIgnored | apps/decoder/services/wp_mode.go:85-105 | the last byte never affects validity: only the low CRC byte is compared |
| Wrapper.SealedFrameValid | apps/decoder/services/wp_mode.go:85-105 | a body followed by the low byte of its padded CRC and any last byte is a valid frame |
| Wrapper.Hex | apps/decoder/services/wp_mode.go:121 | `%02X` gives two characters and no space |
| Wrapper.HexParses | apps/decoder/services/wp_mode.go:121 | the two hex digits read back as the byte |
| Wrapper.HexPieces | apps/decoder/services/wp_mode.go:119-122 | one piece per byte, in order, each the byte's hex |
| Wrapper.HexValuesFromBytes | apps/decoder/services/wp_mode.go:118-124 | the result is the pieces joined with single spaces |
| Wrapper.HexValuesRoundTrip | apps/decoder/services/wp_mode.go:118-124 | "" for no bytes; otherwise 3n-1 characters, and splitting on spaces and parsing each piece gives back the bytes |
| Wrapper.JoinLength | apps/decoder/services/wp_mode.go:123 | n two-character pieces joined by one-character separators have 3n-1 characters |
| Wrapper.Discriminator | apps/decoder/services/wp_mode.go:128 | `string(data[index+1])` is a one-character string |
| Wrapper.MultiCharLabelsUnreachable | apps/decoder/services/wp_mode.go:128-564 | the discriminator has one character and every multi-character label ("10", "12", "14", "16", "31", "33", "35", "37", "129", "130") has at least two, so none is ever reached |
| Wrapper.DiscriminatorCases | apps/decoder/services/wp_mode.go:128-133 | the discriminator is "1", "2", "4", "6" or "8" exactly for the bytes 0x31, 0x32, 0x34, 0x36, 0x38 |
| Wrapper.UplinkKindCases | apps/decoder/services/wp_mode.go:159-168 | a case "2" message is an "Uplink_Msg" exactly when its source endpoint is not 0x16 and below 240 |
| Wrapper.Consumed | apps/decoder/services/wp_mode.go:126-583 | every message takes at least one byte, so the walk over a frame always advances |
| Wrapper.RespShape | apps/decoder/services/wp_mode.go:138-190 | every answer has the message type, sink id and DCU fields, and has TAP bytes exactly for an "Uplink_Msg", where they are its payload |
| Wrapper.TapWrapperPacket.DeframeUplinkPacket | apps/decoder/services/wp_mode.go:126-583 | the step's length and answer are Consumed and RespAt; version, type, status and message id as read; the uplink fields set only by case "2"; sink id and DCU fields unchanged |
| Wrapper.TapWrapperPacket.DeframeSentStatus | apps/decoder/services/wp_mode.go:133-156 | case "1": four bytes; the message id and status are bytes 2 and 3 |
| Wrapper.TapWrapperPacket.DeframeUplink | apps/decoder/services/wp_mode.go:158-227 | case "2": 19 + length bytes; the message is named by its source endpoint and carries its TAP bytes |
| Wrapper.TapWrapperPacket.ReadUplinkFields | apps/decoder/services/wp_mode.go:159-175 | the type and every uplink field are as the message at index carries them |
| Wrapper.TapWrapperPacket.ReadUplinkAddressing | apps/decoder/services/wp_mode.go:159-168 | addresses are the low bytes at index+2 and index+6; the type follows the source endpoint |
| Wrapper.TapWrapperPacket.ReadUplinkPayload | apps/decoder/services/wp_mode.go:170-175 | endpoint, travel time, QoS, length, hop count and TAP bytes as at index+11 to index+19 |
| Wrapper.TapWrapperPacket.DeframeStatus | apps/decoder/services/wp_mode.go:229-302 | cases "4", "6", "8": three bytes; the status is byte 2 |
| Wrapper.TapWrapperPacket.DeframeUnknown | apps/decoder/services/wp_mode.go:564-580 | the default case: "Unkown_Msg", taking the whole data |
| Wrapper.EncodeUplink | apps/decoder/services/wp_mode.go:158-175 | a case "2" message takes 19 bytes plus its TAP bytes |
| Wrapper.UplinkRoundTrip | apps/decoder/services/wp_mode.go:158-227 | deframing an encoded uplink message anywhere in the data takes exactly its bytes and answers with its TAP bytes, low address bytes, travel time and hop count |
| Decoder.CheckPacketIntegrity | apps/decoder/services/decoder.go:211-259 | the error is Integrity of the part and `ok` holds exactly without one; the caller's part changes only where PartAfterCheck says |
| Decoder.IntegrityPasses | apps/decoder/services/decoder.go:211-258 | the check passes exactly when the part has at least 14 + DataLen bytes, starts with 0xAA, and stores big-endian the padded CRC of the header and data |
| Decoder.IntegrityPad | apps/decoder/services/decoder.go:239-242 | the byte zeroed in place lies within the part |
| Decoder.IntegrityOfCheckedPart | apps/decoder/services/decoder.go:226-251 | for a long-enough part starting with 0xAA: no error exactly when the CRCs match, else the mismatch; the pad byte is 12 + part[11] exactly when the span is odd |
| Decoder.CompareCrc | apps/decoder/services/decoder.go:226-251 | the CRC comparison gives Integrity of the part, and the part changes only by the pad write |
| Decoder.ReadStoredCrc | apps/decoder/services/decoder.go:232-237 | the stored CRC is the two bytes big-endian |
| Decoder.PaddedSpanCrc | apps/decoder/services/decoder.go:239-245 | the CRC of the span zero-padded to even length; the only write is a 0 just after an odd span |
| Decoder.WrittenPad | apps/decoder/services/decoder.go:240-242 | writing 0 after an odd span gives the span padded to even length |
| Decoder.SerializedPartPasses | apps/decoder/services/decoder.go:211-258 | a packet as Serialize writes it, with any trailer, passes the integrity check |
| Decoder.CommandBytes | apps/decoder/services/decoder.go:266-270 | the command-ID address has four bytes |
| Decoder.CommandIdBytes | apps/decoder/services/decoder.go:264-282 | the command ID is bytes 5 and 6 big-endian for offset 4, bytes 6 and 7 otherwise |
| Decoder.PartCommandId | apps/decoder/services/decoder.go:264-282 | printing the bytes, NewAddress and DumpToInteger give CommandId |
| Decoder.AllOnesIffBroadcast | apps/decoder/services/decoder.go:284 | the first four bytes AND to 0xFF exactly when all four are 0xFF |
| Decoder.IsWholeSpan | apps/decoder/services/decoder.go:284 | the branch condition is WholeSpan |
| Decoder.LessOffset | apps/decoder/services/decoder.go:297 | `DataLen -= uint8(offset)`: the result plus the offset is DataLen modulo 256 |
| Decoder.GetMyTapPacket | apps/decoder/services/decoder.go:261-301 | a fresh packet holding MyTapValue, Deserialize's error, and the pad write of the deserialized span in the part |
| Decoder.DeserializeWhole | apps/decoder/services/decoder.go:284-289 | a whole span: the part up to the stop byte deserialized as it is |
| Decoder.DeserializeCut | apps/decoder/services/decoder.go:290-298 | a cut span: the offset cut off the span, and off DataLen only after success |
| Decoder.DeserializeSpan | apps/decoder/services/decoder.go:285-291 | Deserialize of `part[0:len]` into a new packet, as its own contract says for that window |
| Decoder.MyTapWhole | apps/decoder/services/decoder.go:284-289 | on a whole span the packet and error are Deserialize's on `11 + part[10]` bytes |
| Decoder.MyTapCut | apps/decoder/services/decoder.go:290-298 | on a cut span they are Deserialize's on `11 + part[10] - offset` bytes, with DataLen lowered only when there is no error |
| Decoder.MarkerReadAsAddress | apps/decoder/services/decoder.go:261-301 | on a part that passed the integrity check the source address starts with 170, the marker |
| Decoder.GetTwUplinkPackets | apps/decoder/services/decoder.go:303-325 | "invalid wp packet" and no answers exactly for an invalid frame; otherwise the answers of its uplink messages, in order |
| Decoder.KeepUplinks | apps/decoder/services/decoder.go:309-321 | the loop from index 4 keeps exactly UplinkPackets of the frame |
| Decoder.WalkOnce | apps/decoder/services/decoder.go:313-317 | one iteration advances by Consumed and keeps the answer exactly when it is "Uplink_Msg"; kept plus still-to-come is invariant |
| Decoder.WalkAdvance | apps/decoder/services/decoder.go:313-317 | the same invariant, stated on the answer the step returns |
| Decoder.WalkStep | apps/decoder/services/decoder.go:312-317 | before the trailer the walk reads one message, then goes on after it, its answer first when it is an uplink |
| Decoder.KeptIffUplink | apps/decoder/services/decoder.go:315 | an answer's type is "Uplink_Msg" exactly when the message is an uplink |
| Decoder.UplinkIsUplinkMsg | apps/decoder/services/wp_mode.go:158-168 | only a case "2" message from an uplink endpoint is typed "Uplink_Msg" |
| Decoder.UplinkPacketsAreUplinks | apps/decoder/services/decoder.go:315-316 | every answer kept is an "Uplink_Msg" carrying TAP bytes |
| Decoder.WalkUplinks | apps/decoder/services/decoder.go:309-321 | uplink messages followed by the 10 trailer bytes give their own answers, one per message, in order |
| Decoder.UplinkHead | apps/decoder/services/decoder.go:312-317 | walking from an uplink message puts its answer before those of what follows |
| Decoder.UplinkFirst | apps/decoder/services/wp_mode.go:158-227 | an encoded uplink message is one "Uplink_Msg" of its own length that keeps the status |
| Decoder.FrameOfUplinks | apps/decoder/services/decoder.go:303-325 | a frame of a head, uplink messages and a trailer holding the low CRC byte is valid, and getTwUplinkPackets returns the messages' answers in order |
| Decoder.SealedFrame | apps/decoder/services/wp_mode.go:73-116 | a frame whose ninth trailer byte is the low CRC byte of what precedes it is valid |
| Consumer.NextDelimiter | apps/decoder/services/consumer.go:137 | the leftmost "RECT" at or after a position, or the end |
| Consumer.SplitParts | apps/decoder/services/consumer.go:137 | bytes.Split gives at least one piece |
| Consumer.JoinSplit | apps/decoder/services/consumer.go:137 | the pieces joined with "RECT" give back the payload |
| Consumer.PartsHaveNoDelimiter | apps/decoder/services/consumer.go:137 | no piece contains "RECT" |
| Consumer.ToByte | apps/decoder/services/consumer.go:180 | `byte(x)` is x modulo 256 |
| Consumer.CmdIdAndMeterIp | apps/decoder/services/consumer.go:164-192 | a found command ID is below 2^16 with the source address as meter IP; the errors are the two messages of the source |
| Consumer.CmdIdOfDotted | apps/decoder/services/consumer.go:164-192 | for an address printed from four bytes the command ID is the middle two bytes big-endian |
| Consumer.CmdIdAgreesWithGetCmdID | apps/decoder/services/consumer.go:164-192 | on a valid destination address the consumer reads the command ID GetCmdID reads |
| Consumer.ComponentsWord | apps/decoder/services/consumer.go:180-181 | two components in [0, 255] read big-endian give GetCmdID's sum |
| Consumer.CheckedPart | apps/decoder/services/consumer.go:143-146 | the part getMyTapPacket sees has the part's length |
| Consumer.PacketHasAddresses | apps/decoder/services/consumer.go:146-152 | a packet from getMyTapPacket has both addresses |
| Consumer.DecodedAddresses | apps/decoder/services/consumer.go:146-152 | after a successful getMyTapPacket the addresses are the dotted quads of bytes 0-3 and 4-7 |
| Consumer.PartOutcomes | apps/decoder/services/consumer.go:141-160 | one outcome per part |
| Consumer.ProcessPart | apps/decoder/services/consumer.go:142-158 | the outcome of one part is PartOutcomeOf |
| Consumer.ProcessPackets | apps/decoder/services/consumer.go:121-162 | nothing for a non-map message; otherwise the outcome of every part, in order, whatever the earlier parts gave |
| Consumer.DecodedPart | apps/decoder/services/consumer.go:143-158 | never a command-ID failure; decoded exactly when both checks pass; the meter IP is the first four bytes, marker included |
| Consumer.DecodedValue | apps/decoder/services/consumer.go:143-158 | a part passing both checks gives the dotted bytes 0-3 and the command ID from bytes 5 and 6 |
| Consumer.UnmarshalKafkaMessages | apps/decoder/services/consumer.go:96-110 | the messages JSON decodes, in order |
| Consumer.UnmarshalledKeepsDecoded | apps/decoder/services/consumer.go:96-110 | every decodable message is kept, and nothing else |
| Consumer.ProcessedEvents | apps/decoder/services/consumer.go:82-86 | one processing event per message, all of its batch |
| Consumer.ProcessBatch | apps/decoder/services/consumer.go:79-91 | the events of one batch: its messages processed, then a commit when it is not empty |
| Consumer.ProcessMessages | apps/decoder/services/consumer.go:75-94 | the log of all batches, in order |
| Consumer.BatchCommits | apps/decoder/services/consumer.go:79-91 | a batch's events commit it once when non-empty, and no other batch |
| Consumer.CommittedOnce | apps/decoder/services/consumer.go:78-92 | each non-empty batch is committed exactly once, an empty batch never |
| Consumer.CommitAfterProcessing | apps/decoder/services/consumer.go:78-92 | a batch is committed only after all its messages are processed |
| Consumer.BatchEventsShape | apps/decoder/services/consumer.go:79-91 | a batch's events belong to it and only the last commits |

The same Go code appears twice in the source, and is modelled once:

- `Address` and `TAPPacket.Deserialize` exist in both pkg/tap/tap.go and the decoder
  services (apps/decoder/services/decoder.go:118-195 and
  apps/decoder/services/deserializer.go:160-233).
- `DeserializeGeneric` and its wrappers also appear at pkg/tap/tap.go:96-255.
- The bit-loop CRC also appears at pkg/tap/tap.go:30-44.

The rows cite one copy of each.

## Left out

- Kafka consumption, goroutines, channels and the commit call are left out; they are
  concurrency and a foreign client. processMessages is a log of processing and commit events.
- JSON unmarshalling and gob encoding of the payload are left out. A message is either a
  map holding payload bytes or something else, and its decoding is an input.
- All printing and logging is left out, including the DCU number that Deserialize prints
  from the buffer's last four bytes.
- The width-8 codec is left out. Its Go `int` overflow and `math.Pow(2, 64)` are
  implementation-defined. Widths are 1 to 4, and `math.Pow` is read as an exact power of two.
- BlockLoadParser.Deserialize is not part of this model (float scaling and time formatting).
- Consumer.ProcessPackets: offset and dcuPort are inputs, because getDcuPortAndOffset is
  commented out in the source.
- Wrapper.TapWrapperPacket.DeframeUplinkPacket: the multi-character case labels "10", "12",
  "14", "16", "31", "33", "35", "37", "129" and "130" are not modelled as branches. No
  one-character string reaches them (Wrapper.MultiCharLabelsUnreachable).
- Tap.TapPacket.Deserialize: its contract does not state that the two addresses are fresh
  objects distinct from other packets' (aliasing is not modelled). Addresses are compared
  by their strings.
- Tap.TapPacket.Deserialize: the NewAddress and LoadFromInteger error returns cannot
  happen ("0.0.0.0" is valid, and four bytes always fit), so they are not modelled as branches.
- Decoder.CompareCrc: the DeserializeUInt16 error and the "stop byte issue" branch cannot
  happen once the length test passed, so they are not modelled as branches.
- Decoder.PartCommandId: the NewAddress and DumpToInteger errors cannot happen on a
  printed address, so they are not modelled as branches.
- Consumer.DecodedPart: the command ID is tied to getMyTapPacket's CommandId only for
  offset 4. For other offsets the two read different bytes (Consumer.DecodedValue states
  the consumer's bytes).
- Read-only Go slices (wrapper data, consumer payloads and parts) are modelled as values.
  bytes.Split caps the capacity of every piece but the last at its length, so a write or
  append through one part never reaches another part, and each part is modelled in its own
  buffer of exactly its length. The last piece keeps the payload's spare capacity, which is
  not modelled. When the wrapping guard lets getMyTapPacket's Deserialize read the CRC or
  write the pad beyond the length of a short last part, Go reaches into that spare
  capacity. The model's requires clause treats that input as a panic.
- A panic on a short input is a requires clause (the *Defined predicates), not a modelled outcome.
- Tap.ConvertBitMaskCode: the length is a float64 in the source. The model takes
  `int(bitMaskPktLen)` as its input, so floating-point truncation is left out.
- TAPPacket.Fill and the String methods are left out. Fill only assigns fields, and the
  String methods only format them.
