/** The fixed-width integer codec: SerializeGeneric, DeserializeGeneric, reverseBytes, inRange
    and the per-width wrappers. Values are Go `int`s (modelled unbounded); widths are 1 to 4 bytes. */
module IntCodec {
  import opened Bytes

  /** The byte widths modelled: 1, 2, 3 and 4. */
  type Width = n: int | 1 <= n <= 4 witness 1

  datatype SerializeResult =
    | Serialized(bytes: seq<byte>)
    | SerializeValueError(value: int, numBytes: int, signed: bool)

  /** `(int, error)` of DeserializeGeneric; on an error the Go value is 0. */
  datatype DeserializeResult =
    | Deserialized(value: int)
    | DeserializeValueError(buf: seq<byte>, numBytes: int, signed: bool)

  /** Any order other than "reverse" is big-endian. */
  predicate IsReverse(order: string) {
    order == "reverse"
  }

  function InOrder(b: seq<byte>, order: string): (r: seq<byte>)
    ensures |r| == |b|
  {
    if IsReverse(order) then Reverse(b) else b
  }

  /** inRange: maxValue = 2^(8n-1) - 1 and minValue = -(maxValue + 1) when signed,
      maxValue = 2^(8n) - 1 and minValue = 0 when unsigned. */
  predicate InRange(value: int, numBytes: Width, signed: bool) {
    var maxValue := if signed then Pow2(8 * numBytes - 1) - 1 else Pow2(8 * numBytes) - 1;
    var minValue := if signed then -1 * (maxValue + 1) else 0;
    minValue <= value && value <= maxValue
  }

  /** What SerializeGeneric produces: the low 8n bits of the two's-complement value, big-endian,
      reversed on request. */
  function Serialize(value: int, numBytes: Width, signed: bool, order: string): SerializeResult {
    if !InRange(value, numBytes, signed) then SerializeValueError(value, numBytes, signed)
    else Serialized(InOrder(BigEndian(value % Pow2(8 * numBytes), numBytes), order))
  }

  /** The signed or unsigned reading of a big-endian byte string. */
  function FromBytes(b: seq<byte>, signed: bool): int {
    var u := Unsigned(b);
    if signed && |b| > 0 && u >= Pow2(8 * |b| - 1) then u - Pow2(8 * |b|) else u
  }

  /** What DeserializeGeneric returns. */
  function Deserialize(buf: seq<byte>, numBytes: Width, signed: bool, order: string): (r: DeserializeResult)
    ensures r.DeserializeValueError? <==> |buf| != numBytes
    ensures r.DeserializeValueError? ==> r.buf == InOrder(buf, order)
    ensures r.Deserialized? ==> InRange(r.value, numBytes, signed)
  {
    var b := InOrder(buf, order);
    if |b| != numBytes then DeserializeValueError(b, numBytes, signed)
    else
      FromBytesInRange(b, numBytes, signed);
      Deserialized(FromBytes(b, signed))
  }

  lemma FromBytesInRange(b: seq<byte>, numBytes: Width, signed: bool)
    requires |b| == numBytes
    ensures InRange(FromBytes(b, signed), numBytes, signed)
  {
    assert Pow2(8 * numBytes) == 2 * Pow2(8 * numBytes - 1);
  }

  /** reverseBytes: swap from both ends towards the middle, in place. */
  method ReverseBytes(buf: array<byte>)
    modifies buf
    ensures buf[..] == Reverse(old(buf[..]))
  {
    var i, j := 0, buf.Length - 1;
    while i < j
      invariant 0 <= i <= buf.Length && j == buf.Length - 1 - i
      invariant forall k :: 0 <= k < i || j < k < buf.Length ==> buf[k] == old(buf[buf.Length - 1 - k])
      invariant forall k :: i <= k <= j ==> buf[k] == old(buf[k])
    {
      buf[i], buf[j] := buf[j], buf[i];
      i, j := i + 1, j - 1;
    }
  }

  /** SerializeGeneric: reject out-of-range values, then byte i is `(value >> shift) & 0xFF`,
      the shift going down from 8(n-1) in steps of 8; reverse the bytes on request. */
  method SerializeGeneric(value: int, numBytes: Width, signed: bool, order: string) returns (r: SerializeResult)
    ensures r == Serialize(value, numBytes, signed, order)
  {
    if !InRange(value, numBytes, signed) {
      return SerializeValueError(value, numBytes, signed);
    }
    var shiftQuantity := (numBytes - 1) * 8;
    var toReturn := new byte[numBytes];
    ghost var encoding := BigEndian(value % Pow2(8 * numBytes), numBytes);
    for i := 0 to numBytes
      invariant shiftQuantity == (numBytes - 1 - i) * 8
      invariant forall k :: 0 <= k < i ==> toReturn[k] == encoding[k]
    {
      SerializedByte(value, numBytes, i, shiftQuantity);
      toReturn[i] := ((value / Pow2(shiftQuantity)) % 256) as byte;
      shiftQuantity := shiftQuantity - 8;
    }
    assert toReturn[..] == encoding;
    if IsReverse(order) {
      ReverseBytes(toReturn);
    }
    return Serialized(toReturn[..]);
  }

  /** Byte i of the serialized value is `(value >> 8(n-1-i)) & 0xFF`, negative values included
      (`>>` on a Go int is an arithmetic shift, floor division by a power of two). */
  lemma SerializedByte(value: int, numBytes: nat, i: nat, shift: nat)
    requires i < numBytes && shift == 8 * (numBytes - 1 - i)
    ensures BigEndian(value % Pow2(8 * numBytes), numBytes)[i] as int == (value / Pow2(shift)) % 256
  {
    BigEndianAt(value % Pow2(8 * numBytes), numBytes, i);
    WrapByte(value, numBytes, 8 * (numBytes - 1 - i));
  }

  /** The first step of DeserializeGeneric: a fresh copy of the caller's buffer, reversed when
      the order is "reverse". */
  method CopyInOrder(buf: array<byte>, order: string) returns (bufCopy: array<byte>)
    ensures fresh(bufCopy) && bufCopy[..] == InOrder(buf[..], order)
  {
    bufCopy := new byte[buf.Length](k requires 0 <= k < buf.Length reads buf => buf[k]);
    assert bufCopy[..] == buf[..];
    if IsReverse(order) {
      ReverseBytes(bufCopy);
    }
  }

  /** DeserializeGeneric: copy the caller's buffer, reverse the copy on request, check the
      length, then accumulate `int(b) << shift`. The caller's buffer is never written. */
  method DeserializeGeneric(buf: array<byte>, numBytes: Width, signed: bool, order: string)
    returns (r: DeserializeResult)
    ensures r == Deserialize(buf[..], numBytes, signed, order)
  {
    var bufCopy := CopyInOrder(buf, order);
    ghost var b := bufCopy[..];
    if bufCopy.Length != numBytes {
      return DeserializeValueError(bufCopy[..], numBytes, signed);
    }
    var shiftQuantity := (bufCopy.Length - 1) * 8;
    var toReturn := 0;
    for i := 0 to bufCopy.Length
      invariant shiftQuantity == (numBytes - 1 - i) * 8
      invariant toReturn == Unsigned(b[..i]) * Pow2(shiftQuantity + 8)
      invariant bufCopy[..] == b
    {
      AccumulateByte(b, i, shiftQuantity);
      toReturn := toReturn + bufCopy[i] as int * Pow2(shiftQuantity);
      shiftQuantity := shiftQuantity - 8;
    }
    assert b[..|b|] == b;
    assert toReturn == Unsigned(b);
    if signed && toReturn >= Pow2(8 * bufCopy.Length - 1) {
      toReturn := -(Pow2(8 * bufCopy.Length) - toReturn);
    }
    assert toReturn == FromBytes(b, signed);
    DeserializeReads(buf[..], numBytes, signed, order);
    return Deserialized(toReturn);
  }

  /** Proof step for DeserializeGeneric: Deserialize's own success branch, unfolded. */
  lemma DeserializeReads(buf: seq<byte>, numBytes: Width, signed: bool, order: string)
    requires |buf| == numBytes
    ensures Deserialize(buf, numBytes, signed, order) == Deserialized(FromBytes(InOrder(buf, order), signed))
  {
  }

  /** One accumulation step: adding byte i at weight 2^shift extends the value of the prefix. */
  lemma AccumulateByte(s: seq<byte>, i: nat, shift: nat)
    requires i < |s|
    ensures Unsigned(s[..i]) * Pow2(shift + 8) + s[i] as int * Pow2(shift)
         == Unsigned(s[..i + 1]) * Pow2(shift)
  {
    Pow2Add(8, shift);
    assert Pow2(8) == 256;
    assert s[..i + 1][..i] == s[..i];
    assert Unsigned(s[..i + 1]) == Unsigned(s[..i]) * 256 + s[i] as int;
    Distribute(Unsigned(s[..i]), s[i] as int, Pow2(shift));
  }

  lemma Distribute(u: int, b: int, p: int)
    ensures u * (256 * p) + b * p == (u * 256 + b) * p
  {
  }

  /** Round trip: every in-range value, in either order, deserializes to itself. */
  lemma RoundTrip(value: int, numBytes: Width, signed: bool, order: string)
    requires InRange(value, numBytes, signed)
    ensures Serialize(value, numBytes, signed, order).Serialized?
    ensures Deserialize(Serialize(value, numBytes, signed, order).bytes, numBytes, signed, order)
         == Deserialized(value)
  {
    var m, h := Pow2(8 * numBytes), Pow2(8 * numBytes - 1);
    assert m == 2 * h;
    var b := BigEndian(value % m, numBytes);
    if IsReverse(order) {
      ReverseReverse(b);
    }
    assert InOrder(InOrder(b, order), order) == b;
    if value < 0 {
      DivModUnique(value, m, -1, value + m);
    } else {
      DivModUnique(value, m, 0, value);
    }
  }

  /** The other direction: every buffer of the right length is the serialization of its value. */
  lemma ReverseRoundTrip(buf: seq<byte>, numBytes: Width, signed: bool, order: string)
    requires |buf| == numBytes
    ensures Deserialize(buf, numBytes, signed, order).Deserialized?
    ensures Serialize(Deserialize(buf, numBytes, signed, order).value, numBytes, signed, order)
         == Serialized(buf)
  {
    var b := InOrder(buf, order);
    var u, m := Unsigned(b), Pow2(8 * numBytes);
    var v := FromBytes(b, signed);
    if v < 0 {
      DivModUnique(v, m, -1, u);
    } else {
      DivModUnique(v, m, 0, u);
    }
    BigEndianUnique(b);
    if IsReverse(order) {
      ReverseReverse(buf);
    }
  }

  /** Decoding in "reverse" order is decoding the reversed buffer in normal order. */
  lemma ReverseOrderIsReversedBuffer(buf: seq<byte>, numBytes: Width, signed: bool)
    ensures Deserialize(buf, numBytes, signed, "reverse") == Deserialize(Reverse(buf), numBytes, signed, "normal")
  {
  }

  /** inRange holds exactly for the values some n-byte buffer decodes to. */
  lemma InRangeIsRepresentable(value: int, numBytes: Width, signed: bool)
    ensures InRange(value, numBytes, signed)
        <==> exists b: seq<byte> :: |b| == numBytes && Deserialize(b, numBytes, signed, "normal") == Deserialized(value)
  {
    if InRange(value, numBytes, signed) {
      RoundTrip(value, numBytes, signed, "normal");
      var b := Serialize(value, numBytes, signed, "normal").bytes;
      assert |b| == numBytes && Deserialize(b, numBytes, signed, "normal") == Deserialized(value);
    }
  }

  /** The unsigned reading: the byte-weighted sum, below 2^(8n). */
  lemma UnsignedReading(buf: seq<byte>, numBytes: Width)
    requires |buf| == numBytes
    ensures Deserialize(buf, numBytes, false, "normal") == Deserialized(Unsigned(buf))
    ensures 0 <= Unsigned(buf) < Pow2(8 * numBytes)
  {
  }

  /** The signed reading subtracts 2^(8n) exactly when the unsigned reading is at least 2^(8n-1). */
  lemma SignedReading(buf: seq<byte>, numBytes: Width)
    requires |buf| == numBytes
    ensures Unsigned(buf) >= Pow2(8 * numBytes - 1)
        ==> Deserialize(buf, numBytes, true, "normal") == Deserialized(Unsigned(buf) - Pow2(8 * numBytes))
    ensures Unsigned(buf) < Pow2(8 * numBytes - 1)
        ==> Deserialize(buf, numBytes, true, "normal") == Deserialized(Unsigned(buf))
    ensures Deserialize(buf, numBytes, true, "normal").value < 0 <==> Unsigned(buf) >= Pow2(8 * numBytes - 1)
  {
    assert Pow2(8 * numBytes) == 2 * Pow2(8 * numBytes - 1);
  }

  // ---- Width wrappers. The 8-byte ones are not part of this model. ----

  function SerializeInt32(value: int, order: string): (r: SerializeResult)
    ensures r.Serialized? <==> -0x8000_0000 <= value <= 0x7fff_ffff
    ensures r.Serialized? ==> |r.bytes| == 4
  {
    Pow2Values();
    Serialize(value, 4, true, order)
  }

  function SerializeInt24(value: int, order: string): (r: SerializeResult)
    ensures r.Serialized? <==> -0x80_0000 <= value <= 0x7f_ffff
    ensures r.Serialized? ==> |r.bytes| == 3
  {
    Pow2Values();
    Serialize(value, 3, true, order)
  }

  function SerializeInt16(value: int, order: string): (r: SerializeResult)
    ensures r.Serialized? <==> -0x8000 <= value <= 0x7fff
    ensures r.Serialized? ==> |r.bytes| == 2
  {
    Pow2Values();
    Serialize(value, 2, true, order)
  }

  function SerializeInt8(value: int, order: string): (r: SerializeResult)
    ensures r.Serialized? <==> -0x80 <= value <= 0x7f
    ensures r.Serialized? ==> |r.bytes| == 1
  {
    Pow2Values();
    Serialize(value, 1, true, order)
  }

  function SerializeUInt8(value: int, order: string): (r: SerializeResult)
    ensures r.Serialized? <==> 0 <= value <= 0xff
    ensures r.Serialized? ==> r.bytes == [value as byte]
  {
    Pow2Values();
    Serialize(value, 1, false, order)
  }

  function SerializeUInt16(value: int, order: string): (r: SerializeResult)
    ensures r.Serialized? <==> 0 <= value <= 0xffff
    ensures r.Serialized? ==> |r.bytes| == 2
  {
    Pow2Values();
    Serialize(value, 2, false, order)
  }

  function SerializeUInt24(value: int, order: string): (r: SerializeResult)
    ensures r.Serialized? <==> 0 <= value <= 0xff_ffff
    ensures r.Serialized? ==> |r.bytes| == 3
  {
    Pow2Values();
    Serialize(value, 3, false, order)
  }

  function SerializeUInt32(value: int, order: string): (r: SerializeResult)
    ensures r.Serialized? <==> 0 <= value <= 0xffff_ffff
    ensures r.Serialized? ==> |r.bytes| == 4
  {
    Pow2Values();
    Serialize(value, 4, false, order)
  }

  /** DeserializeInt32 drops the error: a wrong-length buffer reads as 0. */
  function DeserializeInt32(buf: seq<byte>, order: string): (r: int)
    ensures |buf| != 4 ==> r == 0
    ensures -0x8000_0000 <= r <= 0x7fff_ffff
    ensures |buf| == 4 ==> Deserialize(buf, 4, true, order) == Deserialized(r)
  {
    Pow2Values();
    var d := Deserialize(buf, 4, true, order);
    if d.DeserializeValueError? then 0 else d.value
  }

  function DeserializeInt24(buf: seq<byte>, order: string): (r: DeserializeResult)
    ensures r.DeserializeValueError? <==> |buf| != 3
    ensures r.Deserialized? ==> -0x80_0000 <= r.value <= 0x7f_ffff
  {
    Pow2Values();
    Deserialize(buf, 3, true, order)
  }

  function DeserializeInt16(buf: seq<byte>, order: string): (r: DeserializeResult)
    ensures r.DeserializeValueError? <==> |buf| != 2
    ensures r.Deserialized? ==> -0x8000 <= r.value <= 0x7fff
  {
    Pow2Values();
    Deserialize(buf, 2, true, order)
  }

  function DeserializeInt8(buf: seq<byte>, order: string): (r: DeserializeResult)
    ensures r.DeserializeValueError? <==> |buf| != 1
    ensures r.Deserialized? ==> -0x80 <= r.value <= 0x7f
  {
    Pow2Values();
    Deserialize(buf, 1, true, order)
  }

  /** DeserializeUInt32 drops the error: a wrong-length buffer reads as 0. */
  function DeserializeUInt32(buf: seq<byte>, order: string): (r: int)
    ensures |buf| != 4 ==> r == 0
    ensures 0 <= r <= 0xffff_ffff
    ensures |buf| == 4 ==> Deserialize(buf, 4, false, order) == Deserialized(r)
  {
    Pow2Values();
    var d := Deserialize(buf, 4, false, order);
    if d.DeserializeValueError? then 0 else d.value
  }

  function DeserializeUInt24(buf: seq<byte>, order: string): (r: DeserializeResult)
    ensures r.DeserializeValueError? <==> |buf| != 3
    ensures r.Deserialized? ==> 0 <= r.value <= 0xff_ffff
  {
    Pow2Values();
    Deserialize(buf, 3, false, order)
  }

  function DeserializeUInt16(buf: seq<byte>, order: string): (r: DeserializeResult)
    ensures r.DeserializeValueError? <==> |buf| != 2
    ensures r.Deserialized? ==> 0 <= r.value <= 0xffff
    ensures |buf| == 2 && !IsReverse(order) ==> r == Deserialized(buf[0] as int * 256 + buf[1] as int)
  {
    Pow2Values();
    if |buf| == 2 then UnsignedPair(buf); Deserialize(buf, 2, false, order)
    else Deserialize(buf, 2, false, order)
  }

  function DeserializeUInt8(buf: seq<byte>, order: string): (r: DeserializeResult)
    ensures r.DeserializeValueError? <==> |buf| != 1
    ensures |buf| == 1 ==> r == Deserialized(buf[0] as int)
  {
    Pow2Values();
    Deserialize(buf, 1, false, order)
  }
}
