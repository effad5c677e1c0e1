/** The TAP packet of pkg/tap/tap.go (and its copy, with the same Deserialize, in
    apps/decoder/services): a 0xAA marker, the big-endian source and destination addresses,
    the two ports, the data length, the data and a big-endian CRC-16/XMODEM.

    Go slices are modelled as a window on a shared array: `buf[lo:hi]` with capacity up to
    `max`. Deserialize may read past `hi` (Go slicing allows it up to the capacity), and its
    padding `append` writes into the array, so a caller sees that write. */
module Tap {
  import opened Bytes
  import opened Text
  import opened Crc16
  import opened Addresses

  const TapStartByte: byte := 0xAA

  /** The observable contents of a TAPPacket: addresses by their strings (None for a nil address),
      ports, length and data. */
  datatype TapValue = TapValue(
    srcAddr: Option<string>,
    srcPort: byte,
    destAddr: Option<string>,
    destPort: byte,
    dataLen: byte,
    data: seq<byte>)

  /** The zero value `var tapPacket TAPPacket`. */
  const ZeroValue := TapValue(None, 0, None, 0, 0, [])

  datatype DecodeError =
    | ShortBuffer
    | CrcError(computed: nat, inPacket: nat)

  // ---- Serialize ----

  /** An address as Serialize writes it: four bytes, most significant first. */
  function AddressField(x: nat): (f: seq<byte>)
    requires x < 0x1_0000_0000
    ensures |f| == 4 && Unsigned(f) == x
  {
    Pow2Values();
    BigEndian(x, 4)
  }

  /** The CRC field after the data: the padded CRC of the framed bytes, high byte first. */
  function CrcField(framed: seq<byte>): (f: seq<byte>)
    ensures |f| == 2 && Unsigned(f) == PaddedCrc(framed)
  {
    Pow2Values();
    BigEndian(PaddedCrc(framed), 2)
  }

  /** The bytes between the marker and the CRC: the addresses, the ports, the length byte and
      the data. */
  function Framed(src: nat, dest: nat, srcPort: byte, destPort: byte, dataLen: byte, data: seq<byte>): seq<byte>
    requires src < 0x1_0000_0000 && dest < 0x1_0000_0000
  {
    AddressField(src) + AddressField(dest) + [srcPort, destPort, dataLen] + data
  }

  /** The bytes Serialize produces for the given address values, ports, length and data: the
      CRC covers every byte after the marker, zero-padded to even length. */
  function Encode(src: nat, dest: nat, srcPort: byte, destPort: byte, dataLen: byte, data: seq<byte>): seq<byte>
    requires src < 0x1_0000_0000 && dest < 0x1_0000_0000
  {
    var framed := Framed(src, dest, srcPort, destPort, dataLen, data);
    [TapStartByte] + framed + CrcField(framed)
  }

  /** The value Serialize uses for an address: DumpToInteger's, or 0 when it fails. */
  function AddressValue(s: string): (v: nat)
    ensures v < 0x1_0000_0000
  {
    var d := Dump(s);
    if d.Dumped? then d.value else 0
  }

  // ---- Deserialize ----

  /** `uint8(len(buf)-16) > DataLen`: the test that guards the data and the CRC check, in 8-bit
      arithmetic, so it wraps for buffers shorter than 16 bytes. */
  predicate CrcChecked(len: nat, dataLen: byte) {
    (len - 16) % 256 > dataLen as int
  }

  /** The inputs on which Deserialize does not panic, for a window `w` (the slice up to its
      capacity) and a slice length `len`: when the guarded branch runs, `11+DataLen` and
      `13+DataLen` do not wrap around and the data and stored CRC lie within the capacity. */
  predicate CanDeserialize(w: seq<byte>, len: nat) {
    len <= |w| && (len >= 13 && CrcChecked(len, w[10]) ==> w[10] <= 242 && 13 + w[10] as int <= |w|)
  }

  /** The address string of four big-endian bytes, as `LoadFromInteger` stores it. */
  function AddressOf(b: seq<byte>): string
    requires |b| == 4
  {
    Dotted(b)
  }

  /** The CRC stored after the data, read big-endian. */
  function StoredCrc(w: seq<byte>, dataLen: byte): nat
    requires 13 + dataLen as int <= |w|
  {
    w[11 + dataLen as int] as nat * 256 + w[12 + dataLen as int] as nat
  }

  /** The CRC of the header and data. */
  function ComputedCrc(w: seq<byte>, dataLen: byte): nat
    requires 11 + dataLen as int <= |w|
  {
    PaddedCrc(w[..11 + dataLen as int])
  }

  /** The packet Deserialize leaves, starting from packet `p`: unchanged for a short buffer;
      otherwise the header fields, and the data only when the length test passes. */
  function Deserialized(p: TapValue, w: seq<byte>, len: nat): TapValue
    requires CanDeserialize(w, len)
  {
    if len < 13 then p
    else
      var dl := w[10];
      TapValue(Some(AddressOf(w[0..4])), w[8], Some(AddressOf(w[4..8])), w[9], dl,
               if CrcChecked(len, dl) then w[11..11 + dl as int] else p.data)
  }

  /** The error Deserialize returns: a short buffer, or CRCs that differ when the length test
      passes. */
  function DeserializeError(w: seq<byte>, len: nat): Option<DecodeError>
    requires CanDeserialize(w, len)
  {
    if len < 13 then Some(ShortBuffer)
    else if !CrcChecked(len, w[10]) then None
    else
      var dl := w[10];
      if ComputedCrc(w, dl) != StoredCrc(w, dl) then Some(CrcError(ComputedCrc(w, dl), StoredCrc(w, dl)))
      else None
  }

  /** The offset in the window that Deserialize sets to 0: the `append` that pads an odd
      header-and-data span writes into the shared array, over the first stored CRC byte. */
  function PadWrite(w: seq<byte>, len: nat): Option<nat>
    requires CanDeserialize(w, len)
  {
    if len >= 13 && CrcChecked(len, w[10]) && (11 + w[10] as int) % 2 == 1 then Some(11 + w[10] as nat)
    else None
  }

  /** The shared array `a` after Deserialize of the window `w` starting at `lo`. */
  function PadBuffer(a: seq<byte>, lo: nat, w: seq<byte>, len: nat): seq<byte>
    requires CanDeserialize(w, len) && lo + |w| <= |a|
  {
    var z := PadWrite(w, len);
    if z.Some? then a[lo + z.value := 0] else a
  }

  class TapPacket {
    var srcAddr: Address?
    var srcPort: byte
    var destAddr: Address?
    var destPort: byte
    var dataLen: byte
    var data: seq<byte>

    function Value(): TapValue
      reads this, srcAddr, destAddr
    {
      TapValue(
        if srcAddr == null then None else Some(srcAddr.addressString), srcPort,
        if destAddr == null then None else Some(destAddr.addressString), destPort,
        dataLen, data)
    }

    /** The zero value: nil addresses, zero ports and length, nil data. */
    constructor Zero()
      ensures Value() == ZeroValue
    {
      srcAddr, srcPort, destAddr, destPort, dataLen, data := null, 0, null, 0, 0, [];
    }

    /** NewTAPPacket: two fresh empty addresses. */
    constructor ()
      ensures Value() == TapValue(Some(""), 0, Some(""), 0, 0, [])
      ensures fresh(srcAddr) && fresh(destAddr) && srcAddr != destAddr
    {
      srcAddr := new Address("");
      destAddr := new Address("");
      srcPort, destPort, dataLen, data := 0, 0, 0, [];
    }

    /** Serialize: the marker, the two addresses as DumpToInteger reads them (0 when it fails),
        the ports, the length byte and the data as they are (the length byte is not checked
        against the data), then the CRC of everything after the marker. */
    method Serialize() returns (buf: seq<byte>)
      requires srcAddr != null && destAddr != null
      ensures buf == Encode(AddressValue(srcAddr.addressString), AddressValue(destAddr.addressString),
                            srcPort, destPort, dataLen, data)
    {
      var dumped := srcAddr.DumpToInteger();
      var srcAddrNum := if dumped.Dumped? then dumped.value else 0;
      dumped := destAddr.DumpToInteger();
      var destAddrNum := if dumped.Dumped? then dumped.value else 0;

      buf := [170];
      buf := AppendAddress(buf, srcAddrNum);
      buf := AppendAddress(buf, destAddrNum);
      buf := buf + [srcPort];
      buf := buf + [destPort];
      buf := buf + [dataLen];
      buf := buf + data;
      Regrouped(AddressField(srcAddrNum), AddressField(destAddrNum), srcPort, destPort, dataLen, data);
      buf := AppendCrc(buf);
      assert srcAddrNum == AddressValue(srcAddr.addressString);
      assert destAddrNum == AddressValue(destAddr.addressString);
    }

    /** Deserialize `buf[lo:hi]` (capacity up to `max`) into this packet: short buffers are
        refused and change nothing; otherwise the addresses, ports and length are set, and
        when the wrapping length test passes, the data is taken and the CRC checked. */
    method Deserialize(buf: array<byte>, lo: nat, hi: nat, max: nat) returns (err: Option<DecodeError>)
      requires lo <= hi <= max <= buf.Length
      requires CanDeserialize(buf[lo..max], hi - lo)
      modifies this, buf
      ensures Value() == Deserialized(old(Value()), old(buf[lo..max]), hi - lo)
      ensures err == DeserializeError(old(buf[lo..max]), hi - lo)
      ensures buf[..] == PadBuffer(old(buf[..]), lo, old(buf[lo..max]), hi - lo)
    {
      ghost var w := buf[lo..max];
      ghost var p := Value();
      ghost var before := buf[..];
      var len := hi - lo;
      if len < 13 {
        return Some(ShortBuffer);
      }
      LoadHeader(buf, lo, w);
      // The trailing four bytes (the DCU number) are only printed.
      if (len - 16) % 256 > dataLen as int {
        var dl := dataLen as int;
        data := buf[lo + 11 .. lo + 11 + dl];
        assert data == w[11..11 + dl];
        assert buf[..] == before;
        err := CheckCrc(buf, lo, len, dataLen, w);
        return err;
      }
      assert PadWrite(w, len).None?;
      assert buf[..] == before;
      return None;
    }

    /** The fields Deserialize reads from the first eleven bytes: the addresses through
        `NewAddress("0.0.0.0")` and `LoadFromInteger` of the big-endian values, the ports and
        the length byte. */
    method LoadHeader(buf: array<byte>, lo: nat, ghost w: seq<byte>)
      requires 11 <= |w| && lo + |w| <= buf.Length && buf[lo..lo + |w|] == w
      modifies this
      ensures fresh(srcAddr) && fresh(destAddr)
      ensures srcAddr.addressString == AddressOf(w[0..4]) && destAddr.addressString == AddressOf(w[4..8])
      ensures srcPort == w[8] && destPort == w[9] && dataLen == w[10]
      ensures data == old(data)
    {
      assert forall i :: 0 <= i < |w| ==> buf[lo + i] == w[i];
      assert buf[lo..lo + 4] == w[0..4] && buf[lo + 4..lo + 8] == w[4..8];
      srcAddr := LoadAddress(buf, lo, w[0..4]);
      destAddr := LoadAddress(buf, lo + 4, w[4..8]);
      srcPort := buf[lo + 8];
      destPort := buf[lo + 9];
      dataLen := buf[lo + 10];
    }
  }

  /** One address of Deserialize: `NewAddress("0.0.0.0")`, then `LoadFromInteger` of the
      four bytes at `at`, most significant first; neither can fail. */
  method LoadAddress(buf: array<byte>, at: nat, ghost b: seq<byte>) returns (a: Address)
    requires at + 4 <= buf.Length && buf[at..at + 4] == b
    ensures fresh(a) && a.addressString == AddressOf(b)
  {
    var addrNum := buf[at] as int * 0x100_0000 + buf[at + 1] as int * 0x1_0000
                   + buf[at + 2] as int * 0x100 + buf[at + 3] as int;
    UnsignedFour(b);
    ZeroAddressIsValid();
    var zero := NewAddress("0.0.0.0");
    var loaded := zero.LoadFromInteger(addrNum);
    assert loaded.None?;   // a four-byte value is always in range
    QuadOfBytes(b);
    a := zero;
  }

  /** The CRC check of Deserialize on the window `w` starting at `lo`: the stored CRC is read
      big-endian after the data; an odd header-and-data span is padded by an `append` that
      writes a zero over the first stored CRC byte in the shared array. */
  method CheckCrc(buf: array<byte>, lo: nat, ghost len: nat, dataLen: byte, ghost w: seq<byte>)
    returns (err: Option<DecodeError>)
    requires lo + |w| <= buf.Length && buf[lo..lo + |w|] == w
    requires CanDeserialize(w, len) && len >= 13 && CrcChecked(len, dataLen) && w[10] == dataLen
    modifies buf
    ensures err == DeserializeError(w, len)
    ensures buf[..] == PadBuffer(old(buf[..]), lo, w, len)
  {
    var dl := dataLen as int;
    var crcInPacket := buf[lo + 11 + dl] as int * 256 + buf[lo + 12 + dl] as int;
    assert forall i :: 0 <= i < |w| ==> buf[lo + i] == w[i];
    assert crcInPacket == StoredCrc(w, dataLen);
    var crcBytes: seq<byte>;
    if (11 + dl) % 2 != 0 {
      buf[lo + 11 + dl] := 0;
      crcBytes := buf[lo..lo + 12 + dl];
      assert crcBytes == w[..11 + dl] + [0];
    } else {
      crcBytes := buf[lo..lo + 11 + dl];
      assert crcBytes == w[..11 + dl];
    }
    assert crcBytes == PadEven(w[..11 + dl]);
    var crcComputed := Crc16UsingPolynomial(Octets(crcBytes));
    assert crcComputed as nat == ComputedCrc(w, dataLen);
    if crcComputed as int != crcInPacket {
      return Some(CrcError(crcComputed as int, crcInPacket));
    }
    return None;
  }

  /** The four `append`s of an address, most significant byte first. */
  method AppendAddress(buf: seq<byte>, x: nat) returns (r: seq<byte>)
    requires x <= 0xFFFF_FFFF
    ensures r == buf + AddressField(x)
  {
    r := buf + [((x / 0x100_0000) % 0x100) as byte];
    r := r + [((x / 0x1_0000) % 0x100) as byte];
    r := r + [((x / 0x100) % 0x100) as byte];
    r := r + [(x % 0x100) as byte];
    assert r == buf + QuadBytes(x);
    QuadIsBigEndian(x);
  }

  /** The CRC `append`s of Serialize: the bytes after the marker, padded with a zero byte
      to even length, through the bitwise CRC, high byte first. */
  method AppendCrc(buf: seq<byte>) returns (r: seq<byte>)
    requires |buf| >= 1
    ensures r == buf + CrcField(buf[1..])
  {
    var crcBytes := buf[1..];
    if |buf[1..]| % 2 != 0 {
      crcBytes := crcBytes + [0];
    }
    assert crcBytes == PadEven(buf[1..]);
    var crc := Crc16UsingPolynomial(Octets(crcBytes));
    CrcBytes(crc as int);
    r := buf + [((crc as int) / 256) as byte, ((crc as int) % 256) as byte];
  }

  /** The appends of Serialize, one at a time, give the marker and the framed bytes. */
  lemma Regrouped(src: seq<byte>, dest: seq<byte>, srcPort: byte, destPort: byte, dataLen: byte, data: seq<byte>)
    ensures [170] + src + dest + [srcPort] + [destPort] + [dataLen] + data
         == [TapStartByte] + (src + dest + [srcPort, destPort, dataLen] + data)
  {
  }

  /** The two CRC bytes Serialize appends are the big-endian encoding of the CRC. */
  lemma CrcBytes(crc: nat)
    requires crc < 0x1_0000
    ensures crc < Pow2(16) && [(crc / 256) as byte, (crc % 256) as byte] == BigEndian(crc, 2)
  {
    Pow2Values();
    var pair := [(crc / 256) as byte, (crc % 256) as byte];
    UnsignedPair(pair);
    BigEndianUnique(pair);
  }

  /** The address Deserialize starts from, "0.0.0.0", passes isValidIPv4, so NewAddress
      never fails there. */
  lemma ZeroAddressIsValid()
    ensures IsValidIPv4("0.0.0.0")
  {
    var parts := [Itoa(0), Itoa(0), Itoa(0), Itoa(0)];
    assert Itoa(0) == "0";
    assert Join(parts[3..], '.') == "0";
    assert Join(parts[2..], '.') == "0.0";
    assert Join(parts[1..], '.') == "0.0.0";
    assert Dotted([0, 0, 0, 0]) == Join(parts, '.') == "0.0.0.0";
    DumpDotted([0, 0, 0, 0]);
  }

  // ---- TapDecode ----

  /** Where the TAP packet starts: at the marker in byte 0, or at byte 18 when byte 18 is the
      marker and byte 16 is 16; None when neither holds. */
  function TapStart(w: seq<byte>, len: nat): Option<nat>
    requires 1 <= len <= |w| && (w[0] != TapStartByte ==> len >= 19)
  {
    if w[0] == TapStartByte then Some(0)
    else if w[18] == TapStartByte && w[16] == 16 then Some(18)
    else None
  }

  /** The inputs on which TapDecode does not panic. */
  predicate TapDecodable(w: seq<byte>, len: nat) {
    1 <= len <= |w| && (w[0] != TapStartByte ==> len >= 19)
    && var s := TapStart(w, len);
       s.Some? ==> CanDeserialize(w[s.value + 1..], len - s.value - 1)
  }

  /** TapDecode: find the marker, deserialize what follows it into a zero packet; errors are
      only logged, so the packet is returned in every case. */
  method TapDecode(buffer: array<byte>, lo: nat, hi: nat, max: nat) returns (p: TapPacket)
    requires lo <= hi <= max <= buffer.Length
    requires TapDecodable(buffer[lo..max], hi - lo)
    modifies buffer
    ensures var s := TapStart(old(buffer[lo..max]), hi - lo);
      fresh(p) && p.Value() == if s.None? then ZeroValue
                               else Deserialized(ZeroValue, old(buffer[lo + s.value + 1..max]), hi - (lo + s.value + 1))
    ensures var s := TapStart(old(buffer[lo..max]), hi - lo);
      buffer[..] == if s.None? then old(buffer[..])
                    else PadBuffer(old(buffer[..]), lo + s.value + 1, old(buffer[lo + s.value + 1..max]), hi - (lo + s.value + 1))
  {
    ghost var w := buffer[lo..max];
    ghost var before := buffer[..];
    var start := lo;
    var startByte := buffer[lo];
    p := new TapPacket.Zero();
    if startByte != TapStartByte {
      if !(buffer[lo + 18] == TapStartByte && buffer[lo + 16] == 16) {
        assert TapStart(w, hi - lo).None?;
        assert buffer[..] == before;
        return p;
      } else {
        start := lo + 18;
      }
    }
    assert TapStart(w, hi - lo) == Some(start - lo);
    assert buffer[start + 1..max] == w[start - lo + 1..];
    assert buffer[..] == before;
    var _ := p.Deserialize(buffer, start + 1, hi, max);
  }

  // ---- convertBitMaskCode ----

  /** Bit k (0 = least significant) of a byte: `(b >> k) & 0x01`. */
  function Bit(b: byte, k: nat): (v: nat)
    requires k < 8
    ensures v < 2
  {
    (b as int / Pow2(k)) % 2
  }

  /** Character k of the bit-mask string: bit 7 - (k mod 8) of byte k / 8, most significant
      bit first, or bit k mod 8 when `reverse` is set; printed with `%d`. */
  function BitMaskChar(bitMask: seq<byte>, k: nat, reverse: bool): (c: char)
    requires k < 8 * |bitMask|
    ensures c == '0' || c == '1'
  {
    var v := if reverse then Bit(bitMask[k / 8], k % 8) else Bit(bitMask[k / 8], 7 - k % 8);
    DigitChar(v)
  }

  /** convertBitMaskCode with the length already converted to an int: one '0' or '1' per bit,
      for the first `bitMaskPktLen` bits of the mask. */
  method ConvertBitMaskCode(bitMaskPktLen: int, bitMask: seq<byte>, reverse: bool) returns (bitMaskString: string)
    requires bitMaskPktLen <= 8 * |bitMask|
    ensures |bitMaskString| == if bitMaskPktLen < 0 then 0 else bitMaskPktLen
    ensures forall k :: 0 <= k < |bitMaskString| ==> bitMaskString[k] == BitMaskChar(bitMask, k, reverse)
  {
    var shiftCount := 0;
    bitMaskString := "";
    while shiftCount < bitMaskPktLen
      invariant 0 <= shiftCount <= (if bitMaskPktLen < 0 then 0 else bitMaskPktLen)
      invariant |bitMaskString| == shiftCount
      invariant forall k :: 0 <= k < shiftCount ==> bitMaskString[k] == BitMaskChar(bitMask, k, reverse)
      decreases bitMaskPktLen - shiftCount
    {
      var byteIndex := shiftCount / 8;
      var bitOffset := shiftCount % 8;
      var value: nat;
      if reverse {
        value := (bitMask[byteIndex] as int / Pow2(bitOffset)) % 2;
      } else {
        value := (bitMask[byteIndex] as int / Pow2(7 - bitOffset)) % 2;
      }
      bitMaskString := bitMaskString + [DigitChar(value)];
      shiftCount := shiftCount + 1;
    }
  }

  /** Reversed order reads each byte's bits mirrored: character k in reverse order is
      character 8(k/8) + 7 - k mod 8 in normal order. */
  lemma ReverseMirrorsBits(bitMask: seq<byte>, k: nat)
    requires k < 8 * |bitMask|
    ensures BitMaskChar(bitMask, k, true) == BitMaskChar(bitMask, 8 * (k / 8) + 7 - k % 8, false)
  {
    var m := 8 * (k / 8) + 7 - k % 8;
    DivModUnique(m, 8, k / 8, 7 - k % 8);
  }

  /** The binary value of a string of '0' and '1', most significant first. */
  function BinaryValue(s: string): nat {
    if s == [] then 0
    else BinaryValue(s[..|s| - 1]) * 2 + (if s[|s| - 1] == '1' then 1 else 0)
  }

  /** The eight normal-order characters of a byte spell it in binary: the string is the mask,
      bit for bit. */
  lemma BitsSpellByte(bitMask: seq<byte>, j: nat)
    requires j < |bitMask|
    ensures BinaryValue(seq(8, i requires 0 <= i < 8 => BitMaskChar(bitMask, 8 * j + i, false))) == bitMask[j] as int
  {
    var s := seq(8, i requires 0 <= i < 8 => BitMaskChar(bitMask, 8 * j + i, false));
    BitsPrefix(bitMask, j, 8);
    assert s[..8] == s;
    assert Pow2(0) == 1;
  }

  /** The first m characters of byte j's bits spell its top m bits. */
  lemma {:induction false} BitsPrefix(bitMask: seq<byte>, j: nat, m: nat)
    requires j < |bitMask| && m <= 8
    ensures BinaryValue(seq(8, i requires 0 <= i < 8 => BitMaskChar(bitMask, 8 * j + i, false))[..m])
         == bitMask[j] as int / Pow2(8 - m)
  {
    var s := seq(8, i requires 0 <= i < 8 => BitMaskChar(bitMask, 8 * j + i, false));
    var b := bitMask[j] as int;
    if m == 0 {
      assert Pow2(8) == 256;
    } else {
      var p := Pow2(8 - m);
      BitsPrefix(bitMask, j, m - 1);
      assert s[..m][..m - 1] == s[..m - 1];
      var k := 8 * j + (m - 1);
      DivModUnique(k, 8, j, m - 1);
      assert s[m - 1] == BitMaskChar(bitMask, k, false);
      assert s[m - 1] == DigitChar(Bit(bitMask[j], 8 - m));
      assert Pow2(8 - (m - 1)) == 2 * p;
      DivHalf(b, p);
      HalfStep(b / p);
    }
  }

  /** Halving after dividing by p is dividing by 2p. */
  lemma DivHalf(v: int, p: int)
    requires p > 0
    ensures (v / p) / 2 == v / (2 * p)
  {
    var q, r := v / p, v % p;
    var a, b := q / 2, q % 2;
    assert v == (2 * p) * a + (p * b + r) by {
      assert q == 2 * a + b;
      assert v == p * q + r;
    }
    assert p * b + r < 2 * p by {
      assert b <= 1;
    }
    DivModUnique(v, 2 * p, a, p * b + r);
  }

  /** A number is twice its half plus its low bit. */
  lemma HalfStep(x: int)
    ensures (x / 2) * 2 + x % 2 == x
  {
  }

  // ---- Properties ----

  /** Serialize emits 14 bytes plus the data: the marker, the two addresses big-endian, the
      ports and length, the data, and the big-endian CRC of everything after the marker. */
  lemma EncodeLayout(src: nat, dest: nat, srcPort: byte, destPort: byte, dataLen: byte, data: seq<byte>)
    requires src < 0x1_0000_0000 && dest < 0x1_0000_0000
    ensures var e := Encode(src, dest, srcPort, destPort, dataLen, data);
      |e| == 14 + |data| && e[0] == TapStartByte
      && Unsigned(e[1..5]) == src && Unsigned(e[5..9]) == dest
      && e[9] == srcPort && e[10] == destPort && e[11] == dataLen && e[12..12 + |data|] == data
      && Unsigned(e[12 + |data|..]) == PaddedCrc(e[1..12 + |data|])
  {
    var framed := Framed(src, dest, srcPort, destPort, dataLen, data);
    FieldsAt(AddressField(src), AddressField(dest), srcPort, destPort, dataLen, data, CrcField(framed));
  }

  /** Where each field of a marker, framed bytes and CRC field sits. */
  lemma FieldsAt(src: seq<byte>, dest: seq<byte>, srcPort: byte, destPort: byte, dataLen: byte, data: seq<byte>,
                 crc: seq<byte>)
    requires |src| == 4 && |dest| == 4 && |crc| == 2
    ensures var framed := src + dest + [srcPort, destPort, dataLen] + data;
      var e, n := [TapStartByte] + framed + crc, |data|;
      |e| == 14 + n && e[0] == TapStartByte && e[1..5] == src && e[5..9] == dest
      && e[9] == srcPort && e[10] == destPort && e[11] == dataLen && e[12..12 + n] == data
      && e[1..12 + n] == framed && e[12 + n..] == crc
  {
  }

  /** The guard in 8-bit arithmetic: from 16 to 271 bytes it is `len - 16 > DataLen`, but a
      buffer shorter than 16 bytes wraps around and passes it for almost every DataLen. */
  lemma GuardWraps(len: nat, dataLen: byte)
    ensures 16 <= len < 272 ==> (CrcChecked(len, dataLen) <==> len - 16 > dataLen as int)
    ensures len < 16 ==> (CrcChecked(len, dataLen) <==> len + 240 > dataLen as int)
  {
    if len < 16 {
      DivModUnique(len - 16, 256, -1, len + 240);
    } else if len < 272 {
      DivModUnique(len - 16, 256, 0, len - 16);
    }
  }

  /** Round trip: the bytes Serialize writes after the marker, followed by the four-byte DCU
      number the decoder expects, deserialize to the same fields with a matching CRC, as long
      as the length byte is the data length and at most 242. */
  lemma SerializeDeserializeRoundTrip(p: TapValue, src: nat, dest: nat, srcPort: byte, destPort: byte,
                                      data: seq<byte>, dcuNumber: seq<byte>)
    requires src < 0x1_0000_0000 && dest < 0x1_0000_0000
    requires |data| <= 242 && |dcuNumber| == 4
    ensures var w := Encode(src, dest, srcPort, destPort, |data| as byte, data)[1..] + dcuNumber;
      CanDeserialize(w, |w|) && DeserializeError(w, |w|).None?
      && Deserialized(p, w, |w|)
         == TapValue(Some(DottedQuad(src)), srcPort, Some(DottedQuad(dest)), destPort, |data| as byte, data)
  {
    var dl := |data| as byte;
    var e := Encode(src, dest, srcPort, destPort, dl, data);
    var w := e[1..] + dcuNumber;
    EncodeLayout(src, dest, srcPort, destPort, dl, data);
    WindowOfEncoding(e, dcuNumber, src, dest, srcPort, destPort, data);
    LayoutDeserializes(p, w, src, dest, srcPort, destPort, data);
  }

  /** Dropping the marker and appending the DCU number moves every field one byte down. */
  lemma WindowOfEncoding(e: seq<byte>, dcuNumber: seq<byte>, src: nat, dest: nat, srcPort: byte, destPort: byte,
                         data: seq<byte>)
    requires |e| == 14 + |data| && |data| <= 242 && |dcuNumber| == 4
    requires Unsigned(e[1..5]) == src && Unsigned(e[5..9]) == dest
    requires e[9] == srcPort && e[10] == destPort && e[11] as int == |data| && e[12..12 + |data|] == data
    requires Unsigned(e[12 + |data|..]) == PaddedCrc(e[1..12 + |data|])
    ensures var w, n := e[1..] + dcuNumber, |data|;
      |w| == 17 + n && Unsigned(w[0..4]) == src && Unsigned(w[4..8]) == dest
      && w[8] == srcPort && w[9] == destPort && w[10] as int == n && w[11..11 + n] == data
      && Unsigned(w[11 + n..13 + n]) == PaddedCrc(w[..11 + n])
  {
    var w, n := e[1..] + dcuNumber, |data|;
    assert w[0..4] == e[1..5] && w[4..8] == e[5..9];
    assert w[11..11 + n] == e[12..12 + n];
    assert w[..11 + n] == e[1..12 + n];
    assert w[11 + n..13 + n] == e[12 + n..];
  }

  /** A window laid out as Serialize writes it, with four more bytes, passes the length test
      and the CRC check. */
  lemma LayoutDeserializes(p: TapValue, w: seq<byte>, src: nat, dest: nat, srcPort: byte, destPort: byte,
                           data: seq<byte>)
    requires |data| <= 242 && |w| == 17 + |data| && src < 0x1_0000_0000 && dest < 0x1_0000_0000
    requires Unsigned(w[0..4]) == src && Unsigned(w[4..8]) == dest
    requires w[8] == srcPort && w[9] == destPort && w[10] as int == |data| && w[11..11 + |data|] == data
    requires Unsigned(w[11 + |data|..13 + |data|]) == PaddedCrc(w[..11 + |data|])
    ensures CanDeserialize(w, |w|) && DeserializeError(w, |w|).None?
      && Deserialized(p, w, |w|)
         == TapValue(Some(DottedQuad(src)), srcPort, Some(DottedQuad(dest)), destPort, |data| as byte, data)
  {
    DivModUnique(|w| - 16, 256, 0, |data| + 1);
    QuadOfBytes(w[0..4]);
    QuadOfBytes(w[4..8]);
    UnsignedPair(w[11 + |data|..13 + |data|]);
  }
}
