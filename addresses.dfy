/** The dotted-quad Address of pkg/tap/tap.go (and its copy in apps/decoder/services/decoder.go):
    a string "a.b.c.d" that stands for the 32-bit value with bytes a, b, c, d, most significant
    first. */
module Addresses {
  import opened Bytes
  import opened Text

  /** One dotted component: an Atoi numeral from 0 to 255. */
  function ComponentByte(part: string): Option<byte> {
    var n := Atoi(part);
    if n.Some? && 0 <= n.value <= 255 then Some(n.value as byte) else None
  }

  predicate ValidComponents(parts: seq<string>) {
    forall i :: 0 <= i < |parts| ==> ComponentByte(parts[i]).Some?
  }

  /** isValidIPv4: exactly four dot-separated components, each a numeral from 0 to 255. */
  predicate IsValidIPv4(s: string) {
    var parts := Split(s, '.');
    |parts| == 4 && ValidComponents(parts)
  }

  function ComponentBytes(parts: seq<string>): (b: seq<byte>)
    requires ValidComponents(parts)
    ensures |b| == |parts|
  {
    seq(|parts|, i requires 0 <= i < |parts| => ComponentByte(parts[i]).value)
  }

  /** The number of leading components that are valid: the loop of DumpToInteger stops at the
      first invalid one. */
  function ValidPrefix(parts: seq<string>): (k: nat)
    ensures k <= |parts| && ValidComponents(parts[..k])
    ensures k < |parts| ==> ComponentByte(parts[k]).None?
  {
    if parts == [] then 0
    else if ComponentByte(parts[0]).None? then 0
    else
      var k := 1 + ValidPrefix(parts[1..]);
      assert forall i :: 1 <= i < k ==> parts[..k][i] == parts[1..][..k - 1][i - 1];
      k
  }

  datatype DumpResult =
    | Dumped(value: nat)
    | InvalidFormat(address: string)
    | InvalidComponent(part: string)

  /** What DumpToInteger returns for an address string. */
  function Dump(s: string): (r: DumpResult)
    ensures r.Dumped? ==> r.value < 0x1_0000_0000
  {
    var parts := Split(s, '.');
    if |parts| != 4 then InvalidFormat(s)
    else
      var k := ValidPrefix(parts);
      if k < 4 then InvalidComponent(parts[k])
      else
        assert parts[..4] == parts;
        Pow2Values();
        Dumped(Unsigned(ComponentBytes(parts)))
  }

  /** Four bytes written with `%d.%d.%d.%d`. */
  function Dotted(b: seq<byte>): string
    requires |b| == 4
  {
    Join([Itoa(b[0] as nat), Itoa(b[1] as nat), Itoa(b[2] as nat), Itoa(b[3] as nat)], '.')
  }

  /** The bytes LoadFromInteger prints: `(x>>24)&0xFF`, `(x>>16)&0xFF`, `(x>>8)&0xFF`, `x&0xFF`. */
  function QuadBytes(x: int): (b: seq<byte>)
    requires 0 <= x <= 0xFFFF_FFFF
    ensures |b| == 4
  {
    [((x / 0x100_0000) % 0x100) as byte, ((x / 0x1_0000) % 0x100) as byte,
     ((x / 0x100) % 0x100) as byte, (x % 0x100) as byte]
  }

  /** The string LoadFromInteger stores. */
  function DottedQuad(x: int): string
    requires 0 <= x <= 0xFFFF_FFFF
  {
    Dotted(QuadBytes(x))
  }

  /** Go `int` arithmetic: a 64-bit two's-complement wrap. */
  function Wrap64(x: int): (r: int)
    ensures MinInt64 <= r <= MaxInt64
    ensures MinInt64 <= x <= MaxInt64 ==> r == x
  {
    (x - MinInt64) % 0x1_0000_0000_0000_0000 + MinInt64
  }

  /** What GetCmdID returns: `(Atoi(parts[1]) << 8) + atoi(parts[2])` with Atoi's errors
      ignored, or 0 when there are not four parts. */
  function CmdId(s: string): int {
    var parts := Split(s, '.');
    if |parts| != 4 then 0
    else Wrap64(Wrap64(AtoiValue(parts[1]) * 256) + AtoiValue(parts[2]))
  }

  // ---- The Address object ----

  class Address {
    var addressString: string

    /** `&Address{addressString}`: the string is stored without validation. */
    constructor (addressString: string)
      ensures this.addressString == addressString
    {
      this.addressString := addressString;
    }

    /** String returns the stored string. */
    function String(): string
      reads this
    {
      addressString
    }

    /** LoadFromInteger: integers outside [0, 0xFFFFFFFF] are refused and leave the address as
        it was; any other integer replaces the string by its dotted quad. */
    method LoadFromInteger(integer: int) returns (err: Option<int>)
      modifies this
      ensures err.Some? <==> integer < 0 || integer > 0xFFFF_FFFF
      ensures err.Some? ==> err.value == integer && addressString == old(addressString)
      ensures err.None? ==> addressString == DottedQuad(integer)
    {
      if integer < 0 || integer > 0xFFFF_FFFF {
        return Some(integer);
      }
      addressString := Join([Itoa((integer / 0x100_0000) % 0x100), Itoa((integer / 0x1_0000) % 0x100),
                             Itoa((integer / 0x100) % 0x100), Itoa(integer % 0x100)], '.');
      return None;
    }

    /** DumpToInteger: split on dots, require four parts, and fold each valid component into
        `result = (result << 8) + num`; the first invalid component is reported. */
    method DumpToInteger() returns (r: DumpResult)
      ensures r == Dump(addressString)
    {
      var parts := Split(addressString, '.');
      if |parts| != 4 {
        return InvalidFormat(addressString);
      }
      var result: nat := 0;
      for i := 0 to 4
        invariant ValidComponents(parts[..i])
        invariant result == Unsigned(ComponentBytes(parts[..i]))
      {
        var num := Atoi(parts[i]);
        if num.None? || num.value < 0 || num.value > 255 {
          FirstInvalid(parts, i);
          return InvalidComponent(parts[i]);
        }
        ComponentStep(parts, i);
        result := result * 256 + num.value;
      }
      FirstInvalid(parts, 4);
      assert parts[..4] == parts;
      return Dumped(result);
    }

    /** GetCmdID: for a valid address, the middle two bytes as one 16-bit number. */
    function GetCmdID(): (cmdID: int)
      reads this
      ensures IsValidIPv4(addressString) ==> cmdID == (Dump(addressString).value / 0x100) % 0x1_0000
    {
      CmdIdOfValid(addressString);
      CmdId(addressString)
    }
  }

  /** NewAddress: an Address only for a string that passes isValidIPv4. */
  method NewAddress(addressString: string) returns (a: Address?)
    ensures a == null <==> !IsValidIPv4(addressString)
    ensures a != null ==> fresh(a) && a.addressString == addressString
  {
    if !IsValidIPv4(addressString) {
      return null;
    }
    a := new Address(addressString);
  }

  /** One more valid component shifts the value up by a byte. */
  lemma ComponentStep(parts: seq<string>, i: nat)
    requires i < |parts| && ValidComponents(parts[..i]) && ComponentByte(parts[i]).Some?
    ensures ValidComponents(parts[..i + 1])
    ensures Unsigned(ComponentBytes(parts[..i + 1]))
         == Unsigned(ComponentBytes(parts[..i])) * 256 + ComponentByte(parts[i]).value as int
  {
    var before := ComponentBytes(parts[..i]);
    assert ComponentBytes(parts[..i + 1]) == before + [ComponentByte(parts[i]).value];
    assert (before + [ComponentByte(parts[i]).value])[..i] == before;
  }

  /** The loop of DumpToInteger stops where ValidPrefix says. */
  lemma {:induction false} FirstInvalid(parts: seq<string>, i: nat)
    requires i <= |parts| && ValidComponents(parts[..i])
    requires i < |parts| ==> ComponentByte(parts[i]).None?
    ensures ValidPrefix(parts) == i
  {
    if i > 0 {
      assert parts[..i][0] == parts[0];
      var tail, prefix := parts[1..][..i - 1], parts[..i];
      assert forall j :: 0 <= j < i - 1 ==> tail[j] == prefix[j + 1];
      FirstInvalid(parts[1..], i - 1);
    }
  }

  // ---- Properties ----

  /** The components of a dotted string are the decimal strings of its bytes. */
  lemma DottedParts(b: seq<byte>)
    requires |b| == 4
    ensures Split(Dotted(b), '.') == [Itoa(b[0] as nat), Itoa(b[1] as nat), Itoa(b[2] as nat), Itoa(b[3] as nat)]
  {
    var parts := [Itoa(b[0] as nat), Itoa(b[1] as nat), Itoa(b[2] as nat), Itoa(b[3] as nat)];
    forall i | 0 <= i < 4 ensures '.' !in parts[i] {
      assert IsDigits(parts[i]);
    }
    SplitJoin(parts, '.');
  }

  /** A dotted string of four bytes is a valid address whose value is the bytes, big-endian. */
  lemma DumpDotted(b: seq<byte>)
    requires |b| == 4
    ensures IsValidIPv4(Dotted(b))
    ensures Dump(Dotted(b)) == Dumped(Unsigned(b))
  {
    DottedParts(b);
    var parts := Split(Dotted(b), '.');
    forall i | 0 <= i < 4 ensures ComponentByte(parts[i]) == Some(b[i]) {
      AtoiItoa(b[i] as nat);
    }
    assert ComponentBytes(parts) == b;
  }

  /** The four printed bytes are the big-endian encoding of the integer. */
  lemma QuadIsBigEndian(x: int)
    requires 0 <= x <= 0xFFFF_FFFF
    ensures x < Pow2(32) && QuadBytes(x) == BigEndian(x, 4)
  {
    Pow2Values();
    assert Pow2(0) == 1;
    BigEndianAt(x, 4, 0);
    BigEndianAt(x, 4, 1);
    BigEndianAt(x, 4, 2);
    BigEndianAt(x, 4, 3);
  }

  /** The bytes LoadFromInteger prints for the value of four bytes are those bytes. */
  lemma QuadOfBytes(b: seq<byte>)
    requires |b| == 4
    ensures Unsigned(b) <= 0xFFFF_FFFF && QuadBytes(Unsigned(b)) == b
  {
    Pow2Values();
    QuadIsBigEndian(Unsigned(b));
    BigEndianUnique(b);
  }

  /** Load/dump round trip: an accepted integer becomes a valid address that dumps back to it. */
  lemma LoadDumpRoundTrip(x: int)
    requires 0 <= x <= 0xFFFF_FFFF
    ensures IsValidIPv4(DottedQuad(x))
    ensures Dump(DottedQuad(x)) == Dumped(x)
  {
    QuadIsBigEndian(x);
    DumpDotted(QuadBytes(x));
  }

  /** DumpToInteger succeeds on exactly the strings isValidIPv4 accepts. */
  lemma ValidIffDumps(s: string)
    ensures IsValidIPv4(s) <==> Dump(s).Dumped?
  {
    var parts := Split(s, '.');
    if |parts| == 4 && ValidComponents(parts) {
      assert parts[..4] == parts;
    }
  }

  /** The value of four bytes, written out. */
  lemma UnsignedFour(b: seq<byte>)
    requires |b| == 4
    ensures Unsigned(b) == ((b[0] as int * 256 + b[1] as int) * 256 + b[2] as int) * 256 + b[3] as int
  {
    assert b[..3][..2][..1][..0] == [];
    assert b[..3][..2][..1] == [b[0]];
    assert b[..3][..2] == [b[0], b[1]];
  }

  /** For a valid address GetCmdID reads the two middle bytes: `(value >> 8) & 0xFFFF`. */
  lemma CmdIdOfValid(s: string)
    ensures IsValidIPv4(s) ==> CmdId(s) == (Dump(s).value / 0x100) % 0x1_0000
  {
    if IsValidIPv4(s) {
      var parts := Split(s, '.');
      ValidIffDumps(s);
      assert parts[..4] == parts;
      var b := ComponentBytes(parts);
      UnsignedFour(b);
      var mid := b[1] as int * 256 + b[2] as int;
      var hi := (b[0] as int * 256 + b[1] as int) * 256 + b[2] as int;
      DivModUnique(Unsigned(b), 256, hi, b[3] as int);
      DivModUnique(hi, 0x1_0000, b[0] as int, mid);
      assert AtoiValue(parts[1]) == b[1] as int && AtoiValue(parts[2]) == b[2] as int;
    }
  }
}
