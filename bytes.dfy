/** Bytes, big-endian byte strings and the small arithmetic facts the codecs share. */
module Bytes {

  /** A Go `byte`: an unsigned 8-bit value. */
  newtype byte = b: int | 0 <= b < 256

  /** 2 to the power k, exactly (the source's `math.Pow(2, k)` read as an integer). */
  function Pow2(k: nat): (r: nat)
    ensures r >= 1
  {
    if k == 0 then 1 else 2 * Pow2(k - 1)
  }

  lemma {:induction false} Pow2Add(a: nat, b: nat)
    ensures Pow2(a + b) == Pow2(a) * Pow2(b)
  {
    if b > 0 {
      Pow2Add(a, b - 1);
    }
  }

  /** One more byte multiplies the range by 256. */
  lemma Pow2Byte(n: nat)
    ensures Pow2(8 * (n + 1)) == 256 * Pow2(8 * n)
  {
    Pow2Add(8, 8 * n);
    assert Pow2(8) == 256;
  }

  /** The powers of two the fixed widths use. */
  lemma Pow2Values()
    ensures Pow2(7) == 0x80 && Pow2(8) == 0x100
    ensures Pow2(15) == 0x8000 && Pow2(16) == 0x1_0000
    ensures Pow2(23) == 0x80_0000 && Pow2(24) == 0x100_0000
    ensures Pow2(31) == 0x8000_0000 && Pow2(32) == 0x1_0000_0000
  {
  }

  /** The big-endian value of a byte string: byte i weighs 256^(|s|-1-i). */
  function Unsigned(s: seq<byte>): (r: nat)
    ensures r < Pow2(8 * |s|)
  {
    if s == [] then 0
    else
      Pow2Byte(|s| - 1);
      Unsigned(s[..|s| - 1]) * 256 + s[|s| - 1] as nat
  }

  lemma UnsignedPair(s: seq<byte>)
    requires |s| == 2
    ensures Unsigned(s) == s[0] as int * 256 + s[1] as int
  {
    assert s[..1][..0] == [];
  }

  /** The n-byte big-endian encoding of v. */
  function BigEndian(v: nat, n: nat): (r: seq<byte>)
    requires v < Pow2(8 * n)
    ensures |r| == n && Unsigned(r) == v
  {
    if n == 0 then []
    else
      Pow2Byte(n - 1);
      var r := BigEndian(v / 256, n - 1) + [(v % 256) as byte];
      assert r[..n - 1] == BigEndian(v / 256, n - 1);
      r
  }

  /** Encoding is the only n-byte string with value v. */
  lemma {:induction false} BigEndianUnique(s: seq<byte>)
    ensures BigEndian(Unsigned(s), |s|) == s
  {
    if s != [] {
      var init := s[..|s| - 1];
      BigEndianUnique(init);
      assert Unsigned(s) / 256 == Unsigned(init);
      assert s == init + [s[|s| - 1]];
    }
  }

  /** The first byte of a big-endian string weighs 256^(|s|-1); the rest is the value of the tail. */
  lemma {:induction false} UnsignedFirst(s: seq<byte>)
    requires |s| > 0
    ensures Unsigned(s) == s[0] as int * Pow2(8 * (|s| - 1)) + Unsigned(s[1..])
  {
    if |s| > 1 {
      var n, init := |s|, s[..|s| - 1];
      UnsignedFirst(init);
      assert init[1..] == s[1..][..n - 2];
      Pow2Byte(n - 2);
      Regroup(s[0] as int, Pow2(8 * (n - 2)), Unsigned(init[1..]), s[n - 1] as int);
    }
  }

  lemma Regroup(a: int, w: int, u: int, last: int)
    ensures (a * w + u) * 256 + last == a * (256 * w) + (u * 256 + last)
  {
  }

  /** Euclidean division is unique: a quotient and remainder in range are THE quotient and remainder. */
  lemma DivModUnique(v: int, m: int, a: int, c: int)
    requires m > 0 && v == m * a + c && 0 <= c < m
    ensures v / m == a && v % m == c
  {
    var q, d := v / m, v / m - a;
    assert m * q == m * a + m * d;
    MulAwayFromZero(m, d);
  }

  /** A non-zero multiple of m is at least m away from zero. */
  lemma {:induction false} MulAwayFromZero(m: int, d: int)
    requires m >= 0
    ensures d > 0 ==> m * d >= m
    ensures d < 0 ==> m * d <= -m
    decreases if d < 0 then -d else d
  {
    if d > 1 {
      MulAwayFromZero(m, d - 1);
      assert m * d == m * (d - 1) + m;
    } else if d < -1 {
      MulAwayFromZero(m, d + 1);
      assert m * d == m * (d + 1) - m;
    }
  }

  /** Shifting right by 8 and then by k bits is one shift by 8 + k bits. */
  lemma DivDiv(v: int, p: int)
    requires p > 0
    ensures (v / 256) / p == v / (256 * p)
  {
    var q, r := v / 256, v % 256;
    var a, b := q / p, q % p;
    assert v == (256 * p) * a + (256 * b + r) by {
      assert q == p * a + b;
      assert v == 256 * q + r;
    }
    assert 256 * b + r < 256 * p by {
      assert b <= p - 1;
      assert 256 * b <= 256 * (p - 1);
    }
    DivModUnique(v, 256 * p, a, 256 * b + r);
  }

  /** Byte i of the big-endian encoding is the value shifted right by the weight of the bytes after it. */
  lemma {:induction false} BigEndianAt(v: nat, n: nat, i: nat)
    requires v < Pow2(8 * n) && i < n
    ensures BigEndian(v, n)[i] as int == (v / Pow2(8 * (n - 1 - i))) % 256
  {
    Pow2Byte(n - 1);
    var rest := BigEndian(v / 256, n - 1);
    assert BigEndian(v, n) == rest + [(v % 256) as byte];
    if i < n - 1 {
      var p := Pow2(8 * (n - 2 - i));
      BigEndianAt(v / 256, n - 1, i);
      Pow2Byte(n - 2 - i);
      DivDiv(v, p);
      ShiftedByte(BigEndian(v, n)[i] as int, (v / 256) / p, v / (256 * p), v / Pow2(8 * (n - 1 - i)));
    } else {
      assert Pow2(8 * (n - 1 - i)) == 1;
    }
  }

  lemma ShiftedByte(x: int, a: int, b: int, c: int)
    ensures x == a % 256 && a == b && b == c ==> x == c % 256
  {
  }

  /** Adding a multiple of the divisor moves the quotient and keeps the remainder. */
  lemma DivAddMul(p: int, x: int, y: int)
    requires p > 0
    ensures (p * x + y) / p == x + y / p && (p * x + y) % p == y % p
  {
    assert p * x + y == p * (x + y / p) + y % p by {
      assert y == p * (y / p) + y % p;
      assert p * (x + y / p) == p * x + p * (y / p);
    }
    DivModUnique(p * x + y, p, x + y / p, y % p);
  }

  /** Bits at and above position 8n do not reach the byte at bit position k when k + 8 <= 8n. */
  lemma WrapByte(v: int, n: nat, k: nat)
    requires k + 8 <= 8 * n
    ensures (v / Pow2(k)) % 256 == ((v % Pow2(8 * n)) / Pow2(k)) % 256
  {
    var mid := Pow2(8 * n - k);
    Pow2Add(k, 8 * n - k);
    Pow2Add(8, 8 * n - k - 8);
    assert Pow2(8) == 256;
    assert mid == 256 * Pow2(8 * n - k - 8);
    WrapLow(v, Pow2(k), Pow2(8 * n - k - 8));
  }

  lemma WrapLow(v: int, low: int, rest: int)
    requires low > 0 && rest > 0
    ensures (v / low) % 256 == ((v % (low * (256 * rest))) / low) % 256
  {
    var m := low * (256 * rest);
    var q, w := v / m, v % m;
    assert v == low * (256 * (rest * q)) + w by {
      assert v == m * q + w;
      assert m * q == low * (256 * (rest * q));
    }
    DivAddMul(low, 256 * (rest * q), w);
    DivAddMul(256, rest * q, w / low);
  }

  /** Bytes in reverse order. */
  function Reverse(s: seq<byte>): (r: seq<byte>)
    ensures |r| == |s|
  {
    seq(|s|, i requires 0 <= i < |s| => s[|s| - 1 - i])
  }

  lemma ReverseReverse(s: seq<byte>)
    ensures Reverse(Reverse(s)) == s
  {
  }

  /** The zero-pad-to-even rule applied before every CRC in the system. */
  function PadEven(s: seq<byte>): (r: seq<byte>)
    ensures |r| == if |s| % 2 == 0 then |s| else |s| + 1
    ensures |r| % 2 == 0 && r[..|s|] == s
    ensures |s| < |r| ==> r[|s|] == 0
  {
    if |s| % 2 == 1 then s + [0] else s
  }
}
