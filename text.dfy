/** The string primitives the decoder relies on, as Go defines them: `strings.Split` and
    `strings.Join` on a one-character separator, `strconv.Atoi`, and `%d` formatting of a
    non-negative integer. Strings are sequences of characters. */
module Text {

  datatype Option<T> = None | Some(value: T)

  // ---- strings.Split and strings.Join ----

  /** strings.Split(s, [sep]): the pieces between the separators, in order; the empty string
      splits into one empty piece. */
  function Split(s: string, sep: char): (parts: seq<string>)
    ensures |parts| >= 1
    ensures forall i :: 0 <= i < |parts| ==> sep !in parts[i]
    decreases |s|
  {
    if s == [] then [[]]
    else
      var rest := Split(s[1..], sep);
      if s[0] == sep then [[]] + rest
      else
        var first := [s[0]] + rest[0];
        assert forall i :: 0 <= i < |first| ==> first[i] != sep by {
          forall i | 0 <= i < |first| ensures first[i] != sep {
            if i > 0 {
              assert first[i] == rest[0][i - 1];
            }
          }
        }
        [first] + rest[1..]
  }

  /** strings.Join(parts, [sep]); joining no parts gives the empty string. */
  function Join(parts: seq<string>, sep: char): string {
    if |parts| == 0 then []
    else if |parts| == 1 then parts[0]
    else parts[0] + [sep] + Join(parts[1..], sep)
  }

  /** Joining the pieces of a split gives back the string. */
  lemma {:induction false} JoinSplit(s: string, sep: char)
    ensures Join(Split(s, sep), sep) == s
    decreases |s|
  {
    if s != [] {
      var rest := Split(s[1..], sep);
      JoinSplit(s[1..], sep);
      if s[0] == sep {
        assert s == [sep] + s[1..];
      } else if |rest| == 1 {
        assert s == [s[0]] + rest[0];
      } else {
        assert rest == [rest[0]] + rest[1..];
        assert Join(rest, sep) == rest[0] + [sep] + Join(rest[1..], sep);
        assert s == [s[0]] + (rest[0] + [sep] + Join(rest[1..], sep));
      }
    }
  }

  /** Splitting a join of separator-free pieces gives back the pieces. */
  lemma {:induction false} SplitJoin(parts: seq<string>, sep: char)
    requires |parts| >= 1
    requires forall i :: 0 <= i < |parts| ==> sep !in parts[i]
    ensures Split(Join(parts, sep), sep) == parts
  {
    if |parts| == 1 {
      SplitPlain(parts[0], [], sep, false);
    } else {
      SplitJoin(parts[1..], sep);
      SplitPlain(parts[0], Join(parts[1..], sep), sep, true);
      assert parts == [parts[0]] + parts[1..];
    }
  }

  /** A separator-free piece in front of the rest, with or without a separator between them. */
  lemma {:induction false} SplitPlain(p: string, t: string, sep: char, withSep: bool)
    requires sep !in p
    ensures withSep ==> Split(p + [sep] + t, sep) == [p] + Split(t, sep)
    ensures !withSep && t == [] ==> Split(p, sep) == [p]
    decreases |p|
  {
    if p == [] {
      if withSep {
        assert p + [sep] + t == [sep] + t;
        assert ([sep] + t)[1..] == t;
      }
    } else {
      SplitPlain(p[1..], t, sep, withSep);
      if withSep {
        assert (p + [sep] + t)[1..] == p[1..] + [sep] + t;
        assert [p[0]] + p[1..] == p;
      } else {
        assert [p[0]] + p[1..] == p;
      }
    }
  }

  // ---- Decimal digits ----

  predicate IsDigit(c: char) {
    '0' <= c <= '9'
  }

  predicate IsDigits(s: string) {
    forall i :: 0 <= i < |s| ==> IsDigit(s[i])
  }

  function DigitChar(d: nat): (c: char)
    requires d < 10
    ensures IsDigit(c)
  {
    ('0' as int + d) as char
  }

  /** The value of a string of decimal digits, most significant first. */
  function DigitsValue(s: string): nat
    requires IsDigits(s)
  {
    if s == [] then 0
    else DigitsValue(s[..|s| - 1]) * 10 + (s[|s| - 1] as int - '0' as int)
  }

  /** `%d` of a non-negative integer: its decimal digits without leading zeros. */
  function Itoa(n: nat): (s: string)
    ensures |s| >= 1 && IsDigits(s)
    ensures n > 0 ==> s[0] != '0'
  {
    if n < 10 then [DigitChar(n)]
    else
      var s := Itoa(n / 10) + [DigitChar(n % 10)];
      assert IsDigits(s) by {
        forall i | 0 <= i < |s| ensures IsDigit(s[i]) {
          if i < |s| - 1 {
            assert s[i] == Itoa(n / 10)[i];
          }
        }
      }
      s
  }

  /** Reading the digits `%d` writes gives back the number. */
  lemma {:induction false} ItoaValue(n: nat)
    ensures DigitsValue(Itoa(n)) == n
  {
    if n >= 10 {
      ItoaValue(n / 10);
      var s := Itoa(n);
      assert s[..|s| - 1] == Itoa(n / 10);
    }
  }

  // ---- strconv.Atoi ----

  const MinInt64: int := -0x8000_0000_0000_0000
  const MaxInt64: int := 0x7fff_ffff_ffff_ffff

  /** The digits after an optional leading sign. */
  function Magnitude(s: string): string {
    if |s| > 0 && (s[0] == '-' || s[0] == '+') then s[1..] else s
  }

  /** The syntax Atoi accepts: an optional sign, then at least one decimal digit. */
  predicate IsNumeral(s: string) {
    Magnitude(s) != [] && IsDigits(Magnitude(s))
  }

  /** The integer a numeral denotes, before the range check. */
  function NumeralValue(s: string): int
    requires IsNumeral(s)
  {
    if s[0] == '-' then -(DigitsValue(Magnitude(s)) as int) else DigitsValue(Magnitude(s))
  }

  /** strconv.Atoi on a 64-bit `int`: a numeral whose value fits, or an error. */
  function Atoi(s: string): (r: Option<int>)
    ensures r.Some? <==> IsNumeral(s) && MinInt64 <= NumeralValue(s) <= MaxInt64
    ensures r.Some? ==> r.value == NumeralValue(s)
  {
    if !IsNumeral(s) then None
    else
      var v := NumeralValue(s);
      if v < MinInt64 || v > MaxInt64 then None else Some(v)
  }

  const MaxUint64: int := 0xffff_ffff_ffff_ffff

  /** The length of the run of decimal digits at the start of `s`. */
  function DigitRun(s: string): (k: nat)
    ensures k <= |s| && IsDigits(s[..k])
    ensures k < |s| ==> !IsDigit(s[k])
  {
    if s == [] || !IsDigit(s[0]) then 0
    else
      var k := 1 + DigitRun(s[1..]);
      assert s[..k] == [s[0]] + s[1..][..k - 1];
      k
  }

  /** The value of the digits after the sign, as far as they run. */
  function LeadingValue(s: string): nat {
    var m := Magnitude(s);
    DigitsValue(m[..DigitRun(m)])
  }

  /** The value Atoi returns next to its error: the value of an in-range numeral; the
      nearest 64-bit bound when the leading digits are out of range, even if a syntax
      error follows them; 0 for any other syntax error. */
  function AtoiValue(s: string): (v: int)
    ensures MinInt64 <= v <= MaxInt64
    ensures Atoi(s).Some? ==> v == Atoi(s).value
    ensures IsNumeral(s) && NumeralValue(s) > MaxInt64 ==> v == MaxInt64
    ensures IsNumeral(s) && NumeralValue(s) < MinInt64 ==> v == MinInt64
    ensures !IsNumeral(s) && LeadingValue(s) <= MaxUint64 ==> v == 0
    ensures !IsNumeral(s) && LeadingValue(s) > MaxUint64 ==> v == if s[0] == '-' then MinInt64 else MaxInt64
  {
    if IsNumeral(s) then
      var v := NumeralValue(s);
      if v < MinInt64 then MinInt64 else if v > MaxInt64 then MaxInt64 else v
    else if LeadingValue(s) > MaxUint64 then
      if s[0] == '-' then MinInt64 else MaxInt64
    else 0
  }

  // ---- strconv's own algorithm, as a reference for Atoi and AtoiValue ----

  datatype ParseStatus = Ok | SyntaxError | RangeError

  datatype Parsed = Parsed(value: int, status: ParseStatus)

  /** ParseUint's loop in base 10 from position i with accumulator n: a non-digit is a
      syntax error, and a digit that takes the accumulator past 2^64-1 is a range error
      with the value 2^64-1, whichever comes first. */
  function ScanUint(s: string, i: nat, n: nat): Parsed
    requires i <= |s| && n <= MaxUint64
    decreases |s| - i
  {
    if i == |s| then Parsed(n, Ok)
    else if !IsDigit(s[i]) then Parsed(0, SyntaxError)
    else
      var n1 := n * 10 + (s[i] as int - '0' as int);
      if n1 > MaxUint64 then Parsed(MaxUint64, RangeError)
      else ScanUint(s, i + 1, n1)
  }

  /** ParseInt(s, 10, 64): strip one sign, ParseUint the rest, clamp to the int64 bounds. */
  function ParseInt(s: string): Parsed {
    if s == [] then Parsed(0, SyntaxError)
    else
      var neg := s[0] == '-';
      var m := Magnitude(s);
      var un := if m == [] then Parsed(0, SyntaxError) else ScanUint(m, 0, 0);
      if un.status == SyntaxError then Parsed(0, SyntaxError)
      else if !neg && un.value > MaxInt64 then Parsed(MaxInt64, RangeError)
      else if neg && un.value > -MinInt64 then Parsed(MinInt64, RangeError)
      else Parsed(if neg then -un.value else un.value, un.status)
  }

  /** Atoi's fast path for inputs of 1 to 18 bytes: the digits after the sign, without an
      overflow check; any non-digit is a syntax error. */
  function ScanSmall(s: string, i: nat, n: nat): Parsed
    requires i <= |s|
    decreases |s| - i
  {
    if i == |s| then Parsed(n, Ok)
    else if !IsDigit(s[i]) then Parsed(0, SyntaxError)
    else ScanSmall(s, i + 1, n * 10 + (s[i] as int - '0' as int))
  }

  /** strconv.Atoi on a 64-bit platform: the fast path below 19 bytes, ParseInt otherwise. */
  function StrconvAtoi(s: string): Parsed {
    if 0 < |s| < 19 then
      var m := Magnitude(s);
      if m == [] then Parsed(0, SyntaxError)
      else
        var r := ScanSmall(m, 0, 0);
        if r.status == Ok && s[0] == '-' then Parsed(-r.value, Ok) else r
    else ParseInt(s)
  }

  /** Ten to the k. */
  function Pow10(k: nat): nat {
    if k == 0 then 1 else 10 * Pow10(k - 1)
  }

  /** A string of k digits is worth less than 10^k. */
  lemma {:induction false} DigitsBelow(t: string)
    requires IsDigits(t)
    ensures DigitsValue(t) < Pow10(|t|)
  {
    if t != [] {
      DigitsBelow(t[..|t| - 1]);
    }
  }

  /** More digits are worth at least as much: the prefixes of a digit string grow. */
  lemma {:induction false} DigitsGrow(t: string, j: nat)
    requires IsDigits(t) && j <= |t|
    ensures DigitsValue(t[..j]) <= DigitsValue(t)
  {
    if j < |t| {
      var u := t[..|t| - 1];
      assert u[..j] == t[..j];
      DigitsGrow(u, j);
    } else {
      assert t[..j] == t;
    }
  }

  /** One more digit: the value of the longer prefix is ten times the shorter one plus it. */
  lemma DigitStep(s: string, i: nat)
    requires i < |s| && IsDigits(s[..i]) && IsDigit(s[i])
    ensures IsDigits(s[..i + 1])
    ensures DigitsValue(s[..i + 1]) == DigitsValue(s[..i]) * 10 + (s[i] as int - '0' as int)
  {
    assert s[..i + 1][..i] == s[..i];
  }

  /** ParseUint's loop, stated on the leading digit run: a range error exactly when the run
      is worth more than 2^64-1, else the value of an all-digit string, else a syntax error. */
  lemma {:induction false} ScanUintReads(s: string, i: nat, n: nat)
    requires i <= |s| && IsDigits(s[..i]) && n == DigitsValue(s[..i]) && n <= MaxUint64
    ensures var lead := DigitsValue(s[..DigitRun(s)]);
      ScanUint(s, i, n) ==
        if lead > MaxUint64 then Parsed(MaxUint64, RangeError)
        else if DigitRun(s) == |s| then Parsed(lead, Ok)
        else Parsed(0, SyntaxError)
    decreases |s| - i
  {
    var k := DigitRun(s);
    if i == |s| {
      assert s[..i] == s;
      WholeRun(s);
    } else if !IsDigit(s[i]) {
      RunCovers(s, i);
      RunStops(s, i);
    } else {
      DigitStep(s, i);
      RunCovers(s, i + 1);
      var n1 := n * 10 + (s[i] as int - '0' as int);
      if n1 > MaxUint64 {
        assert s[..k][..i + 1] == s[..i + 1];
        DigitsGrow(s[..k], i + 1);
      } else {
        ScanUintReads(s, i + 1, n1);
      }
    }
  }

  /** The fast path's loop: the value of an all-digit string, else a syntax error. */
  lemma {:induction false} ScanSmallReads(s: string, i: nat, n: nat)
    requires i <= |s| && IsDigits(s[..i]) && n == DigitsValue(s[..i])
    ensures ScanSmall(s, i, n) == if IsDigits(s) then Parsed(DigitsValue(s), Ok) else Parsed(0, SyntaxError)
    decreases |s| - i
  {
    if i == |s| {
      assert s[..i] == s;
    } else if !IsDigit(s[i]) {
    } else {
      DigitStep(s, i);
      ScanSmallReads(s, i + 1, n * 10 + (s[i] as int - '0' as int));
    }
  }

  /** A prefix made of digits lies within the digit run. */
  lemma {:induction false} RunCovers(s: string, j: nat)
    requires j <= |s| && IsDigits(s[..j])
    ensures j <= DigitRun(s)
  {
    if j > 0 {
      assert IsDigit(s[..j][0]);
      assert s[1..][..j - 1] == s[..j][1..];
      RunCovers(s[1..], j - 1);
    }
  }

  /** The digit run ends at or before the first non-digit. */
  lemma {:induction false} RunStops(s: string, j: nat)
    requires j < |s| && !IsDigit(s[j])
    ensures DigitRun(s) <= j
  {
    if IsDigit(s[0]) {
      RunStops(s[1..], j - 1);
    }
  }

  /** The digit run of an all-digit string is the whole string. */
  lemma WholeRun(m: string)
    requires IsDigits(m)
    ensures DigitRun(m) == |m|
  {
    assert m[..|m|] == m;
    RunCovers(m, |m|);
  }

  /** Atoi and AtoiValue are strconv.Atoi: the value it returns, and success exactly when it
      reports no error. */
  lemma AtoiIsStrconv(s: string)
    ensures AtoiValue(s) == StrconvAtoi(s).value
    ensures Atoi(s).Some? <==> StrconvAtoi(s).status == Ok
  {
    var m := Magnitude(s);
    if s != [] && m != [] {
      assert m[..0] == [];
      ScanUintReads(m, 0, 0);
      ScanSmallReads(m, 0, 0);
      if IsDigits(m) {
        WholeRun(m);
        assert m[..|m|] == m;
      }
      if 0 < |s| < 19 {
        DigitsBelow(m[..DigitRun(m)]);
        assert Pow10(DigitRun(m)) <= Pow10(18) by {
          Pow10Grows(DigitRun(m), 18);
        }
        Pow10Of18();
      }
    }
  }

  /** 10^18, the bound below which Atoi's fast path cannot overflow. */
  lemma Pow10Of18()
    ensures Pow10(18) == 1_000_000_000_000_000_000
  {
    assert Pow10(2) == 100;
    assert Pow10(4) == 10_000;
    assert Pow10(6) == 1_000_000;
    assert Pow10(8) == 100_000_000;
    assert Pow10(10) == 10_000_000_000;
    assert Pow10(12) == 1_000_000_000_000;
    assert Pow10(14) == 100_000_000_000_000;
    assert Pow10(16) == 10_000_000_000_000_000;
  }

  /** Powers of ten grow with the exponent. */
  lemma {:induction false} Pow10Grows(a: nat, b: nat)
    requires a <= b
    ensures Pow10(a) <= Pow10(b)
    decreases b
  {
    if a < b {
      Pow10Grows(a, b - 1);
    }
  }

  /** Atoi reads back what `%d` writes. */
  lemma AtoiItoa(n: nat)
    requires n <= MaxInt64
    ensures Atoi(Itoa(n)) == Some(n)
  {
    ItoaValue(n);
    assert Magnitude(Itoa(n)) == Itoa(n);
  }
}
