/** CRC-16/XMODEM (polynomial 0x1021, initial value 0x0000) as the system computes it twice:
    by the bit loop of pkg/tap/tap.go and apps/decoder/services/deserializer.go, and by the
    256-entry table of apps/decoder/services/decoder.go. The register is a `bv16`, so Go's
    uint16 wrap-around on `<<` is the bit-vector shift. */
module Crc16 {
  import opened Bytes

  /** One iteration of the inner bit loop: shift left, and xor the polynomial 0x1021 in when
      bit 15 was set. The mask `0 - (crc >> 15)` is all ones exactly when that bit is set, so
      the definition has no branch; TopBitSet and TopBitClear give the two branches of the loop. */
  function ShiftOnce(crc: bv16): bv16 {
    (crc << 1) ^ (0x1021 & (0 - (crc >> 15)))
  }

  /** The inner bit loop runs once per bit of a byte. */
  const ByteShifts: nat := 8

  /** k iterations of the inner bit loop. */
  function ShiftTimes(crc: bv16, k: nat): bv16 {
    if k == 0 then crc else ShiftOnce(ShiftTimes(crc, k - 1))
  }

  /** The bytes of a byte string as 8-bit vectors, the form the CRC engines compute on. */
  function Octets(s: seq<byte>): (r: seq<bv8>)
    ensures |r| == |s|
  {
    seq(|s|, i requires 0 <= i < |s| => s[i] as bv8)
  }

  /** A data byte as the 16-bit value `uint16(b)`. */
  function Widen(b: bv8): (w: bv16)
    ensures w < 0x100
  {
    b as bv16
  }

  /** The bit-loop step for one byte: `crc ^= uint16(b) << 8`, then eight shifts. */
  function BitStep(crc: bv16, b: bv8): bv16 {
    WordBitStep(crc, Widen(b))
  }

  /** The register with a data word folded into its high byte: `crc ^= uint16(b) << 8`. */
  function Mix(crc: bv16, w: bv16): bv16 {
    crc ^ (w << 8)
  }

  /** The bit-loop step for a data word below 0x100. */
  function WordBitStep(crc: bv16, w: bv16): bv16 {
    ShiftTimes(Mix(crc, w), ByteShifts)
  }

  /** The bit-loop CRC of `data` started from register value `crc`. */
  function BitwiseCrcFrom(crc: bv16, data: seq<bv8>): bv16 {
    if data == [] then crc
    else BitStep(BitwiseCrcFrom(crc, data[..|data| - 1]), data[|data| - 1])
  }

  /** CRC-16/XMODEM of `data`: the bit loop from initial value 0x0000. */
  function BitwiseCrc(data: seq<bv8>): bv16 {
    BitwiseCrcFrom(0, data)
  }

  /** The check value every packet format here uses: CRC-16/XMODEM of the bytes after the
      zero-pad-to-even rule, as an integer. */
  function PaddedCrc(s: seq<byte>): (c: nat)
    ensures c < 0x1_0000
  {
    BitwiseCrc(Octets(PadEven(s))) as nat
  }

  /** CRC16_XMODEM_TABLE, entry by entry as it is written in the source. */
  const CrcTable: seq<bv16> :=
    (
      (
        (
          (
            (
              [0x0000, 0x1021, 0x2042, 0x3063, 0x4084, 0x50a5, 0x60c6, 0x70e7] +
              [0x8108, 0x9129, 0xa14a, 0xb16b, 0xc18c, 0xd1ad, 0xe1ce, 0xf1ef]
            ) +
            (
              [0x1231, 0x0210, 0x3273, 0x2252, 0x52b5, 0x4294, 0x72f7, 0x62d6] +
              [0x9339, 0x8318, 0xb37b, 0xa35a, 0xd3bd, 0xc39c, 0xf3ff, 0xe3de]
            )
          ) +
          (
            (
              [0x2462, 0x3443, 0x0420, 0x1401, 0x64e6, 0x74c7, 0x44a4, 0x5485] +
              [0xa56a, 0xb54b, 0x8528, 0x9509, 0xe5ee, 0xf5cf, 0xc5ac, 0xd58d]
            ) +
            (
              [0x3653, 0x2672, 0x1611, 0x0630, 0x76d7, 0x66f6, 0x5695, 0x46b4] +
              [0xb75b, 0xa77a, 0x9719, 0x8738, 0xf7df, 0xe7fe, 0xd79d, 0xc7bc]
            )
          )
        ) +
        (
          (
            (
              [0x48c4, 0x58e5, 0x6886, 0x78a7, 0x0840, 0x1861, 0x2802, 0x3823] +
              [0xc9cc, 0xd9ed, 0xe98e, 0xf9af, 0x8948, 0x9969, 0xa90a, 0xb92b]
            ) +
            (
              [0x5af5, 0x4ad4, 0x7ab7, 0x6a96, 0x1a71, 0x0a50, 0x3a33, 0x2a12] +
              [0xdbfd, 0xcbdc, 0xfbbf, 0xeb9e, 0x9b79, 0x8b58, 0xbb3b, 0xab1a]
            )
          ) +
          (
            (
              [0x6ca6, 0x7c87, 0x4ce4, 0x5cc5, 0x2c22, 0x3c03, 0x0c60, 0x1c41] +
              [0xedae, 0xfd8f, 0xcdec, 0xddcd, 0xad2a, 0xbd0b, 0x8d68, 0x9d49]
            ) +
            (
              [0x7e97, 0x6eb6, 0x5ed5, 0x4ef4, 0x3e13, 0x2e32, 0x1e51, 0x0e70] +
              [0xff9f, 0xefbe, 0xdfdd, 0xcffc, 0xbf1b, 0xaf3a, 0x9f59, 0x8f78]
            )
          )
        )
      ) +
      (
        (
          (
            (
              [0x9188, 0x81a9, 0xb1ca, 0xa1eb, 0xd10c, 0xc12d, 0xf14e, 0xe16f] +
              [0x1080, 0x00a1, 0x30c2, 0x20e3, 0x5004, 0x4025, 0x7046, 0x6067]
            ) +
            (
              [0x83b9, 0x9398, 0xa3fb, 0xb3da, 0xc33d, 0xd31c, 0xe37f, 0xf35e] +
              [0x02b1, 0x1290, 0x22f3, 0x32d2, 0x4235, 0x5214, 0x6277, 0x7256]
            )
          ) +
          (
            (
              [0xb5ea, 0xa5cb, 0x95a8, 0x8589, 0xf56e, 0xe54f, 0xd52c, 0xc50d] +
              [0x34e2, 0x24c3, 0x14a0, 0x0481, 0x7466, 0x6447, 0x5424, 0x4405]
            ) +
            (
              [0xa7db, 0xb7fa, 0x8799, 0x97b8, 0xe75f, 0xf77e, 0xc71d, 0xd73c] +
              [0x26d3, 0x36f2, 0x0691, 0x16b0, 0x6657, 0x7676, 0x4615, 0x5634]
            )
          )
        ) +
        (
          (
            (
              [0xd94c, 0xc96d, 0xf90e, 0xe92f, 0x99c8, 0x89e9, 0xb98a, 0xa9ab] +
              [0x5844, 0x4865, 0x7806, 0x6827, 0x18c0, 0x08e1, 0x3882, 0x28a3]
            ) +
            (
              [0xcb7d, 0xdb5c, 0xeb3f, 0xfb1e, 0x8bf9, 0x9bd8, 0xabbb, 0xbb9a] +
              [0x4a75, 0x5a54, 0x6a37, 0x7a16, 0x0af1, 0x1ad0, 0x2ab3, 0x3a92]
            )
          ) +
          (
            (
              [0xfd2e, 0xed0f, 0xdd6c, 0xcd4d, 0xbdaa, 0xad8b, 0x9de8, 0x8dc9] +
              [0x7c26, 0x6c07, 0x5c64, 0x4c45, 0x3ca2, 0x2c83, 0x1ce0, 0x0cc1]
            ) +
            (
              [0xef1f, 0xff3e, 0xcf5d, 0xdf7c, 0xaf9b, 0xbfba, 0x8fd9, 0x9ff8] +
              [0x6e17, 0x7e36, 0x4e55, 0x5e74, 0x2e93, 0x3eb2, 0x0ed1, 0x1ef0]
            )
          )
        )
      )
    )

  /** The table index `((crc >> 8) & 0xff) ^ uint16(b)`: the high byte of the register mixed
      with the data byte, always a valid index. */
  function TableIndex(crc: bv16, w: bv16): (i: bv16)
    ensures w < 0x100 ==> i < 0x100
  {
    ((crc >> 8) & 0xff) ^ w
  }

  /** What the table step keeps of the register: `(crc << 8) & 0xff00`. */
  function Carry(crc: bv16): bv16 {
    (crc << 8) & 0xff00
  }

  /** The table step for one byte: `((crc << 8) & 0xff00) ^ table[((crc >> 8) & 0xff) ^ uint16(b)]`. */
  function TableStep(table: seq<bv16>, crc: bv16, b: bv8): bv16
    requires |table| == 256
  {
    WordTableStep(table, crc, Widen(b))
  }

  function WordTableStep(table: seq<bv16>, crc: bv16, w: bv16): bv16
    requires |table| == 256 && w < 0x100
  {
    Carry(crc) ^ table[TableIndex(crc, w)]
  }

  /** The table-driven CRC of `data` started from `crc`. */
  function TableCrcFrom(table: seq<bv16>, crc: bv16, data: seq<bv8>): bv16
    requires |table| == 256
  {
    if data == [] then crc
    else TableStep(table, TableCrcFrom(table, crc, data[..|data| - 1]), data[|data| - 1])
  }

  /** crc16UsingPolynomialAndInitialValue: the bit loop over every byte from initial value 0x0000. */
  method Crc16UsingPolynomial(data: seq<bv8>) returns (crc: bv16)
    ensures crc == BitwiseCrc(data)
  {
    crc := 0;
    for j := 0 to |data|
      invariant crc == BitwiseCrcFrom(0, data[..j])
    {
      assert data[..j + 1][..j] == data[..j];
      crc := crc ^ (Widen(data[j]) << 8);
      ghost var start := crc;
      for i := 0 to ByteShifts
        invariant crc == ShiftTimes(start, i)
      {
        if crc & 0x8000 != 0 {
          TopBitSet(crc);
          crc := (crc << 1) ^ 0x1021;
        } else {
          TopBitClear(crc);
          crc := crc << 1;
        }
      }
    }
    assert data[..|data|] == data;
  }

  lemma TopBitSet(crc: bv16)
    requires crc & 0x8000 != 0
    ensures ShiftOnce(crc) == (crc << 1) ^ 0x1021
  {
  }

  lemma TopBitClear(crc: bv16)
    requires crc & 0x8000 == 0
    ensures ShiftOnce(crc) == crc << 1
  {
  }

  /** crc16: fold the table step over `data` from the given initial value. */
  method Crc16(data: seq<bv8>, initial: bv16, table: seq<bv16>) returns (crc: bv16)
    requires |table| == 256
    ensures crc == TableCrcFrom(table, initial, data)
  {
    crc := initial;
    for j := 0 to |data|
      invariant crc == TableCrcFrom(table, initial, data[..j])
    {
      TableCrcSnoc(table, initial, data, j);
      var w := Widen(data[j]);
      TableStepIs(table, crc, w);
      crc := ((crc << 8) & 0xff00) ^ table[((crc >> 8) & 0xff) ^ w];
    }
    assert data[..|data|] == data;
    crc := crc & 0xffff;
  }

  lemma TableCrcSnoc(table: seq<bv16>, crc: bv16, data: seq<bv8>, j: nat)
    requires |table| == 256 && j < |data|
    ensures TableCrcFrom(table, crc, data[..j + 1])
         == WordTableStep(table, TableCrcFrom(table, crc, data[..j]), Widen(data[j]))
  {
    assert data[..j + 1][..j] == data[..j];
  }

  /** Proof step for Crc16: the table step unfolded to the source's expression. */
  lemma TableStepIs(table: seq<bv16>, crc: bv16, w: bv16)
    requires |table| == 256 && w < 0x100
    ensures ((crc >> 8) & 0xff) ^ w < 0x100
    ensures WordTableStep(table, crc, w) == ((crc << 8) & 0xff00) ^ table[((crc >> 8) & 0xff) ^ w]
  {
    assert TableIndex(crc, w) == ((crc >> 8) & 0xff) ^ w;
  }

  /** crc16xModem: the table CRC with CRC16_XMODEM_TABLE, from the first optional initial
      value or 0x0000; it agrees with the bit loop started from the same value. */
  method Crc16XModem(data: seq<bv8>, crc: seq<bv16>) returns (r: bv16)
    ensures r == BitwiseCrcFrom(if |crc| > 0 then crc[0] else 0, data)
  {
    var initial: bv16 := 0;
    if |crc| > 0 {
      initial := crc[0];
    }
    r := Crc16(data, initial, CrcTable);
    CrcTableIsShiftTable();
    TableCrcIsBitwise(CrcTable, initial, data);
  }

  // ---- The table is the bit loop: linearity of the shift register over xor ----

  /** One shift step distributes over xor. */
  lemma OnceLinear(x: bv16, y: bv16)
    ensures ShiftOnce(x ^ y) == ShiftOnce(x) ^ ShiftOnce(y)
  {
  }

  /** Any number of shift steps distributes over xor. */
  lemma {:induction false} TimesLinear(x: bv16, y: bv16, k: nat)
    ensures ShiftTimes(x ^ y, k) == ShiftTimes(x, k) ^ ShiftTimes(y, k)
  {
    if k > 0 {
      TimesLinear(x, y, k - 1);
      OnceLinear(ShiftTimes(x, k - 1), ShiftTimes(y, k - 1));
    }
  }

  /** A shift step on a register whose top bit is clear only moves it up. */
  lemma ShiftStep(x: bv16, k: nat, y: bv16)
    requires 0 < k && ShiftTimes(x, k - 1) == y && y < 0x8000
    ensures ShiftTimes(x, k) == y << 1
  {
    TopBitClear(y);
  }

  lemma Doublings(x: bv16)
    requires x < 0x100
    ensures x << 1 < 0x8000 && x << 2 < 0x8000 && x << 3 < 0x8000 && x << 4 < 0x8000
    ensures x << 5 < 0x8000 && x << 6 < 0x8000 && x << 7 < 0x8000
    ensures (x << 1) << 1 == x << 2 && (x << 2) << 1 == x << 3 && (x << 3) << 1 == x << 4
    ensures (x << 4) << 1 == x << 5 && (x << 5) << 1 == x << 6 && (x << 6) << 1 == x << 7
    ensures (x << 7) << 1 == x << 8
  {
  }

  /** A register below 0x100 never meets the polynomial during one byte: it only moves up. */
  lemma LowByteMovesUp(x: bv16)
    requires x < 0x100
    ensures ShiftTimes(x, ByteShifts) == HighByte(x)
  {
    var k := ByteShifts;
    Doublings(x);
    ShiftStep(x, k - 7, x);
    ShiftStep(x, k - 6, x << 1);
    ShiftStep(x, k - 5, x << 2);
    ShiftStep(x, k - 4, x << 3);
    ShiftStep(x, k - 3, x << 4);
    ShiftStep(x, k - 2, x << 5);
    ShiftStep(x, k - 1, x << 6);
    ShiftStep(x, k, x << 7);
  }

  /** The low byte of a register. */
  function LowByte(crc: bv16): bv16 {
    crc & 0xff
  }

  /** A value moved up into the high byte. */
  function HighByte(x: bv16): bv16 {
    x << 8
  }

  /** The mixed register is its low byte beside the table index in the high byte, and the
      low byte moved up is what the table step keeps. */
  lemma SplitRegister(crc: bv16, w: bv16)
    ensures LowByte(crc) < 0x100 && HighByte(LowByte(crc)) == Carry(crc)
    ensures Mix(crc, w) == LowByte(crc) ^ HighByte(TableIndex(crc, w))
  {
  }

  /** Shifting a register split into a low byte and a high part: the low byte only moves up. */
  lemma ShiftSplit(r: bv16, low: bv16, high: bv16, moved: bv16, entry: bv16)
    ensures r == low ^ high && low < 0x100 && HighByte(low) == moved && entry == ShiftTimes(high, ByteShifts)
            ==> ShiftTimes(r, ByteShifts) == moved ^ entry
  {
    if low < 0x100 {
      TimesLinear(low, high, ByteShifts);
      LowByteMovesUp(low);
    }
  }

  /** Entries 0..7 of the table, each checked by evaluating the bit loop; TableRow1 to
      TableRow31 do the same for the following rows of eight. */
  lemma TableRow0(x: bv16)
    requires 0 <= x < 8
    ensures CrcTable[x] == ShiftTimes(HighByte(x), ByteShifts)
  {
    if x == 0 { assert CrcTable[0] == 0x0000 == ShiftTimes(0x0000, 8);
    } else if x == 1 { assert CrcTable[1] == 0x1021 == ShiftTimes(0x0100, 8);
    } else if x == 2 { assert CrcTable[2] == 0x2042 == ShiftTimes(0x0200, 8);
    } else if x == 3 { assert CrcTable[3] == 0x3063 == ShiftTimes(0x0300, 8);
    } else if x == 4 { assert CrcTable[4] == 0x4084 == ShiftTimes(0x0400, 8);
    } else if x == 5 { assert CrcTable[5] == 0x50a5 == ShiftTimes(0x0500, 8);
    } else if x == 6 { assert CrcTable[6] == 0x60c6 == ShiftTimes(0x0600, 8);
    } else if x == 7 { assert CrcTable[7] == 0x70e7 == ShiftTimes(0x0700, 8);
    }
  }

  lemma TableRow1(x: bv16)
    requires 8 <= x < 16
    ensures CrcTable[x] == ShiftTimes(HighByte(x), ByteShifts)
  {
    if x == 8 { assert CrcTable[8] == 0x8108 == ShiftTimes(0x0800, 8);
    } else if x == 9 { assert CrcTable[9] == 0x9129 == ShiftTimes(0x0900, 8);
    } else if x == 10 { assert CrcTable[10] == 0xa14a == ShiftTimes(0x0a00, 8);
    } else if x == 11 { assert CrcTable[11] == 0xb16b == ShiftTimes(0x0b00, 8);
    } else if x == 12 { assert CrcTable[12] == 0xc18c == ShiftTimes(0x0c00, 8);
    } else if x == 13 { assert CrcTable[13] == 0xd1ad == ShiftTimes(0x0d00, 8);
    } else if x == 14 { assert CrcTable[14] == 0xe1ce == ShiftTimes(0x0e00, 8);
    } else if x == 15 { assert CrcTable[15] == 0xf1ef == ShiftTimes(0x0f00, 8);
    }
  }

  lemma TableRow2(x: bv16)
    requires 16 <= x < 24
    ensures CrcTable[x] == ShiftTimes(HighByte(x), ByteShifts)
  {
    if x == 16 { assert CrcTable[16] == 0x1231 == ShiftTimes(0x1000, 8);
    } else if x == 17 { assert CrcTable[17] == 0x0210 == ShiftTimes(0x1100, 8);
    } else if x == 18 { assert CrcTable[18] == 0x3273 == ShiftTimes(0x1200, 8);
    } else if x == 19 { assert CrcTable[19] == 0x2252 == ShiftTimes(0x1300, 8);
    } else if x == 20 { assert CrcTable[20] == 0x52b5 == ShiftTimes(0x1400, 8);
    } else if x == 21 { assert CrcTable[21] == 0x4294 == ShiftTimes(0x1500, 8);
    } else if x == 22 { assert CrcTable[22] == 0x72f7 == ShiftTimes(0x1600, 8);
    } else if x == 23 { assert CrcTable[23] == 0x62d6 == ShiftTimes(0x1700, 8);
    }
  }

  lemma TableRow3(x: bv16)
    requires 24 <= x < 32
    ensures CrcTable[x] == ShiftTimes(HighByte(x), ByteShifts)
  {
    if x == 24 { assert CrcTable[24] == 0x9339 == ShiftTimes(0x1800, 8);
    } else if x == 25 { assert CrcTable[25] == 0x8318 == ShiftTimes(0x1900, 8);
    } else if x == 26 { assert CrcTable[26] == 0xb37b == ShiftTimes(0x1a00, 8);
    } else if x == 27 { assert CrcTable[27] == 0xa35a == ShiftTimes(0x1b00, 8);
    } else if x == 28 { assert CrcTable[28] == 0xd3bd == ShiftTimes(0x1c00, 8);
    } else if x == 29 { assert CrcTable[29] == 0xc39c == ShiftTimes(0x1d00, 8);
    } else if x == 30 { assert CrcTable[30] == 0xf3ff == ShiftTimes(0x1e00, 8);
    } else if x == 31 { assert CrcTable[31] == 0xe3de == ShiftTimes(0x1f00, 8);
    }
  }

  lemma TableRow4(x: bv16)
    requires 32 <= x < 40
    ensures CrcTable[x] == ShiftTimes(HighByte(x), ByteShifts)
  {
    if x == 32 { assert CrcTable[32] == 0x2462 == ShiftTimes(0x2000, 8);
    } else if x == 33 { assert CrcTable[33] == 0x3443 == ShiftTimes(0x2100, 8);
    } else if x == 34 { assert CrcTable[34] == 0x0420 == ShiftTimes(0x2200, 8);
    } else if x == 35 { assert CrcTable[35] == 0x1401 == ShiftTimes(0x2300, 8);
    } else if x == 36 { assert CrcTable[36] == 0x64e6 == ShiftTimes(0x2400, 8);
    } else if x == 37 { assert CrcTable[37] == 0x74c7 == ShiftTimes(0x2500, 8);
    } else if x == 38 { assert CrcTable[38] == 0x44a4 == ShiftTimes(0x2600, 8);
    } else if x == 39 { assert CrcTable[39] == 0x5485 == ShiftTimes(0x2700, 8);
    }
  }

  lemma TableRow5(x: bv16)
    requires 40 <= x < 48
    ensures CrcTable[x] == ShiftTimes(HighByte(x), ByteShifts)
  {
    if x == 40 { assert CrcTable[40] == 0xa56a == ShiftTimes(0x2800, 8);
    } else if x == 41 { assert CrcTable[41] == 0xb54b == ShiftTimes(0x2900, 8);
    } else if x == 42 { assert CrcTable[42] == 0x8528 == ShiftTimes(0x2a00, 8);
    } else if x == 43 { assert CrcTable[43] == 0x9509 == ShiftTimes(0x2b00, 8);
    } else if x == 44 { assert CrcTable[44] == 0xe5ee == ShiftTimes(0x2c00, 8);
    } else if x == 45 { assert CrcTable[45] == 0xf5cf == ShiftTimes(0x2d00, 8);
    } else if x == 46 { assert CrcTable[46] == 0xc5ac == ShiftTimes(0x2e00, 8);
    } else if x == 47 { assert CrcTable[47] == 0xd58d == ShiftTimes(0x2f00, 8);
    }
  }

  lemma TableRow6(x: bv16)
    requires 48 <= x < 56
    ensures CrcTable[x] == ShiftTimes(HighByte(x), ByteShifts)
  {
    if x == 48 { assert CrcTable[48] == 0x3653 == ShiftTimes(0x3000, 8);
    } else if x == 49 { assert CrcTable[49] == 0x2672 == ShiftTimes(0x3100, 8);
    } else if x == 50 { assert CrcTable[50] == 0x1611 == ShiftTimes(0x3200, 8);
    } else if x == 51 { assert CrcTable[51] == 0x0630 == ShiftTimes(0x3300, 8);
    } else if x == 52 { assert CrcTable[52] == 0x76d7 == ShiftTimes(0x3400, 8);
    } else if x == 53 { assert CrcTable[53] == 0x66f6 == ShiftTimes(0x3500, 8);
    } else if x == 54 { assert CrcTable[54] == 0x5695 == ShiftTimes(0x3600, 8);
    } else if x == 55 { assert CrcTable[55] == 0x46b4 == ShiftTimes(0x3700, 8);
    }
  }

  lemma TableRow7(x: bv16)
    requires 56 <= x < 64
    ensures CrcTable[x] == ShiftTimes(HighByte(x), ByteShifts)
  {
    if x == 56 { assert CrcTable[56] == 0xb75b == ShiftTimes(0x3800, 8);
    } else if x == 57 { assert CrcTable[57] == 0xa77a == ShiftTimes(0x3900, 8);
    } else if x == 58 { assert CrcTable[58] == 0x9719 == ShiftTimes(0x3a00, 8);
    } else if x == 59 { assert CrcTable[59] == 0x8738 == ShiftTimes(0x3b00, 8);
    } else if x == 60 { assert CrcTable[60] == 0xf7df == ShiftTimes(0x3c00, 8);
    } else if x == 61 { assert CrcTable[61] == 0xe7fe == ShiftTimes(0x3d00, 8);
    } else if x == 62 { assert CrcTable[62] == 0xd79d == ShiftTimes(0x3e00, 8);
    } else if x == 63 { assert CrcTable[63] == 0xc7bc == ShiftTimes(0x3f00, 8);
    }
  }

  lemma TableRow8(x: bv16)
    requires 64 <= x < 72
    ensures CrcTable[x] == ShiftTimes(HighByte(x), ByteShifts)
  {
    if x == 64 { assert CrcTable[64] == 0x48c4 == ShiftTimes(0x4000, 8);
    } else if x == 65 { assert CrcTable[65] == 0x58e5 == ShiftTimes(0x4100, 8);
    } else if x == 66 { assert CrcTable[66] == 0x6886 == ShiftTimes(0x4200, 8);
    } else if x == 67 { assert CrcTable[67] == 0x78a7 == ShiftTimes(0x4300, 8);
    } else if x == 68 { assert CrcTable[68] == 0x0840 == ShiftTimes(0x4400, 8);
    } else if x == 69 { assert CrcTable[69] == 0x1861 == ShiftTimes(0x4500, 8);
    } else if x == 70 { assert CrcTable[70] == 0x2802 == ShiftTimes(0x4600, 8);
    } else if x == 71 { assert CrcTable[71] == 0x3823 == ShiftTimes(0x4700, 8);
    }
  }

  lemma TableRow9(x: bv16)
    requires 72 <= x < 80
    ensures CrcTable[x] == ShiftTimes(HighByte(x), ByteShifts)
  {
    if x == 72 { assert CrcTable[72] == 0xc9cc == ShiftTimes(0x4800, 8);
    } else if x == 73 { assert CrcTable[73] == 0xd9ed == ShiftTimes(0x4900, 8);
    } else if x == 74 { assert CrcTable[74] == 0xe98e == ShiftTimes(0x4a00, 8);
    } else if x == 75 { assert CrcTable[75] == 0xf9af == ShiftTimes(0x4b00, 8);
    } else if x == 76 { assert CrcTable[76] == 0x8948 == ShiftTimes(0x4c00, 8);
    } else if x == 77 { assert CrcTable[77] == 0x9969 == ShiftTimes(0x4d00, 8);
    } else if x == 78 { assert CrcTable[78] == 0xa90a == ShiftTimes(0x4e00, 8);
    } else if x == 79 { assert CrcTable[79] == 0xb92b == ShiftTimes(0x4f00, 8);
    }
  }

  lemma TableRow10(x: bv16)
    requires 80 <= x < 88
    ensures CrcTable[x] == ShiftTimes(HighByte(x), ByteShifts)
  {
    if x == 80 { assert CrcTable[80] == 0x5af5 == ShiftTimes(0x5000, 8);
    } else if x == 81 { assert CrcTable[81] == 0x4ad4 == ShiftTimes(0x5100, 8);
    } else if x == 82 { assert CrcTable[82] == 0x7ab7 == ShiftTimes(0x5200, 8);
    } else if x == 83 { assert CrcTable[83] == 0x6a96 == ShiftTimes(0x5300, 8);
    } else if x == 84 { assert CrcTable[84] == 0x1a71 == ShiftTimes(0x5400, 8);
    } else if x == 85 { assert CrcTable[85] == 0x0a50 == ShiftTimes(0x5500, 8);
    } else if x == 86 { assert CrcTable[86] == 0x3a33 == ShiftTimes(0x5600, 8);
    } else if x == 87 { assert CrcTable[87] == 0x2a12 == ShiftTimes(0x5700, 8);
    }
  }

  lemma TableRow11(x: bv16)
    requires 88 <= x < 96
    ensures CrcTable[x] == ShiftTimes(HighByte(x), ByteShifts)
  {
    if x == 88 { assert CrcTable[88] == 0xdbfd == ShiftTimes(0x5800, 8);
    } else if x == 89 { assert CrcTable[89] == 0xcbdc == ShiftTimes(0x5900, 8);
    } else if x == 90 { assert CrcTable[90] == 0xfbbf == ShiftTimes(0x5a00, 8);
    } else if x == 91 { assert CrcTable[91] == 0xeb9e == ShiftTimes(0x5b00, 8);
    } else if x == 92 { assert CrcTable[92] == 0x9b79 == ShiftTimes(0x5c00, 8);
    } else if x == 93 { assert CrcTable[93] == 0x8b58 == ShiftTimes(0x5d00, 8);
    } else if x == 94 { assert CrcTable[94] == 0xbb3b == ShiftTimes(0x5e00, 8);
    } else if x == 95 { assert CrcTable[95] == 0xab1a == ShiftTimes(0x5f00, 8);
    }
  }

  lemma TableRow12(x: bv16)
    requires 96 <= x < 104
    ensures CrcTable[x] == ShiftTimes(HighByte(x), ByteShifts)
  {
    if x == 96 { assert CrcTable[96] == 0x6ca6 == ShiftTimes(0x6000, 8);
    } else if x == 97 { assert CrcTable[97] == 0x7c87 == ShiftTimes(0x6100, 8);
    } else if x == 98 { assert CrcTable[98] == 0x4ce4 == ShiftTimes(0x6200, 8);
    } else if x == 99 { assert CrcTable[99] == 0x5cc5 == ShiftTimes(0x6300, 8);
    } else if x == 100 { assert CrcTable[100] == 0x2c22 == ShiftTimes(0x6400, 8);
    } else if x == 101 { assert CrcTable[101] == 0x3c03 == ShiftTimes(0x6500, 8);
    } else if x == 102 { assert CrcTable[102] == 0x0c60 == ShiftTimes(0x6600, 8);
    } else if x == 103 { assert CrcTable[103] == 0x1c41 == ShiftTimes(0x6700, 8);
    }
  }

  lemma TableRow13(x: bv16)
    requires 104 <= x < 112
    ensures CrcTable[x] == ShiftTimes(HighByte(x), ByteShifts)
  {
    if x == 104 { assert CrcTable[104] == 0xedae == ShiftTimes(0x6800, 8);
    } else if x == 105 { assert CrcTable[105] == 0xfd8f == ShiftTimes(0x6900, 8);
    } else if x == 106 { assert CrcTable[106] == 0xcdec == ShiftTimes(0x6a00, 8);
    } else if x == 107 { assert CrcTable[107] == 0xddcd == ShiftTimes(0x6b00, 8);
    } else if x == 108 { assert CrcTable[108] == 0xad2a == ShiftTimes(0x6c00, 8);
    } else if x == 109 { assert CrcTable[109] == 0xbd0b == ShiftTimes(0x6d00, 8);
    } else if x == 110 { assert CrcTable[110] == 0x8d68 == ShiftTimes(0x6e00, 8);
    } else if x == 111 { assert CrcTable[111] == 0x9d49 == ShiftTimes(0x6f00, 8);
    }
  }

  lemma TableRow14(x: bv16)
    requires 112 <= x < 120
    ensures CrcTable[x] == ShiftTimes(HighByte(x), ByteShifts)
  {
    if x == 112 { assert CrcTable[112] == 0x7e97 == ShiftTimes(0x7000, 8);
    } else if x == 113 { assert CrcTable[113] == 0x6eb6 == ShiftTimes(0x7100, 8);
    } else if x == 114 { assert CrcTable[114] == 0x5ed5 == ShiftTimes(0x7200, 8);
    } else if x == 115 { assert CrcTable[115] == 0x4ef4 == ShiftTimes(0x7300, 8);
    } else if x == 116 { assert CrcTable[116] == 0x3e13 == ShiftTimes(0x7400, 8);
    } else if x == 117 { assert CrcTable[117] == 0x2e32 == ShiftTimes(0x7500, 8);
    } else if x == 118 { assert CrcTable[118] == 0x1e51 == ShiftTimes(0x7600, 8);
    } else if x == 119 { assert CrcTable[119] == 0x0e70 == ShiftTimes(0x7700, 8);
    }
  }

  lemma TableRow15(x: bv16)
    requires 120 <= x < 128
    ensures CrcTable[x] == ShiftTimes(HighByte(x), ByteShifts)
  {
    if x == 120 { assert CrcTable[120] == 0xff9f == ShiftTimes(0x7800, 8);
    } else if x == 121 { assert CrcTable[121] == 0xefbe == ShiftTimes(0x7900, 8);
    } else if x == 122 { assert CrcTable[122] == 0xdfdd == ShiftTimes(0x7a00, 8);
    } else if x == 123 { assert CrcTable[123] == 0xcffc == ShiftTimes(0x7b00, 8);
    } else if x == 124 { assert CrcTable[124] == 0xbf1b == ShiftTimes(0x7c00, 8);
    } else if x == 125 { assert CrcTable[125] == 0xaf3a == ShiftTimes(0x7d00, 8);
    } else if x == 126 { assert CrcTable[126] == 0x9f59 == ShiftTimes(0x7e00, 8);
    } else if x == 127 { assert CrcTable[127] == 0x8f78 == ShiftTimes(0x7f00, 8);
    }
  }

  lemma TableRow16(x: bv16)
    requires 128 <= x < 136
    ensures CrcTable[x] == ShiftTimes(HighByte(x), ByteShifts)
  {
    if x == 128 { assert CrcTable[128] == 0x9188 == ShiftTimes(0x8000, 8);
    } else if x == 129 { assert CrcTable[129] == 0x81a9 == ShiftTimes(0x8100, 8);
    } else if x == 130 { assert CrcTable[130] == 0xb1ca == ShiftTimes(0x8200, 8);
    } else if x == 131 { assert CrcTable[131] == 0xa1eb == ShiftTimes(0x8300, 8);
    } else if x == 132 { assert CrcTable[132] == 0xd10c == ShiftTimes(0x8400, 8);
    } else if x == 133 { assert CrcTable[133] == 0xc12d == ShiftTimes(0x8500, 8);
    } else if x == 134 { assert CrcTable[134] == 0xf14e == ShiftTimes(0x8600, 8);
    } else if x == 135 { assert CrcTable[135] == 0xe16f == ShiftTimes(0x8700, 8);
    }
  }

  lemma TableRow17(x: bv16)
    requires 136 <= x < 144
    ensures CrcTable[x] == ShiftTimes(HighByte(x), ByteShifts)
  {
    if x == 136 { assert CrcTable[136] == 0x1080 == ShiftTimes(0x8800, 8);
    } else if x == 137 { assert CrcTable[137] == 0x00a1 == ShiftTimes(0x8900, 8);
    } else if x == 138 { assert CrcTable[138] == 0x30c2 == ShiftTimes(0x8a00, 8);
    } else if x == 139 { assert CrcTable[139] == 0x20e3 == ShiftTimes(0x8b00, 8);
    } else if x == 140 { assert CrcTable[140] == 0x5004 == ShiftTimes(0x8c00, 8);
    } else if x == 141 { assert CrcTable[141] == 0x4025 == ShiftTimes(0x8d00, 8);
    } else if x == 142 { assert CrcTable[142] == 0x7046 == ShiftTimes(0x8e00, 8);
    } else if x == 143 { assert CrcTable[143] == 0x6067 == ShiftTimes(0x8f00, 8);
    }
  }

  lemma TableRow18(x: bv16)
    requires 144 <= x < 152
    ensures CrcTable[x] == ShiftTimes(HighByte(x), ByteShifts)
  {
    if x == 144 { assert CrcTable[144] == 0x83b9 == ShiftTimes(0x9000, 8);
    } else if x == 145 { assert CrcTable[145] == 0x9398 == ShiftTimes(0x9100, 8);
    } else if x == 146 { assert CrcTable[146] == 0xa3fb == ShiftTimes(0x9200, 8);
    } else if x == 147 { assert CrcTable[147] == 0xb3da == ShiftTimes(0x9300, 8);
    } else if x == 148 { assert CrcTable[148] == 0xc33d == ShiftTimes(0x9400, 8);
    } else if x == 149 { assert CrcTable[149] == 0xd31c == ShiftTimes(0x9500, 8);
    } else if x == 150 { assert CrcTable[150] == 0xe37f == ShiftTimes(0x9600, 8);
    } else if x == 151 { assert CrcTable[151] == 0xf35e == ShiftTimes(0x9700, 8);
    }
  }

  lemma TableRow19(x: bv16)
    requires 152 <= x < 160
    ensures CrcTable[x] == ShiftTimes(HighByte(x), ByteShifts)
  {
    if x == 152 { assert CrcTable[152] == 0x02b1 == ShiftTimes(0x9800, 8);
    } else if x == 153 { assert CrcTable[153] == 0x1290 == ShiftTimes(0x9900, 8);
    } else if x == 154 { assert CrcTable[154] == 0x22f3 == ShiftTimes(0x9a00, 8);
    } else if x == 155 { assert CrcTable[155] == 0x32d2 == ShiftTimes(0x9b00, 8);
    } else if x == 156 { assert CrcTable[156] == 0x4235 == ShiftTimes(0x9c00, 8);
    } else if x == 157 { assert CrcTable[157] == 0x5214 == ShiftTimes(0x9d00, 8);
    } else if x == 158 { assert CrcTable[158] == 0x6277 == ShiftTimes(0x9e00, 8);
    } else if x == 159 { assert CrcTable[159] == 0x7256 == ShiftTimes(0x9f00, 8);
    }
  }

  lemma TableRow20(x: bv16)
    requires 160 <= x < 168
    ensures CrcTable[x] == ShiftTimes(HighByte(x), ByteShifts)
  {
    if x == 160 { assert CrcTable[160] == 0xb5ea == ShiftTimes(0xa000, 8);
    } else if x == 161 { assert CrcTable[161] == 0xa5cb == ShiftTimes(0xa100, 8);
    } else if x == 162 { assert CrcTable[162] == 0x95a8 == ShiftTimes(0xa200, 8);
    } else if x == 163 { assert CrcTable[163] == 0x8589 == ShiftTimes(0xa300, 8);
    } else if x == 164 { assert CrcTable[164] == 0xf56e == ShiftTimes(0xa400, 8);
    } else if x == 165 { assert CrcTable[165] == 0xe54f == ShiftTimes(0xa500, 8);
    } else if x == 166 { assert CrcTable[166] == 0xd52c == ShiftTimes(0xa600, 8);
    } else if x == 167 { assert CrcTable[167] == 0xc50d == ShiftTimes(0xa700, 8);
    }
  }

  lemma TableRow21(x: bv16)
    requires 168 <= x < 176
    ensures CrcTable[x] == ShiftTimes(HighByte(x), ByteShifts)
  {
    if x == 168 { assert CrcTable[168] == 0x34e2 == ShiftTimes(0xa800, 8);
    } else if x == 169 { assert CrcTable[169] == 0x24c3 == ShiftTimes(0xa900, 8);
    } else if x == 170 { assert CrcTable[170] == 0x14a0 == ShiftTimes(0xaa00, 8);
    } else if x == 171 { assert CrcTable[171] == 0x0481 == ShiftTimes(0xab00, 8);
    } else if x == 172 { assert CrcTable[172] == 0x7466 == ShiftTimes(0xac00, 8);
    } else if x == 173 { assert CrcTable[173] == 0x6447 == ShiftTimes(0xad00, 8);
    } else if x == 174 { assert CrcTable[174] == 0x5424 == ShiftTimes(0xae00, 8);
    } else if x == 175 { assert CrcTable[175] == 0x4405 == ShiftTimes(0xaf00, 8);
    }
  }

  lemma TableRow22(x: bv16)
    requires 176 <= x < 184
    ensures CrcTable[x] == ShiftTimes(HighByte(x), ByteShifts)
  {
    if x == 176 { assert CrcTable[176] == 0xa7db == ShiftTimes(0xb000, 8);
    } else if x == 177 { assert CrcTable[177] == 0xb7fa == ShiftTimes(0xb100, 8);
    } else if x == 178 { assert CrcTable[178] == 0x8799 == ShiftTimes(0xb200, 8);
    } else if x == 179 { assert CrcTable[179] == 0x97b8 == ShiftTimes(0xb300, 8);
    } else if x == 180 { assert CrcTable[180] == 0xe75f == ShiftTimes(0xb400, 8);
    } else if x == 181 { assert CrcTable[181] == 0xf77e == ShiftTimes(0xb500, 8);
    } else if x == 182 { assert CrcTable[182] == 0xc71d == ShiftTimes(0xb600, 8);
    } else if x == 183 { assert CrcTable[183] == 0xd73c == ShiftTimes(0xb700, 8);
    }
  }

  lemma TableRow23(x: bv16)
    requires 184 <= x < 192
    ensures CrcTable[x] == ShiftTimes(HighByte(x), ByteShifts)
  {
    if x == 184 { assert CrcTable[184] == 0x26d3 == ShiftTimes(0xb800, 8);
    } else if x == 185 { assert CrcTable[185] == 0x36f2 == ShiftTimes(0xb900, 8);
    } else if x == 186 { assert CrcTable[186] == 0x0691 == ShiftTimes(0xba00, 8);
    } else if x == 187 { assert CrcTable[187] == 0x16b0 == ShiftTimes(0xbb00, 8);
    } else if x == 188 { assert CrcTable[188] == 0x6657 == ShiftTimes(0xbc00, 8);
    } else if x == 189 { assert CrcTable[189] == 0x7676 == ShiftTimes(0xbd00, 8);
    } else if x == 190 { assert CrcTable[190] == 0x4615 == ShiftTimes(0xbe00, 8);
    } else if x == 191 { assert CrcTable[191] == 0x5634 == ShiftTimes(0xbf00, 8);
    }
  }

  lemma TableRow24(x: bv16)
    requires 192 <= x < 200
    ensures CrcTable[x] == ShiftTimes(HighByte(x), ByteShifts)
  {
    if x == 192 { assert CrcTable[192] == 0xd94c == ShiftTimes(0xc000, 8);
    } else if x == 193 { assert CrcTable[193] == 0xc96d == ShiftTimes(0xc100, 8);
    } else if x == 194 { assert CrcTable[194] == 0xf90e == ShiftTimes(0xc200, 8);
    } else if x == 195 { assert CrcTable[195] == 0xe92f == ShiftTimes(0xc300, 8);
    } else if x == 196 { assert CrcTable[196] == 0x99c8 == ShiftTimes(0xc400, 8);
    } else if x == 197 { assert CrcTable[197] == 0x89e9 == ShiftTimes(0xc500, 8);
    } else if x == 198 { assert CrcTable[198] == 0xb98a == ShiftTimes(0xc600, 8);
    } else if x == 199 { assert CrcTable[199] == 0xa9ab == ShiftTimes(0xc700, 8);
    }
  }

  lemma TableRow25(x: bv16)
    requires 200 <= x < 208
    ensures CrcTable[x] == ShiftTimes(HighByte(x), ByteShifts)
  {
    if x == 200 { assert CrcTable[200] == 0x5844 == ShiftTimes(0xc800, 8);
    } else if x == 201 { assert CrcTable[201] == 0x4865 == ShiftTimes(0xc900, 8);
    } else if x == 202 { assert CrcTable[202] == 0x7806 == ShiftTimes(0xca00, 8);
    } else if x == 203 { assert CrcTable[203] == 0x6827 == ShiftTimes(0xcb00, 8);
    } else if x == 204 { assert CrcTable[204] == 0x18c0 == ShiftTimes(0xcc00, 8);
    } else if x == 205 { assert CrcTable[205] == 0x08e1 == ShiftTimes(0xcd00, 8);
    } else if x == 206 { assert CrcTable[206] == 0x3882 == ShiftTimes(0xce00, 8);
    } else if x == 207 { assert CrcTable[207] == 0x28a3 == ShiftTimes(0xcf00, 8);
    }
  }

  lemma TableRow26(x: bv16)
    requires 208 <= x < 216
    ensures CrcTable[x] == ShiftTimes(HighByte(x), ByteShifts)
  {
    if x == 208 { assert CrcTable[208] == 0xcb7d == ShiftTimes(0xd000, 8);
    } else if x == 209 { assert CrcTable[209] == 0xdb5c == ShiftTimes(0xd100, 8);
    } else if x == 210 { assert CrcTable[210] == 0xeb3f == ShiftTimes(0xd200, 8);
    } else if x == 211 { assert CrcTable[211] == 0xfb1e == ShiftTimes(0xd300, 8);
    } else if x == 212 { assert CrcTable[212] == 0x8bf9 == ShiftTimes(0xd400, 8);
    } else if x == 213 { assert CrcTable[213] == 0x9bd8 == ShiftTimes(0xd500, 8);
    } else if x == 214 { assert CrcTable[214] == 0xabbb == ShiftTimes(0xd600, 8);
    } else if x == 215 { assert CrcTable[215] == 0xbb9a == ShiftTimes(0xd700, 8);
    }
  }

  lemma TableRow27(x: bv16)
    requires 216 <= x < 224
    ensures CrcTable[x] == ShiftTimes(HighByte(x), ByteShifts)
  {
    if x == 216 { assert CrcTable[216] == 0x4a75 == ShiftTimes(0xd800, 8);
    } else if x == 217 { assert CrcTable[217] == 0x5a54 == ShiftTimes(0xd900, 8);
    } else if x == 218 { assert CrcTable[218] == 0x6a37 == ShiftTimes(0xda00, 8);
    } else if x == 219 { assert CrcTable[219] == 0x7a16 == ShiftTimes(0xdb00, 8);
    } else if x == 220 { assert CrcTable[220] == 0x0af1 == ShiftTimes(0xdc00, 8);
    } else if x == 221 { assert CrcTable[221] == 0x1ad0 == ShiftTimes(0xdd00, 8);
    } else if x == 222 { assert CrcTable[222] == 0x2ab3 == ShiftTimes(0xde00, 8);
    } else if x == 223 { assert CrcTable[223] == 0x3a92 == ShiftTimes(0xdf00, 8);
    }
  }

  lemma TableRow28(x: bv16)
    requires 224 <= x < 232
    ensures CrcTable[x] == ShiftTimes(HighByte(x), ByteShifts)
  {
    if x == 224 { assert CrcTable[224] == 0xfd2e == ShiftTimes(0xe000, 8);
    } else if x == 225 { assert CrcTable[225] == 0xed0f == ShiftTimes(0xe100, 8);
    } else if x == 226 { assert CrcTable[226] == 0xdd6c == ShiftTimes(0xe200, 8);
    } else if x == 227 { assert CrcTable[227] == 0xcd4d == ShiftTimes(0xe300, 8);
    } else if x == 228 { assert CrcTable[228] == 0xbdaa == ShiftTimes(0xe400, 8);
    } else if x == 229 { assert CrcTable[229] == 0xad8b == ShiftTimes(0xe500, 8);
    } else if x == 230 { assert CrcTable[230] == 0x9de8 == ShiftTimes(0xe600, 8);
    } else if x == 231 { assert CrcTable[231] == 0x8dc9 == ShiftTimes(0xe700, 8);
    }
  }

  lemma TableRow29(x: bv16)
    requires 232 <= x < 240
    ensures CrcTable[x] == ShiftTimes(HighByte(x), ByteShifts)
  {
    if x == 232 { assert CrcTable[232] == 0x7c26 == ShiftTimes(0xe800, 8);
    } else if x == 233 { assert CrcTable[233] == 0x6c07 == ShiftTimes(0xe900, 8);
    } else if x == 234 { assert CrcTable[234] == 0x5c64 == ShiftTimes(0xea00, 8);
    } else if x == 235 { assert CrcTable[235] == 0x4c45 == ShiftTimes(0xeb00, 8);
    } else if x == 236 { assert CrcTable[236] == 0x3ca2 == ShiftTimes(0xec00, 8);
    } else if x == 237 { assert CrcTable[237] == 0x2c83 == ShiftTimes(0xed00, 8);
    } else if x == 238 { assert CrcTable[238] == 0x1ce0 == ShiftTimes(0xee00, 8);
    } else if x == 239 { assert CrcTable[239] == 0x0cc1 == ShiftTimes(0xef00, 8);
    }
  }

  lemma TableRow30(x: bv16)
    requires 240 <= x < 248
    ensures CrcTable[x] == ShiftTimes(HighByte(x), ByteShifts)
  {
    if x == 240 { assert CrcTable[240] == 0xef1f == ShiftTimes(0xf000, 8);
    } else if x == 241 { assert CrcTable[241] == 0xff3e == ShiftTimes(0xf100, 8);
    } else if x == 242 { assert CrcTable[242] == 0xcf5d == ShiftTimes(0xf200, 8);
    } else if x == 243 { assert CrcTable[243] == 0xdf7c == ShiftTimes(0xf300, 8);
    } else if x == 244 { assert CrcTable[244] == 0xaf9b == ShiftTimes(0xf400, 8);
    } else if x == 245 { assert CrcTable[245] == 0xbfba == ShiftTimes(0xf500, 8);
    } else if x == 246 { assert CrcTable[246] == 0x8fd9 == ShiftTimes(0xf600, 8);
    } else if x == 247 { assert CrcTable[247] == 0x9ff8 == ShiftTimes(0xf700, 8);
    }
  }

  lemma TableRow31(x: bv16)
    requires 248 <= x < 256
    ensures CrcTable[x] == ShiftTimes(HighByte(x), ByteShifts)
  {
    if x == 248 { assert CrcTable[248] == 0x6e17 == ShiftTimes(0xf800, 8);
    } else if x == 249 { assert CrcTable[249] == 0x7e36 == ShiftTimes(0xf900, 8);
    } else if x == 250 { assert CrcTable[250] == 0x4e55 == ShiftTimes(0xfa00, 8);
    } else if x == 251 { assert CrcTable[251] == 0x5e74 == ShiftTimes(0xfb00, 8);
    } else if x == 252 { assert CrcTable[252] == 0x2e93 == ShiftTimes(0xfc00, 8);
    } else if x == 253 { assert CrcTable[253] == 0x3eb2 == ShiftTimes(0xfd00, 8);
    } else if x == 254 { assert CrcTable[254] == 0x0ed1 == ShiftTimes(0xfe00, 8);
    } else if x == 255 { assert CrcTable[255] == 0x1ef0 == ShiftTimes(0xff00, 8);
    }
  }

  /** Entry i of CRC16_XMODEM_TABLE is eight bit-loop shifts of i in the high byte. */
  lemma TableEntry(x: bv16)
    requires x < 256
    ensures CrcTable[x] == ShiftTimes(HighByte(x), ByteShifts)
  {
    if x < 8 { TableRow0(x);
    } else if x < 16 { TableRow1(x);
    } else if x < 24 { TableRow2(x);
    } else if x < 32 { TableRow3(x);
    } else if x < 40 { TableRow4(x);
    } else if x < 48 { TableRow5(x);
    } else if x < 56 { TableRow6(x);
    } else if x < 64 { TableRow7(x);
    } else if x < 72 { TableRow8(x);
    } else if x < 80 { TableRow9(x);
    } else if x < 88 { TableRow10(x);
    } else if x < 96 { TableRow11(x);
    } else if x < 104 { TableRow12(x);
    } else if x < 112 { TableRow13(x);
    } else if x < 120 { TableRow14(x);
    } else if x < 128 { TableRow15(x);
    } else if x < 136 { TableRow16(x);
    } else if x < 144 { TableRow17(x);
    } else if x < 152 { TableRow18(x);
    } else if x < 160 { TableRow19(x);
    } else if x < 168 { TableRow20(x);
    } else if x < 176 { TableRow21(x);
    } else if x < 184 { TableRow22(x);
    } else if x < 192 { TableRow23(x);
    } else if x < 200 { TableRow24(x);
    } else if x < 208 { TableRow25(x);
    } else if x < 216 { TableRow26(x);
    } else if x < 224 { TableRow27(x);
    } else if x < 232 { TableRow28(x);
    } else if x < 240 { TableRow29(x);
    } else if x < 248 { TableRow30(x);
    } else { TableRow31(x);
    }
  }

  /** Every entry of `table` is its index, moved into the high byte, shifted through one
      byte of the bit loop. */
  ghost predicate ShiftTable(table: seq<bv16>) {
    |table| == 256 && forall i: bv16 :: i < 0x100 ==> table[i] == ShiftTimes(HighByte(i), ByteShifts)
  }

  /** CRC16_XMODEM_TABLE is that table for the polynomial 0x1021. */
  lemma CrcTableIsShiftTable()
    ensures ShiftTable(CrcTable)
  {
    forall i: bv16 | i < 0x100
      ensures CrcTable[i] == ShiftTimes(HighByte(i), ByteShifts)
    {
      TableEntry(i);
    }
  }

  /** With such a table, one table step is one bit-loop byte step. */
  lemma WordStepAgrees(table: seq<bv16>, crc: bv16, w: bv16)
    requires ShiftTable(table) && w < 0x100
    ensures WordTableStep(table, crc, w) == WordBitStep(crc, w)
  {
    StepWithEntry(crc, w, table[TableIndex(crc, w)]);
  }

  /** A table step is the bit-loop step whenever the entry it looks up is its index shifted
      through the bit loop. */
  lemma StepWithEntry(crc: bv16, w: bv16, entry: bv16)
    ensures entry == ShiftTimes(HighByte(TableIndex(crc, w)), ByteShifts)
            ==> Carry(crc) ^ entry == WordBitStep(crc, w)
  {
    SplitRegister(crc, w);
    ShiftSplit(Mix(crc, w), LowByte(crc), HighByte(TableIndex(crc, w)), Carry(crc), entry);
  }

  lemma StepAgrees(table: seq<bv16>, crc: bv16, b: bv8)
    requires ShiftTable(table)
    ensures TableStep(table, crc, b) == BitStep(crc, b)
  {
    WordStepAgrees(table, crc, Widen(b));
  }

  /** Each entry w of CRC16_XMODEM_TABLE is the bit-loop CRC of the single byte w from
      initial value 0. */
  lemma TableIsSingleByteCrc(w: bv16)
    requires w < 0x100
    ensures CrcTable[w] == WordBitStep(0, w)
  {
    TableEntry(w);
    assert Mix(0, w) == HighByte(w);
  }

  /** With such a table the table-driven CRC equals the bit-loop CRC on every input and every
      initial value. */
  lemma {:induction false} TableCrcIsBitwise(table: seq<bv16>, crc: bv16, data: seq<bv8>)
    requires ShiftTable(table)
    ensures TableCrcFrom(table, crc, data) == BitwiseCrcFrom(crc, data)
  {
    if data != [] {
      TableCrcIsBitwise(table, crc, data[..|data| - 1]);
      StepAgrees(table, BitwiseCrcFrom(crc, data[..|data| - 1]), data[|data| - 1]);
    }
  }
}
