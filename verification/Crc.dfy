/**
 * The table-driven checksum template of El/CRC.hpp.
 *
 * Machine words are bit strings, most significant bit first, and the width of a register is its
 * length.  The 256 table constants are proved to be the remainders of their indices; after that every
 * property is stated over bitwise long division by the generator polynomial.
 */
module Crc {

  type Byte = b: seq<bool> | |b| == 8 witness Zeros(8)

  /** The widths of the unsigned types the template is instantiated with. */
  predicate IsRegister(r: seq<bool>) {
    |r| == 8 || |r| == 16 || |r| == 32 || |r| == 64
  }

  function Zeros(n: nat): (z: seq<bool>)
    ensures |z| == n
    ensures forall i :: 0 <= i < n ==> !z[i]
  {
    seq(n, _ => false)
  }

  function Xor(a: seq<bool>, b: seq<bool>): (c: seq<bool>)
    requires |a| == |b|
    ensures |c| == |a|
    ensures forall i :: 0 <= i < |a| ==> c[i] == (a[i] != b[i])
  {
    seq(|a|, i requires 0 <= i < |a| => a[i] != b[i])
  }

  // --- Bitwise definition -------------------------------------------------------------------

  /** The generator polynomial of section 3.2.9 of IEEE 802.3, without its leading term. */
  function Generator(): (g: seq<bool>)
    ensures |g| == 32
  {
    WordBits(POLYNOMIAL)
  }

  const POLYNOMIAL: bv32 := 0x04C1_1DB7

  /** One step of long division: shift, and subtract the divisor if a term left the register. */
  function BitStep(r: seq<bool>): (r': seq<bool>)
    requires |r| == 32
    ensures |r'| == 32
  {
    if r[0] then Xor(r[1..] + [false], Generator()) else r[1..] + [false]
  }

  function BitSteps(n: nat, r: seq<bool>): (r': seq<bool>)
    requires |r| == 32
    ensures |r'| == 32
  {
    if n == 0 then r else BitSteps(n - 1, BitStep(r))
  }

  /** Long division of the message bits, first bit first, starting from the register r. */
  function Divide(r: seq<bool>, bits: seq<bool>): (r': seq<bool>)
    requires |r| == 32
    ensures |r'| == 32
    decreases bits
  {
    if bits == [] then r else Divide(BitStep(Xor(r, [bits[0]] + Zeros(31))), bits[1..])
  }

  // --- The checksum -------------------------------------------------------------------------

  /** What a table entry stands for: the byte followed by 24 zero bits, divided. */
  function Remainder(b: Byte): (r: seq<bool>)
    ensures |r| == 32
  {
    BitSteps(8, b + Zeros(24))
  }

  /** A 32-bit table entry converted to a word of n bits. */
  function Convert(e: seq<bool>, n: nat): (r: seq<bool>)
    requires |e| == 32
    ensures |r| == n
  {
    if n >= 32 then Zeros(n - 32) + e else e[32 - n..]
  }

  /** The register moved up by a byte, with the remainder of the byte that left it added. */
  function ByteStep(r: seq<bool>): (r': seq<bool>)
    requires |r| >= 8
    ensures |r'| == |r|
  {
    Xor(r[8..] + Zeros(8), Convert(Remainder(r[..8]), |r|))
  }

  function Absorb(r: seq<bool>, b: Byte): (r': seq<bool>)
    requires |r| >= 8
    ensures |r'| == |r|
  {
    ByteStep(Xor(r, b + Zeros(|r| - 8)))
  }

  function Checksum(r: seq<bool>, data: seq<Byte>): (r': seq<bool>)
    requires |r| >= 8
    ensures |r'| == |r|
    decreases data
  {
    if data == [] then r else Checksum(Absorb(r, data[0]), data[1..])
  }

  // --- Bits of the table constants ----------------------------------------------------------

  /** The single bit number i of a 32-bit word, counted from the most significant. */
  function MaskAt(i: nat): bv32 {
    if i == 0 then 0x8000_0000 else MaskAt(i - 1) >> 1
  }

  predicate Has(x: bv32, m: bv32) {
    x & m != 0
  }

  /** The bits of a 32-bit constant. */
  function WordBits(x: bv32): (s: seq<bool>)
    ensures |s| == 32
  {
    seq(32, i requires 0 <= i < 32 => Has(x, MaskAt(i)))
  }

  /** The byte value of eight bits. */
  function Index(b: Byte): bv8 {
    (if b[0] then 0x80 else 0) | (if b[1] then 0x40 else 0) | (if b[2] then 0x20 else 0) | (if b[3] then 0x10 else 0) |
    (if b[4] then 0x08 else 0) | (if b[5] then 0x04 else 0) | (if b[6] then 0x02 else 0) | (if b[7] then 0x01 else 0)
  }

  /** The table, sixteen entries a row. */
  function Row(hi: bv8): (row: seq<bv32>)
    ensures |row| == 16
  {
    if hi == 0x0 then ROW_0 else
    if hi == 0x1 then ROW_1 else
    if hi == 0x2 then ROW_2 else
    if hi == 0x3 then ROW_3 else
    if hi == 0x4 then ROW_4 else
    if hi == 0x5 then ROW_5 else
    if hi == 0x6 then ROW_6 else
    if hi == 0x7 then ROW_7 else
    if hi == 0x8 then ROW_8 else
    if hi == 0x9 then ROW_9 else
    if hi == 0xA then ROW_A else
    if hi == 0xB then ROW_B else
    if hi == 0xC then ROW_C else
    if hi == 0xD then ROW_D else
    if hi == 0xE then ROW_E else
    ROW_F
  }

  const ROW_0: seq<bv32> :=
    [
      0x00000000, 0x04C11DB7, 0x09823B6E, 0x0D4326D9,
      0x130476DC, 0x17C56B6B, 0x1A864DB2, 0x1E475005,
      0x2608EDB8, 0x22C9F00F, 0x2F8AD6D6, 0x2B4BCB61,
      0x350C9B64, 0x31CD86D3, 0x3C8EA00A, 0x384FBDBD]

  const ROW_1: seq<bv32> :=
    [
      0x4C11DB70, 0x48D0C6C7, 0x4593E01E, 0x4152FDA9,
      0x5F15ADAC, 0x5BD4B01B, 0x569796C2, 0x52568B75,
      0x6A1936C8, 0x6ED82B7F, 0x639B0DA6, 0x675A1011,
      0x791D4014, 0x7DDC5DA3, 0x709F7B7A, 0x745E66CD]

  const ROW_2: seq<bv32> :=
    [
      0x9823B6E0, 0x9CE2AB57, 0x91A18D8E, 0x95609039,
      0x8B27C03C, 0x8FE6DD8B, 0x82A5FB52, 0x8664E6E5,
      0xBE2B5B58, 0xBAEA46EF, 0xB7A96036, 0xB3687D81,
      0xAD2F2D84, 0xA9EE3033, 0xA4AD16EA, 0xA06C0B5D]

  const ROW_3: seq<bv32> :=
    [
      0xD4326D90, 0xD0F37027, 0xDDB056FE, 0xD9714B49,
      0xC7361B4C, 0xC3F706FB, 0xCEB42022, 0xCA753D95,
      0xF23A8028, 0xF6FB9D9F, 0xFBB8BB46, 0xFF79A6F1,
      0xE13EF6F4, 0xE5FFEB43, 0xE8BCCD9A, 0xEC7DD02D]

  const ROW_4: seq<bv32> :=
    [
      0x34867077, 0x30476DC0, 0x3D044B19, 0x39C556AE,
      0x278206AB, 0x23431B1C, 0x2E003DC5, 0x2AC12072,
      0x128E9DCF, 0x164F8078, 0x1B0CA6A1, 0x1FCDBB16,
      0x018AEB13, 0x054BF6A4, 0x0808D07D, 0x0CC9CDCA]

  const ROW_5: seq<bv32> :=
    [
      0x7897AB07, 0x7C56B6B0, 0x71159069, 0x75D48DDE,
      0x6B93DDDB, 0x6F52C06C, 0x6211E6B5, 0x66D0FB02,
      0x5E9F46BF, 0x5A5E5B08, 0x571D7DD1, 0x53DC6066,
      0x4D9B3063, 0x495A2DD4, 0x44190B0D, 0x40D816BA]

  const ROW_6: seq<bv32> :=
    [
      0xACA5C697, 0xA864DB20, 0xA527FDF9, 0xA1E6E04E,
      0xBFA1B04B, 0xBB60ADFC, 0xB6238B25, 0xB2E29692,
      0x8AAD2B2F, 0x8E6C3698, 0x832F1041, 0x87EE0DF6,
      0x99A95DF3, 0x9D684044, 0x902B669D, 0x94EA7B2A]

  const ROW_7: seq<bv32> :=
    [
      0xE0B41DE7, 0xE4750050, 0xE9362689, 0xEDF73B3E,
      0xF3B06B3B, 0xF771768C, 0xFA325055, 0xFEF34DE2,
      0xC6BCF05F, 0xC27DEDE8, 0xCF3ECB31, 0xCBFFD686,
      0xD5B88683, 0xD1799B34, 0xDC3ABDED, 0xD8FBA05A]

  const ROW_8: seq<bv32> :=
    [
      0x690CE0EE, 0x6DCDFD59, 0x608EDB80, 0x644FC637,
      0x7A089632, 0x7EC98B85, 0x738AAD5C, 0x774BB0EB,
      0x4F040D56, 0x4BC510E1, 0x46863638, 0x42472B8F,
      0x5C007B8A, 0x58C1663D, 0x558240E4, 0x51435D53]

  const ROW_9: seq<bv32> :=
    [
      0x251D3B9E, 0x21DC2629, 0x2C9F00F0, 0x285E1D47,
      0x36194D42, 0x32D850F5, 0x3F9B762C, 0x3B5A6B9B,
      0x0315D626, 0x07D4CB91, 0x0A97ED48, 0x0E56F0FF,
      0x1011A0FA, 0x14D0BD4D, 0x19939B94, 0x1D528623]

  const ROW_A: seq<bv32> :=
    [
      0xF12F560E, 0xF5EE4BB9, 0xF8AD6D60, 0xFC6C70D7,
      0xE22B20D2, 0xE6EA3D65, 0xEBA91BBC, 0xEF68060B,
      0xD727BBB6, 0xD3E6A601, 0xDEA580D8, 0xDA649D6F,
      0xC423CD6A, 0xC0E2D0DD, 0xCDA1F604, 0xC960EBB3]

  const ROW_B: seq<bv32> :=
    [
      0xBD3E8D7E, 0xB9FF90C9, 0xB4BCB610, 0xB07DABA7,
      0xAE3AFBA2, 0xAAFBE615, 0xA7B8C0CC, 0xA379DD7B,
      0x9B3660C6, 0x9FF77D71, 0x92B45BA8, 0x9675461F,
      0x8832161A, 0x8CF30BAD, 0x81B02D74, 0x857130C3]

  const ROW_C: seq<bv32> :=
    [
      0x5D8A9099, 0x594B8D2E, 0x5408ABF7, 0x50C9B640,
      0x4E8EE645, 0x4A4FFBF2, 0x470CDD2B, 0x43CDC09C,
      0x7B827D21, 0x7F436096, 0x7200464F, 0x76C15BF8,
      0x68860BFD, 0x6C47164A, 0x61043093, 0x65C52D24]

  const ROW_D: seq<bv32> :=
    [
      0x119B4BE9, 0x155A565E, 0x18197087, 0x1CD86D30,
      0x029F3D35, 0x065E2082, 0x0B1D065B, 0x0FDC1BEC,
      0x3793A651, 0x3352BBE6, 0x3E119D3F, 0x3AD08088,
      0x2497D08D, 0x2056CD3A, 0x2D15EBE3, 0x29D4F654]

  const ROW_E: seq<bv32> :=
    [
      0xC5A92679, 0xC1683BCE, 0xCC2B1D17, 0xC8EA00A0,
      0xD6AD50A5, 0xD26C4D12, 0xDF2F6BCB, 0xDBEE767C,
      0xE3A1CBC1, 0xE760D676, 0xEA23F0AF, 0xEEE2ED18,
      0xF0A5BD1D, 0xF464A0AA, 0xF9278673, 0xFDE69BC4]

  const ROW_F: seq<bv32> :=
    [
      0x89B8FD09, 0x8D79E0BE, 0x803AC667, 0x84FBDBD0,
      0x9ABC8BD5, 0x9E7D9662, 0x933EB0BB, 0x97FFAD0C,
      0xAFB010B1, 0xAB710D06, 0xA6322BDF, 0xA2F33668,
      0xBCB4666D, 0xB8757BDA, 0xB5365D03, 0xB1F740B4]

  /** One division step on a 32-bit word. */
  function WordStep(x: bv32): bv32 {
    if x & 0x8000_0000 == 0 then x << 1 else (x << 1) ^ POLYNOMIAL
  }

  function WordByteStep(x: bv32): bv32 {
    WordStep(WordStep(WordStep(WordStep(WordStep(WordStep(WordStep(WordStep(x))))))))
  }

  lemma Rows0To3(hi: bv8, lo: bv8)
    requires hi < 4 && lo < 16
    ensures Row(hi)[lo as int] == WordByteStep((((hi as bv32) << 4) + lo as bv32) << 24)
  {
    if case hi == 0 => case hi == 1 => case hi == 2 => case hi == 3 =>
  }

  lemma Rows4To7(hi: bv8, lo: bv8)
    requires 4 <= hi < 8 && lo < 16
    ensures Row(hi)[lo as int] == WordByteStep((((hi as bv32) << 4) + lo as bv32) << 24)
  {
    if case hi == 4 => case hi == 5 => case hi == 6 => case hi == 7 =>
  }

  lemma Rows8To11(hi: bv8, lo: bv8)
    requires 8 <= hi < 12 && lo < 16
    ensures Row(hi)[lo as int] == WordByteStep((((hi as bv32) << 4) + lo as bv32) << 24)
  {
    if case hi == 8 => case hi == 9 => case hi == 10 => case hi == 11 =>
  }

  lemma Rows12To15(hi: bv8, lo: bv8)
    requires 12 <= hi < 16 && lo < 16
    ensures Row(hi)[lo as int] == WordByteStep((((hi as bv32) << 4) + lo as bv32) << 24)
  {
    if case hi == 12 => case hi == 13 => case hi == 14 => case hi == 15 =>
  }

  lemma JoinNibbles(i: bv8)
    ensures i >> 4 < 16 && i & 0xF < 16
    ensures (((i >> 4) as bv32) << 4) + (i & 0xF) as bv32 == i as bv32
  {}

  lemma EntryIsByteStep(i: bv8)
    ensures i & 0xF < 16 && Row(i >> 4)[(i & 0xF) as int] == WordByteStep((i as bv32) << 24)
  {
    JoinNibbles(i);
    if
    case i >> 4 < 4 => Rows0To3(i >> 4, i & 0xF);
    case 4 <= i >> 4 < 8 => Rows4To7(i >> 4, i & 0xF);
    case 8 <= i >> 4 < 12 => Rows8To11(i >> 4, i & 0xF);
    case 12 <= i >> 4 => Rows12To15(i >> 4, i & 0xF);
  }

  // --- From the constants to their bits -----------------------------------------------------

  predicate SingleBit(m: bv32) {
    m & (m - 1) == 0
  }

  lemma HalfOfSingleBit(m: bv32)
    requires SingleBit(m)
    ensures SingleBit(m >> 1)
  {}

  lemma {:induction false} MaskIsSingleBit(i: nat)
    ensures SingleBit(MaskAt(i))
  {
    if i > 0 {
      MaskIsSingleBit(i - 1);
      HalfOfSingleBit(MaskAt(i - 1));
    }
  }

  lemma Masks()
    ensures MaskAt(0) == 0x8000_0000 && MaskAt(1) == 0x4000_0000 && MaskAt(2) == 0x2000_0000
    ensures MaskAt(3) == 0x1000_0000 && MaskAt(4) == 0x0800_0000 && MaskAt(5) == 0x0400_0000
    ensures MaskAt(6) == 0x0200_0000 && MaskAt(7) == 0x0100_0000 && MaskAt(8) == 0x0080_0000
    ensures MaskAt(31) == 1
  {
    assert MaskAt(12) == 0x8_0000;
    assert MaskAt(16) == 0x8000;
    assert MaskAt(20) == 0x800;
    assert MaskAt(24) == 0x80;
    assert MaskAt(28) == 0x8;
  }

  lemma XorHas(x: bv32, y: bv32, m: bv32)
    requires SingleBit(m)
    ensures Has(x ^ y, m) == (Has(x, m) != Has(y, m))
  {}

  lemma XorBits(x: bv32, y: bv32)
    ensures WordBits(x ^ y) == Xor(WordBits(x), WordBits(y))
  {
    hide Has, MaskAt, SingleBit;
    forall i | 0 <= i < 32 ensures WordBits(x ^ y)[i] == Xor(WordBits(x), WordBits(y))[i] {
      MaskIsSingleBit(i);
      XorHas(x, y, MaskAt(i));
    }
  }

  function Doubled(x: bv32): bv32 {
    x << 1
  }

  function Halved(m: bv32): bv32 {
    m >> 1
  }

  lemma ShiftHas(x: bv32, m: bv32)
    ensures Has(Doubled(x), m) == Has(x, Halved(m))
    ensures !Has(Doubled(x), 1)
  {}

  lemma LastMask()
    ensures MaskAt(31) == 1
  {
    Masks();
  }

  lemma NextMask(i: nat)
    ensures MaskAt(i + 1) == Halved(MaskAt(i))
  {}

  lemma WordBitAt(x: bv32, i: nat)
    requires i < 32
    ensures WordBits(x)[i] == Has(x, MaskAt(i))
  {}

  lemma ShiftBitAt(x: bv32, i: nat)
    requires i < 32
    ensures WordBits(Doubled(x))[i] == (i < 31 && WordBits(x)[i + 1])
  {
    hide Has, MaskAt, WordBits, Doubled, Halved;
    WordBitAt(Doubled(x), i);
    if i < 31 {
      WordBitAt(x, i + 1);
      NextMask(i);
      ShiftHas(x, MaskAt(i));
    } else {
      LastMask();
      ShiftHas(x, 1);
    }
  }

  lemma ShiftBits(x: bv32)
    ensures WordBits(x << 1) == WordBits(x)[1..] + [false]
  {
    assert x << 1 == Doubled(x);
    hide WordBits, Doubled;
    var shifted, bits := WordBits(Doubled(x)), WordBits(x);
    forall i | 0 <= i < 32 ensures shifted[i] == (i < 31 && bits[i + 1]) {
      ShiftBitAt(x, i);
    }
  }

  /** The division step on the word is the division step on its bits. */
  lemma StepBits(x: bv32)
    ensures WordBits(WordStep(x)) == BitStep(WordBits(x))
  {
    Masks();
    ShiftBits(x);
    XorBits(x << 1, POLYNOMIAL);
    hide WordBits;
    assert WordBits(x)[0] == Has(x, 0x8000_0000);
  }
  lemma ByteHas(b: bv8, m: bv32)
    ensures m & 0xFF00_0000 == 0 ==> !Has((b as bv32) << 24, m)
  {}

  lemma LowMask(m: bv32)
    ensures m & 0xFF00_0000 == 0 ==> (m >> 1) & 0xFF00_0000 == 0
  {}

  lemma {:induction false} MaskBelowByte(i: nat)
    requires i >= 8
    ensures MaskAt(i) & 0xFF00_0000 == 0
  {
    if i == 8 {
      Masks();
    } else {
      MaskBelowByte(i - 1);
      LowMask(MaskAt(i - 1));
    }
  }

  lemma IndexHas(b: Byte)
    ensures Has((Index(b) as bv32) << 24, 0x8000_0000) == b[0] && Has((Index(b) as bv32) << 24, 0x4000_0000) == b[1]
    ensures Has((Index(b) as bv32) << 24, 0x2000_0000) == b[2] && Has((Index(b) as bv32) << 24, 0x1000_0000) == b[3]
    ensures Has((Index(b) as bv32) << 24, 0x0800_0000) == b[4] && Has((Index(b) as bv32) << 24, 0x0400_0000) == b[5]
    ensures Has((Index(b) as bv32) << 24, 0x0200_0000) == b[6] && Has((Index(b) as bv32) << 24, 0x0100_0000) == b[7]
  {}

  lemma IndexBits(b: Byte)
    ensures WordBits((Index(b) as bv32) << 24) == b + Zeros(24)
  {
    IndexHas(b);
    hide Has, Index;
    Masks();
    var x := (Index(b) as bv32) << 24;
    forall i | 8 <= i < 32 ensures !WordBits(x)[i] {
      MaskBelowByte(i);
      ByteHas(Index(b), MaskAt(i));
    }
  }

  function WordSteps(n: nat, x: bv32): bv32 {
    if n == 0 then x else WordSteps(n - 1, WordStep(x))
  }

  lemma {:induction false} WordStepsBits(n: nat, x: bv32)
    ensures WordBits(WordSteps(n, x)) == BitSteps(n, WordBits(x))
  {
    hide WordBits, WordStep, BitStep;
    if n > 0 {
      StepBits(x);
      WordStepsBits(n - 1, WordStep(x));
    }
  }

  lemma WordByteStepIsSteps(x: bv32)
    ensures WordByteStep(x) == WordSteps(8, x)
  {
    hide WordStep;
    var x2 := WordStep(WordStep(x));
    var x4 := WordStep(WordStep(x2));
    var x6 := WordStep(WordStep(x4));
    assert WordSteps(8, x) == WordSteps(6, x2) == WordSteps(4, x4) == WordSteps(2, x6);
    assert WordSteps(2, x6) == WordSteps(1, WordStep(x6)) == WordSteps(0, WordStep(WordStep(x6)));
  }

  /** All 256 constants of the table are the remainders of their indices. */
  lemma TableIsRemainder(b: Byte)
    ensures Index(b) & 0xF < 16
    ensures WordBits(Row(Index(b) >> 4)[(Index(b) & 0xF) as int]) == Remainder(b)
  {
    hide Index, WordBits, WordByteStep, Row;
    EntryIsByteStep(Index(b));
    var x := (Index(b) as bv32) << 24;
    WordByteStepIsSteps(x);
    WordStepsBits(8, x);
    IndexBits(b);
  }

  // --- The loop -----------------------------------------------------------------------------

  /** The table look-up of the loop body. */
  method LookUp(index: Byte) returns (entry: seq<bool>)
    ensures entry == Remainder(index)
  {
    TableIsRemainder(index);
    entry := WordBits(Row(Index(index) >> 4)[(Index(index) & 0xF) as int]);
  }

  /** The loop body: shift, and add the entry selected by the byte that leaves and the data byte. */
  method AbsorbByte(r: seq<bool>, b: Byte) returns (r': seq<bool>)
    requires |r| >= 8
    ensures r' == Absorb(r, b)
  {
    var entry := LookUp(Xor(r[..8], b));
    r' := Xor(r[8..] + Zeros(8), Convert(entry, |r|));
    var moved := Xor(r, b + Zeros(|r| - 8));
    assert moved[..8] == Xor(r[..8], b);
    assert moved[8..] == r[8..];
  }

  /** The checksum loop. */
  method Update(start: seq<bool>, data: seq<Byte>) returns (crc: seq<bool>)
    requires IsRegister(start)
    ensures |crc| == |start|
    ensures crc == Checksum(start, data)
  {
    crc := start;
    for i := 0 to |data|
      invariant |crc| == |start|
      invariant Checksum(start, data) == Checksum(crc, data[i..])
    {
      assert data[i..][1..] == data[i + 1..];
      crc := AbsorbByte(crc, data[i]);
    }
    assert data[|data|..] == [];
  }

  // --- Chunks -------------------------------------------------------------------------------

  /** Feeding a message in two pieces gives the checksum of the whole, for every width. */
  lemma {:induction false} ChunkIndependent(r: seq<bool>, a: seq<Byte>, b: seq<Byte>)
    requires IsRegister(r)
    ensures Checksum(r, a + b) == Checksum(Checksum(r, a), b)
    decreases a
  {
    hide Absorb;
    if a == [] {
      assert a + b == b;
    } else {
      assert (a + b)[1..] == a[1..] + b;
      ChunkIndependent(Absorb(r, a[0]), a[1..], b);
    }
  }

  // --- Linearity ----------------------------------------------------------------------------

  lemma BitStepLinear(x: seq<bool>, y: seq<bool>)
    requires |x| == |y| == 32
    ensures BitStep(Xor(x, y)) == Xor(BitStep(x), BitStep(y))
  {
    var g := Generator();
    hide Generator;
  }

  lemma {:induction false} BitStepsLinear(n: nat, x: seq<bool>, y: seq<bool>)
    requires |x| == |y| == 32
    ensures BitSteps(n, Xor(x, y)) == Xor(BitSteps(n, x), BitSteps(n, y))
  {
    hide BitStep;
    if n > 0 {
      BitStepLinear(x, y);
      BitStepsLinear(n - 1, BitStep(x), BitStep(y));
    }
  }

  lemma RemainderLinear(a: Byte, b: Byte)
    ensures Remainder(Xor(a, b)) == Xor(Remainder(a), Remainder(b))
  {
    BitStepsLinear(8, a + Zeros(24), b + Zeros(24));
    assert Xor(a + Zeros(24), b + Zeros(24)) == Xor(a, b) + Zeros(24);
  }

  lemma ByteStepLinear(x: seq<bool>, y: seq<bool>)
    requires |x| == |y| >= 8
    ensures ByteStep(Xor(x, y)) == Xor(ByteStep(x), ByteStep(y))
  {
    RemainderLinear(x[..8], y[..8]);
    assert Xor(x, y)[..8] == Xor(x[..8], y[..8]);
    hide Remainder;
  }

  /** The bytewise exclusive or of two messages. */
  function XorMessages(a: seq<Byte>, b: seq<Byte>): (c: seq<Byte>)
    requires |a| == |b|
    ensures |c| == |a|
  {
    if a == [] then [] else [Xor(a[0], b[0])] + XorMessages(a[1..], b[1..])
  }

  lemma AbsorbLinear(x: seq<bool>, y: seq<bool>, a: Byte, b: Byte)
    requires |x| == |y| >= 8
    ensures Absorb(Xor(x, y), Xor(a, b)) == Xor(Absorb(x, a), Absorb(y, b))
  {
    var z := Zeros(|x| - 8);
    hide ByteStep;
    ByteStepLinear(Xor(x, a + z), Xor(y, b + z));
    assert Xor(Xor(x, y), Xor(a, b) + z) == Xor(Xor(x, a + z), Xor(y, b + z));
  }

  /** The checksum is linear over exclusive or, for every width. */
  lemma {:induction false} ChecksumLinear(x: seq<bool>, y: seq<bool>, a: seq<Byte>, b: seq<Byte>)
    requires IsRegister(x) && |x| == |y| && |a| == |b|
    ensures Checksum(Xor(x, y), XorMessages(a, b)) == Xor(Checksum(x, a), Checksum(y, b))
    decreases a
  {
    hide Absorb;
    if a != [] {
      AbsorbLinear(x, y, a[0], b[0]);
      assert XorMessages(a, b)[1..] == XorMessages(a[1..], b[1..]);
      ChecksumLinear(Absorb(x, a[0]), Absorb(y, b[0]), a[1..], b[1..]);
    }
  }

  // --- Long division ------------------------------------------------------------------------

  /** The bits of a message in the order they are divided. */
  function MessageBits(data: seq<Byte>): seq<bool> {
    if data == [] then [] else data[0] + MessageBits(data[1..])
  }

  lemma ShiftOnly(t: seq<bool>)
    requires |t| == 32 && !t[0]
    ensures BitStep(t) == t[1..] + [false]
  {}

  /** The first bit of some, and the others, added to the register. */
  lemma SplitFirst(r: seq<bool>, bits: seq<bool>)
    requires |r| == 32 && 0 < |bits| <= 32
    ensures var first, rest := [bits[0]] + Zeros(31), [false] + (bits[1..] + Zeros(32 - |bits|));
      && Xor(r, bits + Zeros(32 - |bits|)) == Xor(Xor(r, first), rest)
      && rest[1..] + [false] == bits[1..] + Zeros(33 - |bits|)
  {
  }

  lemma XorNothing(r: seq<bool>, z: seq<bool>)
    requires |r| == |z| && forall i :: 0 <= i < |z| ==> !z[i]
    ensures Xor(r, z) == r && Xor(z, r) == r
  {
  }

  /** Up to 32 message bits can be added to the register at once and divided afterwards. */
  lemma {:induction false} DivideAtOnce(r: seq<bool>, bits: seq<bool>)
    requires |r| == 32 && |bits| <= 32
    ensures Divide(r, bits) == BitSteps(|bits|, Xor(r, bits + Zeros(32 - |bits|)))
    decreases bits
  {
    hide BitStep, Xor;
    if bits == [] {
      XorNothing(r, [] + Zeros(32));
    } else {
      var first, rest := [bits[0]] + Zeros(31), [false] + (bits[1..] + Zeros(32 - |bits|));
      SplitFirst(r, bits);
      BitStepLinear(Xor(r, first), rest);
      ShiftOnly(rest);
      DivideAtOnce(BitStep(Xor(r, first)), bits[1..]);
    }
  }

  lemma RemainderDivides(b: Byte)
    ensures Remainder(b) == Divide(Zeros(32), b)
  {
    DivideAtOnce(Zeros(32), b);
    XorNothing(b + Zeros(24), Zeros(32));
    hide Divide, BitSteps;
  }

  /**
   * One byte of a message, for every width: the register moves up by a byte, and the byte that leaves it, with
   * that of the message, is divided bit by bit; its remainder is added at the low end, as far as there is room.
   */
  lemma AbsorbDivides(r: seq<bool>, b: Byte)
    requires IsRegister(r)
    ensures var d := Divide(Zeros(32), Xor(r[..8], b));
      && (|r| == 64 ==> Absorb(r, b) == r[8..40] + Xor(r[40..] + Zeros(8), d))
      && (|r| == 32 ==> Absorb(r, b) == Xor(r[8..] + Zeros(8), d))
      && (|r| == 16 ==> Absorb(r, b) == Xor(r[8..] + Zeros(8), d[16..]))
      && (|r| == 8 ==> Absorb(r, b) == d[24..])
  {
    var x := Xor(r, b + Zeros(|r| - 8));
    assert x[..8] == Xor(r[..8], b) && x[8..] == r[8..];
    RemainderDivides(Xor(r[..8], b));
    var d := Remainder(x[..8]);
    hide Remainder, Divide;
    assert |r| == 64 ==> Xor(r[8..] + Zeros(8), Zeros(32) + d) == r[8..40] + Xor(r[40..] + Zeros(8), d);
    assert |r| == 8 ==> Xor(r[8..] + Zeros(8), d[24..]) == d[24..];
    assert |r| == 32 ==> Zeros(0) + d == d;
  }

  lemma {:induction false} ZeroByteShifts(n: nat, t: seq<bool>)
    requires n <= 8 && |t| == 24
    ensures BitSteps(n, Zeros(n) + t + Zeros(8 - n)) == t + Zeros(8)
  {
    var r := Zeros(n) + t + Zeros(8 - n);
    if n == 0 {
      assert r == t + Zeros(8);
    } else {
      ShiftOnly(r);
      assert r[1..] + [false] == Zeros(n - 1) + t + Zeros(9 - n);
      hide BitStep;
      ZeroByteShifts(n - 1, t);
    }
  }

  lemma ConvertNothing(e: seq<bool>)
    requires |e| == 32
    ensures Convert(e, 32) == e
  {}

  lemma XorCommutes(a: seq<bool>, b: seq<bool>)
    requires |a| == |b|
    ensures Xor(a, b) == Xor(b, a)
  {}

  lemma SplitHighByte(r: seq<bool>)
    requires |r| == 32
    ensures r == Xor(r[..8] + Zeros(24), Zeros(8) + r[8..] + Zeros(0))
  {}

  /** In a 32-bit register the byte step with its table is eight division steps. */
  lemma ByteStepDivides(r: seq<bool>)
    requires |r| == 32
    ensures ByteStep(r) == BitSteps(8, r)
  {
    hide BitSteps, Convert;
    SplitHighByte(r);
    BitStepsLinear(8, r[..8] + Zeros(24), Zeros(8) + r[8..] + Zeros(0));
    ZeroByteShifts(8, r[8..]);
    ConvertNothing(Remainder(r[..8]));
    XorCommutes(Remainder(r[..8]), r[8..] + Zeros(8));
  }

  lemma {:induction false} DivideConcat(r: seq<bool>, a: seq<bool>, b: seq<bool>)
    requires |r| == 32
    ensures Divide(r, a + b) == Divide(Divide(r, a), b)
    decreases a
  {
    hide BitStep;
    if a == [] {
      assert a + b == b;
    } else {
      assert (a + b)[1..] == a[1..] + b;
      DivideConcat(BitStep(Xor(r, [a[0]] + Zeros(31))), a[1..], b);
    }
  }

  /** For a 32-bit register the table-driven checksum is long division by the generator polynomial. */
  lemma {:induction false} ChecksumDivides(r: seq<bool>, data: seq<Byte>)
    requires |r| == 32
    ensures Checksum(r, data) == Divide(r, MessageBits(data))
    decreases data
  {
    hide ByteStep, BitSteps;
    if data != [] {
      var b: Byte := data[0];
      DivideAtOnce(r, b);
      ByteStepDivides(Xor(r, b + Zeros(24)));
      ChecksumDivides(Absorb(r, b), data[1..]);
      DivideConcat(r, b, MessageBits(data[1..]));
    }
  }

  // --- Error bursts -------------------------------------------------------------------------

  lemma BitStepInjective(x: seq<bool>, y: seq<bool>)
    requires |x| == |y| == 32 && BitStep(x) == BitStep(y)
    ensures x == y
  {
    GeneratorEndsInOne();
    var g, x', y' := Generator(), x[1..] + [false], y[1..] + [false];
    hide Generator;
    assert BitStep(x)[31] == x[0] && BitStep(y)[31] == y[0];
    forall i | 0 <= i < 32 ensures x'[i] == y'[i] {
      assert BitStep(x)[i] == BitStep(y)[i];
    }
    forall i | 1 <= i < 32 ensures x[i] == y[i] {
      assert x'[i - 1] == y'[i - 1];
    }
  }

  lemma GeneratorEndsInOne()
    ensures Generator()[31]
  {
    LastMask();
    hide MaskAt;
    assert Has(POLYNOMIAL, 1);
  }

  lemma {:induction false} BitStepsInjective(n: nat, x: seq<bool>, y: seq<bool>)
    requires |x| == |y| == 32 && BitSteps(n, x) == BitSteps(n, y)
    ensures x == y
  {
    hide BitStep;
    if n > 0 {
      BitStepsInjective(n - 1, BitStep(x), BitStep(y));
      BitStepInjective(x, y);
    }
  }

  lemma XorInjective(x: seq<bool>, y: seq<bool>, a: seq<bool>, b: seq<bool>)
    requires |x| == |y| == |a| == |b| && (x == y || a == b) && Xor(x, a) == Xor(y, b)
    ensures x == y && a == b
  {
    var u, v := Xor(x, a), Xor(y, b);
    hide Xor;
    forall i | 0 <= i < |x| ensures x[i] == y[i] && a[i] == b[i] {
      assert u[i] == v[i];
    }
  }

  lemma DivideInjective(x: seq<bool>, y: seq<bool>, a: seq<bool>, b: seq<bool>)
    requires |x| == |y| == 32 && |a| == |b| <= 32
    requires x == y || a == b
    requires Divide(x, a) == Divide(y, b)
    ensures x == y && a == b
  {
    hide Divide, BitSteps, Xor, Zeros;
    var z := Zeros(32 - |a|);
    DivideAtOnce(x, a);
    DivideAtOnce(y, b);
    var a', b' := a + z, b + z;
    var u, v := Xor(x, a'), Xor(y, b');
    BitStepsInjective(|a|, u, v);
    XorInjective(x, y, a', b');
    assert a == a'[..|a|] && b == b'[..|b|];
  }

  lemma {:induction false} DifferencePersists(x: seq<bool>, y: seq<bool>, bits: seq<bool>)
    requires |x| == |y| == 32 && x != y
    ensures Divide(x, bits) != Divide(y, bits)
    decreases bits
  {
    if bits != [] {
      var x', y' := Divide(x, bits[..1]), Divide(y, bits[..1]);
      if x' == y' {
        DivideInjective(x, y, bits[..1], bits[..1]);
      }
      DivideConcat(x, bits[..1], bits[1..]);
      DivideConcat(y, bits[..1], bits[1..]);
      assert bits == bits[..1] + bits[1..];
      DifferencePersists(x', y', bits[1..]);
    }
  }

  lemma BurstKeepsApart(r: seq<bool>, before: seq<bool>, a: seq<bool>, b: seq<bool>, after: seq<bool>)
    requires |r| == 32 && |a| == |b| <= 32 && a != b
    ensures Divide(r, before + a + after) != Divide(r, before + b + after)
  {
    var s := Divide(r, before);
    if Divide(s, a) == Divide(s, b) {
      DivideInjective(s, s, a, b);
    }
    DifferencePersists(Divide(s, a), Divide(s, b), after);
    DivideConcat(r, before + a, after);
    DivideConcat(r, before, a);
    DivideConcat(r, before + b, after);
    DivideConcat(r, before, b);
  }

  /** Two messages that differ only inside a window of at most 32 bits never have the same 32-bit checksum. */
  lemma BurstDetected(
    r: seq<bool>, m: seq<Byte>, m': seq<Byte>, before: seq<bool>, a: seq<bool>, b: seq<bool>, after: seq<bool>)
    requires |r| == 32 && |a| == |b| <= 32 && a != b
    requires MessageBits(m) == before + a + after && MessageBits(m') == before + b + after
    ensures Checksum(r, m) != Checksum(r, m')
  {
    ChecksumDivides(r, m);
    ChecksumDivides(r, m');
    BurstKeepsApart(r, before, a, b, after);
  }
}
