/** The text that El/HTML/LightParser.hpp collects: white space is collapsed, and bytes and characters are limited. */
module LightText {

  import opened Bytes
  import opened Wrappers

  /** wchar_t, taken as the unsigned number that the encoder works on. */
  type Char = c: int | 0 <= c < 0x1_0000_0000

  const NEWLINE: Char := 0x0A
  const SPACE: Char := 0x20

  predicate Continues(b: Byte) {
    0x80 <= b < 0xC0
  }

  function Tail(c: Char): (b: Byte)
    ensures Continues(b)
  {
    0x80 + c % 0x40
  }

  /** wchar_to_utf8, with the two longer forms that RFC 3629 dropped; they lose the highest bit. */
  function Utf8(c: Char): (s: seq<Byte>)
    ensures s != [] && !Continues(s[0]) && (s[0] < 0x80 <==> c < 0x80)
    ensures c < 0x80 ==> s == [c]
    ensures forall i :: 0 < i < |s| ==> Continues(s[i])
    ensures c >= 0x80 ==> |s| > 1
  {
    if c < 0x80 then [c]
    else if c < 0x800 then [0xC0 + c / 0x40, Tail(c)]
    else if c < 0x1_0000 then [0xE0 + c / 0x1000, Tail(c / 0x40), Tail(c)]
    else if c < 0x20_0000 then [0xF0 + c / 0x4_0000, Tail(c / 0x1000), Tail(c / 0x40), Tail(c)]
    else if c < 0x400_0000 then [0xF8 + c / 0x100_0000, Tail(c / 0x4_0000), Tail(c / 0x1000), Tail(c / 0x40), Tail(c)]
    else
      [0xFC + c / 0x4000_0000 % 2, Tail(c / 0x100_0000), Tail(c / 0x4_0000), Tail(c / 0x1000), Tail(c / 0x40), Tail(c)]
  }

  /** What a lead byte has besides the number of bytes. */
  function Lead(s: seq<Byte>): int
    requires 0 < |s| <= 6
  {
    s[0] as int - [0, 0xC0, 0xE0, 0xF0, 0xF8, 0xFC][|s| - 1]
  }

  /** The character that a sequence of bytes stands for. */
  function Decoded(s: seq<Byte>): int
    requires 0 < |s| <= 6
  {
    Continued(Lead(s), s[1..])
  }

  function Continued(n: int, s: seq<Byte>): int
    decreases s
  {
    if s == [] then n else Continued(n * 0x40 + (s[0] as int - 0x80), s[1..])
  }

  /** So many times six bits, the lowest last. */
  function Tails(c: nat, k: nat): (s: seq<Byte>)
    ensures |s| == k
  {
    if k == 0 then [] else Tails(c / 0x40, k - 1) + [0x80 + c % 0x40]
  }

  /** What is left above them. */
  function Upper(c: nat, k: nat): nat {
    if k == 0 then c else Upper(c / 0x40, k - 1)
  }

  lemma {:induction false} ContinuedOneMore(n: int, s: seq<Byte>, b: Byte)
    ensures Continued(n, s + [b]) == Continued(n, s) * 0x40 + (b as int - 0x80)
    decreases s
  {
    if s == [] {
      assert [] + [b] == [b] && [b][1..] == [];
    } else {
      assert (s + [b])[1..] == s[1..] + [b];
      ContinuedOneMore(n * 0x40 + (s[0] as int - 0x80), s[1..], b);
    }
  }

  lemma {:induction false} TailsDecode(c: nat, k: nat)
    ensures Continued(Upper(c, k), Tails(c, k)) == c
    decreases k
  {
    if k == 0 {
    } else {
      TailsDecode(c / 0x40, k - 1);
      ContinuedOneMore(Upper(c, k), Tails(c / 0x40, k - 1), 0x80 + c % 0x40);
    }
  }

  lemma OneDigit(c: nat)
    ensures Upper(c, 1) == c / 0x40 && Tails(c, 1) == [0x80 + c % 0x40] && Upper(c, 0) == c && Tails(c, 0) == []
  {
  }

  lemma TwoDigits(c: nat)
    ensures Upper(c, 2) == c / 0x1000 && Tails(c, 2) == [0x80 + c / 0x40 % 0x40, 0x80 + c % 0x40]
  {
    OneDigit(c / 0x40);
  }

  lemma ThreeDigits(c: nat)
    ensures Upper(c, 3) == c / 0x4_0000
    ensures Tails(c, 3) == [0x80 + c / 0x1000 % 0x40, 0x80 + c / 0x40 % 0x40, 0x80 + c % 0x40]
  {
    TwoDigits(c / 0x40);
    assert c / 0x40 / 0x40 == c / 0x1000 && c / 0x40 / 0x1000 == c / 0x4_0000;
  }

  lemma FourDigits(c: nat)
    ensures Upper(c, 4) == c / 0x100_0000
    ensures Tails(c, 4)
         == [0x80 + c / 0x4_0000 % 0x40, 0x80 + c / 0x1000 % 0x40, 0x80 + c / 0x40 % 0x40, 0x80 + c % 0x40]
  {
    ThreeDigits(c / 0x40);
    assert c / 0x40 / 0x40 == c / 0x1000 && c / 0x40 / 0x1000 == c / 0x4_0000 && c / 0x40 / 0x4_0000 == c / 0x100_0000;
  }

  lemma FiveDigits(c: nat)
    ensures Upper(c, 5) == c / 0x4000_0000
    ensures Tails(c, 5) == [0x80 + c / 0x100_0000 % 0x40, 0x80 + c / 0x4_0000 % 0x40, 0x80 + c / 0x1000 % 0x40,
                            0x80 + c / 0x40 % 0x40, 0x80 + c % 0x40]
  {
    FourDigits(c / 0x40);
    assert c / 0x40 / 0x40 == c / 0x1000 && c / 0x40 / 0x1000 == c / 0x4_0000 && c / 0x40 / 0x4_0000 == c / 0x100_0000;
    assert c / 0x40 / 0x100_0000 == c / 0x4000_0000;
  }

  /** A lead byte and digits give the character back. */
  lemma BytesDecode(s: seq<Byte>, lead: Byte, c: nat, k: nat)
    requires k <= 5 && s == [lead] + Tails(c, k) && lead as int - [0, 0xC0, 0xE0, 0xF0, 0xF8, 0xFC][k] == Upper(c, k)
    ensures |s| == k + 1 && Decoded(s) == c
  {
    TailsDecode(c, k);
    assert s[1..] == Tails(c, k);
  }

  lemma ShortDecodes(c: Char)
    requires c < 0x1_0000
    ensures |Utf8(c)| <= 6 && Decoded(Utf8(c)) == c
  {
    OneDigit(c);
    TwoDigits(c);
    hide Tails, Upper, Decoded;
    if c < 0x80 {
      BytesDecode(Utf8(c), c, c, 0);
    } else if c < 0x800 {
      BytesDecode(Utf8(c), 0xC0 + c / 0x40, c, 1);
    } else {
      BytesDecode(Utf8(c), 0xE0 + c / 0x1000, c, 2);
    }
  }

  lemma LongDecodes(c: Char)
    requires 0x1_0000 <= c < 0x400_0000
    ensures |Utf8(c)| <= 6 && Decoded(Utf8(c)) == c
  {
    ThreeDigits(c);
    FourDigits(c);
    hide Tails, Upper, Decoded;
    if c < 0x20_0000 {
      BytesDecode(Utf8(c), 0xF0 + c / 0x4_0000, c, 3);
    } else {
      BytesDecode(Utf8(c), 0xF8 + c / 0x100_0000, c, 4);
    }
  }

  lemma AddedBlocks(q: nat, k: nat)
    ensures (q + 0x40 * k) % 0x40 == q % 0x40 && (q + 0x40 * k) / 0x40 == q / 0x40 + k
  {
  }

  lemma Quotients(c: nat)
    ensures c / 0x1000 == c / 0x40 / 0x40 && c / 0x4_0000 == c / 0x1000 / 0x40
    ensures c / 0x100_0000 == c / 0x4_0000 / 0x40 && c / 0x4000_0000 == c / 0x100_0000 / 0x40
  {
  }

  /** The highest bit does not matter for the lower digits. */
  lemma HighestBit(low: nat, c: nat)
    requires c == low + 0x8000_0000
    ensures c % 0x40 == low % 0x40 && c / 0x40 % 0x40 == low / 0x40 % 0x40
    ensures c / 0x1000 % 0x40 == low / 0x1000 % 0x40 && c / 0x4_0000 % 0x40 == low / 0x4_0000 % 0x40
    ensures c / 0x100_0000 % 0x40 == low / 0x100_0000 % 0x40 && c / 0x4000_0000 == low / 0x4000_0000 + 2
  {
    Quotients(low);
    Quotients(c);
    AddedBlocks(low, 0x200_0000);
    AddedBlocks(low / 0x40, 0x8_0000);
    AddedBlocks(low / 0x1000, 0x2000);
    AddedBlocks(low / 0x4_0000, 0x80);
    AddedBlocks(low / 0x100_0000, 2);
  }

  function SixBytes(c: Char): seq<Byte> {
    [0xFC + c / 0x4000_0000 % 2, 0x80 + c / 0x100_0000 % 0x40, 0x80 + c / 0x4_0000 % 0x40,
     0x80 + c / 0x1000 % 0x40, 0x80 + c / 0x40 % 0x40, 0x80 + c % 0x40]
  }

  lemma SameSixBytes(low: Char, c: Char)
    requires c == low + 0x8000_0000
    ensures SixBytes(c) == SixBytes(low)
  {
    HighestBit(low, c);
  }

  lemma SixDecode(low: Char)
    requires low < 0x8000_0000
    ensures |SixBytes(low)| <= 6 && Decoded(SixBytes(low)) == low
  {
    FiveDigits(low);
    hide Tails, Upper, Decoded;
    BytesDecode(SixBytes(low), 0xFC + low / 0x4000_0000, low, 5);
  }

  lemma SixForm(c: Char)
    requires c >= 0x400_0000
    ensures Utf8(c) == SixBytes(c)
  {
  }

  lemma LongestDecodes(c: Char)
    requires c >= 0x400_0000
    ensures |Utf8(c)| <= 6 && Decoded(Utf8(c)) == c % 0x8000_0000
  {
    hide Utf8, SixBytes, Decoded;
    SixForm(c);
    if c < 0x8000_0000 {
      SixDecode(c);
    } else {
      var low: Char := c - 0x8000_0000;
      SameSixBytes(low, c);
      SixDecode(low);
    }
  }

  /** UTF-8 in its shortest form, up to six bytes as in RFC 2279, decodes to the character without its highest bit. */
  lemma Utf8Decodes(c: Char)
    ensures |Utf8(c)| == if c < 0x80 then 1 else if c < 0x800 then 2 else if c < 0x1_0000 then 3
                         else if c < 0x20_0000 then 4 else if c < 0x400_0000 then 5 else 6
    ensures Decoded(Utf8(c)) == c % 0x8000_0000
  {
    hide Tail, Decoded;
    if c < 0x1_0000 {
      ShortDecodes(c);
    } else if c < 0x400_0000 {
      LongDecodes(c);
    } else {
      LongestDecodes(c);
    }
  }

  /** CharTable::is_space: the separators of the table, and the five controls. */
  predicate IsSpace(c: Char) {
    || 0x09 <= c <= 0x0D || c == 0x20 || c == 0xA0 || c == 0x1680 || c == 0x180E || 0x2000 <= c <= 0x200A
    || c == 0x2028 || c == 0x2029 || c == 0x202F || c == 0x205F || c == 0x3000
  }

  /** The white space of the Unicode standard, with the Mongolian vowel separator and without the next line. */
  const WHITE_SPACE: set<int> := {
    0x09, 0x0A, 0x0B, 0x0C, 0x0D, 0x20, 0xA0, 0x1680, 0x180E, 0x2000, 0x2001, 0x2002, 0x2003, 0x2004, 0x2005, 0x2006,
    0x2007, 0x2008, 0x2009, 0x200A, 0x2028, 0x2029, 0x202F, 0x205F, 0x3000}

  lemma SpacesAreWhite(c: Char)
    ensures IsSpace(c) <==> c in WHITE_SPACE
  {
  }

  /** std::isspace in the C locale. */
  predicate IsSpaceByte(b: Byte) {
    0x09 <= b <= 0x0D || b == 0x20
  }

  /** The number of characters in a text: of the bytes that do not continue one. */
  function Chars(s: seq<Byte>): (n: nat)
    ensures n <= |s|
  {
    if s == [] then 0 else Chars(s[..|s| - 1]) + if Continues(s[|s| - 1]) then 0 else 1
  }

  /** text, char_count_ and last_space_; length_ is the length of the first. */
  datatype Text = Text(bytes: seq<Byte>, chars: nat, lastSpace: bool)

  const EMPTY := Text([], 0, true)

  /** max_text_len_ and max_char_len_. */
  datatype Limits = Limits(bytes: nat, chars: nat)

  /** Room for the four characters that mark a cut, if there is any. */
  function Reduced(max: nat): nat {
    if max > 4 then max - 4 else max
  }

  predicate Over(l: Limits, bytes: nat, chars: nat) {
    bytes > l.bytes || chars > l.chars
  }

  /** append; None is MaxLenReached. */
  function Appended(l: Limits, t: Text, c: Char): Option<Text> {
    if IsSpace(c) && Over(l, |t.bytes|, t.chars) then None
    else if IsSpace(c) && t.lastSpace then
      Some(if c == NEWLINE && t.bytes != [] then t.(bytes := t.bytes[|t.bytes| - 1 := NEWLINE]) else t)
    else Some(Text(t.bytes + Utf8(if IsSpace(c) && c != NEWLINE then SPACE else c), t.chars + 1, IsSpace(c)))
  }

  /** rtrim: the first byte always stays. */
  function Trimmed(s: seq<Byte>, spaces: bool): (r: seq<Byte>)
    ensures r <= s
  {
    if |s| > 1 && IsSpaceByte(s[|s| - 1]) == spaces then Trimmed(s[..|s| - 1], spaces) else s
  }

  const ELLIPSIS: seq<Byte> := [0x20, 0x2E, 0x2E, 0x2E]

  /** The text without its last white space is still too long. */
  predicate IsCut(l: Limits, t: Text) {
    var once := Trimmed(t.bytes, true);
    |once| > l.bytes || t.chars - (|t.bytes| - |once|) > l.chars
  }

  /** The end of parse. */
  function Finished(l: Limits, t: Text): seq<Byte> {
    var once := Trimmed(t.bytes, true);
    if IsCut(l, t) then Trimmed(Trimmed(once, false), true) + ELLIPSIS else once
  }

  // --- What append keeps --------------------------------------------------------------------

  /** White space is neither at the beginning nor next to other white space. */
  predicate Normal(s: seq<Byte>) {
    && (s != [] ==> !IsSpaceByte(s[0]) && !Continues(s[0]))
    && forall i :: 0 < i < |s| ==> !(IsSpaceByte(s[i - 1]) && IsSpaceByte(s[i]))
  }

  /** White space was only let in while the text was within the limits. */
  ghost predicate SpacesWithin(l: Limits, s: seq<Byte>) {
    forall k :: 0 <= k < |s| && IsSpaceByte(s[k]) ==> !Over(l, k, Chars(s[..k]))
  }

  ghost predicate Good(l: Limits, t: Text) {
    && t.chars == Chars(t.bytes)
    && (t.lastSpace <==> t.bytes == [] || IsSpaceByte(t.bytes[|t.bytes| - 1]))
    && Normal(t.bytes) && SpacesWithin(l, t.bytes)
  }

  lemma {:induction false} CharsConcat(a: seq<Byte>, b: seq<Byte>)
    ensures Chars(a + b) == Chars(a) + Chars(b)
  {
    if b == [] {
      assert a + b == a;
    } else {
      assert (a + b)[..|a + b| - 1] == a + b[..|b| - 1];
      CharsConcat(a, b[..|b| - 1]);
    }
  }

  lemma {:induction false} CharsContinued(s: seq<Byte>)
    requires forall i :: 0 <= i < |s| ==> Continues(s[i])
    ensures Chars(s) == 0
  {
    if s != [] {
      CharsContinued(s[..|s| - 1]);
    }
  }

  lemma OneChar(c: Char)
    ensures Chars(Utf8(c)) == 1
  {
    var s := Utf8(c);
    assert s == s[..1] + s[1..];
    CharsConcat(s[..1], s[1..]);
    CharsContinued(s[1..]);
    assert s[..1] == [s[0]];
  }

  lemma NoSpaceInside(c: Char, i: nat)
    requires i < |Utf8(c)| && !IsSpace(c)
    ensures !IsSpaceByte(Utf8(c)[i])
  {
    hide Utf8;
    assert i > 0 ==> Continues(Utf8(c)[i]);
    assert i == 0 && c >= 0x80 ==> Utf8(c)[0] >= 0x80;
  }

  lemma RewriteKeepsChars(s: seq<Byte>, b: Byte)
    requires s != [] && IsSpaceByte(s[|s| - 1]) && IsSpaceByte(b)
    ensures Chars(s[|s| - 1 := b]) == Chars(s)
  {
    assert s[|s| - 1 := b][..|s| - 1] == s[..|s| - 1];
  }

  lemma RewriteKeepsGood(l: Limits, t: Text)
    requires Good(l, t) && t.lastSpace && t.bytes != []
    ensures Good(l, t.(bytes := t.bytes[|t.bytes| - 1 := NEWLINE]))
  {
    var s := t.bytes[|t.bytes| - 1 := NEWLINE];
    RewriteKeepsChars(t.bytes, NEWLINE);
    forall k | 0 <= k < |s| && IsSpaceByte(s[k])
      ensures !Over(l, k, Chars(s[..k]))
    {
      assert s[..k] == t.bytes[..k];
    }
  }

  lemma ExtendKeepsNormal(t: seq<Byte>, s: seq<Byte>, space: bool)
    requires Normal(t) && s != [] && !Continues(s[0])
    requires space ==> t != [] && !IsSpaceByte(t[|t| - 1]) && |s| == 1
    requires forall i :: 0 <= i < |s| ==> (IsSpaceByte(s[i]) <==> space)
    ensures Normal(t + s)
  {
    hide Continues, IsSpaceByte;
    var r := t + s;
    forall i | 0 < i < |r|
      ensures !(IsSpaceByte(r[i - 1]) && IsSpaceByte(r[i]))
    {
      assert i >= |t| ==> r[i] == s[i - |t|];
      assert i > |t| ==> r[i - 1] == s[i - 1 - |t|];
    }
  }

  lemma ExtendKeepsWithin(l: Limits, t: seq<Byte>, s: seq<Byte>, space: bool)
    requires SpacesWithin(l, t) && (space ==> !Over(l, |t|, Chars(t)) && |s| == 1)
    requires forall i :: 0 <= i < |s| ==> (IsSpaceByte(s[i]) <==> space)
    ensures SpacesWithin(l, t + s)
  {
    hide Chars, IsSpaceByte;
    forall k | 0 <= k < |t + s| && IsSpaceByte((t + s)[k])
      ensures !Over(l, k, Chars((t + s)[..k]))
    {
      if k < |t| {
        assert (t + s)[..k] == t[..k];
      } else {
        assert IsSpaceByte(s[k - |t|]) && (t + s)[..k] == t;
      }
    }
  }

  lemma ExtendKeepsGood(l: Limits, t: Text, s: seq<Byte>, space: bool)
    requires Good(l, t) && s != [] && Chars(s) == 1 && !Continues(s[0])
    requires space ==> !t.lastSpace && !Over(l, |t.bytes|, t.chars) && |s| == 1
    requires forall i :: 0 <= i < |s| ==> (IsSpaceByte(s[i]) <==> space)
    ensures Good(l, Text(t.bytes + s, t.chars + 1, space))
  {
    hide Normal, SpacesWithin, Chars, IsSpaceByte, Continues, Over;
    CharsConcat(t.bytes, s);
    ExtendKeepsNormal(t.bytes, s, space);
    ExtendKeepsWithin(l, t.bytes, s, space);
    assert (t.bytes + s)[|t.bytes + s| - 1] == s[|s| - 1];
  }

  lemma AppendKeepsGood(l: Limits, t: Text, c: Char)
    requires Good(l, t) && Appended(l, t, c).Some?
    ensures Good(l, Appended(l, t, c).value)
  {
    if !(IsSpace(c) && t.lastSpace) {
      var ch: Char := if IsSpace(c) && c != NEWLINE then SPACE else c;
      OneChar(ch);
      forall i | 0 <= i < |Utf8(ch)| ensures IsSpaceByte(Utf8(ch)[i]) <==> IsSpace(c) {
        if !IsSpace(c) {
          NoSpaceInside(c, i);
        }
      }
      ExtendKeepsGood(l, t, Utf8(ch), IsSpace(c));
    } else if t.bytes != [] {
      RewriteKeepsGood(l, t);
    }
    hide Utf8, Good;
  }

  // --- The cut ------------------------------------------------------------------------------

  lemma TrimOne(s: seq<Byte>)
    requires Normal(s)
    ensures Trimmed(s, true) == if s != [] && IsSpaceByte(s[|s| - 1]) then s[..|s| - 1] else s
  {
    if s != [] && IsSpaceByte(s[|s| - 1]) {
      assert |s| > 1;
    }
  }

  lemma {:induction false} TrimWord(s: seq<Byte>)
    requires s != []
    ensures var r := Trimmed(s, false);
      && 1 <= |r| <= |s| && (|r| == 1 || IsSpaceByte(r[|r| - 1]))
      && forall k :: |r| <= k < |s| ==> !IsSpaceByte(s[k])
  {
    if |s| > 1 && !IsSpaceByte(s[|s| - 1]) {
      TrimWord(s[..|s| - 1]);
    }
  }

  /** What is left in front of the ellipsis: the text before its last white space, or one byte if there is none. */
  lemma CutWhere(l: Limits, t: Text) returns (k: nat)
    requires Good(l, t) && IsCut(l, t)
    ensures 0 < k < |t.bytes| + 1 && Finished(l, t) == t.bytes[..k] + ELLIPSIS
    ensures var once := Trimmed(t.bytes, true);
      && k <= |once|
      && (forall i :: 0 <= i < |once| && IsSpaceByte(once[i]) ==> i <= k)
      && if k < |once| && IsSpaceByte(once[k]) then !Over(l, k, Chars(t.bytes[..k]))
         else k == 1 && forall i :: 0 <= i < |once| ==> !IsSpaceByte(once[i])
  {
    TrimOne(t.bytes);
    var once := Trimmed(t.bytes, true);
    TrimWord(once);
    var twice := Trimmed(once, false);
    TrimOne(twice);
    k := if |twice| > 1 && IsSpaceByte(twice[|twice| - 1]) then |twice| - 1 else 1;
    assert once[..k] == t.bytes[..k];
    assert Finished(l, t) == t.bytes[..k] + ELLIPSIS;
  }

  lemma EllipsisChars()
    ensures Chars(ELLIPSIS) == 4
  {
    var dot: seq<Byte> := [0x2E];
    assert Chars(dot) == 1;
    CharsConcat([0x20], dot);
    CharsConcat([0x20] + dot, dot);
    CharsConcat([0x20] + dot + dot, dot);
    assert ELLIPSIS == [0x20] + dot + dot + dot;
  }

  lemma CutLength(l: Limits, t: Text)
    requires Good(l, t) && IsCut(l, t)
    ensures 5 <= |Finished(l, t)| && (l.bytes > 0 ==> |Finished(l, t)| <= l.bytes + 4)
    ensures 5 <= Chars(Finished(l, t)) && (l.chars > 0 ==> Chars(Finished(l, t)) <= l.chars + 4)
  {
    var k := CutWhere(l, t);
    EllipsisChars();
    CharsConcat(t.bytes[..k], ELLIPSIS);
    CharsConcat(t.bytes[..1], t.bytes[1..k]);
    assert t.bytes[..1] + t.bytes[1..k] == t.bytes[..k] && t.bytes[..1] == [t.bytes[0]];
    hide Trimmed, SpacesWithin, Normal, IsCut, Finished;
  }

  lemma UncutLength(l: Limits, t: Text)
    requires Good(l, t) && !IsCut(l, t)
    ensures |Finished(l, t)| <= l.bytes && Chars(Finished(l, t)) <= l.chars
  {
    TrimOne(t.bytes);
    var once := Trimmed(t.bytes, true);
    CharsConcat(once, t.bytes[|once|..]);
    assert once + t.bytes[|once|..] == t.bytes;
    assert |once| < |t.bytes| ==> t.bytes[|once|..] == [t.bytes[|once|]];
  }

  /**
   * Within the limits nothing is cut and they hold; a cut text keeps a limit exactly if there is room for the
   * ellipsis, that is, if the limit is above four.
   */
  lemma LimitsHold(maxBytes: nat, maxChars: nat, t: Text)
    requires Good(Limits(Reduced(maxBytes), Reduced(maxChars)), t)
    ensures var l := Limits(Reduced(maxBytes), Reduced(maxChars));
      && (|Finished(l, t)| <= maxBytes <==> IsCut(l, t) ==> maxBytes > 4)
      && (Chars(Finished(l, t)) <= maxChars <==> IsCut(l, t) ==> maxChars > 4)
  {
    var l := Limits(Reduced(maxBytes), Reduced(maxChars));
    if IsCut(l, t) {
      CutLength(l, t);
    } else {
      UncutLength(l, t);
    }
    hide Good, IsCut, Finished, Chars;
  }

  /** A text is cut exactly if it is longer than a limit allows, without its last white space and with an ellipsis. */
  lemma CutExactlyWhen(maxBytes: nat, maxChars: nat, t: Text)
    requires Good(Limits(Reduced(maxBytes), Reduced(maxChars)), t)
    ensures var s := t.bytes;
      var once := if s != [] && IsSpaceByte(s[|s| - 1]) then s[..|s| - 1] else s;
      && (IsCut(Limits(Reduced(maxBytes), Reduced(maxChars)), t) <==>
           || |once| + (if maxBytes > 4 then 4 else 0) > maxBytes
           || Chars(once) + (if maxChars > 4 then 4 else 0) > maxChars)
      && (!IsCut(Limits(Reduced(maxBytes), Reduced(maxChars)), t) ==>
           Finished(Limits(Reduced(maxBytes), Reduced(maxChars)), t) == once)
  {
    TrimOne(t.bytes);
    var once := Trimmed(t.bytes, true);
    CharsConcat(once, t.bytes[|once|..]);
    assert once + t.bytes[|once|..] == t.bytes;
    assert |once| < |t.bytes| ==> t.bytes[|once|..] == [t.bytes[|once|]];
  }

  // --- What the text is ---------------------------------------------------------------------

  function Encoding(cs: seq<Char>): (s: seq<Byte>) {
    if cs == [] then [] else Encoding(cs[..|cs| - 1]) + Utf8(cs[|cs| - 1])
  }

  /** append for each character in turn, until one is refused. */
  function AppendedAll(l: Limits, t: Text, cs: seq<Char>): Option<Text> {
    if cs == [] then Some(t)
    else
      var before := AppendedAll(l, t, cs[..|cs| - 1]);
      if before.Some? then Appended(l, before.value, cs[|cs| - 1]) else None
  }

  /** The number of characters before the first that is, or is not, white space. */
  function Run(cs: seq<Char>, spaces: bool): (n: nat)
    ensures n <= |cs| && (n < |cs| ==> IsSpace(cs[n]) != spaces)
    ensures forall i :: 0 <= i < n ==> IsSpace(cs[i]) == spaces
  {
    if cs == [] || IsSpace(cs[0]) != spaces then 0 else 1 + Run(cs[1..], spaces)
  }

  /** What stands for a run of white space. */
  function Separator(run: seq<Char>): (c: Char)
    ensures IsSpace(c)
  {
    if NEWLINE in run then NEWLINE else SPACE
  }

  /** Words, with one separator after each that is followed by white space. */
  function Joined(cs: seq<Char>): (r: seq<Char>)
    decreases |cs|
  {
    if cs == [] || IsSpace(cs[0]) then []
    else
      var word := Run(cs, false);
      var rest := cs[word..];
      if rest == [] then cs
      else
        var gap := Run(rest, true);
        cs[..word] + [Separator(rest[..gap])] + Joined(rest[gap..])
  }

  /** The characters with leading white space dropped and all other runs of it collapsed. */
  function Collapsed(cs: seq<Char>): seq<Char> {
    Joined(cs[Run(cs, true)..])
  }

  /** What one more character makes of a collapsed text. */
  function Grown(r: seq<Char>, c: Char): seq<Char> {
    if !IsSpace(c) then r + [c]
    else if r == [] then r
    else if IsSpace(r[|r| - 1]) then if c == NEWLINE then r[|r| - 1 := NEWLINE] else r
    else r + [Separator([c])]
  }

  lemma {:induction false} RunIs(cs: seq<Char>, n: nat, spaces: bool)
    requires n <= |cs| && (n < |cs| ==> IsSpace(cs[n]) != spaces)
    requires forall i :: 0 <= i < n ==> IsSpace(cs[i]) == spaces
    ensures Run(cs, spaces) == n
  {
    if n > 0 {
      RunIs(cs[1..], n - 1, spaces);
    }
  }

  /** Joined of a word and the gap after it. */
  lemma JoinedParts(word: seq<Char>, gap: seq<Char>, rest: seq<Char>)
    requires word != [] && gap != [] && (rest != [] ==> !IsSpace(rest[0]))
    requires forall i :: 0 <= i < |word| ==> !IsSpace(word[i])
    requires forall i :: 0 <= i < |gap| ==> IsSpace(gap[i])
    ensures Joined(word + gap + rest) == word + [Separator(gap)] + Joined(rest)
  {
    hide IsSpace, Run, Separator;
    var cs := word + gap + rest;
    var after := gap + rest;
    assert cs[..|word|] == word && cs[|word|..] == after && cs[0] == word[0] && cs[|word|] == gap[0];
    RunIs(cs, |word|, false);
    assert after[..|gap|] == gap && after[|gap|..] == rest;
    RunIs(after, |gap|, true);
  }

  lemma JoinedWord(word: seq<Char>)
    requires forall i :: 0 <= i < |word| ==> !IsSpace(word[i])
    ensures Joined(word) == word
  {
    RunIs(word, |word|, false);
  }

  lemma LastWordGrows(word: seq<Char>, c: Char)
    requires word != [] && forall i :: 0 <= i < |word| ==> !IsSpace(word[i])
    ensures Joined(word + [c]) == Grown(word, c)
  {
    hide IsSpace, Joined, Run;
    JoinedWord([]);
    if IsSpace(c) {
      JoinedParts(word, [c], []);
      assert word + [c] + [] == word + [c];
    } else {
      JoinedWord(word + [c]);
    }
  }

  lemma LastGapGrows(word: seq<Char>, gap: seq<Char>, c: Char)
    requires word != [] && forall i :: 0 <= i < |word| ==> !IsSpace(word[i])
    requires gap != [] && forall i :: 0 <= i < |gap| ==> IsSpace(gap[i])
    ensures Joined(word + gap) == word + [Separator(gap)]
    ensures Joined(word + gap + [c]) == Grown(word + [Separator(gap)], c)
  {
    hide IsSpace, Joined, Run;
    JoinedWord([]);
    JoinedParts(word, gap, []);
    assert word + gap + [] == word + gap && word + [Separator(gap)] + [] == word + [Separator(gap)];
    if IsSpace(c) {
      JoinedParts(word, gap + [c], []);
      assert word + (gap + [c]) + [] == word + gap + [c];
      assert word + [Separator(gap + [c])] + [] == word + [Separator(gap + [c])];
    } else {
      JoinedParts(word, gap, [c]);
      JoinedWord([c]);
    }
  }

  lemma GrownOnTheRight(a: seq<Char>, b: seq<Char>, c: Char)
    requires b != []
    ensures Grown(a + b, c) == a + Grown(b, c)
  {
    hide IsSpace, Separator;
    assert (a + b)[|a + b| - 1] == b[|b| - 1];
    if IsSpace(c) && IsSpace(b[|b| - 1]) {
      assert (a + b)[|a + b| - 1 := NEWLINE] == a + b[|b| - 1 := NEWLINE];
    }
  }

  lemma FirstWordStays(word: seq<Char>, gap: seq<Char>, rest: seq<Char>, c: Char)
    requires word != [] && gap != [] && rest != [] && !IsSpace(rest[0])
    requires forall i :: 0 <= i < |word| ==> !IsSpace(word[i])
    requires forall i :: 0 <= i < |gap| ==> IsSpace(gap[i])
    requires Joined(rest) != [] && Joined(rest + [c]) == Grown(Joined(rest), c)
    ensures Joined(word + gap + rest + [c]) == Grown(Joined(word + gap + rest), c)
  {
    hide IsSpace, Grown, Separator, Joined, Run;
    JoinedParts(word, gap, rest);
    JoinedParts(word, gap, rest + [c]);
    assert word + gap + rest + [c] == word + gap + (rest + [c]);
    GrownOnTheRight(word + [Separator(gap)], Joined(rest), c);
  }

  lemma {:induction false} JoinedGrows(cs: seq<Char>, c: Char)
    requires cs != [] && !IsSpace(cs[0])
    ensures Joined(cs) != [] && Joined(cs + [c]) == Grown(Joined(cs), c)
    decreases |cs|
  {
    hide IsSpace, Grown, Separator;
    var n := Run(cs, false);
    var word, after := cs[..n], cs[n..];
    var m := Run(after, true);
    var gap, rest := after[..m], after[m..];
    assert cs == word + gap + rest;
    assert word != [] && (after != [] ==> gap != []);
    hide Joined, Run;
    if after == [] {
      assert cs == word;
      LastWordGrows(word, c);
      JoinedWord(word);
    } else if rest == [] {
      assert cs == word + gap;
      LastGapGrows(word, gap, c);
    } else {
      JoinedGrows(rest, c);
      FirstWordStays(word, gap, rest, c);
      JoinedParts(word, gap, rest);
    }
  }

  lemma CollapsedGrows(cs: seq<Char>, c: Char)
    ensures Collapsed(cs + [c]) == Grown(Collapsed(cs), c)
  {
    var lead := Run(cs, true);
    RunIs(cs + [c], if lead < |cs| || !IsSpace(c) then lead else lead + 1, true);
    if lead < |cs| {
      assert (cs + [c])[lead..] == cs[lead..] + [c];
      JoinedGrows(cs[lead..], c);
    } else if !IsSpace(c) {
      assert (cs + [c])[lead..] == [c];
      JoinedWord([c]);
    }
  }

  /** The text stands for these characters. */
  ghost predicate Spells(t: Text, cs: seq<Char>) {
    && t.bytes == Encoding(cs) && t.chars == |cs|
    && (t.lastSpace <==> cs == [] || IsSpace(cs[|cs| - 1]))
    && (cs != [] && IsSpace(cs[|cs| - 1]) ==> cs[|cs| - 1] == SPACE || cs[|cs| - 1] == NEWLINE)
  }

  lemma AppendSpells(l: Limits, t: Text, cs: seq<Char>, c: Char)
    requires Spells(t, cs) && Appended(l, t, c).Some?
    ensures Spells(Appended(l, t, c).value, Grown(cs, c))
  {
    var t' := Appended(l, t, c).value;
    hide Utf8;
    if IsSpace(c) && t.lastSpace {
      if cs != [] {
        var cs' := cs[|cs| - 1 := NEWLINE];
        assert cs'[..|cs| - 1] == cs[..|cs| - 1];
        assert Utf8(NEWLINE) == [NEWLINE] && Utf8(cs[|cs| - 1]) == [cs[|cs| - 1]];
        assert Encoding(cs') == t.bytes[|t.bytes| - 1 := NEWLINE];
      }
    } else {
      var ch: Char := if IsSpace(c) && c != NEWLINE then SPACE else c;
      assert (cs + [ch])[..|cs|] == cs;
      assert Encoding(cs + [ch]) == t.bytes + Utf8(ch);
      assert Grown(cs, c) == cs + [ch];
    }
  }

  lemma NothingSpelled(l: Limits)
    ensures Good(l, EMPTY) && Spells(EMPTY, Collapsed([]))
  {
    hide Utf8, IsSpace;
  }

  /** As long as append accepts everything, the text is the encoding of the collapsed characters. */
  lemma {:induction false} TextIsCollapsed(l: Limits, cs: seq<Char>)
    requires AppendedAll(l, EMPTY, cs).Some?
    ensures Spells(AppendedAll(l, EMPTY, cs).value, Collapsed(cs)) && Good(l, AppendedAll(l, EMPTY, cs).value)
  {
    hide Utf8, IsSpace, Appended, Collapsed, Grown, Spells, Good;
    if cs == [] {
      NothingSpelled(l);
    } else {
      var before, c := cs[..|cs| - 1], cs[|cs| - 1];
      TextIsCollapsed(l, before);
      var t := AppendedAll(l, EMPTY, before).value;
      AppendSpells(l, t, Collapsed(before), c);
      AppendKeepsGood(l, t, c);
      CollapsedGrows(before, c);
      assert before + [c] == cs;
    }
  }

  /** A page goes on exactly as long as each white space comes while the collapsed text is within the limits. */
  lemma {:induction false} AcceptedExactlyWhen(l: Limits, cs: seq<Char>)
    ensures AppendedAll(l, EMPTY, cs).Some? <==>
      forall i :: 0 <= i < |cs| && IsSpace(cs[i]) ==>
        |Encoding(Collapsed(cs[..i]))| <= l.bytes && |Collapsed(cs[..i])| <= l.chars
  {
    hide Utf8, IsSpace, Encoding, Collapsed, Good;
    if cs == [] {
    } else {
      var last := |cs| - 1;
      AcceptedExactlyWhen(l, cs[..last]);
      assert forall i :: 0 <= i < last ==> cs[..last][..i] == cs[..i] && cs[..last][i] == cs[i];
      if AppendedAll(l, EMPTY, cs[..last]).Some? {
        TextIsCollapsed(l, cs[..last]);
      }
    }
  }

  // --- Whole characters ---------------------------------------------------------------------

  ghost predicate WholeCharacters(s: seq<Byte>) {
    exists cs :: s == Encoding(cs)
  }

  lemma {:induction false} EncodingConcat(a: seq<Char>, b: seq<Char>)
    ensures Encoding(a + b) == Encoding(a) + Encoding(b)
  {
    if b == [] {
      assert a + b == a;
    } else {
      assert (a + b)[..|a + b| - 1] == a + b[..|b| - 1];
      EncodingConcat(a, b[..|b| - 1]);
    }
    hide Utf8;
  }

  /** A prefix that ends before a space ends between two characters. */
  lemma {:induction false} CutBeforeSpace(cs: seq<Char>, k: nat)
    requires k < |Encoding(cs)| && IsSpaceByte(Encoding(cs)[k])
    ensures WholeCharacters(Encoding(cs)[..k])
  {
    hide Utf8;
    var init, c := cs[..|cs| - 1], cs[|cs| - 1];
    if k < |Encoding(init)| {
      CutBeforeSpace(init, k);
      assert Encoding(cs)[..k] == Encoding(init)[..k];
    } else {
      assert Encoding(cs)[k] == Utf8(c)[k - |Encoding(init)|];
      assert Encoding(cs)[..k] == Encoding(init);
    }
  }

  lemma {:induction false} FirstCharacter(cs: seq<Char>)
    requires cs != []
    ensures Utf8(cs[0]) <= Encoding(cs)
  {
    if |cs| > 1 {
      FirstCharacter(cs[..|cs| - 1]);
    } else {
      assert cs[..0] == [];
    }
    hide Utf8;
  }

  lemma EllipsisIsWhole()
    ensures Encoding([0x20, 0x2E, 0x2E, 0x2E]) == ELLIPSIS
  {
    hide Utf8;
    var space: seq<Char>, dot: seq<Char> := [0x20], [0x2E];
    assert Encoding(space) == [0x20] by { assert space[..0] == []; }
    assert Encoding(dot) == [0x2E] by { assert dot[..0] == []; }
    EncodingConcat(space, dot);
    EncodingConcat(space + dot, dot);
    EncodingConcat(space + dot + dot, dot);
    assert space + dot + dot + dot == [0x20, 0x2E, 0x2E, 0x2E];
  }

  /** One byte of a longer character, and an ellipsis, is no text. */
  lemma BrokenCharacter(b: Byte)
    requires b >= 0x80
    ensures !WholeCharacters([b] + ELLIPSIS)
  {
    hide Utf8;
    forall cs
      ensures [b] + ELLIPSIS != Encoding(cs)
    {
      if cs != [] {
        FirstCharacter(cs);
        assert Encoding(cs)[0] == Utf8(cs[0])[0];
        if |Utf8(cs[0])| > 1 {
          assert Encoding(cs)[1] == Utf8(cs[0])[1];
          assert Continues(Encoding(cs)[1]);
        }
      }
    }
  }

  /** A single word is cut that begins with a character of more than one byte: of this one byte remains. */
  predicate BreaksCharacter(l: Limits, t: Text) {
    && IsCut(l, t) && t.bytes != [] && t.bytes[0] >= 0x80
    && forall i :: 0 <= i < |Trimmed(t.bytes, true)| ==> !IsSpaceByte(t.bytes[i])
  }

  /** The text that parse leaves consists of whole characters unless such a word is cut. */
  lemma CutKeepsCharacters(l: Limits, t: Text, cs: seq<Char>)
    requires Good(l, t) && Spells(t, cs)
    ensures WholeCharacters(Finished(l, t)) <==> !BreaksCharacter(l, t)
  {
    hide Utf8, Encoding;
    TrimOne(t.bytes);
    var once := Trimmed(t.bytes, true);
    if IsCut(l, t) {
      var k := CutWhere(l, t);
      EllipsisIsWhole();
      if k < |once| && IsSpaceByte(once[k]) {
        CutBeforeSpace(cs, k);
        var word :| t.bytes[..k] == Encoding(word);
        EncodingConcat(word, [0x20, 0x2E, 0x2E, 0x2E]);
        assert Finished(l, t) == Encoding(word + [0x20, 0x2E, 0x2E, 0x2E]);
      } else {
        WordCut(t.bytes[0]);
        assert t.bytes[..1] == [t.bytes[0]];
      }
    } else if |once| < |t.bytes| {
      CutBeforeSpace(cs, |once|);
    }
  }

  lemma WordCut(b: Byte)
    ensures WholeCharacters([b] + ELLIPSIS) <==> b < 0x80
  {
    hide Utf8;
    if b < 0x80 {
      var c: seq<Char> := [b];
      EllipsisIsWhole();
      EncodingConcat(c, [0x20, 0x2E, 0x2E, 0x2E]);
      assert Encoding(c) == [b] by { assert c[..0] == []; }
      assert [b] + ELLIPSIS == Encoding(c + [0x20, 0x2E, 0x2E, 0x2E]);
    } else {
      BrokenCharacter(b);
    }
  }
}
