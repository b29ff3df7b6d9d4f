/** The fields of El/HTML/LightParser.hpp that make the text, with append, rtrim, process_tag and the end of parse. */
module TextCollector {

  import opened Bytes
  import opened Wrappers
  import opened LightText

  type Name = seq<Char>

  predicate Is(tag: Name, s: string) {
    |tag| == |s| && forall i :: 0 <= i < |s| ==> tag[i] == s[i] as int
  }

  function Wide(s: string): (w: Name)
    requires forall i :: 0 <= i < |s| ==> s[i] < '\U{80}'
    ensures Is(w, s)
  {
    if s == "" then [] else Wide(s[..|s| - 1]) + [s[|s| - 1] as int]
  }

  predicate BreaksLine(tag: Name) {
    || Is(tag, "p") || Is(tag, "p/") || Is(tag, "/p") || Is(tag, "br") || Is(tag, "br/") || Is(tag, "/br")
    || Is(tag, "div") || Is(tag, "/div") || Is(tag, "ol") || Is(tag, "/ol") || Is(tag, "ul") || Is(tag, "/ul")
    || Is(tag, "table") || Is(tag, "/table") || Is(tag, "/li") || Is(tag, "pre") || Is(tag, "/pre")
  }

  const BULLET: Char := 0x2022

  const ITEM: seq<Char> := [NEWLINE, BULLET, SPACE]

  /** What a tag adds to the text. */
  function TagText(tag: Name): seq<Char> {
    if BreaksLine(tag) then [NEWLINE] else if Is(tag, "li") then ITEM else []
  }

  /** The tag that has to come before any more text is taken. */
  function SkipAfter(tag: Name, skip: Name): Name {
    if TagText(tag) != [] then if skip == tag then [] else skip
    else if Is(tag, "script") then Wide("/script")
    else if Is(tag, "textarea") then Wide("/textarea")
    else if Is(tag, "style") then Wide("/style")
    else if skip == tag then []
    else skip
  }

  /** append for each character, up to the first that is refused; and whether none is. */
  function Absorbed(l: Limits, t: Text, cs: seq<Char>): (r: (Text, bool))
    ensures r.1 <==> AppendedAll(l, t, cs).Some?
    ensures r.1 ==> AppendedAll(l, t, cs).value == r.0
  {
    if cs == [] then (t, true)
    else
      var before := Absorbed(l, t, cs[..|cs| - 1]);
      if !before.1 then before
      else
        match Appended(l, before.0, cs[|cs| - 1])
        case None => (before.0, false)
        case Some(t') => (t', true)
  }

  /** The text and what is skipped to. */
  datatype Collected = Collected(text: Text, skip: Name)

  function Taken(l: Limits, c: Collected, cs: seq<Char>): (Collected, bool) {
    if c.skip != [] then (c, true)
    else var r := Absorbed(l, c.text, cs); (c.(text := r.0), r.1)
  }

  function Tagged(l: Limits, c: Collected, tag: Name): (Collected, bool) {
    Taken(l, c.(skip := SkipAfter(tag, c.skip)), TagText(tag))
  }

  lemma OneMore(l: Limits, c: Collected, cs: seq<Char>, x: Char)
    ensures var r := Taken(l, c, cs); Taken(l, c, cs + [x]) == if r.1 then Taken(l, r.0, [x]) else r
    ensures Taken(l, c, []) == (c, true)
  {
    hide Appended;
    assert (cs + [x])[..|cs|] == cs;
    assert [x][..0] == [];
  }

  class Collector {
    var text: seq<Byte>
    var length: nat
    var charCount: nat
    var lastSpace: bool
    var skip: Name
    var limits: Limits

    predicate Valid()
      reads this
    {
      length == |text|
    }

    function State(): Collected
      reads this
    {
      Collected(Text(text, charCount, lastSpace), skip)
    }

    constructor ()
      ensures Valid() && State() == Collected(EMPTY, [])
    {
      text, length, charCount, lastSpace, skip, limits := [], 0, 0, true, [], Limits(0, 0);
    }

    /** The beginning of parse: all but the tag skipped to starts afresh. */
    method Clear(maxBytes: nat, maxChars: nat)
      modifies this
      ensures Valid() && State() == Collected(EMPTY, old(skip))
      ensures limits == Limits(Reduced(maxBytes), Reduced(maxChars))
    {
      text, length, charCount, lastSpace := [], 0, 0, true;
      limits := Limits(
        if maxBytes > 4 then maxBytes - 4 else maxBytes,
        if maxChars > 4 then maxChars - 4 else maxChars);
    }

    method Append(c: Char) returns (ok: bool)
      requires Valid()
      modifies this`text, this`length, this`charCount, this`lastSpace
      ensures Valid() && (State(), ok) == Taken(limits, old(State()), [c])
    {
      OneMore(limits, State(), [], c);
      assert [] + [c] == [c] && [c][..0] == [];
      hide Utf8;
      if skip != [] {
        return true;
      }
      var isSpace := IsSpace(c);
      if isSpace && (length > limits.bytes || charCount > limits.chars) {
        return false;
      }
      var chr := c;
      if isSpace {
        if chr != NEWLINE {
          chr := SPACE;
        }
        if lastSpace {
          if chr == NEWLINE && length != 0 {
            text := text[length - 1 := NEWLINE];
          }
          return true;
        }
      }
      lastSpace := isSpace;
      var bytes := Utf8(chr);
      text := text + bytes;
      length := length + |bytes|;
      charCount := charCount + 1;
      ok := true;
    }

    method RTrim(spaces: bool) returns (trimmed: nat)
      requires Valid()
      modifies this`text, this`length
      ensures Valid() && text == Trimmed(old(text), spaces) && trimmed == |old(text)| - |text|
    {
      trimmed := 0;
      if length != 0 {
        var i := length - 1;
        assert text[..i + 1] == text;
        while i > 0 && IsSpaceByte(text[i]) == spaces
          invariant text == old(text) && length == |text|
          invariant 0 <= i < |text| && trimmed == |text| - (i + 1)
          invariant Trimmed(text, spaces) == Trimmed(text[..i + 1], spaces)
        {
          assert text[..i + 1][..i] == text[..i];
          trimmed := trimmed + 1;
          i := i - 1;
        }
        if i != length - 1 {
          text := text[..i + 1];
          length := i + 1;
        }
      }
    }

    /** A line that begins with a bullet. */
    method AppendItem() returns (ok: bool)
      requires Valid()
      modifies this`text, this`length, this`charCount, this`lastSpace
      ensures Valid() && (State(), ok) == Taken(limits, old(State()), ITEM)
    {
      OneMore(limits, State(), [NEWLINE], BULLET);
      OneMore(limits, State(), [NEWLINE, BULLET], SPACE);
      assert [NEWLINE] + [BULLET] == [NEWLINE, BULLET] && [NEWLINE, BULLET] + [SPACE] == ITEM;
      hide Appended, Absorbed, Taken;
      ok := Append(NEWLINE);
      if ok {
        ok := Append(BULLET);
      }
      if ok {
        ok := Append(SPACE);
      }
    }

    method ProcessTag(tag: Name) returns (ok: bool)
      requires Valid()
      modifies this`text, this`length, this`charCount, this`lastSpace, this`skip
      ensures Valid() && (State(), ok) == Tagged(limits, old(State()), tag)
    {
      OneMore(limits, State().(skip := SkipAfter(tag, skip)), [], NEWLINE);
      hide Appended, Absorbed, Taken, Wide, Is, BreaksLine;
      if skip == tag {
        skip := [];
      }
      ok := true;
      if BreaksLine(tag) {
        ok := Append(NEWLINE);
      } else if Is(tag, "li") {
        ok := AppendItem();
      } else if Is(tag, "script") {
        skip := Wide("/script");
      } else if Is(tag, "textarea") {
        skip := Wide("/textarea");
      } else if Is(tag, "style") {
        skip := Wide("/style");
      }
    }

    /** The end of parse. */
    method Finish()
      requires Valid() && Good(limits, State().text)
      modifies this`text, this`length, this`charCount
      ensures text == Finished(limits, old(State().text))
    {
      TrimOne(text);
      var trimmed := RTrim(true);
      charCount := charCount - trimmed;
      if length > limits.bytes || charCount > limits.chars {
        var word := RTrim(false);
        var gap := RTrim(true);
        text := text + ELLIPSIS;
      }
    }
  }
}
