/**
 * What the text of any page is in El/HTML/LightParser, and how it depends on the pages that the parser had before:
 * the tag skipped to is not forgotten between pages.
 */
module LightPages {

  import opened Bytes
  import opened Wrappers
  import opened LightText
  import opened TextCollector
  import opened LightParser
  import opened LightDocument

  // --- Tags ---------------------------------------------------------------------------------

  /** Blocks, and their end tags, break the line. */
  lemma BlockBreaksLine(tag: Name, w: string)
    requires w in ["p", "br", "div", "ol", "ul", "table", "pre"] && (Is(tag, w) || Is(tag, "/" + w))
    ensures TagText(tag) == [NEWLINE]
  {
    assert "/" + "p" == "/p" && "/" + "br" == "/br" && "/" + "div" == "/div" && "/" + "ol" == "/ol";
    assert "/" + "ul" == "/ul" && "/" + "table" == "/table" && "/" + "pre" == "/pre";
    hide Is;
  }

  /** An item begins a line with a bullet. */
  lemma ItemHasBullet(tag: Name)
    requires Is(tag, "li")
    ensures TagText(tag) == [0x0A, 0x2022, 0x20]
  {
    assert "li"[0] == 'l' && tag[0] == "li"[0] as int;
    assert "/p"[0] == '/' && "p/"[0] == 'p' && "br"[0] == 'b' && "ol"[0] == 'o' && "ul"[0] == 'u';
  }

  /** What these tags begin is skipped until their own end tag, whatever was skipped before. */
  lemma SkipsToItsEnd(tag: Name, w: string, skip: Name)
    requires w in ["script", "textarea", "style"] && Is(tag, w)
    ensures TagText(tag) == [] && Is(SkipAfter(tag, skip), "/" + w)
  {
    assert "/" + "script" == "/script" && "/" + "textarea" == "/textarea" && "/" + "style" == "/style";
    assert tag[0] == w[0] as int && "/table"[0] == '/' && "table"[0] == 't';
  }

  // --- The characters that reach append -----------------------------------------------------

  /** The characters that are appended, as long as none is refused. */
  function Appends(skip: Name, events: seq<Event>): seq<Char>
    decreases |events|
  {
    if events == [] then []
    else
      var skip' := SkipNext(events[0], skip);
      (if skip' != [] then [] else Shown(events[0])) + Appends(skip', events[1..])
  }

  lemma {:induction false} AbsorbedConcat(l: Limits, t: Text, a: seq<Char>, b: seq<Char>)
    ensures var first := Absorbed(l, t, a); Absorbed(l, t, a + b) == if first.1 then Absorbed(l, first.0, b) else first
  {
    hide Appended;
    if b == [] {
      assert a + b == a;
    } else {
      assert (a + b)[..|a + b| - 1] == a + b[..|b| - 1];
      AbsorbedConcat(l, t, a, b[..|b| - 1]);
    }
  }

  lemma FedOneAbsorbs(l: Limits, c: Collected, e: Event)
    ensures var skip := SkipNext(e, c.skip);
      var absorbed := Absorbed(l, c.text, if skip != [] then [] else Shown(e));
      FedOne(l, c, e) == (Collected(absorbed.0, skip), absorbed.1)
  {
    hide Appended;
    assert Absorbed(l, c.text, []) == (c.text, true);
  }

  /** The events of a page come down to appending their characters one after the other, until one is refused. */
  lemma {:induction false} FedAbsorbs(l: Limits, c: Collected, events: seq<Event>)
    ensures var fed, absorbed := Fed(l, c, events), Absorbed(l, c.text, Appends(c.skip, events));
      fed.0.text == absorbed.0 && fed.1 == absorbed.1 && (fed.1 ==> fed.0.skip == SkipLeft(c.skip, events))
    decreases |events|
  {
    if events == [] {
      assert Absorbed(l, c.text, []) == (c.text, true);
    } else {
      FedFirst(l, c, events);
      FedOneAbsorbs(l, c, events[0]);
      var first := FedOne(l, c, events[0]);
      var skip := SkipNext(events[0], c.skip);
      AbsorbedConcat(l, c.text, if skip != [] then [] else Shown(events[0]), Appends(skip, events[1..]));
      hide FedOne, Absorbed, SkipNext, Shown;
      if first.1 {
        FedAbsorbs(l, first.0, events[1..]);
      }
    }
  }

  lemma {:induction false} AbsorbedPrefix(l: Limits, t: Text, cs: seq<Char>) returns (n: nat)
    ensures n <= |cs| && (Absorbed(l, t, cs).1 ==> n == |cs|)
    ensures AppendedAll(l, t, cs[..n]) == Some(Absorbed(l, t, cs).0)
  {
    hide Appended;
    n := |cs|;
    assert cs[..n] == cs;
    if !Absorbed(l, t, cs).1 {
      n := AbsorbedPrefix(l, t, cs[..n - 1]);
      assert cs[..|cs| - 1][..n] == cs[..n];
    }
  }

  /** The text before it is cut, for every page and every tag skipped to: characters, collapsed and encoded. */
  lemma ParsedIsCollapsed(r: Rules, l: Limits, page: Name, skip: Name) returns (n: nat)
    requires ParsedFrom(r, l, page, Collected(EMPTY, skip), START).Some?
    ensures var t := ParsedFrom(r, l, page, Collected(EMPTY, skip), START).value.text;
      var events := LoopFrom(r, page, START).events;
      var appends := Appends(skip, events);
      && n <= |appends| && Good(l, t) && Spells(t, Collapsed(appends[..n]))
      && (Fed(l, Collected(EMPTY, skip), events).1 ==> n == |appends|)
  {
    var events := LoopFrom(r, page, START).events;
    hide TurnOf, LoopFrom, Good, Spells, Collapsed, Absorbed, Appended, Appends, Fed;
    ParsedAsEvents(r, l, page, Collected(EMPTY, skip), START);
    FedAbsorbs(l, Collected(EMPTY, skip), events);
    n := AbsorbedPrefix(l, EMPTY, Appends(skip, events));
    TextIsCollapsed(l, Appends(skip, events)[..n]);
  }

  /** For every page: the text that it gives consists of whole characters unless such a word is cut. */
  lemma ParsedKeepsCharacters(r: Rules, l: Limits, page: Name, skip: Name)
    requires ParsedFrom(r, l, page, Collected(EMPTY, skip), START).Some?
    ensures var t := ParsedFrom(r, l, page, Collected(EMPTY, skip), START).value.text;
      WholeCharacters(Finished(l, t)) <==> !BreaksCharacter(l, t)
  {
    var n := ParsedIsCollapsed(r, l, page, skip);
    var t := ParsedFrom(r, l, page, Collected(EMPTY, skip), START).value.text;
    var cs := Collapsed(Appends(skip, LoopFrom(r, page, START).events)[..n]);
    hide ParsedFrom, LoopFrom, Appends, Collapsed, Spells, Good;
    CutKeepsCharacters(l, t, cs);
  }

  // --- Pages after other pages --------------------------------------------------------------

  predicate AllSpace(cs: seq<Char>) {
    forall i :: 0 <= i < |cs| ==> IsSpace(cs[i])
  }

  /** The characters that a page shows before the first event that ends the skip or sets another. */
  function Lost(skip: Name, events: seq<Event>): seq<Char> {
    if events == [] || Opens(events[0]) != [] || events[0] == Tag(skip) then []
    else Shown(events[0]) + Lost(skip, events[1..])
  }

  lemma {:induction false} SkippingLoses(skip: Name, events: seq<Event>)
    requires skip != []
    ensures Appends([], events) == Lost(skip, events) + Appends(skip, events)
    decreases |events|
  {
    hide SkipNext, Shown;
    if events != [] {
      SkipNextIs(events[0], skip);
      SkipNextIs(events[0], []);
      SkippingLoses(skip, events[1..]);
    }
  }

  lemma {:induction false} SpacesAreNothing(l: Limits, cs: seq<Char>)
    ensures AllSpace(cs) ==> Absorbed(l, EMPTY, cs) == (EMPTY, true)
    ensures !AllSpace(cs) ==> Absorbed(l, EMPTY, cs).0.bytes != [] && Absorbed(l, EMPTY, cs).0.chars > 0
  {
    hide IsSpace, Utf8;
    if cs != [] {
      SpacesAreNothing(l, cs[..|cs| - 1]);
    }
  }

  /** One text has more characters than the other, and they end alike if the other has any. */
  ghost predicate Exceeds(t: Text, u: Text) {
    |t.bytes| > |u.bytes| && t.chars > u.chars && (u == EMPTY || (u.bytes != [] && t.lastSpace == u.lastSpace))
  }

  lemma AppendExceeds(l: Limits, t: Text, u: Text, c: Char)
    requires Exceeds(t, u) && Appended(l, t, c).Some?
    ensures Appended(l, u, c).Some? && Exceeds(Appended(l, t, c).value, Appended(l, u, c).value)
  {
    hide IsSpace, Utf8;
  }

  lemma {:induction false} AbsorbExceeds(l: Limits, t: Text, u: Text, cs: seq<Char>)
    requires Exceeds(t, u) && Absorbed(l, t, cs).1
    ensures Absorbed(l, u, cs).1 && Exceeds(Absorbed(l, t, cs).0, Absorbed(l, u, cs).0)
  {
    hide Exceeds, Appended;
    if cs != [] {
      AbsorbExceeds(l, t, u, cs[..|cs| - 1]);
      AppendExceeds(l, Absorbed(l, t, cs[..|cs| - 1]).0, Absorbed(l, u, cs[..|cs| - 1]).0, cs[|cs| - 1]);
    }
  }

  /** What ends as a longer text, if nothing is cut. */
  lemma FinishedDiffer(l: Limits, t: Text, u: Text)
    requires Good(l, t) && Good(l, u) && Exceeds(t, u) && !IsCut(l, t)
    ensures Finished(l, t) != Finished(l, u)
  {
    TrimOne(t.bytes);
    TrimOne(u.bytes);
    hide Trimmed;
    assert |Trimmed(t.bytes, true)| > |Trimmed(u.bytes, true)|;
  }

  /** The text that parse gives, or none if it refuses the page. */
  function Outcome(r: Rules, l: Limits, page: Name, skip: Name): Option<seq<Byte>> {
    match ParsedFrom(r, l, page, Collected(EMPTY, skip), START)
    case None => None
    case Some(c) => Some(Finished(l, c.text))
  }

  /** The page is no syntax error. */
  ghost predicate Accepted(r: Rules, page: Name) {
    var loop := LoopFrom(r, page, START);
    loop.Done? && (loop.mode.ReadingText? || r.lax)
  }

  lemma OutcomeIs(r: Rules, l: Limits, page: Name, skip: Name)
    ensures var t := Absorbed(l, EMPTY, Appends(skip, LoopFrom(r, page, START).events));
      && Outcome(r, l, page, skip) == (if t.1 && !Accepted(r, page) then None else Some(Finished(l, t.0)))
      && Good(l, t.0)
  {
    var appends := Appends(skip, LoopFrom(r, page, START).events);
    hide TurnOf, Good, Absorbed, Finished;
    ParsedAsEvents(r, l, page, Collected(EMPTY, skip), START);
    FedAbsorbs(l, Collected(EMPTY, skip), LoopFrom(r, page, START).events);
    NothingSpelled(l);
    AbsorbKeepsGood(l, EMPTY, appends);
  }

  /** A skip that was left over does no harm if what it hides is white space. */
  lemma HiddenSpacesDoNoHarm(r: Rules, l: Limits, page: Name, skip: Name)
    requires skip != [] ==> AllSpace(Lost(skip, LoopFrom(r, page, START).events))
    ensures Outcome(r, l, page, skip) == Outcome(r, l, page, [])
  {
    var events := LoopFrom(r, page, START).events;
    OutcomeIs(r, l, page, skip);
    OutcomeIs(r, l, page, []);
    hide Outcome, LoopFrom, Absorbed, AllSpace, Good, Accepted, Appends, Lost, Finished;
    if skip != [] {
      SkippingLoses(skip, events);
      SpacesAreNothing(l, Lost(skip, events));
      AbsorbedConcat(l, EMPTY, Lost(skip, events), Appends(skip, events));
    }
  }

  /** Characters before the others that are not all white space make a difference. */
  lemma LossShows(l: Limits, lost: seq<Char>, rest: seq<Char>)
    requires !AllSpace(lost) && Absorbed(l, EMPTY, lost + rest).1 && !IsCut(l, Absorbed(l, EMPTY, lost + rest).0)
    ensures Absorbed(l, EMPTY, rest).1
    ensures Finished(l, Absorbed(l, EMPTY, lost + rest).0) != Finished(l, Absorbed(l, EMPTY, rest).0)
  {
    hide Good, Absorbed, IsCut, Finished, AllSpace;
    AbsorbedConcat(l, EMPTY, lost, rest);
    SpacesAreNothing(l, lost);
    AbsorbExceeds(l, Absorbed(l, EMPTY, lost).0, EMPTY, rest);
    hide Exceeds;
    NothingSpelled(l);
    AbsorbKeepsGood(l, EMPTY, lost + rest);
    AbsorbKeepsGood(l, EMPTY, rest);
    FinishedDiffer(l, Absorbed(l, EMPTY, lost + rest).0, Absorbed(l, EMPTY, rest).0);
  }

  /**
   * A used parser gives the same text as a new one for a page whose text is not cut, if and only if the page is a
   * syntax error, nothing was left to skip to, or the page shows only white space before it ends the skip.
   */
  lemma UsedParserAgreesExactlyWhen(r: Rules, l: Limits, page: Name, skip: Name)
    requires var fed := Fed(l, Collected(EMPTY, []), LoopFrom(r, page, START).events);
      fed.1 && !IsCut(l, fed.0.text)
    ensures Outcome(r, l, page, skip) == Outcome(r, l, page, []) <==>
      || !Accepted(r, page)
      || skip == []
      || AllSpace(Lost(skip, LoopFrom(r, page, START).events))
  {
    var events := LoopFrom(r, page, START).events;
    hide TurnOf, LoopFrom, Good, Absorbed, IsCut, Finished, Fed, Accepted, Outcome, AllSpace, Appends, Lost;
    if skip == [] || AllSpace(Lost(skip, events)) {
      HiddenSpacesDoNoHarm(r, l, page, skip);
    } else {
      FedAbsorbs(l, Collected(EMPTY, []), events);
      OutcomeIs(r, l, page, skip);
      OutcomeIs(r, l, page, []);
      SkippingLoses(skip, events);
      LossShows(l, Lost(skip, events), Appends(skip, events));
    }
  }

  lemma {:induction false} WideEnough(l: Limits, cs: seq<Char>)
    requires l.bytes >= 6 * |cs| && l.chars >= |cs|
    ensures Absorbed(l, EMPTY, cs).1
    ensures |Absorbed(l, EMPTY, cs).0.bytes| <= 6 * |cs| && Absorbed(l, EMPTY, cs).0.chars <= |cs|
  {
    hide IsSpace;
    if cs != [] {
      WideEnough(l, cs[..|cs| - 1]);
    }
  }

  /** For all limits at once: which pages come out of a used parser as out of a new one. */
  lemma PageForgetsExactlyWhen(r: Rules, page: Name, skip: Name)
    requires Accepted(r, page)
    ensures (forall l :: Outcome(r, l, page, skip) == Outcome(r, l, page, [])) <==>
      skip == [] || AllSpace(Lost(skip, LoopFrom(r, page, START).events))
  {
    var events := LoopFrom(r, page, START).events;
    hide LoopFrom, Accepted, Outcome, AllSpace, Lost;
    if skip == [] || AllSpace(Lost(skip, events)) {
      forall l
        ensures Outcome(r, l, page, skip) == Outcome(r, l, page, [])
      {
        HiddenSpacesDoNoHarm(r, l, page, skip);
      }
    } else {
      var cs := Appends([], events);
      var l := Limits(6 * |cs|, |cs|);
      WideEnough(l, cs);
      FedAbsorbs(l, Collected(EMPTY, []), events);
      assert |Trimmed(Absorbed(l, EMPTY, cs).0.bytes, true)| <= |Absorbed(l, EMPTY, cs).0.bytes|;
      UsedParserAgreesExactlyWhen(r, l, page, skip);
    }
  }

  lemma {:induction false} TextIsLost(skip: Name, cs: Name)
    ensures Lost(skip, TextEvents(cs)) == cs
    decreases |cs|
  {
    if cs != [] {
      TextIsLost(skip, cs[1..]);
      assert TextEvents(cs)[1..] == TextEvents(cs[1..]);
    }
  }

  lemma CollapsedToNothing(cs: seq<Char>)
    ensures Collapsed(cs) == [] <==> AllSpace(cs)
  {
    hide IsSpace;
  }

  /** A page without tags comes out the same exactly if nothing is left to skip to or it has no text at all. */
  lemma TextPageForgetsExactlyWhen(r: Rules, t: Name, skip: Name)
    requires PlainText(t)
    ensures (forall l :: Outcome(r, l, t, skip) == Outcome(r, l, t, [])) <==> skip == [] || Collapsed(t) == []
  {
    DocumentRoundTrip(r, Document([], t));
    hide Outcome, AllSpace, Lost, Collapsed, LoopFrom, TurnOf;
    assert Write(Document([], t)) == t && LoopFrom(r, t, START) == Done(TextEvents(t), ReadingText);
    PageForgetsExactlyWhen(r, t, skip);
    TextIsLost(skip, t);
    CollapsedToNothing(t);
  }

  // --- Two pages ----------------------------------------------------------------------------

  const SCRIPT := Element(Wide("script"), 0, [], Close)

  /** The page is one tag that begins a script. */
  const SCRIPT_PAGE: Name := Write(Document([([], Piece(SCRIPT))], []))

  lemma ScriptIsPlain(r: Rules)
    ensures PlainDocument(r, Document([([], Piece(SCRIPT))], []))
  {
    var name, text := SCRIPT.name, "script";
    ComesMeans(name, 0, "!--");
    assert "!--"[0] == '!' && text[0] == 's' && name[0] == text[0] as int;
    assert forall i :: 0 <= i < |text| ==> 'c' <= text[i] <= 't';
    assert forall i :: 0 <= i < |name| ==> name[i] == text[i] as int;
    hide Is, Wide;
  }

  lemma ScriptOpens()
    ensures SkipAfter(Wide("script"), []) == Wide("/script") && TagText(Wide("script")) == []
  {
    var name, text, table := Wide("script"), "script", "/table";
    assert name[0] == text[0] as int && text[0] == 's' && table[0] == '/';
    assert name[0] != table[0] as int;
  }

  lemma ScriptIsCollected(r: Rules, l: Limits, d: Document)
    requires r.lower(Wide("script")) == Wide("script") && d == Document([([], Piece(SCRIPT))], [])
    ensures Fed(l, Collected(EMPTY, []), Events(r, d)) == (Collected(EMPTY, Wide("/script")), true)
  {
    hide Is, Wide, TagText, SkipAfter, Absorbed;
    var events := [Tag(Wide("script"))];
    assert Events(r, d) == events by {
      assert d.parts[1..] == [];
    }
    ScriptOpens();
    FedFirst(l, Collected(EMPTY, []), events);
    FedOneAbsorbs(l, Collected(EMPTY, []), events[0]);
    assert Absorbed(l, EMPTY, []) == (EMPTY, true);
  }

  lemma ScriptIsRead(r: Rules, l: Limits)
    requires r.lower(Wide("script")) == Wide("script")
    ensures ParsedFrom(r, l, SCRIPT_PAGE, Collected(EMPTY, []), START) == Some(Collected(EMPTY, Wide("/script")))
  {
    var d := Document([([], Piece(SCRIPT))], []);
    ScriptIsPlain(r);
    ScriptIsCollected(r, l, d);
    hide PlainDocument, TurnOf, LoopFrom, Is, Wide, Write, ParsedFrom, Fed, Events;
    DocumentIsCollected(r, l, Collected(EMPTY, []), d);
  }

  lemma {:induction false} TextAppends(cs: Name)
    ensures Appends([], TextEvents(cs)) == cs
    decreases |cs|
  {
    if cs != [] {
      TextAppends(cs[1..]);
      assert TextEvents(cs)[1..] == TextEvents(cs[1..]);
    }
  }

  /** A page of text comes out empty while something is left to skip to. */
  lemma TextIsSilenced(r: Rules, l: Limits, text: Name, skip: Name)
    requires PlainText(text) && skip != []
    ensures Outcome(r, l, text, skip) == Some([])
  {
    DocumentRoundTrip(r, Document([], text));
    assert Write(Document([], text)) == text;
    hide TurnOf, LoopFrom, Outcome, Lost, Appends;
    OutcomeIs(r, l, text, skip);
    TextIsLost(skip, text);
    TextAppends(text);
    SkippingLoses(skip, TextEvents(text));
    assert Appends(skip, TextEvents(text)) == [];
    assert Absorbed(l, EMPTY, []) == (EMPTY, true);
  }

  lemma SomethingFinished(l: Limits, t: Text)
    requires Good(l, t)
    ensures Finished(l, t) == [] <==> t.bytes == []
  {
    TrimOne(t.bytes);
    assert t.bytes == [] ==> t.chars == 0;
    hide Chars;
  }

  /** From a page of text a new parser gets its collapsed characters, and nothing exactly if there are none. */
  lemma NewParserShows(r: Rules, l: Limits, text: Name)
    requires PlainText(text)
    ensures Outcome(r, l, text, []) == Some([]) <==> Collapsed(text) == []
    ensures var t := AppendedAll(l, EMPTY, text);
      t.Some? ==> Outcome(r, l, text, []) == Some(Finished(l, t.value)) && t.value.bytes == Encoding(Collapsed(text))
  {
    hide TurnOf, LoopFrom, Outcome, Appends, Absorbed, Finished, Good, Collapsed, AllSpace, Encoding;
    DocumentRoundTrip(r, Document([], text));
    assert Write(Document([], text)) == text;
    OutcomeIs(r, l, text, []);
    TextAppends(text);
    SpacesAreNothing(l, text);
    SomethingFinished(l, Absorbed(l, EMPTY, text).0);
    CollapsedToNothing(text);
    if AppendedAll(l, EMPTY, text).Some? {
      TextIsCollapsed(l, text);
    }
  }

  /**
   * A page that ends inside a script leaves its mark: any page of text after it comes out empty, while a new
   * parser would give its text.
   */
  lemma UnfinishedScriptSilencesNextPage(r: Rules, l: Limits, text: Name)
    requires r.lower(Wide("script")) == Wide("script") && PlainText(text)
    ensures var first := ParsedFrom(r, l, SCRIPT_PAGE, Collected(EMPTY, []), START);
      && first == Some(Collected(EMPTY, Wide("/script")))
      && Outcome(r, l, text, first.value.skip) == Some([])
    ensures Outcome(r, l, text, []) == Some([]) <==> Collapsed(text) == []
    ensures var t := AppendedAll(l, EMPTY, text);
      t.Some? ==> Outcome(r, l, text, []) == Some(Finished(l, t.value)) && t.value.bytes == Encoding(Collapsed(text))
  {
    var skip := Wide("/script");
    assert skip != [];
    hide *;
    ScriptIsRead(r, l);
    TextIsSilenced(r, l, text, skip);
    NewParserShows(r, l, text);
  }
}
