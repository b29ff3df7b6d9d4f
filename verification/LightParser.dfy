/** The loop of El/HTML/LightParser.cpp that splits a page into characters, tags and attributes. */
module LightParser {

  import opened Wrappers
  import opened LightText
  import opened TextCollector

  /** Lower case and the values of references come from tables; lax is the flag PF_LAX. */
  datatype Rules = Rules(lax: bool, lower: Name -> Name, reference: Name -> Option<Char>)

  datatype Mode = ReadingText | ReadingTag | ReadingAttribute

  /** The variables of the loop; the pointers ptag, pattr and pattr_value are null or places in the page. */
  datatype Lexer = Lexer(
    ptr: nat, mode: Mode, quote: Char, comment: bool,
    ptag: Option<nat>, pattr: Option<nat>, pvalue: Option<nat>, tag: Name, attr: Name)

  datatype Event = Character(c: Char) | Tag(tag: Name) | Attribute(tag: Name, attr: Name, value: Name)

  const START := Lexer(0, ReadingText, 0, false, None, None, None, [], [])

  /** A character constant of the program. */
  function Ch(c: char): Char
    requires c < '\U{80}'
  {
    c as int
  }

  /** The character at a place, or the zero at the end. */
  function At(page: Name, i: nat): Char {
    if i < |page| then page[i] else 0
  }

  /** wcsncmp. */
  predicate Comes(page: Name, i: nat, s: string) {
    i + |s| <= |page| && Is(page[i..i + |s|], s)
  }

  /** The characters that begin a tag after <. */
  predicate StartsTag(c: Char) {
    || c == Ch('/') || c == Ch('?') || c == Ch('!')
    || Ch('a') <= c <= Ch('z') || Ch('A') <= c <= Ch('Z')
  }

  /** The letters of ASCII, and / ? and ! by their codes. */
  lemma TagsBeginWith(c: Char)
    ensures StartsTag(c) <==> 0x41 <= c <= 0x5A || 0x61 <= c <= 0x7A || c == 0x2F || c == 0x3F || c == 0x21
  {
  }

  predicate IsQuote(c: Char) {
    c == Ch('"') || c == Ch('\'')
  }

  // --- Pointers -----------------------------------------------------------------------------

  ghost predicate Behind(p: Option<nat>, ptr: nat) {
    p.Some? ==> p.value <= ptr
  }

  /** The pointers are not past the scan point, and the value is being read exactly in its mode. */
  ghost predicate Inv(page: Name, s: Lexer) {
    && s.ptr <= |page|
    && (s.pvalue.Some? <==> s.mode.ReadingAttribute?)
    && (s.mode.ReadingText? ==> s.ptag.None? && s.pattr.None?)
    && (s.ptag.None? || s.pattr.None?)
    && Behind(s.ptag, s.ptr) && Behind(s.pattr, s.ptr) && Behind(s.pvalue, s.ptr)
    && (s.ptag.Some? ==> StartsTag(At(page, s.ptag.value)))
  }

  /** The characters from a pointer to the scan point. */
  function Slice(page: Name, p: nat, ptr: nat): Name
    requires p <= ptr <= |page|
  {
    page[p..ptr]
  }

  // --- One turn of the loop -----------------------------------------------------------------

  datatype Turn = Next(s: Lexer, events: seq<Event>) | Error

  function Skip(s: Lexer, n: nat): Turn {
    Next(s.(ptr := s.ptr + n), [])
  }

  function Emit(s: Lexer, c: Char): Turn {
    Next(s.(ptr := s.ptr + 1), [Character(c)])
  }

  function CommentTurn(page: Name, s: Lexer): Turn
    requires s.ptr < |page|
  {
    var c := page[s.ptr];
    if c == Ch('-') && Comes(page, s.ptr + 1, "->") then Next(s.(comment := false, ptr := s.ptr + 3), [])
    else if c == Ch('\r') && At(page, s.ptr + 1) == Ch('\n') then Skip(s, 2)
    else if c == Ch('\n') && At(page, s.ptr + 1) == Ch('\r') then Skip(s, 2)
    else Skip(s, 1)
  }

  /** The name of a tag ends here, if one is being read. */
  function NamedTag(r: Rules, page: Name, s: Lexer): Name
    requires Inv(page, s)
  {
    if s.ptag.Some? then r.lower(Slice(page, s.ptag.value, s.ptr)) else s.tag
  }

  /** The tag is over. */
  function TagEnds(r: Rules, page: Name, s: Lexer, ptr: nat): Turn
    requires Inv(page, s)
  {
    var tag := NamedTag(r, page, s);
    Next(s.(mode := ReadingText, ptag := None, tag := tag, pattr := None, pvalue := None, ptr := ptr), [Tag(tag)])
  }

  /** The value of an attribute is over. */
  function ValueEnds(page: Name, s: Lexer, ptr: nat): Turn
    requires Inv(page, s) && s.mode.ReadingAttribute?
  {
    Next(s.(mode := ReadingTag, pvalue := None, attr := [], ptr := ptr),
      [Attribute(s.tag, s.attr, Slice(page, s.pvalue.value, s.ptr))])
  }

  function LessTurn(r: Rules, page: Name, s: Lexer): Turn
    requires Inv(page, s) && s.ptr < |page|
  {
    if Comes(page, s.ptr + 1, "!--") then Next(s.(comment := true, ptr := s.ptr + 1), [])
    else
      match s.mode
      case ReadingTag => if r.lax then TagEnds(r, page, s, s.ptr) else Error
      case ReadingText =>
        if StartsTag(At(page, s.ptr + 1)) then
          Next(s.(mode := ReadingTag, ptag := Some(s.ptr + 1), ptr := s.ptr + 1), [])
        else Emit(s, Ch('<'))
      case ReadingAttribute => Skip(s, 1)
  }

  function QuoteTurn(page: Name, s: Lexer): Turn
    requires Inv(page, s) && s.ptr < |page|
  {
    var c := page[s.ptr];
    match s.mode
    case ReadingText => Emit(s, c)
    case ReadingAttribute => if s.quote == c then ValueEnds(page, s, s.ptr + 1) else Skip(s, 1)
    case ReadingTag => Next(s.(mode := ReadingAttribute, quote := c, pvalue := Some(s.ptr + 1), ptr := s.ptr + 1), [])
  }

  function SpaceTurn(r: Rules, page: Name, s: Lexer): Turn
    requires Inv(page, s) && s.ptr < |page|
  {
    match s.mode
    case ReadingTag =>
      if s.ptag.Some? then
        if s.ptag.value == s.ptr then Error
        else Next(s.(tag := NamedTag(r, page, s), ptag := None, ptr := s.ptr + 1), [])
      else if s.pattr.Some? then
        Next(s.(attr := r.lower(Slice(page, s.pattr.value, s.ptr)), pattr := None, ptr := s.ptr + 1), [])
      else Skip(s, 1)
    case ReadingText => Emit(s, SPACE)
    case ReadingAttribute => if s.quote == 0 then ValueEnds(page, s, s.ptr + 1) else Skip(s, 1)
  }

  function GreaterTurn(r: Rules, page: Name, s: Lexer): Turn
    requires Inv(page, s) && s.ptr < |page|
  {
    match s.mode
    case ReadingText => Emit(s, Ch('>'))
    case ReadingAttribute => if s.quote == 0 then ValueEnds(page, s, s.ptr) else Skip(s, 1)
    case ReadingTag => TagEnds(r, page, s, s.ptr + 1)
  }

  function SlashTurn(page: Name, s: Lexer): Turn
    requires Inv(page, s) && s.ptr < |page|
  {
    match s.mode
    case ReadingText => Emit(s, Ch('/'))
    case ReadingAttribute =>
      if s.quote == 0 && At(page, s.ptr + 1) == Ch('>') then ValueEnds(page, s, s.ptr) else Skip(s, 1)
    case ReadingTag => Skip(s, 1)
  }

  function EqualsTurn(r: Rules, page: Name, s: Lexer): Turn
    requires Inv(page, s) && s.ptr < |page|
  {
    match s.mode
    case ReadingTag =>
      var named :=
        if s.pattr.Some? then s.(attr := r.lower(Slice(page, s.pattr.value, s.ptr)), pattr := None) else s;
      var c := At(page, s.ptr + 1);
      if IsQuote(c) || IsSpace(c) then Skip(named, 1)
      else Next(named.(mode := ReadingAttribute, quote := 0, pvalue := Some(s.ptr + 1), ptr := s.ptr + 1), [])
    case ReadingText => Emit(s, Ch('='))
    case ReadingAttribute => Skip(s, 1)
  }

  /** A line feed or a carriage return, with the other one if it follows. */
  function LineTurn(page: Name, s: Lexer): Turn
    requires s.ptr < |page|
  {
    var c := page[s.ptr];
    var other := if c == Ch('\r') then Ch('\n') else Ch('\r');
    var n := if At(page, s.ptr + 1) == other then 2 else 1;
    var read := if n == 2 then [Character(c), Character(other)] else [Character(c)];
    Next(s.(ptr := s.ptr + n), if s.mode.ReadingText? then read else [])
  }

  /** Where the scan of a reference stops: at its end, at the end of the line, or at a foreign character. */
  function ReferenceEnd(page: Name, i: nat): (e: nat)
    requires i <= |page|
    ensures i <= e <= |page|
    decreases |page| - i
  {
    if i == |page| || page[i] == Ch('\n') || page[i] == Ch('\r') || page[i] == Ch(';') then i
    else if 127 < page[i] < 0x8000_0000 then i
    else ReferenceEnd(page, i + 1)
  }

  /** xml_decode_entity. */
  function ReferenceAt(r: Rules, page: Name, i: nat): (value: Option<Char>)
    requires i < |page|
    ensures value.Some? ==> ReferenceEnd(page, i + 1) < |page|
  {
    var e := ReferenceEnd(page, i + 1);
    if At(page, e) == Ch(';') && e - i > 2 then r.reference(page[i + 1..e]) else None
  }

  function ReferenceTurn(r: Rules, page: Name, s: Lexer): Turn
    requires s.ptr < |page|
  {
    if !s.mode.ReadingText? then Skip(s, 1)
    else
      var value := ReferenceAt(r, page, s.ptr);
      if value.Some? then Next(s.(ptr := ReferenceEnd(page, s.ptr + 1) + 1), [Character(value.value)])
      else if r.lax then Emit(s, Ch('&'))
      else Error
  }

  function OtherTurn(page: Name, s: Lexer): Turn
    requires s.ptr < |page|
  {
    match s.mode
    case ReadingText => Emit(s, page[s.ptr])
    case ReadingTag =>
      if s.pattr.None? && s.ptag.None? then Next(s.(pattr := Some(s.ptr), ptr := s.ptr + 1), []) else Skip(s, 1)
    case ReadingAttribute => Skip(s, 1)
  }

  function TurnOf(r: Rules, page: Name, s: Lexer): Turn
    requires Inv(page, s) && s.ptr < |page|
  {
    var c := page[s.ptr];
    if s.comment then CommentTurn(page, s)
    else if c == Ch('<') then LessTurn(r, page, s)
    else if IsQuote(c) then QuoteTurn(page, s)
    else if c == Ch(' ') then SpaceTurn(r, page, s)
    else if c == Ch('>') then GreaterTurn(r, page, s)
    else if c == Ch('/') then SlashTurn(page, s)
    else if c == Ch('=') then EqualsTurn(r, page, s)
    else if c == Ch('\r') || c == Ch('\n') then LineTurn(page, s)
    else if c == Ch('&') then ReferenceTurn(r, page, s)
    else OtherTurn(page, s)
  }

  // --- What every turn keeps ----------------------------------------------------------------

  function Rank(m: Mode): nat {
    match m
    case ReadingText => 0
    case ReadingTag => 1
    case ReadingAttribute => 2
  }

  /** The pointers stay in order, and either the scan moves on or it stays and leaves a tag or a value. */
  ghost predicate Follows(page: Name, s: Lexer, turn: Turn) {
    turn.Next? ==>
      && Inv(page, turn.s) && s.ptr <= turn.s.ptr
      && (turn.s.ptr == s.ptr ==> Rank(turn.s.mode) < Rank(s.mode) && !turn.s.comment)
  }

  lemma BracketTurnsFollow(r: Rules, page: Name, s: Lexer)
    requires Inv(page, s) && s.ptr < |page| && !s.comment
    ensures Follows(page, s, LessTurn(r, page, s)) && Follows(page, s, GreaterTurn(r, page, s))
    ensures Follows(page, s, SlashTurn(page, s))
  {
    hide Comes, NamedTag;
  }

  lemma AttributeTurnsFollow(r: Rules, page: Name, s: Lexer)
    requires Inv(page, s) && s.ptr < |page|
    ensures Follows(page, s, QuoteTurn(page, s)) && Follows(page, s, SpaceTurn(r, page, s))
    ensures Follows(page, s, EqualsTurn(r, page, s))
  {
    hide NamedTag, IsSpace;
  }

  lemma PlainTurnsFollow(r: Rules, page: Name, s: Lexer)
    requires Inv(page, s) && s.ptr < |page|
    ensures Follows(page, s, CommentTurn(page, s)) && Follows(page, s, LineTurn(page, s))
    ensures Follows(page, s, ReferenceTurn(r, page, s)) && Follows(page, s, OtherTurn(page, s))
  {
    hide Is, ReferenceAt;
  }

  lemma TurnKeepsInv(r: Rules, page: Name, s: Lexer)
    requires Inv(page, s) && s.ptr < |page|
    ensures Follows(page, s, TurnOf(r, page, s))
  {
    PlainTurnsFollow(r, page, s);
    AttributeTurnsFollow(r, page, s);
    if !s.comment {
      BracketTurnsFollow(r, page, s);
    }
    hide Follows, CommentTurn, LessTurn, QuoteTurn, SpaceTurn, GreaterTurn, SlashTurn, EqualsTurn, LineTurn, OtherTurn;
    hide ReferenceTurn, Inv;
  }

  /** The two errors, both only in strict mode; that of a space right after < cannot happen. */
  lemma ErrorExactlyWhen(r: Rules, page: Name, s: Lexer)
    requires Inv(page, s) && s.ptr < |page|
    ensures TurnOf(r, page, s).Error? <==>
      !r.lax && !s.comment && (
        || (page[s.ptr] == Ch('<') && s.mode.ReadingTag? && !Comes(page, s.ptr + 1, "!--"))
        || (page[s.ptr] == Ch('&') && s.mode.ReadingText? && ReferenceAt(r, page, s.ptr).None?))
  {
    hide Comes, IsSpace, ReferenceAt, ReferenceEnd;
  }

  /** Characters and tags are only given out while, or just before, text is read. */
  lemma EventsEndInText(r: Rules, page: Name, s: Lexer)
    requires Inv(page, s) && s.ptr < |page| && TurnOf(r, page, s).Next?
    ensures var turn := TurnOf(r, page, s);
      (exists e :: e in turn.events && !e.Attribute?) ==> turn.s.mode.ReadingText?
  {
    hide Comes, IsSpace, ReferenceAt, ReferenceEnd;
  }

  // --- The whole loop -----------------------------------------------------------------------

  datatype Result = Done(events: seq<Event>, mode: Mode) | Failed(events: seq<Event>)

  function Before(events: seq<Event>, r: Result): Result {
    match r
    case Done(es, m) => Done(events + es, m)
    case Failed(es) => Failed(events + es)
  }

  function LoopFrom(r: Rules, page: Name, s: Lexer): Result
    requires Inv(page, s)
    decreases |page| - s.ptr, Rank(s.mode)
  {
    if s.ptr == |page| then Done([], s.mode)
    else
      var turn := TurnOf(r, page, s);
      if turn.Error? then Failed([])
      else
        TurnKeepsInv(r, page, s);
        Before(turn.events, LoopFrom(r, page, turn.s))
  }

  function Turns(r: Rules, page: Name, s: Lexer): nat
    requires Inv(page, s)
    decreases |page| - s.ptr, Rank(s.mode)
  {
    if s.ptr == |page| then 0
    else
      var turn := TurnOf(r, page, s);
      if turn.Error? then 1
      else
        TurnKeepsInv(r, page, s);
        1 + Turns(r, page, turn.s)
  }

  /** After a turn that stays the next one moves on: no character is looked at more than twice. */
  lemma StaysOnce(r: Rules, page: Name, s: Lexer)
    requires Inv(page, s) && s.ptr < |page|
    requires TurnOf(r, page, s).Next? && TurnOf(r, page, s).s.ptr == s.ptr
    ensures var s' := TurnOf(r, page, s).s;
      Inv(page, s') && (TurnOf(r, page, s').Next? ==> TurnOf(r, page, s').s.ptr > s.ptr)
  {
    TurnKeepsInv(r, page, s);
    hide IsSpace, ReferenceAt;
  }

  lemma {:induction false} TwoTurnsPerCharacter(r: Rules, page: Name, s: Lexer)
    requires Inv(page, s)
    ensures Turns(r, page, s) <= 2 * (|page| - s.ptr)
    decreases |page| - s.ptr, Rank(s.mode)
  {
    if s.ptr < |page| && TurnOf(r, page, s).Next? {
      var s' := TurnOf(r, page, s).s;
      TurnKeepsInv(r, page, s);
      if s'.ptr > s.ptr {
        TwoTurnsPerCharacter(r, page, s');
      } else {
        StaysOnce(r, page, s);
        if TurnOf(r, page, s').Next? {
          TurnKeepsInv(r, page, s');
          TwoTurnsPerCharacter(r, page, TurnOf(r, page, s').s);
        }
      }
    }
    hide TurnOf, Inv;
  }

  lemma {:induction false} LaxNeverFails(r: Rules, page: Name, s: Lexer)
    requires Inv(page, s) && r.lax
    ensures LoopFrom(r, page, s).Done?
    decreases |page| - s.ptr, Rank(s.mode)
  {
    if s.ptr < |page| {
      ErrorExactlyWhen(r, page, s);
      TurnKeepsInv(r, page, s);
      LaxNeverFails(r, page, TurnOf(r, page, s).s);
    }
    hide TurnOf, Inv;
  }

  // --- Parse --------------------------------------------------------------------------------

  function FedOne(l: Limits, c: Collected, e: Event): (Collected, bool) {
    match e
    case Character(ch) => Taken(l, c, [ch])
    case Tag(tag) => Tagged(l, c, tag)
    case Attribute(_, _, _) => (c, true)
  }

  /** The events change what is collected, until a limit is reached. */
  function Fed(l: Limits, c: Collected, events: seq<Event>): (Collected, bool) {
    if events == [] then (c, true)
    else
      var before := Fed(l, c, events[..|events| - 1]);
      if before.1 then FedOne(l, before.0, events[|events| - 1]) else before
  }

  /** What is collected in the end; None is a syntax error. */
  function ParsedFrom(r: Rules, l: Limits, page: Name, c: Collected, s: Lexer): Option<Collected>
    requires Inv(page, s)
    decreases |page| - s.ptr, Rank(s.mode)
  {
    if s.ptr == |page| then if s.mode.ReadingText? || r.lax then Some(c) else None
    else
      var turn := TurnOf(r, page, s);
      if turn.Error? then None
      else
        TurnKeepsInv(r, page, s);
        var fed := Fed(l, c, turn.events);
        if fed.1 then ParsedFrom(r, l, page, fed.0, turn.s)
        else if turn.s.mode.ReadingText? || r.lax then Some(fed.0)
        else None
  }

  lemma {:induction false} FedConcat(l: Limits, c: Collected, a: seq<Event>, b: seq<Event>)
    ensures Fed(l, c, a + b) == if Fed(l, c, a).1 then Fed(l, Fed(l, c, a).0, b) else Fed(l, c, a)
  {
    hide FedOne;
    if b == [] {
      assert a + b == a;
    } else {
      assert (a + b)[..|a + b| - 1] == a + b[..|b| - 1];
      FedConcat(l, c, a, b[..|b| - 1]);
    }
  }

  lemma {:induction false} AttributesChangeNothing(l: Limits, c: Collected, events: seq<Event>)
    requires forall e :: e in events ==> e.Attribute?
    ensures Fed(l, c, events) == (c, true)
  {
    if events != [] {
      assert events[|events| - 1] in events;
      AttributesChangeNothing(l, c, events[..|events| - 1]);
    }
  }

  /**
   * A page is refused exactly if the loop fails, or in strict mode ends inside a tag, before a limit is reached;
   * otherwise what is collected is what the events make of it.
   */
  lemma {:induction false} ParsedAsEvents(r: Rules, l: Limits, page: Name, c: Collected, s: Lexer)
    requires Inv(page, s)
    ensures var loop := LoopFrom(r, page, s); var fed := Fed(l, c, loop.events);
      ParsedFrom(r, l, page, c, s) ==
        if fed.1 && (loop.Failed? || !(loop.mode.ReadingText? || r.lax)) then None else Some(fed.0)
    decreases |page| - s.ptr, Rank(s.mode)
  {
    assert s.ptr <= |page| && Fed(l, c, []) == (c, true);
    hide TurnOf, Inv, FedOne;
    if s.ptr < |page| && TurnOf(r, page, s).Next? {
      var turn := TurnOf(r, page, s);
      TurnKeepsInv(r, page, s);
      var fed := Fed(l, c, turn.events);
      FedConcat(l, c, turn.events, LoopFrom(r, page, turn.s).events);
      if fed.1 {
        ParsedAsEvents(r, l, page, fed.0, turn.s);
      } else {
        EventsEndInText(r, page, s);
        if forall e :: e in turn.events ==> e.Attribute? {
          AttributesChangeNothing(l, c, turn.events);
        }
        assert turn.s.mode.ReadingText?;
      }
    }
  }

  lemma {:induction false} AbsorbKeepsGood(l: Limits, t: Text, cs: seq<Char>)
    requires Good(l, t)
    ensures Good(l, Absorbed(l, t, cs).0)
  {
    hide Good, Appended;
    if cs != [] {
      AbsorbKeepsGood(l, t, cs[..|cs| - 1]);
      var before := Absorbed(l, t, cs[..|cs| - 1]);
      if before.1 && Appended(l, before.0, cs[|cs| - 1]).Some? {
        AppendKeepsGood(l, before.0, cs[|cs| - 1]);
      }
    }
  }

  lemma {:induction false} FeedKeepsGood(l: Limits, c: Collected, events: seq<Event>)
    requires Good(l, c.text)
    ensures Good(l, Fed(l, c, events).0.text)
  {
    hide Good, Absorbed;
    if events != [] {
      FeedKeepsGood(l, c, events[..|events| - 1]);
      var before, e := Fed(l, c, events[..|events| - 1]).0, events[|events| - 1];
      if e.Character? {
        AbsorbKeepsGood(l, before.text, [e.c]);
      } else if e.Tag? {
        AbsorbKeepsGood(l, before.text, TagText(e.tag));
      }
    }
  }

  // --- The skip that a page leaves ----------------------------------------------------------

  /** What an event adds to the text unless it is skipped. */
  function Shown(e: Event): seq<Char> {
    match e
    case Character(c) => [c]
    case Tag(tag) => TagText(tag)
    case Attribute(_, _, _) => []
  }

  function SkipNext(e: Event, skip: Name): Name {
    if e.Tag? then SkipAfter(e.tag, skip) else skip
  }

  /** The tag that is skipped to after the events. */
  function SkipLeft(skip: Name, events: seq<Event>): Name
    decreases |events|
  {
    if events == [] then skip else SkipLeft(SkipNext(events[0], skip), events[1..])
  }

  /** The tag that a tag sets, if it begins something to be skipped. */
  function Opens(e: Event): Name {
    SkipNext(e, [])
  }

  lemma SkipNextIs(e: Event, skip: Name)
    ensures SkipNext(e, skip) == if Opens(e) != [] then Opens(e) else if e == Tag(skip) then [] else skip
    ensures Opens(e) != [] ==> Shown(e) == []
  {
    hide IsSpace;
  }

  /** The skip is set, and none of the events ends it or sets another. */
  ghost predicate Stays(skip: Name, events: seq<Event>) {
    skip != [] && forall e :: e in events ==> Opens(e) == [] && e != Tag(skip)
  }

  /** One of the events sets a skip, and none of those after it ends it or sets another. */
  ghost predicate SetWithin(events: seq<Event>) {
    exists i :: 0 <= i < |events| && Stays(Opens(events[i]), events[i + 1..])
  }

  lemma StaysFirst(skip: Name, e: Event, rest: seq<Event>)
    ensures Stays(skip, [e] + rest) <==> Stays(skip, rest) && Opens(e) == [] && e != Tag(skip)
  {
    hide Opens;
    var events := [e] + rest;
    assert events[0] == e && forall i :: 0 <= i < |rest| ==> events[i + 1] == rest[i];
    if Stays(skip, events) {
      assert events[0] in events;
      forall x | x in rest
        ensures Opens(x) == [] && x != Tag(skip)
      {
        assert x in events;
      }
    } else if Stays(skip, rest) {
      var x :| x in events && !(Opens(x) == [] && x != Tag(skip));
      assert x == e || x in rest;
    }
  }

  lemma SetFirst(e: Event, rest: seq<Event>)
    ensures SetWithin([e] + rest) <==> Stays(Opens(e), rest) || SetWithin(rest)
  {
    hide Stays, Opens;
    var events := [e] + rest;
    assert events[0] == e && events[1..] == rest;
    assert forall i :: 0 <= i < |rest| ==> rest[i] == events[i + 1] && rest[i + 1..] == events[i + 1 + 1..];
    if SetWithin(events) {
      var i :| 0 <= i < |events| && Stays(Opens(events[i]), events[i + 1..]);
      assert i > 0 ==> Stays(Opens(rest[i - 1]), rest[i - 1 + 1..]);
    }
    if SetWithin(rest) {
      var i :| 0 <= i < |rest| && Stays(Opens(rest[i]), rest[i + 1..]);
      assert Stays(Opens(events[i + 1]), events[i + 1 + 1..]);
    }
    if Stays(Opens(e), rest) {
      assert Stays(Opens(events[0]), events[0 + 1..]);
    }
  }

  /**
   * A page leaves something to skip to exactly if it was set before or by an event, and nothing after that ends
   * it or sets another.
   */
  lemma {:induction false} SkipLeftWhen(skip: Name, events: seq<Event>)
    ensures SkipLeft(skip, events) != [] <==> Stays(skip, events) || SetWithin(events)
    decreases |events|
  {
    if events == [] {
      assert SkipLeft(skip, events) == skip;
    } else {
      hide SkipNext, Opens, Stays, SetWithin;
      var e, rest := events[0], events[1..];
      assert events == [e] + rest;
      SkipNextIs(e, skip);
      SkipLeftWhen(SkipNext(e, skip), rest);
      StaysFirst(skip, e, rest);
      SetFirst(e, rest);
      NothingStays(rest);
    }
  }

  lemma NothingStays(events: seq<Event>)
    ensures !Stays([], events)
  {
  }

  lemma FedFirst(l: Limits, c: Collected, events: seq<Event>)
    requires events != []
    ensures var first := FedOne(l, c, events[0]);
      Fed(l, c, events) == if first.1 then Fed(l, first.0, events[1..]) else first
  {
    assert events == [events[0]] + events[1..] && [events[0]][..0] == [];
    FedConcat(l, c, [events[0]], events[1..]);
    assert Fed(l, c, []) == (c, true);
    assert Fed(l, c, [events[0]]) == FedOne(l, c, events[0]);
  }

  lemma FedOneSkips(l: Limits, c: Collected, e: Event)
    ensures var fed := FedOne(l, c, e); fed.0.skip == SkipNext(e, c.skip) && (!fed.1 ==> fed.0.skip == [])
  {
    hide Absorbed, SkipAfter;
  }

  /** Characters are only refused while nothing is skipped, so a page on which a limit is reached leaves nothing. */
  lemma {:induction false} FedSkips(l: Limits, c: Collected, events: seq<Event>)
    ensures Fed(l, c, events).0.skip == if Fed(l, c, events).1 then SkipLeft(c.skip, events) else []
    decreases |events|
  {
    if events == [] {
    } else {
      FedFirst(l, c, events);
      FedOneSkips(l, c, events[0]);
      hide FedOne, SkipNext;
      var first := FedOne(l, c, events[0]);
      if first.1 {
        FedSkips(l, first.0, events[1..]);
      }
    }
  }

  /**
   * A page leaves something to skip to exactly if no limit is reached on it, and the skip was set before or by
   * an event, and nothing after that ends it or sets another.
   */
  lemma PageLeavesSkip(l: Limits, skip: Name, events: seq<Event>)
    ensures var fed := Fed(l, Collected(EMPTY, skip), events);
      fed.0.skip != [] <==> fed.1 && (Stays(skip, events) || SetWithin(events))
  {
    hide Fed, SkipLeft, Stays, SetWithin;
    FedSkips(l, Collected(EMPTY, skip), events);
    SkipLeftWhen(skip, events);
  }

  // --- The whole of parse -------------------------------------------------------------------

  /** parse on a collector that may have been used before; false is a syntax error. */
  method Parse(r: Rules, page: Name, maxBytes: nat, maxChars: nat, collector: Collector) returns (ok: bool)
    modifies collector
    ensures collector.limits == Limits(Reduced(maxBytes), Reduced(maxChars))
    ensures var parsed := ParsedFrom(r, collector.limits, page, Collected(EMPTY, old(collector.skip)), START);
      ok == parsed.Some? && (ok ==> collector.text == Finished(collector.limits, parsed.value.text))
    ensures var start := Collected(EMPTY, old(collector.skip));
      var events := LoopFrom(r, page, START).events;
      var fed := Fed(collector.limits, start, events);
      && collector.skip == fed.0.skip
      && (collector.skip != [] <==> fed.1 && (Stays(start.skip, events) || SetWithin(events)))
  {
    PageLeavesSkip(Limits(Reduced(maxBytes), Reduced(maxChars)), collector.skip, LoopFrom(r, page, START).events);
    hide Stays, SetWithin;
    collector.Clear(maxBytes, maxChars);
    var s, within := START, true;
    NothingSpelled(collector.limits);
    ghost var l, parsed := collector.limits, ParsedFrom(r, collector.limits, page, collector.State(), START);
    ghost var fed := Fed(l, collector.State(), LoopFrom(r, page, START).events);
    while s.ptr < |page| && within
      invariant collector.limits == l && collector.Valid() && Good(l, collector.State().text) && Inv(page, s)
      invariant within ==> parsed == ParsedFrom(r, l, page, collector.State(), s)
      invariant !within ==> parsed == if s.mode.ReadingText? || r.lax then Some(collector.State()) else None
      invariant fed ==
        if within then Fed(l, collector.State(), LoopFrom(r, page, s).events) else (collector.State(), false)
      decreases within, |page| - s.ptr, Rank(s.mode)
    {
      var turn := TurnOf(r, page, s);
      TurnKeepsInv(r, page, s);
      if turn.Error? {
        return false;
      }
      FedConcat(l, collector.State(), turn.events, LoopFrom(r, page, turn.s).events);
      s := turn.s;
      within := Feed(turn.events, collector);
    }
    if !s.mode.ReadingText? && !r.lax {
      return false;
    }
    collector.Finish();
    ok := true;
  }

  lemma FedNothing(l: Limits, c: Collected, events: seq<Event>)
    ensures Fed(l, c, events[..0]) == (c, true)
  {
  }

  lemma FedNext(l: Limits, c: Collected, events: seq<Event>, i: nat)
    requires i < |events| && Fed(l, c, events[..i]).1
    ensures Fed(l, c, events[..i + 1]) == FedOne(l, Fed(l, c, events[..i]).0, events[i])
    ensures !Fed(l, c, events[..i + 1]).1 ==> Fed(l, c, events) == Fed(l, c, events[..i + 1])
  {
    assert events[..i + 1][..i] == events[..i];
    FedConcat(l, c, events[..i + 1], events[i + 1..]);
    assert events[..i + 1] + events[i + 1..] == events;
    hide FedOne;
  }

  method Feed(events: seq<Event>, collector: Collector) returns (within: bool)
    requires collector.Valid() && Good(collector.limits, collector.State().text)
    modifies collector`text, collector`length, collector`charCount, collector`lastSpace, collector`skip
    ensures collector.Valid() && (collector.State(), within) == Fed(collector.limits, old(collector.State()), events)
    ensures Good(collector.limits, collector.State().text)
  {
    FeedKeepsGood(collector.limits, collector.State(), events);
    hide Good, TextCollector.Taken, TextCollector.Tagged, Fed;
    FedNothing(collector.limits, collector.State(), events);
    ghost var start := collector.State();
    within := true;
    for i := 0 to |events|
      invariant within && collector.Valid() && (collector.State(), within) == Fed(collector.limits, start, events[..i])
    {
      FedNext(collector.limits, start, events, i);
      match events[i] {
        case Character(c) => within := collector.Append(c);
        case Tag(tag) => within := collector.ProcessTag(tag);
        case Attribute(_, _, _) =>
      }
      if !within {
        return;
      }
    }
    assert events[..|events|] == events;
  }

  /** Every text that parse gives out keeps the limits above four. */
  lemma ParsedKeepsLimits(r: Rules, page: Name, maxBytes: nat, maxChars: nat, skip: Name)
    requires maxBytes > 4 && maxChars > 4
    ensures var l := Limits(Reduced(maxBytes), Reduced(maxChars));
      var parsed := ParsedFrom(r, l, page, Collected(EMPTY, skip), START);
      parsed.Some? ==>
        |Finished(l, parsed.value.text)| <= maxBytes && Chars(Finished(l, parsed.value.text)) <= maxChars
  {
    var l := Limits(Reduced(maxBytes), Reduced(maxChars));
    hide TurnOf, Good;
    ParsedAsEvents(r, l, page, Collected(EMPTY, skip), START);
    NothingSpelled(l);
    FeedKeepsGood(l, Collected(EMPTY, skip), LoopFrom(r, page, START).events);
    var t := Fed(l, Collected(EMPTY, skip), LoopFrom(r, page, START).events).0.text;
    LimitsHold(maxBytes, maxChars, t);
  }
}
