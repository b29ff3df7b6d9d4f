/** Pages written in the form that the loop of El/HTML/LightParser.cpp is meant for, and what it makes of them. */
module LightDocument {

  import opened Wrappers
  import opened LightText
  import opened TextCollector
  import opened LightParser

  /** A value between quotes after so many spaces, or one without quotes. */
  datatype Value = Quoted(space: nat, quote: Char, text: Name) | Bare(text: Name)

  /** A name, spaces before the sign of equality, a value, and spaces after it. */
  datatype Attr = Attr(name: Name, space: nat, value: Value, after: nat)

  /** How a tag ends: >, or />, or in lax mode before the < of the next one. */
  datatype End = Close | SlashClose | Missing

  /** A tag with spaces after its name, attributes, and an end. */
  datatype Element = Element(name: Name, space: nat, attrs: seq<Attr>, end: End)

  /** Less and Ampersand stand for themselves. */
  datatype Markup = Piece(element: Element) | Comment(body: Name) | Reference(name: Name) | Less | Ampersand

  /** Texts, each followed by markup, and a last text. */
  datatype Document = Document(parts: seq<(Name, Markup)>, tail: Name)

  const OPEN: Name := [Ch('!'), Ch('-'), Ch('-')]
  const CLOSE: Name := [Ch('-'), Ch('-'), Ch('>')]

  predicate PlainText(t: Name) {
    forall i :: 0 <= i < |t| ==> t[i] != Ch('<') && t[i] != Ch('&')
  }

  /** The characters that end the name of a tag, or make it something else. */
  predicate EndsName(c: Char) {
    c == Ch(' ') || c == Ch('>') || c == Ch('<') || c == Ch('=') || IsQuote(c)
  }

  predicate PlainTagName(n: Name) {
    && n != [] && StartsTag(n[0]) && !Comes(n, 0, "!--")
    && forall i :: 0 <= i < |n| ==> !EndsName(n[i])
  }

  predicate StartsName(c: Char) {
    !EndsName(c) && c != Ch('/') && c != Ch('&') && c != Ch('\r') && c != Ch('\n')
  }

  predicate PlainAttributeName(n: Name) {
    n != [] && StartsName(n[0]) && forall i :: 0 <= i < |n| ==> !EndsName(n[i])
  }

  /** Comments are recognized even inside values. */
  predicate OpensNoComment(v: Name) {
    forall i :: 0 <= i < |v| ==> !Comes(v, i, "<!--")
  }

  predicate PlainValue(v: Name, quote: Char) {
    (forall i :: 0 <= i < |v| ==> v[i] != quote) && OpensNoComment(v)
  }

  predicate BareCharacters(v: Name) {
    (forall i :: 0 <= i < |v| ==> v[i] != Ch(' ') && v[i] != Ch('>')) && OpensNoComment(v)
  }

  /** What follows a value without quotes ends it: a space, or the end of the tag. */
  predicate EndsBare(v: Name, next: Name) {
    next != [] && (
      || (next[0] == Ch(' ') && v != [])
      || (next[0] == Ch('>') && (v != [] ==> v[|v| - 1] != Ch('/')))
      || (next[0] == Ch('/') && |next| > 1 && next[1] == Ch('>')))
  }

  /** A value before so much. */
  predicate PlainAttrValue(v: Value, next: Name) {
    match v
    case Quoted(_, quote, text) => IsQuote(quote) && PlainValue(text, quote)
    case Bare(text) =>
      BareCharacters(text) && EndsBare(text, next) && (text != [] ==> !IsQuote(text[0]) && !IsSpace(text[0]))
  }

  predicate PlainAttrs(attrs: seq<Attr>, next: Name)
    decreases |attrs|
  {
    attrs == [] || (
      && PlainAttributeName(attrs[0].name)
      && PlainAttrValue(attrs[0].value, Spaces(attrs[0].after) + (WriteAttributes(attrs[1..]) + next))
      && PlainAttrs(attrs[1..], next))
  }

  /** The next characters are a < that does not begin a comment. */
  predicate BeginsTag(next: Name) {
    next != [] && next[0] == Ch('<') && !Comes(next, 0, "<!--")
  }

  /** An element before so much. */
  predicate PlainElement(r: Rules, e: Element, next: Name) {
    && PlainTagName(e.name) && (e.attrs != [] ==> e.space > 0) && PlainAttrs(e.attrs, WriteEnd(e.end) + next)
    && (e.end.Missing? ==> r.lax && BeginsTag(next))
  }

  /** No end of a comment before its own. */
  predicate PlainComment(t: Name) {
    forall i :: 0 <= i < |t| ==> !Comes(t + CLOSE, i, "-->")
  }

  /** The characters at which a reference ends, whether it is one or not. */
  predicate EndsReference(c: Char) {
    c == Ch(';') || c == Ch('\n') || c == Ch('\r') || 127 < c < 0x8000_0000
  }

  predicate ReferenceName(n: Name) {
    forall i :: 0 <= i < |n| ==> !EndsReference(n[i])
  }

  /** The reference has two characters at least, and a value. */
  predicate PlainReference(r: Rules, n: Name) {
    |n| > 1 && ReferenceName(n) && r.reference(n).Some?
  }

  /** What follows an ampersand is no reference. */
  ghost predicate NoReference(r: Rules, next: Name) {
    exists n :: 0 <= n <= |next| && ReferenceName(next[..n]) && (n < |next| ==> EndsReference(next[n])) &&
      !(n < |next| && next[n] == Ch(';') && PlainReference(r, next[..n]))
  }

  /** Markup before so much. */
  ghost predicate PlainMarkup(r: Rules, m: Markup, next: Name) {
    match m
    case Piece(e) => PlainElement(r, e, next)
    case Comment(body) => PlainComment(OPEN + body)
    case Reference(name) => PlainReference(r, name)
    case Less => next == [] || !StartsTag(next[0])
    case Ampersand => r.lax && NoReference(r, next)
  }

  ghost predicate PlainDocument(r: Rules, d: Document)
    decreases |d.parts|
  {
    if d.parts == [] then PlainText(d.tail)
    else
      var left := d.(parts := d.parts[1..]);
      PlainText(d.parts[0].0) && PlainMarkup(r, d.parts[0].1, Write(left)) && PlainDocument(r, left)
  }

  // --- Writing ------------------------------------------------------------------------------

  function Spaces(n: nat): (s: Name)
    ensures |s| == n
  {
    seq(n, i => Ch(' '))
  }

  function WriteValue(v: Value): Name {
    match v
    case Quoted(space, quote, text) => Spaces(space) + [quote] + text + [quote]
    case Bare(text) => text
  }

  function WriteAttributes(attrs: seq<Attr>): Name
    decreases |attrs|
  {
    if attrs == [] then []
    else
      var a := attrs[0];
      a.name + Spaces(a.space) + [Ch('=')] + WriteValue(a.value) + (Spaces(a.after) + WriteAttributes(attrs[1..]))
  }

  function WriteEnd(end: End): Name {
    match end
    case Close => [Ch('>')]
    case SlashClose => [Ch('/'), Ch('>')]
    case Missing => []
  }

  function WriteElement(e: Element): Name {
    [Ch('<')] + e.name + Spaces(e.space) + WriteAttributes(e.attrs) + WriteEnd(e.end)
  }

  function WriteMarkup(m: Markup): Name {
    match m
    case Piece(e) => WriteElement(e)
    case Comment(body) => [Ch('<')] + OPEN + body + CLOSE
    case Reference(name) => [Ch('&')] + name + [Ch(';')]
    case Less => [Ch('<')]
    case Ampersand => [Ch('&')]
  }

  function Write(d: Document): Name
    decreases |d.parts|
  {
    if d.parts == [] then d.tail
    else d.parts[0].0 + WriteMarkup(d.parts[0].1) + Write(d.(parts := d.parts[1..]))
  }

  // --- What is read -------------------------------------------------------------------------

  function TextEvents(t: Name): seq<Event> {
    seq(|t|, i requires 0 <= i < |t| => Character(t[i]))
  }

  function AttributeEvents(r: Rules, tag: Name, attrs: seq<Attr>): seq<Event> {
    seq(|attrs|, i requires 0 <= i < |attrs| => Attribute(tag, r.lower(attrs[i].name), attrs[i].value.text))
  }

  /** Right after the name, a slash is taken for a part of it. */
  function TagName(e: Element): Name {
    if e.space == 0 && e.end.SlashClose? then e.name + [Ch('/')] else e.name
  }

  function MarkupEvents(r: Rules, m: Markup): seq<Event> {
    match m
    case Piece(e) => AttributeEvents(r, r.lower(TagName(e)), e.attrs) + [Tag(r.lower(TagName(e)))]
    case Comment(_) => []
    case Reference(name) => if r.reference(name).Some? then [Character(r.reference(name).value)] else []
    case Less => [Character(Ch('<'))]
    case Ampersand => [Character(Ch('&'))]
  }

  function Events(r: Rules, d: Document): seq<Event>
    decreases |d.parts|
  {
    if d.parts == [] then TextEvents(d.tail)
    else TextEvents(d.parts[0].0) + MarkupEvents(r, d.parts[0].1) + Events(r, d.(parts := d.parts[1..]))
  }

  // --- Parts of the loop --------------------------------------------------------------------

  lemma BeforeTwice(a: seq<Event>, b: seq<Event>, result: Result)
    ensures Before(a, Before(b, result)) == Before(a + b, result)
    ensures Before([], result) == result
  {
    var es := result.events;
    assert a + (b + es) == a + b + es && [] + es == es;
  }

  lemma Turning(r: Rules, page: Name, s: Lexer, s': Lexer, events: seq<Event>)
    requires Inv(page, s) && s.ptr < |page| && TurnOf(r, page, s) == Next(s', events)
    ensures Inv(page, s') && LoopFrom(r, page, s) == Before(events, LoopFrom(r, page, s'))
  {
    TurnKeepsInv(r, page, s);
    hide Inv, TurnOf;
  }

  /** The scan point is in the text mode, or elsewhere, and so much is still to come. */
  ghost predicate Faces(page: Name, s: Lexer, next: Name, rest: Name) {
    Inv(page, s) && !s.comment && page[s.ptr..] == next + rest
  }

  lemma NextCharacters(page: Name, s: Lexer, next: Name, rest: Name)
    requires Faces(page, s, next, rest) && next != []
    ensures s.ptr < |page| && page[s.ptr] == next[0]
    ensures At(page, s.ptr + 1) == if |next| > 1 then next[1] else if rest == [] then 0 else rest[0]
    ensures forall n :: 0 <= n <= |next| ==> page[s.ptr + n..] == next[n..] + rest
  {
    assert page[s.ptr..][0] == next[0];
    if |next + rest| > 1 {
      assert page[s.ptr..][1] == (next + rest)[1];
    }
    forall n | 0 <= n <= |next|
      ensures page[s.ptr + n..] == next[n..] + rest
    {
      assert page[s.ptr + n..] == page[s.ptr..][n..];
    }
  }

  lemma TextTurn(r: Rules, page: Name, s: Lexer, t: Name, rest: Name) returns (n: nat)
    requires Faces(page, s, t, rest) && s.mode.ReadingText? && PlainText(t) && t != []
    requires rest == [] || rest[0] == Ch('<') || rest[0] == Ch('&')
    ensures 1 <= n <= |t| && s.ptr < |page| && Faces(page, s.(ptr := s.ptr + n), t[n..], rest)
    ensures TurnOf(r, page, s) == Next(s.(ptr := s.ptr + n), TextEvents(t[..n]))
  {
    NextCharacters(page, s, t, rest);
    var c := t[0];
    var d := At(page, s.ptr + 1);
    n := if (c == Ch('\r') && d == Ch('\n')) || (c == Ch('\n') && d == Ch('\r')) then 2 else 1;
    assert TextEvents(t[..n]) == if n == 2 then [Character(c), Character(d)] else [Character(c)];
    TurnKeepsInv(r, page, s);
  }

  lemma {:induction false} ReadsText(r: Rules, page: Name, s: Lexer, t: Name, rest: Name)
    requires Faces(page, s, t, rest) && s.mode.ReadingText? && PlainText(t)
    requires rest == [] || rest[0] == Ch('<') || rest[0] == Ch('&')
    ensures var s' := s.(ptr := s.ptr + |t|);
      Inv(page, s') && LoopFrom(r, page, s) == Before(TextEvents(t), LoopFrom(r, page, s'))
    decreases |t|
  {
    hide TurnOf, Inv;
    BeforeTwice([], [], LoopFrom(r, page, s));
    if t != [] {
      var n := TextTurn(r, page, s, t, rest);
      var s1, s' := s.(ptr := s.ptr + n), s.(ptr := s.ptr + |t|);
      Turning(r, page, s, s1, TextEvents(t[..n]));
      ReadsText(r, page, s1, t[n..], rest);
      BeforeTwice(TextEvents(t[..n]), TextEvents(t[n..]), LoopFrom(r, page, s'));
      assert TextEvents(t[..n]) + TextEvents(t[n..]) == TextEvents(t);
    }
  }

  /** Nothing in t ends the name, or the value, that is being read. */
  ghost predicate Quiet(s: Lexer, t: Name, rest: Name) {
    || (s.mode.ReadingTag? && (s.ptag.Some? || s.pattr.Some?) && forall i :: 0 <= i < |t| ==> !EndsName(t[i]))
    || (s.mode.ReadingAttribute? && IsQuote(s.quote) && PlainValue(t, s.quote))
    || (s.mode.ReadingAttribute? && s.quote == 0 && BareCharacters(t) &&
         (t != [] && t[|t| - 1] == Ch('/') ==> rest == [] || rest[0] != Ch('>')))
  }

  predicate AfterName(s: Lexer, rest: Name) {
    && rest != [] && rest[0] != Ch('\r') && rest[0] != Ch('\n') && rest[0] != Ch('!') && rest[0] != Ch('-')
    && (s.mode.ReadingAttribute? && s.quote != 0 ==> rest[0] == s.quote)
  }

  lemma ComesMeans(page: Name, i: nat, s: string)
    ensures Comes(page, i, s) <==> i + |s| <= |page| && forall k :: 0 <= k < |s| ==> page[i + k] == s[k] as int
  {
    if i + |s| <= |page| {
      var part := page[i..i + |s|];
      assert forall k {:trigger part[k]} :: 0 <= k < |s| ==> part[k] == page[i + k];
    }
  }

  lemma QuietSuffix(s: Lexer, t: Name, rest: Name, n: nat)
    requires Quiet(s, t, rest) && n <= |t|
    ensures Quiet(s.(ptr := s.ptr + n), t[n..], rest)
  {
    hide Is;
    forall i | 0 <= i < |t[n..]| && OpensNoComment(t)
      ensures !Comes(t[n..], i, "<!--")
    {
      ComesMeans(t, i + n, "<!--");
      ComesMeans(t[n..], i, "<!--");
    }
  }

  lemma NoCommentInValue(page: Name, s: Lexer, v: Name, rest: Name)
    requires Faces(page, s, v, rest) && v != [] && v[0] == Ch('<') && OpensNoComment(v)
    requires rest != [] && rest[0] != Ch('!') && rest[0] != Ch('-')
    ensures !Comes(page, s.ptr + 1, "!--")
  {
    ComesMeans(page, s.ptr + 1, "!--");
    ComesMeans(v, 0, "<!--");
    var next := page[s.ptr..];
    hide Is, Inv;
    assert forall k {:trigger next[k]} :: 0 <= k < |next| ==> next[k] == page[s.ptr + k];
    assert next[|v|] == rest[0];
    assert |v| == 1 ==> page[s.ptr + 1 + 0] == rest[0];
    assert |v| == 2 ==> page[s.ptr + 1 + 1] == rest[0];
    assert |v| == 3 ==> page[s.ptr + 1 + 2] == rest[0];
    assert |v| > 3 ==> v[1] == next[1] && v[2] == next[2] && v[3] == next[3];
    assert "!--"[0] == '!' && "!--"[1] == '-' && "!--"[2] == '-';
  }

  lemma QuietTurn(r: Rules, page: Name, s: Lexer, t: Name, rest: Name) returns (n: nat)
    requires Faces(page, s, t, rest) && t != [] && Quiet(s, t, rest) && AfterName(s, rest)
    ensures 1 <= n <= |t| && s.ptr < |page| && Faces(page, s.(ptr := s.ptr + n), t[n..], rest)
    ensures TurnOf(r, page, s) == Next(s.(ptr := s.ptr + n), [])
  {
    NextCharacters(page, s, t, rest);
    var c := t[0];
    var d := At(page, s.ptr + 1);
    if c == Ch('<') {
      NoCommentInValue(page, s, t, rest);
    }
    hide Comes, IsSpace;
    n := if (c == Ch('\r') && d == Ch('\n')) || (c == Ch('\n') && d == Ch('\r')) then 2 else 1;
    TurnKeepsInv(r, page, s);
  }

  lemma {:induction false} ReadsQuietly(r: Rules, page: Name, s: Lexer, t: Name, rest: Name)
    requires Faces(page, s, t, rest) && Quiet(s, t, rest) && AfterName(s, rest)
    ensures var s' := s.(ptr := s.ptr + |t|);
      Faces(page, s', [], rest) && LoopFrom(r, page, s) == LoopFrom(r, page, s')
    decreases |t|
  {
    hide TurnOf, Inv, Quiet;
    if t != [] {
      var n := QuietTurn(r, page, s, t, rest);
      var s1 := s.(ptr := s.ptr + n);
      Turning(r, page, s, s1, []);
      BeforeTwice([], [], LoopFrom(r, page, s1));
      QuietSuffix(s, t, rest, n);
      ReadsQuietly(r, page, s1, t[n..], rest);
    }
  }

  /** One turn over the next character, which gives one event or none. */
  ghost predicate Passes(r: Rules, page: Name, s: Lexer, s': Lexer, events: seq<Event>) {
    Inv(page, s) && Inv(page, s') && LoopFrom(r, page, s) == Before(events, LoopFrom(r, page, s'))
  }

  lemma PassesOn(r: Rules, page: Name, s: Lexer, s1: Lexer, s2: Lexer, a: seq<Event>, b: seq<Event>)
    requires Passes(r, page, s, s1, a) && Passes(r, page, s1, s2, b)
    ensures Passes(r, page, s, s2, a + b)
    ensures b == [] ==> a + b == a
  {
    BeforeTwice(a, b, LoopFrom(r, page, s2));
    hide Inv;
  }

  lemma TurnPasses(r: Rules, page: Name, s: Lexer, next: Name, rest: Name, s': Lexer, events: seq<Event>)
    requires Faces(page, s, next, rest) && next != []
    requires s.ptr < |page| ==> TurnOf(r, page, s) == Next(s', events) && s'.ptr == s.ptr + 1 && !s'.comment
    ensures Passes(r, page, s, s', events) && Faces(page, s', next[1..], rest)
  {
    NextCharacters(page, s, next, rest);
    Turning(r, page, s, s', events);
    hide TurnOf, Inv;
    assert page[s.ptr + 1..] == next[1..] + rest;
  }

  lemma QuietPasses(r: Rules, page: Name, s: Lexer, t: Name, rest: Name) returns (s': Lexer)
    requires Faces(page, s, t, rest) && Quiet(s, t, rest) && AfterName(s, rest)
    ensures s' == s.(ptr := s.ptr + |t|) && s.ptr + |t| <= |page| && page[s.ptr..s'.ptr] == t
    ensures Passes(r, page, s, s', []) && Faces(page, s', [], rest)
  {
    ReadsQuietly(r, page, s, t, rest);
    s' := s.(ptr := s.ptr + |t|);
    BeforeTwice([], [], LoopFrom(r, page, s'));
    assert |page[s.ptr..]| == |t + rest|;
    assert page[s.ptr..s'.ptr] == page[s.ptr..][..|t|] == (t + rest)[..|t|] == t;
    hide TurnOf, Inv, Quiet;
  }

  /** Inside a tag whose name is complete, or ends here. */
  ghost predicate InTag(r: Rules, page: Name, s: Lexer, tag: Name) {
    && Inv(page, s) && s.mode.ReadingTag? && s.pattr.None? && NamedTag(r, page, s) == tag
    && (s.ptag.Some? ==> s.ptag.value < s.ptr)
  }

  lemma NoCommentInName(page: Name, s: Lexer, name: Name, rest: Name)
    requires Faces(page, s, [Ch('<')] + name, rest) && PlainTagName(name)
    requires rest != [] && rest[0] != Ch('-')
    ensures !Comes(page, s.ptr + 1, "!--") && At(page, s.ptr + 1) == name[0]
  {
    ComesMeans(page, s.ptr + 1, "!--");
    ComesMeans(name, 0, "!--");
    var next := page[s.ptr..];
    assert |next| == 1 + |name| + |rest|;
    assert next[1] == name[0];
    hide Is, Inv;
    assert forall k {:trigger next[k]} :: 0 <= k < |next| ==> next[k] == page[s.ptr + k];
    assert next[1 + |name|] == rest[0];
    assert |name| == 1 ==> page[s.ptr + 1 + 1] == rest[0];
    assert |name| == 2 ==> page[s.ptr + 1 + 2] == rest[0];
    assert |name| > 2 ==> name[1] == next[2] && name[2] == next[3];
    assert "!--"[0] == '!' && "!--"[1] == '-' && "!--"[2] == '-';
  }

  lemma OpensTag(r: Rules, page: Name, s: Lexer, name: Name, rest: Name) returns (s': Lexer)
    requires Faces(page, s, [Ch('<')] + name, rest) && s.mode.ReadingText? && PlainTagName(name)
    requires rest != [] && (rest[0] == Ch(' ') || rest[0] == Ch('>') || rest[0] == Ch('<'))
    ensures Passes(r, page, s, s', []) && Faces(page, s', [], rest) && InTag(r, page, s', r.lower(name))
  {
    NoCommentInName(page, s, name, rest);
    NextCharacters(page, s, [Ch('<')] + name, rest);
    var s1 := s.(mode := ReadingTag, ptag := Some(s.ptr + 1), ptr := s.ptr + 1);
    hide Comes;
    TurnPasses(r, page, s, [Ch('<')] + name, rest, s1, []);
    assert ([Ch('<')] + name)[1..] == name;
    s' := QuietPasses(r, page, s1, name, rest);
    PassesOn(r, page, s, s1, s', [], []);
    hide LoopFrom;
  }

  lemma Regroup(page: Name, s: Lexer, a: Name, b: Name, rest: Name)
    ensures Faces(page, s, a + b, rest) <==> Faces(page, s, a, b + rest)
    ensures Faces(page, s, [], a) <==> Faces(page, s, a, [])
  {
    assert a + b + rest == a + (b + rest);
    assert [] + a == a == a + [];
    hide Inv;
  }

  /** One character that gives one turn. */
  lemma OnePasses(r: Rules, page: Name, s: Lexer, c: Char, rest: Name, s': Lexer, events: seq<Event>)
    requires Faces(page, s, [c], rest)
    requires s.ptr < |page| && page[s.ptr] == c && At(page, s.ptr + 1) == (if rest == [] then 0 else rest[0]) ==>
      TurnOf(r, page, s) == Next(s', events) && s'.ptr == s.ptr + 1 && !s'.comment
    ensures Passes(r, page, s, s', events) && Faces(page, s', [], rest)
  {
    NextCharacters(page, s, [c], rest);
    hide TurnOf;
    TurnPasses(r, page, s, [c], rest, s', events);
  }

  lemma ReadsSpace(r: Rules, page: Name, s: Lexer, tag: Name, rest: Name) returns (s': Lexer)
    requires InTag(r, page, s, tag) && Faces(page, s, [Ch(' ')], rest)
    ensures Passes(r, page, s, s', []) && Faces(page, s', [], rest)
    ensures InTag(r, page, s', tag) && s'.ptag.None? && s'.ptr == s.ptr + 1 && s'.attr == s.attr
  {
    s' := s.(ptr := s.ptr + 1, ptag := None, tag := tag);
    hide LoopFrom;
    OnePasses(r, page, s, Ch(' '), rest, s', []);
  }

  lemma {:induction false} ReadsSpaces(r: Rules, page: Name, s: Lexer, tag: Name, n: nat, rest: Name)
    returns (s': Lexer)
    requires InTag(r, page, s, tag) && Faces(page, s, Spaces(n), rest)
    ensures Passes(r, page, s, s', []) && Faces(page, s', [], rest) && s'.attr == s.attr
    ensures InTag(r, page, s', tag) && (n > 0 || s.ptag.None? ==> s'.ptag.None?)
    decreases n
  {
    hide LoopFrom, TurnOf, Inv, Faces, InTag;
    if n == 0 {
      s' := s;
      NoSpaces(r, page, s, rest);
    } else {
      assert Spaces(n) == [Ch(' ')] + Spaces(n - 1) && [] + Spaces(n - 1) == Spaces(n - 1);
      Regroup(page, s, [Ch(' ')], Spaces(n - 1), rest);
      var s1 := ReadsSpace(r, page, s, tag, Spaces(n - 1) + rest);
      Regroup(page, s1, [], Spaces(n - 1), rest);
      s' := ReadsSpaces(r, page, s1, tag, n - 1, rest);
      PassesOn(r, page, s, s1, s', [], []);
    }
  }

  lemma NoSpaces(r: Rules, page: Name, s: Lexer, rest: Name)
    requires Faces(page, s, Spaces(0), rest)
    ensures Passes(r, page, s, s, []) && Faces(page, s, [], rest)
  {
    BeforeTwice([], [], LoopFrom(r, page, s));
    assert Spaces(0) == [];
  }

  lemma BeginsName(r: Rules, page: Name, s: Lexer, tag: Name, c: Char, rest: Name) returns (s': Lexer)
    requires InTag(r, page, s, tag) && s.ptag.None? && StartsName(c) && Faces(page, s, [c], rest)
    ensures Passes(r, page, s, s', []) && Faces(page, s', [], rest)
    ensures s' == s.(ptr := s.ptr + 1, pattr := Some(s.ptr)) && s.ptr < |page| && page[s.ptr] == c
  {
    s' := s.(ptr := s.ptr + 1, pattr := Some(s.ptr));
    NextCharacters(page, s, [c], rest);
    hide LoopFrom;
    OnePasses(r, page, s, c, rest, s', []);
  }

  lemma ReadsName(r: Rules, page: Name, s: Lexer, tag: Name, name: Name, rest: Name) returns (s': Lexer)
    requires InTag(r, page, s, tag) && s.ptag.None? && PlainAttributeName(name)
    requires rest != [] && (rest[0] == Ch('=') || rest[0] == Ch(' '))
    requires Faces(page, s, name, rest)
    ensures Passes(r, page, s, s', []) && Faces(page, s', [], rest)
    ensures s' == s.(ptr := s.ptr + |name|, pattr := Some(s.ptr)) && s'.ptr <= |page| && page[s.ptr..s'.ptr] == name
  {
    hide LoopFrom, TurnOf, Quiet, AfterName, Passes;
    NameSplits(name);
    Regroup(page, s, [name[0]], name[1..], rest);
    var s1 := BeginsName(r, page, s, tag, name[0], name[1..] + rest);
    Regroup(page, s1, [], name[1..], rest);
    NameIsQuiet(s1, name, rest);
    hide InTag, PlainAttributeName, Inv;
    s' := QuietPasses(r, page, s1, name[1..], rest);
    assert page[s.ptr..s'.ptr] == [page[s.ptr]] + page[s1.ptr..s'.ptr];
    PassesOn(r, page, s, s1, s', [], []);
  }

  lemma NameSplits(name: Name)
    requires name != []
    ensures [name[0]] + name[1..] == name && [] + name[1..] == name[1..]
  {
  }

  lemma NameIsQuiet(s: Lexer, name: Name, rest: Name)
    requires s.mode.ReadingTag? && s.pattr.Some? && PlainAttributeName(name)
    requires rest != [] && (rest[0] == Ch('=') || rest[0] == Ch(' '))
    ensures Quiet(s, name[1..], rest) && AfterName(s, rest)
  {
  }

  /** The name of the attribute has been read, up to the scan point or before some spaces. */
  ghost predicate Named(r: Rules, page: Name, s: Lexer, tag: Name, name: Name) {
    && Inv(page, s) && s.mode.ReadingTag? && s.ptag.None? && s.tag == tag
    && (if s.pattr.Some? then r.lower(Slice(page, s.pattr.value, s.ptr)) else s.attr) == r.lower(name)
  }

  lemma ReadsFirstSpace(r: Rules, page: Name, s: Lexer, tag: Name, name: Name, rest: Name) returns (s': Lexer)
    requires Named(r, page, s, tag, name) && s.pattr.Some? && Faces(page, s, [Ch(' ')], rest)
    ensures Passes(r, page, s, s', []) && Faces(page, s', [], rest)
    ensures InTag(r, page, s', tag) && s'.ptag.None? && s'.attr == r.lower(name)
  {
    s' := s.(ptr := s.ptr + 1, attr := r.lower(name), pattr := None);
    hide LoopFrom;
    OnePasses(r, page, s, Ch(' '), rest, s', []);
  }

  /** The spaces between the name and the sign of equality. */
  lemma ReadsToEquals(r: Rules, page: Name, s: Lexer, tag: Name, name: Name, n: nat, rest: Name) returns (s': Lexer)
    requires Named(r, page, s, tag, name) && s.pattr.Some? && Faces(page, s, Spaces(n), rest)
    ensures Passes(r, page, s, s', []) && Faces(page, s', [], rest) && Named(r, page, s', tag, name)
  {
    if n == 0 {
      s' := s;
      NoSpaces(r, page, s, rest);
    } else {
      assert Spaces(n) == [Ch(' ')] + Spaces(n - 1) && [] + Spaces(n - 1) == Spaces(n - 1);
      Regroup(page, s, [Ch(' ')], Spaces(n - 1), rest);
      hide LoopFrom, TurnOf, Inv, Faces, Spaces, Passes;
      var s1 := ReadsFirstSpace(r, page, s, tag, name, Spaces(n - 1) + rest);
      Regroup(page, s1, [], Spaces(n - 1), rest);
      s' := ReadsSpaces(r, page, s1, tag, n - 1, rest);
      PassesOn(r, page, s, s1, s', [], []);
    }
  }

  /** The sign of equality before a value with quotes. */
  lemma ReadsEquals(r: Rules, page: Name, s: Lexer, tag: Name, name: Name, rest: Name) returns (s': Lexer)
    requires Named(r, page, s, tag, name) && rest != [] && (IsQuote(rest[0]) || rest[0] == Ch(' '))
    requires Faces(page, s, [Ch('=')], rest)
    ensures Passes(r, page, s, s', []) && Faces(page, s', [], rest)
    ensures InTag(r, page, s', tag) && s'.ptag.None? && s'.attr == r.lower(name)
  {
    s' := s.(ptr := s.ptr + 1, attr := r.lower(name), pattr := None);
    hide LoopFrom;
    OnePasses(r, page, s, Ch('='), rest, s', []);
  }

  lemma OpensValue(r: Rules, page: Name, s: Lexer, quote: Char, rest: Name) returns (s': Lexer)
    requires Inv(page, s) && s.mode.ReadingTag? && IsQuote(quote) && Faces(page, s, [quote], rest)
    ensures Passes(r, page, s, s', []) && Faces(page, s', [], rest)
    ensures s' == s.(mode := ReadingAttribute, quote := quote, pvalue := Some(s.ptr + 1), ptr := s.ptr + 1)
  {
    s' := s.(mode := ReadingAttribute, quote := quote, pvalue := Some(s.ptr + 1), ptr := s.ptr + 1);
    hide LoopFrom;
    OnePasses(r, page, s, quote, rest, s', []);
  }

  lemma ClosesValue(r: Rules, page: Name, s: Lexer, value: Name, rest: Name) returns (s': Lexer)
    requires Inv(page, s) && s.mode.ReadingAttribute? && IsQuote(s.quote)
    requires Slice(page, s.pvalue.value, s.ptr) == value
    requires Faces(page, s, [s.quote], rest)
    ensures Passes(r, page, s, s', [Attribute(s.tag, s.attr, value)]) && Faces(page, s', [], rest)
    ensures s' == s.(mode := ReadingTag, pvalue := None, attr := [], ptr := s.ptr + 1)
  {
    s' := s.(mode := ReadingTag, pvalue := None, attr := [], ptr := s.ptr + 1);
    hide LoopFrom;
    OnePasses(r, page, s, s.quote, rest, s', [Attribute(s.tag, s.attr, value)]);
  }

  /** A value between quotes, from its first quote on. */
  lemma ReadsQuoted(r: Rules, page: Name, s: Lexer, tag: Name, quote: Char, value: Name, rest: Name)
    returns (s': Lexer)
    requires InTag(r, page, s, tag) && s.ptag.None? && IsQuote(quote) && PlainValue(value, quote)
    requires Faces(page, s, [quote], value + ([quote] + rest))
    ensures Passes(r, page, s, s', [Attribute(tag, s.attr, value)]) && Faces(page, s', [], rest)
    ensures InTag(r, page, s', tag) && s'.ptag.None?
  {
    var end := [quote] + rest;
    assert [] + (value + end) == value + end && [] + end == end;
    var s1 := OpensValue(r, page, s, quote, value + end);
    assert Faces(page, s1, value, end);
    assert Quiet(s1, value, end);
    hide LoopFrom, Passes, TurnOf, Quiet, PlainValue;
    var s2 := QuietPasses(r, page, s1, value, end);
    assert Faces(page, s2, [quote], rest);
    s' := ClosesValue(r, page, s2, value, rest);
    PassesOn(r, page, s, s1, s2, [], []);
    PassesOn(r, page, s, s2, s', [], [Attribute(tag, s.attr, value)]);
    assert [] + [Attribute(tag, s.attr, value)] == [Attribute(tag, s.attr, value)];
  }

  lemma ClosesTag(r: Rules, page: Name, s: Lexer, tag: Name, rest: Name) returns (s': Lexer)
    requires InTag(r, page, s, tag) && Faces(page, s, [Ch('>')], rest)
    ensures Passes(r, page, s, s', [Tag(tag)]) && Faces(page, s', [], rest) && s'.mode.ReadingText?
  {
    s' := s.(mode := ReadingText, ptag := None, tag := tag, pattr := None, pvalue := None, ptr := s.ptr + 1);
    hide LoopFrom;
    OnePasses(r, page, s, Ch('>'), rest, s', [Tag(tag)]);
  }

  /** A turn that stays at its character. */
  lemma StayPasses(r: Rules, page: Name, s: Lexer, next: Name, rest: Name, s': Lexer, events: seq<Event>)
    requires Faces(page, s, next, rest) && next != []
    requires s.ptr < |page| ==> TurnOf(r, page, s) == Next(s', events) && s'.ptr == s.ptr && !s'.comment
    ensures Passes(r, page, s, s', events) && Faces(page, s', next, rest)
  {
    NextCharacters(page, s, next, rest);
    Turning(r, page, s, s', events);
    hide TurnOf, Inv;
  }

  /** The sign of equality before a value without quotes. */
  lemma OpensBare(r: Rules, page: Name, s: Lexer, tag: Name, name: Name, rest: Name) returns (s': Lexer)
    requires Named(r, page, s, tag, name) && Faces(page, s, [Ch('=')], rest)
    requires rest != [] && !IsQuote(rest[0]) && !IsSpace(rest[0])
    ensures Passes(r, page, s, s', []) && Faces(page, s', [], rest)
    ensures s' == s.(ptr := s.ptr + 1, attr := r.lower(name), pattr := None,
                     mode := ReadingAttribute, quote := 0, pvalue := Some(s.ptr + 1))
  {
    s' := s.(ptr := s.ptr + 1, attr := r.lower(name), pattr := None,
             mode := ReadingAttribute, quote := 0, pvalue := Some(s.ptr + 1));
    hide LoopFrom, IsSpace;
    OnePasses(r, page, s, Ch('='), rest, s', []);
  }

  /** A space ends the value and is read with it; the end of a tag ends the value, and is then looked at again. */
  lemma ClosesBare(r: Rules, page: Name, s: Lexer, value: Name, next: Name) returns (s': Lexer)
    requires Inv(page, s) && s.mode.ReadingAttribute? && s.quote == 0 && Slice(page, s.pvalue.value, s.ptr) == value
    requires EndsBare(value, next) && Faces(page, s, next, [])
    ensures Passes(r, page, s, s', [Attribute(s.tag, s.attr, value)])
    ensures Faces(page, s', if next[0] == Ch(' ') then next[1..] else next, [])
    ensures s' == s.(mode := ReadingTag, pvalue := None, attr := [], ptr := s'.ptr)
  {
    var events := [Attribute(s.tag, s.attr, value)];
    NextCharacters(page, s, next, []);
    hide LoopFrom;
    s' := s.(mode := ReadingTag, pvalue := None, attr := []);
    if next[0] == Ch(' ') {
      s' := s'.(ptr := s.ptr + 1);
      TurnPasses(r, page, s, next, [], s', events);
    } else {
      StayPasses(r, page, s, next, [], s', events);
    }
  }

  lemma ReadsBare(r: Rules, page: Name, s: Lexer, tag: Name, name: Name, value: Name, next: Name)
    returns (s': Lexer)
    requires Named(r, page, s, tag, name) && PlainAttrValue(Bare(value), next)
    requires Faces(page, s, [Ch('=')], value + next)
    ensures Passes(r, page, s, s', [Attribute(tag, r.lower(name), value)])
    ensures Faces(page, s', if next[0] == Ch(' ') then next[1..] else next, [])
    ensures InTag(r, page, s', tag) && s'.ptag.None?
  {
    assert (value + next)[0] == if value == [] then next[0] else value[0];
    var s1 := OpensBare(r, page, s, tag, name, value + next);
    assert [] + (value + next) == value + next && [] + next == next + [];
    assert Faces(page, s1, value, next);
    assert Quiet(s1, value, next) && AfterName(s1, next);
    hide LoopFrom, Passes, TurnOf, Quiet, PlainAttrValue;
    var s2 := QuietPasses(r, page, s1, value, next);
    s' := ClosesBare(r, page, s2, value, next);
    PassesOn(r, page, s, s1, s2, [], []);
    PassesOn(r, page, s, s2, s', [], [Attribute(s2.tag, s2.attr, value)]);
    assert [] + [Attribute(s2.tag, s2.attr, value)] == [Attribute(s2.tag, s2.attr, value)];
  }

  /** A value after its sign of equality, with the spaces after it. */
  lemma ReadsQuotedValue(
    r: Rules, page: Name, s: Lexer, tag: Name, name: Name, v: Value, after: nat, next: Name) returns (s': Lexer)
    requires Named(r, page, s, tag, name) && v.Quoted? && PlainAttrValue(v, Spaces(after) + next)
    requires Faces(page, s, [Ch('=')], WriteValue(v) + (Spaces(after) + next))
    ensures Passes(r, page, s, s', [Attribute(tag, r.lower(name), v.text)]) && Faces(page, s', [], next)
    ensures InTag(r, page, s', tag) && s'.ptag.None?
  {
    var quote, left := [v.quote], Spaces(after) + next;
    var quoted := quote + (v.text + (quote + left));
    assert WriteValue(v) + left == Spaces(v.space) + quoted;
    assert (Spaces(v.space) + quoted)[0] == if v.space == 0 then v.quote else Ch(' ');
    hide LoopFrom, TurnOf, Inv, InTag, Named, PlainValue, Spaces, WriteValue, Passes;
    var s1 := ReadsEquals(r, page, s, tag, name, WriteValue(v) + left);
    Regroup(page, s1, [], Spaces(v.space), quoted);
    var events := [Attribute(tag, r.lower(name), v.text)];
    AddNothing(Spaces(v.space), quoted, left, Spaces(after), events);
    var s2 := ReadsSpaces(r, page, s1, tag, v.space, quoted);
    Regroup(page, s2, [], quote, v.text + (quote + left));
    AddNothing(quote, quoted, left, Spaces(after), events);
    var s3 := ReadsQuoted(r, page, s2, tag, v.quote, v.text, left);
    Regroup(page, s3, [], Spaces(after), next);
    s' := ReadsSpaces(r, page, s3, tag, after, next);
    PassesOn(r, page, s, s1, s2, [], []);
    PassesOn(r, page, s, s2, s3, [], events);
    PassesOn(r, page, s, s3, s', events, []);
  }

  lemma AddNothing(a: Name, b: Name, c: Name, d: Name, events: seq<Event>)
    ensures [] + a == a && [] + b == b && [] + c == c && [] + d == d && [] + events == events
  {
  }

  lemma ReadsBareValue(
    r: Rules, page: Name, s: Lexer, tag: Name, name: Name, v: Value, after: nat, next: Name) returns (s': Lexer)
    requires Named(r, page, s, tag, name) && v.Bare? && PlainAttrValue(v, Spaces(after) + next)
    requires Faces(page, s, [Ch('=')], WriteValue(v) + (Spaces(after) + next)) && next != [] && next[0] != Ch(' ')
    ensures Passes(r, page, s, s', [Attribute(tag, r.lower(name), v.text)]) && Faces(page, s', [], next)
    ensures InTag(r, page, s', tag) && s'.ptag.None?
  {
    var left := Spaces(after) + next;
    var events := [Attribute(tag, r.lower(name), v.text)];
    assert left[0] == if after == 0 then next[0] else Ch(' ');
    assert after > 0 ==> left[1..] == Spaces(after - 1) + next;
    assert after == 0 ==> left == next;
    hide LoopFrom, TurnOf, Inv, InTag, Named, PlainAttrValue, Spaces, Passes;
    var s1 := ReadsBare(r, page, s, tag, name, v.text, left);
    if after == 0 {
      s' := s1;
      Regroup(page, s1, [], next, []);
    } else {
      var spaces := Spaces(after - 1);
      Regroup(page, s1, [], spaces + next, []);
      Regroup(page, s1, [], spaces, next);
      AddNothing(spaces, next, left, left, events);
      s' := ReadsSpaces(r, page, s1, tag, after - 1, next);
      PassesOn(r, page, s, s1, s', events, []);
    }
  }

  function WriteAttr(a: Attr): Name {
    a.name + Spaces(a.space) + [Ch('=')] + WriteValue(a.value) + Spaces(a.after)
  }

  lemma ReadsAttribute(r: Rules, page: Name, s: Lexer, tag: Name, a: Attr, next: Name) returns (s': Lexer)
    requires InTag(r, page, s, tag) && s.ptag.None? && PlainAttributeName(a.name)
    requires PlainAttrValue(a.value, Spaces(a.after) + next) && next != [] && next[0] != Ch(' ')
    requires Faces(page, s, WriteAttr(a), next)
    ensures Passes(r, page, s, s', [Attribute(tag, r.lower(a.name), a.value.text)]) && Faces(page, s', [], next)
    ensures InTag(r, page, s', tag) && s'.ptag.None?
  {
    var eq, events := [Ch('=')], [Attribute(tag, r.lower(a.name), a.value.text)];
    var value := WriteValue(a.value) + (Spaces(a.after) + next);
    var left := Spaces(a.space) + (eq + value);
    assert WriteAttr(a) + next == a.name + left;
    assert left[0] == if a.space == 0 then Ch('=') else Ch(' ');
    hide LoopFrom, TurnOf, PlainAttributeName, PlainAttrValue, Spaces, WriteAttr, WriteValue, Passes;
    var s1 := ReadsName(r, page, s, tag, a.name, left);
    assert Named(r, page, s1, tag, a.name);
    Regroup(page, s1, [], Spaces(a.space), eq + value);
    AddNothing(Spaces(a.space), eq + value, eq, value, events);
    hide InTag, Named, Inv;
    var s2 := ReadsToEquals(r, page, s1, tag, a.name, a.space, eq + value);
    Regroup(page, s2, [], eq, value);
    if a.value.Quoted? {
      s' := ReadsQuotedValue(r, page, s2, tag, a.name, a.value, a.after, next);
    } else {
      s' := ReadsBareValue(r, page, s2, tag, a.name, a.value, a.after, next);
    }
    PassesOn(r, page, s, s1, s2, [], []);
    PassesOn(r, page, s, s2, s', [], events);
  }

  lemma AttributesBegin(attrs: seq<Attr>, next: Name)
    requires PlainAttrs(attrs, next) && next != [] && next[0] != Ch(' ')
    ensures WriteAttributes(attrs) + next != [] && (WriteAttributes(attrs) + next)[0] != Ch(' ')
    ensures attrs != [] ==> WriteAttributes(attrs) + next == WriteAttr(attrs[0]) + (WriteAttributes(attrs[1..]) + next)
  {
    hide WriteValue, Spaces;
  }

  lemma {:induction false} ReadsAttributes(
    r: Rules, page: Name, s: Lexer, tag: Name, attrs: seq<Attr>, next: Name)
    returns (s': Lexer)
    requires InTag(r, page, s, tag) && (attrs != [] ==> s.ptag.None?)
    requires PlainAttrs(attrs, next) && next != [] && next[0] != Ch(' ')
    requires Faces(page, s, WriteAttributes(attrs), next)
    ensures Passes(r, page, s, s', AttributeEvents(r, tag, attrs)) && Faces(page, s', [], next)
    ensures InTag(r, page, s', tag) && (s.ptag.None? ==> s'.ptag.None?)
    decreases |attrs|
  {
    if attrs == [] {
      s' := s;
      BeforeTwice([], [], LoopFrom(r, page, s));
    } else {
      AttributesBegin(attrs, next);
      AttributesBegin(attrs[1..], next);
      FirstEvent(r, tag, attrs);
      hide LoopFrom, TurnOf, PlainAttrValue, PlainAttributeName, Inv, WriteAttr, WriteAttributes, AttributeEvents;
      hide InTag, Passes;
      var others := WriteAttributes(attrs[1..]);
      Regroup(page, s, WriteAttr(attrs[0]), others, next);
      var s1 := ReadsAttribute(r, page, s, tag, attrs[0], others + next);
      AddNothing(others, next, next, next, []);
      Regroup(page, s1, [], others, next);
      s' := ReadsAttributes(r, page, s1, tag, attrs[1..], next);
      var event := Attribute(tag, r.lower(attrs[0].name), attrs[0].value.text);
      PassesOn(r, page, s, s1, s', [event], AttributeEvents(r, tag, attrs[1..]));
    }
  }

  lemma FirstEvent(r: Rules, tag: Name, attrs: seq<Attr>)
    requires attrs != []
    ensures var event := Attribute(tag, r.lower(attrs[0].name), attrs[0].value.text);
      AttributeEvents(r, tag, attrs) == [event] + AttributeEvents(r, tag, attrs[1..])
    ensures WriteAttributes(attrs) == WriteAttr(attrs[0]) + WriteAttributes(attrs[1..])
  {
  }

  // --- Elements -----------------------------------------------------------------------------

  /** In lax mode the beginning of the next tag ends this one, and is then looked at again. */
  lemma MissesEnd(r: Rules, page: Name, s: Lexer, tag: Name, rest: Name) returns (s': Lexer)
    requires InTag(r, page, s, tag) && r.lax && BeginsTag(rest) && Faces(page, s, rest, [])
    ensures Passes(r, page, s, s', [Tag(tag)]) && Faces(page, s', rest, []) && s'.mode.ReadingText?
  {
    s' := s.(mode := ReadingText, ptag := None, tag := tag, pattr := None, pvalue := None);
    NoCommentHere(page, s, rest);
    NextCharacters(page, s, rest, []);
    hide LoopFrom, Comes;
    StayPasses(r, page, s, rest, [], s', [Tag(tag)]);
  }

  lemma NoCommentHere(page: Name, s: Lexer, rest: Name)
    requires BeginsTag(rest) && Faces(page, s, rest, [])
    ensures s.ptr < |page| && !Comes(page, s.ptr + 1, "!--")
  {
    ComesMeans(page, s.ptr + 1, "!--");
    ComesMeans(rest, 0, "<!--");
    var next := page[s.ptr..];
    hide Is, Inv;
    assert next == rest;
    assert "!--"[0] == '!' && "!--"[1] == '-' && "!--"[2] == '-';
    assert "<!--"[0] == '<' && "<!--"[1] == '!' && "<!--"[2] == '-' && "<!--"[3] == '-';
    assert forall k {:trigger next[k]} :: 0 <= k < |next| ==> next[k] == page[s.ptr + k];
    assert |rest| > 3 ==> next[1] == rest[1] && next[2] == rest[2] && next[3] == rest[3];
  }

  /** The end of a tag whose name is complete. */
  lemma ReadsEnd(r: Rules, page: Name, s: Lexer, tag: Name, end: End, rest: Name) returns (s': Lexer)
    requires InTag(r, page, s, tag) && (end.SlashClose? ==> s.ptag.None?) && Faces(page, s, WriteEnd(end), rest)
    requires end.Missing? ==> r.lax && BeginsTag(rest)
    ensures Passes(r, page, s, s', [Tag(tag)]) && Faces(page, s', [], rest) && s'.mode.ReadingText?
  {
    match end {
      case Close => s' := ClosesTag(r, page, s, tag, rest);
      case SlashClose =>
        var s1 := s.(ptr := s.ptr + 1);
        var left := [Ch('>')] + rest;
        assert [Ch('/'), Ch('>')] + rest == [Ch('/')] + left && [] + left == left;
        OnePasses(r, page, s, Ch('/'), left, s1, []);
        hide LoopFrom, TurnOf;
        s' := ClosesTag(r, page, s1, tag, rest);
        PassesOn(r, page, s, s1, s', [], [Tag(tag)]);
        assert [] + [Tag(tag)] == [Tag(tag)];
      case Missing =>
        Regroup(page, s, [], rest, []);
        assert [] + rest == rest + [];
        s' := MissesEnd(r, page, s, tag, rest);
    }
  }

  lemma SlashedName(name: Name)
    requires PlainTagName(name)
    ensures PlainTagName(name + [Ch('/')])
  {
    ComesMeans(name, 0, "!--");
    ComesMeans(name + [Ch('/')], 0, "!--");
    hide Is;
    assert "!--"[2] == '-' && (|name| == 2 ==> (name + [Ch('/')])[0 + 2] == Ch('/'));
  }

  /** After the name: spaces, attributes, and the end. */
  lemma ReadsRest(r: Rules, page: Name, s: Lexer, tag: Name, e: Element, rest: Name) returns (s': Lexer)
    requires InTag(r, page, s, tag) && PlainElement(r, e, rest) && (e.end.SlashClose? ==> e.space > 0 || s.ptag.None?)
    requires Faces(page, s, Spaces(e.space), WriteAttributes(e.attrs) + (WriteEnd(e.end) + rest))
    ensures Faces(page, s', [], rest) && s'.mode.ReadingText?
    ensures Passes(r, page, s, s', AttributeEvents(r, tag, e.attrs) + [Tag(tag)])
  {
    var end, attrs := WriteEnd(e.end) + rest, WriteAttributes(e.attrs);
    var events := AttributeEvents(r, tag, e.attrs);
    assert end[0] != Ch(' ');
    hide LoopFrom, TurnOf, Inv, WriteAttributes, AttributeEvents, WriteEnd, Passes, InTag, Spaces, BeginsTag;
    hide PlainAttrs;
    var s1 := ReadsSpaces(r, page, s, tag, e.space, attrs + end);
    Regroup(page, s1, [], attrs, end);
    AddNothing(attrs, end, end, end, events);
    var s2 := ReadsAttributes(r, page, s1, tag, e.attrs, end);
    Regroup(page, s2, [], WriteEnd(e.end), rest);
    AddNothing(WriteEnd(e.end), end, end, end, events);
    s' := ReadsEnd(r, page, s2, tag, e.end, rest);
    PassesOn(r, page, s, s1, s2, [], events);
    PassesOn(r, page, s, s2, s', events, [Tag(tag)]);
  }

  lemma RestBegins(r: Rules, e: Element, rest: Name) returns (left: Name)
    requires PlainElement(r, e, rest) && !(e.space == 0 && e.end.SlashClose?)
    ensures left == Spaces(e.space) + (WriteAttributes(e.attrs) + (WriteEnd(e.end) + rest))
    ensures left != [] && (left[0] == Ch(' ') || left[0] == Ch('>') || left[0] == Ch('<'))
    ensures WriteElement(e) + rest == [Ch('<')] + e.name + left
  {
    left := Spaces(e.space) + (WriteAttributes(e.attrs) + (WriteEnd(e.end) + rest));
    assert e.space == 0 ==> e.attrs == [] && left == WriteEnd(e.end) + rest by {
      assert e.attrs == [] ==> WriteAttributes(e.attrs) == [];
    }
    hide WriteAttributes, PlainAttrs, PlainTagName;
  }

  lemma ReadsSpacedElement(r: Rules, page: Name, s: Lexer, e: Element, rest: Name) returns (s': Lexer)
    requires s.mode.ReadingText? && PlainElement(r, e, rest) && Faces(page, s, WriteElement(e), rest)
    requires !(e.space == 0 && e.end.SlashClose?)
    ensures Passes(r, page, s, s', MarkupEvents(r, Piece(e))) && Faces(page, s', [], rest) && s'.mode.ReadingText?
  {
    var none: seq<Event> := [];
    var tag := r.lower(e.name);
    var left := RestBegins(r, e, rest);
    assert MarkupEvents(r, Piece(e)) == AttributeEvents(r, tag, e.attrs) + [Tag(tag)];
    assert none + MarkupEvents(r, Piece(e)) == MarkupEvents(r, Piece(e));
    hide LoopFrom, TurnOf, PlainTagName, Inv, WriteAttributes, AttributeEvents, Passes, InTag, WriteElement;
    hide WriteEnd, MarkupEvents, Spaces, PlainAttrs, BeginsTag;
    var s1 := OpensTag(r, page, s, e.name, left);
    Regroup(page, s1, [], Spaces(e.space), WriteAttributes(e.attrs) + (WriteEnd(e.end) + rest));
    AddNothing(Spaces(e.space), left, left, left, none);
    s' := ReadsRest(r, page, s1, tag, e, rest);
    PassesOn(r, page, s, s1, s', [], MarkupEvents(r, Piece(e)));
  }

  /** A slash right after the name of the tag. */
  lemma ReadsSlashedName(r: Rules, page: Name, s: Lexer, e: Element, rest: Name) returns (s': Lexer)
    requires s.mode.ReadingText? && PlainElement(r, e, rest) && e.space == 0 && e.end.SlashClose?
    requires Faces(page, s, WriteElement(e), rest)
    ensures Passes(r, page, s, s', MarkupEvents(r, Piece(e))) && Faces(page, s', [], rest) && s'.mode.ReadingText?
  {
    var name, end, none: seq<Event> := TagName(e), [Ch('>')], [];
    SlashedName(e.name);
    assert PlainTagName(name);
    assert AttributeEvents(r, r.lower(name), e.attrs) == none;
    assert MarkupEvents(r, Piece(e)) == none + [Tag(r.lower(name))];
    assert WriteElement(e) == [Ch('<')] + name + end by {
      assert e.attrs == [] && WriteAttributes(e.attrs) == [];
    }
    hide LoopFrom, TurnOf, PlainTagName, PlainElement, WriteElement, TagName, InTag, Inv, Passes, MarkupEvents;
    Regroup(page, s, [Ch('<')] + name, end, rest);
    var s1 := OpensTag(r, page, s, name, end + rest);
    Regroup(page, s1, [], end, rest);
    assert [] + end == end;
    s' := ClosesTag(r, page, s1, r.lower(name), rest);
    PassesOn(r, page, s, s1, s', [], [Tag(r.lower(name))]);
  }

  lemma ReadsElement(r: Rules, page: Name, s: Lexer, e: Element, rest: Name) returns (s': Lexer)
    requires s.mode.ReadingText? && PlainElement(r, e, rest) && Faces(page, s, WriteElement(e), rest)
    ensures Passes(r, page, s, s', MarkupEvents(r, Piece(e))) && Faces(page, s', [], rest) && s'.mode.ReadingText?
  {
    if e.space == 0 && e.end.SlashClose? {
      s' := ReadsSlashedName(r, page, s, e, rest);
    } else {
      s' := ReadsSpacedElement(r, page, s, e, rest);
    }
    hide *;
  }

  // --- Comments -----------------------------------------------------------------------------

  /** Inside a comment with so much to come. */
  ghost predicate Within(page: Name, s: Lexer, t: Name, rest: Name) {
    Inv(page, s) && s.comment && page[s.ptr..] == t + CLOSE + rest && PlainComment(t)
  }

  lemma CloseComes(t: Name, i: nat)
    requires i + 3 <= |t|
    ensures Comes(t, i, "-->") <==> t[i] == Ch('-') && t[i + 1] == Ch('-') && t[i + 2] == Ch('>')
    ensures Comes(t, i + 1, "->") <==> t[i + 1] == Ch('-') && t[i + 2] == Ch('>')
  {
    ComesMeans(t, i, "-->");
    ComesMeans(t, i + 1, "->");
    hide Is;
    assert "-->"[0] == '-' && "-->"[1] == '-' && "-->"[2] == '>' && "->"[0] == '-' && "->"[1] == '>';
    assert Comes(t, i, "-->") ==> t[i + 1] == "-->"[1] as int && t[i + 2] == "-->"[2] as int;
    assert Comes(t, i + 1, "->") ==> t[i + 1 + 0] == "->"[0] as int && t[i + 1 + 1] == "->"[1] as int;
  }

  lemma PlainSuffix(t: Name, n: nat)
    requires PlainComment(t) && n <= |t|
    ensures PlainComment(t[n..])
  {
    forall i | 0 <= i < |t[n..]|
      ensures !Comes(t[n..] + CLOSE, i, "-->")
    {
      CloseComes(t + CLOSE, i + n);
      CloseComes(t[n..] + CLOSE, i);
      assert t[n..] + CLOSE == (t + CLOSE)[n..];
    }
  }

  lemma CommentCharacters(page: Name, s: Lexer, t: Name, rest: Name)
    requires Within(page, s, t, rest)
    ensures s.ptr + |t| + 3 <= |page|
    ensures forall k :: 0 <= k < |t| + 3 ==> page[s.ptr + k] == (t + CLOSE)[k]
    ensures forall n :: 0 <= n <= |t| ==> page[s.ptr + n..] == t[n..] + CLOSE + rest
    ensures page[s.ptr + |t| + 3..] == rest
  {
    var next := page[s.ptr..];
    assert |next| == |t| + 3 + |rest|;
    assert forall k {:trigger next[k]} :: 0 <= k < |t| + 3 ==> next[k] == page[s.ptr + k] && next[k] == (t + CLOSE)[k];
    forall n | 0 <= n <= |t|
      ensures page[s.ptr + n..] == t[n..] + CLOSE + rest
    {
      assert page[s.ptr + n..] == next[n..];
    }
    assert page[s.ptr + |t| + 3..] == next[|t| + 3..];
  }

  lemma CommentTurns(r: Rules, page: Name, s: Lexer, t: Name, rest: Name) returns (n: nat)
    requires Within(page, s, t, rest) && t != []
    ensures 1 <= n <= |t| && s.ptr < |page| && Within(page, s.(ptr := s.ptr + n), t[n..], rest)
    ensures TurnOf(r, page, s) == Next(s.(ptr := s.ptr + n), [])
  {
    CommentCharacters(page, s, t, rest);
    CloseComes(t + CLOSE, 0);
    CloseComes(page, s.ptr);
    var c, d := t[0], (t + CLOSE)[1];
    assert page[s.ptr + 0] == (t + CLOSE)[0] && page[s.ptr + 1] == d && page[s.ptr + 2] == (t + CLOSE)[2];
    n := if (c == Ch('\r') && d == Ch('\n')) || (c == Ch('\n') && d == Ch('\r')) then 2 else 1;
    PlainSuffix(t, n);
    TurnKeepsInv(r, page, s);
    hide Comes, PlainComment;
  }

  lemma ClosesComment(r: Rules, page: Name, s: Lexer, rest: Name)
    requires Within(page, s, [], rest)
    ensures s.ptr < |page| && TurnOf(r, page, s) == Next(s.(ptr := s.ptr + 3, comment := false), [])
    ensures Faces(page, s.(ptr := s.ptr + 3, comment := false), [], rest)
  {
    CommentCharacters(page, s, [], rest);
    CloseComes(page, s.ptr);
    assert page[s.ptr + 0] == CLOSE[0] && page[s.ptr + 1] == CLOSE[1] && page[s.ptr + 2] == CLOSE[2];
    TurnKeepsInv(r, page, s);
    hide Comes, PlainComment;
  }

  lemma {:induction false} LeavesComment(r: Rules, page: Name, s: Lexer, t: Name, rest: Name)
    requires Within(page, s, t, rest)
    ensures var s' := s.(ptr := s.ptr + |t| + 3, comment := false);
      Passes(r, page, s, s', []) && Faces(page, s', [], rest)
    decreases |t|
  {
    hide TurnOf, Inv, PlainComment;
    var s' := s.(ptr := s.ptr + |t| + 3, comment := false);
    if t == [] {
      ClosesComment(r, page, s, rest);
      Turning(r, page, s, s', []);
    } else {
      var n := CommentTurns(r, page, s, t, rest);
      var s1 := s.(ptr := s.ptr + n);
      Turning(r, page, s, s1, []);
      LeavesComment(r, page, s1, t[n..], rest);
      PassesOn(r, page, s, s1, s', [], []);
    }
  }

  /** A comment is passed over wherever it stands: in text, in a tag, and in the value of an attribute. */
  lemma ReadsComment(r: Rules, page: Name, s: Lexer, body: Name, rest: Name) returns (s': Lexer)
    requires PlainComment(OPEN + body) && Faces(page, s, [Ch('<')] + OPEN + body + CLOSE, rest)
    ensures Passes(r, page, s, s', []) && Faces(page, s', [], rest)
    ensures s' == s.(ptr := s.ptr + |body| + 7)
  {
    var t := OPEN + body;
    var next := [Ch('<')] + OPEN + body + CLOSE;
    NextCharacters(page, s, next, rest);
    ComesMeans(page, s.ptr + 1, "!--");
    assert next[1..] + rest == t + CLOSE + rest;
    assert page[s.ptr + 1..][0] == Ch('!') && page[s.ptr + 1..][1] == Ch('-') && page[s.ptr + 1..][2] == Ch('-');
    var s1 := s.(comment := true, ptr := s.ptr + 1);
    hide Is;
    assert "!--"[0] == '!' && "!--"[1] == '-' && "!--"[2] == '-';
    assert Comes(page, s.ptr + 1, "!--");
    Turning(r, page, s, s1, []);
    hide TurnOf, LoopFrom;
    LeavesComment(r, page, s1, t, rest);
    s' := s1.(ptr := s1.ptr + |t| + 3, comment := false);
    PassesOn(r, page, s, s1, s', [], []);
  }

  // --- References ---------------------------------------------------------------------------

  /** The scan of a reference goes over the characters of its name. */
  lemma {:induction false} EndOfReference(page: Name, i: nat, n: nat)
    requires i + n <= |page| && ReferenceName(page[i..i + n])
    requires i + n < |page| ==> EndsReference(page[i + n])
    ensures ReferenceEnd(page, i) == i + n
    decreases n
  {
    if n == 0 {
    } else {
      assert page[i..i + n][0] == page[i];
      assert page[i + 1..i + 1 + (n - 1)] == page[i..i + n][1..];
      EndOfReference(page, i + 1, n - 1);
    }
  }

  lemma ReadsReference(r: Rules, page: Name, s: Lexer, name: Name, rest: Name) returns (s': Lexer)
    requires s.mode.ReadingText? && PlainReference(r, name)
    requires Faces(page, s, [Ch('&')] + name + [Ch(';')], rest)
    ensures Passes(r, page, s, s', MarkupEvents(r, Reference(name))) && Faces(page, s', [], rest)
    ensures s'.mode.ReadingText?
  {
    var written, n := [Ch('&')] + name + [Ch(';')], |name|;
    NextCharacters(page, s, written, rest);
    assert |page[s.ptr..]| == n + 2 + |rest|;
    assert page[s.ptr + 1..] == written[1..] + rest && page[s.ptr + n + 2..] == written[n + 2..] + rest;
    assert page[s.ptr + 1..s.ptr + 1 + n] == page[s.ptr + 1..][..n] == name;
    assert page[s.ptr + 1 + n] == page[s.ptr + 1..][n] == Ch(';');
    EndOfReference(page, s.ptr + 1, n);
    s' := s.(ptr := s.ptr + n + 2);
    assert page[s.ptr + 1..ReferenceEnd(page, s.ptr + 1)] == name;
    Turning(r, page, s, s', [Character(r.reference(name).value)]);
    hide TurnOf, LoopFrom;
  }

  lemma NoReferenceAt(r: Rules, page: Name, i: nat, rest: Name)
    requires i < |page| && page[i + 1..] == rest && NoReference(r, rest)
    ensures ReferenceAt(r, page, i).None?
  {
    var n :| 0 <= n <= |rest| && ReferenceName(rest[..n]) && (n < |rest| ==> EndsReference(rest[n])) &&
      !(n < |rest| && rest[n] == Ch(';') && PlainReference(r, rest[..n]));
    assert page[i + 1..i + 1 + n] == rest[..n];
    assert n < |rest| ==> page[i + 1 + n] == rest[n];
    EndOfReference(page, i + 1, n);
  }

  lemma AmpersandTurn(r: Rules, page: Name, s: Lexer)
    requires Inv(page, s) && s.ptr < |page| && page[s.ptr] == Ch('&') && s.mode.ReadingText? && !s.comment
    requires r.lax && ReferenceAt(r, page, s.ptr).None?
    ensures TurnOf(r, page, s) == Next(s.(ptr := s.ptr + 1), [Character(Ch('&'))])
  {
    hide ReferenceAt, ReferenceEnd;
  }

  lemma ReadsAmpersand(r: Rules, page: Name, s: Lexer, rest: Name) returns (s': Lexer)
    requires s.mode.ReadingText? && r.lax && NoReference(r, rest) && Faces(page, s, [Ch('&')], rest)
    ensures Passes(r, page, s, s', [Character(Ch('&'))]) && Faces(page, s', [], rest) && s'.mode.ReadingText?
  {
    NextCharacters(page, s, [Ch('&')], rest);
    assert page[s.ptr + 1..] == [] + rest == rest;
    NoReferenceAt(r, page, s.ptr, rest);
    AmpersandTurn(r, page, s);
    s' := s.(ptr := s.ptr + 1);
    hide ReferenceAt, LoopFrom, NoReference, ReferenceEnd, TurnOf;
    OnePasses(r, page, s, Ch('&'), rest, s', [Character(Ch('&'))]);
  }

  lemma ReadsLess(r: Rules, page: Name, s: Lexer, rest: Name) returns (s': Lexer)
    requires s.mode.ReadingText? && (rest == [] || !StartsTag(rest[0])) && Faces(page, s, [Ch('<')], rest)
    ensures Passes(r, page, s, s', [Character(Ch('<'))]) && Faces(page, s', [], rest) && s'.mode.ReadingText?
  {
    NextCharacters(page, s, [Ch('<')], rest);
    s' := s.(ptr := s.ptr + 1);
    ComesMeans(page, s.ptr + 1, "!--");
    assert "!--"[0] == '!' && (rest != [] ==> page[s.ptr + 1 + 0] == rest[0]);
    assert !Comes(page, s.ptr + 1, "!--");
    hide Comes, LoopFrom;
    OnePasses(r, page, s, Ch('<'), rest, s', [Character(Ch('<'))]);
  }

  // --- Documents ----------------------------------------------------------------------------

  lemma ReadsMarkup(r: Rules, page: Name, s: Lexer, m: Markup, rest: Name) returns (s': Lexer)
    requires s.mode.ReadingText? && PlainMarkup(r, m, rest) && Faces(page, s, WriteMarkup(m), rest)
    ensures Passes(r, page, s, s', MarkupEvents(r, m)) && Faces(page, s', [], rest) && s'.mode.ReadingText?
  {
    hide LoopFrom, TurnOf, PlainElement, PlainComment, PlainReference, NoReference;
    match m {
      case Piece(e) => s' := ReadsElement(r, page, s, e, rest);
      case Comment(body) => s' := ReadsComment(r, page, s, body, rest);
      case Reference(name) => s' := ReadsReference(r, page, s, name, rest);
      case Less => s' := ReadsLess(r, page, s, rest);
      case Ampersand => s' := ReadsAmpersand(r, page, s, rest);
    }
  }

  lemma ReadsPlainText(r: Rules, page: Name, s: Lexer, t: Name, rest: Name) returns (s': Lexer)
    requires s.mode.ReadingText? && PlainText(t) && Faces(page, s, t, rest)
    requires rest == [] || rest[0] == Ch('<') || rest[0] == Ch('&')
    ensures Passes(r, page, s, s', TextEvents(t)) && Faces(page, s', [], rest) && s'.mode.ReadingText?
  {
    ReadsText(r, page, s, t, rest);
    s' := s.(ptr := s.ptr + |t|);
    hide LoopFrom, TurnOf;
    assert page[s'.ptr..] == page[s.ptr..][|t|..];
  }

  lemma {:induction false} ReadsDocument(r: Rules, page: Name, s: Lexer, d: Document)
    requires s.mode.ReadingText? && PlainDocument(r, d) && Faces(page, s, Write(d), [])
    ensures LoopFrom(r, page, s) == Done(Events(r, d), ReadingText)
    decreases |d.parts|
  {
    hide TurnOf, Inv, PlainText, PlainMarkup, WriteMarkup, MarkupEvents, TextEvents;
    if d.parts == [] {
      var s' := ReadsPlainText(r, page, s, d.tail, []);
      AtTheEnd(r, page, s');
      assert Events(r, d) + [] == Events(r, d);
    } else {
      var text, m, others := d.parts[0].0, d.parts[0].1, d.(parts := d.parts[1..]);
      var written, left := WriteMarkup(m), Write(others);
      assert Write(d) + [] == text + (written + left);
      assert [] + (written + left) == written + left && [] + left == left == left + [];
      MarkupBegins(m, left);
      var s1 := ReadsPlainText(r, page, s, text, written + left);
      var s2 := ReadsMarkup(r, page, s1, m, left);
      PassesOn(r, page, s, s1, s2, TextEvents(text), MarkupEvents(r, m));
      ReadsDocument(r, page, s2, others);
    }
  }

  lemma MarkupBegins(m: Markup, left: Name)
    ensures var next := WriteMarkup(m) + left; next != [] && (next[0] == Ch('<') || next[0] == Ch('&'))
  {
  }

  lemma AtTheEnd(r: Rules, page: Name, s: Lexer)
    requires Faces(page, s, [], []) && s.mode.ReadingText?
    ensures LoopFrom(r, page, s) == Done([], ReadingText)
  {
    assert |page[s.ptr..]| == 0;
  }

  /** Round trip: the loop gives back the texts, the tags and the attributes that were written, and no error. */
  lemma DocumentRoundTrip(r: Rules, d: Document)
    requires PlainDocument(r, d)
    ensures LoopFrom(r, Write(d), START) == Done(Events(r, d), ReadingText)
  {
    var page := Write(d);
    assert page[0..] == page == page + [];
    ReadsDocument(r, page, START, d);
  }

  /** In both modes such a page is accepted, and its text is what its texts and tags make of it. */
  lemma DocumentIsCollected(r: Rules, l: Limits, c: Collected, d: Document)
    requires PlainDocument(r, d)
    ensures ParsedFrom(r, l, Write(d), c, START) == Some(Fed(l, c, Events(r, d)).0)
  {
    DocumentRoundTrip(r, d);
    ParsedAsEvents(r, l, Write(d), c, START);
    hide TurnOf, LoopFrom, Fed;
  }

  lemma {:induction false} CharactersAreAbsorbed(l: Limits, t: Text, cs: Name)
    ensures Fed(l, Collected(t, []), TextEvents(cs)) == (Collected(Absorbed(l, t, cs).0, []), Absorbed(l, t, cs).1)
  {
    hide Appended;
    if cs != [] {
      CharactersAreAbsorbed(l, t, cs[..|cs| - 1]);
      assert TextEvents(cs)[..|cs| - 1] == TextEvents(cs[..|cs| - 1]);
      var before := Absorbed(l, t, cs[..|cs| - 1]);
      OneMore(l, Collected(before.0, []), [], cs[|cs| - 1]);
      assert [cs[|cs| - 1]][..0] == [];
    }
  }

  /** A page of text alone comes out as the encoding of its collapsed characters, if no limit is reached. */
  lemma TextPageIsCollapsed(r: Rules, l: Limits, t: Name)
    requires PlainText(t) && AppendedAll(l, EMPTY, t).Some?
    ensures var parsed := ParsedFrom(r, l, t, Collected(EMPTY, []), START);
      parsed.Some? && parsed.value.text.bytes == Encoding(Collapsed(t))
  {
    hide LoopFrom, TurnOf, Collapsed, Encoding, Good;
    DocumentIsCollected(r, l, Collected(EMPTY, []), Document([], t));
    CharactersAreAbsorbed(l, EMPTY, t);
    TextIsCollapsed(l, t);
  }

  // --- Text with references -----------------------------------------------------------------

  /** What a reader sees of markup that is no element: the value of a reference, or the character itself. */
  function ReadMarkup(r: Rules, m: Markup): Name {
    match m
    case Piece(_) => []
    case Comment(_) => []
    case Reference(name) => if r.reference(name).Some? then [r.reference(name).value] else []
    case Less => [Ch('<')]
    case Ampersand => [Ch('&')]
  }

  function ReadText(r: Rules, d: Document): Name
    decreases |d.parts|
  {
    if d.parts == [] then d.tail
    else d.parts[0].0 + ReadMarkup(r, d.parts[0].1) + ReadText(r, d.(parts := d.parts[1..]))
  }

  predicate WithoutElements(d: Document) {
    forall i :: 0 <= i < |d.parts| ==> !d.parts[i].1.Piece?
  }

  lemma {:induction false} EventsOfText(r: Rules, d: Document)
    requires WithoutElements(d)
    ensures Events(r, d) == TextEvents(ReadText(r, d))
    decreases |d.parts|
  {
    if d.parts == [] {
    } else {
      var left := d.(parts := d.parts[1..]);
      assert forall i :: 0 <= i < |left.parts| ==> left.parts[i] == d.parts[i + 1];
      EventsOfText(r, left);
      assert MarkupEvents(r, d.parts[0].1) == TextEvents(ReadMarkup(r, d.parts[0].1));
    }
  }

  /**
   * A page of text, references, comments and characters that stand for themselves comes out as the encoding of
   * what a reader sees, collapsed, if no limit is reached.
   */
  lemma ReferencesAreRead(r: Rules, l: Limits, d: Document)
    requires PlainDocument(r, d) && WithoutElements(d) && AppendedAll(l, EMPTY, ReadText(r, d)).Some?
    ensures var parsed := ParsedFrom(r, l, Write(d), Collected(EMPTY, []), START);
      parsed.Some? && parsed.value.text.bytes == Encoding(Collapsed(ReadText(r, d)))
  {
    hide LoopFrom, TurnOf, Collapsed, Encoding, Good, PlainDocument, ParsedFrom;
    DocumentIsCollected(r, l, Collected(EMPTY, []), d);
    EventsOfText(r, d);
    hide Events, WithoutElements;
    CharactersAreAbsorbed(l, EMPTY, ReadText(r, d));
    TextIsCollapsed(l, ReadText(r, d));
  }
}
