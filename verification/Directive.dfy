/**
 * The argument parser and the printer of El/Directive.hpp.
 *
 * Texts are C strings, so no character of them is NUL.  The type list of a directive is absent (the
 * default), so that no argument is refused by its type.
 */
module Directive {

  datatype Reason = ClosingQuoteExpected | UnexpectedQuote | EndAfterBackslash | UnexpectedCharacter

  datatype Result = Ok(arguments: seq<string>) | ParsingError(position: nat, reason: Reason)

  predicate IsSpace(c: char) {
    c == ' ' || c == '\t' || c == '\n' || c == '\U{0B}' || c == '\U{0C}' || c == '\r'
  }

  /**
   * What the character loop makes of the rest t of the text, which starts at the given offset, when
   * arg holds the argument read so far and out the arguments already pushed.
   */
  function Parse(t: string, offset: nat, arg: string, quote: bool, out: seq<string>): Result
    decreases |t|
  {
    if t == [] then
      if quote then ParsingError(offset + 1, ClosingQuoteExpected)
      else Ok(if arg == [] then out else out + [arg])
    else if IsSpace(t[0]) then
      if quote then Parse(t[1..], offset + 1, arg + [t[0]], true, out)
      else if arg == [] then Parse(t[1..], offset + 1, [], false, out)
      else Parse(t[1..], offset + 1, [], false, out + [arg])
    else if t[0] == '\"' then
      if quote then
        if |t| > 1 && !IsSpace(t[1]) then ParsingError(offset + 2, UnexpectedQuote)
        else Parse(t[1..], offset + 1, [], false, out + [arg])
      else if arg == [] then Parse(t[1..], offset + 1, [], true, out)
      else ParsingError(offset + 1, UnexpectedQuote)
    else if t[0] == '\\' then
      if |t| == 1 then ParsingError(offset + 2, EndAfterBackslash)
      else if t[1] == '\\' || t[1] == '\"' then Parse(t[2..], offset + 2, arg + [t[1]], quote, out)
      else ParsingError(offset + 2, UnexpectedCharacter)
    else
      Parse(t[1..], offset + 1, arg + [t[0]], quote, out)
  }

  function ParseArguments(args: string): Result {
    Parse(args, 0, [], false, [])
  }

  /** The argument part of a dump. */
  function DumpArguments(args: seq<string>): string {
    if args == [] then [] else " \"" + args[0] + "\"" + DumpArguments(args[1..])
  }

  class Directive {
    const name: string
    var arguments: seq<string>

    constructor (name: string)
      ensures this.name == name && arguments == []
    {
      this.name := name;
      arguments := [];
    }

    method PushArgument(arg: string)
      modifies this`arguments
      ensures arguments == old(arguments) + [arg]
    {
      arguments := arguments + [arg];
    }

    /** The loop of the constructor.  On an error the object is not constructed. */
    method Read(args: string) returns (r: Result)
      requires arguments == []
      modifies this`arguments
      ensures r == ParseArguments(args)
      ensures r.Ok? ==> arguments == r.arguments
    {
      var arg, quote, i := "", false, 0;
      while i < |args|
        invariant 0 <= i <= |args|
        invariant Parse(args[i..], i, arg, quote, arguments) == ParseArguments(args)
        decreases |args| - i
      {
        var c := args[i];
        var rest := args[i..];
        assert rest[1..] == args[i + 1..];
        if IsSpace(c) {
          if quote {
            arg := arg + [c];
          } else if arg != "" {
            PushArgument(arg);
            arg := "";
          }
        } else if c == '\"' {
          if quote {
            ghost var pushed := arguments;
            PushArgument(arg);
            if i + 1 < |args| && !IsSpace(args[i + 1]) {
              assert ParseArguments(args) == Parse(rest, i, arg, true, pushed);
              return ParsingError(i + 2, UnexpectedQuote);
            }
            arg, quote := "", false;
          } else if arg == "" {
            quote := true;
          } else {
            return ParsingError(i + 1, UnexpectedQuote);
          }
        } else if c == '\\' {
          i := i + 1;
          if i == |args| {
            return ParsingError(i + 1, EndAfterBackslash);
          }
          if args[i] != '\\' && args[i] != '\"' {
            return ParsingError(i + 1, UnexpectedCharacter);
          }
          arg := arg + [args[i]];
          assert rest[2..] == args[i + 1..];
        } else {
          arg := arg + [c];
        }
        i := i + 1;
      }
      if quote {
        return ParsingError(i + 1, ClosingQuoteExpected);
      }
      if arg != "" {
        PushArgument(arg);
      }
      r := Ok(arguments);
    }

    method Dump() returns (text: string)
      ensures text == name + DumpArguments(arguments) + "\n"
    {
      text := name;
      for i := 0 to |arguments|
        invariant text + DumpArguments(arguments[i..]) == name + DumpArguments(arguments)
      {
        assert arguments[i..][0] == arguments[i] && arguments[i..][1..] == arguments[i + 1..];
        text := text + " \"" + arguments[i] + "\"";
      }
      assert arguments[|arguments|..] == [];
      text := text + "\n";
    }
  }

  // --- Printing with escapes ----------------------------------------------------------------

  function Escape(s: string): string {
    if s == [] then []
    else if s[0] == '\\' || s[0] == '\"' then ['\\', s[0]] + Escape(s[1..])
    else [s[0]] + Escape(s[1..])
  }

  function EscapeAll(args: seq<string>): seq<string> {
    if args == [] then [] else [Escape(args[0])] + EscapeAll(args[1..])
  }

  /** Neither a quote nor a backslash occurs in s. */
  ghost predicate Plain(s: string) {
    forall i :: 0 <= i < |s| ==> s[i] != '\"' && s[i] != '\\'
  }

  ghost predicate AllPlain(args: seq<string>) {
    forall i :: 0 <= i < |args| ==> Plain(args[i])
  }

  predicate NoSpace(s: string) {
    forall i :: 0 <= i < |s| ==> !IsSpace(s[i])
  }

  /** The characters of an argument, between quotes or without them. */
  lemma {:induction false} ReadsCharacters(
    s: string, rest: string, offset: nat, arg: string, quote: bool, out: seq<string>)
    requires quote || NoSpace(s)
    ensures Parse(Escape(s) + rest, offset, arg, quote, out) == Parse(rest, offset + |Escape(s)|, arg + s, quote, out)
    decreases s
  {
    var t := Escape(s) + rest;
    if s == [] {
      assert t == rest && arg + s == arg;
    } else {
      var tail := Escape(s[1..]) + rest;
      ReadsCharacters(s[1..], rest, offset + |Escape(s)| - |Escape(s[1..])|, arg + [s[0]], quote, out);
      assert arg + s == arg + [s[0]] + s[1..];
      if s[0] == '\\' || s[0] == '\"' {
        assert t == ['\\', s[0]] + tail && t[2..] == tail;
      } else {
        assert t == [s[0]] + tail && t[1..] == tail;
      }
    }
  }

  lemma ReadsQuoted(s: string, rest: string, offset: nat, arg: string, out: seq<string>)
    requires rest == [] || IsSpace(rest[0])
    ensures Parse(Escape(s) + "\"" + rest, offset, arg, true, out)
         == Parse(rest, offset + |Escape(s)| + 1, [], false, out + [arg + s])
  {
    var left := "\"" + rest;
    assert Escape(s) + "\"" + rest == Escape(s) + left && left[1..] == rest;
    hide Escape;
    ReadsCharacters(s, left, offset, arg, true, out);
  }

  /** The space before an argument, and its first quote. */
  lemma OpensArgument(args: seq<string>, offset: nat, out: seq<string>)
    requires args != []
    ensures var tail := DumpArguments(EscapeAll(args[1..])) + "\n";
      Parse(DumpArguments(EscapeAll(args)) + "\n", offset, [], false, out)
      == Parse(Escape(args[0]) + "\"" + tail, offset + 2, [], true, out)
  {
    var t := DumpArguments(EscapeAll(args)) + "\n";
    var quoted := Escape(args[0]) + "\"" + (DumpArguments(EscapeAll(args[1..])) + "\n");
    assert EscapeAll(args)[1..] == EscapeAll(args[1..]);
    hide Escape, EscapeAll;
    assert t == [' ', '\"'] + quoted;
    assert t[1..] == ['\"'] + quoted && t[1..][1..] == quoted;
  }

  lemma {:induction false} ReadsDump(args: seq<string>, offset: nat, out: seq<string>)
    ensures Parse(DumpArguments(EscapeAll(args)) + "\n", offset, [], false, out) == Ok(out + args)
    decreases args
  {
    var t := DumpArguments(EscapeAll(args)) + "\n";
    if args == [] {
      assert t == "\n" && t[1..] == [];
      assert out + args == out;
    } else {
      var tail := DumpArguments(EscapeAll(args[1..])) + "\n";
      OpensArgument(args, offset, out);
      assert IsSpace(tail[0]);
      hide Parse, Escape, DumpArguments, EscapeAll, IsSpace;
      ReadsQuoted(args[0], tail, offset + 2, [], out);
      ReadsDump(args[1..], offset + 3 + |Escape(args[0])|, out + [args[0]]);
      assert [] + args[0] == args[0];
      assert out + args == out + [args[0]] + args[1..];
    }
  }

  /** Printed with escapes, every list of arguments is read back. */
  lemma EscapedRoundTrip(args: seq<string>)
    ensures ParseArguments(DumpArguments(EscapeAll(args)) + "\n") == Ok(args)
  {
    ReadsDump(args, 0, []);
    assert [] + args == args;
  }

  lemma {:induction false} PlainNeedsNoEscape(s: string)
    requires Plain(s)
    ensures Escape(s) == s
  {
    if s != [] {
      PlainNeedsNoEscape(s[1..]);
    }
  }

  lemma {:induction false} AllPlainNeedNoEscape(args: seq<string>)
    requires AllPlain(args)
    ensures EscapeAll(args) == args
  {
    if args != [] {
      PlainNeedsNoEscape(args[0]);
      AllPlainNeedNoEscape(args[1..]);
    }
  }

  // --- When a dump is read back -------------------------------------------------------------

  function Count(s: string, c: char): nat {
    if s == [] then 0 else (if s[0] == c then 1 else 0) + Count(s[1..], c)
  }

  /** The backslashes it takes to write s: one for each quote and two for each backslash. */
  function Cost(s: string): nat {
    Count(s, '\"') + 2 * Count(s, '\\')
  }

  function TotalCost(args: seq<string>): nat {
    if args == [] then 0 else Cost(args[0]) + TotalCost(args[1..])
  }

  function TotalCount(args: seq<string>, c: char): nat {
    if args == [] then 0 else Count(args[0], c) + TotalCount(args[1..], c)
  }

  lemma {:induction false} CountConcat(s: string, t: string, c: char)
    ensures Count(s + t, c) == Count(s, c) + Count(t, c)
  {
    if s == [] {
      assert s + t == t;
    } else {
      assert (s + t)[1..] == s[1..] + t;
      CountConcat(s[1..], t, c);
    }
  }

  lemma CostAppend(s: string, c: char)
    ensures Cost(s + [c]) == Cost(s) + (if c == '\"' then 1 else if c == '\\' then 2 else 0)
  {
    CountConcat(s, [c], '\"');
    CountConcat(s, [c], '\\');
  }

  lemma {:induction false} TotalCostAppend(args: seq<string>, s: string)
    ensures TotalCost(args + [s]) == TotalCost(args) + Cost(s)
  {
    if args == [] {
      assert [] + [s] == [s];
    } else {
      assert (args + [s])[1..] == args[1..] + [s];
      TotalCostAppend(args[1..], s);
    }
  }

  /** A text that parses holds exactly the backslashes that its arguments cost. */
  lemma {:induction false} ParseCost(t: string, offset: nat, arg: string, quote: bool, out: seq<string>)
    requires Parse(t, offset, arg, quote, out).Ok?
    ensures TotalCost(Parse(t, offset, arg, quote, out).arguments) == TotalCost(out) + Cost(arg) + Count(t, '\\')
    decreases |t|
  {
    TotalCostAppend(out, arg);
    if t == [] {
    } else if IsSpace(t[0]) {
      CostAppend(arg, t[0]);
      if quote {
        ParseCost(t[1..], offset + 1, arg + [t[0]], true, out);
      } else {
        ParseCost(t[1..], offset + 1, [], false, if arg == [] then out else out + [arg]);
      }
    } else if t[0] == '\"' {
      if quote {
        ParseCost(t[1..], offset + 1, [], false, out + [arg]);
      } else {
        ParseCost(t[1..], offset + 1, [], true, out);
      }
    } else if t[0] == '\\' {
      CostAppend(arg, t[1]);
      assert t[1..][1..] == t[2..];
      ParseCost(t[2..], offset + 2, arg + [t[1]], quote, out);
    } else {
      CostAppend(arg, t[0]);
      ParseCost(t[1..], offset + 1, arg + [t[0]], quote, out);
    }
  }

  lemma {:induction false} DumpCount(args: seq<string>)
    ensures Count(DumpArguments(args), '\\') == TotalCount(args, '\\')
  {
    if args != [] {
      var rest := DumpArguments(args[1..]);
      DumpCount(args[1..]);
      CountConcat(" \"" + args[0] + "\"", rest, '\\');
      CountConcat(" \"" + args[0], "\"", '\\');
      CountConcat(" \"", args[0], '\\');
    }
  }

  lemma {:induction false} TotalCostSplits(args: seq<string>)
    ensures TotalCost(args) == TotalCount(args, '\"') + 2 * TotalCount(args, '\\')
  {
    if args != [] {
      TotalCostSplits(args[1..]);
    }
  }

  lemma {:induction false} NoneCountedNoneThere(s: string, c: char)
    requires Count(s, c) == 0
    ensures forall i :: 0 <= i < |s| ==> s[i] != c
  {
    if s != [] {
      NoneCountedNoneThere(s[1..], c);
      assert forall i :: 1 <= i < |s| ==> s[i] == s[1..][i - 1];
    }
  }

  lemma {:induction false} FreeIsPlain(args: seq<string>)
    requires TotalCount(args, '\"') == 0 && TotalCount(args, '\\') == 0
    ensures AllPlain(args)
  {
    if args != [] {
      NoneCountedNoneThere(args[0], '\"');
      NoneCountedNoneThere(args[0], '\\');
      FreeIsPlain(args[1..]);
      assert forall i :: 1 <= i < |args| ==> args[i] == args[1..][i - 1];
    }
  }

  /** Parsing the argument part of a dump gives the arguments back exactly when none holds a quote or a backslash. */
  lemma DumpRoundTrip(args: seq<string>)
    ensures ParseArguments(DumpArguments(args) + "\n") == Ok(args) <==> AllPlain(args)
  {
    if AllPlain(args) {
      AllPlainNeedNoEscape(args);
      EscapedRoundTrip(args);
    }
    if ParseArguments(DumpArguments(args) + "\n") == Ok(args) {
      ParseCost(DumpArguments(args) + "\n", 0, [], false, []);
      CountConcat(DumpArguments(args), "\n", '\\');
      DumpCount(args);
      TotalCostSplits(args);
      FreeIsPlain(args);
    }
  }

  // --- Texts of all forms -------------------------------------------------------------------

  /** An argument with or without quotes, and the white space after it. */
  datatype Piece = Piece(arg: string, quoted: bool, gap: string)

  predicate AllSpace(s: string) {
    forall i :: 0 <= i < |s| ==> IsSpace(s[i])
  }

  function Written(p: Piece): string {
    if p.quoted then "\"" + Escape(p.arg) + "\"" else Escape(p.arg)
  }

  /** Only quoted arguments may be empty or contain white space; there is some between two arguments. */
  predicate WellFormed(ps: seq<Piece>) {
    forall i :: 0 <= i < |ps| ==>
      && AllSpace(ps[i].gap) && (i + 1 < |ps| ==> ps[i].gap != [])
      && (!ps[i].quoted ==> ps[i].arg != [] && NoSpace(ps[i].arg))
  }

  function WriteAll(ps: seq<Piece>): string {
    if ps == [] then [] else WriteAll(ps[..|ps| - 1]) + Written(ps[|ps| - 1]) + ps[|ps| - 1].gap
  }

  function Arguments(ps: seq<Piece>): seq<string> {
    if ps == [] then [] else Arguments(ps[..|ps| - 1]) + [ps[|ps| - 1].arg]
  }

  /** White space between arguments. */
  lemma {:induction false} ReadsGap(gap: string, rest: string, offset: nat, out: seq<string>)
    requires AllSpace(gap)
    ensures Parse(gap + rest, offset, [], false, out) == Parse(rest, offset + |gap|, [], false, out)
    decreases gap
  {
    if gap == [] {
      assert gap + rest == rest;
    } else {
      assert (gap + rest)[1..] == gap[1..] + rest;
      ReadsGap(gap[1..], rest, offset + 1, out);
    }
  }

  /** The first white space after an argument without quotes ends it. */
  lemma EndsBare(gap: string, rest: string, offset: nat, arg: string, out: seq<string>)
    requires AllSpace(gap) && gap != [] && arg != []
    ensures Parse(gap + rest, offset, arg, false, out) == Parse(rest, offset + |gap|, [], false, out + [arg])
  {
    assert (gap + rest)[1..] == gap[1..] + rest;
    ReadsGap(gap[1..], rest, offset + 1, out + [arg]);
  }

  lemma Opens(t: string, n: nat, out: seq<string>)
    ensures Parse("\"" + t, n, [], false, out) == Parse(t, n + 1, [], true, out)
  {
    assert ("\"" + t)[1..] == t;
  }

  lemma ReadsPiece(p: Piece, rest: string, offset: nat, out: seq<string>)
    requires AllSpace(p.gap) && (!p.quoted ==> p.arg != [] && NoSpace(p.arg)) && (p.gap == [] ==> rest == [])
    ensures Parse(Written(p) + (p.gap + rest), offset, [], false, out)
         == Parse(rest, offset + |Written(p)| + |p.gap|, [], false, out + [p.arg])
  {
    var left := p.gap + rest;
    assert [] + p.arg == p.arg && (left == [] || IsSpace(left[0]));
    hide Escape, AllSpace, NoSpace, IsSpace;
    if p.quoted {
      assert Written(p) + left == "\"" + (Escape(p.arg) + "\"" + left);
      hide Parse;
      Opens(Escape(p.arg) + "\"" + left, offset, out);
      ReadsQuoted(p.arg, left, offset + 1, [], out);
      ReadsGap(p.gap, rest, offset + |Written(p)|, out + [p.arg]);
    } else {
      ReadsCharacters(p.arg, left, offset, [], false, out);
      if p.gap == [] {
        assert left == [];
      } else {
        hide Parse;
        EndsBare(p.gap, rest, offset + |Written(p)|, p.arg, out);
      }
    }
  }

  /** What is left is read after so many well-formed arguments, the last with white space after it. */
  lemma {:induction false} ReadsPieces(ps: seq<Piece>, rest: string, offset: nat)
    requires WellFormed(ps) && (ps != [] && ps[|ps| - 1].gap == [] ==> rest == [])
    ensures Parse(WriteAll(ps) + rest, offset, [], false, [])
         == Parse(rest, offset + |WriteAll(ps)|, [], false, Arguments(ps))
  {
    hide Parse, Written, AllSpace, NoSpace;
    if ps == [] {
      assert WriteAll(ps) + rest == rest;
    } else {
      var last, p := |ps| - 1, ps[|ps| - 1];
      var left := Written(p) + (p.gap + rest);
      assert WriteAll(ps) + rest == WriteAll(ps[..last]) + left;
      assert forall i :: 0 <= i < last ==> ps[..last][i] == ps[i];
      ReadsPieces(ps[..last], left, offset);
      ReadsPiece(p, rest, offset + |WriteAll(ps[..last])|, Arguments(ps[..last]));
    }
  }

  /** Round trip: arguments with and without quotes, and any white space between and around them. */
  lemma PiecesRoundTrip(lead: string, ps: seq<Piece>)
    requires AllSpace(lead) && WellFormed(ps)
    ensures ParseArguments(lead + WriteAll(ps)) == Ok(Arguments(ps))
  {
    ReadsGap(lead, WriteAll(ps), 0, []);
    assert WriteAll(ps) + [] == WriteAll(ps);
    ReadsPieces(ps, [], |lead|);
  }

  /**
   * The errors, after so many well-formed arguments: a quote that is not closed, a quote inside an argument
   * without quotes, a quoted one that goes on after its end, and a backslash at the end or before another
   * character.  The position is that after the character which is wrong.
   */
  lemma ErrorsAreFound(ps: seq<Piece>, s: string, c: char, rest: string)
    requires WellFormed(ps) && (ps != [] ==> ps[|ps| - 1].gap != [])
    ensures var n, t := |WriteAll(ps)|, Escape(s);
      && ParseArguments(WriteAll(ps) + ("\"" + t)) == ParsingError(n + |t| + 2, ClosingQuoteExpected)
      && (!IsSpace(c) ==>
           ParseArguments(WriteAll(ps) + ("\"" + t + "\"" + [c] + rest)) == ParsingError(n + |t| + 3, UnexpectedQuote))
      && (s != [] && NoSpace(s) ==>
           ParseArguments(WriteAll(ps) + (t + "\"" + rest)) == ParsingError(n + |t| + 1, UnexpectedQuote))
      && (NoSpace(s) ==> ParseArguments(WriteAll(ps) + (t + "\\")) == ParsingError(n + |t| + 2, EndAfterBackslash))
      && (NoSpace(s) && c != '\"' && c != '\\' ==>
           ParseArguments(WriteAll(ps) + (t + "\\" + [c] + rest)) == ParsingError(n + |t| + 2, UnexpectedCharacter))
  {
    var n, t, out := |WriteAll(ps)|, Escape(s), Arguments(ps);
    hide WriteAll, Arguments, Parse, Escape, IsSpace, WellFormed;
    ReadsPieces(ps, "\"" + t, 0);
    ReadsPieces(ps, "\"" + t + "\"" + [c] + rest, 0);
    ReadsPieces(ps, t + "\"" + rest, 0);
    ReadsPieces(ps, t + "\\", 0);
    ReadsPieces(ps, t + "\\" + [c] + rest, 0);
    QuoteErrors(s, c, rest, n, out);
    if NoSpace(s) {
      BareErrors(s, c, rest, n, out);
    }
  }

  lemma QuoteErrors(s: string, c: char, rest: string, n: nat, out: seq<string>)
    ensures Parse("\"" + Escape(s), n, [], false, out) == ParsingError(n + |Escape(s)| + 2, ClosingQuoteExpected)
    ensures !IsSpace(c) ==>
      Parse("\"" + Escape(s) + "\"" + [c] + rest, n, [], false, out)
      == ParsingError(n + |Escape(s)| + 3, UnexpectedQuote)
  {
    var t, left := Escape(s), "\"" + [c] + rest;
    assert t == t + [] && [] + s == s && "\"" + t + "\"" + [c] + rest == "\"" + (t + left);
    hide Escape, IsSpace;
    Opens(t, n, out);
    Opens(t + left, n, out);
    ReadsCharacters(s, [], n + 1, [], true, out);
    ReadsCharacters(s, left, n + 1, [], true, out);
    if !IsSpace(c) {
      GoesOn(c, rest, n + 1 + |t|, s, out);
    }
  }

  lemma GoesOn(c: char, rest: string, n: nat, arg: string, out: seq<string>)
    requires !IsSpace(c)
    ensures Parse("\"" + [c] + rest, n, arg, true, out) == ParsingError(n + 2, UnexpectedQuote)
  {
    var t := "\"" + [c] + rest;
    assert t[0] == '\"' && t[1] == c;
  }

  lemma BareErrors(s: string, c: char, rest: string, n: nat, out: seq<string>)
    requires NoSpace(s)
    ensures s != [] ==>
      Parse(Escape(s) + "\"" + rest, n, [], false, out) == ParsingError(n + |Escape(s)| + 1, UnexpectedQuote)
    ensures Parse(Escape(s) + "\\", n, [], false, out) == ParsingError(n + |Escape(s)| + 2, EndAfterBackslash)
    ensures c != '\"' && c != '\\' ==>
      Parse(Escape(s) + "\\" + [c] + rest, n, [], false, out) == ParsingError(n + |Escape(s)| + 2, UnexpectedCharacter)
  {
    var t := Escape(s);
    assert t + "\"" + rest == t + ("\"" + rest) && t + "\\" + [c] + rest == t + ("\\" + [c] + rest) && [] + s == s;
    hide Escape;
    ReadsCharacters(s, "\"" + rest, n, [], false, out);
    ReadsCharacters(s, "\\", n, [], false, out);
    ReadsCharacters(s, "\\" + [c] + rest, n, [], false, out);
  }
}
