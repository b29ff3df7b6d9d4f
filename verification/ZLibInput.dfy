/**
 * How El/Compress/ZLib.cpp fills the get area of StreamInput: over any inflate that takes a prefix of its input
 * and gives some bytes that fit, and any callback that reads as much as it likes.
 */
module ZLibInput {

  import opened Bytes
  import opened Wrappers
  import opened StreamInput

  datatype Code = Ok | StreamEnd | Error

  /** What a call of inflate does; the bytes given with an error are not part of the data. */
  datatype Inflated = Inflated(code: Code, taken: nat, bytes: seq<Byte>)

  /**
   * The compressed side: the input there is for inflate, what the callback and inflate answer from now on (in the
   * end the one has no data and the other fails), and end_of_stream_; all that the callback gave, that inflate
   * took, that it made of it, and that the callback was given back.
   */
  datatype Source = Source(
    pending: seq<Byte>, supplies: seq<seq<Byte>>, inflates: seq<Inflated>, ended: bool, failed: bool,
    got: seq<Byte>, consumed: seq<Byte>, inflated: seq<Byte>, putBack: seq<Byte>)

  function NewSource(supplies: seq<seq<Byte>>, inflates: seq<Inflated>): Source {
    Source([], supplies, inflates, false, false, [], [], [], [])
  }

  function Clipped(r: Inflated, input: nat, room: nat): (c: Inflated)
    ensures c.code == r.code && c.taken <= input && |c.bytes| <= room
  {
    Inflated(r.code, if r.taken < input then r.taken else input, if |r.bytes| < room then r.bytes else r.bytes[..room])
  }

  /** The callback fills the empty input buffer. */
  function Supplied(s: Source, size: nat): Source {
    var data := if s.supplies == [] then [] else s.supplies[0];
    var bytes := if |data| < size then data else data[..size];
    s.(pending := bytes, supplies := if s.supplies == [] then [] else s.supplies[1..], got := s.got + bytes)
  }

  function TakenFrom(s: Source, n: nat): Source
    requires n <= |s.pending|
  {
    s.(consumed := s.consumed + s.pending[..n], pending := s.pending[n..])
  }

  /** One call of inflate. */
  function AfterInflate(s: Source, room: nat): (r: (Source, Inflated))
    ensures |r.1.bytes| <= room
    ensures if s.inflates == [] then r.1.code.Error? else |r.0.inflates| < |s.inflates|
  {
    var answer := if s.inflates == [] then Inflated(Error, 0, []) else s.inflates[0];
    var r := Clipped(answer, |s.pending|, room);
    (TakenFrom(s, r.taken).(inflates := if s.inflates == [] then [] else s.inflates[1..]), r)
  }

  /** The first half of a turn of read_to_buf, with the number of bytes there were for inflate. */
  function AfterStep(s: Source, size: nat, room: nat): (r: (Source, Inflated, nat))
    ensures |r.1.bytes| <= room
    ensures s.ended ==> r.0 == s && r.1.code.StreamEnd? && r.1.bytes == [] && r.2 == |s.pending|
    ensures !s.ended ==> if s.inflates == [] then r.1.code.Error? else |r.0.inflates| < |s.inflates|
  {
    if s.ended then (s, Inflated(StreamEnd, 0, []), |s.pending|)
    else
      var s1 := if s.pending == [] then Supplied(s, size) else s;
      var (s2, r) := AfterInflate(s1, room);
      (s2, r, |s1.pending|)
  }

  /** The second half, after the call of inflate; None if the loop goes on. */
  function Concluded(s: Source, r: Inflated, had: nat): (t: (Source, Option<Answer>))
  {
    var s' := s.(ended := r.code.StreamEnd?);
    if r.code.Error? then (s.(failed := true), Some(Broken(r.bytes)))
    else if had == 0 && r.bytes == [] then
      if s'.ended then (s', Some(AtEnd)) else (s'.(failed := true), Some(Broken([])))
    else if s'.ended && r.bytes == [] && s'.pending != [] then
      (s'.(putBack := s'.putBack + s'.pending), Some(AtEnd))
    else if r.bytes == [] then (s', None)
    else (s'.(inflated := s'.inflated + r.bytes), Some(Data(r.bytes)))
  }

  /** One turn of the loop of read_to_buf. */
  function AfterTurn(s: Source, size: nat, room: nat): (t: (Source, Option<Answer>))
    requires room > 0 && !s.failed
    ensures t.1.None? ==> !t.0.failed && |t.0.inflates| < |s.inflates|
    ensures t.1.Some? ==> Fits(t.1.value, room)
  {
    var (s', r, had) := AfterStep(s, size, room);
    Concluded(s', r, had)
  }

  /** read_to_buf without the pointers. */
  function AfterRead(s: Source, size: nat, room: nat): (r: (Source, Answer))
    requires room > 0 && !s.failed
    ensures Fits(r.1, room)
    decreases |s.inflates|
  {
    var (s', answer) := AfterTurn(s, size, room);
    match answer
    case None => AfterRead(s', size, room)
    case Some(a) => (s', a)
  }

  lemma SplitAt(s: seq<Byte>, from: nat, n: nat, k: nat)
    requires from + n <= |s| && k <= n
    ensures s[from..from + n][..k] == s[from..from + k]
    ensures s[from..from + n][k..] == s[from + k..from + n]
  {
  }

  class Inflater {
    const buffer: array<Byte>
    var next: nat
    var avail: nat
    var inBytes: nat
    var outBytes: nat
    var ended: bool
    var failed: bool
    var supplies: seq<seq<Byte>>
    var inflates: seq<Inflated>
    var putBack: seq<Byte>
    ghost var got: seq<Byte>
    ghost var consumed: seq<Byte>
    ghost var inflated: seq<Byte>

    ghost predicate Valid()
      reads this`next, this`avail, this`inBytes, this`outBytes, this`got, this`inflated
    {
      buffer.Length >= 15 && next + avail <= buffer.Length && inBytes == |got| && outBytes == |inflated|
    }

    ghost function Pending(): seq<Byte>
      reads this`next, this`avail, buffer
    {
      if next + avail <= buffer.Length then buffer[..][next..next + avail] else []
    }

    ghost function State(): Source
      reads this, buffer
    {
      Source(Pending(), supplies, inflates, ended, failed, got, consumed, inflated, putBack)
    }

    /** Of a buffer that the constructor of the program does not refuse. */
    constructor (size: nat, supplies: seq<seq<Byte>>, inflates: seq<Inflated>)
      requires size >= 15
      ensures Valid() && State() == NewSource(supplies, inflates) && fresh(buffer) && buffer.Length == size
    {
      buffer := new Byte[size](i => 0);
      next, avail, inBytes, outBytes, ended, failed := 0, 0, 0, 0, false, false;
      this.supplies, this.inflates, putBack := supplies, inflates, [];
      got, consumed, inflated := [], [], [];
    }

    method Read()
      requires Valid() && avail == 0
      modifies this`supplies, this`next, this`avail, this`inBytes, this`got, buffer
      ensures Valid() && State() == Supplied(old(State()), buffer.Length)
    {
      var data := if supplies == [] then [] else supplies[0];
      supplies := if supplies == [] then [] else supplies[1..];
      next, avail := 0, if |data| < buffer.Length then |data| else buffer.Length;
      forall i | 0 <= i < avail {
        buffer[i] := data[i];
      }
      assert Pending() == data[..avail];
      got := got + data[..avail];
      inBytes := inBytes + avail;
    }

    method Take(n: nat)
      requires Valid() && n <= avail
      modifies this`next, this`avail, this`consumed
      ensures Valid() && State() == TakenFrom(old(State()), n)
    {
      SplitAt(buffer[..], next, avail, n);
      consumed := consumed + buffer[..][next..next + n];
      next, avail := next + n, avail - n;
    }

    method Inflate(room: nat) returns (r: Inflated)
      requires Valid()
      modifies this`inflates, this`next, this`avail, this`consumed
      ensures Valid() && (State(), r) == AfterInflate(old(State()), room)
    {
      hide Clipped, TakenFrom;
      var answer := if inflates == [] then Inflated(Error, 0, []) else inflates[0];
      ghost var was := State();
      assert |was.pending| == avail;
      r := Clipped(answer, avail, room);
      Take(r.taken);
      assert State() == TakenFrom(was, r.taken) && inflates == was.inflates;
      inflates := if inflates == [] then [] else inflates[1..];
      assert State() == TakenFrom(was, r.taken).(inflates := inflates);
    }

    method Step(room: nat) returns (r: Inflated, had: nat)
      requires Valid()
      modifies this`supplies, this`inflates, this`next, this`avail, this`inBytes, this`got, this`consumed, buffer
      ensures Valid() && (State(), r, had) == AfterStep(old(State()), buffer.Length, room)
    {
      hide Supplied, AfterInflate;
      if ended {
        return Inflated(StreamEnd, 0, []), avail;
      }
      if avail == 0 {
        Read();
      }
      had := avail;
      r := Inflate(room);
    }

    method Conclude(r: Inflated, had: nat) returns (done: bool, answer: Answer)
      requires Valid()
      modifies this`ended, this`failed, this`putBack, this`outBytes, this`inflated
      ensures Valid() && (State(), if done then Some(answer) else None) == Concluded(old(State()), r, had)
    {
      assert |Pending()| == avail && buffer[next..next + avail] == buffer[..][next..next + avail] == Pending();
      hide Pending;
      answer := AtEnd;
      if r.code.Error? {
        failed := true;
        return true, Broken(r.bytes);
      }
      ended := r.code.StreamEnd?;
      if had == 0 && r.bytes == [] {
        if !ended {
          failed := true;
          answer := Broken([]);
        }
        return true, answer;
      }
      if ended && r.bytes == [] && avail != 0 {
        putBack := putBack + buffer[next..next + avail];
        return true, answer;
      }
      assert r.bytes == [] ==> inflated + r.bytes == inflated;
      outBytes := outBytes + |r.bytes|;
      inflated := inflated + r.bytes;
      return r.bytes != [], Data(r.bytes);
    }

    /** One turn of read_to_buf, and whether it is the last. */
    method Turn(room: nat) returns (done: bool, answer: Answer)
      requires Valid() && room > 0 && !failed
      modifies this, buffer
      ensures Valid()
      ensures (State(), if done then Some(answer) else None) == AfterTurn(old(State()), buffer.Length, room)
    {
      hide Concluded, AfterStep;
      var r, had := Step(room);
      done, answer := Conclude(r, had);
    }

    method ReadToBuf(room: nat) returns (answer: Answer)
      requires Valid() && room > 0 && !failed
      modifies this, buffer
      ensures Valid() && (State(), answer) == AfterRead(old(State()), buffer.Length, room)
    {
      var done := false;
      answer := AtEnd;
      while !done
        invariant Valid() && (!done ==> !failed)
        invariant AfterRead(old(State()), buffer.Length, room) ==
          if done then (State(), answer) else AfterRead(State(), buffer.Length, room)
        decreases !done, |inflates|
      {
        done, answer := Turn(room);
        hide AfterTurn;
      }
    }
  }

  // --- One read -----------------------------------------------------------------------------

  /** Every byte that the callback gave was taken by inflate or is still there. */
  predicate InputKept(s: Source) {
    s.got == s.consumed + s.pending
  }

  /** What changes from s to s' in a read, or in a part of one, that gives the answer or none. */
  ghost predicate Continues(s: Source, s': Source, answer: Option<Answer>) {
    && InputKept(s') && s.got <= s'.got && s.consumed <= s'.consumed
    && s'.inflated == s.inflated + (if answer.Some? && answer.value.Data? then answer.value.bytes else [])
    && s'.putBack == s.putBack + (if answer.Some? && answer.value.AtEnd? then s'.pending else [])
    && (s'.failed <==> answer.Some? && answer.value.Broken?)
    && (answer.Some? && answer.value.AtEnd? ==> s'.ended)
    && (s.ended ==> answer == Some(AtEnd) && s' == s.(putBack := s'.putBack))
  }

  lemma TakenIsKept(s: Source, n: nat)
    requires InputKept(s) && n <= |s.pending|
    ensures InputKept(TakenFrom(s, n)) && s.consumed <= TakenFrom(s, n).consumed
  {
    assert s.pending == s.pending[..n] + s.pending[n..];
  }

  lemma SuppliedIsKept(s: Source, size: nat)
    requires InputKept(s) && s.pending == []
    ensures InputKept(Supplied(s, size)) && s.got <= Supplied(s, size).got
  {
    assert s.got == s.consumed;
  }

  lemma StepContinues(s: Source, size: nat, room: nat)
    requires InputKept(s) && !s.failed && !s.ended
    ensures var (s', r, had) := AfterStep(s, size, room);
      && InputKept(s') && s.got <= s'.got && s.consumed <= s'.consumed && (had == 0 ==> s'.pending == [])
      && s'.failed == s.failed && s'.inflated == s.inflated && s'.putBack == s.putBack
  {
    var s1 := s;
    if s.pending == [] {
      SuppliedIsKept(s, size);
      s1 := Supplied(s, size);
    }
    assert s.got <= s1.got && s.consumed == s1.consumed;
    var (s2, r) := AfterInflate(s1, room);
    TakenIsKept(s1, r.taken);
    hide InputKept, Clipped;
  }

  lemma ConcludedContinues(s: Source, s1: Source, r: Inflated, had: nat)
    requires InputKept(s1) && s.got <= s1.got && s.consumed <= s1.consumed && (had == 0 ==> s1.pending == [])
    requires !s1.failed && s1.inflated == s.inflated && s1.putBack == s.putBack && !s.ended
    ensures Continues(s, Concluded(s1, r, had).0, Concluded(s1, r, had).1)
  {
    assert s.inflated + [] == s.inflated && s.putBack + [] == s.putBack;
  }

  lemma TurnContinues(s: Source, size: nat, room: nat)
    requires room > 0 && InputKept(s) && !s.failed
    ensures Continues(s, AfterTurn(s, size, room).0, AfterTurn(s, size, room).1)
  {
    if s.ended {
      assert s.inflated + [] == s.inflated && s.putBack + [] == s.putBack;
    } else {
      StepContinues(s, size, room);
      var (s', r, had) := AfterStep(s, size, room);
      hide AfterStep, Concluded, Continues, InputKept;
      ConcludedContinues(s, s', r, had);
    }
  }

  /**
   * What the get area receives is what inflate made; every byte of the callback is taken by inflate or kept; and
   * each read that ends gives all that is kept back.
   */
  lemma {:induction false} ReadContinues(s: Source, size: nat, room: nat)
    requires room > 0 && InputKept(s) && !s.failed
    ensures Continues(s, AfterRead(s, size, room).0, Some(AfterRead(s, size, room).1))
    decreases |s.inflates|
  {
    TurnContinues(s, size, room);
    var (s', answer) := AfterTurn(s, size, room);
    if answer.None? {
      ReadContinues(s', size, room);
      assert s'.inflated == s.inflated + [] == s.inflated && s'.putBack == s.putBack + [] == s.putBack;
    }
    hide AfterTurn;
  }

  /** The input there is for inflate: what is pending, or else what the callback gives. */
  function Input(s: Source, size: nat): seq<Byte> {
    if s.pending != [] then s.pending
    else if s.supplies == [] then []
    else if |s.supplies[0]| < size then s.supplies[0] else s.supplies[0][..size]
  }

  /**
   * What the first answer of inflate does to a read: an error breaks it, bytes are its data, the end without bytes
   * is the end of file, and no bytes for no input are an error; otherwise inflate is asked again.  As much of the
   * input as it took is consumed.
   */
  lemma FirstAnswerDecides(s: Source, size: nat, room: nat)
    requires room > 0 && !s.failed && !s.ended
    ensures var first := if s.inflates == [] then Inflated(Error, 0, []) else s.inflates[0];
      var bytes := if |first.bytes| < room then first.bytes else first.bytes[..room];
      var input := Input(s, size);
      var consumed := s.consumed + if first.taken < |input| then input[..first.taken] else input;
      var (s', answer) := AfterRead(s, size, room);
      && (first.code.Error? ==> answer == Broken(bytes) && s'.failed)
      && (!first.code.Error? && bytes != [] ==>
           answer == Data(bytes) && (s'.ended <==> first.code.StreamEnd?) && s'.consumed == consumed)
      && (first.code.StreamEnd? && bytes == [] && input == [] ==> answer == AtEnd && s'.ended)
      && (first.code.Ok? && bytes == [] && input == [] ==> answer == Broken([]) && s'.failed)
      && (!first.code.Error? && bytes == [] && input != [] ==>
           exists m: Source ::
             && m.consumed == consumed && m.inflates == s.inflates[1..] && !m.failed
             && (m.ended <==> first.code.StreamEnd?) && AfterRead(m, size, room) == (s', answer))
  {
    FirstStep(s, size, room);
    var (m, answer) := AfterTurn(s, size, room);
    hide AfterStep, Clipped, Input;
    if answer.None? {
      assert AfterRead(m, size, room) == AfterRead(s, size, room);
    } else if m.ended && answer.value.AtEnd? && m.putBack != s.putBack {
      PutsBackAfterEnd(m, s.putBack, size, room);
    }
  }

  lemma FirstStep(s: Source, size: nat, room: nat)
    requires !s.failed && !s.ended
    ensures var first := if s.inflates == [] then Inflated(Error, 0, []) else s.inflates[0];
      var input := Input(s, size);
      var (s', r, had) := AfterStep(s, size, room);
      && r.code == first.code && r.bytes == (if |first.bytes| < room then first.bytes else first.bytes[..room])
      && had == |input| && s'.inflates == (if s.inflates == [] then [] else s.inflates[1..]) && !s'.failed
      && s'.consumed == s.consumed + (if first.taken < |input| then input[..first.taken] else input)
      && s'.putBack == s.putBack && (s'.pending != [] ==> input != [])
  {
    var s1 := if s.pending == [] then Supplied(s, size) else s;
    assert s1.pending == Input(s, size);
    assert s1.pending[..|s1.pending|] == s1.pending;
  }

  lemma PutsBackAfterEnd(m: Source, before: seq<Byte>, size: nat, room: nat)
    requires m.ended && !m.failed && m.pending != [] && m.putBack == before + m.pending && room > 0
    ensures AfterRead(m.(putBack := before), size, room) == (m, AtEnd)
  {
  }

  // --- Runs of reads ------------------------------------------------------------------------

  type Room = n: nat | n > 0 witness 1

  /** Reads into rooms of these sizes, and their answers; after an error nothing is asked any more. */
  function AfterReads(s: Source, size: nat, rooms: seq<Room>): (Source, seq<Answer>) {
    if rooms == [] then (s, [])
    else
      var (before, answers) := AfterReads(s, size, rooms[..|rooms| - 1]);
      if before.failed then (before, answers)
      else
        var (after, answer) := AfterRead(before, size, rooms[|rooms| - 1]);
        (after, answers + [answer])
  }

  /** The number of ends of file that were reported. */
  function Ends(answers: seq<Answer>): nat {
    if answers == [] then 0 else Ends(answers[..|answers| - 1]) + if answers[|answers| - 1].AtEnd? then 1 else 0
  }

  function Repeated(s: seq<Byte>, n: nat): seq<Byte> {
    if n == 0 then [] else Repeated(s, n - 1) + s
  }

  /** Each report of the end of file puts the rest of the input back once more. */
  lemma {:induction false} RestIsRepeated(
    supplies: seq<seq<Byte>>, inflates: seq<Inflated>, size: nat, rooms: seq<Room>)
    ensures var (s, answers) := AfterReads(NewSource(supplies, inflates), size, rooms);
      InputKept(s) && (Ends(answers) > 0 ==> s.ended) && s.putBack == Repeated(s.pending, Ends(answers))
  {
    if rooms != [] {
      RestIsRepeated(supplies, inflates, size, rooms[..|rooms| - 1]);
      var (s, answers) := AfterReads(NewSource(supplies, inflates), size, rooms[..|rooms| - 1]);
      if !s.failed {
        ReadContinues(s, size, rooms[|rooms| - 1]);
        var (s', answer) := AfterRead(s, size, rooms[|rooms| - 1]);
        assert (answers + [answer])[..|answers|] == answers;
        assert s.putBack + [] == s.putBack;
      }
    }
    hide AfterRead;
  }

  lemma {:induction false} RepeatedLength(s: seq<Byte>, n: nat)
    ensures if n == 0 then Repeated(s, n) == [] else if n == 1 then Repeated(s, n) == s
            else |Repeated(s, n)| >= 2 * |s|
  {
    if n > 0 {
      RepeatedLength(s, n - 1);
    }
  }

  /**
   * In every run, the callback has back exactly what inflate did not take, if and only if the end of file was
   * reported once or there is no rest; and it has it back at most once, if and only if the end was reported at
   * most once or there is no rest.
   */
  lemma RestPutBackOnceExactlyWhen(
    supplies: seq<seq<Byte>>, inflates: seq<Inflated>, size: nat, rooms: seq<Room>)
    ensures var (s, answers) := AfterReads(NewSource(supplies, inflates), size, rooms);
      && (s.consumed + s.putBack == s.got <==> Ends(answers) == 1 || s.pending == [])
      && (|s.putBack| <= |s.pending| <==> Ends(answers) <= 1 || s.pending == [])
  {
    RestIsRepeated(supplies, inflates, size, rooms);
    var (s, answers) := AfterReads(NewSource(supplies, inflates), size, rooms);
    RepeatedLength(s.pending, Ends(answers));
    NothingRepeated(Ends(answers));
    assert |s.got| == |s.consumed| + |s.pending|;
    hide AfterReads, Ends;
  }

  lemma {:induction false} NothingRepeated(n: nat)
    ensures Repeated([], n) == []
  {
    if n > 0 {
      NothingRepeated(n - 1);
    }
  }

  /** One byte is inflated and three are left: two reads after that put them back twice. */
  lemma RestPutBackTwice()
    ensures var source := NewSource([[1, 2, 3, 4]], [Inflated(StreamEnd, 1, [9])]);
      var (s, answers) := AfterReads(source, 15, [8, 8, 8]);
      answers == [Data([9]), AtEnd, AtEnd] && s.putBack == [2, 3, 4, 2, 3, 4]
  {
    var source := NewSource([[1, 2, 3, 4]], [Inflated(StreamEnd, 1, [9])]);
    var rooms: seq<Room> := [8, 8, 8];
    assert rooms[..2] == [8, 8] && rooms[..2][..1] == [8] && rooms[..1][..0] == [];
    var once := AfterReads(source, 15, [8]);
    assert once.1 == [Data([9])] && once.0.ended && once.0.pending == [2, 3, 4];
    var twice := AfterReads(source, 15, [8, 8]);
    assert twice.1 == [Data([9]), AtEnd] && twice.0 == once.0.(putBack := [2, 3, 4]);
  }

  // --- With the get area --------------------------------------------------------------------

  datatype Move = Peek | Forward | Backward

  /** The calls on the get area, whose answers the source gave, and the source after them. */
  datatype Stream = Stream(calls: seq<Call>, source: Source)

  /** What the moves of a reader come to; None if one of them is not possible. */
  function AfterMoves(a: Area, s: Source, size: nat, moves: seq<Move>): (r: Option<Stream>)
    requires Sane(a)
    ensures r.Some? ==> AfterCalls(a, r.value.calls).Some?
  {
    if moves == [] then Some(Stream([], s))
    else
      var before := AfterMoves(a, s, size, moves[..|moves| - 1]);
      if before.None? then None else OneMove(a, before.value, size, moves[|moves| - 1])
  }

  function OneMove(a: Area, before: Stream, size: nat, move: Move): (r: Option<Stream>)
    requires Sane(a) && AfterCalls(a, before.calls).Some?
    ensures r.Some? ==> AfterCalls(a, r.value.calls).Some?
  {
    var Stream(calls, source) := before;
    var b := AfterCalls(a, calls).value.area;
    match move
    case Peek =>
      if b.gptr < b.egptr || source.failed then Some(before)
      else
        var (source', answer) := AfterRead(source, size, Request(b));
        Then(a, calls, Look(answer));
        Some(Stream(calls + [Look(answer)], source'))
    case Forward => if Possible(b, Next) then Then(a, calls, Next); Some(Stream(calls + [Next], source)) else None
    case Backward => if Possible(b, Back) then Then(a, calls, Back); Some(Stream(calls + [Back], source)) else None
  }

  /** The get area received what inflate made. */
  ghost predicate Fed(a: Area, r: Stream)
    requires Sane(a)
  {
    var c := AfterCalls(a, r.calls);
    c.Some? && InputKept(r.source) && c.value.received == r.source.inflated &&
    c.value.area.failed == r.source.failed
  }

  lemma LookGives(b: Area, answer: Answer)
    requires Sane(b) && b.gptr == b.egptr && !b.failed && Fits(answer, Request(b))
    ensures AfterCall(b, Look(answer)).failed <==> answer.Broken?
    ensures Given(b, Look(answer)) == if answer.Data? then answer.bytes else []
  {
  }

  lemma PeekFeeds(a: Area, before: Stream, size: nat)
    requires Sane(a) && Fed(a, before) && OneMove(a, before, size, Peek).Some?
    ensures Fed(a, OneMove(a, before, size, Peek).value)
  {
    var b := AfterCalls(a, before.calls).value.area;
    if b.gptr == b.egptr && !before.source.failed {
      ReadContinues(before.source, size, Request(b));
      var answer := AfterRead(before.source, size, Request(b)).1;
      hide AfterCalls, AfterRead, AfterCall, Given;
      Then(a, before.calls, Look(answer));
      LookGives(b, answer);
    }
  }

  lemma MoveFeeds(a: Area, before: Stream, size: nat, move: Move)
    requires Sane(a) && Fed(a, before) && OneMove(a, before, size, move).Some?
    ensures Fed(a, OneMove(a, before, size, move).value)
  {
    hide AfterCalls, AfterRead;
    var received := before.source.inflated;
    assert received + [] == received;
    match move {
      case Peek => PeekFeeds(a, before, size);
      case Forward => Then(a, before.calls, Next);
      case Backward => Then(a, before.calls, Back);
    }
  }

  lemma NothingFed(a: Area, s: Source)
    requires Sane(a) && !a.failed && !s.failed && s.inflated == [] && InputKept(s)
    ensures Fed(a, Stream([], s))
  {
  }

  lemma {:induction false} MovesFeed(a: Area, s: Source, size: nat, moves: seq<Move>)
    requires Sane(a) && !a.failed && !s.failed && s.inflated == [] && InputKept(s)
    requires AfterMoves(a, s, size, moves).Some?
    ensures Fed(a, AfterMoves(a, s, size, moves).value)
    ensures Backward !in moves ==> Back !in AfterMoves(a, s, size, moves).value.calls
  {
    hide OneMove, Fed;
    if moves == [] {
      NothingFed(a, s);
    } else {
      MovesFeed(a, s, size, moves[..|moves| - 1]);
      var before := AfterMoves(a, s, size, moves[..|moves| - 1]).value;
      assert moves[|moves| - 1] in moves;
      MoveFeeds(a, before, size, moves[|moves| - 1]);
      OnlyBackwardGoesBack(a, before, size, moves[|moves| - 1]);
    }
  }

  lemma OnlyBackwardGoesBack(a: Area, before: Stream, size: nat, move: Move)
    requires Sane(a) && AfterCalls(a, before.calls).Some? && OneMove(a, before, size, move).Some?
    ensures !move.Backward? && Back !in before.calls ==> Back !in OneMove(a, before, size, move).value.calls
  {
    hide AfterRead, AfterCalls;
  }

  /**
   * Over every run of the whole buffer, whatever the callback and inflate answer: what was read followed by what
   * the get area holds is exactly what inflate made, and what it took followed by what is kept is what the
   * callback gave.
   */
  lemma InflatedIsDelivered(
    room: nat, putback: nat, supplies: seq<seq<Byte>>, inflates: seq<Inflated>, size: nat, moves: seq<Move>)
    requires room > 0 && AfterMoves(Fresh(room, putback), NewSource(supplies, inflates), size, moves).Some?
    ensures var a := Fresh(room, putback);
      var Stream(calls, source) := AfterMoves(a, NewSource(supplies, inflates), size, moves).value;
      var Reading(b, _, read) := AfterCalls(a, calls).value;
      && source.consumed + source.pending == source.got
      && (Backward !in moves ==> read + b.data[b.gptr..b.egptr] == source.inflated)
  {
    var a := Fresh(room, putback);
    var s := NewSource(supplies, inflates);
    MovesFeed(a, s, size, moves);
    var calls := AfterMoves(a, s, size, moves).value.calls;
    if Backward !in moves {
      RunDelivers(a, calls);
    }
    hide AfterCalls, AfterMoves;
  }
}
