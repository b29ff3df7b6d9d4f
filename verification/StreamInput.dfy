/**
 * The get area of the input buffers of El/Apache/Stream.cpp and El/Compress/ZLib.cpp: room for characters to
 * put back, room for characters to read, and a move of the last characters when the end is reached.
 */
module StreamInput {

  import opened Bytes
  import opened Wrappers

  /** One call of the source: data, an end of input, or an error that may have left something in the room. */
  datatype Answer = Data(bytes: seq<Byte>) | AtEnd | Broken(scribbled: seq<Byte>)

  /** The buffer and the three pointers into it, null until set; failed is that there is an error description. */
  datatype Area = Area(
    room: nat, putback: nat, data: seq<Byte>, isSet: bool, eback: nat, gptr: nat, egptr: nat, failed: bool)

  predicate Sane(a: Area) {
    && a.room > 0 && |a.data| == a.room + a.putback
    && a.eback <= a.gptr <= a.egptr <= |a.data|
    && (if a.isSet then a.eback == 0 && a.putback < a.egptr else a.egptr == 0)
  }

  function Over(data: seq<Byte>, at: nat, bytes: seq<Byte>): (d: seq<Byte>)
    requires at + |bytes| <= |data|
    ensures |d| == |data|
  {
    data[..at] + bytes + data[at + |bytes|..]
  }

  /** The data fits into n bytes, and there is some. */
  predicate Fits(answer: Answer, n: nat) {
    match answer
    case Data(bytes) => 0 < |bytes| <= n
    case AtEnd => true
    case Broken(bytes) => |bytes| <= n
  }

  /** Room for one call of the source: behind the data, or the whole room. */
  function Request(a: Area): nat
    requires Sane(a)
  {
    if a.isSet && a.egptr < |a.data| then |a.data| - a.egptr else a.room
  }

  /** read_to_buf. */
  function ReadTo(a: Area, eback: nat, at: nat, answer: Answer): Area
    requires |a.data| == a.room + a.putback && at <= |a.data| && Fits(answer, |a.data| - at)
  {
    match answer
    case Data(bytes) =>
      a.(data := Over(a.data, at, bytes), isSet := true, eback := eback, gptr := at, egptr := at + |bytes|)
    case AtEnd => a
    case Broken(bytes) => a.(data := Over(a.data, at, bytes), failed := true)
  }

  /** The memmove of the last characters to the beginning. */
  function Moved(a: Area): (a': Area)
    requires Sane(a)
    ensures |a'.data| == |a.data|
  {
    a.(data := a.data[a.room..] + a.data[a.putback..])
  }

  /** underflow, if the source is asked at all. */
  function Refilled(a: Area, answer: Answer): Area
    requires Sane(a) && Fits(answer, Request(a)) && a.gptr == a.egptr
  {
    if a.failed then a
    else if a.isSet && a.egptr < |a.data| then ReadTo(a, a.eback, a.gptr, answer)
    else ReadTo(Moved(a), 0, a.putback, answer)
  }

  class InStreamBuf {
    const room: nat
    const putback: nat
    const buffer: array<Byte>
    var isSet: bool
    var gptr: nat
    var egptr: nat
    var failed: bool
    var discarded: bool
    var recvBytes: nat

    ghost predicate Valid()
      reads this, buffer
    {
      Sane(State())
    }

    ghost function State(): Area
      reads this, buffer
    {
      Area(room, putback, buffer[..], isSet, 0, gptr, egptr, failed)
    }

    constructor (room: nat, putback: nat)
      requires room > 0
      ensures Valid() && this.room == room && this.putback == putback
      ensures !isSet && !failed && !discarded && recvBytes == 0
      ensures fresh(buffer)
    {
      this.room, this.putback := room, putback;
      buffer := new Byte[room + putback](i => 0);
      isSet, gptr, egptr, failed, discarded, recvBytes := false, 0, 0, false, false, 0;
    }

    /** The checked construction: a room of no bytes is an invalid argument. */
    static method Create(room: nat, putback: nat) returns (b: InStreamBuf?)
      ensures b == null <==> room == 0
      ensures b != null ==> fresh(b) && b.Valid() && b.room == room && b.putback == putback && !b.isSet && !b.failed
    {
      if room == 0 {
        b := null;
      } else {
        b := new InStreamBuf(room, putback);
      }
    }

    /** ap_get_client_block puts its bytes into the buffer. */
    method Fill(at: nat, bytes: seq<Byte>)
      requires at + |bytes| <= buffer.Length
      modifies buffer
      ensures buffer[..] == Over(old(buffer[..]), at, bytes)
    {
      forall i | 0 <= i < |bytes| {
        buffer[at + i] := bytes[i];
      }
    }

    method ReadToBuf(at: nat, answer: Answer) returns (c: int)
      requires at <= buffer.Length == room + putback && Fits(answer, buffer.Length - at)
      modifies this, buffer
      ensures State() == ReadTo(old(State()), 0, at, answer) && discarded == old(discarded)
      ensures recvBytes == old(recvBytes) + (if answer.Data? then |answer.bytes| else 0)
      ensures c == if answer.Data? then answer.bytes[0] else -1
    {
      match answer {
        case Data(bytes) =>
          Fill(at, bytes);
          recvBytes := recvBytes + |bytes|;
          isSet, gptr, egptr := true, at, at + |bytes|;
          c := buffer[at];
        case AtEnd => c := -1;
        case Broken(scribbled) =>
          Fill(at, scribbled);
          failed := true;
          c := -1;
      }
    }

    /** The memmove; the two places may overlap. */
    method MoveBack()
      requires Valid()
      modifies buffer
      ensures State() == Moved(old(State()))
    {
      forall i | 0 <= i < putback {
        buffer[i] := buffer[i + room];
      }
    }

    /** The next character, or -1; answer is what the source gives if it is asked. */
    method Underflow(answer: Answer) returns (c: int)
      requires Valid() && Fits(answer, Request(State()))
      modifies this, buffer
      ensures Valid() && discarded == old(discarded)
      ensures var a := old(State());
        && State() == (if a.gptr < a.egptr || old(discarded) then a else Refilled(a, answer))
        && c == if a.failed || discarded then -1
                else if a.gptr < a.egptr then a.data[a.gptr]
                else if answer.Data? then answer.bytes[0]
                else -1
    {
      if failed || discarded {
        return -1;
      }
      if gptr < egptr {
        return buffer[gptr];
      }
      if isSet && egptr < buffer.Length {
        c := ReadToBuf(gptr, answer);
        return;
      }
      MoveBack();
      c := ReadToBuf(putback, answer);
    }

    /** From now on underflow gives -1 and changes nothing. */
    method Discard()
      modifies this`discarded
      ensures discarded && State() == old(State())
    {
      discarded := true;
    }
  }

  // --- Delivery -----------------------------------------------------------------------------

  /** What the reader of the stream does: look, which refills if need be, and go on or back by one character. */
  datatype Call = Look(answer: Answer) | Next | Back

  predicate Possible(a: Area, call: Call)
    requires Sane(a)
  {
    match call
    case Look(answer) => a.gptr < a.egptr || Fits(answer, Request(a))
    case Next => a.gptr < a.egptr
    case Back => a.eback < a.gptr
  }

  function AfterCall(a: Area, call: Call): Area
    requires Sane(a) && Possible(a, call)
  {
    match call
    case Look(answer) => if a.gptr < a.egptr then a else Refilled(a, answer)
    case Next => a.(gptr := a.gptr + 1)
    case Back => a.(gptr := a.gptr - 1)
  }

  /** The bytes that the source gives in a call. */
  function Given(a: Area, call: Call): seq<Byte> {
    if call.Look? && a.gptr == a.egptr && !a.failed && call.answer.Data? then call.answer.bytes else []
  }

  lemma CallKeepsSane(a: Area, call: Call)
    requires Sane(a) && Possible(a, call)
    ensures Sane(AfterCall(a, call))
  {
  }

  /** The characters that can be read now are the last ones received. */
  ghost predicate Delivers(a: Area, received: seq<Byte>, taken: seq<Byte>)
    requires Sane(a)
  {
    taken + a.data[a.gptr..a.egptr] == received
  }

  /** The character that is read in a call. */
  function Read(a: Area, call: Call): seq<Byte>
    requires Sane(a) && Possible(a, call)
  {
    if call.Next? then [a.data[a.gptr]] else []
  }

  lemma ForwardsDelivers(a: Area, received: seq<Byte>, taken: seq<Byte>, call: Call)
    requires Sane(a) && Possible(a, call) && !call.Back? && Delivers(a, received, taken)
    ensures Sane(AfterCall(a, call))
    ensures Delivers(AfterCall(a, call), received + Given(a, call), taken + Read(a, call))
  {
    var a' := AfterCall(a, call);
    if call.Next? {
      assert a.data[a.gptr..a.egptr] == [a.data[a.gptr]] + a.data[a.gptr + 1..a.egptr];
    } else {
      assert Given(a, call) != [] ==> a'.data[a'.gptr..a'.egptr] == Given(a, call);
    }
  }

  /** An end of input is not final: data that comes later is received. */
  lemma EndIsNotFinal(a: Area, bytes: seq<Byte>)
    requires Sane(a) && a.gptr == a.egptr && !a.failed && Fits(Data(bytes), Request(a))
    ensures var a' := AfterCall(a, Look(AtEnd));
      && Sane(a') && a'.gptr == a'.egptr && !a'.failed && Fits(Data(bytes), Request(a'))
      && Given(a', Look(Data(bytes))) == bytes
  {
  }

  /** An error is final: nothing more is received, but the characters there are can still be read. */
  lemma ErrorIsFinal(a: Area, call: Call)
    requires Sane(a) && a.failed && Possible(a, call)
    ensures Given(a, call) == [] && AfterCall(a, call).failed && AfterCall(a, call).data == a.data
    ensures AfterCall(a, call).egptr == a.egptr
  {
  }

  // --- The putback window -------------------------------------------------------------------

  /** The last characters received, as far as the limit goes, stand before the end of the get area. */
  ghost predicate Window(a: Area, received: seq<Byte>, limit: nat)
    requires Sane(a)
  {
    && (!a.isSet ==> received == [])
    && forall i :: 0 <= i < a.egptr && a.egptr - i <= |received| && a.egptr - i <= limit ==>
         a.data[i] == received[|received| - (a.egptr - i)]
  }

  /** The source is asked after a move, so the old characters are gone if it gives none. */
  predicate Wraps(a: Area)
    requires Sane(a)
  {
    !a.isSet || a.egptr == |a.data|
  }

  lemma DataKeepsWindow(a: Area, received: seq<Byte>, bytes: seq<Byte>, limit: nat)
    requires Sane(a) && a.gptr == a.egptr && !a.failed && Fits(Data(bytes), Request(a)) && Window(a, received, limit)
    ensures Sane(Refilled(a, Data(bytes))) && Window(Refilled(a, Data(bytes)), received + bytes, limit)
  {
    var a' := Refilled(a, Data(bytes));
    var received' := received + bytes;
    var shift := if Wraps(a) then a.room else 0;
    assert forall i :: 0 <= i < a'.gptr ==> a'.data[i] == a.data[i + shift];
    assert forall i :: a'.gptr <= i < a'.egptr ==> a'.data[i] == bytes[i - a'.gptr];
    hide Refilled, Request;
    forall i | 0 <= i < a'.egptr && a'.egptr - i <= |received'| && a'.egptr - i <= limit
      ensures a'.data[i] == received'[|received'| - (a'.egptr - i)]
    {
      if i < a'.gptr && a.isSet {
        assert a.data[i + shift] == received[|received| - (a.egptr - (i + shift))];
      }
    }
  }

  /** An end, or an error that leaves at most so many bytes in the room, does not touch the window. */
  predicate Spares(a: Area, limit: nat, scribbled: nat) {
    limit == 0 || limit + scribbled <= a.room || (scribbled == 0 && a.putback == 0)
  }

  /** Only an end or an error that is met after a move of the characters can touch the window. */
  predicate Harmless(a: Area, call: Call, limit: nat)
    requires Sane(a)
  {
    call.Look? && a.gptr == a.egptr == |a.data| && a.isSet && !a.failed ==>
      match call.answer
      case Data(_) => true
      case AtEnd => Spares(a, limit, 0)
      case Broken(scribbled) => Spares(a, limit, |scribbled|)
  }

  lemma SameWindow(a: Area, a': Area, received: seq<Byte>, limit: nat)
    requires Sane(a) && Sane(a') && Window(a, received, limit) && a'.egptr == a.egptr && a'.isSet == a.isSet
    requires forall i :: 0 <= i < a.egptr && a.egptr - i <= limit ==> a'.data[i] == a.data[i]
    ensures Window(a', received, limit)
  {
  }

  lemma EndKeepsWindow(a: Area, received: seq<Byte>, limit: nat)
    requires Sane(a) && a.gptr == a.egptr && !a.failed && Window(a, received, limit)
    requires Harmless(a, Look(AtEnd), limit)
    ensures Sane(Refilled(a, AtEnd)) && Window(Refilled(a, AtEnd), received, limit)
  {
    hide Window;
    SameWindow(a, Refilled(a, AtEnd), received, limit);
  }

  lemma ErrorKeepsWindow(a: Area, received: seq<Byte>, scribbled: seq<Byte>, limit: nat)
    requires Sane(a) && a.gptr == a.egptr && !a.failed && Fits(Broken(scribbled), Request(a))
    requires Window(a, received, limit) && Harmless(a, Look(Broken(scribbled)), limit)
    ensures Sane(Refilled(a, Broken(scribbled))) && Window(Refilled(a, Broken(scribbled)), received, limit)
  {
    hide Window;
    var a' := Refilled(a, Broken(scribbled));
    if a.isSet && a.egptr < |a.data| {
      assert forall i :: 0 <= i < a.egptr ==> a'.data[i] == a.data[i];
    } else {
      assert forall i :: a.putback + |scribbled| <= i < |a.data| ==> a'.data[i] == a.data[i];
    }
    SameWindow(a, a', received, limit);
  }

  /** Going back inside the window gives the characters again in reverse order. */
  lemma BackGivesAgain(a: Area, received: seq<Byte>, limit: nat)
    requires Sane(a) && Window(a, received, limit) && Possible(a, Back)
    requires a.egptr - a.gptr < limit && a.egptr - a.gptr < |received|
    ensures var a' := AfterCall(a, Back);
      a'.data[a'.gptr] == received[|received| - (a.egptr - a.gptr) - 1]
  {
    assert a.data[a.gptr - 1] == received[|received| - (a.egptr - (a.gptr - 1))];
  }

  // --- Runs ---------------------------------------------------------------------------------

  /** The area, all that was received, and all that was read. */
  datatype Reading = Reading(area: Area, received: seq<Byte>, read: seq<Byte>)

  /** What the calls make of it; None if one of them is not possible. */
  function AfterCalls(a: Area, calls: seq<Call>): (r: Option<Reading>)
    requires Sane(a)
    ensures r.Some? ==> Sane(r.value.area)
  {
    if calls == [] then Some(Reading(a, [], []))
    else
      var before := AfterCalls(a, calls[..|calls| - 1]);
      var call := calls[|calls| - 1];
      if before.None? || !Possible(before.value.area, call) then None
      else
        CallKeepsSane(before.value.area, call);
        var Reading(b, received, read) := before.value;
        Some(Reading(AfterCall(b, call), received + Given(b, call), read + Read(b, call)))
  }

  /** Reading forwards gives exactly what the source gave, in order, whatever ends or errors come in between. */
  lemma {:induction false} RunDelivers(a: Area, calls: seq<Call>)
    requires Sane(a) && !a.isSet && AfterCalls(a, calls).Some? && Back !in calls
    ensures var Reading(a', received, read) := AfterCalls(a, calls).value; Delivers(a', received, read)
  {
    if calls == [] {
      assert a.data[a.gptr..a.egptr] == [];
    } else {
      var last := |calls| - 1;
      assert calls[last] in calls;
      RunDelivers(a, calls[..last]);
      var Reading(b, received, read) := AfterCalls(a, calls[..last]).value;
      ForwardsDelivers(b, received, read, calls[last]);
    }
    hide Delivers, AfterCall, Given, Read;
  }

  /** How far the steps on exceed the steps back. */
  function Position(calls: seq<Call>): int {
    if calls == [] then 0
    else
      Position(calls[..|calls| - 1]) + match calls[|calls| - 1] case Look(_) => 0 case Next => 1 case Back => -1
  }

  /** The get pointer stands at the position among all that was received. */
  lemma {:induction false} PositionIsReceived(a: Area, calls: seq<Call>)
    requires Sane(a) && !a.isSet && AfterCalls(a, calls).Some?
    ensures var r := AfterCalls(a, calls).value; |r.received| - (r.area.egptr - r.area.gptr) == Position(calls)
  {
    if calls == [] {
      assert a.egptr == 0;
    } else {
      PositionIsReceived(a, calls[..|calls| - 1]);
    }
  }

  ghost predicate HarmlessRun(a: Area, calls: seq<Call>, limit: nat)
    requires Sane(a)
  {
    calls == [] ||
    var before := AfterCalls(a, calls[..|calls| - 1]);
    && HarmlessRun(a, calls[..|calls| - 1], limit)
    && (before.Some? ==> Harmless(before.value.area, calls[|calls| - 1], limit))
  }

  /** As long as the source gives data, every limit is kept. */
  lemma {:induction false} DataRunIsHarmless(a: Area, calls: seq<Call>, limit: nat)
    requires Sane(a) && forall call :: call in calls && call.Look? ==> call.answer.Data?
    ensures HarmlessRun(a, calls, limit)
  {
    if calls == [] {
    } else {
      assert calls[|calls| - 1] in calls;
      DataRunIsHarmless(a, calls[..|calls| - 1], limit);
    }
    hide AfterCalls;
  }

  lemma CallKeepsWindow(a: Area, received: seq<Byte>, call: Call, limit: nat)
    requires Sane(a) && Possible(a, call) && Window(a, received, limit) && Harmless(a, call, limit)
    ensures var a' := AfterCall(a, call);
      Sane(a') && Window(a', received + Given(a, call), limit) && a'.room == a.room && a'.putback == a.putback
  {
    assert received + [] == received;
    CallKeepsSane(a, call);
    if call.Look? && a.gptr == a.egptr && !a.failed {
      hide Harmless;
      match call.answer {
        case Data(bytes) => DataKeepsWindow(a, received, bytes, limit);
        case AtEnd => EndKeepsWindow(a, received, limit);
        case Broken(scribbled) => ErrorKeepsWindow(a, received, scribbled, limit);
      }
      hide Window;
    } else {
      var a' := AfterCall(a, call);
      assert a'.data == a.data && a'.egptr == a.egptr;
    }
  }

  lemma {:induction false} RunKeepsWindow(a: Area, calls: seq<Call>, limit: nat)
    requires Sane(a) && !a.isSet && AfterCalls(a, calls).Some? && HarmlessRun(a, calls, limit)
    ensures var r := AfterCalls(a, calls).value;
      Window(r.area, r.received, limit) && r.area.room == a.room && r.area.putback == a.putback
  {
    if calls == [] {
      assert a.egptr == 0;
    } else {
      RunKeepsWindow(a, calls[..|calls| - 1], limit);
      var before := AfterCalls(a, calls[..|calls| - 1]).value;
      var call := calls[|calls| - 1];
      hide AfterCall, Window, Given, Possible, Harmless;
      CallKeepsWindow(before.area, before.received, call, limit);
    }
  }

  /** Over every run, reading on and stepping back inside the window: the next character is the one at the position. */
  lemma RunReadsReceived(a: Area, calls: seq<Call>, limit: nat)
    requires Sane(a) && !a.isSet && AfterCalls(a, calls).Some? && HarmlessRun(a, calls, limit)
    ensures var Reading(a', received, _) := AfterCalls(a, calls).value;
      a'.gptr < a'.egptr && a'.egptr - a'.gptr <= limit && 0 <= Position(calls) ==>
        Position(calls) < |received| && a'.data[a'.gptr] == received[Position(calls)]
  {
    RunKeepsWindow(a, calls, limit);
    PositionIsReceived(a, calls);
    hide AfterCalls, HarmlessRun;
  }

  // --- Before the first character -----------------------------------------------------------

  ghost predicate Within(s: seq<Byte>, t: seq<Byte>) {
    forall i :: 0 <= i < |s| ==> s[i] in t
  }

  /** In front of all that was received stand characters that the buffer had at the beginning. */
  ghost predicate Preceded(a: Area, before: seq<Byte>, received: seq<Byte>, initial: seq<Byte>, limit: nat)
    requires Sane(a)
  {
    if a.isSet then
      |before| == a.putback && Within(before, initial) && a.egptr <= |before + received| &&
      Window(a, before + received, limit)
    else received == [] && (!a.failed ==> Within(a.data, initial))
  }

  /** The first characters are put behind the room for those to put back. */
  lemma FirstData(a: Area, bytes: seq<Byte>)
    requires Sane(a) && !a.isSet && !a.failed && Fits(Data(bytes), Request(a))
    ensures var a' := AfterCall(a, Look(Data(bytes)));
      && a'.isSet && a'.putback == a.putback && a'.egptr == a.putback + |bytes|
      && |a'.data| == |a.data| && a'.data[..a'.egptr] == a.data[a.room..] + bytes
  {
    assert Moved(a).data[..a.putback] == a.data[a.room..];
  }

  lemma LookUnset(a: Area, answer: Answer, initial: seq<Byte>, limit: nat) returns (before: seq<Byte>)
    requires Sane(a) && !a.isSet && (!a.failed ==> Within(a.data, initial)) && Fits(answer, Request(a))
    ensures Sane(AfterCall(a, Look(answer)))
    ensures Preceded(AfterCall(a, Look(answer)), before, Given(a, Look(answer)), initial, limit)
  {
    before := a.data[a.room..];
    CallKeepsSane(a, Look(answer));
    if !a.failed && answer.Data? {
      FirstData(a, answer.bytes);
      hide AfterCall, Sane;
      var a' := AfterCall(a, Look(answer));
      assert forall i :: 0 <= i < a.putback ==> before[i] == a.data[a.room + i];
      assert forall i :: 0 <= i < a'.egptr ==> a'.data[i] == a'.data[..a'.egptr][i];
    }
  }

  lemma CallPrecedes(
    a: Area, before: seq<Byte>, received: seq<Byte>, initial: seq<Byte>, call: Call, limit: nat) returns (b: seq<Byte>)
    requires Sane(a) && Possible(a, call) && Harmless(a, call, limit) && Preceded(a, before, received, initial, limit)
    ensures Sane(AfterCall(a, call)) && Preceded(AfterCall(a, call), b, received + Given(a, call), initial, limit)
  {
    CallKeepsSane(a, call);
    if a.isSet {
      b := before;
      CallKeepsWindow(a, before + received, call, limit);
      assert before + received + Given(a, call) == before + (received + Given(a, call));
      hide Window, Harmless, Moved;
    } else {
      assert received + Given(a, call) == Given(a, call);
      if call.Look? {
        b := LookUnset(a, call.answer, initial, limit);
      }
    }
  }

  lemma {:induction false} RunPrecedes(a: Area, calls: seq<Call>, limit: nat) returns (before: seq<Byte>)
    requires Sane(a) && !a.isSet && AfterCalls(a, calls).Some? && HarmlessRun(a, calls, limit)
    ensures Preceded(AfterCalls(a, calls).value.area, before, AfterCalls(a, calls).value.received, a.data, limit)
  {
    if calls == [] {
      before := [];
    } else {
      var last := |calls| - 1;
      before := RunPrecedes(a, calls[..last], limit);
      var r := AfterCalls(a, calls[..last]).value;
      hide AfterCall, Given, Possible, Harmless, Preceded;
      before := CallPrecedes(r.area, before, r.received, a.data, calls[last], limit);
    }
  }

  /**
   * Over every run, inside the window: the next character is the one at the position, and stepped back beyond
   * the first one it is a character that the new buffer had.  So it is one that was sent exactly if the position
   * is not negative, unless the new buffer happens to have what is sent later.
   */
  lemma NextCharacterIs(a: Area, calls: seq<Call>, limit: nat)
    requires Sane(a) && !a.isSet && AfterCalls(a, calls).Some? && HarmlessRun(a, calls, limit)
    requires var a' := AfterCalls(a, calls).value.area; a'.gptr < a'.egptr && a'.egptr - a'.gptr <= limit
    ensures var Reading(a', received, _) := AfterCalls(a, calls).value;
      var next, position := a'.data[a'.gptr], Position(calls);
      && (0 <= position ==> position < |received| && next == received[position])
      && (position < 0 ==> next in a.data)
      && ((forall c :: c in a.data ==> c !in received) ==> (next in received <==> 0 <= position))
  {
    hide AfterCalls, HarmlessRun, Position;
    RunReadsReceived(a, calls, limit);
    PositionIsReceived(a, calls);
    var before := RunPrecedes(a, calls, limit);
    var Reading(a', received, _) := AfterCalls(a, calls).value;
    PrecededNext(a', before, received, a.data, limit);
  }

  lemma PrecededNext(a: Area, before: seq<Byte>, received: seq<Byte>, initial: seq<Byte>, limit: nat)
    requires Sane(a) && Preceded(a, before, received, initial, limit) && a.gptr < a.egptr && a.egptr - a.gptr <= limit
    ensures a.egptr - a.gptr > |received| ==> a.data[a.gptr] in initial
  {
    var all := before + received;
    assert a.data[a.gptr] == all[|all| - (a.egptr - a.gptr)];
  }

  // --- Runs that spoil the window -----------------------------------------------------------

  /** Errors leave no more than so many bytes in the room. */
  predicate Scribbles(call: Call, n: nat) {
    call.Look? && call.answer.Broken? ==> |call.answer.scribbled| <= n
  }

  lemma CallKeepsSizes(a: Area, call: Call)
    requires Sane(a) && Possible(a, call)
    ensures AfterCall(a, call).room == a.room && AfterCall(a, call).putback == a.putback
  {
  }

  lemma {:induction false} SparedRunIsHarmless(a: Area, calls: seq<Call>, limit: nat, n: nat)
    requires Sane(a) && Spares(a, limit, n) && forall call :: call in calls ==> Scribbles(call, n)
    ensures HarmlessRun(a, calls, limit)
    ensures AfterCalls(a, calls).Some? ==>
      AfterCalls(a, calls).value.area.room == a.room && AfterCalls(a, calls).value.area.putback == a.putback
  {
    if calls == [] {
    } else {
      assert calls[|calls| - 1] in calls;
      SparedRunIsHarmless(a, calls[..|calls| - 1], limit, n);
      var before := AfterCalls(a, calls[..|calls| - 1]);
      if AfterCalls(a, calls).Some? {
        CallKeepsSizes(before.value.area, calls[|calls| - 1]);
      }
      hide AfterCall, Possible, Given, Read;
    }
  }

  /** What the constructor makes. */
  function Fresh(room: nat, putback: nat): (a: Area)
    requires room > 0
    ensures Sane(a) && !a.isSet
  {
    Area(room, putback, seq(room + putback, i => 0), false, 0, 0, 0, false)
  }

  function Same(b: Byte, n: nat): (s: seq<Byte>)
    ensures |s| == n && forall i :: 0 <= i < n ==> s[i] == b
  {
    seq(n, i => b)
  }

  lemma Then(a: Area, calls: seq<Call>, call: Call)
    requires Sane(a) && AfterCalls(a, calls).Some?
    requires Possible(AfterCalls(a, calls).value.area, call)
    ensures var r, r' := AfterCalls(a, calls).value, AfterCalls(a, calls + [call]);
      r'.Some? && r'.value.area == AfterCall(r.area, call) && r'.value.received == r.received + Given(r.area, call)
  {
    assert (calls + [call])[..|calls|] == calls;
  }

  /** So many steps on. */
  lemma {:induction false} ReadOn(a: Area, calls: seq<Call>, n: nat)
    requires Sane(a) && AfterCalls(a, calls).Some?
    requires var b := AfterCalls(a, calls).value.area; b.gptr + n <= b.egptr
    ensures var r, r' := AfterCalls(a, calls).value, AfterCalls(a, calls + seq(n, i => Next));
      r'.Some? && r'.value.area == r.area.(gptr := r.area.gptr + n) && r'.value.received == r.received
  {
    hide AfterCalls, Sane;
    if n == 0 {
      assert calls + seq(n, i => Next) == calls;
    } else {
      ReadOn(a, calls, n - 1);
      assert calls + seq(n, i => Next) == calls + seq(n - 1, i => Next) + [Next];
      Then(a, calls + seq(n - 1, i => Next), Next);
      assert AfterCalls(a, calls).value.received + [] == AfterCalls(a, calls).value.received;
    }
  }

  lemma Filled(b: Area, c: Byte)
    requires Sane(b) && Wraps(b) && b.gptr == b.egptr && !b.failed
    ensures Possible(b, Look(Data(Same(c, b.room)))) && Given(b, Look(Data(Same(c, b.room)))) == Same(c, b.room)
    ensures AfterCall(b, Look(Data(Same(c, b.room)))) == b.(
      data := b.data[b.room..] + Same(c, b.room), isSet := true, gptr := b.putback, egptr := |b.data|, eback := 0)
  {
  }

  /** The room is filled with one character and read; then the room is used up. */
  lemma FilledAndRead(a: Area, calls: seq<Call>, c: Byte) returns (calls': seq<Call>)
    requires Sane(a) && AfterCalls(a, calls).Some?
    requires var b := AfterCalls(a, calls).value.area; Wraps(b) && b.gptr == b.egptr && !b.failed
    requires forall call :: call in calls ==> Scribbles(call, 0)
    ensures AfterCalls(a, calls').Some? && forall call :: call in calls' ==> Scribbles(call, 0)
    ensures var r, r' := AfterCalls(a, calls).value, AfterCalls(a, calls').value;
      && r'.area == r.area.(data := r.area.data[r.area.room..] + Same(c, r.area.room), isSet := true,
                            gptr := |r.area.data|, egptr := |r.area.data|, eback := 0)
      && r'.received == r.received + Same(c, r.area.room)
  {
    var b := AfterCalls(a, calls).value.area;
    var look := Look(Data(Same(c, b.room)));
    calls' := calls + [look] + seq(b.room, i => Next);
    Filled(b, c);
    hide AfterCalls, AfterCall, Sane;
    Then(a, calls, look);
    ReadOn(a, calls + [look], b.room);
  }

  ghost predicate KeptIn(a: Area, calls: seq<Call>, limit: nat, n: nat)
    requires Sane(a)
  {
    (forall call :: call in calls ==> Scribbles(call, n)) ==>
      match AfterCalls(a, calls)
      case None => true
      case Some(r) => Window(r.area, r.received, limit)
  }

  /** A place where the window after one more call differs from what was received. */
  lemma SpoiltAt(a: Area, calls: seq<Call>, call: Call, limit: nat, n: nat, i: nat)
    requires Sane(a) && AfterCalls(a, calls).Some? && Possible(AfterCalls(a, calls).value.area, call)
    requires Scribbles(call, n) && forall c :: c in calls ==> Scribbles(c, n)
    requires var Reading(b, received, _) := AfterCalls(a, calls).value;
      && b.gptr == b.egptr && call.Look? && !call.answer.Data?
      && Sane(Refilled(b, call.answer)) && Refilled(b, call.answer).egptr == b.egptr
      && i < b.egptr && b.egptr - i <= |received| && b.egptr - i <= limit
      && Refilled(b, call.answer).data[i] != received[|received| - (b.egptr - i)]
    ensures !KeptIn(a, calls + [call], limit, n)
  {
    Then(a, calls, call);
    hide AfterCalls, Refilled, Scribbles;
  }

  /** What a refill without data leaves after the room was used up. */
  lemma RefilledWithout(b: Area, scribbled: seq<Byte>)
    requires Sane(b) && b.isSet && b.gptr == b.egptr == |b.data| && !b.failed && |scribbled| <= b.room
    ensures Sane(Refilled(b, AtEnd)) && Refilled(b, AtEnd).egptr == b.egptr
    ensures forall i :: 0 <= i < b.putback ==> Refilled(b, AtEnd).data[i] == b.data[b.room..][i]
    ensures Sane(Refilled(b, Broken(scribbled))) && Refilled(b, Broken(scribbled)).egptr == b.egptr
    ensures forall i :: 0 <= i < |scribbled| ==> Refilled(b, Broken(scribbled)).data[b.putback + i] == scribbled[i]
  {
  }

  /** More than one room of characters is received, and then the end is asked for: the move takes place once more. */
  lemma EndSpoilsWindow(room: nat, putback: nat, limit: nat) returns (calls: seq<Call>)
    requires 0 < room < limit && putback > 0
    ensures !KeptIn(Fresh(room, putback), calls, limit, 0)
  {
    var a := Fresh(room, putback);
    var once := FilledAndRead(a, [], 0);
    var twice := FilledAndRead(a, once, 1);
    calls := twice + [Look(AtEnd)];
    var b, received := AfterCalls(a, twice).value.area, AfterCalls(a, twice).value.received;
    assert received == Same(0, room) + Same(1, room);
    assert |b.data| == putback + room && b.data[putback..] == Same(1, room);
    assert b.data[putback - 1 + room] == b.data[putback..][room - 1] == 1;
    assert received[|received| - (room + 1)] == 0;
    hide AfterCalls, Refilled;
    RefilledWithout(b, []);
    SpoiltAt(a, twice, Look(AtEnd), limit, 0, putback - 1);
  }

  /** An error after a full room, which leaves something in the room. */
  lemma ErrorSpoilsWindow(room: nat, putback: nat, limit: nat, n: nat) returns (calls: seq<Call>)
    requires 0 < room < limit + n && 0 < limit && 0 < n
    ensures !KeptIn(Fresh(room, putback), calls, limit, n)
  {
    var a := Fresh(room, putback);
    var once := FilledAndRead(a, [], 0);
    var scribbled := Same(1, if n < room then n else room);
    calls := once + [Look(Broken(scribbled))];
    var b, received := AfterCalls(a, once).value.area, AfterCalls(a, once).value.received;
    assert received == Same(0, room);
    hide AfterCalls, Refilled;
    RefilledWithout(b, scribbled);
    SpoiltAt(a, once, Look(Broken(scribbled)), limit, n, putback + |scribbled| - 1);
  }

  /**
   * In all runs whose errors leave at most n bytes in the room, the last characters received up to the limit can
   * be put back, if and only if the limit and n together are no more than what is read at once, or nothing can
   * be put back and errors leave nothing.
   */
  lemma WindowKeptExactlyWhen(room: nat, putback: nat, limit: nat, n: nat)
    requires room > 0
    ensures (forall calls :: KeptIn(Fresh(room, putback), calls, limit, n)) <==>
      limit == 0 || limit + n <= room || (n == 0 && putback == 0)
  {
    var a := Fresh(room, putback);
    if Spares(a, limit, n) {
      forall calls
        ensures KeptIn(a, calls, limit, n)
      {
        if AfterCalls(a, calls).Some? && forall call :: call in calls ==> Scribbles(call, n) {
          SparedRunIsHarmless(a, calls, limit, n);
          RunKeepsWindow(a, calls, limit);
        }
      }
    } else if n > 0 {
      var calls := ErrorSpoilsWindow(room, putback, limit, n);
    } else {
      var calls := EndSpoilsWindow(room, putback, limit);
    }
    hide KeptIn;
  }

  /** One character is received, and a step back finds one that nobody sent. */
  lemma BackBeforeTheFirst(room: nat, putback: nat)
    requires room > 0 && putback > 0
    ensures var calls := [Look(Data([1])), Back];
      var r := AfterCalls(Fresh(room, putback), calls);
      && r.Some? && r.value.received == [1] && Position(calls) == -1
      && r.value.area.gptr < r.value.area.egptr && r.value.area.data[r.value.area.gptr] == 0
  {
    var a := Fresh(room, putback);
    var look := Look(Data([1]));
    assert AfterCalls(a, []) == Some(Reading(a, [], []));
    Then(a, [], look);
    assert [look, Back][..1] == [] + [look] == [look] && [look][..0] == [];
    var b := AfterCall(a, look);
    assert b.data[putback - 1] == a.data[room + putback - 1] == 0;
    assert Position([look]) == 0;
    Then(a, [look], Back);
    assert [look] + [Back] == [look, Back];
  }
}
