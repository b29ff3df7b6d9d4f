/** The output buffer of El/Apache/Stream.cpp, whose writes may be accepted in part. */
module ApacheOutput {

  import opened Bytes

  /** What ap_rwrite answers, call by call; an answer above the request means all of it. */
  type Script = nat -> int

  /**
   * held are the bytes before the put pointer; the first sent of them were accepted by a sync that failed
   * later.  started is whether the put pointer was ever set, failed whether there is an error description;
   * calls counts the calls of ap_rwrite.
   */
  datatype Stream = Stream(started: bool, failed: bool, held: seq<Byte>, sent: nat, accepted: seq<Byte>, calls: nat)

  const NEW_STREAM := Stream(false, false, [], 0, [], 0)

  function Answer(script: Script, call: nat, request: nat): (n: int)
    ensures n <= request
  {
    if script(call) > request then request else script(call)
  }

  predicate Sane(s: Stream) {
    s.sent <= |s.held| && (!s.failed ==> s.sent == 0) && (!s.started ==> s.held == [] && !s.failed)
  }

  /** The bytes taken that nobody has accepted. */
  function Pending(s: Stream): seq<Byte>
    requires s.sent <= |s.held|
  {
    s.held[s.sent..]
  }

  /** One ap_rwrite of all that is pending. */
  function Written(s: Stream, script: Script): (s': Stream)
    requires s.sent < |s.held|
    ensures s'.held == s.held && s.sent <= s'.sent <= |s.held| && s'.started == s.started
    ensures s'.accepted + Pending(s') == s.accepted + Pending(s)
    ensures !s'.failed ==> s'.sent > s.sent
  {
    var n := Answer(script, s.calls, |s.held| - s.sent);
    if n <= 0 then s.(failed := true, calls := s.calls + 1)
    else
      assert s.held[s.sent..s.sent + n] + s.held[s.sent + n..] == s.held[s.sent..];
      s.(accepted := s.accepted + s.held[s.sent..s.sent + n], sent := s.sent + n, calls := s.calls + 1)
  }

  /** sputc, which calls overflow for the first character and whenever the buffer is full; false is an end of file. */
  function AfterPut(s: Stream, size: nat, script: Script, c: Byte): (Stream, bool)
    requires Sane(s) && size > 0
  {
    if s.started && |s.held| < size then (s.(held := s.held + [c]), true)
    else if s.failed then (s, false)
    else if !s.started then (s.(started := true, held := [c]), true)
    else
      var s' := Written(s, script);
      if s'.failed then (s', false) else (s'.(held := Pending(s') + [c], sent := 0), true)
  }

  /** The loop of sync. */
  function Drained(s: Stream, script: Script): (s': Stream)
    requires s.sent <= |s.held|
    ensures s'.held == s.held && s'.sent <= |s.held| && s'.started == s.started
    ensures s'.accepted + Pending(s') == s.accepted + Pending(s)
    ensures s'.failed || s'.sent == |s.held|
    decreases |s.held| - s.sent
  {
    if s.sent == |s.held| || s.failed then s
    else
      var s' := Written(s, script);
      if s'.failed then s' else Drained(s', script)
  }

  /** sync, and whether it returns zero. */
  function AfterSync(s: Stream, script: Script): (Stream, bool)
    requires Sane(s)
  {
    if s.failed || !s.started then (s, false)
    else
      var s' := Drained(s, script);
      if s'.failed then (s', false) else (s'.(held := [], sent := 0), true)
  }

  // --- The class ----------------------------------------------------------------------------

  class OutStreamBuf {
    const script: Script
    const buffer: array<Byte>
    var started: bool
    var put: nat
    var failed: bool
    var sendBytes: nat
    var calls: nat
    var accepted: seq<Byte>
    ghost var sent: nat

    ghost predicate Valid()
      reads this, buffer
    {
      && buffer.Length > 0 && put <= buffer.Length && (!started ==> put == 0)
      && sendBytes == |accepted| && Sane(State())
    }

    ghost function State(): Stream
      reads this, buffer
    {
      Stream(started, failed, if put <= buffer.Length then buffer[..put] else [], sent, accepted, calls)
    }

    constructor (size: nat, script: Script)
      requires size > 0
      ensures Valid() && State() == NEW_STREAM && buffer.Length == size && this.script == script && fresh(buffer)
    {
      buffer := new Byte[size](i => 0);
      this.script := script;
      started, put, failed, sendBytes, calls, accepted, sent := false, 0, false, 0, 0, [], 0;
    }

    /** The checked construction: a buffer of no bytes is an invalid argument. */
    static method Create(size: nat, script: Script) returns (b: OutStreamBuf?)
      ensures b == null <==> size == 0
      ensures b != null ==> fresh(b) && b.Valid() && b.State() == NEW_STREAM && b.buffer.Length == size
    {
      if size == 0 {
        b := null;
      } else {
        b := new OutStreamBuf(size, script);
      }
    }

    /** ap_rwrite from a place in the buffer. */
    method Send(from: nat) returns (n: int)
      requires from == sent < put <= buffer.Length && sendBytes == |accepted|
      modifies this`calls, this`accepted, this`sendBytes, this`failed, this`sent
      ensures State() == Written(old(State()), script) && sendBytes == |accepted|
      ensures n <= put - from
      ensures if n > 0 then failed == old(failed) && sent == from + n else failed && sent == from
    {
      n := if script(calls) > put - from then put - from else script(calls);
      calls := calls + 1;
      if n <= 0 {
        failed := true;
      } else {
        assert buffer[..put][from..from + n] == buffer[from..from + n];
        accepted := accepted + buffer[from..from + n];
        sendBytes := sendBytes + n;
        sent := sent + n;
      }
    }

    /** The memmove of a full buffer, and the character after what is left. */
    method Compact(n: nat, c: Byte)
      requires 0 < n <= buffer.Length
      modifies this`put, buffer
      ensures put == buffer.Length - n + 1 && buffer[..put] == old(buffer[n..]) + [c]
    {
      var left := buffer.Length - n;
      forall i | 0 <= i < left {
        buffer[i] := buffer[i + n];
      }
      buffer[left] := c;
      put := left + 1;
    }

    method Overflow(c: Byte) returns (ok: bool)
      requires Valid() && (started ==> put == buffer.Length)
      modifies this, buffer
      ensures Valid() && (State(), ok) == AfterPut(old(State()), buffer.Length, script, c)
    {
      if failed {
        return false;
      }
      if !started {
        buffer[0] := c;
        started, put := true, 1;
        assert buffer[..1] == [c];
        return true;
      }
      hide Answer;
      var n := Send(0);
      if n <= 0 {
        return false;
      }
      assert Pending(State()) == buffer[n..];
      Compact(n, c);
      sent := 0;
      ok := true;
    }

    /** sputc. */
    method Put(c: Byte) returns (ok: bool)
      requires Valid()
      modifies this, buffer
      ensures Valid() && (State(), ok) == AfterPut(old(State()), buffer.Length, script, c)
    {
      if started && put < buffer.Length {
        ghost var held := buffer[..put];
        buffer[put] := c;
        put := put + 1;
        assert buffer[..put] == held + [c];
        ok := true;
      } else {
        ok := Overflow(c);
      }
    }

    method Sync() returns (result: int)
      requires Valid()
      modifies this
      ensures Valid() && (State(), result == 0) == AfterSync(old(State()), script) && (result == 0 || result == -1)
    {
      if failed || !started {
        return -1;
      }
      var ptr := 0;
      hide Written;
      while ptr < put
        invariant sent == ptr <= put <= buffer.Length && started && !failed && put == old(put)
        invariant sendBytes == |accepted| && Sane(old(State())) && buffer[..put] == old(buffer[..put])
        invariant Drained(State(), script) == Drained(old(State()), script)
        decreases put - ptr
      {
        var n := Send(ptr);
        if n <= 0 {
          return -1;
        }
        ptr := ptr + n;
      }
      put, sent := 0, 0;
      result := 0;
    }
  }

  // --- Runs ---------------------------------------------------------------------------------

  datatype Call = Put(c: Byte) | Sync

  function AfterCall(s: Stream, size: nat, script: Script, call: Call): (Stream, bool)
    requires Sane(s) && size > 0
  {
    match call
    case Put(c) => AfterPut(s, size, script, c)
    case Sync => AfterSync(s, script)
  }

  /** The bytes that the calls handed over, in order. */
  function Taken(call: Call, ok: bool): seq<Byte> {
    if call.Put? && ok then [call.c] else []
  }

  lemma CallKeepsSane(s: Stream, size: nat, script: Script, call: Call)
    requires Sane(s) && size > 0
    ensures var (s', ok) := AfterCall(s, size, script, call);
      Sane(s') && s'.accepted + Pending(s') == s.accepted + Pending(s) + Taken(call, ok)
  {
    hide Answer;
    var (s', ok) := AfterCall(s, size, script, call);
    if call.Put? && ok {
      if s.started && |s.held| < size {
        assert Pending(s') == Pending(s) + [call.c];
      } else if s.started {
        assert Pending(s') == Pending(Written(s, script)) + [call.c];
      }
    }
    hide Written, Drained;
  }

  /** The stream after the calls, and what it took. */
  function AfterCalls(size: nat, script: Script, calls: seq<Call>): (r: (Stream, seq<Byte>))
    requires size > 0
    ensures Sane(r.0)
  {
    if calls == [] then (NEW_STREAM, [])
    else
      var (s, taken) := AfterCalls(size, script, calls[..|calls| - 1]);
      var call := calls[|calls| - 1];
      CallKeepsSane(s, size, script, call);
      var (s', ok) := AfterCall(s, size, script, call);
      (s', taken + Taken(call, ok))
  }

  /** Whatever is accepted of each write, what was accepted and what is pending is what was taken, in order. */
  lemma {:induction false} NothingLostOrRepeated(size: nat, script: Script, calls: seq<Call>)
    requires size > 0
    ensures var (s, taken) := AfterCalls(size, script, calls); s.accepted + Pending(s) == taken
  {
    if calls != [] {
      NothingLostOrRepeated(size, script, calls[..|calls| - 1]);
      CallKeepsSane(AfterCalls(size, script, calls[..|calls| - 1]).0, size, script, calls[|calls| - 1]);
    }
    hide AfterCall;
  }

  /** A successful sync leaves nothing behind. */
  lemma SyncDelivers(size: nat, script: Script, calls: seq<Call>)
    requires size > 0 && calls != [] && calls[|calls| - 1].Sync?
    requires var s := AfterCalls(size, script, calls[..|calls| - 1]).0; AfterSync(s, script).1
    ensures var (s, taken) := AfterCalls(size, script, calls); s.accepted == taken && s.held == []
  {
    NothingLostOrRepeated(size, script, calls);
    hide Drained;
  }

  /**
   * A character is taken exactly if there is room for it, or the stream has not failed and is new or its next
   * write is accepted at least in part.  Only a full buffer is written, and what is accepted leaves it.
   */
  lemma PutSucceedsWhen(s: Stream, size: nat, script: Script, c: Byte)
    requires Sane(s) && size > 0 && |s.held| <= size
    ensures var (s', ok) := AfterPut(s, size, script, c);
      var n := if script(s.calls) < |s.held| then script(s.calls) else |s.held|;
      && (ok <==> (s.started && |s.held| < size) || (!s.failed && (!s.started || script(s.calls) > 0)))
      && (|s.held| < size ==> s'.accepted == s.accepted && s'.calls == s.calls && s'.failed == s.failed)
      && (ok && |s.held| < size ==> s'.held == s.held + [c])
      && (ok && |s.held| == size ==>
           s'.accepted == s.accepted + s.held[..n] && s'.held == s.held[n..] + [c] && s'.calls == s.calls + 1)
      && (!ok && !s.failed ==> s'.failed && s'.accepted == s.accepted && s'.held == s.held)
  {
  }

  /** What n answers from a call on accept together. */
  function Sum(script: Script, from: nat, n: nat): int
    decreases n
  {
    if n == 0 then 0 else script(from) + Sum(script, from + 1, n - 1)
  }

  /** From a call on, the answers are positive until together they accept so many bytes. */
  ghost predicate AcceptsAll(script: Script, from: nat, bytes: nat) {
    exists n: nat :: Sum(script, from, n) >= bytes && forall k :: from <= k < from + n ==> script(k) > 0
  }

  lemma AcceptsMore(script: Script, from: nat, bytes: nat)
    requires bytes > 0
    ensures var n := Answer(script, from, bytes);
      AcceptsAll(script, from, bytes) <==> n > 0 && AcceptsAll(script, from + 1, bytes - n)
  {
    var first := Answer(script, from, bytes);
    if AcceptsAll(script, from, bytes) {
      var n: nat :| Sum(script, from, n) >= bytes && forall k :: from <= k < from + n ==> script(k) > 0;
      assert script(from) > 0;
      var m := if first == bytes then 0 else n - 1;
      assert Sum(script, from + 1, m) >= bytes - first;
    }
    if first > 0 && AcceptsAll(script, from + 1, bytes - first) {
      var m: nat :| Sum(script, from + 1, m) >= bytes - first && forall k :: from < k < from + 1 + m ==> script(k) > 0;
      assert Sum(script, from, if first == bytes then 1 else m + 1) >= bytes by {
        assert Sum(script, from + 1, 0) == 0;
      }
    }
  }

  lemma {:induction false} DrainedWhen(s: Stream, script: Script)
    requires s.sent <= |s.held| && !s.failed
    ensures Drained(s, script).failed <==> !AcceptsAll(script, s.calls, |s.held| - s.sent)
    decreases |s.held| - s.sent
  {
    if s.sent == |s.held| {
      assert Sum(script, s.calls, 0) == 0;
    } else {
      AcceptsMore(script, s.calls, |s.held| - s.sent);
      var s' := Written(s, script);
      if !s'.failed {
        DrainedWhen(s', script);
      }
    }
    hide AcceptsAll;
  }

  /**
   * sync returns zero exactly if the stream was written to, has not failed, and the answers to come are positive
   * until they accept all that is pending.  It fails without recording an error exactly if the stream was never
   * written to.
   */
  lemma SyncSucceedsWhen(s: Stream, script: Script)
    requires Sane(s)
    ensures AfterSync(s, script).1 <==> s.started && !s.failed && AcceptsAll(script, s.calls, |Pending(s)|)
    ensures !AfterSync(s, script).1 && !AfterSync(s, script).0.failed <==> !s.started
  {
    if !s.failed {
      DrainedWhen(s, script);
    }
    hide AcceptsAll, Drained;
  }

  /** After a failure nothing more is accepted, yet characters are still taken as long as the buffer has room. */
  lemma FailureIsFinal(s: Stream, size: nat, script: Script, call: Call)
    requires Sane(s) && size > 0 && s.failed
    ensures var (s', ok) := AfterCall(s, size, script, call);
      s'.failed && s'.accepted == s.accepted && (ok <==> call.Put? && |s.held| < size)
  {
  }
}
