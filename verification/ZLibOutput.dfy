/**
 * The compressing buffer of El/Compress/ZLib.hpp and El/Compress/ZLib.cpp over any deflate that takes a prefix of
 * its input and gives some bytes that fit, and over any receiver that accepts writes in part or not at all.
 */
module ZLibOutput {

  import opened Bytes

  datatype Flush = NoFlush | SyncFlush | Finish

  datatype Code = Ok | StreamEnd | BufError | OtherError

  /** What a call of deflate does: so many bytes are taken, and these are given. */
  datatype Deflated = Deflated(code: Code, taken: nat, bytes: seq<Byte>)

  function Min(a: nat, b: nat): nat {
    if a < b then a else b
  }

  /** zlib reports the end only when it is to finish; with an error it takes and gives nothing. */
  function Clipped(d: Deflated, flush: Flush, input: nat, room: nat): (r: Deflated)
    ensures r.taken <= input && |r.bytes| <= room
    ensures r.code.StreamEnd? ==> flush.Finish?
    ensures r.code.BufError? || r.code.OtherError? ==> r.taken == 0 && r.bytes == []
  {
    if d.code.BufError? || d.code.OtherError? then Deflated(d.code, 0, [])
    else if d.code.StreamEnd? && !flush.Finish? then Deflated(OtherError, 0, [])
    else Deflated(d.code, Min(d.taken, input), d.bytes[..Min(|d.bytes|, room)])
  }

  /** What is left of the answers of the receiver, and of so many bytes, when it is offered them until it refuses. */
  function Pushed(writes: seq<nat>, bytes: nat): (seq<nat>, nat)
    decreases |writes|
  {
    if bytes == 0 || writes == [] then (writes, bytes)
    else if writes[0] == 0 then (writes[1..], bytes)
    else Pushed(writes[1..], bytes - Min(writes[0], bytes))
  }

  function Sum(writes: seq<nat>, n: nat): nat
    requires n <= |writes|
  {
    if n == 0 then 0 else Sum(writes, n - 1) + writes[n - 1]
  }

  lemma {:induction false} SumFirst(writes: seq<nat>, n: nat)
    requires 0 < n <= |writes|
    ensures Sum(writes, n) == writes[0] + Sum(writes[1..], n - 1)
  {
    if n > 1 {
      SumFirst(writes, n - 1);
    }
  }

  /** All bytes are accepted exactly if the answers of the receiver are positive until together they suffice. */
  lemma {:induction false} PushedAllWhen(writes: seq<nat>, bytes: nat)
    ensures Pushed(writes, bytes).1 == 0 <==>
      exists n :: 0 <= n <= |writes| && Sum(writes, n) >= bytes && forall i :: 0 <= i < n ==> writes[i] > 0
    decreases |writes|
  {
    if bytes == 0 {
      assert Sum(writes, 0) >= bytes;
    } else if writes != [] && writes[0] > 0 {
      var rest, left := writes[1..], bytes - Min(writes[0], bytes);
      PushedAllWhen(rest, left);
      if m :| 0 <= m <= |rest| && Sum(rest, m) >= left && forall i :: 0 <= i < m ==> rest[i] > 0 {
        SumFirst(writes, m + 1);
        assert forall i :: 0 < i < m + 1 ==> writes[i] == rest[i - 1];
        assert Sum(writes, m + 1) >= bytes;
      }
      if n :| 0 <= n <= |writes| && Sum(writes, n) >= bytes && forall i :: 0 <= i < n ==> writes[i] > 0 {
        SumFirst(writes, n);
        assert forall i :: 0 <= i < n - 1 ==> rest[i] == writes[i + 1];
        assert Sum(rest, n - 1) >= left || left == 0;
        assert Sum(rest, 0) >= 0;
      }
    }
  }

  /** A call of deflate as it took place. */
  datatype Call = Call(flush: Flush, code: Code, taken: nat, given: nat)

  /** How a turn of the loop of flush_zlib ends. */
  datatype Turned = Again | Done | Refused

  /** The loop of flush_zlib goes on after such a code, unless deflate gave nothing. */
  predicate Goes(flush: Flush, code: Code) {
    code.Ok? || (flush.Finish? && code.StreamEnd?)
  }

  /** Between two places deflate was asked to flush in one way, and gave something each time. */
  ghost predicate Flushing(calls: seq<Call>, from: nat, to: nat, flush: Flush) {
    && from <= to <= |calls|
    && forall i :: from <= i < to ==> calls[i].flush == flush && calls[i].given > 0 && Goes(flush, calls[i].code)
  }

  /**
   * From a call on deflate was asked to flush, always in the same way, until it gave nothing more; the last
   * answer may be that there is nothing to do, but not when it is to finish.
   */
  ghost predicate Flushed(calls: seq<Call>, from: nat, flush: Flush) {
    && from < |calls| && Flushing(calls, from, |calls| - 1, flush)
    && var last := calls[|calls| - 1];
       last.flush == flush && last.given == 0 && (Goes(flush, last.code) || (flush.SyncFlush? && last.code.BufError?))
  }

  lemma FlushingNone(calls: seq<Call>, flush: Flush)
    ensures Flushing(calls, |calls|, |calls|, flush)
  {
  }

  lemma FlushingMore(calls: seq<Call>, from: nat, flush: Flush, c: Call)
    requires Flushing(calls, from, |calls|, flush)
    ensures Flushing(calls + [c], from, |calls|, flush)
    ensures c.flush == flush && c.given > 0 && Goes(flush, c.code) ==> Flushing(calls + [c], from, |calls| + 1, flush)
  {
  }

  /** Between two places deflate was only asked to take input, and took it without an error. */
  ghost predicate Compressed(calls: seq<Call>, from: nat, to: nat) {
    from <= to <= |calls| && forall i :: from <= i < to ==> calls[i].flush.NoFlush? && calls[i].code.Ok?
  }

  lemma Cut(before: seq<Byte>, a: array<Byte>, i: nat, j: nat, k: nat)
    requires i <= j <= k <= a.Length
    ensures before + a[i..k] == before + a[i..j] + a[j..k]
  {
    assert a[i..k] == a[i..j] + a[j..k];
  }

  class OutStreamBuf {
    const input: array<Byte>
    const output: array<Byte>
    var started: bool
    var put: nat
    var pending: nat
    var inBytes: nat
    var outBytes: nat
    var failed: bool
    var finalized: bool

    /** What the receiver and deflate answer from now on; in the end the one refuses and the other makes no progress. */
    var writes: seq<nat>
    var deflates: seq<Deflated>

    /** All that was accepted by the receiver. */
    var accepted: seq<Byte>

    /** All that was put, that deflate took, and that it gave. */
    ghost var produced: seq<Byte>
    ghost var consumed: seq<Byte>
    ghost var emitted: seq<Byte>

    /** The calls of deflate, and how often the receiver refused all that was offered. */
    ghost var calls: seq<Call>
    ghost var refusals: nat

    /** Compressed bytes are neither lost nor repeated nor reordered, even after an error. */
    ghost predicate OutputConserved()
      reads this, output
    {
      pending <= output.Length && accepted + output[..pending] == emitted && outBytes == |accepted|
    }

    /** From a place in the input buffer on, the characters are still to be compressed. */
    ghost predicate InputConserved(from: nat)
      reads this, input
    {
      from <= put <= input.Length && consumed + input[from..put] == produced && inBytes == |consumed|
    }

    ghost predicate Valid()
      reads this, input, output
    {
      && input.Length >= 15 && output.Length >= 15 && input != output
      && OutputConserved()
      && (if failed then consumed <= produced && put <= input.Length else InputConserved(0))
      && (!started ==> put == 0)
    }

    constructor (inputSize: nat, outputSize: nat, writes: seq<nat>, deflates: seq<Deflated>)
      requires inputSize >= 15 && outputSize >= 15
      ensures Valid() && fresh(input) && fresh(output) && !failed && !finalized && !started
      ensures input.Length == inputSize && output.Length == outputSize
      ensures this.writes == writes && this.deflates == deflates
      ensures produced == consumed == emitted == accepted == [] && calls == [] && refusals == 0
    {
      input := new Byte[inputSize](i => 0);
      output := new Byte[outputSize](i => 0);
      started, put, pending, inBytes, outBytes, failed, finalized := false, 0, 0, 0, 0, false, false;
      this.writes, this.deflates := writes, deflates;
      accepted, produced, consumed, emitted := [], [], [], [];
      calls, refusals := [], 0;
    }

    /** The checked construction: buffers below 15 bytes are an invalid argument. */
    static method Create(inputSize: nat, outputSize: nat, writes: seq<nat>, deflates: seq<Deflated>)
      returns (b: OutStreamBuf?)
      ensures b == null <==> inputSize < 15 || outputSize < 15
      ensures b != null ==> fresh(b) && b.Valid() && !b.failed && !b.finalized && b.produced == b.accepted == []
    {
      if inputSize < 15 || outputSize < 15 {
        b := null;
      } else {
        b := new OutStreamBuf(inputSize, outputSize, writes, deflates);
      }
    }

    /** The callback is offered what is pending, from a place in the output buffer. */
    method Offer(at: nat) returns (written: nat)
      requires at + pending <= output.Length && outBytes == |accepted|
      modifies this`writes, this`accepted, this`outBytes, this`pending, this`refusals
      ensures written + pending == old(pending) && outBytes == |accepted|
      ensures refusals == if written == 0 then old(refusals) + 1 else old(refusals)
      ensures written == if old(writes) == [] then 0 else Min(old(writes)[0], old(pending))
      ensures writes == if old(writes) == [] then [] else old(writes)[1..]
      ensures accepted + output[at + written..at + written + pending] == old(accepted) + output[at..at + old(pending)]
    {
      written := if writes == [] then 0 else Min(writes[0], pending);
      writes := if writes == [] then [] else writes[1..];
      Cut(accepted, output, at, at + written, at + pending);
      accepted := accepted + output[at..at + written];
      pending := pending - written;
      outBytes := outBytes + written;
      refusals := if written == 0 then refusals + 1 else refusals;
    }

    /** The memmove of what is pending to the beginning. */
    method Compact(from: nat)
      requires from + pending <= output.Length
      modifies output
      ensures output[..pending] == old(output[from..from + pending])
    {
      forall i | 0 <= i < pending {
        output[i] := output[i + from];
      }
    }

    method PushWritePending() returns (ok: bool)
      requires OutputConserved()
      modifies this`writes, this`accepted, this`outBytes, this`pending, this`refusals, output
      ensures OutputConserved() && (ok <==> pending == 0) && pending <= old(pending)
      ensures refusals == if ok then old(refusals) else old(refusals) + 1
      ensures (writes, pending) == Pushed(old(writes), old(pending))
    {
      var ptr: nat := 0;
      while pending != 0
        invariant ptr + pending <= output.Length && accepted + output[ptr..ptr + pending] == emitted
        invariant outBytes == |accepted| && pending <= old(pending) && refusals == old(refusals)
        invariant Pushed(writes, pending) == Pushed(old(writes), old(pending))
        decreases pending
      {
        var written := Offer(ptr);
        if written != 0 {
          ptr := ptr + written;
        } else {
          if ptr > 0 {
            Compact(ptr);
          }
          return false;
        }
      }
      ok := true;
    }

    /** deflate with the output buffer behind what is pending, and the input buffer from a place to another. */
    method Deflate(flush: Flush, from: nat, to: nat) returns (code: Code, taken: nat, given: nat)
      requires from <= to <= input.Length && pending <= output.Length && input != output
      modifies this`deflates, this`consumed, this`emitted, this`calls, output
      ensures calls == old(calls) + [Call(flush, code, taken, given)]
      ensures old(deflates) != [] && old(deflates)[0].code.Ok? ==>
        && code.Ok? && taken == Min(old(deflates)[0].taken, to - from)
        && given == Min(|old(deflates)[0].bytes|, output.Length - pending)
      ensures taken <= to - from && consumed == old(consumed) + input[from..from + taken]
      ensures pending + given <= output.Length && emitted == old(emitted) + output[pending..pending + given]
      ensures output[..pending] == old(output[..pending])
      ensures code.BufError? || code.OtherError? ==> taken == 0 && given == 0
      ensures code.StreamEnd? ==> flush.Finish?
      ensures if old(deflates) == [] then code.BufError? else |deflates| < |old(deflates)|
    {
      var answer := if deflates == [] then Deflated(BufError, 0, []) else deflates[0];
      deflates := if deflates == [] then [] else deflates[1..];
      var d := Clipped(answer, flush, to - from, output.Length - pending);
      forall i | 0 <= i < |d.bytes| {
        output[pending + i] := d.bytes[i];
      }
      assert output[pending..pending + |d.bytes|] == d.bytes;
      code, taken, given := d.code, d.taken, |d.bytes|;
      consumed := consumed + input[from..from + taken];
      emitted := emitted + d.bytes;
      calls := calls + [Call(flush, code, taken, given)];
    }

    /** One turn of the loop of overflow and sync, up to the push. */
    method DeflateSome(from: nat) returns (ok: bool, taken: nat)
      requires input != output && OutputConserved() && InputConserved(from) && !failed
      modifies this`deflates, this`consumed, this`emitted, this`inBytes, this`pending, this`failed, this`calls, output
      ensures OutputConserved() && ok == !failed
      ensures |calls| == |old(calls)| + 1 && old(calls) <= calls
      ensures var last := calls[|calls| - 1]; last.flush.NoFlush? && (ok <==> last.code.Ok?)
      ensures if ok then InputConserved(from + taken) && |deflates| < |old(deflates)|
              else consumed == old(consumed) && inBytes == old(inBytes)
    {
      ghost var before := consumed;
      var code, given;
      code, taken, given := Deflate(NoFlush, from, put);
      if code.Ok? {
        Cut(before, input, from, from + taken, put);
        Cut(accepted, output, 0, pending, pending + given);
        inBytes := inBytes + taken;
        pending := pending + given;
        ok := true;
      } else {
        assert consumed == before || code.StreamEnd?;
        failed := true;
        ok := false;
      }
    }

    /** The loop of overflow and of sync over all that is in the input buffer. */
    method DeflateAll() returns (ok: bool)
      requires Valid() && !failed
      modifies this, output
      ensures OutputConserved() && put == old(put) && produced == old(produced) && started == old(started)
      ensures finalized == old(finalized) && ok == !failed
      ensures if ok then consumed == produced && inBytes == |consumed| else consumed <= produced
      ensures old(calls) <= calls && refusals >= old(refusals)
      ensures ok ==> Compressed(calls, |old(calls)|, |calls|)
      ensures !ok ==> |calls| > |old(calls)| && !calls[|calls| - 1].code.Ok?
    {
      var from: nat := 0;
      while from < put
        invariant !failed && OutputConserved() && InputConserved(from)
        invariant put == old(put) && produced == old(produced) && started == old(started) && finalized == old(finalized)
        invariant old(calls) <= calls && Compressed(calls, |old(calls)|, |calls|) && refusals >= old(refusals)
        decreases |deflates|
      {
        var within, taken := DeflateSome(from);
        if !within {
          return false;
        }
        from := from + taken;
        var pushed := PushWritePending();
      }
      ok := true;
    }

    /** An end of file is told by false; then the character was not taken. */
    method Overflow(c: Byte) returns (ok: bool)
      requires Valid() && (started ==> put == input.Length)
      modifies this, input, output
      ensures Valid() && finalized == old(finalized)
      ensures produced == (if ok then old(produced) + [c] else old(produced))
      ensures ok ==> started && put == 1 && !failed && !finalized
      ensures old(failed || finalized) ==> !ok && accepted == old(accepted) && emitted == old(emitted) && failed
      ensures old(calls) <= calls && refusals >= old(refusals)
      ensures !old(failed || finalized) && !ok ==>
        refusals > old(refusals) || (|calls| > |old(calls)| && !calls[|calls| - 1].code.Ok?)
    {
      if failed {
        return false;
      }
      if finalized {
        failed := true;
        return false;
      }
      if started {
        var pushed := PushWritePending();
        if pending == output.Length {
          failed := true;
          return false;
        }
        var within := DeflateAll();
        if !within {
          return false;
        }
      }
      input[0] := c;
      started, put := true, 1;
      produced := produced + [c];
      assert input[0..1] == [c];
      ok := true;
    }

    method PutInRoom(c: Byte)
      requires Valid() && started && put < input.Length
      modifies this`put, this`produced, input
      ensures Valid() && produced == old(produced) + [c]
    {
      input[put] := c;
      put := put + 1;
      produced := produced + [c];
      assert input[0..put] == old(input[0..put]) + [c];
    }

    /** sputc: also of a buffer that has failed, as long as there is room. */
    method Put(c: Byte) returns (ok: bool)
      requires Valid()
      modifies this, input, output
      ensures Valid() && finalized == old(finalized)
      ensures produced == if ok then old(produced) + [c] else old(produced)
      ensures old(calls) <= calls && refusals >= old(refusals)
      ensures !ok && !old(failed || finalized) ==>
        refusals > old(refusals) || (|calls| > |old(calls)| && !calls[|calls| - 1].code.Ok?)
    {
      if started && put < input.Length {
        PutInRoom(c);
        ok := true;
      } else {
        assert put <= input.Length;
        hide OutputConserved, InputConserved;
        ok := Overflow(c);
      }
    }

    /** One deflate without input into the empty output buffer. */
    method FlushSome(flush: Flush) returns (code: Code)
      requires input != output && OutputConserved() && pending == 0
      modifies this`deflates, this`consumed, this`emitted, this`pending, this`calls, output
      ensures OutputConserved() && consumed == old(consumed)
      ensures calls == old(calls) + [Call(flush, code, 0, pending)]
      ensures code.BufError? || code.OtherError? ==> pending == 0
      ensures code.StreamEnd? ==> flush.Finish?
      ensures if old(deflates) == [] then code.BufError? else |deflates| < |old(deflates)|
    {
      var taken;
      code, taken, pending := Deflate(flush, 0, 0);
    }

    /** One turn of the loop of flush_zlib. */
    method FlushTurn(finish: bool) returns (turned: Turned)
      requires input != output && OutputConserved() && pending == 0
      modifies this`writes, this`accepted, this`outBytes, this`pending, this`refusals, this`failed, output
      modifies this`deflates, this`consumed, this`emitted, this`calls
      ensures OutputConserved() && consumed == old(consumed)
      ensures |calls| == |old(calls)| + 1 && old(calls) <= calls
      ensures var flush, c := if finish then Finish else SyncFlush, calls[|old(calls)|];
        c.flush == flush &&
        if turned.Refused? then
          failed && refusals >= old(refusals) && (refusals > old(refusals) || !Goes(flush, c.code))
        else
          && pending == 0 && refusals == old(refusals) && failed == old(failed)
          && if turned.Again? then c.given > 0 && Goes(flush, c.code) && |deflates| < |old(deflates)|
             else c.given == 0 && (Goes(flush, c.code) || (flush.SyncFlush? && c.code.BufError?))
    {
      var code := FlushSome(if finish then Finish else SyncFlush);
      if !code.Ok? {
        if finish {
          if !code.StreamEnd? {
            failed := true;
            return Refused;
          }
        } else {
          if code.BufError? {
            return Done;
          }
          failed := true;
          return Refused;
        }
      }
      if pending == 0 {
        return Done;
      }
      var pushed := PushWritePending();
      if !pushed {
        failed := true;
        return Refused;
      }
      turned := Again;
    }

    method FlushZlib(finish: bool) returns (result: int)
      requires Valid()
      modifies this`writes, this`accepted, this`outBytes, this`pending, this`refusals, this`failed, output
      modifies this`deflates, this`consumed, this`emitted, this`calls
      ensures Valid() && consumed == old(consumed) && (old(failed) ==> failed)
      ensures result == 0 || (result == -1 && failed)
      ensures result == 0 ==> pending == 0 && accepted == emitted && failed == old(failed)
      ensures old(calls) <= calls && refusals >= old(refusals)
      ensures var flush := if finish then Finish else SyncFlush;
        if result == 0 then refusals == old(refusals) && Flushed(calls, |old(calls)|, flush)
        else refusals > old(refusals) || (|calls| > |old(calls)| && !Goes(flush, calls[|calls| - 1].code))
    {
      ghost var flush := if finish then Finish else SyncFlush;
      hide Flushing, Goes;
      FlushingNone(calls, flush);
      var pushed := PushWritePending();
      if !pushed {
        failed := true;
        return -1;
      }
      while true
        invariant OutputConserved() && pending == 0 && refusals == old(refusals) && old(calls) <= calls
        invariant failed == old(failed) && consumed == old(consumed)
        invariant Flushing(calls, |old(calls)|, |calls|, flush)
        decreases |deflates|
      {
        ghost var before := calls;
        var turned := FlushTurn(finish);
        assert calls == before + [calls[|before|]];
        FlushingMore(before, |old(calls)|, flush, calls[|before|]);
        if turned.Refused? {
          return -1;
        }
        if turned.Done? {
          break;
        }
      }
      result := 0;
    }

    /** Zero means that everything put so far is compressed, and everything compressed is accepted. */
    method Sync() returns (result: int)
      requires Valid()
      modifies this, output
      ensures Valid() && produced == old(produced) && finalized == old(finalized)
      ensures result == 0 ==> !failed && put == 0 && consumed == produced && accepted == emitted
      ensures result == 0 || (result == -1 && failed)
      ensures old(calls) <= calls && refusals >= old(refusals)
      ensures result == 0 ==>
        exists k :: Compressed(calls, |old(calls)|, k) && Flushed(calls, k, SyncFlush)
      ensures result != 0 && !old(failed || finalized) ==>
        refusals > old(refusals) || (|calls| > |old(calls)| && !calls[|calls| - 1].code.Ok?)
    {
      if failed {
        return -1;
      }
      if finalized {
        failed := true;
        return -1;
      }
      var pushed := PushWritePending();
      var within := DeflateAll();
      if !within {
        return -1;
      }
      put := 0;
      ghost var compressed := calls;
      result := FlushZlib(false);
      assert forall i :: 0 <= i < |compressed| ==> calls[i] == compressed[i];
      assert Compressed(calls, |old(calls)|, |compressed|);
    }

    /** The end: without an error everything is through; an error of sync does not stop the last flush. */
    method Finalize()
      requires Valid()
      modifies this, output
      ensures Valid() && produced == old(produced) && finalized
      ensures !failed && !old(finalized) ==> consumed == produced && accepted == emitted
      ensures old(finalized) ==> accepted == old(accepted) && failed == old(failed)
      ensures old(calls) <= calls && refusals >= old(refusals)
      ensures !failed && !old(finalized) ==> exists k :: |old(calls)| < k && Flushed(calls, k, Finish)
      ensures failed && !old(failed) ==>
        refusals > old(refusals) || exists i :: |old(calls)| <= i < |calls| && !calls[i].code.Ok?
    {
      if !finalized {
        var synced := Sync();
        ghost var between := calls;
        var flushed := FlushZlib(true);
        assert forall i :: 0 <= i < |between| ==> calls[i] == between[i];
        finalized := true;
      }
    }
  }
}
