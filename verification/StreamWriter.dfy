/**
 Outbound data of a TCP connection: accepted writes wait in a queue, flushes hand their bytes to
 the TCP stack in pieces, and every write is told in the end whether it succeeded.
 */
module StreamWriter {
  import opened Bytes

  type Octets = seq<byte>

  /** The TCP stack's side of a connection. What it refuses, and when, is up to it. */
  class TcpStack {
    /** Free space of its send buffer. */
    var room: nat
    /** All bytes it has taken over. */
    var sink: Octets
    /** How often it has refused to enqueue or to send. */
    ghost var refusals: nat
    /** How often sending has left it with less free space. */
    ghost var shrinks: nat
    /** How often it has been made to send, and the bytes taken over since. */
    ghost var sends: nat
    ghost var unsent: nat
    /** What became of closing it. */
    ghost var closed: Option<bool>

    constructor (room: nat)
      ensures sink == [] && this.room == room && unsent == 0 && closed == None
    {
      this.room, sink, unsent, closed := room, [], 0, None;
    }

    /** Enqueues bytes that fit. */
    method Write(bytes: Octets) returns (ok: bool)
      requires |bytes| <= room && |bytes| <= 0xFFFF
      modifies this`room, this`sink, this`refusals, this`unsent
      ensures ok ==> sink == old(sink) + bytes && room == old(room) - |bytes| && refusals == old(refusals)
      ensures !ok ==> sink == old(sink) && room == old(room) && refusals == old(refusals) + 1
      ensures unsent == old(unsent) + if ok then |bytes| else 0
    {
      ok := *;
      if ok {
        sink, room, unsent := sink + bytes, room - |bytes|, unsent + |bytes|;
      } else {
        refusals := refusals + 1;
      }
    }

    /** Sends what is enqueued. The free space afterwards is whatever the stack makes it. */
    method Output() returns (ok: bool)
      modifies this`room, this`refusals, this`shrinks, this`sends, this`unsent
      ensures refusals == if ok then old(refusals) else old(refusals) + 1
      ensures sends == old(sends) + 1 && unsent == if ok then 0 else old(unsent)
      ensures shrinks == if room < old(room) then old(shrinks) + 1 else old(shrinks)
    {
      ghost var before := room;
      ok, room := *, *;
      sends := sends + 1;
      if ok {
        unsent := 0;
      } else {
        refusals := refusals + 1;
      }
      if room < before {
        shrinks := shrinks + 1;
      }
    }

    method Close() returns (ok: bool)
      modifies this`closed
      ensures closed == Some(ok)
    {
      ok := *;
      closed := Some(ok);
    }
  }

  /** A queued write: its number and the bytes not yet handed over. */
  datatype Write = Write(id: nat, data: Octets)

  datatype Outcome = Unsettled | Succeeded | Failed

  datatype Progress = Sent | Partial | Error

  datatype CloseMode = Output | Input | All

  /** What becomes of the promise of a close. */
  datatype Settled = Fulfilled | Rejected | Forgotten

  function Joined(parts: seq<Octets>): (r: Octets) {
    if parts == [] then [] else Joined(parts[..|parts| - 1]) + parts[|parts| - 1]
  }

  lemma {:induction false} JoinedOneMore(parts: seq<Octets>, k: nat)
    requires k < |parts|
    ensures Joined(parts[..k + 1]) == Joined(parts[..k]) + parts[k]
  {
    assert parts[..k + 1][..k] == parts[..k];
  }

  /** What the stack has taken: the first `completed` writes, and `written` of the next one. */
  ghost predicate Handed(accepted: seq<Octets>, completed: nat, written: Octets, sink: Octets) {
    && completed <= |accepted|
    && sink == Joined(accepted[..completed]) + written
    && if completed < |accepted| then written <= accepted[completed] else written == []
  }

  /** The queue is what is left of the accepted writes. */
  ghost predicate Queued(accepted: seq<Octets>, completed: nat, written: Octets, pending: seq<Write>) {
    && completed <= |accepted|
    && |pending| == |accepted| - completed
    && (forall j :: 0 <= j < |pending| ==> pending[j].id == completed + j)
    && (forall j :: 0 < j < |pending| ==> pending[j].data == accepted[completed + j])
    && (pending != [] ==> written + pending[0].data == accepted[completed])
  }

  /** Exactly the completed writes succeeded; the others failed if output is closed. */
  ghost predicate Settling(results: seq<Outcome>, completed: nat, closed: bool) {
    && completed <= |results|
    && (forall i :: 0 <= i < completed ==> results[i] == Succeeded)
    && (forall i :: completed <= i < |results| ==> results[i] == if closed then Failed else Unsettled)
  }

  /** The queue holds the last writes; of the others that have not succeeded, all have failed. */
  ghost predicate Owed(results: seq<Outcome>, completed: nat, pending: seq<Write>) {
    && completed + |pending| <= |results|
    && (forall j :: 0 <= j < |pending| ==> pending[j].id == |results| - |pending| + j)
    && (forall i :: 0 <= i < completed ==> results[i] == Succeeded)
    && (forall i :: completed <= i < |results| - |pending| ==> results[i] == Failed)
    && (forall i :: completed <= i < |results| ==> results[i] != Succeeded)
  }

  /** Handing over the next bytes of the first queued write. */
  lemma {:induction false} HandedMore(accepted: seq<Octets>, completed: nat, written: Octets, sink: Octets, data: Octets, n: nat)
    requires Handed(accepted, completed, written, sink) && completed < |accepted|
    requires written + data == accepted[completed] && n <= |data|
    ensures Handed(accepted, completed, written + data[..n], sink + data[..n])
    ensures (written + data[..n]) + data[n..] == accepted[completed]
  {
    assert data[..n] + data[n..] == data;
    assert (written + data[..n]) + data[n..] == written + data;
  }

  lemma {:induction false} HandedAll(accepted: seq<Octets>, completed: nat, written: Octets, sink: Octets)
    requires Handed(accepted, completed, written, sink) && completed < |accepted| && written == accepted[completed]
    ensures Handed(accepted, completed + 1, [], sink)
  {
    JoinedOneMore(accepted, completed);
  }

  /** With nothing left to complete, the stack has the whole stream. */
  lemma {:induction false} AllHanded(accepted: seq<Octets>, completed: nat, written: Octets, sink: Octets)
    requires Handed(accepted, completed, written, sink) && completed == |accepted|
    ensures sink == Joined(accepted)
  {
    assert accepted[..completed] == accepted;
  }

  lemma {:induction false} QueuedRest(accepted: seq<Octets>, completed: nat, written: Octets, pending: seq<Write>)
    requires Queued(accepted, completed, written, pending) && pending != []
    ensures Queued(accepted, completed + 1, [], pending[1..])
  {
  }

  lemma {:induction false} QueuedLess(accepted: seq<Octets>, completed: nat, was: Octets, written: Octets, pending: seq<Write>, n: nat)
    requires Queued(accepted, completed, was, pending) && pending != [] && n <= |pending[0].data|
    requires written + pending[0].data[n..] == accepted[completed]
    ensures Queued(accepted, completed, written, pending[0 := pending[0].(data := pending[0].data[n..])])
  {
  }

  lemma {:induction false} SettlingNext(results: seq<Outcome>, completed: nat)
    requires Settling(results, completed, false) && completed < |results|
    ensures Settling(results[completed := Succeeded], completed + 1, false)
  {
  }

  /** How many bytes are queued. */
  function QueuedBytes(pending: seq<Write>): (r: nat) {
    if pending == [] then 0 else |pending[0].data| + QueuedBytes(pending[1..])
  }

  class LwipConnection {
    const tcp: TcpStack
    var pending: seq<Write>
    var mark: Option<nat>
    var inputClosed: bool
    var outputClosed: bool
    var isOpen: bool
    var isFlushing: bool
    /** The outcome of every accepted write, by its number. */
    var results: seq<Outcome>
    ghost var accepted: seq<Octets>
    ghost var completed: nat
    ghost var written: Octets

    ghost predicate Valid()
      reads this, tcp`sink
    {
      && Handed(accepted, completed, written, tcp.sink)
      && |results| == |accepted| && Settling(results, completed, outputClosed)
      && (if outputClosed then pending == [] else Queued(accepted, completed, written, pending))
      && (!isOpen ==> inputClosed && outputClosed)
      && (mark.Some? ==> mark.value < |pending|)
    }

    /** Every queued write has been flushed. */
    ghost predicate AllMarked()
      reads this`pending, this`mark
    {
      pending == [] || mark == Some(|pending| - 1)
    }

    /** What holds while the first write is being handed over. */
    ghost predicate Midway()
      reads this, tcp`sink
    {
      && Handed(accepted, completed, written, tcp.sink)
      && |results| == |accepted| && Settling(results, completed, false)
      && pending != [] && |pending| == |accepted| - completed
      && (forall j :: 0 <= j < |pending| ==> pending[j].id == completed + j)
      && isOpen && !outputClosed && (mark.Some? ==> mark.value < |pending|)
    }

    /** What still holds between a failed write and the close that follows it. */
    ghost predicate Consistent()
      reads this, tcp`sink
    {
      && Handed(accepted, completed, written, tcp.sink)
      && |results| == |accepted| && Owed(results, completed, pending)
      && (!isOpen ==> inputClosed && outputClosed)
      && (mark.Some? ==> mark.value < |pending|)
    }

    constructor (tcp: TcpStack)
      requires tcp.sink == []
      ensures Valid() && this.tcp == tcp && accepted == [] && isOpen && !inputClosed && !outputClosed
    {
      this.tcp := tcp;
      pending, mark, inputClosed, outputClosed, isOpen, isFlushing := [], None, false, false, true, false;
      results, accepted, completed, written := [], [], 0, [];
    }

    /** Queues a write unless the channel or its output is closed. */
    method Buffer(data: Octets) returns (taken: bool)
      requires Valid()
      modifies this
      ensures Valid() && taken == old(isOpen && !outputClosed)
      ensures accepted == if taken then old(accepted) + [data] else old(accepted)
      ensures taken ==> pending == old(pending) + [Write(|old(accepted)|, data)] && mark == old(mark)
    {
      if !isOpen || outputClosed {
        return false;
      }
      taken := true;
      pending := pending + [Write(|results|, data)];
      results := results + [Unsettled];
      assert (accepted + [data])[..completed] == accepted[..completed];
      accepted := accepted + [data];
    }

    /** Hands the first bytes of the first queued write to the stack, and makes it send. */
    method Offer(n: nat) returns (ok: bool)
      requires Valid() && isOpen && !outputClosed && pending != []
      requires n <= |pending[0].data| && n <= tcp.room && n <= 0xFFFF
      modifies this`written, tcp`room, tcp`sink, tcp`refusals, tcp`shrinks, tcp`sends, tcp`unsent
      ensures Midway() && old(tcp.sink) <= tcp.sink
      ensures ok ==> written == old(written) + pending[0].data[..n]
      ensures ok ==> written + pending[0].data[n..] == accepted[completed]
      ensures ok <==> tcp.refusals == old(tcp.refusals)
      ensures tcp.refusals >= old(tcp.refusals) && tcp.shrinks >= old(tcp.shrinks)
      ensures ok && tcp.shrinks == old(tcp.shrinks) ==> tcp.room >= old(tcp.room) - n
      ensures ok ==> tcp.unsent == 0 && tcp.sends == old(tcp.sends) + if mark == Some(0) then 2 else 1
    {
      var data := pending[0].data;
      HandedMore(accepted, completed, written, tcp.sink, data, n);
      ok := tcp.Write(data[..n]);
      if ok {
        written := written + data[..n];
        ok := tcp.Output();
        if ok && mark == Some(0) {
          ok := tcp.Output();
        }
      }
    }

    /** Completes a promise, unless that has happened already. */
    method Settle(id: nat, outcome: Outcome)
      requires id < |results|
      modifies this`results
      ensures results == if old(results)[id] == Unsettled then old(results)[id := outcome] else old(results)
    {
      if results[id] == Unsettled {
        results := results[id := outcome];
      }
    }

    /** Takes the first write out of the queue; the flush mark moves along or disappears. */
    method PopFirst()
      requires pending != []
      modifies this`pending, this`mark
      ensures pending == old(pending)[1..]
      ensures mark == if old(mark).Some? && old(mark).value > 0 then Some(old(mark).value - 1) else None
    {
      pending := pending[1..];
      mark := if mark.Some? && mark.value > 0 then Some(mark.value - 1) else None;
    }

    /** The first write is handed over entirely: it leaves the queue and its promise succeeds. */
    method CompleteFirst()
      requires Handed(accepted, completed, written, tcp.sink) && completed < |accepted| && written == accepted[completed]
      requires pending != [] && pending[0].id == completed && Queued(accepted, completed + 1, [], pending[1..])
      requires |results| == |accepted| && Settling(results, completed, false)
      modifies this`pending, this`mark, this`results, this`completed, this`written
      ensures pending == old(pending)[1..] && completed == old(completed) + 1 && written == []
      ensures Handed(accepted, completed, written, tcp.sink) && |results| == |accepted| && Settling(results, completed, false)
      ensures mark == if old(mark).Some? && old(mark).value > 0 then Some(old(mark).value - 1) else None
    {
      HandedAll(accepted, completed, written, tcp.sink);
      SettlingNext(results, completed);
      var id := pending[0].id;
      PopFirst();
      Settle(id, Succeeded);
      completed, written := completed + 1, [];
    }

    /** The first write has failed. It stays queued until the close that follows. */
    method FailFirst()
      requires Midway()
      modifies this`results
      ensures Consistent() && |results| == |old(results)|
    {
      Settle(pending[0].id, Failed);
    }

    /** The first write is handed over entirely. */
    method FinishFirst(ghost was: Octets)
      requires Midway() && Queued(accepted, completed, was, pending) && written == accepted[completed]
      modifies this`pending, this`mark, this`results, this`completed, this`written
      ensures Valid() && pending == old(pending)[1..] && |results| == |old(results)|
      ensures old(AllMarked()) ==> AllMarked()
    {
      QueuedRest(accepted, completed, was, pending);
      CompleteFirst();
    }

    /** The first write keeps the bytes that did not fit, and the stack is made to send. */
    method KeepRest(n: nat, ghost was: Octets) returns (r: Progress)
      requires Midway() && Queued(accepted, completed, was, pending) && n <= |pending[0].data|
      requires written + pending[0].data[n..] == accepted[completed]
      modifies this`pending, this`results, tcp`room, tcp`refusals, tcp`shrinks, tcp`sends, tcp`unsent
      ensures r == Partial || r == Error
      ensures r == Partial <==> tcp.refusals == old(tcp.refusals)
      ensures tcp.refusals >= old(tcp.refusals) && tcp.shrinks >= old(tcp.shrinks)
      ensures tcp.shrinks == old(tcp.shrinks) ==> tcp.room >= old(tcp.room)
      ensures tcp.sends == old(tcp.sends) + 1 && (r == Partial ==> tcp.unsent == 0)
      ensures |results| == |old(results)| && |pending| == |old(pending)| && pending[0].data == old(pending)[0].data[n..]
      ensures pending[1..] == old(pending)[1..]
      ensures if r == Partial then Valid() else Consistent()
    {
      QueuedLess(accepted, completed, was, written, pending, n);
      pending := pending[0 := pending[0].(data := pending[0].data[n..])];
      var ok := tcp.Output();
      if ok {
        return Partial;
      }
      FailFirst();
      r := Error;
    }

    /** One round of writing: the first write is done, or has bytes left, or there is an error. */
    method WriteFirst() returns (r: Progress)
      requires Valid() && isOpen && !outputClosed && pending != []
      modifies this`pending, this`mark, this`results, this`completed, this`written, tcp`room, tcp`sink, tcp`refusals, tcp`shrinks, tcp`sends, tcp`unsent
      ensures if r == Error then Consistent() else Valid()
      ensures r != Error && old(AllMarked()) ==> AllMarked()
      ensures old(tcp.sink) <= tcp.sink && |results| == |old(results)|
      ensures r == Sent ==> pending == old(pending)[1..]
      ensures r == Partial ==> |pending| == |old(pending)| && Min(old(tcp.room), 0xFFFF) < |old(pending)[0].data|
      ensures r == Partial ==> pending[0].data == old(pending)[0].data[Min(old(tcp.room), 0xFFFF)..]
      ensures r != Error <==> tcp.refusals == old(tcp.refusals)
      ensures tcp.refusals >= old(tcp.refusals) && tcp.shrinks >= old(tcp.shrinks)
      ensures r != Error && tcp.shrinks == old(tcp.shrinks) ==>
                tcp.room - QueuedBytes(pending) >= old(tcp.room - QueuedBytes(pending))
      ensures r != Error ==> tcp.unsent == 0
      ensures r != Error ==>
                tcp.sends == old(tcp.sends) + (if old(mark) == Some(0) then 2 else 1) + if r == Partial then 1 else 0
    {
      var size := |pending[0].data|;
      var n := Min(size, Min(tcp.room, 0xFFFF));
      ghost var was := written;
      var ok := Offer(n);
      if !ok {
        FailFirst();
        return Error;
      }
      if size <= n {
        assert pending[0].data[n..] == [];
        FinishFirst(was);
        return Sent;
      }
      r := KeepRest(n, was);
    }

    /** What is left to hand over: whole writes, and bytes of the first one. */
    ghost function FirstLeft(): (r: nat)
      reads this`pending
    {
      if pending == [] then 0 else |pending[0].data|
    }

    /** Hands queued writes to the stack, flushed or not, until none is left or its buffer is full.
        With any room at all, it makes progress. */
    method WriteToSocket() returns (ok: bool)
      requires Valid() && isOpen && !outputClosed
      modifies this`pending, this`mark, this`results, this`completed, this`written, tcp`room, tcp`sink, tcp`refusals, tcp`shrinks, tcp`sends, tcp`unsent
      ensures ok ==> Valid() && |pending| <= |old(pending)| && (old(AllMarked()) ==> AllMarked())
      ensures old(tcp.sink) <= tcp.sink
      ensures ok && old(tcp.room) > 0 && old(pending) != [] && |pending| == |old(pending)| ==> FirstLeft() < old(FirstLeft())
      ensures !ok ==> Consistent()
      ensures |results| == |old(results)|
      ensures ok <==> tcp.refusals == old(tcp.refusals)
      ensures tcp.refusals >= old(tcp.refusals) && tcp.shrinks >= old(tcp.shrinks)
      ensures ok && tcp.shrinks == old(tcp.shrinks) ==>
                tcp.room - QueuedBytes(pending) >= old(tcp.room - QueuedBytes(pending))
      ensures ok ==> tcp.unsent == if old(pending) == [] then old(tcp.unsent) else 0
    {
      ok := true;
      while pending != []
        invariant Valid() && |results| == |old(results)| && ok
        invariant tcp.refusals == old(tcp.refusals) && tcp.shrinks >= old(tcp.shrinks)
        invariant tcp.shrinks == old(tcp.shrinks) ==>
                    tcp.room - QueuedBytes(pending) >= old(tcp.room - QueuedBytes(pending))
        invariant old(tcp.sink) <= tcp.sink && (old(AllMarked()) ==> AllMarked())
        invariant |pending| < |old(pending)| || (pending == old(pending) && tcp.room == old(tcp.room))
        invariant tcp.unsent == if pending == old(pending) then old(tcp.unsent) else 0
        decreases |pending|
      {
        var r := WriteFirst();
        if r == Error {
          return false;
        }
        if r == Partial {
          break;
        }
      }
    }

    /** Empties the queue, failing every write in it that has no outcome yet. */
    method FailPending()
      requires Owed(results, completed, pending) && (mark.Some? ==> mark.value < |pending|)
      modifies this`pending, this`mark, this`results
      ensures pending == [] && mark == None && |results| == |old(results)| && Settling(results, completed, true)
    {
      while pending != []
        invariant |results| == |old(results)| && Owed(results, completed, pending)
        invariant mark.Some? ==> mark.value < |pending|
        decreases |pending|
      {
        var id := pending[0].id;
        PopFirst();
        Settle(id, Failed);
      }
    }

    /** Closes both directions, and tells whether the stack could be closed. */
    method CloseAll() returns (r: Settled)
      requires Consistent()
      modifies this`pending, this`mark, this`results, this`inputClosed, this`outputClosed, this`isOpen, tcp`closed
      ensures Valid() && inputClosed && outputClosed && !isOpen
      ensures !old(isOpen) ==> r == Rejected && tcp.closed == old(tcp.closed)
      ensures old(isOpen) ==> tcp.closed == Some(r == Fulfilled) && r != Forgotten
    {
      inputClosed, outputClosed := true, true;
      FailPending();
      if !isOpen {
        return Rejected;
      }
      var ok := tcp.Close();
      r := if ok then Fulfilled else Rejected;
      isOpen := false;
    }

    /** Closes one direction, or both; the second direction to close closes the connection. The
        promise of closing the first direction is never completed. */
    method Close(mode: CloseMode) returns (r: Settled)
      requires Valid()
      modifies this`pending, this`mark, this`results, this`inputClosed, this`outputClosed, this`isOpen, tcp`closed
      ensures Valid()
      ensures outputClosed == (old(outputClosed) || mode != Input)
      ensures inputClosed == (old(inputClosed) || mode != Output)
      ensures isOpen == (old(isOpen) && !(mode == All || (mode == Output && old(inputClosed) && !old(outputClosed)) ||
                                          (mode == Input && old(outputClosed) && !old(inputClosed))))
      ensures r == Forgotten <==> mode != All && !old(inputClosed) && !old(outputClosed)
      ensures r == Fulfilled <==> old(isOpen) && !isOpen && tcp.closed == Some(true)
      ensures old(isOpen) && !isOpen ==> tcp.closed.Some?
      ensures isOpen || !old(isOpen) ==> tcp.closed == old(tcp.closed)
    {
      match mode {
        case Output =>
          if outputClosed {
            return Rejected;
          }
          if inputClosed {
            r := CloseAll();
            return;
          }
          FailPending();
          outputClosed := true;
          r := Forgotten;
        case Input =>
          if inputClosed {
            return Rejected;
          }
          if outputClosed {
            r := CloseAll();
            return;
          }
          inputClosed := true;
          r := Forgotten;
        case All =>
          r := CloseAll();
      }
    }

    method MarkFlushPoint()
      requires Valid()
      modifies this`mark
      ensures Valid() && mark == if pending == [] then old(mark) else Some(|pending| - 1)
    {
      if pending != [] {
        mark := Some(|pending| - 1);
      }
    }

    /** The stack's free space must exceed a small reserve. */
    predicate IsWritable()
      reads tcp`room
    {
      tcp.room > 100
    }

    /** One round of flushing. An error closes the connection. */
    method FlushRound()
      requires Valid() && isOpen && isFlushing && pending != [] && tcp.room > 0
      modifies this`pending, this`mark, this`results, this`completed, this`written
      modifies this`inputClosed, this`outputClosed, this`isOpen, tcp
      ensures Valid() && old(tcp.sink) <= tcp.sink && (old(AllMarked()) ==> AllMarked())
      ensures tcp.refusals >= old(tcp.refusals) && tcp.shrinks >= old(tcp.shrinks)
      ensures if tcp.refusals == old(tcp.refusals)
              then isOpen && outputClosed == old(outputClosed) && inputClosed == old(inputClosed) else !isOpen
      ensures isOpen ==> |pending| < |old(pending)| || (|pending| == |old(pending)| && FirstLeft() < old(FirstLeft()))
      ensures tcp.refusals == old(tcp.refusals) && tcp.shrinks == old(tcp.shrinks) ==>
                tcp.room - QueuedBytes(pending) >= old(tcp.room - QueuedBytes(pending))
      ensures tcp.refusals == old(tcp.refusals) ==> tcp.unsent == 0
    {
      var ok := WriteToSocket();
      if !ok {
        var _ := CloseAll();
      }
    }

    /** Writes while there is something flushed, the channel is open and the stack has room. The channel
        closes exactly if the stack refuses something. */
    method FlushNow()
      requires Valid()
      modifies this`pending, this`mark, this`results, this`completed, this`written
      modifies this`inputClosed, this`outputClosed, this`isOpen, this`isFlushing, tcp
      ensures Valid() && old(tcp.sink) <= tcp.sink && (old(AllMarked()) ==> AllMarked())
      ensures !old(isFlushing) ==> !isFlushing && (mark == None || !isOpen || tcp.room <= 100)
      ensures old(isFlushing) || old(tcp.room) <= 100 ==> tcp.sink == old(tcp.sink) && pending == old(pending)
      ensures if tcp.refusals == old(tcp.refusals)
              then isOpen == old(isOpen) && outputClosed == old(outputClosed) && inputClosed == old(inputClosed)
              else tcp.refusals > old(tcp.refusals) && !isOpen
      ensures tcp.refusals == old(tcp.refusals) && tcp.shrinks == old(tcp.shrinks) ==>
                tcp.room - QueuedBytes(pending) >= old(tcp.room - QueuedBytes(pending))
      ensures tcp.refusals == old(tcp.refusals) && old(tcp.unsent) == 0 ==> tcp.unsent == 0
    {
      if isFlushing {
        return;
      }
      isFlushing := true;
      while mark.Some? && isOpen && IsWritable()
        invariant Valid() && isFlushing && old(tcp.sink) <= tcp.sink && (old(AllMarked()) ==> AllMarked())
        invariant tcp.refusals == old(tcp.refusals) && old(tcp.unsent) == 0 ==> tcp.unsent == 0
        invariant old(tcp.room) <= 100 ==> tcp.sink == old(tcp.sink) && pending == old(pending) && tcp.room == old(tcp.room)
        invariant if tcp.refusals == old(tcp.refusals)
                  then isOpen == old(isOpen) && outputClosed == old(outputClosed) && inputClosed == old(inputClosed)
                  else tcp.refusals > old(tcp.refusals) && !isOpen
        invariant tcp.shrinks >= old(tcp.shrinks)
        invariant tcp.refusals == old(tcp.refusals) && tcp.shrinks == old(tcp.shrinks) ==>
                    tcp.room - QueuedBytes(pending) >= old(tcp.room - QueuedBytes(pending))
        decreases isOpen, |pending|, FirstLeft()
      {
        FlushRound();
      }
      isFlushing := false;
    }

    /** Flushes everything accepted so far. When it stops, either nothing is queued, or the channel was
        closed because the stack refused something, or the stack is short of room. If it refuses nothing
        and has room for all that is queued, and its reserve, then everything accepted is handed over and
        has succeeded. */
    method Flush()
      requires Valid()
      modifies this`pending, this`mark, this`results, this`completed, this`written
      modifies this`inputClosed, this`outputClosed, this`isOpen, this`isFlushing, tcp
      ensures Valid() && old(tcp.sink) <= tcp.sink
      ensures !old(isFlushing) ==> pending == [] || !isOpen || tcp.room <= 100
      ensures old(tcp.room) <= 100 ==> tcp.sink == old(tcp.sink) && pending == old(pending)
      ensures tcp.refusals == old(tcp.refusals) ==> isOpen == old(isOpen) && outputClosed == old(outputClosed)
      ensures tcp.refusals == old(tcp.refusals) && !old(outputClosed) ==> Failed !in results
      ensures tcp.refusals != old(tcp.refusals) ==> !isOpen
      ensures tcp.refusals == old(tcp.refusals) && old(tcp.unsent) == 0 ==> tcp.unsent == 0
      ensures tcp.refusals == old(tcp.refusals) && tcp.shrinks == old(tcp.shrinks) &&
              old(isOpen && !outputClosed && !isFlushing && tcp.room > QueuedBytes(pending) + 100) ==>
                pending == [] && tcp.sink == Joined(accepted) && forall i :: 0 <= i < |results| ==> results[i] == Succeeded
    {
      if !isOpen {
        return;
      }
      MarkFlushPoint();
      FlushNow();
      if pending == [] && !outputClosed {
        AllHanded(accepted, completed, written, tcp.sink);
      }
    }

    /** The stack has acknowledged data, so it may have room again. */
    method AfterSent()
      requires Valid()
      modifies this`pending, this`mark, this`results, this`completed, this`written
      modifies this`inputClosed, this`outputClosed, this`isOpen, this`isFlushing, tcp
      ensures Valid() && old(tcp.sink) <= tcp.sink
      ensures !old(isFlushing) ==> mark == None || !isOpen || tcp.room <= 100
      ensures if tcp.refusals == old(tcp.refusals) then isOpen == old(isOpen) else !isOpen
    {
      if pending != [] {
        FlushNow();
      }
    }
  }

  // What the invariant says about the stream.

  lemma {:induction false} JoinedSplits(parts: seq<Octets>, k: nat)
    requires k <= |parts|
    ensures Joined(parts) == Joined(parts[..k]) + Joined(parts[k..])
    decreases |parts|
  {
    if k == |parts| {
      assert parts[..k] == parts;
    } else {
      var n := |parts| - 1;
      assert parts[..n][..k] == parts[..k] && parts[..n][k..] == parts[k..][..n - k];
      JoinedSplits(parts[..n], k);
    }
  }

  /** Nothing is lost, repeated or reordered: the stack has a prefix of the accepted stream. */
  lemma {:induction false} SinkIsPrefix(accepted: seq<Octets>, completed: nat, written: Octets, sink: Octets)
    requires Handed(accepted, completed, written, sink)
    ensures sink <= Joined(accepted)
  {
    if completed < |accepted| {
      JoinedSplits(accepted, completed + 1);
      JoinedOneMore(accepted, completed);
    } else {
      assert accepted[..completed] == accepted;
    }
  }

  /** A write that succeeded has been handed over up to its last byte, and so has every earlier one. */
  lemma {:induction false} SuccessMeansHanded(
      accepted: seq<Octets>, completed: nat, written: Octets, sink: Octets, results: seq<Outcome>, closed: bool, i: nat)
    requires Handed(accepted, completed, written, sink) && |results| == |accepted| && Settling(results, completed, closed)
    requires i < |results| && results[i] == Succeeded
    ensures Joined(accepted[..i + 1]) <= sink
    ensures forall j :: 0 <= j <= i ==> results[j] == Succeeded
  {
    var done := accepted[..completed];
    JoinedSplits(done, i + 1);
    assert done[..i + 1] == accepted[..i + 1];
  }

  function Contents(pending: seq<Write>): (r: seq<Octets>)
    ensures |r| == |pending| && forall j :: 0 <= j < |r| ==> r[j] == pending[j].data
  {
    seq(|pending|, j requires 0 <= j < |pending| => pending[j].data)
  }

  /** What is queued, in bytes. */
  lemma {:induction false} QueuedBytesMeaning(pending: seq<Write>)
    ensures QueuedBytes(pending) == |Joined(Contents(pending))|
    decreases |pending|
  {
    if pending != [] {
      var parts := Contents(pending);
      QueuedBytesMeaning(pending[1..]);
      JoinedSplits(parts, 1);
      assert parts[..1] == [pending[0].data] && parts[1..] == Contents(pending[1..]);
      assert Joined([pending[0].data]) == Joined([]) + pending[0].data;
    }
  }

  lemma {:induction false} JoinedFront(part: Octets, rest: seq<Octets>)
    ensures Joined([part] + rest) == part + Joined(rest)
  {
    JoinedSplits([part] + rest, 1);
    assert ([part] + rest)[..1] == [part] && ([part] + rest)[1..] == rest;
    assert [part][..0] == [];
  }

  /** While output is open, what the stack has and what is queued make up the accepted stream. */
  lemma {:induction false} StreamIsConserved(accepted: seq<Octets>, completed: nat, written: Octets, sink: Octets, pending: seq<Write>)
    requires Handed(accepted, completed, written, sink) && Queued(accepted, completed, written, pending)
    ensures sink + Joined(Contents(pending)) == Joined(accepted)
  {
    JoinedSplits(accepted, completed);
    var left, queue := accepted[completed..], Contents(pending);
    if pending == [] {
      assert left == [] && accepted[..completed] == accepted;
    } else {
      assert queue == [queue[0]] + queue[1..];
      LeftIsQueued(accepted, completed, written, pending);
      JoinedFront(accepted[completed], queue[1..]);
      JoinedFront(queue[0], queue[1..]);
      Regroup(Joined(accepted[..completed]), written, queue[0], Joined(queue[1..]));
    }
  }

  lemma {:induction false} LeftIsQueued(accepted: seq<Octets>, completed: nat, written: Octets, pending: seq<Write>)
    requires Queued(accepted, completed, written, pending) && pending != []
    ensures accepted[completed..] == [accepted[completed]] + Contents(pending)[1..]
  {
  }

  lemma {:induction false} Regroup(a: Octets, b: Octets, c: Octets, d: Octets)
    ensures (a + b) + (c + d) == a + ((b + c) + d)
  {
  }
}
