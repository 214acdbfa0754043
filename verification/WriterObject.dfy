// The writer's session as it runs: one method per locked section of the two
// threads, each proved against the session step it performs.
module WriterObject {
  import opened Base
  import opened Format
  import opened Sealing
  import opened Validator
  import opened VolumeServer
  import opened Media
  import opened Writer

  class WriterSession {
    const hash: Hasher
    const limit: nat
    const sink: RecordSink
    const validator: FrameValidator
    var seeded: bool
    var receiver: Receiver
    var queue: seq<Pending>
    var queuedBytes: nat
    var output: Output
    ghost var received: seq<seq<u8>>
    ghost var input: seq<TapeItem>
    var acks: seq<u64>

    ghost function W(): Writer
      reads this, sink, validator
    {
      Writer(limit, sink.capacity, sink.used, if seeded then Some(validator.S()) else None, receiver, queue,
             queuedBytes, output, received, sink.medium, acks, sink.tape, input)
    }

    ghost predicate Valid()
      reads this, sink, validator
    {
      sink.Valid() && validator.hash == hash
    }

    constructor (hash: Hasher, limit: nat, capacity: Option<u64>, used: u64)
      requires limit > 0 && SinkFits(capacity, used)
      ensures Valid() && this.hash == hash && W() == Session(limit, capacity, used)
      ensures fresh(sink) && fresh(validator)
    {
      this.hash := hash;
      this.limit := limit;
      sink := new RecordSink(capacity, used);
      validator := new FrameValidator(hash);
      seeded, receiver, queue, queuedBytes, output, received, input, acks := false, Asking, [], 0, Idle, [], [], [];
    }

    method CheckQueue()
      requires Valid() && MayCheck(W())
      modifies this`receiver
      ensures Valid() && W() == Check(old(W()))
    {
      receiver := if output.Stopped? then DoneReceiving else Cleared;
    }

    method Push(item: Pending)
      requires Valid()
      modifies this`queue, this`queuedBytes, this`received, this`input, this`receiver
      ensures Valid() && W() == Enqueue(old(W()), item)
    {
      if output.Stopped? {
        receiver := DoneReceiving;
        return;
      }
      queue := queue + [item];
      queuedBytes := queuedBytes + item.Size();
      received := if item.FramePending? then received + [item.record] else received;
      input := input + [item.OnTape()];
      receiver := if item.FramePending? && item.isEnd then DoneReceiving else Asking;
    }

    /** A received frame. After a refusal the validator is not used again. */
    method Examine(r: Record)
      requires Valid() && !output.Stopped?
      modifies this`queue, this`queuedBytes, this`received, this`input, this`receiver, this`seeded, validator
      ensures Valid()
      ensures var next := TakeRecord(hash, old(W()), r);
              W() == if next.receiver.ReceiveFailed? then next.(validator := W().validator) else next
    {
      hide Judge, Enqueue;
      if !seeded {
        validator.SeedForStreamStart(r.H());
        seeded := true;
      }
      var error := validator.Validate(r, false);
      if error.Some? || validator.lastWasReplay {
        receiver := ReceiveFailed;
        return;
      }
      Pushed(W(), FramePending(r.data, r.H().global, r.IsEnd()));
      Push(FramePending(r.data, r.H().global, r.IsEnd()));
    }

    lemma Pushed(w: Writer, item: Pending)
      requires !w.output.Stopped?
      ensures !Enqueue(w, item).receiver.ReceiveFailed?
    {
    }

    method Receive(reply: Reply)
      requires Valid() && receiver.Awaiting?
      modifies this`queue, this`queuedBytes, this`received, this`input, this`receiver, this`seeded, validator
      ensures Valid()
      ensures var next := ReceiveReply(hash, old(W()), reply);
              W() == if next.receiver.ReceiveFailed? then next.(validator := W().validator) else next
    {
      hide TakeRecord, CheckFrame;
      if output.Stopped? {
        receiver := DoneReceiving;
        return;
      }
      match reply {
        case TapeEofReply =>
          Push(FilemarkPending);
        case ErrorReply(_) =>
          receiver := ReceiveFailed;
        case FrameRecord(bytes) =>
          var r := Arrived(hash, bytes);
          if r.None? {
            receiver := ReceiveFailed;
            return;
          }
          Examine(r.value);
      }
    }

    method Pop()
      requires Valid() && MayTake(W()) && queuedBytes == QueueBytes(queue)
      modifies this`queue, this`queuedBytes, this`output
      ensures Valid() && W() == TakeItem(old(W()))
    {
      if queue == [] {
        output := Stopped(Failed);
        return;
      }
      var item := queue[0];
      queue := queue[1..];
      queuedBytes := queuedBytes - item.Size();
      output := Holding(item);
    }

    method WriteOut(d: Device)
      requires Valid() && output.Holding?
      modifies this`output, sink
      ensures Valid() && W() == WriteItem(old(W()), d)
    {
      var item := output.item;
      if item.FilemarkPending? {
        var ok := !d.WriteFails? && !d.StatusFails?;
        sink.WriteFilemark(ok);
        output := if ok then Idle else StopFor(d.nospc);
        return;
      }
      var r := sink.Write(item.record, d);
      output := match r
                case Refused(nospc) => StopFor(nospc)
                case Uncertain(nospc) => StopFor(nospc)
                case Accepted(atEnd) => Written(item, atEnd);
    }

    method SendAck() returns (global: u64)
      requires Valid() && output.Written? && output.item.FramePending?
      modifies this`acks, this`output
      ensures Valid() && W() == Acknowledge(old(W())) && global == old(output).item.global
    {
      var item := output.item;
      global := item.global;
      acks := acks + [global];
      output := if item.isEnd then Closing else if output.atEnd then Stopped(VolumeFull) else Idle;
    }

    method Finish(ok: bool)
      requires Valid() && output.Closing?
      modifies this`output, sink
      ensures Valid() && W() == CloseMedium(old(W()), ok)
    {
      sink.WriteFilemark(ok);
      output := Stopped(if ok then Complete else Failed);
    }

    /** One turn of the output thread's loop. */
    method TakeTurn(t: Turn)
      requires Valid() && MayTake(W()) && WriterInv(hash, W())
      modifies this`queue, this`queuedBytes, this`output, this`acks, sink
      ensures Valid() && W() == OutputTurn(old(W()), t)
    {
      TakeKeeps(hash, W());
      BytesOfInv(hash, W());
      hide TakeItem, WriteItem, Acknowledge, CloseMedium, WriterInv, MayTake;
      Pop();
      if !output.Holding? {
        return;
      }
      WriteOut(t.device);
      if !output.Written? || !output.item.FramePending? {
        return;
      }
      var global := SendAck();
      if output.Closing? {
        Finish(t.closes);
      }
    }

    lemma BytesOfInv(hash: Hasher, w: Writer)
      requires WriterInv(hash, w)
      ensures w.queuedBytes == QueueBytes(w.queue)
    {
    }

    /** `output_records`: item after item, until there is nothing to take, the
        session has stopped, or the drive has no more answers. */
    method OutputRecords(turns: seq<Turn>)
      requires Valid() && WriterInv(hash, W())
      modifies this`queue, this`queuedBytes, this`output, this`acks, sink
      ensures Valid() && WriterInv(hash, W())
      ensures SinkFits(old(W()).capacity, old(W()).used) && W() == OutputRun(old(W()), turns)
    {
      hide OutputTurn, WriterInv, MayTake;
      ghost var w := W();
      RunOutKeeps(hash, w, turns);
      var i := 0;
      while i < |turns|
        invariant 0 <= i <= |turns| && Valid() && WriterInv(hash, W())
        invariant W() == OutputRun(w, turns[..i])
      {
        assert turns[..i + 1][..i] == turns[..i];
        if !CanTake() {
          RunEnds(w, turns, i);
          return;
        }
        TurnKeeps(hash, W(), turns[i]);
        TakeTurn(turns[i]);
        i := i + 1;
      }
      assert turns[..i] == turns;
    }

    predicate CanTake()
      reads this, sink, validator
      ensures CanTake() == MayTake(W())
    {
      output.Idle? && (queue != [] || receiver.DoneReceiving? || receiver.ReceiveFailed?)
    }
  }

  /** With nothing to take, further answers of the drive change nothing. */
  lemma {:induction false} RunEnds(w: Writer, turns: seq<Turn>, n: nat)
    requires SinkFits(w.capacity, w.used) && n <= |turns| && !MayTake(OutputRun(w, turns[..n]))
    ensures OutputRun(w, turns) == OutputRun(w, turns[..n])
    decreases |turns| - n
  {
    hide OutputTurn, MayTake;
    if n == |turns| {
      assert turns[..n] == turns;
    } else {
      assert turns[..n + 1][..n] == turns[..n];
      RunEnds(w, turns, n + 1);
    }
  }
}
