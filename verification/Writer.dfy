// The tape writer's session: the receiving thread and the output thread as steps
// on one shared state, and the capacity-limited sink.
module Writer {
  import opened Base
  import opened Format
  import opened Sealing
  import opened Validator
  import opened VolumeServer
  import opened Media

  // ----------------------------------------------------------------- the sink

  /** What the tape drive does with a record (or a filemark). */
  datatype Device = EndBefore | WriteFails(nospc: bool) | StatusFails(nospc: bool) | Wrote(atEnd: bool)

  /** Refused: nothing on the medium. Uncertain: on the medium, but an error. */
  datatype SinkOutcome = Refused(nospc: bool) | Uncertain(nospc: bool) | Accepted(atEnd: bool)

  function SinkWrite(capacity: Option<u64>, used: u64, size: nat, d: Device): SinkOutcome
    requires capacity.Some? ==> used <= capacity.value
  {
    if capacity.Some? && size > capacity.value - used then Refused(true)
    else
      match d
      case EndBefore => Refused(true)
      case WriteFails(nospc) => Refused(nospc)
      case StatusFails(nospc) => Uncertain(nospc)
      case Wrote(atEnd) => Accepted(atEnd)
  }

  /** What lies on the medium. */
  datatype TapeItem = OnTape(record: seq<u8>) | Filemark

  /** The records of a tape, without its filemarks. */
  function RecordsOn(tape: seq<TapeItem>): seq<seq<u8>> {
    if tape == [] then []
    else
      var last := tape[|tape| - 1];
      RecordsOn(tape[..|tape| - 1]) + if last.OnTape? then [last.record] else []
  }

  lemma TapeSnoc(tape: seq<TapeItem>, item: TapeItem)
    ensures RecordsOn(tape + [item]) == RecordsOn(tape) + if item.OnTape? then [item.record] else []
  {
    assert (tape + [item])[..|tape|] == tape;
  }

  class RecordSink {
    const capacity: Option<u64>
    var used: u64
    ghost var medium: seq<seq<u8>>
    ghost var tape: seq<TapeItem>

    predicate Valid()
      reads this
    {
      capacity.Some? ==> used <= capacity.value
    }

    constructor (capacity: Option<u64>, used: u64)
      requires capacity.Some? ==> used <= capacity.value
      ensures Valid() && this.capacity == capacity && this.used == used && medium == [] && tape == []
    {
      this.capacity := capacity;
      this.used := used;
      medium := [];
      tape := [];
    }

    method Write(record: seq<u8>, d: Device) returns (r: SinkOutcome)
      requires Valid()
      modifies this
      ensures Valid() && r == SinkWrite(capacity, old(used), |record|, d)
      ensures medium == if r.Refused? then old(medium) else old(medium) + [record]
      ensures tape == if r.Refused? then old(tape) else old(tape) + [OnTape(record)]
      ensures used == if r.Refused? then old(used) else (old(used) + |record|) % TWO_64
    {
      if capacity.Some? && |record| > capacity.value - used {
        return Refused(true);
      }
      if d.EndBefore? {
        return Refused(true);
      }
      if d.WriteFails? {
        return Refused(d.nospc);
      }
      medium := medium + [record];
      tape := tape + [OnTape(record)];
      used := (used + |record|) % TWO_64;
      return if d.StatusFails? then Uncertain(d.nospc) else Accepted(d.atEnd);
    }

    /** A filemark, which counts toward no limit. */
    method WriteFilemark(ok: bool)
      modifies this`tape
      ensures tape == if ok then old(tape) + [Filemark] else old(tape)
    {
      if ok {
        tape := tape + [Filemark];
      }
    }
  }

  // -------------------------------------------------------------- the session

  datatype Pending = FramePending(record: seq<u8>, global: u64, isEnd: bool) | FilemarkPending {
    function Size(): nat { if FramePending? then |record| else 0 }

    function OnTape(): TapeItem { if FramePending? then TapeItem.OnTape(record) else Filemark }
  }

  /** The receiving thread: about to look at the queue size, cleared to ask, waiting
      for the reply, or finished. */
  datatype Receiver = Asking | Cleared | Awaiting | DoneReceiving | ReceiveFailed

  datatype Status = Complete | VolumeFull | Failed

  /** The output thread: idle, holding a popped item, holding a written but not yet
      acknowledged record, closing the archive with a filemark, or stopped. */
  datatype Output =
    | Idle | Holding(item: Pending) | Written(item: Pending, atEnd: bool) | Closing | Stopped(status: Status)

  datatype Writer = Writer(
    limit: nat,
    capacity: Option<u64>,
    used: u64,
    validator: Option<State>,
    receiver: Receiver,
    queue: seq<Pending>,
    queuedBytes: nat,
    output: Output,
    received: seq<seq<u8>>,
    medium: seq<seq<u8>>,
    acks: seq<u64>,
    tape: seq<TapeItem>,
    input: seq<TapeItem>)

  predicate SinkFits(capacity: Option<u64>, used: u64) {
    capacity.Some? ==> used <= capacity.value
  }

  function Session(limit: nat, capacity: Option<u64>, used: u64): Writer {
    Writer(limit, capacity, used, None, Asking, [], 0, Idle, [], [], [], [], [])
  }

  /** The receiver may ask once the queue is below the limit. */
  predicate MayCheck(w: Writer) {
    w.receiver.Asking? && (w.output.Stopped? || w.queuedBytes < w.limit)
  }

  function Check(w: Writer): Writer
    requires MayCheck(w)
  {
    w.(receiver := if w.output.Stopped? then DoneReceiving else Cleared)
  }

  function Ask(w: Writer): Writer
    requires w.receiver.Cleared?
  {
    w.(receiver := Awaiting)
  }

  function Enqueue(w: Writer, item: Pending): Writer {
    if w.output.Stopped? then w.(receiver := DoneReceiving)
    else
      w.(queue := w.queue + [item],
         queuedBytes := w.queuedBytes + item.Size(),
         received := if item.FramePending? then w.received + [item.record] else w.received,
         input := w.input + [item.OnTape()],
         receiver := if item.FramePending? && item.isEnd then DoneReceiving else Asking)
  }

  /** A frame: seed on the first one, validate strictly, and refuse replays. */
  function TakeRecord(hash: Hasher, w: Writer, r: Record): Writer {
    var v := if w.validator.Some? then w.validator.value else Seeded(r.H());
    match Judge(hash, v, r, false)
    case Err(_) => w.(receiver := ReceiveFailed, validator := Some(v))
    case Ok(verdict) =>
      var w := w.(validator := Some(verdict.next));
      if verdict.replay then w.(receiver := ReceiveFailed)
      else Enqueue(w, FramePending(r.data, r.H().global, r.IsEnd()))
  }

  function ReceiveReply(hash: Hasher, w: Writer, reply: Reply): Writer
    requires w.receiver.Awaiting?
  {
    if w.output.Stopped? then w.(receiver := DoneReceiving)
    else
      match reply
      case TapeEofReply => Enqueue(w, FilemarkPending)
      case ErrorReply(_) => w.(receiver := ReceiveFailed)
      case FrameRecord(bytes) =>
        match Arrived(hash, bytes)
        case None => w.(receiver := ReceiveFailed)
        case Some(r) => TakeRecord(hash, w, r)
  }

  predicate InputClosed(w: Writer) {
    w.receiver.DoneReceiving? || w.receiver.ReceiveFailed?
  }

  predicate MayTake(w: Writer) {
    w.output.Idle? && (w.queue != [] || InputClosed(w))
  }

  function TakeItem(w: Writer): Writer
    requires MayTake(w)
  {
    if w.queue == [] then w.(output := Stopped(Failed))
    else
      var item := w.queue[0];
      w.(queue := w.queue[1..],
         queuedBytes := if item.Size() <= w.queuedBytes then w.queuedBytes - item.Size() else 0,
         output := Holding(item))
  }

  function StopFor(nospc: bool): Output {
    Stopped(if nospc then VolumeFull else Failed)
  }

  function WriteItem(w: Writer, d: Device): Writer
    requires w.output.Holding? && SinkFits(w.capacity, w.used)
  {
    var item := w.output.item;
    if item.FilemarkPending? then
      if d.WriteFails? || d.StatusFails? then w.(output := StopFor(d.nospc))
      else w.(output := Idle, tape := w.tape + [Filemark])
    else
      match SinkWrite(w.capacity, w.used, |item.record|, d)
      case Refused(nospc) => w.(output := StopFor(nospc))
      case Uncertain(nospc) =>
        w.(used := (w.used + |item.record|) % TWO_64, medium := w.medium + [item.record],
           tape := w.tape + [OnTape(item.record)], output := StopFor(nospc))
      case Accepted(atEnd) =>
        w.(used := (w.used + |item.record|) % TWO_64, medium := w.medium + [item.record],
           tape := w.tape + [OnTape(item.record)], output := Written(item, atEnd))
  }

  function Acknowledge(w: Writer): Writer
    requires w.output.Written? && w.output.item.FramePending?
  {
    var item := w.output.item;
    w.(acks := w.acks + [item.global],
       output := if item.isEnd then Closing else if w.output.atEnd then Stopped(VolumeFull) else Idle)
  }

  /** The final filemark; a failure there is an error, never "volume full". */
  function CloseMedium(w: Writer, ok: bool): Writer
    requires w.output.Closing?
  {
    w.(output := Stopped(if ok then Complete else Failed), tape := if ok then w.tape + [Filemark] else w.tape)
  }

  /** What `write_volume` returns once the output thread has stopped. */
  function Result(w: Writer): Option<Status>
    requires w.output.Stopped?
  {
    if w.output.status.Failed? || w.receiver.ReceiveFailed? then None else Some(w.output.status)
  }

  // ------------------------------------------- what every interleaving keeps

  function QueueBytes(queue: seq<Pending>): nat {
    if queue == [] then 0 else queue[0].Size() + QueueBytes(queue[1..])
  }

  function Records(queue: seq<Pending>): seq<seq<u8>> {
    if queue == [] then []
    else (if queue[0].FramePending? then [queue[0].record] else []) + Records(queue[1..])
  }

  /** The queued header fields are those of the record. */
  ghost predicate Faithful(hash: Hasher, item: Pending) {
    item.FramePending? ==>
      && Arrived(hash, item.record).Some?
      && Arrived(hash, item.record).value.H().global == item.global
      && (Arrived(hash, item.record).value.IsEnd() <==> item.isEnd)
  }

  ghost predicate AllFaithful(hash: Hasher, queue: seq<Pending>) {
    forall i :: 0 <= i < |queue| ==> Faithful(hash, queue[i])
  }

  ghost predicate IsArchiveEnd(hash: Hasher, record: seq<u8>) {
    Arrived(hash, record).Some? && Arrived(hash, record).value.IsEnd()
  }

  ghost predicate Numbered(hash: Hasher, acks: seq<u64>, medium: seq<seq<u8>>) {
    && |acks| <= |medium|
    && forall i :: 0 <= i < |acks| ==>
         Arrived(hash, medium[i]).Some? && Arrived(hash, medium[i]).value.H().global == acks[i]
  }

  ghost predicate OutputInv(hash: Hasher, w: Writer) {
    match w.output
    case Idle => |w.acks| == |w.medium| && w.received == w.medium + Records(w.queue)
    case Holding(item) =>
      |w.acks| == |w.medium| && Faithful(hash, item) && w.received == w.medium + Records([item] + w.queue)
    case Written(item, _) =>
      && item.FramePending? && Faithful(hash, item)
      && |w.medium| == |w.acks| + 1 && w.medium[|w.acks|] == item.record
      && w.tape != [] && w.tape[|w.tape| - 1] == OnTape(item.record)
      && w.received == w.medium + Records(w.queue)
    case Closing =>
      && Ended(hash, w) && w.received == w.medium + Records(w.queue)
      && w.tape != [] && w.tape[|w.tape| - 1] == OnTape(w.medium[|w.medium| - 1])
    case Stopped(status) =>
      status.Complete? ==> Ended(hash, w) && ClosedByMark(w) && w.received == w.medium + Records(w.queue)
  }

  /** The last record on the tape is followed by a filemark, and nothing else. */
  ghost predicate ClosedByMark(w: Writer) {
    && w.medium != [] && |w.tape| >= 2
    && w.tape[|w.tape| - 2..] == [OnTape(w.medium[|w.medium| - 1]), Filemark]
  }

  /** The archive end is on the medium, last, and acknowledged. */
  ghost predicate Ended(hash: Hasher, w: Writer) {
    0 < |w.acks| == |w.medium| && IsArchiveEnd(hash, w.medium[|w.medium| - 1])
  }

  /** ACKs are a prefix of what was written, which is a prefix of what was
      validated and received, with at most one written but not acknowledged. */
  ghost predicate WriterInv(hash: Hasher, w: Writer) {
    && 0 < w.limit && SinkFits(w.capacity, w.used)
    && w.queuedBytes == QueueBytes(w.queue)
    && AllFaithful(hash, w.queue)
    && Numbered(hash, w.acks, w.medium) && |w.medium| <= |w.acks| + 1
    && w.medium <= w.received && RecordsOn(w.tape) == w.medium
    && OutputInv(hash, w)
  }

  lemma {:induction false} QueueSnoc(queue: seq<Pending>, item: Pending)
    ensures QueueBytes(queue + [item]) == QueueBytes(queue) + item.Size()
    ensures Records(queue + [item]) == Records(queue) + if item.FramePending? then [item.record] else []
  {
    if queue == [] {
      assert [item][1..] == [];
    } else {
      QueueSnoc(queue[1..], item);
      assert (queue + [item])[1..] == queue[1..] + [item];
    }
  }

  lemma EnqueueKeepsOutput(hash: Hasher, w: Writer, item: Pending)
    requires OutputInv(hash, w) && !w.output.Stopped?
    ensures OutputInv(hash, Enqueue(w, item))
  {
    hide Faithful, IsArchiveEnd, Records, QueueBytes, SinkFits;
    QueueSnoc(w.queue, item);
    if w.output.Holding? {
      QueueSnoc([w.output.item] + w.queue, item);
      assert [w.output.item] + (w.queue + [item]) == ([w.output.item] + w.queue) + [item];
    }
  }

  lemma EnqueueKeeps(hash: Hasher, w: Writer, item: Pending)
    requires WriterInv(hash, w) && Faithful(hash, item)
    ensures WriterInv(hash, Enqueue(w, item))
  {
    hide Faithful, Numbered, OutputInv, Records, QueueBytes;
    if !w.output.Stopped? {
      QueueSnoc(w.queue, item);
      EnqueueKeepsOutput(hash, w, item);
    } else {
      StoppedKeeps(hash, w);
    }
  }

  lemma StoppedKeeps(hash: Hasher, w: Writer)
    requires OutputInv(hash, w) && w.output.Stopped?
    ensures OutputInv(hash, w.(receiver := DoneReceiving))
  {
  }

  lemma SetupKeeps(hash: Hasher, w: Writer, v: Option<State>, r: Receiver)
    requires WriterInv(hash, w)
    ensures WriterInv(hash, w.(validator := v)) && WriterInv(hash, w.(validator := v, receiver := r))
  {
    hide QueueBytes, Records, Numbered, AllFaithful, Faithful, IsArchiveEnd, RecordsOn, SinkFits;
  }

  lemma RecordKeeps(hash: Hasher, w: Writer, r: Record)
    requires WriterInv(hash, w) && Arrived(hash, r.data) == Some(r)
    ensures WriterInv(hash, TakeRecord(hash, w, r))
  {
    hide Judge, Seeded, Arrived, IsArchiveEnd, Enqueue, WriterInv;
    var v := if w.validator.Some? then w.validator.value else Seeded(r.H());
    var j := Judge(hash, v, r, false);
    SetupKeeps(hash, w, Some(v), ReceiveFailed);
    if j.Ok? {
      var next := w.(validator := Some(j.value.next));
      SetupKeeps(hash, w, Some(j.value.next), ReceiveFailed);
      EnqueueKeeps(hash, next, FramePending(r.data, r.H().global, r.IsEnd()));
    }
  }

  lemma ReceiveKeeps(hash: Hasher, w: Writer, reply: Reply)
    requires WriterInv(hash, w) && w.receiver.Awaiting?
    ensures WriterInv(hash, ReceiveReply(hash, w, reply))
  {
    hide TakeRecord, QueueBytes, Records, Numbered, IsArchiveEnd, AllFaithful, Enqueue, CheckFrame;
    if w.output.Stopped? || reply.ErrorReply? {
    } else if reply.TapeEofReply? {
      EnqueueKeeps(hash, w, FilemarkPending);
    } else if Arrived(hash, reply.record).Some? {
      RecordKeeps(hash, w, Arrived(hash, reply.record).value);
    }
  }

  lemma TakeKeeps(hash: Hasher, w: Writer)
    requires WriterInv(hash, w) && MayTake(w)
    ensures WriterInv(hash, TakeItem(w))
  {
    hide Numbered, Ended, Faithful;
    if w.queue != [] {
      assert [w.queue[0]] + w.queue[1..] == w.queue;
    }
  }

  lemma MarkKeeps(hash: Hasher, w: Writer, d: Device)
    requires WriterInv(hash, w) && w.output.Holding? && w.output.item.FilemarkPending?
    ensures WriterInv(hash, WriteItem(w, d))
  {
    hide Arrived, Ended, ClosedByMark, RecordsOn, QueueBytes, Numbered, AllFaithful;
    assert ([w.output.item] + w.queue)[1..] == w.queue;
    TapeSnoc(w.tape, Filemark);
  }

  lemma WrittenNumbered(hash: Hasher, acks: seq<u64>, medium: seq<seq<u8>>, record: seq<u8>)
    requires Numbered(hash, acks, medium)
    ensures Numbered(hash, acks, medium + [record])
  {
    hide Arrived;
  }

  lemma FrameKeeps(hash: Hasher, w: Writer, d: Device)
    requires WriterInv(hash, w) && w.output.Holding? && w.output.item.FramePending?
    ensures WriterInv(hash, WriteItem(w, d))
  {
    hide Arrived, Ended, ClosedByMark, RecordsOn, QueueBytes, Numbered, AllFaithful, Faithful;
    var item := w.output.item;
    assert ([item] + w.queue)[1..] == w.queue;
    TapeSnoc(w.tape, OnTape(item.record));
    WrittenNumbered(hash, w.acks, w.medium, item.record);
    assert w.medium + ([item.record] + Records(w.queue)) == (w.medium + [item.record]) + Records(w.queue);
  }

  lemma WriteKeeps(hash: Hasher, w: Writer, d: Device)
    requires WriterInv(hash, w) && w.output.Holding?
    ensures WriterInv(hash, WriteItem(w, d))
  {
    hide WriterInv;
    if w.output.item.FilemarkPending? {
      MarkKeeps(hash, w, d);
    } else {
      FrameKeeps(hash, w, d);
    }
  }

  lemma AcknowledgeKeeps(hash: Hasher, w: Writer)
    requires WriterInv(hash, w) && w.output.Written?
    ensures w.output.item.FramePending? && WriterInv(hash, Acknowledge(w))
  {
    hide Arrived, Records, QueueBytes, RecordsOn;
  }

  lemma CloseKeepsMedium(hash: Hasher, w: Writer, ok: bool)
    requires WriterInv(hash, w) && w.output.Closing?
    ensures WriterInv(hash, CloseMedium(w, ok))
  {
    hide Arrived, Records, QueueBytes, RecordsOn, IsArchiveEnd;
    TapeSnoc(w.tape, Filemark);
  }

  /** Every step of either thread, whatever the peer sends and whatever the drive
      does, keeps the session invariant. */
  lemma SessionKeeps(hash: Hasher, w: Writer, reply: Reply, d: Device, ok: bool)
    requires WriterInv(hash, w)
    ensures MayCheck(w) ==> WriterInv(hash, Check(w))
    ensures w.receiver.Cleared? ==> WriterInv(hash, Ask(w))
    ensures w.receiver.Awaiting? ==> WriterInv(hash, ReceiveReply(hash, w, reply))
    ensures MayTake(w) ==> WriterInv(hash, TakeItem(w))
    ensures w.output.Holding? ==> WriterInv(hash, WriteItem(w, d))
    ensures w.output.Written? ==> w.output.item.FramePending? && WriterInv(hash, Acknowledge(w))
    ensures w.output.Closing? ==> WriterInv(hash, CloseMedium(w, ok))
  {
    hide Numbered, Faithful, AllFaithful, IsArchiveEnd, QueueBytes, Records, RecordsOn;
    if w.receiver.Awaiting? {
      ReceiveKeeps(hash, w, reply);
    }
    if MayTake(w) {
      TakeKeeps(hash, w);
    }
    if w.output.Holding? {
      WriteKeeps(hash, w, d);
    }
    if w.output.Written? {
      AcknowledgeKeeps(hash, w);
    }
    if w.output.Closing? {
      CloseKeepsMedium(hash, w, ok);
    }
  }

  lemma SessionStarts(hash: Hasher, limit: nat, capacity: Option<u64>, used: u64)
    requires limit > 0 && SinkFits(capacity, used)
    ensures WriterInv(hash, Session(limit, capacity, used))
  {
  }

  /** "Complete" is returned only when the archive end is the last record on the
      tape, was acknowledged, and was closed with a filemark. */
  lemma CompleteMeansEnded(hash: Hasher, w: Writer)
    requires WriterInv(hash, w) && w.output.Stopped? && Result(w) == Some(Complete)
    ensures |w.acks| == |w.medium| <= |w.received| && RecordsOn(w.tape) == w.medium
    ensures |w.tape| >= 2 && w.tape[|w.tape| - 1] == Filemark
    ensures w.tape[|w.tape| - 2].OnTape? && IsArchiveEnd(hash, w.tape[|w.tape| - 2].record)
  {
  }

  // ------------------------------------------------------ the output thread's loop

  /** What the drive answers in one turn of the loop: to the item, and to the
      closing filemark if the item was the archive end. */
  datatype Turn = Turn(device: Device, closes: bool)

  /** One turn: an item is taken, written, and acknowledged if it is a record. */
  function OutputTurn(w: Writer, t: Turn): Writer
    requires MayTake(w) && SinkFits(w.capacity, w.used)
    ensures var r := OutputTurn(w, t); SinkFits(r.capacity, r.used)
  {
    var w := TakeItem(w);
    if !w.output.Holding? then w
    else
      var w := WriteItem(w, t.device);
      if !w.output.Written? || !w.output.item.FramePending? then w
      else
        var w := Acknowledge(w);
        if w.output.Closing? then CloseMedium(w, t.closes) else w
  }

  /** Turn after turn while there is something to take. */
  function OutputRun(w: Writer, turns: seq<Turn>): Writer
    requires SinkFits(w.capacity, w.used)
    ensures var r := OutputRun(w, turns); SinkFits(r.capacity, r.used)
  {
    if turns == [] then w
    else
      var before := OutputRun(w, turns[..|turns| - 1]);
      if MayTake(before) then OutputTurn(before, turns[|turns| - 1]) else before
  }

  lemma TurnKeeps(hash: Hasher, w: Writer, t: Turn)
    requires WriterInv(hash, w) && MayTake(w)
    ensures WriterInv(hash, OutputTurn(w, t))
  {
    FitsOf(hash, w);
    hide WriterInv, TakeItem, WriteItem, Acknowledge, CloseMedium;
    TakeKeeps(hash, w);
    var w1 := TakeItem(w);
    if w1.output.Holding? {
      WriteKeeps(hash, w1, t.device);
      FitsOf(hash, w1);
      var w2 := WriteItem(w1, t.device);
      if w2.output.Written? {
        AcknowledgeKeeps(hash, w2);
        var w3 := Acknowledge(w2);
        if w3.output.Closing? {
          CloseKeepsMedium(hash, w3, t.closes);
        }
      }
    }
  }

  lemma FitsOf(hash: Hasher, w: Writer)
    requires WriterInv(hash, w)
    ensures SinkFits(w.capacity, w.used)
  {
  }

  lemma {:induction false} RunOutKeeps(hash: Hasher, w: Writer, turns: seq<Turn>)
    requires WriterInv(hash, w)
    ensures SinkFits(w.capacity, w.used) && WriterInv(hash, OutputRun(w, turns))
  {
    FitsOf(hash, w);
    hide WriterInv, OutputTurn, MayTake;
    if turns != [] {
      var n := |turns| - 1;
      RunOutKeeps(hash, w, turns[..n]);
      if MayTake(OutputRun(w, turns[..n])) {
        TurnKeeps(hash, OutputRun(w, turns[..n]), turns[n]);
      }
    }
  }

  /** A drive that takes everything and a medium without limit. */
  ghost predicate Willing(w: Writer, turns: seq<Turn>) {
    w.capacity.None? && forall i :: 0 <= i < |turns| ==> turns[i] == Turn(Wrote(false), true)
  }

  /** The archive end is not followed by anything. */
  predicate EndIsLast(queue: seq<Pending>) {
    forall i :: 0 <= i < |queue| - 1 ==> queue[i].FramePending? ==> !queue[i].isEnd
  }

  /** One willing turn on a queue: the first item is gone, onto the tape. */
  lemma WillingTurn(w: Writer)
    requires w.output.Idle? && w.capacity.None? && w.queue != []
    ensures var t := OutputTurn(w, Turn(Wrote(false), true));
            && t.queue == w.queue[1..] && t.capacity.None? && t.received == w.received
            && t.output == (if w.queue[0].FramePending? && w.queue[0].isEnd then Stopped(Complete) else Idle)
  {
  }

  lemma {:induction false} RunFromFront(w: Writer, turns: seq<Turn>)
    requires SinkFits(w.capacity, w.used) && turns != [] && MayTake(w)
    ensures SinkFits(OutputTurn(w, turns[0]).capacity, OutputTurn(w, turns[0]).used)
    ensures OutputRun(w, turns) == OutputRun(OutputTurn(w, turns[0]), turns[1..])
  {
    hide OutputTurn, MayTake;
    var n := |turns| - 1;
    TurnFits(w, turns[0]);
    if n == 0 {
      assert turns[..0] == [];
    } else {
      RunFromFront(w, turns[..n]);
      assert turns[..n][0] == turns[0] && turns[..n][1..] == turns[1..][..n - 1];
    }
  }

  lemma TurnFits(w: Writer, t: Turn)
    requires SinkFits(w.capacity, w.used) && MayTake(w)
    ensures SinkFits(OutputTurn(w, t).capacity, OutputTurn(w, t).used)
  {
  }

  /** With a willing drive the loop writes and acknowledges all that is queued, in
      order, and completes exactly when the archive end was among it. */
  lemma {:induction false} OutputDrains(hash: Hasher, w: Writer, turns: seq<Turn>)
    requires WriterInv(hash, w) && w.output.Idle? && Willing(w, turns) && |turns| == |w.queue| && EndIsLast(w.queue)
    ensures SinkFits(w.capacity, w.used)
    ensures var t := OutputRun(w, turns);
            && t.queue == [] && t.received == w.received && t.medium == w.received && |t.acks| == |t.medium|
            && t.output == if w.queue != [] && w.queue[|w.queue| - 1].FramePending? && w.queue[|w.queue| - 1].isEnd
                           then Stopped(Complete) else Idle
    decreases |w.queue|
  {
    hide OutputTurn;
    FitsOf(hash, w);
    if w.queue == [] {
      AllOut(hash, w);
    } else {
      RunFromFront(w, turns);
      TurnKeeps(hash, w, turns[0]);
      WillingTurn(w);
      var t := OutputTurn(w, turns[0]);
      if t.output.Idle? {
        OutputDrains(hash, t, turns[1..]);
      } else {
        assert |w.queue| == 1 && turns[1..] == [];
        AllOut(hash, t);
      }
    }
  }

  lemma AllOut(hash: Hasher, w: Writer)
    requires WriterInv(hash, w) && (w.output.Idle? || w.output == Stopped(Complete)) && w.queue == []
    ensures w.medium == w.received && |w.acks| == |w.medium|
  {
    assert w.medium + [] == w.medium;
  }
}
