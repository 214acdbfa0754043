// Whole writer sessions, for any peer and any drive: what reaches the tape was
// checked, in order, and nothing that was checked is lost on the way.
module WriterTheorems {
  import opened Base
  import opened Format
  import opened Sealing
  import opened Validator
  import opened Seeding
  import opened Producer
  import opened VolumeServer
  import opened Media
  import opened Writer

  // ------------------------------------------------------ what was received

  /** A record that parses, has its block's size and whose hash verifies. */
  ghost predicate Sound(hash: Hasher, bytes: seq<u8>) {
    CheckFrame(hash, bytes).Ok? && CheckFrame(hash, bytes).value.sizeOk && CheckFrame(hash, bytes).value.hashOk
  }

  ghost predicate AllSound(hash: Hasher, rs: seq<seq<u8>>) {
    forall i :: 0 <= i < |rs| ==> Sound(hash, rs[i])
  }

  function RecordOf(hash: Hasher, bytes: seq<u8>): (r: Record)
    requires CheckFrame(hash, bytes).Ok?
    ensures Arrived(hash, bytes) == Some(r)
  {
    Arrived(hash, bytes).value
  }

  ghost function Arrivals(hash: Hasher, rs: seq<seq<u8>>): (L: seq<Record>)
    requires AllSound(hash, rs)
    ensures |L| == |rs| && forall i :: 0 <= i < |L| ==> L[i] == RecordOf(hash, rs[i])
  {
    seq(|rs|, i requires 0 <= i < |rs| => RecordOf(hash, rs[i]))
  }

  /** The records are sound, and a validator seeded at the first of them accepts
      them all, as consecutive frames and none as a replay. */
  ghost predicate Checked(hash: Hasher, rs: seq<seq<u8>>) {
    && AllSound(hash, rs)
    && var L := Arrivals(hash, rs);
       L != [] ==>
         && FeedFrom(hash, Seeded(L[0].H()), L, false).Ok?
         && forall i :: 0 <= i < |L| ==> L[i].H().global == (L[0].H().global + i) % TWO_64
  }

  /** The validator while the receiver goes on. */
  ghost function Validated(hash: Hasher, rs: seq<seq<u8>>): Option<State>
    requires Checked(hash, rs)
  {
    var L := Arrivals(hash, rs);
    if L == [] then None else Some(FeedFrom(hash, Seeded(L[0].H()), L, false).value)
  }

  /** It expects the number after the last one. */
  ghost predicate ExpectsNext(hash: Hasher, rs: seq<seq<u8>>)
    requires Checked(hash, rs)
  {
    rs != [] ==>
      Validated(hash, rs).value.expected == (Arrivals(hash, rs)[0].H().global + |rs|) % TWO_64
  }

  ghost predicate ReceivedInv(hash: Hasher, w: Writer) {
    && Checked(hash, w.received)
    && ExpectsNext(hash, w.received)
    && (!InputClosed(w) ==> w.validator == Validated(hash, w.received))
  }

  lemma ArrivalsSnoc(hash: Hasher, rs: seq<seq<u8>>, bytes: seq<u8>)
    requires AllSound(hash, rs) && Sound(hash, bytes)
    ensures AllSound(hash, rs + [bytes])
    ensures Arrivals(hash, rs + [bytes]) == Arrivals(hash, rs) + [RecordOf(hash, bytes)]
  {
    hide CheckFrame;
    assert forall i :: 0 <= i < |rs| ==> (rs + [bytes])[i] == rs[i];
  }

  /** A new record that a validator accepts strictly. */
  lemma JudgedNew(hash: Hasher, v: State, r: Record)
    requires Judge(hash, v, r, false).Ok? && !Judge(hash, v, r, false).value.replay
    ensures r.frame.sizeOk && r.frame.hashOk && r.H().global == v.expected && v.replayNext == None
    ensures Judge(hash, v, r, false).value.next.expected == Succ(v.expected)
    ensures Judge(hash, v, r, false).value.next.replayNext == None
  {
  }

  lemma SuccMod(first: nat, n: nat)
    ensures Succ((first + n) % TWO_64) == (first + (n + 1)) % TWO_64
  {
  }

  lemma FeedSnoc(hash: Hasher, v: State, L: seq<Record>, r: Record)
    requires FeedFrom(hash, v, L, false).Ok? && Judge(hash, FeedFrom(hash, v, L, false).value, r, false).Ok?
    ensures FeedFrom(hash, v, L + [r], false) == Ok(Judge(hash, FeedFrom(hash, v, L, false).value, r, false).value.next)
  {
    assert (L + [r])[..|L|] == L;
  }

  /** The next record extends what was checked, by exactly the validator's verdict. */
  lemma TakenIsChecked(hash: Hasher, rs: seq<seq<u8>>, bytes: seq<u8>)
    requires Checked(hash, rs) && ExpectsNext(hash, rs) && CheckFrame(hash, bytes).Ok?
    requires var r := RecordOf(hash, bytes);
             var v := if rs == [] then Seeded(r.H()) else Validated(hash, rs).value;
             Judge(hash, v, r, false).Ok? && !Judge(hash, v, r, false).value.replay
    ensures Sound(hash, bytes) && Checked(hash, rs + [bytes])
    ensures var r := RecordOf(hash, bytes);
            var v := if rs == [] then Seeded(r.H()) else Validated(hash, rs).value;
            Validated(hash, rs + [bytes]) == Some(Judge(hash, v, r, false).value.next)
    ensures ExpectsNext(hash, rs + [bytes])
  {
    hide Judge, FeedFrom, CheckFrame, Seeded;
    var r := RecordOf(hash, bytes);
    var v := if rs == [] then Seeded(r.H()) else Validated(hash, rs).value;
    JudgedNew(hash, v, r);
    ArrivalsSnoc(hash, rs, bytes);
    var L := Arrivals(hash, rs);
    FeedEmpty(hash, v, false);
    if rs == [] {
      FeedSnoc(hash, v, [], r);
      assert [] + [r] == [r];
    } else {
      FeedSnoc(hash, Seeded(L[0].H()), L, r);
    }
    var M := L + [r];
    SuccMod(M[0].H().global, |rs|);
    forall i | 0 <= i < |M| ensures M[i].H().global == (M[0].H().global + i) % TWO_64 {
      if i < |L| {
        assert M[i] == L[i] && M[0] == L[0];
      } else if rs == [] {
        assert i == 0;
      }
    }
  }

  lemma RecordReceived(hash: Hasher, w: Writer, bytes: seq<u8>)
    requires ReceivedInv(hash, w) && w.receiver.Awaiting? && !w.output.Stopped? && CheckFrame(hash, bytes).Ok?
    ensures ReceivedInv(hash, TakeRecord(hash, w, RecordOf(hash, bytes)))
  {
    hide Judge, CheckFrame, Seeded, Checked, Validated, ExpectsNext;
    var r := RecordOf(hash, bytes);
    assert w.validator == Validated(hash, w.received);
    ValidatedSome(hash, w.received);
    var v := if w.validator.Some? then w.validator.value else Seeded(r.H());
    var j := Judge(hash, v, r, false);
    if j.Ok? && !j.value.replay {
      TakenIsChecked(hash, w.received, bytes);
    }
  }

  lemma ValidatedSome(hash: Hasher, rs: seq<seq<u8>>)
    requires Checked(hash, rs)
    ensures Validated(hash, rs).None? <==> rs == []
  {
    hide FeedFrom, CheckFrame;
  }

  /** A record that is not sound leaves the tape, what was received and what was
      acknowledged alone, and ends the session unless it has ended already. */
  lemma UnsoundRefused(hash: Hasher, w: Writer, bytes: seq<u8>)
    requires w.receiver.Awaiting? && !Sound(hash, bytes)
    ensures var t := ReceiveReply(hash, w, FrameRecord(bytes));
            && t == w.(receiver := t.receiver, validator := t.validator)
            && InputClosed(t) && (!w.output.Stopped? ==> t.receiver.ReceiveFailed?)
  {
    hide CheckIdentity, Place, FindReplay, FrameHash, ParseHeader;
  }

  // --------------------------------------------------- what reaches the tape

  function Trace(queue: seq<Pending>): (t: seq<TapeItem>)
    ensures |t| == |queue| && forall i :: 0 <= i < |t| ==> t[i] == queue[i].OnTape()
  {
    seq(|queue|, i requires 0 <= i < |queue| => queue[i].OnTape())
  }

  predicate EndItem(item: Pending) { item.FramePending? && item.isEnd }

  /** The archive end is only ever the last item. */
  ghost predicate EndInv(w: Writer) {
    && (forall i :: 0 <= i < |w.queue| - 1 ==> !EndItem(w.queue[i]))
    && (w.queue != [] && EndItem(w.queue[|w.queue| - 1]) ==> InputClosed(w))
    && ((w.output.Holding? || w.output.Written?) && EndItem(w.output.item) ==> InputClosed(w) && w.queue == [])
    && (w.output.Closing? ==> InputClosed(w) && w.queue == [])
  }

  /** Everything taken in is on the tape or still on its way there, in order,
      filemarks included. */
  ghost predicate TapeInv(w: Writer) {
    && RecordsOn(w.input) == w.received && EndInv(w)
    && match w.output
       case Idle => w.input == w.tape + Trace(w.queue)
       case Holding(item) => w.input == w.tape + [item.OnTape()] + Trace(w.queue)
       case Written(_, _) => w.input == w.tape + Trace(w.queue)
       case Closing => w.input == w.tape
       case Stopped(status) => if status.Complete? then w.tape == w.input + [Filemark] else w.tape <= w.input
  }

  lemma TraceSnoc(queue: seq<Pending>, item: Pending)
    ensures Trace(queue + [item]) == Trace(queue) + [item.OnTape()]
  {
  }

  lemma TraceHead(queue: seq<Pending>)
    requires queue != []
    ensures Trace(queue) == [queue[0].OnTape()] + Trace(queue[1..])
  {
  }

  lemma EnqueueTape(w: Writer, item: Pending)
    requires TapeInv(w) && !w.output.Stopped? && w.receiver.Awaiting?
    ensures TapeInv(Enqueue(w, item))
  {
    hide RecordsOn, Trace;
    TapeSnoc(w.input, item.OnTape());
    TraceSnoc(w.queue, item);
    var t := [item.OnTape()];
    if w.output.Holding? {
      var held := [w.output.item.OnTape()];
      assert (w.tape + held + Trace(w.queue)) + t == w.tape + held + (Trace(w.queue) + t);
    } else if !w.output.Closing? {
      assert (w.tape + Trace(w.queue)) + t == w.tape + (Trace(w.queue) + t);
    }
  }

  lemma ReceiveTape(hash: Hasher, w: Writer, reply: Reply)
    requires TapeInv(w) && w.receiver.Awaiting?
    ensures TapeInv(ReceiveReply(hash, w, reply))
  {
    hide Judge, CheckFrame, Seeded, RecordsOn, Trace, Enqueue;
    if !w.output.Stopped? && reply.TapeEofReply? {
      EnqueueTape(w, FilemarkPending);
    } else if !w.output.Stopped? && reply.FrameRecord? && Arrived(hash, reply.record).Some? {
      var r := Arrived(hash, reply.record).value;
      var v := if w.validator.Some? then w.validator.value else Seeded(r.H());
      var j := Judge(hash, v, r, false);
      if j.Ok? && !j.value.replay {
        EnqueueTape(w.(validator := Some(j.value.next)), FramePending(r.data, r.H().global, r.IsEnd()));
      }
    }
  }

  lemma TakeTape(w: Writer)
    requires TapeInv(w) && MayTake(w)
    ensures TapeInv(TakeItem(w))
  {
    hide RecordsOn, Trace;
    if w.queue != [] {
      TraceHead(w.queue);
      var head, later := [w.queue[0].OnTape()], Trace(w.queue[1..]);
      assert w.tape + (head + later) == (w.tape + head) + later;
      assert forall i :: 0 <= i < |w.queue| - 1 ==> w.queue[1..][i] == w.queue[i + 1];
    }
  }

  lemma WriteTape(w: Writer, d: Device)
    requires TapeInv(w) && w.output.Holding? && SinkFits(w.capacity, w.used)
    ensures TapeInv(WriteItem(w, d))
  {
    hide RecordsOn, Trace;
  }

  lemma AcknowledgeTape(w: Writer)
    requires TapeInv(w) && w.output.Written? && w.output.item.FramePending?
    ensures TapeInv(Acknowledge(w))
  {
    hide RecordsOn;
    if w.output.item.isEnd {
      assert Trace(w.queue) == [];
    }
  }

  // ------------------------------------------------------ filling a medium

  ghost predicate TakesAll(turns: seq<Turn>) {
    forall i :: 0 <= i < |turns| ==> turns[i] == Turn(Wrote(false), true)
  }

  /** The first n queued items fit on the medium. */
  ghost predicate FitsFirst(w: Writer, n: nat)
    requires n <= |w.queue|
  {
    w.capacity.Some? ==> w.used + QueueBytes(w.queue[..n]) <= w.capacity.value
  }

  lemma BytesCons(queue: seq<Pending>, n: nat)
    requires 0 < n <= |queue|
    ensures QueueBytes(queue[..n]) == queue[0].Size() + QueueBytes(queue[1..][..n - 1])
  {
    assert queue[..n][1..] == queue[1..][..n - 1];
  }

  lemma NoBytes(queue: seq<Pending>)
    ensures QueueBytes(queue[..0]) == 0
  {
  }

  /** One turn with a drive that takes everything, on an item that fits. */
  lemma FittingTurn(w: Writer)
    requires w.output.Idle? && w.queue != [] && SinkFits(w.capacity, w.used)
    requires w.capacity.Some? ==> w.used + w.queue[0].Size() <= w.capacity.value
    ensures var t := OutputTurn(w, Turn(Wrote(false), true));
            && t.queue == w.queue[1..] && t.capacity == w.capacity
            && (w.capacity.Some? ==> t.used == w.used + w.queue[0].Size())
            && (if EndItem(w.queue[0])
                then t.output == Stopped(Complete) && t.tape == w.tape + [w.queue[0].OnTape()] + [Filemark]
                else t.output == Idle && t.tape == w.tape + [w.queue[0].OnTape()])
  {
  }

  /** And on one that does not: nothing of it reaches the tape. */
  lemma OverfullTurn(w: Writer)
    requires w.output.Idle? && w.queue != [] && SinkFits(w.capacity, w.used)
    requires w.capacity.Some? && w.used + w.queue[0].Size() > w.capacity.value
    ensures var t := OutputTurn(w, Turn(Wrote(false), true));
            t.output == Stopped(VolumeFull) && t.tape == w.tape
  {
  }

  lemma {:induction false} StoppedRun(w: Writer, turns: seq<Turn>)
    requires SinkFits(w.capacity, w.used) && w.output.Stopped?
    ensures OutputRun(w, turns) == w
  {
    hide OutputTurn;
    if turns != [] {
      StoppedRun(w, turns[..|turns| - 1]);
    }
  }

  lemma FitsNext(w: Writer, t: Writer, n: nat)
    requires w.queue != [] && 0 < n <= |w.queue| && t.queue == w.queue[1..] && t.capacity == w.capacity
    requires w.capacity.Some? ==> t.used == w.used + w.queue[0].Size()
    ensures FitsFirst(t, n - 1) <==> FitsFirst(w, n)
  {
    hide QueueBytes;
    BytesCons(w.queue, n);
  }

  /** A drive that takes everything and a medium of any capacity: the loop writes
      exactly the longest run of queued items that fits, in order, and reports a
      full volume exactly when that is not all of them; the archive is complete
      exactly when the archive end was among them. */
  lemma {:induction false} OutputFills(hash: Hasher, w: Writer, turns: seq<Turn>, n: nat)
    requires WriterInv(hash, w) && w.output.Idle? && TakesAll(turns) && |turns| == |w.queue| && EndIsLast(w.queue)
    requires n <= |w.queue| && FitsFirst(w, n) && (n < |w.queue| ==> !FitsFirst(w, n + 1))
    ensures SinkFits(w.capacity, w.used) && Filled(w, OutputRun(w, turns), n)
    decreases |w.queue|
  {
    hide OutputTurn, WriterInv, QueueBytes, FitsFirst, Trace, Filled;
    FitsOf(hash, w);
    if w.queue == [] {
      FilledNone(w, OutputRun(w, turns));
    } else {
      RunFromFront(w, turns);
      TurnKeeps(hash, w, turns[0]);
      var t := OutputTurn(w, turns[0]);
      FirstFits(w);
      if n == 0 {
        OverfullTurn(w);
        StoppedRun(t, turns[1..]);
        FilledNone(w, t);
      } else {
        FitsDown(w, n);
        FittingTurn(w);
        FitsNext(w, t, n);
        if EndItem(w.queue[0]) {
          assert |w.queue| == 1;
          StoppedRun(t, turns[1..]);
          FilledEnd(w, t);
        } else {
          if n < |w.queue| {
            FitsNext(w, t, n + 1);
          }
          OutputFills(hash, t, turns[1..], n - 1);
          FilledCons(w, t, OutputRun(t, turns[1..]), n);
        }
      }
    }
  }

  lemma TraceCons(queue: seq<Pending>, n: nat)
    requires 0 < n <= |queue|
    ensures Trace(queue[..n]) == [queue[0].OnTape()] + Trace(queue[1..][..n - 1])
  {
  }

  lemma NoTrace(queue: seq<Pending>)
    ensures Trace(queue[..0]) == []
  {
  }

  /** The first n queued items are on the tape, and the session is where that leads. */
  ghost predicate Filled(w: Writer, t: Writer, n: nat)
    requires n <= |w.queue|
  {
    var ended := n == |w.queue| && n > 0 && EndItem(w.queue[n - 1]);
    && t.tape == w.tape + Trace(w.queue[..n]) + (if ended then [Filemark] else [])
    && t.output == (if n < |w.queue| then Stopped(VolumeFull) else if ended then Stopped(Complete) else Idle)
  }

  lemma FilledCons(w: Writer, first: Writer, t: Writer, n: nat)
    requires 0 < n <= |w.queue| && first.queue == w.queue[1..] && first.tape == w.tape + [w.queue[0].OnTape()]
    requires |w.queue| > 1 || !EndItem(w.queue[0])
    requires Filled(first, t, n - 1)
    ensures Filled(w, t, n)
  {
    hide Trace;
    TraceCons(w.queue, n);
    var head, rest := [w.queue[0].OnTape()], Trace(first.queue[..n - 1]);
    assert w.tape + head + rest == w.tape + (head + rest);
  }

  /** Nothing more fits, or nothing more is there. */
  lemma FilledNone(w: Writer, t: Writer)
    requires t.tape == w.tape && t.output == if w.queue == [] then Idle else Stopped(VolumeFull)
    ensures Filled(w, t, 0)
  {
    NoTrace(w.queue);
  }

  lemma FilledEnd(w: Writer, t: Writer)
    requires |w.queue| == 1 && EndItem(w.queue[0])
    requires t.tape == w.tape + [w.queue[0].OnTape()] + [Filemark] && t.output == Stopped(Complete)
    ensures Filled(w, t, 1)
  {
  }

  lemma FirstFits(w: Writer)
    requires w.queue != []
    ensures FitsFirst(w, 1) <==> (w.capacity.Some? ==> w.used + w.queue[0].Size() <= w.capacity.value)
  {
    hide QueueBytes;
    BytesCons(w.queue, 1);
    NoBytes(w.queue[1..]);
  }

  lemma FitsDown(w: Writer, n: nat)
    requires 0 < n <= |w.queue| && FitsFirst(w, n)
    ensures FitsFirst(w, 1)
  {
    hide QueueBytes;
    BytesCons(w.queue, 1);
    BytesCons(w.queue, n);
    NoBytes(w.queue[1..]);
  }

  // ------------------------------------------------------------ whole sessions

  ghost predicate SessionInv(hash: Hasher, w: Writer) {
    WriterInv(hash, w) && ReceivedInv(hash, w) && TapeInv(w)
  }

  datatype SessionAction =
    | CheckQueue | AskNext | GetReply(reply: Reply)
    | TakeNext | WriteNext(device: Device) | Confirm | CloseTape(ok: bool)

  /** One locked section of either thread; what cannot happen yet changes nothing. */
  ghost function SessionStep(hash: Hasher, w: Writer, a: SessionAction): Writer {
    match a
    case CheckQueue => if MayCheck(w) then Check(w) else w
    case AskNext => if w.receiver.Cleared? then Ask(w) else w
    case GetReply(reply) => if w.receiver.Awaiting? then ReceiveReply(hash, w, reply) else w
    case TakeNext => if MayTake(w) then TakeItem(w) else w
    case WriteNext(d) => if w.output.Holding? && SinkFits(w.capacity, w.used) then WriteItem(w, d) else w
    case Confirm => if w.output.Written? && w.output.item.FramePending? then Acknowledge(w) else w
    case CloseTape(ok) => if w.output.Closing? then CloseMedium(w, ok) else w
  }

  ghost function SessionRun(hash: Hasher, w: Writer, actions: seq<SessionAction>): Writer {
    if actions == [] then w
    else SessionStep(hash, SessionRun(hash, w, actions[..|actions| - 1]), actions[|actions| - 1])
  }

  lemma ReceivedStays(hash: Hasher, w: Writer, t: Writer)
    requires ReceivedInv(hash, w) && t.received == w.received
    requires InputClosed(t) || (t.validator == w.validator && !InputClosed(w))
    ensures ReceivedInv(hash, t)
  {
    hide Checked, Validated, ExpectsNext;
  }

  lemma StepReceives(hash: Hasher, w: Writer, a: SessionAction)
    requires ReceivedInv(hash, w)
    ensures ReceivedInv(hash, SessionStep(hash, w, a))
  {
    hide TakeRecord, CheckFrame, ReceivedInv;
    var t := SessionStep(hash, w, a);
    if a.GetReply? && w.receiver.Awaiting? && !w.output.Stopped? && a.reply.FrameRecord?
       && CheckFrame(hash, a.reply.record).Ok? {
      RecordReceived(hash, w, a.reply.record);
    } else {
      ReceivedStays(hash, w, t);
    }
  }

  lemma StepTape(hash: Hasher, w: Writer, a: SessionAction)
    requires TapeInv(w)
    ensures TapeInv(SessionStep(hash, w, a))
  {
    hide ReceiveReply, TakeItem, WriteItem, Acknowledge, RecordsOn, Trace;
    match a
    case CheckQueue =>
    case AskNext =>
    case GetReply(reply) =>
      if w.receiver.Awaiting? {
        ReceiveTape(hash, w, reply);
      }
    case TakeNext =>
      if MayTake(w) {
        TakeTape(w);
      }
    case WriteNext(d) =>
      if w.output.Holding? && SinkFits(w.capacity, w.used) {
        WriteTape(w, d);
      }
    case Confirm =>
      if w.output.Written? && w.output.item.FramePending? {
        AcknowledgeTape(w);
      }
    case CloseTape(ok) =>
  }

  /** Every step of either thread, whatever the peer sends and whatever the drive
      does, keeps the whole session invariant. */
  lemma SessionStepKeeps(hash: Hasher, w: Writer, a: SessionAction)
    requires SessionInv(hash, w)
    ensures SessionInv(hash, SessionStep(hash, w, a))
  {
    hide WriterInv, ReceivedInv, TapeInv, ReceiveReply, TakeItem, WriteItem, Acknowledge, CloseMedium, Check, Ask;
    StepReceives(hash, w, a);
    StepTape(hash, w, a);
    SessionKeeps(hash, w, if a.GetReply? then a.reply else TapeEofReply, if a.WriteNext? then a.device else EndBefore,
                 a.CloseTape? && a.ok);
  }

  lemma SessionBegins(hash: Hasher, limit: nat, capacity: Option<u64>, used: u64)
    requires limit > 0 && SinkFits(capacity, used)
    ensures SessionInv(hash, Session(limit, capacity, used))
  {
    hide CheckFrame, FeedFrom;
    SessionStarts(hash, limit, capacity, used);
  }

  lemma {:induction false} SessionAlways(hash: Hasher, w: Writer, actions: seq<SessionAction>)
    requires SessionInv(hash, w)
    ensures SessionInv(hash, SessionRun(hash, w, actions))
  {
    hide SessionInv, SessionStep;
    if actions != [] {
      SessionAlways(hash, w, actions[..|actions| - 1]);
      SessionStepKeeps(hash, SessionRun(hash, w, actions[..|actions| - 1]), actions[|actions| - 1]);
    }
  }

  /** The safety of a whole session. For any peer, any replies, any drive and any
      interleaving: every record received, and so every record on the tape and
      every record acknowledged, arrived with its block's size and a hash that
      verifies; together they are accepted, in order, by a validator seeded at the
      first; the acknowledged numbers are those of the records at the beginning of
      the tape; and the tape is a beginning of what was taken in, filemarks
      included, or all of it and a closing mark once the session is complete. */
  lemma SessionSafe(hash: Hasher, limit: nat, capacity: Option<u64>, used: u64, actions: seq<SessionAction>)
    requires limit > 0 && SinkFits(capacity, used)
    ensures var w := SessionRun(hash, Session(limit, capacity, used), actions);
            && Checked(hash, w.received) && RecordsOn(w.input) == w.received
            && RecordsOn(w.tape) == w.medium <= w.received && |w.acks| <= |w.medium| <= |w.acks| + 1
            && (forall i :: 0 <= i < |w.acks| ==> w.acks[i] == RecordOf(hash, w.medium[i]).H().global)
            && (if w.output == Stopped(Complete) then w.tape == w.input + [Filemark] else w.tape <= w.input)
  {
    hide RecordsOn, CheckFrame, FeedFrom;
    SessionBegins(hash, limit, capacity, used);
    SessionAlways(hash, Session(limit, capacity, used), actions);
    var w := SessionRun(hash, Session(limit, capacity, used), actions);
    TapeBegins(w);
    AcksAre(hash, w);
  }

  lemma TapeBegins(w: Writer)
    requires TapeInv(w)
    ensures if w.output == Stopped(Complete) then w.tape == w.input + [Filemark] else w.tape <= w.input
  {
    hide RecordsOn, EndInv;
  }

  lemma AcksAre(hash: Hasher, w: Writer)
    requires WriterInv(hash, w) && ReceivedInv(hash, w)
    ensures forall i :: 0 <= i < |w.acks| ==> CheckFrame(hash, w.medium[i]).Ok?
                                              && w.acks[i] == RecordOf(hash, w.medium[i]).H().global
  {
    hide CheckFrame, FeedFrom, OutputInv, QueueBytes, RecordsOn, Validated;
  }
}
