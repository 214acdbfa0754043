// What holds of every run of the whole transfer system: exactly the archive on
// the media, no protocol errors, no deadlock, and termination between cuts.
module TransferTheorems {
  import opened Base
  import opened Format
  import opened Sealing
  import opened Validator
  import opened FrameBuilder
  import opened Producer
  import opened VolumeServer
  import opened ServerTheorems
  import opened Media
  import opened Writer
  import opened Transfer

  // -------------------------------------------------- connection boundaries

  lemma DialPart(o: Options, s: Server, fs: seq<LogicalFrame>, a: Action)
    requires o.Valid() && Readable(o, fs) && ArchiveInv(o, s, fs) && s.Acked() < |fs| && !s.complete
    requires a.Dial? && a.limit > 0 && SinkFits(a.capacity, a.used)
    ensures var w := Session(a.limit, a.capacity, a.used);
            && WriterPart(o, s.nextVolume, s.Acked(), w, fs)
            && WirePart(o, Connect(s), Link(w, s.Acked(), [], []), fs)
  {
    hide VolumeState, SealFor, ArchiveInv, Sealable, Lawful, ArchiveOf;
    SessionStarts(o.hash, a.limit, a.capacity, a.used);
    VolumeStateOk(o, fs, s.nextVolume, s.Acked(), 0);
  }

  lemma DialKeeps(o: Options, s: Sys, fs: seq<LogicalFrame>, a: Action)
    requires o.Valid() && Readable(o, fs) && SysInv(o, s, fs) && a.Dial? && Enabled(s, a)
    ensures SysInv(o, Step(o, s, a), fs)
  {
    hide VolumeInv, Readable, WriterPart, WirePart, ArchiveInv, ServerInv, Chained;
    DialPart(o, s.server, fs, a);
    ReconnectKeeps(o, s.server, fs);
  }

  /** What the medium holds when the connection ends. */
  lemma CutVolume(o: Options, s: Server, l: Link, fs: seq<LogicalFrame>)
    requires o.Valid() && ServerInv(o, s, fs)
    requires WriterPart(o, s.nextVolume, l.first, l.w, fs) && WirePart(o, s, l, fs)
    ensures VolumeInv(o, Volume(s.nextVolume, l.first, s.Acked(), l.w.medium), fs)
    ensures s.committed <==> l.first < s.Acked()
  {
    hide SealFor, InOrder, Acks, Asks, OutputInv, AllFaithful, ValidatorInv, ThreadsInv, ServerInv, Arrived;
    OpenBounds(o, s, fs);
    forall i | 0 <= i < |l.w.medium| ensures l.w.medium[i] == SealFor(o, fs[l.first + i], s.nextVolume) {
      assert l.w.medium[i] == l.w.received[i];
    }
  }

  lemma ChainSnoc(vs: seq<Volume>, v: Volume)
    requires Chained(vs) && v.first == LastAcked(vs)
    requires vs != [] ==> v.number == NextNumber(vs[|vs| - 1])
    ensures Chained(vs + [v]) && LastAcked(vs + [v]) == v.last
  {
    var longer := vs + [v];
    forall i | 0 < i < |longer|
      ensures longer[i].first == longer[i - 1].last && longer[i].number == NextNumber(longer[i - 1])
    {
      if i < |vs| {
        assert longer[i] == vs[i] && longer[i - 1] == vs[i - 1];
      }
    }
  }

  lemma CutKeeps(o: Options, s: Sys, fs: seq<LogicalFrame>)
    requires s.link.Some? && o.Valid() && SysInv(o, s, fs)
    ensures SysInv(o, CutOff(s), fs)
  {
    hide VolumeInv, WriterPart, WirePart, ArchiveInv, ServerInv, Chained;
    var l := s.link.value;
    var v := Volume(s.server.nextVolume, l.first, s.server.Acked(), l.w.medium);
    CutVolume(o, s.server, l, fs);
    CloseKeeps(o, s.server, fs);
    ChainSnoc(s.volumes, v);
    forall i | 0 <= i < |s.volumes + [v]| ensures VolumeInv(o, (s.volumes + [v])[i], fs) {
    }
    assert Disconnect(s.server).Acked() == s.server.Acked();
  }

  lemma ServeKeeps(o: Options, s: Sys, fs: seq<LogicalFrame>)
    requires o.Valid() && SysInv(o, s, fs) && Enabled(s, Serve)
    ensures SysInv(o, Step(o, s, Serve), fs)
  {
    hide VolumeInv, ArchiveInv, ServerInv, Chained, OnRequest, WirePart, WriterPart;
    var l := s.link.value;
    AcksBounded(o, s.server, l, fs);
    if l.toServer[0].NextFrame? {
      ServeAsk(o, s.server, l, fs);
    } else {
      FrontIsAck(o, s.server, l, fs);
      if s.server.phase.Serving? {
        ServeAckIdle(o, s.server, l, fs);
      } else {
        ServeAckWaiting(o, s.server, l, fs);
      }
    }
    assert OnRequest(o, s.server, l.toServer[0]).0.nextVolume == s.server.nextVolume;
  }

  lemma FrontIsAck(o: Options, s: Server, l: Link, fs: seq<LogicalFrame>)
    requires WirePart(o, s, l, fs) && l.toServer != [] && !l.toServer[0].NextFrame?
    ensures l.toServer[0].AckFrame?
  {
  }

  /** Only records that were sent on this connection are acknowledged. */
  lemma AcksBounded(o: Options, s: Server, l: Link, fs: seq<LogicalFrame>)
    requires WriterPart(o, s.nextVolume, l.first, l.w, fs) && WirePart(o, s, l, fs)
    ensures l.first + |l.w.acks| <= l.first + |l.w.medium| <= l.first + |l.w.received| <= s.nextSend
    ensures ThreadsInv(l.first, l.w, |fs|)
  {
    hide SealFor, InOrder, Acks, Asks, OutputInv, AllFaithful, ValidatorInv, Arrived;
  }

  lemma WriterStepKeeps(o: Options, s: Sys, fs: seq<LogicalFrame>, a: Action)
    requires o.Valid() && Readable(o, fs) && SysInv(o, s, fs) && Enabled(s, a)
    requires !a.Dial? && !a.Serve? && !a.Cut?
    ensures SysInv(o, Step(o, s, a), fs)
  {
    hide VolumeInv, ArchiveInv, ServerInv, Chained, WirePart, WriterPart, Readable, MayCheck, MayTake;
    var l := s.link.value;
    match a
    case AskNext => AskKeeps(o, s.server, l, fs);
    case Deliver => DeliverKeeps(o, s.server, l, fs);
    case SendAck => SendAckKeeps(o, s.server, l, fs);
    case WriteOut(d) => LocalSteps(o, s.server, l, fs, d, true);
    case Finish(ok) => LocalSteps(o, s.server, l, fs, Wrote(false), ok);
    case _ => LocalSteps(o, s.server, l, fs, Wrote(false), true);
  }

  /** Every action of either peer, and every cut, keeps the system invariant. */
  lemma StepKeeps(o: Options, s: Sys, fs: seq<LogicalFrame>, a: Action)
    requires o.Valid() && Readable(o, fs) && SysInv(o, s, fs) && Enabled(s, a)
    ensures SysInv(o, Step(o, s, a), fs)
  {
    hide SysInv, Readable, CutOff;
    if a.Dial? {
      DialKeeps(o, s, fs, a);
    } else if a.Serve? {
      ServeKeeps(o, s, fs);
    } else if a.Cut? {
      CutKeeps(o, s, fs);
    } else {
      WriterStepKeeps(o, s, fs, a);
    }
  }

  /** Before the first connection. */
  function Initially(queue: seq<VolumeRecord>, firstVolume: u64): Sys {
    Sys(Start(queue, firstVolume), None, [])
  }

  /** Every state the system can reach, with connections cut anywhere. */
  lemma {:induction false} AlwaysInv(
      o: Options, fs: seq<LogicalFrame>, queue: seq<VolumeRecord>, firstVolume: u64, actions: seq<Action>)
    requires o.Valid() && ArchiveOf(o.id, fs) && Lawful(fs) && Delivers(queue, fs, 0)
    ensures Readable(o, fs) && SysInv(o, Execute(o, Initially(queue, firstVolume), actions), fs)
  {
    hide SysInv, Readable, Step, Enabled;
    ArchiveReadable(o, fs);
    if actions == [] {
      StartKeeps(o, fs, queue, firstVolume);
    } else {
      var n := |actions| - 1;
      AlwaysInv(o, fs, queue, firstVolume, actions[..n]);
      var s := Execute(o, Initially(queue, firstVolume), actions[..n]);
      if Enabled(s, actions[n]) {
        StepKeeps(o, s, fs, actions[n]);
      }
    }
  }

  lemma StartKeeps(o: Options, fs: seq<LogicalFrame>, queue: seq<VolumeRecord>, firstVolume: u64)
    requires o.Valid() && Readable(o, fs) && Delivers(queue, fs, 0)
    ensures SysInv(o, Initially(queue, firstVolume), fs)
  {
    StartInv(o, fs, queue, firstVolume);
  }

  // ------------------------------------------------------ no protocol errors

  /** None of the error replies of the frame-serving phase can be provoked by this
      writer, and the writer never refuses what it is sent. */
  lemma NoProtocolErrors(
      o: Options, fs: seq<LogicalFrame>, queue: seq<VolumeRecord>, firstVolume: u64, actions: seq<Action>)
    requires o.Valid() && ArchiveOf(o.id, fs) && Lawful(fs) && Delivers(queue, fs, 0)
    ensures var s := Execute(o, Initially(queue, firstVolume), actions);
            s.link.Some? ==>
              && s.server.phase != Closed(false)
              && (forall i :: 0 <= i < |s.link.value.toClient| ==> !s.link.value.toClient[i].ErrorReply?)
              && !s.link.value.w.receiver.ReceiveFailed?
  {
    hide Execute, ServerInv, WriterInv, ValidatorInv, SealedRun, SealFor, Readable;
    AlwaysInv(o, fs, queue, firstVolume, actions);
  }

  /** Per connection: acknowledged, then written, then received, each a beginning
      of the next and of what the server sent; one record at most is written but
      not acknowledged; the queue is counted exactly and the capacity respected. */
  lemma WritesFollowSends(
      o: Options, fs: seq<LogicalFrame>, queue: seq<VolumeRecord>, firstVolume: u64, actions: seq<Action>)
    requires o.Valid() && ArchiveOf(o.id, fs) && Lawful(fs) && Delivers(queue, fs, 0)
    ensures var s := Execute(o, Initially(queue, firstVolume), actions);
            s.link.Some? ==>
              var l := s.link.value;
              && s.server.Acked() <= l.first + |l.w.acks|
              && |l.w.acks| <= |l.w.medium| <= |l.w.acks| + 1
              && l.w.medium <= l.w.received
              && l.first + |l.w.received| <= s.server.nextSend <= s.server.Acked() + o.window
              && SealedRun(o, fs, s.server.nextVolume, l.first, l.w.received)
              && l.w.queuedBytes == QueueBytes(l.w.queue) && SinkFits(l.w.capacity, l.w.used)
  {
    hide Execute, ServerInv, ValidatorInv, SealedRun, SealFor, Readable, ReplyDue, OutputInv, AllFaithful, Numbered;
    AlwaysInv(o, fs, queue, firstVolume, actions);
    var s := Execute(o, Initially(queue, firstVolume), actions);
    if s.link.Some? {
      AcksBounded(o, s.server, s.link.value, fs);
      OpenBounds(o, s.server, fs);
    }
  }

  // ------------------------------------------------------------ no deadlock

  /** Steps the peers take by themselves. */
  predicate Internal(a: Action) { !a.Dial? && !a.Cut? }

  ghost predicate Quiescent(s: Sys) {
    forall a: Action :: Internal(a) ==> !Enabled(s, a)
  }

  lemma HandsFull(o: Options, volume: u64, first: nat, w: Writer, fs: seq<LogicalFrame>)
    requires WriterPart(o, volume, first, w, fs)
    ensures SinkFits(w.capacity, w.used)
    ensures w.output.Written? ==> w.output.item.FramePending?
  {
    hide ValidatorInv, SealedRun, Numbered, AllFaithful;
  }

  lemma QuiescentThreads(o: Options, s: Sys, fs: seq<LogicalFrame>)
    requires o.Valid() && SysInv(o, s, fs) && s.link.Some? && Quiescent(s)
    ensures var l := s.link.value;
            && (l.toClient == [] || !l.w.receiver.Awaiting?)
            && (l.toServer == [] || !ServerReads(s.server.phase))
            && !MayCheck(l.w) && !l.w.receiver.Cleared?
            && (l.w.output.Idle? || l.w.output.Stopped?) && !MayTake(l.w)
  {
    hide VolumesInv, ServerInv, WriterPart, WirePart, MayCheck, MayTake;
    var l := s.link.value;
    HandsFull(o, s.server.nextVolume, l.first, l.w, fs);
    assert !Enabled(s, CheckQueue) && !Enabled(s, AskNext) && !Enabled(s, Serve) && !Enabled(s, Deliver);
    assert !Enabled(s, PopItem) && !Enabled(s, WriteOut(Wrote(false))) && !Enabled(s, SendAck);
    assert !Enabled(s, Finish(true));
  }

  /** An idle writer with nothing in flight leaves the server nothing to wait for. */
  lemma IdleMeansCaughtUp(o: Options, s: Server, l: Link, fs: seq<LogicalFrame>)
    requires o.Valid() && ServerInv(o, s, fs)
    requires WriterPart(o, s.nextVolume, l.first, l.w, fs) && WirePart(o, s, l, fs)
    requires l.w.output.Idle? && l.w.queue == [] && l.toClient == [] && l.toServer == []
    ensures s.nextSend == s.Acked() < |fs| && !s.phase.Windowed? && !s.phase.Finishing?
    ensures l.w.queuedBytes < l.w.limit
  {
    hide SealFor, ArchiveInv, ValidatorInv, Numbered, AllFaithful, SealedRun;
    assert l.w.received == l.w.medium + [];
    IdleOpen(o, s, fs);
    OpenBounds(o, s, fs);
  }

  lemma IdleOpen(o: Options, s: Server, fs: seq<LogicalFrame>)
    requires o.Valid() && ServerInv(o, s, fs) && s.nextSend == s.Acked()
    ensures !s.phase.Windowed? && !s.phase.Finishing?
  {
  }

  /** When neither peer can move, the archive's end marker was lost to an earlier
      cut, or the drive stopped the session, or both sides have finished. */
  lemma NoDeadlock(o: Options, s: Sys, fs: seq<LogicalFrame>)
    requires o.Valid() && SysInv(o, s, fs) && s.link.Some? && Quiescent(s)
    ensures var l := s.link.value;
            || (s.server.phase.Starved? && EndLost(s.server, fs))
            || l.w.output == Stopped(VolumeFull) || l.w.output == Stopped(Failed)
            || (l.w.output == Stopped(Complete) && s.server.phase == Closed(true) && s.server.Acked() == |fs|)
  {
    hide VolumesInv, ServerInv, WirePart, WriterPart;
    var l := s.link.value;
    QuiescentThreads(o, s, fs);
    QuietServer(o, s.server, fs);
    if l.w.output == Stopped(Complete) {
      QuietComplete(o, s.server, l, fs);
    } else if l.w.output.Idle? {
      QuietIdle(o, s.server, l, fs);
    } else {
      match l.w.output.status
      case Complete =>
      case VolumeFull =>
      case Failed =>
    }
  }

  lemma QuietServer(o: Options, s: Server, fs: seq<LogicalFrame>)
    requires o.Valid() && ServerInv(o, s, fs)
    ensures s.phase.Starved? ==> EndLost(s, fs)
    ensures s.phase == Closed(true) ==> s.Acked() == |fs|
    ensures s.phase.Starved? || s.phase.Serving? ==> s.Acked() <= s.nextSend
  {
  }

  lemma QuietComplete(o: Options, s: Server, l: Link, fs: seq<LogicalFrame>)
    requires o.Valid() && ServerInv(o, s, fs)
    requires WriterPart(o, s.nextVolume, l.first, l.w, fs) && WirePart(o, s, l, fs)
    requires l.w.output == Stopped(Complete) && (l.toServer == [] || !ServerReads(s.phase))
    ensures s.phase.Starved? || s.phase == Closed(true)
  {
    hide SealFor, ArchiveInv, ValidatorInv, Numbered, AllFaithful, SealedRun, ReplyDue, WriterInv;
    if l.toServer == [] {
      assert s.Acked() == |fs| by {
        assert Acks(l.toServer) == 0;
      }
      AllAckedCloses(o, s, fs);
    }
  }

  lemma AllAckedCloses(o: Options, s: Server, fs: seq<LogicalFrame>)
    requires o.Valid() && ServerInv(o, s, fs) && s.Acked() == |fs|
    ensures s.phase == Closed(true)
  {
  }

  lemma QuietIdle(o: Options, s: Server, l: Link, fs: seq<LogicalFrame>)
    requires o.Valid() && ServerInv(o, s, fs)
    requires WriterPart(o, s.nextVolume, l.first, l.w, fs) && WirePart(o, s, l, fs)
    requires l.w.output.Idle? && !MayTake(l.w) && !MayCheck(l.w) && !l.w.receiver.Cleared?
    requires (l.toClient == [] || !l.w.receiver.Awaiting?) && (l.toServer == [] || !ServerReads(s.phase))
    ensures s.phase.Starved?
  {
    hide SealFor, ArchiveInv, ValidatorInv, Numbered, AllFaithful, SealedRun, ReplyDue, PhaseInv, CoreInv;
    OpenBounds(o, s, fs);
    AcksBounded(o, s, l, fs);
    assert l.toClient == [];
    if !s.phase.Starved? {
      if l.toServer == [] {
        IdleMeansCaughtUp(o, s, l, fs);
      }
    }
  }

  // -------------------------------------------------------------- termination

  function ReceiverWeight(r: Receiver): nat {
    if r.Asking? then 3 else if r.Cleared? then 2 else 0
  }

  function OutputWeight(t: Output): nat {
    match t
    case Idle => 1
    case Holding(_) => 6
    case Written(_, _) => 4
    case Closing => 1
    case Stopped(_) => 0
  }

  /** Work left on a connection: n is the length of the archive. */
  function Work(s: Server, l: Link, n: nat): nat {
    14 * (if s.nextSend <= n then n - s.nextSend else 0) + 14 * |s.queue|
    + |l.toServer| + 12 * |l.toClient| + 7 * |l.w.queue|
    + ReceiverWeight(l.w.receiver) + OutputWeight(l.w.output)
  }

  predicate QueueShrinks(s: Server, r: (Server, seq<Reply>)) {
    |r.0.queue| <= |s.queue| && (r.1 == [TapeEofReply] ==> |r.0.queue| < |s.queue|)
  }

  lemma SendKeepsQueue(o: Options, s: Server, record: seq<u8>, end: u64)
    requires o.Valid()
    ensures SendRecord(o, s, record).0.queue == s.queue && SendRecord(o, s, record).1 != [TapeEofReply]
    ensures SendEnd(o, s, end).0.queue == s.queue && SendEnd(o, s, end).1 != [TapeEofReply]
  {
    hide PatchVolume, Finalize, AddRetained, EndFrame;
  }

  lemma ServeShrinksQueue(o: Options, s: Server)
    requires o.Valid()
    ensures QueueShrinks(s, ServeNext(o, s))
  {
    hide SendRecord, SendEnd, ParseHeader, AddRetained, GetRetained;
    match GetRetained(s.retained, s.nextSend)
    case Some(record) =>
      SendKeepsQueue(o, s, record, 0);
      SendKeepsQueue(o, s.(endSeq := Some(s.nextSend)), record, 0);
    case None =>
      if s.queue != [] {
        var s1 := s.(queue := s.queue[1..]);
        match s.queue[0]
        case TapeEof =>
        case Done(end) => SendKeepsQueue(o, s1, [], end);
        case Frame(record, g) =>
          SendKeepsQueue(o, s1.(retained := AddRetained(s1.retained, o.window, Retained(g, record))), record, 0);
      }
  }

  lemma RequestShrinksQueue(o: Options, s: Server, m: Request)
    requires o.Valid()
    ensures QueueShrinks(s, OnRequest(o, s, m))
  {
    hide ServeNext, SendEnd, DropRetained;
    ServeShrinksQueue(o, s.(phase := Windowed));
    if m.AckFrame? && ProcessAck(s, m.payload).AckTaken? {
      var next := ProcessAck(s, m.payload).next;
      ServeShrinksQueue(o, next);
      if next.phase.Finishing? {
        SendKeepsQueue(o, next, [], next.phase.end);
      }
    }
  }

  lemma ServeWorks(o: Options, s: Server, l: Link, fs: seq<LogicalFrame>)
    requires o.Valid() && ServerInv(o, s, fs) && !s.complete && WirePart(o, s, l, fs)
    requires WriterPart(o, s.nextVolume, l.first, l.w, fs) && l.toServer != [] && ServerReads(s.phase)
    requires OnRequest(o, s, l.toServer[0]).0.phase != Closed(false)
    ensures var r := OnRequest(o, s, l.toServer[0]);
            Work(r.0, l.(toServer := l.toServer[1..], toClient := l.toClient + r.1), |fs|) < Work(s, l, |fs|)
  {
    hide OnRequest, ServerInv, SealFor, WriterPart;
    var r := OnRequest(o, s, l.toServer[0]);
    AcksBounded(o, s, l, fs);
    FrontHonest(o, s, l, fs);
    RequestKeeps(o, s, fs, l.toServer[0]);
    RequestShrinksQueue(o, s, l.toServer[0]);
  }

  lemma NotFailed(o: Options, s: Server, l: Link, fs: seq<LogicalFrame>)
    requires WirePart(o, s, l, fs)
    ensures s.phase != Closed(false)
  {
  }

  lemma FrontHonest(o: Options, s: Server, l: Link, fs: seq<LogicalFrame>)
    requires WirePart(o, s, l, fs) && l.toServer != [] && l.first + |l.w.acks| <= s.nextSend
    ensures Honest(s, l.toServer[0])
  {
  }

  lemma DeliverWorks(o: Options, s: Server, l: Link, n: nat)
    requires l.toClient != [] && l.w.receiver.Awaiting?
    ensures var w := ReceiveReply(o.hash, l.w, l.toClient[0]);
            Work(s, l.(w := w, toClient := l.toClient[1..]), n) < Work(s, l, n)
  {
    hide Judge, Arrived, Seeded;
  }

  lemma LocalWorks(s: Server, l: Link, n: nat, d: Device, ok: bool)
    ensures MayCheck(l.w) ==> Work(s, l.(w := Check(l.w)), n) < Work(s, l, n)
    ensures l.w.receiver.Cleared? ==>
              Work(s, l.(w := Ask(l.w), toServer := l.toServer + [NextFrame]), n) < Work(s, l, n)
    ensures MayTake(l.w) ==> Work(s, l.(w := TakeItem(l.w)), n) < Work(s, l, n)
    ensures l.w.output.Holding? && SinkFits(l.w.capacity, l.w.used) ==>
              Work(s, l.(w := WriteItem(l.w, d)), n) < Work(s, l, n)
    ensures l.w.output.Written? && l.w.output.item.FramePending? ==>
              Work(s, l.(w := Acknowledge(l.w), toServer := l.toServer + [AckMessage(l.w.output.item.global)]), n)
                < Work(s, l, n)
    ensures l.w.output.Closing? ==> Work(s, l.(w := CloseMedium(l.w, ok)), n) < Work(s, l, n)
  {
  }

  /** Every step the peers take by themselves uses up work. */
  lemma StepWorks(o: Options, s: Sys, fs: seq<LogicalFrame>, a: Action)
    requires o.Valid() && SysInv(o, s, fs) && Internal(a) && Enabled(s, a)
    ensures Step(o, s, a).link.Some?
    ensures Work(Step(o, s, a).server, Step(o, s, a).link.value, |fs|) < Work(s.server, s.link.value, |fs|)
  {
    hide VolumesInv, ServerInv, WirePart, WriterPart, Work, OnRequest, ReceiveReply, MayCheck, MayTake;
    var l := s.link.value;
    match a
    case Serve =>
      ServeKeeps(o, s, fs);
      NotFailed(o, Step(o, s, a).server, Step(o, s, a).link.value, fs);
      ServeWorks(o, s.server, l, fs);
    case Deliver => DeliverWorks(o, s.server, l, |fs|);
    case WriteOut(d) => LocalWorks(s.server, l, |fs|, d, true);
    case Finish(ok) => LocalWorks(s.server, l, |fs|, Wrote(false), ok);
    case CheckQueue => LocalWorks(s.server, l, |fs|, Wrote(false), true);
    case AskNext => LocalWorks(s.server, l, |fs|, Wrote(false), true);
    case PopItem => LocalWorks(s.server, l, |fs|, Wrote(false), true);
    case SendAck => LocalWorks(s.server, l, |fs|, Wrote(false), true);
    case Dial(_, _, _) =>
    case Cut =>
  }

  /** Each of the actions is a step that the peers can take in turn. */
  ghost predicate Uninterrupted(o: Options, s: Sys, actions: seq<Action>)
    requires o.Valid()
  {
    forall i :: 0 <= i < |actions| ==> Internal(actions[i]) && Enabled(Execute(o, s, actions[..i]), actions[i])
  }

  lemma UninterruptedPrefix(o: Options, s: Sys, actions: seq<Action>, n: nat)
    requires o.Valid() && Uninterrupted(o, s, actions) && n <= |actions|
    ensures Uninterrupted(o, s, actions[..n])
  {
    forall i | 0 <= i < n
      ensures Internal(actions[..n][i]) && Enabled(Execute(o, s, actions[..n][..i]), actions[..n][i])
    {
      assert actions[..n][..i] == actions[..i];
    }
  }

  /** Between cuts a connection runs for at most Work steps. */
  lemma {:induction false} Terminates(o: Options, s: Sys, fs: seq<LogicalFrame>, actions: seq<Action>)
    requires o.Valid() && Readable(o, fs) && SysInv(o, s, fs) && s.link.Some? && Uninterrupted(o, s, actions)
    ensures var t := Execute(o, s, actions);
            && SysInv(o, t, fs) && t.link.Some?
            && Work(t.server, t.link.value, |fs|) + |actions| <= Work(s.server, s.link.value, |fs|)
  {
    hide SysInv, Readable, Work, Step, Enabled;
    if actions != [] {
      var n := |actions| - 1;
      UninterruptedPrefix(o, s, actions, n);
      Terminates(o, s, fs, actions[..n]);
      var t := Execute(o, s, actions[..n]);
      StepKeeps(o, t, fs, actions[n]);
      StepWorks(o, t, fs, actions[n]);
    }
  }

  // -------------------------------------------------------------- completion

  /** The drive takes everything it is given. */
  predicate Kind(a: Action) {
    (a.WriteOut? ==> a.device == Wrote(false)) && (a.Finish? ==> a.ok)
  }

  /** So far nothing but completion has stopped the session, whose medium is unlimited. */
  predicate RunsOn(w: Writer) {
    && w.capacity.None?
    && (w.output.Stopped? ==> w.output.status.Complete?)
    && (w.output.Written? ==> !w.output.atEnd)
  }

  lemma KindStep(o: Options, s: Sys, fs: seq<LogicalFrame>, a: Action)
    requires o.Valid() && SysInv(o, s, fs) && Internal(a) && Enabled(s, a) && Kind(a) && RunsOn(s.link.value.w)
    ensures Step(o, s, a).link.Some? && RunsOn(Step(o, s, a).link.value.w)
  {
    hide VolumesInv, ServerInv, WirePart, WriterPart, OnRequest, Judge, Arrived, Seeded;
    var l := s.link.value;
    if a.PopItem? && l.w.queue == [] {
      NeverDry(o, s.server.nextVolume, l.first, l.w, fs);
    }
  }

  lemma {:induction false} KindRun(o: Options, s: Sys, fs: seq<LogicalFrame>, actions: seq<Action>)
    requires o.Valid() && Readable(o, fs) && SysInv(o, s, fs) && s.link.Some? && Uninterrupted(o, s, actions)
    requires RunsOn(s.link.value.w) && forall i :: 0 <= i < |actions| ==> Kind(actions[i])
    ensures Execute(o, s, actions).link.Some? && RunsOn(Execute(o, s, actions).link.value.w)
  {
    hide SysInv, Readable, Step, Enabled, Kind, RunsOn;
    if actions != [] {
      var n := |actions| - 1;
      UninterruptedPrefix(o, s, actions, n);
      KindRun(o, s, fs, actions[..n]);
      Terminates(o, s, fs, actions[..n]);
      KindStep(o, Execute(o, s, actions[..n]), fs, actions[n]);
    }
  }

  /** Complete on both sides, or waiting for an end marker that was lost before. */
  predicate Ended(t: Sys, fs: seq<LogicalFrame>) {
    || (t.server.phase.Starved? && EndLost(t.server, fs))
    || (t.link.Some? && t.link.value.w.output == Stopped(Complete)
        && t.server.phase == Closed(true) && t.server.Acked() == |fs|)
  }

  /** A connection that is not cut, on a drive that takes everything, runs for a
      bounded number of steps, and where it can run no further the archive is
      complete on both sides, unless its end marker had been lost before. */
  lemma UninterruptedCompletes(o: Options, s: Sys, fs: seq<LogicalFrame>, actions: seq<Action>)
    requires s.link.Some? && o.Valid() && Readable(o, fs) && SysInv(o, s, fs) && Uninterrupted(o, s, actions)
    requires RunsOn(s.link.value.w) && forall i :: 0 <= i < |actions| ==> Kind(actions[i])
    ensures |actions| <= Work(s.server, s.link.value, |fs|)
    ensures Quiescent(Execute(o, s, actions)) ==> Ended(Execute(o, s, actions), fs)
  {
    hide SysInv, Readable, Work, Step, Enabled, Kind, Quiescent;
    Terminates(o, s, fs, actions);
    KindRun(o, s, fs, actions);
    var t := Execute(o, s, actions);
    if Quiescent(t) {
      NoDeadlock(o, t, fs);
    }
  }
}
