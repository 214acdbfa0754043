// Server, connection and tape writer together: every interleaving of the two
// peers and the writer's two threads, with connections cut at any time.
module Transfer {
  import opened Base
  import opened Format
  import opened FormatTheorems
  import opened Sealing
  import opened Validator
  import opened FrameBuilder
  import opened Producer
  import opened VolumeServer
  import opened Media
  import opened Writer

  /** A finished volume: its number, what the server had acknowledged when its
      connection began and when it ended, and the records on the medium. */
  datatype Volume = Volume(number: u64, first: nat, last: nat, records: seq<seq<u8>>)

  /** A live connection: the writer, the server's count when it began, and the
      messages in flight in both directions. */
  datatype Link = Link(w: Writer, first: nat, toServer: seq<Request>, toClient: seq<Reply>)

  datatype Sys = Sys(server: Server, link: Option<Link>, volumes: seq<Volume>)

  datatype Action =
    | Dial(limit: nat, capacity: Option<u64>, used: u64)
    | CheckQueue | AskNext | Serve | Deliver
    | PopItem | WriteOut(device: Device) | SendAck | Finish(ok: bool)
    | Cut

  predicate ServerReads(p: Phase) {
    p.Serving? || p.Windowed? || p.Finishing?
  }

  predicate Enabled(s: Sys, a: Action) {
    if a.Dial? then s.link.None? && !s.server.complete && a.limit > 0 && SinkFits(a.capacity, a.used)
    else
      s.link.Some? &&
      var l := s.link.value;
      match a
      case CheckQueue => MayCheck(l.w)
      case AskNext => l.w.receiver.Cleared?
      case Serve => l.toServer != [] && ServerReads(s.server.phase)
      case Deliver => l.toClient != [] && l.w.receiver.Awaiting?
      case PopItem => MayTake(l.w)
      case WriteOut(_) => l.w.output.Holding? && SinkFits(l.w.capacity, l.w.used)
      case SendAck => l.w.output.Written? && l.w.output.item.FramePending?
      case Finish(_) => l.w.output.Closing?
      case Cut => true
  }

  function AckMessage(g: u64): Request {
    WordSizes();
    AckFrame(LittleEndian(g, 8))
  }

  /** The connection ends; what is in flight is lost, the medium stays. */
  function CutOff(s: Sys): Sys
    requires s.link.Some?
  {
    var l := s.link.value;
    Sys(Disconnect(s.server), None,
        s.volumes + [Volume(s.server.nextVolume, l.first, s.server.Acked(), l.w.medium)])
  }

  function Step(o: Options, s: Sys, a: Action): Sys
    requires o.Valid() && Enabled(s, a)
  {
    if a.Dial? then
      s.(server := Connect(s.server),
         link := Some(Link(Session(a.limit, a.capacity, a.used), s.server.Acked(), [], [])))
    else
      var l := s.link.value;
      match a
      case CheckQueue => s.(link := Some(l.(w := Check(l.w))))
      case AskNext => s.(link := Some(l.(w := Ask(l.w), toServer := l.toServer + [NextFrame])))
      case Serve =>
        var r := OnRequest(o, s.server, l.toServer[0]);
        s.(server := r.0, link := Some(l.(toServer := l.toServer[1..], toClient := l.toClient + r.1)))
      case Deliver =>
        s.(link := Some(l.(w := ReceiveReply(o.hash, l.w, l.toClient[0]), toClient := l.toClient[1..])))
      case PopItem => s.(link := Some(l.(w := TakeItem(l.w))))
      case WriteOut(d) => s.(link := Some(l.(w := WriteItem(l.w, d))))
      case SendAck =>
        s.(link := Some(l.(w := Acknowledge(l.w), toServer := l.toServer + [AckMessage(l.w.output.item.global)])))
      case Finish(ok) => s.(link := Some(l.(w := CloseMedium(l.w, ok))))
      case Cut => CutOff(s)
  }

  /** An action that is not enabled does nothing. */
  function Advance(o: Options, s: Sys, a: Action): Sys
    requires o.Valid()
  {
    if Enabled(s, a) then Step(o, s, a) else s
  }

  function Execute(o: Options, s: Sys, actions: seq<Action>): Sys
    requires o.Valid()
  {
    if actions == [] then s
    else Advance(o, Execute(o, s, actions[..|actions| - 1]), actions[|actions| - 1])
  }

  // ---------------------------------------------------------------- invariant

  /** The acknowledgements in flight carry the numbers due, in order. */
  predicate InOrder(ms: seq<Request>, g: nat)
    decreases |ms|
  {
    if ms == [] then true
    else
      match ms[0]
      case NextFrame => InOrder(ms[1..], g)
      case AckFrame(payload) => g < TWO_64 && ms[0] == AckMessage(g) && InOrder(ms[1..], g + 1)
      case OtherRequest => false
  }

  function Acks(ms: seq<Request>): nat {
    if ms == [] then 0 else (if ms[0].AckFrame? then 1 else 0) + Acks(ms[1..])
  }

  function Asks(ms: seq<Request>): nat {
    if ms == [] then 0 else (if ms[0].NextFrame? then 1 else 0) + Asks(ms[1..])
  }

  predicate Waits(p: Phase) { p.Windowed? || p.Finishing? || p.Starved? }

  /** At most one request is open: in flight, held by the server, or answered. */
  predicate OneRequest(s: Server, l: Link) {
    Asks(l.toServer) + Count(Waits(s.phase)) + |l.toClient| == Count(l.w.receiver.Awaiting?)
  }

  /** What the writer received is the archive from `first` on, sealed for the volume. */
  ghost predicate SealedRun(o: Options, fs: seq<LogicalFrame>, volume: u64, first: nat, records: seq<seq<u8>>) {
    && first + |records| <= |fs|
    && forall i :: 0 <= i < |records| ==> records[i] == SealFor(o, fs[first + i], volume)
  }

  /** A reply that came after the output stopped was thrown away. */
  predicate Dropped(l: Link) {
    l.w.output.Stopped? && l.w.receiver.DoneReceiving?
  }

  /** The reply in flight, if any, is the next thing due. */
  ghost predicate ReplyDue(o: Options, s: Server, l: Link, fs: seq<LogicalFrame>) {
    var due := l.first + |l.w.received|;
    if l.toClient == [] || l.toClient == [TapeEofReply] then
      s.nextSend == due || (Dropped(l) && s.nextSend == due + 1)
    else due < |fs| && s.nextSend == due + 1 && l.toClient == [FrameRecord(SealFor(o, fs[due], s.nextVolume))]
  }

  ghost predicate ValidatorInv(o: Options, fs: seq<LogicalFrame>, volume: u64, first: nat, w: Writer) {
    && AllSealable(fs) && first < |fs| && first + |w.received| <= |fs|
    && VolumeState(o, fs, volume, first, |w.received|).Ok?
    && (w.received == [] ==> w.validator == None)
    && (w.received != [] ==> w.validator == Some(VolumeState(o, fs, volume, first, |w.received|).value))
  }

  /** How far the two threads are; n is the length of the archive. */
  predicate ThreadsInv(first: nat, w: Writer, n: nat) {
    && !w.receiver.ReceiveFailed?
    && (first + |w.received| == n ==> w.receiver.DoneReceiving?)
    && (w.receiver.DoneReceiving? && !w.output.Stopped? ==> first + |w.received| == n)
    && (first + |w.acks| == n ==> w.output.Closing? || w.output.Stopped?)
    && (w.output == Stopped(Complete) || w.output.Closing? ==> first + |w.acks| == n)
  }

  /** The writer's side. */
  ghost predicate WriterPart(o: Options, volume: u64, first: nat, w: Writer, fs: seq<LogicalFrame>) {
    && WriterInv(o.hash, w)
    && SealedRun(o, fs, volume, first, w.received)
    && ValidatorInv(o, fs, volume, first, w)
    && ThreadsInv(first, w, |fs|)
  }

  /** The messages in flight, and what the server has made of them. */
  ghost predicate WirePart(o: Options, s: Server, l: Link, fs: seq<LogicalFrame>) {
    && OneRequest(s, l)
    && ReplyDue(o, s, l, fs)
    && InOrder(l.toServer, s.Acked()) && s.Acked() + Acks(l.toServer) == l.first + |l.w.acks|
    && l.first <= s.Acked() && (s.committed <==> l.first < s.Acked())
    && s.phase != Closed(false)
  }

  /** A finished volume holds the archive from `first` on, sealed for its number,
      at least as far as was acknowledged and no further than the window allows. */
  ghost predicate VolumeInv(o: Options, v: Volume, fs: seq<LogicalFrame>) {
    && SealedRun(o, fs, v.number, v.first, v.records)
    && v.first <= v.last <= v.first + |v.records| <= v.last + o.window
  }

  /** A volume that received an acknowledgement is not overwritten: its number is used up. */
  function NextNumber(v: Volume): u64 {
    if v.first < v.last then Succ(v.number) else v.number
  }

  /** Each volume begins where the previous one's acknowledgements ended. */
  ghost predicate Chained(vs: seq<Volume>) {
    && (vs != [] ==> vs[0].first == 0)
    && forall i :: 0 < i < |vs| ==> vs[i].first == vs[i - 1].last && vs[i].number == NextNumber(vs[i - 1])
  }

  function LastAcked(vs: seq<Volume>): nat {
    if vs == [] then 0 else vs[|vs| - 1].last
  }

  ghost predicate VolumesInv(o: Options, vs: seq<Volume>, s: Server, fs: seq<LogicalFrame>) {
    && Chained(vs)
    && (forall i :: 0 <= i < |vs| ==> VolumeInv(o, vs[i], fs))
    && (vs != [] && !s.complete ==> s.nextVolume == NextNumber(vs[|vs| - 1]))
  }

  ghost predicate SysInv(o: Options, s: Sys, fs: seq<LogicalFrame>)
    requires o.Valid()
  {
    && VolumesInv(o, s.volumes, s.server, fs)
    && match s.link
       case None =>
         && ArchiveInv(o, s.server, fs) && (s.server.complete || s.server.Acked() < |fs|)
         && LastAcked(s.volumes) == s.server.Acked()
       case Some(l) =>
         && ServerInv(o, s.server, fs) && !s.server.complete
         && WriterPart(o, s.server.nextVolume, l.first, l.w, fs) && WirePart(o, s.server, l, fs)
         && LastAcked(s.volumes) == l.first
  }

  // ------------------------------------------------------------ message queues

  lemma {:induction false} InOrderSnoc(ms: seq<Request>, g: nat, m: Request)
    requires InOrder(ms, g)
    requires m == NextFrame || (g + Acks(ms) < TWO_64 && m == AckMessage(g + Acks(ms)))
    ensures InOrder(ms + [m], g)
    ensures Acks(ms + [m]) == Acks(ms) + Count(m.AckFrame?)
    ensures Asks(ms + [m]) == Asks(ms) + Count(m.NextFrame?)
    decreases |ms|
  {
    hide LittleEndian;
    if ms == [] {
      assert [m][1..] == [];
    } else {
      InOrderSnoc(ms[1..], if ms[0].NextFrame? then g else g + 1, m);
      assert (ms + [m])[1..] == ms[1..] + [m];
    }
  }

  // ------------------------------------------------------------- server steps

  /** Acknowledgements stay, and unless the connection failed there is one reply or
      the server waits. */
  predicate Resumed(s: Server, r: (Server, seq<Reply>)) {
    && r.0.Acked() == s.Acked() && r.0.committed == s.committed && r.0.nextVolume == s.nextVolume
    && (!r.0.phase.Closed? ==> |r.1| + Count(Waits(r.0.phase)) == 1)
  }

  lemma SendShape(o: Options, s: Server, record: seq<u8>, end: u64)
    requires o.Valid()
    ensures Resumed(s, SendRecord(o, s, record)) && Resumed(s, SendEnd(o, s, end))
  {
    hide PatchVolume, Finalize, AddRetained, EndFrame;
  }

  lemma ServeNextShape(o: Options, s: Server)
    requires o.Valid()
    ensures Resumed(s, ServeNext(o, s))
  {
    hide SendRecord, SendEnd, ParseHeader, AddRetained, GetRetained;
    match GetRetained(s.retained, s.nextSend)
    case Some(record) =>
      SendShape(o, s, record, 0);
      SendShape(o, s.(endSeq := Some(s.nextSend)), record, 0);
    case None =>
      if s.queue != [] {
        var s1 := s.(queue := s.queue[1..]);
        match s.queue[0]
        case TapeEof =>
        case Done(end) => SendShape(o, s1, [], end);
        case Frame(record, g) =>
          SendShape(o, s1.(retained := AddRetained(s1.retained, o.window, Retained(g, record))), record, 0);
      }
  }

  lemma SettleShape(o: Options, s: Server)
    requires o.Valid() && (s.phase.Windowed? || s.phase.Finishing?)
    ensures Resumed(s, Settle(o, s))
  {
    hide ServeNext, SendEnd;
    ServeNextShape(o, s);
    if s.phase.Finishing? {
      SendShape(o, s, [], s.phase.end);
    }
  }

  lemma PhaseFree(o: Options, s: Server, fs: seq<LogicalFrame>, p: Phase)
    requires o.Valid() && CoreInv(o, s, fs)
    ensures CoreInv(o, s.(phase := p), fs)
  {
  }

  lemma OpenBounds(o: Options, s: Server, fs: seq<LogicalFrame>)
    requires o.Valid() && ServerInv(o, s, fs)
    ensures s.Acked() <= s.nextSend <= |fs| < TWO_64 - 1 && (s.endSeq.Some? ==> s.nextSend == |fs|)
    ensures s.nextSend <= s.Acked() + o.window
    ensures s.phase == Closed(true) ==> s.Acked() == |fs|
    ensures s.phase.Windowed? || s.phase.Finishing? || s.phase.Starved? ==> s.endSeq.None?
  {
    OutstandingIs(o, s, fs);
  }

  lemma AnswerDue(o: Options, s: Server, next: Server, replies: seq<Reply>, l: Link, fs: seq<LogicalFrame>)
    requires ProperStep(o, s, next, replies, fs) && next.phase != Closed(false)
    requires l.toClient == replies && s.nextSend == l.first + |l.w.received|
    ensures ReplyDue(o, next, l, fs)
  {
    hide SealFor;
    if replies != [] && replies != [TapeEofReply] {
      assert replies == [FrameRecord(SealFor(o, fs[s.nextSend], s.nextVolume))];
    }
  }

  /** A reply is due, and a step of the server answers or keeps waiting. */
  lemma AnswerOnWire(o: Options, s: Server, next: Server, replies: seq<Reply>, l: Link, rest: seq<Request>,
                     fs: seq<LogicalFrame>)
    requires ProperStep(o, s, next, replies, fs) && next.phase != Closed(false)
    requires l.w.receiver.Awaiting? && l.toClient == [] && s.nextSend == l.first + |l.w.received|
    requires Asks(rest) == 0 && |replies| + Count(Waits(next.phase)) == 1
    requires InOrder(rest, next.Acked()) && next.Acked() + Acks(rest) == l.first + |l.w.acks|
    requires l.first <= next.Acked() && (next.committed <==> l.first < next.Acked())
    ensures WirePart(o, next, l.(toServer := rest, toClient := l.toClient + replies), fs)
  {
    hide SealFor, InOrder, Acks, Asks, ProperStep, ReplyDue;
    assert l.toClient + replies == replies;
    AnswerDue(o, s, next, replies, l.(toServer := rest, toClient := replies), fs);
  }

  lemma ServeAsk(o: Options, s: Server, l: Link, fs: seq<LogicalFrame>)
    requires o.Valid() && ServerInv(o, s, fs) && !s.complete && WirePart(o, s, l, fs) && ThreadsInv(l.first, l.w, |fs|)
    requires ServerReads(s.phase) && l.toServer != [] && l.toServer[0].NextFrame?
    ensures var r := OnRequest(o, s, NextFrame);
            && ServerInv(o, r.0, fs) && !r.0.complete && r.0.nextVolume == s.nextVolume
            && WirePart(o, r.0, l.(toServer := l.toServer[1..], toClient := l.toClient + r.1), fs)
  {
    hide Settle, SealFor, CoreInv, ProperStep;
    OpenBounds(o, s, fs);
    assert s.phase.Serving? && l.toClient == [] && s.endSeq.None?;
    var w := s.(phase := Windowed);
    PhaseFree(o, s, fs, Windowed);
    RequestKeeps(o, s, fs, NextFrame);
    SettleShape(o, w);
    SettleKeeps(o, w, fs);
    ProperKeeps(o, s, OnRequest(o, s, NextFrame).0, OnRequest(o, s, NextFrame).1, fs);
    AnswerOnWire(o, s, Settle(o, w).0, Settle(o, w).1, l, l.toServer[1..], fs);
  }

  lemma ProperKeeps(o: Options, s: Server, next: Server, replies: seq<Reply>, fs: seq<LogicalFrame>)
    requires ProperStep(o, s, next, replies, fs)
    ensures next.nextVolume == s.nextVolume && next.complete == s.complete
    ensures replies == [] ==> next.nextSend == s.nextSend
  {
  }

  /** The acknowledgement itself, before anything is resumed. */
  lemma TakeAck(o: Options, s: Server, fs: seq<LogicalFrame>)
    requires o.Valid() && ServerInv(o, s, fs) && !s.complete && s.Acked() < s.nextSend
    ensures var m := AckMessage(s.Acked());
            && Honest(s, m) && ProcessAck(s, m.payload).AckTaken?
            && var t := ProcessAck(s, m.payload);
               && CoreInv(o, t.next, fs) && t.next.Acked() == s.Acked() + 1 && t.next.committed
               && t.next.phase == s.phase && t.next.nextSend == s.nextSend && t.next.nextVolume == s.nextVolume
               && t.next.endSeq == s.endSeq && t.next.complete == s.complete
               && (t.complete ==> s.endSeq.Some?)
               && (EndLost(t.next, fs) <==> EndLost(s, fs)) && Taken(t.next) == Taken(s)
  {
    hide RetainedRun, ArchiveOf, Delivers, DropRetained;
    AckOfWord(s, s.Acked());
    AckKeeps(o, s, fs, AckMessage(s.Acked()).payload);
  }

  lemma SameDue(o: Options, s: Server, next: Server, l: Link, rest: seq<Request>, fs: seq<LogicalFrame>)
    requires ReplyDue(o, s, l, fs) && next.nextSend == s.nextSend && next.nextVolume == s.nextVolume
    ensures ReplyDue(o, next, l.(toServer := rest), fs)
  {
  }

  lemma ServeAckIdle(o: Options, s: Server, l: Link, fs: seq<LogicalFrame>)
    requires o.Valid() && ServerInv(o, s, fs) && !s.complete && WirePart(o, s, l, fs)
    requires l.first + |l.w.acks| <= s.nextSend
    requires s.phase.Serving? && l.toServer != [] && l.toServer[0].AckFrame?
    ensures var r := OnRequest(o, s, l.toServer[0]);
            && ServerInv(o, r.0, fs) && !r.0.complete && r.0.nextVolume == s.nextVolume
            && WirePart(o, r.0, l.(toServer := l.toServer[1..], toClient := l.toClient + r.1), fs)
  {
    hide SealFor, CoreInv, ProperStep, Settle, ProcessAck, ReplyDue;
    TakeAck(o, s, fs);
    RequestKeeps(o, s, fs, l.toServer[0]);
    assert l.toClient + [] == l.toClient;
    assert OnRequest(o, s, l.toServer[0]).0.nextSend == s.nextSend;
    SameDue(o, s, OnRequest(o, s, l.toServer[0]).0, l, l.toServer[1..], fs);
  }

  lemma ServeAckWaiting(o: Options, s: Server, l: Link, fs: seq<LogicalFrame>)
    requires o.Valid() && ServerInv(o, s, fs) && !s.complete && WirePart(o, s, l, fs)
    requires l.first + |l.w.acks| <= s.nextSend
    requires (s.phase.Windowed? || s.phase.Finishing?) && l.toServer != [] && l.toServer[0].AckFrame?
    ensures var r := OnRequest(o, s, l.toServer[0]);
            && ServerInv(o, r.0, fs) && !r.0.complete && r.0.nextVolume == s.nextVolume
            && WirePart(o, r.0, l.(toServer := l.toServer[1..], toClient := l.toClient + r.1), fs)
  {
    hide SealFor, CoreInv, ProperStep, Settle, ProcessAck;
    TakeAck(o, s, fs);
    OpenBounds(o, s, fs);
    RequestKeeps(o, s, fs, l.toServer[0]);
    var next := ProcessAck(s, l.toServer[0].payload).next;
    SettleShape(o, next);
    SettleKeeps(o, next, fs);
    var r := Settle(o, next);
    ProperKeeps(o, s, r.0, r.1, fs);
    AnswerOnWire(o, s, r.0, r.1, l, l.toServer[1..], fs);
  }

  // ------------------------------------------------------------- writer steps

  /** The archive as the writer relies on it. */
  ghost predicate Readable(o: Options, fs: seq<LogicalFrame>)
    requires o.Valid()
  {
    && ArchiveOf(o.id, fs) && Lawful(fs) && AllSealable(fs) && 0 < |fs| < TWO_64 - 1
    && (forall i :: 0 <= i < |fs| ==> fs[i].header.global == i)
    && (forall i :: 0 <= i < |fs| ==> (fs[i].header.channel.ArchiveEnd? <==> i == |fs| - 1))
  }

  lemma ArchiveReadable(o: Options, fs: seq<LogicalFrame>)
    requires o.Valid() && ArchiveOf(o.id, fs) && Lawful(fs)
    ensures Readable(o, fs)
  {
    hide Lawful, Sealable, ArchiveOf;
    LastIsEnd(o, fs);
    ArchiveIsSealable(o.id, fs);
    forall i | 0 <= i < |fs| ensures fs[i].header.channel.ArchiveEnd? <==> i == |fs| - 1 {
      SealableFrame(o.id, fs, i);
    }
  }

  /** The next frame of the volume is validated, seeded on if it is the first one,
      and queued. */
  lemma FrameTaken(o: Options, volume: u64, first: nat, w: Writer, fs: seq<LogicalFrame>)
    requires o.Valid() && Readable(o, fs) && ValidatorInv(o, fs, volume, first, w)
    requires first + |w.received| < |fs| && w.receiver.Awaiting? && !w.output.Stopped?
    ensures var due := first + |w.received|;
            var bytes := SealFor(o, fs[due], volume);
            && VolumeState(o, fs, volume, first, |w.received| + 1).Ok?
            && ReceiveReply(o.hash, w, FrameRecord(bytes)) ==
                 Enqueue(w.(validator := Some(VolumeState(o, fs, volume, first, |w.received| + 1).value)),
                         FramePending(bytes, due, due == |fs| - 1))
  {
    hide Judge, Seeded, VolumeState, SealFor, Enqueue, Carries, Sealable, Lawful, ArchiveOf, Arrived, SealHeader;
    var due := first + |w.received|;
    SealedArrives(o, fs[due], volume);
    VolumeStateStep(o, fs, volume, first, |w.received|);
    assert SealedRecord(o, fs[due], volume).data == SealFor(o, fs[due], volume);
  }

  lemma DeliverFrame(o: Options, volume: u64, first: nat, w: Writer, fs: seq<LogicalFrame>)
    requires o.Valid() && Readable(o, fs) && WriterPart(o, volume, first, w, fs)
    requires first + |w.received| < |fs| && w.receiver.Awaiting? && !w.output.Stopped?
    ensures var due := first + |w.received|;
            var next := ReceiveReply(o.hash, w, FrameRecord(SealFor(o, fs[due], volume)));
            && WriterPart(o, volume, first, next, fs)
            && next.output == w.output && next.acks == w.acks && |next.received| == |w.received| + 1
            && !next.receiver.Awaiting?
  {
    hide VolumeState, SealFor, WriterInv, AllSealable, Readable, ReceiveReply;
    var due := first + |w.received|;
    var bytes := SealFor(o, fs[due], volume);
    FrameTaken(o, volume, first, w, fs);
    ReceiveKeeps(o.hash, w, FrameRecord(bytes));
  }

  lemma WireDelivered(o: Options, s: Server, l: Link, w: Writer, fs: seq<LogicalFrame>)
    requires WirePart(o, s, l, fs) && l.toClient != [] && l.w.receiver.Awaiting?
    requires w.acks == l.w.acks && !w.receiver.Awaiting?
    requires |w.received| == |l.w.received| + Count(!w.output.Stopped? && l.toClient != [TapeEofReply])
    requires w.output.Stopped? ==> w.receiver.DoneReceiving?
    ensures l.toClient[1..] == [] && WirePart(o, s, l.(w := w, toClient := []), fs)
  {
    hide SealFor, InOrder, Acks, Asks;
  }

  lemma DeliverDropped(o: Options, s: Server, l: Link, fs: seq<LogicalFrame>)
    requires WriterPart(o, s.nextVolume, l.first, l.w, fs) && WirePart(o, s, l, fs)
    requires l.toClient != [] && l.w.receiver.Awaiting? && l.w.output.Stopped?
    ensures var w := ReceiveReply(o.hash, l.w, l.toClient[0]);
            WriterPart(o, s.nextVolume, l.first, w, fs) && WirePart(o, s, l.(w := w, toClient := l.toClient[1..]), fs)
  {
    hide ValidatorInv, SealedRun, WirePart, WriterInv, TakeRecord;
    var w := l.w.(receiver := DoneReceiving);
    ReceiveKeeps(o.hash, l.w, l.toClient[0]);
    SameValidator(o, s.nextVolume, l.first, l.w, w, fs);
    WireDelivered(o, s, l, w, fs);
  }

  lemma DeliverMark(o: Options, s: Server, l: Link, fs: seq<LogicalFrame>)
    requires WriterPart(o, s.nextVolume, l.first, l.w, fs) && WirePart(o, s, l, fs)
    requires l.toClient == [TapeEofReply] && l.w.receiver.Awaiting? && !l.w.output.Stopped?
    ensures var w := ReceiveReply(o.hash, l.w, l.toClient[0]);
            WriterPart(o, s.nextVolume, l.first, w, fs) && WirePart(o, s, l.(w := w, toClient := l.toClient[1..]), fs)
  {
    hide ValidatorInv, SealedRun, WirePart, WriterInv;
    var w := Enqueue(l.w, FilemarkPending);
    ReceiveKeeps(o.hash, l.w, TapeEofReply);
    SameValidator(o, s.nextVolume, l.first, l.w, w, fs);
    WireDelivered(o, s, l, w, fs);
  }

  lemma ReplyIs(o: Options, s: Server, l: Link, fs: seq<LogicalFrame>)
    requires WirePart(o, s, l, fs) && l.toClient != [] && l.toClient != [TapeEofReply]
    ensures var due := l.first + |l.w.received|;
            due < |fs| && l.toClient == [FrameRecord(SealFor(o, fs[due], s.nextVolume))]
  {
  }

  lemma DeliverKeeps(o: Options, s: Server, l: Link, fs: seq<LogicalFrame>)
    requires o.Valid() && Readable(o, fs) && WriterPart(o, s.nextVolume, l.first, l.w, fs) && WirePart(o, s, l, fs)
    requires l.toClient != [] && l.w.receiver.Awaiting?
    ensures var w := ReceiveReply(o.hash, l.w, l.toClient[0]);
            WriterPart(o, s.nextVolume, l.first, w, fs) && WirePart(o, s, l.(w := w, toClient := l.toClient[1..]), fs)
  {
    hide WriterPart, WirePart, ReceiveReply, SealFor, Readable;
    if l.w.output.Stopped? {
      DeliverDropped(o, s, l, fs);
    } else if l.toClient == [TapeEofReply] {
      DeliverMark(o, s, l, fs);
    } else {
      ReplyIs(o, s, l, fs);
      DeliverFrame(o, s.nextVolume, l.first, l.w, fs);
      WireDelivered(o, s, l, ReceiveReply(o.hash, l.w, l.toClient[0]), fs);
    }
  }

  lemma SameValidator(o: Options, volume: u64, first: nat, w: Writer, next: Writer, fs: seq<LogicalFrame>)
    requires ValidatorInv(o, fs, volume, first, w) && SealedRun(o, fs, volume, first, w.received)
    requires next.received == w.received && next.validator == w.validator
    ensures ValidatorInv(o, fs, volume, first, next) && SealedRun(o, fs, volume, first, next.received)
  {
    hide VolumeState, SealFor;
  }

  /** The acknowledgement a written record calls for is the next number. */
  lemma AckNumber(o: Options, volume: u64, first: nat, w: Writer, fs: seq<LogicalFrame>)
    requires o.Valid() && Readable(o, fs) && WriterPart(o, volume, first, w, fs) && w.output.Written?
    ensures w.output.item.FramePending? && first + |w.acks| < |fs|
    ensures w.output.item.global == first + |w.acks|
    ensures w.output.item.isEnd <==> first + |w.acks| == |fs| - 1
  {
    hide VolumeState, SealFor, Lawful, ArchiveOf, Carries, Sealable, SealHeader, Arrived, Numbered;
    var k := |w.acks|;
    assert w.received[k] == w.medium[k] == w.output.item.record;
    SealedArrives(o, fs[first + k], volume);
  }

  lemma SendAckKeeps(o: Options, s: Server, l: Link, fs: seq<LogicalFrame>)
    requires o.Valid() && Readable(o, fs) && WriterPart(o, s.nextVolume, l.first, l.w, fs) && WirePart(o, s, l, fs)
    requires l.w.output.Written?
    ensures l.w.output.item.FramePending?
    ensures var next := l.(w := Acknowledge(l.w), toServer := l.toServer + [AckMessage(l.w.output.item.global)]);
            WriterPart(o, s.nextVolume, l.first, next.w, fs) && WirePart(o, s, next, fs)
  {
    hide ValidatorInv, SealedRun, SealFor, Readable, InOrder, Acks, Asks, WriterInv;
    AckNumber(o, s.nextVolume, l.first, l.w, fs);
    AcknowledgeKeeps(o.hash, l.w);
    SameValidator(o, s.nextVolume, l.first, l.w, Acknowledge(l.w), fs);
    SmallArchive(o, fs);
    InOrderSnoc(l.toServer, s.Acked(), AckMessage(l.w.output.item.global));
  }

  lemma SmallArchive(o: Options, fs: seq<LogicalFrame>)
    requires o.Valid() && Readable(o, fs)
    ensures 0 < |fs| < TWO_64 - 1
  {
  }

  lemma AskKeeps(o: Options, s: Server, l: Link, fs: seq<LogicalFrame>)
    requires WriterPart(o, s.nextVolume, l.first, l.w, fs) && WirePart(o, s, l, fs)
    requires l.w.receiver.Cleared?
    ensures var next := l.(w := Ask(l.w), toServer := l.toServer + [NextFrame]);
            WriterPart(o, s.nextVolume, l.first, next.w, fs) && WirePart(o, s, next, fs)
  {
    hide ValidatorInv, SealedRun, SealFor, InOrder, Acks, Asks, WriterInv;
    SessionSteps(o, l.w, Wrote(false), true);
    SameValidator(o, s.nextVolume, l.first, l.w, Ask(l.w), fs);
    InOrderSnoc(l.toServer, s.Acked(), NextFrame);
  }

  lemma SessionSteps(o: Options, w: Writer, d: Device, ok: bool)
    requires WriterInv(o.hash, w)
    ensures SinkFits(w.capacity, w.used)
    ensures MayCheck(w) ==> WriterInv(o.hash, Check(w))
    ensures w.receiver.Cleared? ==> WriterInv(o.hash, Ask(w))
    ensures MayTake(w) ==> WriterInv(o.hash, TakeItem(w))
    ensures w.output.Holding? ==> WriterInv(o.hash, WriteItem(w, d))
    ensures w.output.Closing? ==> WriterInv(o.hash, CloseMedium(w, ok))
  {
    hide OutputInv, Numbered, AllFaithful;
    SessionKeeps(o.hash, w, TapeEofReply, d, ok);
  }

  /** A session with nothing queued and nothing in hand has more to receive. */
  lemma NeverDry(o: Options, volume: u64, first: nat, w: Writer, fs: seq<LogicalFrame>)
    requires WriterPart(o, volume, first, w, fs) && w.output.Idle? && w.queue == []
    ensures !InputClosed(w)
  {
    hide VolumeState, SealFor, Arrived;
    assert w.received == w.medium + [];
  }

  /** The steps that only move the output thread or the queue check. */
  lemma LocalKeeps(o: Options, s: Server, l: Link, w: Writer, fs: seq<LogicalFrame>)
    requires WriterPart(o, s.nextVolume, l.first, l.w, fs) && WirePart(o, s, l, fs)
    requires WriterInv(o.hash, w) && w.received == l.w.received && w.validator == l.w.validator && w.acks == l.w.acks
    requires (w.receiver == l.w.receiver && (l.w.output.Stopped? ==> w.output.Stopped?))
             || (l.w.receiver.Asking? && w.output == l.w.output
                 && w.receiver == if w.output.Stopped? then DoneReceiving else Cleared)
    requires ThreadsInv(l.first, w, |fs|)
    ensures WriterPart(o, s.nextVolume, l.first, w, fs) && WirePart(o, s, l.(w := w), fs)
  {
    hide ValidatorInv, SealedRun, SealFor, InOrder, Acks, Asks, WriterInv, ThreadsInv;
    SameValidator(o, s.nextVolume, l.first, l.w, w, fs);
  }

  lemma LocalSteps(o: Options, s: Server, l: Link, fs: seq<LogicalFrame>, d: Device, ok: bool)
    requires WriterPart(o, s.nextVolume, l.first, l.w, fs) && WirePart(o, s, l, fs)
    ensures MayCheck(l.w) ==>
              WriterPart(o, s.nextVolume, l.first, Check(l.w), fs) && WirePart(o, s, l.(w := Check(l.w)), fs)
    ensures MayTake(l.w) ==>
              WriterPart(o, s.nextVolume, l.first, TakeItem(l.w), fs) && WirePart(o, s, l.(w := TakeItem(l.w)), fs)
    ensures l.w.output.Holding? && SinkFits(l.w.capacity, l.w.used) ==>
              WriterPart(o, s.nextVolume, l.first, WriteItem(l.w, d), fs)
              && WirePart(o, s, l.(w := WriteItem(l.w, d)), fs)
    ensures l.w.output.Closing? ==>
              WriterPart(o, s.nextVolume, l.first, CloseMedium(l.w, ok), fs)
              && WirePart(o, s, l.(w := CloseMedium(l.w, ok)), fs)
  {
    hide ValidatorInv, SealedRun, WirePart, WriterInv;
    SessionSteps(o, l.w, d, ok);
    if MayCheck(l.w) {
      LocalKeeps(o, s, l, Check(l.w), fs);
    }
    if MayTake(l.w) {
      if l.w.queue == [] {
        NeverDry(o, s.nextVolume, l.first, l.w, fs);
      }
      LocalKeeps(o, s, l, TakeItem(l.w), fs);
    }
    if l.w.output.Holding? {
      LocalKeeps(o, s, l, WriteItem(l.w, d), fs);
    }
    if l.w.output.Closing? {
      LocalKeeps(o, s, l, CloseMedium(l.w, ok), fs);
    }
  }
}
