// How far the send window may exceed the retry history: a run of the transfer
// system whose tapes cannot be read back, and the exact condition.
module WindowBound {
  import opened Base
  import opened Format
  import opened Sealing
  import opened Validator
  import opened Replays
  import opened FrameBuilder
  import opened Producer
  import opened VolumeServer
  import opened ServerTheorems
  import opened Media
  import opened Writer
  import opened Transfer
  import opened TransferTheorems
  import opened Extractor
  import opened EndToEnd
  import opened ArchiveTheorem

  lemma {:induction false} ExecuteAppend(o: Options, s: Sys, A: seq<Action>, B: seq<Action>)
    requires o.Valid()
    ensures Execute(o, s, A + B) == Execute(o, Execute(o, s, A), B)
    decreases |B|
  {
    hide Advance;
    if B == [] {
      assert A + B == A;
    } else {
      assert (A + B)[..|A + B| - 1] == A + B[..|B| - 1];
      ExecuteAppend(o, s, A, B[..|B| - 1]);
    }
  }

  lemma ExecuteOne(o: Options, s: Sys, a: Action)
    requires o.Valid() && Enabled(s, a)
    ensures Execute(o, s, [a]) == Step(o, s, a)
  {
    hide Step, Enabled;
    assert [a][..0] == [];
  }

  // --------------------------------------- the writer takes in, without writing

  /** The link at rest: nothing in flight, the receiver about to ask. */
  ghost predicate AtRest(o: Options, s: Sys, fs: seq<LogicalFrame>)
    requires o.Valid()
  {
    && SysInv(o, s, fs) && s.link.Some? && s.server.phase.Serving? && s.server.endSeq.None?
    && s.link.value.toServer == [] && s.link.value.toClient == []
    && s.link.value.w.receiver.Asking? && s.link.value.w.output.Idle? && s.link.value.w.capacity.None?
  }

  /** A first connection on which n frames have been sent, received and queued. */
  ghost predicate Filling(o: Options, s: Sys, fs: seq<LogicalFrame>, n: nat, limit: nat)
    requires o.Valid()
  {
    && AtRest(o, s, fs) && s.volumes == [] && s.link.value.first == 0
    && s.server.Acked() == 0 && s.server.nextSend == Taken(s.server) == n && Delivers(s.server.queue, fs, n)
    && |s.link.value.w.received| == n
    && s.link.value.w.limit == limit && s.link.value.w.queuedBytes == n * o.BlockSize()
  }

  /** Check the queue, ask: the request is on its way. */
  lemma Asks2(o: Options, s: Sys, fs: seq<LogicalFrame>)
    requires s.link.Some? && o.Valid() && Readable(o, fs) && AtRest(o, s, fs)
    requires s.link.value.w.queuedBytes < s.link.value.w.limit
    ensures var l := s.link.value;
            var t := s.(link := Some(l.(w := l.w.(receiver := Awaiting), toServer := [NextFrame])));
            Execute(o, s, [CheckQueue, AskNext]) == t && SysInv(o, t, fs)
  {
    hide SysInv, Readable, Execute;
    ExecuteOne(o, s, CheckQueue);
    StepKeeps(o, s, fs, CheckQueue);
    var s1 := Step(o, s, CheckQueue);
    ExecuteOne(o, s1, AskNext);
    StepKeeps(o, s1, fs, AskNext);
    assert Step(o, s1, AskNext).link.value.toServer == [NextFrame];
    ExecuteAppend(o, s, [CheckQueue], [AskNext]);
    assert [CheckQueue] + [AskNext] == [CheckQueue, AskNext];
  }

  /** The server answers and the writer takes the answer. */
  lemma Answers(o: Options, s: Sys, fs: seq<LogicalFrame>, next: Server, reply: Reply)
    requires s.link.Some? && o.Valid() && Readable(o, fs) && SysInv(o, s, fs)
    requires s.link.value.w.receiver.Awaiting? && s.link.value.toServer == [NextFrame] && s.link.value.toClient == []
    requires s.server.phase.Serving? && OnRequest(o, s.server, NextFrame) == (next, [reply])
    ensures var l := s.link.value;
            var t := Sys(next, Some(l.(w := ReceiveReply(o.hash, l.w, reply), toServer := [])), s.volumes);
            Execute(o, s, [Serve, Deliver]) == t && SysInv(o, t, fs)
  {
    hide SysInv, Readable, OnRequest, ReceiveReply, Execute;
    ExecuteOne(o, s, Serve);
    StepKeeps(o, s, fs, Serve);
    var s1 := Step(o, s, Serve);
    assert s1.link.value.toClient == [reply] && s1.link.value.toServer == [];
    ExecuteOne(o, s1, Deliver);
    StepKeeps(o, s1, fs, Deliver);
    assert Step(o, s1, Deliver).link.value.toClient == [];
    ExecuteAppend(o, s, [Serve], [Deliver]);
    assert [Serve] + [Deliver] == [Serve, Deliver];
  }

  /** One whole exchange. */
  function Exchanging(): seq<Action> { [CheckQueue, AskNext] + [Serve, Deliver] }

  lemma Exchange(o: Options, s: Sys, fs: seq<LogicalFrame>, next: Server, reply: Reply)
    requires s.link.Some? && o.Valid() && Readable(o, fs) && AtRest(o, s, fs)
    requires s.link.value.w.queuedBytes < s.link.value.w.limit
    requires OnRequest(o, s.server, NextFrame) == (next, [reply])
    ensures var l := s.link.value;
            var t := Sys(next, Some(l.(w := ReceiveReply(o.hash, l.w.(receiver := Awaiting), reply))), s.volumes);
            Execute(o, s, Exchanging()) == t && SysInv(o, t, fs)
  {
    hide SysInv, Readable, OnRequest, ReceiveReply, Execute;
    Asks2(o, s, fs);
    var t := Execute(o, s, [CheckQueue, AskNext]);
    Answers(o, t, fs, next, reply);
    ExecuteAppend(o, s, [CheckQueue, AskNext], [Serve, Deliver]);
  }

  /** What the link invariant says about the writer. */
  lemma LinkFacts(o: Options, s: Sys, fs: seq<LogicalFrame>)
    requires s.link.Some? && o.Valid() && Readable(o, fs) && SysInv(o, s, fs)
    ensures var l := s.link.value;
            && ServerInv(o, s.server, fs) && !s.server.complete
            && WriterPart(o, s.server.nextVolume, l.first, l.w, fs) && WirePart(o, s.server, l, fs)
            && ValidatorInv(o, fs, s.server.nextVolume, l.first, l.w)
            && LastAcked(s.volumes) == l.first
  {
    hide ServerInv, WirePart, WriterInv, VolumesInv;
  }

  lemma FrameSize(o: Options, fs: seq<LogicalFrame>, i: nat, volume: u64)
    requires o.Valid() && ArchiveOf(o.id, fs) && i < |fs|
    ensures |SealFor(o, fs[i], volume)| == o.BlockSize()
  {
    SealableFrame(o.id, fs, i);
    hide SealRecord, ArchiveOf;
    Issued(o, fs[i].header, fs[i].body, volume, volume);
  }

  lemma FillServed(o: Options, s: Sys, fs: seq<LogicalFrame>, n: nat, limit: nat)
    requires o.Valid() && Readable(o, fs) && Filling(o, s, fs, n, limit)
    requires n < o.window && n + 1 < |fs| && s.server.queue[0].Frame?
    ensures OnRequest(o, s.server, NextFrame) ==
              (s.server.(queue := s.server.queue[1..], nextSend := n + 1,
                         retained := s.server.retained + [Retained(n, fs[n].Record())]),
               [FrameRecord(SealFor(o, fs[n], s.server.nextVolume))])
    ensures Delivers(s.server.queue[1..], fs, n + 1)
  {
    hide SysInv, Readable, OnRequest, SealFor, ServeNext, WriterPart, WirePart, ValidatorInv;
    LinkFacts(o, s, fs);
    FillHead(o, s, fs, n, limit);
    HeadFrame(o, s.server.(phase := Windowed), fs);
  }

  lemma FillTaken(o: Options, s: Sys, fs: seq<LogicalFrame>, n: nat, limit: nat)
    requires o.Valid() && Readable(o, fs) && Filling(o, s, fs, n, limit) && n + 1 < |fs|
    ensures var w := s.link.value.w;
            var next := ReceiveReply(o.hash, w.(receiver := Awaiting),
                                     FrameRecord(SealFor(o, fs[n], s.server.nextVolume)));
            && next.receiver.Asking? && next.output == w.output && next.capacity == w.capacity
            && next.limit == limit && |next.received| == n + 1
            && next.queuedBytes == w.queuedBytes + o.BlockSize()
  {
    hide SysInv, Readable, ReceiveReply, SealFor, WriterPart, WirePart, ValidatorInv, VolumeState;
    LinkFacts(o, s, fs);
    AwaitKeepsValidator(o, s, fs);
    FrameTaken(o, s.server.nextVolume, 0, s.link.value.w.(receiver := Awaiting), fs);
    ReadableArchive(o, fs);
    FrameSize(o, fs, n, s.server.nextVolume);
  }

  lemma OneMore(n: nat, k: nat)
    ensures (n + 1) * k == n * k + k
  {
  }

  lemma FillFrame(o: Options, s: Sys, fs: seq<LogicalFrame>, n: nat, limit: nat)
    requires o.Valid() && Readable(o, fs) && Filling(o, s, fs, n, limit)
    requires n < o.window && n + 1 < |fs| && n * o.BlockSize() < limit && s.server.queue[0].Frame?
    ensures var t := Execute(o, s, Exchanging());
            Filling(o, t, fs, n + 1, limit) && |t.server.queue| < |s.server.queue|
  {
    hide SysInv, Readable, OnRequest, ReceiveReply, Execute, SealFor, Delivers;
    FillHeadKind(o, s, fs, n, limit);
    FillServed(o, s, fs, n, limit);
    FillTaken(o, s, fs, n, limit);
    var r := OnRequest(o, s.server, NextFrame);
    Exchange(o, s, fs, r.0, FrameRecord(SealFor(o, fs[n], s.server.nextVolume)));
    OneMore(n, o.BlockSize());
  }

  lemma AwaitKeepsValidator(o: Options, s: Sys, fs: seq<LogicalFrame>)
    requires s.link.Some? && ValidatorInv(o, fs, s.server.nextVolume, s.link.value.first, s.link.value.w)
    ensures ValidatorInv(o, fs, s.server.nextVolume, s.link.value.first, s.link.value.w.(receiver := Awaiting))
  {
    hide VolumeState;
  }

  lemma ReadableArchive(o: Options, fs: seq<LogicalFrame>)
    requires o.Valid() && Readable(o, fs)
    ensures ArchiveOf(o.id, fs)
  {
  }

  lemma FillMark(o: Options, s: Sys, fs: seq<LogicalFrame>, n: nat, limit: nat)
    requires o.Valid() && Readable(o, fs) && Filling(o, s, fs, n, limit)
    requires n < o.window && n + 1 < |fs| && n * o.BlockSize() < limit && s.server.queue[0].TapeEof?
    ensures var t := Execute(o, s, Exchanging());
            Filling(o, t, fs, n, limit) && |t.server.queue| < |s.server.queue|
  {
    hide SysInv, Readable, OnRequest, Execute, ServeNext, WriterPart, WirePart, ValidatorInv, TakeRecord;
    LinkFacts(o, s, fs);
    FillHead(o, s, fs, n, limit);
    HeadMark(o, s.server.(phase := Windowed), fs);
    var r := OnRequest(o, s.server, NextFrame);
    Exchange(o, s, fs, r.0, TapeEofReply);
  }

  lemma FillHead(o: Options, s: Sys, fs: seq<LogicalFrame>, n: nat, limit: nat)
    requires o.Valid() && Filling(o, s, fs, n, limit) && ServerInv(o, s.server, fs) && !s.server.complete
    requires n < o.window && n + 1 < |fs|
    ensures AtHead(o, s.server.(phase := Windowed), fs)
    ensures OnRequest(o, s.server, NextFrame) == ServeNext(o, s.server.(phase := Windowed))
    ensures !s.server.queue[0].Done?
  {
    hide ServeNext, SysInv;
    OutstandingIs(o, s.server, fs);
  }

  /** The writer can take in any number of frames before it writes the first. */
  lemma {:induction false} Fill(o: Options, s: Sys, fs: seq<LogicalFrame>, n: nat, goal: nat, limit: nat)
    returns (actions: seq<Action>)
    requires o.Valid() && Readable(o, fs) && Filling(o, s, fs, n, limit)
    requires n <= goal <= o.window && goal < |fs| && goal * o.BlockSize() < limit
    ensures Filling(o, Execute(o, s, actions), fs, goal, limit)
    decreases |s.server.queue|
  {
    hide Filling, Readable;
    if n == goal {
      actions := [];
    } else {
      SmallerProduct(n, goal, o.BlockSize());
      FillHeadKind(o, s, fs, n, limit);
      var step := Exchanging();
      var t := Execute(o, s, step);
      var m := n;
      if s.server.queue[0].Frame? {
        FillFrame(o, s, fs, n, limit);
        m := n + 1;
      } else {
        FillMark(o, s, fs, n, limit);
      }
      var rest := Fill(o, t, fs, m, goal, limit);
      ExecuteAppend(o, s, step, rest);
      actions := step + rest;
    }
  }

  lemma SmallerProduct(m: nat, n: nat, k: nat)
    requires m <= n
    ensures m * k <= n * k
  {
  }

  lemma FillHeadKind(o: Options, s: Sys, fs: seq<LogicalFrame>, n: nat, limit: nat)
    requires o.Valid() && Filling(o, s, fs, n, limit) && n + 1 < |fs|
    ensures s.server.queue != [] && !s.server.queue[0].Done?
  {
    hide SysInv;
  }

  // ------------------------------------------------- the writer writes it all out

  /** The output thread is idle; nothing but the drive can stop it. */
  ghost predicate Draining(o: Options, s: Sys, fs: seq<LogicalFrame>)
    requires o.Valid()
  {
    && SysInv(o, s, fs) && s.link.Some? && s.link.value.w.output.Idle? && s.link.value.w.capacity.None?
    && s.link.value.first + |s.link.value.w.received| < |fs|
  }

  /** The server, the finished volumes and what the writer received are as before. */
  predicate SameSource(s: Sys, t: Sys) {
    && t.server == s.server && t.volumes == s.volumes && s.link.Some? && t.link.Some?
    && t.link.value.first == s.link.value.first && t.link.value.w.received == s.link.value.w.received
  }

  lemma DrainMark(o: Options, s: Sys, fs: seq<LogicalFrame>)
    requires s.link.Some? && o.Valid() && Readable(o, fs) && Draining(o, s, fs)
    requires s.link.value.w.queue != [] && s.link.value.w.queue[0].FilemarkPending?
    ensures var t := Execute(o, s, [PopItem, WriteOut(Wrote(false))]);
            SameSource(s, t) && Draining(o, t, fs) && t.link.value.w.queue == s.link.value.w.queue[1..]
  {
    hide SysInv, Readable, Execute;
    ExecuteOne(o, s, PopItem);
    StepKeeps(o, s, fs, PopItem);
    var s1 := Step(o, s, PopItem);
    ExecuteOne(o, s1, WriteOut(Wrote(false)));
    StepKeeps(o, s1, fs, WriteOut(Wrote(false)));
    ExecuteAppend(o, s, [PopItem], [WriteOut(Wrote(false))]);
    assert [PopItem] + [WriteOut(Wrote(false))] == [PopItem, WriteOut(Wrote(false))];
  }

  /** A record is popped and written. */
  lemma DrainRecord(o: Options, s: Sys, fs: seq<LogicalFrame>)
    requires s.link.Some? && o.Valid() && Readable(o, fs) && Draining(o, s, fs)
    requires s.link.value.w.queue != [] && s.link.value.w.queue[0].FramePending?
    ensures var t := Execute(o, s, [PopItem, WriteOut(Wrote(false))]);
            && SameSource(s, t) && SysInv(o, t, fs) && t.link.value.w.queue == s.link.value.w.queue[1..]
            && t.link.value.w.output == Written(s.link.value.w.queue[0], false) && t.link.value.w.capacity.None?
  {
    hide SysInv, Readable, Execute;
    ExecuteOne(o, s, PopItem);
    StepKeeps(o, s, fs, PopItem);
    var s1 := Step(o, s, PopItem);
    ExecuteOne(o, s1, WriteOut(Wrote(false)));
    StepKeeps(o, s1, fs, WriteOut(Wrote(false)));
    ExecuteAppend(o, s, [PopItem], [WriteOut(Wrote(false))]);
    assert [PopItem] + [WriteOut(Wrote(false))] == [PopItem, WriteOut(Wrote(false))];
  }

  lemma DrainAck(o: Options, s: Sys, fs: seq<LogicalFrame>, item: Pending)
    requires s.link.Some? && o.Valid() && Readable(o, fs) && SysInv(o, s, fs)
    requires s.link.value.w.output == Written(item, false) && item.FramePending? && s.link.value.w.capacity.None?
    requires s.link.value.first + |s.link.value.w.received| < |fs|
    ensures var t := Execute(o, s, [SendAck]);
            SameSource(s, t) && Draining(o, t, fs) && t.link.value.w.queue == s.link.value.w.queue
  {
    hide SysInv, Readable, Execute, WriterPart, WirePart, ServerInv, ValidatorInv;
    LinkFacts(o, s, fs);
    NotTheEnd(o, s, fs);
    ExecuteOne(o, s, SendAck);
    StepKeeps(o, s, fs, SendAck);
  }

  lemma NotTheEnd(o: Options, s: Sys, fs: seq<LogicalFrame>)
    requires o.Valid() && Readable(o, fs) && s.link.Some? && s.link.value.w.output.Written?
    requires WriterPart(o, s.server.nextVolume, s.link.value.first, s.link.value.w, fs)
    requires s.link.value.first + |s.link.value.w.received| < |fs|
    ensures s.link.value.w.output.item.FramePending? ==> !s.link.value.w.output.item.isEnd
  {
    hide Readable, ValidatorInv, SealedRun, Arrived;
    var l := s.link.value;
    AckNumber(o, s.server.nextVolume, l.first, l.w, fs);
    assert |l.w.acks| < |l.w.medium| <= |l.w.received|;
  }

  /** Everything queued goes onto the medium; the acknowledgements stay in flight. */
  lemma {:induction false} Drain(o: Options, s: Sys, fs: seq<LogicalFrame>) returns (actions: seq<Action>)
    requires o.Valid() && Readable(o, fs) && Draining(o, s, fs)
    ensures var t := Execute(o, s, actions);
            SameSource(s, t) && Draining(o, t, fs) && t.link.value.w.medium == t.link.value.w.received
    decreases |s.link.value.w.queue|
  {
    hide SysInv, Readable, Execute;
    if s.link.value.w.queue == [] {
      actions := [];
      NothingExecuted(o, s);
      AllWritten(o, s, fs);
    } else {
      var step := [PopItem, WriteOut(Wrote(false))];
      var t := Execute(o, s, step);
      if s.link.value.w.queue[0].FilemarkPending? {
        DrainMark(o, s, fs);
      } else {
        DrainRecord(o, s, fs);
        DrainAck(o, t, fs, s.link.value.w.queue[0]);
        ExecuteAppend(o, s, step, [SendAck]);
        step := step + [SendAck];
        t := Execute(o, s, step);
      }
      var rest := Drain(o, t, fs);
      ExecuteAppend(o, s, step, rest);
      actions := step + rest;
    }
  }

  lemma NothingExecuted(o: Options, s: Sys)
    requires o.Valid()
    ensures Execute(o, s, []) == s
  {
  }

  lemma AllWritten(o: Options, s: Sys, fs: seq<LogicalFrame>)
    requires s.link.Some? && o.Valid() && Readable(o, fs) && Draining(o, s, fs) && s.link.value.w.queue == []
    ensures s.link.value.w.medium == s.link.value.w.received
  {
    LinkFacts(o, s, fs);
    hide Readable, SysInv, ValidatorInv, ServerInv, WirePart, Arrived;
    var w := s.link.value.w;
    assert w.received == w.medium + [];
  }

  // --------------------------------------------- a full volume, then one record

  /** Room for that many records. */
  function Room(o: Options, goal: nat): (r: nat)
    ensures r > goal * o.BlockSize()
  {
    goal * o.BlockSize() + 1
  }

  /** An unlimited session whose queue holds that many records. */
  function DialFor(o: Options, goal: nat): Action { Dial(Room(o, goal), None, 0) }

  lemma FirstDial(o: Options, fs: seq<LogicalFrame>, queue: seq<VolumeRecord>, firstVolume: u64, goal: nat)
    requires o.Valid() && Readable(o, fs) && Delivers(queue, fs, 0)
    ensures var s := Execute(o, Initially(queue, firstVolume), [DialFor(o, goal)]);
            Filling(o, s, fs, 0, Room(o, goal))
  {
    hide SysInv, Readable, Execute, Delivers;
    var s := Initially(queue, firstVolume);
    StartKeeps(o, fs, queue, firstVolume);
    ExecuteOne(o, s, DialFor(o, goal));
    StepKeeps(o, s, fs, DialFor(o, goal));
  }

  /** The first volume: full of frames, none of whose acknowledgements arrived. */
  ghost predicate Unheard(o: Options, s: Sys, fs: seq<LogicalFrame>, goal: nat)
    requires o.Valid()
  {
    && SysInv(o, s, fs) && s.link.None? && s.server.Acked() == 0 && !s.server.complete && Taken(s.server) > 0
    && |s.volumes| == 1 && s.volumes[0].first == 0 && |s.volumes[0].records| == goal
  }

  lemma CutUnheard(o: Options, s: Sys, fs: seq<LogicalFrame>, goal: nat)
    requires s.link.Some? && o.Valid() && Readable(o, fs) && Draining(o, s, fs)
    requires s.volumes == [] && s.link.value.first == 0
    requires s.server.Acked() == 0 && s.server.phase.Serving? && Taken(s.server) == goal > 0
    requires |s.link.value.w.received| == goal && s.link.value.w.medium == s.link.value.w.received
    ensures Unheard(o, Execute(o, s, [Cut]), fs, goal)
  {
    hide SysInv, Readable, Execute, ServerInv, WriterPart, WirePart, ValidatorInv;
    LinkFacts(o, s, fs);
    ExecuteOne(o, s, Cut);
    StepKeeps(o, s, fs, Cut);
  }

  lemma FirstVolume(o: Options, fs: seq<LogicalFrame>, queue: seq<VolumeRecord>, firstVolume: u64, goal: nat)
    returns (actions: seq<Action>)
    requires o.Valid() && Readable(o, fs) && Delivers(queue, fs, 0)
    requires 0 < goal <= o.window && goal < |fs|
    ensures Unheard(o, Execute(o, Initially(queue, firstVolume), actions), fs, goal)
  {
    hide SysInv, Readable, Execute, Delivers;
    var s0 := Initially(queue, firstVolume);
    FirstDial(o, fs, queue, firstVolume, goal);
    var s1 := Execute(o, s0, [DialFor(o, goal)]);
    var fill := Fill(o, s1, fs, 0, goal, Room(o, goal));
    ExecuteAppend(o, s0, [DialFor(o, goal)], fill);
    var s2 := Execute(o, s1, fill);
    var drain := Drain(o, s2, fs);
    ExecuteAppend(o, s0, [DialFor(o, goal)] + fill, drain);
    var s3 := Execute(o, s2, drain);
    CutUnheard(o, s3, fs, goal);
    ExecuteAppend(o, s0, [DialFor(o, goal)] + fill + drain, [Cut]);
    actions := [DialFor(o, goal)] + fill + drain + [Cut];
  }

  /** The second connection begins again at frame 0. */
  lemma SecondDial(o: Options, s: Sys, fs: seq<LogicalFrame>, goal: nat)
    requires o.Valid() && Readable(o, fs) && Unheard(o, s, fs, goal)
    ensures var t := Execute(o, s, [DialFor(o, goal)]);
            && t.link.Some? && AtRest(o, t, fs) && t.volumes == s.volumes && t.link.value.first == 0
            && t.server.nextSend == 0 < Taken(t.server) && t.server.Acked() == 0
            && t.link.value.w == Session(Room(o, goal), None, 0)
  {
    hide SysInv, Readable, Execute;
    ExecuteOne(o, s, DialFor(o, goal));
    StepKeeps(o, s, fs, DialFor(o, goal));
  }

  /** A retained frame is answered with, whatever was sent before. */
  lemma AnswerRetained(o: Options, s: Server, fs: seq<LogicalFrame>)
    requires o.Valid() && ServerInv(o, s, fs) && !s.complete && s.phase.Serving? && s.endSeq.None?
    requires s.nextSend == s.Acked() < Taken(s) && s.nextSend + 1 < |fs|
    ensures var r := OnRequest(o, s, NextFrame);
            && r.1 == [FrameRecord(SealFor(o, fs[s.nextSend], s.nextVolume))]
            && r.0.nextVolume == s.nextVolume
  {
    hide SendRecord, StandsFor, EndFrame, SealFor, ParseHeader, GetRetained, Delivers;
    LastIsEnd(o, fs);
    RetainedAt(o, s.Acked(), s.retained, fs, s.nextSend);
    SendsFrame(o, s.(phase := Windowed), fs, s.retained[0].record, s.nextSend);
  }

  lemma SecondFrame(o: Options, s: Sys, t: Sys, fs: seq<LogicalFrame>, goal: nat)
    requires s.link.Some? && s.link.value.first == 0
    requires o.Valid() && Readable(o, fs) && 1 < |fs| && AtRest(o, s, fs)
    requires s.server.nextSend == s.server.Acked() == 0 < Taken(s.server)
    requires s.link.value.w == Session(Room(o, goal), None, 0) && t == Execute(o, s, Exchanging())
    ensures && t.link.Some? && t.volumes == s.volumes && t.link.value.first == 0
            && |t.link.value.w.received| == 1 && Draining(o, t, fs)
  {
    hide SysInv, Readable, OnRequest, ReceiveReply, Execute, SealFor, WriterPart, WirePart, ValidatorInv, ServerInv;
    LinkFacts(o, s, fs);
    AnswerRetained(o, s.server, fs);
    var r := OnRequest(o, s.server, NextFrame);
    Exchange(o, s, fs, r.0, FrameRecord(SealFor(o, fs[0], s.server.nextVolume)));
    AwaitKeepsValidator(o, s, fs);
    FrameTaken(o, s.server.nextVolume, 0, s.link.value.w.(receiver := Awaiting), fs);
  }

  lemma SecondVolume(o: Options, s: Sys, fs: seq<LogicalFrame>, goal: nat) returns (actions: seq<Action>)
    requires o.Valid() && Readable(o, fs) && 1 < |fs| && Unheard(o, s, fs, goal)
    ensures var t := Execute(o, s, actions);
            && SysInv(o, t, fs) && |t.volumes| == 2 && t.volumes[0] == s.volumes[0]
            && t.volumes[1].first == 0 && |t.volumes[1].records| == 1
  {
    hide SysInv, Readable, Execute;
    SecondDial(o, s, fs, goal);
    var s1 := Execute(o, s, [DialFor(o, goal)]);
    var ask := Exchanging();
    SecondFrame(o, s1, Execute(o, s1, ask), fs, goal);
    ExecuteAppend(o, s, [DialFor(o, goal)], ask);
    var s2 := Execute(o, s1, ask);
    var drain := Drain(o, s2, fs);
    ExecuteAppend(o, s, [DialFor(o, goal)] + ask, drain);
    var s3 := Execute(o, s2, drain);
    ExecuteOne(o, s3, Cut);
    StepKeeps(o, s3, fs, Cut);
    ExecuteAppend(o, s, [DialFor(o, goal)] + ask + drain, [Cut]);
    actions := [DialFor(o, goal)] + ask + drain + [Cut];
  }

  // ------------------------------------------------------------------- the theorem

  lemma {:induction false} ChooseAll(vs: seq<Volume>)
    ensures Chosen(vs, vs)
  {
    if vs != [] {
      ChooseAll(vs[..|vs| - 1]);
    }
  }

  /** The second volume reaches back further than the history of the reader. */
  lemma OutOfReach(vs: seq<Volume>, total: nat)
    requires |vs| == 2 && vs[0].first == 0 && vs[1].first == 0 && |vs[1].records| > 0
    requires RETRY_HISTORY < |vs[0].records| < total
    ensures !InReach(vs, total)
  {
    assert vs[..1][..0] == [];
    assert Far(vs[..1]) == |vs[0].records|;
  }

  lemma AllAreRuns(o: Options, s: Sys, fs: seq<LogicalFrame>)
    requires o.Valid() && SysInv(o, s, fs)
    ensures AllRuns(o, s.volumes, fs)
  {
    VolumesOf(o, s, fs);
    forall i | 0 <= i < |s.volumes|
      ensures SealedRun(o, fs, s.volumes[i].number, s.volumes[i].first, s.volumes[i].records)
    {
      assert VolumeInv(o, s.volumes[i], fs);
    }
  }

  /** A run whose volumes, all of them read in order, are refused. */
  lemma Unreadable(o: Options, fs: seq<LogicalFrame>, queue: seq<VolumeRecord>, firstVolume: u64)
    returns (actions: seq<Action>)
    requires o.Valid() && Readable(o, fs) && Delivers(queue, fs, 0)
    requires o.window > RETRY_HISTORY && |fs| > RETRY_HISTORY + 1
    ensures var vs := Execute(o, Initially(queue, firstVolume), actions).volumes;
            Chosen(vs, vs) && ReadAll(o.hash, false, Tapes(vs)).Err?
  {
    hide SysInv, Readable, Execute, ReadAll, Delivers, Chosen, InReach, AllRuns;
    var s0 := Initially(queue, firstVolume);
    var first := FirstVolume(o, fs, queue, firstVolume, RETRY_HISTORY + 1);
    var s1 := Execute(o, s0, first);
    var second := SecondVolume(o, s1, fs, RETRY_HISTORY + 1);
    ExecuteAppend(o, s0, first, second);
    actions := first + second;
    var vs := Execute(o, s0, actions).volumes;
    ChooseAll(vs);
    AllAreRuns(o, Execute(o, s0, actions), fs);
    OutOfReach(vs, |fs|);
    var M := ReadsExactly(o, vs, fs);
  }

  /** Every choice of volumes from every run can be read back. */
  ghost predicate AlwaysReadable(o: Options, queue: seq<VolumeRecord>, firstVolume: u64)
    requires o.Valid()
  {
    forall actions, sel ::
      Chosen(sel, Execute(o, Initially(queue, firstVolume), actions).volumes) ==>
        ReadAll(o.hash, false, Tapes(sel)).Ok?
  }

  /** The exact condition on the window a caller sets: the tapes of every run, cut
      anywhere, can be read back if and only if the window does not exceed the
      reader's retry history or the archive has at most 8193 frames. */
  lemma ReadableExactly(o: Options, catalog: seq<u8>, slices: seq<seq<u8>>, firstVolume: u64)
    requires o.Valid() && InRange(catalog, slices) && NoEmptySliceInside(catalog, slices)
    ensures AlwaysReadable(o, ProducerItems(o.id, catalog, slices), firstVolume) <==>
              HistorySuffices(o, ArchiveFrames(o.id, catalog, slices))
  {
    hide Execute, ArchiveFrames, ProducerItems, ReadAll, NoEmptySliceInside, Chosen, InRange, Readable;
    var fs := ArchiveFrames(o.id, catalog, slices);
    var queue := ProducerItems(o.id, catalog, slices);
    if HistorySuffices(o, fs) {
      forall actions, sel | Chosen(sel, Execute(o, Initially(queue, firstVolume), actions).volumes)
        ensures ReadAll(o.hash, false, Tapes(sel)).Ok?
      {
        EverythingAcknowledgedIsRestored(o, catalog, slices, firstVolume, actions, sel);
      }
    } else {
      ProducedIsLawful(o.id, catalog, slices);
      ProducerDelivers(o.id, catalog, slices);
      ArchiveReadable(o, fs);
      var actions := Unreadable(o, fs, queue, firstVolume);
    }
  }
}
