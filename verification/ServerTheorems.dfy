// Whole runs of the archive server: what every honest run keeps, and exactly
// when an interrupted archive can still be completed.
module ServerTheorems {
  import opened Base
  import opened Format
  import opened Sealing
  import opened FrameBuilder
  import opened Producer
  import opened VolumeServer

  // -------------------------------------------------------------- honest runs

  ghost predicate HonestRun(o: Options, s: Server, requests: seq<Request>)
    requires o.Valid()
  {
    forall i :: 0 <= i < |requests| ==> Honest(Run(o, s, requests[..i]).0, requests[i])
  }

  lemma {:induction false} RunAppend(o: Options, s: Server, A: seq<Request>, B: seq<Request>)
    requires o.Valid()
    ensures Run(o, s, A + B).0 == Run(o, Run(o, s, A).0, B).0
    ensures Run(o, s, A + B).1 == Run(o, s, A).1 + Run(o, Run(o, s, A).0, B).1
    decreases |B|
  {
    hide OnRequest;
    if B == [] {
      assert A + B == A;
    } else {
      assert (A + B)[..|A + B| - 1] == A + B[..|B| - 1];
      RunAppend(o, s, A, B[..|B| - 1]);
    }
  }

  lemma HonestPrefix(o: Options, s: Server, requests: seq<Request>, n: nat)
    requires o.Valid() && HonestRun(o, s, requests) && n <= |requests|
    ensures HonestRun(o, s, requests[..n])
  {
    forall i | 0 <= i < n ensures Honest(Run(o, s, requests[..n][..i]).0, requests[..n][i]) {
      assert requests[..n][..i] == requests[..i];
    }
  }

  lemma RunNone(o: Options, s: Server)
    requires o.Valid()
    ensures Run(o, s, []) == (s, [])
  {
  }

  lemma HonestCons(o: Options, s: Server, m: Request, rest: seq<Request>)
    requires o.Valid() && Honest(s, m) && HonestRun(o, OnRequest(o, s, m).0, rest)
    ensures HonestRun(o, s, [m] + rest)
    ensures Run(o, s, [m] + rest).0 == Run(o, OnRequest(o, s, m).0, rest).0
  {
    hide OnRequest, Honest, Run;
    RunOne(o, s, m);
    RunAppend(o, s, [m], rest);
    RunNone(o, s);
    forall i | 0 <= i < 1 + |rest| ensures Honest(Run(o, s, ([m] + rest)[..i]).0, ([m] + rest)[i]) {
      if i > 0 {
        assert ([m] + rest)[..i] == [m] + rest[..i - 1];
        RunAppend(o, s, [m], rest[..i - 1]);
        assert Honest(Run(o, OnRequest(o, s, m).0, rest[..i - 1]).0, rest[i - 1]);
      } else {
        assert ([m] + rest)[..0] == [];
      }
    }
  }

  lemma RunOne(o: Options, s: Server, m: Request)
    requires o.Valid()
    ensures Run(o, s, [m]).0 == OnRequest(o, s, m).0
  {
    assert [m][..0] == [];
  }

  /** Every state of an honest run satisfies the server invariant. */
  lemma {:induction false} RunKeeps(o: Options, s: Server, fs: seq<LogicalFrame>, requests: seq<Request>)
    requires o.Valid() && ServerInv(o, s, fs) && !s.complete && HonestRun(o, s, requests)
    ensures ServerInv(o, Run(o, s, requests).0, fs) && !Run(o, s, requests).0.complete
  {
    hide ServerInv, OnRequest, Honest;
    if requests != [] {
      var n := |requests| - 1;
      HonestPrefix(o, s, requests, n);
      RunKeeps(o, s, fs, requests[..n]);
      RequestKeeps(o, Run(o, s, requests[..n]).0, fs, requests[n]);
      StepKeepsOpen(o, Run(o, s, requests[..n]).0, fs, requests[n]);
    }
  }

  lemma StepKeepsOpen(o: Options, s: Server, fs: seq<LogicalFrame>, m: Request)
    requires o.Valid() && ServerInv(o, s, fs) && !s.complete && Honest(s, m)
    ensures !OnRequest(o, s, m).0.complete
  {
    hide ServerInv, OnRequest, Honest;
    RequestKeeps(o, s, fs, m);
  }

  /** The accept loop: one client after another until the archive is complete. */
  function Connections(o: Options, s: Server, clients: seq<seq<Request>>): Server
    requires o.Valid()
  {
    if clients == [] then s
    else
      var before := Connections(o, s, clients[..|clients| - 1]);
      if before.complete then before else Disconnect(Run(o, Connect(before), clients[|clients| - 1]).0)
  }

  ghost predicate HonestClients(o: Options, s: Server, clients: seq<seq<Request>>)
    requires o.Valid()
  {
    forall i :: 0 <= i < |clients| ==>
      Connections(o, s, clients[..i]).complete || HonestRun(o, Connect(Connections(o, s, clients[..i])), clients[i])
  }

  /** Over any number of connections with honest clients, the retention buffer is
      exactly the run from the first unacknowledged to the last taken frame. */
  lemma {:induction false} ConnectionsKeep(o: Options, s: Server, fs: seq<LogicalFrame>, clients: seq<seq<Request>>)
    requires o.Valid() && ArchiveInv(o, s, fs) && HonestClients(o, s, clients)
    requires s.complete || s.Acked() < |fs|
    ensures var t := Connections(o, s, clients);
            ArchiveInv(o, t, fs) && (t.complete || t.Acked() < |fs|)
  {
    hide ArchiveInv, ServerInv, HonestRun, Run;
    if clients != [] {
      var n := |clients| - 1;
      var before := Connections(o, s, clients[..n]);
      forall i | 0 <= i < n
        ensures Connections(o, s, clients[..n][..i]).complete
                || HonestRun(o, Connect(Connections(o, s, clients[..n][..i])), clients[..n][i])
      {
        assert clients[..n][..i] == clients[..i];
      }
      ConnectionsKeep(o, s, fs, clients[..n]);
      if !before.complete {
        ReconnectKeeps(o, before, fs);
        RunKeeps(o, Connect(before), fs, clients[n]);
        CloseKeeps(o, Run(o, Connect(before), clients[n]).0, fs);
      }
    }
  }

  lemma CloseKeeps(o: Options, s: Server, fs: seq<LogicalFrame>)
    requires o.Valid() && ServerInv(o, s, fs) && !s.complete
    ensures var t := Disconnect(s);
            ArchiveInv(o, t, fs) && (t.complete || t.Acked() < |fs|)
  {
  }

  // --------------------------------------------------- the producer's promise

  lemma {:induction false} FramesDeliver(run: seq<LogicalFrame>, rest: seq<VolumeRecord>, fs: seq<LogicalFrame>, t: nat)
    requires t + |run| < |fs| && run == fs[t..t + |run|]
    requires forall i :: 0 <= i < |run| ==> run[i].header.global == t + i
    requires Delivers(rest, fs, t + |run|)
    ensures Delivers(FrameItems(run) + rest, fs, t)
    decreases |run|
  {
    var items := FrameItems(run) + rest;
    if run == [] {
      assert items == rest;
    } else {
      FramesDeliver(run[1..], rest, fs, t + 1);
      assert items[1..] == FrameItems(run[1..]) + rest;
      assert items[0] == Frame(run[0].Record(), run[0].header.global) && run[0] == fs[t];
    }
  }

  lemma MarkDelivers(tail: seq<VolumeRecord>, fs: seq<LogicalFrame>, t: nat)
    requires Delivers(tail, fs, t)
    ensures Delivers([TapeEof] + tail, fs, t)
  {
    assert ([TapeEof] + tail)[1..] == tail;
  }

  lemma SplitRun(fs: seq<LogicalFrame>, global: nat, run: seq<LogicalFrame>, later: seq<LogicalFrame>)
    requires global + |run| + |later| <= |fs| && run + later == fs[global..global + |run| + |later|]
    ensures run == fs[global..global + |run|]
    ensures later == fs[global + |run|..global + |run| + |later|]
  {
    var all := fs[global..global + |run| + |later|];
    assert run == all[..|run|];
    assert later == all[|run|..];
  }

  /** One slice of frames, then its mark, then the rest. */
  lemma SliceDelivers(id: Identity, slices: seq<seq<u8>>, slice: nat, global: nat, run: seq<LogicalFrame>,
                      tail: seq<VolumeRecord>, fs: seq<LogicalFrame>)
    requires id.Valid() && slices != [] && slice < TWO_64 && global + |slices[0]| < TWO_64
    requires run == RunAt(id, slice, Content, global, slices[0]) && global + |run| < |fs|
    requires run == fs[global..global + |run|] && Delivers(tail, fs, global + |run|)
    ensures Delivers(FrameItems(run) + ([TapeEof] + tail), fs, global)
  {
    hide Delivers, FrameItems, RunAt;
    MarkDelivers(tail, fs, global + |run|);
    RunGlobals(id, slice, global, slices[0]);
    FramesDeliver(run, [TapeEof] + tail, fs, global);
  }

  lemma {:induction false} SlicesDeliver(
      id: Identity, slices: seq<seq<u8>>, slice: nat, global: nat, rest: seq<VolumeRecord>, fs: seq<LogicalFrame>)
    requires id.Valid() && slice + |slices| < TWO_64 && global + TotalBytes(slices) < TWO_64
    requires var sf := SliceFrames(id, slices, slice, global);
             global + |sf| < |fs| && sf == fs[global..global + |sf|] && Delivers(rest, fs, global + |sf|)
    ensures Delivers(SliceItems(id, slices, slice, global) + rest, fs, global)
    decreases |slices|
  {
    hide RunAt, BodyNumbered, Delivers, FrameItems;
    if slices == [] {
      assert SliceItems(id, slices, slice, global) + rest == rest;
    } else {
      RunLength(id, slice, Content, global, slices[0]);
      var run := RunAt(id, slice, Content, global, slices[0]);
      var later := SliceFrames(id, slices[1..], slice + 1, global + |run|);
      SplitRun(fs, global, run, later);
      SlicesDeliver(id, slices[1..], slice + 1, global + |run|, rest, fs);
      var items := SliceItems(id, slices[1..], slice + 1, global + |run|);
      SliceDelivers(id, slices, slice, global, run, items + rest, fs);
      assert SliceItems(id, slices, slice, global) + rest == FrameItems(run) + ([TapeEof] + (items + rest));
    }
  }

  lemma RunGlobals(id: Identity, slice: nat, global: nat, content: seq<u8>)
    requires id.Valid() && slice < TWO_64 && global + |content| < TWO_64
    ensures var run := RunAt(id, slice, Content, global, content);
            forall i :: 0 <= i < |run| ==> run[i].header.global == global + i
  {
    RunNumbered(id, slice, Content, global, content);
    var run := RunAt(id, slice, Content, global, content);
    forall i | 0 <= i < |run| ensures run[i].header.global == global + i {
      assert BodyFrame(id, run[i], global + i);
    }
  }

  lemma CatalogGlobals(id: Identity, catalog: seq<u8>)
    requires id.Valid() && |catalog| < TWO_64
    ensures var run := RunAt(id, 0, Metadata, 0, catalog);
            forall i :: 0 <= i < |run| ==> run[i].header.global == i
  {
    RunNumbered(id, 0, Metadata, 0, catalog);
    var run := RunAt(id, 0, Metadata, 0, catalog);
    forall i | 0 <= i < |run| ensures run[i].header.global == i {
      assert BodyFrame(id, run[i], 0 + i);
    }
  }

  lemma ProducedArchiveOf(id: Identity, catalog: seq<u8>, slices: seq<seq<u8>>)
    requires id.Valid() && InRange(catalog, slices)
    ensures ArchiveOf(id, ArchiveFrames(id, catalog, slices))
  {
    hide BodyFrames, BodyNumbered, EndFrame;
    BodyNumbers(id, catalog, slices);
    var fs := ArchiveFrames(id, catalog, slices);
    assert fs[..|fs| - 1] == BodyFrames(id, catalog, slices);
  }

  lemma DoneDelivers(fs: seq<LogicalFrame>)
    requires 0 < |fs| <= TWO_64
    ensures Delivers([Done(|fs| - 1)], fs, |fs| - 1)
  {
  }

  /** What the producer pushes is the archive in order, end mark last. */
  lemma ProducerDelivers(id: Identity, catalog: seq<u8>, slices: seq<seq<u8>>)
    requires id.Valid() && InRange(catalog, slices)
    ensures Delivers(ProducerItems(id, catalog, slices), ArchiveFrames(id, catalog, slices), 0)
    ensures ArchiveOf(id, ArchiveFrames(id, catalog, slices))
  {
    hide RunAt, BodyNumbered, Delivers, ArchiveOf, SliceFrames, SliceItems, FrameItems, EndFrame;
    ProducedArchiveOf(id, catalog, slices);
    RunLength(id, 0, Metadata, 0, catalog);
    var run := RunAt(id, 0, Metadata, 0, catalog);
    var sf := SliceFrames(id, slices, 0, |run|);
    var fs := ArchiveFrames(id, catalog, slices);
    var last := [Done(|fs| - 1)];
    DoneDelivers(fs);
    assert sf == fs[|run|..|run| + |sf|];
    SlicesDeliver(id, slices, 0, |run|, last, fs);
    assert run == fs[0..|run|];
    CatalogGlobals(id, catalog);
    FramesDeliver(run, SliceItems(id, slices, 0, |run|) + last, fs, 0);
    assert ProducerItems(id, catalog, slices) == FrameItems(run) + (SliceItems(id, slices, 0, |run|) + last);
  }

  function Start(queue: seq<VolumeRecord>, firstVolume: u64): Server {
    Server(firstVolume, 0, false, false, [], queue, false, 0, None, false, Closed(false))
  }

  lemma StartInv(o: Options, fs: seq<LogicalFrame>, queue: seq<VolumeRecord>, firstVolume: u64)
    requires o.Valid() && ArchiveOf(o.id, fs) && Delivers(queue, fs, 0)
    ensures ArchiveInv(o, Start(queue, firstVolume), fs)
  {
  }

  // --------------------------------------------- can the archive be completed?

  /** The end marker is lost: it was taken from the queue, and the connection that
      took it ended before the archive end was built. */
  ghost predicate Abandoned(s: Server, fs: seq<LogicalFrame>) {
    EndLost(s, fs) && s.endSeq.None? && !s.phase.Finishing? && s.phase != Closed(true)
  }

  lemma AbandonedServe(o: Options, s: Server, fs: seq<LogicalFrame>)
    requires o.Valid() && CoreInv(o, s, fs) && !s.complete && s.endSeq.None? && EndLost(s, fs)
    requires s.phase.Windowed?
    ensures Abandoned(Settle(o, s).0, fs)
  {
    hide SendRecord, ParseHeader, StandsFor, ArchiveOf, EndFrame, SealFor;
    if s.Outstanding() < o.window {
      LastIsEnd(o, fs);
      RetainedAt(o, s.Acked(), s.retained, fs, s.nextSend);
      if s.nextSend < Taken(s) {
        SendsFrame(o, s, fs, s.retained[s.nextSend - s.Acked()].record, s.nextSend);
      }
    }
  }

  lemma AbandonedStep(o: Options, s: Server, fs: seq<LogicalFrame>, m: Request)
    requires o.Valid() && ServerInv(o, s, fs) && !s.complete && Honest(s, m) && Abandoned(s, fs)
    ensures Abandoned(OnRequest(o, s, m).0, fs)
  {
    hide Settle, StandsFor, ArchiveOf, EndFrame, SealFor, RetainedRun, Delivers, DropRetained;
    if m.AckFrame? && ProcessAck(s, m.payload).AckTaken? && (s.phase.Serving? || s.phase.Windowed?) {
      AckKeeps(o, s, fs, m.payload);
      if s.phase.Windowed? {
        AbandonedServe(o, ProcessAck(s, m.payload).next, fs);
      }
    } else if s.phase.Serving? && m.NextFrame? {
      AbandonedServe(o, s.(phase := Windowed), fs);
    }
  }

  /** Once lost, always lost: no honest client, on this or any later connection,
      brings the archive to completion. */
  lemma {:induction false} AbandonedForever(o: Options, s: Server, fs: seq<LogicalFrame>, requests: seq<Request>)
    requires o.Valid() && ServerInv(o, s, fs) && !s.complete && Abandoned(s, fs) && HonestRun(o, s, requests)
    ensures Abandoned(Run(o, s, requests).0, fs)
    ensures Run(o, s, requests).0.phase != Closed(true)
    ensures EndLost(Disconnect(Run(o, s, requests).0), fs)
  {
    hide ServerInv, OnRequest, Honest;
    if requests != [] {
      var n := |requests| - 1;
      HonestPrefix(o, s, requests, n);
      AbandonedForever(o, s, fs, requests[..n]);
      RunKeeps(o, s, fs, requests[..n]);
      AbandonedStep(o, Run(o, s, requests[..n]).0, fs, requests[n]);
    }
  }

  predicate Ready(o: Options, s: Server, fs: seq<LogicalFrame>)
  {
    s.phase.Serving? && s.Acked() < |fs| && !EndLost(s, fs) && !s.complete
  }

  lemma AckWhenOwed(o: Options, s: Server, fs: seq<LogicalFrame>)
    requires o.Valid() && ServerInv(o, s, fs) && Ready(o, s, fs) && s.Acked() < s.nextSend
    ensures var m := AckFrame(LittleEndian(s.Acked(), 8));
            var t := OnRequest(o, s, m).0;
            && Honest(s, m)
            && ServerInv(o, t, fs)
            && t.Acked() == s.Acked() + 1
            && (t.phase == Closed(true) || Ready(o, t, fs))
  {
    hide Settle, StandsFor, ArchiveOf, EndFrame, SealFor, RetainedRun, Delivers, DropRetained;
    var m := AckFrame(LittleEndian(s.Acked(), 8));
    AckOfWord(s, s.Acked());
    AckKeeps(o, s, fs, m.payload);
    RequestKeeps(o, s, fs, m);
  }

  // ------------------------------------------------- what the queue's head does

  /** Everything taken has been sent, and the window is open. */
  ghost predicate AtHead(o: Options, s: Server, fs: seq<LogicalFrame>)
    requires o.Valid()
  {
    && CoreInv(o, s, fs) && s.endSeq.None? && !s.complete && s.nextSend == Taken(s)
    && s.Outstanding() < o.window && s.queue != []
  }

  lemma NothingRetained(o: Options, s: Server, fs: seq<LogicalFrame>)
    requires o.Valid() && AtHead(o, s, fs)
    ensures GetRetained(s.retained, s.nextSend).None? && Delivers(s.queue, fs, Taken(s)) && Taken(s) < |fs|
    ensures s.queue != []
  {
    RetainedAt(o, s.Acked(), s.retained, fs, s.nextSend);
  }

  lemma HeadFrame(o: Options, s: Server, fs: seq<LogicalFrame>)
    requires o.Valid() && AtHead(o, s, fs) && s.queue[0].Frame?
    ensures var t := Taken(s);
            && t < |fs| - 1
            && ServeNext(o, s) ==
                 (s.(queue := s.queue[1..], retained := s.retained + [Retained(t, fs[t].Record())],
                     nextSend := t + 1, phase := Serving),
                  [FrameRecord(SealFor(o, fs[t], s.nextVolume))])
            && Delivers(s.queue[1..], fs, t + 1)
  {
    NothingRetained(o, s, fs);
    hide SendRecord, SealFor, StandsFor, ArchiveOf, AddRetained, GetRetained, RetainedRun, ParseHeader;
    OutstandingIs(o, s, fs);
    LastIsEnd(o, fs);
    var t := Taken(s);
    SealedStandsFor(o, fs[t], s.nextVolume);
    AddKeeps(o, s, fs, fs[t].Record());
    var s1 := s.(queue := s.queue[1..], retained := s.retained + [Retained(t, fs[t].Record())]);
    SendsFrame(o, s1, fs, fs[t].Record(), t);
  }

  lemma HeadMark(o: Options, s: Server, fs: seq<LogicalFrame>)
    requires o.Valid() && AtHead(o, s, fs) && s.queue[0].TapeEof?
    ensures ServeNext(o, s) == (s.(queue := s.queue[1..], phase := Serving), [TapeEofReply])
    ensures Delivers(s.queue[1..], fs, Taken(s))
  {
    NothingRetained(o, s, fs);
    hide SendRecord, SealFor, GetRetained, CoreInv;
  }

  lemma DoneServed(o: Options, s: Server, end: u64)
    requires o.Valid() && GetRetained(s.retained, s.nextSend).None? && s.queue == [Done(end)]
    ensures var s1 := s.(queue := []);
            ServeNext(o, s) ==
              if s1.Outstanding() >= 1 then (s1.(phase := Finishing(end)), []) else SendEnd(o, s1, end)
  {
    hide SendRecord, SendEnd, GetRetained, AddRetained, ParseHeader;
    assert s.queue[1..] == [];
  }

  lemma HeadDone(o: Options, s: Server, fs: seq<LogicalFrame>)
    requires o.Valid() && AtHead(o, s, fs) && s.queue[0].Done?
    ensures Taken(s) == |fs| - 1 && s.queue == [Done(|fs| - 1)]
    ensures s.Outstanding() >= 1 ==>
              ServeNext(o, s) == (s.(queue := [], phase := Finishing(|fs| - 1)), [])
    ensures s.Outstanding() < 1 ==> ServeNext(o, s) == SendEnd(o, s.(queue := []), |fs| - 1)
  {
    hide ServeNext, SendEnd, GetRetained, AtHead, Delivers;
    NothingRetained(o, s, fs);
    DoneIsLast(s.queue, fs, Taken(s));
    DoneServed(o, s, |fs| - 1);
  }

  lemma DoneIsLast(queue: seq<VolumeRecord>, fs: seq<LogicalFrame>, t: nat)
    requires Delivers(queue, fs, t) && queue != [] && queue[0].Done?
    ensures t == |fs| - 1 && queue == [Done(t)]
  {
  }

  /** Building the archive end takes it: the marker is not lost then. */
  lemma EndIsTaken(o: Options, s: Server, fs: seq<LogicalFrame>)
    requires o.Valid() && CoreInv(o, s, fs) && EndLost(s, fs) && s.endSeq.None? && s.nextSend == Taken(s)
    requires s.Outstanding() < 1
    ensures !EndLost(SendEnd(o, s, |fs| - 1).0, fs)
  {
    hide SealFor, StandsFor, SendEnd;
    LastIsEnd(o, fs);
    OutstandingIs(o, s, fs);
    EndSealed(o, s, |fs| - 1);
    SealedStandsFor(o, fs[|fs| - 1], s.nextVolume);
    AddKeeps(o, s, fs, SealFor(o, fs[|fs| - 1], s.nextVolume));
  }

  /** Something can be served: the next state is not blocked, and progress is made. */
  ghost predicate Served(s: Server, t: Server, fs: seq<LogicalFrame>) {
    && t.phase.Serving? && t.Acked() == s.Acked() && !EndLost(t, fs)
    && (|t.queue| < |s.queue| || (t.queue == s.queue && t.nextSend == s.nextSend + 1))
  }

  lemma ServeRetained(o: Options, s: Server, fs: seq<LogicalFrame>)
    requires o.Valid() && CoreInv(o, s, fs) && s.endSeq.None? && !EndLost(s, fs)
    requires s.Acked() == s.nextSend < Taken(s)
    ensures Served(s, ServeNext(o, s).0, fs)
  {
    hide SendRecord, StandsFor, EndFrame, SealFor, ParseHeader, GetRetained, Delivers;
    LastIsEnd(o, fs);
    RetainedAt(o, s.Acked(), s.retained, fs, s.nextSend);
    SendsFrame(o, s, fs, s.retained[0].record, s.nextSend);
    SendsFrame(o, s.(endSeq := Some(s.nextSend)), fs, s.retained[0].record, s.nextSend);
  }

  lemma ServeTaken(o: Options, s: Server, fs: seq<LogicalFrame>)
    requires o.Valid() && AtHead(o, s, fs) && s.Acked() == s.nextSend && s.queue[0].Frame?
    ensures Served(s, ServeNext(o, s).0, fs)
  {
    hide ServeNext, CoreInv, SealFor;
    HeadFrame(o, s, fs);
    MarkIsNotLast(s.queue[1..], fs, Taken(s) + 1);
  }

  lemma ServeMark(o: Options, s: Server, fs: seq<LogicalFrame>)
    requires o.Valid() && AtHead(o, s, fs) && s.Acked() == s.nextSend && s.queue[0].TapeEof?
    ensures Served(s, ServeNext(o, s).0, fs)
  {
    hide ServeNext, CoreInv;
    HeadMark(o, s, fs);
    MarkIsNotLast(s.queue[1..], fs, Taken(s));
  }

  lemma MarkIsNotLast(queue: seq<VolumeRecord>, fs: seq<LogicalFrame>, t: nat)
    requires Delivers(queue, fs, t)
    ensures queue != []
  {
  }

  lemma ServeDone(o: Options, s: Server, fs: seq<LogicalFrame>)
    requires o.Valid() && AtHead(o, s, fs) && s.Acked() == s.nextSend && s.queue[0].Done?
    ensures Served(s, ServeNext(o, s).0, fs)
  {
    hide ServeNext, SendEnd, Delivers, CoreInv, SealFor, AddRetained;
    HeadDone(o, s, fs);
    var s1 := s.(queue := []);
    AfterDone(o, s, fs);
    EndSealed(o, s1, |fs| - 1);
    EndIsTaken(o, s1, fs);
  }

  lemma AfterDone(o: Options, s: Server, fs: seq<LogicalFrame>)
    requires o.Valid() && AtHead(o, s, fs) && s.Acked() == s.nextSend && Taken(s) == |fs| - 1
    ensures var s1 := s.(queue := []);
            CoreInv(o, s1, fs) && EndLost(s1, fs) && s1.nextSend == Taken(s1) && s1.Outstanding() < 1
  {
    OutstandingIs(o, s, fs);
  }

  lemma ServeWhenIdle(o: Options, s: Server, fs: seq<LogicalFrame>)
    requires o.Valid() && ServerInv(o, s, fs) && Ready(o, s, fs) && s.Acked() == s.nextSend
    ensures var t := OnRequest(o, s, NextFrame).0;
            ServerInv(o, t, fs) && Ready(o, t, fs) && Served(s, t, fs)
  {
    hide ServeNext, ArchiveInv;
    RequestKeeps(o, s, fs, NextFrame);
    var w := s.(phase := Windowed);
    WindowIsOpen(o, s, fs);
    if s.nextSend < Taken(s) {
      ServeRetained(o, w, fs);
    } else if s.queue[0].Frame? {
      ServeTaken(o, w, fs);
    } else if s.queue[0].TapeEof? {
      ServeMark(o, w, fs);
    } else {
      ServeDone(o, w, fs);
    }
  }

  lemma WindowIsOpen(o: Options, s: Server, fs: seq<LogicalFrame>)
    requires o.Valid() && ServerInv(o, s, fs) && Ready(o, s, fs) && s.Acked() == s.nextSend
    ensures s.Outstanding() < o.window && s.endSeq.None? && CoreInv(o, s.(phase := Windowed), fs)
    ensures s.nextSend >= Taken(s) ==> AtHead(o, s.(phase := Windowed), fs)
  {
  }

  /** A cooperating client that asks and acknowledges in turn finishes the archive. */
  lemma {:induction false} Cooperate(o: Options, s: Server, fs: seq<LogicalFrame>) returns (requests: seq<Request>)
    requires o.Valid() && ServerInv(o, s, fs) && Ready(o, s, fs)
    ensures HonestRun(o, s, requests) && Run(o, s, requests).0.phase == Closed(true)
    decreases |fs| - s.Acked(), |s.queue|, |fs| - s.nextSend
  {
    hide ServerInv, OnRequest, Ready;
    SendBounds(o, s, fs);
    var m := if s.Acked() < s.nextSend then AckFrame(LittleEndian(s.Acked(), 8)) else NextFrame;
    var t := OnRequest(o, s, m).0;
    if s.Acked() < s.nextSend {
      AckWhenOwed(o, s, fs);
    } else {
      ServeWhenIdle(o, s, fs);
    }
    if t.phase == Closed(true) {
      requests := [m];
      RunOne(o, s, m);
      assert requests[..0] == [];
    } else {
      SendBounds(o, t, fs);
      var rest := Cooperate(o, t, fs);
      HonestCons(o, s, m, rest);
      requests := [m] + rest;
    }
  }

  lemma SendBounds(o: Options, s: Server, fs: seq<LogicalFrame>)
    requires o.Valid() && ServerInv(o, s, fs)
    ensures s.Acked() <= s.nextSend <= |fs| && (Ready(o, s, fs) ==> s.Acked() < |fs| && !s.complete)
  {
  }

  /** Between connections, an unfinished archive can be brought to completion by
      some honest client exactly when its end marker has not been lost. */
  lemma CompletableExactly(o: Options, s: Server, fs: seq<LogicalFrame>)
    requires o.Valid() && ArchiveInv(o, s, fs) && !s.complete && s.Acked() < |fs|
    ensures !EndLost(s, fs) <==>
              exists ms :: HonestRun(o, Connect(s), ms) && Run(o, Connect(s), ms).0.phase == Closed(true)
  {
    ReconnectKeeps(o, s, fs);
    var c := Connect(s);
    if EndLost(s, fs) {
      assert Abandoned(c, fs);
      forall ms | HonestRun(o, c, ms) ensures Run(o, c, ms).0.phase != Closed(true) {
        AbandonedForever(o, c, fs, ms);
      }
    } else {
      assert Ready(o, c, fs);
      var ms := Cooperate(o, c, fs);
    }
  }
}
