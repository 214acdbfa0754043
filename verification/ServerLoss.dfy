// The lost end marker: exactly when a run of honest clients can lose it.
module ServerLoss {
  import opened Base
  import opened Format
  import opened Sealing
  import opened FrameBuilder
  import opened Producer
  import opened VolumeServer
  import opened ServerTheorems

  // ---------------------------------------------------------- losing the marker

  /** A first connection with at most one frame outstanding, before the last body
      frame is acknowledged. */
  ghost predicate Heading(o: Options, s: Server, fs: seq<LogicalFrame>)
    requires o.Valid()
  {
    && ServerInv(o, s, fs) && !s.complete && s.phase.Serving? && s.endSeq.None?
    && s.nextSend == Taken(s) && Delivers(s.queue, fs, Taken(s))
    && s.nextSend <= s.Acked() + 1 && s.Acked() <= |fs| - 2
  }

  lemma HeadingAsks(o: Options, s: Server, fs: seq<LogicalFrame>)
    requires o.Valid() && Heading(o, s, fs) && o.window >= 2
    ensures AtHead(o, s.(phase := Windowed), fs)
    ensures OnRequest(o, s, NextFrame) == ServeNext(o, s.(phase := Windowed))
  {
    hide ServeNext;
    OutstandingIs(o, s, fs);
  }

  lemma HeadingMark(o: Options, s: Server, fs: seq<LogicalFrame>)
    requires o.Valid() && Heading(o, s, fs) && o.window >= 2 && s.queue[0].TapeEof?
    ensures var t := OnRequest(o, s, NextFrame).0; Heading(o, t, fs) && |t.queue| < |s.queue|
  {
    hide ServeNext, ServerInv, AtHead;
    HeadingAsks(o, s, fs);
    HeadMark(o, s.(phase := Windowed), fs);
    RequestKeeps(o, s, fs, NextFrame);
  }

  lemma HeadingFrame(o: Options, s: Server, fs: seq<LogicalFrame>)
    requires o.Valid() && Heading(o, s, fs) && o.window >= 2 && s.queue[0].Frame? && s.nextSend == s.Acked()
    ensures var t := OnRequest(o, s, NextFrame).0; Heading(o, t, fs) && |t.queue| < |s.queue|
  {
    hide ServeNext, ServerInv, AtHead, SealFor;
    HeadingAsks(o, s, fs);
    HeadFrame(o, s.(phase := Windowed), fs);
    RequestKeeps(o, s, fs, NextFrame);
  }

  lemma HeadingAck(o: Options, s: Server, fs: seq<LogicalFrame>)
    requires o.Valid() && Heading(o, s, fs) && s.nextSend == s.Acked() + 1 && s.nextSend < |fs| - 1
    ensures var m := AckFrame(LittleEndian(s.Acked(), 8));
            var t := OnRequest(o, s, m).0;
            Honest(s, m) && Heading(o, t, fs) && t.queue == s.queue && t.nextSend == t.Acked()
  {
    hide StandsFor, ArchiveOf, SealFor, RetainedRun, Delivers, DropRetained;
    var m := AckFrame(LittleEndian(s.Acked(), 8));
    AckOfWord(s, s.Acked());
    AckKeeps(o, s, fs, m.payload);
    RequestKeeps(o, s, fs, m);
  }

  lemma HeadingDone(o: Options, s: Server, fs: seq<LogicalFrame>)
    requires o.Valid() && Heading(o, s, fs) && o.window >= 2 && s.queue[0].Done?
    ensures EndLost(OnRequest(o, s, NextFrame).0, fs)
  {
    hide ServeNext, ServerInv, AtHead, SendEnd;
    HeadingAsks(o, s, fs);
    HeadDone(o, s.(phase := Windowed), fs);
  }

  /** A frame at the head means that it is not the last thing to come. */
  lemma HeadingBounds(o: Options, s: Server, fs: seq<LogicalFrame>)
    requires o.Valid() && Heading(o, s, fs)
    ensures s.queue != [] && s.Acked() <= s.nextSend <= s.Acked() + 1
    ensures s.queue[0].Frame? ==> s.nextSend < |fs| - 1
    ensures s.phase.Serving? && Honest(s, NextFrame)
  {
  }

  /** A client that acknowledges every frame but the last one loses the marker. */
  lemma {:induction false} Lose(o: Options, s: Server, fs: seq<LogicalFrame>) returns (requests: seq<Request>)
    requires o.Valid() && Heading(o, s, fs) && o.window >= 2
    ensures HonestRun(o, s, requests) && EndLost(Run(o, s, requests).0, fs)
    decreases |s.queue|, s.nextSend - s.Acked()
  {
    hide Heading, OnRequest, EndLost, Honest;
    HeadingBounds(o, s, fs);
    if s.queue[0].Done? {
      HeadingDone(o, s, fs);
      requests := [NextFrame];
      assert requests[..0] == [];
      RunOne(o, s, NextFrame);
    } else {
      var m := NextFrame;
      if s.queue[0].TapeEof? {
        HeadingMark(o, s, fs);
      } else if s.nextSend == s.Acked() {
        HeadingFrame(o, s, fs);
      } else {
        m := AckFrame(LittleEndian(s.Acked(), 8));
        HeadingAck(o, s, fs);
      }
      var t := OnRequest(o, s, m).0;
      HeadingBounds(o, t, fs);
      var rest := Lose(o, t, fs);
      HonestCons(o, s, m, rest);
      requests := [m] + rest;
    }
  }

  // ------------------------------------------------------- when it cannot be lost

  /** Everything taken from the queue is still there to be sent or acknowledged. */
  ghost predicate Whole(s: Server, fs: seq<LogicalFrame>) { !EndLost(s, fs) && !s.phase.Finishing? }

  lemma WholeServe(o: Options, s: Server, fs: seq<LogicalFrame>)
    requires o.Valid() && CoreInv(o, s, fs) && s.endSeq.None? && !s.complete && !EndLost(s, fs)
    requires s.Outstanding() < o.window && (o.window == 1 || |fs| == 1)
    ensures Whole(ServeNext(o, s).0, fs)
  {
    hide SendRecord, SendEnd, SealFor, StandsFor, ArchiveOf, AddRetained, GetRetained, RetainedRun, ParseHeader;
    OutstandingIs(o, s, fs);
    if s.nextSend < Taken(s) {
      WholeResend(o, s, fs);
    } else {
      QueueLeft(o, s, fs);
      if s.queue[0].Frame? {
        HeadFrame(o, s, fs);
      } else if s.queue[0].TapeEof? {
        HeadMark(o, s, fs);
      } else {
        HeadDone(o, s, fs);
        WholeEnd(o, s, fs);
      }
    }
  }

  lemma QueueLeft(o: Options, s: Server, fs: seq<LogicalFrame>)
    requires o.Valid() && CoreInv(o, s, fs) && s.endSeq.None? && !EndLost(s, fs) && s.nextSend >= Taken(s)
    ensures s.nextSend == Taken(s) && s.queue != []
  {
  }

  lemma WholeResend(o: Options, s: Server, fs: seq<LogicalFrame>)
    requires o.Valid() && CoreInv(o, s, fs) && s.endSeq.None? && !EndLost(s, fs) && s.nextSend < Taken(s)
    ensures Whole(ServeNext(o, s).0, fs)
  {
    hide SendRecord, SealFor, EndFrame, StandsFor, ArchiveOf, AddRetained, GetRetained, ParseHeader, Delivers;
    LastIsEnd(o, fs);
    RetainedAt(o, s.Acked(), s.retained, fs, s.nextSend);
    var record := s.retained[s.nextSend - s.Acked()].record;
    SendsFrame(o, s, fs, record, s.nextSend);
    SendsFrame(o, s.(endSeq := Some(s.nextSend)), fs, record, s.nextSend);
  }

  lemma WholeEnd(o: Options, s: Server, fs: seq<LogicalFrame>)
    requires o.Valid() && AtHead(o, s, fs) && s.queue == [Done(|fs| - 1)] && s.Outstanding() < 1
    requires Taken(s) == |fs| - 1
    ensures Whole(SendEnd(o, s.(queue := []), |fs| - 1).0, fs)
  {
    hide SealFor, SendEnd, StandsFor;
    var s1 := s.(queue := []);
    EndIsTaken(o, s1, fs);
    EndSealed(o, s1, |fs| - 1);
  }

  lemma WholeSettle(o: Options, s: Server, fs: seq<LogicalFrame>)
    requires o.Valid() && CoreInv(o, s, fs) && s.endSeq.None? && !s.complete && !EndLost(s, fs)
    requires s.phase.Windowed? && (o.window == 1 || |fs| == 1)
    ensures Whole(Settle(o, s).0, fs)
  {
    hide ServeNext, CoreInv;
    if s.Outstanding() < o.window {
      WholeServe(o, s, fs);
    }
  }

  lemma WholeAck(o: Options, s: Server, fs: seq<LogicalFrame>, payload: seq<u8>)
    requires o.Valid() && ServerInv(o, s, fs) && !s.complete && Honest(s, AckFrame(payload)) && Whole(s, fs)
    requires o.window == 1 || |fs| == 1
    requires ProcessAck(s, payload).AckTaken? && (s.phase.Serving? || s.phase.Windowed?)
    ensures var next := ProcessAck(s, payload).next;
            && !EndLost(next, fs) && next.phase == s.phase
            && (s.phase.Windowed? ==> Whole(Settle(o, next).0, fs))
  {
    hide Settle, ArchiveInv, DropRetained;
    AckKeeps(o, s, fs, payload);
    if s.phase.Windowed? {
      WholeSettle(o, ProcessAck(s, payload).next, fs);
    }
  }

  lemma WholeRequest(o: Options, s: Server, fs: seq<LogicalFrame>, m: Request)
    requires o.Valid() && ServerInv(o, s, fs) && !s.complete && Honest(s, m) && Whole(s, fs)
    requires o.window == 1 || |fs| == 1
    ensures Whole(OnRequest(o, s, m).0, fs)
  {
    hide Settle, ProcessAck, RetainedRun, Delivers, ArchiveOf;
    if m.AckFrame? && ProcessAck(s, m.payload).AckTaken? && (s.phase.Serving? || s.phase.Windowed?) {
      WholeAck(o, s, fs, m.payload);
    } else if s.phase.Serving? && m.NextFrame? && s.endSeq.None? {
      WholeSettle(o, s.(phase := Windowed), fs);
    }
  }

  lemma {:induction false} WholeRun(o: Options, s: Server, fs: seq<LogicalFrame>, requests: seq<Request>)
    requires o.Valid() && ServerInv(o, s, fs) && !s.complete && Whole(s, fs) && HonestRun(o, s, requests)
    requires o.window == 1 || |fs| == 1
    ensures Whole(Run(o, s, requests).0, fs)
  {
    hide ServerInv, OnRequest, Honest, Whole;
    if requests != [] {
      var n := |requests| - 1;
      HonestPrefix(o, s, requests, n);
      WholeRun(o, s, fs, requests[..n]);
      RunKeeps(o, s, fs, requests[..n]);
      WholeRequest(o, Run(o, s, requests[..n]).0, fs, requests[n]);
    }
  }

  lemma {:induction false} WholeConnections(o: Options, s: Server, fs: seq<LogicalFrame>, clients: seq<seq<Request>>)
    requires o.Valid() && ArchiveInv(o, s, fs) && !EndLost(s, fs) && HonestClients(o, s, clients)
    requires s.complete || s.Acked() < |fs|
    requires o.window == 1 || |fs| == 1
    ensures !EndLost(Connections(o, s, clients), fs)
  {
    hide ArchiveInv, ServerInv, HonestRun, Run, EndLost;
    if clients != [] {
      var n := |clients| - 1;
      ClientsPrefix(o, s, clients, n);
      WholeConnections(o, s, fs, clients[..n]);
      ConnectionsKeep(o, s, fs, clients[..n]);
      var before := Connections(o, s, clients[..n]);
      if !before.complete {
        ReconnectKeeps(o, before, fs);
        StaysWhole(before, fs);
        WholeRun(o, Connect(before), fs, clients[n]);
        LeavesWhole(Run(o, Connect(before), clients[n]).0, fs);
      }
    }
  }

  lemma StaysWhole(s: Server, fs: seq<LogicalFrame>)
    requires !EndLost(s, fs)
    ensures Whole(Connect(s), fs)
  {
  }

  lemma LeavesWhole(s: Server, fs: seq<LogicalFrame>)
    requires Whole(s, fs)
    ensures !EndLost(Disconnect(s), fs)
  {
  }

  lemma ClientsPrefix(o: Options, s: Server, clients: seq<seq<Request>>, n: nat)
    requires o.Valid() && HonestClients(o, s, clients) && n <= |clients|
    ensures HonestClients(o, s, clients[..n])
  {
    forall i | 0 <= i < n
      ensures Connections(o, s, clients[..n][..i]).complete
              || HonestRun(o, Connect(Connections(o, s, clients[..n][..i])), clients[..n][i])
    {
      assert clients[..n][..i] == clients[..i];
    }
  }

  // ---------------------------------------------------------------- the theorem

  lemma HeadingAtStart(o: Options, fs: seq<LogicalFrame>, queue: seq<VolumeRecord>, firstVolume: u64)
    requires o.Valid() && ArchiveOf(o.id, fs) && Delivers(queue, fs, 0) && |fs| >= 2
    ensures Heading(o, Connect(Start(queue, firstVolume)), fs)
  {
    StartInv(o, fs, queue, firstVolume);
    ReconnectKeeps(o, Start(queue, firstVolume), fs);
  }

  /** From the start, some honest clients lose the end marker exactly when the
      window admits two outstanding frames and the archive has a frame besides its
      end. (With a window of one, the marker is taken from the queue only when
      nothing is outstanding, and the archive end is built at once.) */
  lemma EndLostExactly(o: Options, fs: seq<LogicalFrame>, queue: seq<VolumeRecord>, firstVolume: u64)
    requires o.Valid() && ArchiveOf(o.id, fs) && Delivers(queue, fs, 0)
    ensures (exists clients ::
               HonestClients(o, Start(queue, firstVolume), clients)
               && EndLost(Connections(o, Start(queue, firstVolume), clients), fs))
            <==> o.window >= 2 && |fs| >= 2
  {
    var s := Start(queue, firstVolume);
    StartInv(o, fs, queue, firstVolume);
    LastIsEnd(o, fs);
    if o.window >= 2 && |fs| >= 2 {
      HeadingAtStart(o, fs, queue, firstVolume);
      var requests := Lose(o, Connect(s), fs);
      OneClient(o, s, fs, requests);
    } else {
      assert !EndLost(s, fs);
      forall clients | HonestClients(o, s, clients) ensures !EndLost(Connections(o, s, clients), fs) {
        WholeConnections(o, s, fs, clients);
      }
    }
  }

  lemma OneClient(o: Options, s: Server, fs: seq<LogicalFrame>, requests: seq<Request>)
    requires o.Valid() && !s.complete && HonestRun(o, Connect(s), requests)
    requires EndLost(Run(o, Connect(s), requests).0, fs)
    ensures HonestClients(o, s, [requests]) && EndLost(Connections(o, s, [requests]), fs)
  {
    hide Run, HonestRun;
    assert [requests][..0] == [];
  }
}
