// The server as it runs: the retention buffer and the connection handler, whose
// loops consume the client's messages, proved against the request function.
module ServerObject {
  import opened Base
  import opened Format
  import opened FormatTheorems
  import opened Sealing
  import opened FrameBuilder
  import opened Producer
  import opened VolumeServer
  import opened ServerTheorems

  /** Dropping removes the first frame of that number, if there is one. */
  lemma {:induction false} DropIs(frames: seq<Retained>, global: u64, n: nat)
    requires n <= |frames| && (forall j :: 0 <= j < n ==> frames[j].global != global)
    requires n < |frames| ==> frames[n].global == global
    ensures DropRetained(frames, global) == if n < |frames| then frames[..n] + frames[n + 1..] else frames
  {
    if n > 0 {
      DropIs(frames[1..], global, n - 1);
      assert frames == [frames[0]] + frames[1..];
      if n < |frames| {
        assert frames[..n] == [frames[0]] + frames[1..][..n - 1];
      }
    }
  }

  class FrameRetentionBuffer {
    const maxFrames: nat
    var frames: seq<Retained>

    constructor (maxFrames: nat)
      ensures this.maxFrames == maxFrames && frames == []
    {
      this.maxFrames := maxFrames;
      frames := [];
    }

    method Add(global: u64, record: seq<u8>)
      modifies this
      ensures frames == AddRetained(old(frames), maxFrames, Retained(global, record))
    {
      if |frames| == maxFrames && frames != [] {
        frames := frames[1..];
      }
      frames := frames + [Retained(global, record)];
    }

    method Ack(global: u64)
      modifies this
      ensures frames == DropRetained(old(frames), global)
    {
      hide DropRetained;
      var i := 0;
      while i < |frames| && frames[i].global != global
        invariant 0 <= i <= |frames| && frames == old(frames)
        invariant forall j :: 0 <= j < i ==> frames[j].global != global
      {
        i := i + 1;
      }
      DropIs(frames, global, i);
      if i < |frames| {
        frames := frames[..i] + frames[i + 1..];
      }
    }

    method Get(global: u64) returns (r: Option<seq<u8>>)
      ensures r == GetRetained(frames, global)
    {
      var i := 0;
      while i < |frames|
        invariant 0 <= i <= |frames|
        invariant GetRetained(frames, global) == GetRetained(frames[i..], global)
      {
        if frames[i].global == global {
          return Some(frames[i].record);
        }
        assert frames[i..][1..] == frames[i + 1..];
        i := i + 1;
      }
      return None;
    }
  }

  lemma RunSnoc(o: Options, s: Server, requests: seq<Request>, n: nat)
    requires o.Valid() && n < |requests|
    ensures var before := Run(o, s, requests[..n]);
            var step := OnRequest(o, before.0, requests[n]);
            Run(o, s, requests[..n + 1]) == (step.0, before.1 + step.1)
  {
    assert requests[..n + 1][..n] == requests[..n];
  }

  /** The archive end is sent in the same way wherever the handler stood. */
  lemma SendEndFrom(o: Options, s: Server, end: u64, phase: Phase)
    requires o.Valid()
    ensures SendEnd(o, s.(phase := phase), end) == SendEnd(o, s, end)
  {
    hide Finalize;
  }

  /** What a waiting handler makes of a message. */
  lemma WhileWaiting(o: Options, s: Server, m: Request)
    requires o.Valid() && (s.phase.Windowed? || s.phase.Finishing?)
    ensures !m.AckFrame? ==> OnRequest(o, s, m) == Close(s, WindowExpectsAck)
    ensures m.AckFrame? ==>
              match ProcessAck(s, m.payload)
              case AckError(e) => OnRequest(o, s, m) == Close(s, e)
              case AckTaken(next, complete) =>
                next.phase == s.phase
                && OnRequest(o, s, m) == if complete then (next.(phase := Closed(true)), []) else Settle(o, next)
  {
    hide Settle;
  }

  lemma StillWaiting(o: Options, s: Server)
    requires o.Valid() && (s.phase.Windowed? ==> s.Outstanding() >= o.window)
    requires s.phase.Windowed? || (s.phase.Finishing? && s.Outstanding() >= 1)
    ensures Settle(o, s) == (s, [])
  {
  }

  datatype AckResult = Failed | Continue | ArchiveDone

  class Handler {
    const o: Options
    const retention: FrameRetentionBuffer
    var nextVolume: u64
    var lastAcked: u64
    var hasAcked: bool
    var complete: bool
    var queue: seq<VolumeRecord>
    var queueClosed: bool
    // connection-local
    var nextSend: u64
    var endSeq: Option<u64>
    var committed: bool
    var replies: seq<Reply>
    var inbox: seq<Request>
    var pos: nat
    ghost var phase: Phase
    ghost var base: Server

    ghost function S(): Server
      reads this, retention
    {
      Server(nextVolume, lastAcked, hasAcked, complete, retention.frames, queue, queueClosed, nextSend, endSeq,
             committed, phase)
    }

    ghost predicate Valid()
      reads this
    {
      o.Valid() && retention.maxFrames == o.window && pos <= |inbox|
    }

    /** The messages consumed so far have led exactly to `s`, with these replies. */
    ghost predicate Reached(s: Server, out: seq<Reply>)
      requires o.Valid() && pos <= |inbox|
      reads this
    {
      Run(o, base, inbox[..pos]) == (s, out)
    }

    constructor (o: Options, queue: seq<VolumeRecord>, firstVolume: u64)
      requires o.Valid()
      ensures Valid() && this.o == o && fresh(retention)
      ensures S() == Server(firstVolume, 0, false, false, [], queue, false, 0, None, false, Closed(false))
    {
      this.o := o;
      retention := new FrameRetentionBuffer(o.window);
      nextVolume, lastAcked, hasAcked, complete := firstVolume, 0, false, false;
      this.queue, queueClosed := queue, false;
      nextSend, endSeq, committed, replies, inbox, pos := 0, None, false, [], [], 0;
      phase := Closed(false);
      base := Server(firstVolume, 0, false, false, [], queue, false, 0, None, false, Closed(false));
    }

    function Outstanding(): nat
      reads this
    {
      (nextSend - (if hasAcked then Succ(lastAcked) else 0)) % TWO_64
    }

    method Fail(e: ServeError)
      modifies this`replies, this`phase
      ensures (S(), replies) == (Close(old(S()), e).0, old(replies) + Close(old(S()), e).1)
    {
      replies := replies + [ErrorReply(e)];
      phase := Closed(false);
    }

    method ProcessAckPayload(payload: seq<u8>) returns (r: AckResult)
      requires Valid()
      modifies this`committed, this`lastAcked, this`hasAcked, this`replies, this`phase, retention
      ensures Valid()
      ensures match ProcessAck(old(S()), payload)
              case AckError(e) =>
                r == Failed && (S(), replies) == (Close(old(S()), e).0, old(replies) + Close(old(S()), e).1)
              case AckTaken(next, done) =>
                replies == old(replies) && r == (if done then ArchiveDone else Continue)
                && S() == if done then next.(phase := Closed(true)) else next
    {
      hide DropRetained, FromLittleEndian, LittleEndian, Pow256;
      if |payload| != 8 {
        Fail(AckMalformed);
        return Failed;
      }
      WordSizes();
      EncodeOfDecode(payload);
      var g: u64 := FromLittleEndian(payload);
      var expected := if hasAcked then Succ(lastAcked) else 0;
      if g != expected {
        Fail(AckOutOfOrder);
        return Failed;
      }
      committed := true;
      lastAcked := g;
      hasAcked := true;
      retention.Ack(g);
      if endSeq.Some? && g >= endSeq.value {
        phase := Closed(true);
        return ArchiveDone;
      }
      return Continue;
    }

    /** A message while the handler waits: only an acknowledgement is welcome. */
    method TakeWaiting(m: Request) returns (r: AckResult)
      requires Valid() && (phase.Windowed? || phase.Finishing?)
      modifies this`committed, this`lastAcked, this`hasAcked, this`replies, this`phase, retention
      ensures Valid() && (r != Continue ==> Stands(r))
      ensures var step := OnRequest(o, old(S()), m);
              if r == Continue then phase == old(phase) && replies == old(replies) && Settle(o, S()) == step
              else (S(), replies) == (step.0, old(replies) + step.1)
    {
      hide Settle, OnRequest, ProcessAck;
      WhileWaiting(o, S(), m);
      if !m.AckFrame? {
        Fail(WindowExpectsAck);
        return Failed;
      }
      r := ProcessAckPayload(m.payload);
      assert r == ArchiveDone ==> replies + [] == replies;
    }

    /** Reads until fewer than `limit` frames are outstanding. On Continue the
        handler resumes what it was waiting to do; on Failed it has replied with
        an error or the client is gone. */
    method DrainAcksUntil(limit: nat) returns (r: AckResult)
      requires Valid() && limit > 0
      requires (phase == Windowed && limit == o.window) || (phase.Finishing? && limit == 1)
      requires Reached(Settle(o, S()).0, replies + Settle(o, S()).1)
      modifies this`committed, this`lastAcked, this`hasAcked, this`replies, this`phase, this`pos, retention
      ensures Valid() && pos >= old(pos)
      ensures r == Continue ==>
                && Outstanding() < limit && phase == old(phase)
                && Reached(Settle(o, S()).0, replies + Settle(o, S()).1)
      ensures r != Continue ==> Reached(S(), replies)
      ensures r != Continue ==> Stands(r)
    {
      hide Run, Settle, OnRequest;
      while Outstanding() >= limit
        invariant Valid() && phase == old(phase) && pos >= old(pos)
        invariant Reached(Settle(o, S()).0, replies + Settle(o, S()).1)
        decreases |inbox| - pos
      {
        StillWaiting(o, S());
        assert replies + [] == replies;
        if pos == |inbox| {
          return Failed;
        }
        RunSnoc(o, base, inbox, pos);
        pos := pos + 1;
        r := TakeWaiting(inbox[pos - 1]);
        if r != Continue {
          return;
        }
      }
      return Continue;
    }

    /** `patch_volume_seq_num` and the reply; `resume` is where the handler stands. */
    method Send(record: seq<u8>) returns (r: AckResult)
      requires Valid()
      modifies this`replies, this`phase, this`nextSend
      ensures Valid() && Stands(r)
      ensures (S(), replies) == (SendRecord(o, old(S()), record).0, old(replies) + SendRecord(o, old(S()), record).1)
    {
      hide PatchVolume;
      if |record| != o.BlockSize() {
        Fail(FrameSizeMismatch);
        return Failed;
      }
      var patched := PatchVolume(o.hash, o.signer, record, nextVolume);
      if patched.Err? {
        assert replies + [] == replies;
        phase := Closed(false);
        return Failed;
      }
      replies := replies + [FrameRecord(patched.value)];
      nextSend := Succ(nextSend);
      phase := Serving;
      return Continue;
    }

    method SendArchiveEnd(end: u64) returns (r: AckResult)
      requires Valid()
      modifies this`replies, this`phase, this`nextSend, this`endSeq, retention
      ensures Valid() && Stands(r)
      ensures (S(), replies) == (SendEnd(o, old(S()), end).0, old(replies) + SendEnd(o, old(S()), end).1)
    {
      hide Finalize, AddRetained;
      var f := EndFrame(o.id, end);
      var sealed := Finalize(o.hash, o.signer, f.header.(volume := nextVolume), f.Record());
      if sealed.Err? {
        assert replies + [] == replies;
        phase := Closed(false);
        return Failed;
      }
      retention.Add(end, sealed.value.1);
      endSeq := Some(end);
      replies := replies + [FrameRecord(sealed.value.1)];
      nextSend := Succ(nextSend);
      phase := Serving;
      return Continue;
    }

    method Resend(record: seq<u8>) returns (r: AckResult)
      requires Valid()
      modifies this`replies, this`phase, this`nextSend, this`endSeq
      ensures Valid() && Stands(r)
      ensures var step := match ParseHeader(record)
                          case Err(_) => Abort(old(S()))
                          case Ok(h) =>
                            SendRecord(o,
                                       if h.channel.ArchiveEnd? then old(S()).(endSeq := Some(old(nextSend)))
                                       else old(S()),
                                       record);
              (S(), replies) == (step.0, old(replies) + step.1)
    {
      var h := ParseHeader(record);
      if h.Err? {
        assert replies + [] == replies;
        phase := Closed(false);
        return Failed;
      }
      if h.value.channel.ArchiveEnd? {
        endSeq := Some(nextSend);
      }
      r := Send(record);
    }

    /** The window is open: the retained frame, or the next item of the queue. */
    method Serve() returns (r: AckResult)
      requires Valid() && phase == Windowed && Outstanding() < o.window
      requires Reached(Settle(o, S()).0, replies + Settle(o, S()).1)
      modifies this`replies, this`phase, this`nextSend, this`endSeq, this`queue, this`pos, this`committed,
               this`lastAcked, this`hasAcked, retention
      ensures Valid() && Reached(S(), replies) && pos >= old(pos)
      ensures Stands(r)
    {
      hide Run, SendRecord, SendEnd, ParseHeader, ProcessAck;
      ghost var s := S();
      var record := retention.Get(nextSend);
      if record.Some? {
        r := Resend(record.value);
        return;
      }
      if queue == [] {
        if queueClosed {
          Fail(QueueClosed);
        } else {
          assert replies + [] == replies;
          phase := Starved;
        }
        return Failed;
      }
      r := ServeItem();
    }

    /** The next item of the queue, when nothing retained is due. */
    method ServeItem() returns (r: AckResult)
      requires Valid() && phase == Windowed && Outstanding() < o.window
      requires queue != [] && GetRetained(retention.frames, nextSend).None?
      requires Reached(ServeNext(o, S()).0, replies + ServeNext(o, S()).1)
      modifies this`replies, this`phase, this`nextSend, this`endSeq, this`queue, this`pos, this`committed,
               this`lastAcked, this`hasAcked, retention
      ensures Valid() && Reached(S(), replies) && pos >= old(pos)
      ensures Stands(r)
    {
      hide Run, SendRecord, SendEnd, ParseHeader, ProcessAck, AddRetained, DropRetained, GetRetained;
      var next := queue[0];
      queue := queue[1..];
      match next {
        case TapeEof =>
          replies := replies + [TapeEofReply];
          phase := Serving;
          return Continue;
        case Done(end) =>
          r := FinishArchive(end);
        case Frame(frame, g) =>
          r := RetainAndSend(frame, g);
      }
    }

    method RetainAndSend(frame: seq<u8>, g: u64) returns (r: AckResult)
      requires Valid()
      modifies this`replies, this`phase, this`nextSend, retention
      ensures Valid() && Stands(r)
      ensures var step := if g != old(nextSend) then Close(old(S()), NoLongerRetained)
                          else
                            SendRecord(o,
                                       old(S()).(retained := AddRetained(old(retention.frames), o.window,
                                                                         Retained(g, frame))),
                                       frame);
              (S(), replies) == (step.0, old(replies) + step.1)
    {
      hide SendRecord, AddRetained;
      if g != nextSend {
        Fail(NoLongerRetained);
        return Failed;
      }
      retention.Add(g, frame);
      r := Send(frame);
    }

    /** Waits until every frame is acknowledged, then sends the archive end. */
    method FinishArchive(end: u64) returns (r: AckResult)
      requires Valid() && phase == Windowed
      requires var s := S();
               var step := if s.Outstanding() >= 1 then (s.(phase := Finishing(end)), []) else SendEnd(o, s, end);
               Reached(step.0, replies + step.1)
      modifies this`replies, this`phase, this`nextSend, this`endSeq, this`pos, this`committed,
               this`lastAcked, this`hasAcked, retention
      ensures Valid() && Reached(S(), replies) && pos >= old(pos)
      ensures Stands(r)
    {
      hide Run, ServeNext, SendEnd;
      phase := Finishing(end);
      SendEndFrom(o, S(), end, Windowed);
      r := DrainAcksUntil(1);
      if r == Continue {
        r := SendArchiveEnd(end);
      }
    }

    /** What a result says about where the handler stands. */
    ghost predicate Stands(r: AckResult)
      reads this
    {
      match r
      case Continue => phase == Serving
      case ArchiveDone => phase == Closed(true)
      case Failed => phase == Closed(false) || phase == Starved || (pos == |inbox| && phase != Closed(true))
    }

    method Handle(m: Request) returns (r: AckResult)
      requires Valid() && phase == Serving
      requires Reached(OnRequest(o, S(), m).0, replies + OnRequest(o, S(), m).1)
      modifies this`replies, this`phase, this`nextSend, this`endSeq, this`queue, this`pos, this`committed,
               this`lastAcked, this`hasAcked, retention
      ensures Valid() && Reached(S(), replies) && pos >= old(pos)
      ensures Stands(r)
    {
      hide Run, ServeNext, SendEnd;
      if endSeq.Some? && !m.AckFrame? {
        Fail(AfterEndRequest);
        return Failed;
      }
      match m {
        case NextFrame =>
          phase := Windowed;
          r := DrainAcksUntil(o.window);
          if r == Continue {
            r := Serve();
          }
        case AckFrame(payload) =>
          assert replies + [] == replies;
          r := ProcessAckPayload(payload);
        case OtherRequest =>
          Fail(UnexpectedRequest);
          return Failed;
      }
    }

    method ResetConnection()
      modifies this`nextSend, this`endSeq, this`committed, this`phase
      ensures S() == Connect(old(S())) && phase == Serving
    {
      nextSend := if hasAcked then Succ(lastAcked) else 0;
      endSeq := None;
      committed := false;
      phase := Serving;
    }

    method Begin(requests: seq<Request>)
      requires Valid()
      modifies this`nextSend, this`endSeq, this`committed, this`replies, this`inbox, this`pos, this`phase, this`base
      ensures Valid() && S() == base == Connect(old(S())) && phase == Serving
      ensures replies == [] && inbox == requests && pos == 0
    {
      hide Connect;
      ResetConnection();
      replies := [];
      inbox := requests;
      pos := 0;
      base := S();
    }

    /** `serve_volume_client`: handles one client until it disconnects (its
        messages run out), fails, or acknowledges the archive end. */
    method ServeVolumeClient(requests: seq<Request>) returns (archiveComplete: bool)
      requires Valid()
      modifies this, retention
      ensures Valid()
      ensures (S(), replies) == Run(o, Connect(old(S())), requests)
      ensures archiveComplete <==> S().phase == Closed(true)
    {
      hide OnRequest;
      Begin(requests);
      var r := Continue;
      while r == Continue && pos < |inbox|
        invariant Valid() && inbox == requests && base == Connect(old(S()))
        invariant Reached(S(), replies) && Stands(r)
        decreases |inbox| - pos
      {
        var m := inbox[pos];
        RunSnoc(o, base, inbox, pos);
        pos := pos + 1;
        r := Handle(m);
      }
      RestUnread(o, base, inbox, pos);
      assert inbox[..|inbox|] == inbox;
      archiveComplete := r == ArchiveDone;
    }

    /** One turn of the accept loop. */
    method ServeOne(requests: seq<Request>)
      requires Valid()
      modifies this, retention
      ensures Valid()
      ensures S() == Disconnect(Run(o, Connect(old(S())), requests).0)
    {
      var archiveComplete := ServeVolumeClient(requests);
      if archiveComplete {
        complete := true;
      } else if committed {
        nextVolume := Succ(nextVolume);
      }
    }

    /** The accept loop of `run_volume_server`, for the clients that connect. */
    method RunVolumeServer(clients: seq<seq<Request>>)
      requires Valid()
      modifies this, retention
      ensures Valid()
      ensures S() == Connections(o, old(S()), clients)
    {
      hide Run, Connect, Disconnect;
      var i := 0;
      while i < |clients| && !complete
        invariant 0 <= i <= |clients| && Valid()
        invariant S() == Connections(o, old(S()), clients[..i])
      {
        assert clients[..i + 1][..i] == clients[..i];
        ServeOne(clients[i]);
        i := i + 1;
      }
      NoMoreClients(o, old(S()), clients, i);
    }
  }

  lemma {:induction false} NoMoreClients(o: Options, s: Server, clients: seq<seq<Request>>, n: nat)
    requires o.Valid() && n <= |clients|
    requires n == |clients| || Connections(o, s, clients[..n]).complete
    ensures Connections(o, s, clients) == Connections(o, s, clients[..n])
    decreases |clients| - n
  {
    if n == |clients| {
      assert clients[..n] == clients;
    } else {
      assert clients[..n + 1][..n] == clients[..n];
      NoMoreClients(o, s, clients, n + 1);
    }
  }

  /** Once the handler has returned or is blocked, further messages change nothing. */
  lemma {:induction false} RestUnread(o: Options, s: Server, requests: seq<Request>, n: nat)
    requires o.Valid() && n <= |requests|
    requires var phase := Run(o, s, requests[..n]).0.phase; phase.Closed? || phase.Starved? || n == |requests|
    ensures Run(o, s, requests) == Run(o, s, requests[..n])
    decreases |requests| - n
  {
    hide Settle, ProcessAck, Run;
    if n == |requests| {
      assert requests[..n] == requests;
    } else {
      RunSnoc(o, s, requests, n);
      var before := Run(o, s, requests[..n]);
      assert before.1 + [] == before.1;
      RestUnread(o, s, requests, n + 1);
    }
  }
}
