// The archive server: the retention buffer, and the frame-serving protocol as a
// function of the server state and the next request.
module VolumeServer {
  import opened Base
  import opened Format
  import opened FormatTheorems
  import opened Sealing
  import opened FrameBuilder
  import opened Producer

  datatype Options = Options(id: Identity, window: nat, hash: Hasher, signer: Signer) {
    predicate Valid() { id.Valid() && 0 < window < TWO_64 }

    function BlockSize(): nat { id.blockKib * 1024 }
  }

  // -------------------------------------------------------- retention, values

  datatype Retained = Retained(global: u64, record: seq<u8>)

  function AddRetained(frames: seq<Retained>, limit: nat, r: Retained): seq<Retained> {
    if |frames| == limit && frames != [] then frames[1..] + [r] else frames + [r]
  }

  function DropRetained(frames: seq<Retained>, global: u64): seq<Retained> {
    if frames == [] then []
    else if frames[0].global == global then frames[1..]
    else [frames[0]] + DropRetained(frames[1..], global)
  }

  function GetRetained(frames: seq<Retained>, global: u64): Option<seq<u8>> {
    if frames == [] then None
    else if frames[0].global == global then Some(frames[0].record)
    else GetRetained(frames[1..], global)
  }

  // ----------------------------------------------------------------- protocol

  datatype Request = NextFrame | AckFrame(payload: seq<u8>) | OtherRequest

  datatype ServeError =
    | AckMalformed | AckOutOfOrder | WindowExpectsAck | AfterEndRequest | UnexpectedRequest
    | NoLongerRetained | FrameSizeMismatch | QueueClosed

  datatype Reply = FrameRecord(record: seq<u8>) | TapeEofReply | ErrorReply(reason: ServeError)

  /** Where the connection handler stands between two requests: idle, waiting for
      acknowledgements before a frame or before the archive end, blocked on a
      queue that will deliver nothing more, or returned. */
  datatype Phase = Serving | Windowed | Finishing(end: u64) | Starved | Closed(complete: bool)

  datatype Server = Server(
    nextVolume: u64,
    lastAcked: u64,
    hasAcked: bool,
    complete: bool,
    retained: seq<Retained>,
    queue: seq<VolumeRecord>,
    queueClosed: bool,
    nextSend: u64,
    endSeq: Option<u64>,
    committed: bool,
    phase: Phase)
  {
    /** Frames acknowledged so far, over all connections. */
    function Acked(): u64 {
      if hasAcked then Succ(lastAcked) else 0
    }

    /** `next_send_seq - acked_count` on 64-bit words. */
    function Outstanding(): nat {
      (nextSend - Acked()) % TWO_64
    }
  }

  function Close(s: Server, e: ServeError): (Server, seq<Reply>) {
    (s.(phase := Closed(false)), [ErrorReply(e)])
  }

  /** An exception in the handler ends the connection without a reply. */
  function Abort(s: Server): (Server, seq<Reply>) {
    (s.(phase := Closed(false)), [])
  }

  datatype AckOutcome = AckError(reason: ServeError) | AckTaken(next: Server, complete: bool)

  function ProcessAck(s: Server, payload: seq<u8>): AckOutcome {
    if |payload| != 8 then AckError(AckMalformed)
    else
      WordSizes();
      EncodeOfDecode(payload);
      var g: u64 := FromLittleEndian(payload);
      if g != s.Acked() then AckError(AckOutOfOrder)
      else
        AckTaken(s.(committed := true, lastAcked := g, hasAcked := true, retained := DropRetained(s.retained, g)),
                 s.endSeq.Some? && g >= s.endSeq.value)
  }

  function SendRecord(o: Options, s: Server, record: seq<u8>): (Server, seq<Reply>)
    requires o.Valid()
  {
    if |record| != o.BlockSize() then Close(s, FrameSizeMismatch)
    else
      match PatchVolume(o.hash, o.signer, record, s.nextVolume)
      case Err(_) => Abort(s)
      case Ok(patched) => (s.(nextSend := Succ(s.nextSend), phase := Serving), [FrameRecord(patched)])
  }

  function SendEnd(o: Options, s: Server, end: u64): (Server, seq<Reply>)
    requires o.Valid()
  {
    var f := EndFrame(o.id, end);
    match Finalize(o.hash, o.signer, f.header.(volume := s.nextVolume), f.Record())
    case Err(_) => Abort(s)
    case Ok(sealed) =>
      (s.(retained := AddRetained(s.retained, o.window, Retained(end, sealed.1)), endSeq := Some(end),
          nextSend := Succ(s.nextSend), phase := Serving),
       [FrameRecord(sealed.1)])
  }

  /** The frame (or other item) due next, with the window open. */
  function ServeNext(o: Options, s: Server): (Server, seq<Reply>)
    requires o.Valid()
  {
    match GetRetained(s.retained, s.nextSend)
    case Some(record) =>
      (match ParseHeader(record)
       case Err(_) => Abort(s)
       case Ok(h) =>
         SendRecord(o, if h.channel.ArchiveEnd? then s.(endSeq := Some(s.nextSend)) else s, record))
    case None =>
      if s.queue == [] then
        if s.queueClosed then Close(s, QueueClosed) else (s.(phase := Starved), [])
      else
        var s1 := s.(queue := s.queue[1..]);
        match s.queue[0]
        case TapeEof => (s1.(phase := Serving), [TapeEofReply])
        case Done(end) => if s1.Outstanding() >= 1 then (s1.(phase := Finishing(end)), []) else SendEnd(o, s1, end)
        case Frame(record, g) =>
          if g != s.nextSend then Close(s1, NoLongerRetained)
          else SendRecord(o, s1.(retained := AddRetained(s1.retained, o.window, Retained(g, record))), record)
  }

  /** Resume after a wait once few enough frames are outstanding. */
  function Settle(o: Options, s: Server): (Server, seq<Reply>)
    requires o.Valid()
  {
    if s.phase.Windowed? && s.Outstanding() < o.window then ServeNext(o, s)
    else if s.phase.Finishing? && s.Outstanding() < 1 then SendEnd(o, s, s.phase.end)
    else (s, [])
  }

  function OnRequest(o: Options, s: Server, m: Request): (Server, seq<Reply>)
    requires o.Valid()
  {
    match s.phase
    case Starved => (s, [])
    case Closed(_) => (s, [])
    case Serving =>
      if s.endSeq.Some? && !m.AckFrame? then Close(s, AfterEndRequest)
      else
        (match m
         case NextFrame => Settle(o, s.(phase := Windowed))
         case OtherRequest => Close(s, UnexpectedRequest)
         case AckFrame(payload) =>
           match ProcessAck(s, payload)
           case AckError(e) => Close(s, e)
           case AckTaken(next, complete) => (if complete then next.(phase := Closed(true)) else next, []))
    case _ =>
      match m
      case AckFrame(payload) =>
        (match ProcessAck(s, payload)
         case AckError(e) => Close(s, e)
         case AckTaken(next, complete) =>
           if complete then (next.(phase := Closed(true)), []) else Settle(o, next))
      case _ => Close(s, WindowExpectsAck)
  }

  /** A new client is accepted: sending resumes at the first unacknowledged frame. */
  function Connect(s: Server): Server {
    s.(nextSend := s.Acked(), endSeq := None, committed := false, phase := Serving)
  }

  /** The accept loop after a client: the volume number advances only when the
      volume was committed and the archive is not complete. */
  function Disconnect(s: Server): Server {
    if s.phase == Closed(true) then s.(complete := true)
    else if s.committed then s.(nextVolume := Succ(s.nextVolume))
    else s
  }

  function Run(o: Options, s: Server, requests: seq<Request>): (Server, seq<Reply>)
    requires o.Valid()
  {
    if requests == [] then (s, [])
    else
      var before := Run(o, s, requests[..|requests| - 1]);
      var step := OnRequest(o, before.0, requests[|requests| - 1]);
      (step.0, before.1 + step.1)
  }

  // ---------------------------------------------------------------- invariant

  /** The frames of one archive, as the producer numbers them. */
  ghost predicate ArchiveOf(id: Identity, fs: seq<LogicalFrame>)
    requires id.Valid()
  {
    && 0 < |fs| < TWO_64 - 1
    && BodyNumbered(id, fs[..|fs| - 1], 0)
    && fs[|fs| - 1] == EndFrame(id, |fs| - 1)
  }

  /** The queue still delivers the frames from number t on, then the end mark. */
  predicate Delivers(queue: seq<VolumeRecord>, fs: seq<LogicalFrame>, t: nat)
    decreases |queue|
  {
    if queue == [] then false
    else
      match queue[0]
      case TapeEof => Delivers(queue[1..], fs, t)
      case Done(end) => queue == [Done(end)] && t == |fs| - 1 && end == t
      case Frame(record, g) =>
        t < |fs| - 1 && g == t && record == fs[t].Record() && Delivers(queue[1..], fs, t + 1)
  }

  function SealFor(o: Options, f: LogicalFrame, volume: u64): seq<u8> {
    SealRecord(o.hash, o.signer, f.header.(volume := volume), f.body)
  }

  /** A retained record stands for the frame: as built, or sealed for some volume. */
  ghost predicate StandsFor(o: Options, record: seq<u8>, f: LogicalFrame) {
    record == f.Record() || exists v: u64 :: record == SealFor(o, f, v)
  }

  ghost predicate RetainedRun(o: Options, acked: nat, retained: seq<Retained>, fs: seq<LogicalFrame>) {
    && acked + |retained| <= |fs|
    && forall i :: 0 <= i < |retained| ==>
         retained[i].global == acked + i && StandsFor(o, retained[i].record, fs[acked + i])
  }

  /** Frames taken from the producer so far. */
  function Taken(s: Server): nat { s.Acked() + |s.retained| }

  /** What holds between connections too. The retention buffer is exactly the run
      from the first unacknowledged to the last taken frame, within the window. */
  ghost predicate ArchiveInv(o: Options, s: Server, fs: seq<LogicalFrame>)
    requires o.Valid()
  {
    && ArchiveOf(o.id, fs)
    && !s.queueClosed
    && (s.hasAcked ==> s.lastAcked + 1 < TWO_64)
    && RetainedRun(o, s.Acked(), s.retained, fs)
    && |s.retained| <= o.window
    && (Delivers(s.queue, fs, Taken(s)) || (s.queue == [] && Taken(s) >= |fs| - 1))
    && (s.complete ==> s.Acked() == |fs|)
  }

  /** The final marker was taken from the queue but the archive end never built. */
  predicate EndLost(s: Server, fs: seq<LogicalFrame>) {
    s.queue == [] && Taken(s) == |fs| - 1
  }

  ghost predicate CoreInv(o: Options, s: Server, fs: seq<LogicalFrame>)
    requires o.Valid()
  {
    && ArchiveInv(o, s, fs)
    && s.Acked() <= s.nextSend <= Taken(s)
    && (s.endSeq.None? ==> s.nextSend < |fs|)
    && (s.endSeq.Some? ==> s.endSeq.value == |fs| - 1 && s.nextSend == |fs|)
  }

  ghost predicate PhaseInv(o: Options, s: Server, fs: seq<LogicalFrame>) {
    match s.phase
    case Serving => s.Acked() < |fs|
    case Windowed => s.endSeq.None? && s.Outstanding() >= o.window
    case Finishing(end) =>
      EndLost(s, fs) && s.endSeq.None? && s.nextSend == Taken(s) == end && s.Outstanding() >= 1
    case Starved => EndLost(s, fs) && s.endSeq.None? && s.nextSend == Taken(s)
    case Closed(complete) => complete <==> s.Acked() == |fs|
  }

  ghost predicate ServerInv(o: Options, s: Server, fs: seq<LogicalFrame>)
    requires o.Valid()
  {
    CoreInv(o, s, fs) && PhaseInv(o, s, fs)
  }

  /** The client acknowledges only frames it was sent on this connection. */
  predicate Honest(s: Server, m: Request) {
    m.AckFrame? && ProcessAck(s, m.payload).AckTaken? ==> s.Acked() < s.nextSend
  }

  /** The client's own mistakes are the only ones reported. */
  predicate ClientFault(e: ServeError) {
    e.AckMalformed? || e.AckOutOfOrder? || e.WindowExpectsAck? || e.AfterEndRequest? || e.UnexpectedRequest?
  }

  /** A reply that belongs at this point: the next frame sealed for the current
      volume, an end-of-file mark, or the report of a client's mistake. */
  ghost predicate ProperStep(o: Options, s: Server, next: Server, replies: seq<Reply>, fs: seq<LogicalFrame>) {
    && next.nextVolume == s.nextVolume && next.complete == s.complete
    && (|| (replies == [] && next.nextSend == s.nextSend)
        || (replies == [TapeEofReply] && next.nextSend == s.nextSend)
        || (|replies| == 1 && replies[0].ErrorReply? && ClientFault(replies[0].reason)
            && next.nextSend == s.nextSend && next.phase == Closed(false))
        || (s.nextSend < |fs| && replies == [FrameRecord(SealFor(o, fs[s.nextSend], s.nextVolume))]
            && next.nextSend == s.nextSend + 1))
  }

  lemma SealableFrame(id: Identity, fs: seq<LogicalFrame>, i: nat)
    requires id.Valid() && ArchiveOf(id, fs) && i < |fs|
    ensures Sealable(fs[i].header, fs[i].body) && fs[i].header.hash == Zeros(32) && fs[i].header.global == i
    ensures fs[i].header.blockKib == id.blockKib && fs[i].header.uuid == id.uuid
    ensures fs[i].header.channel.ArchiveEnd? <==> i == |fs| - 1
  {
    if i < |fs| - 1 {
      assert BodyFrame(id, fs[..|fs| - 1][i], i);
    } else {
      EndFrameIsSealable(id, |fs| - 1);
    }
  }

  /** Sending a record that stands for frame i sends that frame, sealed. */
  lemma SendsFrame(o: Options, s: Server, fs: seq<LogicalFrame>, record: seq<u8>, i: nat)
    requires o.Valid() && ArchiveOf(o.id, fs) && i < |fs| && StandsFor(o, record, fs[i])
    ensures SendRecord(o, s, record) ==
              (s.(nextSend := Succ(s.nextSend), phase := Serving), [FrameRecord(SealFor(o, fs[i], s.nextVolume))])
    ensures ParseHeader(record).Ok? && (ParseHeader(record).value.channel.ArchiveEnd? <==> i == |fs| - 1)
  {
    hide PatchVolume, SealRecord, SealHeader, ParseHeader, Sealable;
    SealableFrame(o.id, fs, i);
    var h, body := fs[i].header, fs[i].body;
    if record == fs[i].Record() {
      AsBuilt(o, h, body, s.nextVolume);
    } else {
      var v: u64 :| record == SealFor(o, fs[i], v);
      Issued(o, h, body, v, s.nextVolume);
    }
  }

  lemma AsBuilt(o: Options, h: FrameHeader, body: seq<u8>, volume: u64)
    requires Sealable(h, body) && h.hash == Zeros(32)
    ensures PatchVolume(o.hash, o.signer, HeaderImage(h) + body, volume) ==
              Ok(SealRecord(o.hash, o.signer, h.(volume := volume), body))
    ensures ParseHeader(HeaderImage(h) + body) == Ok(h)
    ensures |HeaderImage(h) + body| == h.blockKib * 1024
  {
    PatchSeals(o.hash, o.signer, h, body, volume);
    ParseUnsealed(h, body);
  }

  lemma Issued(o: Options, h: FrameHeader, body: seq<u8>, v: u64, volume: u64)
    requires Sealable(h, body)
    ensures PatchVolume(o.hash, o.signer, SealRecord(o.hash, o.signer, h.(volume := v), body), volume) ==
              Ok(SealRecord(o.hash, o.signer, h.(volume := volume), body))
    ensures ParseHeader(SealRecord(o.hash, o.signer, h.(volume := v), body)).Ok?
    ensures ParseHeader(SealRecord(o.hash, o.signer, h.(volume := v), body)).value.channel == h.channel
    ensures |SealRecord(o.hash, o.signer, h.(volume := v), body)| == h.blockKib * 1024
  {
    var hv := h.(volume := v);
    assert Sealable(hv, body) by {
      assert HeaderRule(hv) == HeaderRule(h);
    }
    PatchSeals(o.hash, o.signer, hv, body, volume);
    ParseSealed(o.hash, o.signer, hv, body);
    assert hv.(volume := volume) == h.(volume := volume);
  }

  lemma EndSealed(o: Options, s: Server, end: u64)
    requires o.Valid()
    ensures var r := SealFor(o, EndFrame(o.id, end), s.nextVolume);
            SendEnd(o, s, end) ==
              (s.(retained := AddRetained(s.retained, o.window, Retained(end, r)), endSeq := Some(end),
                  nextSend := Succ(s.nextSend), phase := Serving),
               [FrameRecord(r)])
  {
    var f := EndFrame(o.id, end);
    EndFrameIsSealable(o.id, end);
    var h := f.header.(volume := s.nextVolume);
    assert HeaderRule(h) == HeaderRule(f.header);
    FinalizeSeals(o.hash, o.signer, h, f.Record());
    assert f.Record()[HEADER_SIZE..] == f.body;
  }

  lemma {:induction false} RetainedLookup(frames: seq<Retained>, start: nat, g: u64)
    requires forall i :: 0 <= i < |frames| ==> frames[i].global == start + i
    ensures GetRetained(frames, g) ==
              if start <= g < start + |frames| then Some(frames[g - start].record) else None
  {
    if frames != [] {
      RetainedLookup(frames[1..], start + 1, g);
    }
  }

  lemma OutstandingIs(o: Options, s: Server, fs: seq<LogicalFrame>)
    requires o.Valid() && CoreInv(o, s, fs)
    ensures s.Outstanding() == s.nextSend - s.Acked() <= |s.retained| <= o.window
  {
  }

  lemma AckOfWord(s: Server, g: u64)
    ensures ProcessAck(s, LittleEndian(g, 8)) ==
              if g != s.Acked() then AckError(AckOutOfOrder)
              else AckTaken(s.(committed := true, lastAcked := g, hasAcked := true,
                               retained := DropRetained(s.retained, g)),
                            s.endSeq.Some? && g >= s.endSeq.value)
  {
    WordSizes();
    DecodeOfEncode(g, 8);
  }

  /** An honest acknowledgement releases exactly the oldest retained frame. */
  lemma AckKeeps(o: Options, s: Server, fs: seq<LogicalFrame>, payload: seq<u8>)
    requires o.Valid() && CoreInv(o, s, fs) && !s.complete
    requires ProcessAck(s, payload).AckTaken? && s.Acked() < s.nextSend
    ensures var next := ProcessAck(s, payload).next;
            && CoreInv(o, next, fs)
            && next == s.(committed := true, lastAcked := s.Acked(), hasAcked := true, retained := s.retained[1..])
            && next.Acked() == s.Acked() + 1 && Taken(next) == Taken(s)
            && (ProcessAck(s, payload).complete <==> next.Acked() == |fs|)
            && (EndLost(next, fs) <==> EndLost(s, fs))
  {
    var next := ProcessAck(s, payload).next;
    assert next.Acked() == s.Acked() + 1;
    assert s.retained[0].global == s.Acked();
    assert next.retained == s.retained[1..];
    forall i | 0 <= i < |next.retained|
      ensures next.retained[i].global == next.Acked() + i
      ensures StandsFor(o, next.retained[i].record, fs[next.Acked() + i])
    {
      assert next.retained[i] == s.retained[i + 1];
    }
  }

  /** With the window open, adding a frame evicts nothing. */
  lemma AddKeeps(o: Options, s: Server, fs: seq<LogicalFrame>, record: seq<u8>)
    requires o.Valid() && ArchiveOf(o.id, fs) && RetainedRun(o, s.Acked(), s.retained, fs) && Taken(s) < |fs|
    requires |s.retained| < o.window && StandsFor(o, record, fs[Taken(s)])
    ensures AddRetained(s.retained, o.window, Retained(Taken(s), record)) == s.retained + [Retained(Taken(s), record)]
    ensures RetainedRun(o, s.Acked(), s.retained + [Retained(Taken(s), record)], fs)
  {
    var longer := s.retained + [Retained(Taken(s), record)];
    forall i | 0 <= i < |longer|
      ensures longer[i].global == s.Acked() + i && StandsFor(o, longer[i].record, fs[s.Acked() + i])
    {
      if i < |s.retained| {
        assert longer[i] == s.retained[i];
      }
    }
  }

  lemma LastIsEnd(o: Options, fs: seq<LogicalFrame>)
    requires o.Valid() && ArchiveOf(o.id, fs)
    ensures 0 < |fs| < TWO_64 - 1 && fs[|fs| - 1] == EndFrame(o.id, |fs| - 1)
  {
  }

  lemma RetainedAt(o: Options, acked: nat, retained: seq<Retained>, fs: seq<LogicalFrame>, g: u64)
    requires RetainedRun(o, acked, retained, fs)
    ensures GetRetained(retained, g) ==
              if acked <= g < acked + |retained| then Some(retained[g - acked].record) else None
    ensures acked <= g < acked + |retained| ==> StandsFor(o, retained[g - acked].record, fs[g])
  {
    RetainedLookup(retained, acked, g);
    if acked <= g < acked + |retained| {
      assert retained[g - acked].global == acked + (g - acked);
    }
  }

  lemma SealedStandsFor(o: Options, f: LogicalFrame, v: u64)
    ensures StandsFor(o, SealFor(o, f, v), f) && StandsFor(o, f.Record(), f)
  {
  }

  lemma EndKeeps(o: Options, s: Server, fs: seq<LogicalFrame>)
    requires o.Valid() && CoreInv(o, s, fs) && s.endSeq.None? && EndLost(s, fs) && !s.complete
    requires s.nextSend == Taken(s) && s.Outstanding() < 1
    ensures var r := SendEnd(o, s, Taken(s));
            ServerInv(o, r.0, fs) && ProperStep(o, s, r.0, r.1, fs) && r.0.phase.Serving?
  {
    hide SendEnd, SealFor, EndFrame, StandsFor, ArchiveOf, AddRetained, RetainedRun, Delivers;
    OutstandingIs(o, s, fs);
    LastIsEnd(o, fs);
    EndSealed(o, s, Taken(s));
    var record := SealFor(o, fs[Taken(s)], s.nextVolume);
    SealedStandsFor(o, fs[Taken(s)], s.nextVolume);
    AddKeeps(o, s, fs, record);
  }

  lemma ResendKeeps(o: Options, s: Server, fs: seq<LogicalFrame>)
    requires o.Valid() && CoreInv(o, s, fs) && s.endSeq.None? && !s.complete
    requires s.nextSend < Taken(s)
    ensures var r := ServeNext(o, s);
            ServerInv(o, r.0, fs) && ProperStep(o, s, r.0, r.1, fs) && r.0.phase.Serving?
  {
    hide SendRecord, SealFor, EndFrame, StandsFor, ArchiveOf, AddRetained, GetRetained, ParseHeader, Delivers;
    LastIsEnd(o, fs);
    RetainedAt(o, s.Acked(), s.retained, fs, s.nextSend);
    var i := s.nextSend - s.Acked();
    SendsFrame(o, s, fs, s.retained[i].record, s.nextSend);
    if s.nextSend == |fs| - 1 {
      SendsFrame(o, s.(endSeq := Some(s.nextSend)), fs, s.retained[i].record, s.nextSend);
    }
  }

  lemma TakeFrameKeeps(o: Options, s: Server, fs: seq<LogicalFrame>)
    requires o.Valid() && CoreInv(o, s, fs) && s.endSeq.None? && !s.complete
    requires s.nextSend == Taken(s) && s.Outstanding() < o.window
    requires s.queue != [] && s.queue[0].Frame?
    ensures var r := ServeNext(o, s);
            ServerInv(o, r.0, fs) && ProperStep(o, s, r.0, r.1, fs) && r.0.phase.Serving?
  {
    hide SendRecord, SealFor, EndFrame, StandsFor, ArchiveOf, AddRetained, GetRetained, RetainedRun, ParseHeader;
    OutstandingIs(o, s, fs);
    LastIsEnd(o, fs);
    RetainedAt(o, s.Acked(), s.retained, fs, s.nextSend);
    var t := Taken(s);
    var record := fs[t].Record();
    SealedStandsFor(o, fs[t], s.nextVolume);
    AddKeeps(o, s, fs, record);
    var s1 := s.(queue := s.queue[1..], retained := s.retained + [Retained(t, record)]);
    SendsFrame(o, s1, fs, record, t);
  }

  lemma ServeNextKeeps(o: Options, s: Server, fs: seq<LogicalFrame>)
    requires o.Valid() && CoreInv(o, s, fs) && s.endSeq.None? && !s.complete
    requires s.Outstanding() < o.window
    ensures var r := ServeNext(o, s);
            ServerInv(o, r.0, fs) && ProperStep(o, s, r.0, r.1, fs) && !r.0.phase.Windowed? && !r.0.phase.Closed?
  {
    hide SendRecord, SendEnd, SealFor, EndFrame, StandsFor, ArchiveOf, AddRetained, GetRetained, ParseHeader;
    if s.nextSend < Taken(s) {
      ResendKeeps(o, s, fs);
    } else {
      RetainedAt(o, s.Acked(), s.retained, fs, s.nextSend);
      if s.queue != [] {
        match s.queue[0]
        case Frame(_, _) => TakeFrameKeeps(o, s, fs);
        case TapeEof => assert ArchiveInv(o, s.(queue := s.queue[1..]), fs);
        case Done(end) =>
          var s1 := s.(queue := s.queue[1..]);
          assert s1.queue == [] && end == Taken(s) == |fs| - 1;
          assert CoreInv(o, s1, fs);
          if s1.Outstanding() < 1 {
            EndKeeps(o, s1, fs);
          }
      }
    }
  }

  lemma SettleKeeps(o: Options, s: Server, fs: seq<LogicalFrame>)
    requires o.Valid() && CoreInv(o, s, fs) && s.endSeq.None? && !s.complete
    requires s.phase.Windowed? || (s.phase.Finishing? && EndLost(s, fs) && s.nextSend == Taken(s) == s.phase.end)
    ensures var r := Settle(o, s);
            ServerInv(o, r.0, fs) && ProperStep(o, s, r.0, r.1, fs) && !r.0.phase.Closed?
  {
    if s.phase.Windowed? {
      if s.Outstanding() < o.window {
        ServeNextKeeps(o, s, fs);
      }
    } else if s.Outstanding() < 1 {
      EndKeeps(o, s, fs);
    }
  }

  lemma IdleRequestKeeps(o: Options, s: Server, fs: seq<LogicalFrame>, m: Request)
    requires o.Valid() && ServerInv(o, s, fs) && !s.complete && Honest(s, m) && s.phase.Serving?
    ensures var r := OnRequest(o, s, m);
            ServerInv(o, r.0, fs) && ProperStep(o, s, r.0, r.1, fs)
  {
    hide Settle, SealFor, EndFrame, StandsFor, ArchiveOf, RetainedRun, Delivers, DropRetained;
    if m.NextFrame? && s.endSeq.None? {
      SettleKeeps(o, s.(phase := Windowed), fs);
    } else if m.AckFrame? && ProcessAck(s, m.payload).AckTaken? {
      AckKeeps(o, s, fs, m.payload);
    }
  }

  lemma WaitingRequestKeeps(o: Options, s: Server, fs: seq<LogicalFrame>, m: Request)
    requires o.Valid() && ServerInv(o, s, fs) && !s.complete && Honest(s, m)
    requires s.phase.Windowed? || s.phase.Finishing?
    ensures var r := OnRequest(o, s, m);
            ServerInv(o, r.0, fs) && ProperStep(o, s, r.0, r.1, fs)
  {
    hide Settle, SealFor, EndFrame, StandsFor, ArchiveOf, RetainedRun, Delivers, DropRetained;
    if m.AckFrame? && ProcessAck(s, m.payload).AckTaken? {
      AckKeeps(o, s, fs, m.payload);
      SettleKeeps(o, ProcessAck(s, m.payload).next, fs);
    }
  }

  /** One request. Whatever an honest client sends, the invariant is kept: the
      retention buffer stays the exact unacknowledged run and no unacknowledged
      frame is evicted. The reply is the next frame in order, sealed for the
      volume, or an end-of-file mark; an error is only ever the client's own. In
      particular "no longer retained" and "frame size mismatch" are unreachable. */
  lemma RequestKeeps(o: Options, s: Server, fs: seq<LogicalFrame>, m: Request)
    requires o.Valid() && ServerInv(o, s, fs) && !s.complete && Honest(s, m)
    ensures var r := OnRequest(o, s, m);
            ServerInv(o, r.0, fs) && ProperStep(o, s, r.0, r.1, fs)
  {
    match s.phase
    case Starved =>
    case Closed(_) =>
    case Serving => IdleRequestKeeps(o, s, fs, m);
    case _ => WaitingRequestKeeps(o, s, fs, m);
  }

  /** The acknowledgement that is due: the number of the first frame not yet
      acknowledged, eight bytes, the least significant first. */
  predicate DueAck(s: Server, payload: seq<u8>) {
    payload == LittleEndian(s.Acked(), 8)
  }

  /** A client's mistake, read off the request and the state: an acknowledgement
      other than the one due, anything but an acknowledgement while one is waited
      for or after the archive end, and any request that is neither. */
  function Mistake(s: Server, fs: seq<LogicalFrame>, m: Request): Option<ServeError> {
    match m
    case AckFrame(payload) =>
      if DueAck(s, payload) then None else if |payload| != 8 then Some(AckMalformed) else Some(AckOutOfOrder)
    case _ =>
      if !s.phase.Serving? then Some(WindowExpectsAck)
      else if s.nextSend == |fs| then Some(AfterEndRequest)
      else if m == OtherRequest then Some(UnexpectedRequest)
      else None
  }

  lemma DueExactly(s: Server, payload: seq<u8>)
    ensures ProcessAck(s, payload).AckTaken? <==> DueAck(s, payload)
    ensures ProcessAck(s, payload).AckError? ==>
              ProcessAck(s, payload).reason == if |payload| != 8 then AckMalformed else AckOutOfOrder
  {
    hide LittleEndian, FromLittleEndian;
    WordSizes();
    DecodeOfEncode(s.Acked(), 8);
    if |payload| == 8 {
      EncodeOfDecode(payload);
    }
  }

  /** Of the requests to a listening handler exactly a client's mistakes are answered
      by an error, each by its own; the connection then ends and nothing else
      changes. */
  lemma MistakesExactly(o: Options, s: Server, fs: seq<LogicalFrame>, m: Request, e: ServeError)
    requires o.Valid() && ServerInv(o, s, fs) && !s.complete && Honest(s, m)
    requires s.phase.Serving? || s.phase.Windowed? || s.phase.Finishing?
    ensures OnRequest(o, s, m).1 == [ErrorReply(e)] <==> Mistake(s, fs, m) == Some(e)
    ensures Mistake(s, fs, m).Some? ==>
              OnRequest(o, s, m) == (s.(phase := Closed(false)), [ErrorReply(Mistake(s, fs, m).value)])
  {
    hide ServerInv, ProperStep, ProcessAck, DueAck, Settle, Honest;
    if m.AckFrame? {
      DueExactly(s, m.payload);
    }
    if s.phase.Serving? {
      EndSentExactly(o, s, fs);
    }
    RequestKeeps(o, s, fs, m);
    ErrorIsFault(o, s, fs, m);
    SettleFaults(o, s.(phase := Windowed));
    if m.AckFrame? && ProcessAck(s, m.payload).AckTaken? {
      SettleFaults(o, ProcessAck(s, m.payload).next);
    }
  }

  lemma EndSentExactly(o: Options, s: Server, fs: seq<LogicalFrame>)
    requires o.Valid() && ServerInv(o, s, fs) && s.phase.Serving?
    ensures s.endSeq.Some? <==> s.nextSend == |fs|
  {
  }

  lemma ErrorIsFault(o: Options, s: Server, fs: seq<LogicalFrame>, m: Request)
    requires o.Valid() && ProperStep(o, s, OnRequest(o, s, m).0, OnRequest(o, s, m).1, fs)
    ensures var replies := OnRequest(o, s, m).1;
            |replies| == 1 && replies[0].ErrorReply? ==> ClientFault(replies[0].reason)
  {
    hide OnRequest;
  }

  /** Sending never blames the client. */
  lemma SettleFaults(o: Options, s: Server)
    requires o.Valid()
    ensures var replies := Settle(o, s).1;
            |replies| == 1 && replies[0].ErrorReply? ==> !ClientFault(replies[0].reason)
  {
    hide ParseHeader, PatchVolume, Finalize, GetRetained;
  }

  /** Connection boundaries keep the archive invariant. */
  lemma ReconnectKeeps(o: Options, s: Server, fs: seq<LogicalFrame>)
    requires o.Valid() && ArchiveInv(o, s, fs)
    ensures s.Acked() < |fs| ==> ServerInv(o, Connect(s), fs)
    ensures ServerInv(o, s, fs) && !s.complete ==> ArchiveInv(o, Disconnect(s), fs)
    ensures ServerInv(o, s, fs) && !s.complete && !Disconnect(s).complete ==> s.phase != Closed(true)
  {
  }
}
