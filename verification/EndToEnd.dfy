// From tapes back to bytes: exactly when a series of volumes can be read, and
// what comes out.
module EndToEnd {
  import opened Base
  import opened Format
  import opened Sealing
  import opened Validator
  import opened Grammar
  import opened Replays
  import opened Seeding
  import opened FrameBuilder
  import opened Producer
  import opened VolumeServer
  import opened Media
  import opened Transfer
  import opened Extractor

  // ------------------------------------------------------ what is on the tape

  ghost predicate SealedAs(o: Options, r: Record, f: LogicalFrame) {
    Sealable(f.header, f.body) && exists v: u64 :: r == SealedRecord(o, f, v)
  }

  ghost predicate AllSealedAs(o: Options, L: seq<Record>, fs: seq<LogicalFrame>) {
    |L| <= |fs| && forall i :: 0 <= i < |L| ==> SealedAs(o, L[i], fs[i])
  }

  /** The content stream of a sequence of frames. */
  function ContentOf(fs: seq<LogicalFrame>): seq<u8> {
    if fs == [] then []
    else ContentOf(fs[..|fs| - 1]) + if fs[|fs| - 1].header.channel.Content? then fs[|fs| - 1].Payload() else []
  }

  function MetadataOf(fs: seq<LogicalFrame>): seq<u8> {
    if fs == [] then []
    else MetadataOf(fs[..|fs| - 1]) + if fs[|fs| - 1].header.channel.Metadata? then fs[|fs| - 1].Payload() else []
  }

  /** The extractor has taken in exactly the frames that L carries. */
  ghost predicate Tracked(o: Options, e: Extract, L: seq<Record>, fs: seq<LogicalFrame>) {
    && AllSealedAs(o, L, fs)
    && Tracks(e.v, L) && e.v.history == HistoryOf(L)
    && e.output == ContentOf(fs[..|L|]) && e.metadata == MetadataOf(fs[..|L|])
    && e.processed == |L|
    && (e.sawEnd <==> |L| == |fs|)
  }

  lemma SealedFacts(o: Options, r: Record, f: LogicalFrame)
    requires SealedAs(o, r, f)
    ensures Carries(r, f) && r.frame.hashOk && r.H().global == f.header.global
    ensures forall v: u64 :: FrameHash(o.hash, SealFor(o, f, v), r.H().volume) == r.H().hash
  {
    var v: u64 :| r == SealedRecord(o, f, v);
    SealedArrives(o, f, v);
    forall w: u64 ensures FrameHash(o.hash, SealFor(o, f, w), r.H().volume) == r.H().hash {
      SealedForTwoVolumes(o.hash, o.signer, f.header, f.body, w, v);
    }
  }

  lemma {:induction false} RememberedAll(L: seq<Record>)
    requires forall i :: 0 <= i < |L| ==> L[i].frame.hashOk
    ensures |Remembered(L)| == |L|
  {
    if L != [] {
      RememberedAll(L[..|L| - 1]);
    }
  }

  lemma SealedComparable(o: Options, L: seq<Record>, fs: seq<LogicalFrame>, g: nat)
    requires AllSealedAs(o, L, fs) && g < |L|
    ensures Comparable(L, g) <==> |L| <= g + RETRY_HISTORY
  {
    forall i | 0 <= i < |L| ensures L[i].frame.hashOk {
      SealedFacts(o, L[i], fs[i]);
    }
    RememberedAll(L);
    RememberedAll(L[..g]);
  }

  lemma SealedGapless(o: Options, L: seq<Record>, fs: seq<LogicalFrame>)
    requires AllSealedAs(o, L, fs) && forall i :: 0 <= i < |fs| ==> fs[i].header.global == i
    ensures Gapless(L)
  {
    forall i | 0 <= i < |L| ensures L[i].H().global == i {
      SealedFacts(o, L[i], fs[i]);
    }
  }

  // -------------------------------------------------------- one record at a time

  predicate CursorAllows(v: State, g: nat) {
    v.replayNext.Some? ==> v.replayNext.value == g
  }

  /** An already known frame, on another volume: suppressed, exactly when it lies
      within the retry history and in order. */
  lemma ReplayStep(o: Options, e: Extract, L: seq<Record>, fs: seq<LogicalFrame>, g: nat, volume: u64)
    requires o.Valid() && Readable(o, fs) && Tracked(o, e, L, fs) && g < |L|
    ensures var step := OnRecord(o.hash, false, e, SealFor(o, fs[g], volume));
            && (step.Ok? <==> |L| <= g + RETRY_HISTORY && CursorAllows(e.v, g))
            && (step.Ok? ==> step.value == e.(v := e.v.(replayNext := if g + 1 < |L| then Some(g + 1) else None)))
  {
    hide Lawful, ArchiveOf, Tracks, Sealable, Carries, SealHeader, SealFor, Arrived, JudgeNew, HistoryOf, Comparable,
         Emit, Gapless;
    var r := SealedRecord(o, fs[g], volume);
    SealedArrives(o, fs[g], volume);
    SealedFacts(o, L[g], fs[g]);
    SealedComparable(o, L, fs, g);
    SealedGapless(o, L, fs);
    TracksCount(e.v, L);
    CheckReplayExact(o.hash, e.v, L, r);
    assert r.data == SealFor(o, fs[g], volume);
  }

  lemma SealedSnoc(o: Options, L: seq<Record>, fs: seq<LogicalFrame>, volume: u64)
    requires AllSealedAs(o, L, fs) && |L| < |fs| && AllSealable(fs)
    ensures AllSealedAs(o, L + [SealedRecord(o, fs[|L|], volume)], fs)
  {
    var r := SealedRecord(o, fs[|L|], volume);
    assert SealedAs(o, r, fs[|L|]);
  }

  lemma SealedCarry(o: Options, L: seq<Record>, fs: seq<LogicalFrame>)
    requires AllSealedAs(o, L, fs)
    ensures CarriesAll(L, fs[..|L|])
  {
    forall i | 0 <= i < |L| ensures Carries(L[i], fs[..|L|][i]) {
      SealedFacts(o, L[i], fs[i]);
    }
  }

  /** The validator's view of the next new frame. */
  lemma NewJudged(o: Options, v: State, L: seq<Record>, fs: seq<LogicalFrame>, volume: u64)
    requires o.Valid() && Readable(o, fs) && AllSealedAs(o, L, fs) && |L| < |fs|
    requires Tracks(v, L) && v.history == HistoryOf(L) && v.replayNext == None
    ensures var r := SealedRecord(o, fs[|L|], volume);
            && Judge(o.hash, v, r, r.IsMetadata()).Ok?
            && var w := Judge(o.hash, v, r, r.IsMetadata()).value;
               && !w.replay && Tracks(w.next, L + [r]) && w.next.history == HistoryOf(L + [r])
               && w.next.replayNext == None
  {
    hide Judge, JudgeNew, ArchiveGrammar, Tracks, Carries, Sealable, SealHeader, SealFor, HistoryOf, Remember, Lawful,
         ArchiveOf, CarriesAll;
    var r := SealedRecord(o, fs[|L|], volume);
    SealedArrives(o, fs[|L|], volume);
    SealedSnoc(o, L, fs, volume);
    SealedCarry(o, L, fs);
    SealedCarry(o, L + [r], fs);
    CarriedPrefix(o, fs, L, true);
    CarriedPrefix(o, fs, L + [r], true);
    TracksCount(v, L);
    JudgeNewExact(v, L, r, true);
    JudgeWithoutReplay(o.hash, v, r, r.IsMetadata());
    JudgeNewEffects(v, r, r.IsMetadata());
    HistorySnoc(L, r);
  }

  /** Taking a sealed frame's payload into the outputs. */
  lemma Emitted(o: Options, e: Extract, fs: seq<LogicalFrame>, n: nat, volume: u64)
    requires o.Valid() && Readable(o, fs) && n < |fs|
    requires e.output == ContentOf(fs[..n]) && e.metadata == MetadataOf(fs[..n]) && !e.sawEnd
    ensures var next := Emit(e, SealedRecord(o, fs[n], volume));
            && next.output == ContentOf(fs[..n + 1]) && next.metadata == MetadataOf(fs[..n + 1])
            && (next.sawEnd <==> n + 1 == |fs|) && next.v == e.v && next.processed == e.processed
  {
    hide Lawful, ArchiveOf, Sealable, SealedRecord, PayloadOf, ContentOf, MetadataOf;
    SealedPayload(o, fs[n], volume);
    StreamsSnoc(fs[..n], fs[n]);
    assert fs[..n + 1] == fs[..n] + [fs[n]];
  }

  lemma SealedPayload(o: Options, f: LogicalFrame, volume: u64)
    requires Sealable(f.header, f.body)
    ensures var r := SealedRecord(o, f, volume);
            r.H().channel == f.header.channel && r.frame.hashOk && PayloadOf(r) == f.Payload()
  {
    hide Sealable;
    assert SealedRecord(o, f, volume).data[HEADER_SIZE..] == f.body;
  }

  lemma StreamsSnoc(M: seq<LogicalFrame>, f: LogicalFrame)
    ensures ContentOf(M + [f]) == ContentOf(M) + if f.header.channel.Content? then f.Payload() else []
    ensures MetadataOf(M + [f]) == MetadataOf(M) + if f.header.channel.Metadata? then f.Payload() else []
  {
    assert (M + [f])[..|M|] == M;
  }

  /** The next new frame is accepted and its payload written. */
  lemma NewStep(o: Options, e: Extract, L: seq<Record>, fs: seq<LogicalFrame>, volume: u64)
    requires o.Valid() && Readable(o, fs) && Tracked(o, e, L, fs) && |L| < |fs| && e.v.replayNext == None
    ensures var step := OnRecord(o.hash, false, e, SealFor(o, fs[|L|], volume));
            && step.Ok? && Tracked(o, step.value, L + [SealedRecord(o, fs[|L|], volume)], fs)
            && step.value.v.replayNext == None
  {
    hide Judge, Tracks, HistoryOf, Readable, SealedRecord, SealFor, Arrived, ContentOf, MetadataOf, AllSealedAs, Emit;
    Sealables(o, fs, |L|);
    var r := SealedRecord(o, fs[|L|], volume);
    SealedArrives(o, fs[|L|], volume);
    NewJudged(o, e.v, L, fs, volume);
    SealedSnoc(o, L, fs, volume);
    var w := Judge(o.hash, e.v, r, r.IsMetadata()).value;
    Emitted(o, e.(v := w.next, processed := e.processed + 1), fs, |L|, volume);
  }

  lemma Sealables(o: Options, fs: seq<LogicalFrame>, n: nat)
    requires o.Valid() && Readable(o, fs) && n < |fs|
    ensures AllSealable(fs) && Sealable(fs[n].header, fs[n].body) && fs[n].header.global == n && |fs| < TWO_64
  {
  }

  /** A frame beyond the next one is refused. */
  lemma JumpStep(o: Options, e: Extract, L: seq<Record>, fs: seq<LogicalFrame>, g: nat, volume: u64)
    requires o.Valid() && Readable(o, fs) && Tracked(o, e, L, fs) && |L| < g < |fs|
    ensures OnRecord(o.hash, false, e, SealFor(o, fs[g], volume)).Err?
  {
    hide Lawful, ArchiveOf, Tracks, Sealable, Carries, SealHeader, SealFor, Arrived, HistoryOf, Emit,
         EnterSlice, EnterChannel;
    SealedArrives(o, fs[g], volume);
    TracksCount(e.v, L);
  }

  // --------------------------------------------------------- one volume at a time

  function Max(a: nat, b: nat): nat { if a < b then b else a }

  /** How far the frames are known after a volume that holds n from `first` on. */
  function FarAfter(far: nat, first: nat, n: nat): nat {
    if n == 0 then far else Max(far, first + n)
  }

  /** The volume continues what is known, reaching back no further than the history. */
  predicate Reaches(far: nat, first: nat, n: nat) {
    n == 0 || first <= far <= first + RETRY_HISTORY
  }

  ghost predicate ReadTo(o: Options, step: Result<Extract, ReadError>, M: seq<Record>, fs: seq<LogicalFrame>,
                         far: nat, first: nat, n: nat) {
    && (step.Ok? <==> Reaches(far, first, n))
    && (step.Ok? ==>
          && Tracked(o, step.value, M, fs) && |M| == FarAfter(far, first, n)
          && step.value.v.replayNext == if n > 0 && first + n < far then Some(first + n) else None)
  }

  /** One more record of the volume. */
  lemma ReadNext(o: Options, e: Extract, L: seq<Record>, u: Extract, M: seq<Record>, fs: seq<LogicalFrame>,
                 number: u64, first: nat, n: nat)
    returns (N: seq<Record>)
    requires o.Valid() && Readable(o, fs) && |L| < |fs| && first + n < |fs|
    requires ReadTo(o, Ok(u), M, fs, |L|, first, n)
    ensures !u.sawEnd
    ensures ReadTo(o, OnRecord(o.hash, false, u, SealFor(o, fs[first + n], number)), N, fs, |L|, first, n + 1)
  {
    hide OnRecord, Readable, Tracks, HistoryOf, ContentOf, MetadataOf, AllSealedAs, SealFor, SealedRecord;
    var g := first + n;
    N := M;
    Sealables(o, fs, g);
    if g < |M| {
      ReplayStep(o, u, M, fs, g, number);
      ReplayKeepsTracked(o, u, M, fs, if g + 1 < |M| then Some(g + 1) else None);
    } else if g == |M| {
      N := M + [SealedRecord(o, fs[g], number)];
      NewStep(o, u, M, fs, number);
    } else {
      JumpStep(o, u, M, fs, g, number);
    }
  }

  lemma ReplayKeepsTracked(o: Options, e: Extract, L: seq<Record>, fs: seq<LogicalFrame>, cursor: Option<u64>)
    requires Tracked(o, e, L, fs)
    ensures Tracked(o, e.(v := e.v.(replayNext := cursor)), L, fs)
  {
    hide ContentOf, MetadataOf, HistoryOf, AllSealedAs;
    TracksIgnoresReplays(e.v, L, cursor);
  }

  lemma {:induction false} ReadPart(o: Options, e: Extract, L: seq<Record>, fs: seq<LogicalFrame>, number: u64,
                                    first: nat, records: seq<seq<u8>>)
    returns (M: seq<Record>)
    requires o.Valid() && Readable(o, fs) && Tracked(o, e, L, fs) && |L| < |fs| && e.v.replayNext == None
    requires SealedRun(o, fs, number, first, records)
    ensures ReadTo(o, ReadRecords(o.hash, false, e, records), M, fs, |L|, first, |records|)
    decreases |records|
  {
    hide OnRecord, Readable, Tracked, SealFor;
    if records == [] {
      M := L;
    } else {
      var n := |records| - 1;
      var before := ReadPart(o, e, L, fs, number, first, records[..n]);
      var step := ReadRecords(o.hash, false, e, records[..n]);
      M := before;
      if step.Ok? {
        M := ReadNext(o, e, L, step.value, before, fs, number, first, n);
      }
    }
  }

  // ------------------------------------------------------ the series of volumes

  ghost predicate AllRuns(o: Options, vs: seq<Volume>, fs: seq<LogicalFrame>) {
    forall i :: 0 <= i < |vs| ==> SealedRun(o, fs, vs[i].number, vs[i].first, vs[i].records)
  }

  function Tapes(vs: seq<Volume>): (t: seq<seq<seq<u8>>>)
    ensures |t| == |vs| && forall i :: 0 <= i < |vs| ==> t[i] == vs[i].records
  {
    seq(|vs|, i requires 0 <= i < |vs| => vs[i].records)
  }

  /** The first frame that none of the volumes holds. */
  function Far(vs: seq<Volume>): nat {
    if vs == [] then 0 else FarAfter(Far(vs[..|vs| - 1]), vs[|vs| - 1].first, |vs[|vs| - 1].records|)
  }

  /** Until the archive is complete, every volume that holds anything begins at or
      before the first missing frame, and at most 8192 frames before it. */
  predicate InReach(vs: seq<Volume>, total: nat) {
    vs == []
    || (InReach(vs[..|vs| - 1], total)
        && (Far(vs[..|vs| - 1]) == total
            || Reaches(Far(vs[..|vs| - 1]), vs[|vs| - 1].first, |vs[|vs| - 1].records|)))
  }

  lemma {:induction false} FarBounded(o: Options, vs: seq<Volume>, fs: seq<LogicalFrame>)
    requires AllRuns(o, vs, fs)
    ensures Far(vs) <= |fs|
  {
    hide SealFor;
    if vs != [] {
      FarBounded(o, vs[..|vs| - 1], fs);
    }
  }

  lemma Forget(o: Options, e: Extract, L: seq<Record>, fs: seq<LogicalFrame>)
    requires Tracked(o, e, L, fs)
    ensures Tracked(o, e.(v := BeginConnection(e.v)), L, fs) && BeginConnection(e.v).replayNext == None
  {
    hide Tracked;
    ReplayKeepsTracked(o, e, L, fs, None);
  }

  lemma StartsEmpty(o: Options, fs: seq<LogicalFrame>)
    requires 0 < |fs|
    ensures Tracked(o, Empty, [], fs)
  {
  }

  /** The main theorem about reading. Restoring from a series of volumes is
      accepted exactly when each volume continues or overlaps what came before,
      reaching back at most the retry history; the output is then the content of
      precisely the frames that are known. */
  lemma {:induction false} ReadsExactly(o: Options, vs: seq<Volume>, fs: seq<LogicalFrame>) returns (M: seq<Record>)
    requires o.Valid() && Readable(o, fs) && AllRuns(o, vs, fs)
    ensures ReadAll(o.hash, false, Tapes(vs)).Ok? <==> InReach(vs, |fs|)
    ensures ReadAll(o.hash, false, Tapes(vs)).Ok? ==>
              Tracked(o, ReadAll(o.hash, false, Tapes(vs)).value, M, fs) && |M| == Far(vs)
  {
    hide ReadRecords, Readable, Tracked, SealedRun;
    NotEmpty(o, fs);
    FarBounded(o, vs, fs);
    if vs == [] {
      M := [];
      StartsEmpty(o, fs);
    } else {
      var n := |vs| - 1;
      var rest := vs[..n];
      assert Tapes(vs)[..n] == Tapes(rest);
      M := ReadsExactly(o, rest, fs);
      FarBounded(o, rest, fs);
      var before := ReadAll(o.hash, false, Tapes(rest));
      if before.Ok? {
        EndsWhenKnown(o, before.value, M, fs);
        if !before.value.sawEnd {
          Forget(o, before.value, M, fs);
          M := ReadPart(o, before.value.(v := BeginConnection(before.value.v)), M, fs, vs[n].number, vs[n].first,
                        vs[n].records);
        }
      }
    }
  }

  lemma NotEmpty(o: Options, fs: seq<LogicalFrame>)
    requires o.Valid() && Readable(o, fs)
    ensures 0 < |fs|
  {
  }

  lemma EndsWhenKnown(o: Options, e: Extract, L: seq<Record>, fs: seq<LogicalFrame>)
    requires Tracked(o, e, L, fs)
    ensures |L| <= |fs| && (e.sawEnd <==> |L| == |fs|)
  {
  }
}
