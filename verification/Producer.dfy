// What the archiver's producer puts on the frame queue, and when a fresh
// validator accepts it.
module Producer {
  import opened Base
  import opened Format
  import opened Sealing
  import opened Validator
  import opened Grammar
  import opened Seeding
  import opened FrameBuilder

  // ------------------------------------------------------- the frame sequence

  function TotalBytes(slices: seq<seq<u8>>): nat
    decreases |slices|
  {
    if slices == [] then 0 else |slices[0]| + TotalBytes(slices[1..])
  }

  /** Every number the archive needs stays below 2^64 - 1. */
  predicate InRange(catalog: seq<u8>, slices: seq<seq<u8>>) {
    |catalog| + TotalBytes(slices) + |slices| + 2 < TWO_64
  }

  function RunAt(id: Identity, slice: nat, channel: ChannelType, global: nat, content: seq<u8>): seq<LogicalFrame>
    requires id.Valid() && slice < TWO_64 && global < TWO_64
  {
    RunFrames(id, Cursor(slice, channel, global, 0), content)
  }

  lemma RunLength(id: Identity, slice: nat, channel: ChannelType, global: nat, content: seq<u8>)
    requires id.Valid() && slice < TWO_64 && global + |content| < TWO_64 && !channel.ArchiveEnd?
    ensures |RunAt(id, slice, channel, global, content)| <= |content|
    ensures RunAt(id, slice, channel, global, content) == [] <==> content == []
  {
    RunIsWellFormed(id, Cursor(slice, channel, global, 0), content);
  }

  function SliceFrames(id: Identity, slices: seq<seq<u8>>, slice: nat, global: nat): (r: seq<LogicalFrame>)
    requires id.Valid() && slice + |slices| < TWO_64 && global + TotalBytes(slices) < TWO_64
    ensures |r| <= TotalBytes(slices)
    decreases |slices|
  {
    if slices == [] then []
    else
      RunLength(id, slice, Content, global, slices[0]);
      var run := RunAt(id, slice, Content, global, slices[0]);
      run + SliceFrames(id, slices[1..], slice + 1, global + |run|)
  }

  const END_FLAGS: u64 := 0x8000_0000_0000_0001

  function EndFrame(id: Identity, global: u64): LogicalFrame
    requires id.Valid()
  {
    LogicalFrame(
      FrameHeader(ArchiveEnd, id.blockKib, id.uuid, id.archiveLabel, 0, global, 0, 0, 0, END_FLAGS,
                  Zeros(128), Zeros(72), Zeros(32)),
      Zeros(id.Capacity()))
  }

  lemma EndFrameIsSealable(id: Identity, global: u64)
    requires id.Valid()
    ensures Sealable(EndFrame(id, global).header, EndFrame(id, global).body)
    ensures HasEnd(END_FLAGS) && EndFrame(id, global).Payload() == []
  {
    FlagBits(END_FLAGS, 1, 0, 1);
  }

  /** Catalog bytes as the leading metadata run of slice 0, then each slice's
      content, without the archive end. */
  function BodyFrames(id: Identity, catalog: seq<u8>, slices: seq<seq<u8>>): (r: seq<LogicalFrame>)
    requires id.Valid() && InRange(catalog, slices)
    ensures |r| <= |catalog| + TotalBytes(slices)
  {
    RunLength(id, 0, Metadata, 0, catalog);
    var run := RunAt(id, 0, Metadata, 0, catalog);
    run + SliceFrames(id, slices, 0, |run|)
  }

  function ArchiveFrames(id: Identity, catalog: seq<u8>, slices: seq<seq<u8>>): seq<LogicalFrame>
    requires id.Valid() && InRange(catalog, slices)
  {
    var body := BodyFrames(id, catalog, slices);
    body + [EndFrame(id, |body|)]
  }

  // ------------------------------------------------------------- queue items

  /** An element of the frame queue. */
  datatype VolumeRecord = Frame(record: seq<u8>, global: u64) | TapeEof | Done(global: u64)

  function FrameItems(frames: seq<LogicalFrame>): (r: seq<VolumeRecord>)
    ensures |r| == |frames|
    ensures forall i :: 0 <= i < |r| ==> r[i] == Frame(frames[i].Record(), frames[i].header.global)
  {
    seq(|frames|, i requires 0 <= i < |frames| => Frame(frames[i].Record(), frames[i].header.global))
  }

  function SliceItems(id: Identity, slices: seq<seq<u8>>, slice: nat, global: nat): seq<VolumeRecord>
    requires id.Valid() && slice + |slices| < TWO_64 && global + TotalBytes(slices) < TWO_64
    decreases |slices|
  {
    if slices == [] then []
    else
      RunLength(id, slice, Content, global, slices[0]);
      var run := RunAt(id, slice, Content, global, slices[0]);
      FrameItems(run) + [TapeEof] + SliceItems(id, slices[1..], slice + 1, global + |run|)
  }

  /** Everything the producer pushes: frames, an end-of-file mark per slice, and
      the final marker carrying the next global number. */
  function ProducerItems(id: Identity, catalog: seq<u8>, slices: seq<seq<u8>>): seq<VolumeRecord>
    requires id.Valid() && InRange(catalog, slices)
  {
    RunLength(id, 0, Metadata, 0, catalog);
    var run := RunAt(id, 0, Metadata, 0, catalog);
    var items := FrameItems(run) + SliceItems(id, slices, 0, |run|);
    items + [Done(|BodyFrames(id, catalog, slices)|)]
  }

  // ------------------------------------------------------- acceptance, exactly

  /** The record carries the logical frame, however it was sealed. */
  ghost predicate Carries(r: Record, f: LogicalFrame) {
    && r.frame.sizeOk && r.frame.hashOk
    && r.H() == f.header.(volume := r.H().volume, flags := r.H().flags, signature := r.H().signature,
                          hash := r.H().hash)
    && HasEnd(r.H().flags) == HasEnd(f.header.flags)
  }

  ghost predicate CarriesAll(rs: seq<Record>, fs: seq<LogicalFrame>) {
    |rs| == |fs| && forall i :: 0 <= i < |rs| ==> Carries(rs[i], fs[i])
  }

  ghost predicate IdentityReady(v: State, id: Identity) {
    && (v.block == 0 || v.block == id.blockKib * 1024)
    && (v.uuid == [] || (v.uuid == id.uuid && v.archiveLabel == id.archiveLabel))
  }

  /** Between two runs: nothing is open. `last` is the current slice, if any frame
      was seen; `untouched` says its content channel has not started. */
  ghost predicate Quiet(v: State, id: Identity, global: nat, last: Option<nat>, untouched: bool) {
    && !v.sawEnd && !v.seeded && v.replayNext == None && v.expected == global
    && IdentityReady(v, id)
    && v.sawAny == last.Some?
    && (last.Some? ==> v.slice == last.value)
    && AllSeenEnded(v)
    && v.unknown == Both(false)
    && (last.None? || untouched ==> !v.ended.content && v.nextSeq.content == 0)
    && (last.None? ==> !v.ended.metadata && v.nextSeq.metadata == 0)
  }

  /** Quiet, whatever slice is current: the archive may end here. */
  ghost predicate Settled(v: State, id: Identity, global: nat) {
    && !v.sawEnd && !v.seeded && v.replayNext == None && v.expected == global
    && IdentityReady(v, id) && AllSeenEnded(v)
  }

  lemma QuietIsSettled(v: State, id: Identity, global: nat, last: Option<nat>, untouched: bool)
    requires Quiet(v, id, global, last, untouched)
    ensures Settled(v, id, global)
  {
  }

  /** Inside a run of channel c: the next frame of the run is due. */
  ghost predicate InRun(v: State, id: Identity, at: Cursor) {
    && !at.channel.ArchiveEnd?
    && !v.sawEnd && !v.seeded && v.replayNext == None && v.expected == at.global
    && IdentityReady(v, id)
    && v.sawAny && v.slice == at.slice
    && v.unknown == Both(false)
    && !v.ended.Get(at.channel) && v.nextSeq.Get(at.channel) == at.channelSeq
    && OtherClosed(v, at.channel)
  }

  ghost predicate OtherClosed(v: State, c: ChannelType) {
    && (c.Content? ==> v.seen.metadata ==> v.ended.metadata)
    && (c.Metadata? ==> !v.seen.content && !v.ended.content && v.nextSeq.content == 0)
  }

  /** Entering a slice from a quiet state succeeds exactly on the current or the
      next slice (slice 0 at the start). */
  predicate MayOpen(last: Option<nat>, untouched: bool, slice: nat) {
    match last
    case None => slice == 0
    case Some(s) => slice == s + 1 || (slice == s && untouched)
  }

  lemma {:induction false} FeedAppend(hash: Hasher, v: State, A: seq<Record>, B: seq<Record>, restore: bool)
    ensures FeedFrom(hash, v, A + B, restore) ==
              if FeedFrom(hash, v, A, restore).Ok? then FeedFrom(hash, FeedFrom(hash, v, A, restore).value, B, restore)
              else FeedFrom(hash, v, A, restore)
    decreases |B|
  {
    hide Judge;
    if B == [] {
      assert A + B == A;
    } else {
      assert (A + B)[..|A + B| - 1] == A + B[..|B| - 1];
      FeedAppend(hash, v, A, B[..|B| - 1], restore);
    }
  }

  lemma FeedOne(hash: Hasher, v: State, r: Record, restore: bool)
    requires v.replayNext == None && r.H().global >= v.expected
    ensures FeedFrom(hash, v, [r], restore) == JudgeNew(v, r, restore && r.IsMetadata())
  {
    assert [r][..0] == [];
    JudgeWithoutReplay(hash, v, r, restore && r.IsMetadata());
  }

  lemma RunStep(id: Identity, v: State, at: Cursor, r: Record, f: LogicalFrame, allow: bool)
    requires id.Valid() && InRun(v, id, at) && Carries(r, f)
    requires f.header.channel == at.channel && f.header.slice == at.slice
    requires f.header.global == at.global && f.header.channelSeq == at.channelSeq
    requires f.header.blockKib == id.blockKib && f.header.uuid == id.uuid && f.header.archiveLabel == id.archiveLabel
    requires at.global + 1 < TWO_64 && at.channelSeq + 1 < TWO_64
    ensures JudgeNew(v, r, allow).Ok?
    ensures var w := JudgeNew(v, r, allow).value;
            if HasEnd(f.header.flags)
            then Quiet(w, id, at.global + 1, Some(at.slice), at.channel.Metadata?)
            else InRun(w, id, at.Next())
  {
  }

  /** Opening a run from a quiet state. */
  lemma RunOpens(id: Identity, v: State, last: Option<nat>, untouched: bool, at: Cursor, r: Record, allow: bool)
    requires id.Valid() && Quiet(v, id, at.global, last, untouched)
    requires at.channelSeq == 0 && at.slice + 1 < TWO_64
    requires last.Some? ==> last.value < TWO_64 - 1 && last.value <= at.slice
    requires at.channel.Content? || (at.channel.Metadata? && last.None?)
    requires last.Some? && last.value == at.slice ==> untouched
    requires r.frame.sizeOk && r.frame.hashOk
    requires r.H().channel == at.channel && r.H().slice == at.slice && r.H().global == at.global
    requires DecodedBlockSize(r.H()) == id.blockKib * 1024
    requires r.H().uuid == id.uuid && r.H().archiveLabel == id.archiveLabel
    ensures EnterSlice(v, r.H()).Ok? <==> MayOpen(last, untouched, at.slice)
    ensures !MayOpen(last, untouched, at.slice) ==> JudgeNew(v, r, allow).Err?
    ensures MayOpen(last, untouched, at.slice) ==>
              InRun(EnterSlice(v, r.H()).value, id, at)
              && JudgeNew(v, r, allow) == JudgeNew(EnterSlice(v, r.H()).value, r, allow)
  {
  }

  lemma FeedCons(hash: Hasher, v: State, rs: seq<Record>, restore: bool)
    requires rs != [] && v.replayNext == None && rs[0].H().global >= v.expected
    ensures var j := JudgeNew(v, rs[0], restore && rs[0].IsMetadata());
            FeedFrom(hash, v, rs, restore) == if j.Ok? then FeedFrom(hash, j.value, rs[1..], restore) else j
  {
    hide Judge, JudgeNew;
    assert rs == [rs[0]] + rs[1..];
    FeedAppend(hash, v, [rs[0]], rs[1..], restore);
    FeedOne(hash, v, rs[0], restore);
  }

  lemma RunHead(id: Identity, at: Cursor, content: seq<u8>)
    requires id.Valid() && content != []
    ensures var f := RunFrames(id, at, content)[0];
            && f.header.channel == at.channel && f.header.slice == at.slice
            && f.header.global == at.global && f.header.channelSeq == at.channelSeq
            && f.header.blockKib == id.blockKib && f.header.uuid == id.uuid
            && f.header.archiveLabel == id.archiveLabel
            && HasEnd(f.header.flags) == (|content| <= id.Capacity())
    ensures RunFrames(id, at, content)[1..] ==
              if |content| <= id.Capacity() then [] else RunFrames(id, at.Next(), content[id.Capacity()..])
  {
  }

  /** A run that has been opened is accepted to its END. */
  lemma {:induction false} RunAccepted(
      hash: Hasher, id: Identity, v: State, at: Cursor, content: seq<u8>, rs: seq<Record>, restore: bool)
    requires id.Valid() && InRun(v, id, at) && content != []
    requires CarriesAll(rs, RunFrames(id, at, content))
    requires at.global + |content| < TWO_64 && at.channelSeq + |content| < TWO_64
    ensures FeedFrom(hash, v, rs, restore).Ok?
    ensures Quiet(FeedFrom(hash, v, rs, restore).value, id, at.global + |rs|, Some(at.slice), at.channel.Metadata?)
    decreases |content|
  {
    hide Judge, JudgeNew, Quiet, RunFrames, FeedFrom, Payloads, Sealable, HasEnd, IdentityReady;
    var fs := RunFrames(id, at, content);
    RunIsWellFormed(id, at, content);
    RunHead(id, at, content);
    assert Carries(rs[0], fs[0]);
    FeedCons(hash, v, rs, restore);
    RunStep(id, v, at, rs[0], fs[0], restore && rs[0].IsMetadata());
    var u := JudgeNew(v, rs[0], restore && rs[0].IsMetadata()).value;
    if |content| <= id.Capacity() {
      assert |fs| == 1 && rs[1..] == [];
      FeedEmpty(hash, u, restore);
    } else {
      var rest := content[id.Capacity()..];
      assert CarriesAll(rs[1..], RunFrames(id, at.Next(), rest)) by {
        forall i | 0 <= i < |rs| - 1 ensures Carries(rs[1..][i], fs[1..][i]) {
          assert Carries(rs[i + 1], fs[i + 1]);
        }
      }
      RunAccepted(hash, id, u, at.Next(), rest, rs[1..], restore);
    }
  }

  /** A whole run from a quiet state is accepted exactly when its slice may open. */
  lemma RunFromQuiet(
      hash: Hasher, id: Identity, v: State, last: Option<nat>, untouched: bool, at: Cursor, content: seq<u8>,
      rs: seq<Record>, restore: bool)
    requires id.Valid() && Quiet(v, id, at.global, last, untouched) && content != []
    requires at.channelSeq == 0 && at.slice + 1 < TWO_64 && at.global + |content| < TWO_64
    requires last.Some? ==> last.value < TWO_64 - 1 && last.value <= at.slice
    requires at.channel.Content? || (at.channel.Metadata? && last.None?)
    requires last.Some? && last.value == at.slice ==> untouched
    requires CarriesAll(rs, RunFrames(id, at, content))
    ensures FeedFrom(hash, v, rs, restore).Ok? <==> MayOpen(last, untouched, at.slice)
    ensures MayOpen(last, untouched, at.slice) ==>
              Quiet(FeedFrom(hash, v, rs, restore).value, id, at.global + |rs|, Some(at.slice), at.channel.Metadata?)
  {
    RunIsWellFormed(id, at, content);
    RunHead(id, at, content);
    assert Carries(rs[0], RunFrames(id, at, content)[0]);
    hide Judge, JudgeNew, EnterSlice, RunFrames;
    FeedCons(hash, v, rs, restore);
    RunOpens(id, v, last, untouched, at, rs[0], restore && rs[0].IsMetadata());
    if MayOpen(last, untouched, at.slice) {
      var e := EnterSlice(v, rs[0].H()).value;
      FeedCons(hash, e, rs, restore);
      RunAccepted(hash, id, e, at, content, rs, restore);
    }
  }

  /** Every non-empty slice directly continues what came before. */
  predicate NoGapFrom(last: Option<nat>, untouched: bool, slice: nat, slices: seq<seq<u8>>)
    decreases |slices|
  {
    slices == []
    || (slices[0] == [] && NoGapFrom(last, untouched, slice + 1, slices[1..]))
    || (slices[0] != [] && MayOpen(last, untouched, slice) && NoGapFrom(Some(slice), false, slice + 1, slices[1..]))
  }

  lemma FeedEmpty(hash: Hasher, v: State, restore: bool)
    ensures FeedFrom(hash, v, [], restore) == Ok(v)
  {
  }

  ghost predicate SlicesOutcome(
      r: Result<State, Fault>, id: Identity, last: Option<nat>, untouched: bool, slices: seq<seq<u8>>, slice: nat,
      global: nat)
  {
    && (r.Ok? <==> NoGapFrom(last, untouched, slice, slices))
    && (r.Ok? ==> Settled(r.value, id, global))
  }

  lemma {:induction false} SlicesAccepted(
      hash: Hasher, id: Identity, v: State, last: Option<nat>, untouched: bool, slices: seq<seq<u8>>, slice: nat,
      global: nat, rs: seq<Record>, restore: bool)
    requires id.Valid() && Quiet(v, id, global, last, untouched)
    requires slice + |slices| < TWO_64 && global + TotalBytes(slices) < TWO_64
    requires last.Some? ==> last.value <= slice && (last.value == slice ==> untouched)
    requires CarriesAll(rs, SliceFrames(id, slices, slice, global))
    ensures SlicesOutcome(FeedFrom(hash, v, rs, restore), id, last, untouched, slices, slice, global + |rs|)
    decreases |slices|
  {
    hide Quiet, Settled, RunFrames, Carries, FeedFrom, SliceFrames, MayOpen, SlicesOutcome;
    if slices == [] {
      NoSlicesLeft(hash, id, v, last, untouched, slice, global, rs, restore);
    } else {
      FramesOfSlices(id, slices, slice, global);
      var run := RunAt(id, slice, Content, global, slices[0]);
      var n := |run|;
      SplitCarries(rs, run, SliceFrames(id, slices[1..], slice + 1, global + n));
      assert rs == rs[..n] + rs[n..];
      FeedAppend(hash, v, rs[..n], rs[n..], restore);
      var r := FeedFrom(hash, v, rs, restore);
      OutcomeAfter(r, id, last, untouched, slices, slice, global + |rs|);
      if slices[0] == [] {
        NoRun(id, slice, global);
        assert rs[n..] == rs;
        SlicesAccepted(hash, id, v, last, untouched, slices[1..], slice + 1, global, rs, restore);
      } else {
        RunFromQuiet(hash, id, v, last, untouched, Cursor(slice, Content, global, 0), slices[0], rs[..n], restore);
        if MayOpen(last, untouched, slice) {
          var u := FeedFrom(hash, v, rs[..n], restore).value;
          SlicesAccepted(hash, id, u, Some(slice), false, slices[1..], slice + 1, global + n, rs[n..], restore);
        }
      }
    }
  }

  lemma NoRun(id: Identity, slice: nat, global: nat)
    requires id.Valid() && slice < TWO_64 && global < TWO_64
    ensures RunAt(id, slice, Content, global, []) == []
  {
  }

  lemma NoSlicesLeft(hash: Hasher, id: Identity, v: State, last: Option<nat>, untouched: bool, slice: nat,
                     global: nat, rs: seq<Record>, restore: bool)
    requires id.Valid() && Quiet(v, id, global, last, untouched) && slice < TWO_64 && global < TWO_64
    requires CarriesAll(rs, SliceFrames(id, [], slice, global))
    ensures SlicesOutcome(FeedFrom(hash, v, rs, restore), id, last, untouched, [], slice, global + |rs|)
  {
    hide Quiet, Settled, FeedFrom;
    QuietIsSettled(v, id, global, last, untouched);
    FeedEmpty(hash, v, restore);
    assert rs == [];
  }

  lemma FramesOfSlices(id: Identity, slices: seq<seq<u8>>, slice: nat, global: nat)
    requires id.Valid() && slices != []
    requires slice + |slices| < TWO_64 && global + TotalBytes(slices) < TWO_64
    ensures var run := RunAt(id, slice, Content, global, slices[0]);
            && global + |run| + TotalBytes(slices[1..]) < TWO_64
            && SliceFrames(id, slices, slice, global) == run + SliceFrames(id, slices[1..], slice + 1, global + |run|)
  {
    RunLength(id, slice, Content, global, slices[0]);
  }

  /** One slice more at the front changes the outcome only by what it may do itself. */
  lemma OutcomeAfter(r: Result<State, Fault>, id: Identity, last: Option<nat>, untouched: bool,
                     slices: seq<seq<u8>>, slice: nat, global: nat)
    requires slices != []
    ensures slices[0] == [] && SlicesOutcome(r, id, last, untouched, slices[1..], slice + 1, global) ==>
              SlicesOutcome(r, id, last, untouched, slices, slice, global)
    ensures slices[0] != [] && MayOpen(last, untouched, slice)
            && SlicesOutcome(r, id, Some(slice), false, slices[1..], slice + 1, global) ==>
              SlicesOutcome(r, id, last, untouched, slices, slice, global)
    ensures slices[0] != [] && !MayOpen(last, untouched, slice) && r.Err? ==>
              SlicesOutcome(r, id, last, untouched, slices, slice, global)
  {
    hide Settled;
  }

  lemma SplitCarries(rs: seq<Record>, A: seq<LogicalFrame>, B: seq<LogicalFrame>)
    requires CarriesAll(rs, A + B)
    ensures CarriesAll(rs[..|A|], A) && CarriesAll(rs[|A|..], B)
  {
    forall i | 0 <= i < |A| ensures Carries(rs[..|A|][i], A[i]) {
      assert Carries(rs[i], (A + B)[i]);
    }
    forall i | 0 <= i < |B| ensures Carries(rs[|A|..][i], B[i]) {
      assert Carries(rs[|A| + i], (A + B)[|A| + i]);
    }
  }

  /** No slice without content comes before one with content; for slice 1 the
      catalog in slice 0 also counts as content. */
  ghost predicate NoEmptySliceInside(catalog: seq<u8>, slices: seq<seq<u8>>) {
    forall i :: 0 < i < |slices| && slices[i] != [] ==> slices[i - 1] != [] || (i == 1 && catalog != [])
  }

  lemma {:induction false} NoGapIs(last: Option<nat>, untouched: bool, slice: nat, slices: seq<seq<u8>>)
    requires last.Some? ==> last.value <= slice && (last.value == slice ==> untouched)
    requires slice == 0 ==> last.None? || last == Some(0)
    ensures NoGapFrom(last, untouched, slice, slices) <==>
              && (|slices| > 0 && slices[0] != [] ==> MayOpen(last, untouched, slice))
              && forall i :: 0 < i < |slices| && slices[i] != [] ==>
                   slices[i - 1] != [] || (i == 1 && last == Some(slice))
    decreases |slices|
  {
    if slices != [] {
      var rest := slices[1..];
      var l, t := if slices[0] == [] then last else Some(slice), if slices[0] == [] then untouched else false;
      NoGapIs(l, t, slice + 1, rest);
      assert forall i :: 0 < i < |slices| ==> slices[i] == rest[i - 1];
      assert MayOpen(l, t, slice + 1) <==> slices[0] != [] || last == Some(slice);
    }
  }

  /** The archive end closes a settled archive. */
  lemma EndAccepted(id: Identity, v: State, r: Record, f: LogicalFrame, allow: bool)
    requires id.Valid() && Settled(v, id, f.header.global)
    requires f == EndFrame(id, f.header.global) && Carries(r, f)
    ensures JudgeNew(v, r, allow).Ok?
  {
  }

  lemma CatalogAccepted(hash: Hasher, id: Identity, catalog: seq<u8>, rs: seq<Record>, restore: bool)
    requires id.Valid() && |catalog| + 1 < TWO_64
    requires CarriesAll(rs, RunAt(id, 0, Metadata, 0, catalog))
    ensures FeedFrom(hash, Fresh, rs, restore).Ok?
    ensures Quiet(FeedFrom(hash, Fresh, rs, restore).value, id, |rs|,
                  if catalog == [] then None else Some(0), catalog != [])
  {
    if catalog == [] {
      assert rs == [];
    } else {
      RunFromQuiet(hash, id, Fresh, None, false, Cursor(0, Metadata, 0, 0), catalog, rs, restore);
    }
  }

  lemma BodyAccepted(
      hash: Hasher, id: Identity, catalog: seq<u8>, slices: seq<seq<u8>>, rs: seq<Record>, restore: bool)
    requires id.Valid() && InRange(catalog, slices)
    requires CarriesAll(rs, BodyFrames(id, catalog, slices))
    ensures FeedFrom(hash, Fresh, rs, restore).Ok? <==> NoEmptySliceInside(catalog, slices)
    ensures FeedFrom(hash, Fresh, rs, restore).Ok? ==> Settled(FeedFrom(hash, Fresh, rs, restore).value, id, |rs|)
  {
    hide Quiet, Settled, RunFrames, Carries, FeedFrom;
    RunLength(id, 0, Metadata, 0, catalog);
    var run := RunAt(id, 0, Metadata, 0, catalog);
    var n := |run|;
    SplitCarries(rs, run, SliceFrames(id, slices, 0, n));
    assert rs == rs[..n] + rs[n..];
    FeedAppend(hash, Fresh, rs[..n], rs[n..], restore);
    CatalogAccepted(hash, id, catalog, rs[..n], restore);
    var u := FeedFrom(hash, Fresh, rs[..n], restore).value;
    var last := if catalog == [] then None else Some(0);
    SlicesAccepted(hash, id, u, last, catalog != [], slices, 0, n, rs[n..], restore);
    NoGapIs(last, catalog != [], 0, slices);
  }

  /** A fresh validator accepts everything the producer emits, archive end
      included, exactly when no empty slice comes before a non-empty one. (An
      empty slice emits no frame, so the next slice number looks like a jump.) */
  lemma ProducerAccepted(
      hash: Hasher, id: Identity, catalog: seq<u8>, slices: seq<seq<u8>>, rs: seq<Record>, restore: bool)
    requires id.Valid() && InRange(catalog, slices)
    requires CarriesAll(rs, ArchiveFrames(id, catalog, slices))
    ensures FeedFrom(hash, Fresh, rs, restore).Ok? <==> NoEmptySliceInside(catalog, slices)
    ensures ArchiveGrammar(rs, restore) <==> NoEmptySliceInside(catalog, slices)
  {
    hide Settled, RunFrames, FeedFrom, NoEmptySliceInside, ArchiveGrammar, JudgeNew;
    var body := BodyFrames(id, catalog, slices);
    var end := EndFrame(id, |body|);
    SplitCarries(rs, body, [end]);
    var n := |body|;
    assert rs == rs[..n] + [rs[n]];
    assert Carries(rs[n], end) by {
      assert Carries(rs[n], ArchiveFrames(id, catalog, slices)[n]);
    }
    BodyAccepted(hash, id, catalog, slices, rs[..n], restore);
    FeedAppend(hash, Fresh, rs[..n], [rs[n]], restore);
    if NoEmptySliceInside(catalog, slices) {
      var u := FeedFrom(hash, Fresh, rs[..n], restore).value;
      EndAccepted(id, u, rs[n], end, restore && rs[n].IsMetadata());
      SettledCursor(u, id, n);
      FeedOne(hash, u, rs[n], restore);
    }
    BodyNumbers(id, catalog, slices);
    forall i | 0 <= i < |rs| ensures rs[i].H().global == i {
      assert Carries(rs[i], ArchiveFrames(id, catalog, slices)[i]);
      assert i < n ==> BodyFrame(id, body[i], i);
    }
    FreshAcceptsExactly(hash, rs, restore);
  }

  /** The single slice of a raw input is accepted whatever the input, even empty. */
  lemma RawAccepted(hash: Hasher, id: Identity, content: seq<u8>, rs: seq<Record>, restore: bool)
    requires id.Valid() && InRange([], [content]) && CarriesAll(rs, ArchiveFrames(id, [], [content]))
    ensures FeedFrom(hash, Fresh, rs, restore).Ok? && ArchiveGrammar(rs, restore)
  {
    ProducerAccepted(hash, id, [], [content], rs, restore);
  }

  lemma SettledCursor(v: State, id: Identity, global: nat)
    requires Settled(v, id, global)
    ensures v.replayNext == None && v.expected == global
  {
  }

  /** What the server relies on about a queued frame. */
  ghost predicate BodyFrame(id: Identity, f: LogicalFrame, global: nat) {
    && f.header.global == global && Sealable(f.header, f.body) && f.header.hash == Zeros(32)
    && f.header.blockKib == id.blockKib && f.header.uuid == id.uuid && !f.header.channel.ArchiveEnd?
  }

  ghost predicate BodyNumbered(id: Identity, fs: seq<LogicalFrame>, global: nat) {
    forall i :: 0 <= i < |fs| ==> BodyFrame(id, fs[i], global + i)
  }

  lemma RunNumbered(id: Identity, slice: nat, channel: ChannelType, global: nat, content: seq<u8>)
    requires id.Valid() && slice < TWO_64 && global + |content| < TWO_64 && !channel.ArchiveEnd?
    ensures BodyNumbered(id, RunAt(id, slice, channel, global, content), global)
  {
    var at := Cursor(slice, channel, global, 0);
    RunIsWellFormed(id, at, content);
    var run := RunAt(id, slice, channel, global, content);
    forall i | 0 <= i < |run| ensures BodyFrame(id, run[i], global + i) {
      assert RunShape(id, at, run[i], i, |run|);
    }
  }

  lemma NumberedAppend(id: Identity, A: seq<LogicalFrame>, B: seq<LogicalFrame>, global: nat)
    requires BodyNumbered(id, A, global) && BodyNumbered(id, B, global + |A|)
    ensures BodyNumbered(id, A + B, global)
  {
    forall i | 0 <= i < |A + B| ensures BodyFrame(id, (A + B)[i], global + i) {
      if i >= |A| {
        assert BodyFrame(id, B[i - |A|], global + |A| + (i - |A|));
      }
    }
  }

  lemma {:induction false} SliceNumbers(id: Identity, slices: seq<seq<u8>>, slice: nat, global: nat)
    requires id.Valid() && slice + |slices| < TWO_64 && global + TotalBytes(slices) < TWO_64
    ensures BodyNumbered(id, SliceFrames(id, slices, slice, global), global)
    decreases |slices|
  {
    hide BodyNumbered, RunFrames;
    if slices == [] {
      NothingNumbered(id, global);
    } else {
      RunLength(id, slice, Content, global, slices[0]);
      var run := RunAt(id, slice, Content, global, slices[0]);
      RunNumbered(id, slice, Content, global, slices[0]);
      SliceNumbers(id, slices[1..], slice + 1, global + |run|);
      NumberedAppend(id, run, SliceFrames(id, slices[1..], slice + 1, global + |run|), global);
    }
  }

  lemma NothingNumbered(id: Identity, global: nat)
    ensures BodyNumbered(id, [], global)
  {
  }

  /** The body frames are numbered from 0, unsealed, sealable and no archive end. */
  lemma BodyNumbers(id: Identity, catalog: seq<u8>, slices: seq<seq<u8>>)
    requires id.Valid() && InRange(catalog, slices)
    ensures BodyNumbered(id, BodyFrames(id, catalog, slices), 0)
  {
    RunLength(id, 0, Metadata, 0, catalog);
    var run := RunAt(id, 0, Metadata, 0, catalog);
    RunNumbered(id, 0, Metadata, 0, catalog);
    SliceNumbers(id, slices, 0, |run|);
    NumberedAppend(id, run, SliceFrames(id, slices, 0, |run|), 0);
  }
}
