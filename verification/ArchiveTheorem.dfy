// The whole way: producer, server, interrupted writers, tapes, extractor.
module ArchiveTheorem {
  import opened Base
  import opened Format
  import opened Sealing
  import opened Validator
  import opened Replays
  import opened FrameBuilder
  import opened Producer
  import opened VolumeServer
  import opened ServerTheorems
  import opened Media
  import opened Transfer
  import opened TransferTheorems
  import opened Extractor
  import opened EndToEnd

  // ------------------------------------------------- the streams of an archive

  lemma {:induction false} StreamsAppend(A: seq<LogicalFrame>, B: seq<LogicalFrame>)
    ensures ContentOf(A + B) == ContentOf(A) + ContentOf(B)
    ensures MetadataOf(A + B) == MetadataOf(A) + MetadataOf(B)
    decreases |B|
  {
    hide ContentOf, MetadataOf;
    if B == [] {
      NoStreams();
      assert A + B == A;
    } else {
      var M, f := B[..|B| - 1], B[|B| - 1];
      assert B == M + [f] && A + B == (A + M) + [f];
      StreamsAppend(A, M);
      StreamsSnoc(A + M, f);
      StreamsSnoc(M, f);
    }
  }

  lemma NoStreams()
    ensures ContentOf([]) == [] && MetadataOf([]) == []
  {
  }

  lemma StreamsOfOne(f: LogicalFrame)
    ensures ContentOf([f]) == if f.header.channel.Content? then f.Payload() else []
    ensures MetadataOf([f]) == if f.header.channel.Metadata? then f.Payload() else []
  {
    assert [f][..0] == [];
    NoStreams();
  }

  lemma {:induction false} StreamsOfRun(frames: seq<LogicalFrame>, c: ChannelType)
    requires forall i :: 0 <= i < |frames| ==> frames[i].header.channel == c
    ensures ContentOf(frames) == if c.Content? then Payloads(frames) else []
    ensures MetadataOf(frames) == if c.Metadata? then Payloads(frames) else []
  {
    hide ContentOf, MetadataOf;
    if frames == [] {
      NoStreams();
    } else {
      StreamsOfRun(frames[1..], c);
      StreamsAppend([frames[0]], frames[1..]);
      assert frames == [frames[0]] + frames[1..];
      StreamsOfOne(frames[0]);
    }
  }

  lemma RunStreams(id: Identity, slice: nat, c: ChannelType, global: nat, content: seq<u8>)
    requires id.Valid() && slice < TWO_64 && global + |content| < TWO_64 && !c.ArchiveEnd?
    ensures ContentOf(RunAt(id, slice, c, global, content)) == if c.Content? then content else []
    ensures MetadataOf(RunAt(id, slice, c, global, content)) == if c.Metadata? then content else []
  {
    var at := Cursor(slice, c, global, 0);
    RunIsWellFormed(id, at, content);
    var run := RunAt(id, slice, c, global, content);
    forall i | 0 <= i < |run| ensures run[i].header.channel == c {
      assert RunShape(id, at, run[i], i, |run|);
    }
    StreamsOfRun(run, c);
  }

  lemma {:induction false} SliceStreams(id: Identity, slices: seq<seq<u8>>, slice: nat, global: nat)
    requires id.Valid() && slice + |slices| < TWO_64 && global + TotalBytes(slices) < TWO_64
    ensures ContentOf(SliceFrames(id, slices, slice, global)) == Concat(slices)
    ensures MetadataOf(SliceFrames(id, slices, slice, global)) == []
    decreases |slices|
  {
    hide RunFrames, ContentOf, MetadataOf;
    if slices == [] {
      NoStreams();
    } else {
      RunLength(id, slice, Content, global, slices[0]);
      var run := RunAt(id, slice, Content, global, slices[0]);
      RunStreams(id, slice, Content, global, slices[0]);
      SliceStreams(id, slices[1..], slice + 1, global + |run|);
      StreamsAppend(run, SliceFrames(id, slices[1..], slice + 1, global + |run|));
    }
  }

  /** The content of the frames is the content of the slices; the metadata is the catalog. */
  lemma ArchiveStreams(id: Identity, catalog: seq<u8>, slices: seq<seq<u8>>)
    requires id.Valid() && InRange(catalog, slices)
    ensures ContentOf(ArchiveFrames(id, catalog, slices)) == Concat(slices)
    ensures MetadataOf(ArchiveFrames(id, catalog, slices)) == catalog
  {
    hide RunFrames, ContentOf, MetadataOf, SliceFrames;
    RunLength(id, 0, Metadata, 0, catalog);
    var run := RunAt(id, 0, Metadata, 0, catalog);
    RunStreams(id, 0, Metadata, 0, catalog);
    SliceStreams(id, slices, 0, |run|);
    StreamsAppend(run, SliceFrames(id, slices, 0, |run|));
    var body := BodyFrames(id, catalog, slices);
    var end := EndFrame(id, |body|);
    StreamsAppend(body, [end]);
    StreamsOfOne(end);
  }

  lemma StreamsPrefix(fs: seq<LogicalFrame>, n: nat)
    requires n <= |fs|
    ensures ContentOf(fs[..n]) <= ContentOf(fs) && MetadataOf(fs[..n]) <= MetadataOf(fs)
  {
    hide ContentOf, MetadataOf;
    assert fs == fs[..n] + fs[n..];
    StreamsAppend(fs[..n], fs[n..]);
  }

  // ---------------------------------------------------------- choosing volumes

  /** Finished volumes in order, leaving out none that received an acknowledgement. */
  predicate Chosen(sel: seq<Volume>, vs: seq<Volume>)
    decreases |vs|
  {
    if vs == [] then sel == []
    else
      var n := |vs| - 1;
      || (sel != [] && sel[|sel| - 1] == vs[n] && Chosen(sel[..|sel| - 1], vs[..n]))
      || (vs[n].first == vs[n].last && Chosen(sel, vs[..n]))
  }

  /** The retry history covers the send window, or the whole archive short of its end. */
  predicate HistorySuffices(o: Options, fs: seq<LogicalFrame>) {
    o.window <= RETRY_HISTORY || |fs| <= RETRY_HISTORY + 1
  }

  lemma ChainPrefix(vs: seq<Volume>)
    requires Chained(vs) && vs != []
    ensures Chained(vs[..|vs| - 1]) && vs[|vs| - 1].first == LastAcked(vs[..|vs| - 1])
  {
  }

  lemma {:induction false} ChosenInReach(o: Options, sel: seq<Volume>, vs: seq<Volume>, fs: seq<LogicalFrame>)
    requires Chained(vs) && (forall i :: 0 <= i < |vs| ==> VolumeInv(o, vs[i], fs)) && Chosen(sel, vs)
    requires HistorySuffices(o, fs)
    ensures AllRuns(o, sel, fs) && InReach(sel, |fs|)
    ensures LastAcked(vs) <= Far(sel) <= LastAcked(vs) + o.window
    decreases |vs|
  {
    hide SealedRun, Chained;
    if vs != [] {
      var n := |vs| - 1;
      var v := vs[n];
      ChainPrefix(vs);
      assert VolumeInv(o, v, fs);
      if sel != [] && sel[|sel| - 1] == v && Chosen(sel[..|sel| - 1], vs[..n]) {
        ChosenInReach(o, sel[..|sel| - 1], vs[..n], fs);
        FarBounded(o, sel[..|sel| - 1], fs);
        forall i | 0 <= i < |sel| ensures SealedRun(o, fs, sel[i].number, sel[i].first, sel[i].records) {
          if i < |sel| - 1 {
            assert sel[i] == sel[..|sel| - 1][i];
          }
        }
      } else {
        ChosenInReach(o, sel, vs[..n], fs);
      }
    }
  }

  /** Whatever was acknowledged is recovered. From any state that the transfer
      system reaches, with connections cut anywhere and acknowledgements lost,
      and for any choice of the finished volumes that includes every one that
      received an acknowledgement, restoring is accepted; what comes out is a
      beginning of the content that covers every acknowledged frame, and all of
      it once the archive end was accepted, which is so once the server is done. */
  lemma EverythingAcknowledgedIsRestored(
      o: Options, catalog: seq<u8>, slices: seq<seq<u8>>, firstVolume: u64, actions: seq<Action>, sel: seq<Volume>)
    requires o.Valid() && InRange(catalog, slices) && NoEmptySliceInside(catalog, slices)
    requires HistorySuffices(o, ArchiveFrames(o.id, catalog, slices))
    requires var s := Execute(o, Initially(ProducerItems(o.id, catalog, slices), firstVolume), actions);
             Chosen(sel, s.volumes)
    ensures var s := Execute(o, Initially(ProducerItems(o.id, catalog, slices), firstVolume), actions);
            var r := ReadAll(o.hash, false, Tapes(sel));
            && r.Ok?
            && r.value.output <= Concat(slices) && r.value.metadata <= catalog
            && LastAcked(s.volumes) <= r.value.processed
            && r.value.processed <= |ArchiveFrames(o.id, catalog, slices)|
            && r.value.output == ContentOf(ArchiveFrames(o.id, catalog, slices)[..r.value.processed])
            && (r.value.sawEnd ==> r.value.output == Concat(slices) && r.value.metadata == catalog)
            && (s.server.complete ==> r.value.sawEnd)
  {
    hide Execute, ArchiveFrames, ProducerItems, ReadAll, NoEmptySliceInside, InReach, AllRuns, Chosen, InRange,
         ContentOf, MetadataOf, Concat;
    var fs := ArchiveFrames(o.id, catalog, slices);
    var queue := ProducerItems(o.id, catalog, slices);
    var s := Execute(o, Initially(queue, firstVolume), actions);
    ProducedIsLawful(o.id, catalog, slices);
    ProducerDelivers(o.id, catalog, slices);
    AlwaysInv(o, fs, queue, firstVolume, actions);
    VolumesOf(o, s, fs);
    ChosenInReach(o, sel, s.volumes, fs);
    var M := ReadsExactly(o, sel, fs);
    ReadOut(o, ReadAll(o.hash, false, Tapes(sel)).value, M, fs);
    PartsOfStreams(o.id, catalog, slices, |M|);
  }

  /** The first n frames hold beginnings of both streams, all frames hold all of them. */
  lemma PartsOfStreams(id: Identity, catalog: seq<u8>, slices: seq<seq<u8>>, n: nat)
    requires id.Valid() && InRange(catalog, slices) && n <= |ArchiveFrames(id, catalog, slices)|
    ensures var fs := ArchiveFrames(id, catalog, slices);
            && ContentOf(fs[..n]) <= Concat(slices) && MetadataOf(fs[..n]) <= catalog
            && (n == |fs| ==> ContentOf(fs[..n]) == Concat(slices) && MetadataOf(fs[..n]) == catalog)
  {
    hide ArchiveFrames, ContentOf, MetadataOf, Concat, InRange;
    var fs := ArchiveFrames(id, catalog, slices);
    ArchiveStreams(id, catalog, slices);
    StreamsPrefix(fs, n);
    assert fs[..|fs|] == fs;
  }

  lemma VolumesOf(o: Options, s: Sys, fs: seq<LogicalFrame>)
    requires o.Valid() && SysInv(o, s, fs)
    ensures Chained(s.volumes) && forall i :: 0 <= i < |s.volumes| ==> VolumeInv(o, s.volumes[i], fs)
    ensures s.server.complete ==> LastAcked(s.volumes) == |fs|
  {
    hide Chained, VolumeInv, WriterPart, WirePart;
  }

  lemma ReadOut(o: Options, e: Extract, L: seq<Record>, fs: seq<LogicalFrame>)
    requires Tracked(o, e, L, fs)
    ensures |L| <= |fs| && e.processed == |L| && (e.sawEnd <==> |L| == |fs|)
    ensures e.output == ContentOf(fs[..|L|]) && e.metadata == MetadataOf(fs[..|L|])
  {
    hide HistoryOf;
  }
}
