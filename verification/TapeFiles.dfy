// The end-of-file marks of the frame queue: they cut it into one tape file a slice.
module TapeFiles {
  import opened Base
  import opened Format
  import opened Sealing
  import opened FrameBuilder
  import opened Producer

  /** What lies before, between and after the marks. */
  function Cut(items: seq<VolumeRecord>): (parts: seq<seq<VolumeRecord>>)
    ensures parts != []
  {
    if items == [] then [[]]
    else
      var rest := Cut(items[1..]);
      if items[0].TapeEof? then [[]] + rest else [[items[0]] + rest[0]] + rest[1..]
  }

  /** The frames that carry this slice number, in order. */
  function OfSlice(fs: seq<LogicalFrame>, slice: nat): seq<LogicalFrame> {
    if fs == [] then [] else OneOf(fs[0], slice) + OfSlice(fs[1..], slice)
  }

  function OneOf(f: LogicalFrame, slice: nat): seq<LogicalFrame> {
    if f.header.slice == slice then [f] else []
  }

  predicate NoMark(items: seq<VolumeRecord>) {
    forall i :: 0 <= i < |items| ==> !items[i].TapeEof?
  }

  lemma {:induction false} CutFront(front: seq<VolumeRecord>, items: seq<VolumeRecord>)
    requires NoMark(front)
    ensures Cut(front + items) == [front + Cut(items)[0]] + Cut(items)[1..]
  {
    if front == [] {
      assert front + items == items && front + Cut(items)[0] == Cut(items)[0];
    } else {
      CutFront(front[1..], items);
      assert (front + items)[1..] == front[1..] + items;
      assert [front[0]] + (front[1..] + Cut(items)[0]) == front + Cut(items)[0];
    }
  }

  /** A run of frames and its mark are one tape file. */
  lemma CutRun(run: seq<LogicalFrame>, items: seq<VolumeRecord>)
    ensures Cut(FrameItems(run) + [TapeEof] + items) == [FrameItems(run)] + Cut(items)
  {
    CutFront(FrameItems(run), [TapeEof] + items);
    assert FrameItems(run) + [TapeEof] + items == FrameItems(run) + ([TapeEof] + items);
    assert ([TapeEof] + items)[1..] == items;
    assert FrameItems(run) + [] == FrameItems(run);
  }

  lemma {:induction false} OfSliceAppend(A: seq<LogicalFrame>, B: seq<LogicalFrame>, slice: nat)
    ensures OfSlice(A + B, slice) == OfSlice(A, slice) + OfSlice(B, slice)
  {
    hide OfSlice, OneOf;
    if A == [] {
      OfNothing(slice);
      assert A + B == B && [] + OfSlice(B, slice) == OfSlice(B, slice);
    } else {
      OfSliceAppend(A[1..], B, slice);
      assert (A + B)[1..] == A[1..] + B;
      OfSliceStep(A + B, slice);
      OfSliceStep(A, slice);
      Regroup(OneOf(A[0], slice), OfSlice(A[1..], slice), OfSlice(B, slice));
    }
  }

  lemma Regroup<T>(a: seq<T>, b: seq<T>, c: seq<T>)
    ensures a + (b + c) == (a + b) + c
  {
  }

  lemma OfNothing(slice: nat)
    ensures OfSlice([], slice) == []
  {
  }

  lemma OfSliceStep(fs: seq<LogicalFrame>, slice: nat)
    requires fs != []
    ensures OfSlice(fs, slice) == OneOf(fs[0], slice) + OfSlice(fs[1..], slice)
  {
  }

  ghost predicate AllOf(fs: seq<LogicalFrame>, slice: nat) {
    forall i :: 0 <= i < |fs| ==> fs[i].header.slice == slice
  }

  ghost predicate AllFrom(fs: seq<LogicalFrame>, slice: nat) {
    forall i :: 0 <= i < |fs| ==> fs[i].header.slice >= slice
  }

  lemma {:induction false} OfSliceSame(fs: seq<LogicalFrame>, slice: nat, k: nat)
    requires AllOf(fs, slice)
    ensures OfSlice(fs, k) == if k == slice then fs else []
  {
    if fs != [] {
      OfSliceSame(fs[1..], slice, k);
      assert fs == [fs[0]] + fs[1..];
    }
  }

  lemma {:induction false} OfSliceLater(fs: seq<LogicalFrame>, from: nat, k: nat)
    requires AllFrom(fs, from) && k < from
    ensures OfSlice(fs, k) == []
  {
    if fs != [] {
      OfSliceLater(fs[1..], from, k);
    }
  }

  lemma RunOfSlice(id: Identity, slice: nat, channel: ChannelType, global: nat, content: seq<u8>)
    requires id.Valid() && slice < TWO_64 && global + |content| < TWO_64 && !channel.ArchiveEnd?
    ensures AllOf(RunAt(id, slice, channel, global, content), slice)
  {
    hide Sealable;
    var at := Cursor(slice, channel, global, 0);
    RunIsWellFormed(id, at, content);
    var run := RunAt(id, slice, channel, global, content);
    forall i | 0 <= i < |run| ensures run[i].header.slice == slice {
      assert RunShape(id, at, run[i], i, |run|);
    }
  }

  lemma {:induction false} SlicesFrom(id: Identity, slices: seq<seq<u8>>, slice: nat, global: nat)
    requires id.Valid() && slice + |slices| < TWO_64 && global + TotalBytes(slices) < TWO_64
    ensures AllFrom(SliceFrames(id, slices, slice, global), slice)
    decreases |slices|
  {
    hide RunAt, SliceFrames;
    if slices == [] {
      NoSlices(id, slice, global);
    } else {
      FramesOfSlices(id, slices, slice, global);
      var run := RunAt(id, slice, Content, global, slices[0]);
      RunOfSlice(id, slice, Content, global, slices[0]);
      SlicesFrom(id, slices[1..], slice + 1, global + |run|);
    }
  }

  lemma NoSlices(id: Identity, slice: nat, global: nat)
    requires id.Valid() && slice < TWO_64 && global < TWO_64
    ensures SliceFrames(id, [], slice, global) == [] && SliceItems(id, [], slice, global) == []
  {
  }

  /** One part a slice, and the end marker alone behind the last mark. */
  ghost predicate CutBySlice(parts: seq<seq<VolumeRecord>>, fs: seq<LogicalFrame>, first: nat, n: nat, end: u64) {
    && |parts| == n + 1 && parts[n] == [Done(end)]
    && forall k :: 0 <= k < n ==> parts[k] == FrameItems(OfSlice(fs, first + k))
  }

  lemma CutOneMore(run: seq<LogicalFrame>, rest: seq<LogicalFrame>, parts: seq<seq<VolumeRecord>>, first: nat, n: nat,
                   end: u64)
    requires AllOf(run, first) && AllFrom(rest, first + 1) && CutBySlice(parts, rest, first + 1, n, end)
    ensures CutBySlice([FrameItems(run)] + parts, run + rest, first, n + 1, end)
  {
    hide OfSlice, FrameItems;
    var all := [FrameItems(run)] + parts;
    forall k | 0 <= k < n + 1 ensures all[k] == FrameItems(OfSlice(run + rest, first + k)) {
      OfSliceAppend(run, rest, first + k);
      OfSliceSame(run, first, first + k);
      if k == 0 {
        OfSliceLater(rest, first + 1, first);
        assert run + [] == run;
      } else {
        assert all[k] == parts[k - 1] == FrameItems(OfSlice(rest, first + 1 + (k - 1)));
        assert [] + OfSlice(rest, first + k) == OfSlice(rest, first + k);
      }
    }
  }

  lemma {:induction false} SlicesCut(id: Identity, slices: seq<seq<u8>>, slice: nat, global: nat, end: u64)
    requires id.Valid() && slice + |slices| < TWO_64 && global + TotalBytes(slices) < TWO_64
    ensures CutBySlice(Cut(SliceItems(id, slices, slice, global) + [Done(end)]),
                       SliceFrames(id, slices, slice, global), slice, |slices|, end)
    decreases |slices|
  {
    hide RunAt, SliceFrames, SliceItems, CutBySlice, Cut, FrameItems, AllFrom, AllOf;
    if slices == [] {
      NoSlices(id, slice, global);
      assert [] + [Done(end)] == [Done(end)];
      CutEnd(slice, end);
    } else {
      FramesOfSlices(id, slices, slice, global);
      var run := RunAt(id, slice, Content, global, slices[0]);
      ItemsOfSlices(id, slices, slice, global);
      RunOfSlice(id, slice, Content, global, slices[0]);
      SlicesFrom(id, slices[1..], slice + 1, global + |run|);
      SlicesCut(id, slices[1..], slice + 1, global + |run|, end);
      var later := SliceItems(id, slices[1..], slice + 1, global + |run|);
      var rest := SliceFrames(id, slices[1..], slice + 1, global + |run|);
      CutRun(run, later + [Done(end)]);
      assert FrameItems(run) + [TapeEof] + later + [Done(end)] == FrameItems(run) + [TapeEof] + (later + [Done(end)]);
      CutOneMore(run, rest, Cut(later + [Done(end)]), slice, |slices| - 1, end);
    }
  }

  lemma CutEnd(first: nat, end: u64)
    ensures CutBySlice(Cut([Done(end)]), [], first, 0, end)
  {
    assert [Done(end)][1..] == [] && [Done(end)] + [] == [Done(end)];
  }

  lemma ItemsOfSlices(id: Identity, slices: seq<seq<u8>>, slice: nat, global: nat)
    requires id.Valid() && slices != []
    requires slice + |slices| < TWO_64 && global + TotalBytes(slices) < TWO_64
    ensures var run := RunAt(id, slice, Content, global, slices[0]);
            && global + |run| + TotalBytes(slices[1..]) < TWO_64
            && SliceItems(id, slices, slice, global) ==
                 FrameItems(run) + [TapeEof] + SliceItems(id, slices[1..], slice + 1, global + |run|)
  {
    hide RunAt;
    RunLength(id, slice, Content, global, slices[0]);
  }

  /** The marks of a produced queue cut it into one tape file a slice, each holding
      exactly the frames of that slice in order (the catalog in the first), and
      behind the last mark only the final marker, which carries the next number. */
  lemma OneFileASlice(id: Identity, catalog: seq<u8>, slices: seq<seq<u8>>)
    requires id.Valid() && InRange(catalog, slices) && slices != []
    ensures var fs := BodyFrames(id, catalog, slices);
            CutBySlice(Cut(ProducerItems(id, catalog, slices)), fs, 0, |slices|, |fs|)
  {
    hide RunAt, SliceFrames, SliceItems, CutBySlice, Cut, FrameItems, AllOf, OfSlice;
    RunLength(id, 0, Metadata, 0, catalog);
    RunOfSlice(id, 0, Metadata, 0, catalog);
    var run := RunAt(id, 0, Metadata, 0, catalog);
    var end := |BodyFrames(id, catalog, slices)|;
    var items := SliceItems(id, slices, 0, |run|);
    SlicesCut(id, slices, 0, |run|, end);
    FramesHaveNoMark(run);
    CutFront(FrameItems(run), items + [Done(end)]);
    assert FrameItems(run) + items + [Done(end)] == FrameItems(run) + (items + [Done(end)]);
    CutCatalog(run, SliceFrames(id, slices, 0, |run|), Cut(items + [Done(end)]), |slices|, end);
  }

  lemma FramesHaveNoMark(fs: seq<LogicalFrame>)
    ensures NoMark(FrameItems(fs))
  {
  }

  lemma FrameItemsAppend(A: seq<LogicalFrame>, B: seq<LogicalFrame>)
    ensures FrameItems(A + B) == FrameItems(A) + FrameItems(B)
  {
  }

  /** Frames of slice 0 in front of everything join the first part. */
  lemma CutCatalog(run: seq<LogicalFrame>, fs: seq<LogicalFrame>, parts: seq<seq<VolumeRecord>>, n: nat, end: u64)
    requires AllOf(run, 0) && CutBySlice(parts, fs, 0, n, end) && n > 0
    ensures CutBySlice([FrameItems(run) + parts[0]] + parts[1..], run + fs, 0, n, end)
  {
    hide OfSlice, FrameItems;
    var all := [FrameItems(run) + parts[0]] + parts[1..];
    forall k | 0 <= k < n ensures all[k] == FrameItems(OfSlice(run + fs, k)) {
      OfSliceAppend(run, fs, k);
      OfSliceSame(run, 0, k);
      FrameItemsAppend(run, OfSlice(fs, 0));
      assert parts[k] == FrameItems(OfSlice(fs, 0 + k));
      assert [] + OfSlice(fs, k) == OfSlice(fs, k);
    }
  }
}
