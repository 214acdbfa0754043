// The archiver's producer as it runs: callbacks that drive the frame builder and
// push to the queue.
module ProducerObject {
  import opened Base
  import opened Format
  import opened Sealing
  import opened FrameBuilder
  import opened Producer

  /** The queue items of built frames. */
  function Queued(frames: seq<BuiltFrame>): (q: seq<VolumeRecord>)
    ensures |q| == |frames| && forall i :: 0 <= i < |q| ==> q[i] == Frame(frames[i].record, frames[i].global)
  {
    seq(|frames|, i requires 0 <= i < |frames| => Frame(frames[i].record, frames[i].global))
  }

  function Contents(slices: seq<seq<seq<u8>>>): (c: seq<seq<u8>>)
    ensures |c| == |slices| && forall i :: 0 <= i < |c| ==> c[i] == Concat(slices[i])
  {
    if slices == [] then [] else [Concat(slices[0])] + Contents(slices[1..])
  }

  lemma NothingToPush(id: Identity, first: nat, global: nat)
    requires id.Valid() && first < TWO_64 && global < TWO_64
    ensures |Contents([])| == 0 && TotalBytes(Contents([])) == 0
    ensures SliceItems(id, Contents([]), first, global) == [] && SliceFrames(id, Contents([]), first, global) == []
  {
  }

  /** The first slice and what remains after it. */
  lemma OneSliceMore(id: Identity, slices: seq<seq<seq<u8>>>, first: nat, global: nat)
    requires id.Valid() && slices != [] && first + |slices| < TWO_64
    requires global + TotalBytes(Contents(slices)) < TWO_64
    ensures global + |Concat(slices[0])| < TWO_64
    ensures var run := RunAt(id, first, Content, global, Concat(slices[0]));
            var rest := Contents(slices[1..]);
            && global + |run| + TotalBytes(rest) < TWO_64
            && SliceItems(id, Contents(slices), first, global) ==
                 FrameItems(run) + [TapeEof] + SliceItems(id, rest, first + 1, global + |run|)
            && SliceFrames(id, Contents(slices), first, global) ==
                 run + SliceFrames(id, rest, first + 1, global + |run|)
  {
    hide RunAt, FrameItems;
    assert Contents(slices)[1..] == Contents(slices[1..]);
    RunLength(id, first, Content, global, Concat(slices[0]));
  }

  class ArchiveProducer {
    const builder: Builder
    var queue: seq<VolumeRecord>

    ghost predicate Valid()
      reads this, builder
    {
      builder.Valid() && builder.pending == []
    }

    constructor (id: Identity)
      requires id.Valid()
      ensures Valid() && builder.id == id && fresh(builder)
      ensures queue == [] && builder.at == Cursor(0, Content, 0, 0)
    {
      builder := new Builder(id);
      queue := [];
    }

    /** One channel run: the chunks are fed as they come, then flushed. */
    method PushRun(slice: u64, channel: ChannelType, parts: seq<seq<u8>>)
      requires Valid() && !channel.ArchiveEnd? && builder.at.global + |Concat(parts)| < TWO_64
      modifies this, builder
      ensures Valid()
      ensures var run := RunAt(builder.id, slice, channel, old(builder.at.global), Concat(parts));
              queue == old(queue) + FrameItems(run) && builder.at.global == old(builder.at.global) + |run|
    {
      hide RunFrames;
      ghost var global := builder.at.global;
      builder.BeginChannel(slice, channel);
      var frames := builder.ProduceRun(parts);
      RunLength(builder.id, slice, channel, global, Concat(parts));
      ghost var run := RunAt(builder.id, slice, channel, global, Concat(parts));
      assert Queued(frames) == FrameItems(run);
      queue := queue + Queued(frames);
    }

    /** The plan file as the leading metadata run of slice 0. */
    method WriteCatalog(parts: seq<seq<u8>>)
      requires Valid() && builder.at.global == 0 && queue == [] && |Concat(parts)| < TWO_64
      modifies this, builder
      ensures Valid()
      ensures var run := RunAt(builder.id, 0, Metadata, 0, Concat(parts));
              queue == FrameItems(run) && builder.at.global == |run|
    {
      PushRun(0, Metadata, parts);
      builder.BeginChannel(0, Content);
    }

    /** The callbacks of one slice after another. */
    method PushSlices(slices: seq<seq<seq<u8>>>, first: nat)
      requires Valid() && first + |slices| < TWO_64
      requires builder.at.global + TotalBytes(Contents(slices)) < TWO_64
      modifies this, builder
      ensures Valid()
      ensures queue == old(queue) + SliceItems(builder.id, Contents(slices), first, old(builder.at.global))
      ensures builder.at.global ==
                old(builder.at.global) + |SliceFrames(builder.id, Contents(slices), first, old(builder.at.global))|
      decreases |slices|
    {
      hide RunAt, FrameItems, SliceItems, SliceFrames, Contents, Concat;
      if slices == [] {
        NothingToPush(builder.id, first, builder.at.global);
        return;
      }
      ghost var q, g := queue, builder.at.global;
      OneSliceMore(builder.id, slices, first, g);
      PushRun(first, Content, slices[0]);
      ghost var run := RunAt(builder.id, first, Content, g, Concat(slices[0]));
      queue := queue + [TapeEof];
      PushSlices(slices[1..], first + 1);
      ghost var later := SliceItems(builder.id, Contents(slices[1..]), first + 1, g + |run|);
      assert ((q + FrameItems(run)) + [TapeEof]) + later == q + (FrameItems(run) + [TapeEof] + later);
    }

    /** Everything the archiver pushes, from the chunks it happens to read. */
    method ProduceArchive(catalog: seq<seq<u8>>, slices: seq<seq<seq<u8>>>)
      requires Valid() && builder.at.global == 0 && queue == []
      requires InRange(Concat(catalog), Contents(slices))
      modifies this, builder
      ensures Valid()
      ensures queue == ProducerItems(builder.id, Concat(catalog), Contents(slices))
    {
      hide RunAt, FrameItems, SliceItems, SliceFrames;
      RunLength(builder.id, 0, Metadata, 0, Concat(catalog));
      WriteCatalog(catalog);
      PushSlices(slices, 0);
      queue := queue + [Done(builder.at.global)];
    }
  }
}
