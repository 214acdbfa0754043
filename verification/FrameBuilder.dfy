// Cutting a channel's bytes into frames. What comes out does not depend on how
// the bytes were split across calls.
module FrameBuilder {
  import opened Base
  import opened Format
  import opened FormatTheorems
  import opened Sealing

  /** A frame before it is sealed for a volume. */
  datatype LogicalFrame = LogicalFrame(header: FrameHeader, body: seq<u8>) {
    /** The payload without the padding of the record. */
    function Payload(): seq<u8> {
      if header.payloadSize <= |body| then body[..header.payloadSize] else body
    }

    function Record(): seq<u8> { HeaderImage(header) + body }
  }

  /** Archive identity, which all frames share. */
  datatype Identity = Identity(blockKib: u16, uuid: seq<u8>, archiveLabel: seq<u8>) {
    predicate Valid() {
      && ValidBlockSize(blockKib * 1024)
      && Fits(uuid, UUID_FIELD)
      && Fits(archiveLabel, LABEL_FIELD)
    }

    function Capacity(): (c: nat)
      requires Valid()
      ensures c > 0
    {
      blockKib * 1024 - HEADER_SIZE
    }
  }

  datatype Cursor = Cursor(slice: u64, channel: ChannelType, global: u64, channelSeq: u64) {
    function Next(): Cursor {
      this.(global := Succ(global), channelSeq := Succ(channelSeq))
    }
  }

  function FrameOf(id: Identity, at: Cursor, payload: seq<u8>, final: bool): LogicalFrame
    requires id.Valid() && |payload| <= id.Capacity()
  {
    LogicalFrame(
      FrameHeader(at.channel, id.blockKib, id.uuid, id.archiveLabel, 0, at.global, at.slice, at.channelSeq,
                  |payload|, if final then 1 else 0, Zeros(128), Zeros(72), Zeros(32)),
      payload + Zeros(id.Capacity() - |payload|))
  }

  /** A built frame obeys every frame-local rule, ready to be sealed. */
  lemma FrameIsSealable(id: Identity, at: Cursor, payload: seq<u8>, final: bool)
    requires id.Valid() && |payload| <= id.Capacity() && !at.channel.ArchiveEnd?
    requires final || |payload| == id.Capacity()
    ensures Sealable(FrameOf(id, at, payload, final).header, FrameOf(id, at, payload, final).body)
    ensures FrameOf(id, at, payload, final).Payload() == payload
    ensures HasEnd(FrameOf(id, at, payload, final).header.flags) == final
  {
  }

  // ------------------------------------------------------- cutting, as values

  /** The frames emitted while more than one payload is pending, and the rest. */
  function Drain(id: Identity, at: Cursor, pending: seq<u8>): (r: (seq<LogicalFrame>, Cursor, seq<u8>))
    requires id.Valid()
    ensures |r.2| <= id.Capacity()
    decreases |pending|
  {
    var cap := id.Capacity();
    if |pending| <= cap then ([], at, pending)
    else
      var rest := Drain(id, at.Next(), pending[cap..]);
      ([FrameOf(id, at, pending[..cap], false)] + rest.0, rest.1, rest.2)
  }

  /** The frames of one channel run: all full except a final END frame, none for
      an empty run. */
  function RunFrames(id: Identity, at: Cursor, content: seq<u8>): (frames: seq<LogicalFrame>)
    requires id.Valid()
    decreases |content|
  {
    var cap := id.Capacity();
    if content == [] then []
    else if |content| <= cap then [FrameOf(id, at, content, true)]
    else [FrameOf(id, at, content[..cap], false)] + RunFrames(id, at.Next(), content[cap..])
  }

  /** The global number advances by one per frame cut off. */
  lemma {:induction false} DrainAdvances(id: Identity, at: Cursor, pending: seq<u8>)
    requires id.Valid()
    ensures var d := Drain(id, at, pending); d.1.global == (at.global + |d.0|) % TWO_64
    decreases |pending|
  {
    if |pending| > id.Capacity() {
      DrainAdvances(id, at.Next(), pending[id.Capacity()..]);
    }
  }

  /** Feeding the parts one after another, then flushing. */
  function FeedParts(id: Identity, at: Cursor, pending: seq<u8>, parts: seq<seq<u8>>): seq<LogicalFrame>
    requires id.Valid() && |pending| <= id.Capacity()
    decreases |parts|
  {
    if parts == [] then
      if pending == [] then [] else [FrameOf(id, at, pending, true)]
    else
      var fed := Drain(id, at, pending + parts[0]);
      fed.0 + FeedParts(id, fed.1, fed.2, parts[1..])
  }

  lemma DrainCut(id: Identity, at: Cursor, pending: seq<u8>)
    requires id.Valid()
    ensures var cap := id.Capacity();
            Drain(id, at, pending) ==
              if |pending| <= cap then ([], at, pending)
              else var d := Drain(id, at.Next(), pending[cap..]);
                   ([FrameOf(id, at, pending[..cap], false)] + d.0, d.1, d.2)
  {
  }

  lemma RunCut(id: Identity, at: Cursor, content: seq<u8>)
    requires id.Valid() && |content| > id.Capacity()
    ensures var cap := id.Capacity();
            RunFrames(id, at, content) ==
              [FrameOf(id, at, content[..cap], false)] + RunFrames(id, at.Next(), content[cap..])
  {
  }

  /** What is cut off early would be cut off at the same place later. */
  lemma {:induction false} DrainIsRunPrefix(id: Identity, at: Cursor, pending: seq<u8>, more: seq<u8>)
    requires id.Valid()
    ensures var d := Drain(id, at, pending);
            RunFrames(id, at, pending + more) == d.0 + RunFrames(id, d.1, d.2 + more)
    decreases |pending|
  {
    hide FrameOf, Drain, RunFrames;
    var cap := id.Capacity();
    DrainCut(id, at, pending);
    if |pending| > cap {
      DrainIsRunPrefix(id, at.Next(), pending[cap..], more);
      var all := pending + more;
      assert all[..cap] == pending[..cap] && all[cap..] == pending[cap..] + more;
      RunCut(id, at, all);
      var d := Drain(id, at.Next(), pending[cap..]);
      var first := [FrameOf(id, at, pending[..cap], false)];
      assert first + (d.0 + RunFrames(id, d.1, d.2 + more)) == (first + d.0) + RunFrames(id, d.1, d.2 + more);
    }
  }

  /** Any split of the same bytes gives the same frames. */
  lemma {:induction false} ChunkingIrrelevant(id: Identity, at: Cursor, pending: seq<u8>, parts: seq<seq<u8>>)
    requires id.Valid() && |pending| <= id.Capacity()
    ensures FeedParts(id, at, pending, parts) == RunFrames(id, at, pending + Concat(parts))
    decreases |parts|
  {
    if parts == [] {
      assert pending + Concat(parts) == pending;
    } else {
      var d := Drain(id, at, pending + parts[0]);
      ChunkingIrrelevant(id, d.1, d.2, parts[1..]);
      DrainIsRunPrefix(id, at, pending + parts[0], Concat(parts[1..]));
      assert pending + Concat(parts) == (pending + parts[0]) + Concat(parts[1..]);
    }
  }

  function Payloads(frames: seq<LogicalFrame>): seq<u8> {
    if frames == [] then [] else frames[0].Payload() + Payloads(frames[1..])
  }

  predicate RunShape(id: Identity, at: Cursor, f: LogicalFrame, i: nat, n: nat)
    requires id.Valid()
  {
    && Sealable(f.header, f.body)
    && f.header.channel == at.channel && f.header.slice == at.slice
    && f.header.blockKib == id.blockKib && f.header.uuid == id.uuid && f.header.archiveLabel == id.archiveLabel
    && f.header.global == at.global + i
    && f.header.channelSeq == at.channelSeq + i
    && HasEnd(f.header.flags) == (i == n - 1)
    && (i < n - 1 ==> |f.Payload()| == id.Capacity())
    && 0 < |f.Payload()| <= id.Capacity()
    && f.header.hash == Zeros(32)
  }

  lemma FirstShape(id: Identity, at: Cursor, payload: seq<u8>, final: bool, n: nat)
    requires id.Valid() && 0 < |payload| <= id.Capacity() && !at.channel.ArchiveEnd? && n > 0
    requires final == (n == 1) && (final || |payload| == id.Capacity())
    ensures RunShape(id, at, FrameOf(id, at, payload, final), 0, n)
    ensures FrameOf(id, at, payload, final).Payload() == payload
  {
    FrameIsSealable(id, at, payload, final);
  }

  lemma ShapeAfter(id: Identity, at: Cursor, f: LogicalFrame, i: nat, n: nat)
    requires id.Valid() && RunShape(id, at.Next(), f, i, n)
    requires at.global + 1 < TWO_64 && at.channelSeq + 1 < TWO_64
    ensures RunShape(id, at, f, i + 1, n + 1)
  {
    hide Sealable, HasEnd;
  }

  /** The shape of a run: consecutive numbers, every frame full except the single
      last END frame, and payloads that concatenate to the content. */
  lemma {:induction false} RunIsWellFormed(id: Identity, at: Cursor, content: seq<u8>)
    requires id.Valid() && !at.channel.ArchiveEnd?
    requires at.global + |content| < TWO_64 && at.channelSeq + |content| < TWO_64
    ensures var frames := RunFrames(id, at, content);
            && |frames| <= |content|
            && (frames == [] <==> content == [])
            && Payloads(frames) == content
            && forall i :: 0 <= i < |frames| ==> RunShape(id, at, frames[i], i, |frames|)
    decreases |content|
  {
    hide RunShape, FrameOf;
    var cap := id.Capacity();
    var frames := RunFrames(id, at, content);
    if content == [] {
    } else if |content| <= cap {
      FirstShape(id, at, content, true, 1);
      assert Payloads(frames[1..]) == [];
    } else {
      RunIsWellFormed(id, at.Next(), content[cap..]);
      var rest := RunFrames(id, at.Next(), content[cap..]);
      FirstShape(id, at, content[..cap], false, |frames|);
      assert frames[1..] == rest;
      forall i | 0 <= i < |frames| ensures RunShape(id, at, frames[i], i, |frames|) {
        if i > 0 {
          assert RunShape(id, at.Next(), rest[i - 1], i - 1, |rest|);
          ShapeAfter(id, at, rest[i - 1], i - 1, |rest|);
        }
      }
      assert content[..cap] + content[cap..] == content;
    }
  }

  // --------------------------------------------------------- the builder object

  datatype BuiltFrame = BuiltFrame(record: seq<u8>, global: u64)

  function Built(frames: seq<LogicalFrame>): (b: seq<BuiltFrame>)
    ensures |b| == |frames|
    ensures forall i :: 0 <= i < |b| ==> b[i] == BuiltFrame(frames[i].Record(), frames[i].header.global)
  {
    seq(|frames|, i requires 0 <= i < |frames| => BuiltFrame(frames[i].Record(), frames[i].header.global))
  }

  class Builder {
    const id: Identity
    var at: Cursor
    var pending: seq<u8>

    ghost predicate Valid()
      reads this
    {
      id.Valid() && |pending| <= id.Capacity()
    }

    constructor (id: Identity)
      requires id.Valid()
      ensures Valid() && this.id == id
      ensures at == Cursor(0, Content, 0, 0) && pending == []
    {
      this.id := id;
      at := Cursor(0, Content, 0, 0);
      pending := [];
    }

    method BeginChannel(slice: u64, channel: ChannelType)
      requires Valid() && pending == [] && !channel.ArchiveEnd?
      modifies this`at
      ensures at == Cursor(slice, channel, old(at).global, 0)
    {
      at := Cursor(slice, channel, at.global, 0);
    }

    method BuildFrame(payload: seq<u8>, final: bool) returns (frame: BuiltFrame)
      requires id.Valid() && |payload| <= id.Capacity()
      modifies this`at
      ensures frame == BuiltFrame(FrameOf(id, old(at), payload, final).Record(), old(at).global)
      ensures at == old(at).Next()
    {
      var f := FrameOf(id, at, payload, final);
      frame := BuiltFrame(f.Record(), at.global);
      at := at.Next();
    }

    /** Emits frames while the pending bytes exceed one payload, keeping at least
        one byte back so that the final frame can carry END. */
    method Feed(bytes: seq<u8>) returns (frames: seq<BuiltFrame>)
      requires Valid()
      modifies this
      ensures Valid()
      ensures var d := Drain(id, old(at), old(pending) + bytes);
              frames == Built(d.0) && at == d.1 && pending == d.2
    {
      pending := pending + bytes;
      frames := [];
      ghost var target := Drain(id, at, pending);
      var cap := id.Capacity();
      while |pending| > cap
        invariant id.Valid()
        invariant var d := Drain(id, at, pending);
                  frames + Built(d.0) == Built(target.0) && d.1 == target.1 && d.2 == target.2
      {
        ghost var d := Drain(id, at, pending);
        ghost var done := frames;
        var frame := BuildFrame(pending[..cap], false);
        pending := pending[cap..];
        frames := frames + [frame];
        ghost var e := Drain(id, at, pending);
        assert Built(d.0) == [frame] + Built(e.0);
        assert frames + Built(e.0) == done + Built(d.0);
      }
    }

    /** The rest becomes the single final frame; an empty run has no frame. */
    method Flush() returns (frames: seq<BuiltFrame>)
      requires Valid()
      modifies this
      ensures Valid() && pending == []
      ensures frames == if old(pending) == [] then []
                        else [BuiltFrame(FrameOf(id, old(at), old(pending), true).Record(), old(at).global)]
      ensures at == if old(pending) == [] then old(at) else old(at).Next()
    {
      if pending == [] {
        return [];
      }
      var frame := BuildFrame(pending, true);
      pending := [];
      return [frame];
    }

    /** The producer loop: every chunk that was read is fed, then the run is
        flushed. The frames are those of the concatenated content. */
    method ProduceRun(parts: seq<seq<u8>>) returns (frames: seq<BuiltFrame>)
      requires Valid() && pending == []
      modifies this
      ensures Valid() && pending == []
      ensures frames == Built(RunFrames(id, old(at), Concat(parts)))
      ensures at.global == (old(at).global + |frames|) % TWO_64
    {
      hide Drain, FeedParts, RunFrames, FrameOf, Concat;
      frames := [];
      ghost var start := at;
      ghost var goal := Built(RunFrames(id, at, Concat(parts)));
      NothingFed(id, at, parts);
      var i := 0;
      while i < |parts|
        invariant 0 <= i <= |parts| && Valid()
        invariant frames + Built(FeedParts(id, at, pending, parts[i..])) == goal
        invariant at.global == (start.global + |frames|) % TWO_64
      {
        DrainAdvances(id, at, pending + parts[i]);
        PartFed(id, at, pending, parts, i, frames);
        var more := Feed(parts[i]);
        SumMod(start.global, |frames|, |more|);
        frames := frames + more;
        i := i + 1;
      }
      assert parts[i..] == [];
      FeedLast(id, at, pending);
      SumMod(start.global, |frames|, 1);
      var last := Flush();
      frames := frames + last;
    }
  }

  lemma NothingFed(id: Identity, at: Cursor, parts: seq<seq<u8>>)
    requires id.Valid()
    ensures [] + Built(FeedParts(id, at, [], parts[0..])) == Built(RunFrames(id, at, Concat(parts)))
  {
    hide FeedParts, RunFrames, Concat;
    ChunkingIrrelevant(id, at, [], parts);
    assert [] + Concat(parts) == Concat(parts);
    assert parts[0..] == parts;
  }

  /** What is still to come shrinks by the frames of one part. */
  lemma PartFed(id: Identity, at: Cursor, pending: seq<u8>, parts: seq<seq<u8>>, i: nat, frames: seq<BuiltFrame>)
    requires id.Valid() && |pending| <= id.Capacity() && i < |parts|
    ensures var d := Drain(id, at, pending + parts[i]);
            frames + Built(d.0) + Built(FeedParts(id, d.1, d.2, parts[i + 1..])) ==
              frames + Built(FeedParts(id, at, pending, parts[i..]))
  {
    hide Drain, FeedParts;
    var d := Drain(id, at, pending + parts[i]);
    FeedOnePart(id, at, pending, parts, i);
    BuiltAppend(d.0, FeedParts(id, d.1, d.2, parts[i + 1..]));
  }

  lemma SumMod(start: nat, n: nat, more: nat)
    ensures ((start + n) % TWO_64 + more) % TWO_64 == (start + (n + more)) % TWO_64
  {
  }

  lemma FeedOnePart(id: Identity, at: Cursor, pending: seq<u8>, parts: seq<seq<u8>>, i: nat)
    requires id.Valid() && |pending| <= id.Capacity() && i < |parts|
    ensures var d := Drain(id, at, pending + parts[i]);
            FeedParts(id, at, pending, parts[i..]) == d.0 + FeedParts(id, d.1, d.2, parts[i + 1..])
  {
    assert parts[i..][1..] == parts[i + 1..];
  }

  lemma FeedLast(id: Identity, at: Cursor, pending: seq<u8>)
    requires id.Valid() && |pending| <= id.Capacity()
    ensures Built(FeedParts(id, at, pending, [])) ==
              if pending == [] then [] else [BuiltFrame(FrameOf(id, at, pending, true).Record(), at.global)]
  {
  }

  lemma BuiltAppend(A: seq<LogicalFrame>, B: seq<LogicalFrame>)
    ensures Built(A + B) == Built(A) + Built(B)
  {
  }
}
