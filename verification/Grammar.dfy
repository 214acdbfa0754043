// The declarative grammar of a whole archive, and the proof that the validator
// accepts exactly the record sequences in it.
module Grammar {
  import opened Base
  import opened Format
  import opened Sealing
  import opened Validator

  // ------------------------------------------------------------ the grammar

  predicate InStream(r: Record, slice: u64, c: ChannelType) {
    !r.IsEnd() && r.H().slice == slice && r.H().channel == c
  }

  predicate SameStream(a: Record, b: Record) {
    !a.IsEnd() && InStream(b, a.H().slice, a.H().channel)
  }

  predicate EndsStream(r: Record) {
    HasEnd(r.H().flags)
  }

  /** How many records of a (slice, channel) stream occur. */
  function StreamCount(L: seq<Record>, slice: u64, c: ChannelType): (n: nat)
    ensures n <= |L|
  {
    if L == [] then 0
    else
      StreamCount(L[..|L| - 1], slice, c) + if InStream(L[|L| - 1], slice, c) then 1 else 0
  }

  /** Sizes match and hashes verify; restore mode tolerates damaged metadata. */
  ghost predicate Intact(L: seq<Record>, restore: bool) {
    forall i :: 0 <= i < |L| ==>
      L[i].frame.sizeOk && (L[i].frame.hashOk || (restore && L[i].IsMetadata()))
  }

  ghost predicate OneBlockSize(L: seq<Record>) {
    forall i, j :: 0 <= i < j < |L| ==> DecodedBlockSize(L[i].H()) == DecodedBlockSize(L[j].H())
  }

  /** One archive identity. A record with an empty uuid does not bind it. */
  ghost predicate OneIdentity(L: seq<Record>) {
    forall i, j :: 0 <= i < j < |L| && L[i].H().uuid != [] ==>
      L[j].H().uuid == L[i].H().uuid && L[j].H().archiveLabel == L[i].H().archiveLabel
  }

  ghost predicate Gapless(L: seq<Record>) {
    forall i :: 0 <= i < |L| ==> L[i].H().global == i
  }

  ghost predicate NothingAfterEnd(L: seq<Record>) {
    forall i :: 0 <= i < |L| && L[i].IsEnd() ==> i == |L| - 1
  }

  /** Slices start at 0 and rise by at most one. */
  ghost predicate SlicesRise(L: seq<Record>) {
    && (|L| > 0 && !L[0].IsEnd() ==> L[0].H().slice == 0)
    && (forall i, j :: 0 <= i && j == i + 1 && j < |L| && !L[j].IsEnd() ==>
          L[i].H().slice <= L[j].H().slice <= L[i].H().slice + 1)
  }

  /** Each (slice, channel) stream is numbered 0, 1, 2, ... */
  ghost predicate StreamsNumbered(L: seq<Record>) {
    forall i :: 0 <= i < |L| && !L[i].IsEnd() ==>
      L[i].H().channelSeq == StreamCount(L[..i], L[i].H().slice, L[i].H().channel)
  }

  ghost predicate NothingAfterStreamEnd(L: seq<Record>) {
    forall i, j {:trigger SameStream(L[i], L[j])} ::
      0 <= i < j < |L| && SameStream(L[i], L[j]) ==> !EndsStream(L[i])
  }

  ghost predicate ClosedBefore(L: seq<Record>, i: nat, j: nat)
    requires i < |L| && j <= |L|
  {
    exists k :: 0 <= k < j && SameStream(L[i], L[k]) && EndsStream(L[k])
  }

  ghost predicate LeavesSlice(a: Record, b: Record) {
    !a.IsEnd() && (b.IsEnd() || b.H().slice != a.H().slice)
  }

  /** Every stream is closed before a later slice or the archive end. */
  ghost predicate StreamsClosed(L: seq<Record>) {
    forall i, j {:trigger LeavesSlice(L[i], L[j])} {:trigger ClosedBefore(L, i, j)} ::
      0 <= i < j < |L| && LeavesSlice(L[i], L[j]) ==> ClosedBefore(L, i, j)
  }

  ghost predicate ArchiveGrammar(L: seq<Record>, restore: bool) {
    && Intact(L, restore)
    && OneBlockSize(L)
    && OneIdentity(L)
    && Gapless(L)
    && NothingAfterEnd(L)
    && SlicesRise(L)
    && StreamsNumbered(L)
    && NothingAfterStreamEnd(L)
    && StreamsClosed(L)
  }

  // ------------------------------------------- one more record at the end

  /** What the grammar asks of a record that follows L. */
  ghost predicate MayFollow(L: seq<Record>, f: Record, restore: bool) {
    && f.frame.sizeOk && (f.frame.hashOk || (restore && f.IsMetadata()))
    && (forall i :: 0 <= i < |L| ==> DecodedBlockSize(L[i].H()) == DecodedBlockSize(f.H()))
    && IdentityFollows(L, f)
    && f.H().global == |L|
    && (|L| > 0 ==> !L[|L| - 1].IsEnd())
    && (!f.IsEnd() ==>
          && SliceFollows(L, f)
          && f.H().channelSeq == StreamCount(L, f.H().slice, f.H().channel)
          && StreamOpen(L, f))
    && LeftSlicesClosed(L, f)
  }

  ghost predicate StreamOpen(L: seq<Record>, f: Record) {
    forall i {:trigger SameStream(L[i], f)} :: 0 <= i < |L| && SameStream(L[i], f) ==> !EndsStream(L[i])
  }

  ghost predicate LeftSlicesClosed(L: seq<Record>, f: Record) {
    forall i {:trigger LeavesSlice(L[i], f)} {:trigger ClosedBefore(L, i, |L|)} ::
      0 <= i < |L| && LeavesSlice(L[i], f) ==> ClosedBefore(L, i, |L|)
  }

  ghost predicate CurrentSliceDone(v: State, L: seq<Record>) {
    forall i {:trigger ClosedBefore(L, i, |L|)} ::
      0 <= i < |L| && !L[i].IsEnd() && L[i].H().slice == v.slice ==> ClosedBefore(L, i, |L|)
  }

  ghost predicate IdentityFollows(L: seq<Record>, f: Record) {
    forall i :: 0 <= i < |L| && L[i].H().uuid != [] ==>
      f.H().uuid == L[i].H().uuid && f.H().archiveLabel == L[i].H().archiveLabel
  }

  ghost predicate SliceFollows(L: seq<Record>, f: Record) {
    if L == [] then f.H().slice == 0
    else L[|L| - 1].H().slice <= f.H().slice <= L[|L| - 1].H().slice + 1
  }

  lemma NumberingPrefix(L: seq<Record>, f: Record)
    requires StreamsNumbered(L + [f])
    ensures StreamsNumbered(L)
  {
    var M := L + [f];
    forall i | 0 <= i < |L| && !L[i].IsEnd()
      ensures L[i].H().channelSeq == StreamCount(L[..i], L[i].H().slice, L[i].H().channel)
    {
      assert M[..i] == L[..i] && M[i] == L[i];
    }
  }

  lemma ClosingPrefix(L: seq<Record>, f: Record)
    requires StreamsClosed(L + [f])
    ensures StreamsClosed(L)
  {
    var M := L + [f];
    forall i, j | 0 <= i < j < |L| && LeavesSlice(L[i], L[j]) ensures ClosedBefore(L, i, j) {
      assert LeavesSlice(M[i], M[j]);
      assert ClosedBefore(M, i, j);
      var k :| 0 <= k < j && SameStream(M[i], M[k]) && EndsStream(M[k]);
      assert SameStream(L[i], L[k]) && EndsStream(L[k]);
    }
  }

  lemma OrderPrefix(L: seq<Record>, f: Record)
    requires SlicesRise(L + [f]) && NothingAfterEnd(L + [f]) && NothingAfterStreamEnd(L + [f])
    ensures SlicesRise(L) && NothingAfterEnd(L) && NothingAfterStreamEnd(L)
  {
    var M := L + [f];
    assert forall i :: 0 <= i < |L| ==> M[i] == L[i];
  }

  lemma IdentityPrefix(L: seq<Record>, f: Record, restore: bool)
    requires Intact(L + [f], restore) && OneBlockSize(L + [f]) && OneIdentity(L + [f]) && Gapless(L + [f])
    ensures Intact(L, restore) && OneBlockSize(L) && OneIdentity(L) && Gapless(L)
  {
    var M := L + [f];
    assert forall i :: 0 <= i < |L| ==> M[i] == L[i];
  }

  lemma GrammarPrefix(L: seq<Record>, f: Record, restore: bool)
    requires ArchiveGrammar(L + [f], restore)
    ensures ArchiveGrammar(L, restore)
  {
    IdentityPrefix(L, f, restore);
    OrderPrefix(L, f);
    NumberingPrefix(L, f);
    ClosingPrefix(L, f);
  }

  lemma ClosingFollows(L: seq<Record>, f: Record)
    requires StreamsClosed(L + [f]) && NothingAfterStreamEnd(L + [f])
    ensures LeftSlicesClosed(L, f) && StreamOpen(L, f)
  {
    var M := L + [f];
    var n := |L|;
    assert M[n] == f && forall i :: 0 <= i < n ==> M[i] == L[i];
    forall i | 0 <= i < n && LeavesSlice(L[i], f) ensures ClosedBefore(L, i, n) {
      assert LeavesSlice(M[i], M[n]);
      assert ClosedBefore(M, i, n);
      var k :| 0 <= k < n && SameStream(M[i], M[k]) && EndsStream(M[k]);
      assert SameStream(L[i], L[k]) && EndsStream(L[k]);
    }
    forall i | 0 <= i < n && SameStream(L[i], f) ensures !EndsStream(L[i]) {
      assert SameStream(M[i], M[n]);
    }
  }

  lemma IdentityFollowsFrom(L: seq<Record>, f: Record)
    requires OneIdentity(L + [f])
    ensures IdentityFollows(L, f)
  {
    var M := L + [f];
    assert M[|L|] == f;
    forall i | 0 <= i < |L| && L[i].H().uuid != []
      ensures f.H().uuid == L[i].H().uuid && f.H().archiveLabel == L[i].H().archiveLabel
    {
      assert M[i] == L[i];
    }
  }

  lemma GrammarFollows(L: seq<Record>, f: Record, restore: bool)
    requires ArchiveGrammar(L + [f], restore)
    ensures MayFollow(L, f, restore)
  {
    ClosingFollows(L, f);
    IdentityFollowsFrom(L, f);
    hide StreamsClosed, NothingAfterStreamEnd, LeftSlicesClosed, StreamOpen, OneIdentity, IdentityFollows;
    var M := L + [f];
    var n := |L|;
    assert M[n] == f && M[..n] == L;
    forall i | 0 <= i < n ensures DecodedBlockSize(L[i].H()) == DecodedBlockSize(f.H()) {
      assert M[i] == L[i];
    }
    if n > 0 {
      assert M[n - 1] == L[n - 1];
    }
  }

  lemma NumberingExtends(L: seq<Record>, f: Record)
    requires StreamsNumbered(L)
    requires !f.IsEnd() ==> f.H().channelSeq == StreamCount(L, f.H().slice, f.H().channel)
    ensures StreamsNumbered(L + [f])
  {
    var M := L + [f];
    assert M[|L|] == f && M[..|L|] == L;
    forall i | 0 <= i < |M| && !M[i].IsEnd()
      ensures M[i].H().channelSeq == StreamCount(M[..i], M[i].H().slice, M[i].H().channel)
    {
      if i < |L| {
        assert M[..i] == L[..i] && M[i] == L[i];
      }
    }
  }

  lemma ClosingExtends(L: seq<Record>, f: Record)
    requires StreamsClosed(L) && LeftSlicesClosed(L, f)
    ensures StreamsClosed(L + [f])
  {
    var M := L + [f];
    forall i, j | 0 <= i < j < |M| && LeavesSlice(M[i], M[j]) ensures ClosedBefore(M, i, j) {
      assert M[i] == L[i];
      if j < |L| {
        assert M[j] == L[j];
      }
      assert ClosedBefore(L, i, j);
      var k :| 0 <= k < j && SameStream(L[i], L[k]) && EndsStream(L[k]);
      assert SameStream(M[i], M[k]) && EndsStream(M[k]);
    }
  }

  lemma StreamEndExtends(L: seq<Record>, f: Record)
    requires NothingAfterStreamEnd(L) && (!f.IsEnd() ==> StreamOpen(L, f))
    ensures NothingAfterStreamEnd(L + [f])
  {
    var M := L + [f];
    forall i, j | 0 <= i < j < |M| && SameStream(M[i], M[j]) ensures !EndsStream(M[i]) {
      assert M[i] == L[i];
      if j < |L| {
        assert M[j] == L[j];
      }
    }
  }

  lemma IdentityExtends(L: seq<Record>, f: Record)
    requires OneIdentity(L) && IdentityFollows(L, f)
    ensures OneIdentity(L + [f])
  {
    var M := L + [f];
    forall i, j | 0 <= i < j < |M| && M[i].H().uuid != []
      ensures M[j].H().uuid == M[i].H().uuid && M[j].H().archiveLabel == M[i].H().archiveLabel
    {
      assert M[i] == L[i];
      assert j < |L| ==> M[j] == L[j];
    }
  }

  lemma SlicesExtend(L: seq<Record>, f: Record)
    requires SlicesRise(L) && (!f.IsEnd() ==> SliceFollows(L, f))
    ensures SlicesRise(L + [f])
  {
    var M := L + [f];
    forall i, j | 0 <= i && j == i + 1 && j < |M| && !M[j].IsEnd()
      ensures M[i].H().slice <= M[j].H().slice <= M[i].H().slice + 1
    {
      assert M[i] == L[i];
      assert j < |L| ==> M[j] == L[j];
    }
  }

  lemma GrammarExtends(L: seq<Record>, f: Record, restore: bool)
    requires ArchiveGrammar(L, restore) && MayFollow(L, f, restore)
    ensures ArchiveGrammar(L + [f], restore)
  {
    IdentityExtends(L, f);
    SlicesExtend(L, f);
    NumberingExtends(L, f);
    ClosingExtends(L, f);
    StreamEndExtends(L, f);
  }

  lemma GrammarSnoc(L: seq<Record>, f: Record, restore: bool)
    ensures ArchiveGrammar(L + [f], restore) <==> ArchiveGrammar(L, restore) && MayFollow(L, f, restore)
  {
    if ArchiveGrammar(L + [f], restore) {
      GrammarPrefix(L, f, restore);
      GrammarFollows(L, f, restore);
    }
    if ArchiveGrammar(L, restore) && MayFollow(L, f, restore) {
      GrammarExtends(L, f, restore);
    }
  }

  // ------------------------------------------ validator state against history

  ghost predicate ChannelTracks(v: State, L: seq<Record>, c: ChannelType)
    requires !c.ArchiveEnd?
  {
    && v.nextSeq.Get(c) == StreamCount(L, v.slice, c)
    && (v.seen.Get(c) <==> exists i :: 0 <= i < |L| && InStream(L[i], v.slice, c))
    && (v.ended.Get(c) <==> exists i :: 0 <= i < |L| && InStream(L[i], v.slice, c) && EndsStream(L[i]))
    && !v.unknown.Get(c)
  }

  ghost predicate IdentityTracks(v: State, L: seq<Record>) {
    && (L == [] ==> v.block == 0)
    && (forall i :: 0 <= i < |L| ==> v.block == DecodedBlockSize(L[i].H()))
    && (forall i :: 0 <= i < |L| && L[i].H().uuid != [] ==>
          v.uuid == L[i].H().uuid && v.archiveLabel == L[i].H().archiveLabel)
    && (v.uuid != [] ==>
          exists i :: 0 <= i < |L| && v.uuid == L[i].H().uuid && v.archiveLabel == L[i].H().archiveLabel)
  }

  ghost predicate SequenceTracks(v: State, L: seq<Record>) {
    && v.expected == |L|
    && !v.seeded
    && (v.sawEnd <==> L != [] && L[|L| - 1].IsEnd())
    && (!v.sawEnd ==>
          && (v.sawAny <==> L != [])
          && v.slice == (if L == [] then 0 else L[|L| - 1].H().slice)
          && ChannelTracks(v, L, Content)
          && ChannelTracks(v, L, Metadata))
  }

  /** v is the state of an unseeded validator that accepted the records L. */
  ghost predicate Tracks(v: State, L: seq<Record>) {
    SequenceTracks(v, L) && IdentityTracks(v, L)
  }

  lemma TracksCount(v: State, L: seq<Record>)
    requires Tracks(v, L)
    ensures v.expected == |L|
  {
  }

  lemma {:induction false} SlicesBounded(L: seq<Record>, i: nat)
    requires NothingAfterEnd(L) && SlicesRise(L) && i < |L| && !L[|L| - 1].IsEnd()
    ensures !L[i].IsEnd() && L[i].H().slice <= L[|L| - 1].H().slice < |L|
    decreases |L|
  {
    var n := |L| - 1;
    if n > 0 {
      var M := L[..n];
      assert !L[n - 1].IsEnd();
      assert L[n - 1].H().slice <= L[n].H().slice <= L[n - 1].H().slice + 1;
      SlicesBounded(M, if i < n then i else 0);
    }
  }

  lemma {:induction false} EmptyStream(L: seq<Record>, slice: u64, c: ChannelType)
    requires forall i :: 0 <= i < |L| ==> !InStream(L[i], slice, c)
    ensures StreamCount(L, slice, c) == 0
  {
    if L != [] {
      EmptyStream(L[..|L| - 1], slice, c);
    }
  }

  lemma IdentityStep(v: State, L: seq<Record>, f: Record)
    requires IdentityTracks(v, L)
    ensures CheckIdentity(v, f).Ok? <==>
              && (forall i :: 0 <= i < |L| ==> DecodedBlockSize(L[i].H()) == DecodedBlockSize(f.H()))
              && IdentityFollows(L, f)
    ensures CheckIdentity(v, f).Ok? ==> IdentityTracks(CheckIdentity(v, f).value, L + [f])
  {
    var M := L + [f];
    assert DecodedBlockSize(f.H()) != 0;
    if L != [] {
      assert v.block == DecodedBlockSize(L[0].H());
    }
    if v.uuid != [] {
      var i :| 0 <= i < |L| && v.uuid == L[i].H().uuid && v.archiveLabel == L[i].H().archiveLabel;
      assert M[i] == L[i];
    }
    if CheckIdentity(v, f).Ok? {
      var w := CheckIdentity(v, f).value;
      forall i | 0 <= i < |M| && M[i].H().uuid != []
        ensures w.uuid == M[i].H().uuid && w.archiveLabel == M[i].H().archiveLabel
      {
        if i < |L| {
          assert M[i] == L[i];
        }
      }
      if v.uuid == [] && w.uuid != [] {
        assert M[|L|] == f;
      }
    }
  }

  lemma CountSnoc(L: seq<Record>, f: Record, slice: u64, c: ChannelType)
    ensures StreamCount(L + [f], slice, c) == StreamCount(L, slice, c) + if InStream(f, slice, c) then 1 else 0
  {
    assert (L + [f])[..|L|] == L;
  }

  lemma SeenSnoc(L: seq<Record>, f: Record, slice: u64, c: ChannelType)
    ensures (exists i :: 0 <= i < |L + [f]| && InStream((L + [f])[i], slice, c)) <==>
              (exists i :: 0 <= i < |L| && InStream(L[i], slice, c)) || InStream(f, slice, c)
  {
    var M := L + [f];
    if i :| 0 <= i < |M| && InStream(M[i], slice, c) {
      assert i < |L| ==> M[i] == L[i];
    }
    if i :| 0 <= i < |L| && InStream(L[i], slice, c) {
      assert M[i] == L[i];
    }
    assert M[|L|] == f;
  }

  lemma EndedSnoc(L: seq<Record>, f: Record, slice: u64, c: ChannelType)
    ensures (exists i :: 0 <= i < |L + [f]| && InStream((L + [f])[i], slice, c) && EndsStream((L + [f])[i])) <==>
              || (exists i :: 0 <= i < |L| && InStream(L[i], slice, c) && EndsStream(L[i]))
              || (InStream(f, slice, c) && EndsStream(f))
  {
    hide InStream, EndsStream;
    var M := L + [f];
    if i :| 0 <= i < |M| && InStream(M[i], slice, c) && EndsStream(M[i]) {
      assert i < |L| ==> M[i] == L[i];
    }
    if i :| 0 <= i < |L| && InStream(L[i], slice, c) && EndsStream(L[i]) {
      assert M[i] == L[i];
    }
    assert M[|L|] == f;
  }

  lemma ChannelTracksStep(v: State, w: State, L: seq<Record>, f: Record, c: ChannelType)
    requires !c.ArchiveEnd? && !f.IsEnd() && f.H().slice == v.slice == w.slice
    requires ChannelTracks(v, L, c)
    requires c == f.H().channel ==> !v.ended.Get(c) && |L| + 1 < TWO_64 && f.H().channelSeq == v.nextSeq.Get(c)
    requires w.nextSeq.Get(c) == if c == f.H().channel then Succ(f.H().channelSeq) else v.nextSeq.Get(c)
    requires w.seen.Get(c) == (c == f.H().channel || v.seen.Get(c))
    requires w.ended.Get(c) == if c == f.H().channel then HasEnd(f.H().flags) else v.ended.Get(c)
    requires !w.unknown.Get(c)
    ensures ChannelTracks(w, L + [f], c)
  {
    hide StreamCount, HasEnd;
    assert InStream(f, v.slice, c) <==> c == f.H().channel;
    CountSnoc(L, f, v.slice, c);
    SeenSnoc(L, f, v.slice, c);
    EndedSnoc(L, f, v.slice, c);
  }

  /** All streams of the current slice are closed exactly when the flags say so. */
  lemma CurrentSliceClosed(v: State, L: seq<Record>)
    requires ChannelTracks(v, L, Content) && ChannelTracks(v, L, Metadata)
    ensures AllSeenEnded(v) <==>
              CurrentSliceDone(v, L)
  {
    if AllSeenEnded(v) {
      forall i | 0 <= i < |L| && !L[i].IsEnd() && L[i].H().slice == v.slice
        ensures ClosedBefore(L, i, |L|)
      {
        var c := L[i].H().channel;
        assert InStream(L[i], v.slice, c);
        assert v.seen.Get(c) && v.ended.Get(c);
        var k :| 0 <= k < |L| && InStream(L[k], v.slice, c) && EndsStream(L[k]);
        assert SameStream(L[i], L[k]);
      }
    }
    if CurrentSliceDone(v, L) {
      SeenStreamEnded(v, L, Content);
      SeenStreamEnded(v, L, Metadata);
    }
  }

  lemma SeenStreamEnded(v: State, L: seq<Record>, c: ChannelType)
    requires !c.ArchiveEnd? && ChannelTracks(v, L, c)
    requires CurrentSliceDone(v, L)
    ensures v.seen.Get(c) ==> v.ended.Get(c)
  {
    if v.seen.Get(c) {
      var i :| 0 <= i < |L| && InStream(L[i], v.slice, c);
      assert ClosedBefore(L, i, |L|);
      var k :| 0 <= k < |L| && SameStream(L[i], L[k]) && EndsStream(L[k]);
      assert InStream(L[k], v.slice, c);
    }
  }

  /** Streams of earlier slices were closed when those slices were left. */
  lemma EarlierSlicesClosed(L: seq<Record>, i: nat)
    requires StreamsClosed(L) && i < |L| && LeavesSlice(L[i], L[|L| - 1])
    ensures ClosedBefore(L, i, |L|)
  {
    var n := |L| - 1;
    assert ClosedBefore(L, i, n);
    var k :| 0 <= k < n && SameStream(L[i], L[k]) && EndsStream(L[k]);
  }

  /** Leaving the current slice is allowed exactly when its streams are closed. */
  lemma LeavingAllowed(v: State, L: seq<Record>, f: Record)
    requires SequenceTracks(v, L) && !v.sawEnd && NothingAfterEnd(L) && SlicesRise(L) && StreamsClosed(L)
    requires L != []
    requires f.IsEnd() || f.H().slice > v.slice
    ensures AllSeenEnded(v) <==>
              LeftSlicesClosed(L, f)
  {
    CurrentSliceClosed(v, L);
    forall i | 0 <= i < |L| ensures LeavesSlice(L[i], f) {
      SlicesBounded(L, i);
    }
    forall i | 0 <= i < |L| && L[i].H().slice != v.slice ensures ClosedBefore(L, i, |L|) {
      EarlierSlicesClosed(L, i);
    }
  }

  lemma StayingAllowed(v: State, L: seq<Record>, f: Record)
    requires SequenceTracks(v, L) && !v.sawEnd && StreamsClosed(L)
    requires !f.IsEnd() && (L == [] || f.H().slice == v.slice)
    ensures LeftSlicesClosed(L, f)
  {
    forall i | 0 <= i < |L| && LeavesSlice(L[i], f) ensures ClosedBefore(L, i, |L|) {
      EarlierSlicesClosed(L, i);
    }
  }

  lemma NewSliceStreams(v: State, L: seq<Record>, f: Record, c: ChannelType)
    requires SequenceTracks(v, L) && !v.sawEnd && NothingAfterEnd(L) && SlicesRise(L)
    requires !c.ArchiveEnd? && !f.IsEnd() && L != [] && f.H().slice > v.slice
    requires |L| < TWO_64
    ensures StreamCount(L, f.H().slice, c) == 0
    ensures forall i :: 0 <= i < |L| ==> !InStream(L[i], f.H().slice, c)
  {
    forall i | 0 <= i < |L| ensures !InStream(L[i], f.H().slice, c) {
      SlicesBounded(L, i);
    }
    EmptyStream(L, f.H().slice, c);
  }

  /** The state after entering the slice of f still tracks L, for the channels of
      that slice, and is reached exactly when the grammar lets f follow. */
  lemma SliceStep(v: State, L: seq<Record>, f: Record)
    requires SequenceTracks(v, L) && !v.sawEnd && NothingAfterEnd(L) && SlicesRise(L) && StreamsClosed(L)
    requires !f.IsEnd() && |L| + 1 < TWO_64
    ensures EnterSlice(v, f.H()).Ok? <==>
              && SliceFollows(L, f)
              && LeftSlicesClosed(L, f)
    ensures EnterSlice(v, f.H()).Ok? ==>
              var w := EnterSlice(v, f.H()).value;
              && w == v.(sawAny := true, slice := f.H().slice, nextSeq := w.nextSeq, seen := w.seen,
                         ended := w.ended, unknown := w.unknown)
              && ChannelTracks(w, L, Content) && ChannelTracks(w, L, Metadata)
  {
    if L != [] {
      SlicesBounded(L, 0);
    }
    if L == [] || f.H().slice == v.slice {
      StayingAllowed(v, L, f);
    } else if f.H().slice > v.slice {
      LeavingAllowed(v, L, f);
      NewSliceStreams(v, L, f, Content);
      NewSliceStreams(v, L, f, Metadata);
    }
  }

  lemma StreamOpenFlag(v: State, L: seq<Record>, f: Record)
    requires !f.IsEnd() && f.H().slice == v.slice && ChannelTracks(v, L, f.H().channel)
    ensures StreamOpen(L, f) <==> !v.ended.Get(f.H().channel)
  {
    var c := f.H().channel;
    if v.ended.Get(c) {
      var i :| 0 <= i < |L| && InStream(L[i], v.slice, c) && EndsStream(L[i]);
      assert SameStream(L[i], f);
    } else {
      forall i | 0 <= i < |L| && SameStream(L[i], f) ensures !EndsStream(L[i]) {
        assert InStream(L[i], v.slice, c);
      }
    }
  }

  lemma ChannelStep(v: State, L: seq<Record>, f: Record)
    requires !f.IsEnd() && f.H().slice == v.slice && |L| + 1 < TWO_64
    requires ChannelTracks(v, L, Content) && ChannelTracks(v, L, Metadata)
    ensures EnterChannel(v, f.H()).Ok? <==>
              && f.H().channelSeq == StreamCount(L, f.H().slice, f.H().channel)
              && StreamOpen(L, f)
    ensures EnterChannel(v, f.H()).Ok? ==>
              var w := EnterChannel(v, f.H()).value;
              && w == v.(nextSeq := w.nextSeq, seen := w.seen, ended := w.ended, unknown := w.unknown)
              && ChannelTracks(w, L + [f], Content) && ChannelTracks(w, L + [f], Metadata)
  {
    hide StreamCount, InStream, StreamOpen;
    StreamOpenFlag(v, L, f);
    if EnterChannel(v, f.H()).Ok? {
      ChannelTracksStep(v, EnterChannel(v, f.H()).value, L, f, Content);
      ChannelTracksStep(v, EnterChannel(v, f.H()).value, L, f, Metadata);
    }
  }

  /** What remains of MayFollow once identity, block size and integrity are set aside. */
  ghost predicate SequenceFollows(L: seq<Record>, f: Record) {
    && f.H().global == |L|
    && (!f.IsEnd() ==>
          && SliceFollows(L, f)
          && f.H().channelSeq == StreamCount(L, f.H().slice, f.H().channel)
          && StreamOpen(L, f))
    && LeftSlicesClosed(L, f)
  }

  ghost predicate PlacedExactly(v: State, L: seq<Record>, f: Record) {
    && (Place(v, f).Ok? <==> SequenceFollows(L, f))
    && (Place(v, f).Ok? ==>
          var w := Place(v, f).value;
          && SequenceTracks(w, L + [f])
          && w.block == v.block && w.uuid == v.uuid && w.archiveLabel == v.archiveLabel
          && w.history == Remember(v.history, f) && w.replayNext == v.replayNext)
  }

  lemma PlaceEnd(v: State, L: seq<Record>, f: Record)
    requires SequenceTracks(v, L) && !v.sawEnd && NothingAfterEnd(L) && SlicesRise(L) && StreamsClosed(L)
    requires |L| + 1 < TWO_64 && f.IsEnd()
    ensures PlacedExactly(v, L, f)
  {
    if L != [] {
      LeavingAllowed(v, L, f);
    }
  }

  lemma PlaceBody(v: State, L: seq<Record>, f: Record)
    requires SequenceTracks(v, L) && !v.sawEnd && NothingAfterEnd(L) && SlicesRise(L) && StreamsClosed(L)
    requires |L| + 1 < TWO_64 && !f.IsEnd() && f.H().global == |L|
    ensures PlacedExactly(v, L, f)
  {
    hide EnterSlice, EnterChannel, ChannelTracks, NothingAfterEnd, SlicesRise, StreamsClosed, StreamOpen,
         LeftSlicesClosed, SliceFollows, StreamCount, Remember;
    var h := f.H();
    EnterSliceIgnoresExpected(v, f);
    SliceStep(v, L, f);
    if EnterSlice(v, h).Ok? {
      var w := EnterSlice(v, h).value;
      var x := w.(expected := |L| + 1);
      ChannelTracksSame(w, x, L);
      ChannelStep(x, L, f);
      if EnterChannel(x, h).Ok? {
        var y := EnterChannel(x, h).value;
        var z := y.(history := Remember(y.history, f));
        ChannelTracksSame(y, z, L + [f]);
        assert Place(v, f) == Ok(z);
        assert SequenceTracks(z, L + [f]);
      }
    }
  }

  lemma ChannelTracksSame(v: State, w: State, L: seq<Record>)
    requires ChannelTracks(v, L, Content) && ChannelTracks(v, L, Metadata)
    requires w.slice == v.slice && w.nextSeq == v.nextSeq && w.seen == v.seen
    requires w.ended == v.ended && w.unknown == v.unknown
    ensures ChannelTracks(w, L, Content) && ChannelTracks(w, L, Metadata)
  {
  }

  lemma PlaceStep(v: State, L: seq<Record>, f: Record)
    requires SequenceTracks(v, L) && !v.sawEnd && NothingAfterEnd(L) && SlicesRise(L) && StreamsClosed(L)
    requires |L| + 1 < TWO_64
    ensures PlacedExactly(v, L, f)
  {
    if f.IsEnd() {
      PlaceEnd(v, L, f);
    } else if f.H().global == |L| {
      PlaceBody(v, L, f);
    }
  }

  lemma EnterSliceIgnoresExpected(v: State, f: Record)
    requires v.expected + 1 < TWO_64
    ensures EnterSlice(v.(expected := v.expected + 1), f.H()) ==
              match EnterSlice(v, f.H())
              case Err(e) => Err(e)
              case Ok(w) => Ok(w.(expected := v.expected + 1))
  {
  }

  lemma JudgeNewFollows(v: State, L: seq<Record>, f: Record, restore: bool)
    requires Tracks(v, L) && NothingAfterEnd(L) && SlicesRise(L) && StreamsClosed(L) && |L| + 1 < TWO_64
    ensures JudgeNew(v, f, restore && f.IsMetadata()).Ok? <==> MayFollow(L, f, restore)
    ensures JudgeNew(v, f, restore && f.IsMetadata()).Ok? ==>
              var w := JudgeNew(v, f, restore && f.IsMetadata()).value;
              && Tracks(w, L + [f])
              && w.history == Remember(v.history, f) && w.replayNext == v.replayNext
  {
    IdentityStep(v, L, f);
    if !v.sawEnd && CheckIdentity(v, f).Ok? {
      var u := CheckIdentity(v, f).value;
      assert u == v.(block := u.block, uuid := u.uuid, archiveLabel := u.archiveLabel);
      SequenceIgnoresIdentity(v, u, L);
      PlaceStep(u, L, f);
      if Place(u, f).Ok? {
        IdentityIgnoresSequence(u, Place(u, f).value, L + [f]);
      }
    }
  }

  lemma SequenceIgnoresIdentity(v: State, u: State, L: seq<Record>)
    requires SequenceTracks(v, L)
    requires u == v.(block := u.block, uuid := u.uuid, archiveLabel := u.archiveLabel)
    ensures SequenceTracks(u, L)
  {
  }

  lemma IdentityIgnoresSequence(v: State, u: State, L: seq<Record>)
    requires IdentityTracks(v, L)
    requires u.block == v.block && u.uuid == v.uuid && u.archiveLabel == v.archiveLabel
    ensures IdentityTracks(u, L)
  {
  }

  /** One step: a record that is not a replay is accepted exactly when the
      grammar lets it follow the records accepted so far. */
  lemma JudgeNewExact(v: State, L: seq<Record>, f: Record, restore: bool)
    requires Tracks(v, L) && ArchiveGrammar(L, restore) && |L| + 1 < TWO_64
    ensures JudgeNew(v, f, restore && f.IsMetadata()).Ok? <==> ArchiveGrammar(L + [f], restore)
    ensures JudgeNew(v, f, restore && f.IsMetadata()).Ok? ==>
              var w := JudgeNew(v, f, restore && f.IsMetadata()).value;
              && Tracks(w, L + [f])
              && w.history == Remember(v.history, f) && w.replayNext == v.replayNext
  {
    GrammarSnoc(L, f, restore);
    JudgeNewFollows(v, L, f, restore);
  }
}
