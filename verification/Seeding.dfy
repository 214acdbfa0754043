// Reading may begin at any record: a validator seeded from the header found
// there accepts every suffix of an archive that a fresh validator accepts.
module Seeding {
  import opened Base
  import opened Format
  import opened Sealing
  import opened Validator
  import opened Grammar

  /** A validator fed with records on one connection. */
  function FeedFrom(hash: Hasher, v: State, L: seq<Record>, restore: bool): Result<State, Fault> {
    if L == [] then Ok(v)
    else
      match FeedFrom(hash, v, L[..|L| - 1], restore)
      case Err(e) => Err(e)
      case Ok(u) =>
        match Judge(hash, u, L[|L| - 1], restore && L[|L| - 1].IsMetadata())
        case Err(e) => Err(e)
        case Ok(verdict) => Ok(verdict.next)
  }

  /** The two validators agree on what was seen since the seeded one started;
      a channel the seeded one has not seen yet is unconstrained there. */
  ghost predicate SimChannel(full: State, part: State, c: ChannelType)
    requires !c.ArchiveEnd?
  {
    && !full.unknown.Get(c)
    && (part.seen.Get(c) ==>
          && full.seen.Get(c)
          && part.ended.Get(c) == full.ended.Get(c)
          && !part.unknown.Get(c)
          && part.nextSeq.Get(c) == full.nextSeq.Get(c))
    && (!part.seen.Get(c) ==>
          && !part.ended.Get(c)
          && (part.unknown.Get(c) || part.nextSeq.Get(c) == full.nextSeq.Get(c)))
  }

  ghost predicate SimIdentity(full: State, part: State) {
    && (part.block == 0 || part.block == full.block)
    && (part.uuid == [] || (part.uuid == full.uuid && part.archiveLabel == full.archiveLabel))
  }

  ghost predicate SimSlice(full: State, part: State) {
    && part.seeded
    && (part.sawAny ==> full.sawAny && part.slice == full.slice)
    && (!part.sawAny ==> part.unknown == Both(true) && part.seen == Both(false))
    && SimChannel(full, part, Content)
    && SimChannel(full, part, Metadata)
  }

  ghost predicate Sim(full: State, part: State) {
    && part.expected == full.expected
    && part.sawEnd == full.sawEnd
    && SimIdentity(full, part)
    && SimSlice(full, part)
  }

  lemma SimIdentityStep(full: State, part: State, f: Record)
    requires SimIdentity(full, part) && CheckIdentity(full, f).Ok?
    ensures CheckIdentity(part, f).Ok?
    ensures SimIdentity(CheckIdentity(full, f).value, CheckIdentity(part, f).value)
  {
  }

  lemma SimSliceStep(full: State, part: State, h: FrameHeader)
    requires SimSlice(full, part) && EnterSlice(full, h).Ok?
    ensures EnterSlice(part, h).Ok?
    ensures var f, p := EnterSlice(full, h).value, EnterSlice(part, h).value;
            SimSlice(f, p) && p.sawAny && f.slice == h.slice
  {
  }

  lemma SimChannelStep(full: State, part: State, h: FrameHeader)
    requires SimSlice(full, part) && part.sawAny && !h.channel.ArchiveEnd? && EnterChannel(full, h).Ok?
    ensures EnterChannel(part, h).Ok?
    ensures SimSlice(EnterChannel(full, h).value, EnterChannel(part, h).value)
  {
  }

  /** The fields that the slice and channel checks read and write. */
  predicate SamePlace(v: State, w: State) {
    && v.seeded == w.seeded && v.sawAny == w.sawAny && v.slice == w.slice && v.nextSeq == w.nextSeq
    && v.seen == w.seen && v.ended == w.ended && v.unknown == w.unknown
  }

  lemma SimSliceMoves(full: State, part: State, full1: State, part1: State)
    requires SimSlice(full, part) && SamePlace(full, full1) && SamePlace(part, part1)
    ensures SimSlice(full1, part1)
  {
  }

  /** They leave the other fields alone. */
  predicate SameRest(v: State, w: State) {
    && v.expected == w.expected && v.sawEnd == w.sawEnd && v.block == w.block
    && v.uuid == w.uuid && v.archiveLabel == w.archiveLabel
  }

  lemma EnterKeepsRest(v: State, h: FrameHeader)
    ensures EnterSlice(v, h).Ok? ==> SameRest(v, EnterSlice(v, h).value)
    ensures !h.channel.ArchiveEnd? && EnterChannel(v, h).Ok? ==> SameRest(v, EnterChannel(v, h).value)
  {
  }

  lemma SimPlaceBody(full: State, part: State, f: Record)
    requires Sim(full, part) && !f.IsEnd() && Place(full, f).Ok?
    ensures Place(part, f).Ok? && Sim(Place(full, f).value, Place(part, f).value)
  {
    hide EnterSlice, EnterChannel, SimSlice, Remember;
    var h := f.H();
    var full1, part1 := full.(expected := Succ(h.global)), part.(expected := Succ(h.global));
    SimSliceMoves(full, part, full1, part1);
    SimSliceStep(full1, part1, h);
    EnterKeepsRest(full1, h);
    EnterKeepsRest(part1, h);
    var full2, part2 := EnterSlice(full1, h).value, EnterSlice(part1, h).value;
    SimChannelStep(full2, part2, h);
    EnterKeepsRest(full2, h);
    EnterKeepsRest(part2, h);
    SimSliceMoves(EnterChannel(full2, h).value, EnterChannel(part2, h).value,
                  Place(full, f).value, Place(part, f).value);
  }

  lemma SimPlaceEnd(full: State, part: State, f: Record)
    requires Sim(full, part) && f.IsEnd() && Place(full, f).Ok?
    ensures Place(part, f).Ok? && Sim(Place(full, f).value, Place(part, f).value)
  {
  }

  lemma SimAfterIdentity(full: State, part: State, full1: State, part1: State)
    requires Sim(full, part) && SimIdentity(full1, part1)
    requires full1 == full.(block := full1.block, uuid := full1.uuid, archiveLabel := full1.archiveLabel)
    requires part1 == part.(block := part1.block, uuid := part1.uuid, archiveLabel := part1.archiveLabel)
    ensures Sim(full1, part1)
  {
  }

  lemma SimStep(full: State, part: State, f: Record, allowBadHash: bool)
    requires Sim(full, part) && JudgeNew(full, f, allowBadHash).Ok?
    ensures JudgeNew(part, f, allowBadHash).Ok?
    ensures Sim(JudgeNew(full, f, allowBadHash).value, JudgeNew(part, f, allowBadHash).value)
  {
    SimIdentityStep(full, part, f);
    var full1, part1 := CheckIdentity(full, f).value, CheckIdentity(part, f).value;
    SimAfterIdentity(full, part, full1, part1);
    if f.IsEnd() {
      SimPlaceEnd(full1, part1, f);
    } else {
      SimPlaceBody(full1, part1, f);
    }
  }

  lemma JudgeWithoutReplay(hash: Hasher, v: State, f: Record, allowBadHash: bool)
    requires v.replayNext == None && f.H().global >= v.expected
    ensures Judge(hash, v, f, allowBadHash) ==
              match JudgeNew(v, f, allowBadHash)
              case Err(e) => Err(e)
              case Ok(w) => Ok(Verdict(w, false))
  {
  }

  lemma JudgeNewKeepsCursor(v: State, f: Record, allowBadHash: bool)
    requires JudgeNew(v, f, allowBadHash).Ok?
    ensures JudgeNew(v, f, allowBadHash).value.replayNext == v.replayNext
    ensures f.H().global == v.expected
  {
  }

  /** A fresh validator accepts every replay-free archive, and then tracks it. */
  lemma {:induction false} FreshAccepts(hash: Hasher, L: seq<Record>, restore: bool)
    requires ArchiveGrammar(L, restore) && |L| < TWO_64
    ensures FeedFrom(hash, Fresh, L, restore).Ok?
    ensures var v := FeedFrom(hash, Fresh, L, restore).value;
            Tracks(v, L) && v.replayNext == None
  {
    if L != [] {
      var M, f := L[..|L| - 1], L[|L| - 1];
      assert L == M + [f];
      GrammarSnoc(M, f, restore);
      FreshAccepts(hash, M, restore);
      var v := FeedFrom(hash, Fresh, M, restore).value;
      JudgeNewExact(v, M, f, restore);
      JudgeNewKeepsCursor(v, f, restore && f.IsMetadata());
      JudgeWithoutReplay(hash, v, f, restore && f.IsMetadata());
    }
  }

  /** On records that are no replays, acceptance is membership in the grammar. */
  lemma {:induction false} FreshAcceptsExactly(hash: Hasher, L: seq<Record>, restore: bool)
    requires |L| < TWO_64
    requires forall i :: 0 <= i < |L| ==> L[i].H().global >= i
    ensures FeedFrom(hash, Fresh, L, restore).Ok? <==> ArchiveGrammar(L, restore)
  {
    hide ArchiveGrammar, Tracks;
    if L == [] {
      EmptyArchive(restore);
    } else {
      var M, f := L[..|L| - 1], L[|L| - 1];
      assert L == M + [f];
      GrammarSnoc(M, f, restore);
      FreshAcceptsExactly(hash, M, restore);
      if ArchiveGrammar(M, restore) {
        FreshAccepts(hash, M, restore);
        var v := FeedFrom(hash, Fresh, M, restore).value;
        JudgeNewExact(v, M, f, restore);
        TracksCount(v, M);
        JudgeWithoutReplay(hash, v, f, restore && f.IsMetadata());
      }
    }
  }

  lemma EmptyArchive(restore: bool)
    ensures ArchiveGrammar([], restore)
  {
  }

  lemma SeededSim(full: State, f: Record, L: seq<Record>)
    requires Tracks(full, L) && f.H().global == |L| && !full.sawEnd
    ensures Sim(full, Seeded(f.H()))
  {
  }

  lemma FeedStep(hash: Hasher, v: State, L: seq<Record>, f: Record, restore: bool)
    requires FeedFrom(hash, v, L, restore).Ok?
    requires var u := FeedFrom(hash, v, L, restore).value;
             u.replayNext == None && JudgeNew(u, f, restore && f.IsMetadata()).Ok?
    ensures var u := FeedFrom(hash, v, L, restore).value;
            FeedFrom(hash, v, L + [f], restore) == Ok(JudgeNew(u, f, restore && f.IsMetadata()).value)
    ensures FeedFrom(hash, v, L + [f], restore).value.replayNext == None
  {
    var u := FeedFrom(hash, v, L, restore).value;
    JudgeNewKeepsCursor(u, f, restore && f.IsMetadata());
    JudgeWithoutReplay(hash, u, f, restore && f.IsMetadata());
    assert (L + [f])[..|L|] == L;
  }

  lemma FullStep(hash: Hasher, L: seq<Record>, f: Record, restore: bool)
    requires ArchiveGrammar(L + [f], restore) && |L| + 1 < TWO_64
    ensures ArchiveGrammar(L, restore)
    ensures FeedFrom(hash, Fresh, L, restore).Ok?
    ensures var u := FeedFrom(hash, Fresh, L, restore).value;
            && Tracks(u, L)
            && JudgeNew(u, f, restore && f.IsMetadata()).Ok?
            && FeedFrom(hash, Fresh, L + [f], restore) == Ok(JudgeNew(u, f, restore && f.IsMetadata()).value)
  {
    GrammarSnoc(L, f, restore);
    FreshAccepts(hash, L, restore);
    var u := FeedFrom(hash, Fresh, L, restore).value;
    JudgeNewExact(u, L, f, restore);
    FeedStep(hash, Fresh, L, f, restore);
  }

  ghost predicate SuffixSimulates(hash: Hasher, A: seq<Record>, S: seq<Record>, restore: bool)
    requires S != []
  {
    var part := FeedFrom(hash, Seeded(S[0].H()), S, restore);
    var full := FeedFrom(hash, Fresh, A + S, restore);
    part.Ok? && full.Ok? && part.value.replayNext == None && Sim(full.value, part.value)
  }

  lemma FirstRecord(hash: Hasher, A: seq<Record>, f: Record, restore: bool)
    requires ArchiveGrammar(A + [f], restore) && |A| + 1 < TWO_64
    ensures SuffixSimulates(hash, A, [f], restore)
  {
    hide ArchiveGrammar, Sim;
    FullStep(hash, A, f, restore);
    var full := FeedFrom(hash, Fresh, A, restore).value;
    JudgeNewKeepsCursor(full, f, restore && f.IsMetadata());
    SeededSim(full, f, A);
    SimStep(full, Seeded(f.H()), f, restore && f.IsMetadata());
    FeedStep(hash, Seeded(f.H()), [], f, restore);
    assert [] + [f] == [f];
  }

  lemma NextRecord(hash: Hasher, A: seq<Record>, S: seq<Record>, f: Record, restore: bool)
    requires S != [] && SuffixSimulates(hash, A, S, restore)
    requires ArchiveGrammar((A + S) + [f], restore) && |A + S| + 1 < TWO_64
    ensures SuffixSimulates(hash, A, S + [f], restore)
  {
    hide ArchiveGrammar, Tracks, Sim;
    FullStep(hash, A + S, f, restore);
    var full := FeedFrom(hash, Fresh, A + S, restore).value;
    var part := FeedFrom(hash, Seeded(S[0].H()), S, restore).value;
    SimStep(full, part, f, restore && f.IsMetadata());
    FeedStep(hash, Seeded(S[0].H()), S, f, restore);
    assert A + (S + [f]) == (A + S) + [f];
    assert (S + [f])[0] == S[0];
  }

  lemma {:induction false} SuffixSim(hash: Hasher, A: seq<Record>, S: seq<Record>, restore: bool)
    requires S != [] && ArchiveGrammar(A + S, restore) && |A + S| < TWO_64
    ensures SuffixSimulates(hash, A, S, restore)
    decreases |S|
  {
    var T, f := S[..|S| - 1], S[|S| - 1];
    assert S == T + [f];
    if T == [] {
      FirstRecord(hash, A, f, restore);
    } else {
      assert A + S == (A + T) + [f];
      GrammarSnoc(A + T, f, restore);
      SuffixSim(hash, A, T, restore);
      NextRecord(hash, A, T, f, restore);
    }
  }

  /** Every position of a replay-free archive is a valid place to start reading:
      the seeded validator accepts the suffix from there to the end. */
  lemma SeededAcceptsSuffix(hash: Hasher, L: seq<Record>, k: nat, restore: bool)
    requires ArchiveGrammar(L, restore) && |L| < TWO_64 && k < |L|
    ensures FeedFrom(hash, Seeded(L[k].H()), L[k..], restore).Ok?
  {
    assert L[..k] + L[k..] == L;
    SuffixSim(hash, L[..k], L[k..], restore);
  }
}
