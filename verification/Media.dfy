// Records as they travel: frames of the archive sealed for a volume, and why
// every run of them is accepted from any starting point.
module Media {
  import opened Base
  import opened Format
  import opened Sealing
  import opened Validator
  import opened Grammar
  import opened Seeding
  import opened FrameBuilder
  import opened Producer
  import opened VolumeServer

  /** What the receiver makes of a record's bytes: parsed and checked, or refused. */
  function Arrived(hash: Hasher, data: seq<u8>): Option<Record> {
    match CheckFrame(hash, data)
    case Err(_) => None
    case Ok(frame) => Some(Received(frame, data))
  }

  function SealedRecord(o: Options, f: LogicalFrame, volume: u64): Record
    requires Sealable(f.header, f.body)
  {
    Received(CheckedFrame(SealHeader(o.hash, o.signer, f.header.(volume := volume), f.body), true, true),
             SealFor(o, f, volume))
  }

  /** A sealed frame arrives intact, carrying the logical frame. */
  lemma SealedArrives(o: Options, f: LogicalFrame, volume: u64)
    requires Sealable(f.header, f.body)
    ensures Arrived(o.hash, SealFor(o, f, volume)) == Some(SealedRecord(o, f, volume))
    ensures var r := SealedRecord(o, f, volume);
            && Carries(r, f) && r.H().volume == volume && r.H().global == f.header.global
            && (r.IsEnd() <==> f.header.channel.ArchiveEnd?)
  {
    var h := f.header.(volume := volume);
    assert HeaderRule(h) == HeaderRule(f.header);
    CheckSealed(o.hash, o.signer, h, f.body);
    WithSignedKeepsOthers(f.header.flags, o.signer.Some?);
  }

  function SealedFrames(o: Options, fs: seq<LogicalFrame>, volume: u64): (rs: seq<Record>)
    requires forall i :: 0 <= i < |fs| ==> Sealable(fs[i].header, fs[i].body)
    ensures |rs| == |fs|
    ensures forall i :: 0 <= i < |fs| ==> rs[i] == SealedRecord(o, fs[i], volume)
  {
    seq(|fs|, i requires 0 <= i < |fs| => SealedRecord(o, fs[i], volume))
  }

  ghost predicate AllSealable(fs: seq<LogicalFrame>) {
    forall i :: 0 <= i < |fs| ==> Sealable(fs[i].header, fs[i].body)
  }

  lemma ArchiveIsSealable(id: Identity, fs: seq<LogicalFrame>)
    requires id.Valid() && ArchiveOf(id, fs)
    ensures AllSealable(fs) && |fs| < TWO_64
    ensures forall i :: 0 <= i < |fs| ==> fs[i].header.global == i
  {
    forall i | 0 <= i < |fs| ensures Sealable(fs[i].header, fs[i].body) && fs[i].header.global == i {
      SealableFrame(id, fs, i);
    }
  }

  lemma SealedFramesCarry(o: Options, fs: seq<LogicalFrame>, volume: u64)
    requires AllSealable(fs)
    ensures CarriesAll(SealedFrames(o, fs, volume), fs)
  {
    forall i | 0 <= i < |fs| ensures Carries(SealedFrames(o, fs, volume)[i], fs[i]) {
      SealedArrives(o, fs[i], volume);
    }
  }

  /** However its frames are sealed, the archive is in the grammar. */
  ghost predicate Lawful(fs: seq<LogicalFrame>) {
    forall rs: seq<Record>, restore: bool {:trigger ArchiveGrammar(rs, restore)} ::
      CarriesAll(rs, fs) ==> ArchiveGrammar(rs, restore)
  }

  lemma ProducedIsLawful(id: Identity, catalog: seq<u8>, slices: seq<seq<u8>>)
    requires id.Valid() && InRange(catalog, slices) && NoEmptySliceInside(catalog, slices)
    ensures Lawful(ArchiveFrames(id, catalog, slices))
  {
    var fs := ArchiveFrames(id, catalog, slices);
    forall rs: seq<Record>, restore: bool | CarriesAll(rs, fs) ensures ArchiveGrammar(rs, restore) {
      ProducerAccepted(hash => Zeros(32), id, catalog, slices, rs, restore);
    }
  }

  /** An empty slice before a non-empty one is refused, already in an archive of
      three one-byte slices of which the middle one is empty, or of which the first
      of two is. */
  lemma EmptySliceRefused(o: Options, volume: u64, restore: bool)
    requires o.Valid()
    ensures InRange([], [[7], [], [7]]) && InRange([], [[], [7]])
    ensures var fs := ArchiveFrames(o.id, [], [[7], [], [7]]);
            AllSealable(fs) && FeedFrom(o.hash, Fresh, SealedFrames(o, fs, volume), restore).Err?
    ensures var fs := ArchiveFrames(o.id, [], [[], [7]]);
            AllSealable(fs) && FeedFrom(o.hash, Fresh, SealedFrames(o, fs, volume), restore).Err?
  {
    SmallSlices();
    RefusedFor(o, [[7], [], [7]], 2, volume, restore);
    RefusedFor(o, [[], [7]], 1, volume, restore);
  }

  lemma SmallSlices()
    ensures TotalBytes([[7], [], [7]]) == 2 && TotalBytes([[], [7]]) == 1
  {
    assert [[7], [], [7]][1..] == [[], [7]];
    assert [[], [7]][1..] == [[7]];
    assert [[7]][1..] == [];
    assert TotalBytes([[7]]) == 1;
  }

  lemma RefusedFor(o: Options, slices: seq<seq<u8>>, i: nat, volume: u64, restore: bool)
    requires o.Valid() && InRange([], slices)
    requires 0 < i < |slices| && slices[i] != [] && slices[i - 1] == []
    ensures var fs := ArchiveFrames(o.id, [], slices);
            AllSealable(fs) && FeedFrom(o.hash, Fresh, SealedFrames(o, fs, volume), restore).Err?
  {
    hide ArchiveFrames, ArchiveOf, FeedFrom, ArchiveGrammar;
    var fs := ArchiveFrames(o.id, [], slices);
    ProducedArchive(o.id, [], slices);
    ArchiveIsSealable(o.id, fs);
    SealedFramesCarry(o, fs, volume);
    ProducerAccepted(o.hash, o.id, [], slices, SealedFrames(o, fs, volume), restore);
  }

  lemma ProducedArchive(id: Identity, catalog: seq<u8>, slices: seq<seq<u8>>)
    requires id.Valid() && InRange(catalog, slices)
    ensures ArchiveOf(id, ArchiveFrames(id, catalog, slices))
  {
    hide BodyNumbered, BodyFrames;
    BodyNumbers(id, catalog, slices);
    var fs := ArchiveFrames(id, catalog, slices);
    assert fs[..|fs| - 1] == BodyFrames(id, catalog, slices);
  }

  lemma {:induction false} GrammarTake(L: seq<Record>, n: nat, restore: bool)
    requires ArchiveGrammar(L, restore) && n <= |L|
    ensures ArchiveGrammar(L[..n], restore)
    decreases |L|
  {
    hide ArchiveGrammar;
    if n < |L| {
      var M, f := L[..|L| - 1], L[|L| - 1];
      assert L == M + [f];
      GrammarPrefix(M, f, restore);
      GrammarTake(M, n, restore);
      assert M[..n] == L[..n];
    } else {
      assert L[..n] == L;
    }
  }

  /** Any records that carry a beginning of the archive are in the grammar. */
  lemma CarriedPrefix(o: Options, fs: seq<LogicalFrame>, L: seq<Record>, restore: bool)
    requires Lawful(fs) && AllSealable(fs) && |L| <= |fs| && CarriesAll(L, fs[..|L|])
    ensures ArchiveGrammar(L, restore)
  {
    hide ArchiveGrammar, Carries;
    var whole := L + SealedFrames(o, fs, 0)[|L|..];
    SealedFramesCarry(o, fs, 0);
    forall i | 0 <= i < |fs| ensures Carries(whole[i], fs[i]) {
      if i < |L| {
        assert Carries(L[i], fs[..|L|][i]);
      } else {
        assert Carries(SealedFrames(o, fs, 0)[i], fs[i]);
      }
    }
    assert ArchiveGrammar(whole, restore);
    GrammarTake(whole, |L|, restore);
    assert whole[..|L|] == L;
  }

  // ------------------------------------------------- one volume's validator

  /** A validator seeded at the volume's first record, after n of its records. */
  function VolumeState(o: Options, fs: seq<LogicalFrame>, volume: u64, start: nat, n: nat): Result<State, Fault>
    requires AllSealable(fs) && start + n <= |fs| && start < |fs|
  {
    var L := SealedFrames(o, fs, volume);
    FeedFrom(o.hash, Seeded(L[start].H()), L[start..start + n], false)
  }

  lemma SealedNumbers(o: Options, fs: seq<LogicalFrame>, volume: u64, i: nat)
    requires AllSealable(fs) && i < |fs| && fs[i].header.global == i
    ensures SealedFrames(o, fs, volume)[i].H().global == i
  {
    SealedArrives(o, fs[i], volume);
  }

  lemma VolumeStateOk(o: Options, fs: seq<LogicalFrame>, volume: u64, start: nat, n: nat)
    requires AllSealable(fs) && Lawful(fs) && start + n <= |fs| && start < |fs| < TWO_64
    ensures VolumeState(o, fs, volume, start, n).Ok?
  {
    hide ArchiveGrammar, FeedFrom;
    var L := SealedFrames(o, fs, volume);
    SealedFramesCarry(o, fs, volume);
    assert ArchiveGrammar(L, false);
    SeededAcceptsSuffix(o.hash, L, start, false);
    assert L[start..] == L[start..start + n] + L[start + n..];
    FeedAppend(o.hash, Seeded(L[start].H()), L[start..start + n], L[start + n..], false);
  }

  /** After part of a suffix the seeded validator expects the next record. */
  lemma SuffixExpects(hash: Hasher, L: seq<Record>, start: nat, n: nat)
    requires ArchiveGrammar(L, false) && start + n <= |L| && start < |L| < TWO_64 && n > 0
    ensures var r := FeedFrom(hash, Seeded(L[start].H()), L[start..start + n], false);
            r.Ok? && r.value.expected == start + n && r.value.replayNext == None
  {
    hide ArchiveGrammar, Tracks, FeedFrom;
    var A, S := L[..start], L[start..start + n];
    GrammarTake(L, start + n, false);
    assert L[..start + n] == A + S;
    SuffixSim(hash, A, S, false);
    FreshAccepts(hash, A + S, false);
    TracksCount(FeedFrom(hash, Fresh, A + S, false).value, A + S);
    assert S[0] == L[start];
  }

  lemma VolumeStateExpects(o: Options, fs: seq<LogicalFrame>, volume: u64, start: nat, n: nat)
    requires AllSealable(fs) && Lawful(fs) && start + n <= |fs| && start < |fs| < TWO_64
    requires fs[start].header.global == start
    ensures VolumeState(o, fs, volume, start, n).Ok?
    ensures VolumeState(o, fs, volume, start, n).value.expected == start + n
    ensures VolumeState(o, fs, volume, start, n).value.replayNext == None
  {
    hide ArchiveGrammar, FeedFrom, Sealable, Carries, SealFor;
    var L := SealedFrames(o, fs, volume);
    if n == 0 {
      SealedNumbers(o, fs, volume, start);
      assert L[start..start + 0] == [];
      FeedEmpty(o.hash, Seeded(L[start].H()), false);
    } else {
      SealedFramesCarry(o, fs, volume);
      assert ArchiveGrammar(L, false);
      SuffixExpects(o.hash, L, start, n);
    }
  }

  /** The next record of the volume is accepted, and not as a replay. */
  lemma VolumeStateStep(o: Options, fs: seq<LogicalFrame>, volume: u64, start: nat, n: nat)
    requires AllSealable(fs) && Lawful(fs) && start + n < |fs| < TWO_64
    requires forall i :: 0 <= i < |fs| ==> fs[i].header.global == i
    ensures VolumeState(o, fs, volume, start, n).Ok? && VolumeState(o, fs, volume, start, n + 1).Ok?
    ensures Judge(o.hash, VolumeState(o, fs, volume, start, n).value, SealedRecord(o, fs[start + n], volume), false) ==
              Ok(Verdict(VolumeState(o, fs, volume, start, n + 1).value, false))
    ensures VolumeState(o, fs, volume, start, 0) == Ok(Seeded(SealedRecord(o, fs[start], volume).H()))
  {
    hide Judge, ArchiveGrammar, JudgeNew, SealFor, Seeded, Sealable, Carries, CarriesAll, SealHeader;
    var L := SealedFrames(o, fs, volume);
    VolumeStateExpects(o, fs, volume, start, n);
    VolumeStateOk(o, fs, volume, start, n + 1);
    SealedNumbers(o, fs, volume, start + n);
    var M, r := L[start..start + n], L[start + n];
    assert L[start..start + n + 1][..n] == M && L[start..start + n + 1][n] == r;
    NotReplay(o.hash, VolumeState(o, fs, volume, start, n).value, r);
    assert L[start..start + 0] == [];
  }

  lemma NotReplay(hash: Hasher, v: State, r: Record)
    requires v.expected <= r.H().global && v.replayNext == None
    ensures Judge(hash, v, r, false).Ok? ==> !Judge(hash, v, r, false).value.replay
  {
    JudgeWithoutReplay(hash, v, r, false);
  }
}
