// What damage a restore survives: metadata may be damaged anywhere, content and
// the archive end nowhere.
module Damage {
  import opened Base
  import opened Format
  import opened FormatTheorems
  import opened Sealing
  import opened Validator
  import opened Grammar
  import opened Replays
  import opened FrameBuilder
  import opened Producer
  import opened VolumeServer
  import opened Media
  import opened Transfer
  import opened Extractor
  import opened EndToEnd
  import opened ArchiveTheorem
  import opened Restore

  /** The record of the frame with the header it was sealed with for some volume,
      and any other bytes after it. */
  ghost predicate HeaderSurvives(o: Options, f: LogicalFrame, bytes: seq<u8>, volume: u64) {
    var s := SealFor(o, f, volume);
    |bytes| == |s| && |s| >= HEADER_SIZE && bytes[..HEADER_SIZE] == s[..HEADER_SIZE]
  }

  /** A metadata frame may be damaged behind its header; other frames are intact. */
  ghost predicate Survives(o: Options, f: LogicalFrame, bytes: seq<u8>, volume: u64) {
    bytes == SealFor(o, f, volume) || (f.header.channel.Metadata? && HeaderSurvives(o, f, bytes, volume))
  }

  /** With its header intact a record parses, has the right size, and its header is
      the sealed one; whether its hash verifies is another matter. */
  lemma SurvivorArrives(o: Options, f: LogicalFrame, bytes: seq<u8>, volume: u64)
    requires Sealable(f.header, f.body) && HeaderSurvives(o, f, bytes, volume)
    ensures var r := Arrived(o.hash, bytes);
            && r.Some? && r.value.H() == SealedRecord(o, f, volume).H() && r.value.frame.sizeOk
            && r.value.data == bytes
  {
    hide HeaderRule, HeaderImage, SealHeader, StringsFit, ParseHeader, FrameHash;
    var h := f.header.(volume := volume);
    RuleIgnoresVolume(f.header, volume);
    SealableForVolume(f.header, f.body, volume);
    var sealed := SealHeader(o.hash, o.signer, h, f.body);
    SplitSeal(o.hash, o.signer, h, f.body);
    ParseSealed(o.hash, o.signer, h, f.body);
    SealObeysRules(o.hash, o.signer, h, f.body);
    ParseOfImage(sealed, bytes);
    ParseOfImage(sealed, SealFor(o, f, volume));
    CheckFrameExactly(o.hash, bytes);
    SealedSize(o, f, volume);
  }

  lemma SealableForVolume(h: FrameHeader, body: seq<u8>, v: u64)
    requires Sealable(h, body)
    ensures Sealable(h.(volume := v), body)
  {
    RuleIgnoresVolume(h, v);
  }

  lemma SplitSeal(hash: Hasher, signer: Signer, h: FrameHeader, body: seq<u8>)
    ensures |SealRecord(hash, signer, h, body)| == HEADER_SIZE + |body|
    ensures SealRecord(hash, signer, h, body)[..HEADER_SIZE] == HeaderImage(SealHeader(hash, signer, h, body))
  {
  }

  lemma SealedSize(o: Options, f: LogicalFrame, volume: u64)
    requires Sealable(f.header, f.body)
    ensures |SealFor(o, f, volume)| == SealedRecord(o, f, volume).H().blockKib * 1024
    ensures SealedRecord(o, f, volume).H() == SealHeader(o.hash, o.signer, f.header.(volume := volume), f.body)
  {
  }

  // ------------------------------------------------- the grammar reads headers

  /** The same headers, and damage in metadata only. */
  ghost predicate LikeSealed(L: seq<Record>, M: seq<Record>) {
    |L| == |M| && forall i :: 0 <= i < |L| ==>
      && L[i].H() == M[i].H() && L[i].frame.sizeOk && (L[i].frame.hashOk || L[i].IsMetadata())
  }

  lemma LikePrefix(L: seq<Record>, M: seq<Record>, n: nat)
    requires LikeSealed(L, M) && n <= |L|
    ensures LikeSealed(L[..n], M[..n])
  {
  }

  lemma {:induction false} CountLike(L: seq<Record>, M: seq<Record>, slice: u64, c: ChannelType)
    requires LikeSealed(L, M)
    ensures StreamCount(L, slice, c) == StreamCount(M, slice, c)
    decreases |L|
  {
    if L != [] {
      LikePrefix(L, M, |L| - 1);
      CountLike(L[..|L| - 1], M[..|M| - 1], slice, c);
    }
  }

  lemma NumbersLike(L: seq<Record>, M: seq<Record>)
    requires LikeSealed(L, M) && StreamsNumbered(M)
    ensures StreamsNumbered(L)
  {
    forall i | 0 <= i < |L| && !L[i].IsEnd()
      ensures L[i].H().channelSeq == StreamCount(L[..i], L[i].H().slice, L[i].H().channel)
    {
      LikePrefix(L, M, i);
      CountLike(L[..i], M[..i], L[i].H().slice, L[i].H().channel);
      assert !M[i].IsEnd();
    }
  }

  lemma ClosedLike(L: seq<Record>, M: seq<Record>)
    requires LikeSealed(L, M) && StreamsClosed(M) && NothingAfterStreamEnd(M)
    ensures StreamsClosed(L) && NothingAfterStreamEnd(L)
  {
    forall i, j | 0 <= i < j < |L| && LeavesSlice(L[i], L[j]) ensures ClosedBefore(L, i, j) {
      assert LeavesSlice(M[i], M[j]);
      assert ClosedBefore(M, i, j);
      var k :| 0 <= k < j && SameStream(M[i], M[k]) && EndsStream(M[k]);
      assert SameStream(L[i], L[k]) && EndsStream(L[k]);
    }
    forall i, j | 0 <= i < j < |L| && SameStream(L[i], L[j]) ensures !EndsStream(L[i]) {
      assert SameStream(M[i], M[j]);
    }
  }

  lemma OrderLike(L: seq<Record>, M: seq<Record>)
    requires LikeSealed(L, M) && OneBlockSize(M) && OneIdentity(M) && Gapless(M) && NothingAfterEnd(M) && SlicesRise(M)
    ensures OneBlockSize(L) && OneIdentity(L) && Gapless(L) && NothingAfterEnd(L) && SlicesRise(L)
  {
    forall i, j | 0 <= i < j < |L| ensures DecodedBlockSize(L[i].H()) == DecodedBlockSize(L[j].H()) {
      assert DecodedBlockSize(M[i].H()) == DecodedBlockSize(M[j].H());
    }
    forall i, j | 0 <= i < j < |L| && L[i].H().uuid != []
      ensures L[j].H().uuid == L[i].H().uuid && L[j].H().archiveLabel == L[i].H().archiveLabel
    {
      assert M[i].H().uuid != [] && M[j].H() == L[j].H();
    }
    forall i | 0 <= i < |L| && L[i].IsEnd() ensures i == |L| - 1 {
      assert M[i].IsEnd();
    }
    forall i, j | 0 <= i && j == i + 1 && j < |L| && !L[j].IsEnd()
      ensures L[i].H().slice <= L[j].H().slice <= L[i].H().slice + 1
    {
      assert !M[j].IsEnd() && M[i].H() == L[i].H();
    }
  }

  /** Membership in the grammar of restores depends on the headers, and on no
      verdict about metadata. */
  lemma GrammarLike(L: seq<Record>, M: seq<Record>)
    requires LikeSealed(L, M) && ArchiveGrammar(M, true)
    ensures ArchiveGrammar(L, true)
  {
    hide OneBlockSize, OneIdentity, Gapless, NothingAfterEnd, SlicesRise, StreamsNumbered, NothingAfterStreamEnd,
         StreamsClosed;
    OrderLike(L, M);
    NumbersLike(L, M);
    ClosedLike(L, M);
  }

  // ------------------------------------------------------ one damaged connection

  ghost predicate Damaged(o: Options, fs: seq<LogicalFrame>, records: seq<seq<u8>>, volumes: seq<u64>) {
    |records| == |volumes| <= |fs|
    && forall i :: 0 <= i < |records| ==> Survives(o, fs[i], records[i], volumes[i])
  }

  /** The records of one connection as they arrive. */
  ghost predicate ArriveAs(hash: Hasher, records: seq<seq<u8>>, L: seq<Record>) {
    |L| == |records| && forall i :: 0 <= i < |L| ==> Arrived(hash, records[i]) == Some(L[i])
  }

  function OneConnection(L: seq<Record>): (P: seq<Arrival>)
    ensures |P| == |L| && forall i :: 0 <= i < |P| ==> P[i] == Arrival(L[i], i == 0)
  {
    seq(|L|, i requires 0 <= i < |L| => Arrival(L[i], i == 0))
  }

  lemma {:induction false} NoReplays(L: seq<Record>)
    requires Gapless(L)
    ensures Logical(OneConnection(L)) == L
    decreases |L|
  {
    if L != [] {
      var n := |L| - 1;
      NoReplays(L[..n]);
      assert OneConnection(L)[..n] == OneConnection(L[..n]);
      assert L == L[..n] + [L[n]];
    }
  }

  lemma LawfulWithout(hash: Hasher, L: seq<Record>)
    requires Gapless(L)
    ensures ReplaysLawful(hash, OneConnection(L))
  {
    var P := OneConnection(L);
    forall i | 0 <= i < |P| ensures ReplayRules(hash, P, i) {
      LogicalPart(L, i);
      if i > 0 {
        assert P[..i][..i - 1] == P[..i - 1];
        LogicalPart(L, i - 1);
      }
    }
  }

  lemma LogicalPart(L: seq<Record>, i: nat)
    requires Gapless(L) && i <= |L|
    ensures Logical(OneConnection(L)[..i]) == L[..i]
  {
    assert OneConnection(L)[..i] == OneConnection(L[..i]);
    NoReplays(L[..i]);
  }

  /** Every record up to the archive end is read. */
  lemma {:induction false} StreamIs(hash: Hasher, records: seq<seq<u8>>, L: seq<Record>)
    requires ArriveAs(hash, records, L) && Gapless(L) && NothingAfterEnd(L)
    ensures TakeRecords(hash, Stream([], false), records) == Stream(OneConnection(L), false)
    decreases |records|
  {
    hide Arrived, Logical;
    if records != [] {
      var n := |records| - 1;
      StreamIs(hash, records[..n], L[..n]);
      NoReplays(L[..n]);
      assert OneConnection(L) == OneConnection(L[..n]) + [Arrival(L[n], n == 0)];
      if n > 0 {
        assert !L[n - 1].IsEnd();
      }
    }
  }

  lemma OneTape(hash: Hasher, records: seq<seq<u8>>)
    ensures StreamOf(hash, [records]) == TakeRecords(hash, Stream([], false), records)
  {
    assert [records][..0] == [];
  }

  /** A single connection whose records all parse and carry the numbers 0, 1, 2, ...
      is accepted exactly when they are in the grammar. */
  lemma ConnectionExactly(hash: Hasher, records: seq<seq<u8>>, L: seq<Record>)
    requires ArriveAs(hash, records, L) && Gapless(L) && NothingAfterEnd(L) && |L| < TWO_64
    ensures var step := ReadAll(hash, false, [records]);
            && (step.Ok? <==> ArchiveGrammar(L, true))
            && (step.Ok? ==>
                  && step.value.output == ContentsOf(L) && step.value.metadata == VerifiedMetadata(L)
                  && step.value.processed == |L| && (step.value.sawEnd <==> L != [] && L[|L| - 1].IsEnd()))
  {
    hide ReadAll, ArchiveGrammar, Logical, ReplaysLawful, ContentsOf, VerifiedMetadata, TakeRecords, ArriveAs;
    StreamIs(hash, records, L);
    OneTape(hash, records);
    NoReplays(L);
    LawfulWithout(hash, L);
    RestoresExactly(hash, [records]);
  }

  // ------------------------------------------------- damage to produced archives

  /** The records as they arrive, and as they were sealed. */
  ghost function SealedAll(o: Options, fs: seq<LogicalFrame>, volumes: seq<u64>): (M: seq<Record>)
    requires AllSealable(fs) && |volumes| <= |fs|
    ensures |M| == |volumes| && forall i :: 0 <= i < |M| ==> M[i] == SealedRecord(o, fs[i], volumes[i])
  {
    seq(|volumes|, i requires 0 <= i < |volumes| => SealedRecord(o, fs[i], volumes[i]))
  }

  ghost function ArrivedAll(o: Options, records: seq<seq<u8>>): (L: seq<Record>)
    requires forall i :: 0 <= i < |records| ==> Arrived(o.hash, records[i]).Some?
    ensures ArriveAs(o.hash, records, L)
  {
    seq(|records|, i requires 0 <= i < |records| => Arrived(o.hash, records[i]).value)
  }

  /** A surviving record of a frame: the header as sealed, and only metadata damaged. */
  lemma SurvivesAs(o: Options, f: LogicalFrame, bytes: seq<u8>, volume: u64)
    requires Sealable(f.header, f.body) && Survives(o, f, bytes, volume)
    ensures var r := Arrived(o.hash, bytes);
            && r.Some? && r.value.H() == SealedRecord(o, f, volume).H() && r.value.frame.sizeOk
            && (!f.header.channel.Metadata? ==> r.value == SealedRecord(o, f, volume))
            && r.value.H().channel == f.header.channel && r.value.H().global == f.header.global
  {
    hide Sealable, SealFor, SealedRecord, CheckFrame;
    SealedArrives(o, f, volume);
    SealedSound(o, f, volume);
    if f.header.channel.Metadata? && HeaderSurvives(o, f, bytes, volume) {
      SurvivorArrives(o, f, bytes, volume);
    }
  }

  lemma SealedSound(o: Options, f: LogicalFrame, volume: u64)
    requires Sealable(f.header, f.body)
    ensures SealedRecord(o, f, volume).frame.sizeOk && SealedRecord(o, f, volume).H().channel == f.header.channel
  {
  }

  /** What arrives is like what was sealed. */
  lemma DamagedArrives(o: Options, fs: seq<LogicalFrame>, records: seq<seq<u8>>, volumes: seq<u64>)
    requires AllSealable(fs) && Damaged(o, fs, records, volumes)
    ensures forall i :: 0 <= i < |records| ==> Arrived(o.hash, records[i]).Some?
    ensures LikeSealed(ArrivedAll(o, records), SealedAll(o, fs, volumes))
    ensures forall i :: 0 <= i < |records| ==>
              var r := ArrivedAll(o, records)[i];
              && r.H().channel == fs[i].header.channel && r.H().global == fs[i].header.global
              && (r.H().channel.Content? ==> PayloadOf(r) == fs[i].Payload())
  {
    hide Arrived, SealedRecord, Sealable, PayloadOf, Survives;
    forall i | 0 <= i < |records| ensures Arrived(o.hash, records[i]).Some? {
      SurvivesAs(o, fs[i], records[i], volumes[i]);
    }
    var L, M := ArrivedAll(o, records), SealedAll(o, fs, volumes);
    forall i | 0 <= i < |L|
      ensures L[i].H() == M[i].H() && L[i].frame.sizeOk && (L[i].frame.hashOk || L[i].IsMetadata())
      ensures L[i].H().channel == fs[i].header.channel && L[i].H().global == fs[i].header.global
      ensures L[i].H().channel.Content? ==> PayloadOf(L[i]) == fs[i].Payload()
    {
      SurvivesAs(o, fs[i], records[i], volumes[i]);
      SealedPayload(o, fs[i], volumes[i]);
    }
  }

  lemma {:induction false} ContentsMatch(L: seq<Record>, fs: seq<LogicalFrame>)
    requires |L| == |fs|
    requires forall i :: 0 <= i < |L| ==>
               && L[i].H().channel == fs[i].header.channel
               && (L[i].H().channel.Content? ==> PayloadOf(L[i]) == fs[i].Payload())
    ensures ContentsOf(L) == ContentOf(fs)
  {
    hide PayloadOf;
    if L != [] {
      ContentsMatch(L[..|L| - 1], fs[..|fs| - 1]);
    }
  }

  lemma SealedInGrammar(o: Options, fs: seq<LogicalFrame>, volumes: seq<u64>)
    requires Lawful(fs) && AllSealable(fs) && |volumes| == |fs|
    ensures ArchiveGrammar(SealedAll(o, fs, volumes), true)
  {
    hide ArchiveGrammar, Carries, SealedRecord, Sealable;
    var M := SealedAll(o, fs, volumes);
    forall i | 0 <= i < |fs| ensures Carries(M[i], fs[i]) {
      SealedArrives(o, fs[i], volumes[i]);
    }
  }

  lemma ArchiveOfMany(o: Options, fs: seq<LogicalFrame>)
    requires o.Valid() && Readable(o, fs)
    ensures AllSealable(fs) && Lawful(fs) && 0 < |fs| < TWO_64
    ensures forall i :: 0 <= i < |fs| ==> fs[i].header.global == i
    ensures forall i :: 0 <= i < |fs| ==> (fs[i].header.channel.ArchiveEnd? <==> i == |fs| - 1)
  {
  }

  lemma NumberedByFrames(L: seq<Record>, fs: seq<LogicalFrame>)
    requires |L| == |fs| > 0
    requires forall i :: 0 <= i < |L| ==>
               L[i].H().channel == fs[i].header.channel && L[i].H().global == fs[i].header.global == i
    requires forall i :: 0 <= i < |fs| ==> (fs[i].header.channel.ArchiveEnd? <==> i == |fs| - 1)
    ensures Gapless(L) && NothingAfterEnd(L) && L[|L| - 1].IsEnd()
  {
  }

  /** Damaged metadata does not stop a restore. Whatever happens to the bytes of
      metadata frames behind their headers, one connection reads to the archive
      end, the content is complete, and the metadata is what still verifies. */
  lemma MetadataDamageSurvived(o: Options, catalog: seq<u8>, slices: seq<seq<u8>>,
                               records: seq<seq<u8>>, volumes: seq<u64>)
    requires o.Valid() && InRange(catalog, slices) && NoEmptySliceInside(catalog, slices)
    requires var fs := ArchiveFrames(o.id, catalog, slices);
             |records| == |fs| && Damaged(o, fs, records, volumes)
    ensures forall i :: 0 <= i < |records| ==> Arrived(o.hash, records[i]).Some?
    ensures var step := ReadAll(o.hash, false, [records]);
            && step.Ok? && step.value.sawEnd && step.value.output == Concat(slices)
            && step.value.metadata == VerifiedMetadata(ArrivedAll(o, records))
  {
    hide ArchiveFrames, ReadAll, ArchiveGrammar, Damaged, LikeSealed, NoEmptySliceInside, InRange, Readable,
         ContentsOf, VerifiedMetadata, ContentOf, MetadataOf, Concat, ArriveAs, PayloadOf, Gapless, NothingAfterEnd;
    var fs := ArchiveFrames(o.id, catalog, slices);
    ProducedIsLawful(o.id, catalog, slices);
    ProducedArchive(o.id, catalog, slices);
    ArchiveReadable(o, fs);
    ArchiveOfMany(o, fs);
    DamagedSize(o, fs, records, volumes);
    DamagedArrives(o, fs, records, volumes);
    var L := ArrivedAll(o, records);
    LengthOf(o, records);
    NumberedByFrames(L, fs);
    SealedInGrammar(o, fs, volumes);
    GrammarLike(L, SealedAll(o, fs, volumes));
    ConnectionExactly(o.hash, records, L);
    ContentsMatch(L, fs);
    ArchiveStreams(o.id, catalog, slices);
  }

  lemma DamagedSize(o: Options, fs: seq<LogicalFrame>, records: seq<seq<u8>>, volumes: seq<u64>)
    requires Damaged(o, fs, records, volumes)
    ensures |volumes| == |records|
  {
  }

  lemma LengthOf(o: Options, records: seq<seq<u8>>)
    requires forall i :: 0 <= i < |records| ==> Arrived(o.hash, records[i]).Some?
    ensures |ArrivedAll(o, records)| == |records|
  {
  }

  /** Any bytes behind the headers may be damaged. */
  ghost predicate HeadersSurvive(o: Options, fs: seq<LogicalFrame>, records: seq<seq<u8>>, volumes: seq<u64>) {
    && |records| == |volumes| == |fs|
    && forall i :: 0 <= i < |records| ==> HeaderSurvives(o, fs[i], records[i], volumes[i])
  }

  /** Nothing but metadata is damaged. */
  ghost predicate OthersVerify(hash: Hasher, fs: seq<LogicalFrame>, records: seq<seq<u8>>) {
    |records| == |fs|
    && forall i :: 0 <= i < |records| && !fs[i].header.channel.Metadata? ==>
         Arrived(hash, records[i]).Some? && Arrived(hash, records[i]).value.frame.hashOk
  }

  lemma HeadersArrive(o: Options, fs: seq<LogicalFrame>, records: seq<seq<u8>>, volumes: seq<u64>)
    requires AllSealable(fs) && HeadersSurvive(o, fs, records, volumes)
    ensures forall i :: 0 <= i < |records| ==> Arrived(o.hash, records[i]).Some?
    ensures var L, M := ArrivedAll(o, records), SealedAll(o, fs, volumes);
            forall i :: 0 <= i < |L| ==>
              && L[i].H() == M[i].H() && L[i].frame.sizeOk
              && L[i].H().channel == fs[i].header.channel && L[i].H().global == fs[i].header.global
  {
    hide Arrived, SealedRecord, Sealable, SealFor;
    forall i | 0 <= i < |records| ensures Arrived(o.hash, records[i]).Some? {
      SurvivorArrives(o, fs[i], records[i], volumes[i]);
    }
    var L, M := ArrivedAll(o, records), SealedAll(o, fs, volumes);
    forall i | 0 <= i < |L|
      ensures L[i].H() == M[i].H() && L[i].frame.sizeOk
      ensures L[i].H().channel == fs[i].header.channel && L[i].H().global == fs[i].header.global
    {
      SurvivorArrives(o, fs[i], records[i], volumes[i]);
      SealedArrives(o, fs[i], volumes[i]);
      SealedSound(o, fs[i], volumes[i]);
    }
  }

  lemma VerifyIsIntact(o: Options, fs: seq<LogicalFrame>, records: seq<seq<u8>>, L: seq<Record>)
    requires ArriveAs(o.hash, records, L) && |L| == |fs|
    requires forall i :: 0 <= i < |L| ==> L[i].frame.sizeOk && L[i].H().channel == fs[i].header.channel
    ensures OthersVerify(o.hash, fs, records) <==> Intact(L, true)
  {
    hide Arrived;
    if OthersVerify(o.hash, fs, records) {
      forall i | 0 <= i < |L| ensures L[i].frame.hashOk || L[i].IsMetadata() {
        assert Arrived(o.hash, records[i]) == Some(L[i]);
      }
    }
  }

  /** With the headers intact, one connection of a whole archive is read to its end
      exactly when every record but those of metadata verifies. */
  lemma DamageExactly(o: Options, fs: seq<LogicalFrame>, records: seq<seq<u8>>, volumes: seq<u64>)
    requires o.Valid() && Readable(o, fs) && HeadersSurvive(o, fs, records, volumes)
    ensures ReadAll(o.hash, false, [records]).Ok? <==> OthersVerify(o.hash, fs, records)
    ensures ReadAll(o.hash, false, [records]).Ok? ==> ReadAll(o.hash, false, [records]).value.sawEnd
  {
    hide ReadAll, HeadersSurvive, Readable, ContentsOf, VerifiedMetadata, ArriveAs, OthersVerify, Gapless,
         NothingAfterEnd, SealedRecord, Arrived;
    ArchiveOfMany(o, fs);
    SurvivorsSize(o, fs, records, volumes);
    HeadersArrive(o, fs, records, volumes);
    var L, M := ArrivedAll(o, records), SealedAll(o, fs, volumes);
    LengthOf(o, records);
    NumberedByFrames(L, fs);
    SealedInGrammar(o, fs, volumes);
    VerifyIsIntact(o, fs, records, L);
    if Intact(L, true) {
      GrammarLike(L, M);
    }
    GrammarIntact(L);
    ConnectionExactly(o.hash, records, L);
  }

  lemma SurvivorsSize(o: Options, fs: seq<LogicalFrame>, records: seq<seq<u8>>, volumes: seq<u64>)
    requires HeadersSurvive(o, fs, records, volumes)
    ensures |records| == |volumes| == |fs|
  {
  }

  lemma GrammarIntact(L: seq<Record>)
    ensures ArchiveGrammar(L, true) ==> Intact(L, true)
  {
  }
}
