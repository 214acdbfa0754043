// Salvage: exactly which records of damaged tapes are taken, and what comes out.
module Salvage {
  import opened Base
  import opened Format
  import opened Sealing
  import opened Validator
  import opened FrameBuilder
  import opened Producer
  import opened VolumeServer
  import opened Media
  import opened Extractor
  import opened EndToEnd

  // --------------------------------------------------- one record, exactly

  function Identities(L: seq<Record>): (h: seq<ReplayIdentity>)
    ensures |h| == |L| && forall i :: 0 <= i < |h| ==> h[i] == IdentityOf(L[i])
  {
    seq(|L|, i requires 0 <= i < |L| => IdentityOf(L[i]))
  }

  /** Of n remembered records the history keeps those from here on. */
  function KeptFrom(n: nat): nat { if n <= RETRY_HISTORY then 0 else n - RETRY_HISTORY }

  ghost predicate Rising(L: seq<Record>) {
    forall i, j :: 0 <= i < j < |L| ==> L[i].H().global < L[j].H().global
  }

  /** The number after the last record. */
  function After(L: seq<Record>): nat { if L == [] then 0 else L[|L| - 1].H().global + 1 }

  /** The state of a salvage that has taken the records of L, all of one archive. */
  ghost predicate SalvageTracks(v: State, L: seq<Record>) {
    && Rising(L) && (forall i :: 0 <= i < |L| ==> L[i].frame.hashOk && L[i].H().uuid == v.uuid)
    && After(L) < TWO_64 && v.expected == After(L)
    && v.history == Identities(L)[KeptFrom(|L|)..]
    && (v.replayNext.Some? ==> v.replayNext.value < v.expected)
  }

  lemma KeptSnoc(L: seq<Record>, r: Record)
    requires r.frame.hashOk
    ensures Remember(Identities(L)[KeptFrom(|L|)..], r) == Identities(L + [r])[KeptFrom(|L + [r]|)..]
  {
    var kept, all := Identities(L)[KeptFrom(|L|)..], Identities(L + [r]);
    assert all == Identities(L) + [IdentityOf(r)];
    assert kept + [IdentityOf(r)] == all[KeptFrom(|L|)..];
  }

  ghost predicate KeptAs(L: seq<Record>, i: nat, g: nat) {
    KeptFrom(|L|) <= i < |L| && L[i].H().global == g
  }

  lemma KeptAt(L: seq<Record>, k: nat)
    requires k < |L| - KeptFrom(|L|)
    ensures Identities(L)[KeptFrom(|L|)..][k] == IdentityOf(L[KeptFrom(|L|) + k])
    ensures KeptAs(L, KeptFrom(|L|) + k, L[KeptFrom(|L|) + k].H().global)
  {
  }

  lemma KeptIsFound(L: seq<Record>, i: nat, g: u64)
    requires KeptAs(L, i, g)
    ensures FindReplay(Identities(L)[KeptFrom(|L|)..], g).Some?
  {
    hide FindReplay, Identities;
    var kept := Identities(L)[KeptFrom(|L|)..];
    KeptAt(L, i - KeptFrom(|L|));
    assert kept[i - KeptFrom(|L|)] in kept;
  }

  lemma KeptOnce(L: seq<Record>, i: nat, j: nat, g: nat)
    requires Rising(L) && KeptAs(L, i, g) && KeptAs(L, j, g)
    ensures i == j
  {
  }

  /** The lookup finds exactly the kept record of that number, if there is one. */
  lemma FindKept(L: seq<Record>, g: u64)
    requires Rising(L)
    ensures var found := FindReplay(Identities(L)[KeptFrom(|L|)..], g);
            && (found.Some? <==> exists i: nat :: KeptAs(L, i, g))
            && forall i: nat :: KeptAs(L, i, g) ==> found == Some(IdentityOf(L[i]))
  {
    hide FindReplay, Identities, Rising;
    var kept := Identities(L)[KeptFrom(|L|)..];
    var found := FindReplay(kept, g);
    if found.Some? {
      var k :| 0 <= k < |kept| && kept[k] == found.value;
      KeptAt(L, k);
      assert KeptAs(L, KeptFrom(|L|) + k, g);
      forall i: nat | KeptAs(L, i, g) ensures found == Some(IdentityOf(L[i])) {
        KeptOnce(L, i, KeptFrom(|L|) + k, g);
      }
    } else {
      forall i: nat ensures !KeptAs(L, i, g) {
        if KeptAs(L, i, g) {
          KeptIsFound(L, i, g);
        }
      }
    }
  }

  lemma KeptInRange(L: seq<Record>, i: nat, g: nat)
    requires KeptAs(L, i, g)
    ensures KeptFrom(|L|) <= i < |L| && L[i].H().global == g
  {
  }

  /** A replay that can be compared and equals the record it repeats. */
  ghost predicate Repeats(hash: Hasher, L: seq<Record>, r: Record) {
    exists i: nat :: KeptAs(L, i, r.H().global) && FrameHash(hash, r.data, L[i].H().volume) == L[i].H().hash
  }

  /** What salvage accepts: an intact record that begins another archive, or goes
      beyond what was taken while no replayed run is open, or repeats a kept record
      in its turn. Gaps are no reason to refuse. */
  ghost predicate MaySalvage(hash: Hasher, v: State, L: seq<Record>, r: Record) {
    && r.frame.sizeOk && r.frame.hashOk
    && (|| r.H().uuid != v.uuid
        || (r.H().global >= After(L) && v.replayNext.None?)
        || (r.H().global < After(L) && Repeats(hash, L, r)
            && (v.replayNext.Some? ==> v.replayNext.value == r.H().global)))
  }

  lemma ReplayRepeats(hash: Hasher, v: State, L: seq<Record>, r: Record)
    requires SalvageTracks(v, L) && r.H().uuid == v.uuid && r.frame.hashOk && r.H().global < After(L)
    ensures CheckReplay(hash, v, r).Ok? <==>
              Repeats(hash, L, r) && (v.replayNext.Some? ==> v.replayNext.value == r.H().global)
    ensures CheckReplay(hash, v, r).Ok? ==>
              CheckReplay(hash, v, r).value ==
                Some(v.(replayNext := if r.H().global + 1 == v.expected then None else Some(r.H().global + 1)))
  {
    hide FrameHash, Identities, FindReplay;
    FindKept(L, r.H().global);
  }

  /** A record beyond what was taken extends it. */
  lemma NewTracks(v: State, L: seq<Record>, r: Record)
    requires SalvageTracks(v, L) && r.frame.hashOk && r.H().uuid == v.uuid && r.H().global + 1 < TWO_64
    requires After(L) <= r.H().global && v.replayNext == None
    ensures SalvageTracks(v.(history := Remember(v.history, r), expected := Succ(r.H().global)), L + [r])
  {
    hide Remember, Identities;
    KeptSnoc(L, r);
    var M := L + [r];
    forall i, j | 0 <= i < j < |M| ensures M[i].H().global < M[j].H().global {
      if j == |L| {
        assert i < |L| - 1 ==> L[i].H().global < L[|L| - 1].H().global;
      }
    }
  }

  /** After the record: another archive begins, the taken records grow, or only the
      replay cursor moves. */
  ghost predicate SalvagedTo(v: State, L: seq<Record>, r: Record, w: Verdict) {
    if r.H().uuid != v.uuid then !w.replay && SalvageTracks(w.next, [r]) && w.next.replayNext == None
    else if r.H().global >= After(L) then !w.replay && SalvageTracks(w.next, L + [r]) && w.next.replayNext == None
    else
      && w.replay && SalvageTracks(w.next, L)
      && w.next == v.(replayNext := if r.H().global + 1 == After(L) then None else Some(r.H().global + 1))
  }

  /** The exact acceptance condition of one record. */
  lemma SalvageAcceptsExactly(hash: Hasher, v: State, L: seq<Record>, r: Record)
    requires SalvageTracks(v, L) && r.H().global + 1 < TWO_64
    ensures JudgeSalvage(hash, v, r).Ok? <==> MaySalvage(hash, v, L, r)
    ensures JudgeSalvage(hash, v, r).Ok? ==> SalvagedTo(v, L, r, JudgeSalvage(hash, v, r).value)
  {
    hide FrameHash, FindReplay, Remember, Repeats, Identities, Rising;
    if r.frame.sizeOk && r.frame.hashOk {
      if r.H().uuid != v.uuid {
        var u := v.(history := [], replayNext := None, expected := 0, uuid := r.H().uuid);
        NothingTaken(u);
        NewTracks(u, [], r);
        assert [] + [r] == [r];
      } else if r.H().global >= After(L) {
        if v.replayNext.None? {
          NewTracks(v, L, r);
        }
      } else {
        ReplayRepeats(hash, v, L, r);
      }
    }
  }

  lemma NothingTaken(v: State)
    requires v.history == [] && v.expected == 0 && v.replayNext == None
    ensures SalvageTracks(v, [])
  {
  }

  /** A record that parses but is damaged changes nothing, in any state. */
  lemma DamagedChangesNothing(hash: Hasher, e: Extract, bytes: seq<u8>)
    requires CheckFrame(hash, bytes).Ok? && !CheckFrame(hash, bytes).value.hashOk
    ensures OnRecord(hash, true, e, bytes) == Ok(e)
  {
    hide ParseHeader, FrameHash, CheckReplay;
  }

  /** Only a record whose header does not parse ends a salvage. */
  lemma SalvageStopsExactly(hash: Hasher, e: Extract, bytes: seq<u8>)
    ensures OnRecord(hash, true, e, bytes).Err? <==> ParseHeader(bytes).Err?
  {
    hide ParseHeader, JudgeSalvage, FrameHash;
  }

  // -------------------------------------- the frames of an archive, by number

  /** What a damaged tape holds: frames of the archive, sealed for any volume, and
      damaged records. */
  datatype Piece = Sound(n: nat, volume: u64) | Damaged(bytes: seq<u8>)

  ghost predicate IsPiece(o: Options, fs: seq<LogicalFrame>, p: Piece) {
    match p
    case Sound(n, _) => n < |fs|
    case Damaged(bytes) => CheckFrame(o.hash, bytes).Ok? && !CheckFrame(o.hash, bytes).value.hashOk
  }

  ghost predicate ArePieces(o: Options, fs: seq<LogicalFrame>, ps: seq<Piece>) {
    forall i :: 0 <= i < |ps| ==> IsPiece(o, fs, ps[i])
  }

  function PieceBytes(o: Options, fs: seq<LogicalFrame>, p: Piece): seq<u8>
    requires p.Sound? ==> p.n < |fs|
  {
    match p
    case Sound(n, volume) => SealFor(o, fs[n], volume)
    case Damaged(bytes) => bytes
  }

  ghost function TapeOf(o: Options, fs: seq<LogicalFrame>, ps: seq<Piece>): (t: seq<seq<u8>>)
    requires ArePieces(o, fs, ps)
    ensures |t| == |ps| && forall i :: 0 <= i < |t| ==> IsPiece(o, fs, ps[i]) && t[i] == PieceBytes(o, fs, ps[i])
  {
    assert forall i :: 0 <= i < |ps| ==> IsPiece(o, fs, ps[i]);
    seq(|ps|, i requires 0 <= i < |ps| => PieceBytes(o, fs, ps[i]))
  }

  /** The numbers of the frames taken so far, and the next number of an open
      replayed run. */
  datatype Known = Known(taken: seq<nat>, cursor: Option<nat>) {
    function Next(): nat { if taken == [] then 0 else taken[|taken| - 1] + 1 }

    /** The newest 8192 of them can still be compared with a replay. */
    function Recent(): seq<nat> { taken[KeptFrom(|taken|)..] }
  }

  /** What a frame of that number does. */
  function Meet(k: Known, n: nat): Known {
    if n >= k.Next() then
      if k.cursor.None? then Known(k.taken + [n], None) else k
    else if n in k.Recent() && (k.cursor.Some? ==> k.cursor.value == n) then
      Known(k.taken, if n + 1 == k.Next() then None else Some(n + 1))
    else k
  }

  predicate Complete(k: Known, total: nat) { k.Next() == total }

  function MeetPiece(k: Known, p: Piece): Known { if p.Sound? then Meet(k, p.n) else k }

  /** One connection, read until the archive end was taken. */
  function MeetAll(k: Known, ps: seq<Piece>, total: nat): Known {
    if ps == [] then k
    else
      var u := MeetAll(k, ps[..|ps| - 1], total);
      if Complete(u, total) then u else MeetPiece(u, ps[|ps| - 1])
  }

  /** One connection per volume. */
  function MeetVolumes(volumes: seq<seq<Piece>>, total: nat): Known {
    if volumes == [] then Known([], None)
    else
      var u := MeetVolumes(volumes[..|volumes| - 1], total);
      if Complete(u, total) then u else MeetAll(u.(cursor := None), volumes[|volumes| - 1], total)
  }

  // ------------------------------------------------ the extractor, by number

  /** Frames of one archive, in order, the archive end last. */
  ghost predicate OneArchive(fs: seq<LogicalFrame>, uuid: seq<u8>) {
    && 0 < |fs| < TWO_64 - 1 && AllSealable(fs)
    && forall i :: 0 <= i < |fs| ==>
         && fs[i].header.global == i && fs[i].header.uuid == uuid
         && (fs[i].header.channel.ArchiveEnd? <==> i == |fs| - 1)
  }

  /** Every archive of the producer is such a one. */
  lemma ArchiveIsOne(id: Identity, fs: seq<LogicalFrame>)
    requires id.Valid() && ArchiveOf(id, fs)
    ensures OneArchive(fs, id.uuid)
  {
    hide Sealable, ArchiveOf;
    assert |fs| > 0 && |fs| < TWO_64 - 1 by {
      ArchiveHasFrames(id, fs);
    }
    ArchiveIsSealable(id, fs);
    forall i | 0 <= i < |fs|
      ensures fs[i].header.uuid == id.uuid && (fs[i].header.channel.ArchiveEnd? <==> i == |fs| - 1)
    {
      SealableFrame(id, fs, i);
    }
  }

  lemma ArchiveHasFrames(id: Identity, fs: seq<LogicalFrame>)
    requires id.Valid() && ArchiveOf(id, fs)
    ensures 0 < |fs| < TWO_64 - 1
  {
  }

  ghost predicate Numbers(fs: seq<LogicalFrame>, ns: seq<nat>) {
    forall i :: 0 <= i < |ns| ==> ns[i] < |fs|
  }

  ghost function Picked(fs: seq<LogicalFrame>, ns: seq<nat>): (r: seq<LogicalFrame>)
    requires Numbers(fs, ns)
    ensures |r| == |ns| && forall i :: 0 <= i < |r| ==> r[i] == fs[ns[i]]
  {
    seq(|ns|, i requires 0 <= i < |ns| => fs[ns[i]])
  }

  /** The records that were taken are the frames of those numbers. */
  ghost predicate TakenAs(o: Options, fs: seq<LogicalFrame>, L: seq<Record>, ns: seq<nat>) {
    |L| == |ns| && forall i :: 0 <= i < |L| ==> ns[i] < |fs| && SealedAs(o, L[i], fs[ns[i]])
  }

  ghost predicate SalvageInv(o: Options, fs: seq<LogicalFrame>, uuid: seq<u8>, e: Extract, k: Known, L: seq<Record>) {
    && SalvageTracks(e.v, L) && TakenAs(o, fs, L, k.taken) && e.v.replayNext == k.cursor
    && (L == [] ==> k.cursor == None) && (L != [] ==> e.v.uuid == uuid)
    && Numbers(fs, k.taken)
    && e.output == ContentOf(Picked(fs, k.taken)) && e.metadata == MetadataOf(Picked(fs, k.taken))
    && e.processed == |k.taken| && (e.sawEnd <==> Complete(k, |fs|))
  }

  lemma TakenNumbers(o: Options, fs: seq<LogicalFrame>, uuid: seq<u8>, L: seq<Record>, ns: seq<nat>)
    requires OneArchive(fs, uuid) && TakenAs(o, fs, L, ns)
    ensures forall i :: 0 <= i < |L| ==> L[i].H().global == ns[i]
  {
    forall i | 0 <= i < |L| ensures L[i].H().global == ns[i] {
      SealedFacts(o, L[i], fs[ns[i]]);
    }
  }

  lemma PickedSnoc(fs: seq<LogicalFrame>, ns: seq<nat>, n: nat)
    requires Numbers(fs, ns) && n < |fs|
    ensures Numbers(fs, ns + [n]) && Picked(fs, ns + [n]) == Picked(fs, ns) + [fs[n]]
  {
  }

  /** A kept record was taken for one of the recent numbers, and conversely. */
  lemma RecentIsKept(o: Options, fs: seq<LogicalFrame>, uuid: seq<u8>, L: seq<Record>, k: Known, n: nat)
    requires OneArchive(fs, uuid) && TakenAs(o, fs, L, k.taken)
    ensures n in k.Recent() <==> exists i: nat :: KeptAs(L, i, n)
  {
    hide SealedAs, OneArchive;
    TakenNumbers(o, fs, uuid, L, k.taken);
    if n in k.Recent() {
      var j :| 0 <= j < |k.Recent()| && k.Recent()[j] == n;
      assert KeptAs(L, KeptFrom(|k.taken|) + j, n);
    }
    if i: nat :| KeptAs(L, i, n) {
      assert k.Recent()[i - KeptFrom(|k.taken|)] == n;
    }
  }

  lemma TakenSealed(o: Options, fs: seq<LogicalFrame>, uuid: seq<u8>, L: seq<Record>, ns: seq<nat>, i: nat)
    requires OneArchive(fs, uuid) && TakenAs(o, fs, L, ns) && i < |L|
    ensures L[i].H().global == ns[i] < |fs| && SealedAs(o, L[i], fs[ns[i]])
  {
    TakenNumbers(o, fs, uuid, L, ns);
  }

  /** A sealed frame repeats the record taken for it. */
  lemma SealedRepeats(o: Options, fs: seq<LogicalFrame>, uuid: seq<u8>, L: seq<Record>, k: Known, n: nat, volume: u64)
    requires OneArchive(fs, uuid) && TakenAs(o, fs, L, k.taken) && n < |fs|
    ensures Repeats(o.hash, L, SealedRecord(o, fs[n], volume)) <==> n in k.Recent()
  {
    hide SealedRecord, SealFor, SealedAs, FrameHash, TakenAs, KeptAs;
    var r := SealedRecord(o, fs[n], volume);
    SealedArrives(o, fs[n], volume);
    SealedData(o, fs[n], volume);
    RecentIsKept(o, fs, uuid, L, k, n);
    if i: nat :| KeptAs(L, i, n) {
      KeptInRange(L, i, n);
      TakenSealed(o, fs, uuid, L, k.taken, i);
      SealedFacts(o, L[i], fs[n]);
    }
  }

  lemma SealedData(o: Options, f: LogicalFrame, volume: u64)
    requires Sealable(f.header, f.body)
    ensures SealedRecord(o, f, volume).data == SealFor(o, f, volume)
    ensures SealedRecord(o, f, volume).frame.sizeOk && SealedRecord(o, f, volume).frame.hashOk
    ensures SealedRecord(o, f, volume).H().uuid == f.header.uuid
  {
  }

  lemma NextIs(o: Options, fs: seq<LogicalFrame>, uuid: seq<u8>, e: Extract, k: Known, L: seq<Record>)
    requires OneArchive(fs, uuid) && SalvageInv(o, fs, uuid, e, k, L)
    ensures After(L) == k.Next() <= |fs|
  {
    hide SalvageTracks, SealedAs, ContentOf, MetadataOf;
    TakenNumbers(o, fs, uuid, L, k.taken);
  }

  /** The judgement of a sealed frame follows its number alone. */
  ghost predicate JudgedAs(o: Options, fs: seq<LogicalFrame>, uuid: seq<u8>, e: Extract, k: Known, L: seq<Record>,
                           n: nat, r: Record, j: Result<Verdict, Fault>)
  {
    var t := Meet(k, n);
    if j.Err? then t == k
    else if j.value.replay then
      && L != [] && t.taken == k.taken && j.value.next == e.v.(replayNext := j.value.next.replayNext)
      && j.value.next.replayNext == t.cursor && SalvageTracks(j.value.next, L)
    else
      && t == Known(k.taken + [n], None) && j.value.next.replayNext == None
      && SalvageTracks(j.value.next, L + [r]) && j.value.next.uuid == uuid
  }

  /** Facts about a sealed frame that its judgement needs. */
  ghost predicate Arrives(fs: seq<LogicalFrame>, uuid: seq<u8>, k: Known, L: seq<Record>, n: nat, r: Record,
                          hash: Hasher) {
    && r.frame.sizeOk && r.frame.hashOk && r.H().uuid == uuid && r.H().global == n && n + 1 < TWO_64
    && (Repeats(hash, L, r) <==> n in k.Recent()) && After(L) == k.Next()
  }

  lemma SealedArrivesAs(o: Options, fs: seq<LogicalFrame>, uuid: seq<u8>, e: Extract, k: Known, L: seq<Record>,
                        n: nat, volume: u64)
    requires OneArchive(fs, uuid) && SalvageInv(o, fs, uuid, e, k, L) && n < |fs|
    ensures Arrives(fs, uuid, k, L, n, SealedRecord(o, fs[n], volume), o.hash)
  {
    hide SealedRecord, SealedAs, Repeats, SalvageTracks, ContentOf, MetadataOf, Picked, TakenAs;
    SealedArrives(o, fs[n], volume);
    SealedData(o, fs[n], volume);
    NextIs(o, fs, uuid, e, k, L);
    SealedRepeats(o, fs, uuid, L, k, n, volume);
  }

  lemma JudgedByNumber(o: Options, fs: seq<LogicalFrame>, uuid: seq<u8>, e: Extract, k: Known, L: seq<Record>,
                       n: nat, r: Record)
    requires SalvageTracks(e.v, L) && e.v.replayNext == k.cursor
    requires (L == [] ==> k.cursor == None && k.taken == []) && (L != [] ==> e.v.uuid == uuid)
    requires Arrives(fs, uuid, k, L, n, r, o.hash)
    ensures JudgedAs(o, fs, uuid, e, k, L, n, r, JudgeSalvage(o.hash, e.v, r))
  {
    hide JudgeSalvage, Repeats, SalvageTracks;
    SalvageAcceptsExactly(o.hash, e.v, L, r);
    if r.H().uuid != e.v.uuid {
      assert L == [] && [] + [r] == [r];
    }
    TracksUuid(JudgeSalvage(o.hash, e.v, r), L, r);
  }

  lemma TracksUuid(j: Result<Verdict, Fault>, L: seq<Record>, r: Record)
    ensures j.Ok? && SalvageTracks(j.value.next, [r]) ==> j.value.next.uuid == r.H().uuid
    ensures j.Ok? && SalvageTracks(j.value.next, L + [r]) ==> j.value.next.uuid == r.H().uuid
  {
    assert [r][0] == r && (L + [r])[|L|] == r;
  }

  lemma TakenSnoc(o: Options, fs: seq<LogicalFrame>, L: seq<Record>, ns: seq<nat>, n: nat, volume: u64)
    requires AllSealable(fs) && TakenAs(o, fs, L, ns) && n < |fs|
    ensures TakenAs(o, fs, L + [SealedRecord(o, fs[n], volume)], ns + [n])
  {
    assert SealedAs(o, SealedRecord(o, fs[n], volume), fs[n]);
  }

  /** A new frame's payload reaches its stream. */
  lemma NewEmitted(o: Options, fs: seq<LogicalFrame>, uuid: seq<u8>, e: Extract, k: Known, n: nat, volume: u64)
    requires OneArchive(fs, uuid) && Numbers(fs, k.taken) && n < |fs| && !e.sawEnd
    requires e.output == ContentOf(Picked(fs, k.taken)) && e.metadata == MetadataOf(Picked(fs, k.taken))
    ensures var t := Emit(e, SealedRecord(o, fs[n], volume));
            && Numbers(fs, k.taken + [n])
            && t.output == ContentOf(Picked(fs, k.taken + [n])) && t.metadata == MetadataOf(Picked(fs, k.taken + [n]))
            && t.v == e.v && t.processed == e.processed && (t.sawEnd <==> n + 1 == |fs|)
  {
    hide SealedRecord, PayloadOf, ContentOf, MetadataOf, Picked;
    SealedPayload(o, fs[n], volume);
    PickedSnoc(fs, k.taken, n);
    StreamsSnoc(Picked(fs, k.taken), fs[n]);
  }

  lemma MeetSealed(o: Options, fs: seq<LogicalFrame>, uuid: seq<u8>, e: Extract, k: Known, L: seq<Record>,
                   n: nat, volume: u64)
    returns (M: seq<Record>)
    requires OneArchive(fs, uuid) && SalvageInv(o, fs, uuid, e, k, L) && n < |fs| && !e.sawEnd
    ensures var step := OnRecord(o.hash, true, e, SealFor(o, fs[n], volume));
            step.Ok? && SalvageInv(o, fs, uuid, step.value, Meet(k, n), M)
  {
    hide JudgeSalvage, SealedRecord, SealedAs, SalvageTracks, ContentOf, MetadataOf, Picked, Emit, Meet, CheckFrame,
         Arrives;
    var r := SealedRecord(o, fs[n], volume);
    SealedArrives(o, fs[n], volume);
    SealedArrivesAs(o, fs, uuid, e, k, L, n, volume);
    JudgedByNumber(o, fs, uuid, e, k, L, n, r);
    var j := JudgeSalvage(o.hash, e.v, r);
    M := if j.Ok? && !j.value.replay then L + [r] else L;
    if j.Ok? && !j.value.replay {
      TakenSnoc(o, fs, L, k.taken, n, volume);
      NewEmitted(o, fs, uuid, e.(v := j.value.next, processed := e.processed + 1), k, n, volume);
    }
  }

  lemma MeetOne(o: Options, fs: seq<LogicalFrame>, uuid: seq<u8>, e: Extract, k: Known, L: seq<Record>, p: Piece)
    returns (M: seq<Record>)
    requires OneArchive(fs, uuid) && SalvageInv(o, fs, uuid, e, k, L) && IsPiece(o, fs, p) && !e.sawEnd
    ensures var step := OnRecord(o.hash, true, e, PieceBytes(o, fs, p));
            step.Ok? && SalvageInv(o, fs, uuid, step.value, MeetPiece(k, p), M)
  {
    hide OnRecord, SalvageInv, Meet, CheckFrame;
    match p
    case Sound(n, volume) =>
      M := MeetSealed(o, fs, uuid, e, k, L, n, volume);
    case Damaged(bytes) =>
      M := L;
      DamagedChangesNothing(o.hash, e, bytes);
  }

  lemma EndKnown(o: Options, fs: seq<LogicalFrame>, uuid: seq<u8>, e: Extract, k: Known, L: seq<Record>)
    requires SalvageInv(o, fs, uuid, e, k, L)
    ensures e.sawEnd <==> Complete(k, |fs|)
  {
  }

  lemma {:induction false} MeetTape(o: Options, fs: seq<LogicalFrame>, uuid: seq<u8>, e: Extract, k: Known,
                                    L: seq<Record>, ps: seq<Piece>)
    returns (M: seq<Record>)
    requires OneArchive(fs, uuid) && SalvageInv(o, fs, uuid, e, k, L) && ArePieces(o, fs, ps) && !e.sawEnd
    ensures var step := ReadRecords(o.hash, true, e, TapeOf(o, fs, ps));
            step.Ok? && SalvageInv(o, fs, uuid, step.value, MeetAll(k, ps, |fs|), M)
  {
    hide OnRecord, SalvageInv, OneArchive, MeetPiece, Complete, IsPiece;
    if ps == [] {
      M := L;
    } else {
      var n := |ps| - 1;
      assert TapeOf(o, fs, ps)[..n] == TapeOf(o, fs, ps[..n]);
      M := MeetTape(o, fs, uuid, e, k, L, ps[..n]);
      var u := ReadRecords(o.hash, true, e, TapeOf(o, fs, ps[..n])).value;
      EndKnown(o, fs, uuid, u, MeetAll(k, ps[..n], |fs|), M);
      if !u.sawEnd {
        M := MeetOne(o, fs, uuid, u, MeetAll(k, ps[..n], |fs|), M, ps[n]);
      }
    }
  }

  ghost predicate AreVolumes(o: Options, fs: seq<LogicalFrame>, volumes: seq<seq<Piece>>) {
    forall i :: 0 <= i < |volumes| ==> ArePieces(o, fs, volumes[i])
  }

  ghost function TapesOf(o: Options, fs: seq<LogicalFrame>, volumes: seq<seq<Piece>>): (t: seq<seq<seq<u8>>>)
    requires AreVolumes(o, fs, volumes)
    ensures |t| == |volumes|
    ensures forall i :: 0 <= i < |t| ==> ArePieces(o, fs, volumes[i]) && t[i] == TapeOf(o, fs, volumes[i])
  {
    seq(|volumes|, i requires 0 <= i < |volumes| => TapeOf(o, fs, volumes[i]))
  }

  lemma CursorForgotten(o: Options, fs: seq<LogicalFrame>, uuid: seq<u8>, e: Extract, k: Known, L: seq<Record>)
    requires SalvageInv(o, fs, uuid, e, k, L)
    ensures SalvageInv(o, fs, uuid, e.(v := BeginConnection(e.v)), k.(cursor := None), L)
  {
    hide ContentOf, MetadataOf, Picked, Identities, Rising, TakenAs;
  }

  lemma NothingKnown(o: Options, fs: seq<LogicalFrame>, uuid: seq<u8>)
    requires 0 < |fs|
    ensures SalvageInv(o, fs, uuid, Empty, Known([], None), [])
  {
  }

  /** The main theorem about salvage. Whatever frames of an archive the volumes
      hold, in any order, sealed for any volumes and mixed with any damaged records,
      the read succeeds, and its outputs are the content and the metadata of exactly
      the frames that the rule on their numbers takes. */
  lemma {:induction false} SalvagesExactly(o: Options, fs: seq<LogicalFrame>, uuid: seq<u8>,
                                           volumes: seq<seq<Piece>>)
    returns (L: seq<Record>)
    requires OneArchive(fs, uuid) && AreVolumes(o, fs, volumes)
    ensures ReadAll(o.hash, true, TapesOf(o, fs, volumes)).Ok?
    ensures SalvageInv(o, fs, uuid, ReadAll(o.hash, true, TapesOf(o, fs, volumes)).value,
                       MeetVolumes(volumes, |fs|), L)
  {
    hide ReadRecords, SalvageInv, ArePieces, MeetAll, Complete;
    if volumes == [] {
      L := [];
      NothingKnown(o, fs, uuid);
    } else {
      var n := |volumes| - 1;
      var rest := volumes[..n];
      assert TapesOf(o, fs, volumes)[..n] == TapesOf(o, fs, rest);
      L := SalvagesExactly(o, fs, uuid, rest);
      var u := ReadAll(o.hash, true, TapesOf(o, fs, rest)).value;
      var k := MeetVolumes(rest, |fs|);
      EndKnown(o, fs, uuid, u, k, L);
      if !u.sawEnd {
        CursorForgotten(o, fs, uuid, u, k, L);
        L := MeetTape(o, fs, uuid, u.(v := BeginConnection(u.v)), k.(cursor := None), L, volumes[n]);
      }
    }
  }
}
