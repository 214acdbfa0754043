// What salvage takes, by the numbers of the frames alone: everything that is there
// when nothing repeats, and exactly when a volume that repeats frames is read on.
module SalvageNumbers {
  import opened Base
  import opened Sealing
  import opened Validator
  import opened FrameBuilder
  import opened VolumeServer
  import opened Extractor
  import opened EndToEnd
  import opened Salvage

  // ------------------------------------------------------- without repetitions

  /** The numbers of the frames of a volume, in order. */
  function Sounds(ps: seq<Piece>): seq<nat> {
    if ps == [] then []
    else Sounds(ps[..|ps| - 1]) + if ps[|ps| - 1].Sound? then [ps[|ps| - 1].n] else []
  }

  function AllSounds(volumes: seq<seq<Piece>>): seq<nat> {
    if volumes == [] then [] else AllSounds(volumes[..|volumes| - 1]) + Sounds(volumes[|volumes| - 1])
  }

  predicate Ascending(ns: seq<nat>) {
    forall i, j :: 0 <= i < j < |ns| ==> ns[i] < ns[j]
  }

  predicate Under(ns: seq<nat>, total: nat) {
    forall i :: 0 <= i < |ns| ==> ns[i] < total
  }

  lemma {:induction false} PiecesUnder(o: Options, fs: seq<LogicalFrame>, ps: seq<Piece>)
    requires ArePieces(o, fs, ps)
    ensures Under(Sounds(ps), |fs|)
  {
    hide CheckFrame;
    if ps != [] {
      PiecesUnder(o, fs, ps[..|ps| - 1]);
      assert IsPiece(o, fs, ps[|ps| - 1]);
    }
  }

  lemma AscendingParts(a: seq<nat>, b: seq<nat>)
    requires Ascending(a + b)
    ensures Ascending(a) && Ascending(b)
    ensures forall i, j :: 0 <= i < |a| && 0 <= j < |b| ==> a[i] < b[j]
  {
    var c := a + b;
    forall i, j | 0 <= i < j < |a| ensures a[i] < a[j] {
      assert c[i] == a[i] && c[j] == a[j];
    }
    forall i, j | 0 <= i < j < |b| ensures b[i] < b[j] {
      assert c[|a| + i] == b[i] && c[|a| + j] == b[j];
    }
    forall i, j | 0 <= i < |a| && 0 <= j < |b| ensures a[i] < b[j] {
      assert c[i] == a[i] && c[|a| + j] == b[j];
    }
  }

  lemma UnderParts(a: seq<nat>, b: seq<nat>, total: nat)
    requires Under(a + b, total)
    ensures Under(a, total) && Under(b, total)
  {
    forall i | 0 <= i < |a| ensures a[i] < total {
      assert (a + b)[i] == a[i];
    }
    forall i | 0 <= i < |b| ensures b[i] < total {
      assert (a + b)[|a| + i] == b[i];
    }
  }

  /** A volume whose frames all go on from what is known is taken whole. */
  lemma {:induction false} NewVolume(taken: seq<nat>, ps: seq<Piece>, total: nat)
    requires Ascending(taken + Sounds(ps)) && Under(taken + Sounds(ps), total)
    ensures MeetAll(Known(taken, None), ps, total) == Known(taken + Sounds(ps), None)
  {
    if ps == [] {
      assert taken + [] == taken;
    } else {
      var n := |ps| - 1;
      var before := taken + Sounds(ps[..n]);
      if ps[n].Sound? {
        assert taken + Sounds(ps) == before + [ps[n].n];
        AscendingParts(before, [ps[n].n]);
        UnderParts(before, [ps[n].n], total);
        assert [ps[n].n][0] < total;
      } else {
        assert taken + Sounds(ps) == before;
      }
      NewVolume(taken, ps[..n], total);
      if before != [] && ps[n].Sound? {
        assert before[|before| - 1] < [ps[n].n][0];
      }
    }
  }

  lemma NotComplete(before: seq<nat>, last: seq<nat>, total: nat)
    requires last != [] && Under(last, total)
    requires forall i, j :: 0 <= i < |before| && 0 <= j < |last| ==> before[i] < last[j]
    ensures !Complete(Known(before, None), total)
  {
    assert last[0] < total;
    assert before != [] ==> before[|before| - 1] < last[0];
  }

  lemma {:induction false} NewVolumes(volumes: seq<seq<Piece>>, total: nat)
    requires Ascending(AllSounds(volumes)) && Under(AllSounds(volumes), total)
    ensures MeetVolumes(volumes, total) == Known(AllSounds(volumes), None)
  {
    hide MeetAll;
    if volumes != [] {
      var n := |volumes| - 1;
      var before, last := AllSounds(volumes[..n]), Sounds(volumes[n]);
      AscendingParts(before, last);
      UnderParts(before, last, total);
      NewVolumes(volumes[..n], total);
      if Complete(Known(before, None), total) {
        if last != [] {
          NotComplete(before, last, total);
        } else {
          assert before + [] == before;
        }
      } else {
        NewVolume(before, volumes[n], total);
      }
    }
  }

  lemma {:induction false} VolumesUnder(o: Options, fs: seq<LogicalFrame>, volumes: seq<seq<Piece>>)
    requires AreVolumes(o, fs, volumes)
    ensures Under(AllSounds(volumes), |fs|)
  {
    hide ArePieces;
    if volumes != [] {
      VolumesUnder(o, fs, volumes[..|volumes| - 1]);
      PiecesUnder(o, fs, volumes[|volumes| - 1]);
    }
  }

  lemma UnderNumbers(fs: seq<LogicalFrame>, ns: seq<nat>)
    requires Under(ns, |fs|)
    ensures Numbers(fs, ns)
  {
  }

  /** What a salvage promises. Of an archive whose frames are there in order, with
      any of them lost, on any number of volumes and between any damaged records,
      the read succeeds and recovers exactly the frames that are there. */
  lemma SalvageRecovers(o: Options, fs: seq<LogicalFrame>, uuid: seq<u8>, volumes: seq<seq<Piece>>)
    requires OneArchive(fs, uuid) && AreVolumes(o, fs, volumes) && Ascending(AllSounds(volumes))
    ensures Numbers(fs, AllSounds(volumes))
    ensures var there := Picked(fs, AllSounds(volumes));
            var r := ReadAll(o.hash, true, TapesOf(o, fs, volumes));
            && r.Ok? && r.value.output == ContentOf(there) && r.value.metadata == MetadataOf(there)
            && r.value.processed == |there| && (r.value.sawEnd <==> |fs| - 1 in AllSounds(volumes))
  {
    hide OneArchive, AreVolumes, ReadAll, ContentOf, MetadataOf, MeetVolumes, SalvageTracks, TakenAs, Picked;
    VolumesUnder(o, fs, volumes);
    var ns := AllSounds(volumes);
    UnderNumbers(fs, ns);
    NewVolumes(volumes, |fs|);
    var L := SalvagesExactly(o, fs, uuid, volumes);
    NotEmpty(fs, uuid);
    LastIn(ns, |fs|);
  }

  lemma NotEmpty(fs: seq<LogicalFrame>, uuid: seq<u8>)
    requires OneArchive(fs, uuid)
    ensures 0 < |fs|
  {
  }

  lemma LastIn(ns: seq<nat>, total: nat)
    requires Ascending(ns) && Under(ns, total) && total > 0
    ensures Complete(Known(ns, None), total) <==> total - 1 in ns
  {
    if total - 1 in ns {
      var i :| 0 <= i < |ns| && ns[i] == total - 1;
      AtMostLast(ns, i);
    }
  }

  lemma AtMostLast(ns: seq<nat>, i: nat)
    requires Ascending(ns) && i < |ns|
    ensures ns[i] <= ns[|ns| - 1]
  {
  }

  // --------------------------------------------------- volumes that repeat frames

  function MeetSeq(k: Known, ns: seq<nat>): Known {
    if ns == [] then k else Meet(MeetSeq(k, ns[..|ns| - 1]), ns[|ns| - 1])
  }

  /** Reading stops after the archive end, but nothing is taken after it anyway. */
  lemma {:induction false} MeetAllTakes(k: Known, ps: seq<Piece>, total: nat)
    requires Under(Sounds(ps), total)
    ensures var u, s := MeetAll(k, ps, total), MeetSeq(k, Sounds(ps));
            u.taken == s.taken && (u == s || Complete(u, total))
  {
    if ps != [] {
      var n := |ps| - 1;
      if ps[n].Sound? {
        UnderParts(Sounds(ps[..n]), [ps[n].n], total);
        assert [ps[n].n][0] < total;
        assert Sounds(ps)[..|Sounds(ps)| - 1] == Sounds(ps[..n]);
      } else {
        assert Sounds(ps) == Sounds(ps[..n]);
      }
      MeetAllTakes(k, ps[..n], total);
    }
  }

  /** A frame of the volume that can be compared. */
  predicate Hit(k: Known, ns: seq<nat>, x: nat) { x in ns && x in k.Recent() }

  /** From a repeated frame on that can still be compared, the volume repeats every
      frame up to the last one taken, and each can still be compared. */
  ghost predicate Continues(k: Known, ns: seq<nat>) {
    forall n: nat, x: nat :: Hit(k, ns, n) && n <= x < k.Next() ==> Hit(k, ns, x)
  }

  lemma RecentUnder(k: Known, n: nat)
    requires Ascending(k.taken) && n in k.Recent()
    ensures n < k.Next()
  {
    var j :| 0 <= j < |k.Recent()| && k.Recent()[j] == n;
    AtMostLast(k.taken, KeptFrom(|k.taken|) + j);
  }

  /** Where the repeated part of a volume leads: nothing comparable was met, or a
      run from n0 is open at c, or it has been closed. */
  ghost predicate Repeated(k: Known, ns: seq<nat>, t: Known, n0: nat) {
    && t.taken == k.taken
    && (if forall x: nat :: !Hit(k, ns, x) then t.cursor == None
        else
          && Hit(k, ns, n0) && (forall x: nat :: Hit(k, ns, x) ==> n0 <= x)
          && (t.cursor.None? ==> forall x: nat :: n0 <= x < k.Next() ==> Hit(k, ns, x))
          && (t.cursor.Some? ==>
                && n0 < t.cursor.value < k.Next() && !Hit(k, ns, t.cursor.value)
                && forall x: nat :: n0 <= x < t.cursor.value ==> Hit(k, ns, x)))
  }

  lemma HitSnoc(k: Known, M: seq<nat>, e: nat)
    ensures forall x: nat :: Hit(k, M + [e], x) <==> Hit(k, M, x) || (x == e && e in k.Recent())
  {
  }

  lemma HitsBelow(k: Known, M: seq<nat>, e: nat)
    requires forall x :: x in M ==> x < e
    ensures forall x: nat :: Hit(k, M, x) ==> x < e
  {
  }

  /** What the frame does, as a change of the cursor. */
  lemma MeetKnown(t: Known, e: nat)
    requires e < t.Next()
    ensures Meet(t, e) ==
              if e in t.Recent() && (t.cursor.Some? ==> t.cursor.value == e)
              then Known(t.taken, if e + 1 == t.Next() then None else Some(e + 1)) else t
  {
  }

  lemma RepeatedSnoc(k: Known, M: seq<nat>, e: nat, t: Known, n0: nat) returns (n1: nat)
    requires Ascending(k.taken) && Repeated(k, M, t, n0) && e < k.Next()
    requires forall x :: x in M ==> x < e
    ensures Repeated(k, M + [e], Meet(t, e), n1)
  {
    hide Hit, Meet;
    HitSnoc(k, M, e);
    HitsBelow(k, M, e);
    assert t.Next() == k.Next() && t.Recent() == k.Recent();
    MeetKnown(t, e);
    n1 := if forall x: nat :: !Hit(k, M, x) then e else n0;
    assert !Hit(k, M, e);
  }

  lemma {:induction false} RepeatedPart(k: Known, ns: seq<nat>) returns (n0: nat)
    requires Ascending(k.taken) && k.cursor == None && Ascending(ns) && Under(ns, k.Next())
    ensures Repeated(k, ns, MeetSeq(k, ns), n0)
  {
    hide Meet;
    if ns == [] {
      n0 := 0;
    } else {
      var M, e := ns[..|ns| - 1], ns[|ns| - 1];
      assert ns == M + [e];
      AscendingParts(M, [e]);
      UnderParts(M, [e], k.Next());
      n0 := RepeatedPart(k, M);
      forall x | x in M ensures x < e {
        var i :| 0 <= i < |M| && M[i] == x;
        assert M[i] < [e][0];
      }
      n0 := RepeatedSnoc(k, M, e, MeetSeq(k, M), n0);
    }
  }

  /** New frames are all taken, or, inside an open run, all skipped. */
  lemma {:induction false} NewPart(k: Known, ns: seq<nat>)
    requires Ascending(k.taken + ns) && (forall i :: 0 <= i < |ns| ==> ns[i] >= k.Next())
    ensures MeetSeq(k, ns) == if k.cursor.None? then Known(k.taken + ns, None) else k
  {
    if ns == [] {
      assert k.taken + [] == k.taken;
    } else {
      var M, e := ns[..|ns| - 1], ns[|ns| - 1];
      var before := k.taken + M;
      assert k.taken + ns == before + [e];
      AscendingParts(before, [e]);
      NewPart(k, M);
      if before != [] {
        assert before[|before| - 1] < [e][0];
      }
    }
  }

  lemma {:induction false} MeetSeqAppend(k: Known, a: seq<nat>, b: seq<nat>)
    ensures MeetSeq(k, a + b) == MeetSeq(MeetSeq(k, a), b)
    decreases |b|
  {
    hide Meet;
    if b == [] {
      assert a + b == a;
    } else {
      assert (a + b)[..|a + b| - 1] == a + b[..|b| - 1];
      MeetSeqAppend(k, a, b[..|b| - 1]);
    }
  }

  lemma NewIsNotRecent(k: Known, again: seq<nat>, later: seq<nat>)
    requires Ascending(k.taken) && (forall i :: 0 <= i < |later| ==> later[i] >= k.Next())
    ensures Continues(k, again + later) <==> Continues(k, again)
  {
    forall x: nat ensures Hit(k, again + later, x) <==> Hit(k, again, x) {
      if x in k.Recent() {
        RecentUnder(k, x);
      }
    }
  }

  lemma ContinuesIs(k: Known, again: seq<nat>, t: Known, n0: nat)
    requires Ascending(k.taken) && Repeated(k, again, t, n0)
    ensures Continues(k, again) <==> t.cursor.None?
  {
    hide Hit;
    if t.cursor.Some? {
      assert Hit(k, again, n0) && n0 <= t.cursor.value < k.Next();
    }
  }

  /** The exact rule for a volume that begins with repeated frames: its new frames
      are all taken exactly when the repetition, once it has begun with a frame that
      can be compared, goes on without a gap to the last frame taken before.
      Otherwise all of them are lost for this connection. */
  lemma RepeatingVolume(k: Known, again: seq<nat>, later: seq<nat>)
    requires Ascending(k.taken) && k.cursor == None && Ascending(again + later) && Under(again, k.Next())
    requires forall i :: 0 <= i < |later| ==> later[i] >= k.Next()
    ensures MeetSeq(k, again + later).taken == if Continues(k, again + later) then k.taken + later else k.taken
  {
    hide Meet, Continues;
    AscendingParts(again, later);
    var n0 := RepeatedPart(k, again);
    var t := MeetSeq(k, again);
    ContinuesIs(k, again, t, n0);
    NewIsNotRecent(k, again, later);
    MeetSeqAppend(k, again, later);
    TakenRises(k.taken, later, k.Next());
    NewPart(t, later);
  }

  lemma TakenRises(taken: seq<nat>, later: seq<nat>, next: nat)
    requires Ascending(taken) && Ascending(later) && next == Known(taken, None).Next()
    requires forall i :: 0 <= i < |later| ==> later[i] >= next
    ensures Ascending(taken + later)
  {
    var c := taken + later;
    forall i, j | 0 <= i < j < |c| ensures c[i] < c[j] {
      if i < |taken| <= j {
        assert i < |taken| - 1 ==> taken[i] < taken[|taken| - 1];
        assert c[j] == later[j - |taken|];
      } else if |taken| <= i {
        assert c[i] == later[i - |taken|] && c[j] == later[j - |taken|];
      }
    }
  }

  function FirstFour(v: u64): seq<Piece> { [Sound(0, v), Sound(1, v), Sound(2, v), Sound(3, v)] }

  function WithGap(v: u64): seq<Piece> { [Sound(1, v), Sound(3, v), Sound(4, v), Sound(5, v)] }

  lemma GapIsGap()
    ensures !Continues(Known([0, 1, 2, 3], None), [1, 3] + [4, 5])
  {
    var k, ns := Known([0, 1, 2, 3], None), [1, 3] + [4, 5];
    assert k.Recent() == [0, 1, 2, 3] && ns == [1, 3, 4, 5];
    assert k.Recent()[1] == 1 && ns[0] == 1;
    assert Hit(k, ns, 1) && !Hit(k, ns, 2) && 1 <= 2 < k.Next();
  }

  lemma GapBreaks()
    ensures MeetSeq(Known([0, 1, 2, 3], None), [1, 3, 4, 5]).taken == [0, 1, 2, 3]
  {
    hide MeetSeq, Continues;
    GapIsGap();
    RepeatingVolume(Known([0, 1, 2, 3], None), [1, 3], [4, 5]);
    assert [1, 3] + [4, 5] == [1, 3, 4, 5];
  }

  lemma GapTaken(a: u64, b: u64, total: nat)
    requires total > 5
    ensures MeetVolumes([FirstFour(a), WithGap(b)], total).taken == [0, 1, 2, 3]
  {
    hide MeetAll, MeetVolumes, MeetSeq;
    SoundsOfFour(0, 1, 2, 3, a);
    SoundsOfFour(1, 3, 4, 5, b);
    assert [] + [0, 1, 2, 3] == [0, 1, 2, 3];
    NewVolume([], FirstFour(a), total);
    MeetAllTakes(Known([0, 1, 2, 3], None), WithGap(b), total);
    GapBreaks();
    TwoVolumes(FirstFour(a), WithGap(b), total);
  }

  /** So one lost frame can cost many: after the frames 0 to 3, a second volume that
      holds 1, 3 and then new frames gives none of them. */
  lemma GapInRepetition(o: Options, fs: seq<LogicalFrame>, uuid: seq<u8>, a: u64, b: u64)
    requires OneArchive(fs, uuid) && |fs| > 5
    ensures AreVolumes(o, fs, [FirstFour(a), WithGap(b)]) && Numbers(fs, [0, 1, 2, 3])
    ensures var r := ReadAll(o.hash, true, TapesOf(o, fs, [FirstFour(a), WithGap(b)]));
            r.Ok? && r.value.output == ContentOf(Picked(fs, [0, 1, 2, 3])) && !r.value.sawEnd
  {
    hide ReadAll, ContentOf, MetadataOf, SalvageTracks, TakenAs, Picked, OneArchive, MeetVolumes;
    assert ArePieces(o, fs, FirstFour(a)) && ArePieces(o, fs, WithGap(b));
    GapTaken(a, b, |fs|);
    var L := SalvagesExactly(o, fs, uuid, [FirstFour(a), WithGap(b)]);
  }

  lemma SoundsOfFour(p: nat, q: nat, r: nat, s: nat, v: u64)
    ensures Sounds([Sound(p, v), Sound(q, v), Sound(r, v), Sound(s, v)]) == [p, q, r, s]
  {
    var ps := [Sound(p, v), Sound(q, v), Sound(r, v), Sound(s, v)];
    assert ps[..3] == [Sound(p, v), Sound(q, v), Sound(r, v)];
    assert ps[..3][..2] == [Sound(p, v), Sound(q, v)];
    assert ps[..3][..2][..1] == [Sound(p, v)];
    assert ps[..3][..2][..1][..0] == [];
    assert Sounds([Sound(p, v)]) == [p];
    assert Sounds([Sound(p, v), Sound(q, v)]) == [p, q];
  }

  lemma TwoVolumes(one: seq<Piece>, two: seq<Piece>, total: nat)
    requires total > 0
    ensures var u := MeetAll(Known([], None), one, total);
            MeetVolumes([one, two], total) ==
              if Complete(u, total) then u else MeetAll(u.(cursor := None), two, total)
  {
    hide MeetAll;
    assert [one, two][..1] == [one] && [one][..0] == [];
    assert MeetVolumes([one], total) == MeetAll(Known([], None), one, total);
  }
}
