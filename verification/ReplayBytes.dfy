// What a replay must equal, byte for byte, and acceptance of whole streams stated
// without a hash.
module ReplayBytes {
  import opened Base
  import opened Format
  import opened Sealing
  import opened Validator
  import opened Grammar
  import opened Replays

  // ------------------------------------------------- what a replay must equal

  /** The outcome attached to the record is that of its integrity check. */
  ghost predicate Genuine(hash: Hasher, r: Record) {
    CheckFrame(hash, r.data) == Ok(r.frame)
  }

  lemma GenuineHash(hash: Hasher, r: Record)
    requires Genuine(hash, r) && r.frame.hashOk
    ensures r.H().hash == FrameHash(hash, r.data, r.H().volume)
  {
    assert r.H().volume == Word(r.data, OFF_VOLUME, 8);
  }

  /** The replay is intact and agrees with a comparable earlier record on every
      byte except volume ordinal, signature and hash. No hash appears in this. */
  predicate ReplayEqual(L: seq<Record>, r: Record) {
    && r.frame.hashOk
    && Comparable(L, r.H().global)
    && SameLogicalBytes(L[r.H().global].data, r.data)
  }

  /** What is hashed when r is compared with the record it repeats. */
  function ComparedImages(L: seq<Record>, r: Record): set<seq<u8>>
    requires r.H().global < |L|
  {
    var o := L[r.H().global];
    {Canonical(o.data, o.H().volume), Canonical(r.data, o.H().volume)}
  }

  /** Unless the two compared images collide, a replay is verified exactly when it
      equals the remembered record. */
  lemma ReplayMustEqual(hash: Hasher, L: seq<Record>, r: Record)
    requires Gapless(L) && r.H().global < |L| && Genuine(hash, L[r.H().global])
    requires CollisionFree(hash, ComparedImages(L, r))
    ensures ReplayVerified(hash, L, r) <==> ReplayEqual(L, r)
  {
    var o := L[r.H().global];
    if o.frame.hashOk {
      GenuineHash(hash, o);
      ReplayComparison(hash, o.data, r.data, o.H().volume);
    }
  }

  // ------------------------------------------------ the same, for whole streams

  /** Every image that the comparisons of a stream may hash. */
  function ImagesOf(P: seq<Arrival>): set<seq<u8>> {
    set i, j | 0 <= i < |P| && 0 <= j < |P| :: Canonical(P[i].record.data, P[j].record.H().volume)
  }

  ghost predicate AllGenuine(hash: Hasher, P: seq<Arrival>) {
    forall i :: 0 <= i < |P| ==> Genuine(hash, P[i].record)
  }

  /** The replay rules with equality of bytes in place of the comparison of hashes. */
  predicate EqualRules(P: seq<Arrival>, i: nat)
    requires i < |P|
  {
    && (IsReplay(P, i) ==> ReplayEqual(Logical(P[..i]), P[i].record))
    && (!P[i].opens && Pending(P[..i]).Some? ==> P[i].record.H().global == Pending(P[..i]).value)
  }

  ghost predicate ReplaysEqual(P: seq<Arrival>) {
    forall i {:trigger EqualRules(P, i)} :: 0 <= i < |P| ==> EqualRules(P, i)
  }

  lemma {:induction false} LogicalComesFrom(P: seq<Arrival>, k: nat) returns (j: nat)
    requires k < |Logical(P)|
    ensures j < |P| && Logical(P)[k] == P[j].record
  {
    var M := P[..|P| - 1];
    if k < |Logical(M)| {
      j := LogicalComesFrom(M, k);
    } else {
      j := |M|;
    }
  }

  lemma {:induction false} LogicalGapless(P: seq<Arrival>, i: nat, restore: bool)
    requires ArchiveGrammar(Logical(P), restore) && i <= |P|
    ensures Gapless(Logical(P[..i]))
    decreases |P|
  {
    hide ArchiveGrammar;
    if i == |P| {
      assert P[..i] == P;
      GrammarIsGapless(Logical(P), restore);
    } else {
      var M := P[..|P| - 1];
      assert P == M + [P[|M|]];
      LogicalPrefixClosed(M, P[|M|], restore);
      LogicalGapless(M, i, restore);
      assert M[..i] == P[..i];
    }
  }

  lemma RulesByBytes(hash: Hasher, P: seq<Arrival>, i: nat)
    requires i < |P| && AllGenuine(hash, P) && CollisionFree(hash, ImagesOf(P)) && Gapless(Logical(P[..i]))
    ensures ReplayRules(hash, P, i) <==> EqualRules(P, i)
  {
    hide Genuine, CollisionFree, SameLogicalBytes, Comparable;
    if IsReplay(P, i) {
      var L, r := Logical(P[..i]), P[i].record;
      var j := LogicalComesFrom(P[..i], r.H().global);
      var o := P[j].record;
      assert P[..i][j] == P[j];
      FewerImages(hash, P, ComparedImages(L, r));
      ReplayMustEqual(hash, L, r);
    }
  }

  lemma FewerImages(hash: Hasher, P: seq<Arrival>, images: set<seq<u8>>)
    requires CollisionFree(hash, ImagesOf(P)) && images <= ImagesOf(P)
    ensures CollisionFree(hash, images)
  {
  }

  /** Acceptance without any hash in it. If the records' hashes are genuine and no
      two images of the stream collide, a fresh validator accepts the stream
      exactly when it is in the grammar without its replays, and every replay runs
      in order and equals the record it repeats, byte for byte outside volume
      ordinal, signature and hash. */
  lemma AcceptsByBytes(hash: Hasher, P: seq<Arrival>, restore: bool)
    requires |P| < TWO_64 && AllGenuine(hash, P) && CollisionFree(hash, ImagesOf(P))
    ensures Feed(hash, P, restore).Ok? <==> ArchiveGrammar(Logical(P), restore) && ReplaysEqual(P)
  {
    hide ArchiveGrammar, Feed, ReplayRules, EqualRules, CollisionFree, AllGenuine;
    AcceptsExactly(hash, P, restore);
    if ArchiveGrammar(Logical(P), restore) {
      forall i | 0 <= i < |P| ensures ReplayRules(hash, P, i) <==> EqualRules(P, i) {
        LogicalGapless(P, i, restore);
        RulesByBytes(hash, P, i);
      }
      if ReplaysLawful(hash, P) {
        forall i | 0 <= i < |P| ensures EqualRules(P, i) {
          assert ReplayRules(hash, P, i);
        }
      }
      if ReplaysEqual(P) {
        forall i | 0 <= i < |P| ensures ReplayRules(hash, P, i) {
          assert EqualRules(P, i);
        }
      }
    }
  }
}
