// Replayed records: the bounded retry history, and the exact language of
// physical record streams (several connections, with replays) that a fresh
// validator accepts.
module Replays {
  import opened Base
  import opened Format
  import opened FormatTheorems
  import opened Sealing
  import opened Validator
  import opened Grammar

  // ------------------------------------------------------ the retry history

  /** The identities of all records whose hash verified, in order. */
  function Remembered(L: seq<Record>): (r: seq<ReplayIdentity>)
    ensures |r| <= |L|
  {
    if L == [] then []
    else
      Remembered(L[..|L| - 1]) + if L[|L| - 1].frame.hashOk then [IdentityOf(L[|L| - 1])] else []
  }

  function HistoryOf(L: seq<Record>): seq<ReplayIdentity> {
    if L == [] then [] else Remember(HistoryOf(L[..|L| - 1]), L[|L| - 1])
  }

  /** How many verified records followed record g. */
  function Newer(L: seq<Record>, g: nat): int
    requires g < |L|
  {
    |Remembered(L)| - |Remembered(L[..g])| - 1
  }

  /** The history is the last 8192 remembered identities. */
  lemma {:induction false} HistoryIsSuffix(L: seq<Record>)
    ensures var n := |Remembered(L)|;
            var m := if n < RETRY_HISTORY then n else RETRY_HISTORY;
            HistoryOf(L) == Remembered(L)[n - m..]
  {
    if L != [] {
      HistoryIsSuffix(L[..|L| - 1]);
    }
  }

  lemma {:induction false} RememberedAt(L: seq<Record>, i: nat)
    requires i < |L| && L[i].frame.hashOk
    ensures |Remembered(L[..i])| < |Remembered(L)|
    ensures Remembered(L)[|Remembered(L[..i])|] == IdentityOf(L[i])
  {
    var M := L[..|L| - 1];
    if i < |M| {
      RememberedAt(M, i);
      assert M[..i] == L[..i];
    } else {
      assert L[..i] == M;
    }
  }

  lemma {:induction false} RememberedFrom(L: seq<Record>, k: nat) returns (i: nat)
    requires k < |Remembered(L)|
    ensures i < |L| && L[i].frame.hashOk && |Remembered(L[..i])| == k
    ensures Remembered(L)[k] == IdentityOf(L[i])
  {
    var M := L[..|L| - 1];
    if k < |Remembered(M)| {
      i := RememberedFrom(M, k);
      assert M[..i] == L[..i];
    } else {
      i := |M|;
      assert L[..i] == M;
    }
  }

  /** An earlier record can still be compared exactly when its own hash verified
      and fewer than 8192 verified records followed it. */
  predicate Comparable(L: seq<Record>, g: nat) {
    g < |L| && L[g].frame.hashOk && Newer(L, g) < RETRY_HISTORY
  }

  lemma KeptIsComparable(L: seq<Record>, k: nat)
    requires Gapless(L) && k < |HistoryOf(L)|
    ensures Comparable(L, HistoryOf(L)[k].global)
    ensures HistoryOf(L)[k] == IdentityOf(L[HistoryOf(L)[k].global])
  {
    HistoryIsSuffix(L);
    var i := RememberedFrom(L, k + |Remembered(L)| - |HistoryOf(L)|);
  }

  lemma ComparableIsKept(L: seq<Record>, g: nat)
    requires Comparable(L, g)
    ensures IdentityOf(L[g]) in HistoryOf(L)
  {
    HistoryIsSuffix(L);
    RememberedAt(L, g);
    var drop := |Remembered(L)| - |HistoryOf(L)|;
    assert HistoryOf(L)[|Remembered(L[..g])| - drop] == IdentityOf(L[g]);
  }

  /** The lookup of a retry finds exactly the comparable records. */
  lemma FindInHistory(L: seq<Record>, g: u64)
    requires Gapless(L)
    ensures FindReplay(HistoryOf(L), g) == if Comparable(L, g) then Some(IdentityOf(L[g])) else None
  {
    var kept := HistoryOf(L);
    var found := FindReplay(kept, g);
    if found.Some? {
      var k :| 0 <= k < |kept| && kept[k] == found.value;
      KeptIsComparable(L, k);
    } else if Comparable(L, g) {
      ComparableIsKept(L, g);
    }
  }

  // ------------------------------------------------ physical record streams

  /** A record as it arrives; a connection may begin just before it. */
  datatype Arrival = Arrival(record: Record, opens: bool)

  function Receive(hash: Hasher, v: State, a: Arrival, restore: bool): Result<Verdict, Fault> {
    Judge(hash, if a.opens then BeginConnection(v) else v, a.record, restore && a.record.IsMetadata())
  }

  /** A fresh validator fed with a stream of arrivals. */
  function Feed(hash: Hasher, P: seq<Arrival>, restore: bool): Result<State, Fault> {
    if P == [] then Ok(Fresh)
    else
      match Feed(hash, P[..|P| - 1], restore)
      case Err(e) => Err(e)
      case Ok(v) =>
        match Receive(hash, v, P[|P| - 1], restore)
        case Err(e) => Err(e)
        case Ok(verdict) => Ok(verdict.next)
  }

  /** The stream with its replays removed: a record numbered below the count of
      records so far is a replay. */
  function Logical(P: seq<Arrival>): (L: seq<Record>)
    ensures |L| <= |P|
  {
    if P == [] then []
    else
      var L := Logical(P[..|P| - 1]);
      var r := P[|P| - 1].record;
      if r.H().global < |L| then L else L + [r]
  }

  predicate IsReplay(P: seq<Arrival>, i: nat)
    requires i < |P|
  {
    P[i].record.H().global < |Logical(P[..i])|
  }

  /** The replay matches a comparable earlier record re-hashed for its volume. */
  predicate ReplayVerified(hash: Hasher, L: seq<Record>, r: Record) {
    && r.frame.hashOk
    && Comparable(L, r.H().global)
    && FrameHash(hash, r.data, L[r.H().global].H().volume) == L[r.H().global].H().hash
  }

  /** After a replay of record g out of n: the next number, if short of the end. */
  function NextReplay(n: nat, g: u64): Option<u64> {
    if g + 1 < n && g + 1 < TWO_64 then Some(g + 1) else None
  }

  /** The number the next record must carry when the last one was a replay short
      of the logical endpoint. */
  function Pending(P: seq<Arrival>): Option<u64> {
    if P == [] then None
    else NextReplay(|Logical(P[..|P| - 1])|, P[|P| - 1].record.H().global)
  }

  /** Replays are verified, and within a connection a replayed suffix runs in
      order up to the logical endpoint before anything new. */
  predicate ReplayRules(hash: Hasher, P: seq<Arrival>, i: nat)
    requires i < |P|
  {
    && (IsReplay(P, i) ==> ReplayVerified(hash, Logical(P[..i]), P[i].record))
    && (!P[i].opens && Pending(P[..i]).Some? ==> P[i].record.H().global == Pending(P[..i]).value)
  }

  ghost predicate ReplaysLawful(hash: Hasher, P: seq<Arrival>) {
    forall i {:trigger ReplayRules(hash, P, i)} :: 0 <= i < |P| ==> ReplayRules(hash, P, i)
  }

  ghost predicate StreamTracks(v: State, P: seq<Arrival>) {
    && Tracks(v, Logical(P))
    && v.history == HistoryOf(Logical(P))
    && v.replayNext == Pending(P)
  }

  lemma LawfulSnoc(hash: Hasher, P: seq<Arrival>, a: Arrival)
    ensures ReplaysLawful(hash, P + [a]) <==> ReplaysLawful(hash, P) && ReplayRules(hash, P + [a], |P|)
  {
    var Q := P + [a];
    forall i | 0 <= i < |P| ensures ReplayRules(hash, Q, i) <==> ReplayRules(hash, P, i) {
      assert Q[..i] == P[..i] && Q[i] == P[i];
    }
    if ReplaysLawful(hash, Q) {
      assert ReplayRules(hash, Q, |P|);
      forall i | 0 <= i < |P| ensures ReplayRules(hash, P, i) {
        assert ReplayRules(hash, Q, i);
      }
    }
    if ReplaysLawful(hash, P) && ReplayRules(hash, Q, |P|) {
      forall i | 0 <= i < |Q| ensures ReplayRules(hash, Q, i) {
        if i < |P| {
          assert ReplayRules(hash, P, i);
        }
      }
    }
  }

  /** An accepted replay leaves every part of the state but the replay cursor as
      it was, in normal mode and (for a record of the same archive) in salvage. */
  lemma ReplayIsInert(hash: Hasher, v: State, r: Record, allowBadHash: bool)
    ensures Judge(hash, v, r, allowBadHash).Ok? && Judge(hash, v, r, allowBadHash).value.replay ==>
              && r.H().global < v.expected && r.frame.hashOk
              && Judge(hash, v, r, allowBadHash).value.next ==
                   v.(replayNext := Judge(hash, v, r, allowBadHash).value.next.replayNext)
    ensures JudgeSalvage(hash, v, r).Ok? && JudgeSalvage(hash, v, r).value.replay ==>
              && r.H().global < v.expected && r.H().uuid == v.uuid
              && JudgeSalvage(hash, v, r).value.next ==
                   v.(replayNext := JudgeSalvage(hash, v, r).value.next.replayNext)
  {
  }

  /** The cursor seen by the next arrival. */
  function Cursor(P: seq<Arrival>, a: Arrival): Option<u64> {
    if a.opens then None else Pending(P)
  }

  lemma LogicalSnoc(P: seq<Arrival>, a: Arrival)
    ensures Logical(P + [a]) ==
              if a.record.H().global < |Logical(P)| then Logical(P) else Logical(P) + [a.record]
  {
    assert (P + [a])[..|P|] == P;
  }

  lemma SnocFacts(P: seq<Arrival>, a: Arrival)
    ensures (P + [a])[..|P|] == P && (P + [a])[|P|] == a
    ensures Logical(P + [a]) ==
              if a.record.H().global < |Logical(P)| then Logical(P) else Logical(P) + [a.record]
    ensures IsReplay(P + [a], |P|) <==> a.record.H().global < |Logical(P)|
    ensures Pending(P + [a]) == NextReplay(|Logical(P)|, a.record.H().global)
  {
    LogicalSnoc(P, a);
    var Q := P + [a];
    assert Q[..|P|] == P && Q[|P|] == a;
  }

  lemma RulesSnoc(hash: Hasher, P: seq<Arrival>, a: Arrival)
    ensures ReplayRules(hash, P + [a], |P|) <==>
              && (a.record.H().global < |Logical(P)| ==> ReplayVerified(hash, Logical(P), a.record))
              && (Cursor(P, a).Some? ==> a.record.H().global == Cursor(P, a).value)
  {
    SnocFacts(P, a);
  }

  /** The replay check against a state that tracks L, with replay cursor v.replayNext. */
  lemma CheckReplayExact(hash: Hasher, v: State, L: seq<Record>, r: Record)
    requires v.expected == |L| && Gapless(L) && v.history == HistoryOf(L) && r.H().global < |L|
    ensures CheckReplay(hash, v, r).Ok? <==>
              && ReplayVerified(hash, L, r)
              && (v.replayNext.Some? ==> r.H().global == v.replayNext.value)
    ensures CheckReplay(hash, v, r).Ok? ==>
              CheckReplay(hash, v, r).value ==
                Some(v.(replayNext := if r.H().global + 1 < |L| then Some(r.H().global + 1) else None))
  {
    hide HistoryOf, FindReplay, FrameHash, Gapless, Comparable;
    FindInHistory(L, r.H().global);
    ComparableBound(L, r.H().global);
  }

  lemma ComparableBound(L: seq<Record>, g: u64)
    ensures Comparable(L, g) ==> g < |L|
  {
  }

  lemma ReceiveReplay(hash: Hasher, v: State, P: seq<Arrival>, a: Arrival, restore: bool)
    requires StreamTracks(v, P) && Gapless(Logical(P))
    requires |P| + 1 < TWO_64
    requires a.record.H().global < |Logical(P)|
    ensures Receive(hash, v, a, restore).Ok? <==> ReplayRules(hash, P + [a], |P|)
    ensures Receive(hash, v, a, restore).Ok? ==> StreamTracks(Receive(hash, v, a, restore).value.next, P + [a])
  {
    hide Gapless, HistoryOf, Tracks, ReplayVerified, CheckReplay;
    TracksCount(v, Logical(P));
    SnocFacts(P, a);
    RulesSnoc(hash, P, a);
    CheckReplayExact(hash, v.(replayNext := Cursor(P, a)), Logical(P), a.record);
    assert (if a.opens then BeginConnection(v) else v) == v.(replayNext := Cursor(P, a));
    TracksIgnoresReplays(v, Logical(P), Pending(P + [a]));
  }

  lemma TracksIgnoresReplays(v: State, L: seq<Record>, cursor: Option<u64>)
    requires Tracks(v, L)
    ensures Tracks(v.(replayNext := cursor), L)
  {
  }

  /** A record that is not a replay passes the replay check exactly when no
      replayed suffix is pending; the rest is left to the sequence check. */
  lemma ReceiveIsJudgeNew(hash: Hasher, v: State, P: seq<Arrival>, a: Arrival, restore: bool)
    requires v.expected == |Logical(P)| && v.replayNext == Pending(P)
    requires a.record.H().global >= |Logical(P)|
    ensures ReplayRules(hash, P + [a], |P|) <==> Cursor(P, a).None?
    ensures Cursor(P, a).Some? ==> Receive(hash, v, a, restore).Err?
    ensures Cursor(P, a).None? ==>
              Receive(hash, v, a, restore) ==
                match JudgeNew(v.(replayNext := None), a.record, restore && a.record.IsMetadata())
                case Err(e) => Err(e)
                case Ok(w) => Ok(Verdict(w, false))
  {
    RulesSnoc(hash, P, a);
    assert (if a.opens then BeginConnection(v) else v) == v.(replayNext := Cursor(P, a));
  }

  lemma StreamTracksNew(w: State, P: seq<Arrival>, a: Arrival)
    requires a.record.H().global >= |Logical(P)|
    requires Tracks(w, Logical(P) + [a.record])
    requires w.history == Remember(HistoryOf(Logical(P)), a.record) && w.replayNext == None
    ensures StreamTracks(w, P + [a])
  {
    SnocFacts(P, a);
    HistorySnoc(Logical(P), a.record);
  }

  /** The state in which a record that is not a replay is judged. */
  lemma NewRecordJudged(v: State, P: seq<Arrival>, a: Arrival, restore: bool)
    requires StreamTracks(v, P) && ArchiveGrammar(Logical(P), restore) && |P| + 1 < TWO_64
    requires a.record.H().global >= |Logical(P)|
    ensures var j := JudgeNew(v.(replayNext := None), a.record, restore && a.record.IsMetadata());
            && (j.Ok? <==> ArchiveGrammar(Logical(P) + [a.record], restore))
            && (j.Ok? ==> StreamTracks(j.value, P + [a]))
  {
    TracksIgnoresReplays(v, Logical(P), None);
    JudgeNewExact(v.(replayNext := None), Logical(P), a.record, restore);
    var j := JudgeNew(v.(replayNext := None), a.record, restore && a.record.IsMetadata());
    if j.Ok? {
      StreamTracksNew(j.value, P, a);
    }
  }

  lemma ReceiveNew(hash: Hasher, v: State, P: seq<Arrival>, a: Arrival, restore: bool)
    requires StreamTracks(v, P) && ArchiveGrammar(Logical(P), restore)
    requires |P| + 1 < TWO_64
    requires a.record.H().global >= |Logical(P)|
    ensures Receive(hash, v, a, restore).Ok? <==>
              ReplayRules(hash, P + [a], |P|) && ArchiveGrammar(Logical(P) + [a.record], restore)
    ensures Receive(hash, v, a, restore).Ok? ==> StreamTracks(Receive(hash, v, a, restore).value.next, P + [a])
  {
    ReceiveIsJudgeNew(hash, v, P, a, restore);
    NewRecordJudged(v, P, a, restore);
  }

  lemma HistorySnoc(L: seq<Record>, r: Record)
    ensures HistoryOf(L + [r]) == Remember(HistoryOf(L), r)
  {
    assert (L + [r])[..|L|] == L;
  }

  lemma GrammarIsGapless(L: seq<Record>, restore: bool)
    requires ArchiveGrammar(L, restore)
    ensures Gapless(L)
  {
  }

  /** One record more: what held of the stream before it holds of the longer one. */
  lemma AcceptsStep(hash: Hasher, M: seq<Arrival>, a: Arrival, restore: bool)
    requires |M| + 1 < TWO_64
    requires Feed(hash, M, restore).Ok? <==> ArchiveGrammar(Logical(M), restore) && ReplaysLawful(hash, M)
    requires Feed(hash, M, restore).Ok? ==> StreamTracks(Feed(hash, M, restore).value, M)
    ensures var P := M + [a];
            && (Feed(hash, P, restore).Ok? <==> ArchiveGrammar(Logical(P), restore) && ReplaysLawful(hash, P))
            && (Feed(hash, P, restore).Ok? ==> StreamTracks(Feed(hash, P, restore).value, P))
  {
    hide ArchiveGrammar, StreamTracks, ReplaysLawful, ReplayRules, Logical, Receive;
    assert (M + [a])[..|M|] == M;
    LawfulSnoc(hash, M, a);
    LogicalSnoc(M, a);
    if Feed(hash, M, restore).Ok? {
      var v := Feed(hash, M, restore).value;
      GrammarIsGapless(Logical(M), restore);
      if a.record.H().global < |Logical(M)| {
        ReceiveReplay(hash, v, M, a, restore);
      } else {
        ReceiveNew(hash, v, M, a, restore);
      }
    } else {
      LogicalPrefixClosed(M, a, restore);
    }
  }

  /** The main theorem about the validator. A fresh validator accepts a physical
      record stream exactly when every replay in it is verified and in order and
      the stream with its replays removed is in the archive grammar. */
  lemma {:induction false} AcceptsExactly(hash: Hasher, P: seq<Arrival>, restore: bool)
    requires |P| < TWO_64
    ensures Feed(hash, P, restore).Ok? <==>
              ArchiveGrammar(Logical(P), restore) && ReplaysLawful(hash, P)
    ensures Feed(hash, P, restore).Ok? ==> StreamTracks(Feed(hash, P, restore).value, P)
  {
    if P != [] {
      var M, a := P[..|P| - 1], P[|P| - 1];
      assert P == M + [a];
      AcceptsExactly(hash, M, restore);
      AcceptsStep(hash, M, a, restore);
    }
  }

  lemma LogicalPrefixClosed(P: seq<Arrival>, a: Arrival, restore: bool)
    ensures ArchiveGrammar(Logical(P + [a]), restore) ==> ArchiveGrammar(Logical(P), restore)
  {
    LogicalSnoc(P, a);
    if a.record.H().global >= |Logical(P)| {
      GrammarSnoc(Logical(P), a.record, restore);
    }
  }

  // ---------------------------------------- bounds of the history, both modes

  predicate Increasing(h: seq<ReplayIdentity>) {
    forall i, j :: 0 <= i < j < |h| ==> h[i].global < h[j].global
  }

  predicate HistoryBounded(v: State) {
    && |v.history| <= RETRY_HISTORY
    && Increasing(v.history)
    && (forall i :: 0 <= i < |v.history| ==> v.history[i].global < v.expected)
    && (v.replayNext.Some? ==> v.replayNext.value < v.expected)
  }

  lemma RememberBounded(h: seq<ReplayIdentity>, r: Record)
    requires |h| <= RETRY_HISTORY && Increasing(h)
    requires forall i :: 0 <= i < |h| ==> h[i].global < r.H().global
    ensures |Remember(h, r)| <= RETRY_HISTORY && Increasing(Remember(h, r))
    ensures forall i :: 0 <= i < |Remember(h, r)| ==> Remember(h, r)[i].global <= r.H().global
  {
  }

  lemma JudgeNewEffects(v: State, r: Record, allowBadHash: bool)
    requires JudgeNew(v, r, allowBadHash).Ok?
    ensures var w := JudgeNew(v, r, allowBadHash).value;
            && w.history == Remember(v.history, r) && w.replayNext == v.replayNext
            && r.H().global == v.expected && w.expected == Succ(r.H().global)
  {
  }

  lemma JudgedHistoryBounded(hash: Hasher, v: State, r: Record, allowBadHash: bool)
    requires HistoryBounded(v) && r.H().global < TWO_64 - 1 && Judge(hash, v, r, allowBadHash).Ok?
    ensures HistoryBounded(Judge(hash, v, r, allowBadHash).value.next)
  {
    var verdict := Judge(hash, v, r, allowBadHash).value;
    if verdict.replay {
      ReplayIsInert(hash, v, r, allowBadHash);
    } else {
      JudgeNewEffects(v, r, allowBadHash);
      RememberBounded(v.history, r);
    }
  }

  lemma SalvagedHistoryBounded(hash: Hasher, v: State, r: Record)
    requires HistoryBounded(v) && r.H().global < TWO_64 - 1 && JudgeSalvage(hash, v, r).Ok?
    ensures HistoryBounded(JudgeSalvage(hash, v, r).value.next)
  {
    var verdict := JudgeSalvage(hash, v, r).value;
    if verdict.replay {
      ReplayIsInert(hash, v, r, false);
    } else {
      RememberBounded(if v.uuid != r.H().uuid then [] else v.history, r);
    }
  }

  /** In restore and in salvage mode, below the top of the number range, the
      history stays strictly increasing, below the expected number and bounded,
      and the replay cursor stays below the expected number. */
  lemma HistoryStaysBounded(hash: Hasher, v: State, r: Record, allowBadHash: bool)
    requires HistoryBounded(v) && r.H().global < TWO_64 - 1
    ensures Judge(hash, v, r, allowBadHash).Ok? ==>
              HistoryBounded(Judge(hash, v, r, allowBadHash).value.next)
    ensures JudgeSalvage(hash, v, r).Ok? ==> HistoryBounded(JudgeSalvage(hash, v, r).value.next)
    ensures HistoryBounded(BeginConnection(v))
  {
    if Judge(hash, v, r, allowBadHash).Ok? {
      JudgedHistoryBounded(hash, v, r, allowBadHash);
    }
    if JudgeSalvage(hash, v, r).Ok? {
      SalvagedHistoryBounded(hash, v, r);
    }
  }
}
