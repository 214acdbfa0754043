// Restore: exactly which tapes are accepted, whatever they hold, and what comes
// out; and what damage it survives.
module Restore {
  import opened Base
  import opened Format
  import opened FormatTheorems
  import opened Sealing
  import opened Validator
  import opened Grammar
  import opened Replays
  import opened Seeding
  import opened FrameBuilder
  import opened Producer
  import opened VolumeServer
  import opened Media
  import opened Transfer
  import opened Extractor
  import opened EndToEnd
  import opened ArchiveTheorem

  // ------------------------------------------------- the stream that is read

  /** The archive end has been reached. */
  predicate Ends(P: seq<Arrival>) {
    Logical(P) != [] && Logical(P)[|Logical(P)| - 1].IsEnd()
  }

  /** What is read of a series of volumes: everything up to the archive end, or up
      to a record that does not even parse. */
  datatype Stream = Stream(arrivals: seq<Arrival>, unreadable: bool)

  function TakeBytes(hash: Hasher, s: Stream, bytes: seq<u8>, opens: bool): Stream {
    if s.unreadable || Ends(s.arrivals) then s
    else
      match Arrived(hash, bytes)
      case None => s.(unreadable := true)
      case Some(r) => Stream(s.arrivals + [Arrival(r, opens)], false)
  }

  function TakeRecords(hash: Hasher, s: Stream, records: seq<seq<u8>>): Stream {
    if records == [] then s
    else
      var n := |records| - 1;
      TakeBytes(hash, TakeRecords(hash, s, records[..n]), records[n], n == 0)
  }

  function StreamOf(hash: Hasher, volumes: seq<seq<seq<u8>>>): Stream {
    if volumes == [] then Stream([], false)
    else TakeRecords(hash, StreamOf(hash, volumes[..|volumes| - 1]), volumes[|volumes| - 1])
  }

  function ContentsOf(L: seq<Record>): seq<u8> {
    if L == [] then []
    else ContentsOf(L[..|L| - 1]) + if L[|L| - 1].H().channel.Content? then PayloadOf(L[|L| - 1]) else []
  }

  /** Metadata is advisory: what does not verify is left out. */
  function VerifiedMetadata(L: seq<Record>): seq<u8> {
    if L == [] then []
    else
      var r := L[|L| - 1];
      VerifiedMetadata(L[..|L| - 1]) + if r.IsMetadata() && r.frame.hashOk then PayloadOf(r) else []
  }

  // ------------------------------------------------------- reading it, exactly

  /** The outputs are those of the stream without its replays. */
  ghost predicate OutputOf(e: Extract, P: seq<Arrival>) {
    && e.output == ContentsOf(Logical(P)) && e.metadata == VerifiedMetadata(Logical(P))
    && e.processed == |Logical(P)| && (e.sawEnd <==> Ends(P))
  }

  ghost predicate Reads(hash: Hasher, step: Result<Extract, ReadError>, s: Stream) {
    && (step.Ok? <==> !s.unreadable && Feed(hash, s.arrivals, true).Ok?)
    && (step.Ok? ==> OutputOf(step.value, s.arrivals))
  }

  /** The extractor's validator is the one fed with the stream, up to the start of
      a connection. */
  ghost predicate SameValidator(hash: Hasher, e: Extract, s: Stream, begun: bool)
    requires Feed(hash, s.arrivals, true).Ok?
  {
    var u := Feed(hash, s.arrivals, true).value;
    e.v == if begun then BeginConnection(u) else u
  }

  lemma ContentsSnoc(L: seq<Record>, r: Record)
    ensures ContentsOf(L + [r]) == ContentsOf(L) + if r.H().channel.Content? then PayloadOf(r) else []
    ensures VerifiedMetadata(L + [r]) ==
              VerifiedMetadata(L) + if r.IsMetadata() && r.frame.hashOk then PayloadOf(r) else []
  {
    assert (L + [r])[..|L|] == L;
  }

  /** A new record adds to the outputs what the grammar's last record adds. */
  lemma EmitsLast(e: Extract, L: seq<Record>, r: Record)
    requires e.output == ContentsOf(L) && e.metadata == VerifiedMetadata(L) && !e.sawEnd
    ensures var t := Emit(e, r);
            && t.output == ContentsOf(L + [r]) && t.metadata == VerifiedMetadata(L + [r])
            && t.v == e.v && t.processed == e.processed && (t.sawEnd <==> r.IsEnd())
  {
    hide PayloadOf;
    ContentsSnoc(L, r);
  }

  lemma FeedSnoc(hash: Hasher, P: seq<Arrival>, a: Arrival)
    requires Feed(hash, P, true).Ok?
    ensures var r := Receive(hash, Feed(hash, P, true).value, a, true);
            && (Feed(hash, P + [a], true).Ok? <==> r.Ok?)
            && (r.Ok? ==> Feed(hash, P + [a], true).value == r.value.next)
  {
    hide Receive;
    assert (P + [a])[..|P|] == P;
  }

  /** A fed validator knows which records are replays. */
  lemma ReplaysKnown(hash: Hasher, P: seq<Arrival>, a: Arrival)
    requires |P| < TWO_64 && Feed(hash, P, true).Ok?
    ensures var r := Receive(hash, Feed(hash, P, true).value, a, true);
            r.Ok? ==> (r.value.replay <==> a.record.H().global < |Logical(P)|)
  {
    hide ArchiveGrammar, ReplaysLawful, JudgeNew, FindReplay, FrameHash, HistoryOf;
    AcceptsExactly(hash, P, true);
    TracksCount(Feed(hash, P, true).value, Logical(P));
  }

  lemma EndsSnoc(P: seq<Arrival>, a: Arrival)
    ensures Ends(P + [a]) <==> if a.record.H().global < |Logical(P)| then Ends(P) else a.record.IsEnd()
  {
    hide Logical;
    LogicalSnoc(P, a);
  }

  /** One record. */
  lemma ReadOne(hash: Hasher, e: Extract, s: Stream, bytes: seq<u8>, opens: bool)
    requires |s.arrivals| < TWO_64 && Reads(hash, Ok(e), s) && SameValidator(hash, e, s, opens) && !e.sawEnd
    ensures var step, t := OnRecord(hash, false, e, bytes), TakeBytes(hash, s, bytes, opens);
            Reads(hash, step, t) && (step.Ok? ==> SameValidator(hash, step.value, t, false))
  {
    hide Feed, Logical, Judge, Ends, ContentsOf, VerifiedMetadata, Emit, CheckFrame;
    var r := Arrived(hash, bytes);
    if r.Some? {
      var a := Arrival(r.value, opens);
      FeedSnoc(hash, s.arrivals, a);
      ReplaysKnown(hash, s.arrivals, a);
      LogicalSnoc(s.arrivals, a);
      EndsSnoc(s.arrivals, a);
      var j := Receive(hash, Feed(hash, s.arrivals, true).value, a, true);
      if j.Ok? && !j.value.replay {
        EmitsLast(e.(v := j.value.next, processed := e.processed + 1), Logical(s.arrivals), r.value);
      }
    }
  }

  /** Reading goes on only while the stream does. */
  lemma StaysRead(hash: Hasher, e: Extract, s: Stream)
    requires Reads(hash, Ok(e), s)
    ensures !s.unreadable && Feed(hash, s.arrivals, true).Ok? && (e.sawEnd <==> Ends(s.arrivals))
  {
  }

  lemma StaysStopped(hash: Hasher, error: ReadError, s: Stream, bytes: seq<u8>, opens: bool)
    requires Reads(hash, Err(error), s)
    ensures Reads(hash, Err(error), TakeBytes(hash, s, bytes, opens))
  {
    hide Logical, CheckFrame, Receive;
    if !s.unreadable && !Ends(s.arrivals) && Arrived(hash, bytes).Some? {
      var P, a := s.arrivals, Arrival(Arrived(hash, bytes).value, opens);
      assert (P + [a])[..|P|] == P;
    }
  }

  lemma {:induction false} ReadTape(hash: Hasher, e: Extract, s: Stream, records: seq<seq<u8>>)
    requires Reads(hash, Ok(e), s) && SameValidator(hash, e, s, true) && !e.sawEnd
    requires |TakeRecords(hash, s, records).arrivals| < TWO_64
    ensures var step, t := ReadRecords(hash, false, e, records), TakeRecords(hash, s, records);
            Reads(hash, step, t) && (step.Ok? ==> SameValidator(hash, step.value, t, records == []))
    ensures |s.arrivals| <= |TakeRecords(hash, s, records).arrivals|
    decreases |records|
  {
    hide Reads, SameValidator, OnRecord, TakeBytes, Ends, Feed;
    if records != [] {
      var n := |records| - 1;
      var t := TakeRecords(hash, s, records[..n]);
      TakeGrows(hash, t, records[n], n == 0);
      ReadTape(hash, e, s, records[..n]);
      var u := ReadRecords(hash, false, e, records[..n]);
      if u.Err? {
        StaysStopped(hash, u.error, t, records[n], n == 0);
      } else {
        StaysRead(hash, u.value, t);
        TakeStops(hash, t, records[n], n == 0);
        if !u.value.sawEnd {
          ReadOne(hash, u.value, t, records[n], n == 0);
        } else {
          EndedInTape(hash, e, s, records[..n]);
        }
      }
    }
  }

  lemma TakeGrows(hash: Hasher, s: Stream, bytes: seq<u8>, opens: bool)
    ensures |s.arrivals| <= |TakeBytes(hash, s, bytes, opens).arrivals|
  {
    hide CheckFrame, Ends;
  }

  lemma TakeStops(hash: Hasher, s: Stream, bytes: seq<u8>, opens: bool)
    ensures Ends(s.arrivals) ==> TakeBytes(hash, s, bytes, opens) == s
  {
    hide CheckFrame, Ends;
  }

  /** A connection that has reached the end has read something. */
  lemma EndedInTape(hash: Hasher, e: Extract, s: Stream, records: seq<seq<u8>>)
    requires !e.sawEnd && ReadRecords(hash, false, e, records).Ok? && ReadRecords(hash, false, e, records).value.sawEnd
    ensures records != []
  {
  }

  lemma {:induction false} StreamGrows(hash: Hasher, s: Stream, records: seq<seq<u8>>)
    ensures |s.arrivals| <= |TakeRecords(hash, s, records).arrivals|
    ensures s.unreadable || Ends(s.arrivals) ==> TakeRecords(hash, s, records) == s
  {
    hide CheckFrame, Ends;
    if records != [] {
      StreamGrows(hash, s, records[..|records| - 1]);
    }
  }

  lemma {:induction false} StaysStoppedAll(hash: Hasher, error: ReadError, s: Stream, records: seq<seq<u8>>)
    requires Reads(hash, Err(error), s)
    ensures Reads(hash, Err(error), TakeRecords(hash, s, records))
  {
    hide Reads, TakeBytes;
    if records != [] {
      var n := |records| - 1;
      StaysStoppedAll(hash, error, s, records[..n]);
      StaysStopped(hash, error, TakeRecords(hash, s, records[..n]), records[n], n == 0);
    }
  }

  /** Up to the start of a connection. */
  ghost predicate NearlySame(hash: Hasher, e: Extract, s: Stream)
    requires Feed(hash, s.arrivals, true).Ok?
  {
    BeginConnection(e.v) == BeginConnection(Feed(hash, s.arrivals, true).value)
  }

  lemma Begins(hash: Hasher, e: Extract, s: Stream)
    requires Reads(hash, Ok(e), s) && NearlySame(hash, e, s)
    ensures var t := e.(v := BeginConnection(e.v));
            Reads(hash, Ok(t), s) && SameValidator(hash, t, s, true)
  {
    hide Feed, Logical, Ends, ContentsOf, VerifiedMetadata;
  }

  lemma Nearly(hash: Hasher, e: Extract, s: Stream, begun: bool)
    requires Feed(hash, s.arrivals, true).Ok? && SameValidator(hash, e, s, begun)
    ensures NearlySame(hash, e, s)
  {
    hide Feed;
  }

  lemma {:induction false} ReadTapes(hash: Hasher, volumes: seq<seq<seq<u8>>>)
    requires |StreamOf(hash, volumes).arrivals| < TWO_64
    ensures var step, s := ReadAll(hash, false, volumes), StreamOf(hash, volumes);
            Reads(hash, step, s) && (step.Ok? ==> NearlySame(hash, step.value, s))
  {
    hide Reads, NearlySame, SameValidator, ReadRecords, TakeRecords, Feed, Ends;
    if volumes == [] {
      NothingRead(hash);
    } else {
      var n := |volumes| - 1;
      var s := StreamOf(hash, volumes[..n]);
      StreamGrows(hash, s, volumes[n]);
      ReadTapes(hash, volumes[..n]);
      var u := ReadAll(hash, false, volumes[..n]);
      if u.Err? {
        StaysStoppedAll(hash, u.error, s, volumes[n]);
      } else {
        StaysRead(hash, u.value, s);
        if !u.value.sawEnd {
          Begins(hash, u.value, s);
          var e := u.value.(v := BeginConnection(u.value.v));
          ReadTape(hash, e, s, volumes[n]);
          var step := ReadRecords(hash, false, e, volumes[n]);
          if step.Ok? {
            StaysRead(hash, step.value, TakeRecords(hash, s, volumes[n]));
            Nearly(hash, step.value, TakeRecords(hash, s, volumes[n]), volumes[n] == []);
          }
        }
      }
    }
  }

  lemma NothingRead(hash: Hasher)
    ensures Reads(hash, Ok(Empty), Stream([], false)) && NearlySame(hash, Empty, Stream([], false))
  {
  }

  /** The main theorem about restoring arbitrary tapes. Whatever bytes the volumes
      hold, they are accepted exactly when every record that is read parses, every
      replay among them is verified and in order, and what remains without replays
      is in the archive grammar, damaged metadata being tolerated; the outputs are
      then the content payloads and the verified metadata payloads of just those
      records, in order. */
  lemma RestoresExactly(hash: Hasher, volumes: seq<seq<seq<u8>>>)
    requires |StreamOf(hash, volumes).arrivals| < TWO_64
    ensures var step, s := ReadAll(hash, false, volumes), StreamOf(hash, volumes);
            && (step.Ok? <==>
                  !s.unreadable && ArchiveGrammar(Logical(s.arrivals), true) && ReplaysLawful(hash, s.arrivals))
            && (step.Ok? ==> OutputOf(step.value, s.arrivals))
  {
    hide Feed, ArchiveGrammar, Logical, ReplaysLawful, ReadAll, OutputOf;
    ReadTapes(hash, volumes);
    AcceptsExactly(hash, StreamOf(hash, volumes).arrivals, true);
  }
}
