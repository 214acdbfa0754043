// The extractor: what one frame, one reader connection and a whole series of
// volumes add to the reconstructed output.
module Extractor {
  import opened Base
  import opened Format
  import opened Sealing
  import opened Validator
  import opened Replays
  import opened Media

  datatype Extract = Extract(v: State, output: seq<u8>, metadata: seq<u8>, sawEnd: bool, processed: nat)

  const Empty: Extract := Extract(Fresh, [], [], false, 0)

  /** The payload bytes of a record. */
  function PayloadOf(r: Record): seq<u8> {
    var body := r.data[HEADER_SIZE..];
    if r.H().payloadSize <= |body| then body[..r.H().payloadSize] else body
  }

  function JudgeMode(hash: Hasher, salvage: bool, v: State, r: Record): Result<Verdict, Fault> {
    if salvage then JudgeSalvage(hash, v, r) else Judge(hash, v, r, r.IsMetadata())
  }

  /** Metadata goes to its own output, and only when its hash verified. */
  function Emit(e: Extract, r: Record): Extract {
    match r.H().channel
    case Metadata => if r.frame.hashOk then e.(metadata := e.metadata + PayloadOf(r)) else e
    case ArchiveEnd => e.(sawEnd := true)
    case Content => e.(output := e.output + PayloadOf(r))
  }

  /** A refused frame ends a restore and is skipped in salvage mode. */
  function ProcessFrame(hash: Hasher, salvage: bool, e: Extract, r: Record): Result<Extract, Fault> {
    match JudgeMode(hash, salvage, e.v, r)
    case Err(fault) => if salvage then Ok(e) else Err(fault)
    case Ok(verdict) =>
      if verdict.replay then Ok(e.(v := verdict.next))
      else Ok(Emit(e.(v := verdict.next, processed := e.processed + 1), r))
  }

  datatype ReadError = Unreadable | Refused(fault: Fault)

  function OnRecord(hash: Hasher, salvage: bool, e: Extract, bytes: seq<u8>): Result<Extract, ReadError> {
    match Arrived(hash, bytes)
    case None => Err(Unreadable)
    case Some(r) =>
      match ProcessFrame(hash, salvage, e, r)
      case Err(fault) => Err(Refused(fault))
      case Ok(next) => Ok(next)
  }

  /** The frames of one connection, up to the archive end. */
  function ReadRecords(hash: Hasher, salvage: bool, e: Extract, records: seq<seq<u8>>): Result<Extract, ReadError> {
    if records == [] then Ok(e)
    else
      match ReadRecords(hash, salvage, e, records[..|records| - 1])
      case Err(error) => Err(error)
      case Ok(u) => if u.sawEnd then Ok(u) else OnRecord(hash, salvage, u, records[|records| - 1])
  }

  function ReadVolume(hash: Hasher, salvage: bool, e: Extract, records: seq<seq<u8>>): Result<Extract, ReadError> {
    ReadRecords(hash, salvage, e.(v := BeginConnection(e.v)), records)
  }

  /** One reader connection per volume, until the archive end was accepted. */
  function ReadAll(hash: Hasher, salvage: bool, volumes: seq<seq<seq<u8>>>): Result<Extract, ReadError> {
    if volumes == [] then Ok(Empty)
    else
      match ReadAll(hash, salvage, volumes[..|volumes| - 1])
      case Err(error) => Err(error)
      case Ok(u) => if u.sawEnd then Ok(u) else ReadVolume(hash, salvage, u, volumes[|volumes| - 1])
  }

  /** An accepted replay writes nothing, to either output, and leaves everything
      but the replay cursor as it was, in restore and in salvage mode. */
  lemma ReplayEmitsNothing(hash: Hasher, salvage: bool, e: Extract, r: Record)
    requires JudgeMode(hash, salvage, e.v, r).Ok? && JudgeMode(hash, salvage, e.v, r).value.replay
    ensures ProcessFrame(hash, salvage, e, r).Ok?
    ensures var next := ProcessFrame(hash, salvage, e, r).value;
            next == e.(v := e.v.(replayNext := next.v.replayNext))
  {
    hide Judge, JudgeSalvage;
    ReplayIsInert(hash, e.v, r, r.IsMetadata());
  }

  /** Nothing unverified reaches either output: whatever one frame adds to the
      content or metadata output is the payload of a record whose hash verified. */
  lemma OnlyVerifiedOutput(hash: Hasher, salvage: bool, e: Extract, r: Record)
    requires ProcessFrame(hash, salvage, e, r).Ok?
    ensures var next := ProcessFrame(hash, salvage, e, r).value;
            && (next.output != e.output ==>
                  r.frame.hashOk && r.H().channel.Content? && next.output == e.output + PayloadOf(r))
            && (next.metadata != e.metadata ==>
                  r.frame.hashOk && r.H().channel.Metadata? && next.metadata == e.metadata + PayloadOf(r))
            && (next.sawEnd && !e.sawEnd ==> r.frame.hashOk && r.IsEnd())
  {
    hide CheckReplay, CheckIdentity, Place;
  }

  // ------------------------------------------------------ the extractor object

  datatype ReaderMessage = ReaderFrame(bytes: seq<u8>) | ReaderEof | ReaderError | ReaderOther

  class ExtractorState {
    const hash: Hasher
    const salvage: bool
    const validator: FrameValidator
    var output: seq<u8>
    var metadata: seq<u8>
    var sawEnd: bool
    var processed: nat
    var fatal: bool

    ghost predicate Valid()
      reads this, validator
    {
      validator.hash == hash
    }

    ghost function E(): Extract
      reads this, validator
    {
      Extract(validator.S(), output, metadata, sawEnd, processed)
    }

    constructor (hash: Hasher, salvage: bool)
      ensures Valid() && this.hash == hash && this.salvage == salvage && E() == Empty && !fatal && fresh(validator)
    {
      this.hash := hash;
      this.salvage := salvage;
      validator := new FrameValidator(hash);
      output, metadata, sawEnd, processed, fatal := [], [], false, 0, false;
    }

    /** The judgement of the mode in force; a refusal in salvage mode leaves the
        validator as it was. */
    method Examine(r: Record) returns (accepted: bool)
      requires Valid()
      modifies validator
      ensures Valid()
      ensures match JudgeMode(hash, salvage, old(validator.S()), r)
              case Err(_) => !accepted && (salvage ==> validator.S() == old(validator.S()))
              case Ok(verdict) =>
                accepted && validator.S() == verdict.next && validator.lastWasReplay == verdict.replay
    {
      hide Judge;
      var error: Option<Fault>;
      if salvage {
        error := validator.ValidateSalvageFrame(r);
      } else {
        var warning;
        error, warning := validator.ValidateRestoreFrame(r);
      }
      accepted := error.None?;
    }

    method Process(r: Record) returns (ok: bool)
      requires Valid()
      modifies this`output, this`metadata, this`sawEnd, this`processed, validator
      ensures Valid()
      ensures var step := ProcessFrame(hash, salvage, old(E()), r);
              ok == step.Ok? && (ok ==> E() == step.value)
    {
      hide JudgeMode;
      var accepted := Examine(r);
      if !accepted {
        return salvage;
      }
      if validator.lastWasReplay {
        return true;
      }
      processed := processed + 1;
      match r.H().channel {
        case Metadata =>
          if r.frame.hashOk {
            metadata := metadata + PayloadOf(r);
          }
        case ArchiveEnd =>
          sawEnd := true;
        case Content =>
          output := output + PayloadOf(r);
      }
      return true;
    }

    method Take(bytes: seq<u8>) returns (ok: bool)
      requires Valid()
      modifies this`output, this`metadata, this`sawEnd, this`processed, validator
      ensures Valid()
      ensures var step := OnRecord(hash, salvage, old(E()), bytes);
              ok == step.Ok? && (ok ==> E() == step.value)
    {
      hide ProcessFrame, CheckFrame;
      var r := Arrived(hash, bytes);
      if r.None? {
        return false;
      }
      ok := Process(r.value);
    }

    /** The frames a reader delivers before it goes away or stops making sense. */
    function FramesOf(messages: seq<ReaderMessage>): (f: seq<seq<u8>>)
      ensures |f| <= |messages| && forall i :: 0 <= i < |f| ==> messages[i] == ReaderFrame(f[i])
      ensures |f| < |messages| ==> !messages[|f|].ReaderFrame?
    {
      if messages == [] || !messages[0].ReaderFrame? then []
      else [messages[0].bytes] + FramesOf(messages[1..])
    }

    method BeginClient()
      requires Valid()
      modifies validator
      ensures Valid() && E() == old(E()).(v := BeginConnection(old(E()).v))
    {
      validator.BeginNewConnection();
    }

    /** Serves one reader connection. */
    method ServeClient(messages: seq<ReaderMessage>) returns (complete: bool)
      requires Valid() && !fatal && !sawEnd
      modifies this, validator
      ensures Valid()
      ensures var step := ReadVolume(hash, salvage, old(E()), FramesOf(messages));
              fatal == step.Err? && (!fatal ==> E() == step.value && complete == sawEnd)
    {
      hide OnRecord, BeginConnection;
      BeginClient();
      complete := ServeFrames(FramesOf(messages));
    }

    method ServeFrames(frames: seq<seq<u8>>) returns (complete: bool)
      requires Valid() && !fatal && !sawEnd
      modifies this`output, this`metadata, this`sawEnd, this`processed, this`fatal, validator
      ensures Valid()
      ensures var step := ReadRecords(hash, salvage, old(E()), frames);
              fatal == step.Err? && (!fatal ==> E() == step.value && complete == sawEnd)
    {
      hide OnRecord;
      var i := 0;
      while i < |frames|
        invariant 0 <= i <= |frames| && Valid() && !fatal && !sawEnd
        invariant ReadRecords(hash, salvage, old(E()), frames[..i]) == Ok(E())
      {
        assert frames[..i + 1][..i] == frames[..i];
        var ok := Take(frames[i]);
        if !ok || sawEnd {
          fatal := !ok;
          ReadStops(hash, salvage, old(E()), frames, i + 1);
          return ok;
        }
        i := i + 1;
      }
      assert frames[..i] == frames;
      return false;
    }

    /** The accept loop: one reader connection per volume. */
    method RunExtractor(clients: seq<seq<ReaderMessage>>)
      requires Valid() && E() == Empty && !fatal
      modifies this, validator
      ensures Valid()
      ensures var all := ReadAll(hash, salvage, seq(|clients|, i requires 0 <= i < |clients| => FramesOf(clients[i])));
              fatal == all.Err? && (!fatal ==> E() == all.value)
    {
      hide ReadVolume;
      ghost var volumes := seq(|clients|, i requires 0 <= i < |clients| => FramesOf(clients[i]));
      var i := 0;
      while i < |clients| && !sawEnd && !fatal
        invariant 0 <= i <= |clients| && Valid()
        invariant var all := ReadAll(hash, salvage, volumes[..i]);
                  fatal == all.Err? && (!fatal ==> E() == all.value)
      {
        assert volumes[..i + 1][..i] == volumes[..i];
        var complete := ServeClient(clients[i]);
        i := i + 1;
      }
      AllRead(hash, salvage, volumes, i);
    }
  }

  lemma {:induction false} AllRead(hash: Hasher, salvage: bool, volumes: seq<seq<seq<u8>>>, n: nat)
    requires n <= |volumes|
    requires var all := ReadAll(hash, salvage, volumes[..n]); n == |volumes| || all.Err? || all.value.sawEnd
    ensures ReadAll(hash, salvage, volumes) == ReadAll(hash, salvage, volumes[..n])
    decreases |volumes| - n
  {
    hide ReadVolume;
    if n == |volumes| {
      assert volumes[..n] == volumes;
    } else {
      assert volumes[..n + 1][..n] == volumes[..n];
      AllRead(hash, salvage, volumes, n + 1);
    }
  }

  /** After a refusal or the archive end the rest of the connection is ignored. */
  lemma {:induction false} ReadStops(hash: Hasher, salvage: bool, e: Extract, records: seq<seq<u8>>, n: nat)
    requires n <= |records|
    requires var step := ReadRecords(hash, salvage, e, records[..n]); step.Err? || step.value.sawEnd
    ensures ReadRecords(hash, salvage, e, records) == ReadRecords(hash, salvage, e, records[..n])
    decreases |records| - n
  {
    hide OnRecord;
    if n == |records| {
      assert records[..n] == records;
    } else {
      assert records[..n + 1][..n] == records[..n];
      ReadStops(hash, salvage, e, records, n + 1);
    }
  }
}
