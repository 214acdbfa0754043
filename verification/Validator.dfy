// The archive-level frame validator: the judgement on one received record as a
// function of the validator state, and the object that keeps that state.
module Validator {
  import opened Base
  import opened Format
  import opened Sealing

  /** How many records an accepted retry may lie behind the newest one. */
  const RETRY_HISTORY: nat := 8192

  /** A received record with the outcome of its integrity check. Its header has
      been parsed, so its block size is not zero. */
  datatype Received = Received(frame: CheckedFrame, data: seq<u8>) {
    predicate Checked() {
      && |data| >= HEADER_SIZE
      && (frame.hashOk ==> frame.sizeOk)
      && frame.header.blockKib > 0
    }

    function H(): FrameHeader { frame.header }

    predicate IsEnd() { frame.header.channel.ArchiveEnd? }

    predicate IsMetadata() { frame.header.channel.Metadata? }
  }

  const SampleHeader: FrameHeader :=
    FrameHeader(Content, 4, [], [], 0, 0, 0, 0, 0, 1, Zeros(128), Zeros(72), Zeros(32))

  type Record = r: Received | r.Checked()
    witness Received(CheckedFrame(SampleHeader, false, false), Zeros(HEADER_SIZE))

  /** The two-element arrays indexed by slice channel. */
  datatype PerChannel<T> = PerChannel(content: T, metadata: T) {
    function Get(c: ChannelType): T
      requires !c.ArchiveEnd?
    {
      if c.Content? then content else metadata
    }

    function Set(c: ChannelType, x: T): PerChannel<T>
      requires !c.ArchiveEnd?
    {
      if c.Content? then PerChannel(x, metadata) else PerChannel(content, x)
    }
  }

  function Both<T>(x: T): PerChannel<T> { PerChannel(x, x) }

  datatype ReplayIdentity = ReplayIdentity(global: u64, volume: u64, hash: Hash)

  datatype State = State(
    uuid: seq<u8>,
    archiveLabel: seq<u8>,
    expected: u64,
    slice: u64,
    block: nat,
    sawAny: bool,
    sawEnd: bool,
    nextSeq: PerChannel<u64>,
    seen: PerChannel<bool>,
    ended: PerChannel<bool>,
    unknown: PerChannel<bool>,
    seeded: bool,
    history: seq<ReplayIdentity>,
    replayNext: Option<u64>)

  const Fresh: State :=
    State([], [], 0, 0, 0, false, false, Both(0), Both(false), Both(false), Both(false), false, [], None)

  function Seeded(h: FrameHeader): State {
    Fresh.(expected := h.global, slice := h.slice, seeded := true, unknown := Both(true))
  }

  datatype Fault =
    | ReplayIntegrity | ReplayUnverifiable | ReplayConflict | ReplayNotContiguous | NewBeforeReplayDone
    | AfterArchiveEnd | SizeMismatch | HashMismatch | BlockSizeChanged | UuidMismatch | LabelMismatch
    | GlobalGap | EndBeforeChannelsEnd | FirstSliceNotZero | SliceJump | SliceBeforeChannelsEnd
    | AfterChannelEnd | ChannelGap

  /** An accepted record: the next state, and whether it was a replay. */
  datatype Verdict = Verdict(next: State, replay: bool)

  function FindReplay(history: seq<ReplayIdentity>, global: u64): (r: Option<ReplayIdentity>)
    ensures r.Some? ==> r.value in history && r.value.global == global
    ensures r.None? ==> forall e :: e in history ==> e.global != global
  {
    if history == [] then None
    else if history[0].global == global then Some(history[0])
    else FindReplay(history[1..], global)
  }

  function IdentityOf(r: Record): ReplayIdentity {
    ReplayIdentity(r.H().global, r.H().volume, r.H().hash)
  }

  function Remember(history: seq<ReplayIdentity>, r: Record): seq<ReplayIdentity> {
    if !r.frame.hashOk then history
    else
      var longer := history + [IdentityOf(r)];
      if |longer| > RETRY_HISTORY then longer[1..] else longer
  }

  function CheckReplay(hash: Hasher, v: State, r: Record): Result<Option<State>, Fault> {
    var g := r.H().global;
    if g < v.expected then
      if !r.frame.hashOk then Err(ReplayIntegrity)
      else
        match FindReplay(v.history, g)
        case None => Err(ReplayUnverifiable)
        case Some(found) =>
          if FrameHash(hash, r.data, found.volume) != found.hash then Err(ReplayConflict)
          else if v.replayNext.Some? && v.replayNext.value != g then Err(ReplayNotContiguous)
          else Ok(Some(v.(replayNext := if g + 1 == v.expected then None else Some(g + 1))))
    else if v.replayNext.Some? then Err(NewBeforeReplayDone)
    else Ok(None)
  }

  predicate AllSeenEnded(v: State) {
    && (v.seen.content ==> v.ended.content)
    && (v.seen.metadata ==> v.ended.metadata)
  }

  /** Identity and block size; the first record fixes them. An empty archive
      uuid reads as not yet fixed. */
  function CheckIdentity(v: State, r: Record): Result<State, Fault> {
    var h := r.H();
    if v.block != 0 && DecodedBlockSize(h) != v.block then Err(BlockSizeChanged)
    else
      var v := v.(block := DecodedBlockSize(h));
      if v.uuid == [] then Ok(v.(uuid := h.uuid, archiveLabel := h.archiveLabel))
      else if h.uuid != v.uuid then Err(UuidMismatch)
      else if h.archiveLabel != v.archiveLabel then Err(LabelMismatch)
      else Ok(v)
  }

  /** The slice a frame opens or continues. */
  function EnterSlice(v: State, h: FrameHeader): Result<State, Fault> {
    if !v.sawAny && !v.seeded && h.slice != 0 then Err(FirstSliceNotZero)
    else
      var hadPrevious := v.sawAny;
      var v := if v.sawAny then v else v.(slice := h.slice, sawAny := true);
      if h.slice == v.slice then Ok(v)
      else if h.slice != Succ(v.slice) then Err(SliceJump)
      else if hadPrevious && !AllSeenEnded(v) then Err(SliceBeforeChannelsEnd)
      else Ok(v.(slice := h.slice, nextSeq := Both(0), seen := Both(false),
                 ended := Both(false), unknown := Both(false)))
  }

  function EnterChannel(v: State, h: FrameHeader): Result<State, Fault>
    requires !h.channel.ArchiveEnd?
  {
    var c := h.channel;
    if v.ended.Get(c) then Err(AfterChannelEnd)
    else
      var due := if v.unknown.Get(c) then h.channelSeq else v.nextSeq.Get(c);
      if h.channelSeq != due then Err(ChannelGap)
      else Ok(v.(unknown := v.unknown.Set(c, false),
                 seen := v.seen.Set(c, true),
                 nextSeq := v.nextSeq.Set(c, Succ(h.channelSeq)),
                 ended := v.ended.Set(c, HasEnd(h.flags))))
  }

  /** The place of a record that is not a replay. */
  function Place(v: State, r: Record): Result<State, Fault> {
    var h := r.H();
    if h.global != v.expected then Err(GlobalGap)
    else
      var v := v.(expected := Succ(h.global));
      if r.IsEnd() then
        if v.sawAny && !AllSeenEnded(v) then Err(EndBeforeChannelsEnd)
        else Ok(v.(sawEnd := true, history := Remember(v.history, r)))
      else
        match EnterSlice(v, h)
        case Err(e) => Err(e)
        case Ok(v) =>
          match EnterChannel(v, h)
          case Err(e) => Err(e)
          case Ok(v) => Ok(v.(history := Remember(v.history, r)))
  }

  function JudgeNew(v: State, r: Record, allowBadHash: bool): Result<State, Fault> {
    if v.sawEnd then Err(AfterArchiveEnd)
    else if !r.frame.sizeOk then Err(SizeMismatch)
    else if !r.frame.hashOk && !allowBadHash then Err(HashMismatch)
    else
      match CheckIdentity(v, r)
      case Err(e) => Err(e)
      case Ok(v) => Place(v, r)
  }

  /** `validate`: the first error is terminal. */
  function Judge(hash: Hasher, v: State, r: Record, allowBadHash: bool): Result<Verdict, Fault> {
    match CheckReplay(hash, v, r)
    case Err(e) => Err(e)
    case Ok(Some(next)) => Ok(Verdict(next, true))
    case Ok(None) =>
      match JudgeNew(v, r, allowBadHash)
      case Err(e) => Err(e)
      case Ok(next) => Ok(Verdict(next, false))
  }

  function BeginConnection(v: State): State {
    v.(replayNext := None)
  }

  /** Salvage keeps integrity and replay suppression, not sequencing. */
  function JudgeSalvage(hash: Hasher, v: State, r: Record): Result<Verdict, Fault> {
    if !r.frame.sizeOk then Err(SizeMismatch)
    else if !r.frame.hashOk then Err(HashMismatch)
    else
      var v := if v.uuid != r.H().uuid
               then v.(history := [], replayNext := None, expected := 0, uuid := r.H().uuid)
               else v;
      match CheckReplay(hash, v, r)
      case Err(e) => Err(e)
      case Ok(Some(next)) => Ok(Verdict(next, true))
      case Ok(None) =>
        Ok(Verdict(v.(history := Remember(v.history, r), expected := Succ(r.H().global)), false))
  }

  // ----------------------------------------------------- the validator object

  class FrameValidator {
    const hash: Hasher
    var lastWasReplay: bool
    var uuid: seq<u8>
    var archiveLabel: seq<u8>
    var expected: u64
    var slice: u64
    var block: nat
    var sawAny: bool
    var sawEnd: bool
    var nextSeq: PerChannel<u64>
    var seen: PerChannel<bool>
    var ended: PerChannel<bool>
    var unknown: PerChannel<bool>
    var seeded: bool
    var history: seq<ReplayIdentity>
    var replayNext: Option<u64>

    ghost function S(): State
      reads this
    {
      State(uuid, archiveLabel, expected, slice, block, sawAny, sawEnd, nextSeq, seen, ended, unknown,
            seeded, history, replayNext)
    }

    constructor (hash: Hasher)
      ensures this.hash == hash && S() == Fresh
    {
      this.hash := hash;
      lastWasReplay := false;
      history := [];
      replayNext := None;
      uuid := [];
      archiveLabel := [];
      expected := 0;
      slice := 0;
      block := 0;
      sawAny := false;
      sawEnd := false;
      nextSeq := Both(0);
      seen := Both(false);
      ended := Both(false);
      unknown := Both(false);
      seeded := false;
    }

    method ResetChannels()
      modifies this`nextSeq, this`seen, this`ended, this`unknown
      ensures nextSeq == Both(0)
      ensures seen == Both(false) && ended == Both(false) && unknown == Both(false)
    {
      nextSeq := Both(0);
      seen := Both(false);
      ended := Both(false);
      unknown := Both(false);
    }

    method ResetIdentity()
      modifies this`uuid, this`archiveLabel, this`block, this`history, this`replayNext, this`lastWasReplay
      ensures uuid == [] && archiveLabel == [] && block == 0
      ensures history == [] && replayNext == None && !lastWasReplay
    {
      lastWasReplay := false;
      history := [];
      replayNext := None;
      uuid := [];
      archiveLabel := [];
      block := 0;
    }

    method Reset()
      modifies this
      ensures S() == Fresh && !lastWasReplay
    {
      ResetIdentity();
      expected := 0;
      slice := 0;
      sawAny := false;
      sawEnd := false;
      ResetChannels();
      seeded := false;
    }

    method SeedForStreamStart(h: FrameHeader)
      modifies this
      ensures S() == Seeded(h)
    {
      Reset();
      expected := h.global;
      slice := h.slice;
      seeded := true;
      unknown := Both(true);
    }

    method RememberRecord(r: Record)
      modifies this`history
      ensures history == Remember(old(history), r)
    {
      if !r.frame.hashOk {
        return;
      }
      history := history + [IdentityOf(r)];
      if |history| > RETRY_HISTORY {
        history := history[1..];
      }
    }

    method BeginNewConnection()
      modifies this`replayNext
      ensures S() == BeginConnection(old(S()))
    {
      replayNext := None;
    }

    /** Sets lastWasReplay when the record is an accepted replay. */
    method TryReplay(r: Record) returns (error: Option<Fault>)
      requires !lastWasReplay
      modifies this`replayNext, this`lastWasReplay
      ensures match CheckReplay(hash, old(S()), r)
              case Err(e) => error == Some(e) && S() == old(S())
              case Ok(Some(next)) => error == None && lastWasReplay && S() == next
              case Ok(None) => error == None && !lastWasReplay && S() == old(S())
    {
      var h := r.H();
      if h.global < expected {
        if !r.frame.hashOk {
          return Some(ReplayIntegrity);
        }
        var found := FindReplay(history, h.global);
        if found.None? {
          return Some(ReplayUnverifiable);
        }
        if FrameHash(hash, r.data, found.value.volume) != found.value.hash {
          return Some(ReplayConflict);
        }
        if replayNext.Some? && replayNext.value != h.global {
          return Some(ReplayNotContiguous);
        }
        replayNext := Some(h.global + 1);
        if replayNext.value == expected {
          replayNext := None;
        }
        lastWasReplay := true;
        return None;
      }
      if replayNext.Some? {
        return Some(NewBeforeReplayDone);
      }
      return None;
    }

    method TakeIdentity(r: Record) returns (error: Option<Fault>)
      modifies this`block, this`uuid, this`archiveLabel
      ensures match CheckIdentity(old(S()), r)
              case Err(e) => error == Some(e)
              case Ok(next) => error == None && S() == next
    {
      var h := r.H();
      if block == 0 {
        block := DecodedBlockSize(h);
      } else if DecodedBlockSize(h) != block {
        return Some(BlockSizeChanged);
      }
      if uuid == [] {
        uuid := h.uuid;
        archiveLabel := h.archiveLabel;
      } else {
        if h.uuid != uuid {
          return Some(UuidMismatch);
        }
        if h.archiveLabel != archiveLabel {
          return Some(LabelMismatch);
        }
      }
      return None;
    }

    method TakeSlice(h: FrameHeader) returns (error: Option<Fault>)
      modifies this`slice, this`sawAny, this`nextSeq, this`seen, this`ended, this`unknown
      ensures match EnterSlice(old(S()), h)
              case Err(e) => error == Some(e)
              case Ok(next) => error == None && S() == next
    {
      var hadPrevious := sawAny;
      if !sawAny {
        if !seeded && h.slice != 0 {
          return Some(FirstSliceNotZero);
        }
        slice := h.slice;
        sawAny := true;
      }
      if h.slice != slice {
        if h.slice != Succ(slice) {
          return Some(SliceJump);
        }
        if hadPrevious && !AllEnded() {
          return Some(SliceBeforeChannelsEnd);
        }
        slice := h.slice;
        ResetChannels();
      }
      return None;
    }

    method TakeChannel(h: FrameHeader) returns (error: Option<Fault>)
      requires !h.channel.ArchiveEnd?
      modifies this`nextSeq, this`seen, this`ended, this`unknown
      ensures match EnterChannel(old(S()), h)
              case Err(e) => error == Some(e)
              case Ok(next) => error == None && S() == next
    {
      hide HasEnd;
      var c := h.channel;
      if ended.Get(c) {
        return Some(AfterChannelEnd);
      }
      if unknown.Get(c) {
        unknown := unknown.Set(c, false);
        nextSeq := nextSeq.Set(c, h.channelSeq);
      }
      if h.channelSeq != nextSeq.Get(c) {
        return Some(ChannelGap);
      }
      seen := seen.Set(c, true);
      nextSeq := nextSeq.Set(c, Succ(h.channelSeq));
      ended := ended.Set(c, HasEnd(h.flags));
      return None;
    }

    method TakeEnd(r: Record) returns (error: Option<Fault>)
      modifies this`sawEnd, this`history
      ensures error == if sawAny && !AllSeenEnded(old(S())) then Some(EndBeforeChannelsEnd) else None
      ensures error.None? ==> S() == old(S()).(sawEnd := true, history := Remember(old(history), r))
    {
      if sawAny && !AllEnded() {
        return Some(EndBeforeChannelsEnd);
      }
      sawEnd := true;
      RememberRecord(r);
      return None;
    }

    method TakePlace(r: Record) returns (error: Option<Fault>)
      modifies this
      ensures lastWasReplay == old(lastWasReplay)
      ensures match Place(old(S()), r)
              case Err(e) => error == Some(e)
              case Ok(next) => error == None && S() == next
    {
      hide EnterSlice, EnterChannel, Remember, AllSeenEnded;
      var h := r.H();
      if h.global != expected {
        return Some(GlobalGap);
      }
      expected := Succ(h.global);
      if r.IsEnd() {
        error := TakeEnd(r);
        return;
      }
      error := TakeBody(r);
    }

    method TakeBody(r: Record) returns (error: Option<Fault>)
      requires !r.IsEnd()
      modifies this`slice, this`sawAny, this`nextSeq, this`seen, this`ended, this`unknown, this`history
      ensures match EnterSlice(old(S()), r.H())
              case Err(e) => error == Some(e)
              case Ok(v) =>
                match EnterChannel(v, r.H())
                case Err(e) => error == Some(e)
                case Ok(next) => error == None && S() == next.(history := Remember(next.history, r))
    {
      hide EnterSlice, EnterChannel, Remember;
      error := TakeSlice(r.H());
      if error.Some? {
        return;
      }
      error := TakeChannel(r.H());
      if error.Some? {
        return;
      }
      RememberRecord(r);
    }

    method Validate(r: Record, allowBadHash: bool) returns (error: Option<Fault>)
      modifies this
      ensures match Judge(hash, old(S()), r, allowBadHash)
              case Err(e) => error == Some(e)
              case Ok(verdict) => error == None && S() == verdict.next && lastWasReplay == verdict.replay
    {
      lastWasReplay := false;
      error := TryReplay(r);
      if error.Some? || lastWasReplay {
        return;
      }
      if sawEnd {
        return Some(AfterArchiveEnd);
      }
      if !r.frame.sizeOk {
        return Some(SizeMismatch);
      }
      if !r.frame.hashOk && !allowBadHash {
        return Some(HashMismatch);
      }
      error := TakeIdentity(r);
      if error.Some? {
        return;
      }
      error := TakePlace(r);
    }

    predicate AllEnded()
      reads this
    {
      (seen.content ==> ended.content) && (seen.metadata ==> ended.metadata)
    }

    /** A hash failure confined to metadata is advisory: accepted with a warning. */
    method ValidateRestoreFrame(r: Record) returns (error: Option<Fault>, warning: bool)
      modifies this
      ensures match Judge(hash, old(S()), r, r.IsMetadata())
              case Err(e) => error == Some(e)
              case Ok(verdict) =>
                error == None && S() == verdict.next && lastWasReplay == verdict.replay &&
                warning == !r.frame.hashOk
    {
      error := Validate(r, r.IsMetadata());
      warning := error.None? && !r.frame.hashOk;
    }

    method AdoptArchive(r: Record)
      modifies this`history, this`replayNext, this`expected, this`uuid
      ensures S() == if old(uuid) != r.H().uuid
                     then old(S()).(history := [], replayNext := None, expected := 0, uuid := r.H().uuid)
                     else old(S())
    {
      if uuid != r.H().uuid {
        history := [];
        replayNext := None;
        expected := 0;
        uuid := r.H().uuid;
      }
    }

    method ValidateSalvageFrame(r: Record) returns (error: Option<Fault>)
      modifies this
      ensures match JudgeSalvage(hash, old(S()), r)
              case Err(e) => error == Some(e) && S() == old(S())
              case Ok(verdict) => error == None && S() == verdict.next && lastWasReplay == verdict.replay
    {
      lastWasReplay := false;
      if !r.frame.sizeOk {
        return Some(SizeMismatch);
      }
      if !r.frame.hashOk {
        return Some(HashMismatch);
      }
      AdoptArchive(r);
      error := TryReplay(r);
      if error.Some? {
        return;
      }
      if !lastWasReplay {
        RememberRecord(r);
        expected := Succ(r.H().global);
      }
    }
  }
}
