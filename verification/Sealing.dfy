// Sealing a record for one volume: the frame hash over the canonical image,
// finalization, re-issue on another volume, and the check a receiver makes.
module Sealing {
  import opened Base
  import opened Format
  import opened FormatTheorems

  /** The hashed image of a record as if written on the given volume: the volume
      ordinal is replaced, signature and hash bytes are zero. */
  function Canonical(data: seq<u8>, volume: u64): (c: seq<u8>)
    requires |data| >= HEADER_SIZE
    ensures |c| == |data|
  {
    data[..114] + LittleEndian(volume, 8) + data[122..408] + Zeros(104) + data[512..]
  }

  function FrameHash(hash: Hasher, data: seq<u8>, volume: u64): Hash
    requires |data| >= HEADER_SIZE
  {
    hash(Canonical(data, volume))
  }

  datatype CheckedFrame = CheckedFrame(header: FrameHeader, sizeOk: bool, hashOk: bool)

  function CheckFrame(hash: Hasher, data: seq<u8>): (r: Result<CheckedFrame, FormatError>)
    ensures r.Ok? ==> |data| >= HEADER_SIZE
    ensures r.Ok? && r.value.hashOk ==> r.value.sizeOk
    ensures r.Ok? ==> (r.value.sizeOk <==> |data| == DecodedBlockSize(r.value.header))
  {
    match ParseHeader(data)
    case Err(e) => Err(e)
    case Ok(h) =>
      WordSizes();
      var sizeOk := |data| == DecodedBlockSize(h);
      Ok(CheckedFrame(h, sizeOk, sizeOk && FrameHash(hash, data, Word(data, OFF_VOLUME, 8)) == h.hash))
  }

  /** `finalize_record`: the header and the record as they leave the call. */
  function Finalize(hash: Hasher, signer: Signer, h: FrameHeader, record: seq<u8>):
    Result<(FrameHeader, seq<u8>), FormatError>
    requires |record| >= HEADER_SIZE
  {
    var h1 := h.(flags := WithSigned(h.flags, signer.Some?), signature := Zeros(72));
    match SerializeHeader(h1)
    case Err(e) => Err(e)
    case Ok(image1) =>
      WordSizes();
      assert |image1| == HEADER_SIZE;
      var record1 := image1 + record[HEADER_SIZE..];
      var digest := FrameHash(hash, record1, Word(record1, OFF_VOLUME, 8));
      var h2 := h1.(hash := digest,
                    signature := if signer.Some? then signer.value(digest) else Zeros(72));
      match SerializeHeader(h2)
      case Err(e) => Err(e)
      case Ok(image2) => Ok((h2, image2 + record[HEADER_SIZE..]))
  }

  /** `patch_volume_seq_num`: a record already sealed for the volume is kept. */
  function PatchVolume(hash: Hasher, signer: Signer, record: seq<u8>, volume: u64):
    Result<seq<u8>, FormatError>
  {
    match ParseHeader(record)
    case Err(e) => Err(e)
    case Ok(h) =>
      if h.volume == volume && HasSigned(h.flags) == signer.Some? && h.hash != Zeros(32) then Ok(record)
      else
        match Finalize(hash, signer, h.(volume := volume), record)
        case Err(e) => Err(e)
        case Ok(r) => Ok(r.1)
  }

  // ------------------------------------------------------------ sealed form

  function Unsealed(signer: Signer, h: FrameHeader): FrameHeader {
    h.(flags := WithSigned(h.flags, signer.Some?), signature := Zeros(72), hash := Zeros(32))
  }

  /** The header a logical frame carries on volume h.volume. */
  function SealHeader(hash: Hasher, signer: Signer, h: FrameHeader, body: seq<u8>): FrameHeader {
    var base := Unsealed(signer, h);
    var digest := FrameHash(hash, HeaderImage(base) + body, h.volume);
    base.(hash := digest, signature := if signer.Some? then signer.value(digest) else Zeros(72))
  }

  function SealRecord(hash: Hasher, signer: Signer, h: FrameHeader, body: seq<u8>): seq<u8> {
    HeaderImage(SealHeader(hash, signer, h, body)) + body
  }

  /** A frame that obeys the header rules and whose body fills its block. */
  predicate Sealable(h: FrameHeader, body: seq<u8>) {
    && HeaderRule(h).None?
    && StringsFit(h)
    && |body| == DecodedBlockSize(h) - HEADER_SIZE
  }

  /** Outside the volume, signature and hash fields. */
  predicate Compared(i: nat) {
    !(114 <= i < 122) && !(408 <= i < 512)
  }

  /** Equal on every byte that identifies the logical frame. */
  predicate SameLogicalBytes(a: seq<u8>, b: seq<u8>) {
    |a| == |b| && forall i :: 0 <= i < |a| && Compared(i) ==> a[i] == b[i]
  }

  lemma CanonicalSame(a: seq<u8>, b: seq<u8>, volume: u64)
    requires |a| >= HEADER_SIZE && |b| >= HEADER_SIZE
    ensures Canonical(a, volume) == Canonical(b, volume) <==> SameLogicalBytes(a, b)
  {
    var ca, cb := Canonical(a, volume), Canonical(b, volume);
    if |a| == |b| {
      forall i | 0 <= i < |a|
        ensures Compared(i) ==> ca[i] == a[i] && cb[i] == b[i]
        ensures !Compared(i) ==> ca[i] == cb[i]
      {
      }
      if ca == cb {
        forall i | 0 <= i < |a| && Compared(i) ensures a[i] == b[i] {
          assert ca[i] == cb[i];
        }
      }
    }
  }

  /** No two of these byte strings have the same hash. */
  ghost predicate CollisionFree(hash: Hasher, images: set<seq<u8>>) {
    forall a, b :: a in images && b in images && hash(a) == hash(b) ==> a == b
  }

  /** For any two byte strings there is a hash that tells them apart. */
  lemma ApartExists(a: seq<u8>, b: seq<u8>)
    ensures exists hash: Hasher :: CollisionFree(hash, {a, b})
  {
    var ones: Hash := seq(32, _ => 1);
    var hash: Hasher := x => if x == a then Zeros(32) else ones;
    assert Zeros(32)[0] != ones[0];
    assert CollisionFree(hash, {a, b});
  }

  /** The replay comparison. Unless the two compared images collide, re-hashing a
      retry under the volume of an accepted record gives the accepted hash exactly
      when the two records agree on every byte except volume ordinal, signature
      and hash; that agreement suffices is true of every hash. */
  lemma ReplayComparison(hash: Hasher, accepted: seq<u8>, retry: seq<u8>, volume: u64)
    requires |accepted| >= HEADER_SIZE && |retry| >= HEADER_SIZE
    ensures SameLogicalBytes(accepted, retry) ==>
              FrameHash(hash, retry, volume) == FrameHash(hash, accepted, volume)
    ensures CollisionFree(hash, {Canonical(accepted, volume), Canonical(retry, volume)}) ==>
              (FrameHash(hash, retry, volume) == FrameHash(hash, accepted, volume) <==>
                 SameLogicalBytes(accepted, retry))
  {
    CanonicalSame(accepted, retry, volume);
  }

  lemma ImageByte(h: FrameHeader, body: seq<u8>, i: nat)
    requires i < HEADER_SIZE
    ensures (HeaderImage(h) + body)[i] == HeaderByte(h, i)
  {
  }

  lemma ImagesSameLogical(a: FrameHeader, b: FrameHeader, body: seq<u8>)
    requires a == b.(volume := a.volume, signature := a.signature, hash := a.hash)
    ensures SameLogicalBytes(HeaderImage(a) + body, HeaderImage(b) + body)
  {
    var ra, rb := HeaderImage(a) + body, HeaderImage(b) + body;
    forall i | 0 <= i < |ra| && Compared(i) ensures ra[i] == rb[i] {
      if i < HEADER_SIZE {
        ImageByte(a, body, i);
        ImageByte(b, body, i);
        assert HeaderByte(a, i) == HeaderByte(b, i);
      }
    }
  }

  lemma VolumeOfImage(h: FrameHeader, body: seq<u8>)
    ensures Word(HeaderImage(h) + body, OFF_VOLUME, 8) == h.volume
  {
    WordSizes();
    assert (HeaderImage(h) + body)[..HEADER_SIZE] == HeaderImage(h);
    ImageWord(h, HeaderImage(h) + body, OFF_VOLUME, 8, h.volume);
  }

  lemma SerializeGood(h: FrameHeader)
    requires HeaderRule(h).None? && SignatureRule(h)
    ensures SerializeHeader(h) == Ok(HeaderImage(h))
  {
    ParseOfImage(h, HeaderImage(h));
  }

  lemma DigestIgnoresSeal(hash: Hasher, signer: Signer, h: FrameHeader, body: seq<u8>)
    ensures var h1 := h.(flags := WithSigned(h.flags, signer.Some?), signature := Zeros(72));
            FrameHash(hash, HeaderImage(h1) + body, h.volume) ==
              FrameHash(hash, HeaderImage(Unsealed(signer, h)) + body, h.volume)
  {
    var h1 := h.(flags := WithSigned(h.flags, signer.Some?), signature := Zeros(72));
    var base := Unsealed(signer, h);
    ImagesSameLogical(h1, base, body);
    CanonicalSame(HeaderImage(h1) + body, HeaderImage(base) + body, h.volume);
  }

  lemma SealObeysRules(hash: Hasher, signer: Signer, h: FrameHeader, body: seq<u8>)
    requires HeaderRule(h).None?
    ensures HeaderRule(SealHeader(hash, signer, h, body)).None?
    ensures SignatureRule(SealHeader(hash, signer, h, body))
  {
    WithSignedKeepsOthers(h.flags, signer.Some?);
    assert HeaderRule(Unsealed(signer, h)).None?;
  }

  /** Finalization succeeds on every header that obeys the rules and yields the
      sealed form; what the hash and signature fields held before is irrelevant. */
  lemma FinalizeSeals(hash: Hasher, signer: Signer, h: FrameHeader, record: seq<u8>)
    requires |record| >= HEADER_SIZE && HeaderRule(h).None?
    ensures Finalize(hash, signer, h, record) ==
              Ok((SealHeader(hash, signer, h, record[HEADER_SIZE..]),
                  SealRecord(hash, signer, h, record[HEADER_SIZE..])))
  {
    var body := record[HEADER_SIZE..];
    var h1 := h.(flags := WithSigned(h.flags, signer.Some?), signature := Zeros(72));
    WithSignedKeepsOthers(h.flags, signer.Some?);
    assert HeaderRule(h1).None?;
    SerializeGood(h1);
    VolumeOfImage(h1, body);
    DigestIgnoresSeal(hash, signer, h, body);
    SealObeysRules(hash, signer, h, body);
    SerializeGood(SealHeader(hash, signer, h, body));
  }

  lemma ParseSealed(hash: Hasher, signer: Signer, h: FrameHeader, body: seq<u8>)
    requires Sealable(h, body)
    ensures ParseHeader(SealRecord(hash, signer, h, body)) == Ok(SealHeader(hash, signer, h, body))
  {
    var sealed := SealHeader(hash, signer, h, body);
    SealObeysRules(hash, signer, h, body);
    ParseUnsealed(sealed, body);
  }

  lemma ParseUnsealed(h: FrameHeader, body: seq<u8>)
    requires HeaderRule(h).None? && StringsFit(h)
    ensures ParseHeader(HeaderImage(h) + body) == Ok(h)
  {
    assert (HeaderImage(h) + body)[..HEADER_SIZE] == HeaderImage(h);
    ParseOfImage(h, HeaderImage(h) + body);
    FixedStringRoundTrip(h.uuid, UUID_FIELD);
    FixedStringRoundTrip(h.archiveLabel, LABEL_FIELD);
    assert Truncated(h) == h;
  }

  /** A sealed record passes the receiver's size and hash check. */
  lemma CheckSealed(hash: Hasher, signer: Signer, h: FrameHeader, body: seq<u8>)
    requires Sealable(h, body)
    ensures CheckFrame(hash, SealRecord(hash, signer, h, body)) ==
              Ok(CheckedFrame(SealHeader(hash, signer, h, body), true, true))
  {
    var sealed := SealHeader(hash, signer, h, body);
    ParseSealed(hash, signer, h, body);
    VolumeOfImage(sealed, body);
    var base := Unsealed(signer, h);
    ImagesSameLogical(sealed, base, body);
    CanonicalSame(HeaderImage(sealed) + body, HeaderImage(base) + body, h.volume);
  }

  /** The two verdicts on a record that parses are independent: the size verdict is
      about the length alone, and a record of the right length is intact exactly
      when its stored hash is that of its canonical image. */
  lemma CheckFrameExactly(hash: Hasher, data: seq<u8>)
    ensures CheckFrame(hash, data).Ok? <==> ParseHeader(data).Ok?
    ensures ParseHeader(data).Ok? ==>
              var h, c := ParseHeader(data).value, CheckFrame(hash, data).value;
              && |data| >= HEADER_SIZE && c.header == h
              && (c.sizeOk <==> |data| == h.blockKib * 1024)
              && (c.sizeOk ==> (c.hashOk <==> h.hash == hash(Canonical(data, h.volume))))
  {
    hide HeaderRule;
  }

  /** Equal on every byte but those of the signature, which the hash leaves out. */
  predicate SameBytes(a: seq<u8>, b: seq<u8>) {
    |a| == |b| && forall i :: 0 <= i < |a| && !(408 <= i < 480) ==> a[i] == b[i]
  }

  lemma CanonicalOwn(a: seq<u8>, b: seq<u8>)
    requires |a| == |b| >= HEADER_SIZE && a[480..512] == b[480..512]
    ensures Word(a, OFF_VOLUME, 8) < TWO_64 && Word(b, OFF_VOLUME, 8) < TWO_64
    ensures Canonical(a, Word(a, OFF_VOLUME, 8)) == Canonical(b, Word(b, OFF_VOLUME, 8)) <==> SameBytes(a, b)
  {
    WordSizes();
    CanonicalAt(a);
    CanonicalAt(b);
    var ca, cb := Canonical(a, Word(a, OFF_VOLUME, 8)), Canonical(b, Word(b, OFF_VOLUME, 8));
    forall i | 480 <= i < 512 ensures a[i] == b[i] {
      assert a[480..512][i - 480] == b[480..512][i - 480];
    }
    if ca == cb {
      forall i | 0 <= i < |a| && !(408 <= i < 480) ensures a[i] == b[i] {
        assert ca[i] == cb[i];
      }
    }
    if SameBytes(a, b) {
      forall i | 0 <= i < |a| ensures ca[i] == cb[i] {
      }
    }
  }

  /** Under its own volume number an image differs from the record only where it is
      zeroed. */
  lemma CanonicalAt(a: seq<u8>)
    requires |a| >= HEADER_SIZE
    ensures Word(a, OFF_VOLUME, 8) < TWO_64
    ensures forall i :: 0 <= i < |a| ==>
              Canonical(a, Word(a, OFF_VOLUME, 8))[i] == if 408 <= i < 512 then 0 else a[i]
  {
    WordSizes();
    WordBytes(a, OFF_VOLUME, 8);
  }

  /** Damage is detected. Unless the two images collide, a record of the length and
      with the stored hash of a sealed one passes the check exactly when it equals
      it, byte for byte outside the signature. */
  lemma DamageDetected(hash: Hasher, signer: Signer, h: FrameHeader, body: seq<u8>, data: seq<u8>)
    requires Sealable(h, body) && |data| == |SealRecord(hash, signer, h, body)| && ParseHeader(data).Ok?
    requires data[480..512] == SealRecord(hash, signer, h, body)[480..512]
    requires CollisionFree(hash, {Canonical(data, ParseHeader(data).value.volume),
                                  Canonical(SealRecord(hash, signer, h, body), h.volume)})
    ensures CheckFrame(hash, data).Ok?
    ensures CheckFrame(hash, data).value.hashOk <==> SameBytes(data, SealRecord(hash, signer, h, body))
  {
    hide Canonical, SealRecord, HeaderRule, HeaderImage, SealHeader, Sealable, CollisionFree, SameBytes, Word;
    var s := SealRecord(hash, signer, h, body);
    CheckSealed(hash, signer, h, body);
    SealKeepsVolume(hash, signer, h, body);
    CheckFrameExactly(hash, data);
    CheckFrameExactly(hash, s);
    ParsedHashVolume(data);
    ParsedHashVolume(s);
    CanonicalOwn(data, s);
    Apart(hash, Canonical(data, ParseHeader(data).value.volume), Canonical(s, h.volume));
    if SameBytes(data, s) {
      SameBytesParse(data, s);
    }
  }

  lemma Apart(hash: Hasher, a: seq<u8>, b: seq<u8>)
    requires CollisionFree(hash, {a, b})
    ensures hash(a) == hash(b) <==> a == b
  {
  }

  lemma ParsedHashVolume(data: seq<u8>)
    requires ParseHeader(data).Ok?
    ensures |data| >= HEADER_SIZE && ParseHeader(data).value.hash == data[480..512]
    ensures ParseHeader(data).value.volume == Word(data, OFF_VOLUME, 8)
  {
    hide HeaderRule, Word, UpToNul;
  }

  lemma SameBytesParse(a: seq<u8>, b: seq<u8>)
    requires SameBytes(a, b) && ParseHeader(a).Ok? && ParseHeader(b).Ok?
    ensures ParseHeader(a).value.blockKib == ParseHeader(b).value.blockKib
  {
    hide HeaderRule, UpToNul;
    assert |a| >= HEADER_SIZE;
    assert a[10..12] == b[10..12];
  }

  /** Sealing one logical frame for volumes v and w gives records that the
      replay comparison treats as equivalent, in either order. */
  lemma SealedForTwoVolumes(hash: Hasher, signer: Signer, h: FrameHeader, body: seq<u8>, v: u64, w: u64)
    requires Sealable(h, body)
    ensures FrameHash(hash, SealRecord(hash, signer, h.(volume := v), body), w) ==
              SealHeader(hash, signer, h.(volume := w), body).hash
  {
    var sealed := SealHeader(hash, signer, h.(volume := v), body);
    var base := Unsealed(signer, h.(volume := w));
    ImagesSameLogical(sealed, base, body);
    CanonicalSame(HeaderImage(sealed) + body, HeaderImage(base) + body, w);
  }

  lemma SealIgnoresSeal(hash: Hasher, signer: Signer, h: FrameHeader, body: seq<u8>, v: u64)
    ensures SealHeader(hash, signer, SealHeader(hash, signer, h, body).(volume := v), body) ==
              SealHeader(hash, signer, h.(volume := v), body)
  {
    assert Unsealed(signer, SealHeader(hash, signer, h, body).(volume := v)) ==
           Unsealed(signer, h.(volume := v));
  }

  lemma RuleIgnoresVolume(h: FrameHeader, v: u64)
    ensures HeaderRule(h.(volume := v)) == HeaderRule(h)
  {
  }

  lemma SealKeepsVolume(hash: Hasher, signer: Signer, h: FrameHeader, body: seq<u8>)
    ensures SealHeader(hash, signer, h, body).volume == h.volume
  {
  }

  lemma SplitRecord(image: seq<u8>, body: seq<u8>)
    requires |image| == HEADER_SIZE
    ensures (image + body)[HEADER_SIZE..] == body
  {
  }

  lemma PatchFresh(hash: Hasher, signer: Signer, h: FrameHeader, body: seq<u8>, v: u64)
    requires Sealable(h, body) && h.hash == Zeros(32)
    ensures PatchVolume(hash, signer, HeaderImage(h) + body, v) ==
              Ok(SealRecord(hash, signer, h.(volume := v), body))
  {
    hide Finalize, SealHeader, SealRecord, HeaderImage, HeaderRule, ParseHeader, StringsFit, HasSigned;
    SplitRecord(HeaderImage(h), body);
    ParseUnsealed(h, body);
    RuleIgnoresVolume(h, v);
    FinalizeSeals(hash, signer, h.(volume := v), HeaderImage(h) + body);
  }

  lemma PatchSealed(hash: Hasher, signer: Signer, h: FrameHeader, body: seq<u8>, v: u64)
    requires Sealable(h, body)
    ensures PatchVolume(hash, signer, SealRecord(hash, signer, h, body), v) ==
              Ok(SealRecord(hash, signer, h.(volume := v), body))
  {
    hide Finalize, SealHeader, HeaderImage, HeaderRule, ParseHeader, StringsFit, HasSigned;
    var sealed := SealHeader(hash, signer, h, body);
    SplitRecord(HeaderImage(sealed), body);
    ParseSealed(hash, signer, h, body);
    SealObeysRules(hash, signer, h, body);
    RuleIgnoresVolume(sealed, v);
    FinalizeSeals(hash, signer, sealed.(volume := v), HeaderImage(sealed) + body);
    SealIgnoresSeal(hash, signer, h, body, v);
    SealKeepsVolume(hash, signer, h, body);
    assert h.volume == v ==> h.(volume := v) == h;
  }

  /** Re-issuing a frame: patching a record as built, or one sealed for any
      earlier volume, gives the record sealed for the new volume. */
  lemma PatchSeals(hash: Hasher, signer: Signer, h: FrameHeader, body: seq<u8>, v: u64)
    requires Sealable(h, body)
    ensures h.hash == Zeros(32) ==>
              PatchVolume(hash, signer, HeaderImage(h) + body, v) ==
                Ok(SealRecord(hash, signer, h.(volume := v), body))
    ensures PatchVolume(hash, signer, SealRecord(hash, signer, h, body), v) ==
              Ok(SealRecord(hash, signer, h.(volume := v), body))
  {
    if h.hash == Zeros(32) {
      PatchFresh(hash, signer, h, body, v);
    }
    PatchSealed(hash, signer, h, body, v);
  }

  // -------------------------------------------------------------- in place

  method CopyHeaderToRecord(header: seq<u8>, record: array<u8>)
    requires |header| <= record.Length
    modifies record
    ensures record[..] == header + old(record[|header|..])
  {
    PutBytes(record, 0, header);
  }

  /** Rewrites the header part of the record twice: once without, once with the
      hash and signature. On success the record is the specified one. */
  method FinalizeRecord(hash: Hasher, signer: Signer, h: FrameHeader, record: array<u8>)
    returns (r: Result<FrameHeader, FormatError>)
    requires record.Length >= HEADER_SIZE
    modifies record
    ensures match Finalize(hash, signer, h, old(record[..]))
            case Err(e) => r == Err(e)
            case Ok(out) => r == Ok(out.0) && record[..] == out.1
  {
    ghost var before := record[..];
    var header := h.(flags := WithSigned(h.flags, signer.Some?), signature := Zeros(72));
    var image := SerializeFrameHeader(header);
    if image.Err? {
      return Err(image.error);
    }
    CopyHeaderToRecord(image.value, record);
    assert record[..] == image.value + before[HEADER_SIZE..];
    WordSizes();
    var volume := GetWord(record, OFF_VOLUME, 8);
    header := header.(hash := FrameHash(hash, record[..], volume));
    if signer.Some? {
      header := header.(signature := signer.value(header.hash));
    }
    image := SerializeFrameHeader(header);
    if image.Err? {
      return Err(image.error);
    }
    CopyHeaderToRecord(image.value, record);
    assert record[..] == image.value + before[HEADER_SIZE..];
    return Ok(header);
  }

  method PatchVolumeSeqNum(hash: Hasher, signer: Signer, record: array<u8>, volume: u64)
    returns (error: Option<FormatError>)
    modifies record
    ensures match PatchVolume(hash, signer, old(record[..]), volume)
            case Err(e) => error == Some(e)
            case Ok(out) => error == None && record[..] == out
  {
    match ParseHeader(record[..]) {
      case Err(e) => return Some(e);
      case Ok(header) =>
        if header.volume == volume && HasSigned(header.flags) == signer.Some? && header.hash != Zeros(32) {
          return None;
        }
        var r := FinalizeRecord(hash, signer, header.(volume := volume), record);
        if r.Err? {
          return Some(r.error);
        }
        return None;
    }
  }
}
