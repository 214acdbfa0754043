// The 512-byte frame header on the wire, the canonical image a frame hash is
// taken over, and the finalization of a record for one volume.
module Format {
  import opened Base

  const HEADER_SIZE: nat := 512
  const MIN_BLOCK_SIZE: nat := 4096
  const MAX_BLOCK_SIZE: nat := 8 * 1024 * 1024
  const UUID_FIELD: nat := 37
  const LABEL_FIELD: nat := 65

  const OFF_VOLUME: nat := 114
  const OFF_SIGNATURE: nat := 408

  const MAGIC: seq<u8> := [78, 101, 111, 84, 97, 112, 101, 0]

  datatype ChannelType = Content | Metadata | ArchiveEnd {
    function Code(): u8 {
      match this
      case Content => 1
      case Metadata => 2
      case ArchiveEnd => 255
    }
  }

  type Hash = s: seq<u8> | |s| == 32 witness Zeros(32)
  type Signature = s: seq<u8> | |s| == 72 witness Zeros(72)
  type Sideband = s: seq<u8> | |s| == 128 witness Zeros(128)

  /** BLAKE3 is an arbitrary total function on byte strings. */
  type Hasher = seq<u8> -> Hash

  /** The secret-key signature of a frame hash, when a signer is configured. */
  type Signer = Option<Hash -> Signature>

  datatype FrameHeader = FrameHeader(
    channel: ChannelType,
    blockKib: u16,
    uuid: seq<u8>,
    archiveLabel: seq<u8>,
    volume: u64,
    global: u64,
    slice: u64,
    channelSeq: u64,
    payloadSize: u32,
    flags: u64,
    sideband: Sideband,
    signature: Signature,
    hash: Hash)

  datatype FormatError =
    | ShortHeader | BadMagic | BadVersion | ReservedNotZero | BadChannel | UnterminatedString
    | BadBlockSize | PayloadTooLarge | ReservedFlags | SidebandUsed
    | EndFlagsMissing | EndSliceNotZero | EndChannelSeqNotZero | EndPayload
    | CleanEndMisplaced | PayloadNotFull | UnsignedSignature

  // ---------------------------------------------------------------- flags

  function Bit(flags: u64, weight: nat): bool
    requires weight > 0
  {
    (flags / weight) % 2 == 1
  }

  predicate HasEnd(flags: u64) { Bit(flags, 1) }

  predicate HasSigned(flags: u64) { Bit(flags, 2) }

  predicate HasSideband(flags: u64) { Bit(flags, 4) }

  predicate HasCleanEnd(flags: u64) { Bit(flags, 0x8000_0000_0000_0000) }

  /** `flags |= signed` or `flags &= ~signed`. */
  function WithSigned(flags: u64, signed: bool): (r: u64)
    ensures HasSigned(r) == signed
  {
    if HasSigned(flags) == signed then flags
    else if signed then flags + 2
    else flags - 2
  }

  lemma LowFlags(flags: u64, rest: nat, low: nat)
    requires low < 4 && flags == 4 * rest + low
    ensures HasEnd(flags) <==> low == 1 || low == 3
    ensures HasSigned(flags) <==> low >= 2
    ensures HasSideband(flags) <==> rest % 2 == 1
  {
    assert flags / 4 == rest;
    assert flags / 2 == 2 * rest + low / 2;
  }

  lemma HighFlags(flags: u64, top: nat, below: nat)
    requires below < 0x8000_0000_0000_0000 && flags == top * 0x8000_0000_0000_0000 + below
    ensures HasCleanEnd(flags) <==> top % 2 == 1
    ensures OnlyKnownFlags(flags) <==> below < 8
  {
    assert flags / 0x8000_0000_0000_0000 == top;
    assert flags % 0x8000_0000_0000_0000 == below;
  }

  lemma SameParity(top: nat, k: nat)
    ensures (top * 0x2000_0000_0000_0000 + k) % 2 == k % 2
  {
    assert top * 0x2000_0000_0000_0000 + k == 2 * (top * 0x1000_0000_0000_0000) + k;
  }

  /** The flag word split at bit 63 and above bit 1. */
  lemma FlagBits(flags: u64, top: nat, k: nat, low: nat)
    requires low < 4 && k < 0x2000_0000_0000_0000
    requires flags == top * 0x8000_0000_0000_0000 + 4 * k + low
    ensures HasEnd(flags) <==> low == 1 || low == 3
    ensures HasSigned(flags) <==> low >= 2
    ensures HasSideband(flags) <==> k % 2 == 1
    ensures HasCleanEnd(flags) <==> top % 2 == 1
    ensures OnlyKnownFlags(flags) <==> k < 2
  {
    hide HasEnd, HasSigned, HasSideband, HasCleanEnd, OnlyKnownFlags;
    LowFlags(flags, top * 0x2000_0000_0000_0000 + k, low);
    SameParity(top, k);
    HighFlags(flags, top, 4 * k + low);
  }

  /** Only the SIGNED bit changes. */
  lemma WithSignedKeepsOthers(flags: u64, signed: bool)
    ensures var r := WithSigned(flags, signed);
            && HasEnd(r) == HasEnd(flags) && HasSideband(r) == HasSideband(flags)
            && HasCleanEnd(r) == HasCleanEnd(flags) && OnlyKnownFlags(r) == OnlyKnownFlags(flags)
  {
    var top, rest := flags / 0x8000_0000_0000_0000, flags % 0x8000_0000_0000_0000;
    var k, low := rest / 4, rest % 4;
    FlagBits(flags, top, k, low);
    if HasSigned(flags) != signed {
      FlagBits(WithSigned(flags, signed), top, k, if signed then low + 2 else low - 2);
    }
  }

  /** No bit outside END, SIGNED, SIDEBAND (0..2) and CLEAN_END (63). */
  predicate OnlyKnownFlags(flags: u64) {
    flags % 0x8000_0000_0000_0000 < 8
  }

  // ------------------------------------------------- little-endian integers

  function Pow256(n: nat): (r: nat)
    ensures r > 0
  {
    if n == 0 then 1 else 256 * Pow256(n - 1)
  }

  function LittleEndian(value: nat, n: nat): (s: seq<u8>)
    ensures |s| == n
  {
    if n == 0 then [] else [value % 256] + LittleEndian(value / 256, n - 1)
  }

  function FromLittleEndian(s: seq<u8>): nat {
    if s == [] then 0 else s[0] + 256 * FromLittleEndian(s[1..])
  }

  /** Decoding inverts encoding for every value that fits in n bytes. */
  lemma {:induction false} DecodeOfEncode(value: nat, n: nat)
    requires value < Pow256(n)
    ensures FromLittleEndian(LittleEndian(value, n)) == value
  {
    if n > 0 {
      DecodeOfEncode(value / 256, n - 1);
      assert LittleEndian(value, n)[1..] == LittleEndian(value / 256, n - 1);
    }
  }

  /** Encoding inverts decoding, and the decoded value fits. */
  lemma {:induction false} EncodeOfDecode(s: seq<u8>)
    ensures FromLittleEndian(s) < Pow256(|s|)
    ensures LittleEndian(FromLittleEndian(s), |s|) == s
  {
    if s != [] {
      EncodeOfDecode(s[1..]);
      assert FromLittleEndian(s) / 256 == FromLittleEndian(s[1..]);
      assert [s[0]] + s[1..] == s;
    }
  }

  lemma {:induction false} FromLittleEndianAppend(s: seq<u8>, b: u8)
    ensures FromLittleEndian(s + [b]) == FromLittleEndian(s) + b * Pow256(|s|)
  {
    if s == [] {
      assert [b][1..] == [];
    } else {
      FromLittleEndianAppend(s[1..], b);
      assert (s + [b])[1..] == s[1..] + [b];
      assert 256 * (b * Pow256(|s| - 1)) == b * Pow256(|s|) by {
        assert Pow256(|s|) == 256 * Pow256(|s| - 1);
      }
    }
  }

  lemma {:induction false} TimesAtLeast(d: nat, k: nat)
    requires k > 0
    ensures d * k >= d
  {
    if k > 1 {
      TimesAtLeast(d, k - 1);
      assert d * k == d * (k - 1) + d;
    }
  }

  lemma MultipleIsLarge(d: nat, k: int)
    requires k != 0
    ensures d * k >= d || d * k + d <= 0
  {
    if k > 0 {
      TimesAtLeast(d, k);
    } else {
      TimesAtLeast(d, 0 - k);
      assert d * (0 - k) == 0 - d * k;
    }
  }

  lemma QuotientIs(value: nat, d: nat, q: nat, rest: nat)
    requires value == d * q + rest && rest < d
    ensures value / d == q
  {
    assert d * (q - value / d) == value % d - rest;
    if q != value / d {
      MultipleIsLarge(d, q - value / d);
    }
  }

  lemma QuotientOfQuotient(value: nat, d: nat)
    requires d > 0
    ensures value / 256 / d == value / (256 * d)
  {
    var q, t := value / 256 / d, value / 256 % d;
    assert value / 256 == d * q + t;
    assert value == 256 * d * q + (256 * t + value % 256);
    QuotientIs(value, 256 * d, q, 256 * t + value % 256);
  }

  /** Byte i is the one of weight 256 to the i, the least significant first. */
  lemma {:induction false} LittleEndianAt(value: nat, n: nat, i: nat)
    requires i < n
    ensures LittleEndian(value, n)[i] == value / Pow256(i) % 256
  {
    if i > 0 {
      LittleEndianAt(value / 256, n - 1, i - 1);
      QuotientOfQuotient(value, Pow256(i - 1));
    }
  }

  lemma WordSizes()
    ensures Pow256(2) == 0x1_0000
    ensures Pow256(4) == 0x1_0000_0000
    ensures Pow256(8) == TWO_64
  {
    assert Pow256(1) == 256;
    assert Pow256(2) == 0x1_0000;
    assert Pow256(3) == 0x100_0000;
    assert Pow256(4) == 0x1_0000_0000;
    assert Pow256(5) == 0x100_0000_0000;
    assert Pow256(6) == 0x1_0000_0000_0000;
    assert Pow256(7) == 0x100_0000_0000_0000;
  }

  // ------------------------------------------------------- fixed strings

  function FixedString(value: seq<u8>, field: nat): (s: seq<u8>)
    requires field > 0
    ensures |s| == field
  {
    var n := if |value| < field - 1 then |value| else field - 1;
    value[..n] + Zeros(field - n)
  }

  /** Bytes before the first NUL. */
  function UpToNul(s: seq<u8>): (r: seq<u8>)
    ensures |r| <= |s| && r == s[..|r|]
    ensures 0 !in r
    ensures |r| < |s| ==> s[|r|] == 0
    ensures 0 in s ==> |r| < |s|
  {
    if s == [] || s[0] == 0 then [] else [s[0]] + UpToNul(s[1..])
  }

  lemma {:induction false} UpToNulIs(s: seq<u8>, n: nat)
    requires n < |s| && s[n] == 0 && 0 !in s[..n]
    ensures UpToNul(s) == s[..n]
  {
    if n > 0 {
      assert s[0] == s[..n][0];
      assert s[1..][..n - 1] == s[..n][1..];
      UpToNulIs(s[1..], n - 1);
      assert s[..n] == [s[0]] + s[1..][..n - 1];
    }
  }

  predicate Fits(value: seq<u8>, field: nat) {
    |value| < field && 0 !in value
  }

  /** A string survives its fixed-size field exactly when it fits with its NUL
      terminator and contains no NUL itself. */
  lemma FixedStringRoundTrip(value: seq<u8>, field: nat)
    requires field > 0
    ensures FixedString(value, field)[field - 1] == 0
    ensures UpToNul(FixedString(value, field)) == value <==> Fits(value, field)
  {
    var s := FixedString(value, field);
    assert s[field - 1] == 0;
    if Fits(value, field) {
      assert s[..|value|] == value;
      UpToNulIs(s, |value|);
    }
  }

  // -------------------------------------------------------------- layout

  /** Byte i of the serialized header. */
  function HeaderByte(h: FrameHeader, i: nat): u8
    requires i < HEADER_SIZE
  {
    if i < 8 then MAGIC[i]
    else if i == 8 then 1
    else if i == 9 then h.channel.Code()
    else if i < 12 then LittleEndian(h.blockKib, 2)[i - 10]
    else if i < 49 then FixedString(h.uuid, UUID_FIELD)[i - 12]
    else if i < 114 then FixedString(h.archiveLabel, LABEL_FIELD)[i - 49]
    else if i < 122 then LittleEndian(h.volume, 8)[i - 114]
    else if i < 130 then LittleEndian(h.global, 8)[i - 122]
    else if i < 138 then LittleEndian(h.slice, 8)[i - 130]
    else if i < 146 then LittleEndian(h.channelSeq, 8)[i - 138]
    else if i < 150 then LittleEndian(h.payloadSize, 4)[i - 146]
    else if i < 158 then LittleEndian(h.flags, 8)[i - 150]
    else if i < 280 then 0
    else if i < 408 then h.sideband[i - 280]
    else if i < 480 then h.signature[i - 408]
    else h.hash[i - 480]
  }

  function HeaderImage(h: FrameHeader): (b: seq<u8>)
    ensures |b| == HEADER_SIZE
  {
    seq(HEADER_SIZE, i requires 0 <= i < HEADER_SIZE => HeaderByte(h, i))
  }

  function DecodedBlockSize(h: FrameHeader): nat {
    h.blockKib * 1024
  }

  predicate ValidBlockSize(size: nat) {
    MIN_BLOCK_SIZE <= size <= MAX_BLOCK_SIZE && size % 1024 == 0
  }

  /** The frame-local rules, in the order in which they are checked. */
  function HeaderRule(h: FrameHeader): Option<FormatError> {
    var block := DecodedBlockSize(h);
    if !ValidBlockSize(block) then Some(BadBlockSize)
    else if h.payloadSize > block - HEADER_SIZE then Some(PayloadTooLarge)
    else if !OnlyKnownFlags(h.flags) then Some(ReservedFlags)
    else if HasSideband(h.flags) || h.sideband != Zeros(128) then Some(SidebandUsed)
    else if h.channel.ArchiveEnd? then
      if !HasEnd(h.flags) || !HasCleanEnd(h.flags) then Some(EndFlagsMissing)
      else if h.slice != 0 then Some(EndSliceNotZero)
      else if h.channelSeq != 0 then Some(EndChannelSeqNotZero)
      else if h.payloadSize != 0 then Some(EndPayload)
      else None
    else
      if HasCleanEnd(h.flags) then Some(CleanEndMisplaced)
      else if !HasEnd(h.flags) && h.payloadSize != block - HEADER_SIZE then Some(PayloadNotFull)
      else None
  }

  function ChannelOf(code: u8): Option<ChannelType> {
    if code == 1 then Some(Content)
    else if code == 2 then Some(Metadata)
    else if code == 255 then Some(ArchiveEnd)
    else None
  }

  function Word(data: seq<u8>, offset: nat, n: nat): (r: nat)
    requires offset + n <= |data|
    ensures r < Pow256(n)
  {
    EncodeOfDecode(data[offset..offset + n]);
    FromLittleEndian(data[offset..offset + n])
  }

  /** The fields at their fixed offsets, before any rule about their values. */
  function FieldsOf(data: seq<u8>, channel: ChannelType): FrameHeader
    requires |data| >= HEADER_SIZE
  {
    WordSizes();
    FrameHeader(
      channel,
      Word(data, 10, 2),
      UpToNul(data[12..49]),
      UpToNul(data[49..114]),
      Word(data, 114, 8),
      Word(data, 122, 8),
      Word(data, 130, 8),
      Word(data, 138, 8),
      Word(data, 146, 4),
      Word(data, 150, 8),
      data[280..408],
      data[408..480],
      data[480..512])
  }

  function ParseHeader(data: seq<u8>): Result<FrameHeader, FormatError> {
    if |data| < HEADER_SIZE then Err(ShortHeader)
    else if data[..8] != MAGIC then Err(BadMagic)
    else if data[8] != 1 then Err(BadVersion)
    else if data[158..280] != Zeros(122) then Err(ReservedNotZero)
    else if ChannelOf(data[9]).None? then Err(BadChannel)
    else if data[48] != 0 || data[113] != 0 then Err(UnterminatedString)
    else
      var h := FieldsOf(data, ChannelOf(data[9]).value);
      match HeaderRule(h)
      case Some(e) => Err(e)
      case None => Ok(h)
  }

  /** An unsigned frame may not carry signature bytes. */
  predicate SignatureRule(h: FrameHeader) {
    HasSigned(h.flags) || h.signature == Zeros(72)
  }

  function SerializeHeader(h: FrameHeader): Result<seq<u8>, FormatError> {
    if !SignatureRule(h) then Err(UnsignedSignature)
    else
      match ParseHeader(HeaderImage(h))
      case Err(e) => Err(e)
      case Ok(_) => Ok(HeaderImage(h))
  }

  predicate StringsFit(h: FrameHeader) {
    Fits(h.uuid, UUID_FIELD) && Fits(h.archiveLabel, LABEL_FIELD)
  }
}
