// Round trips of the header codec, in both directions, and the byte-array
// routines that fill and read a header in place.
module FormatTheorems {
  import opened Base
  import opened Format

  // ------------------------------------------------------ serialize, parse

  lemma ImageWord(h: FrameHeader, data: seq<u8>, offset: nat, n: nat, value: nat)
    requires |data| >= HEADER_SIZE && data[..HEADER_SIZE] == HeaderImage(h)
    requires offset + n <= HEADER_SIZE && value < Pow256(n)
    requires forall j :: 0 <= j < n ==> HeaderByte(h, offset + j) == LittleEndian(value, n)[j]
    ensures Word(data, offset, n) == value
  {
    hide LittleEndian, FromLittleEndian, HeaderByte;
    var w := data[offset..offset + n];
    forall j | 0 <= j < n ensures w[j] == LittleEndian(value, n)[j] {
      assert w[j] == data[..HEADER_SIZE][offset + j] == HeaderByte(h, offset + j);
    }
    assert w == LittleEndian(value, n);
    DecodeOfEncode(value, n);
  }

  lemma ImageField(h: FrameHeader, data: seq<u8>, offset: nat, field: seq<u8>)
    requires |data| >= HEADER_SIZE && data[..HEADER_SIZE] == HeaderImage(h)
    requires offset + |field| <= HEADER_SIZE
    requires forall j :: 0 <= j < |field| ==> HeaderByte(h, offset + j) == field[j]
    ensures data[offset..offset + |field|] == field
  {
    forall j | 0 <= j < |field| ensures data[offset + j] == field[j] {
      assert data[offset + j] == data[..HEADER_SIZE][offset + j];
    }
  }

  /** What the strings of a header become after passing through their fields. */
  function Truncated(h: FrameHeader): FrameHeader {
    h.(uuid := UpToNul(FixedString(h.uuid, UUID_FIELD)),
       archiveLabel := UpToNul(FixedString(h.archiveLabel, LABEL_FIELD)))
  }

  lemma FieldsOfImage(h: FrameHeader, data: seq<u8>)
    requires |data| >= HEADER_SIZE && data[..HEADER_SIZE] == HeaderImage(h)
    ensures FieldsOf(data, h.channel) == Truncated(h)
  {
    hide HeaderImage, LittleEndian, FixedString, Word, UpToNul;
    WordSizes();
    ImageWord(h, data, 10, 2, h.blockKib);
    ImageField(h, data, 12, FixedString(h.uuid, UUID_FIELD));
    ImageField(h, data, 49, FixedString(h.archiveLabel, LABEL_FIELD));
    ImageWord(h, data, 114, 8, h.volume);
    ImageWord(h, data, 122, 8, h.global);
    ImageWord(h, data, 130, 8, h.slice);
    ImageWord(h, data, 138, 8, h.channelSeq);
    ImageWord(h, data, 146, 4, h.payloadSize);
    ImageWord(h, data, 150, 8, h.flags);
    ImageField(h, data, 280, h.sideband);
    ImageField(h, data, 408, h.signature);
    ImageField(h, data, 480, h.hash);
  }

  lemma ImageGuards(h: FrameHeader, data: seq<u8>)
    requires |data| >= HEADER_SIZE && data[..HEADER_SIZE] == HeaderImage(h)
    ensures data[..8] == MAGIC && data[8] == 1 && data[9] == h.channel.Code()
    ensures data[158..280] == Zeros(122)
    ensures data[48] == 0 && data[113] == 0
  {
    ImageField(h, data, 0, MAGIC);
    ImageField(h, data, 158, Zeros(122));
    assert data[8] == data[..HEADER_SIZE][8] && data[9] == data[..HEADER_SIZE][9];
    assert data[48] == data[..HEADER_SIZE][48] == FixedString(h.uuid, UUID_FIELD)[36];
    assert data[113] == data[..HEADER_SIZE][113] == FixedString(h.archiveLabel, LABEL_FIELD)[64];
  }

  // ------------------------------------------------------------------ layout

  /** The bytes from the offset are the value's, the least significant first. */
  ghost predicate WordAt(b: seq<u8>, offset: nat, n: nat, value: nat) {
    offset + n <= |b| && forall i :: 0 <= i < n ==> b[offset + i] == value / Pow256(i) % 256
  }

  /** The string, cut to leave room for a terminator, and zeros. */
  ghost predicate StringAt(b: seq<u8>, offset: nat, field: nat, value: seq<u8>) {
    && offset + field <= |b|
    && forall i :: 0 <= i < field ==> b[offset + i] == if i < |value| && i < field - 1 then value[i] else 0
  }

  lemma WordInImage(h: FrameHeader, offset: nat, n: nat, value: nat)
    requires offset + n <= HEADER_SIZE
    requires forall j :: 0 <= j < n ==> HeaderByte(h, offset + j) == LittleEndian(value, n)[j]
    ensures WordAt(HeaderImage(h), offset, n, value)
  {
    hide LittleEndian, HeaderByte;
    forall i | 0 <= i < n ensures HeaderImage(h)[offset + i] == value / Pow256(i) % 256 {
      LittleEndianAt(value, n, i);
      assert HeaderImage(h)[offset + i] == HeaderByte(h, offset + i) == LittleEndian(value, n)[i];
    }
  }

  lemma StringInImage(h: FrameHeader, offset: nat, field: nat, value: seq<u8>)
    requires offset + field <= HEADER_SIZE && field > 0
    requires forall j :: 0 <= j < field ==> HeaderByte(h, offset + j) == FixedString(value, field)[j]
    ensures StringAt(HeaderImage(h), offset, field, value)
  {
    hide HeaderByte;
    forall i | 0 <= i < field
      ensures HeaderImage(h)[offset + i] == if i < |value| && i < field - 1 then value[i] else 0
    {
      assert HeaderImage(h)[offset + i] == HeaderByte(h, offset + i) == FixedString(value, field)[i];
    }
  }

  /** The 512 bytes of a header, field by field, as the format fixes them. */
  lemma Layout(h: FrameHeader)
    ensures var b := HeaderImage(h);
            && |b| == 512
            && (forall i :: 0 <= i < 8 ==> b[i] as char == "NeoTape\0"[i]) && b[8] == 1
            && b[9] == (match h.channel case Content => 1 case Metadata => 2 case ArchiveEnd => 255)
            && WordAt(b, 10, 2, h.blockKib) && StringAt(b, 12, 37, h.uuid) && StringAt(b, 49, 65, h.archiveLabel)
            && WordAt(b, 114, 8, h.volume) && WordAt(b, 122, 8, h.global) && WordAt(b, 130, 8, h.slice)
            && WordAt(b, 138, 8, h.channelSeq) && WordAt(b, 146, 4, h.payloadSize) && WordAt(b, 150, 8, h.flags)
            && b[158..280] == Zeros(122) && b[280..408] == h.sideband && b[408..480] == h.signature
            && b[480..512] == h.hash
  {
    hide HeaderImage, LittleEndian, FixedString, WordAt, StringAt;
    ImageGuards(h, HeaderImage(h));
    MagicText();
    WordInImage(h, 10, 2, h.blockKib);
    StringInImage(h, 12, 37, h.uuid);
    StringInImage(h, 49, 65, h.archiveLabel);
    WordInImage(h, 114, 8, h.volume);
    WordInImage(h, 122, 8, h.global);
    WordInImage(h, 130, 8, h.slice);
    WordInImage(h, 138, 8, h.channelSeq);
    WordInImage(h, 146, 4, h.payloadSize);
    WordInImage(h, 150, 8, h.flags);
    LayoutTail(h);
  }

  lemma LayoutTail(h: FrameHeader)
    ensures var b := HeaderImage(h);
            b[280..408] == h.sideband && b[408..480] == h.signature && b[480..512] == h.hash
  {
    hide HeaderImage, LittleEndian, FixedString;
    var b := HeaderImage(h);
    assert b[..HEADER_SIZE] == b;
    ImageField(h, b, 280, h.sideband);
    ImageField(h, b, 408, h.signature);
    ImageField(h, b, 480, h.hash);
  }

  lemma MagicText()
    ensures |MAGIC| == 8 && forall i :: 0 <= i < 8 ==> MAGIC[i] as char == "NeoTape\0"[i]
  {
    assert "NeoTape\0" == ['N', 'e', 'o', 'T', 'a', 'p', 'e', '\0'];
  }

  // ------------------------------------------------------- the frame-local rules

  /** END is bit 0, SIGNED bit 1, SIDEBAND bit 2, CLEAN_END bit 63. */
  function FlagWord(end: bool, signed: bool, sideband: bool, clean: bool): u64 {
    Count(end) + 2 * Count(signed) + 4 * Count(sideband) + 0x8000_0000_0000_0000 * Count(clean)
  }

  lemma FlagWordSays(end: bool, signed: bool, sideband: bool, clean: bool)
    ensures var flags := FlagWord(end, signed, sideband, clean);
            && (HasEnd(flags) <==> end) && (HasSigned(flags) <==> signed) && (HasSideband(flags) <==> sideband)
            && (HasCleanEnd(flags) <==> clean) && OnlyKnownFlags(flags)
  {
    hide HasEnd, HasSigned, HasSideband, HasCleanEnd, OnlyKnownFlags;
    FlagBits(FlagWord(end, signed, sideband, clean), Count(clean), Count(sideband), Count(end) + 2 * Count(signed));
  }

  lemma KnownFlagsAreWord(flags: u64)
    requires OnlyKnownFlags(flags)
    ensures flags == FlagWord(HasEnd(flags), HasSigned(flags), HasSideband(flags), HasCleanEnd(flags))
  {
    var top, low := flags / 0x8000_0000_0000_0000, flags % 0x8000_0000_0000_0000;
    FlagBits(flags, top, low / 4, low % 4);
  }

  /** What each rule forbids, read off the header alone. */
  predicate Breaks(h: FrameHeader, rule: FormatError) {
    var capacity := h.blockKib * 1024 - 512;
    match rule
    case BadBlockSize => h.blockKib < 4 || h.blockKib > 8192
    case PayloadTooLarge => h.payloadSize > capacity
    case ReservedFlags => forall end, signed, sideband, clean :: h.flags != FlagWord(end, signed, sideband, clean)
    case SidebandUsed =>
      || (exists end, signed, clean :: h.flags == FlagWord(end, signed, true, clean))
      || (exists i :: 0 <= i < 128 && h.sideband[i] != 0)
    case EndFlagsMissing =>
      h.channel == ArchiveEnd && forall signed, sideband :: h.flags != FlagWord(true, signed, sideband, true)
    case EndSliceNotZero => h.channel == ArchiveEnd && h.slice != 0
    case EndChannelSeqNotZero => h.channel == ArchiveEnd && h.channelSeq != 0
    case EndPayload => h.channel == ArchiveEnd && h.payloadSize != 0
    case CleanEndMisplaced =>
      h.channel != ArchiveEnd && exists end, signed, sideband :: h.flags == FlagWord(end, signed, sideband, true)
    case PayloadNotFull =>
      && h.channel != ArchiveEnd && h.payloadSize != capacity
      && exists signed, sideband, clean :: h.flags == FlagWord(false, signed, sideband, clean)
    case _ => false
  }

  const RULES: seq<FormatError> := [
    BadBlockSize, PayloadTooLarge, ReservedFlags, SidebandUsed, EndFlagsMissing, EndSliceNotZero,
    EndChannelSeqNotZero, EndPayload, CleanEndMisplaced, PayloadNotFull]

  lemma AllZero(s: Sideband)
    ensures s == Zeros(128) <==> forall i :: 0 <= i < 128 ==> s[i] == 0
  {
    if forall i :: 0 <= i < 128 ==> s[i] == 0 {
      assert s == Zeros(128);
    }
  }

  /** Every word of known flags is its flags' word. */
  lemma WordUnless(flags: u64)
    ensures (exists end, signed, sideband, clean :: flags == FlagWord(end, signed, sideband, clean)) <==>
              OnlyKnownFlags(flags)
    ensures forall end, signed, sideband, clean :: flags == FlagWord(end, signed, sideband, clean) ==>
              && HasEnd(flags) == end && HasSigned(flags) == signed && HasSideband(flags) == sideband
              && HasCleanEnd(flags) == clean
    ensures OnlyKnownFlags(flags) ==>
              flags == FlagWord(HasEnd(flags), HasSigned(flags), HasSideband(flags), HasCleanEnd(flags))
  {
    hide FlagWord, HasEnd, HasSigned, HasSideband, HasCleanEnd, OnlyKnownFlags;
    forall end, signed, sideband, clean | flags == FlagWord(end, signed, sideband, clean)
      ensures && OnlyKnownFlags(flags) && HasEnd(flags) == end && HasSigned(flags) == signed
              && HasSideband(flags) == sideband && HasCleanEnd(flags) == clean
    {
      FlagWordSays(end, signed, sideband, clean);
    }
    if OnlyKnownFlags(flags) {
      KnownFlagsAreWord(flags);
    }
  }

  lemma SizesBroken(h: FrameHeader)
    ensures Breaks(h, BadBlockSize) <==> !ValidBlockSize(DecodedBlockSize(h))
    ensures Breaks(h, PayloadTooLarge) <==> h.payloadSize > DecodedBlockSize(h) - HEADER_SIZE
  {
  }

  lemma FlagsBroken(h: FrameHeader)
    ensures Breaks(h, ReservedFlags) <==> !OnlyKnownFlags(h.flags)
    ensures OnlyKnownFlags(h.flags) ==>
              && (Breaks(h, SidebandUsed) <==> HasSideband(h.flags) || h.sideband != Zeros(128))
              && (Breaks(h, EndFlagsMissing) <==>
                    h.channel.ArchiveEnd? && !(HasEnd(h.flags) && HasCleanEnd(h.flags)))
              && (Breaks(h, CleanEndMisplaced) <==> !h.channel.ArchiveEnd? && HasCleanEnd(h.flags))
              && (Breaks(h, PayloadNotFull) <==>
                    && !h.channel.ArchiveEnd? && !HasEnd(h.flags)
                    && h.payloadSize != DecodedBlockSize(h) - HEADER_SIZE)
  {
    hide FlagWord, HasEnd, HasSigned, HasSideband, HasCleanEnd, OnlyKnownFlags;
    WordUnless(h.flags);
    AllZero(h.sideband);
  }

  /** A rule is reported exactly when it is the first in the list that the header
      breaks; the header is accepted exactly when it breaks none. */
  lemma FirstRuleBroken(h: FrameHeader, k: nat)
    requires k < |RULES|
    ensures HeaderRule(h) == Some(RULES[k]) <==>
              Breaks(h, RULES[k]) && forall i :: 0 <= i < k ==> !Breaks(h, RULES[i])
    ensures HeaderRule(h).None? <==> forall i :: 0 <= i < |RULES| ==> !Breaks(h, RULES[i])
  {
    SizesBroken(h);
    FlagsBroken(h);
    OthersBroken(h);
    hide Breaks, OnlyKnownFlags, HasEnd, HasSideband, HasCleanEnd, ValidBlockSize;
    assert RULES[0] == BadBlockSize && RULES[1] == PayloadTooLarge && RULES[2] == ReservedFlags;
    assert RULES[3] == SidebandUsed && RULES[4] == EndFlagsMissing && RULES[5] == EndSliceNotZero;
    assert RULES[6] == EndChannelSeqNotZero && RULES[7] == EndPayload && RULES[8] == CleanEndMisplaced;
    assert RULES[9] == PayloadNotFull;
  }

  lemma OthersBroken(h: FrameHeader)
    ensures Breaks(h, EndSliceNotZero) <==> h.channel.ArchiveEnd? && h.slice != 0
    ensures Breaks(h, EndChannelSeqNotZero) <==> h.channel.ArchiveEnd? && h.channelSeq != 0
    ensures Breaks(h, EndPayload) <==> h.channel.ArchiveEnd? && h.payloadSize != 0
  {
  }

  /** Parsing a record that starts with the image of h reads h back, up to the
      two string fields, and applies exactly the frame-local rules. */
  lemma ParseOfImage(h: FrameHeader, data: seq<u8>)
    requires |data| >= HEADER_SIZE && data[..HEADER_SIZE] == HeaderImage(h)
    ensures ParseHeader(data) == match HeaderRule(h)
                                 case Some(e) => Err(e)
                                 case None => Ok(Truncated(h))
  {
    ImageGuards(h, data);
    FieldsOfImage(h, data);
    assert HeaderRule(Truncated(h)) == HeaderRule(h);
  }

  /** Serialization succeeds exactly on headers that obey the frame-local and
      the signature rule; parsing the result returns the header itself exactly
      when both strings fit their fields and are NUL-free. */
  lemma SerializeParse(h: FrameHeader)
    ensures SerializeHeader(h).Ok? <==> SignatureRule(h) && HeaderRule(h).None?
    ensures SerializeHeader(h).Ok? ==>
              (ParseHeader(SerializeHeader(h).value) == Ok(h) <==> StringsFit(h))
  {
    ParseOfImage(h, HeaderImage(h));
    FixedStringRoundTrip(h.uuid, UUID_FIELD);
    FixedStringRoundTrip(h.archiveLabel, LABEL_FIELD);
    assert Truncated(h) == h <==>
      Truncated(h).uuid == h.uuid && Truncated(h).archiveLabel == h.archiveLabel;
  }

  /** Every byte after the first NUL is zero. */
  predicate ZeroPadded(s: seq<u8>) {
    forall i, j :: 0 <= i < j < |s| && s[i] == 0 ==> s[j] == 0
  }

  lemma PaddedField(s: seq<u8>)
    requires |s| > 0 && s[|s| - 1] == 0
    ensures FixedString(UpToNul(s), |s|) == s <==> ZeroPadded(s)
  {
    hide UpToNul, ZeroPadded, FixedString;
    var r := UpToNul(s);
    StoppedAt(s, r);
    PaddedFrom(s, |r|);
    ShortFixed(r, |s|);
  }

  lemma ShortFixed(value: seq<u8>, field: nat)
    requires |value| < field
    ensures FixedString(value, field) == value + Zeros(field - |value|)
  {
    assert value[..|value|] == value;
  }

  lemma StoppedAt(s: seq<u8>, r: seq<u8>)
    requires |r| <= |s| && r == s[..|r|] && 0 !in r
    ensures forall i :: 0 <= i < |r| ==> s[i] != 0
  {
    forall i | 0 <= i < |r| ensures s[i] != 0 {
      assert r[i] in r;
    }
  }

  lemma PaddedFrom(s: seq<u8>, n: nat)
    requires n < |s| && s[n] == 0
    requires forall i :: 0 <= i < n ==> s[i] != 0
    ensures s[..n] + Zeros(|s| - n) == s <==> ZeroPadded(s)
  {
    var t := s[..n] + Zeros(|s| - n);
    assert forall j :: n <= j < |s| ==> t[j] == 0;
    if ZeroPadded(s) {
      forall j | 0 <= j < |s| ensures t[j] == s[j] {
      }
    }
  }

  lemma WordBytes(data: seq<u8>, offset: nat, n: nat)
    requires offset + n <= |data|
    ensures forall j :: 0 <= j < n ==> LittleEndian(Word(data, offset, n), n)[j] == data[offset + j]
  {
    EncodeOfDecode(data[offset..offset + n]);
  }

  lemma ParsedFields(data: seq<u8>, h: FrameHeader)
    requires ParseHeader(data) == Ok(h)
    ensures |data| >= HEADER_SIZE && h == FieldsOf(data, h.channel)
    ensures data[..8] == MAGIC && data[8] == 1 && data[9] == h.channel.Code() && data[158..280] == Zeros(122)
  {
    hide HeaderRule, Word, UpToNul;
  }

  /** The numeric fields are written as they were read. */
  lemma NumberByte(data: seq<u8>, h: FrameHeader, i: nat)
    requires |data| >= HEADER_SIZE && h == FieldsOf(data, h.channel)
    requires 10 <= i < 12 || 114 <= i < 158
    ensures HeaderByte(h, i) == data[i]
  {
    hide Word, LittleEndian, UpToNul;
    if i < 12 {
      WordBytes(data, 10, 2);
    } else if i < 122 {
      WordBytes(data, 114, 8);
    } else if i < 130 {
      WordBytes(data, 122, 8);
    } else if i < 138 {
      WordBytes(data, 130, 8);
    } else if i < 146 {
      WordBytes(data, 138, 8);
    } else if i < 150 {
      WordBytes(data, 146, 4);
    } else {
      WordBytes(data, 150, 8);
    }
  }

  /** So are the marks, the reserved bytes and the byte fields. */
  lemma OtherByte(data: seq<u8>, h: FrameHeader, i: nat)
    requires |data| >= HEADER_SIZE && h == FieldsOf(data, h.channel)
    requires data[..8] == MAGIC && data[8] == 1 && data[9] == h.channel.Code() && data[158..280] == Zeros(122)
    requires i < 10 || 158 <= i < HEADER_SIZE
    ensures HeaderByte(h, i) == data[i]
  {
    hide Word, LittleEndian, UpToNul;
    if i < 8 {
      assert data[i] == data[..8][i];
    } else if 158 <= i < 280 {
      assert data[i] == data[158..280][i - 158];
    }
  }

  lemma ImageOfFields(data: seq<u8>, h: FrameHeader)
    requires ParseHeader(data) == Ok(h)
    requires FixedString(h.uuid, UUID_FIELD) == data[12..49]
    requires FixedString(h.archiveLabel, LABEL_FIELD) == data[49..114]
    ensures HeaderImage(h) == data[..HEADER_SIZE]
  {
    hide ParseHeader, FieldsOf, LittleEndian, FixedString;
    ParsedFields(data, h);
    forall i | 0 <= i < HEADER_SIZE ensures HeaderImage(h)[i] == data[i] {
      if 10 <= i < 12 || 114 <= i < 158 {
        NumberByte(data, h, i);
      } else if i < 10 || 158 <= i {
        OtherByte(data, h, i);
      } else if i < 49 {
        assert data[12..49][i - 12] == data[i];
      } else {
        assert data[49..114][i - 49] == data[i];
      }
    }
  }

  lemma ImageStrings(h: FrameHeader)
    ensures HeaderImage(h)[12..49] == FixedString(h.uuid, UUID_FIELD)
    ensures HeaderImage(h)[49..114] == FixedString(h.archiveLabel, LABEL_FIELD)
  {
    ImageField(h, HeaderImage(h), 12, FixedString(h.uuid, UUID_FIELD));
    ImageField(h, HeaderImage(h), 49, FixedString(h.archiveLabel, LABEL_FIELD));
  }

  lemma ImageEqualsSource(data: seq<u8>, h: FrameHeader)
    requires ParseHeader(data) == Ok(h)
    ensures HeaderImage(h) == data[..HEADER_SIZE] <==>
              ZeroPadded(data[12..49]) && ZeroPadded(data[49..114])
  {
    PaddedField(data[12..49]);
    PaddedField(data[49..114]);
    ImageStrings(h);
    if HeaderImage(h) == data[..HEADER_SIZE] {
      assert data[..HEADER_SIZE][12..49] == data[12..49];
      assert data[..HEADER_SIZE][49..114] == data[49..114];
    }
    if ZeroPadded(data[12..49]) && ZeroPadded(data[49..114]) {
      ImageOfFields(data, h);
    }
  }

  /** The other direction: a parsed header serializes to the very bytes it was
      read from exactly when it obeys the signature rule and both string fields
      are zero after their first NUL. (The parser checks neither.) */
  lemma ParseSerialize(data: seq<u8>, h: FrameHeader)
    requires ParseHeader(data) == Ok(h)
    ensures SerializeHeader(h) == Ok(data[..HEADER_SIZE]) <==>
              SignatureRule(h) && ZeroPadded(data[12..49]) && ZeroPadded(data[49..114])
  {
    ImageEqualsSource(data, h);
    SerializeParse(h);
  }

  // ----------------------------------------------------- in-place routines

  method PutWord(bytes: array<u8>, offset: nat, value: nat, n: nat)
    requires offset + n <= bytes.Length
    modifies bytes
    ensures bytes[..] == old(bytes[..offset]) + LittleEndian(value, n) + old(bytes[offset + n..])
  {
    var shifted := value;
    for i := 0 to n
      invariant bytes[..offset] == old(bytes[..offset])
      invariant bytes[offset + i..] == old(bytes[offset + i..])
      invariant bytes[offset..offset + i] + LittleEndian(shifted, n - i) == LittleEndian(value, n)
    {
      ghost var done := bytes[offset..offset + i];
      var low: u8 := shifted % 256;
      bytes[offset + i] := low;
      assert bytes[offset..offset + i + 1] == done + [shifted % 256];
      shifted := shifted / 256;
    }
    assert bytes[..] == bytes[..offset] + bytes[offset..offset + n] + bytes[offset + n..];
  }

  /** Accumulates the bytes from the low end; each shifted byte lies above all
      bits set so far, so `|=` is addition. */
  method GetWord(bytes: array<u8>, offset: nat, n: nat) returns (value: nat)
    requires offset + n <= bytes.Length
    ensures value == Word(bytes[..], offset, n)
  {
    value := 0;
    var weight: nat := 1;
    for i := 0 to n
      invariant weight == Pow256(i)
      invariant value == FromLittleEndian(bytes[offset..offset + i])
    {
      assert bytes[offset..offset + i + 1] == bytes[offset..offset + i] + [bytes[offset + i]];
      FromLittleEndianAppend(bytes[offset..offset + i], bytes[offset + i]);
      value := value + bytes[offset + i] * weight;
      weight := 256 * weight;
    }
    assert bytes[..][offset..offset + n] == bytes[offset..offset + n];
  }

  method PutBytes(bytes: array<u8>, offset: nat, field: seq<u8>)
    requires offset + |field| <= bytes.Length
    modifies bytes
    ensures bytes[..] == old(bytes[..offset]) + field + old(bytes[offset + |field|..])
  {
    for i := 0 to |field|
      invariant bytes[..offset] == old(bytes[..offset])
      invariant bytes[offset + i..] == old(bytes[offset + i..])
      invariant forall j :: 0 <= j < i ==> bytes[offset + j] == field[j]
    {
      bytes[offset + i] := field[i];
    }
    assert bytes[offset..offset + |field|] == field;
    assert bytes[..] == bytes[..offset] + bytes[offset..offset + |field|] + bytes[offset + |field|..];
  }

  function ZeroByte(i: nat): u8 { 0 }

  /** The first n bytes of the header are in place and the rest are zero. */
  ghost predicate Filled(b: seq<u8>, h: FrameHeader, n: nat) {
    && |b| == HEADER_SIZE
    && n <= HEADER_SIZE
    && (forall i :: 0 <= i < n ==> b[i] == HeaderByte(h, i))
    && (forall i :: n <= i < HEADER_SIZE ==> b[i] == 0)
  }

  lemma Fill(before: seq<u8>, after: seq<u8>, h: FrameHeader, offset: nat, field: seq<u8>)
    requires Filled(before, h, offset) && offset + |field| <= HEADER_SIZE
    requires after == before[..offset] + field + before[offset + |field|..]
    requires forall j :: 0 <= j < |field| ==> HeaderByte(h, offset + j) == field[j]
    ensures Filled(after, h, offset + |field|)
  {
    forall i | 0 <= i < HEADER_SIZE
      ensures after[i] == if i < offset + |field| then HeaderByte(h, i) else 0
    {
      if offset <= i < offset + |field| {
        assert after[i] == field[i - offset] == HeaderByte(h, offset + (i - offset));
      }
    }
  }

  method PutWordField(bytes: array<u8>, ghost h: FrameHeader, offset: nat, value: nat, n: nat)
    requires Filled(bytes[..], h, offset) && offset + n <= HEADER_SIZE
    requires forall j :: 0 <= j < n ==> HeaderByte(h, offset + j) == LittleEndian(value, n)[j]
    modifies bytes
    ensures Filled(bytes[..], h, offset + n)
  {
    ghost var before := bytes[..];
    PutWord(bytes, offset, value, n);
    Fill(before, bytes[..], h, offset, LittleEndian(value, n));
  }

  method PutBytesField(bytes: array<u8>, ghost h: FrameHeader, offset: nat, field: seq<u8>)
    requires Filled(bytes[..], h, offset) && offset + |field| <= HEADER_SIZE
    requires forall j :: 0 <= j < |field| ==> HeaderByte(h, offset + j) == field[j]
    modifies bytes
    ensures Filled(bytes[..], h, offset + |field|)
  {
    ghost var before := bytes[..];
    PutBytes(bytes, offset, field);
    Fill(before, bytes[..], h, offset, field);
  }

  /** The in-place serializer writes every field at its offset into a zeroed
      buffer and ends by parsing what it wrote. */
  method SerializeFrameHeader(h: FrameHeader) returns (r: Result<seq<u8>, FormatError>)
    ensures r == SerializeHeader(h)
  {
    hide ParseHeader, HeaderRule, LittleEndian, FixedString;
    if !SignatureRule(h) {
      return Err(UnsignedSignature);
    }
    var bytes := new u8[HEADER_SIZE](ZeroByte);
    PutBytesField(bytes, h, 0, MAGIC);
    PutBytesField(bytes, h, 8, [1, h.channel.Code()]);
    PutWordField(bytes, h, 10, h.blockKib, 2);
    PutBytesField(bytes, h, 12, FixedString(h.uuid, UUID_FIELD));
    PutBytesField(bytes, h, 49, FixedString(h.archiveLabel, LABEL_FIELD));
    PutWordField(bytes, h, 114, h.volume, 8);
    PutWordField(bytes, h, 122, h.global, 8);
    PutWordField(bytes, h, 130, h.slice, 8);
    PutWordField(bytes, h, 138, h.channelSeq, 8);
    PutWordField(bytes, h, 146, h.payloadSize, 4);
    PutWordField(bytes, h, 150, h.flags, 8);
    assert Filled(bytes[..], h, 280);
    PutBytesField(bytes, h, 280, h.sideband);
    PutBytesField(bytes, h, 408, h.signature);
    PutBytesField(bytes, h, 480, h.hash);
    assert bytes[..] == HeaderImage(h);
    match ParseHeader(bytes[..]) {
      case Err(e) => return Err(e);
      case Ok(_) => return Ok(bytes[..]);
    }
  }
}
