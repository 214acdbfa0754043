// The plan file: printing records, reading them back, and the contiguity rule.
module PlanText {
  import opened Base
  import opened Packing

  type Bytes = seq<u8>

  type i64 = x: int | -0x8000_0000_0000_0000 <= x < 0x8000_0000_0000_0000

  const SLASH: u8 := 47
  const MINUS: u8 := 45

  datatype PlannedEntry = PlannedEntry(
    slice: u64, fileNum: u64, kind: u8, size: u64, mtime: i64, uid: u32, uname: Bytes, gid: u32, gname: Bytes,
    path: Bytes)

  datatype PlanRecord = Chdir(dir: Bytes) | EntryRecord(entry: PlannedEntry)

  // ------------------------------------------------------------------- numbers

  function Digits(n: nat): (d: Bytes)
    ensures d != [] && forall i :: 0 <= i < |d| ==> 48 <= d[i] <= 57
    ensures n > 0 ==> d[0] != 48
  {
    if n < 10 then [48 + n] else Digits(n / 10) + [48 + n % 10]
  }

  predicate AllDigits(text: Bytes) {
    text != [] && forall i :: 0 <= i < |text| ==> 48 <= text[i] <= 57
  }

  function Decimal(text: Bytes): nat
    requires forall i :: 0 <= i < |text| ==> 48 <= text[i] <= 57
  {
    if text == [] then 0 else Decimal(text[..|text| - 1]) * 10 + (text[|text| - 1] - 48)
  }

  /** An unsigned field: digits only, within the bound. */
  function ParseUnsigned(text: Bytes, maximum: nat): Option<nat> {
    if AllDigits(text) && Decimal(text) <= maximum then Some(Decimal(text)) else None
  }

  function Negated(x: int): int { -x }

  function ParseSigned(text: Bytes): Option<i64> {
    if text != [] && text[0] == MINUS then
      if AllDigits(text[1..]) && Decimal(text[1..]) <= 0x8000_0000_0000_0000 then Some(Negated(Decimal(text[1..])))
      else None
    else if AllDigits(text) && Decimal(text) < 0x8000_0000_0000_0000 then Some(Decimal(text))
    else None
  }

  function Signed(x: i64): Bytes {
    if x < 0 then [MINUS] + Digits(Negated(x)) else Digits(x)
  }

  lemma {:induction false} DecimalOfDigits(n: nat)
    ensures Decimal(Digits(n)) == n
  {
    if n < 10 {
      assert Digits(n)[..0] == [];
    } else {
      DecimalOfDigits(n / 10);
      assert Digits(n)[..|Digits(n)| - 1] == Digits(n / 10);
    }
  }

  lemma UnsignedReadsBack(n: nat, maximum: nat)
    requires n <= maximum
    ensures ParseUnsigned(Digits(n), maximum) == Some(n)
  {
    DecimalOfDigits(n);
  }

  lemma SignedReadsBack(x: i64)
    ensures ParseSigned(Signed(x)) == Some(x)
  {
    hide Digits, Decimal;
    if x < 0 {
      DecimalOfDigits(Negated(x));
      assert Signed(x)[1..] == Digits(Negated(x));
    } else {
      DecimalOfDigits(x);
    }
  }

  // ------------------------------------------------------------------- printing

  /** Names that would break the field syntax are left out. */
  function Name(value: Bytes): Bytes {
    if SLASH in value || 0 in value then [] else value
  }

  function Fields(e: PlannedEntry): (f: seq<Bytes>)
    ensures |f| == 9
  {
    [Digits(e.slice), Digits(e.fileNum), [e.kind], Digits(e.size), Signed(e.mtime), Digits(e.uid), Name(e.uname),
     Digits(e.gid), Name(e.gname)]
  }

  function Join(fields: seq<Bytes>, path: Bytes): Bytes {
    if fields == [] then path else fields[0] + [SLASH] + Join(fields[1..], path)
  }

  const CHDIR: Bytes := [47, 99, 104, 100, 105, 114, 47]

  function Print(r: PlanRecord): Bytes {
    match r
    case Chdir(dir) => CHDIR + dir
    case EntryRecord(e) => [SLASH] + Join(Fields(e), e.path)
  }

  /** Each record ends in NUL and line feed. */
  function PrintAll(records: seq<PlanRecord>): Bytes {
    if records == [] then [] else Print(records[0]) + [0, 10] + PrintAll(records[1..])
  }

  // -------------------------------------------------------------------- parsing

  datatype PlanError =
    | NotARecord | BadFields | BadKindOrPath | HardlinkSize | BadNumber | Unterminated | MisplacedChdir | NotContiguous

  function Find(text: Bytes, b: u8): (i: nat)
    ensures i <= |text| && b !in text[..i] && (i < |text| ==> text[i] == b)
  {
    if text == [] || text[0] == b then 0 else 1 + Find(text[1..], b)
  }

  /** Cuts off `need` fields; the rest is absent when the text ends in a field. */
  function Split(text: Bytes, need: nat): (seq<Bytes>, Option<Bytes>) {
    if need == 0 then ([], Some(text))
    else
      var i := Find(text, SLASH);
      if i == |text| then ([text], None)
      else
        var later := Split(text[i + 1..], need - 1);
        ([text[..i]] + later.0, later.1)
  }

  predicate KnownKind(kind: u8) {
    kind in [102, 104, 100, 108, 99, 98, 112, 115]
  }

  function ParseEntry(f: seq<Bytes>, path: Bytes): Result<PlanRecord, PlanError>
    requires |f| == 9
  {
    if path == [] || |f[2]| != 1 then Err(BadFields)
    else if !KnownKind(f[2][0]) || path[0] == SLASH then Err(BadKindOrPath)
    else
      var slice, file := ParseUnsigned(f[0], TWO_64 - 1), ParseUnsigned(f[1], TWO_64 - 1);
      var size := ParseUnsigned(f[3], TWO_64 - 1);
      var uid, gid := ParseUnsigned(f[5], 0xFFFF_FFFF), ParseUnsigned(f[7], 0xFFFF_FFFF);
      var mtime := ParseSigned(f[4]);
      if f[2][0] == 104 && size.Some? && size.value != 0 then Err(HardlinkSize)
      else if size.None? || slice.None? || file.None? || mtime.None? || uid.None? || gid.None? then Err(BadNumber)
      else Ok(EntryRecord(PlannedEntry(slice.value, file.value, f[2][0], size.value, mtime.value, uid.value, f[6],
                                       gid.value, f[8], path)))
  }

  function ParseRecord(text: Bytes): Result<PlanRecord, PlanError> {
    if CHDIR <= text then Ok(Chdir(text[7..]))
    else if text == [] || text[0] != SLASH then Err(NotARecord)
    else
      var cut := Split(text[1..], 9);
      if |cut.0| != 9 || cut.1.None? then Err(BadFields) else ParseEntry(cut.0, cut.1.value)
  }

  // ---------------------------------------------------------- the text of a record

  /** File, hard link, directory, symbolic link, character device, block device,
      pipe, socket. */
  const KINDS: string := "fhdlcbps"

  predicate LawfulKind(kind: u8) {
    kind as char in KINDS
  }

  lemma KindsExactly(kind: u8)
    ensures KnownKind(kind) <==> LawfulKind(kind)
  {
    assert KINDS == ['f', 'h', 'd', 'l', 'c', 'b', 'p', 's'];
  }

  predicate Plain(value: Bytes) {
    forall i :: 0 <= i < |value| ==> value[i] as char != '/' && value[i] != 0
  }

  lemma NameExactly(value: Bytes)
    ensures Name(value) == if Plain(value) then value else []
  {
  }

  /** What a printed entry reads back as: a name that is not plain is lost. */
  function Sanitized(r: PlanRecord): PlanRecord {
    match r
    case Chdir(_) => r
    case EntryRecord(e) =>
      EntryRecord(e.(uname := if Plain(e.uname) then e.uname else [], gname := if Plain(e.gname) then e.gname else []))
  }

  predicate Printable(e: PlannedEntry) {
    && LawfulKind(e.kind) && e.path != [] && e.path[0] as char != '/'
    && (e.kind as char == 'h' ==> e.size == 0)
  }

  predicate Numeral(text: Bytes, x: int) {
    text != [] && (forall i :: 0 <= i < |text| ==> '0' <= text[i] as char <= '9') && Decimal(text) == x
  }

  predicate SignedNumeral(text: Bytes, x: int) {
    Numeral(text, x) || (text != [] && text[0] as char == '-' && Numeral(text[1..], Negated(x)))
  }

  /** The nine fields in front of the path. */
  predicate FieldsSay(f: seq<Bytes>, e: PlannedEntry) {
    && |f| == 9
    && Numeral(f[0], e.slice) && Numeral(f[1], e.fileNum) && f[2] == [e.kind] && Numeral(f[3], e.size)
    && SignedNumeral(f[4], e.mtime)
    && Numeral(f[5], e.uid) && f[6] == e.uname && Numeral(f[7], e.gid) && f[8] == e.gname
  }

  ghost predicate SlashFree(fields: seq<Bytes>) {
    forall i :: 0 <= i < |fields| ==> SLASH !in fields[i]
  }

  /** The text is one of the texts of this record. */
  ghost predicate Says(text: Bytes, r: PlanRecord) {
    match r
    case Chdir(dir) => text == CHDIR + dir
    case EntryRecord(e) =>
      Printable(e) && exists f: seq<Bytes> ::
        FieldsSay(f, e) && SlashFree(f) && text == [SLASH] + Join(f, e.path)
  }

  lemma ChdirText()
    ensures |CHDIR| == 7 && forall i :: 0 <= i < 7 ==> CHDIR[i] as char == "/chdir/"[i]
  {
    assert "/chdir/" == ['/', 'c', 'h', 'd', 'i', 'r', '/'];
  }

  lemma {:induction false} FindEnds(field: Bytes, rest: Bytes, b: u8)
    requires b !in field
    ensures Find(field + [b] + rest, b) == |field|
  {
    if field != [] {
      FindEnds(field[1..], rest, b);
      assert (field + [b] + rest)[1..] == field[1..] + [b] + rest;
    }
  }

  lemma {:induction false} SplitJoin(fields: seq<Bytes>, path: Bytes)
    requires forall i :: 0 <= i < |fields| ==> SLASH !in fields[i]
    ensures Split(Join(fields, path), |fields|) == (fields, Some(path))
  {
    hide Find;
    if fields != [] {
      var rest := Join(fields[1..], path);
      var text := fields[0] + [SLASH] + rest;
      assert Join(fields, path) == text;
      FindEnds(fields[0], rest, SLASH);
      SplitJoin(fields[1..], path);
      CutAt(fields[0], rest);
      assert fields == [fields[0]] + fields[1..];
    }
  }

  lemma CutAt(field: Bytes, rest: Bytes)
    ensures var text := field + [SLASH] + rest;
            |text| > |field| && text[..|field|] == field && text[|field| + 1..] == rest
  {
  }

  lemma NotPrefix(a: Bytes, b: Bytes, i: nat)
    requires i < |a| && i < |b| && a[i] != b[i]
    ensures !(a <= b)
  {
  }

  lemma FieldsHaveNoSlash(e: PlannedEntry)
    requires LawfulKind(e.kind)
    ensures forall i :: 0 <= i < 9 ==> SLASH !in Fields(e)[i]
  {
    hide LawfulKind;
    KindsExactly(e.kind);
  }

  lemma EntryText(e: PlannedEntry)
    requires LawfulKind(e.kind)
    ensures var text := Print(EntryRecord(e));
            && text != [] && text[0] == SLASH && !(CHDIR <= text)
            && Split(text[1..], 9) == (Fields(e), Some(e.path))
  {
    FieldsHaveNoSlash(e);
    SplitJoin(Fields(e), e.path);
    var text := Print(EntryRecord(e));
    assert text[1..] == Join(Fields(e), e.path);
    assert text[1] == Digits(e.slice)[0];
    NotPrefix(CHDIR, text, 1);
  }

  lemma EntryNumbers(e: PlannedEntry)
    ensures var f := Fields(e);
            && ParseUnsigned(f[0], TWO_64 - 1) == Some(e.slice) && ParseUnsigned(f[1], TWO_64 - 1) == Some(e.fileNum)
            && ParseUnsigned(f[3], TWO_64 - 1) == Some(e.size) && ParseSigned(f[4]) == Some(e.mtime)
            && ParseUnsigned(f[5], 0xFFFF_FFFF) == Some(e.uid) && ParseUnsigned(f[7], 0xFFFF_FFFF) == Some(e.gid)
  {
    hide ParseUnsigned, ParseSigned, Digits, Signed;
    UnsignedReadsBack(e.slice, TWO_64 - 1);
    UnsignedReadsBack(e.fileNum, TWO_64 - 1);
    UnsignedReadsBack(e.size, TWO_64 - 1);
    UnsignedReadsBack(e.uid, 0xFFFF_FFFF);
    UnsignedReadsBack(e.gid, 0xFFFF_FFFF);
    SignedReadsBack(e.mtime);
  }

  lemma ParsedKind(text: Bytes)
    ensures ParseRecord(text).Ok? && ParseRecord(text).value.EntryRecord? ==>
              LawfulKind(ParseRecord(text).value.entry.kind)
  {
    hide Split, ParseUnsigned, ParseSigned, KnownKind, LawfulKind;
    if ParseRecord(text).Ok? && ParseRecord(text).value.EntryRecord? {
      KindsExactly(ParseRecord(text).value.entry.kind);
    }
  }

  /** A printed entry reads back, with unprintable names emptied, exactly when its
      kind is known, its path relative and not empty, and a hardlink's size 0. */
  lemma PrintedEntryReads(e: PlannedEntry)
    ensures ParseRecord(Print(EntryRecord(e))) == Ok(Sanitized(EntryRecord(e))) <==> Printable(e)
    ensures LawfulKind(e.kind) && !Printable(e) ==> ParseRecord(Print(EntryRecord(e))).Err?
  {
    hide Digits, Split, Join, ParseUnsigned, ParseSigned, KnownKind, LawfulKind, Name, Plain;
    ParsedKind(Print(EntryRecord(e)));
    KindsExactly(e.kind);
    NameExactly(e.uname);
    NameExactly(e.gname);
    if LawfulKind(e.kind) {
      EntryText(e);
      EntryNumbers(e);
    }
  }

  lemma PrintedChdirReads(dir: Bytes)
    ensures ParseRecord(Print(Chdir(dir))) == Ok(Chdir(dir))
  {
    assert Print(Chdir(dir))[..7] == CHDIR && Print(Chdir(dir))[7..] == dir;
  }

  // ------------------------------------------------------ exactly which texts parse

  lemma {:induction false} SplitIsJoin(text: Bytes, need: nat)
    requires Split(text, need).1.Some?
    ensures var cut := Split(text, need);
            |cut.0| == need && SlashFree(cut.0) && text == Join(cut.0, cut.1.value)
    decreases need
  {
    if need > 0 {
      hide Find, Join, SlashFree;
      var i := Find(text, SLASH);
      SplitIsJoin(text[i + 1..], need - 1);
      var later := Split(text[i + 1..], need - 1);
      assert Split(text, need) == ([text[..i]] + later.0, later.1);
      assert text == text[..i] + [SLASH] + text[i + 1..];
      JoinCons(text[..i], later.0, later.1.value);
    }
  }

  lemma JoinCons(field: Bytes, fields: seq<Bytes>, path: Bytes)
    ensures Join([field] + fields, path) == field + [SLASH] + Join(fields, path)
    ensures SLASH !in field && SlashFree(fields) ==> SlashFree([field] + fields)
  {
    assert ([field] + fields)[1..] == fields;
  }

  /** The cut is the only way to read the text as so many fields and a rest. */
  lemma SplitExactly(text: Bytes, fields: seq<Bytes>, path: Bytes)
    ensures Split(text, |fields|) == (fields, Some(path)) <==> SlashFree(fields) && text == Join(fields, path)
  {
    hide Split, Join;
    if SlashFree(fields) {
      SplitJoin(fields, path);
    }
    if Split(text, |fields|) == (fields, Some(path)) {
      SplitIsJoin(text, |fields|);
    }
  }

  lemma UnsignedExactly(text: Bytes, maximum: nat, x: nat)
    ensures ParseUnsigned(text, maximum) == Some(x) <==> Numeral(text, x) && x <= maximum
  {
    hide Decimal;
  }

  lemma SignedExactly(text: Bytes, x: i64)
    ensures ParseSigned(text) == Some(x) <==> SignedNumeral(text, x)
  {
    hide Decimal;
  }

  lemma NumbersExactly(f: seq<Bytes>, e: PlannedEntry)
    requires |f| == 9
    ensures FieldsSay(f, e) <==>
              && f[2] == [e.kind] && f[6] == e.uname && f[8] == e.gname
              && ParseUnsigned(f[0], TWO_64 - 1) == Some(e.slice) && ParseUnsigned(f[1], TWO_64 - 1) == Some(e.fileNum)
              && ParseUnsigned(f[3], TWO_64 - 1) == Some(e.size) && ParseSigned(f[4]) == Some(e.mtime)
              && ParseUnsigned(f[5], 0xFFFF_FFFF) == Some(e.uid) && ParseUnsigned(f[7], 0xFFFF_FFFF) == Some(e.gid)
  {
    hide Numeral, SignedNumeral, ParseUnsigned, ParseSigned;
    UnsignedExactly(f[0], TWO_64 - 1, e.slice);
    UnsignedExactly(f[1], TWO_64 - 1, e.fileNum);
    UnsignedExactly(f[3], TWO_64 - 1, e.size);
    SignedExactly(f[4], e.mtime);
    UnsignedExactly(f[5], 0xFFFF_FFFF, e.uid);
    UnsignedExactly(f[7], 0xFFFF_FFFF, e.gid);
  }

  lemma EntryExactly(f: seq<Bytes>, path: Bytes, e: PlannedEntry)
    requires |f| == 9
    ensures ParseEntry(f, path) == Ok(EntryRecord(e)) <==> FieldsSay(f, e) && path == e.path && Printable(e)
    ensures ParseEntry(f, path).Ok? ==> ParseEntry(f, path).value.EntryRecord?
  {
    hide ParseUnsigned, ParseSigned, KnownKind, LawfulKind, FieldsSay;
    NumbersExactly(f, e);
    KindsExactly(e.kind);
    if |f[2]| == 1 {
      KindsExactly(f[2][0]);
    }
  }

  lemma NotADirective(f: seq<Bytes>, path: Bytes, e: PlannedEntry)
    requires FieldsSay(f, e)
    ensures var text := [SLASH] + Join(f, path);
            text[0] == SLASH && text[1..] == Join(f, path) && !(CHDIR <= text)
  {
    hide Decimal;
    var text := [SLASH] + Join(f, path);
    assert Join(f, path) == f[0] + [SLASH] + Join(f[1..], path);
    assert text[1] == f[0][0];
    NotPrefix(CHDIR, text, 1);
  }

  /** A text parses as a record exactly when it is one of the record's texts:
      the directive and a directory, or nine fields that say the record's values in
      order, and the path. */
  lemma ParsesExactly(text: Bytes, r: PlanRecord)
    ensures ParseRecord(text) == Ok(r) <==> Says(text, r)
  {
    if r.Chdir? {
      DirectiveExactly(text, r.dir);
    } else {
      hide Says, ParseRecord;
      if Says(text, r) {
        SaidParses(text, r.entry);
      }
      if ParseRecord(text) == Ok(r) {
        ParsedIsSaid(text, r.entry);
      }
    }
  }

  lemma DirectiveExactly(text: Bytes, dir: Bytes)
    ensures ParseRecord(text) == Ok(Chdir(dir)) <==> text == CHDIR + dir
  {
    hide Split, ParseEntry, FieldsSay, Printable;
    if CHDIR <= text {
      assert text == CHDIR + text[7..];
    } else if text != [] && text[0] == SLASH {
      var cut := Split(text[1..], 9);
      if |cut.0| == 9 && cut.1.Some? {
        NeverADirective(cut.0, cut.1.value);
      }
    }
  }

  lemma NeverADirective(f: seq<Bytes>, path: Bytes)
    requires |f| == 9
    ensures ParseEntry(f, path).Ok? ==> ParseEntry(f, path).value.EntryRecord?
  {
    hide ParseUnsigned, ParseSigned, KnownKind;
  }

  lemma SaidParses(text: Bytes, e: PlannedEntry)
    requires Says(text, EntryRecord(e))
    ensures ParseRecord(text) == Ok(EntryRecord(e))
  {
    hide FieldsSay, SlashFree, Split, ParseEntry, Printable, Join;
    var f: seq<Bytes> :| FieldsSay(f, e) && SlashFree(f) && text == [SLASH] + Join(f, e.path);
    NotADirective(f, e.path, e);
    assert |f| == 9 by {
      FieldsAreNine(f, e);
    }
    SplitExactly(text[1..], f, e.path);
    EntryExactly(f, e.path, e);
  }

  lemma FieldsAreNine(f: seq<Bytes>, e: PlannedEntry)
    requires FieldsSay(f, e)
    ensures |f| == 9
  {
  }

  lemma ParsedIsSaid(text: Bytes, e: PlannedEntry)
    requires ParseRecord(text) == Ok(EntryRecord(e))
    ensures Says(text, EntryRecord(e))
  {
    hide FieldsSay, SlashFree, Split, ParseEntry, Printable, Join;
    var cut := Split(text[1..], 9);
    EntryExactly(cut.0, cut.1.value, e);
    SplitExactly(text[1..], cut.0, cut.1.value);
    assert text == [SLASH] + text[1..];
  }

  // ----------------------------------------------------------------- the stream

  /** The number an entry must carry after `previous`. */
  predicate Follows(previous: Option<(nat, nat)>, slice: nat, file: nat) {
    match previous
    case None => slice == 0 && file == 0
    case Some(p) =>
      if slice == p.0 then p.1 != TWO_64 - 1 && file == p.1 + 1
      else p.0 != TWO_64 - 1 && slice == p.0 + 1 && file == 0
  }

  /** The next file of the slice, or the first file of the next slice. */
  predicate InOrder(previous: Option<(nat, nat)>, slice: u64, file: u64) {
    match previous
    case None => (slice, file) == (0, 0)
    case Some((s, f)) => (slice, file) == (s, f + 1) || (slice, file) == (s + 1, 0)
  }

  lemma FollowsExactly(previous: Option<(nat, nat)>, slice: u64, file: u64)
    ensures Follows(previous, slice, file) <==> InOrder(previous, slice, file)
  {
  }

  datatype Reading = Reading(input: Bytes, records: nat, previous: Option<(nat, nat)>)

  datatype Next = End | Bad(error: PlanError) | Good(record: PlanRecord, rest: Reading)

  /** `PlanReader::next`. */
  function NextRecord(r: Reading): Next {
    if r.input == [] then End
    else
      var k := Find(r.input, 0);
      if k + 1 >= |r.input| || r.input[k + 1] != 10 then Bad(Unterminated)
      else
        match ParseRecord(r.input[..k])
        case Err(e) => Bad(e)
        case Ok(Chdir(dir)) =>
          if r.records != 0 || dir == [] then Bad(MisplacedChdir)
          else Good(Chdir(dir), Reading(r.input[k + 2..], 1, r.previous))
        case Ok(EntryRecord(e)) =>
          if !Follows(r.previous, e.slice, e.fileNum) then Bad(NotContiguous)
          else Good(EntryRecord(e), Reading(r.input[k + 2..], r.records + 1, Some((e.slice, e.fileNum))))
  }

  function ReadAll(r: Reading): Result<seq<PlanRecord>, PlanError>
    decreases |r.input|
  {
    match NextRecord(r)
    case End => Ok([])
    case Bad(e) => Err(e)
    case Good(record, rest) =>
      match ReadAll(rest)
      case Err(e) => Err(e)
      case Ok(later) => Ok([record] + later)
  }

  /** A stream the planner may print: at most one chdir, first; printable entries
      numbered without gaps. */
  predicate ValidStream(rs: seq<PlanRecord>, records: nat, previous: Option<(nat, nat)>)
    decreases |rs|
  {
    rs == [] ||
    match rs[0]
    case Chdir(dir) => records == 0 && dir != [] && ValidStream(rs[1..], 1, previous)
    case EntryRecord(e) =>
      && Printable(e) && InOrder(previous, e.slice, e.fileNum)
      && ValidStream(rs[1..], records + 1, Some((e.slice, e.fileNum)))
  }

  function SanitizedAll(rs: seq<PlanRecord>): seq<PlanRecord> {
    if rs == [] then [] else [Sanitized(rs[0])] + SanitizedAll(rs[1..])
  }

  ghost predicate NulFree(rs: seq<PlanRecord>) {
    forall i :: 0 <= i < |rs| ==> 0 !in Print(rs[i])
  }

  lemma HeadOfStream(rs: seq<PlanRecord>, records: nat, previous: Option<(nat, nat)>)
    requires rs != [] && NulFree(rs)
    ensures var text := Print(rs[0]);
            var input := PrintAll(rs);
            && input != [] && Find(input, 0) == |text| && |text| + 1 < |input| && input[|text| + 1] == 10
            && input[..|text|] == text && input[|text| + 2..] == PrintAll(rs[1..])
  {
    hide Print;
    var text, rest := Print(rs[0]), PrintAll(rs[1..]);
    assert PrintAll(rs) == text + [0] + ([10] + rest);
    FindEnds(text, [10] + rest, 0);
  }

  predicate HeadValid(r: PlanRecord, records: nat, previous: Option<(nat, nat)>) {
    match r
    case Chdir(dir) => records == 0 && dir != []
    case EntryRecord(e) => Printable(e) && InOrder(previous, e.slice, e.fileNum)
  }

  function After(r: PlanRecord, rest: Bytes, records: nat, previous: Option<(nat, nat)>): Reading {
    Reading(rest, records + 1, if r.Chdir? then previous else Some((r.entry.slice, r.entry.fileNum)))
  }

  /** The first record comes back exactly when it is valid at this point. */
  lemma HeadComesBack(rs: seq<PlanRecord>, records: nat, previous: Option<(nat, nat)>)
    requires rs != [] && NulFree(rs)
    ensures var next := NextRecord(Reading(PrintAll(rs), records, previous));
            && !next.End?
            && (HeadValid(rs[0], records, previous) ==>
                  next == Good(Sanitized(rs[0]), After(rs[0], PrintAll(rs[1..]), records, previous)))
            && (next.Good? && next.record == Sanitized(rs[0]) ==> HeadValid(rs[0], records, previous))
  {
    hide Print, ParseRecord, Find, Printable, PrintAll, Follows, InOrder;
    if rs[0].EntryRecord? {
      FollowsExactly(previous, rs[0].entry.slice, rs[0].entry.fileNum);
    }
    HeadOfStream(rs, records, previous);
    HeadReads(rs[0]);
  }

  lemma ValidHead(rs: seq<PlanRecord>, records: nat, previous: Option<(nat, nat)>)
    requires rs != []
    ensures ValidStream(rs, records, previous) <==>
              && HeadValid(rs[0], records, previous)
              && var next := After(rs[0], [], records, previous); ValidStream(rs[1..], next.records, next.previous)
  {
    hide Printable, InOrder;
  }

  /** Printing and reading back is the identity on records, up to emptied names,
      exactly for the streams the planner may print. */
  lemma {:induction false} PlanRoundTrip(rs: seq<PlanRecord>, records: nat, previous: Option<(nat, nat)>)
    requires NulFree(rs)
    ensures ReadAll(Reading(PrintAll(rs), records, previous)) == Ok(SanitizedAll(rs)) <==>
              ValidStream(rs, records, previous)
    decreases |rs|
  {
    if rs == [] {
      NothingPrinted();
    } else {
      hide NextRecord, HeadValid, PrintAll, ValidStream, Sanitized;
      HeadComesBack(rs, records, previous);
      ValidHead(rs, records, previous);
      assert SanitizedAll(rs)[0] == Sanitized(rs[0]);
      if HeadValid(rs[0], records, previous) {
        var next := After(rs[0], PrintAll(rs[1..]), records, previous);
        PlanRoundTrip(rs[1..], next.records, next.previous);
        ConsCancels(Sanitized(rs[0]), next, rs);
      }
    }
  }

  lemma NothingPrinted()
    ensures PrintAll([]) == []
  {
  }

  lemma HeadReads(r: PlanRecord)
    ensures ParseRecord(Print(r)) == Ok(Sanitized(r)) <==> r.Chdir? || Printable(r.entry)
  {
    hide Print, ParseRecord, Printable;
    if r.Chdir? {
      PrintedChdirReads(r.dir);
    } else {
      PrintedEntryReads(r.entry);
    }
  }

  lemma ConsCancels(head: PlanRecord, rest: Reading, rs: seq<PlanRecord>)
    requires rs != [] && head == Sanitized(rs[0])
    ensures ReadAll(rest).Ok? ==>
              ([head] + ReadAll(rest).value == SanitizedAll(rs) <==> ReadAll(rest).value == SanitizedAll(rs[1..]))
  {
    hide ReadAll;
    if ReadAll(rest).Ok? && [head] + ReadAll(rest).value == SanitizedAll(rs) {
      assert ([head] + ReadAll(rest).value)[1..] == ReadAll(rest).value;
      assert SanitizedAll(rs)[1..] == SanitizedAll(rs[1..]);
    }
  }

  // ---------------------------------------------- exactly which plan files are read

  /** Each line ends in NUL and line feed. */
  function TextOf(lines: seq<Bytes>): Bytes {
    if lines == [] then [] else lines[0] + [0, 10] + TextOf(lines[1..])
  }

  /** At most one directive, first and not empty; entries numbered without gaps. */
  predicate Ordered(rs: seq<PlanRecord>, records: nat, previous: Option<(nat, nat)>) {
    rs == [] ||
    match rs[0]
    case Chdir(dir) => records == 0 && dir != [] && Ordered(rs[1..], records + 1, previous)
    case EntryRecord(e) =>
      InOrder(previous, e.slice, e.fileNum) && Ordered(rs[1..], records + 1, Some((e.slice, e.fileNum)))
  }

  ghost predicate LineSays(line: Bytes, r: PlanRecord) {
    0 !in line && Says(line, r)
  }

  ghost predicate LinesSay(lines: seq<Bytes>, rs: seq<PlanRecord>) {
    |lines| == |rs| && forall i :: 0 <= i < |lines| ==> LineSays(lines[i], rs[i])
  }

  lemma LineCut(line: Bytes, rest: Bytes)
    requires 0 !in line
    ensures var input := line + [0, 10] + rest;
            && input != [] && Find(input, 0) == |line| && |line| + 1 < |input| && input[|line| + 1] == 10
            && input[..|line|] == line && input[|line| + 2..] == rest
  {
    assert line + [0, 10] + rest == line + [0] + ([10] + rest);
    FindEnds(line, [10] + rest, 0);
  }

  predicate Placed(r: PlanRecord, records: nat, previous: Option<(nat, nat)>) {
    match r
    case Chdir(dir) => records == 0 && dir != []
    case EntryRecord(e) => InOrder(previous, e.slice, e.fileNum)
  }

  lemma OrderedHead(rs: seq<PlanRecord>, rest: Bytes, records: nat, previous: Option<(nat, nat)>)
    requires rs != []
    ensures var next := After(rs[0], rest, records, previous);
            Ordered(rs, records, previous) <==>
              Placed(rs[0], records, previous) && Ordered(rs[1..], next.records, next.previous)
  {
    hide InOrder;
  }

  /** One record is read exactly from a line that says it, where it is in place. */
  lemma NextExactly(r: Reading, record: PlanRecord, line: Bytes, rest: Bytes)
    requires r.input == line + [0, 10] + rest && 0 !in line
    ensures NextRecord(r) == Good(record, After(record, rest, r.records, r.previous)) <==>
              Says(line, record) && Placed(record, r.records, r.previous)
    ensures NextRecord(r).Good? && NextRecord(r).record == record ==>
              NextRecord(r).rest == After(record, rest, r.records, r.previous)
    ensures !NextRecord(r).End?
  {
    hide Says, ParseRecord, Find, Follows, InOrder;
    LineCut(line, rest);
    ParsesExactly(line, record);
    if record.EntryRecord? {
      FollowsExactly(r.previous, record.entry.slice, record.entry.fileNum);
    }
  }

  lemma GoodHasLine(r: Reading) returns (line: Bytes, rest: Bytes)
    requires NextRecord(r).Good?
    ensures r.input == line + [0, 10] + rest && 0 !in line
  {
    hide ParseRecord, Find, Follows;
    var k := Find(r.input, 0);
    line, rest := r.input[..k], r.input[k + 2..];
    assert r.input == r.input[..k] + [r.input[k], r.input[k + 1]] + r.input[k + 2..];
  }

  lemma {:induction false} LinesRead(lines: seq<Bytes>, rs: seq<PlanRecord>, records: nat, previous: Option<(nat, nat)>)
    requires LinesSay(lines, rs) && Ordered(rs, records, previous)
    ensures ReadAll(Reading(TextOf(lines), records, previous)) == Ok(rs)
    decreases |rs|
  {
    if rs == [] {
      NothingToRead(lines, records, previous);
    } else {
      hide NextRecord, Placed, InOrder, Ordered, LineSays, LinesSay, Says, ReadAll, TextOf;
      var r, rest := Reading(TextOf(lines), records, previous), TextOf(lines[1..]);
      FirstLine(lines, rs);
      OrderedHead(rs, rest, records, previous);
      NextExactly(r, rs[0], lines[0], rest);
      LinesTail(lines, rs);
      var next := After(rs[0], rest, records, previous);
      LinesRead(lines[1..], rs[1..], next.records, next.previous);
      ReadOne(r, rs[0], next, rs[1..]);
      assert rs == [rs[0]] + rs[1..];
    }
  }

  lemma ReadOne(r: Reading, record: PlanRecord, rest: Reading, later: seq<PlanRecord>)
    requires NextRecord(r) == Good(record, rest) && ReadAll(rest) == Ok(later) && |rest.input| < |r.input|
    ensures ReadAll(r) == Ok([record] + later)
  {
    hide NextRecord;
  }

  lemma NothingToRead(lines: seq<Bytes>, records: nat, previous: Option<(nat, nat)>)
    requires lines == []
    ensures ReadAll(Reading(TextOf(lines), records, previous)) == Ok([])
  {
  }

  lemma FirstLine(lines: seq<Bytes>, rs: seq<PlanRecord>)
    requires LinesSay(lines, rs) && rs != []
    ensures |lines| == |rs| && 0 !in lines[0] && Says(lines[0], rs[0])
    ensures TextOf(lines) == lines[0] + [0, 10] + TextOf(lines[1..])
  {
    hide Says;
    assert LineSays(lines[0], rs[0]);
  }

  lemma LinesTail(lines: seq<Bytes>, rs: seq<PlanRecord>)
    requires LinesSay(lines, rs) && rs != []
    ensures LinesSay(lines[1..], rs[1..])
  {
    hide LineSays;
    forall i | 0 <= i < |lines[1..]| ensures LineSays(lines[1..][i], rs[1..][i]) {
      assert LineSays(lines[i + 1], rs[i + 1]);
    }
  }

  lemma LinesCons(line: Bytes, lines: seq<Bytes>, r: PlanRecord, rs: seq<PlanRecord>)
    requires LineSays(line, r) && LinesSay(lines, rs)
    ensures LinesSay([line] + lines, [r] + rs) && TextOf([line] + lines) == line + [0, 10] + TextOf(lines)
  {
    hide LineSays;
    assert ([line] + lines)[1..] == lines;
  }

  lemma {:induction false} ReadHasLines(r: Reading) returns (lines: seq<Bytes>)
    requires ReadAll(r).Ok?
    ensures LinesSay(lines, ReadAll(r).value) && Ordered(ReadAll(r).value, r.records, r.previous)
    ensures r.input == TextOf(lines)
    decreases |r.input|
  {
    if r.input == [] {
      lines := [];
    } else {
      ReadSteps(r);
      hide NextRecord, Placed, InOrder, Ordered, LineSays, LinesSay, Says, ReadAll;
      var line, rest := GoodHasLine(r);
      var next, rs := NextRecord(r), ReadAll(r).value;
      NextExactly(r, next.record, line, rest);
      assert LineSays(line, next.record) by {
        LineIsSaid(line, next.record);
      }
      lines := ReadHasLines(next.rest);
      LinesCons(line, lines, next.record, ReadAll(next.rest).value);
      OrderedHead(rs, rest, r.records, r.previous);
      assert rs[1..] == ReadAll(next.rest).value;
      lines := [line] + lines;
    }
  }

  lemma LineIsSaid(line: Bytes, r: PlanRecord)
    requires 0 !in line && Says(line, r)
    ensures LineSays(line, r)
  {
  }

  lemma ReadSteps(r: Reading)
    requires ReadAll(r).Ok? && r.input != []
    ensures NextRecord(r).Good? && |NextRecord(r).rest.input| < |r.input| && ReadAll(NextRecord(r).rest).Ok?
    ensures ReadAll(r).value == [NextRecord(r).record] + ReadAll(NextRecord(r).rest).value
  {
    hide ParseRecord, Find, Follows;
  }

  /** The reader accepts a file with these records exactly when it is a sequence of
      terminated lines that say them in turn, and they are in order. */
  lemma ReadsExactly(input: Bytes, rs: seq<PlanRecord>)
    ensures ReadAll(Reading(input, 0, None)) == Ok(rs) <==>
              Ordered(rs, 0, None) && exists lines: seq<Bytes> :: LinesSay(lines, rs) && input == TextOf(lines)
  {
    hide ReadAll, Ordered, LinesSay;
    if ReadAll(Reading(input, 0, None)) == Ok(rs) {
      var lines := ReadHasLines(Reading(input, 0, None));
    }
    if Ordered(rs, 0, None) && exists lines: seq<Bytes> :: LinesSay(lines, rs) && input == TextOf(lines) {
      var lines: seq<Bytes> :| LinesSay(lines, rs) && input == TextOf(lines);
      LinesRead(lines, rs, 0, None);
    }
  }

  // ------------------------------------------------- the packer's numbers follow

  predicate FollowsAt(numbers: seq<(nat, nat)>, i: nat)
    requires i < |numbers|
  {
    Follows(if i == 0 then None else Some(numbers[i - 1]), numbers[i].0, numbers[i].1)
  }

  ghost predicate Contiguous(numbers: seq<(nat, nat)>) {
    forall i :: 0 <= i < |numbers| ==> FollowsAt(numbers, i)
  }

  function LastNumber(slices: seq<seq<Entry>>): Option<(nat, nat)> {
    if slices == [] then None
    else if slices[|slices| - 1] == [] then None
    else Some((|slices| - 1, |slices[|slices| - 1]| - 1))
  }

  /** Whatever the packer prints passes the reader's contiguity check. */
  lemma {:induction false} NumbersContiguous(slices: seq<seq<Entry>>)
    requires forall i :: 0 <= i < |slices| ==> slices[i] != [] && |slices[i]| < TWO_64
    requires |slices| < TWO_64
    ensures Contiguous(Numbers(slices))
    ensures slices == [] <==> Numbers(slices) == []
    ensures slices != [] ==> Some(Numbers(slices)[|Numbers(slices)| - 1]) == LastNumber(slices)
  {
    if slices != [] {
      var n := |slices| - 1;
      NumbersContiguous(slices[..n]);
      var before, all := Numbers(slices[..n]), Numbers(slices);
      forall i | 0 <= i < |all| ensures FollowsAt(all, i) {
        if i < |before| {
          assert FollowsAt(before, i);
          assert all[i] == before[i];
        } else {
          assert all[i] == (n, i - |before|);
          if i == |before| && n > 0 {
            assert all[i - 1] == before[|before| - 1];
            assert slices[..n][n - 1] == slices[n - 1];
          }
        }
      }
    }
  }

  lemma PackedNumbersContiguous(l: Limits, entries: seq<Entry>)
    requires Reasonable(l, entries) && |entries| < TWO_64
    ensures Contiguous(Numbers(Pack(l, entries)))
  {
    PackExactly(l, entries, Pack(l, entries));
    PartsSmall(l, Pack(l, entries), entries);
    NumbersContiguous(Pack(l, entries));
  }

  lemma {:induction false} PartsSmall(l: Limits, slices: seq<seq<Entry>>, entries: seq<Entry>)
    requires Greedy(l, slices, entries)
    ensures |slices| <= |entries|
    ensures forall i :: 0 <= i < |slices| ==> slices[i] != [] && |slices[i]| <= |entries|
    decreases |slices|
  {
    hide Takes;
    if slices != [] {
      GreedyTail(l, slices, entries);
      assert WellGrown(l, slices[0]);
      PartsSmall(l, slices[1..], entries[|slices[0]|..]);
      assert slices == [slices[0]] + slices[1..];
    }
  }

  // ---------------------------------------------------------------- the object

  class PlanReader {
    var input: Bytes
    var records: nat
    var previous: Option<(nat, nat)>

    function R(): Reading
      reads this
    {
      Reading(input, records, previous)
    }

    constructor (input: Bytes)
      ensures R() == Reading(input, 0, None)
    {
      this.input, records, previous := input, 0, None;
    }

    /** The field-splitting loop: nine fields, then the start of the path. */
    method SplitFields(text: Bytes) returns (fields: seq<Bytes>, start: nat)
      requires text != []
      ensures var cut := Split(text[1..], 9);
              && fields == cut.0
              && (cut.1.None? <==> start > |text|)
              && (cut.1.Some? ==> cut.1.value == text[start..])
    {
      hide Split, Remaining;
      fields := [];
      start := 1;
      var i := 1;
      NothingCut(text);
      while i <= |text| && |fields| < 9
        invariant 1 <= start <= i <= |text| + 1 && |fields| <= 9
        invariant start <= |text| ==> i <= |text| && SLASH !in text[start..i] && Remaining(text, fields, start)
        invariant start > |text| ==> i > |text| && Split(text[1..], 9) == (fields, None)
        invariant |fields| == 9 ==> start == i
      {
        if i == |text| || text[i] == SLASH {
          CutField(text, fields, start, i);
          fields := fields + [text[start..i]];
          start := i + 1;
        } else {
          NoSlashYet(text, start, i);
        }
        i := i + 1;
      }
      if start <= |text| {
        AllCut(text, fields, start);
      }
    }

    method ParseText(text: Bytes) returns (r: Result<PlanRecord, PlanError>)
      ensures r == ParseRecord(text)
    {
      hide Split, ParseEntry;
      if CHDIR <= text {
        return Ok(Chdir(text[7..]));
      }
      if text == [] || text[0] != SLASH {
        return Err(NotARecord);
      }
      var fields, start := SplitFields(text);
      if |fields| != 9 || start > |text| {
        return Err(BadFields);
      }
      r := ParseEntry(fields, text[start..]);
    }

    /** The next record, or what is wrong with it; nothing at the end. */
    method ReadNext() returns (r: Option<Result<PlanRecord, PlanError>>)
      modifies this
      ensures match NextRecord(old(R()))
              case End => r == None
              case Bad(e) => r == Some(Err(e))
              case Good(record, rest) => r == Some(Ok(record)) && R() == rest
    {
      hide ParseRecord, Find, Follows;
      if input == [] {
        return None;
      }
      var k := Find(input, 0);
      if k + 1 >= |input| || input[k + 1] != 10 {
        return Some(Err(Unterminated));
      }
      var parsed := ParseText(input[..k]);
      if parsed.Err? {
        return Some(parsed);
      }
      if parsed.value.Chdir? {
        if records != 0 || parsed.value.dir == [] {
          return Some(Err(MisplacedChdir));
        }
      } else {
        var e := parsed.value.entry;
        if !Follows(previous, e.slice, e.fileNum) {
          return Some(Err(NotContiguous));
        }
        previous := Some((e.slice, e.fileNum));
      }
      input := input[k + 2..];
      records := records + 1;
      return Some(parsed);
    }
  }

  /** The fields cut so far, with what is still to be cut, are the whole cut. */
  ghost predicate Remaining(text: Bytes, fields: seq<Bytes>, start: nat)
    requires 1 <= start <= |text| && |fields| <= 9
  {
    var later := Split(text[start..], 9 - |fields|);
    Split(text[1..], 9) == (fields + later.0, later.1)
  }

  lemma NothingCut(text: Bytes)
    requires text != []
    ensures Remaining(text, [], 1)
  {
    assert [] + Split(text[1..], 9).0 == Split(text[1..], 9).0;
  }

  lemma AllCut(text: Bytes, fields: seq<Bytes>, start: nat)
    requires 1 <= start <= |text| && |fields| == 9 && Remaining(text, fields, start)
    ensures Split(text[1..], 9) == (fields, Some(text[start..]))
  {
    assert Split(text[start..], 0) == ([], Some(text[start..]));
    assert fields + [] == fields;
  }

  lemma NoSlashYet(text: Bytes, start: nat, i: nat)
    requires start <= i < |text| && SLASH !in text[start..i] && text[i] != SLASH
    ensures SLASH !in text[start..i + 1]
  {
    assert text[start..i + 1] == text[start..i] + [text[i]];
  }

  /** One more field is cut at the slash, or at the end of the text. */
  lemma CutField(text: Bytes, fields: seq<Bytes>, start: nat, i: nat)
    requires 1 <= start <= i <= |text| && |fields| < 9 && Remaining(text, fields, start)
    requires SLASH !in text[start..i] && (i < |text| ==> text[i] == SLASH)
    ensures i < |text| ==> Remaining(text, fields + [text[start..i]], i + 1)
    ensures i == |text| ==> Split(text[1..], 9) == (fields + [text[start..i]], None)
  {
    hide Split;
    SplitStep(text, start, i, 9 - |fields|);
    if i < |text| {
      var later := Split(text[i + 1..], 9 - |fields| - 1).0;
      assert fields + ([text[start..i]] + later) == (fields + [text[start..i]]) + later;
    }
  }

  lemma SplitStep(text: Bytes, start: nat, i: nat, need: nat)
    requires start <= i <= |text| && SLASH !in text[start..i] && (i < |text| ==> text[i] == SLASH) && need > 0
    ensures Split(text[start..], need) ==
              if i == |text| then ([text[start..i]], None)
              else ([text[start..i]] + Split(text[i + 1..], need - 1).0, Split(text[i + 1..], need - 1).1)
  {
    if i < |text| {
      assert text[start..] == text[start..i] + [SLASH] + text[i + 1..];
      FindEnds(text[start..i], text[i + 1..], SLASH);
      CutAt(text[start..i], text[i + 1..]);
    } else {
      assert text[start..] == text[start..i];
    }
  }
}
