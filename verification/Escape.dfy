// Showing arbitrary bytes: the escape keeps all information, and what it prints
// is well-formed UTF-8 without controls or characters that reorder or hide text.
module Escape {
  import opened Base

  type Bytes = seq<u8>

  const BACKSLASH: u8 := 92
  const LOWER_X: u8 := 120

  // ------------------------------------------- UTF-8, section 4 of RFC 3629

  predicate Tail(b: u8) { 0x80 <= b <= 0xBF }

  /** The bits of a byte above a fixed pattern. */
  function Bits(b: u8, pattern: int): int { b - pattern }

  /** Length of the UTF8-char at the start, by the grammar's alternatives; or 0. */
  function Utf8Length(s: Bytes): (n: nat)
    ensures n <= |s| && n <= 4
  {
    if s == [] then 0
    else if s[0] <= 0x7F then 1
    else if |s| >= 2 && 0xC2 <= s[0] <= 0xDF && Tail(s[1]) then 2
    else if |s| >= 3 && Tail(s[2])
            && (|| (s[0] == 0xE0 && 0xA0 <= s[1] <= 0xBF)
                || (0xE1 <= s[0] <= 0xEC && Tail(s[1]))
                || (s[0] == 0xED && 0x80 <= s[1] <= 0x9F)
                || (0xEE <= s[0] <= 0xEF && Tail(s[1]))) then 3
    else if |s| >= 4 && Tail(s[2]) && Tail(s[3])
            && (|| (s[0] == 0xF0 && 0x90 <= s[1] <= 0xBF)
                || (0xF1 <= s[0] <= 0xF3 && Tail(s[1]))
                || (s[0] == 0xF4 && 0x80 <= s[1] <= 0x8F)) then 4
    else 0
  }

  /** The character number, from the bits x of the table in section 3. */
  function CharacterAt(s: Bytes): nat
    requires Utf8Length(s) > 0
  {
    match Utf8Length(s)
    case 1 => s[0]
    case 2 => Bits(s[0], 0xC0) * 0x40 + Bits(s[1], 0x80)
    case 3 => Bits(s[0], 0xE0) * 0x1000 + Bits(s[1], 0x80) * 0x40 + Bits(s[2], 0x80)
    case 4 => Bits(s[0], 0xF0) * 0x4_0000 + Bits(s[1], 0x80) * 0x1000 + Bits(s[2], 0x80) * 0x40 + Bits(s[3], 0x80)
  }

  function DecodeAll(s: Bytes): Option<seq<nat>> {
    if s == [] then Some([])
    else if Utf8Length(s) == 0 then None
    else
      match DecodeAll(s[Utf8Length(s)..])
      case None => None
      case Some(rest) => Some([CharacterAt(s)] + rest)
  }

  /** Control characters: C0, delete and C1. */
  predicate Control(c: nat) { c < 0x20 || 0x7F <= c <= 0x9F }

  predicate ReordersOrHides(c: nat) {
    || c == 0xAD || c == 0x61C || c == 0x180E || c == 0xFEFF
    || 0x200B <= c <= 0x200F || 0x2028 <= c <= 0x202E || 0x2060 <= c <= 0x206F
    || 0xFFF9 <= c <= 0xFFFB || 0xE_0000 <= c <= 0xE_007F
  }

  predicate Visible(c: nat) { !Control(c) && !ReordersOrHides(c) }

  // ----------------------------------------------------------------- the code

  function LeadLength(lead: u8): nat {
    if 0xC2 <= lead <= 0xDF then 2
    else if 0xE0 <= lead <= 0xEF then 3
    else if 0xF0 <= lead <= 0xF4 then 4
    else 0
  }

  /** The lead byte's payload bits, by masking. */
  function LeadBits(lead: u8, length: nat): nat {
    if length == 2 then lead % 0x20 else if length == 3 then lead % 0x10 else lead % 0x08
  }

  /** The first n bytes folded six bits at a time; nothing on a bad continuation. */
  function Folded(s: Bytes, length: nat, n: nat): Option<nat>
    requires 1 <= n <= |s|
  {
    if n == 1 then Some(LeadBits(s[0], length))
    else
      match Folded(s, length, n - 1)
      case None => None
      case Some(c) => if s[n - 1] / 0x40 != 2 then None else Some(c * 0x40 + s[n - 1] % 0x40)
  }

  predicate Ruled(lead: u8, second: u8) {
    || (lead == 0xC2 && second < 0xA0) || (lead == 0xE0 && second < 0xA0) || (lead == 0xED && second > 0x9F)
    || (lead == 0xF0 && second < 0x90) || (lead == 0xF4 && second > 0x8F)
  }

  function DisplayableLength(s: Bytes): (n: nat)
    requires s != []
    ensures n <= |s|
  {
    var length := LeadLength(s[0]);
    if length == 0 || |s| < length then 0
    else
      match Folded(s, length, length)
      case None => 0
      case Some(c) => if Ruled(s[0], s[1]) || ReordersOrHides(c) then 0 else length
  }

  lemma FoldedIs(s: Bytes, length: nat)
    requires 2 <= length <= 4 && length <= |s|
    ensures Folded(s, length, length).Some? <==> forall i :: 1 <= i < length ==> Tail(s[i])
    ensures Folded(s, length, length).Some? ==>
              var b := LeadBits(s[0], length);
              Folded(s, length, length).value ==
                if length == 2 then b * 0x40 + Bits(s[1], 0x80)
                else if length == 3 then b * 0x1000 + Bits(s[1], 0x80) * 0x40 + Bits(s[2], 0x80)
                else b * 0x4_0000 + Bits(s[1], 0x80) * 0x1000 + Bits(s[2], 0x80) * 0x40 + Bits(s[3], 0x80)
  {
    assert Folded(s, length, 1) == Some(LeadBits(s[0], length));
    assert Tail(s[1]) <==> s[1] / 0x40 == 2;
    assert Folded(s, length, 2).Some? <==> Tail(s[1]);
    if length >= 3 {
      assert Folded(s, length, 3).Some? <==> Tail(s[1]) && Tail(s[2]);
    }
    if length == 4 {
      assert Folded(s, length, 4).Some? <==> Tail(s[1]) && Tail(s[2]) && Tail(s[3]);
    }
  }

  /** The display test is exactly the standard's grammar for a multi-byte
      character, restricted to visible characters. */
  lemma DisplayableExactly(s: Bytes)
    requires s != []
    ensures DisplayableLength(s) ==
              if Utf8Length(s) >= 2 && Visible(CharacterAt(s)) then Utf8Length(s) else 0
  {
    var length := LeadLength(s[0]);
    if length > 0 && |s| >= length {
      FoldedIs(s, length);
      hide Folded;
      if length == 2 {
        TwoBytes(s);
      } else if length == 3 {
        ThreeBytes(s);
      } else {
        FourBytes(s);
      }
    }
  }

  lemma TwoBytes(s: Bytes)
    requires |s| >= 2 && LeadLength(s[0]) == 2
    ensures Utf8Length(s) == 2 <==> Tail(s[1])
    ensures Utf8Length(s) == 2 || Utf8Length(s) == 0
    ensures Tail(s[1]) ==> CharacterAt(s) == LeadBits(s[0], 2) * 0x40 + Bits(s[1], 0x80)
    ensures Tail(s[1]) ==> (Control(CharacterAt(s)) <==> Ruled(s[0], s[1]))
  {
  }

  lemma ThreeBytes(s: Bytes)
    requires |s| >= 3 && LeadLength(s[0]) == 3
    ensures Utf8Length(s) == 3 <==> Tail(s[1]) && Tail(s[2]) && !Ruled(s[0], s[1])
    ensures Utf8Length(s) == 3 || Utf8Length(s) == 0
    ensures Utf8Length(s) == 3 ==>
              CharacterAt(s) == LeadBits(s[0], 3) * 0x1000 + Bits(s[1], 0x80) * 0x40 + Bits(s[2], 0x80)
              && !Control(CharacterAt(s))
  {
  }

  lemma FourBytes(s: Bytes)
    requires |s| >= 4 && LeadLength(s[0]) == 4
    ensures Utf8Length(s) == 4 <==> Tail(s[1]) && Tail(s[2]) && Tail(s[3]) && !Ruled(s[0], s[1])
    ensures Utf8Length(s) == 4 || Utf8Length(s) == 0
    ensures Utf8Length(s) == 4 ==>
              CharacterAt(s) ==
                LeadBits(s[0], 4) * 0x4_0000 + Bits(s[1], 0x80) * 0x1000 + Bits(s[2], 0x80) * 0x40 + Bits(s[3], 0x80)
              && !Control(CharacterAt(s))
  {
  }

  function Hex(n: nat): u8
    requires n < 16
  {
    if n < 10 then 48 + n else 87 + n
  }

  function UnHex(c: u8): nat {
    if 48 <= c <= 57 then c - 48 else if 97 <= c <= 102 then c - 87 else 0
  }

  /** How much is consumed and what is shown for it. */
  function Segment(s: Bytes): (r: (nat, Bytes))
    requires s != []
    ensures 0 < r.0 <= |s|
  {
    var b := s[0];
    if b == BACKSLASH then (1, [BACKSLASH, BACKSLASH])
    else if 0x20 <= b <= 0x7E then (1, [b])
    else if DisplayableLength(s) > 0 then (DisplayableLength(s), s[..DisplayableLength(s)])
    else (1, [BACKSLASH, LOWER_X, Hex(b / 16), Hex(b % 16)])
  }

  function Escape(s: Bytes): Bytes {
    if s == [] then [] else Segment(s).1 + Escape(s[Segment(s).0..])
  }

  // ---------------------------------------------------------- nothing is lost

  function Unescape(s: Bytes): Bytes
    decreases |s|
  {
    if s == [] then []
    else if s[0] != BACKSLASH then [s[0]] + Unescape(s[1..])
    else if |s| >= 4 && s[1] == LOWER_X then [(UnHex(s[2]) * 16 + UnHex(s[3])) % 256] + Unescape(s[4..])
    else [BACKSLASH] + Unescape(if |s| >= 2 then s[2..] else [])
  }

  lemma PlainByte(s: Bytes)
    requires s != [] && s[0] != BACKSLASH
    ensures Unescape(s) == [s[0]] + Unescape(s[1..])
  {
  }

  lemma {:induction false} PlainRun(seg: Bytes, rest: Bytes)
    requires BACKSLASH !in seg
    ensures Unescape(seg + rest) == seg + Unescape(rest)
  {
    hide Unescape;
    if seg == [] {
      assert seg + rest == rest;
    } else {
      PlainRun(seg[1..], rest);
      assert (seg + rest)[1..] == seg[1..] + rest;
      assert seg == [seg[0]] + seg[1..];
      PlainByte(seg + rest);
    }
  }

  /** Every byte string can be recovered from what is shown for it. */
  lemma {:induction false} EscapeLosesNothing(s: Bytes)
    ensures Unescape(Escape(s)) == s
    decreases |s|
  {
    if s != [] {
      var n := Segment(s).0;
      var rest := Escape(s[n..]);
      EscapeLosesNothing(s[n..]);
      assert s == s[..n] + s[n..];
      SegmentBack(s, rest);
    }
  }

  lemma EscapedBack(b: u8, rest: Bytes)
    ensures Unescape([BACKSLASH, BACKSLASH] + rest) == [BACKSLASH] + Unescape(rest)
    ensures Unescape([BACKSLASH, LOWER_X, Hex(b / 16), Hex(b % 16)] + rest) == [b] + Unescape(rest)
  {
    var twice, hex := [BACKSLASH, BACKSLASH] + rest, [BACKSLASH, LOWER_X, Hex(b / 16), Hex(b % 16)] + rest;
    assert twice[2..] == rest && hex[4..] == rest;
    assert hex[2] == Hex(b / 16) && hex[3] == Hex(b % 16);
  }

  lemma SegmentBack(s: Bytes, rest: Bytes)
    requires s != []
    ensures Unescape(Segment(s).1 + rest) == s[..Segment(s).0] + Unescape(rest)
  {
    hide Unescape, Utf8Length, CharacterAt, Visible;
    var b := s[0];
    assert s[..1] == [b];
    if b == BACKSLASH {
      EscapedBack(b, rest);
    } else if 0x20 <= b <= 0x7E {
      PlainRun([b], rest);
    } else {
      hide DisplayableLength;
      if DisplayableLength(s) > 0 {
        NoBackslash(s);
        PlainRun(s[..DisplayableLength(s)], rest);
      } else {
        EscapedBack(b, rest);
      }
    }
  }

  lemma NoBackslash(s: Bytes)
    requires s != [] && DisplayableLength(s) > 0
    ensures BACKSLASH !in s[..DisplayableLength(s)]
  {
    hide DisplayableLength;
    DisplayableExactly(s);
  }

  // --------------------------------------------------- what is shown is visible

  ghost predicate AllVisible(cs: seq<nat>) {
    forall i :: 0 <= i < |cs| ==> Visible(cs[i])
  }

  /** A text of visible characters, in well-formed UTF-8. */
  ghost predicate Shown(s: Bytes) {
    DecodeAll(s).Some? && AllVisible(DecodeAll(s).value)
  }

  lemma SameHead(seg: Bytes, rest: Bytes)
    requires seg != [] && Utf8Length(seg) == |seg|
    ensures Utf8Length(seg + rest) == |seg| && CharacterAt(seg + rest) == CharacterAt(seg)
  {
  }

  lemma ShownStep(s: Bytes)
    requires Utf8Length(s) > 0 && Visible(CharacterAt(s)) && Shown(s[Utf8Length(s)..])
    ensures Shown(s)
  {
    hide Visible, CharacterAt, Utf8Length;
  }

  lemma ShowCharacter(seg: Bytes, rest: Bytes)
    requires seg != [] && Utf8Length(seg) == |seg| && Visible(CharacterAt(seg)) && Shown(rest)
    ensures Shown(seg + rest)
  {
    hide Visible, CharacterAt, Utf8Length, Shown;
    SameHead(seg, rest);
    var all := seg + rest;
    assert all[|seg|..] == rest;
    ShownStep(all);
  }

  lemma {:induction false} ShowAscii(seg: Bytes, rest: Bytes)
    requires forall i :: 0 <= i < |seg| ==> 0x20 <= seg[i] <= 0x7E
    requires Shown(rest)
    ensures Shown(seg + rest)
  {
    if seg == [] {
      assert seg + rest == rest;
    } else {
      ShowAscii(seg[1..], rest);
      ShowCharacter([seg[0]], seg[1..] + rest);
      assert seg + rest == [seg[0]] + (seg[1..] + rest);
    }
  }

  lemma SegmentShown(s: Bytes, rest: Bytes)
    requires s != [] && Shown(rest)
    ensures Shown(Segment(s).1 + rest)
  {
    hide Shown, DecodeAll;
    if s[0] != BACKSLASH && !(0x20 <= s[0] <= 0x7E) && DisplayableLength(s) > 0 {
      DisplayableExactly(s);
      var seg := s[..DisplayableLength(s)];
      assert Utf8Length(seg) == |seg| && CharacterAt(seg) == CharacterAt(s);
      ShowCharacter(seg, rest);
    } else {
      ShowAscii(Segment(s).1, rest);
    }
  }

  /** What is shown for any byte string is well-formed UTF-8 with no control
      character and none that reorders or hides text, across every boundary
      between one piece of the input and the next. */
  lemma {:induction false} EscapeShowsOnlyVisible(s: Bytes)
    ensures Shown(Escape(s))
    decreases |s|
  {
    if s != [] {
      EscapeShowsOnlyVisible(s[Segment(s).0..]);
      SegmentShown(s, Escape(s[Segment(s).0..]));
    }
  }

  // ------------------------------------------------- what is shown as it is

  const HEX_DIGITS: string := "0123456789abcdef"

  /** At every position: a visible character other than the backslash is shown as
      itself, whole; a backslash is doubled; of anything else one byte is shown, by
      its two hexadecimal digits. */
  lemma SegmentExactly(s: Bytes)
    requires s != []
    ensures var n := Utf8Length(s);
            if n > 0 && Visible(CharacterAt(s)) && CharacterAt(s) != 92 then Segment(s) == (n, s[..n])
            else if s[0] == 92 then Segment(s) == (1, [92, 92])
            else
              && Segment(s).0 == 1 && |Segment(s).1| == 4 && Segment(s).1[..2] == [92, 120]
              && Segment(s).1[2] as char == HEX_DIGITS[s[0] / 16] && Segment(s).1[3] as char == HEX_DIGITS[s[0] % 16]
  {
    hide DisplayableLength, ReordersOrHides;
    DisplayableExactly(s);
    HexIs(s[0] / 16);
    HexIs(s[0] % 16);
    if s[0] <= 0x7F {
      PlainVisible(s);
    } else if Utf8Length(s) > 0 {
      NotBackslash(s);
    }
  }

  lemma HexIs(n: nat)
    requires n < 16
    ensures Hex(n) as char == HEX_DIGITS[n]
  {
  }

  lemma PlainVisible(s: Bytes)
    requires s != [] && s[0] <= 0x7F
    ensures Utf8Length(s) == 1 && CharacterAt(s) == s[0] && s[..1] == [s[0]]
    ensures Visible(s[0]) <==> 0x20 <= s[0] <= 0x7E
  {
  }

  lemma NotBackslash(s: Bytes)
    requires s != [] && s[0] > 0x7F && Utf8Length(s) > 0
    ensures Utf8Length(s) >= 2 && CharacterAt(s) != 92
  {
  }

  /** Nothing gets shorter, and a text with a backslash gets longer. */
  lemma {:induction false} EscapeGrows(s: Bytes)
    ensures |Escape(s)| >= |s|
    ensures BACKSLASH in s ==> |Escape(s)| > |s|
    decreases |s|
  {
    if s != [] {
      hide Segment, Utf8Length, Visible, CharacterAt;
      var n := Segment(s).0;
      EscapeGrows(s[n..]);
      SegmentGrows(s);
      assert s == s[..n] + s[n..];
    }
  }

  lemma SegmentGrows(s: Bytes)
    requires s != []
    ensures |Segment(s).1| >= Segment(s).0
    ensures BACKSLASH in s[..Segment(s).0] ==> |Segment(s).1| > Segment(s).0
  {
    hide DisplayableLength;
    if DisplayableLength(s) > 0 {
      NoBackslash(s);
    }
  }

  lemma {:induction false} ShownStays(s: Bytes)
    requires Shown(s) && BACKSLASH !in s
    ensures Escape(s) == s
    decreases |s|
  {
    if s != [] {
      hide Segment, Visible, CharacterAt, Utf8Length, Escape, Shown, DecodeAll;
      var n := Utf8Length(s);
      ShownHead(s);
      SegmentExactly(s);
      HeadIsNoBackslash(s);
      StaysStep(s, n);
      assert BACKSLASH !in s[n..];
      ShownStays(s[n..]);
    }
  }

  lemma StaysStep(s: Bytes, n: nat)
    requires s != [] && n <= |s| && Segment(s) == (n, s[..n])
    ensures Escape(s[n..]) == s[n..] ==> Escape(s) == s
  {
    hide Segment;
    assert s == s[..n] + s[n..];
  }

  lemma HeadIsNoBackslash(s: Bytes)
    requires s != [] && Utf8Length(s) > 0 && s[0] != BACKSLASH
    ensures CharacterAt(s) != BACKSLASH
  {
    if s[0] <= 0x7F {
      PlainVisible(s);
    } else {
      NotBackslash(s);
    }
  }

  lemma ShownHead(s: Bytes)
    requires Shown(s) && s != []
    ensures Utf8Length(s) > 0 && Visible(CharacterAt(s)) && Shown(s[Utf8Length(s)..])
  {
    hide Visible, CharacterAt, Utf8Length;
    var cs, rest := DecodeAll(s).value, DecodeAll(s[Utf8Length(s)..]).value;
    assert cs[0] == CharacterAt(s);
    forall i | 0 <= i < |rest| ensures Visible(rest[i]) {
      assert rest[i] == cs[i + 1];
    }
  }

  /** A text is shown unchanged exactly when it is well-formed, every character of
      it is visible, and it has no backslash. */
  lemma EscapeIdentityExactly(s: Bytes)
    ensures Escape(s) == s <==> Shown(s) && BACKSLASH !in s
  {
    hide Escape, Shown;
    EscapeGrows(s);
    EscapeShowsOnlyVisible(s);
    if Shown(s) && BACKSLASH !in s {
      ShownStays(s);
    }
  }

  // ------------------------------------------------------------------ the loops

  method DisplayableUtf8Length(s: Bytes) returns (n: nat)
    requires s != []
    ensures n == DisplayableLength(s)
  {
    var length := LeadLength(s[0]);
    if length == 0 || |s| < length {
      return 0;
    }
    var c: nat := LeadBits(s[0], length);
    var i := 1;
    while i < length
      invariant 1 <= i <= length
      invariant Folded(s, length, i) == Some(c)
    {
      if s[i] / 0x40 != 2 {
        FoldStops(s, length, i + 1, length);
        return 0;
      }
      c := c * 0x40 + s[i] % 0x40;
      i := i + 1;
    }
    if Ruled(s[0], s[1]) {
      return 0;
    }
    return if ReordersOrHides(c) then 0 else length;
  }

  lemma {:induction false} FoldStops(s: Bytes, length: nat, m: nat, n: nat)
    requires 1 <= m <= n <= |s| && Folded(s, length, m).None?
    ensures Folded(s, length, n).None?
    decreases n
  {
    if m < n {
      FoldStops(s, length, m, n - 1);
    }
  }

  method ShowNext(s: Bytes, i: nat) returns (n: nat, shown: Bytes)
    requires i < |s|
    ensures (n, shown) == Segment(s[i..])
  {
    hide DisplayableLength;
    var b := s[i];
    if b == BACKSLASH {
      return 1, [BACKSLASH, BACKSLASH];
    }
    if 0x20 <= b <= 0x7E {
      return 1, [b];
    }
    var length := DisplayableUtf8Length(s[i..]);
    if length > 0 {
      assert s[i..i + length] == s[i..][..length];
      return length, s[i..i + length];
    }
    return 1, [BACKSLASH, LOWER_X, Hex(b / 16), Hex(b % 16)];
  }

  method EscapeBytesForDiagnostic(s: Bytes) returns (escaped: Bytes)
    ensures escaped == Escape(s)
  {
    hide Segment;
    escaped := [];
    var i := 0;
    while i < |s|
      invariant 0 <= i <= |s|
      invariant escaped + Escape(s[i..]) == Escape(s)
    {
      var n, shown := ShowNext(s, i);
      assert s[i..][n..] == s[i + n..];
      assert escaped + (shown + Escape(s[i + n..])) == (escaped + shown) + Escape(s[i + n..]);
      escaped := escaped + shown;
      i := i + n;
    }
    assert escaped + [] == escaped;
  }
}
