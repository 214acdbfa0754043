// Slice packing: the streaming packer, and the one partition it produces.
module Packing {
  import opened Base

  const MAX_U64: u64 := TWO_64 - 1

  /** An entry by what the packer looks at: its size and the bytes its metadata
      occupies while it is buffered. */
  datatype Entry = Entry(id: nat, size: u64, footprint: u64)

  datatype Limits = Limits(sliceSize: u64, metadataBudget: u64)

  function Sizes(entries: seq<Entry>): nat {
    if entries == [] then 0 else Sizes(entries[..|entries| - 1]) + entries[|entries| - 1].size
  }

  function Footprints(entries: seq<Entry>): nat {
    if entries == [] then 0 else Footprints(entries[..|entries| - 1]) + entries[|entries| - 1].footprint
  }

  // ------------------------------------------------------- the declared partition

  /** A slice is full by content or by buffered metadata. */
  predicate Full(l: Limits, slice: seq<Entry>) {
    Sizes(slice) >= l.sliceSize || Footprints(slice) >= l.metadataBudget
  }

  /** A size of at most one and a half slices that a word can hold. */
  predicate WithinHalf(l: Limits, size: nat) {
    2 * size <= 3 * l.sliceSize && size < TWO_64
  }

  /** A slice may take one more entry. */
  predicate Takes(l: Limits, slice: seq<Entry>, e: Entry) {
    slice == [] || (!Full(l, slice) && WithinHalf(l, Sizes(slice) + e.size))
  }

  /** Grown entry by entry within the limits. */
  ghost predicate WellGrown(l: Limits, slice: seq<Entry>) {
    slice != [] && forall k :: 0 <= k < |slice| ==> Takes(l, slice[..k], slice[k])
  }

  /** A partition in order whose slices are well grown, and closed only because
      they are full or because the next entry would pass the limit. */
  ghost predicate Greedy(l: Limits, slices: seq<seq<Entry>>, entries: seq<Entry>) {
    && Concat(slices) == entries
    && (forall i :: 0 <= i < |slices| ==> WellGrown(l, slices[i]))
    && (forall i :: 0 < i < |slices| ==> !Takes(l, slices[i - 1], slices[i][0]))
  }

  /** In a greedy partition every slice with more than one entry stays within one
      and a half slice sizes, and no per-slice sum wraps 64 bits. */
  lemma SliceBounds(l: Limits, slice: seq<Entry>)
    requires WellGrown(l, slice)
    ensures |slice| > 1 ==> 2 * Sizes(slice) <= 3 * l.sliceSize
    ensures Sizes(slice) < TWO_64
  {
    var n := |slice| - 1;
    assert Takes(l, slice[..n], slice[n]);
    if n == 0 {
      assert Sizes(slice[..n]) == 0;
    }
  }

  // ---------------------------------------------------------------- the packer

  datatype Packer = Packer(closed: seq<seq<Entry>>, open: seq<Entry>, bytes: u64, held: u64)

  const EmptyPacker: Packer := Packer([], [], 0, 0)

  /** One and a half slices, saturating. */
  function PreaddLimit(l: Limits): u64 {
    var half := l.sliceSize / 2;
    if l.sliceSize > MAX_U64 - half then MAX_U64 else l.sliceSize + half
  }

  /** The saturated word sum decides the limit exactly. */
  lemma LimitExactly(l: Limits, size: nat)
    ensures size <= PreaddLimit(l) <==> WithinHalf(l, size)
  {
  }

  /** On 64-bit words; the second comparison is reached only when it cannot wrap. */
  predicate ShouldStartNext(l: Limits, p: Packer, e: Entry) {
    && p.open != []
    && (p.bytes > PreaddLimit(l) || e.size > (PreaddLimit(l) - p.bytes) % TWO_64)
  }

  function CloseSlice(p: Packer): Packer {
    Packer(p.closed + [p.open], [], 0, 0)
  }

  function Append(p: Packer, e: Entry): Packer {
    Packer(p.closed, p.open + [e], (p.bytes + e.size) % TWO_64, (p.held + e.footprint) % TWO_64)
  }

  function CloseIfFull(l: Limits, p: Packer): Packer {
    if p.held >= l.metadataBudget || p.bytes >= l.sliceSize then CloseSlice(p) else p
  }

  function Add(l: Limits, p: Packer, e: Entry): Packer {
    CloseIfFull(l, Append(if ShouldStartNext(l, p, e) then CloseSlice(p) else p, e))
  }

  function AddAll(l: Limits, entries: seq<Entry>): Packer {
    if entries == [] then EmptyPacker else Add(l, AddAll(l, entries[..|entries| - 1]), entries[|entries| - 1])
  }

  function AllSlices(p: Packer): seq<seq<Entry>> {
    if p.open == [] then p.closed else p.closed + [p.open]
  }

  /** What the packer produces for a whole scan. */
  function Pack(l: Limits, entries: seq<Entry>): seq<seq<Entry>> {
    AllSlices(AddAll(l, entries))
  }

  /** Each entry's metadata fits beside a full budget in 64 bits. */
  ghost predicate Reasonable(l: Limits, entries: seq<Entry>) {
    forall i :: 0 <= i < |entries| ==> l.metadataBudget + entries[i].footprint < TWO_64
  }

  ghost predicate PackerInv(l: Limits, p: Packer, entries: seq<Entry>) {
    && Greedy(l, AllSlices(p), entries)
    && p.bytes == Sizes(p.open) && p.held == Footprints(p.open)
    && (p.open != [] ==> !Full(l, p.open))
    && (p.open == [] && p.closed != [] ==> Full(l, p.closed[|p.closed| - 1]))
  }

  lemma SumsSnoc(s: seq<Entry>, e: Entry)
    ensures Sizes(s + [e]) == Sizes(s) + e.size && Footprints(s + [e]) == Footprints(s) + e.footprint
  {
    assert (s + [e])[..|s|] == s;
  }

  lemma GrownSnoc(l: Limits, s: seq<Entry>, e: Entry)
    requires Takes(l, s, e) && (s != [] ==> WellGrown(l, s))
    ensures WellGrown(l, s + [e])
  {
    var t := s + [e];
    forall k | 0 <= k < |t| ensures Takes(l, t[..k], t[k]) {
      if k < |s| {
        assert t[..k] == s[..k] && t[k] == s[k];
      } else {
        assert t[..k] == s;
      }
    }
  }

  /** The packer's word comparison decides exactly whether the slice takes the
      entry; nothing wraps. */
  lemma StartIsNotTaking(l: Limits, p: Packer, entries: seq<Entry>, e: Entry)
    requires PackerInv(l, p, entries) && p.open != []
    ensures ShouldStartNext(l, p, e) <==> !Takes(l, p.open, e)
    ensures p.bytes < l.sliceSize <= PreaddLimit(l)
  {
    PreaddFits(l);
    LimitExactly(l, p.bytes + e.size);
    hide Sizes, Footprints, Greedy, PreaddLimit, WithinHalf, ShouldStartNext, Concat;
    StartCompares(l, p, e);
  }

  /** No word of the comparison wraps below the limit. */
  lemma StartCompares(l: Limits, p: Packer, e: Entry)
    requires p.open != [] && p.bytes <= PreaddLimit(l) < TWO_64
    ensures ShouldStartNext(l, p, e) <==> p.bytes + e.size > PreaddLimit(l)
  {
    hide PreaddLimit;
    SmallWord(PreaddLimit(l) - p.bytes);
  }

  lemma GreedyOpen(l: Limits, slices: seq<seq<Entry>>, entries: seq<Entry>, e: Entry)
    requires Greedy(l, slices, entries)
    requires slices != [] ==> !Takes(l, slices[|slices| - 1], e)
    ensures Greedy(l, slices + [[e]], entries + [e])
  {
    hide Takes, PreaddLimit;
    ConcatAppend(slices, [[e]]);
    ConcatOne([e]);
    var longer := slices + [[e]];
    TakesFirst(l, e);
    GrownSnoc(l, [], e);
    assert [] + [e] == [e];
    forall i | 0 <= i < |longer| ensures WellGrown(l, longer[i]) {
    }
    forall i | 0 < i < |longer| ensures !Takes(l, longer[i - 1], longer[i][0]) {
      if i < |slices| {
        assert longer[i] == slices[i];
      }
    }
  }

  lemma TakesFirst(l: Limits, e: Entry)
    ensures Takes(l, [], e)
  {
  }

  lemma GreedyExtend(l: Limits, slices: seq<seq<Entry>>, last: seq<Entry>, entries: seq<Entry>, e: Entry)
    requires Greedy(l, slices + [last], entries) && Takes(l, last, e)
    ensures Greedy(l, slices + [last + [e]], entries + [e])
  {
    hide Takes, PreaddLimit;
    var before, after := slices + [last], slices + [last + [e]];
    ConcatAppend(slices, [last]);
    ConcatAppend(slices, [last + [e]]);
    ConcatOne(last);
    ConcatOne(last + [e]);
    assert before[|slices|] == last;
    LastGrown(l, before, entries, |slices|);
    GrownSnoc(l, last, e);
    forall i | 0 <= i < |after| ensures WellGrown(l, after[i]) {
      if i < |slices| {
        assert after[i] == before[i];
      }
    }
    forall i | 0 < i < |after| ensures !Takes(l, after[i - 1], after[i][0]) {
      assert after[i - 1] == before[i - 1] && after[i][0] == before[i][0];
    }
  }

  lemma LastGrown(l: Limits, slices: seq<seq<Entry>>, entries: seq<Entry>, i: nat)
    requires Greedy(l, slices, entries) && i < |slices|
    ensures WellGrown(l, slices[i]) && slices[i] != []
  {
  }

  /** When a new slice is started the last one could not have taken the entry. */
  lemma LastRefuses(l: Limits, p: Packer, entries: seq<Entry>, e: Entry)
    requires PackerInv(l, p, entries) && (p.open == [] || ShouldStartNext(l, p, e))
    ensures AllSlices(p) != [] ==> !Takes(l, AllSlices(p)[|AllSlices(p)| - 1], e)
  {
    hide Sizes, Footprints, Full;
    if p.open != [] {
      StartIsNotTaking(l, p, entries, e);
    } else if p.closed != [] {
      LastGrown(l, p.closed, entries, |p.closed| - 1);
    }
  }

  lemma AddGreedy(l: Limits, p: Packer, entries: seq<Entry>, e: Entry)
    requires PackerInv(l, p, entries)
    ensures Greedy(l, AllSlices(Add(l, p, e)), entries + [e])
  {
    hide Greedy, Sizes, Footprints, PreaddLimit, Takes, Full;
    if p.open == [] || ShouldStartNext(l, p, e) {
      LastRefuses(l, p, entries, e);
      assert [] + [e] == [e];
      GreedyOpen(l, AllSlices(p), entries, e);
    } else {
      StartIsNotTaking(l, p, entries, e);
      GreedyExtend(l, p.closed, p.open, entries, e);
    }
  }

  /** The slice that the entry ends up in. */
  function Grown(l: Limits, p: Packer, e: Entry): seq<Entry> {
    if ShouldStartNext(l, p, e) then [e] else p.open + [e]
  }

  lemma SmallWord(n: nat)
    requires n < TWO_64
    ensures n % TWO_64 == n
  {
  }

  lemma AppendIs(p: Packer, e: Entry)
    requires p.bytes == Sizes(p.open) && p.held == Footprints(p.open)
    requires p.bytes + e.size < TWO_64 && p.held + e.footprint < TWO_64
    ensures Append(p, e) == Packer(p.closed, p.open + [e], Sizes(p.open + [e]), Footprints(p.open + [e]))
  {
    hide Sizes, Footprints;
    SmallWord(p.bytes + e.size);
    SmallWord(p.held + e.footprint);
    SumsSnoc(p.open, e);
  }

  lemma ClosedIs(l: Limits, p: Packer)
    requires p.bytes == Sizes(p.open) && p.held == Footprints(p.open)
    ensures CloseIfFull(l, p) == if Full(l, p.open) then CloseSlice(p) else p
  {
  }

  /** An entry the slice takes makes no sum wrap. */
  lemma TakenFits(l: Limits, p: Packer, entries: seq<Entry>, e: Entry)
    requires PackerInv(l, p, entries) && p.open != [] && !ShouldStartNext(l, p, e)
    requires l.metadataBudget + e.footprint < TWO_64
    ensures p.bytes + e.size < TWO_64 && p.held + e.footprint < TWO_64
  {
    StartIsNotTaking(l, p, entries, e);
    PreaddFits(l);
    hide Greedy, Sizes, Footprints, PreaddLimit, ShouldStartNext;
  }

  /** No sum wraps: the words are the exact sums of the slice. */
  lemma AddIs(l: Limits, p: Packer, entries: seq<Entry>, e: Entry)
    requires PackerInv(l, p, entries) && l.metadataBudget + e.footprint < TWO_64
    ensures var slice := Grown(l, p, e);
            var closed := if ShouldStartNext(l, p, e) then p.closed + [p.open] else p.closed;
            Add(l, p, e) == if Full(l, slice) then Packer(closed + [slice], [], 0, 0)
                            else Packer(closed, slice, Sizes(slice), Footprints(slice))
  {
    NoSums();
    var q := if ShouldStartNext(l, p, e) then CloseSlice(p) else p;
    if p.open != [] && !ShouldStartNext(l, p, e) {
      TakenFits(l, p, entries, e);
    }
    hide Greedy, Sizes, Footprints, PreaddLimit, ShouldStartNext, Append, CloseIfFull, Full;
    assert [] + [e] == [e];
    AppendIs(q, e);
    ClosedIs(l, Append(q, e));
  }

  lemma AddKeeps(l: Limits, p: Packer, entries: seq<Entry>, e: Entry)
    requires PackerInv(l, p, entries) && l.metadataBudget + e.footprint < TWO_64
    ensures PackerInv(l, Add(l, p, e), entries + [e])
  {
    AddGreedy(l, p, entries, e);
    AddIs(l, p, entries, e);
    NoSums();
    hide Greedy, Sizes, Footprints, ShouldStartNext, Add, Full;
  }

  lemma PreaddFits(l: Limits)
    ensures l.sliceSize <= PreaddLimit(l) < TWO_64
  {
  }

  lemma NoSums()
    ensures Sizes([]) == 0 && Footprints([]) == 0
  {
  }

  lemma {:induction false} AddAllKeeps(l: Limits, entries: seq<Entry>)
    requires Reasonable(l, entries)
    ensures PackerInv(l, AddAll(l, entries), entries)
  {
    hide Add, PackerInv;
    if entries == [] {
      StartsPacked(l);
    } else {
      var n := |entries| - 1;
      AddAllKeeps(l, entries[..n]);
      AddKeeps(l, AddAll(l, entries[..n]), entries[..n], entries[n]);
      assert entries[..n] + [entries[n]] == entries;
    }
  }

  lemma StartsPacked(l: Limits)
    ensures PackerInv(l, EmptyPacker, [])
  {
  }

  // ---------------------------------------------------------------- uniqueness

  /** The first slice ends at the first entry that it does not take. */
  predicate EndsAt(l: Limits, entries: seq<Entry>, n: nat) {
    && n <= |entries|
    && (forall k :: 0 <= k < n ==> Takes(l, entries[..k], entries[k]))
    && (n < |entries| ==> !Takes(l, entries[..n], entries[n]))
  }

  lemma FirstEndsAt(l: Limits, slices: seq<seq<Entry>>, entries: seq<Entry>)
    requires Greedy(l, slices, entries) && slices != []
    ensures EndsAt(l, entries, |slices[0]|)
  {
    hide Takes;
    var first, rest := slices[0], slices[1..];
    assert entries == first + Concat(rest);
    forall k | 0 <= k < |first| ensures Takes(l, entries[..k], entries[k]) {
      assert Takes(l, first[..k], first[k]);
      assert entries[..k] == first[..k];
    }
    if rest != [] {
      assert WellGrown(l, slices[1]) && Concat(rest) == slices[1] + Concat(rest[1..]);
      assert entries[..|first|] == first && entries[|first|] == slices[1][0];
      assert !Takes(l, slices[1 - 1], slices[1][0]);
    }
  }

  lemma OneEnd(l: Limits, entries: seq<Entry>, m: nat, n: nat)
    requires EndsAt(l, entries, m) && EndsAt(l, entries, n)
    ensures m == n
  {
    hide Takes;
  }

  lemma GreedyTail(l: Limits, slices: seq<seq<Entry>>, entries: seq<Entry>)
    requires Greedy(l, slices, entries) && slices != []
    ensures |slices[0]| <= |entries| && slices[0] == entries[..|slices[0]|]
    ensures Greedy(l, slices[1..], entries[|slices[0]|..])
  {
    hide Takes;
    var rest := slices[1..];
    assert entries == slices[0] + Concat(rest);
    assert Concat(rest) == entries[|slices[0]|..];
    forall i | 0 <= i < |rest| ensures WellGrown(l, rest[i]) {
      assert rest[i] == slices[i + 1];
    }
    forall i | 0 < i < |rest| ensures !Takes(l, rest[i - 1], rest[i][0]) {
      assert rest[i] == slices[i + 1] && rest[i - 1] == slices[i + 1 - 1];
    }
  }

  lemma GreedyEmpty(l: Limits, slices: seq<seq<Entry>>, entries: seq<Entry>)
    requires Greedy(l, slices, entries)
    ensures slices == [] <==> entries == []
  {
    if slices != [] {
      assert WellGrown(l, slices[0]);
    }
  }

  lemma {:induction false} GreedyUnique(l: Limits, A: seq<seq<Entry>>, B: seq<seq<Entry>>, entries: seq<Entry>)
    requires Greedy(l, A, entries) && Greedy(l, B, entries)
    ensures A == B
    decreases |A|
  {
    hide Greedy;
    GreedyEmpty(l, A, entries);
    GreedyEmpty(l, B, entries);
    if A != [] {
      FirstEndsAt(l, A, entries);
      FirstEndsAt(l, B, entries);
      OneEnd(l, entries, |A[0]|, |B[0]|);
      GreedyTail(l, A, entries);
      GreedyTail(l, B, entries);
      GreedyUnique(l, A[1..], B[1..], entries[|A[0]|..]);
      assert A == [A[0]] + A[1..] && B == [B[0]] + B[1..];
    }
  }

  /** The packer produces exactly the one greedy partition of the scanned entries. */
  lemma PackExactly(l: Limits, entries: seq<Entry>, slices: seq<seq<Entry>>)
    requires Reasonable(l, entries)
    ensures slices == Pack(l, entries) <==> Greedy(l, slices, entries)
  {
    AddAllKeeps(l, entries);
    if Greedy(l, slices, entries) {
      GreedyUnique(l, slices, Pack(l, entries), entries);
    }
  }

  // ------------------------------------------------------------- the slice numbers

  /** The (slice, file) numbers printed for the slices, in order. */
  function Numbers(slices: seq<seq<Entry>>): seq<(nat, nat)> {
    if slices == [] then []
    else
      var n := |slices| - 1;
      Numbers(slices[..n]) + seq(|slices[n]|, j => (n, j))
  }

  lemma {:induction false} NumbersLength(slices: seq<seq<Entry>>)
    ensures |Numbers(slices)| == |Concat(slices)|
  {
    if slices != [] {
      var n := |slices| - 1;
      NumbersLength(slices[..n]);
      ConcatAppend(slices[..n], [slices[n]]);
      ConcatOne(slices[n]);
      assert slices == slices[..n] + [slices[n]];
    }
  }

  /** The j-th entry of slice i is printed with exactly those two numbers, at its
      own place in the order of the scan. */
  lemma {:induction false} NumbersAt(slices: seq<seq<Entry>>, i: nat, j: nat)
    requires i < |slices| && j < |slices[i]|
    ensures var k := |Concat(slices[..i])| + j;
            && k < |Numbers(slices)| == |Concat(slices)|
            && Numbers(slices)[k] == (i, j) && Concat(slices)[k] == slices[i][j]
    decreases |slices|
  {
    var n := |slices| - 1;
    NumbersLength(slices);
    NumbersLength(slices[..n]);
    ConcatAppend(slices[..n], [slices[n]]);
    ConcatOne(slices[n]);
    assert slices == slices[..n] + [slices[n]];
    if i < n {
      NumbersAt(slices[..n], i, j);
      assert slices[..n][..i] == slices[..i];
    }
  }

  // ---------------------------------------------------------------- the object

  class SlicePacker {
    const limits: Limits
    var emitted: seq<seq<Entry>>
    var printed: seq<(nat, nat)>
    var open: seq<Entry>
    var bytes: u64
    var held: u64

    function P(): Packer
      reads this
    {
      Packer(emitted, open, bytes, held)
    }

    ghost predicate Valid()
      reads this
    {
      printed == Numbers(emitted)
    }

    constructor (limits: Limits)
      ensures Valid() && this.limits == limits && P() == EmptyPacker
    {
      this.limits := limits;
      emitted, printed, open, bytes, held := [], [], [], 0, 0;
    }

    /** Prints the open slice, record by record, and starts a new one. */
    method EmitSlice()
      requires Valid()
      modifies this
      ensures Valid() && P() == CloseSlice(old(P()))
    {
      var number := |emitted|;
      var lines: seq<(nat, nat)> := [];
      var i := 0;
      while i < |open|
        invariant 0 <= i <= |open| && unchanged(this)
        invariant |lines| == i && forall j :: 0 <= j < i ==> lines[j] == (number, j)
      {
        lines := lines + [(number, i)];
        i := i + 1;
      }
      assert (emitted + [open])[..number] == emitted;
      printed := printed + lines;
      emitted := emitted + [open];
      open, bytes, held := [], 0, 0;
    }

    method AppendEntry(e: Entry)
      modifies this`open, this`bytes, this`held
      ensures P() == Append(old(P()), e)
    {
      open := open + [e];
      bytes := (bytes + e.size) % TWO_64;
      held := (held + e.footprint) % TWO_64;
    }

    method AddToSlice(e: Entry)
      requires Valid()
      modifies this
      ensures Valid() && P() == Add(limits, old(P()), e)
    {
      hide ShouldStartNext, Append, Numbers;
      if ShouldStartNext(limits, P(), e) {
        EmitSlice();
      }
      AppendEntry(e);
      if held >= limits.metadataBudget || bytes >= limits.sliceSize {
        EmitSlice();
      }
    }

    /** A whole scan, and the last slice. */
    method PackScan(entries: seq<Entry>)
      requires Valid() && P() == EmptyPacker
      modifies this
      ensures emitted == Pack(limits, entries) && printed == Numbers(Pack(limits, entries))
    {
      hide Add;
      var i := 0;
      while i < |entries|
        invariant 0 <= i <= |entries| && Valid()
        invariant P() == AddAll(limits, entries[..i])
      {
        assert entries[..i + 1][..i] == entries[..i];
        AddToSlice(entries[i]);
        i := i + 1;
      }
      assert entries[..i] == entries;
      if open != [] {
        EmitSlice();
      }
    }
  }
}
