// The planner's directory traversal: a bounded frontier, mutual recursion, and
// inode de-duplication, on any finite graph of inodes, cycles included.
module Traversal {
  import opened Base

  /** At most so many directories wait in the frontier. */
  const FRONTIER_CAPACITY: nat := 4096

  type Name = seq<u8>
  type Path = seq<Name>

  /** A child of a directory; one that cannot be examined, or lies on another
      device, has no inode here. */
  datatype Child = Child(name: Name, inode: Option<nat>)

  /** Inodes, which of them are directories, and the directories' listings. */
  datatype FileSystem = FileSystem(inodes: set<nat>, kids: map<nat, seq<Child>>) {
    ghost predicate Valid() {
      && kids.Keys <= inodes
      && forall d, i :: d in kids && 0 <= i < |kids[d]| && kids[d][i].inode.Some? ==> kids[d][i].inode.value in inodes
    }
  }

  datatype Kind = Directory | Other | HardLink

  datatype Entry = Entry(path: Path, inode: nat, kind: Kind)

  datatype Work = Work(path: Path, inode: nat)

  datatype Scan = Scan(frontier: seq<Work>, seen: set<nat>, entries: seq<Entry>, expanded: seq<Work>)

  // ----------------------------------------------------------------- properties

  ghost predicate Listed(entries: seq<Entry>, w: Work) {
    exists j :: 0 <= j < |entries| && entries[j] == Entry(w.path, w.inode, Directory)
  }

  /** Entry k is a source itself, or a child of a directory entry before it. */
  ghost predicate HasParent(fs: FileSystem, entries: seq<Entry>, k: nat)
    requires k < |entries|
  {
    |entries[k].path| == 1 || exists j :: 0 <= j < k && IsChild(fs, entries[j], entries[k])
  }

  ghost predicate IsChild(fs: FileSystem, parent: Entry, e: Entry) {
    && parent.kind.Directory? && parent.inode in fs.kids
    && exists i :: 0 <= i < |fs.kids[parent.inode]|
         && e.path == parent.path + [fs.kids[parent.inode][i].name] && fs.kids[parent.inode][i].inode == Some(e.inode)
  }

  /** The kind printed: a hard link exactly when the inode came before. */
  ghost predicate KindIs(fs: FileSystem, entries: seq<Entry>, k: nat)
    requires k < |entries|
  {
    entries[k].kind ==
      if exists j :: 0 <= j < k && entries[j].inode == entries[k].inode then HardLink
      else if entries[k].inode in fs.kids then Directory
      else Other
  }

  ghost predicate EntriesOk(fs: FileSystem, entries: seq<Entry>) {
    forall k :: 0 <= k < |entries| ==>
      HasParent(fs, entries, k) && KindIs(fs, entries, k) && entries[k].inode in fs.inodes && entries[k].path != []
  }

  ghost predicate ChildListed(entries: seq<Entry>, w: Work, c: Child) {
    c.inode.Some? ==>
      exists k :: 0 <= k < |entries| && entries[k].path == w.path + [c.name] && entries[k].inode == c.inode.value
  }

  /** Every examinable child of the directory has been listed. */
  ghost predicate Done(fs: FileSystem, entries: seq<Entry>, w: Work) {
    w.inode in fs.kids && forall i :: 0 <= i < |fs.kids[w.inode]| ==> ChildListed(entries, w, fs.kids[w.inode][i])
  }

  ghost predicate DistinctInodes(ws: seq<Work>) {
    forall i, j :: 0 <= i < j < |ws| ==> ws[i].inode != ws[j].inode
  }

  ghost predicate SeenIs(s: Scan) {
    && (forall k :: 0 <= k < |s.entries| ==> s.entries[k].inode in s.seen)
    && (forall n :: n in s.seen ==> exists k :: 0 <= k < |s.entries| && s.entries[k].inode == n)
  }

  /** Directories that were listed but are not yet in the frontier: `waiting`.
      Directories being expanded: `open`. */
  ghost predicate ScanInv(fs: FileSystem, s: Scan, open: set<Work>, waiting: set<Work>) {
    && |s.frontier| <= FRONTIER_CAPACITY
    && EntriesOk(fs, s.entries) && SeenIs(s)
    && DistinctInodes(s.expanded + s.frontier)
    && (forall w :: w in s.expanded || w in s.frontier || w in waiting ==> Listed(s.entries, w) && w.inode in fs.kids)
    && (forall w, v :: w in waiting && (v in s.expanded || v in s.frontier) ==> w.inode != v.inode)
    && (forall w, v :: w in waiting && v in waiting && w.inode == v.inode ==> w == v)
    && (forall k :: 0 <= k < |s.entries| && s.entries[k].kind.Directory? ==>
          var w := Work(s.entries[k].path, s.entries[k].inode);
          w in s.expanded || w in s.frontier || w in waiting)
    && (forall w :: w in s.expanded && w !in open ==> Done(fs, s.entries, w))
  }

  // ------------------------------------------------------------------ the steps

  function KindOf(fs: FileSystem, s: Scan, inode: nat): Kind {
    if inode in s.seen then HardLink else if inode in fs.kids then Directory else Other
  }

  function Emit(fs: FileSystem, s: Scan, path: Path, inode: nat): Scan {
    s.(entries := s.entries + [Entry(path, inode, KindOf(fs, s, inode))], seen := s.seen + {inode})
  }

  function PopFront(s: Scan): Scan
    requires s.frontier != []
  {
    s.(frontier := s.frontier[1..], expanded := s.expanded + [s.frontier[0]])
  }

  function PushBack(s: Scan, w: Work): Scan { s.(frontier := s.frontier + [w]) }

  /** A path that may be listed: a source, or a child of a listed directory. */
  ghost predicate Entitled(fs: FileSystem, s: Scan, path: Path, inode: nat) {
    |path| == 1
    || exists j :: 0 <= j < |s.entries| && IsChild(fs, s.entries[j], Entry(path, inode, KindOf(fs, s, inode)))
  }

  lemma EmitEntriesOk(fs: FileSystem, s: Scan, path: Path, inode: nat)
    requires EntriesOk(fs, s.entries) && SeenIs(s) && inode in fs.inodes
    requires Entitled(fs, s, path, inode)
    ensures EntriesOk(fs, Emit(fs, s, path, inode).entries) && SeenIs(Emit(fs, s, path, inode))
  {
    hide IsChild;
    var t := Emit(fs, s, path, inode).entries;
    EntitledPath(fs, s, path, inode);
    forall k | 0 <= k < |t|
      ensures HasParent(fs, t, k) && KindIs(fs, t, k) && t[k].inode in fs.inodes && t[k].path != []
    {
      if k < |s.entries| {
        assert t[k] == s.entries[k];
        OldEntryOk(fs, s.entries, t, k);
      } else {
        NewEntryOk(fs, s, path, inode);
      }
    }
    SeenGrows(fs, s, path, inode);
  }

  lemma EntitledPath(fs: FileSystem, s: Scan, path: Path, inode: nat)
    requires Entitled(fs, s, path, inode)
    ensures path != []
  {
  }

  lemma OldEntryOk(fs: FileSystem, entries: seq<Entry>, longer: seq<Entry>, k: nat)
    requires entries <= longer && k < |entries| && HasParent(fs, entries, k) && KindIs(fs, entries, k)
    ensures HasParent(fs, longer, k) && KindIs(fs, longer, k)
  {
    hide IsChild;
    assert forall j :: 0 <= j <= k ==> longer[j] == entries[j];
    if |entries[k].path| != 1 {
      var j :| 0 <= j < k && IsChild(fs, entries[j], entries[k]);
      assert IsChild(fs, longer[j], longer[k]);
    }
  }

  lemma NewEntryOk(fs: FileSystem, s: Scan, path: Path, inode: nat)
    requires SeenIs(s)
    requires Entitled(fs, s, path, inode)
    ensures var t := Emit(fs, s, path, inode).entries;
            HasParent(fs, t, |s.entries|) && KindIs(fs, t, |s.entries|)
  {
    hide IsChild;
    var t := Emit(fs, s, path, inode).entries;
    var n := |s.entries|;
    if |path| != 1 {
      var j :| 0 <= j < n && IsChild(fs, s.entries[j], Entry(path, inode, KindOf(fs, s, inode)));
      assert IsChild(fs, t[j], t[n]);
    }
    if inode in s.seen {
      var k :| 0 <= k < n && s.entries[k].inode == inode;
      assert t[k].inode == t[n].inode;
    } else {
      assert forall j :: 0 <= j < n ==> t[j] == s.entries[j];
    }
  }

  lemma SeenGrows(fs: FileSystem, s: Scan, path: Path, inode: nat)
    requires SeenIs(s)
    ensures SeenIs(Emit(fs, s, path, inode))
  {
    var t := Emit(fs, s, path, inode);
    forall n | n in t.seen ensures exists k :: 0 <= k < |t.entries| && t.entries[k].inode == n {
      if n in s.seen {
        var k :| 0 <= k < |s.entries| && s.entries[k].inode == n;
        assert t.entries[k].inode == n;
      } else {
        assert t.entries[|s.entries|].inode == n;
      }
    }
  }

  lemma ListedGrows(entries: seq<Entry>, longer: seq<Entry>, w: Work)
    requires entries <= longer && Listed(entries, w)
    ensures Listed(longer, w)
  {
    var j :| 0 <= j < |entries| && entries[j] == Entry(w.path, w.inode, Directory);
    assert longer[j] == entries[j];
  }

  lemma ChildListedGrows(entries: seq<Entry>, longer: seq<Entry>, w: Work, c: Child)
    requires entries <= longer && ChildListed(entries, w, c)
    ensures ChildListed(longer, w, c)
  {
    if c.inode.Some? {
      var k :| 0 <= k < |entries| && entries[k].path == w.path + [c.name] && entries[k].inode == c.inode.value;
      assert longer[k] == entries[k];
    }
  }

  lemma DoneGrows(fs: FileSystem, entries: seq<Entry>, longer: seq<Entry>, w: Work)
    requires entries <= longer && Done(fs, entries, w)
    ensures Done(fs, longer, w)
  {
    hide ChildListed;
    forall i | 0 <= i < |fs.kids[w.inode]| ensures ChildListed(longer, w, fs.kids[w.inode][i]) {
      ChildListedGrows(entries, longer, w, fs.kids[w.inode][i]);
    }
  }

  /** What an emitted entry adds to `waiting`. */
  function NewlyWaiting(fs: FileSystem, s: Scan, path: Path, inode: nat): set<Work> {
    if KindOf(fs, s, inode).Directory? then {Work(path, inode)} else {}
  }

  lemma ListedIsSeen(s: Scan, w: Work)
    requires SeenIs(s) && Listed(s.entries, w)
    ensures w.inode in s.seen
  {
  }

  lemma EmitKeeps(fs: FileSystem, s: Scan, open: set<Work>, waiting: set<Work>, path: Path, inode: nat)
    requires ScanInv(fs, s, open, waiting) && inode in fs.inodes
    requires Entitled(fs, s, path, inode)
    ensures ScanInv(fs, Emit(fs, s, path, inode), open, waiting + NewlyWaiting(fs, s, path, inode))
  {
    hide IsChild, EntriesOk, SeenIs, Done, Listed;
    var t := Emit(fs, s, path, inode);
    var wide := waiting + NewlyWaiting(fs, s, path, inode);
    EmitEntriesOk(fs, s, path, inode);
    forall w | w in s.expanded || w in s.frontier || w in waiting ensures Listed(t.entries, w) && w.inode in s.seen {
      ListedGrows(s.entries, t.entries, w);
      ListedIsSeen(s, w);
    }
    if KindOf(fs, s, inode).Directory? {
      NewListed(fs, s, path, inode);
    }
    forall w | w in s.expanded && w !in open ensures Done(fs, t.entries, w) {
      DoneGrows(fs, s.entries, t.entries, w);
    }
    forall k | 0 <= k < |t.entries| && t.entries[k].kind.Directory?
      ensures var w := Work(t.entries[k].path, t.entries[k].inode);
              w in t.expanded || w in t.frontier || w in wide
    {
      if k < |s.entries| {
        assert t.entries[k] == s.entries[k];
      }
    }
  }

  lemma NewListed(fs: FileSystem, s: Scan, path: Path, inode: nat)
    requires KindOf(fs, s, inode).Directory?
    ensures Listed(Emit(fs, s, path, inode).entries, Work(path, inode))
  {
    assert Emit(fs, s, path, inode).entries[|s.entries|] == Entry(path, inode, Directory);
  }

  lemma PopKeeps(fs: FileSystem, s: Scan, open: set<Work>, waiting: set<Work>)
    requires ScanInv(fs, s, open, waiting) && s.frontier != []
    ensures ScanInv(fs, PopFront(s), open + {s.frontier[0]}, waiting)
  {
    hide EntriesOk, Done, Listed;
    var t := PopFront(s);
    assert t.expanded + t.frontier == s.expanded + s.frontier;
    forall w ensures w in t.expanded || w in t.frontier <==> w in s.expanded || w in s.frontier {
      assert w in s.expanded + s.frontier <==> w in s.expanded || w in s.frontier;
      assert w in t.expanded + t.frontier <==> w in t.expanded || w in t.frontier;
    }
  }

  lemma PushKeeps(fs: FileSystem, s: Scan, open: set<Work>, waiting: set<Work>, w: Work)
    requires ScanInv(fs, s, open, waiting) && w in waiting && |s.frontier| < FRONTIER_CAPACITY
    ensures ScanInv(fs, PushBack(s, w), open, waiting - {w})
  {
    hide EntriesOk, Done, Listed;
    var t := PushBack(s, w);
    assert t.expanded + t.frontier == (s.expanded + s.frontier) + [w];
    forall v ensures v in t.frontier <==> v in s.frontier || v == w {
    }
  }

  lemma FinishKeeps(fs: FileSystem, s: Scan, open: set<Work>, waiting: set<Work>, w: Work)
    requires ScanInv(fs, s, open + {w}, waiting) && Done(fs, s.entries, w)
    ensures ScanInv(fs, s, open, waiting)
  {
    hide EntriesOk, SeenIs, Done, Listed;
  }

  /** A child of a listed directory is entitled to be listed. */
  lemma ChildEntitled(fs: FileSystem, s: Scan, w: Work, i: nat)
    requires Listed(s.entries, w) && w.inode in fs.kids && i < |fs.kids[w.inode]| && fs.kids[w.inode][i].inode.Some?
    ensures Entitled(fs, s, w.path + [fs.kids[w.inode][i].name], fs.kids[w.inode][i].inode.value)
  {
    var c := fs.kids[w.inode][i];
    var kind := KindOf(fs, s, c.inode.value);
    var j :| 0 <= j < |s.entries| && s.entries[j] == Entry(w.path, w.inode, Directory);
    assert IsChild(fs, s.entries[j], Entry(w.path + [c.name], c.inode.value, kind));
  }

  // ------------------------------------------------ where every entry comes from

  datatype Source = Source(name: Name, root: nat)

  /** An entry is a source, or child i of the directory that was expanded d-th. */
  datatype Origin = Root(i: nat) | ChildOf(d: nat, i: nat)

  /** The sources so far, where each entry comes from, and how many children of
      each expanded directory have been dealt with. */
  datatype Tally = Tally(roots: seq<Source>, origins: seq<Origin>, progress: seq<nat>)

  predicate Examinable(fs: FileSystem, expanded: seq<Work>, d: nat, i: nat) {
    && d < |expanded| && expanded[d].inode in fs.kids && i < |fs.kids[expanded[d].inode]|
    && fs.kids[expanded[d].inode][i].inode.Some?
  }

  /** The entry is what its origin says. */
  predicate OriginOk(fs: FileSystem, roots: seq<Source>, expanded: seq<Work>, e: Entry, origin: Origin) {
    match origin
    case Root(i) => i < |roots| && e.path == [roots[i].name] && e.inode == roots[i].root
    case ChildOf(d, i) =>
      && Examinable(fs, expanded, d, i)
      && var c := fs.kids[expanded[d].inode][i];
         e.path == expanded[d].path + [c.name] && e.inode == c.inode.value
  }

  /** No origin occurs twice, and those of one directory come in listing order. */
  predicate OriginBefore(a: Origin, b: Origin) {
    && (a.Root? && b.Root? ==> a.i < b.i)
    && (a.ChildOf? && b.ChildOf? && a.d == b.d ==> a.i < b.i)
  }

  ghost predicate Orderly(origins: seq<Origin>) {
    forall j, k :: 0 <= j < k < |origins| ==> OriginBefore(origins[j], origins[k])
  }

  /** Nothing before this point is missing. */
  ghost predicate Accounted(fs: FileSystem, expanded: seq<Work>, t: Tally) {
    && (forall i :: 0 <= i < |t.roots| ==> Root(i) in t.origins)
    && (forall d, i {:trigger ChildOf(d, i)} ::
          0 <= d < |t.progress| && 0 <= i < t.progress[d] && Examinable(fs, expanded, d, i) ==>
            ChildOf(d, i) in t.origins)
  }

  /** Nothing beyond it is listed yet. */
  ghost predicate Within(t: Tally) {
    forall k :: 0 <= k < |t.origins| ==>
      match t.origins[k]
      case Root(i) => i < |t.roots|
      case ChildOf(d, i) => d < |t.progress| && i < t.progress[d]
  }

  function Pairs(entries: seq<Entry>): (p: seq<(Path, nat)>)
    ensures |p| == |entries| && forall k :: 0 <= k < |p| ==> p[k] == (entries[k].path, entries[k].inode)
  {
    seq(|entries|, k requires 0 <= k < |entries| => (entries[k].path, entries[k].inode))
  }

  function RootPairs(roots: seq<Source>): (p: seq<(Path, nat)>)
    ensures |p| == |roots| && forall i :: 0 <= i < |p| ==> p[i] == ([roots[i].name], roots[i].root)
  {
    seq(|roots|, i requires 0 <= i < |roots| => ([roots[i].name], roots[i].root))
  }

  /** The examinable ones among the first n children of a directory, in listing order. */
  function ChildPairs(fs: FileSystem, w: Work, n: nat): seq<(Path, nat)>
    requires w.inode in fs.kids ==> n <= |fs.kids[w.inode]|
  {
    if n == 0 || w.inode !in fs.kids then []
    else
      var c := fs.kids[w.inode][n - 1];
      ChildPairs(fs, w, n - 1) + if c.inode.Some? then [(w.path + [c.name], c.inode.value)] else []
  }

  ghost predicate Sized(fs: FileSystem, expanded: seq<Work>, progress: seq<nat>) {
    && |progress| == |expanded|
    && forall d :: 0 <= d < |expanded| ==>
         expanded[d].inode in fs.kids ==> progress[d] <= |fs.kids[expanded[d].inode]|
  }

  /** The children of the expanded directories, as far as they have been dealt with. */
  ghost function DuePairs(fs: FileSystem, expanded: seq<Work>, progress: seq<nat>): seq<(Path, nat)>
    requires Sized(fs, expanded, progress)
  {
    if expanded == [] then []
    else
      var n := |expanded| - 1;
      SizedPrefix(fs, expanded, progress);
      DuePairs(fs, expanded[..n], progress[..n]) + ChildPairs(fs, expanded[n], progress[n])
  }

  lemma SizedPrefix(fs: FileSystem, expanded: seq<Work>, progress: seq<nat>)
    requires Sized(fs, expanded, progress) && expanded != []
    ensures var n := |expanded| - 1;
            Sized(fs, expanded[..n], progress[..n])
            && (expanded[n].inode in fs.kids ==> progress[n] <= |fs.kids[expanded[n].inode]|)
  {
  }

  /** The entries are the sources and these children, each as often as it occurs. */
  ghost predicate Balanced(fs: FileSystem, entries: seq<Entry>, expanded: seq<Work>, t: Tally) {
    && Sized(fs, expanded, t.progress)
    && multiset(Pairs(entries)) == multiset(RootPairs(t.roots)) + multiset(DuePairs(fs, expanded, t.progress))
  }

  lemma PairsSnoc(entries: seq<Entry>, e: Entry)
    ensures Pairs(entries + [e]) == Pairs(entries) + [(e.path, e.inode)]
  {
  }

  lemma RootPairsSnoc(roots: seq<Source>, r: Source)
    ensures RootPairs(roots + [r]) == RootPairs(roots) + [([r.name], r.root)]
  {
  }

  /** One more child of one directory is dealt with. */
  lemma {:induction false} DueGrows(fs: FileSystem, expanded: seq<Work>, progress: seq<nat>, d: nat)
    requires Sized(fs, expanded, progress) && d < |expanded| && expanded[d].inode in fs.kids
    requires progress[d] < |fs.kids[expanded[d].inode]|
    ensures Sized(fs, expanded, progress[d := progress[d] + 1])
    ensures var c := fs.kids[expanded[d].inode][progress[d]];
            multiset(DuePairs(fs, expanded, progress[d := progress[d] + 1])) ==
              multiset(DuePairs(fs, expanded, progress))
              + if c.inode.Some? then multiset{(expanded[d].path + [c.name], c.inode.value)} else multiset{}
    decreases |expanded|
  {
    hide DuePairs, ChildPairs;
    var n, more := |expanded| - 1, progress[d := progress[d] + 1];
    SizedMore(fs, expanded, progress, d);
    DueLast(fs, expanded, progress);
    DueLast(fs, expanded, more);
    if d < n {
      DueGrows(fs, expanded[..n], progress[..n], d);
      assert more[..n] == progress[..n][d := progress[d] + 1];
    } else {
      assert more[..n] == progress[..n];
      ChildNext(fs, expanded[d], progress[d]);
    }
  }

  lemma SizedMore(fs: FileSystem, expanded: seq<Work>, progress: seq<nat>, d: nat)
    requires Sized(fs, expanded, progress) && d < |expanded| && expanded[d].inode in fs.kids
    requires progress[d] < |fs.kids[expanded[d].inode]|
    ensures Sized(fs, expanded, progress[d := progress[d] + 1])
  {
  }

  lemma DueLast(fs: FileSystem, expanded: seq<Work>, progress: seq<nat>)
    requires Sized(fs, expanded, progress) && expanded != []
    ensures var n := |expanded| - 1;
            && Sized(fs, expanded[..n], progress[..n])
            && (expanded[n].inode in fs.kids ==> progress[n] <= |fs.kids[expanded[n].inode]|)
            && DuePairs(fs, expanded, progress) ==
                 DuePairs(fs, expanded[..n], progress[..n]) + ChildPairs(fs, expanded[n], progress[n])
  {
    SizedPrefix(fs, expanded, progress);
  }

  lemma ChildNext(fs: FileSystem, w: Work, n: nat)
    requires w.inode in fs.kids && n < |fs.kids[w.inode]|
    ensures var c := fs.kids[w.inode][n];
            ChildPairs(fs, w, n + 1) ==
              ChildPairs(fs, w, n) + if c.inode.Some? then [(w.path + [c.name], c.inode.value)] else []
  {
  }

  lemma DueDirectory(fs: FileSystem, expanded: seq<Work>, progress: seq<nat>, w: Work)
    requires Sized(fs, expanded, progress)
    ensures Sized(fs, expanded + [w], progress + [0])
    ensures DuePairs(fs, expanded + [w], progress + [0]) == DuePairs(fs, expanded, progress)
  {
    assert (expanded + [w])[..|expanded|] == expanded && (progress + [0])[..|progress|] == progress;
  }

  ghost predicate TallyOk(fs: FileSystem, s: Scan, t: Tally) {
    && Balanced(fs, s.entries, s.expanded, t)
    && |t.origins| == |s.entries| && |t.progress| == |s.expanded|
    && (forall k :: 0 <= k < |s.entries| ==> OriginOk(fs, t.roots, s.expanded, s.entries[k], t.origins[k]))
    && Orderly(t.origins) && Accounted(fs, s.expanded, t) && Within(t)
  }

  /** What a call does to the tally: the past stands, and every directory expanded
      since is dealt with completely. */
  ghost predicate Tallied(fs: FileSystem, t: Tally, u: Tally, expanded: seq<Work>) {
    && u.roots == t.roots && t.origins <= u.origins && t.progress <= u.progress && |u.progress| == |expanded|
    && forall d :: |t.progress| <= d < |u.progress| ==>
         expanded[d].inode in fs.kids && u.progress[d] == |fs.kids[expanded[d].inode]|
  }

  lemma TalliedTwice(fs: FileSystem, t: Tally, u: Tally, v: Tally, before: seq<Work>, after: seq<Work>)
    requires Tallied(fs, t, u, before) && Tallied(fs, u, v, after) && before <= after
    ensures Tallied(fs, t, v, after)
  {
    forall d | |t.progress| <= d < |v.progress|
      ensures after[d].inode in fs.kids && v.progress[d] == |fs.kids[after[d].inode]|
    {
      if d < |u.progress| {
        assert after[d] == before[d] && v.progress[d] == u.progress[d];
      }
    }
  }

  lemma InSnoc<T>(s: seq<T>, x: T)
    ensures forall y :: y in s + [x] <==> y in s || y == x
  {
  }

  lemma OrderlySnoc(origins: seq<Origin>, o: Origin)
    requires Orderly(origins) && forall k :: 0 <= k < |origins| ==> OriginBefore(origins[k], o)
    ensures Orderly(origins + [o])
  {
    hide OriginBefore;
  }

  /** The next child of an expanded directory, when it can be examined. */
  function Counted(t: Tally, d: nat): Tally
    requires d < |t.progress|
  {
    t.(origins := t.origins + [ChildOf(d, t.progress[d])], progress := t.progress[d := t.progress[d] + 1])
  }

  function Skipped(t: Tally, d: nat): Tally
    requires d < |t.progress|
  {
    t.(progress := t.progress[d := t.progress[d] + 1])
  }

  lemma CountChild(fs: FileSystem, s: Scan, t: Tally, d: nat)
    requires TallyOk(fs, s, t) && d < |s.expanded| && Examinable(fs, s.expanded, d, t.progress[d])
    ensures var c := fs.kids[s.expanded[d].inode][t.progress[d]];
            TallyOk(fs, Emit(fs, s, s.expanded[d].path + [c.name], c.inode.value), Counted(t, d))
  {
    hide Orderly, Balanced;
    var o := ChildOf(d, t.progress[d]);
    InSnoc(t.origins, o);
    OrderlySnoc(t.origins, o);
    BalanceChild(fs, s, t, d);
  }

  lemma BalanceChild(fs: FileSystem, s: Scan, t: Tally, d: nat)
    requires Balanced(fs, s.entries, s.expanded, t) && d < |s.expanded| == |t.progress|
    requires s.expanded[d].inode in fs.kids && t.progress[d] < |fs.kids[s.expanded[d].inode]|
    ensures var c := fs.kids[s.expanded[d].inode][t.progress[d]];
            if c.inode.None? then Balanced(fs, s.entries, s.expanded, Skipped(t, d))
            else
              Balanced(fs, Emit(fs, s, s.expanded[d].path + [c.name], c.inode.value).entries, s.expanded, Counted(t, d))
  {
    hide Sized, DuePairs, RootPairs, Pairs;
    var c := fs.kids[s.expanded[d].inode][t.progress[d]];
    DueGrows(fs, s.expanded, t.progress, d);
    if c.inode.Some? {
      var path, inode := s.expanded[d].path + [c.name], c.inode.value;
      PairsSnoc(s.entries, Entry(path, inode, KindOf(fs, s, inode)));
    }
  }

  lemma SkipChild(fs: FileSystem, s: Scan, t: Tally, d: nat)
    requires TallyOk(fs, s, t) && d < |s.expanded| && s.expanded[d].inode in fs.kids
    requires t.progress[d] < |fs.kids[s.expanded[d].inode]|
    requires fs.kids[s.expanded[d].inode][t.progress[d]].inode.None?
    ensures TallyOk(fs, s, Skipped(t, d))
  {
    hide Orderly, OriginOk, Balanced;
    BalanceChild(fs, s, t, d);
  }

  lemma CountRoot(fs: FileSystem, s: Scan, t: Tally, name: Name, root: nat)
    requires TallyOk(fs, s, t)
    ensures TallyOk(fs, Emit(fs, s, [name], root),
                    t.(roots := t.roots + [Source(name, root)], origins := t.origins + [Root(|t.roots|)]))
  {
    hide Orderly, Balanced;
    InSnoc(t.origins, Root(|t.roots|));
    OrderlySnoc(t.origins, Root(|t.roots|));
    BalanceRoot(fs, s, t, name, root);
  }

  lemma BalanceRoot(fs: FileSystem, s: Scan, t: Tally, name: Name, root: nat)
    requires Balanced(fs, s.entries, s.expanded, t)
    ensures Balanced(fs, Emit(fs, s, [name], root).entries, s.expanded,
                     t.(roots := t.roots + [Source(name, root)], origins := t.origins + [Root(|t.roots|)]))
  {
    hide Sized, DuePairs, RootPairs, Pairs;
    PairsSnoc(s.entries, Entry([name], root, KindOf(fs, s, root)));
    RootPairsSnoc(t.roots, Source(name, root));
  }

  lemma CountDirectory(fs: FileSystem, s: Scan, t: Tally)
    requires TallyOk(fs, s, t) && s.frontier != []
    ensures TallyOk(fs, PopFront(s), t.(progress := t.progress + [0]))
  {
    hide Orderly, Sized, DuePairs, RootPairs, Pairs;
    var u := t.(progress := t.progress + [0]);
    var longer := PopFront(s).expanded;
    DueDirectory(fs, s.expanded, t.progress, s.frontier[0]);
    forall d: nat, i: nat
      ensures d < |s.expanded| ==> Examinable(fs, longer, d, i) == Examinable(fs, s.expanded, d, i)
    {
    }
    forall k | 0 <= k < |s.entries| ensures OriginOk(fs, t.roots, longer, s.entries[k], t.origins[k]) {
      assert OriginOk(fs, t.roots, s.expanded, s.entries[k], t.origins[k]);
    }
  }

  /** The directories among the entries, in order. */
  function Directories(entries: seq<Entry>): seq<Work> {
    if entries == [] then []
    else
      var e := entries[|entries| - 1];
      Directories(entries[..|entries| - 1]) + if e.kind.Directory? then [Work(e.path, e.inode)] else []
  }

  lemma DirectoriesSnoc(entries: seq<Entry>, e: Entry)
    ensures Directories(entries + [e]) ==
              Directories(entries) + if e.kind.Directory? then [Work(e.path, e.inode)] else []
  {
    assert (entries + [e])[..|entries|] == entries;
  }

  /** Children are listed directory by directory, in the order of expansion. */
  ghost predicate Grouped(origins: seq<Origin>) {
    forall j, k :: 0 <= j < k < |origins| && origins[j].ChildOf? && origins[k].ChildOf? ==> origins[j].d <= origins[k].d
  }

  /** Breadth first: directories wait in the order in which they were listed. */
  ghost predicate BreadthFirst(s: Scan, t: Tally, due: seq<Work>) {
    Grouped(t.origins) && s.expanded + s.frontier + due == Directories(s.entries)
  }

  lemma BreadthEmits(fs: FileSystem, s: Scan, t: Tally, path: Path, inode: nat, o: Origin)
    requires TallyOk(fs, s, t) && BreadthFirst(s, t, []) && (o.ChildOf? ==> o.d == |s.expanded| - 1)
    ensures BreadthFirst(Emit(fs, s, path, inode), t.(origins := t.origins + [o]),
                         if KindOf(fs, s, inode).Directory? then [Work(path, inode)] else [])
  {
    hide Orderly, OriginOk, Accounted, Balanced;
    DirectoriesSnoc(s.entries, Entry(path, inode, KindOf(fs, s, inode)));
    assert s.expanded + s.frontier + [] == s.expanded + s.frontier;
  }

  /** The tally with the directory's progress set. */
  function Advanced(t: Tally, d: nat, i: nat): Tally
    requires d < |t.progress|
  {
    t.(progress := t.progress[d := i])
  }

  lemma NoChange(fs: FileSystem, s: Scan, t: Tally)
    requires |t.progress| == |s.expanded|
    ensures Tallied(fs, t, t, s.expanded)
  {
  }

  lemma TallySize(fs: FileSystem, s: Scan, t: Tally)
    requires TallyOk(fs, s, t)
    ensures |t.progress| == |s.expanded| && |t.origins| == |s.entries|
  {
  }

  lemma PushCounts(fs: FileSystem, s: Scan, t: Tally, w: Work)
    requires TallyOk(fs, s, t)
    ensures TallyOk(fs, PushBack(s, w), t)
    ensures BreadthFirst(s, t, [w]) ==> BreadthFirst(PushBack(s, w), t, [])
  {
    hide Orderly, OriginOk, Accounted, Within, Grouped, Directories, Balanced;
    assert s.expanded + (s.frontier + [w]) + [] == s.expanded + s.frontier + [w];
  }

  lemma PopCounts(fs: FileSystem, s: Scan, t: Tally)
    requires TallyOk(fs, s, t) && s.frontier != []
    ensures BreadthFirst(s, t, []) ==> BreadthFirst(PopFront(s), t.(progress := t.progress + [0]), [])
  {
    hide Orderly, OriginOk, Accounted, Within, Grouped, Directories, Balanced;
    assert s.frontier == [s.frontier[0]] + s.frontier[1..];
    assert (s.expanded + [s.frontier[0]]) + s.frontier[1..] + [] == s.expanded + s.frontier + [];
  }

  lemma SkipBreadth(s: Scan, t: Tally, d: nat)
    requires d < |t.progress|
    ensures BreadthFirst(s, t, []) ==> BreadthFirst(s, Skipped(t, d), [])
  {
    hide Grouped, Directories;
  }

  lemma BreadthSame(s: Scan, t: Tally, u: Tally, due: seq<Work>)
    requires u.origins == t.origins
    ensures BreadthFirst(s, t, due) ==> BreadthFirst(s, u, due)
  {
    hide Grouped, Directories;
  }

  lemma CountedIs(fs: FileSystem, t: Tally, d: nat, expanded: seq<Work>)
    requires d < |t.progress| == |expanded|
    ensures Tallied(fs, Advanced(t, d, t.progress[d] + 1), Counted(t, d), expanded)
    ensures Tallied(fs, Advanced(t, d, t.progress[d] + 1), Skipped(t, d), expanded)
  {
  }

  lemma TalliedNext(fs: FileSystem, t: Tally, u: Tally, v: Tally, before: seq<Work>, after: seq<Work>, d: nat, i: nat)
    requires d < |t.progress| && d < |u.progress|
    requires Tallied(fs, Advanced(t, d, i), u, before) && Tallied(fs, Advanced(u, d, i + 1), v, after)
    requires before <= after
    ensures Tallied(fs, Advanced(t, d, i + 1), v, after) && d < |v.progress| == |after| && v.progress[d] == i + 1
  {
    var a, b := Advanced(t, d, i + 1), Advanced(u, d, i + 1);
    assert v.progress[d] == b.progress[d];
    assert a.progress <= v.progress by {
      assert Advanced(t, d, i).progress <= u.progress;
    }
    forall e | |a.progress| <= e < |v.progress|
      ensures after[e].inode in fs.kids && v.progress[e] == |fs.kids[after[e].inode]|
    {
      if e < |u.progress| {
        assert after[e] == before[e] && v.progress[e] == b.progress[e] == u.progress[e];
      }
    }
  }

  lemma TalliedDone(fs: FileSystem, early: Tally, t: Tally, v: Tally, expanded: seq<Work>, d: nat, n: nat)
    requires t == early.(progress := early.progress + [0]) && d == |early.progress|
    requires Tallied(fs, Advanced(t, d, n), v, expanded)
    requires d < |expanded| && expanded[d].inode in fs.kids && n == |fs.kids[expanded[d].inode]|
    ensures Tallied(fs, early, v, expanded)
  {
    var a := Advanced(t, d, n);
    assert a.progress == early.progress + [n];
    forall e | |early.progress| <= e < |v.progress|
      ensures expanded[e].inode in fs.kids && v.progress[e] == |fs.kids[expanded[e].inode]|
    {
      if e == d {
        assert v.progress[e] == a.progress[e];
      }
    }
  }

  /** Every expanded directory has been dealt with completely. */
  ghost predicate AllDealt(fs: FileSystem, expanded: seq<Work>, t: Tally) {
    |t.progress| == |expanded|
    && forall d :: 0 <= d < |expanded| ==>
         expanded[d].inode in fs.kids && t.progress[d] == |fs.kids[expanded[d].inode]|
  }

  lemma DealtStays(fs: FileSystem, expanded: seq<Work>, t: Tally, u: Tally)
    requires AllDealt(fs, expanded, t) && u.progress == t.progress
    ensures AllDealt(fs, expanded, u)
  {
  }

  lemma DealtOn(fs: FileSystem, before: seq<Work>, t: Tally, after: seq<Work>, u: Tally)
    requires AllDealt(fs, before, t) && Tallied(fs, t, u, after) && before <= after
    ensures AllDealt(fs, after, u) && u.roots == t.roots
  {
    forall d | 0 <= d < |after| ensures after[d].inode in fs.kids && u.progress[d] == |fs.kids[after[d].inode]| {
      if d < |before| {
        assert after[d] == before[d] && u.progress[d] == t.progress[d];
      }
    }
  }

  // ----------------------------------------------------------------- the object

  /** What a call leaves behind: the past stands, and the call made progress. */
  ghost predicate Extends(s: Scan, t: Scan) {
    && s.entries <= t.entries && s.expanded <= t.expanded && s.seen <= t.seen
    && forall k :: |s.entries| <= k < |t.entries| ==> |t.entries[k].path| > 1
  }

  ghost function Unseen(fs: FileSystem, s: Scan): nat { |fs.inodes - s.seen| }

  lemma {:induction false} SmallerSet<T>(A: set<T>, B: set<T>)
    requires A <= B
    ensures |A| <= |B| && (A != B ==> |A| < |B|)
  {
    if A != {} {
      var x :| x in A;
      SmallerSet(A - {x}, B - {x});
    }
  }

  lemma UnseenShrinks(fs: FileSystem, s: Scan, t: Scan)
    requires s.seen <= t.seen <= fs.inodes
    ensures Unseen(fs, t) <= Unseen(fs, s) && (s.seen != t.seen ==> Unseen(fs, t) < Unseen(fs, s))
  {
    SmallerSet(fs.inodes - t.seen, fs.inodes - s.seen);
    if s.seen != t.seen {
      var x :| x in t.seen && x !in s.seen;
      assert x in fs.inodes - s.seen && x !in fs.inodes - t.seen;
    }
  }

  lemma SeenWithin(fs: FileSystem, s: Scan)
    requires EntriesOk(fs, s.entries) && SeenIs(s)
    ensures s.seen <= fs.inodes
  {
    forall n | n in s.seen ensures n in fs.inodes {
      var k :| 0 <= k < |s.entries| && s.entries[k].inode == n;
    }
  }

  class PlannerScanner {
    const fs: FileSystem
    var frontier: seq<Work>
    var seen: set<nat>
    var entries: seq<Entry>
    ghost var expanded: seq<Work>
    ghost var peak: nat
    ghost var tally: Tally

    ghost function S(): Scan
      reads this
    {
      Scan(frontier, seen, entries, expanded)
    }

    /** `peak` is the longest that the frontier has been. */
    ghost predicate Inv(open: set<Work>, waiting: set<Work>)
      reads this
    {
      fs.Valid() && |frontier| <= peak <= FRONTIER_CAPACITY && ScanInv(fs, S(), open, waiting)
    }

    /** The tally is right, and as long as the frontier never was full, the scan has
        gone breadth first. `due` is a directory about to be queued. */
    ghost predicate Counts(due: seq<Work>)
      reads this
    {
      TallyOk(fs, S(), tally) && (peak < FRONTIER_CAPACITY ==> BreadthFirst(S(), tally, due))
    }

    constructor (fs: FileSystem)
      requires fs.Valid()
      ensures this.fs == fs && Inv({}, {}) && S() == Scan([], {}, [], [])
      ensures tally == Tally([], [], []) && Counts([])
    {
      this.fs := fs;
      frontier, seen, entries, expanded, peak := [], {}, [], [], 0;
      tally := Tally([], [], []);
    }

    /** `resolve_names` and `add_to_slice`: list the entry, as a hard link if its
        inode was seen before. */
    method List(path: Path, inode: nat) returns (kind: Kind)
      modifies this`seen, this`entries
      ensures S() == Emit(fs, old(S()), path, inode) && kind == KindOf(fs, old(S()), inode)
    {
      kind := if inode in seen then HardLink else if inode in fs.kids then Directory else Other;
      entries := entries + [Entry(path, inode, kind)];
      seen := seen + {inode};
    }

    method EnqueueDirectory(w: Work, ghost open: set<Work>, ghost waiting: set<Work>)
      requires Inv(open, waiting) && w in waiting && Counts([w])
      modifies this
      ensures Inv(open, waiting - {w}) && Extends(old(S()), S())
      ensures Counts([]) && Tallied(fs, old(tally), tally, expanded) && old(peak) <= peak
      ensures peak < FRONTIER_CAPACITY ==> expanded == old(expanded)
      ensures seen == old(seen) && |old(frontier)| < FRONTIER_CAPACITY ==> S() == PushBack(old(S()), w)
      decreases Unseen(fs, S()), 1, 0
    {
      hide ScanInv, TallyOk, BreadthFirst, Tallied;
      TallySize(fs, S(), tally);
      NoChange(fs, S(), tally);
      while |frontier| >= FRONTIER_CAPACITY
        invariant Inv(open, waiting) && Extends(old(S()), S()) && old(peak) <= peak
        invariant TallyOk(fs, S(), tally) && Tallied(fs, old(tally), tally, expanded)
        invariant peak < FRONTIER_CAPACITY ==> S() == old(S()) && tally == old(tally)
        invariant Unseen(fs, S()) <= old(Unseen(fs, S()))
        invariant |old(frontier)| < FRONTIER_CAPACITY ==> S() == old(S())
        decreases Unseen(fs, S()), |frontier|
      {
        ghost var t, early := tally, expanded;
        ProcessOneDirectory(open, waiting);
        TalliedTwice(fs, old(tally), t, tally, early, expanded);
      }
      PushKeeps(fs, S(), open, waiting, w);
      PushCounts(fs, S(), tally, w);
      frontier := frontier + [w];
      peak := if peak < |frontier| then |frontier| else peak;
    }

    method ProcessOneDirectory(ghost open: set<Work>, ghost waiting: set<Work>)
      requires Inv(open, waiting) && frontier != [] && TallyOk(fs, S(), tally)
      requires peak < FRONTIER_CAPACITY ==> BreadthFirst(S(), tally, [])
      modifies this
      ensures Inv(open, waiting) && Extends(old(S()), S())
      ensures Counts([]) && Tallied(fs, old(tally), tally, expanded) && old(peak) <= peak
      ensures Unseen(fs, S()) < old(Unseen(fs, S()))
              || (Unseen(fs, S()) == old(Unseen(fs, S())) && |frontier| < |old(frontier)|)
      decreases Unseen(fs, S()), 0, |frontier|
    {
      hide ScanInv, Done, ChildListed, TallyOk, BreadthFirst, Tallied;
      var dir := frontier[0];
      PopKeeps(fs, S(), open, waiting);
      CountDirectory(fs, S(), tally);
      PopCounts(fs, S(), tally);
      ghost var d := |expanded|;
      TallySize(fs, S(), tally);
      frontier := frontier[1..];
      expanded := expanded + [dir];
      tally := tally.(progress := tally.progress + [0]);
      ghost var t := tally;
      NoChange(fs, S(), tally);
      assert Advanced(t, d, 0) == t;
      DirFacts(fs, S(), open + {dir}, waiting, dir);
      var children := fs.kids[dir.inode];
      var i := 0;
      while i < |children|
        invariant 0 <= i <= |children| && Inv(open + {dir}, waiting) && Extends(old(S()), S())
        invariant d < |expanded| && expanded[d] == dir && TallyOk(fs, S(), tally) && old(peak) <= peak
        invariant |tally.progress| == |expanded| && tally.progress[d] == i
        invariant Tallied(fs, Advanced(t, d, i), tally, expanded)
        invariant peak < FRONTIER_CAPACITY ==> BreadthFirst(S(), tally, []) && |expanded| == d + 1
        invariant forall j :: 0 <= j < i ==> ChildListed(entries, dir, children[j])
        invariant Unseen(fs, S()) < old(Unseen(fs, S()))
                  || (Unseen(fs, S()) == old(Unseen(fs, S())) && |frontier| < |old(frontier)|)
      {
        ghost var before, u, early := entries, tally, expanded;
        ExpandChild(dir, d, i, open + {dir}, waiting);
        KeepsListed(before, entries, dir, children, i);
        TalliedNext(fs, t, u, tally, early, expanded, d, i);
        i := i + 1;
      }
      TalliedDone(fs, old(tally), t, tally, expanded, d, i);
      DoneNow(fs, entries, dir);
      FinishKeeps(fs, S(), open, waiting, dir);
    }

    /** The entry of a child, entered in the tally. */
    method ListChild(dir: Work, ghost d: nat, i: nat, ghost open: set<Work>, ghost waiting: set<Work>)
      returns (kind: Kind)
      requires Inv(open, waiting) && d < |expanded| && expanded[d] == dir
      requires dir.inode in fs.kids && i < |fs.kids[dir.inode]| && fs.kids[dir.inode][i].inode.Some?
      requires Counts([]) && |tally.progress| == |expanded| && tally.progress[d] == i
      requires peak < FRONTIER_CAPACITY ==> d == |expanded| - 1
      modifies this`seen, this`entries, this`tally
      ensures var c := fs.kids[dir.inode][i];
              var path, inode := dir.path + [c.name], c.inode.value;
              && path != [] && |path| > 1
              && S() == Emit(fs, old(S()), path, inode) && kind == KindOf(fs, old(S()), inode)
              && Inv(open, waiting + NewlyWaiting(fs, old(S()), path, inode))
              && Counts(if kind.Directory? then [Work(path, inode)] else [])
              && ChildListed(entries, dir, c)
      ensures Tallied(fs, Advanced(old(tally), d, i + 1), tally, expanded)
    {
      hide ScanInv, IsChild, TallyOk, BreadthFirst, Tallied, Entitled;
      var c := fs.kids[dir.inode][i];
      ghost var path, inode, due := dir.path + [c.name], c.inode.value, [];
      DirFacts(fs, S(), open, waiting, dir);
      ListedPath(fs, S(), open, waiting, dir);
      ChildEntitled(fs, S(), dir, i);
      EmitKeeps(fs, S(), open, waiting, path, inode);
      CountChild(fs, S(), tally, d);
      CountedIs(fs, tally, d, expanded);
      ghost var t := Counted(tally, d);
      due := if KindOf(fs, S(), inode).Directory? then [Work(path, inode)] else [];
      if peak < FRONTIER_CAPACITY {
        BreadthEmits(fs, S(), tally, path, inode, ChildOf(d, i));
        BreadthSame(Emit(fs, S(), path, inode), tally.(origins := tally.origins + [ChildOf(d, i)]), t, due);
      }
      ghost var n := |entries|;
      kind := List(dir.path + [c.name], c.inode.value);
      tally := t;
      assert entries[n].path == path && entries[n].inode == inode;
    }

    /** One child: listed, and if it is a directory seen for the first time, queued. */
    method ExpandChild(dir: Work, ghost d: nat, i: nat, ghost open: set<Work>, ghost waiting: set<Work>)
      requires Inv(open, waiting) && d < |expanded| && expanded[d] == dir
      requires dir.inode in fs.kids && i < |fs.kids[dir.inode]|
      requires Counts([]) && |tally.progress| == |expanded| && tally.progress[d] == i
      requires peak < FRONTIER_CAPACITY ==> d == |expanded| - 1
      modifies this
      ensures Inv(open, waiting) && Extends(old(S()), S())
      ensures ChildListed(entries, dir, fs.kids[dir.inode][i])
      ensures Counts([]) && Tallied(fs, Advanced(old(tally), d, i + 1), tally, expanded) && old(peak) <= peak
      ensures peak < FRONTIER_CAPACITY ==> |expanded| == |old(expanded)|
      ensures Unseen(fs, S()) < old(Unseen(fs, S()))
              || (Unseen(fs, S()) == old(Unseen(fs, S())) && frontier == old(frontier))
      decreases Unseen(fs, S()), 0, 0
    {
      hide ScanInv, IsChild, TallyOk, BreadthFirst, Tallied, ChildListed;
      var c := fs.kids[dir.inode][i];
      ghost var s, early := S(), Advanced(tally, d, i + 1);
      if c.inode.None? {
        NotCounted(dir, d, i);
        return;
      }
      var kind := ListChild(dir, d, i, open, waiting);
      InvSeen(fs, S(), open, waiting + NewlyWaiting(fs, s, dir.path + [c.name], c.inode.value));
      UnseenShrinks(fs, s, S());
      ghost var after, t, longer := entries, tally, expanded;
      if kind.Directory? {
        var w := Work(dir.path + [c.name], c.inode.value);
        NotYetWaiting(fs, s, open, waiting, w);
        EnqueueDirectory(w, open, waiting + {w});
        assert waiting + {w} - {w} == waiting;
        TalliedTwice(fs, early, t, tally, longer, expanded);
        InvSeen(fs, S(), open, waiting);
        UnseenShrinks(fs, s, S());
        ChildListedGrows(after, entries, dir, c);
      } else {
        assert waiting + {} == waiting;
      }
    }

    /** A child that cannot be examined is passed over. */
    ghost method NotCounted(dir: Work, d: nat, i: nat)
      requires d < |expanded| && expanded[d] == dir && dir.inode in fs.kids && i < |fs.kids[dir.inode]|
      requires fs.kids[dir.inode][i].inode.None?
      requires Counts([]) && |tally.progress| == |expanded| && tally.progress[d] == i
      modifies this`tally
      ensures Counts([]) && Tallied(fs, Advanced(old(tally), d, i + 1), tally, expanded)
      ensures ChildListed(entries, dir, fs.kids[dir.inode][i])
    {
      hide TallyOk, BreadthFirst, Tallied;
      SkipChild(fs, S(), tally, d);
      SkipBreadth(S(), tally, d);
      CountedIs(fs, tally, d, expanded);
      tally := Skipped(tally, d);
    }

    /** Scans one source and everything below it. */
    method ScanSource(name: Name, root: nat)
      requires Inv({}, {}) && frontier == [] && root in fs.inodes && Counts([]) && AllDealt(fs, expanded, tally)
      modifies this
      ensures Inv({}, {}) && frontier == [] && root in seen && old(seen) <= seen
      ensures Counts([]) && AllDealt(fs, expanded, tally) && old(peak) <= peak
      ensures tally.roots == old(tally).roots + [Source(name, root)]
      ensures |old(entries)| < |entries| && old(entries) <= entries
      ensures entries[|old(entries)|].path == [name] && entries[|old(entries)|].inode == root
      ensures forall k :: |old(entries)| < k < |entries| ==> |entries[k].path| > 1
    {
      hide ScanInv, IsChild, TallyOk, BreadthFirst, Tallied, AllDealt;
      ghost var s := S();
      EmitKeeps(fs, s, {}, {}, [name], root);
      ghost var t := tally.(roots := tally.roots + [Source(name, root)],
                            origins := tally.origins + [Root(|tally.roots|)]);
      CountRoot(fs, s, tally, name, root);
      if peak < FRONTIER_CAPACITY {
        BreadthEmits(fs, s, tally, [name], root, Root(|tally.roots|));
        BreadthSame(Emit(fs, s, [name], root), tally.(origins := tally.origins + [Root(|tally.roots|)]), t,
                    if KindOf(fs, s, root).Directory? then [Work([name], root)] else []);
      }
      var kind := List([name], root);
      tally := t;
      ghost var after, early := S(), expanded;
      DealtStays(fs, expanded, old(tally), t);
      if kind.Directory? {
        assert {} + NewlyWaiting(fs, s, [name], root) == {Work([name], root)};
        EnqueueDirectory(Work([name], root), {}, {Work([name], root)});
        assert {Work([name], root)} - {Work([name], root)} == {};
        DealtOn(fs, early, t, expanded, tally);
        while frontier != []
          invariant Inv({}, {}) && Extends(after, S()) && Counts([]) && old(peak) <= peak
          invariant AllDealt(fs, expanded, tally) && tally.roots == t.roots
          decreases Unseen(fs, S()), |frontier|
        {
          ghost var u, before := tally, expanded;
          ProcessOneDirectory({}, {});
          DealtOn(fs, before, u, expanded, tally);
        }
      } else {
        assert {} + NewlyWaiting(fs, s, [name], root) == {};
      }
    }
  }

  lemma ListedPath(fs: FileSystem, s: Scan, open: set<Work>, waiting: set<Work>, w: Work)
    requires ScanInv(fs, s, open, waiting) && w in s.expanded
    ensures w.path != []
  {
    hide Done, SeenIs, HasParent, KindIs;
    assert Listed(s.entries, w);
  }

  lemma DirFacts(fs: FileSystem, s: Scan, open: set<Work>, waiting: set<Work>, w: Work)
    requires fs.Valid() && ScanInv(fs, s, open, waiting) && w in s.expanded
    ensures Listed(s.entries, w) && w.inode in fs.kids
    ensures forall i :: 0 <= i < |fs.kids[w.inode]| && fs.kids[w.inode][i].inode.Some? ==>
              fs.kids[w.inode][i].inode.value in fs.inodes
  {
    hide EntriesOk, SeenIs, Done, Listed;
  }

  lemma InvSeen(fs: FileSystem, s: Scan, open: set<Work>, waiting: set<Work>)
    requires ScanInv(fs, s, open, waiting)
    ensures s.seen <= fs.inodes
  {
    hide Done, Listed;
    SeenWithin(fs, s);
  }

  lemma NotYetWaiting(fs: FileSystem, s: Scan, open: set<Work>, waiting: set<Work>, w: Work)
    requires ScanInv(fs, s, open, waiting) && w.inode !in s.seen
    ensures w !in waiting
  {
    hide EntriesOk, Done;
    if w in waiting {
      ListedIsSeen(s, w);
    }
  }

  lemma KeepsListed(before: seq<Entry>, after: seq<Entry>, w: Work, children: seq<Child>, n: nat)
    requires before <= after && n <= |children| && forall j :: 0 <= j < n ==> ChildListed(before, w, children[j])
    ensures forall j :: 0 <= j < n ==> ChildListed(after, w, children[j])
  {
    hide ChildListed;
    forall j | 0 <= j < n ensures ChildListed(after, w, children[j]) {
      ChildListedGrows(before, after, w, children[j]);
    }
  }

  lemma DoneNow(fs: FileSystem, entries: seq<Entry>, w: Work)
    requires w.inode in fs.kids
    requires forall i :: 0 <= i < |fs.kids[w.inode]| ==> ChildListed(entries, w, fs.kids[w.inode][i])
    ensures Done(fs, entries, w)
  {
  }

  // -------------------------------------------------------------- after a scan

  lemma {:induction false} FirstOf(entries: seq<Entry>, k: nat) returns (j: nat)
    requires k < |entries|
    ensures j <= k && entries[j].inode == entries[k].inode
    ensures forall i :: 0 <= i < j ==> entries[i].inode != entries[k].inode
  {
    if i :| 0 <= i < k && entries[i].inode == entries[k].inode {
      j := FirstOf(entries, i);
    } else {
      j := k;
    }
  }

  /** A directory that was seen at all has been expanded, and exactly once. */
  lemma SeenDirectoryExpanded(fs: FileSystem, s: Scan, n: nat) returns (w: Work)
    requires ScanInv(fs, s, {}, {}) && s.frontier == [] && n in s.seen && n in fs.kids
    ensures w in s.expanded && w.inode == n && Done(fs, s.entries, w)
    ensures forall v :: v in s.expanded && v.inode == n ==> v == w
  {
    hide Done, HasParent;
    var k :| 0 <= k < |s.entries| && s.entries[k].inode == n;
    var j := FirstOf(s.entries, k);
    assert KindIs(fs, s.entries, j);
    assert s.entries[j].kind == Directory;
    w := Work(s.entries[j].path, n);
    assert s.expanded + s.frontier == s.expanded;
  }

  /** A path through the graph: each inode is a directory listing the next. */
  ghost predicate Chain(fs: FileSystem, chain: seq<nat>) {
    forall i :: 0 <= i < |chain| - 1 ==> Step(fs, chain[i], chain[i + 1])
  }

  ghost predicate Step(fs: FileSystem, d: nat, n: nat) {
    d in fs.kids && exists i :: 0 <= i < |fs.kids[d]| && fs.kids[d][i].inode == Some(n)
  }

  lemma StepSeen(fs: FileSystem, s: Scan, d: nat, n: nat)
    requires ScanInv(fs, s, {}, {}) && s.frontier == [] && d in s.seen && Step(fs, d, n)
    ensures n in s.seen
  {
    var w := SeenDirectoryExpanded(fs, s, d);
    var i :| 0 <= i < |fs.kids[d]| && fs.kids[d][i].inode == Some(n);
    assert ChildListed(s.entries, w, fs.kids[w.inode][i]);
  }

  /** A finished scan has reached everything reachable from what it has seen. */
  lemma {:induction false} ScanReachesAll(fs: FileSystem, s: Scan, chain: seq<nat>)
    requires ScanInv(fs, s, {}, {}) && s.frontier == []
    requires chain != [] && chain[0] in s.seen && Chain(fs, chain)
    ensures chain[|chain| - 1] in s.seen
  {
    hide ScanInv;
    if |chain| > 1 {
      var n := |chain| - 1;
      ScanReachesAll(fs, s, chain[..n]);
      assert Step(fs, chain[n - 1], chain[n - 1 + 1]);
      StepSeen(fs, s, chain[n - 1], chain[n]);
    }
  }

  /** At every moment of a scan: the frontier is bounded, every directory is
      expanded at most once, an entry comes after its parent directory, and an
      entry is a hard link exactly when its inode came before. */
  lemma ScanOrder(fs: FileSystem, s: Scan, open: set<Work>, waiting: set<Work>, k: nat)
    requires ScanInv(fs, s, open, waiting) && k < |s.entries|
    ensures |s.frontier| <= FRONTIER_CAPACITY && DistinctInodes(s.expanded)
    ensures |s.entries[k].path| == 1
            || exists j :: 0 <= j < k && s.entries[j].kind.Directory?
                 && s.entries[j].path == s.entries[k].path[..|s.entries[k].path| - 1]
    ensures s.entries[k].kind.HardLink? <==> exists j :: 0 <= j < k && s.entries[j].inode == s.entries[k].inode
  {
    hide Done, Listed, SeenIs;
    assert HasParent(fs, s.entries, k) && KindIs(fs, s.entries, k);
    forall i, j | 0 <= i < j < |s.expanded| ensures s.expanded[i].inode != s.expanded[j].inode {
      assert (s.expanded + s.frontier)[i] == s.expanded[i] && (s.expanded + s.frontier)[j] == s.expanded[j];
    }
    if |s.entries[k].path| != 1 {
      var j :| 0 <= j < k && IsChild(fs, s.entries[j], s.entries[k]);
      assert s.entries[j].path == s.entries[k].path[..|s.entries[k].path| - 1];
    }
  }

  // ------------------------------------------------------- a whole scan, from fresh

  ghost predicate FromSource(sources: seq<Source>, n: nat) {
    exists i :: 0 <= i < |sources| && sources[i].root == n
  }

  /** Reachable from a source through the listings of directories. */
  ghost predicate Reachable(fs: FileSystem, sources: seq<Source>, n: nat) {
    exists chain :: IsRoute(fs, sources, chain, n)
  }

  ghost predicate IsRoute(fs: FileSystem, sources: seq<Source>, chain: seq<nat>, n: nat) {
    chain != [] && chain[|chain| - 1] == n && Chain(fs, chain) && FromSource(sources, chain[0])
  }

  ghost predicate IsListed(entries: seq<Entry>, n: nat) {
    exists k :: 0 <= k < |entries| && entries[k].inode == n
  }

  ghost predicate IsExpanded(expanded: seq<Work>, n: nat) {
    exists w :: w in expanded && w.inode == n
  }

  /** The whole plan accounted for: every entry is a source or a child of an
      expanded directory, every source and every examinable child is an entry
      exactly once, sources in the order given and children in listing order. */
  ghost predicate Listing(fs: FileSystem, sources: seq<Source>, entries: seq<Entry>, expanded: seq<Work>,
                          origins: seq<Origin>)
  {
    && |origins| == |entries|
    && (forall k :: 0 <= k < |entries| ==> OriginOk(fs, sources, expanded, entries[k], origins[k]))
    && Orderly(origins)
    && (forall i :: 0 <= i < |sources| ==> Root(i) in origins)
    && (forall d, i {:trigger ChildOf(d, i)} ::
          0 <= d && 0 <= i && Examinable(fs, expanded, d, i) ==> ChildOf(d, i) in origins)
  }

  /** All examinable children of all expanded directories. */
  ghost function AllChildren(fs: FileSystem, expanded: seq<Work>): seq<(Path, nat)> {
    if expanded == [] then []
    else
      var w := expanded[|expanded| - 1];
      AllChildren(fs, expanded[..|expanded| - 1])
      + if w.inode in fs.kids then ChildPairs(fs, w, |fs.kids[w.inode]|) else []
  }

  lemma {:induction false} AllDue(fs: FileSystem, expanded: seq<Work>, progress: seq<nat>)
    requires Sized(fs, expanded, progress)
    requires forall d :: 0 <= d < |expanded| ==>
               expanded[d].inode in fs.kids && progress[d] == |fs.kids[expanded[d].inode]|
    ensures DuePairs(fs, expanded, progress) == AllChildren(fs, expanded)
    decreases |expanded|
  {
    if expanded != [] {
      var n := |expanded| - 1;
      SizedPrefix(fs, expanded, progress);
      AllDue(fs, expanded[..n], progress[..n]);
    }
  }

  lemma ListingOf(fs: FileSystem, s: Scan, t: Tally)
    requires TallyOk(fs, s, t) && AllDealt(fs, s.expanded, t)
    ensures Listing(fs, t.roots, s.entries, s.expanded, t.origins)
    ensures multiset(Pairs(s.entries)) == multiset(RootPairs(t.roots)) + multiset(AllChildren(fs, s.expanded))
  {
    hide Orderly, OriginOk, RootPairs, Pairs, DuePairs, AllChildren;
    AllDue(fs, s.expanded, t.progress);
  }

  lemma BreadthOf(s: Scan, t: Tally)
    requires BreadthFirst(s, t, []) && s.frontier == []
    ensures Grouped(t.origins) && s.expanded == Directories(s.entries)
  {
    hide Grouped, Directories;
    assert s.expanded + [] + [] == s.expanded;
  }

  lemma RouteGrows(fs: FileSystem, sources: seq<Source>, d: nat, n: nat)
    requires Reachable(fs, sources, d) && Step(fs, d, n)
    ensures Reachable(fs, sources, n)
  {
    hide Step, FromSource;
    var chain :| IsRoute(fs, sources, chain, d);
    var longer := chain + [n];
    forall i | 0 <= i < |longer| - 1 ensures Step(fs, longer[i], longer[i + 1]) {
      if i < |chain| - 1 {
        assert Step(fs, chain[i], chain[i + 1]);
      }
    }
    assert IsRoute(fs, sources, longer, n);
  }

  /** Entries of depth one are the sources themselves. */
  ghost predicate RootsAreSources(entries: seq<Entry>, sources: seq<Source>) {
    forall k :: 0 <= k < |entries| && |entries[k].path| == 1 ==> FromSource(sources, entries[k].inode)
  }

  lemma {:induction false} ListedIsReachable(fs: FileSystem, entries: seq<Entry>, sources: seq<Source>, k: nat)
    requires EntriesOk(fs, entries) && RootsAreSources(entries, sources) && k < |entries|
    ensures Reachable(fs, sources, entries[k].inode)
  {
    hide EntriesOk, KindIs, FromSource;
    EntryOk(fs, entries, k);
    if |entries[k].path| == 1 {
      assert IsRoute(fs, sources, [entries[k].inode], entries[k].inode);
    } else {
      var j :| 0 <= j < k && IsChild(fs, entries[j], entries[k]);
      ListedIsReachable(fs, entries, sources, j);
      RouteGrows(fs, sources, entries[j].inode, entries[k].inode);
    }
  }

  lemma EntryOk(fs: FileSystem, entries: seq<Entry>, k: nat)
    requires EntriesOk(fs, entries) && k < |entries|
    ensures HasParent(fs, entries, k) && KindIs(fs, entries, k)
  {
  }

  lemma ReachableIsListed(fs: FileSystem, s: Scan, sources: seq<Source>, n: nat)
    requires ScanInv(fs, s, {}, {}) && s.frontier == [] && Reachable(fs, sources, n)
    requires forall i :: 0 <= i < |sources| ==> sources[i].root in s.seen
    ensures IsListed(s.entries, n)
  {
    hide Done, EntriesOk, Chain, Listed;
    var chain :| IsRoute(fs, sources, chain, n);
    ScanReachesAll(fs, s, chain);
  }

  /** Every examinable child of a directory entry is listed under its path. */
  ghost predicate ChildrenListed(fs: FileSystem, entries: seq<Entry>, k: nat)
    requires k < |entries|
  {
    entries[k].kind.Directory? ==> Done(fs, entries, Work(entries[k].path, entries[k].inode))
  }

  lemma DirectoryDone(fs: FileSystem, s: Scan, k: nat)
    requires ScanInv(fs, s, {}, {}) && s.frontier == [] && k < |s.entries|
    ensures ChildrenListed(fs, s.entries, k)
  {
    hide Done, EntriesOk, SeenIs, Listed;
    if s.entries[k].kind.Directory? {
      assert Work(s.entries[k].path, s.entries[k].inode) in s.expanded;
    }
  }

  lemma ExpandedExactly(fs: FileSystem, s: Scan, n: nat)
    requires ScanInv(fs, s, {}, {}) && s.frontier == []
    ensures IsExpanded(s.expanded, n) <==> n in fs.kids && IsListed(s.entries, n)
    ensures DistinctInodes(s.expanded)
  {
    hide Done, EntriesOk;
    assert s.expanded + s.frontier == s.expanded;
    if n in fs.kids && IsListed(s.entries, n) {
      var w := SeenDirectoryExpanded(fs, s, n);
    }
  }

  /** A whole scan from a fresh scanner, over any sources and any finite graph of
      inodes: it ends; the frontier stays bounded throughout; exactly the reachable
      directories are expanded, each once; exactly the reachable inodes are listed;
      the entries are the sources and the examinable children of the expanded
      directories, each exactly once, with children in listing order, after their
      directory, and marked as a hard link exactly when the inode came before. As
      long as the frontier never fills up, the plan is in breadth-first order. */
  method PlanSources(fs: FileSystem, sources: seq<Source>)
    returns (entries: seq<Entry>, ghost expanded: seq<Work>, ghost origins: seq<Origin>, ghost peak: nat)
    requires fs.Valid() && forall i :: 0 <= i < |sources| ==> sources[i].root in fs.inodes
    ensures peak <= FRONTIER_CAPACITY
    ensures DistinctInodes(expanded)
    ensures forall n: nat :: IsExpanded(expanded, n) <==> n in fs.kids && Reachable(fs, sources, n)
    ensures forall n: nat :: IsListed(entries, n) <==> Reachable(fs, sources, n)
    ensures Listing(fs, sources, entries, expanded, origins)
    ensures multiset(Pairs(entries)) == multiset(RootPairs(sources)) + multiset(AllChildren(fs, expanded))
    ensures forall k :: 0 <= k < |entries| ==>
              HasParent(fs, entries, k) && KindIs(fs, entries, k) && ChildrenListed(fs, entries, k)
    ensures peak < FRONTIER_CAPACITY ==> Grouped(origins) && expanded == Directories(entries)
  {
    hide ScanInv, ChildrenListed, KindIs, HasParent, FromSource, TallyOk, BreadthFirst, AllDealt, Listing, Grouped,
         RootsAreSources;
    var scanner := new PlannerScanner(fs);
    NothingScanned(fs, sources);
    var i := 0;
    while i < |sources|
      invariant 0 <= i <= |sources| && scanner.fs == fs && scanner.Inv({}, {}) && scanner.frontier == []
      invariant forall j :: 0 <= j < i ==> sources[j].root in scanner.seen
      invariant RootsAreSources(scanner.entries, sources)
      invariant scanner.Counts([]) && AllDealt(fs, scanner.expanded, scanner.tally)
      invariant scanner.tally.roots == sources[..i]
    {
      ghost var before := scanner.entries;
      assert Source(sources[i].name, sources[i].root) == sources[i];
      scanner.ScanSource(sources[i].name, sources[i].root);
      RootsStay(before, scanner.entries, sources, i);
      assert sources[..i] + [sources[i]] == sources[..i + 1];
      i := i + 1;
    }
    assert sources[..i] == sources;
    entries, expanded, peak := scanner.entries, scanner.expanded, scanner.peak;
    origins := scanner.tally.origins;
    ScanResult(fs, scanner.S(), sources);
    ListingOf(fs, scanner.S(), scanner.tally);
    if peak < FRONTIER_CAPACITY {
      BreadthOf(scanner.S(), scanner.tally);
    }
  }

  lemma NothingScanned(fs: FileSystem, sources: seq<Source>)
    ensures RootsAreSources([], sources) && AllDealt(fs, [], Tally([], [], []))
  {
  }

  lemma RootsStay(before: seq<Entry>, after: seq<Entry>, sources: seq<Source>, i: nat)
    requires RootsAreSources(before, sources) && before < after && i < |sources|
    requires after[|before|].inode == sources[i].root
    requires forall k :: |before| < k < |after| ==> |after[k].path| > 1
    ensures RootsAreSources(after, sources)
  {
    forall k | 0 <= k < |after| && |after[k].path| == 1 ensures FromSource(sources, after[k].inode) {
      if k < |before| {
        assert after[k] == before[k];
      } else {
        assert k == |before|;
      }
    }
  }

  lemma ScanResult(fs: FileSystem, s: Scan, sources: seq<Source>)
    requires ScanInv(fs, s, {}, {}) && s.frontier == [] && RootsAreSources(s.entries, sources)
    requires forall i :: 0 <= i < |sources| ==> sources[i].root in s.seen
    ensures DistinctInodes(s.expanded)
    ensures forall n: nat :: IsExpanded(s.expanded, n) <==> n in fs.kids && Reachable(fs, sources, n)
    ensures forall n: nat :: IsListed(s.entries, n) <==> Reachable(fs, sources, n)
    ensures forall k :: 0 <= k < |s.entries| ==>
              HasParent(fs, s.entries, k) && KindIs(fs, s.entries, k) && ChildrenListed(fs, s.entries, k)
  {
    hide ScanInv, ChildrenListed, KindIs, HasParent, FromSource, Reachable, RootsAreSources, EntriesOk, DistinctInodes;
    EntriesOf(fs, s);
    forall n: nat
      ensures IsListed(s.entries, n) <==> Reachable(fs, sources, n)
      ensures IsExpanded(s.expanded, n) <==> n in fs.kids && Reachable(fs, sources, n)
    {
      if IsListed(s.entries, n) {
        var k :| 0 <= k < |s.entries| && s.entries[k].inode == n;
        ListedIsReachable(fs, s.entries, sources, k);
      }
      if Reachable(fs, sources, n) {
        ReachableIsListed(fs, s, sources, n);
      }
      ExpandedExactly(fs, s, n);
    }
    ExpandedExactly(fs, s, 0);
    forall k | 0 <= k < |s.entries|
      ensures HasParent(fs, s.entries, k) && KindIs(fs, s.entries, k) && ChildrenListed(fs, s.entries, k)
    {
      EntryOk(fs, s.entries, k);
      DirectoryDone(fs, s, k);
    }
  }

  lemma EntriesOf(fs: FileSystem, s: Scan)
    requires ScanInv(fs, s, {}, {})
    ensures EntriesOk(fs, s.entries)
  {
    hide Done, Listed;
  }
}
