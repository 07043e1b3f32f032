/** What is asked of the input of a bundle, and what its directories hold. */
module BundleInput {
  import opened Paths
  import opened Toc
  import opened BundleSpec
  import opened BundleClassification
  import opened BundleGeometry

  // ---- Well-formed input ----

  ghost predicate HasDests(toc: seq<Entry>) {
    forall i :: 0 <= i < |toc| ==> toc[i].dest != []
  }

  ghost predicate ValidNames(toc: seq<Entry>) {
    forall i :: 0 <= i < |toc| ==> toc[i].dest != [] && AllNames(toc[i].dest)
  }

  /** Destinations are distinct, and none is a directory above another one. The program itself
      lives in a tree of its own, so it may share its name with a directory. */
  ghost predicate Unrelated(toc: seq<Entry>) {
    forall i, j :: 0 <= i < |toc| && 0 <= j < |toc| && i != j ==>
      && toc[i].dest != toc[j].dest
      && (toc[i].typecode != EXECUTABLE && toc[j].typecode != EXECUTABLE ==> !(toc[i].dest < toc[j].dest))
  }

  /** At most one directory above an entry is a framework bundle. */
  ghost predicate NoNestedFrameworks(toc: seq<Entry>) {
    forall i, a, b :: 0 <= i < |toc| && 0 <= a < b < |toc[i].dest| - 1 ==>
      !(IsFrameworkName(toc[i].dest[a]) && IsFrameworkName(toc[i].dest[b]))
  }

  ghost predicate ProgramAtTop(toc: seq<Entry>) {
    forall i :: 0 <= i < |toc| && (toc[i].typecode == EXECUTABLE || toc[i].typecode == PKG) ==> |toc[i].dest| == 1
  }

  /** Something of this kind lies below the directory `d`. */
  ghost predicate HasKind(toc: seq<Entry>, d: Path, kind: Kind) {
    HasBelow(toc, |toc|, d, kind)
  }

  /** Something that is not data lies below `d`, so it is created in `Frameworks`, under its
      sanitized name. */
  ghost predicate IsRenamed(toc: seq<Entry>, d: Path) {
    HasKind(toc, d, BinaryKind) || HasKind(toc, d, OtherKind)
  }

  /** `v` is a unit, or a directory above one. */
  ghost predicate IsNode(toc: seq<Entry>, v: Path) {
    v != [] && exists i :: 0 <= i < |toc| && toc[i].typecode != EXECUTABLE && v <= UnitOf(toc[i])
  }

  ghost function RenamedDirs(toc: seq<Entry>): iset<Path> {
    iset d | IsRenamed(toc, d)
  }

  ghost function Nodes(toc: seq<Entry>): iset<Path> {
    iset v | IsNode(toc, v)
  }

  ghost predicate WellFormed(toc: seq<Entry>) {
    && ValidNames(toc) && Unrelated(toc) && NoNestedFrameworks(toc) && ProgramAtTop(toc)
    && DotsApart(RenamedDirs(toc), Nodes(toc))
  }

  // ---- What the types of the directories mean ----

  /** The directories of the bundle, as the classification leaves them. */
  ghost function DirsOf(toc: seq<Entry>): Dirs {
    Classify(toc, |toc|)
  }

  ghost predicate IsDirectory(toc: seq<Entry>, d: Path) {
    IsKnown(toc, |toc|, d)
  }

  /** `d` is classified as mixed: it holds binaries, and also data, or it starts with an entry that is
      neither. */
  ghost predicate IsMixedDir(toc: seq<Entry>, d: Path) {
    HasKind(toc, d, BinaryKind) && (HasKind(toc, d, DataKind) || StartsWithOther(toc, |toc|, d))
  }

  predicate AtMostOneFramework(p: Path) {
    forall a, b :: 0 <= a < b < |p| - 1 ==> !(IsFrameworkName(p[a]) && IsFrameworkName(p[b]))
  }

  /** No component above a unit names a framework. */
  lemma AboveUnit(e: Entry, d: Path)
    requires AtMostOneFramework(e.dest) && Above(d, e)
    ensures forall a :: 0 <= a < |d| ==> !IsFrameworkName(d[a])
  {
    var k := FrameworkLength(e.dest);
    forall a | 0 <= a < |d|
      ensures !IsFrameworkName(d[a])
    {
      assert d[a] == e.dest[a];
      if k > 0 && IsFrameworkName(e.dest[a]) {
        assert false;
      }
    }
  }

  lemma NoFrameworkLength(p: Path)
    requires forall a :: 0 <= a < |p| ==> !IsFrameworkName(p[a])
    ensures FrameworkLength(p) == 0
  {
    var f := FrameworkLength(p);
  }

  lemma UnitOfFramework(e: Entry)
    requires FrameworkLength(e.dest) > 0
    ensures UnitOf(e) != [] && IsFrameworkName(Last(UnitOf(e)))
  {
  }

  lemma FrameworkIsNamed(toc: seq<Entry>, d: Path)
    requires IsFramework(toc, |toc|, d)
    ensures d != [] && IsFrameworkName(Last(d))
  {
    var j :| 0 <= j < |toc| && FrameworkLength(toc[j].dest) > 0 && UnitOf(toc[j]) == d;
    UnitOfFramework(toc[j]);
  }

  /** A directory above a unit is no framework bundle, nor inside one. */
  lemma AboveIsOutside(toc: seq<Entry>, d: Path)
    requires NoNestedFrameworks(toc) && AnyBelow(toc, |toc|, d)
    ensures d != [] && (forall a :: 0 <= a < |d| ==> !IsFrameworkName(d[a]))
    ensures !IsFramework(toc, |toc|, d)
    ensures SanitizedLength(d) == |d| - 1
  {
    var i :| 0 <= i < |toc| && Above(d, toc[i]);
    assert AtMostOneFramework(toc[i].dest);
    AboveUnit(toc[i], d);
    NoFrameworkLength(d);
    if IsFramework(toc, |toc|, d) {
      FrameworkIsNamed(toc, d);
      assert false;
    }
  }

  lemma AboveUp(d: Path, c: Path, e: Entry)
    requires Above(d, e) && c != [] && c <= d
    ensures Above(c, e)
  {
  }

  /** Everything above a directory holds what the directory holds. */
  lemma KindsUp(toc: seq<Entry>, d: Path, c: Path, kind: Kind)
    requires HasKind(toc, d, kind) && c != [] && c <= d
    ensures HasKind(toc, c, kind)
  {
    var i :| 0 <= i < |toc| && Above(d, toc[i]) && KindOf(toc[i]) == kind;
    AboveUp(d, c, toc[i]);
  }

  lemma AnyIfSome(toc: seq<Entry>, d: Path, kind: Kind)
    requires HasKind(toc, d, kind)
    ensures AnyBelow(toc, |toc|, d)
  {
  }

  lemma RenamedUpClosed(toc: seq<Entry>)
    ensures UpClosed(RenamedDirs(toc))
  {
    forall d, k | d in RenamedDirs(toc) && 0 < k <= |d|
      ensures d[..k] in RenamedDirs(toc)
    {
      KindsUp(toc, d, d[..k], if HasKind(toc, d, BinaryKind) then BinaryKind else OtherKind);
    }
  }

  lemma RenamedAreNodes(toc: seq<Entry>)
    requires ProgramAtTop(toc)
    ensures RenamedDirs(toc) <= Nodes(toc)
  {
    forall d | d in RenamedDirs(toc)
      ensures d in Nodes(toc)
    {
      var i :| 0 <= i < |toc| && Above(d, toc[i]);
      assert d <= UnitOf(toc[i]);
    }
  }

  /** Every classified directory is strictly above some entry. */
  lemma EntryBelow(toc: seq<Entry>, d: Path) returns (i: nat)
    requires ProgramAtTop(toc) && IsDirectory(toc, d)
    ensures i < |toc| && d != [] && d < toc[i].dest && d <= UnitOf(toc[i]) && toc[i].typecode != EXECUTABLE
    ensures |toc[i].dest| > 1
  {
    if IsFramework(toc, |toc|, d) {
      i :| 0 <= i < |toc| && FrameworkLength(toc[i].dest) > 0 && UnitOf(toc[i]) == d;
    } else {
      i :| 0 <= i < |toc| && Above(d, toc[i]);
    }
  }

  lemma NoEntryAtDirectory(toc: seq<Entry>, d: Path, i: nat)
    requires ProgramAtTop(toc) && Unrelated(toc) && IsDirectory(toc, d)
    requires i < |toc| && toc[i].typecode != EXECUTABLE
    ensures !(toc[i].dest <= d)
  {
    var j := EntryBelow(toc, d);
  }

  lemma ParentIsAbove(toc: seq<Entry>, i: nat)
    requires i < |toc| && toc[i].dest != [] && FrameworkLength(toc[i].dest) == 0
    ensures Parent(toc[i].dest) == [] || HasKind(toc, Parent(toc[i].dest), KindOf(toc[i]))
  {
    if Parent(toc[i].dest) != [] {
      assert Above(Parent(toc[i].dest), toc[i]);
    }
  }

  /** What the type of a classified directory says about its content. */
  lemma TypeFacts(toc: seq<Entry>, d: Path)
    requires NoNestedFrameworks(toc)
    ensures d in DirsOf(toc).types <==> IsDirectory(toc, d)
    ensures IsDirectory(toc, d) ==>
      var t := DirsOf(toc).types[d];
      && d != []
      && (t == FrameworkDir <==> IsFramework(toc, |toc|, d))
      && (t == FrameworkDir <==> !AnyBelow(toc, |toc|, d))
      && (t == MixedDir <==> IsMixedDir(toc, d))
      && (t == BinaryDir <==> HasKind(toc, d, BinaryKind) && !IsMixedDir(toc, d))
      && (t == DataDir <==> AnyBelow(toc, |toc|, d) && !HasKind(toc, d, BinaryKind))
  {
    ClassifyMeaning(toc, |toc|, d);
    KnownByKind(toc, |toc|, d);
    if AnyBelow(toc, |toc|, d) {
      AboveIsOutside(toc, d);
    } else if IsFramework(toc, |toc|, d) {
      FrameworkIsNamed(toc, d);
    }
  }

  /** What is linked one by one lies at the top or in a mixed directory. */
  lemma CrossLinkParent(toc: seq<Entry>, x: Path)
    requires NoNestedFrameworks(toc)
    ensures NeedsCrossLink(DirsOf(toc), x) <==> Parent(x) == [] || IsMixedDir(toc, Parent(x))
  {
    TypeFacts(toc, Parent(x));
    if IsMixedDir(toc, Parent(x)) {
      AnyIfSome(toc, Parent(x), BinaryKind);
    }
  }

  predicate IsMixed(ds: Dirs, d: Path) {
    d in ds.types && ds.types[d] == MixedDir
  }

  /** Going down along a path, the first directory that is not mixed: its parent is the top or mixed. */
  lemma FirstUnmixed(ds: Dirs, p: Path, from: nat) returns (m: nat)
    requires 0 < from <= |p| && NeedsCrossLink(ds, p[..from])
    ensures from <= m <= |p| && NeedsCrossLink(ds, p[..m])
    ensures m < |p| ==> !IsMixed(ds, p[..m])
    ensures forall n :: from <= n < m ==> IsMixed(ds, p[..n])
  {
    m := from;
    while m < |p| && IsMixed(ds, p[..m])
      invariant from <= m <= |p| && NeedsCrossLink(ds, p[..m])
      invariant forall n :: from <= n < m ==> IsMixed(ds, p[..n])
    {
      assert Parent(p[..m + 1]) == p[..m];
      m := m + 1;
    }
  }
}
