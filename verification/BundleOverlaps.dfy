/** When the bundle layout is consistent: exactly if symbolic links below the top level lie where they
    can be placed. */
module BundleOverlaps {
  import opened Paths
  import opened Toc
  import opened FileTree
  import opened BundleSpec
  import opened BundleClassification
  import opened BundleGeometry
  import opened BundleInput
  import opened BundleConsistency

  /** Some bundle entry is collected below a link. */
  ghost predicate Overlaps(toc: seq<Entry>)
    requires HasDests(toc)
  {
    exists k, l :: 0 <= k < |BundleOf(toc)| && 0 <= l < |BundleOf(toc)| &&
      BundleOf(toc)[k].dest < BundleOf(toc)[l].dest && BundleOf(toc)[k].typecode == SYMLINK
  }

  lemma OverlapIsInconsistent(toc: seq<Entry>)
    requires HasDests(toc) && Overlaps(toc)
    ensures !IsConsistent(toc)
  {
    var b := BundleOf(toc);
    var k, l :| 0 <= k < |b| && 0 <= l < |b| && b[k].dest < b[l].dest;
    TreeOfKeys(b);
    assert b[k].dest in BundleTree(toc) && b[l].dest in BundleTree(toc);
  }

  // ---- In `Frameworks` ----

  lemma InFrameworks(toc: seq<Entry>, o: Origin, x: Path) returns (k: nat)
    requires HasDests(toc) && x != []
    requires ValidOrigin(toc, DirsOf(toc), o)
    requires SideOf(toc, DirsOf(toc), o) == FRAMEWORKS && SubjectOf(toc, DirsOf(toc), o) == x
    ensures k < |BundleOf(toc)| && BundleOf(toc)[k].dest == Rooted(FRAMEWORKS, Placement(x))
    ensures BundleOf(toc)[k].typecode == RawItem(toc, DirsOf(toc), o).typecode
  {
    k := ItemInBundle(toc, o);
    ItemPlace(toc, DirsOf(toc), o);
    DistinctSides();
  }

  lemma DotlessPrefix(d: Path, x: Path)
    requires d != [] && d < x && FrameworkLength(x) == 0 && '.' !in Last(d)
    ensures Placement(d) < Placement(x)
  {
    OutsideAbove(d, x);
    forall j | 0 <= j < |d|
      ensures Placement(d)[j] == Placement(x)[j]
    {
      assert j == |d| - 1 ==> d[j] == Last(d);
      SamePlacementAt(d, x, j);
    }
  }

  lemma SamePlacementAt(d: Path, x: Path, j: nat)
    requires j < |d| && d < x && SanitizedLength(d) == |d| - 1 && SanitizedLength(x) == |x| - 1
    requires j == |d| - 1 ==> '.' !in d[j]
    ensures Placement(d)[j] == Placement(x)[j]
  {
    assert d[j] == x[j];
    PlacementAt(x, j);
    PlacementAt(d, j);
  }

  lemma OutsideAbove(d: Path, x: Path)
    requires d != [] && d < x && FrameworkLength(x) == 0
    ensures FrameworkLength(d) == 0
  {
    forall a | 0 <= a < |d|
      ensures !IsFrameworkName(d[a])
    {
      assert d[a] == x[a];
    }
    NoFrameworkLength(d);
  }

  /** A symbolic link inside a data directory that is linked as a whole is placed below that very
      link, because links are placed like binaries. */
  lemma LinkInDataDirOverlaps(toc: seq<Entry>, i: nat, d: Path)
    requires HasDests(toc) && i < |toc| && HomeOf(toc[i]) == FRAMEWORKS && FrameworkLength(toc[i].dest) == 0
    requires HasCrossDir(DirsOf(toc), d) && DirsOf(toc).types[d] == DataDir
    requires d != [] && d < toc[i].dest && '.' !in Last(d)
    ensures Overlaps(toc)
  {
    SubjectNotEmpty(toc, CrossDir(d));
    var k := InFrameworks(toc, CrossDir(d), d);
    var l := InFrameworks(toc, Placed(i), toc[i].dest);
    DotlessPrefix(d, toc[i].dest);
    RootedApart(FRAMEWORKS, Placement(d), FRAMEWORKS, Placement(toc[i].dest));
    assert BundleOf(toc)[k].dest < BundleOf(toc)[l].dest;
  }

  lemma LinkedOverOverlaps(toc: seq<Entry>, d: Path)
    requires WellFormed(toc) && IsLinkedOver(toc, d)
    ensures Overlaps(toc)
  {
    var i :| 0 <= i < |toc| && Above(d, toc[i]) && KindOf(toc[i]) == OtherKind;
    AnyIfSome(toc, d, OtherKind);
    TypeFacts(toc, d);
    CrossLinkParent(toc, d);
    LinkInDataDirOverlaps(toc, i, d);
  }

  // ---- In `Resources` ----

  /** Along the path of a binary, whatever lies at the top or in a mixed directory is linked into
      `Resources`: a directory as a whole, or the binary or its framework bundle. */
  lemma LinkedIntoResources(toc: seq<Entry>, i: nat, n: nat) returns (o: Origin)
    requires WellFormed(toc) && i < |toc| && KindOf(toc[i]) == BinaryKind && 0 < n <= |UnitOf(toc[i])|
    requires NeedsCrossLink(DirsOf(toc), UnitOf(toc[i])[..n])
    requires n < |UnitOf(toc[i])| ==> !IsMixed(DirsOf(toc), UnitOf(toc[i])[..n])
    ensures ValidOrigin(toc, DirsOf(toc), o)
    ensures SideOf(toc, DirsOf(toc), o) == RESOURCES && SubjectOf(toc, DirsOf(toc), o) == UnitOf(toc[i])[..n]
  {
    var y := UnitOf(toc[i])[..n];
    if n < |UnitOf(toc[i])| {
      DirIntoResources(toc, i, y);
      o := CrossDir(y);
    } else {
      assert y == UnitOf(toc[i]);
      o := UnitIntoResources(toc, i);
    }
  }

  lemma DirIntoResources(toc: seq<Entry>, i: nat, y: Path)
    requires NoNestedFrameworks(toc) && i < |toc| && KindOf(toc[i]) == BinaryKind && Above(y, toc[i])
    requires NeedsCrossLink(DirsOf(toc), y) && !IsMixed(DirsOf(toc), y)
    ensures HasCrossDir(DirsOf(toc), y) && DirsOf(toc).types[y] != DataDir
  {
    assert HasKind(toc, y, BinaryKind);
    AnyIfSome(toc, y, BinaryKind);
    TypeFacts(toc, y);
  }

  lemma UnitIntoResources(toc: seq<Entry>, i: nat) returns (o: Origin)
    requires NoNestedFrameworks(toc) && ProgramAtTop(toc) && i < |toc| && KindOf(toc[i]) == BinaryKind
    requires NeedsCrossLink(DirsOf(toc), UnitOf(toc[i]))
    ensures ValidOrigin(toc, DirsOf(toc), o)
    ensures SideOf(toc, DirsOf(toc), o) == RESOURCES && SubjectOf(toc, DirsOf(toc), o) == UnitOf(toc[i])
  {
    var y := UnitOf(toc[i]);
    if FrameworkLength(toc[i].dest) > 0 {
      assert IsFramework(toc, |toc|, y);
      TypeFacts(toc, y);
      o := CrossDir(y);
    } else {
      o := CrossFile(i);
    }
  }

  lemma InResources(toc: seq<Entry>, o: Origin) returns (k: nat)
    requires HasDests(toc) && ValidOrigin(toc, DirsOf(toc), o)
    requires SideOf(toc, DirsOf(toc), o) == RESOURCES
    ensures k < |BundleOf(toc)| && BundleOf(toc)[k].dest == Rooted(RESOURCES, SubjectOf(toc, DirsOf(toc), o))
    ensures BundleOf(toc)[k].typecode == RawItem(toc, DirsOf(toc), o).typecode
  {
    k := ItemInBundle(toc, o);
    ItemPlace(toc, DirsOf(toc), o);
  }

  lemma ResourcesOverlap(toc: seq<Entry>, c: Path, p: Origin)
    requires HasDests(toc) && HasCrossDir(DirsOf(toc), c) && DirsOf(toc).types[c] != DataDir
    requires ValidOrigin(toc, DirsOf(toc), p) && SideOf(toc, DirsOf(toc), p) == RESOURCES
    requires c < SubjectOf(toc, DirsOf(toc), p)
    ensures Overlaps(toc)
  {
    var k := InResources(toc, CrossDir(c));
    var l := InResources(toc, p);
    RootedApart(RESOURCES, c, RESOURCES, SubjectOf(toc, DirsOf(toc), p));
    assert BundleOf(toc)[k].dest < BundleOf(toc)[l].dest;
  }

  /** A binary in a mixed directory is linked into `Resources`, even below a directory that is
      already linked there as a whole. */
  lemma MixedInBinaryDirOverlaps(toc: seq<Entry>, i: nat, d: Path)
    requires HasDests(toc) && i < |toc| && (toc[i].typecode == BINARY || toc[i].typecode == EXTENSION)
    requires HasCrossFile(DirsOf(toc), toc[i])
    requires HasCrossDir(DirsOf(toc), d) && DirsOf(toc).types[d] != DataDir && d < toc[i].dest
    ensures Overlaps(toc)
  {
    ResourcesOverlap(toc, d, CrossFile(i));
  }

  /** At or above a binary-only directory, one is linked into `Resources` as a whole. */
  lemma LinkedAbove(toc: seq<Entry>, b: Path) returns (c: Path)
    requires WellFormed(toc) && b != [] && HasKind(toc, b, BinaryKind) && !IsMixedDir(toc, b)
    ensures c <= b && HasCrossDir(DirsOf(toc), c) && DirsOf(toc).types[c] != DataDir
  {
    assert Parent(b[..1]) == [];
    var m := FirstUnmixed(DirsOf(toc), b, 1);
    c := b[..m];
    KindsUp(toc, b, c, BinaryKind);
    AnyIfSome(toc, c, BinaryKind);
    TypeFacts(toc, c);
    if m == |b| {
      assert c == b;
    }
  }

  /** Inside a mixed directory, something is linked into `Resources`. */
  lemma LinkedInside(toc: seq<Entry>, d: Path) returns (o: Origin)
    requires WellFormed(toc) && IsMixedDir(toc, d)
    ensures ValidOrigin(toc, DirsOf(toc), o) && SideOf(toc, DirsOf(toc), o) == RESOURCES
    ensures d < SubjectOf(toc, DirsOf(toc), o)
  {
    var i: nat :| i < |toc| && Above(d, toc[i]) && KindOf(toc[i]) == BinaryKind;
    var m := UnmixedBelow(toc, d, UnitOf(toc[i]));
    o := LinkedIntoResources(toc, i, m);
  }

  lemma UnmixedBelow(toc: seq<Entry>, d: Path, unit: Path) returns (m: nat)
    requires NoNestedFrameworks(toc) && IsMixedDir(toc, d) && d < unit
    ensures 0 < m <= |unit| && d < unit[..m] && NeedsCrossLink(DirsOf(toc), unit[..m])
    ensures m < |unit| ==> !IsMixed(DirsOf(toc), unit[..m])
  {
    assert Parent(unit[..|d| + 1]) == d;
    CrossLinkParent(toc, unit[..|d| + 1]);
    m := FirstUnmixed(DirsOf(toc), unit, |d| + 1);
  }

  lemma MixedInsideOverlaps(toc: seq<Entry>, b: Path, d: Path)
    requires WellFormed(toc) && IsMixedInside(toc, b, d)
    ensures Overlaps(toc)
  {
    KindsUp(toc, d, b, BinaryKind);
    var c := LinkedAbove(toc, b);
    var o := LinkedInside(toc, d);
    ResourcesOverlap(toc, c, o);
  }

  // ---- The exact condition ----

  /** Main result on consistency: for well-formed input, no entry is collected at or below a file or a
      link if and only if the links below the top level can be placed. */
  lemma ConsistentExactly(toc: seq<Entry>)
    requires WellFormed(toc)
    ensures IsConsistent(toc) <==> LinksPlaceable(toc)
    ensures Overlaps(toc) <==> !LinksPlaceable(toc)
  {
    if LinksPlaceable(toc) {
      BundleIsConsistent(toc);
    } else if b, d :| IsMixedInside(toc, b, d) {
      MixedInsideOverlaps(toc, b, d);
    } else {
      var d :| IsLinkedOver(toc, d);
      LinkedOverOverlaps(toc, d);
    }
    if Overlaps(toc) {
      OverlapIsInconsistent(toc);
    }
  }

  /** Without symbolic links below the top level (outside frameworks) nothing can go wrong. */
  lemma LinksAtTopArePlaceable(toc: seq<Entry>)
    requires forall i :: 0 <= i < |toc| && KindOf(toc[i]) == OtherKind ==> |toc[i].dest| <= 1
    ensures LinksPlaceable(toc)
  {
    forall d
      ensures !StartsWithOther(toc, |toc|, d)
    {
    }
  }

  /** The first entry below `d` decides together with the kinds of the others. */
  lemma DataDirHere(toc: seq<Entry>, d: Path, i: nat)
    requires i < |toc| && Above(d, toc[i]) && KindOf(toc[i]) == DataKind
    requires forall j :: 0 <= j < |toc| ==>
      FrameworkLength(toc[j].dest) == 0 && (Above(d, toc[j]) ==> KindOf(toc[j]) != BinaryKind)
    ensures d in DirsOf(toc).types && DirsOf(toc).types[d] == DataDir
  {
    var n := |toc|;
    assert HasBelow(toc, n, d, DataKind) && IsKnown(toc, n, d) && !IsFramework(toc, n, d) &&
      !HasBelow(toc, n, d, BinaryKind);
    ClassifyMeaning(toc, n, d);
  }

  lemma BinaryDirHere(toc: seq<Entry>, d: Path, i: nat)
    requires i < |toc| && Above(d, toc[i]) && KindOf(toc[i]) == BinaryKind
    requires forall j :: 0 <= j < i ==> !Above(d, toc[j])
    requires forall j :: 0 <= j < |toc| ==>
      FrameworkLength(toc[j].dest) == 0 && (Above(d, toc[j]) ==> KindOf(toc[j]) != DataKind)
    ensures d in DirsOf(toc).types && DirsOf(toc).types[d] == BinaryDir
  {
    var n := |toc|;
    assert HasBelow(toc, n, d, BinaryKind) && IsKnown(toc, n, d) && !IsFramework(toc, n, d) &&
      !HasBelow(toc, n, d, DataKind);
    assert !StartsWithOther(toc, n, d);
    ClassifyMeaning(toc, n, d);
  }

  lemma MixedDirHere(toc: seq<Entry>, d: Path, i: nat, k: nat)
    requires i < k < |toc| && Above(d, toc[i]) && KindOf(toc[i]) == OtherKind
    requires forall j :: 0 <= j < i ==> !Above(d, toc[j])
    requires Above(d, toc[k]) && KindOf(toc[k]) == BinaryKind
    requires forall j :: 0 <= j < |toc| ==> FrameworkLength(toc[j].dest) == 0
    ensures d in DirsOf(toc).types && DirsOf(toc).types[d] == MixedDir
  {
    var n := |toc|;
    assert HasBelow(toc, n, d, BinaryKind) && IsKnown(toc, n, d) && !IsFramework(toc, n, d);
    assert StartsWithOther(toc, n, d);
    ClassifyMeaning(toc, n, d);
  }

  /** A data directory with a link: `Contents/Frameworks/d` is a link with an entry below it. */
  lemma LinkInDataDirExample(toc: seq<Entry>, d: string, link: string, file: string, text: Path, source: Path)
    requires toc == [Entry([d, link], text, SYMLINK), Entry([d, file], source, DATA)]
    requires FrameworkLength([d, link]) == 0 && FrameworkLength([d, file]) == 0 && '.' !in d
    ensures Overlaps(toc)
  {
    assert [d] < toc[0].dest && Above([d], toc[1]) && KindOf(toc[0]) == OtherKind;
    DataDirHere(toc, [d], 1);
    assert Parent([d]) == [];
    LinkInDataDirOverlaps(toc, 0, [d]);
  }
}
