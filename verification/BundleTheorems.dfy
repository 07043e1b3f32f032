/** Properties of the final TOC of a bundle. */
module BundleTheorems {
  import opened Paths
  import opened Toc
  import opened FileTree
  import opened Dedup
  import opened Ordering
  import opened Sequences
  import opened BundleSpec
  import opened BundleClassification
  import opened BundleGeometry
  import opened BundleInput
  import opened BundleConsistency
  import opened BundlePaths
  import opened BundleViews
  import opened BundleProcess

  ghost predicate NoOptions(toc: seq<Entry>) {
    forall i :: 0 <= i < |toc| ==> toc[i].typecode != OPTION
  }

  lemma RootedIsNames(side: string, p: Path)
    requires side == MACOS || side == FRAMEWORKS || side == RESOURCES
    requires AllNames(p)
    ensures AllNames(Rooted(side, p))
  {
    SidesAreNames();
  }

  lemma PlacementIsNames(x: Path)
    requires x != [] && AllNames(x)
    ensures AllNames(Placement(x))
  {
    forall i | 0 <= i < |x|
      ensures IsName(Placement(x)[i])
    {
      PlacementAt(x, i);
      SanitizedIsName(x[i]);
    }
  }

  lemma PlaceIsNames(side: string, x: Path)
    requires side == MACOS || side == FRAMEWORKS || side == RESOURCES
    requires x != [] && AllNames(x)
    ensures AllNames(Place(side, x))
  {
    PlacementIsNames(x);
    RootedIsNames(side, if side == RESOURCES then x else Placement(x));
  }

  lemma BundleEntryIsClean(toc: seq<Entry>, k: nat)
    requires ValidNames(toc) && HasDests(toc) && NoOptions(toc) && ProgramAtTop(toc) && k < |BundleOf(toc)|
    ensures AllNames(BundleOf(toc)[k].dest) && IsClean(BundleOf(toc)[k])
  {
    var o := OriginOfEntry(toc, k);
    ItemPlace(toc, DirsOf(toc), o);
    SubjectIsNames(toc, o);
    PlaceIsNames(SideOf(toc, DirsOf(toc), o), SubjectOf(toc, DirsOf(toc), o));
    OriginIsNoOption(toc, DirsOf(toc), o);
    var e := BundleOf(toc)[k];
    NamesAreClean(e);
  }

  lemma NamesAreClean(e: Entry)
    requires AllNames(e.dest) && e.typecode != OPTION
    ensures IsClean(e)
  {
    NamesAreNormal(e.dest);
  }

  lemma OriginIsNoOption(toc: seq<Entry>, ds: Dirs, o: Origin)
    requires NoOptions(toc) && ValidOrigin(toc, ds, o)
    ensures RawItem(toc, ds, o).typecode != OPTION
  {
  }

  lemma SubjectIsNames(toc: seq<Entry>, o: Origin)
    requires ValidNames(toc) && HasDests(toc) && ProgramAtTop(toc) && ValidOrigin(toc, DirsOf(toc), o)
    ensures AllNames(SubjectOf(toc, DirsOf(toc), o))
  {
    if o.CrossDir? || o.DotLink? {
      ClassificationIsDeclared(toc);
      var i := EntryBelow(toc, o.dir);
    }
  }

  /** The final normalization drops nothing and changes nothing. */
  lemma NormalizationKeepsAll(toc: seq<Entry>)
    requires WellFormed(toc) && NoOptions(toc)
    ensures Normalized(BundleOf(toc), TocPriority) == BundleOf(toc)
  {
    var b := BundleOf(toc);
    DestsDistinct(toc);
    forall k | 0 <= k < |b|
      ensures IsClean(b[k])
    {
      BundleEntryIsClean(toc, k);
    }
    CleanIsFixed(b);
    InsertAllFixed(TocPriority, b);
  }

  /** The final TOC lists exactly the bundle entries, once each, in the order of their texts, and
      collecting it gives the tree that the other results are about. */
  lemma FinalTocMeaning(toc: seq<Entry>)
    requires WellFormed(toc) && NoOptions(toc)
    ensures multiset(FinalToc(toc)) == multiset(BundleOf(toc))
    ensures StrictlySorted(FinalToc(toc), EntryLess)
    ensures DistinctDests(FinalToc(toc)) && TreeOf(FinalToc(toc)) == BundleTree(toc)
  {
    var b, f := BundleOf(toc), FinalToc(toc);
    NormalizationKeepsAll(toc);
    DestsDistinct(toc);
    forall k | 0 <= k < |b|
      ensures AllNames(b[k].dest)
    {
      BundleEntryIsClean(toc, k);
    }
    SortedStrict(b);
    forall i, j | 0 <= i < j < |f|
      ensures f[i].dest != f[j].dest
    {
      StringLessStrict(Text(f[i].dest), Text(f[j].dest));
    }
    forall e
      ensures e in f <==> e in b
    {
      SameElements(f, b, e);
    }
    SameTree(f, b);
  }

  /** A tree depends on which entries are collected, not on their order. */
  lemma SameTree(a: seq<Entry>, b: seq<Entry>)
    requires DistinctDests(a) && DistinctDests(b) && forall e :: e in a <==> e in b
    ensures TreeOf(a) == TreeOf(b)
  {
    TreeOfKeys(a);
    TreeOfKeys(b);
    forall k
      ensures k in TreeOf(a) <==> k in TreeOf(b)
      ensures k in TreeOf(a) ==> TreeOf(a)[k] == TreeOf(b)[k]
    {
      SameTreeAt(a, b, k);
      SameTreeAt(b, a, k);
    }
  }

  lemma SameTreeAt(a: seq<Entry>, b: seq<Entry>, k: Path)
    requires DistinctDests(a) && DistinctDests(b) && forall e :: e in a ==> e in b
    ensures k in TreeOf(a) ==> k in TreeOf(b) && TreeOf(a)[k] == TreeOf(b)[k]
  {
    TreeOfKeys(a);
    if k in TreeOf(a) {
      var i :| 0 <= i < |a| && a[i].dest == k;
      assert a[i] in b;
      var j :| 0 <= j < |b| && b[j] == a[i];
      TreeOfAt(a, i);
      TreeOfAt(b, j);
    }
  }

  // ---- Dots ----

  /** No directory in the `Frameworks` tree has a dot in its name, except framework bundles and
      what is inside them: for every input. */
  lemma NoDotsInFrameworks(toc: seq<Entry>, k: nat, i: nat)
    requires HasDests(toc) && k < |BundleOf(toc)|
    requires var d := BundleOf(toc)[k].dest; |d| >= 2 && d[1] == FRAMEWORKS && 2 <= i < |d| - 1
    ensures var d := BundleOf(toc)[k].dest;
      '.' in d[i] ==> exists j :: 2 <= j <= i && IsFrameworkName(d[j])
  {
    var o := OriginOfEntry(toc, k);
    ItemPlace(toc, DirsOf(toc), o);
    PlaceDots(SideOf(toc, DirsOf(toc), o), SubjectOf(toc, DirsOf(toc), o), BundleOf(toc)[k].dest, i);
  }

  lemma PlaceDots(side: string, x: Path, d: Path, i: nat)
    requires x != [] && d == Place(side, x) && |d| >= 2 && d[1] == FRAMEWORKS && 2 <= i < |d| - 1
    ensures '.' in d[i] ==> exists j :: 2 <= j <= i && IsFrameworkName(d[j])
  {
    SidesAreNames();
    assert side == d[1];
    assert d == Rooted(FRAMEWORKS, Placement(x));
    assert forall m :: 0 <= m < |x| ==> d[m + 2] == Placement(x)[m];
    if '.' in d[i] {
      assert d[i] == Placement(x)[i - 2];
      var j := DottedBelowFramework(x, i - 2);
      assert d[j + 2] == Placement(x)[j];
    }
  }

  lemma DottedBelowFramework(x: Path, i: nat) returns (j: nat)
    requires i < |x| - 1 && '.' in Placement(x)[i]
    ensures j <= i && IsFrameworkName(Placement(x)[j])
  {
    PlacementAt(x, i);
    j := SanitizedLength(x);
    PlacementAt(x, j);
  }

  // ---- Links between the trees ----

  /** A link from one tree into another; a collected symbolic link keeps its own text. */
  predicate IsCrossLink(toc: seq<Entry>, o: Origin) {
    o.CrossDir? || (o.CrossFile? && o.i < |toc| && toc[o.i].typecode != SYMLINK)
  }

  /** The tree that it leads to. */
  function TargetSide(toc: seq<Entry>, ds: Dirs, o: Origin): string
    requires ValidOrigin(toc, ds, o) && IsCrossLink(toc, o)
  {
    if o.CrossDir? then if ds.types[o.dir] == DataDir then RESOURCES else FRAMEWORKS else HomeOf(toc[o.i])
  }

  /** After sanitizing, a link between the trees still climbs to `Contents`, and its text names the
      original path in the other tree. */
  lemma CrossLinksLand(toc: seq<Entry>, k: nat)
    requires ValidNames(toc) && HasDests(toc) && ProgramAtTop(toc) && k < |BundleOf(toc)|
    requires IsCrossLink(toc, Origins(toc, DirsOf(toc))[k])
    ensures var o, e := Origins(toc, DirsOf(toc))[k], BundleOf(toc)[k];
      && ValidOrigin(toc, DirsOf(toc), o)
      && NormPath(Parent(e.dest) + e.src) == Rooted(TargetSide(toc, DirsOf(toc), o), SubjectOf(toc, DirsOf(toc), o))
  {
    var o := OriginOfEntry(toc, k);
    var ds := DirsOf(toc);
    ItemPlace(toc, ds, o);
    SubjectIsNames(toc, o);
    var side, x := SideOf(toc, ds, o), SubjectOf(toc, ds, o);
    PlaceIsNames(side, x);
    LinkLands(Place(side, x), Rooted(side, x), TargetSide(toc, ds, o), x);
  }

  lemma LinkLands(place: Path, dest: Path, side: string, x: Path)
    requires side == MACOS || side == FRAMEWORKS || side == RESOURCES
    requires x != [] && AllNames(x) && AllNames(place) && |place| == |dest| == |x| + 2 && place[0] == CONTENTS
    ensures NormPath(Parent(place) + CrossLink(dest, Rooted(side, x))) == Rooted(side, x)
  {
    var top, below, down := [CONTENTS], Parent(place)[1..], [side] + x;
    assert Parent(place) == top + below;
    assert Rooted(side, x)[1..] == down && top + down == Rooted(side, x);
    NamesAreNormal(Parent(place));
    NormFromConcat([], Parent(place), Ups(|below|) + down);
    ClimbNames(top, below, down);
    RootedIsNames(side, x);
    NamesAreNormal(Rooted(side, x));
    NormalIsFixed(top, down);
  }

  /** Every directory with binaries is found under its original name, at a path without dots. */
  lemma OriginalNamesResolve(toc: seq<Entry>, d: Path)
    requires WellFormed(toc) && LinksPlaceable(toc) && HasKind(toc, d, BinaryKind)
    ensures Shows(BundleTree(toc), FRAMEWORKS, d, RenamedPlace(d)) && IsDir(BundleTree(toc), RenamedPlace(d))
    ensures forall i :: 2 <= i < |RenamedPlace(d)| ==> '.' !in RenamedPlace(d)[i]
  {
    BundleHasDirs(toc);
    FrameworksShowDirectory(BundleTree(toc), BinaryDirs(toc), d);
    assert IsTop(BinaryDirs(toc), d) && RenamedDirAt(BundleTree(toc), BinaryDirs(toc), d);
    RenamedPlaceHasNoDots(d);
  }

  lemma RenamedPlaceHasNoDots(d: Path)
    requires d != []
    ensures forall i :: 2 <= i < |RenamedPlace(d)| ==> '.' !in RenamedPlace(d)[i]
  {
    var p := RenamedPlace(d);
    forall i | 2 <= i < |p|
      ensures '.' !in p[i]
    {
      assert p[i] == Sanitized(d[i - 2]);
    }
  }
}
