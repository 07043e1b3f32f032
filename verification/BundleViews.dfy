/** Both trees of the bundle show every collected file at its original relative path. */
module BundleViews {
  import opened Paths
  import opened Toc
  import opened FileTree
  import opened BundleSpec
  import opened BundleClassification
  import opened BundleGeometry
  import opened BundleInput
  import opened BundleConsistency
  import opened BundlePaths

  /** The directories that have their original names in `Frameworks`, too. */
  ghost function BinaryDirs(toc: seq<Entry>): iset<Path> {
    iset d | HasKind(toc, d, BinaryKind)
  }

  lemma BinaryDirsUpClosed(toc: seq<Entry>)
    ensures UpClosed(BinaryDirs(toc))
  {
    forall d, k | d in BinaryDirs(toc) && 0 < k <= |d|
      ensures d[..k] in BinaryDirs(toc)
    {
      KindsUp(toc, d, d[..k], BinaryKind);
    }
  }

  predicate IsContent(e: Entry) {
    e.typecode == DATA || e.typecode == BINARY || e.typecode == EXTENSION
  }

  /** The place of an entry. */
  function FilePlace(e: Entry): Path
    requires e.dest != []
  {
    Place(HomeOf(e), e.dest)
  }

  lemma PlacedEntry(toc: seq<Entry>, i: nat)
    requires WellFormed(toc) && LinksPlaceable(toc) && i < |toc|
    ensures var p := FilePlace(toc[i]);
      p in BundleTree(toc) && BundleTree(toc)[p] == NodeOf(toc[i])
  {
    ItemInTree(toc, Placed(i));
    ItemPlace(toc, DirsOf(toc), Placed(i));
  }

  lemma NamesAbove(toc: seq<Entry>, d: Path, i: nat)
    requires ValidNames(toc) && i < |toc| && Above(d, toc[i])
    ensures AllNames(d)
  {
    assert d <= toc[i].dest;
  }

  lemma DirBelow(fs: Tree, d: Path, k: Path)
    requires k in fs && d < k
    ensures IsDir(fs, d)
  {
  }

  lemma KindHome(toc: seq<Entry>, i: nat, d: Path)
    requires ProgramAtTop(toc) && i < |toc| && Above(d, toc[i]) && KindOf(toc[i]) != DataKind
    ensures HomeOf(toc[i]) == FRAMEWORKS && d <= toc[i].dest && |d| <= SanitizedLength(toc[i].dest)
  {
  }

  lemma RenamedExists(toc: seq<Entry>, d: Path)
    requires WellFormed(toc) && LinksPlaceable(toc) && IsRenamed(toc, d)
    ensures d != [] && IsDir(BundleTree(toc), RenamedPlace(d)) && AllNames(d)
  {
    var i :| 0 <= i < |toc| && Above(d, toc[i]) && KindOf(toc[i]) != DataKind;
    PlacedEntry(toc, i);
    KindHome(toc, i, d);
    NamesAbove(toc, d, i);
    PlacementBelow(d, toc[i].dest);
    SidesAreNames();
    DirBelow(BundleTree(toc), RenamedPlace(d), FilePlace(toc[i]));
  }

  lemma DotLinkExists(toc: seq<Entry>, d: Path)
    requires WellFormed(toc) && LinksPlaceable(toc) && d in BinaryDirs(toc) && d != [] && '.' in Last(d)
    ensures var p := RenamedPlace(Parent(d)) + [Last(d)];
      p in BundleTree(toc) && BundleTree(toc)[p] == Link([Sanitized(Last(d))])
  {
    BinaryDirIsClassified(toc, d);
    ItemInTree(toc, DotLink(d));
    ItemPlace(toc, DirsOf(toc), DotLink(d));
    PlaceOfChild(d);
    SidesAreNames();
  }

  lemma BinaryDirIsClassified(toc: seq<Entry>, d: Path)
    requires NoNestedFrameworks(toc) && HasKind(toc, d, BinaryKind)
    ensures d != [] && d in DirsOf(toc).types
    ensures DirsOf(toc).types[d] != FrameworkDir && DirsOf(toc).types[d] != DataDir
    ensures SanitizedLength(d) == |d| - 1
  {
    AnyIfSome(toc, d, BinaryKind);
    TypeFacts(toc, d);
    AboveIsOutside(toc, d);
  }

  /** The directories and links of a bundle. */
  lemma BundleHasDirs(toc: seq<Entry>)
    requires WellFormed(toc) && LinksPlaceable(toc)
    ensures var fs := BundleTree(toc);
      && PrefixFree(fs) && UpClosed(BinaryDirs(toc))
      && HasRenamedDirs(fs, BinaryDirs(toc)) && HasDotLinks(fs, BinaryDirs(toc))
  {
    BundleIsConsistent(toc);
    BinaryDirsUpClosed(toc);
    forall d
      ensures RenamedDirAt(BundleTree(toc), BinaryDirs(toc), d)
    {
      if d == [] {
        assert RenamedPlace(d) == [CONTENTS, FRAMEWORKS];
      } else if d in BinaryDirs(toc) {
        RenamedExists(toc, d);
      }
    }
    forall d
      ensures DotLinkAt(BundleTree(toc), BinaryDirs(toc), d)
    {
      if d in BinaryDirs(toc) && d != [] && '.' in Last(d) {
        DotLinkExists(toc, d);
      }
    }
  }

  /** Above a unit: renamed directories. */
  lemma TopAboveUnit(toc: seq<Entry>, i: nat)
    requires HasDests(toc) && i < |toc| && KindOf(toc[i]) == BinaryKind
    ensures IsTop(BinaryDirs(toc), toc[i].dest[..SanitizedLength(toc[i].dest)])
  {
    var x := toc[i].dest;
    var u := x[..SanitizedLength(x)];
    if u != [] {
      assert Above(u, toc[i]);
    }
  }

  /** The tree that an entry is placed in shows it. */
  lemma HomeShowsFile(toc: seq<Entry>, i: nat)
    requires WellFormed(toc) && LinksPlaceable(toc) && i < |toc| && IsContent(toc[i])
    ensures Shows(BundleTree(toc), HomeOf(toc[i]), toc[i].dest, FilePlace(toc[i]))
  {
    BundleHasDirs(toc);
    PlacedEntry(toc, i);
    SidesAreNames();
    if HomeOf(toc[i]) == RESOURCES {
      ResourcesShowFile(BundleTree(toc), toc[i].dest);
    } else {
      TopAboveUnit(toc, i);
      FrameworksShowFile(BundleTree(toc), BinaryDirs(toc), toc[i].dest);
    }
  }

  // ---- The other tree ----

  function Opposite(e: Entry): string {
    if HomeOf(e) == RESOURCES then FRAMEWORKS else RESOURCES
  }

  /** `o` is the link, at or above the path of an entry, from the other tree to the entry's own. */
  ghost predicate IsCrossing(toc: seq<Entry>, e: Entry, d: Path, o: Origin) {
    var ds := DirsOf(toc);
    && d != [] && d <= e.dest
    && ValidOrigin(toc, ds, o)
    && SideOf(toc, ds, o) == Opposite(e) && SubjectOf(toc, ds, o) == d
    && NodeOf(RawItem(toc, ds, o)) == Link(Ups(|d|) + ([HomeOf(e)] + d))
    && IsTop(BinaryDirs(toc), Parent(d))
    && (Opposite(e) == FRAMEWORKS ==> SanitizedLength(d) == |d| - 1)
  }

  lemma CrossLinkText(side: string, home: string, d: Path)
    ensures CrossLink(Rooted(side, d), Rooted(home, d)) == Ups(|d|) + ([home] + d)
  {
    assert Rooted(home, d)[1..] == [home] + d;
  }

  lemma CrossParents(toc: seq<Entry>, d: Path)
    requires NoNestedFrameworks(toc) && NeedsCrossLink(DirsOf(toc), d)
    ensures IsTop(BinaryDirs(toc), Parent(d))
  {
    CrossLinkParent(toc, d);
  }

  /** A directory above an entry that is linked as a whole ... */
  lemma CrossingAbove(toc: seq<Entry>, i: nat, d: Path)
    requires WellFormed(toc)
    requires i < |toc| && IsContent(toc[i]) && Above(d, toc[i])
    requires !IsMixed(DirsOf(toc), d) && NeedsCrossLink(DirsOf(toc), d)
    ensures IsCrossing(toc, toc[i], d, CrossDir(d))
  {
    ContentBelow(toc, i, d);
    CrossParents(toc, d);
    SidesAreNames();
    CrossLinkText(FRAMEWORKS, RESOURCES, d);
    CrossLinkText(RESOURCES, FRAMEWORKS, d);
    assert d <= toc[i].dest;
  }

  lemma ContentBelow(toc: seq<Entry>, i: nat, d: Path)
    requires WellFormed(toc)
    requires i < |toc| && IsContent(toc[i]) && Above(d, toc[i]) && !IsMixed(DirsOf(toc), d)
    ensures d in DirsOf(toc).types
    ensures DirsOf(toc).types[d] == DataDir <==> HomeOf(toc[i]) == RESOURCES
    ensures SanitizedLength(d) == |d| - 1
  {
    assert HasKind(toc, d, KindOf(toc[i]));
    AnyIfSome(toc, d, KindOf(toc[i]));
    AboveIsOutside(toc, d);
    TypeFacts(toc, d);
    SidesAreNames();
  }

  /** ... or the framework bundle of the entry ... */
  lemma CrossingBundle(toc: seq<Entry>, i: nat)
    requires WellFormed(toc)
    requires i < |toc| && IsContent(toc[i]) && FrameworkLength(toc[i].dest) > 0
    requires NeedsCrossLink(DirsOf(toc), UnitOf(toc[i]))
    ensures IsCrossing(toc, toc[i], UnitOf(toc[i]), CrossDir(UnitOf(toc[i])))
  {
    var d := UnitOf(toc[i]);
    assert IsFramework(toc, |toc|, d);
    TypeFacts(toc, d);
    CrossParents(toc, d);
    SidesAreNames();
    CrossLinkText(RESOURCES, FRAMEWORKS, d);
  }

  /** ... or the entry itself. */
  lemma CrossingEntry(toc: seq<Entry>, i: nat)
    requires WellFormed(toc)
    requires i < |toc| && IsContent(toc[i]) && FrameworkLength(toc[i].dest) == 0
    requires NeedsCrossLink(DirsOf(toc), toc[i].dest)
    ensures IsCrossing(toc, toc[i], toc[i].dest, CrossFile(i))
  {
    CrossParents(toc, toc[i].dest);
    SidesAreNames();
    CrossLinkText(FRAMEWORKS, RESOURCES, toc[i].dest);
    CrossLinkText(RESOURCES, FRAMEWORKS, toc[i].dest);
  }

  lemma FindCrossing(toc: seq<Entry>, i: nat) returns (d: Path, o: Origin)
    requires WellFormed(toc) && i < |toc| && IsContent(toc[i])
    ensures IsCrossing(toc, toc[i], d, o)
  {
    var unit := UnitOf(toc[i]);
    assert Parent(unit[..1]) == [];
    var m := FirstUnmixed(DirsOf(toc), unit, 1);
    d := unit[..m];
    if m < |unit| {
      o := CrossDir(d);
      CrossingAbove(toc, i, d);
    } else {
      assert d == unit;
      if FrameworkLength(toc[i].dest) > 0 {
        o := CrossDir(d);
        CrossingBundle(toc, i);
      } else {
        o := CrossFile(i);
        CrossingEntry(toc, i);
      }
    }
  }

  /** The directory that the crossing link lies in, as its tree shows it. */
  function CrossingBase(side: string, d: Path): Path {
    if side == FRAMEWORKS then RenamedPlace(Parent(d)) else Rooted(RESOURCES, Parent(d))
  }

  lemma CrossingInTree(toc: seq<Entry>, e: Entry, d: Path, o: Origin)
    requires WellFormed(toc) && LinksPlaceable(toc) && IsCrossing(toc, e, d, o)
    ensures var p := CrossingBase(Opposite(e), d) + [Last(d)];
      p in BundleTree(toc) && BundleTree(toc)[p] == Link(Ups(|d|) + ([HomeOf(e)] + d))
  {
    ItemInTree(toc, o);
    ItemPlace(toc, DirsOf(toc), o);
    CrossingPlace(Opposite(e), d);
  }

  lemma CrossingPlace(side: string, d: Path)
    requires d != [] && ((side == FRAMEWORKS && SanitizedLength(d) == |d| - 1) || side == RESOURCES)
    ensures Place(side, d) == CrossingBase(side, d) + [Last(d)]
  {
    SidesAreNames();
    if side == FRAMEWORKS {
      PlaceOfChild(d);
    } else {
      assert Rooted(RESOURCES, d) == Rooted(RESOURCES, Parent(d)) + [Last(d)];
    }
  }

  lemma CrossingBaseShown(toc: seq<Entry>, e: Entry, d: Path, o: Origin)
    requires WellFormed(toc) && LinksPlaceable(toc) && IsCrossing(toc, e, d, o) && AllNames(d)
    ensures var base := CrossingBase(Opposite(e), d);
      && base !in BundleTree(toc) && Shows(BundleTree(toc), Opposite(e), Parent(d), base)
      && |base| == |d| + 1 && base[0] == CONTENTS
  {
    BundleHasDirs(toc);
    if Opposite(e) == FRAMEWORKS {
      FrameworksShowDirectory(BundleTree(toc), BinaryDirs(toc), Parent(d));
    } else {
      CrossingInTree(toc, e, d, o);
      ResourcesShowAbove(BundleTree(toc), Parent(d), Last(d));
    }
  }

  lemma ResourcesShowAbove(fs: Tree, d: Path, name: string)
    requires PrefixFree(fs) && AllNames(d) && Rooted(RESOURCES, d) + [name] in fs
    ensures Shows(fs, RESOURCES, d, Rooted(RESOURCES, d)) && Rooted(RESOURCES, d) !in fs
  {
    DirBelow(fs, Rooted(RESOURCES, d), Rooted(RESOURCES, d) + [name]);
    ResourcesShowDirectory(fs, d);
  }

  /** At a link between the trees, at or above a path, both trees agree on it. */
  lemma TreesAgree(toc: seq<Entry>, e: Entry, d: Path, o: Origin, x: Path, end: Path)
    requires WellFormed(toc) && LinksPlaceable(toc) && IsCrossing(toc, e, d, o) && AllNames(d) && d <= x
    ensures Shows(BundleTree(toc), Opposite(e), x, end) <==> Shows(BundleTree(toc), HomeOf(e), x, end)
  {
    var fs, base := BundleTree(toc), CrossingBase(Opposite(e), d);
    CrossingInTree(toc, e, d, o);
    CrossingBaseShown(toc, e, d, o);
    if Shows(fs, HomeOf(e), x, end) {
      ThroughCrossLink(fs, Opposite(e), HomeOf(e), base, d, x, end);
    }
    if Shows(fs, Opposite(e), x, end) {
      BeyondCrossLink(fs, Opposite(e), HomeOf(e), base, d, x, end);
    }
  }

  /** The other tree shows the entry, too. */
  lemma OppositeShowsFile(toc: seq<Entry>, i: nat)
    requires WellFormed(toc) && LinksPlaceable(toc) && i < |toc| && IsContent(toc[i])
    ensures Shows(BundleTree(toc), Opposite(toc[i]), toc[i].dest, FilePlace(toc[i]))
  {
    var d, o := FindCrossing(toc, i);
    PrefixIsNames(d, toc[i].dest);
    HomeShowsFile(toc, i);
    TreesAgree(toc, toc[i], d, o, toc[i].dest, FilePlace(toc[i]));
  }

  lemma PrefixIsNames(d: Path, x: Path)
    requires d <= x && AllNames(x)
    ensures AllNames(d)
  {
  }

  /** Main result: each data file, binary and extension (in a framework or not) is collected to
      one place, and both trees lead to that place from the original relative path. */
  lemma BothTreesShowFile(toc: seq<Entry>, i: nat)
    requires WellFormed(toc) && LinksPlaceable(toc) && i < |toc| && IsContent(toc[i])
    ensures var fs, place := BundleTree(toc), FilePlace(toc[i]);
      && place in fs && fs[place] == File(toc[i].src, toc[i].typecode)
      && Shows(fs, FRAMEWORKS, toc[i].dest, place)
      && Shows(fs, RESOURCES, toc[i].dest, place)
  {
    PlacedEntry(toc, i);
    HomeShowsFile(toc, i);
    OppositeShowsFile(toc, i);
  }

  /** Nothing else is shown there. */
  lemma OnlyTheFileIsShown(toc: seq<Entry>, i: nat, side: string, end: Path)
    requires WellFormed(toc) && LinksPlaceable(toc) && i < |toc| && IsContent(toc[i])
    requires side == FRAMEWORKS || side == RESOURCES
    ensures Shows(BundleTree(toc), side, toc[i].dest, end) <==> end == FilePlace(toc[i])
  {
    BothTreesShowFile(toc, i);
    if Shows(BundleTree(toc), side, toc[i].dest, end) {
      LeadsToUnique(BundleTree(toc), [CONTENTS], [side] + toc[i].dest, end, FilePlace(toc[i]));
    }
  }

  /** There is one copy: the files on disk are the entries that are not links, each at its place, ... */
  lemma FilesAreEntries(toc: seq<Entry>, p: Path)
    requires WellFormed(toc) && LinksPlaceable(toc)
    ensures p in BundleTree(toc) && BundleTree(toc)[p].File? <==>
      exists i :: 0 <= i < |toc| && toc[i].typecode != SYMLINK && p == FilePlace(toc[i])
  {
    if p in BundleTree(toc) && BundleTree(toc)[p].File? {
      BundleIsConsistent(toc);
      TreeOfKeys(BundleOf(toc));
      var k :| 0 <= k < |BundleOf(toc)| && BundleOf(toc)[k].dest == p;
      TreeOfAt(BundleOf(toc), k);
      var i := EntryOfFile(toc, k);
    }
    if i :| 0 <= i < |toc| && toc[i].typecode != SYMLINK && p == FilePlace(toc[i]) {
      PlacedEntry(toc, i);
    }
  }

  lemma EntryOfFile(toc: seq<Entry>, k: nat) returns (i: nat)
    requires HasDests(toc) && k < |BundleOf(toc)| && BundleOf(toc)[k].typecode != SYMLINK
    ensures i < |toc| && toc[i].typecode != SYMLINK && BundleOf(toc)[k].dest == FilePlace(toc[i])
  {
    var o := OriginOfEntry(toc, k);
    ItemPlace(toc, DirsOf(toc), o);
    assert o.Placed?;
    i := o.i;
  }

  /** ... and no two of them share a place. */
  lemma PlacesDiffer(toc: seq<Entry>, i: nat, j: nat)
    requires WellFormed(toc) && LinksPlaceable(toc) && i < |toc| && j < |toc| && i != j
    ensures !(FilePlace(toc[i]) <= FilePlace(toc[j]))
  {
    ItemsApart(toc, Placed(i), Placed(j));
    ItemPlace(toc, DirsOf(toc), Placed(i));
    ItemPlace(toc, DirsOf(toc), Placed(j));
  }
}
