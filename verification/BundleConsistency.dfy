/** The bundle layout is a consistent tree: no entry lies at or below another one. */
module BundleConsistency {
  import opened Paths
  import opened Toc
  import opened FileTree
  import opened BundleSpec
  import opened BundleClassification
  import opened BundleGeometry
  import opened BundleInput

  // ---- Where symbolic links below the top level go wrong ----

  /** A binary-only directory that is classified as mixed lies inside one that is not: its content is
      linked below a directory that is linked as a whole. */
  ghost predicate IsMixedInside(toc: seq<Entry>, b: Path, d: Path) {
    && b != [] && b < d && IsMisread(toc, d)
    && !HasKind(toc, b, DataKind) && !StartsWithOther(toc, |toc|, b)
  }

  /** A directory without binaries is linked as a whole into `Frameworks`, under the very name under
      which it is created there for an entry that is neither binary nor data. */
  ghost predicate IsLinkedOver(toc: seq<Entry>, d: Path) {
    && d != [] && HasKind(toc, d, OtherKind) && !HasKind(toc, d, BinaryKind) && '.' !in Last(d)
    && (Parent(d) == [] || IsMixedDir(toc, Parent(d)))
  }

  /** Neither happens. */
  ghost predicate LinksPlaceable(toc: seq<Entry>) {
    && (forall b, d :: !IsMixedInside(toc, b, d))
    && (forall d :: !IsLinkedOver(toc, d))
  }

  // ---- The two trees ----

  /** In the `Frameworks` tree: a path outside every bundle, or an entry inside one. */
  lemma FrameworksSubject(toc: seq<Entry>, o: Origin)
    requires WellFormed(toc)
    requires ValidOrigin(toc, DirsOf(toc), o) && SideOf(toc, DirsOf(toc), o) == FRAMEWORKS
    ensures var x := SubjectOf(toc, DirsOf(toc), o);
      || (IsLoose(RenamedDirs(toc), Nodes(toc), x) && !IsFramework(toc, |toc|, x))
      || (o.Placed? && FrameworkLength(x) > 0 && IsBundled(RenamedDirs(toc), x))
  {
    match o
    case CrossDir(d) =>
      LooseDir(toc, d);
    case DotLink(d) =>
      LooseDir(toc, d);
    case Placed(i) =>
      if FrameworkLength(toc[i].dest) > 0 {
        BundledEntry(toc, i);
      } else {
        LooseEntry(toc, i);
      }
    case CrossFile(i) =>
      LooseEntry(toc, i);
  }

  /** A directory that is linked into `Frameworks`, or there under two names. */
  lemma LooseDir(toc: seq<Entry>, d: Path)
    requires WellFormed(toc)
    requires (HasCrossDir(DirsOf(toc), d) && DirsOf(toc).types[d] == DataDir) || HasDotLink(DirsOf(toc), d)
    ensures IsLoose(RenamedDirs(toc), Nodes(toc), d) && !IsFramework(toc, |toc|, d)
  {
    TypeFacts(toc, d);
    AboveIsOutside(toc, d);
    DirIsNode(toc, d);
    CrossLinkParent(toc, d);
    if HasDotLink(DirsOf(toc), d) && Parent(d) != [] {
      KindsUp(toc, d, Parent(d), BinaryKind);
    }
  }

  lemma DirIsNode(toc: seq<Entry>, d: Path)
    requires ProgramAtTop(toc) && IsDirectory(toc, d)
    ensures d in Nodes(toc)
  {
    var i := EntryBelow(toc, d);
    assert IsNode(toc, d);
  }

  lemma BundledEntry(toc: seq<Entry>, i: nat)
    requires i < |toc| && FrameworkLength(toc[i].dest) > 0
    ensures IsBundled(RenamedDirs(toc), toc[i].dest)
    ensures UnitOf(toc[i]) == toc[i].dest[..SanitizedLength(toc[i].dest) + 1]
  {
    var x := toc[i].dest;
    var c := SanitizedLength(x);
    assert IsFrameworkName(x[c]);
    assert ".framework"[0] == '.' == x[c][|x[c]| - 10];
    if c > 0 {
      assert Above(x[..c], toc[i]);
    }
  }

  lemma LooseEntry(toc: seq<Entry>, i: nat)
    requires WellFormed(toc)
    requires i < |toc| && toc[i].typecode != EXECUTABLE && toc[i].typecode != PKG
    requires FrameworkLength(toc[i].dest) == 0
    requires toc[i].typecode == DATA ==> NeedsCrossLink(DirsOf(toc), toc[i].dest)
    ensures IsLoose(RenamedDirs(toc), Nodes(toc), toc[i].dest)
    ensures !IsFramework(toc, |toc|, toc[i].dest)
  {
    var e := toc[i];
    assert e.dest <= UnitOf(e);
    ParentIsAbove(toc, i);
    CrossLinkParent(toc, e.dest);
    if IsDirectory(toc, e.dest) {
      NoEntryAtDirectory(toc, e.dest, i);
    }
  }

  /** What is linked over is exactly what would hide a directory of the `Frameworks` tree. */
  lemma FrameworksAside(toc: seq<Entry>, o: Origin)
    requires WellFormed(toc)
    requires ValidOrigin(toc, DirsOf(toc), o) && SideOf(toc, DirsOf(toc), o) == FRAMEWORKS
    requires o.CrossDir? ==> !IsLinkedOver(toc, o.dir)
    ensures IsAside(RenamedDirs(toc), SubjectOf(toc, DirsOf(toc), o))
  {
    SubjectNotEmpty(toc, o);
    match o
    case CrossDir(d) =>
      TypeFacts(toc, d);
      CrossLinkParent(toc, d);
    case DotLink(d) =>
    case Placed(i) =>
      EntryIsNotRenamed(toc, i);
    case CrossFile(i) =>
      EntryIsNotRenamed(toc, i);
  }

  lemma EntryIsNotRenamed(toc: seq<Entry>, i: nat)
    requires ProgramAtTop(toc) && Unrelated(toc) && i < |toc| && toc[i].typecode != EXECUTABLE
    ensures !IsRenamed(toc, toc[i].dest)
  {
    if IsRenamed(toc, toc[i].dest) {
      NoEntryAtDirectory(toc, toc[i].dest, i);
    }
  }

  /** In the `Resources` tree: a whole directory without data, or an entry next to data or in a
      directory that is taken for mixed. */
  lemma ResourcesSubject(toc: seq<Entry>, o: Origin)
    requires WellFormed(toc)
    requires ValidOrigin(toc, DirsOf(toc), o) && SideOf(toc, DirsOf(toc), o) == RESOURCES
    ensures var x := SubjectOf(toc, DirsOf(toc), o);
      && (Parent(x) == [] || HasKind(toc, Parent(x), DataKind) || IsMixedDir(toc, Parent(x)))
      && !o.DotLink?
      && (o.CrossDir? ==> IsDirectory(toc, x) && (IsFramework(toc, |toc|, x) || HasKind(toc, x, BinaryKind)))
      && (o.CrossDir? ==> !IsMixedDir(toc, x))
      && (o.Placed? || o.CrossFile? ==> toc[o.i].typecode != EXECUTABLE)
  {
    DistinctSides();
    match o
    case CrossDir(d) =>
      TypeFacts(toc, d);
      CrossLinkParent(toc, d);
    case Placed(i) =>
      if toc[i].typecode == DATA {
        ParentIsAbove(toc, i);
      }
    case CrossFile(i) =>
      CrossLinkParent(toc, toc[i].dest);
  }

  // ---- No two bundle entries overlap ----

  lemma SubjectNotEmpty(toc: seq<Entry>, o: Origin)
    requires HasDests(toc) && ValidOrigin(toc, DirsOf(toc), o)
    ensures SubjectOf(toc, DirsOf(toc), o) != []
  {
    if o.CrossDir? {
      ClassificationIsDeclared(toc);
    }
  }

  function Place(side: string, x: Path): Path
    requires x != []
  {
    Rooted(side, if side == RESOURCES then x else Placement(x))
  }

  lemma ItemPlace(toc: seq<Entry>, ds: Dirs, o: Origin)
    requires ValidOrigin(toc, ds, o) && SubjectOf(toc, ds, o) != []
    ensures Item(toc, ds, o) == RawItem(toc, ds, o).(dest := Place(SideOf(toc, ds, o), SubjectOf(toc, ds, o)))
  {
    SanitizeRooted(RawItem(toc, ds, o), SideOf(toc, ds, o), SubjectOf(toc, ds, o));
  }

  lemma DistinctSides()
    ensures MACOS != FRAMEWORKS && MACOS != RESOURCES && FRAMEWORKS != RESOURCES
  {
    assert MACOS[0] == 'M' && FRAMEWORKS[0] == 'F' && RESOURCES[0] == 'R';
  }

  /** Different origins in the same tree concern different paths. */
  lemma SubjectsDiffer(toc: seq<Entry>, o: Origin, p: Origin)
    requires WellFormed(toc) && o != p
    requires ValidOrigin(toc, DirsOf(toc), o) && ValidOrigin(toc, DirsOf(toc), p)
    requires SideOf(toc, DirsOf(toc), o) == SideOf(toc, DirsOf(toc), p)
    ensures SubjectOf(toc, DirsOf(toc), o) != SubjectOf(toc, DirsOf(toc), p)
  {
    DistinctSides();
    if (o.CrossDir? || o.DotLink?) && (p.Placed? || p.CrossFile?) {
      DirectoryIsNoEntry(toc, o, p);
    } else if (p.CrossDir? || p.DotLink?) && (o.Placed? || o.CrossFile?) {
      DirectoryIsNoEntry(toc, p, o);
    }
  }

  lemma DirectoryIsNoEntry(toc: seq<Entry>, o: Origin, p: Origin)
    requires WellFormed(toc)
    requires ValidOrigin(toc, DirsOf(toc), o) && ValidOrigin(toc, DirsOf(toc), p)
    requires SideOf(toc, DirsOf(toc), o) == SideOf(toc, DirsOf(toc), p)
    requires (o.CrossDir? || o.DotLink?) && (p.Placed? || p.CrossFile?)
    ensures !(SubjectOf(toc, DirsOf(toc), p) <= SubjectOf(toc, DirsOf(toc), o))
  {
    DistinctSides();
    TypeFacts(toc, o.dir);
    NoEntryAtDirectory(toc, o.dir, p.i);
  }

  lemma ResourcesApart(toc: seq<Entry>, o: Origin, p: Origin)
    requires WellFormed(toc) && (forall b, d :: !IsMixedInside(toc, b, d)) && o != p
    requires ValidOrigin(toc, DirsOf(toc), o) && ValidOrigin(toc, DirsOf(toc), p)
    requires SideOf(toc, DirsOf(toc), o) == SideOf(toc, DirsOf(toc), p) == RESOURCES
    ensures !(SubjectOf(toc, DirsOf(toc), o) <= SubjectOf(toc, DirsOf(toc), p))
  {
    ResourcesSubject(toc, o);
    ResourcesSubject(toc, p);
    SubjectsDiffer(toc, o, p);
    if o.CrossDir? {
      BelowLinkedDir(toc, o.dir, SubjectOf(toc, DirsOf(toc), p));
    } else if p.CrossDir? {
      DirectoryIsNoEntry(toc, p, o);
    }
  }

  lemma BelowLinkedDir(toc: seq<Entry>, b: Path, y: Path)
    requires NoNestedFrameworks(toc) && (forall c :: !IsMixedInside(toc, b, c))
    requires b != [] && b != y && !IsMixedDir(toc, b)
    requires IsFramework(toc, |toc|, b) || HasKind(toc, b, BinaryKind)
    requires Parent(y) == [] || HasKind(toc, Parent(y), DataKind) || IsMixedDir(toc, Parent(y))
    ensures !(b <= y)
  {
    if b < y {
      NothingBelowLinkedDir(toc, b, Parent(y));
    }
  }

  /** Inside a directory that `Resources` has as a whole, there is no mixed one and no data. */
  lemma NothingBelowLinkedDir(toc: seq<Entry>, b: Path, d: Path)
    requires NoNestedFrameworks(toc) && (forall c :: !IsMixedInside(toc, b, c))
    requires b != [] && b <= d && !IsMixedDir(toc, b)
    requires IsFramework(toc, |toc|, b) || HasKind(toc, b, BinaryKind)
    ensures !HasKind(toc, d, DataKind) && !IsMixedDir(toc, d)
  {
    if HasKind(toc, d, DataKind) {
      KindsUp(toc, d, b, DataKind);
      BelowIsOutside(toc, b, DataKind);
    } else if IsMixedDir(toc, d) {
      MixedIsMisread(toc, b, d);
    }
  }

  lemma MixedIsMisread(toc: seq<Entry>, b: Path, d: Path)
    requires NoNestedFrameworks(toc)
    requires b != [] && b <= d && !IsMixedDir(toc, b) && IsMixedDir(toc, d) && !HasKind(toc, d, DataKind)
    requires IsFramework(toc, |toc|, b) || HasKind(toc, b, BinaryKind)
    ensures IsMixedInside(toc, b, d)
  {
    KindsUp(toc, d, b, BinaryKind);
    BelowIsOutside(toc, b, BinaryKind);
    BelowIsOutside(toc, d, BinaryKind);
  }

  lemma BelowIsOutside(toc: seq<Entry>, d: Path, kind: Kind)
    requires NoNestedFrameworks(toc) && HasKind(toc, d, kind)
    ensures !IsFramework(toc, |toc|, d)
  {
    AnyIfSome(toc, d, kind);
    AboveIsOutside(toc, d);
  }

  lemma FrameworksApart(toc: seq<Entry>, o: Origin, p: Origin)
    requires WellFormed(toc) && o != p
    requires ValidOrigin(toc, DirsOf(toc), o) && ValidOrigin(toc, DirsOf(toc), p)
    requires SideOf(toc, DirsOf(toc), o) == SideOf(toc, DirsOf(toc), p) == FRAMEWORKS
    requires o.CrossDir? ==> !IsLinkedOver(toc, o.dir)
    ensures var x, y := SubjectOf(toc, DirsOf(toc), o), SubjectOf(toc, DirsOf(toc), p);
      x != [] && y != [] && !(Placement(x) <= Placement(y))
  {
    var x, y := SubjectOf(toc, DirsOf(toc), o), SubjectOf(toc, DirsOf(toc), p);
    SubjectNotEmpty(toc, o);
    SubjectNotEmpty(toc, p);
    FrameworksSubject(toc, o);
    FrameworksSubject(toc, p);
    FrameworksAside(toc, o);
    SubjectsDiffer(toc, o, p);
    RenamedUpClosed(toc);
    RenamedAreNodes(toc);
    var renamed, nodes := RenamedDirs(toc), Nodes(toc);
    if !IsLoose(renamed, nodes, x) {
      BundlesApart(toc, o, p);
    }
    if !IsLoose(renamed, nodes, y) {
      NotTheBundle(toc, o, p);
    }
    PlacementsApart(renamed, nodes, x, y);
  }

  /** An entry inside a framework bundle has no other entry for the bundle itself beside it. */
  lemma NotTheBundle(toc: seq<Entry>, o: Origin, p: Origin)
    requires WellFormed(toc) && o != p
    requires ValidOrigin(toc, DirsOf(toc), o) && ValidOrigin(toc, DirsOf(toc), p)
    requires SideOf(toc, DirsOf(toc), o) == SideOf(toc, DirsOf(toc), p) == FRAMEWORKS
    requires SubjectOf(toc, DirsOf(toc), p) != []
    requires !IsLoose(RenamedDirs(toc), Nodes(toc), SubjectOf(toc, DirsOf(toc), p))
    ensures var y := SubjectOf(toc, DirsOf(toc), p); SubjectOf(toc, DirsOf(toc), o) != y[..SanitizedLength(y) + 1]
  {
    var x, y := SubjectOf(toc, DirsOf(toc), o), SubjectOf(toc, DirsOf(toc), p);
    FrameworksSubject(toc, o);
    FrameworksSubject(toc, p);
    BundledEntry(toc, p.i);
    assert IsFramework(toc, |toc|, y[..SanitizedLength(y) + 1]);
    if x == y[..SanitizedLength(y) + 1] {
      BundlesApart(toc, o, p);
    }
  }

  /** An entry inside a framework is not above anything else in its tree. */
  lemma BundlesApart(toc: seq<Entry>, o: Origin, p: Origin)
    requires WellFormed(toc) && o != p
    requires ValidOrigin(toc, DirsOf(toc), o) && ValidOrigin(toc, DirsOf(toc), p)
    requires SideOf(toc, DirsOf(toc), o) == SideOf(toc, DirsOf(toc), p) == FRAMEWORKS
    requires o.Placed?
    ensures !(SubjectOf(toc, DirsOf(toc), o) <= SubjectOf(toc, DirsOf(toc), p))
  {
    DistinctSides();
    if p.CrossDir? || p.DotLink? {
      DirectoryIsNoEntry(toc, p, o);
    } else {
      SubjectsDiffer(toc, o, p);
    }
  }

  /** No bundle entry is placed at or below another one. */
  lemma ItemsApart(toc: seq<Entry>, o: Origin, p: Origin)
    requires WellFormed(toc) && LinksPlaceable(toc) && o != p
    requires ValidOrigin(toc, DirsOf(toc), o) && ValidOrigin(toc, DirsOf(toc), p)
    ensures SubjectOf(toc, DirsOf(toc), o) != [] && SubjectOf(toc, DirsOf(toc), p) != []
    ensures !(Item(toc, DirsOf(toc), o).dest <= Item(toc, DirsOf(toc), p).dest)
  {
    var ds := DirsOf(toc);
    SubjectNotEmpty(toc, o);
    SubjectNotEmpty(toc, p);
    ItemPlace(toc, ds, o);
    ItemPlace(toc, ds, p);
    var s, t := SideOf(toc, ds, o), SideOf(toc, ds, p);
    var x, y := SubjectOf(toc, ds, o), SubjectOf(toc, ds, p);
    if s == t {
      if s == RESOURCES {
        ResourcesApart(toc, o, p);
      } else if s == FRAMEWORKS {
        FrameworksApart(toc, o, p);
      } else {
        ProgramsApart(toc, o, p);
      }
    }
    PlacesApart(s, x, t, y);
  }

  lemma PlacesApart(s: string, x: Path, t: string, y: Path)
    requires x != [] && y != []
    requires s == t ==> !(if s == RESOURCES then x <= y else Placement(x) <= Placement(y))
    ensures !(Place(s, x) <= Place(t, y))
  {
    RootedApart(s, if s == RESOURCES then x else Placement(x), t, if t == RESOURCES then y else Placement(y));
  }

  lemma ProgramsApart(toc: seq<Entry>, o: Origin, p: Origin)
    requires WellFormed(toc) && o != p
    requires ValidOrigin(toc, DirsOf(toc), o) && ValidOrigin(toc, DirsOf(toc), p)
    requires SideOf(toc, DirsOf(toc), o) == SideOf(toc, DirsOf(toc), p)
    requires SideOf(toc, DirsOf(toc), o) != RESOURCES && SideOf(toc, DirsOf(toc), o) != FRAMEWORKS
    ensures var x, y := SubjectOf(toc, DirsOf(toc), o), SubjectOf(toc, DirsOf(toc), p);
      x != [] && y != [] && !(Placement(x) <= Placement(y))
  {
    SubjectNotEmpty(toc, o);
    SubjectNotEmpty(toc, p);
    SubjectsDiffer(toc, o, p);
    var x, y := SubjectOf(toc, DirsOf(toc), o), SubjectOf(toc, DirsOf(toc), p);
    assert Placement(x) == x && Placement(y) == y;
  }

  lemma RootedApart(s: string, x: Path, t: string, y: Path)
    ensures Rooted(s, x) <= Rooted(t, y) <==> s == t && x <= y
    ensures Rooted(s, x)[2..] == x
  {
    var p, q := Rooted(s, x), Rooted(t, y);
    assert forall i :: 0 <= i < |x| ==> p[i + 2] == x[i];
    assert forall i :: 0 <= i < |y| ==> q[i + 2] == y[i];
    if p <= q {
      assert p[1] == q[1];
      forall i | 0 <= i < |x|
        ensures x[i] == y[i]
      {
        assert p[i + 2] == q[i + 2];
      }
    }
  }

  // ---- No two bundle entries share a destination, wherever links lie ----

  lemma ItemsDiffer(toc: seq<Entry>, o: Origin, p: Origin)
    requires WellFormed(toc) && o != p
    requires ValidOrigin(toc, DirsOf(toc), o) && ValidOrigin(toc, DirsOf(toc), p)
    ensures SubjectOf(toc, DirsOf(toc), o) != [] && SubjectOf(toc, DirsOf(toc), p) != []
    ensures Item(toc, DirsOf(toc), o).dest != Item(toc, DirsOf(toc), p).dest
  {
    var ds := DirsOf(toc);
    SubjectNotEmpty(toc, o);
    SubjectNotEmpty(toc, p);
    ItemPlace(toc, ds, o);
    ItemPlace(toc, ds, p);
    var s, t := SideOf(toc, ds, o), SideOf(toc, ds, p);
    if s == t {
      SubjectsDiffer(toc, o, p);
      if s == FRAMEWORKS {
        FrameworksDiffer(toc, o, p);
      } else if s != RESOURCES {
        ProgramsApart(toc, o, p);
      }
    }
    PlacesDiffer(s, SubjectOf(toc, ds, o), t, SubjectOf(toc, ds, p));
  }

  lemma FrameworksDiffer(toc: seq<Entry>, o: Origin, p: Origin)
    requires WellFormed(toc) && o != p
    requires ValidOrigin(toc, DirsOf(toc), o) && ValidOrigin(toc, DirsOf(toc), p)
    requires SideOf(toc, DirsOf(toc), o) == SideOf(toc, DirsOf(toc), p) == FRAMEWORKS
    ensures var x, y := SubjectOf(toc, DirsOf(toc), o), SubjectOf(toc, DirsOf(toc), p);
      x != [] && y != [] && Placement(x) != Placement(y)
  {
    FrameworksSubject(toc, o);
    FrameworksSubject(toc, p);
    SubjectsDiffer(toc, o, p);
    RenamedUpClosed(toc);
    RenamedAreNodes(toc);
    PlacementsDiffer(RenamedDirs(toc), Nodes(toc), SubjectOf(toc, DirsOf(toc), o), SubjectOf(toc, DirsOf(toc), p));
  }

  lemma PlacesDiffer(s: string, x: Path, t: string, y: Path)
    requires x != [] && y != []
    requires s == t ==> if s == RESOURCES then x != y else Placement(x) != Placement(y)
    ensures Place(s, x) != Place(t, y)
  {
    var u, v := if s == RESOURCES then x else Placement(x), if t == RESOURCES then y else Placement(y);
    RootedApart(s, u, t, v);
    RootedApart(t, v, s, u);
  }

  // ---- The whole bundle ----

  ghost predicate NoDuplicates(os: seq<Origin>) {
    forall i, j :: 0 <= i < j < |os| ==> os[i] != os[j]
  }

  lemma {:induction false} CrossDirOriginsDistinct(ds: Dirs, order: seq<Path>)
    requires forall i, j :: 0 <= i < j < |order| ==> order[i] != order[j]
    ensures NoDuplicates(CrossDirOrigins(ds, order))
  {
    if order != [] {
      var init := order[..|order| - 1];
      CrossDirOriginsDistinct(ds, init);
      var os := CrossDirOrigins(ds, init);
      forall k | 0 <= k < |os|
        ensures os[k] != CrossDir(order[|order| - 1])
      {
        assert os[k] in os && os[k].dir in init;
      }
    }
  }

  lemma {:induction false} DotLinkOriginsDistinct(ds: Dirs, order: seq<Path>)
    requires forall i, j :: 0 <= i < j < |order| ==> order[i] != order[j]
    ensures NoDuplicates(DotLinkOrigins(ds, order))
  {
    if order != [] {
      var init := order[..|order| - 1];
      DotLinkOriginsDistinct(ds, init);
      var os := DotLinkOrigins(ds, init);
      forall k | 0 <= k < |os|
        ensures os[k] != DotLink(order[|order| - 1])
      {
        assert os[k] in os && os[k].dir in init;
      }
    }
  }

  lemma {:induction false} FileOriginsDistinct(toc: seq<Entry>, ds: Dirs, n: nat)
    requires n <= |toc|
    ensures NoDuplicates(FileOrigins(toc, ds, n))
  {
    if n > 0 {
      FileOriginsDistinct(toc, ds, n - 1);
      var os := FileOrigins(toc, ds, n - 1);
      forall k | 0 <= k < |os|
        ensures os[k] != Placed(n - 1) && os[k] != CrossFile(n - 1)
      {
        assert os[k] in os;
      }
    }
  }

  lemma OriginsDistinct(toc: seq<Entry>)
    ensures NoDuplicates(Origins(toc, DirsOf(toc)))
  {
    var ds := DirsOf(toc);
    ClassifyIsDict(toc, |toc|);
    CrossDirOriginsDistinct(ds, ds.order);
    DotLinkOriginsDistinct(ds, ds.order);
    FileOriginsDistinct(toc, ds, |toc|);
    var a, b, c := CrossDirOrigins(ds, ds.order), DotLinkOrigins(ds, ds.order), FileOrigins(toc, ds, |toc|);
    NoDuplicatesConcat(a, b);
    NoDuplicatesConcat(a + b, c);
  }

  lemma NoDuplicatesConcat(a: seq<Origin>, b: seq<Origin>)
    requires NoDuplicates(a) && NoDuplicates(b) && forall o :: o in a ==> o !in b
    ensures NoDuplicates(a + b)
  {
    forall i, j | 0 <= i < j < |a + b|
      ensures (a + b)[i] != (a + b)[j]
    {
      assert i < |a| ==> a[i] in a;
      assert j >= |a| ==> b[j - |a|] in b;
    }
  }

  /** Exactly the valid origins occur. */
  lemma OriginsComplete(toc: seq<Entry>, o: Origin)
    ensures o in Origins(toc, DirsOf(toc)) <==> ValidOrigin(toc, DirsOf(toc), o)
  {
    ClassifyIsDict(toc, |toc|);
  }

  lemma OriginsValid(toc: seq<Entry>)
    requires HasDests(toc)
    ensures forall o :: o in Origins(toc, DirsOf(toc)) ==>
      ValidOrigin(toc, DirsOf(toc), o) && SubjectOf(toc, DirsOf(toc), o) != []
  {
    forall o | o in Origins(toc, DirsOf(toc))
      ensures ValidOrigin(toc, DirsOf(toc), o) && SubjectOf(toc, DirsOf(toc), o) != []
    {
      OriginsComplete(toc, o);
      SubjectNotEmpty(toc, o);
    }
  }

  /** The bundle entries in the order of their creation. */
  ghost function BundleOf(toc: seq<Entry>): (r: seq<Entry>)
    requires HasDests(toc)
    ensures |r| == |Origins(toc, DirsOf(toc))|
  {
    OriginsValid(toc);
    Items(toc, DirsOf(toc), Origins(toc, DirsOf(toc)))
  }

  /** Each origin has its entry in the bundle, ... */
  lemma ItemInBundle(toc: seq<Entry>, o: Origin) returns (k: nat)
    requires HasDests(toc) && ValidOrigin(toc, DirsOf(toc), o)
    ensures SubjectOf(toc, DirsOf(toc), o) != []
    ensures k < |BundleOf(toc)| && BundleOf(toc)[k] == Item(toc, DirsOf(toc), o)
  {
    OriginsValid(toc);
    OriginsComplete(toc, o);
    var os := Origins(toc, DirsOf(toc));
    k :| 0 <= k < |os| && os[k] == o;
  }

  /** ... and each bundle entry has its origin. */
  lemma OriginOfEntry(toc: seq<Entry>, k: nat) returns (o: Origin)
    requires HasDests(toc) && k < |BundleOf(toc)|
    ensures o == Origins(toc, DirsOf(toc))[k] && ValidOrigin(toc, DirsOf(toc), o)
    ensures SubjectOf(toc, DirsOf(toc), o) != []
    ensures BundleOf(toc)[k] == Item(toc, DirsOf(toc), o)
  {
    OriginsValid(toc);
    o := Origins(toc, DirsOf(toc))[k];
    assert o in Origins(toc, DirsOf(toc));
  }

  /** Destinations are distinct, even if there are links that cannot be placed. */
  lemma DestsDistinct(toc: seq<Entry>)
    requires WellFormed(toc)
    ensures DistinctDests(BundleOf(toc))
  {
    OriginsDistinct(toc);
    forall k, l | 0 <= k < l < |BundleOf(toc)|
      ensures BundleOf(toc)[k].dest != BundleOf(toc)[l].dest
    {
      var o := OriginOfEntry(toc, k);
      var p := OriginOfEntry(toc, l);
      assert o != p;
      ItemsDiffer(toc, o, p);
    }
  }

  lemma EntriesApart(toc: seq<Entry>, k: nat, l: nat)
    requires WellFormed(toc) && LinksPlaceable(toc)
    requires k < |BundleOf(toc)| && l < |BundleOf(toc)| && k != l
    ensures !(BundleOf(toc)[k].dest <= BundleOf(toc)[l].dest)
  {
    OriginsDistinct(toc);
    var o := OriginOfEntry(toc, k);
    var p := OriginOfEntry(toc, l);
    assert o != p;
    ItemsApart(toc, o, p);
  }

  lemma EntryShape(toc: seq<Entry>, k: nat)
    requires HasDests(toc) && k < |BundleOf(toc)|
    ensures |BundleOf(toc)[k].dest| >= 3
  {
    var o := OriginOfEntry(toc, k);
    var ds := DirsOf(toc);
    ItemPlace(toc, ds, o);
  }

  /** What is on disk once the bundle is assembled. */
  ghost function BundleTree(toc: seq<Entry>): Tree
    requires HasDests(toc)
  {
    TreeOf(BundleOf(toc))
  }

  /** Destinations are distinct, and nothing is collected at or below a file or a link, so creating
      parent directories never runs into one. */
  ghost predicate IsConsistent(toc: seq<Entry>)
    requires HasDests(toc)
  {
    DistinctDests(BundleOf(toc)) && PrefixFree(BundleTree(toc))
  }

  lemma BundleIsConsistent(toc: seq<Entry>)
    requires WellFormed(toc) && LinksPlaceable(toc)
    ensures IsConsistent(toc)
  {
    var b := BundleOf(toc);
    forall i, j | 0 <= i < |b| && 0 <= j < |b| && i != j
      ensures !(b[i].dest <= b[j].dest)
    {
      EntriesApart(toc, i, j);
    }
    forall i | 0 <= i < |b|
      ensures |b[i].dest| >= 3
    {
      EntryShape(toc, i);
    }
    ApartIsPrefixFree(b);
  }

  lemma ItemInTree(toc: seq<Entry>, o: Origin)
    requires WellFormed(toc) && LinksPlaceable(toc) && ValidOrigin(toc, DirsOf(toc), o)
    ensures SubjectOf(toc, DirsOf(toc), o) != []
    ensures var e := Item(toc, DirsOf(toc), o);
      e.dest in BundleTree(toc) && BundleTree(toc)[e.dest] == NodeOf(e)
  {
    BundleIsConsistent(toc);
    var k := ItemInBundle(toc, o);
    TreeOfAt(BundleOf(toc), k);
  }
}
