/** What the collected symbolic links show in the two trees of the bundle. */
module BundleLinks {
  import opened Paths
  import opened Toc
  import opened FileTree
  import opened BundleSpec
  import opened BundleClassification
  import opened BundleGeometry
  import opened BundleInput
  import opened BundleConsistency
  import opened BundlePaths
  import opened BundleViews

  /** A symbolic link outside framework bundles with a normal, relative text. */
  ghost predicate IsLooseLink(e: Entry) {
    e.typecode == SYMLINK && FrameworkLength(e.dest) == 0 && IsNormal(e.src) && !IsAbsolute(e.src)
  }

  /** Read from the original directory of the link, its text names the destination of the other entry. */
  ghost predicate Names(link: Entry, e: Entry) {
    NormPath(Parent(link.dest) + link.src) == e.dest
  }

  /** `d` is created without its dots in `Frameworks`, and no link has its original name. */
  ghost predicate LosesName(toc: seq<Entry>, d: Path) {
    d != [] && '.' in Last(d) && !HasKind(toc, d, BinaryKind)
  }

  /** No directory above the entry does. */
  ghost predicate KeepsNames(toc: seq<Entry>, e: Entry) {
    forall d :: Above(d, e) ==> !LosesName(toc, d)
  }

  /** The directories of the `Frameworks` tree that are found under their original names. */
  ghost function NamedDirs(toc: seq<Entry>): iset<Path> {
    iset d | IsRenamed(toc, d) && forall c :: c <= d ==> !LosesName(toc, c)
  }

  lemma NamedUpClosed(toc: seq<Entry>)
    ensures UpClosed(NamedDirs(toc))
  {
    RenamedUpClosed(toc);
    forall d, k | d in NamedDirs(toc) && 0 < k <= |d|
      ensures d[..k] in NamedDirs(toc)
    {
      assert d in RenamedDirs(toc) && d[..k] in RenamedDirs(toc);
      forall c | c <= d[..k]
        ensures !LosesName(toc, c)
      {
        assert c <= d;
      }
    }
  }

  /** `Frameworks` shows such directories as it shows those with binaries. */
  lemma NamedDirsShown(toc: seq<Entry>, d: Path)
    requires WellFormed(toc) && LinksPlaceable(toc) && IsTop(NamedDirs(toc), d)
    ensures Shows(BundleTree(toc), FRAMEWORKS, d, RenamedPlace(d)) && RenamedPlace(d) !in BundleTree(toc)
  {
    var fs, dirs := BundleTree(toc), NamedDirs(toc);
    BundleIsConsistent(toc);
    NamedUpClosed(toc);
    forall c
      ensures RenamedDirAt(fs, dirs, c)
    {
      if c == [] {
        assert RenamedPlace(c) == [CONTENTS, FRAMEWORKS];
      } else if c in dirs {
        RenamedExists(toc, c);
      }
    }
    forall c
      ensures DotLinkAt(fs, dirs, c)
    {
      if c in dirs && c != [] && '.' in Last(c) {
        assert c <= c && !LosesName(toc, c);
        DotLinkExists(toc, c);
      }
    }
    FrameworksShowDirectory(fs, dirs, d);
  }

  // ---- Links that are shown ----

  /** A link at `p + [name]`, below a directory of the tree `side` that is at `place(p)`, with a text
      that climbs to `u` and names `q` there. */
  lemma ThroughText(fs: Tree, side: string, top: Path, below: Path, u: Path, p: Path, name: string, q: Path,
                    d: Path, end: Path)
    requires u + q == d && IsName(name) && top !in fs && top + below !in fs
    requires Shows(fs, side, u, top) && Shows(fs, side, p, top + below)
    requires top + below + [name] in fs && fs[top + below + [name]] == Link(Ups(|below|) + q)
    requires Shows(fs, side, d, end)
    ensures Shows(fs, side, p + [name], end)
  {
    assert [side] + u + q == [side] + d;
    LeadsToSplit(fs, [CONTENTS], [side] + u, top, q, end);
    assert q + [] == q && [name] + [] == [name];
    FollowCrossLink(fs, top, below, name, q, [], end);
    ShowsCompose(fs, side, p, top + below, [name], end, p + [name]);
  }

  /** The text of a link taken apart: up to the `k`-th directory above it, and down from there. */
  lemma LinkParts(toc: seq<Entry>, i: nat, j: nat) returns (k: nat, n: nat, q: Path)
    requires ValidNames(toc) && i < |toc| && j < |toc| && IsLooseLink(toc[i]) && Names(toc[i], toc[j])
    ensures toc[i].src == Ups(n) + q && k + n + 1 == |toc[i].dest|
    ensures Parent(toc[i].dest)[..k] + q == toc[j].dest
  {
    n, q := RelativeParts(toc[i].src);
    var p := Parent(toc[i].dest);
    assert AllNames(p);
    RelativeNames(p, n, q, toc[j].dest);
    k := |p| - n;
  }

  lemma NamesOfEntry(toc: seq<Entry>, i: nat)
    requires ValidNames(toc) && i < |toc|
    ensures AllNames(Parent(toc[i].dest)) && IsName(Last(toc[i].dest))
    ensures Parent(toc[i].dest) + [Last(toc[i].dest)] == toc[i].dest
  {
  }

  lemma LinkInFrameworks(toc: seq<Entry>, i: nat)
    requires WellFormed(toc) && LinksPlaceable(toc) && i < |toc| && IsLooseLink(toc[i])
    ensures var p := RenamedPlace(Parent(toc[i].dest)) + [Last(toc[i].dest)];
      p in BundleTree(toc) && BundleTree(toc)[p] == Link(toc[i].src)
  {
    PlacedEntry(toc, i);
    PlaceOfChild(toc[i].dest);
    SidesAreNames();
  }

  lemma ParentIsNamed(toc: seq<Entry>, i: nat)
    requires HasDests(toc) && i < |toc| && IsLooseLink(toc[i]) && KeepsNames(toc, toc[i])
    ensures IsTop(NamedDirs(toc), Parent(toc[i].dest))
  {
    ParentIsAbove(toc, i);
    var p := Parent(toc[i].dest);
    forall c | c <= p
      ensures !LosesName(toc, c)
    {
      assert c != [] ==> Above(c, toc[i]);
    }
  }

  lemma RenamedPlaceSplit(p: Path, k: nat) returns (below: Path)
    requires k <= |p|
    ensures RenamedPlace(p) == RenamedPlace(p[..k]) + below && |below| == |p| - k
  {
    below := SanitizedSplit(p, k);
    assert |p[..k]| == k;
    RootedAppend(SanitizedBetween(p[..k], 0, k), below);
  }

  lemma SanitizedSplit(p: Path, k: nat) returns (below: Path)
    requires k <= |p|
    ensures SanitizedBetween(p, 0, |p|) == SanitizedBetween(p[..k], 0, k) + below && |below| == |p| - k
  {
    var s, t := SanitizedBetween(p, 0, |p|), SanitizedBetween(p[..k], 0, k);
    below := s[k..];
    forall m | 0 <= m < k
      ensures s[m] == t[m]
    {
      assert p[..k][m] == p[m];
    }
    assert s == s[..k] + below && s[..k] == t;
  }

  /** In `Frameworks`, a text that climbs from the directory `p` to the `k`-th directory above. */
  lemma FrameworksThroughText(fs: Tree, p: Path, k: nat, n: nat, name: string, q: Path, d: Path, end: Path)
    requires k + n == |p| && p[..k] + q == d && IsName(name) && RenamedPlace(p[..k]) !in fs && RenamedPlace(p) !in fs
    requires Shows(fs, FRAMEWORKS, p[..k], RenamedPlace(p[..k])) && Shows(fs, FRAMEWORKS, p, RenamedPlace(p))
    requires RenamedPlace(p) + [name] in fs && fs[RenamedPlace(p) + [name]] == Link(Ups(n) + q)
    requires Shows(fs, FRAMEWORKS, d, end)
    ensures Shows(fs, FRAMEWORKS, p + [name], end)
  {
    var below := RenamedPlaceSplit(p, k);
    ThroughText(fs, FRAMEWORKS, RenamedPlace(p[..k]), below, p[..k], p, name, q, d, end);
  }

  lemma FrameworksShowLink(toc: seq<Entry>, i: nat, j: nat)
    requires WellFormed(toc) && LinksPlaceable(toc) && i < |toc| && j < |toc|
    requires IsLooseLink(toc[i]) && IsContent(toc[j]) && Names(toc[i], toc[j]) && KeepsNames(toc, toc[i])
    ensures Shows(BundleTree(toc), FRAMEWORKS, toc[i].dest, FilePlace(toc[j]))
  {
    var k, n, q := LinkParts(toc, i, j);
    BothTreesShowFile(toc, j);
    FrameworksThroughLink(toc, i, k, n, q, toc[j].dest, FilePlace(toc[j]));
  }

  lemma FrameworksThroughLink(toc: seq<Entry>, i: nat, k: nat, n: nat, q: Path, d: Path, end: Path)
    requires WellFormed(toc) && LinksPlaceable(toc) && i < |toc| && IsLooseLink(toc[i]) && KeepsNames(toc, toc[i])
    requires k + n + 1 == |toc[i].dest| && toc[i].src == Ups(n) + q
    requires Parent(toc[i].dest)[..k] + q == d && Shows(BundleTree(toc), FRAMEWORKS, d, end)
    ensures Shows(BundleTree(toc), FRAMEWORKS, toc[i].dest, end)
  {
    var x, p := toc[i].dest, Parent(toc[i].dest);
    AboveIsShown(toc, i, k);
    AboveIsShown(toc, i, |p|);
    assert p[..|p|] == p;
    LinkInFrameworks(toc, i);
    NamesOfEntry(toc, i);
    FrameworksThroughText(BundleTree(toc), p, k, n, Last(x), q, d, end);
  }

  lemma AboveIsShown(toc: seq<Entry>, i: nat, k: nat)
    requires WellFormed(toc) && LinksPlaceable(toc) && i < |toc| && k < |toc[i].dest|
    requires IsLooseLink(toc[i]) && KeepsNames(toc, toc[i])
    ensures var u := Parent(toc[i].dest)[..k];
      Shows(BundleTree(toc), FRAMEWORKS, u, RenamedPlace(u)) && RenamedPlace(u) !in BundleTree(toc)
  {
    ParentIsNamed(toc, i);
    NamedUpClosed(toc);
    TopUp(NamedDirs(toc), Parent(toc[i].dest), k);
    NamedDirsShown(toc, Parent(toc[i].dest)[..k]);
  }

  // ---- From one tree to the other ----

  /** A directory with binaries above a link that is linked into `Resources` as a whole. */
  lemma BinaryDirCrosses(toc: seq<Entry>, i: nat, d: Path)
    requires WellFormed(toc) && i < |toc| && IsLooseLink(toc[i]) && Above(d, toc[i])
    requires HasKind(toc, d, BinaryKind) && !IsMixed(DirsOf(toc), d) && NeedsCrossLink(DirsOf(toc), d)
    ensures IsCrossing(toc, toc[i], d, CrossDir(d)) && AllNames(d)
  {
    BinaryDirIsClassified(toc, d);
    CrossParents(toc, d);
    SidesAreNames();
    CrossLinkText(RESOURCES, FRAMEWORKS, d);
    NamesAbove(toc, d, i);
  }

  lemma MixedHoldBinaries(toc: seq<Entry>, x: Path, m: nat)
    requires NoNestedFrameworks(toc) && m <= |x| && forall n :: 1 <= n < m ==> IsMixed(DirsOf(toc), x[..n])
    ensures forall c :: c != [] && c < x[..m] ==> HasKind(toc, c, BinaryKind)
  {
    forall c | c != [] && c < x[..m]
      ensures HasKind(toc, c, BinaryKind)
    {
      assert c == x[..|c|];
      TypeFacts(toc, c);
    }
  }

  /** A directory without binaries above a link that is linked into `Frameworks` as a whole. */
  lemma LinkedDirLosesName(toc: seq<Entry>, i: nat, d: Path)
    requires WellFormed(toc) && LinksPlaceable(toc) && i < |toc| && IsLooseLink(toc[i]) && Above(d, toc[i])
    requires NeedsCrossLink(DirsOf(toc), d) && !HasKind(toc, d, BinaryKind)
    ensures LosesName(toc, d)
  {
    assert HasKind(toc, d, OtherKind);
    CrossLinkParent(toc, d);
    assert !IsLinkedOver(toc, d);
  }

  /** Along the path of a link: either it is linked into `Resources` itself, or a directory above it
      is, or one above it without binaries is linked into `Frameworks`. */
  lemma LinkCrossing(toc: seq<Entry>, i: nat) returns (d: Path)
    requires WellFormed(toc) && i < |toc| && IsLooseLink(toc[i])
    ensures NeedsCrossLink(DirsOf(toc), d) && d <= toc[i].dest && d != []
    ensures d != toc[i].dest ==> Above(d, toc[i]) && !IsMixed(DirsOf(toc), d)
    ensures forall c :: c != [] && c < d ==> HasKind(toc, c, BinaryKind)
  {
    var x := toc[i].dest;
    assert Parent(x[..1]) == [];
    var m := FirstUnmixed(DirsOf(toc), x, 1);
    d := x[..m];
    MixedHoldBinaries(toc, x, m);
  }

  // ---- In `Resources` ----

  lemma ResourcesThroughText(fs: Tree, p: Path, k: nat, n: nat, name: string, q: Path, d: Path, end: Path)
    requires PrefixFree(fs) && k + n == |p| && p[..k] + q == d && IsName(name) && AllNames(p)
    requires Rooted(RESOURCES, p) + [name] in fs && fs[Rooted(RESOURCES, p) + [name]] == Link(Ups(n) + q)
    requires Shows(fs, RESOURCES, d, end)
    ensures Shows(fs, RESOURCES, p + [name], end)
  {
    var u := p[..k];
    var top, base, at := Rooted(RESOURCES, u), Rooted(RESOURCES, p), Rooted(RESOURCES, p) + [name];
    assert p == u + p[k..];
    assert base == top + p[k..];
    DirBelow(fs, base, at);
    DirBelow(fs, top, at);
    ResourcesShowDirectory(fs, p);
    ResourcesShowDirectory(fs, u);
    ThroughText(fs, RESOURCES, top, p[k..], u, p, name, q, d, end);
  }

  /** A link at the top or in a mixed directory has a copy in `Resources`. */
  lemma LinkInResources(toc: seq<Entry>, i: nat)
    requires WellFormed(toc) && LinksPlaceable(toc) && i < |toc| && IsLooseLink(toc[i])
    requires NeedsCrossLink(DirsOf(toc), toc[i].dest)
    ensures var p := Rooted(RESOURCES, Parent(toc[i].dest)) + [Last(toc[i].dest)];
      p in BundleTree(toc) && BundleTree(toc)[p] == Link(toc[i].src)
  {
    ItemInTree(toc, CrossFile(i));
    ItemPlace(toc, DirsOf(toc), CrossFile(i));
    CrossingPlace(RESOURCES, toc[i].dest);
    SidesAreNames();
  }

  lemma ResourcesThroughLink(toc: seq<Entry>, i: nat, k: nat, n: nat, q: Path, d: Path, end: Path)
    requires WellFormed(toc) && LinksPlaceable(toc) && i < |toc| && IsLooseLink(toc[i])
    requires NeedsCrossLink(DirsOf(toc), toc[i].dest)
    requires k + n + 1 == |toc[i].dest| && toc[i].src == Ups(n) + q
    requires Parent(toc[i].dest)[..k] + q == d && Shows(BundleTree(toc), RESOURCES, d, end)
    ensures Shows(BundleTree(toc), RESOURCES, toc[i].dest, end)
  {
    var x, p := toc[i].dest, Parent(toc[i].dest);
    LinkInResources(toc, i);
    BundleIsConsistent(toc);
    NamesOfEntry(toc, i);
    ResourcesThroughText(BundleTree(toc), p, k, n, Last(x), q, d, end);
  }

  lemma ResourcesShowLink(toc: seq<Entry>, i: nat, j: nat)
    requires WellFormed(toc) && LinksPlaceable(toc) && i < |toc| && j < |toc|
    requires IsLooseLink(toc[i]) && IsContent(toc[j]) && Names(toc[i], toc[j]) && KeepsNames(toc, toc[i])
    ensures Shows(BundleTree(toc), RESOURCES, toc[i].dest, FilePlace(toc[j]))
  {
    var d := LinkCrossing(toc, i);
    if d == toc[i].dest {
      var k, n, q := LinkParts(toc, i, j);
      BothTreesShowFile(toc, j);
      ResourcesThroughLink(toc, i, k, n, q, toc[j].dest, FilePlace(toc[j]));
    } else {
      if !HasKind(toc, d, BinaryKind) {
        LinkedDirLosesName(toc, i, d);
      }
      FrameworksShowLink(toc, i, j);
      LinkAgrees(toc, i, d, FilePlace(toc[j]));
    }
  }

  lemma LinkAgrees(toc: seq<Entry>, i: nat, d: Path, end: Path)
    requires WellFormed(toc) && LinksPlaceable(toc) && i < |toc| && IsLooseLink(toc[i]) && Above(d, toc[i])
    requires HasKind(toc, d, BinaryKind) && !IsMixed(DirsOf(toc), d) && NeedsCrossLink(DirsOf(toc), d)
    ensures Shows(BundleTree(toc), RESOURCES, toc[i].dest, end) <==>
      Shows(BundleTree(toc), FRAMEWORKS, toc[i].dest, end)
  {
    BinaryDirCrosses(toc, i, d);
    SidesAreNames();
    TreesAgree(toc, toc[i], d, CrossDir(d), toc[i].dest, end);
  }

  // ---- Links that are not shown ----

  /** The topmost directory above a link that has lost its name. */
  lemma {:induction false} TopmostLost(toc: seq<Entry>, e: Entry, d: Path) returns (t: Path)
    requires Above(d, e) && LosesName(toc, d)
    ensures Above(t, e) && LosesName(toc, t) && forall c :: c < t ==> !LosesName(toc, c)
    decreases |d|
  {
    t := d;
    if c :| c < d && LosesName(toc, c) {
      AboveUp(d, c, e);
      t := TopmostLost(toc, e, c);
    }
  }

  lemma LostParentIsNamed(toc: seq<Entry>, i: nat, t: Path)
    requires i < |toc| && KindOf(toc[i]) == OtherKind && Above(t, toc[i])
    requires forall c :: c < t ==> !LosesName(toc, c)
    ensures HasKind(toc, t, OtherKind) && IsTop(NamedDirs(toc), Parent(t))
  {
    assert HasKind(toc, t, OtherKind);
    if Parent(t) != [] {
      KindsUp(toc, t, Parent(t), OtherKind);
      forall c | c <= Parent(t)
        ensures !LosesName(toc, c)
      {
        assert c < t;
      }
    }
  }

  /** Nothing in `Frameworks` lies at or below the original name of a directory that has lost it,
      unless the directory is linked there as a whole. */
  lemma LostNameIsFree(toc: seq<Entry>, t: Path, o: Origin)
    requires WellFormed(toc) && LosesName(toc, t) && HasKind(toc, t, OtherKind) && !NeedsCrossLink(DirsOf(toc), t)
    requires ValidOrigin(toc, DirsOf(toc), o) && SubjectOf(toc, DirsOf(toc), o) != []
    ensures !(Rooted(FRAMEWORKS, Placement(t)) <= Place(SideOf(toc, DirsOf(toc), o), SubjectOf(toc, DirsOf(toc), o)))
  {
    var s, y := SideOf(toc, DirsOf(toc), o), SubjectOf(toc, DirsOf(toc), o);
    if s == FRAMEWORKS {
      LostNameApart(toc, t, o);
      DistinctSides();
      RootedApart(FRAMEWORKS, Placement(t), FRAMEWORKS, Placement(y));
    } else {
      RootedApart(FRAMEWORKS, Placement(t), s, if s == RESOURCES then y else Placement(y));
    }
  }

  lemma LostIsLoose(toc: seq<Entry>, t: Path)
    requires WellFormed(toc) && LosesName(toc, t) && HasKind(toc, t, OtherKind)
    ensures IsLoose(RenamedDirs(toc), Nodes(toc), t) && IsAside(RenamedDirs(toc), t)
    ensures !IsFramework(toc, |toc|, t)
    ensures t in DirsOf(toc).types && DirsOf(toc).types[t] == DataDir
  {
    AnyIfSome(toc, t, OtherKind);
    TypeFacts(toc, t);
    AboveIsOutside(toc, t);
    DirIsNode(toc, t);
    if Parent(t) != [] {
      KindsUp(toc, t, Parent(t), OtherKind);
    }
  }

  lemma LostNameApart(toc: seq<Entry>, t: Path, o: Origin)
    requires WellFormed(toc) && LosesName(toc, t) && HasKind(toc, t, OtherKind) && !NeedsCrossLink(DirsOf(toc), t)
    requires ValidOrigin(toc, DirsOf(toc), o) && SideOf(toc, DirsOf(toc), o) == FRAMEWORKS
    requires SubjectOf(toc, DirsOf(toc), o) != []
    ensures !(Placement(t) <= Placement(SubjectOf(toc, DirsOf(toc), o)))
  {
    var y := SubjectOf(toc, DirsOf(toc), o);
    LostIsLoose(toc, t);
    SubjectShape(toc, o);
    RenamedUpClosed(toc);
    RenamedAreNodes(toc);
    LostIsNoSubject(toc, t, o);
    PlacementsApart(RenamedDirs(toc), Nodes(toc), t, y);
  }

  lemma SubjectShape(toc: seq<Entry>, o: Origin)
    requires WellFormed(toc)
    requires ValidOrigin(toc, DirsOf(toc), o) && SideOf(toc, DirsOf(toc), o) == FRAMEWORKS
    requires SubjectOf(toc, DirsOf(toc), o) != []
    ensures var y := SubjectOf(toc, DirsOf(toc), o);
      || IsLoose(RenamedDirs(toc), Nodes(toc), y)
      || (IsBundled(RenamedDirs(toc), y) && IsFramework(toc, |toc|, y[..SanitizedLength(y) + 1]))
  {
    FrameworksSubject(toc, o);
    if o.Placed? && FrameworkLength(toc[o.i].dest) > 0 {
      BundledEntry(toc, o.i);
    }
  }

  lemma LostIsNoSubject(toc: seq<Entry>, t: Path, o: Origin)
    requires WellFormed(toc) && t in DirsOf(toc).types && DirsOf(toc).types[t] == DataDir
    requires !NeedsCrossLink(DirsOf(toc), t)
    requires ValidOrigin(toc, DirsOf(toc), o) && SideOf(toc, DirsOf(toc), o) == FRAMEWORKS
    ensures SubjectOf(toc, DirsOf(toc), o) != t
  {
    DistinctSides();
    TypeFacts(toc, t);
    if o.Placed? || o.CrossFile? {
      NoEntryAtDirectory(toc, t, o.i);
    }
  }

  lemma LostNameMissing(toc: seq<Entry>, t: Path)
    requires WellFormed(toc) && LosesName(toc, t) && HasKind(toc, t, OtherKind) && !NeedsCrossLink(DirsOf(toc), t)
    ensures var p := RenamedPlace(Parent(t)) + [Last(t)]; p !in BundleTree(toc) && !IsDir(BundleTree(toc), p)
  {
    LostIsLoose(toc, t);
    PlaceOfChild(t);
    forall k | k in BundleTree(toc)
      ensures !(Rooted(FRAMEWORKS, Placement(t)) <= k)
    {
      var o := OriginOfKey(toc, k);
      LostNameIsFree(toc, t, o);
    }
    NothingThere(BundleTree(toc), Rooted(FRAMEWORKS, Placement(t)));
  }

  lemma NothingThere(fs: Tree, p: Path)
    requires |p| >= 3 && forall k :: k in fs ==> !(p <= k)
    ensures p !in fs && !IsDir(fs, p)
  {
  }

  /** Whatever is on disk comes from some origin. */
  lemma OriginOfKey(toc: seq<Entry>, k: Path) returns (o: Origin)
    requires HasDests(toc) && k in BundleTree(toc)
    ensures ValidOrigin(toc, DirsOf(toc), o) && SubjectOf(toc, DirsOf(toc), o) != []
    ensures k == Place(SideOf(toc, DirsOf(toc), o), SubjectOf(toc, DirsOf(toc), o))
  {
    TreeOfKeys(BundleOf(toc));
    var m: nat :| m < |BundleOf(toc)| && BundleOf(toc)[m].dest == k;
    o := OriginOfEntry(toc, m);
    ItemPlace(toc, DirsOf(toc), o);
  }

  /** Nothing in `Resources` lies at, above or below a link in a directory without binaries that is
      linked into `Frameworks`. */
  lemma ResourcesFree(toc: seq<Entry>, i: nat, t: Path, o: Origin)
    requires WellFormed(toc) && LinksPlaceable(toc) && i < |toc| && IsLooseLink(toc[i])
    requires Above(t, toc[i]) && !HasKind(toc, t, BinaryKind) && NeedsCrossLink(DirsOf(toc), t)
    requires ValidOrigin(toc, DirsOf(toc), o) && SideOf(toc, DirsOf(toc), o) == RESOURCES
    ensures var y := SubjectOf(toc, DirsOf(toc), o); y != [] && !(y <= toc[i].dest) && !(toc[i].dest <= y)
  {
    var y := SubjectOf(toc, DirsOf(toc), o);
    SubjectNotEmpty(toc, o);
    if o.CrossDir? {
      TypeFacts(toc, y);
      NoEntryAtDirectory(toc, y, i);
      if y < toc[i].dest {
        LinkedDirAbove(toc, i, t, y);
      }
    } else {
      EntryElsewhere(toc, i, t, o);
    }
  }

  lemma LinkedDirAbove(toc: seq<Entry>, i: nat, t: Path, y: Path)
    requires WellFormed(toc) && LinksPlaceable(toc) && i < |toc| && IsLooseLink(toc[i])
    requires Above(t, toc[i]) && !HasKind(toc, t, BinaryKind) && NeedsCrossLink(DirsOf(toc), t)
    requires HasCrossDir(DirsOf(toc), y) && DirsOf(toc).types[y] != DataDir && y != []
    ensures !(y < toc[i].dest)
  {
    if y < toc[i].dest {
      assert Above(y, toc[i]);
      TypeFacts(toc, y);
      if t <= y {
        KindsUp(toc, y, t, BinaryKind);
      } else {
        assert y <= Parent(t);
        NoLinkedDirAbove(toc, t, y);
      }
    }
  }

  /** Above a directory that is linked into `Frameworks`, none is linked into `Resources`. */
  lemma NoLinkedDirAbove(toc: seq<Entry>, t: Path, y: Path)
    requires NoNestedFrameworks(toc) && LinksPlaceable(toc) && NeedsCrossLink(DirsOf(toc), t)
    requires y != [] && y <= Parent(t) && HasKind(toc, y, BinaryKind)
    ensures IsMixedDir(toc, y)
  {
    CrossLinkParent(toc, t);
    if !IsMixedDir(toc, y) {
      NothingBelowLinkedDir(toc, y, Parent(t));
    }
  }

  lemma EntryElsewhere(toc: seq<Entry>, i: nat, t: Path, o: Origin)
    requires WellFormed(toc) && i < |toc| && IsLooseLink(toc[i])
    requires Above(t, toc[i]) && !HasKind(toc, t, BinaryKind)
    requires (o.Placed? || o.CrossFile?) && ValidOrigin(toc, DirsOf(toc), o) && SideOf(toc, DirsOf(toc), o) == RESOURCES
    ensures !(toc[o.i].dest <= toc[i].dest) && !(toc[i].dest <= toc[o.i].dest)
  {
    DistinctSides();
    if o.i == i {
      UnmixedParent(toc, toc[i], t);
    }
  }

  /** Below a directory without binaries nothing is linked one by one. */
  lemma UnmixedParent(toc: seq<Entry>, e: Entry, t: Path)
    requires NoNestedFrameworks(toc) && t != [] && t < e.dest && !HasKind(toc, t, BinaryKind)
    ensures !NeedsCrossLink(DirsOf(toc), e.dest)
  {
    CrossLinkParent(toc, e.dest);
    if IsMixedDir(toc, Parent(e.dest)) {
      KindsUp(toc, Parent(e.dest), t, BinaryKind);
    }
  }

  lemma ResourcesFreeAt(toc: seq<Entry>, i: nat, t: Path, k: Path)
    requires WellFormed(toc) && LinksPlaceable(toc) && i < |toc| && IsLooseLink(toc[i])
    requires Above(t, toc[i]) && !HasKind(toc, t, BinaryKind) && NeedsCrossLink(DirsOf(toc), t)
    requires k in BundleTree(toc)
    ensures !(k <= Rooted(RESOURCES, toc[i].dest)) && !(Rooted(RESOURCES, toc[i].dest) <= k)
  {
    var o := OriginOfKey(toc, k);
    var s, y := SideOf(toc, DirsOf(toc), o), SubjectOf(toc, DirsOf(toc), o);
    if s == RESOURCES {
      ResourcesFree(toc, i, t, o);
    }
    PlacesApartFrom(s, y, toc[i].dest);
  }

  lemma PlacesApartFrom(s: string, y: Path, x: Path)
    requires y != [] && (s == RESOURCES ==> !(y <= x) && !(x <= y))
    ensures !(Place(s, y) <= Rooted(RESOURCES, x)) && !(Rooted(RESOURCES, x) <= Place(s, y))
  {
    var z := if s == RESOURCES then y else Placement(y);
    RootedApart(s, z, RESOURCES, x);
    RootedApart(RESOURCES, x, s, z);
  }

  lemma NotInResources(toc: seq<Entry>, i: nat, t: Path, end: Path)
    requires WellFormed(toc) && LinksPlaceable(toc) && i < |toc| && IsLooseLink(toc[i])
    requires Above(t, toc[i]) && !HasKind(toc, t, BinaryKind) && NeedsCrossLink(DirsOf(toc), t)
    ensures !Shows(BundleTree(toc), RESOURCES, toc[i].dest, end)
  {
    forall k | k in BundleTree(toc)
      ensures !(k <= Rooted(RESOURCES, toc[i].dest)) && !(Rooted(RESOURCES, toc[i].dest) <= k)
    {
      ResourcesFreeAt(toc, i, t, k);
    }
    SidesAreNames();
    NotShown(BundleTree(toc), RESOURCES, toc[i].dest, end);
  }

  lemma NotShown(fs: Tree, side: string, x: Path, end: Path)
    requires IsName(side) && AllNames(x) && x != []
    requires forall k :: k in fs ==> !(k <= Rooted(side, x)) && !(Rooted(side, x) <= k)
    ensures !Shows(fs, side, x, end)
  {
    NothingThere(fs, Rooted(side, x));
    assert [CONTENTS] + ([side] + x) == Rooted(side, x);
    forall h: nat
      ensures Resolve(fs, [CONTENTS], [side] + x, h) == None
    {
      PathMissing(fs, [CONTENTS], [side] + x, h);
    }
  }

  /** A data directory above a link that is linked into `Frameworks` as a whole. */
  lemma DataDirCrosses(toc: seq<Entry>, i: nat, t: Path, e: Entry)
    requires WellFormed(toc) && i < |toc| && IsLooseLink(toc[i]) && Above(t, toc[i])
    requires !HasKind(toc, t, BinaryKind) && NeedsCrossLink(DirsOf(toc), t)
    requires e.dest == toc[i].dest && e.typecode == DATA
    ensures IsCrossing(toc, e, t, CrossDir(t)) && AllNames(t)
  {
    TypeFacts(toc, t);
    AboveIsOutside(toc, t);
    CrossParents(toc, t);
    SidesAreNames();
    CrossLinkText(FRAMEWORKS, RESOURCES, t);
    NamesAbove(toc, t, i);
  }

  lemma NotInFrameworks(toc: seq<Entry>, i: nat, t: Path, end: Path)
    requires WellFormed(toc) && LinksPlaceable(toc) && i < |toc| && IsLooseLink(toc[i])
    requires Above(t, toc[i]) && !HasKind(toc, t, BinaryKind) && NeedsCrossLink(DirsOf(toc), t)
    ensures !Shows(BundleTree(toc), FRAMEWORKS, toc[i].dest, end)
  {
    var e := Entry(toc[i].dest, [], DATA);
    DataDirCrosses(toc, i, t, e);
    TreesAgree(toc, e, t, CrossDir(t), toc[i].dest, end);
    NotInResources(toc, i, t, end);
    SidesAreNames();
  }

  lemma BeyondMissing(fs: Tree, u: Path, base: Path, name: string, rest: Path, x: Path, end: Path)
    requires Shows(fs, FRAMEWORKS, u, base) && base !in fs && IsName(name)
    requires base + [name] !in fs && !IsDir(fs, base + [name]) && u + ([name] + rest) == x
    ensures !Shows(fs, FRAMEWORKS, x, end)
  {
    NameMissing(fs, base, [name] + rest, end);
    if Shows(fs, FRAMEWORKS, x, end) {
      assert [FRAMEWORKS] + u + ([name] + rest) == [FRAMEWORKS] + x;
      LeadsToSplit(fs, [CONTENTS], [FRAMEWORKS] + u, base, [name] + rest, end);
    }
  }

  lemma LostIsMissing(toc: seq<Entry>, i: nat, t: Path, end: Path)
    requires WellFormed(toc) && LinksPlaceable(toc) && i < |toc| && IsLooseLink(toc[i])
    requires Above(t, toc[i]) && LosesName(toc, t) && !NeedsCrossLink(DirsOf(toc), t)
    requires forall c :: c < t ==> !LosesName(toc, c)
    ensures !Shows(BundleTree(toc), FRAMEWORKS, toc[i].dest, end)
  {
    LostParentIsNamed(toc, i, t);
    NamedDirsShown(toc, Parent(t));
    LostNameMissing(toc, t);
    NamesAbove(toc, t, i);
    var rest := PathBelow(t, toc[i].dest);
    BeyondMissing(BundleTree(toc), Parent(t), RenamedPlace(Parent(t)), Last(t), rest, toc[i].dest, end);
  }

  lemma PathBelow(t: Path, x: Path) returns (rest: Path)
    requires t != [] && t <= x
    ensures Parent(t) + ([Last(t)] + rest) == x
  {
    rest := x[|t|..];
    assert Parent(t) + ([Last(t)] + rest) == t + rest;
  }

  /** Where a directory above a link has lost its name, neither tree leads anywhere. */
  lemma LostIsNotShown(toc: seq<Entry>, i: nat, end: Path)
    requires WellFormed(toc) && LinksPlaceable(toc) && i < |toc| && IsLooseLink(toc[i])
    requires !KeepsNames(toc, toc[i])
    ensures !Shows(BundleTree(toc), FRAMEWORKS, toc[i].dest, end)
    ensures !Shows(BundleTree(toc), RESOURCES, toc[i].dest, end)
  {
    var d :| Above(d, toc[i]) && LosesName(toc, d);
    var t := TopmostLost(toc, toc[i], d);
    if NeedsCrossLink(DirsOf(toc), t) {
      NotInResources(toc, i, t, end);
      NotInFrameworks(toc, i, t, end);
    } else {
      LostIsMissing(toc, i, t, end);
      LostNotInResources(toc, i, t, end);
    }
  }

  lemma LostNotInResources(toc: seq<Entry>, i: nat, t: Path, end: Path)
    requires WellFormed(toc) && LinksPlaceable(toc) && i < |toc| && IsLooseLink(toc[i])
    requires Above(t, toc[i]) && LosesName(toc, t) && !NeedsCrossLink(DirsOf(toc), t)
    requires forall c :: c < t ==> !LosesName(toc, c)
    requires !Shows(BundleTree(toc), FRAMEWORKS, toc[i].dest, end)
    ensures !Shows(BundleTree(toc), RESOURCES, toc[i].dest, end)
  {
    var d := LinkCrossing(toc, i);
    if d == toc[i].dest {
      UnmixedParent(toc, toc[i], t);
      assert false;
    }
    if !HasKind(toc, d, BinaryKind) {
      LinkedDirLosesName(toc, i, d);
      TopmostIs(toc, toc[i].dest, d, t);
    }
    LinkAgrees(toc, i, d, end);
  }

  lemma TopmostIs(toc: seq<Entry>, x: Path, d: Path, t: Path)
    requires d != [] && d <= x && t != [] && t <= x && LosesName(toc, d) && LosesName(toc, t)
    requires forall c :: c != [] && c < d ==> HasKind(toc, c, BinaryKind)
    requires forall c :: c < t ==> !LosesName(toc, c)
    ensures d == t
  {
    assert d < t || t < d || d == t;
  }

  // ---- The exact condition ----

  /** Main result on collected links: if the text of a link, read from its original directory, names a
      data file, binary or extension, then both trees lead from the path of the link to the one place
      of that entry if no directory above the link has lost its name; otherwise neither tree does. */
  lemma LinksShowTargets(toc: seq<Entry>, i: nat, j: nat)
    requires WellFormed(toc) && LinksPlaceable(toc) && i < |toc| && j < |toc|
    requires IsLooseLink(toc[i]) && IsContent(toc[j]) && Names(toc[i], toc[j])
    ensures Shows(BundleTree(toc), FRAMEWORKS, toc[i].dest, FilePlace(toc[j])) <==> KeepsNames(toc, toc[i])
    ensures Shows(BundleTree(toc), RESOURCES, toc[i].dest, FilePlace(toc[j])) <==> KeepsNames(toc, toc[i])
  {
    if KeepsNames(toc, toc[i]) {
      FrameworksShowLink(toc, i, j);
      ResourcesShowLink(toc, i, j);
    } else {
      LostIsNotShown(toc, i, FilePlace(toc[j]));
    }
  }

  // ---- An example ----

  /** A binary, and in a directory with a dot beside it a link to the binary. */
  function LostLink(a: string, x: string, d: string, link: string, source: Path): seq<Entry> {
    [Entry([a, x], source, BINARY), Entry([a, d, link], ["..", x], SYMLINK)]
  }

  lemma LostLinkPrefix(toc: seq<Entry>, a: string, x: string, d: string, link: string, source: Path, i: nat, p: Path)
    requires toc == LostLink(a, x, d, link, source) && i < 2 && p != [] && p <= toc[i].dest
    ensures p == [a] || (i == 0 && p == [a, x]) || (i == 1 && (p == [a, d] || p == [a, d, link]))
  {
    if i == 0 {
      PrefixOfTwo(p, a, x);
    } else {
      PrefixOfThree(p, a, d, link);
    }
  }

  lemma LostLinkDirs(toc: seq<Entry>, a: string, x: string, d: string, link: string, source: Path)
    requires toc == LostLink(a, x, d, link, source)
    requires FrameworkLength([a, x]) == 0 && FrameworkLength([a, d, link]) == 0
    ensures forall c, i :: 0 <= i < |toc| && Above(c, toc[i]) ==> c == [a] || (c == [a, d] && i == 1)
    ensures forall v :: v in Nodes(toc) ==> v == [a] || v == [a, x] || v == [a, d] || v == [a, d, link]
  {
    forall c, i | 0 <= i < |toc| && Above(c, toc[i])
      ensures c == [a] || (c == [a, d] && i == 1)
    {
      LostLinkPrefix(toc, a, x, d, link, source, i, c);
    }
    forall v | v in Nodes(toc)
      ensures v == [a] || v == [a, x] || v == [a, d] || v == [a, d, link]
    {
      var i :| 0 <= i < |toc| && v <= UnitOf(toc[i]);
      LostLinkPrefix(toc, a, x, d, link, source, i, v);
    }
  }

  lemma LostLinkApart(renamed: iset<Path>, nodes: iset<Path>, a: string, x: string, d: string, link: string)
    requires '.' !in a && x != d && Sanitized(d) != x
    requires forall c :: c in renamed ==> c == [a] || c == [a, d]
    requires forall v :: v in nodes ==> v == [a] || v == [a, x] || v == [a, d] || v == [a, d, link]
    requires [a, x] !in renamed
    ensures DotsApart(renamed, nodes)
  {
    assert Sanitized(a) == a;
    assert Parent([a]) == [] && Parent([a, x]) == Parent([a, d]) == [a] && Parent([a, d, link]) == [a, d];
  }

  lemma LostLinkRenamed(toc: seq<Entry>, a: string, x: string, d: string, link: string, source: Path)
    requires toc == LostLink(a, x, d, link, source) && x != d
    requires FrameworkLength([a, x]) == 0 && FrameworkLength([a, d, link]) == 0
    ensures forall c :: c in RenamedDirs(toc) ==> c == [a] || c == [a, d]
    ensures [a, x] !in RenamedDirs(toc)
  {
    LostLinkDirs(toc, a, x, d, link, source);
    assert [a, x][1] != [a, d][1];
  }

  lemma LostLinkUnrelated(toc: seq<Entry>, a: string, x: string, d: string, link: string, source: Path)
    requires toc == LostLink(a, x, d, link, source) && x != d
    ensures Unrelated(toc)
  {
    assert toc[0].dest[1] != toc[1].dest[1];
  }

  lemma LostLinkNames(toc: seq<Entry>, a: string, x: string, d: string, link: string, source: Path)
    requires toc == LostLink(a, x, d, link, source)
    requires FrameworkLength([a, x]) == 0 && FrameworkLength([a, d, link]) == 0
    requires IsName(a) && IsName(x) && IsName(d) && IsName(link)
    ensures ValidNames(toc) && NoNestedFrameworks(toc) && ProgramAtTop(toc)
  {
  }

  lemma LostLinkIsWellFormed(toc: seq<Entry>, a: string, x: string, d: string, link: string, source: Path)
    requires toc == LostLink(a, x, d, link, source)
    requires FrameworkLength([a, x]) == 0 && FrameworkLength([a, d, link]) == 0
    requires IsName(a) && IsName(x) && IsName(d) && IsName(link) && x != d && Sanitized(d) != x && '.' !in a
    ensures WellFormed(toc)
  {
    LostLinkDirs(toc, a, x, d, link, source);
    LostLinkRenamed(toc, a, x, d, link, source);
    LostLinkApart(RenamedDirs(toc), Nodes(toc), a, x, d, link);
    LostLinkUnrelated(toc, a, x, d, link, source);
    LostLinkNames(toc, a, x, d, link, source);
  }

  lemma LostLinkIsPlaceable(toc: seq<Entry>, a: string, x: string, d: string, link: string, source: Path)
    requires toc == LostLink(a, x, d, link, source)
    requires FrameworkLength([a, x]) == 0 && FrameworkLength([a, d, link]) == 0 && x != d && '.' in d
    ensures LinksPlaceable(toc) && HasKind(toc, [a], BinaryKind) && !HasKind(toc, [a, d], BinaryKind)
  {
    LostLinkDirs(toc, a, x, d, link, source);
    assert KindOf(toc[0]) == BinaryKind && KindOf(toc[1]) == OtherKind;
    assert Above([a], toc[0]);
    forall c
      ensures HasKind(toc, c, BinaryKind) ==> c == [a]
      ensures HasKind(toc, c, OtherKind) ==> c == [a] || c == [a, d]
    {
    }
  }

  lemma LostLinkText(a: string, x: string, d: string)
    requires IsName(a) && IsName(x) && IsName(d)
    ensures IsNormal(["..", x]) && !IsAbsolute(["..", x]) && NormPath([a, d] + ["..", x]) == [a, x]
  {
    NamesAreNormal([a]);
    NamesAreNormal([a, d]);
    NamesAreNormal([a, x]);
    NamesAreNormal([x]);
    assert IsName([x][0]) && ROOT[0] == '/';
    NormFromConcat([], [a, d], ["..", x]);
    assert [a] + [d] == [a, d] && Ups(1) + [x] == ["..", x] && [a] + [x] == [a, x];
    ClimbNames([a], [d], [x]);
    NormalIsFixed([a], [x]);
  }

  /** The layout is consistent, but the link is found in neither tree. */
  lemma LostLinkExample(toc: seq<Entry>, a: string, x: string, d: string, link: string, source: Path)
    requires toc == LostLink(a, x, d, link, source)
    requires FrameworkLength([a, x]) == 0 && FrameworkLength([a, d, link]) == 0
    requires IsName(a) && IsName(x) && IsName(d) && IsName(link) && '.' !in a && '.' in d && Sanitized(d) != x && x != d
    ensures WellFormed(toc) && LinksPlaceable(toc) && IsLooseLink(toc[1]) && Names(toc[1], toc[0])
    ensures !Shows(BundleTree(toc), FRAMEWORKS, toc[1].dest, FilePlace(toc[0]))
    ensures !Shows(BundleTree(toc), RESOURCES, toc[1].dest, FilePlace(toc[0]))
  {
    LostLinkIsWellFormed(toc, a, x, d, link, source);
    LostLinkIsPlaceable(toc, a, x, d, link, source);
    LostLinkText(a, x, d);
    assert Parent(toc[1].dest) == [a, d];
    assert Above([a, d], toc[1]) && LosesName(toc, [a, d]);
    LinksShowTargets(toc, 1, 0);
  }
}
