/** Path lookup in a tree that has the directories and links of a bundle. */
module BundlePaths {
  import opened Paths
  import opened Toc
  import opened FileTree
  import opened BundleSpec
  import opened BundleGeometry

  /** Below `Contents/<side>`, the path `p` leads to the physical path `end`. */
  ghost predicate Shows(fs: Tree, side: string, p: Path, end: Path) {
    LeadsTo(fs, [CONTENTS], [side] + p, end)
  }

  /** The place of a renamed directory. */
  function RenamedPlace(d: Path): Path {
    Rooted(FRAMEWORKS, SanitizedBetween(d, 0, |d|))
  }

  lemma SidesAreNames()
    ensures IsName(CONTENTS) && IsName(FRAMEWORKS) && IsName(RESOURCES) && IsName(MACOS)
    ensures MACOS != FRAMEWORKS && MACOS != RESOURCES && FRAMEWORKS != RESOURCES
  {
    assert MACOS[0] == 'M' && FRAMEWORKS[0] == 'F' && RESOURCES[0] == 'R';
  }

  ghost predicate RenamedDirAt(fs: Tree, renamed: iset<Path>, d: Path) {
    IsTop(renamed, d) ==> IsDir(fs, RenamedPlace(d)) && AllNames(d)
  }

  ghost predicate DotLinkAt(fs: Tree, renamed: iset<Path>, d: Path) {
    d in renamed && d != [] && '.' in Last(d) ==>
      var p := RenamedPlace(Parent(d)) + [Last(d)];
      p in fs && fs[p] == Link([Sanitized(Last(d))])
  }

  /** Directories with binaries exist in `Frameworks` under their sanitized names, ... */
  ghost predicate HasRenamedDirs(fs: Tree, renamed: iset<Path>) {
    forall d :: RenamedDirAt(fs, renamed, d)
  }

  /** ... with a link from each name that has a dot. */
  ghost predicate HasDotLinks(fs: Tree, renamed: iset<Path>) {
    forall d :: DotLinkAt(fs, renamed, d)
  }

  /** Prefixes of a placement above the cut are places of renamed directories. */
  lemma PlacementBelow(d: Path, x: Path)
    requires d <= x && x != [] && |d| <= SanitizedLength(x)
    ensures RenamedPlace(d) < Rooted(FRAMEWORKS, Placement(x))
    ensures RenamedPlace(d) + Placement(x)[|d|..] == Rooted(FRAMEWORKS, Placement(x))
  {
    SanitizedPrefix(d, Placement(x));
  }

  lemma SanitizedPrefix(d: Path, s: Path)
    requires |d| < |s| && forall i :: 0 <= i < |d| ==> s[i] == Sanitized(d[i])
    ensures RenamedPlace(d) < Rooted(FRAMEWORKS, s)
    ensures RenamedPlace(d) + s[|d|..] == Rooted(FRAMEWORKS, s)
  {
    var r := SanitizedBetween(d, 0, |d|);
    assert s == r + s[|d|..];
    assert Rooted(FRAMEWORKS, s) == Rooted(FRAMEWORKS, r) + s[|d|..];
  }

  /** With nothing but directories above it, a path keeps its last component. */
  lemma PlaceOfChild(d: Path)
    requires d != [] && SanitizedLength(d) == |d| - 1
    ensures Rooted(FRAMEWORKS, Placement(d)) == RenamedPlace(Parent(d)) + [Last(d)]
  {
    assert Placement(d) == SanitizedBetween(Parent(d), 0, |Parent(d)|) + [Last(d)];
  }

  /** A directory of the `Resources` tree is shown as it is. */
  lemma ResourcesShowDirectory(fs: Tree, d: Path)
    requires PrefixFree(fs) && IsDir(fs, Rooted(RESOURCES, d)) && AllNames(d)
    ensures Shows(fs, RESOURCES, d, Rooted(RESOURCES, d))
    ensures Rooted(RESOURCES, d) !in fs
  {
    SidesAreNames();
    assert [CONTENTS] + ([RESOURCES] + d) == Rooted(RESOURCES, d);
    PhysicalDir(fs, [CONTENTS], [RESOURCES] + d);
    DirsHaveNoEntry(fs, Rooted(RESOURCES, d));
  }

  lemma StepIntoRenamed(fs: Tree, renamed: iset<Path>, d: Path)
    requires PrefixFree(fs) && HasRenamedDirs(fs, renamed) && HasDotLinks(fs, renamed)
    requires d in renamed && d != []
    ensures LeadsTo(fs, RenamedPlace(Parent(d)), [Last(d)], RenamedPlace(d))
  {
    var u, name := Parent(d), Last(d);
    assert IsTop(renamed, d) && RenamedDirAt(fs, renamed, d) && DotLinkAt(fs, renamed, d);
    DirsHaveNoEntry(fs, RenamedPlace(d));
    RenamedChild(d);
    SanitizedIsName(name);
    StepInto(fs, RenamedPlace(u), Sanitized(name));
    if '.' in name {
      StepThroughLink(fs, RenamedPlace(u), name, [Sanitized(name)], RenamedPlace(d));
    }
  }

  lemma RenamedChild(d: Path)
    requires d != []
    ensures RenamedPlace(d) == RenamedPlace(Parent(d)) + [Sanitized(Last(d))]
  {
    SanitizedChild(d);
    RootedAppend(SanitizedBetween(Parent(d), 0, |Parent(d)|), [Sanitized(Last(d))]);
  }

  lemma SanitizedChild(d: Path)
    requires d != []
    ensures SanitizedBetween(d, 0, |d|) == SanitizedBetween(Parent(d), 0, |Parent(d)|) + [Sanitized(Last(d))]
  {
  }

  lemma RootedAppend(a: Path, b: Path)
    ensures Rooted(FRAMEWORKS, a + b) == Rooted(FRAMEWORKS, a) + b
  {
  }

  lemma StepThroughLink(fs: Tree, base: Path, name: string, target: Path, end: Path)
    requires IsName(name) && base + [name] in fs && fs[base + [name]] == Link(target)
    requires Resolve(fs, base, target, 0) == Some(end)
    ensures LeadsTo(fs, base, [name], end)
  {
    assert target + [name][1..] == target;
    assert Resolve(fs, base, [name], 1) == Some(end);
  }

  lemma StepInto(fs: Tree, base: Path, name: string)
    requires IsName(name) && IsDir(fs, base + [name]) && base + [name] !in fs
    ensures Resolve(fs, base, [name], 0) == Some(base + [name])
  {
  }

  /** What a path leads to can be followed further. */
  lemma ShowsCompose(fs: Tree, side: string, u: Path, mid: Path, rest: Path, end: Path, x: Path)
    requires Shows(fs, side, u, mid) && mid !in fs && LeadsTo(fs, mid, rest, end) && x == u + rest
    ensures Shows(fs, side, x, end)
  {
    LeadsToCompose(fs, [CONTENTS], [side] + u, mid, rest, end);
    assert [side] + u + rest == [side] + x;
  }

  lemma ShowsRoot(fs: Tree)
    requires PrefixFree(fs) && IsDir(fs, RenamedPlace([]))
    ensures Shows(fs, FRAMEWORKS, [], RenamedPlace([]))
  {
    SidesAreNames();
    assert [CONTENTS] + ([FRAMEWORKS] + []) == RenamedPlace([]);
    PhysicalDir(fs, [CONTENTS], [FRAMEWORKS] + []);
  }

  /** A renamed directory is shown by `Frameworks` under its original name, dots and all. */
  lemma {:induction false} FrameworksShowDirectory(fs: Tree, renamed: iset<Path>, d: Path)
    requires PrefixFree(fs) && HasRenamedDirs(fs, renamed) && HasDotLinks(fs, renamed)
    requires UpClosed(renamed) && IsTop(renamed, d)
    ensures Shows(fs, FRAMEWORKS, d, RenamedPlace(d))
    ensures RenamedPlace(d) !in fs
    decreases |d|
  {
    assert RenamedDirAt(fs, renamed, d);
    DirsHaveNoEntry(fs, RenamedPlace(d));
    if d == [] {
      ShowsRoot(fs);
    } else {
      var u := Parent(d);
      TopUp(renamed, d, |d| - 1);
      FrameworksShowDirectory(fs, renamed, u);
      ShowDirectoryStep(fs, renamed, d, u);
    }
  }

  lemma {:induction false} ShowDirectoryStep(fs: Tree, renamed: iset<Path>, d: Path, u: Path)
    requires PrefixFree(fs) && HasRenamedDirs(fs, renamed) && HasDotLinks(fs, renamed)
    requires UpClosed(renamed) && IsTop(renamed, d) && d != [] && u == Parent(d)
    requires Shows(fs, FRAMEWORKS, u, RenamedPlace(u)) && RenamedPlace(u) !in fs
    ensures Shows(fs, FRAMEWORKS, d, RenamedPlace(d))
  {
    StepIntoRenamed(fs, renamed, d);
    ShowsCompose(fs, FRAMEWORKS, u, RenamedPlace(u), [Last(d)], RenamedPlace(d), d);
  }

  lemma ResourcesShowFile(fs: Tree, x: Path)
    requires PrefixFree(fs) && x != [] && AllNames(x)
    requires Rooted(RESOURCES, x) in fs && fs[Rooted(RESOURCES, x)].File?
    ensures Shows(fs, RESOURCES, x, Rooted(RESOURCES, x))
  {
    SidesAreNames();
    assert [CONTENTS] + ([RESOURCES] + x) == Rooted(RESOURCES, x);
    PhysicalFile(fs, [CONTENTS], [RESOURCES] + x);
  }

  lemma FrameworksShowFile(fs: Tree, renamed: iset<Path>, x: Path)
    requires PrefixFree(fs) && HasRenamedDirs(fs, renamed) && HasDotLinks(fs, renamed)
    requires UpClosed(renamed) && x != [] && AllNames(x) && IsTop(renamed, x[..SanitizedLength(x)])
    requires Rooted(FRAMEWORKS, Placement(x)) in fs && fs[Rooted(FRAMEWORKS, Placement(x))].File?
    ensures Shows(fs, FRAMEWORKS, x, Rooted(FRAMEWORKS, Placement(x)))
  {
    var c := SanitizedLength(x);
    FrameworksShowDirectory(fs, renamed, x[..c]);
    PlacementSplit(x, c);
    ShowsFileBelow(fs, x[..c], x[c..], Rooted(FRAMEWORKS, Placement(x)), x);
  }

  lemma PlacementSplit(x: Path, c: nat)
    requires x != [] && c == SanitizedLength(x)
    ensures RenamedPlace(x[..c]) + x[c..] == Rooted(FRAMEWORKS, Placement(x)) && x == x[..c] + x[c..]
  {
    PlacementBelow(x[..c], x);
    PlacementRest(x, c);
  }

  lemma PlacementRest(x: Path, c: nat)
    requires x != [] && c == SanitizedLength(x)
    ensures Placement(x)[c..] == x[c..]
  {
  }

  lemma ShowsFileBelow(fs: Tree, u: Path, rest: Path, end: Path, x: Path)
    requires PrefixFree(fs) && Shows(fs, FRAMEWORKS, u, RenamedPlace(u)) && RenamedPlace(u) !in fs
    requires RenamedPlace(u) + rest == end && rest != [] && AllNames(rest) && end in fs && fs[end].File? &&
      x == u + rest
    ensures Shows(fs, FRAMEWORKS, x, end)
  {
    PhysicalFile(fs, RenamedPlace(u), rest);
    ShowsCompose(fs, FRAMEWORKS, u, RenamedPlace(u), rest, end, x);
  }

  /** A link at `d`, in the tree `side`, to `d` in the tree `home`: from `d` on, both trees agree. */
  lemma ThroughCrossLink(fs: Tree, side: string, home: string, base: Path, d: Path, x: Path, end: Path)
    requires d != [] && d <= x && IsName(Last(d)) && |base| == |d| + 1 && base[0] == CONTENTS
    requires base !in fs && Shows(fs, side, Parent(d), base)
    requires base + [Last(d)] in fs && fs[base + [Last(d)]] == Link(Ups(|d|) + ([home] + d))
    requires Shows(fs, home, x, end)
    ensures Shows(fs, side, x, end)
  {
    var rest := x[|d|..];
    assert [home] + d + rest == [home] + x;
    FromCrossLink(fs, base, Last(d), [home] + d, rest, end);
    BelowParent(d, x);
    ShowsCompose(fs, side, Parent(d), base, [Last(d)] + rest, end, x);
  }

  lemma FromCrossLink(fs: Tree, base: Path, name: string, down: Path, rest: Path, end: Path)
    requires IsName(name) && base != [] && base[0] == CONTENTS
    requires base + [name] in fs && fs[base + [name]] == Link(Ups(|base| - 1) + down)
    requires LeadsTo(fs, [CONTENTS], down + rest, end)
    ensures LeadsTo(fs, base, [name] + rest, end)
  {
    assert base == [CONTENTS] + base[1..];
    FollowCrossLink(fs, [CONTENTS], base[1..], name, down, rest, end);
  }

  lemma BelowParent(d: Path, x: Path)
    requires d != [] && d <= x
    ensures x == Parent(d) + ([Last(d)] + x[|d|..])
  {
    assert x == d + x[|d|..];
  }

  /** Conversely, what lies beyond such a link is shown by the other tree. */
  lemma BeyondCrossLink(fs: Tree, side: string, home: string, base: Path, d: Path, x: Path, end: Path)
    requires d != [] && d <= x && IsName(Last(d)) && |base| == |d| + 1 && base[0] == CONTENTS
    requires base !in fs && Shows(fs, side, Parent(d), base)
    requires base + [Last(d)] in fs && fs[base + [Last(d)]] == Link(Ups(|d|) + ([home] + d))
    requires Shows(fs, side, x, end)
    ensures Shows(fs, home, x, end)
  {
    var u, name, rest := Parent(d), Last(d), x[|d|..];
    assert base == [CONTENTS] + base[1..];
    assert [side] + u + ([name] + rest) == [side] + x;
    LeadsToSplit(fs, [CONTENTS], [side] + u, base, [name] + rest, end);
    UnfollowCrossLink(fs, [CONTENTS], base[1..], name, [home] + d, rest, end);
    assert [home] + d + rest == [home] + x;
  }
}
