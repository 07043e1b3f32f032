/** Where paths below `Contents/Frameworks` end up once the dots in directory names are replaced,
    and why no two of them get in each other's way. */
module BundleGeometry {
  import opened Paths
  import opened Toc
  import opened BundleSpec

  /** Where a path below `Contents/Frameworks` ends up, below `Contents/Frameworks`. */
  function Placement(x: Path): (r: Path)
    requires x != []
    ensures |r| == |x|
  {
    SanitizedBetween(x, 0, SanitizedLength(x))
  }

  lemma RootIsNoFramework(side: string)
    requires side == MACOS || side == FRAMEWORKS || side == RESOURCES
    ensures !IsFrameworkName(CONTENTS) && !IsFrameworkName(side)
  {
    assert |".framework"| == 10;
    assert |CONTENTS| == 8 && |MACOS| == 5 && |RESOURCES| == 9 && |FRAMEWORKS| == 10;
    assert FRAMEWORKS[0] != ".framework"[0];
  }

  /** The length of the innermost framework directory, pinned down by what it means. */
  lemma FrameworkLengthIs(p: Path, k: nat)
    requires k < |p|
    requires k > 0 ==> IsFrameworkName(p[k - 1])
    requires forall j :: k <= j < |p| - 1 ==> !IsFrameworkName(p[j])
    ensures FrameworkLength(p) == k
  {
    var f := FrameworkLength(p);
    assert f > 0 ==> IsFrameworkName(p[f - 1]);
  }

  lemma RootedFrameworkLength(side: string, x: Path)
    requires side == MACOS || side == FRAMEWORKS || side == RESOURCES
    requires x != []
    ensures FrameworkLength(Rooted(side, x)) == if FrameworkLength(x) == 0 then 0 else FrameworkLength(x) + 2
  {
    RootIsNoFramework(side);
    var p, m := Rooted(side, x), FrameworkLength(x);
    var k := if m == 0 then 0 else m + 2;
    forall j | k <= j < |p| - 1
      ensures !IsFrameworkName(p[j])
    {
      if j >= 2 {
        assert p[j] == x[j - 2];
      }
    }
    FrameworkLengthIs(p, k);
  }

  lemma SanitizedLengthRooted(side: string, x: Path)
    requires side == MACOS || side == FRAMEWORKS || side == RESOURCES
    requires x != []
    ensures SanitizedLength(Rooted(side, x)) == SanitizedLength(x) + 2
  {
    RootedFrameworkLength(side, x);
  }

  lemma SanitizeRooted(e: Entry, side: string, x: Path)
    requires side == MACOS || side == FRAMEWORKS || side == RESOURCES
    requires x != [] && e.dest == Rooted(side, x)
    ensures SanitizeEntry(e) == e.(dest := Rooted(side, if side == RESOURCES then x else Placement(x)))
  {
    SanitizedLengthRooted(side, x);
    assert e.dest[0] == CONTENTS && e.dest[1] == side;
    if side != RESOURCES {
      assert SanitizedBetween(e.dest, 2, SanitizedLength(x) + 2) == Rooted(side, Placement(x));
    }
  }

  // ---- Placements do not overlap ----

  /** Everything above a directory of the set, up to the top, is in the set. */
  ghost predicate UpClosed(renamed: iset<Path>) {
    forall d, k :: d in renamed && 0 < k <= |d| ==> d[..k] in renamed
  }

  /** Replacing dots makes no renamed directory collide with a sibling. */
  ghost predicate DotsApart(renamed: iset<Path>, nodes: iset<Path>) {
    forall u, v :: u in renamed && v in nodes && u != [] && v != [] && u != v && Parent(u) == Parent(v) ==>
      && Sanitized(Last(u)) != Last(v)
      && (v in renamed ==> Sanitized(Last(u)) != Sanitized(Last(v)))
  }

  ghost predicate IsTop(renamed: iset<Path>, d: Path) {
    d == [] || d in renamed
  }

  lemma TopUp(renamed: iset<Path>, d: Path, k: nat)
    requires UpClosed(renamed) && IsTop(renamed, d) && k <= |d|
    ensures IsTop(renamed, d[..k])
  {
  }

  /** Sanitizing tells renamed directories apart. */
  lemma {:induction false} SanitizedApart(renamed: iset<Path>, nodes: iset<Path>, u: Path, v: Path)
    requires UpClosed(renamed) && DotsApart(renamed, nodes) && renamed <= nodes
    requires IsTop(renamed, u) && IsTop(renamed, v) && |u| == |v|
    requires forall i :: 0 <= i < |u| ==> Sanitized(u[i]) == Sanitized(v[i])
    ensures u == v
    decreases |u|
  {
    if u != [] {
      var k := |u| - 1;
      TopUp(renamed, u, k);
      TopUp(renamed, v, k);
      SanitizedApart(renamed, nodes, u[..k], v[..k]);
      assert Sanitized(u[k]) == Sanitized(v[k]);
      assert Parent(u) == Parent(v);
    }
  }

  /** The original path of an entry of the `Frameworks` tree outside framework bundles, ... */
  ghost predicate IsLoose(renamed: iset<Path>, nodes: iset<Path>, x: Path) {
    && x != [] && x in nodes && SanitizedLength(x) == |x| - 1
    && IsTop(renamed, Parent(x))
  }

  /** ... and inside one. */
  ghost predicate IsBundled(renamed: iset<Path>, x: Path) {
    && x != [] && SanitizedLength(x) < |x| - 1
    && IsTop(renamed, x[..SanitizedLength(x)])
    && '.' in x[SanitizedLength(x)]
  }

  /** The entry at `x` does not lie where the directory `x` is created. */
  ghost predicate IsAside(renamed: iset<Path>, x: Path) {
    x != [] && (x in renamed ==> '.' in Last(x))
  }

  /** A loose path is not placed where a path that continues below a renamed directory is. */
  lemma LooseAgainstDirectory(renamed: iset<Path>, nodes: iset<Path>, x: Path, w: Path)
    requires UpClosed(renamed) && DotsApart(renamed, nodes) && renamed <= nodes
    requires IsLoose(renamed, nodes, x) && IsAside(renamed, x) && w in renamed && |w| == |x|
    requires forall i :: 0 <= i < |x| - 1 ==> Sanitized(x[i]) == Sanitized(w[i])
    ensures Last(x) != Sanitized(Last(w))
  {
    var c := |x| - 1;
    TopUp(renamed, w, c);
    SanitizedApart(renamed, nodes, x[..c], w[..c]);
    assert Parent(w) == Parent(x);
  }

  lemma PlacementAt(x: Path, i: nat)
    requires i < |x|
    ensures i < SanitizedLength(x) ==> Placement(x)[i] == Sanitized(x[i]) && '.' !in Placement(x)[i]
    ensures i >= SanitizedLength(x) ==> Placement(x)[i] == x[i]
  {
  }

  lemma CutIsRenamed(renamed: iset<Path>, nodes: iset<Path>, x: Path)
    requires IsLoose(renamed, nodes, x) || IsBundled(renamed, x)
    ensures x != [] && IsTop(renamed, x[..SanitizedLength(x)])
  {
    if IsLoose(renamed, nodes, x) {
      assert x[..SanitizedLength(x)] == Parent(x);
    }
  }

  /** Two entries of the `Frameworks` tree never lie at or below one another. */
  lemma PlacementsApart(renamed: iset<Path>, nodes: iset<Path>, x: Path, y: Path)
    requires UpClosed(renamed) && DotsApart(renamed, nodes) && renamed <= nodes
    requires x != y
    requires (IsLoose(renamed, nodes, x) && IsAside(renamed, x)) || (IsBundled(renamed, x) && !(x <= y))
    requires IsLoose(renamed, nodes, y) || (IsBundled(renamed, y) && x != y[..SanitizedLength(y) + 1])
    ensures !(Placement(x) <= Placement(y))
  {
    CutIsRenamed(renamed, nodes, x);
    CutIsRenamed(renamed, nodes, y);
    if Placement(x) <= Placement(y) {
      var cx, cy := SanitizedLength(x), SanitizedLength(y);
      assert forall i :: 0 <= i < |x| ==> Placement(x)[i] == Placement(y)[i];
      if cx == cy {
        SameCut(renamed, nodes, x, y);
      } else if cx < cy {
        CutAbove(renamed, nodes, x, y);
      } else {
        PlacementAt(x, cy);
        PlacementAt(y, cy);
        assert false;
      }
    }
  }

  lemma CutAbove(renamed: iset<Path>, nodes: iset<Path>, x: Path, y: Path)
    requires UpClosed(renamed) && DotsApart(renamed, nodes) && renamed <= nodes
    requires (IsLoose(renamed, nodes, x) && IsAside(renamed, x)) || IsBundled(renamed, x)
    requires y != [] && SanitizedLength(x) < SanitizedLength(y)
    requires IsTop(renamed, y[..SanitizedLength(y)])
    ensures !(Placement(x) <= Placement(y))
  {
    var cx, cy := SanitizedLength(x), SanitizedLength(y);
    if Placement(x) <= Placement(y) {
      assert forall i :: 0 <= i < |x| ==> Placement(x)[i] == Placement(y)[i];
      PlacementAt(x, cx);
      PlacementAt(y, cx);
      if IsLoose(renamed, nodes, x) {
        var w := y[..|x|];
        assert y[..cy][..|x|] == w;
        TopUp(renamed, y[..cy], |x|);
        forall i | 0 <= i < |x| - 1
          ensures Sanitized(x[i]) == Sanitized(w[i])
        {
          assert Placement(x)[i] == Placement(y)[i];
        }
        LooseAgainstDirectory(renamed, nodes, x, w);
      }
      assert false;
    }
  }

  lemma SameCut(renamed: iset<Path>, nodes: iset<Path>, x: Path, y: Path)
    requires UpClosed(renamed) && DotsApart(renamed, nodes) && renamed <= nodes
    requires x != [] && y != [] && SanitizedLength(x) == SanitizedLength(y)
    requires IsTop(renamed, x[..SanitizedLength(x)]) && IsTop(renamed, y[..SanitizedLength(y)])
    requires |x| <= |y| && forall i :: 0 <= i < |x| ==> Placement(x)[i] == Placement(y)[i]
    ensures x <= y
  {
    var c := SanitizedLength(x);
    var u, v := x[..c], y[..c];
    forall i | 0 <= i < c
      ensures Sanitized(u[i]) == Sanitized(v[i])
    {
      assert Placement(x)[i] == Placement(y)[i];
    }
    SanitizedApart(renamed, nodes, u, v);
    forall i | 0 <= i < |x|
      ensures x[i] == y[i]
    {
      assert Placement(x)[i] == Placement(y)[i];
      if i < c {
        assert x[i] == u[i] && y[i] == v[i];
      }
    }
  }

  /** Whatever lies above what: different paths have different places. */
  lemma PlacementsDiffer(renamed: iset<Path>, nodes: iset<Path>, x: Path, y: Path)
    requires UpClosed(renamed) && DotsApart(renamed, nodes) && renamed <= nodes
    requires IsLoose(renamed, nodes, x) || IsBundled(renamed, x)
    requires IsLoose(renamed, nodes, y) || IsBundled(renamed, y)
    requires x != y
    ensures x != [] && y != [] && Placement(x) != Placement(y)
  {
    CutIsRenamed(renamed, nodes, x);
    CutIsRenamed(renamed, nodes, y);
    if Placement(x) == Placement(y) {
      var cx, cy := SanitizedLength(x), SanitizedLength(y);
      if cx == cy {
        SameCut(renamed, nodes, x, y);
      } else {
        var c := if cx < cy then cx else cy;
        PlacementAt(x, c);
        PlacementAt(y, c);
        assert false;
      }
    }
  }
}
