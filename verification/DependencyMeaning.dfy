/** Where a library is collected, and when a link to it is added, in terms of its path. */
module DependencyMeaning {
  import opened Paths
  import opened Toc
  import opened FileTree
  import opened BinaryDependencies

  /** A library below a directory to preserve, but not directly in the deepest one, keeps its path from
      there, on every platform. */
  lemma NestedDestination(m: Machine, dep: Path, dir: Path)
    requires dep != [] && IsDepthSorted(m.preserved)
    requires IsDeepest(m.preserved, dep, dir) && dir != Parent(dep)
    ensures |dir| < |dep| - 1 && dir + DestinationOf(m, dep) == dep
  {
    DeepestIsSelected(dep, m.preserved);
    assert dir == dep[..|dir|];
    assert |SelectDestination(dep, m.preserved)| > 1;
  }

  /** Any other library is collected at the top level; but on macOS a framework is re-created there, with
      the last four components of its path. */
  lemma TopLevelDestination(m: Machine, dep: Path)
    requires dep != [] && IsDepthSorted(m.preserved)
    requires Parent(dep) in m.preserved || forall dir :: dir in m.preserved ==> !(dir < dep)
    ensures m.isDarwin && m.frameworkLibrary(dep) && |dep| >= 4 ==>
      |DestinationOf(m, dep)| == 4 && dep[..|dep| - 4] + DestinationOf(m, dep) == dep
    ensures !(m.isDarwin && m.frameworkLibrary(dep) && |dep| >= 4) ==> DestinationOf(m, dep) == [Last(dep)]
  {
    DeepestIsSelected(dep, m.preserved);
    if Parent(dep) in m.preserved {
      assert IsDeepest(m.preserved, dep, Parent(dep));
      assert dep == Parent(dep) + [Last(dep)];
    }
    assert SelectDestination(dep, m.preserved) == [Last(dep)];
  }

  /** These are all libraries. */
  lemma NestedOrTopLevel(m: Machine, dep: Path) returns (dir: Path)
    requires dep != [] && IsDepthSorted(m.preserved)
    ensures
      || Parent(dep) in m.preserved || (forall d :: d in m.preserved ==> !(d < dep))
      || (IsDeepest(m.preserved, dep, dir) && dir != Parent(dep))
  {
    dir := [];
    if exists d :: d in m.preserved && IsAncestor(d, dep) {
      dir := FirstAncestor(dep, m.preserved);
    }
  }

  /** A link to a library is added at the top level if and only if the library is in a directory, the
      platform is not Windows, and no hook suppresses the link. */
  lemma LinkMeaning(m: Machine, dep: Path)
    requires dep != []
    ensures var dest := DestinationOf(m, dep);
      && dest != []
      && (!m.isWin && |dest| > 1 && !m.suppressed(dep) ==>
            Block(m, dep) == [Entry(dest, dep, BINARY), Entry([dest[|dest| - 1]], dest, SYMLINK)])
      && (m.isWin || |dest| == 1 || m.suppressed(dep) ==> Block(m, dep) == [Entry(dest, dep, BINARY)])
  {
    DestinationNotEmpty(m, dep);
  }

  /** The sources that are analyzed are those of the entries that are no links. */
  lemma {:induction false} SourcesMeaning(toc: seq<Entry>, src: Path)
    ensures src in Sources(toc) <==>
      exists i :: 0 <= i < |toc| && toc[i].typecode != SYMLINK && toc[i].src == src
    decreases |toc|
  {
    if toc != [] {
      var n := |toc| - 1;
      SourcesMeaning(toc[..n], src);
      if i :| 0 <= i < |toc| && toc[i].typecode != SYMLINK && toc[i].src == src {
        assert i < n ==> toc[..n][i] == toc[i];
      }
    }
  }
}
