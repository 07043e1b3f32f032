/** Binary dependency analysis: collecting all libraries that the collected binaries need. */
module BinaryDependencies {
  import opened Paths
  import opened Toc
  import opened FileTree
  import opened Reachability

  // ---- Destination directories ----

  /** Deeper paths first, as `sorted(..., key=len(parents), reverse=True)` leaves them. */
  ghost predicate IsDepthSorted(paths: seq<Path>) {
    forall i, j :: 0 <= i < j < |paths| ==> |paths[i]| >= |paths[j]|
  }

  /** `dir in src.parents` */
  predicate IsAncestor(dir: Path, src: Path) {
    dir < src
  }

  /** `dir` is the deepest of the paths that are ancestors of `src`. */
  ghost predicate IsDeepest(paths: seq<Path>, src: Path, dir: Path) {
    && dir in paths && IsAncestor(dir, src)
    && forall other :: other in paths && IsAncestor(other, src) ==> |other| <= |dir|
  }

  function SelectDestination(src: Path, paths: seq<Path>): (r: Path)
    requires src != []
  {
    if paths == [] then [Last(src)]
    else if IsAncestor(paths[0], src) then src[|paths[0]|..]
    else SelectDestination(src, paths[1..])
  }

  method SelectDestinationDirectory(src: Path, paths: seq<Path>) returns (r: Path)
    requires src != []
    ensures r == SelectDestination(src, paths)
  {
    for i := 0 to |paths|
      invariant SelectDestination(src, paths[i..]) == SelectDestination(src, paths)
    {
      if IsAncestor(paths[i], src) {
        return src[|paths[i]|..];
      }
    }
    return [Last(src)];
  }

  /** The first ancestor in the list is the one that is used. */
  lemma {:induction false} FirstAncestor(src: Path, paths: seq<Path>) returns (dir: Path)
    requires src != [] && IsDepthSorted(paths) && exists d :: d in paths && IsAncestor(d, src)
    ensures IsDeepest(paths, src, dir) && SelectDestination(src, paths) == src[|dir|..]
    decreases |paths|
  {
    if IsAncestor(paths[0], src) {
      dir := paths[0];
    } else {
      var d :| d in paths && IsAncestor(d, src);
      assert d in paths[1..];
      dir := FirstAncestor(src, paths[1..]);
      assert forall other :: other in paths ==> other == paths[0] || other in paths[1..];
    }
  }

  lemma {:induction false} NoAncestor(src: Path, paths: seq<Path>)
    requires src != [] && forall d :: d in paths ==> !IsAncestor(d, src)
    ensures SelectDestination(src, paths) == [Last(src)]
    decreases |paths|
  {
    if paths != [] {
      assert forall d :: d in paths[1..] ==> d in paths;
      NoAncestor(src, paths[1..]);
    }
  }

  lemma DeepestUnique(paths: seq<Path>, src: Path, a: Path, b: Path)
    requires IsDeepest(paths, src, a) && IsDeepest(paths, src, b)
    ensures a == b
  {
    assert a == src[..|a|] && b == src[..|b|];
  }

  /** With the paths sorted by depth, the deepest ancestor is used, and joining it with the result
      gives back the source; without an ancestor the result is the bare name. */
  lemma DeepestIsSelected(src: Path, paths: seq<Path>)
    requires src != [] && IsDepthSorted(paths)
    ensures forall dir :: IsDeepest(paths, src, dir) ==> dir + SelectDestination(src, paths) == src
    ensures (forall dir :: dir in paths ==> !IsAncestor(dir, src)) ==> SelectDestination(src, paths) == [Last(src)]
  {
    if exists dir :: dir in paths && IsAncestor(dir, src) {
      var first := FirstAncestor(src, paths);
      forall dir | IsDeepest(paths, src, dir)
        ensures dir == first
      {
        DeepestUnique(paths, src, dir, first);
      }
      assert src == src[..|first|] + src[|first|..];
    } else {
      NoAncestor(src, paths);
    }
  }

  /** How paths of the same depth are ordered makes no difference. */
  lemma SelectionIgnoresTies(src: Path, a: seq<Path>, b: seq<Path>)
    requires src != [] && IsDepthSorted(a) && IsDepthSorted(b)
    requires forall dir :: dir in a <==> dir in b
    ensures SelectDestination(src, a) == SelectDestination(src, b)
  {
    if exists dir :: dir in a && IsAncestor(dir, src) {
      var x := FirstAncestor(src, a);
      var y := FirstAncestor(src, b);
      assert IsDeepest(a, src, y);
      DeepestUnique(a, src, x, y);
    } else {
      NoAncestor(src, a);
      NoAncestor(src, b);
    }
  }

  // ---- One binary ----

  /** A linked library: its name, and its path if it could be found. */
  datatype Import = Import(name: string, src: Option<Path>)

  /** The machine: what binaries import, the global inclusion rules, and the platform. */
  datatype Machine = Machine(
    imports: Path -> seq<Import>,
    included: Path -> bool,
    preserved: seq<Path>,
    suppressed: Path -> bool,
    frameworkLibrary: Path -> bool,
    isWin: bool,
    isDarwin: bool)

  predicate IsCollected(m: Machine, i: Import) {
    i.src.Some? && m.included(i.src.value)
  }

  /** The libraries that a binary makes the analysis collect. */
  function NeedsUpTo(m: Machine, deps: seq<Import>, n: nat): set<Path>
    requires n <= |deps|
  {
    if n == 0 then {}
    else NeedsUpTo(m, deps, n - 1) + if IsCollected(m, deps[n - 1]) then {deps[n - 1].src.value} else {}
  }

  function Needs(m: Machine): Path -> set<Path> {
    src => NeedsUpTo(m, m.imports(src), |m.imports(src)|)
  }

  lemma NeedsMeaning(m: Machine, src: Path, dep: Path)
    ensures dep in Needs(m)(src) <==>
      m.included(dep) && exists i :: i in m.imports(src) && i.src == Some(dep)
  {
    NeedsUpToMeaning(m, m.imports(src), |m.imports(src)|, dep);
    if i :| m.included(dep) && i in m.imports(src) && i.src == Some(dep) {
      var k :| 0 <= k < |m.imports(src)| && m.imports(src)[k] == i;
    }
  }

  lemma {:induction false} NeedsUpToMeaning(m: Machine, deps: seq<Import>, n: nat, dep: Path)
    requires n <= |deps|
    ensures dep in NeedsUpTo(m, deps, n) <==>
      exists k :: 0 <= k < n && IsCollected(m, deps[k]) && deps[k].src.value == dep
  {
    if n > 0 {
      NeedsUpToMeaning(m, deps, n - 1, dep);
    }
  }

  function DestinationOf(m: Machine, dep: Path): Path
    requires dep != []
  {
    var dest := SelectDestination(dep, m.preserved);
    if m.isDarwin && Parent(dest) == [] && m.frameworkLibrary(dep) && |dep| >= 4 then dep[|dep| - 4..] else dest
  }

  predicate NeedsTopLevelLink(m: Machine, dep: Path)
    requires dep != []
  {
    !m.isWin && Parent(DestinationOf(m, dep)) != [] && !m.suppressed(dep)
  }

  lemma {:induction false} SelectedNotEmpty(src: Path, paths: seq<Path>)
    requires src != []
    ensures SelectDestination(src, paths) != []
    decreases |paths|
  {
    if paths != [] {
      SelectedNotEmpty(src, paths[1..]);
    }
  }

  lemma DestinationNotEmpty(m: Machine, dep: Path)
    requires dep != []
    ensures DestinationOf(m, dep) != []
  {
    SelectedNotEmpty(dep, m.preserved);
  }

  predicate IsTail(tail: Path, p: Path) {
    |tail| <= |p| && p[|p| - |tail|..] == tail
  }

  lemma {:induction false} SelectedIsTail(src: Path, paths: seq<Path>)
    requires src != []
    ensures IsTail(SelectDestination(src, paths), src)
    decreases |paths|
  {
    if paths != [] && !IsAncestor(paths[0], src) {
      SelectedIsTail(src, paths[1..]);
    }
  }

  /** A library is collected under the last components of its path, frameworks included. */
  lemma DestinationIsTail(m: Machine, dep: Path)
    requires dep != []
    ensures IsTail(DestinationOf(m, dep), dep)
  {
    SelectedIsTail(dep, m.preserved);
  }

  /** The entries for one library: itself, and maybe a link to it from the top-level directory. */
  function Block(m: Machine, dep: Path): (r: seq<Entry>)
    requires dep != []
    ensures |r| > 0 && r[0] == Entry(DestinationOf(m, dep), dep, BINARY)
    ensures forall k :: 0 < k < |r| ==> k == 1 && r[k].typecode == SYMLINK && r[k].src == r[0].dest
  {
    DestinationNotEmpty(m, dep);
    var dest := DestinationOf(m, dep);
    [Entry(dest, dep, BINARY)] + if NeedsTopLevelLink(m, dep) then [Entry([Last(dest)], dest, SYMLINK)] else []
  }

  function BlockOf(m: Machine): Path -> seq<Entry> {
    dep => if dep == [] then [] else Block(m, dep)
  }

  method CollectLibrary(m: Machine, dep: Path) returns (r: seq<Entry>)
    requires dep != []
    ensures r == Block(m, dep)
  {
    DestinationNotEmpty(m, dep);
    var dest := SelectDestinationDirectory(dep, m.preserved);
    if m.isDarwin && Parent(dest) == [] {
      if m.frameworkLibrary(dep) && |dep| >= 4 {
        dest := dep[|dep| - 4..];
      }
    }
    r := [Entry(dest, dep, BINARY)];
    if m.isWin || Parent(dest) == [] || m.suppressed(dep) {
      return;
    }
    r := r + [Entry([Last(dest)], dest, SYMLINK)];
  }

  // ---- The growing TOC ----

  function Elements(s: seq<Path>): set<Path> {
    set x | x in s
  }

  ghost predicate NoRepeats(s: seq<Path>) {
    forall i, j :: 0 <= i < j < |s| ==> s[i] != s[j]
  }

  /** The sources in a TOC that are analyzed: links are not. */
  function Sources(toc: seq<Entry>): set<Path> {
    if toc == [] then {}
    else
      var e := toc[|toc| - 1];
      Sources(toc[..|toc| - 1]) + if e.typecode == SYMLINK then {} else {e.src}
  }

  /** The blocks of libraries, one after the other. */
  function Blocks(block: Path -> seq<Entry>, order: seq<Path>): seq<Entry> {
    if order == [] then [] else Blocks(block, order[..|order| - 1]) + block(order[|order| - 1])
  }

  /** Each block is about its own library. */
  ghost predicate AreBlocks(block: Path -> seq<Entry>) {
    forall dep :: dep != [] ==> Sources(block(dep)) == {dep}
  }

  lemma MachineBlocks(m: Machine)
    ensures AreBlocks(BlockOf(m))
  {
    forall dep: Path | dep != []
      ensures Sources(BlockOf(m)(dep)) == {dep}
    {
      var b := Block(m, dep);
      if |b| == 2 {
        assert b[..1] == [b[0]];
      }
      var one := [b[0]];
      assert one[..0] == [];
      assert Sources(one) == {dep};
    }
  }

  lemma {:induction false} SourcesConcat(a: seq<Entry>, b: seq<Entry>)
    ensures Sources(a + b) == Sources(a) + Sources(b)
  {
    if b == [] {
      assert a + b == a;
    } else {
      assert (a + b)[..|a + b| - 1] == a + b[..|b| - 1];
      SourcesConcat(a, b[..|b| - 1]);
    }
  }

  lemma {:induction false} SourceAt(toc: seq<Entry>, i: nat)
    requires i < |toc| && toc[i].typecode != SYMLINK
    ensures toc[i].src in Sources(toc)
  {
    if i < |toc| - 1 {
      SourceAt(toc[..|toc| - 1], i);
    }
  }

  lemma SourcesUpTo(toc: seq<Entry>, i: nat)
    requires i < |toc|
    ensures Sources(toc[..i + 1]) == Sources(toc[..i]) + if toc[i].typecode == SYMLINK then {} else {toc[i].src}
  {
    assert toc[..i + 1][..i] == toc[..i];
  }

  lemma {:induction false} BlocksSources(block: Path -> seq<Entry>, order: seq<Path>)
    requires AreBlocks(block) && [] !in order
    ensures Sources(Blocks(block, order)) == Elements(order)
  {
    if order != [] {
      var init, dep := order[..|order| - 1], order[|order| - 1];
      assert order == init + [dep];
      BlocksSources(block, init);
      SourcesConcat(Blocks(block, init), block(dep));
    }
  }

  lemma {:induction false} BlocksConcat(block: Path -> seq<Entry>, a: seq<Path>, b: seq<Path>)
    ensures Blocks(block, a + b) == Blocks(block, a) + Blocks(block, b)
  {
    if b == [] {
      assert a + b == a;
    } else {
      assert (a + b)[..|a + b| - 1] == a + b[..|b| - 1];
      BlocksConcat(block, a, b[..|b| - 1]);
    }
  }

  lemma BlocksAppend(block: Path -> seq<Entry>, order: seq<Path>, dep: Path)
    ensures Blocks(block, order + [dep]) == Blocks(block, order) + block(dep)
  {
    var t := order + [dep];
    assert t[..|t| - 1] == order;
  }

  // ---- The imports of one binary ----

  /** `done + more` and `toc'` extend `done` and `toc` by the libraries in `needs` that were new. */
  ghost predicate IsExtension(block: Path -> seq<Entry>, toc: seq<Entry>, done: seq<Path>,
                              toc': seq<Entry>, more: seq<Path>, needs: set<Path>) {
    && NoRepeats(done + more) && Elements(done + more) == Elements(done) + needs
    && [] !in more && toc' == toc + Blocks(block, more)
  }

  lemma ExtendByOne(block: Path -> seq<Entry>, toc: seq<Entry>, done: seq<Path>,
                    toc': seq<Entry>, more: seq<Path>, needs: set<Path>, dep: Path)
    requires IsExtension(block, toc, done, toc', more, needs) && dep != []
    ensures dep in done + more ==> IsExtension(block, toc, done, toc', more, needs + {dep})
    ensures dep !in done + more ==> IsExtension(block, toc, done, toc' + block(dep), more + [dep], needs + {dep})
  {
    if dep !in done + more {
      assert done + (more + [dep]) == (done + more) + [dep];
      assert Elements((done + more) + [dep]) == Elements(done + more) + {dep};
      assert (Elements(done) + needs) + {dep} == Elements(done) + (needs + {dep});
      BlocksAppend(block, more, dep);
    }
  }

  /** Import `k` adds its library to those that are needed, if the library is collected. */
  lemma NeedsStep(m: Machine, src: Path, k: nat)
    requires k < |m.imports(src)|
    ensures var deps := m.imports(src); var i := deps[k];
      && NeedsUpTo(m, deps, k + 1) == NeedsUpTo(m, deps, k) + (if IsCollected(m, i) then {i.src.value} else {})
      && (IsCollected(m, i) ==> i.src.value in Needs(m)(src))
  {
    var deps := m.imports(src);
    if IsCollected(m, deps[k]) {
      NeedsUpToMeaning(m, deps, |deps|, deps[k].src.value);
    }
  }

  /** Processes the imports of one binary. */
  method CollectImports(m: Machine, src: Path, toc: seq<Entry>, done: seq<Path>, ghost universe: set<Path>)
    returns (toc': seq<Entry>, done': seq<Path>, more: seq<Path>)
    requires Needs(m)(src) <= universe && [] !in universe && NoRepeats(done)
    ensures done' == done + more && IsExtension(BlockOf(m), toc, done, toc', more, Needs(m)(src))
  {
    toc', done', more := toc, done, [];
    ghost var block := BlockOf(m);
    ghost var needs: set<Path> := {};
    NothingExtended(block, toc, done);
    var deps := m.imports(src);
    for k := 0 to |deps|
      invariant done' == done + more && needs == NeedsUpTo(m, deps, k)
      invariant IsExtension(block, toc, done, toc', more, needs)
    {
      NeedsStep(m, src, k);
      if deps[k].src.None? || !m.included(deps[k].src.value) {
        continue;
      }
      var dep := deps[k].src.value;
      ExtendByOne(block, toc, done, toc', more, needs, dep);
      needs := needs + {dep};
      if dep in done' {
        continue;
      }
      done' := done' + [dep];
      more := more + [dep];
      var entries := CollectLibrary(m, dep);
      toc' := toc' + entries;
    }
  }

  lemma NothingExtended(block: Path -> seq<Entry>, toc: seq<Entry>, done: seq<Path>)
    requires NoRepeats(done)
    ensures done + [] == done && IsExtension(block, toc, done, toc, [], {})
  {
    assert done + [] == done && toc + [] == toc;
  }

  // ---- The whole analysis ----

  /** Needed by an analyzed input binary, directly or through other libraries. */
  ghost predicate IsDependency(needs: Path -> set<Path>, binaries: seq<Entry>, dep: Path) {
    exists src, first :: src in Sources(binaries) && first in needs(src) && Reaches(needs, {first}, dep)
  }

  /** A finite set of libraries that holds all that are needed, none of them nameless. */
  ghost predicate IsUniverse(needs: Path -> set<Path>, binaries: seq<Entry>, universe: set<Path>) {
    && [] !in universe && IsClosed(needs, universe)
    && forall src :: src in Sources(binaries) ==> needs(src) <= universe
  }

  /** The state of the worklist after the first `i` entries of the growing TOC. */
  ghost predicate IsProgress(needs: Path -> set<Path>, block: Path -> seq<Entry>, binaries: seq<Entry>,
                             universe: set<Path>, toc: seq<Entry>, i: nat, processed: set<Path>, done: seq<Path>) {
    && i <= |toc| && NoRepeats(done) && [] !in done && toc == binaries + Blocks(block, done)
    && Elements(done) <= universe
    && (forall dep :: dep in Elements(done) ==> IsDependency(needs, binaries, dep))
    && processed == Sources(toc[..i])
    && forall src :: src in processed ==> needs(src) <= Elements(done)
  }

  /** How many libraries may still be collected. */
  ghost function Left(universe: set<Path>, done: seq<Path>): nat {
    |universe - Elements(done)|
  }

  /** One turn of the loop, for the entry at `i`. */
  method AnalyzeEntry(m: Machine, ghost binaries: seq<Entry>, ghost universe: set<Path>, toc: seq<Entry>, i: nat,
                      processed: set<Path>, done: seq<Path>, scanned: seq<Path>)
    returns (toc': seq<Entry>, processed': set<Path>, done': seq<Path>, scanned': seq<Path>)
    requires IsUniverse(Needs(m), binaries, universe) && AreBlocks(BlockOf(m)) && i < |toc|
    requires IsProgress(Needs(m), BlockOf(m), binaries, universe, toc, i, processed, done)
    requires NoRepeats(scanned) && Elements(scanned) == processed
    ensures IsProgress(Needs(m), BlockOf(m), binaries, universe, toc', i + 1, processed', done')
    ensures NoRepeats(scanned') && Elements(scanned') == processed'
    ensures
      || Left(universe, done') < Left(universe, done)
      || (Left(universe, done') == Left(universe, done) && toc' == toc)
  {
    toc', processed', done', scanned' := toc, processed, done, scanned;
    var e := toc[i];
    if e.typecode == SYMLINK || e.src in processed {
      ProgressSkip(Needs(m), BlockOf(m), binaries, universe, toc, i + 1, processed, done);
      return;
    }
    SourceIsKnown(Needs(m), BlockOf(m), binaries, toc, done, universe, i);
    processed' := processed + {e.src};
    ScanNew(scanned, e.src);
    scanned' := scanned + [e.src];
    var more;
    toc', done', more := CollectImports(m, e.src, toc, done, universe);
    ProgressStep(Needs(m), BlockOf(m), binaries, universe, toc, i + 1, processed, done, toc', more);
    UniverseShrinks(universe, Elements(done), Elements(done'));
  }

  /** The loop: the TOC is its own list of things to do. */
  method AnalyzeEntries(m: Machine, binaries: seq<Entry>, ghost universe: set<Path>)
    returns (toc: seq<Entry>, done: seq<Path>, scanned: seq<Path>)
    requires IsUniverse(Needs(m), binaries, universe) && AreBlocks(BlockOf(m))
    ensures IsProgress(Needs(m), BlockOf(m), binaries, universe, toc, |toc|, Elements(scanned), done)
    ensures NoRepeats(scanned)
  {
    var i, processed := 0, {};
    toc, done, scanned := binaries, [], [];
    ProgressStart(Needs(m), BlockOf(m), binaries, universe);
    while i < |toc|
      invariant IsProgress(Needs(m), BlockOf(m), binaries, universe, toc, i, processed, done)
      invariant NoRepeats(scanned) && Elements(scanned) == processed
      decreases Left(universe, done), |toc| - i
    {
      toc, processed, done, scanned := AnalyzeEntry(m, binaries, universe, toc, i, processed, done, scanned);
      i := i + 1;
    }
  }

  lemma ProgressStart(needs: Path -> set<Path>, block: Path -> seq<Entry>, binaries: seq<Entry>, universe: set<Path>)
    ensures IsProgress(needs, block, binaries, universe, binaries, 0, {}, [])
  {
    assert binaries == binaries + Blocks(block, []);
  }

  /** Main result on the analysis. `order`: the libraries collected; `scanned`: the binaries whose
      imports were read, in order. */
  method AnalyzeDependencies(m: Machine, binaries: seq<Entry>, ghost universe: set<Path>)
    returns (toc: seq<Entry>, scanned: seq<Path>, order: seq<Path>)
    requires IsUniverse(Needs(m), binaries, universe)
    ensures NoRepeats(order) && [] !in order && toc == binaries + Blocks(BlockOf(m), order)
    ensures forall dep :: dep in order <==> IsDependency(Needs(m), binaries, dep)
    ensures NoRepeats(scanned) && Elements(scanned) == Sources(toc)
  {
    MachineBlocks(m);
    toc, order, scanned := AnalyzeEntries(m, binaries, universe);
    Finished(Needs(m), BlockOf(m), binaries, universe, toc, Elements(scanned), order);
  }

  lemma Finished(needs: Path -> set<Path>, block: Path -> seq<Entry>, binaries: seq<Entry>, universe: set<Path>,
                 toc: seq<Entry>, processed: set<Path>, done: seq<Path>)
    requires AreBlocks(block) && IsProgress(needs, block, binaries, universe, toc, |toc|, processed, done)
    ensures processed == Sources(toc)
    ensures forall dep :: dep in done <==> IsDependency(needs, binaries, dep)
  {
    assert toc[..|toc|] == toc;
    AllCollected(needs, block, binaries, done);
    assert forall dep :: dep in done <==> dep in Elements(done);
  }

  lemma ScanNew(scanned: seq<Path>, src: Path)
    requires NoRepeats(scanned) && src !in Elements(scanned)
    ensures NoRepeats(scanned + [src]) && Elements(scanned + [src]) == Elements(scanned) + {src}
  {
  }

  /** An analyzed entry is an input, or a dependency that was collected. */
  lemma SourceIsKnown(needs: Path -> set<Path>, block: Path -> seq<Entry>, binaries: seq<Entry>,
                      toc: seq<Entry>, done: seq<Path>, universe: set<Path>, i: nat)
    requires IsUniverse(needs, binaries, universe) && AreBlocks(block)
    requires [] !in done && toc == binaries + Blocks(block, done)
    requires Elements(done) <= universe && i < |toc| && toc[i].typecode != SYMLINK
    ensures toc[i].src in Sources(binaries) || toc[i].src in Elements(done)
    ensures needs(toc[i].src) <= universe
  {
    BlocksSources(block, done);
    SourcesConcat(binaries, Blocks(block, done));
    SourceAt(toc, i);
  }

  lemma DependencyNext(needs: Path -> set<Path>, binaries: seq<Entry>, src: Path, dep: Path)
    requires src in Sources(binaries) || IsDependency(needs, binaries, src)
    requires dep in needs(src)
    ensures IsDependency(needs, binaries, dep)
  {
    if src in Sources(binaries) {
      RootReaches(needs, {dep}, dep);
    } else {
      var s, first :| s in Sources(binaries) && first in needs(s) && Reaches(needs, {first}, src);
      ReachesNext(needs, {first}, src, dep);
    }
  }

  /** Links and binaries that were analyzed before change nothing. */
  lemma ProgressSkip(needs: Path -> set<Path>, block: Path -> seq<Entry>, binaries: seq<Entry>, universe: set<Path>,
                     toc: seq<Entry>, i: nat, processed: set<Path>, done: seq<Path>)
    requires 0 < i <= |toc| && (toc[i - 1].typecode == SYMLINK || toc[i - 1].src in processed)
    requires IsProgress(needs, block, binaries, universe, toc, i - 1, processed, done)
    ensures IsProgress(needs, block, binaries, universe, toc, i, processed, done)
  {
    SourcesUpTo(toc, i - 1);
    assert toc[i - 1].src in processed ==> processed + {toc[i - 1].src} == processed;
  }

  lemma ProgressStep(needs: Path -> set<Path>, block: Path -> seq<Entry>, binaries: seq<Entry>, universe: set<Path>,
                     toc: seq<Entry>, i: nat, processed: set<Path>, done: seq<Path>,
                     toc': seq<Entry>, more: seq<Path>)
    requires 0 < i <= |toc| && toc[i - 1].typecode != SYMLINK
    requires IsProgress(needs, block, binaries, universe, toc, i - 1, processed, done)
    requires var src := toc[i - 1].src;
      && (src in Sources(binaries) || src in Elements(done)) && needs(src) <= universe
      && IsExtension(block, toc, done, toc', more, needs(src))
    ensures IsProgress(needs, block, binaries, universe, toc', i, processed + {toc[i - 1].src}, done + more)
    ensures Elements(done) <= Elements(done + more) <= universe
    ensures Elements(done + more) == Elements(done) ==> toc' == toc
  {
    var src := toc[i - 1].src;
    BlocksGrow(block, binaries, done, more, toc, toc');
    ProcessedStep(toc, toc', i, processed);
    DependenciesStep(needs, binaries, src, done, done + more);
    NewMeansMore(done, more);
    NoneNameless(done, more);
  }

  lemma NoneNameless(done: seq<Path>, more: seq<Path>)
    requires [] !in done && [] !in more
    ensures [] !in done + more
  {
  }

  lemma BlocksGrow(block: Path -> seq<Entry>, binaries: seq<Entry>, done: seq<Path>, more: seq<Path>,
                   toc: seq<Entry>, toc': seq<Entry>)
    requires toc == binaries + Blocks(block, done) && toc' == toc + Blocks(block, more)
    ensures toc' == binaries + Blocks(block, done + more) && toc <= toc'
    ensures more == [] ==> toc' == toc
  {
    BlocksConcat(block, done, more);
    var a, b := Blocks(block, done), Blocks(block, more);
    assert (binaries + a) + b == binaries + (a + b);
  }

  lemma ProcessedStep(toc: seq<Entry>, toc': seq<Entry>, i: nat, processed: set<Path>)
    requires 0 < i <= |toc| && toc[i - 1].typecode != SYMLINK && toc <= toc'
    requires processed == Sources(toc[..i - 1])
    ensures processed + {toc[i - 1].src} == Sources(toc'[..i])
  {
    SourcesUpTo(toc, i - 1);
    assert toc'[..i] == toc[..i];
  }

  lemma NewMeansMore(done: seq<Path>, more: seq<Path>)
    requires NoRepeats(done + more)
    ensures Elements(done + more) == Elements(done) ==> more == []
  {
    if more != [] {
      assert (done + more)[|done|] == more[0];
      assert more[0] in Elements(done + more);
      assert more[0] !in Elements(done) by {
        assert forall k :: 0 <= k < |done| ==> done[k] == (done + more)[k];
      }
    }
  }

  lemma DependenciesStep(needs: Path -> set<Path>, binaries: seq<Entry>, src: Path, done: seq<Path>, done': seq<Path>)
    requires src in Sources(binaries) || src in Elements(done)
    requires forall dep :: dep in Elements(done) ==> IsDependency(needs, binaries, dep)
    requires Elements(done') == Elements(done) + needs(src)
    ensures forall dep :: dep in Elements(done') ==> IsDependency(needs, binaries, dep)
  {
    forall dep | dep in Elements(done')
      ensures IsDependency(needs, binaries, dep)
    {
      if dep in needs(src) {
        DependencyNext(needs, binaries, src, dep);
      }
    }
  }

  lemma UniverseShrinks(universe: set<Path>, a: set<Path>, b: set<Path>)
    requires a <= b <= universe
    ensures |universe - b| <= |universe - a|
    ensures |universe - b| == |universe - a| ==> a == b
  {
    SubsetSize(universe - b, universe - a);
    assert universe - b == universe - a ==> a == b by {
      if universe - b == universe - a {
        assert forall x :: x in b ==> x in universe && x !in universe - b;
      }
    }
  }

  lemma {:induction false} SubsetSize(a: set<Path>, b: set<Path>)
    requires a <= b
    ensures |a| <= |b| && (|a| == |b| ==> a == b)
    decreases |a|
  {
    if x :| x in a {
      SubsetSize(a - {x}, b - {x});
      assert a == (a - {x}) + {x} && b == (b - {x}) + {x};
    } else {
      assert a == {};
      if y :| y in b {
        assert |b| == |b - {y}| + 1;
      }
    }
  }

  /** When everything was analyzed, everything needed was collected. */
  lemma AllCollected(needs: Path -> set<Path>, block: Path -> seq<Entry>, binaries: seq<Entry>, order: seq<Path>)
    requires AreBlocks(block) && [] !in order
    requires forall src :: src in Sources(binaries + Blocks(block, order)) ==> needs(src) <= Elements(order)
    ensures forall dep :: IsDependency(needs, binaries, dep) ==> dep in Elements(order)
  {
    BlocksSources(block, order);
    SourcesConcat(binaries, Blocks(block, order));
    forall dep | IsDependency(needs, binaries, dep)
      ensures dep in Elements(order)
    {
      var s, first :| s in Sources(binaries) && first in needs(s) && Reaches(needs, {first}, dep);
      ClosedHoldsReachable(needs, {first}, Elements(order), dep);
    }
  }

  /** In the appended part, each link follows the library that it leads to. */
  lemma {:induction false} LinksFollowLibraries(m: Machine, order: seq<Path>, k: nat)
    requires [] !in order && k < |Blocks(BlockOf(m), order)|
    ensures var r := Blocks(BlockOf(m), order);
      && (r[k].typecode == SYMLINK ==> k > 0 && r[k - 1].typecode == BINARY && r[k].src == r[k - 1].dest)
      && (r[k].typecode == SYMLINK || (r[k].typecode == BINARY && r[k].src in order
            && r[k].src != [] && r[k].dest == DestinationOf(m, r[k].src)))
  {
    var init, dep := order[..|order| - 1], order[|order| - 1];
    assert order == init + [dep];
    var front := Blocks(BlockOf(m), init);
    assert Blocks(BlockOf(m), order) == front + Block(m, dep);
    if k < |front| {
      LinksFollowLibraries(m, init, k);
    } else {
      assert Blocks(BlockOf(m), order)[k] == Block(m, dep)[k - |front|];
    }
  }
}
