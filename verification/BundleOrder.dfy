/** When the order of the input matters for the layout of a bundle. */
module BundleOrder {
  import opened Paths
  import opened Toc
  import opened Ordering
  import opened BundleSpec
  import opened BundleClassification
  import opened BundleGeometry
  import opened BundleInput
  import opened BundleConsistency
  import opened BundleOverlaps
  import opened BundleProcess
  import opened BundleTheorems

  ghost predicate IsReordering(a: seq<Entry>, b: seq<Entry>) {
    multiset(a) == multiset(b)
  }

  ghost predicate SameEntries(a: seq<Entry>, b: seq<Entry>) {
    forall e :: e in a <==> e in b
  }

  /** The final TOC lists are the same. */
  ghost predicate SameResult(a: seq<Entry>, b: seq<Entry>) {
    HasDests(a) && HasDests(b) && FinalToc(a) == FinalToc(b)
  }

  /** A symbolic link (or another entry that is neither binary nor data) lies below `d`, together with
      binaries and without data. */
  ghost predicate IsUndecided(toc: seq<Entry>, d: Path) {
    HasKind(toc, d, BinaryKind) && HasKind(toc, d, OtherKind) && !HasKind(toc, d, DataKind)
  }

  // ---- Reorderings ----

  lemma ReorderingSameEntries(a: seq<Entry>, b: seq<Entry>)
    requires IsReordering(a, b)
    ensures SameEntries(a, b)
  {
    forall e
      ensures e in a <==> e in b
    {
      SameElements(a, b, e);
    }
  }

  lemma {:induction false} CountOnce(s: seq<Entry>, e: Entry)
    requires forall i, j :: 0 <= i < j < |s| ==> s[i] != s[j]
    ensures multiset(s)[e] <= 1
  {
    if s != [] {
      var init, last := s[..|s| - 1], s[|s| - 1];
      CountOnce(init, e);
      assert s == init + [last];
      assert multiset(s) == multiset(init) + multiset{last};
      assert last !in init;
      assert multiset(init)[last] == 0;
    }
  }

  lemma CountTwice(s: seq<Entry>, i: nat, j: nat)
    requires i < j < |s| && s[i] == s[j]
    ensures multiset(s)[s[i]] >= 2
  {
    assert s == s[..j] + [s[j]] + s[j + 1..];
    assert s[i] in s[..j];
    assert s[i] in multiset(s[..j]);
  }

  lemma ReorderingUnrelated(a: seq<Entry>, b: seq<Entry>)
    requires Unrelated(a) && IsReordering(a, b)
    ensures Unrelated(b)
  {
    ReorderingSameEntries(a, b);
    forall i, j | 0 <= i < |b| && 0 <= j < |b| && i != j
      ensures b[i].dest != b[j].dest
      ensures b[i].typecode != EXECUTABLE && b[j].typecode != EXECUTABLE ==> !(b[i].dest < b[j].dest)
    {
      if b[i] == b[j] {
        CountOnce(a, b[i]);
        CountTwice(b, if i < j then i else j, if i < j then j else i);
        assert false;
      }
      assert b[i] in a && b[j] in a;
    }
  }

  lemma BelowFromEntries(a: seq<Entry>, b: seq<Entry>, d: Path, kind: Kind)
    requires SameEntries(a, b) && HasKind(a, d, kind)
    ensures HasKind(b, d, kind)
  {
    var i :| 0 <= i < |a| && Above(d, a[i]) && KindOf(a[i]) == kind;
    assert a[i] in b;
  }

  lemma FrameworkFromEntries(a: seq<Entry>, b: seq<Entry>, d: Path)
    requires SameEntries(a, b) && IsFramework(a, |a|, d)
    ensures IsFramework(b, |b|, d)
  {
    var i :| 0 <= i < |a| && FrameworkLength(a[i].dest) > 0 && UnitOf(a[i]) == d;
    assert a[i] in b;
  }

  lemma NodeFromEntries(a: seq<Entry>, b: seq<Entry>, v: Path)
    requires SameEntries(a, b) && IsNode(a, v)
    ensures IsNode(b, v)
  {
    var i :| 0 <= i < |a| && a[i].typecode != EXECUTABLE && v <= UnitOf(a[i]);
    assert a[i] in b;
  }

  /** What lies below a directory does not depend on the order. */
  lemma SameBelow(a: seq<Entry>, b: seq<Entry>, d: Path)
    requires SameEntries(a, b)
    ensures forall kind :: HasKind(a, d, kind) <==> HasKind(b, d, kind)
    ensures IsFramework(a, |a|, d) <==> IsFramework(b, |b|, d)
    ensures IsNode(a, d) <==> IsNode(b, d)
  {
    forall kind
      ensures HasKind(a, d, kind) <==> HasKind(b, d, kind)
    {
      if HasKind(a, d, kind) {
        BelowFromEntries(a, b, d, kind);
      }
      if HasKind(b, d, kind) {
        BelowFromEntries(b, a, d, kind);
      }
    }
    SameOthers(a, b, d);
  }

  lemma SameOthers(a: seq<Entry>, b: seq<Entry>, d: Path)
    requires SameEntries(a, b)
    ensures IsFramework(a, |a|, d) <==> IsFramework(b, |b|, d)
    ensures IsNode(a, d) <==> IsNode(b, d)
  {
    if IsFramework(a, |a|, d) {
      FrameworkFromEntries(a, b, d);
    }
    if IsFramework(b, |b|, d) {
      FrameworkFromEntries(b, a, d);
    }
    if IsNode(a, d) {
      NodeFromEntries(a, b, d);
    }
    if IsNode(b, d) {
      NodeFromEntries(b, a, d);
    }
  }

  lemma ReorderingWellFormed(a: seq<Entry>, b: seq<Entry>)
    requires WellFormed(a) && NoOptions(a) && IsReordering(a, b)
    ensures WellFormed(b) && NoOptions(b) && SameEntries(a, b)
  {
    ReorderingSameEntries(a, b);
    ReorderingUnrelated(a, b);
    forall i | 0 <= i < |b|
      ensures b[i] in a
    {
      assert b[i] in b;
    }
    forall d
      ensures d in RenamedDirs(a) <==> d in RenamedDirs(b)
      ensures d in Nodes(a) <==> d in Nodes(b)
    {
      SameBelow(a, b, d);
    }
    assert RenamedDirs(a) == RenamedDirs(b) && Nodes(a) == Nodes(b);
  }

  // ---- Where nothing is undecided, the order is irrelevant ----

  lemma StartIsBelow(toc: seq<Entry>, d: Path)
    requires StartsWithOther(toc, |toc|, d)
    ensures HasKind(toc, d, OtherKind)
  {
  }

  lemma SameAny(a: seq<Entry>, b: seq<Entry>, d: Path)
    requires forall kind :: HasKind(a, d, kind) <==> HasKind(b, d, kind)
    ensures AnyBelow(a, |a|, d) <==> AnyBelow(b, |b|, d)
  {
    KnownByKind(a, |a|, d);
    KnownByKind(b, |b|, d);
    assert forall kind :: HasBelow(a, |a|, d, kind) <==> HasKind(a, d, kind);
    assert forall kind :: HasBelow(b, |b|, d, kind) <==> HasKind(b, d, kind);
  }

  lemma DecidedIsDeclared(toc: seq<Entry>, d: Path)
    requires !IsUndecided(toc, d)
    ensures Meaning(toc, |toc|, d) == Declared(toc, d)
  {
    if StartsWithOther(toc, |toc|, d) {
      StartIsBelow(toc, d);
    }
  }

  lemma SameTypeAt(a: seq<Entry>, b: seq<Entry>, d: Path)
    requires SameEntries(a, b) && !IsUndecided(a, d)
    ensures IsDirectory(a, d) <==> IsDirectory(b, d)
    ensures Meaning(a, |a|, d) == Meaning(b, |b|, d)
  {
    SameBelow(a, b, d);
    SameAny(a, b, d);
    DecidedIsDeclared(a, d);
    DecidedIsDeclared(b, d);
    SameDeclared(a, b, d);
  }

  lemma SameDeclared(a: seq<Entry>, b: seq<Entry>, d: Path)
    requires forall kind :: HasKind(a, d, kind) <==> HasKind(b, d, kind)
    requires IsFramework(a, |a|, d) <==> IsFramework(b, |b|, d)
    ensures Declared(a, d) == Declared(b, d)
  {
    assert HasBelow(a, |a|, d, BinaryKind) <==> HasKind(a, d, BinaryKind);
    assert HasBelow(a, |a|, d, DataKind) <==> HasKind(a, d, DataKind);
    assert HasBelow(b, |b|, d, BinaryKind) <==> HasKind(b, d, BinaryKind);
    assert HasBelow(b, |b|, d, DataKind) <==> HasKind(b, d, DataKind);
  }

  lemma SameTypes(a: seq<Entry>, b: seq<Entry>)
    requires SameEntries(a, b) && forall d :: !IsUndecided(a, d)
    ensures DirsOf(a).types == DirsOf(b).types
  {
    forall d
      ensures d in DirsOf(a).types <==> d in DirsOf(b).types
      ensures d in DirsOf(a).types ==> DirsOf(a).types[d] == DirsOf(b).types[d]
    {
      ClassifyMeaning(a, |a|, d);
      ClassifyMeaning(b, |b|, d);
      SameTypeAt(a, b, d);
    }
  }

  lemma SameItems(a: seq<Entry>, b: seq<Entry>, e: Entry)
    requires HasDests(a) && HasDests(b) && SameEntries(a, b) && DirsOf(a).types == DirsOf(b).types
    requires e in BundleOf(a)
    ensures e in BundleOf(b)
  {
    var k :| 0 <= k < |BundleOf(a)| && BundleOf(a)[k] == e;
    var o := OriginOfEntry(a, k);
    var p := SameOrigin(a, b, o);
    var l := ItemInBundle(b, p);
  }

  lemma SameOrigin(a: seq<Entry>, b: seq<Entry>, o: Origin) returns (p: Origin)
    requires SameEntries(a, b) && DirsOf(a).types == DirsOf(b).types && ValidOrigin(a, DirsOf(a), o)
    requires SubjectOf(a, DirsOf(a), o) != []
    ensures ValidOrigin(b, DirsOf(b), p) && SubjectOf(b, DirsOf(b), p) != []
    ensures Item(b, DirsOf(b), p) == Item(a, DirsOf(a), o)
  {
    p := o;
    if o.Placed? || o.CrossFile? {
      assert a[o.i] in b;
      var j :| 0 <= j < |b| && b[j] == a[o.i];
      p := if o.Placed? then Placed(j) else CrossFile(j);
    }
    assert RawItem(b, DirsOf(b), p) == RawItem(a, DirsOf(a), o);
  }

  lemma CleanBundle(toc: seq<Entry>)
    requires WellFormed(toc) && NoOptions(toc)
    ensures forall k :: 0 <= k < |BundleOf(toc)| ==> AllNames(BundleOf(toc)[k].dest)
  {
    forall k | 0 <= k < |BundleOf(toc)| {
      BundleEntryIsClean(toc, k);
    }
  }

  lemma SameBundles(a: seq<Entry>, b: seq<Entry>)
    requires WellFormed(a) && NoOptions(a) && WellFormed(b) && NoOptions(b)
    requires forall e :: e in BundleOf(a) <==> e in BundleOf(b)
    ensures FinalToc(a) == FinalToc(b)
  {
    NormalizationKeepsAll(a);
    NormalizationKeepsAll(b);
    DestsDistinct(a);
    DestsDistinct(b);
    CleanBundle(a);
    CleanBundle(b);
    SortedCanonical(BundleOf(a), BundleOf(b));
  }

  lemma DecidedHasOneResult(a: seq<Entry>, b: seq<Entry>)
    requires WellFormed(a) && NoOptions(a) && IsReordering(a, b) && forall d :: !IsUndecided(a, d)
    ensures SameResult(a, b)
  {
    ReorderingWellFormed(a, b);
    SameTypes(a, b);
    forall e
      ensures e in BundleOf(a) <==> e in BundleOf(b)
    {
      if e in BundleOf(a) {
        SameItems(a, b, e);
      }
      if e in BundleOf(b) {
        SameItems(b, a, e);
      }
    }
    SameBundles(a, b);
  }

  // ---- Where something is, the first entry decides ----

  /** The topmost such directory lies at the top or in one that is mixed in any order. */
  lemma {:induction false} TopmostUndecided(toc: seq<Entry>, d: Path) returns (t: Path)
    requires IsUndecided(toc, d)
    ensures t != [] && IsUndecided(toc, t)
    ensures Parent(t) == [] || (HasKind(toc, Parent(t), BinaryKind) && HasKind(toc, Parent(t), DataKind))
    decreases |d|
  {
    t := d;
    if Parent(d) != [] {
      KindsUp(toc, d, Parent(d), BinaryKind);
      KindsUp(toc, d, Parent(d), OtherKind);
      if !HasKind(toc, Parent(d), DataKind) {
        t := TopmostUndecided(toc, Parent(d));
      }
    }
  }

  /** The i-th entry moved to the front. */
  function Fronted(a: seq<Entry>, i: nat): (b: seq<Entry>)
    requires i < |a|
    ensures |b| == |a| && b[0] == a[i] && multiset(b) == multiset(a)
  {
    a[0 := a[i]][i := a[0]]
  }

  lemma FirstDecides(toc: seq<Entry>, d: Path)
    requires toc != [] && Above(d, toc[0]) && HasKind(toc, d, BinaryKind) && !HasKind(toc, d, DataKind)
    ensures IsMixedDir(toc, d) <==> KindOf(toc[0]) == OtherKind
  {
  }

  ghost predicate HasItemAt(s: seq<Entry>, p: Path) {
    exists k :: 0 <= k < |s| && s[k].dest == p
  }

  /** Such a directory is linked into `Resources` exactly if it is not classified as mixed. */
  lemma LinkedUnlessMixed(toc: seq<Entry>, d: Path)
    requires WellFormed(toc) && HasKind(toc, d, BinaryKind) && d != []
    requires Parent(d) == [] || (HasKind(toc, Parent(d), BinaryKind) && HasKind(toc, Parent(d), DataKind))
    ensures HasItemAt(BundleOf(toc), Rooted(RESOURCES, d)) <==> !IsMixedDir(toc, d)
  {
    AnyIfSome(toc, d, BinaryKind);
    TypeFacts(toc, d);
    CrossLinkParent(toc, d);
    if !IsMixedDir(toc, d) {
      var k := InResources(toc, CrossDir(d));
    }
    if k :| 0 <= k < |BundleOf(toc)| && BundleOf(toc)[k].dest == Rooted(RESOURCES, d) {
      ItemAtDirectory(toc, d, k);
    }
  }

  lemma PlaceInResources(side: string, x: Path, d: Path)
    requires x != [] && Place(side, x) == Rooted(RESOURCES, d)
    ensures side == RESOURCES && x == d
  {
    assert Place(side, x)[1] == side && Rooted(RESOURCES, d)[1] == RESOURCES;
    assert Rooted(RESOURCES, x)[2..] == x && Rooted(RESOURCES, d)[2..] == d;
  }

  lemma ItemAtDirectory(toc: seq<Entry>, d: Path, k: nat)
    requires WellFormed(toc) && IsDirectory(toc, d) && d != []
    requires k < |BundleOf(toc)| && BundleOf(toc)[k].dest == Rooted(RESOURCES, d)
    ensures HasCrossDir(DirsOf(toc), d)
  {
    var o := OriginOfEntry(toc, k);
    var ds := DirsOf(toc);
    ItemPlace(toc, ds, o);
    PlaceInResources(SideOf(toc, ds, o), SubjectOf(toc, ds, o), d);
    DistinctSides();
    if o.Placed? || o.CrossFile? {
      NoEntryAtDirectory(toc, d, o.i);
    }
  }

  lemma FinalItems(toc: seq<Entry>, p: Path)
    requires WellFormed(toc) && NoOptions(toc)
    ensures HasItemAt(FinalToc(toc), p) <==> HasItemAt(BundleOf(toc), p)
  {
    FinalTocMeaning(toc);
    SameItemsAt(FinalToc(toc), BundleOf(toc), p);
    SameItemsAt(BundleOf(toc), FinalToc(toc), p);
  }

  lemma SameItemsAt(a: seq<Entry>, b: seq<Entry>, p: Path)
    requires multiset(a) == multiset(b)
    ensures HasItemAt(a, p) ==> HasItemAt(b, p)
  {
    if k :| 0 <= k < |a| && a[k].dest == p {
      SameElements(a, b, a[k]);
      var l :| 0 <= l < |b| && b[l] == a[k];
    }
  }

  lemma FrontDecides(a: seq<Entry>, i: nat, d: Path)
    requires WellFormed(a) && NoOptions(a) && IsUndecided(a, d) && d != []
    requires Parent(d) == [] || (HasKind(a, Parent(d), BinaryKind) && HasKind(a, Parent(d), DataKind))
    requires i < |a| && Above(d, a[i])
    ensures HasDests(Fronted(a, i)) && IsReordering(a, Fronted(a, i))
    ensures HasItemAt(FinalToc(Fronted(a, i)), Rooted(RESOURCES, d)) <==> KindOf(a[i]) != OtherKind
  {
    var b := Fronted(a, i);
    ReorderingWellFormed(a, b);
    SameBelow(a, b, d);
    SameBelow(a, b, Parent(d));
    FirstDecides(b, d);
    LinkedUnlessMixed(b, d);
    FinalItems(b, Rooted(RESOURCES, d));
  }

  lemma UndecidedHasTwoResults(a: seq<Entry>, d: Path)
    requires WellFormed(a) && NoOptions(a) && IsUndecided(a, d)
    ensures exists b :: IsReordering(a, b) && !SameResult(a, b)
  {
    var t := TopmostUndecided(a, d);
    var i: nat :| i < |a| && Above(t, a[i]) && KindOf(a[i]) == BinaryKind;
    var j: nat :| j < |a| && Above(t, a[j]) && KindOf(a[j]) == OtherKind;
    FrontDecides(a, i, t);
    FrontDecides(a, j, t);
    if SameResult(a, Fronted(a, i)) {
      assert IsReordering(a, Fronted(a, j)) && !SameResult(a, Fronted(a, j));
    } else {
      assert IsReordering(a, Fronted(a, i)) && !SameResult(a, Fronted(a, i));
    }
  }

  /** Main result on the order of the input: every reordering of a well-formed TOC gives the same
      result if and only if each directory that holds binaries and a symbolic link holds data, too. */
  lemma OrderIsIrrelevant(a: seq<Entry>)
    requires WellFormed(a) && NoOptions(a)
    ensures (forall b :: IsReordering(a, b) ==> SameResult(a, b)) <==> (forall d :: !IsUndecided(a, d))
  {
    if d :| IsUndecided(a, d) {
      UndecidedHasTwoResults(a, d);
    } else {
      forall b | IsReordering(a, b)
        ensures SameResult(a, b)
      {
        DecidedHasOneResult(a, b);
      }
    }
  }

  // ---- An example ----

  /** A binary, then a link and a binary in a directory beside it; and the same with the link last. */
  function LinkFirst(a: string, x: string, b: string, link: string, y: string,
                     text: Path, src1: Path, src2: Path): seq<Entry> {
    [Entry([a, x], src1, BINARY), Entry([a, b, link], text, SYMLINK), Entry([a, b, y], src2, BINARY)]
  }

  function LinkLast(a: string, x: string, b: string, link: string, y: string,
                    text: Path, src1: Path, src2: Path): seq<Entry> {
    [Entry([a, x], src1, BINARY), Entry([a, b, y], src2, BINARY), Entry([a, b, link], text, SYMLINK)]
  }

  lemma LinkFirstTypes(toc: seq<Entry>, a: string, x: string, b: string, link: string, y: string,
                       text: Path, src1: Path, src2: Path)
    requires toc == LinkFirst(a, x, b, link, y, text, src1, src2) && x != b
    requires FrameworkLength([a, x]) == 0 && FrameworkLength([a, b, link]) == 0 && FrameworkLength([a, b, y]) == 0
    ensures [a] in DirsOf(toc).types && DirsOf(toc).types[[a]] == BinaryDir
    ensures [a, b] in DirsOf(toc).types && DirsOf(toc).types[[a, b]] == MixedDir
  {
    assert [a] < toc[0].dest;
    BinaryDirHere(toc, [a], 0);
    assert !([a, b] < toc[0].dest) && [a, b] < toc[1].dest && [a, b] < toc[2].dest;
    MixedDirHere(toc, [a, b], 1, 2);
  }

  lemma LinkLastType(toc: seq<Entry>, a: string, x: string, b: string, link: string, y: string,
                     text: Path, src1: Path, src2: Path)
    requires toc == LinkLast(a, x, b, link, y, text, src1, src2) && x != b
    requires FrameworkLength([a, x]) == 0 && FrameworkLength([a, b, link]) == 0 && FrameworkLength([a, b, y]) == 0
    ensures [a, b] in DirsOf(toc).types && DirsOf(toc).types[[a, b]] == BinaryDir
  {
    assert !([a, b] < toc[0].dest) && [a, b] < toc[1].dest && [a, b] < toc[2].dest;
    BinaryDirHere(toc, [a, b], 1);
  }

  /** With the link last, it lies in directories with binaries that start with a binary. */
  lemma LinkLastIsPlaceable(toc: seq<Entry>, a: string, x: string, b: string, link: string, y: string,
                            text: Path, src1: Path, src2: Path)
    requires toc == LinkLast(a, x, b, link, y, text, src1, src2)
    requires FrameworkLength([a, x]) == 0 && FrameworkLength([a, b, link]) == 0 && FrameworkLength([a, b, y]) == 0
    ensures LinksPlaceable(toc)
  {
    assert Parent([a, b, link]) == Parent([a, b, y]) == [a, b];
    forall d
      ensures Above(d, toc[2]) <==> Above(d, toc[1])
    {
      assert d < toc[2].dest <==> d <= [a, b];
      assert d < toc[1].dest <==> d <= [a, b];
    }
    assert KindOf(toc[0]) == BinaryKind && KindOf(toc[1]) == BinaryKind;
    forall d
      ensures !StartsWithOther(toc, |toc|, d)
      ensures HasKind(toc, d, OtherKind) ==> HasKind(toc, d, BinaryKind)
    {
    }
  }

  lemma NoDotNoFramework(name: string)
    requires '.' !in name
    ensures !IsFrameworkName(name)
  {
    assert ".framework"[0] == '.';
    if IsFrameworkName(name) {
      DotOfFramework(name);
    }
  }

  lemma DotOfFramework(name: string)
    requires IsFrameworkName(name)
    ensures '.' in name
  {
    assert name[|name| - 10..][0] == ".framework"[0] == '.';
    assert name[|name| - 10] == '.';
  }

  lemma NoDotsApart(renamed: iset<Path>, nodes: iset<Path>, a: string, x: string, b: string, link: string, y: string)
    requires '.' !in a && '.' !in b && x != b
    requires forall d :: d in renamed ==> d == [a] || d == [a, b]
    requires forall v :: v in nodes ==> v == [a] || v == [a, x] || v == [a, b] || v == [a, b, link] || v == [a, b, y]
    ensures DotsApart(renamed, nodes)
  {
    assert Sanitized(a) == a && Sanitized(b) == b;
    assert Parent([a]) == [] && Parent([a, x]) == Parent([a, b]) == [a];
  }

  lemma LinkFirstPrefix(toc: seq<Entry>, a: string, x: string, b: string, link: string, y: string,
                        text: Path, src1: Path, src2: Path, i: nat, p: Path)
    requires toc == LinkFirst(a, x, b, link, y, text, src1, src2) && i < 3 && p != [] && p <= toc[i].dest
    ensures p == [a] || p == [a, b] || p == toc[i].dest
  {
    if i == 0 {
      PrefixOfTwo(p, a, x);
    } else {
      PrefixOfThree(p, a, b, if i == 1 then link else y);
    }
  }

  lemma LinkFirstDirs(toc: seq<Entry>, a: string, x: string, b: string, link: string, y: string,
                      text: Path, src1: Path, src2: Path)
    requires toc == LinkFirst(a, x, b, link, y, text, src1, src2)
    requires FrameworkLength([a, x]) == 0 && FrameworkLength([a, b, link]) == 0 && FrameworkLength([a, b, y]) == 0
    ensures forall d :: d in RenamedDirs(toc) ==> d == [a] || d == [a, b]
  {
    forall d | d in RenamedDirs(toc)
      ensures d == [a] || d == [a, b]
    {
      var i: nat :| i < |toc| && Above(d, toc[i]);
      LinkFirstPrefix(toc, a, x, b, link, y, text, src1, src2, i, d);
    }
  }

  lemma LinkFirstNodes(toc: seq<Entry>, a: string, x: string, b: string, link: string, y: string,
                       text: Path, src1: Path, src2: Path)
    requires toc == LinkFirst(a, x, b, link, y, text, src1, src2)
    requires FrameworkLength([a, x]) == 0 && FrameworkLength([a, b, link]) == 0 && FrameworkLength([a, b, y]) == 0
    ensures forall v :: v in Nodes(toc) ==>
      v == [a] || v == [a, x] || v == [a, b] || v == [a, b, link] || v == [a, b, y]
  {
    forall v | v in Nodes(toc)
      ensures v == [a] || v == [a, b] || v == [a, x] || v == [a, b, link] || v == [a, b, y]
    {
      var i: nat :| i < |toc| && v <= UnitOf(toc[i]);
      LinkFirstPrefix(toc, a, x, b, link, y, text, src1, src2, i, v);
    }
  }

  lemma LinkFirstUnrelated(toc: seq<Entry>, a: string, x: string, b: string, link: string, y: string,
                           text: Path, src1: Path, src2: Path)
    requires toc == LinkFirst(a, x, b, link, y, text, src1, src2) && x != b && link != y
    ensures Unrelated(toc)
  {
    assert toc[0].dest[1] != toc[1].dest[1] && toc[0].dest[1] != toc[2].dest[1];
    assert toc[1].dest[2] != toc[2].dest[2];
  }

  lemma LinkFirstNames(toc: seq<Entry>, a: string, x: string, b: string, link: string, y: string,
                       text: Path, src1: Path, src2: Path)
    requires toc == LinkFirst(a, x, b, link, y, text, src1, src2)
    requires FrameworkLength([a, x]) == 0 && FrameworkLength([a, b, link]) == 0 && FrameworkLength([a, b, y]) == 0
    requires IsName(a) && IsName(x) && IsName(b) && IsName(link) && IsName(y)
    ensures ValidNames(toc) && NoNestedFrameworks(toc) && ProgramAtTop(toc) && NoOptions(toc)
  {
  }

  /** For names without dots in its directories, the example is well-formed. */
  lemma LinkFirstIsWellFormed(toc: seq<Entry>, a: string, x: string, b: string, link: string, y: string,
                              text: Path, src1: Path, src2: Path)
    requires toc == LinkFirst(a, x, b, link, y, text, src1, src2) && x != b && link != y
    requires IsName(a) && IsName(x) && IsName(b) && IsName(link) && IsName(y) && '.' !in a && '.' !in b
    ensures WellFormed(toc) && NoOptions(toc)
    ensures FrameworkLength([a, x]) == 0 && FrameworkLength([a, b, link]) == 0 && FrameworkLength([a, b, y]) == 0
  {
    NoDotNoFramework(a);
    NoDotNoFramework(b);
    LinkFirstDirs(toc, a, x, b, link, y, text, src1, src2);
    LinkFirstNodes(toc, a, x, b, link, y, text, src1, src2);
    NoDotsApart(RenamedDirs(toc), Nodes(toc), a, x, b, link, y);
    LinkFirstUnrelated(toc, a, x, b, link, y, text, src1, src2);
    LinkFirstNames(toc, a, x, b, link, y, text, src1, src2);
  }

  /** Only one of two equal final TOC lists cannot overlap. */
  lemma OverlapsDiffer(a: seq<Entry>, b: seq<Entry>)
    requires WellFormed(a) && NoOptions(a) && WellFormed(b) && NoOptions(b) && Overlaps(a) && LinksPlaceable(b)
    ensures !SameResult(a, b)
  {
    ConsistentExactly(a);
    ConsistentExactly(b);
    FinalTocMeaning(a);
    FinalTocMeaning(b);
    DestsDistinct(a);
    DestsDistinct(b);
  }

  lemma LinkFirstOverlaps(toc: seq<Entry>, a: string, x: string, b: string, link: string, y: string,
                          text: Path, src1: Path, src2: Path)
    requires toc == LinkFirst(a, x, b, link, y, text, src1, src2) && x != b
    requires FrameworkLength([a, x]) == 0 && FrameworkLength([a, b, link]) == 0 && FrameworkLength([a, b, y]) == 0
    ensures Overlaps(toc)
  {
    LinkFirstTypes(toc, a, x, b, link, y, text, src1, src2);
    assert Parent([a]) == [] && Parent(toc[2].dest) == [a, b] && [a] < toc[2].dest;
    MixedInBinaryDirOverlaps(toc, 2, [a]);
  }

  /** A link that comes first turns a binary-only directory into a mixed one, and the bundle overlaps.
      With the link last, the layout is consistent: the same entries give another final TOC. */
  lemma LinkFirstExample(toc: seq<Entry>, other: seq<Entry>, a: string, x: string, b: string, link: string, y: string,
                         text: Path, src1: Path, src2: Path)
    requires toc == LinkFirst(a, x, b, link, y, text, src1, src2)
    requires other == LinkLast(a, x, b, link, y, text, src1, src2) && x != b
    requires FrameworkLength([a, x]) == 0 && FrameworkLength([a, b, link]) == 0 && FrameworkLength([a, b, y]) == 0
    ensures Overlaps(toc) && LinksPlaceable(other)
    ensures IsReordering(toc, other) && DirsOf(toc).types != DirsOf(other).types
    ensures WellFormed(toc) && NoOptions(toc) ==> !SameResult(toc, other)
  {
    LinkFirstTypes(toc, a, x, b, link, y, text, src1, src2);
    LinkLastType(other, a, x, b, link, y, text, src1, src2);
    LinkFirstOverlaps(toc, a, x, b, link, y, text, src1, src2);
    LinkLastIsPlaceable(other, a, x, b, link, y, text, src1, src2);
    LinkMoved(toc, other);
    if WellFormed(toc) && NoOptions(toc) {
      ReorderingWellFormed(toc, other);
      OverlapsDiffer(toc, other);
    }
  }

  lemma LinkMoved(toc: seq<Entry>, other: seq<Entry>)
    requires |toc| == |other| == 3 && toc[0] == other[0] && toc[1] == other[2] && toc[2] == other[1]
    ensures IsReordering(toc, other)
  {
    assert toc == [toc[0], toc[1], toc[2]] && other == [toc[0], toc[2], toc[1]];
  }
}
