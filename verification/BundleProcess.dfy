/** `BUNDLE._process_bundle_toc`: the loops, and the properties of the TOC they produce. */
module BundleProcess {
  import opened Paths
  import opened Toc
  import opened FileTree
  import opened Dedup
  import opened Ordering
  import opened BundleSpec
  import opened BundleClassification
  import opened BundleInput
  import opened BundleConsistency

  /** The final TOC of the bundle. */
  ghost function FinalToc(toc: seq<Entry>): seq<Entry>
    requires HasDests(toc)
  {
    Sorted(Normalized(BundleOf(toc), TocPriority))
  }

  lemma ParentStep(ds: Dirs, unit: Path, n: nat, kind: Kind)
    requires 0 < n <= |unit|
    ensures ClassifyParents(ds, unit, n, kind) ==
      ClassifyParents(ds.Put(unit[..n], Reclassified(ds.Get(unit[..n], Fresh(kind)), kind)), unit, n - 1, kind)
  {
  }

  /** Step 1 for one entry: (re)classify the directories above it. */
  method ClassifyOne(ds: Dirs, e: Entry) returns (r: Dirs)
    requires e.dest != []
    ensures r == ClassifyEntry(ds, e)
  {
    r := ds;
    var k := FrameworkLength(e.dest);
    var unit, kind := e.dest, OtherKind;
    if k > 0 {
      unit, kind := e.dest[..k], BinaryKind;
      r := r.Put(unit, FrameworkDir);
    } else if e.typecode == EXTENSION || e.typecode == BINARY {
      kind := BinaryKind;
    } else if e.typecode == DATA {
      kind := DataKind;
    }
    var n := |unit| - 1;
    while n > 0
      invariant 0 <= n < |unit|
      invariant ClassifyParents(r, unit, n, kind) == ClassifyEntry(ds, e)
    {
      ParentStep(r, unit, n, kind);
      var parent := unit[..n];
      var t := if kind == BinaryKind then BinaryDir else DataDir;
      t := r.Get(parent, t);
      if t == DataDir && kind == BinaryKind {
        t := MixedDir;
      }
      if t == BinaryDir && kind == DataKind {
        t := MixedDir;
      }
      r := r.Put(parent, t);
      n := n - 1;
    }
  }

  function RawItems(toc: seq<Entry>, ds: Dirs, os: seq<Origin>): (r: seq<Entry>)
    requires forall o :: o in os ==> ValidOrigin(toc, ds, o)
    ensures |r| == |os|
    ensures forall k :: 0 <= k < |os| ==> ValidOrigin(toc, ds, os[k]) && r[k] == RawItem(toc, ds, os[k])
  {
    seq(|os|, k requires 0 <= k < |os| => assert os[k] in os; RawItem(toc, ds, os[k]))
  }

  lemma RawItemsAppend(toc: seq<Entry>, ds: Dirs, os: seq<Origin>, o: Origin)
    requires forall p :: p in os ==> ValidOrigin(toc, ds, p)
    requires ValidOrigin(toc, ds, o)
    ensures forall p :: p in os + [o] ==> ValidOrigin(toc, ds, p)
    ensures RawItems(toc, ds, os + [o]) == RawItems(toc, ds, os) + [RawItem(toc, ds, o)]
  {
  }

  /** Step 2: link directories that hold only data, or no data, as a whole. */
  method CrossLinkDirs(toc: seq<Entry>, ds: Dirs) returns (r: seq<Entry>)
    requires forall d :: d in ds.order ==> d in ds.types
    ensures r == RawItems(toc, ds, CrossDirOrigins(ds, ds.order))
  {
    r := [];
    for i := 0 to |ds.order|
      invariant r == RawItems(toc, ds, CrossDirOrigins(ds, ds.order[..i]))
    {
      var d := ds.order[i];
      assert ds.order[..i + 1][..i] == ds.order[..i];
      var t := ds.types[d];
      var requiresLink := Parent(d) == [] || (Parent(d) in ds.types && ds.types[Parent(d)] == MixedDir);
      if t != MixedDir && requiresLink {
        var linkSrc, linkDest := Rooted(FRAMEWORKS, d), Rooted(RESOURCES, d);
        if t == DataDir {
          linkSrc, linkDest := Rooted(RESOURCES, d), Rooted(FRAMEWORKS, d);
        }
        RawItemsAppend(toc, ds, CrossDirOrigins(ds, ds.order[..i]), CrossDir(d));
        r := r + [Entry(linkDest, CrossLink(linkDest, linkSrc), SYMLINK)];
      } else {
        assert CrossDirOrigins(ds, ds.order[..i + 1]) == CrossDirOrigins(ds, ds.order[..i]);
      }
    }
    assert ds.order[..|ds.order|] == ds.order;
  }

  /** Step 3: links from the original names of directories with dots. */
  method LinkDottedDirs(toc: seq<Entry>, ds: Dirs) returns (r: seq<Entry>)
    requires forall d :: d in ds.order ==> d in ds.types && d != []
    ensures r == RawItems(toc, ds, DotLinkOrigins(ds, ds.order))
  {
    r := [];
    for i := 0 to |ds.order|
      invariant r == RawItems(toc, ds, DotLinkOrigins(ds, ds.order[..i]))
    {
      var d := ds.order[i];
      assert ds.order[..i + 1][..i] == ds.order[..i];
      if ds.types[d] == FrameworkDir || ds.types[d] == DataDir || '.' !in Last(d) {
        assert DotLinkOrigins(ds, ds.order[..i + 1]) == DotLinkOrigins(ds, ds.order[..i]);
        continue;
      }
      RawItemsAppend(toc, ds, DotLinkOrigins(ds, ds.order[..i]), DotLink(d));
      r := r + [Entry(Rooted(FRAMEWORKS, d), [Sanitized(Last(d))], SYMLINK)];
    }
    assert ds.order[..|ds.order|] == ds.order;
  }

  /** Step 4: the collected files and their links. */
  method PlaceFiles(toc: seq<Entry>, ds: Dirs) returns (r: seq<Entry>)
    requires HasDests(toc)
    ensures r == RawItems(toc, ds, FileOrigins(toc, ds, |toc|))
  {
    r := [];
    for i := 0 to |toc|
      invariant r == RawItems(toc, ds, FileOrigins(toc, ds, i))
    {
      var e := toc[i];
      ghost var os := FileOrigins(toc, ds, i);
      RawItemsAppend(toc, ds, os, Placed(i));
      if HasCrossFile(ds, e) {
        RawItemsAppend(toc, ds, os + [Placed(i)], CrossFile(i));
      } else {
        assert FileOrigins(toc, ds, i + 1) == os + [Placed(i)];
      }
      if e.typecode == EXECUTABLE {
        r := r + [Entry(Rooted(MACOS, e.dest), e.src, e.typecode)];
      } else if e.typecode == PKG {
        var fileDest, linkDest := Rooted(RESOURCES, e.dest), Rooted(MACOS, e.dest);
        r := r + [Entry(fileDest, e.src, e.typecode)];
        r := r + [Entry(linkDest, CrossLink(linkDest, fileDest), SYMLINK)];
      } else {
        var base, crossBase, requiresLink := FRAMEWORKS, RESOURCES, false;
        if FrameworkLength(e.dest) == 0 {
          if e.typecode == DATA {
            base, crossBase := RESOURCES, FRAMEWORKS;
          }
          requiresLink := NeedsCrossLink(ds, e.dest);
        }
        var fileDest, linkDest := Rooted(base, e.dest), Rooted(crossBase, e.dest);
        if e.typecode == SYMLINK && requiresLink {
          r := r + [Entry(fileDest, e.src, e.typecode)];
          r := r + [Entry(linkDest, e.src, e.typecode)];
        } else {
          r := r + [Entry(fileDest, e.src, e.typecode)];
          if requiresLink {
            r := r + [Entry(linkDest, CrossLink(linkDest, fileDest), SYMLINK)];
          }
        }
      }
    }
  }

  /** Step 5: no dots in the directories of the `Frameworks` tree. */
  method SanitizeToc(raw: seq<Entry>) returns (r: seq<Entry>)
    requires forall k :: 0 <= k < |raw| ==> |raw[k].dest| >= 3
    ensures |r| == |raw| && forall k :: 0 <= k < |raw| ==> r[k] == SanitizeEntry(raw[k])
  {
    r := [];
    for i := 0 to |raw|
      invariant |r| == i && forall k :: 0 <= k < i ==> r[k] == SanitizeEntry(raw[k])
    {
      var e := raw[i];
      if !(e.dest[0] == CONTENTS && e.dest[1] == RESOURCES) {
        e := e.(dest := SanitizedBetween(e.dest, 2, SanitizedLength(e.dest)));
      }
      r := r + [e];
    }
  }

  lemma RawItemsSplit(toc: seq<Entry>)
    requires HasDests(toc)
    ensures var ds := DirsOf(toc);
      && (forall o :: o in Origins(toc, ds) ==> ValidOrigin(toc, ds, o))
      && RawItems(toc, ds, CrossDirOrigins(ds, ds.order)) + RawItems(toc, ds, DotLinkOrigins(ds, ds.order))
         + RawItems(toc, ds, FileOrigins(toc, ds, |toc|))
         == RawItems(toc, ds, Origins(toc, ds))
  {
    OriginsValid(toc);
    var ds := DirsOf(toc);
    var a, b, c := CrossDirOrigins(ds, ds.order), DotLinkOrigins(ds, ds.order), FileOrigins(toc, ds, |toc|);
    assert Origins(toc, ds) == a + b + c;
    RawItemsConcat(toc, ds, a, b);
    RawItemsConcat(toc, ds, a + b, c);
  }

  lemma RawItemsConcat(toc: seq<Entry>, ds: Dirs, a: seq<Origin>, b: seq<Origin>)
    requires forall o :: o in a + b ==> ValidOrigin(toc, ds, o)
    ensures forall o :: o in a ==> o in a + b
    ensures forall o :: o in b ==> o in a + b
    ensures RawItems(toc, ds, a) + RawItems(toc, ds, b) == RawItems(toc, ds, a + b)
  {
    forall o | o in a || o in b
      ensures o in a + b
    {
    }
  }

  lemma RawItemsSanitized(toc: seq<Entry>, r: seq<Entry>)
    requires HasDests(toc)
    requires forall o :: o in Origins(toc, DirsOf(toc)) ==> ValidOrigin(toc, DirsOf(toc), o)
    ensures var raw := RawItems(toc, DirsOf(toc), Origins(toc, DirsOf(toc)));
      && (forall k :: 0 <= k < |raw| ==> |raw[k].dest| >= 3)
      && (|r| == |raw| && (forall k :: 0 <= k < |raw| ==> r[k] == SanitizeEntry(raw[k])) ==> r == BundleOf(toc))
  {
    var raw := RawItems(toc, DirsOf(toc), Origins(toc, DirsOf(toc)));
    forall k | 0 <= k < |raw|
      ensures |raw[k].dest| >= 3 && SanitizeEntry(raw[k]) == BundleOf(toc)[k]
    {
      var o := OriginOfEntry(toc, k);
    }
  }

  lemma ClassifiedKeys(toc: seq<Entry>)
    requires HasDests(toc)
    ensures forall d :: d in DirsOf(toc).order ==> d in DirsOf(toc).types && d != []
  {
    ClassifyIsDict(toc, |toc|);
    ClassificationIsDeclared(toc);
  }

  method ProcessBundleToc(toc: seq<Entry>) returns (r: seq<Entry>)
    requires HasDests(toc)
    ensures r == FinalToc(toc)
  {
    var ds := NO_DIRS;
    for i := 0 to |toc|
      invariant ds == Classify(toc, i)
    {
      ds := ClassifyOne(ds, toc[i]);
    }
    assert ds == DirsOf(toc);
    ClassifiedKeys(toc);
    var bundle := CrossLinkDirs(toc, ds);
    var dotLinks := LinkDottedDirs(toc, ds);
    bundle := bundle + dotLinks;
    var files := PlaceFiles(toc, ds);
    bundle := bundle + files;
    RawItemsSplit(toc);
    RawItemsSanitized(toc, bundle);
    bundle := SanitizeToc(bundle);
    RawItemsSanitized(toc, bundle);
    bundle := NormalizeToc(bundle, TocPriority);
    r := Sorted(bundle);
  }
}
