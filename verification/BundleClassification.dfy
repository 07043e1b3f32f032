/** What the classification of directories means, independently of how it is computed. */
module BundleClassification {
  import opened Paths
  import opened Toc
  import opened BundleSpec

  /** `d` is a directory strictly above the unit that `e` belongs to. */
  predicate Above(d: Path, e: Entry) {
    d != [] && d < UnitOf(e)
  }

  ghost predicate HasBelow(toc: seq<Entry>, n: nat, d: Path, kind: Kind)
    requires n <= |toc|
  {
    exists i :: 0 <= i < n && Above(d, toc[i]) && KindOf(toc[i]) == kind
  }

  /** `d` is the innermost framework directory of some entry. */
  ghost predicate IsFramework(toc: seq<Entry>, n: nat, d: Path)
    requires n <= |toc|
  {
    exists i :: 0 <= i < n && FrameworkLength(toc[i].dest) > 0 && UnitOf(toc[i]) == d
  }

  ghost predicate IsKnown(toc: seq<Entry>, n: nat, d: Path)
    requires n <= |toc|
  {
    IsFramework(toc, n, d) || AnyBelow(toc, n, d)
  }

  ghost predicate AnyBelow(toc: seq<Entry>, n: nat, d: Path)
    requires n <= |toc|
  {
    exists i :: 0 <= i < n && Above(d, toc[i])
  }

  /** The first entry below `d` is neither binary nor data. */
  ghost predicate StartsWithOther(toc: seq<Entry>, n: nat, d: Path)
    requires n <= |toc|
  {
    exists i ::
      && 0 <= i < n && Above(d, toc[i]) && KindOf(toc[i]) == OtherKind
      && forall j :: 0 <= j < i ==> !Above(d, toc[j])
  }

  /** The type that the content of `d` calls for. */
  ghost function Declared(toc: seq<Entry>, d: Path): DirType {
    var n := |toc|;
    if IsFramework(toc, n, d) then FrameworkDir
    else if HasBelow(toc, n, d, BinaryKind) then
      if HasBelow(toc, n, d, DataKind) then MixedDir else BinaryDir
    else DataDir
  }

  /** A dictionary as Python keeps it: every key once in the order of insertion. */
  ghost predicate IsDict(ds: Dirs) {
    && (forall d :: d in ds.types <==> d in ds.order)
    && forall i, j :: 0 <= i < j < |ds.order| ==> ds.order[i] != ds.order[j]
  }

  lemma {:induction false} ClassifyParentsAt(ds: Dirs, unit: Path, n: nat, kind: Kind, d: Path)
    requires n <= |unit|
    ensures var r := ClassifyParents(ds, unit, n, kind).types;
      if d != [] && d <= unit[..n] then d in r && r[d] == Reclassified(ds.Get(d, Fresh(kind)), kind)
      else (d in r <==> d in ds.types) && (d in r ==> r[d] == ds.types[d])
    decreases n
  {
    if n > 0 {
      var u := unit[..n];
      var ds' := ds.Put(u, Reclassified(ds.Get(u, Fresh(kind)), kind));
      ClassifyParentsAt(ds', unit, n - 1, kind, d);
      assert unit[..n] == unit[..n - 1] + [unit[n - 1]];
      if d == u {
        assert !(d <= unit[..n - 1]);
      } else {
        assert d <= unit[..n] <==> d <= unit[..n - 1];
      }
    }
  }

  lemma PutIsDict(ds: Dirs, d: Path, t: DirType)
    requires IsDict(ds)
    ensures IsDict(ds.Put(d, t))
  {
  }

  lemma {:induction false} ClassifyParentsDict(ds: Dirs, unit: Path, n: nat, kind: Kind)
    requires n <= |unit| && IsDict(ds)
    ensures IsDict(ClassifyParents(ds, unit, n, kind))
    decreases n
  {
    if n > 0 {
      var t := Reclassified(ds.Get(unit[..n], Fresh(kind)), kind);
      PutIsDict(ds, unit[..n], t);
      ClassifyParentsDict(ds.Put(unit[..n], t), unit, n - 1, kind);
    }
  }

  lemma ClassifyEntryIsDict(ds: Dirs, e: Entry)
    requires IsDict(ds)
    ensures IsDict(ClassifyEntry(ds, e))
  {
    var unit, kind := UnitOf(e), KindOf(e);
    var n := if unit == [] then 0 else |unit| - 1;
    if FrameworkLength(e.dest) > 0 {
      PutIsDict(ds, unit, FrameworkDir);
      ClassifyParentsDict(ds.Put(unit, FrameworkDir), unit, n, kind);
    } else {
      ClassifyParentsDict(ds, unit, n, kind);
    }
  }

  lemma {:induction false} ClassifyIsDict(toc: seq<Entry>, n: nat)
    requires n <= |toc|
    ensures IsDict(Classify(toc, n))
  {
    if n > 0 {
      ClassifyIsDict(toc, n - 1);
      ClassifyEntryIsDict(Classify(toc, n - 1), toc[n - 1]);
    }
  }

  /** How one entry changes the type of one directory. */
  lemma ClassifyEntryAt(ds: Dirs, e: Entry, d: Path)
    ensures var r := ClassifyEntry(ds, e).types;
      if FrameworkLength(e.dest) > 0 && d == UnitOf(e) then d in r && r[d] == FrameworkDir
      else if Above(d, e) then d in r && r[d] == Reclassified(ds.Get(d, Fresh(KindOf(e))), KindOf(e))
      else (d in r <==> d in ds.types) && (d in r ==> r[d] == ds.types[d])
  {
    var unit := UnitOf(e);
    var ds' := if FrameworkLength(e.dest) > 0 then ds.Put(unit, FrameworkDir) else ds;
    if unit != [] {
      ClassifyParentsAt(ds', unit, |unit| - 1, KindOf(e), d);
      assert unit == unit[..|unit| - 1] + [unit[|unit| - 1]];
      assert d < unit <==> d <= unit[..|unit| - 1];
    }
  }

  /** The computed type of every directory: frameworks win; otherwise a directory with binaries is
      mixed when it also has data, or when the first thing seen below it is neither. */
  ghost predicate HasMeaning(toc: seq<Entry>, n: nat, d: Path)
    requires n <= |toc|
  {
    var types := Classify(toc, n).types;
    && (d in types <==> IsKnown(toc, n, d))
    && (d in types ==> types[d] == Meaning(toc, n, d))
  }

  ghost function Meaning(toc: seq<Entry>, n: nat, d: Path): DirType
    requires n <= |toc|
  {
    if IsFramework(toc, n, d) then FrameworkDir
    else if HasBelow(toc, n, d, BinaryKind) then
      if HasBelow(toc, n, d, DataKind) || StartsWithOther(toc, n, d) then MixedDir else BinaryDir
    else DataDir
  }

  lemma BelowStep(toc: seq<Entry>, n: nat, d: Path)
    requires 0 < n <= |toc|
    ensures forall kind :: HasBelow(toc, n, d, kind) <==>
      HasBelow(toc, n - 1, d, kind) || (Above(d, toc[n - 1]) && KindOf(toc[n - 1]) == kind)
    ensures AnyBelow(toc, n, d) <==> AnyBelow(toc, n - 1, d) || Above(d, toc[n - 1])
  {
  }

  lemma KnownByKind(toc: seq<Entry>, n: nat, d: Path)
    requires n <= |toc|
    ensures AnyBelow(toc, n, d) <==>
      HasBelow(toc, n, d, BinaryKind) || HasBelow(toc, n, d, DataKind) || HasBelow(toc, n, d, OtherKind)
    ensures AnyBelow(toc, n, d) && !HasBelow(toc, n, d, BinaryKind) && !HasBelow(toc, n, d, DataKind) ==>
      StartsWithOther(toc, n, d)
    ensures StartsWithOther(toc, n, d) ==> AnyBelow(toc, n, d)
  {
    if AnyBelow(toc, n, d) {
      var i := FirstBelow(toc, n, d);
      assert HasBelow(toc, n, d, KindOf(toc[i]));
    }
  }

  lemma FirstBelow(toc: seq<Entry>, n: nat, d: Path) returns (i: nat)
    requires n <= |toc| && AnyBelow(toc, n, d)
    ensures i < n && Above(d, toc[i]) && forall j :: 0 <= j < i ==> !Above(d, toc[j])
  {
    if AnyBelow(toc, n - 1, d) {
      i := FirstBelow(toc, n - 1, d);
    } else {
      i := n - 1;
    }
  }

  lemma IsFrameworkStep(toc: seq<Entry>, n: nat, d: Path)
    requires 0 < n <= |toc|
    ensures IsFramework(toc, n, d) <==>
      IsFramework(toc, n - 1, d) || (FrameworkLength(toc[n - 1].dest) > 0 && UnitOf(toc[n - 1]) == d)
  {
  }

  lemma StartsWithOtherStep(toc: seq<Entry>, n: nat, d: Path)
    requires 0 < n <= |toc|
    ensures StartsWithOther(toc, n, d) <==>
      || StartsWithOther(toc, n - 1, d)
      || (Above(d, toc[n - 1]) && KindOf(toc[n - 1]) == OtherKind && !AnyBelow(toc, n - 1, d))
  {
  }

  lemma {:induction false} ClassifyMeaning(toc: seq<Entry>, n: nat, d: Path)
    requires n <= |toc|
    ensures HasMeaning(toc, n, d)
  {
    if n > 0 {
      ClassifyMeaning(toc, n - 1, d);
      KnownByKind(toc, n - 1, d);
      var e := toc[n - 1];
      ClassifyEntryAt(Classify(toc, n - 1), e, d);
      MeaningStep(toc, n, d, Classify(toc, n - 1), ClassifyEntry(Classify(toc, n - 1), e).types);
    }
  }

  lemma MeaningStep(toc: seq<Entry>, n: nat, d: Path, ds: Dirs, after: map<Path, DirType>)
    requires 0 < n <= |toc|
    requires d in ds.types <==> IsKnown(toc, n - 1, d)
    requires d in ds.types ==> ds.types[d] == Meaning(toc, n - 1, d)
    requires var e := toc[n - 1];
      if FrameworkLength(e.dest) > 0 && d == UnitOf(e) then d in after && after[d] == FrameworkDir
      else if Above(d, e) then
        d in after && after[d] == Reclassified(ds.Get(d, Fresh(KindOf(e))), KindOf(e))
      else (d in after <==> d in ds.types) && (d in after ==> after[d] == ds.types[d])
    ensures d in after <==> IsKnown(toc, n, d)
    ensures d in after ==> after[d] == Meaning(toc, n, d)
  {
    var e := toc[n - 1];
    BelowStep(toc, n, d);
    IsFrameworkStep(toc, n, d);
    StartsWithOtherStep(toc, n, d);
    KnownByKind(toc, n - 1, d);
  }

  /** The directories whose computed type differs from the declared one are exactly those with
      binaries and no data in which a symbolic link (or another such entry) comes first. */
  ghost predicate IsMisread(toc: seq<Entry>, d: Path) {
    var n := |toc|;
    && !IsFramework(toc, n, d)
    && HasBelow(toc, n, d, BinaryKind) && !HasBelow(toc, n, d, DataKind) && StartsWithOther(toc, n, d)
  }

  /** Main result on the classification: it is what the content calls for, for every directory,
      if and only if no binary-only directory starts with an entry of another kind. */
  lemma ClassificationIsDeclared(toc: seq<Entry>)
    ensures var types := Classify(toc, |toc|).types;
      && (forall d :: d in types <==> IsKnown(toc, |toc|, d))
      && ((forall d :: d in types ==> types[d] == Declared(toc, d)) <==> (forall d :: !IsMisread(toc, d)))
  {
    var types := Classify(toc, |toc|).types;
    forall d
      ensures d in types <==> IsKnown(toc, |toc|, d)
      ensures d in types ==> (types[d] == Declared(toc, d) <==> !IsMisread(toc, d))
      ensures IsMisread(toc, d) ==> d in types
    {
      ClassifyMeaning(toc, |toc|, d);
    }
  }
}
