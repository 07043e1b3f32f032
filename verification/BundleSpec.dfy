/** The layout of a macOS application bundle: which entry a TOC entry or a directory gives rise to. */
module BundleSpec {
  import opened Paths
  import opened Toc

  const CONTENTS := "Contents"
  const MACOS := "MacOS"
  const FRAMEWORKS := "Frameworks"
  const RESOURCES := "Resources"
  const DOT_REPLACEMENT := "__dot__"

  function Rooted(side: string, p: Path): Path {
    [CONTENTS, side] + p
  }

  /** `name.replace('.', DOT_REPLACEMENT)` */
  function Sanitized(name: string): (r: string)
    ensures '.' !in r
    ensures '.' !in name ==> r == name
    ensures '/' !in name ==> '/' !in r
    ensures name != "" ==> r != ""
  {
    if name == "" then ""
    else
      assert '/' !in name ==> '/' !in name[1..];
      (if name[0] == '.' then DOT_REPLACEMENT else [name[0]]) + Sanitized(name[1..])
  }

  lemma SanitizedIsName(name: string)
    requires IsName(name)
    ensures IsName(Sanitized(name))
  {
    assert "."[0] == '.' && ".."[0] == '.';
  }

  /** The components `lo` up to `hi` sanitized, the others as they are. */
  function SanitizedBetween(p: Path, lo: nat, hi: nat): (r: Path)
    ensures |r| == |p|
    ensures forall i :: 0 <= i < |p| ==> r[i] == if lo <= i < hi then Sanitized(p[i]) else p[i]
  {
    seq(|p|, i requires 0 <= i < |p| => if lo <= i < hi then Sanitized(p[i]) else p[i])
  }

  predicate IsFrameworkName(name: string) {
    EndsWith(name, ".framework")
  }

  /** The number of components of the innermost `.framework` directory among `p[..n]` and above. */
  function FrameworkScan(p: Path, n: nat): (k: nat)
    requires n <= |p|
    ensures k <= n
    ensures k > 0 ==> IsFrameworkName(p[k - 1])
    ensures forall j :: k <= j < n ==> !IsFrameworkName(p[j])
  {
    if n == 0 then 0
    else if IsFrameworkName(p[n - 1]) then n
    else FrameworkScan(p, n - 1)
  }

  /** Length of the innermost `.framework` directory strictly above `p`; 0 when there is none. */
  function FrameworkLength(p: Path): (k: nat)
    ensures k == 0 || k < |p|
    ensures k > 0 ==> IsFrameworkName(p[k - 1])
    ensures forall j :: k <= j < |p| - 1 ==> !IsFrameworkName(p[j])
  {
    if p == [] then 0 else FrameworkScan(p, |p| - 1)
  }

  /** The text of a link at `location` that leads to `target`, both below `Contents`. */
  function CrossLink(location: Path, target: Path): Path
    requires |location| >= 2 && |target| >= 1
  {
    Ups(|location| - 2) + target[1..]
  }

  // ---- Classification of directories ----

  datatype DirType = MixedDir | DataDir | BinaryDir | FrameworkDir

  /** A Python `dict`: the keys in the order of their first insertion, and their values. */
  datatype Dirs = Dirs(order: seq<Path>, types: map<Path, DirType>) {
    function Put(d: Path, t: DirType): Dirs {
      Dirs(if d in types then order else order + [d], types[d := t])
    }

    function Get(d: Path, default: DirType): DirType {
      if d in types then types[d] else default
    }
  }

  const NO_DIRS := Dirs([], map[])

  datatype Kind = BinaryKind | DataKind | OtherKind

  /** What an entry counts as when the directories above it are classified. */
  function KindOf(e: Entry): Kind {
    if FrameworkLength(e.dest) > 0 || e.typecode == BINARY || e.typecode == EXTENSION then BinaryKind
    else if e.typecode == DATA then DataKind
    else OtherKind
  }

  /** The unit that is placed: the entry itself, or the whole framework bundle that it belongs to. */
  function UnitOf(e: Entry): Path {
    var k := FrameworkLength(e.dest);
    if k > 0 then e.dest[..k] else e.dest
  }

  function Reclassified(was: DirType, kind: Kind): DirType {
    if was == DataDir && kind == BinaryKind then MixedDir
    else if was == BinaryDir && kind == DataKind then MixedDir
    else was
  }

  function Fresh(kind: Kind): DirType {
    if kind == BinaryKind then BinaryDir else DataDir
  }

  /** Classifies `unit[..n]`, `unit[..n-1]`, ..., `unit[..1]`, in this order. */
  function ClassifyParents(ds: Dirs, unit: Path, n: nat, kind: Kind): Dirs
    requires n <= |unit|
    decreases n
  {
    if n == 0 then ds
    else ClassifyParents(ds.Put(unit[..n], Reclassified(ds.Get(unit[..n], Fresh(kind)), kind)), unit, n - 1, kind)
  }

  function ClassifyEntry(ds: Dirs, e: Entry): Dirs {
    var unit := UnitOf(e);
    var ds' := if FrameworkLength(e.dest) > 0 then ds.Put(unit, FrameworkDir) else ds;
    ClassifyParents(ds', unit, if unit == [] then 0 else |unit| - 1, KindOf(e))
  }

  /** The classification after the first `n` entries. */
  function Classify(toc: seq<Entry>, n: nat): Dirs
    requires n <= |toc|
  {
    if n == 0 then NO_DIRS else ClassifyEntry(Classify(toc, n - 1), toc[n - 1])
  }

  // ---- The entries of the bundle ----

  /** Where a bundle entry comes from. */
  datatype Origin =
    | CrossDir(dir: Path)   // a whole directory linked into the other tree
    | DotLink(dir: Path)    // the original name of a directory whose dots were replaced
    | Placed(i: nat)        // the i-th input entry at its place
    | CrossFile(i: nat)     // the i-th input entry linked into (for a SYMLINK: repeated in) another tree

  /** At the top level and in mixed directories, content is linked into the other tree one by one. */
  predicate NeedsCrossLink(ds: Dirs, p: Path) {
    var parent := Parent(p);
    parent == [] || (parent in ds.types && ds.types[parent] == MixedDir)
  }

  predicate HasCrossDir(ds: Dirs, d: Path) {
    d in ds.types && ds.types[d] != MixedDir && NeedsCrossLink(ds, d)
  }

  predicate HasDotLink(ds: Dirs, d: Path) {
    d in ds.types && d != [] && ds.types[d] != FrameworkDir && ds.types[d] != DataDir && '.' in Last(d)
  }

  predicate HasCrossFile(ds: Dirs, e: Entry) {
    if e.typecode == EXECUTABLE then false
    else if e.typecode == PKG then true
    else FrameworkLength(e.dest) == 0 && NeedsCrossLink(ds, e.dest)
  }

  predicate ValidOrigin(toc: seq<Entry>, ds: Dirs, o: Origin) {
    match o
    case CrossDir(d) => HasCrossDir(ds, d)
    case DotLink(d) => HasDotLink(ds, d)
    case Placed(i) => i < |toc|
    case CrossFile(i) => i < |toc| && HasCrossFile(ds, toc[i])
  }

  function HomeOf(e: Entry): string {
    if e.typecode == EXECUTABLE then MACOS
    else if e.typecode == PKG then RESOURCES
    else if FrameworkLength(e.dest) > 0 then FRAMEWORKS
    else if e.typecode == DATA then RESOURCES
    else FRAMEWORKS
  }

  function OtherTree(e: Entry): string {
    if e.typecode == PKG then MACOS else if e.typecode == DATA then FRAMEWORKS else RESOURCES
  }

  /** The tree of an origin's entry, and the original path below the root of that tree. */
  function SideOf(toc: seq<Entry>, ds: Dirs, o: Origin): string
    requires ValidOrigin(toc, ds, o)
  {
    match o
    case CrossDir(d) => if ds.types[d] == DataDir then FRAMEWORKS else RESOURCES
    case DotLink(_) => FRAMEWORKS
    case Placed(i) => HomeOf(toc[i])
    case CrossFile(i) => OtherTree(toc[i])
  }

  function SubjectOf(toc: seq<Entry>, ds: Dirs, o: Origin): Path
    requires ValidOrigin(toc, ds, o)
  {
    match o
    case CrossDir(d) => d
    case DotLink(d) => d
    case Placed(i) => toc[i].dest
    case CrossFile(i) => toc[i].dest
  }

  /** The entry before its destination is sanitized. */
  function RawItem(toc: seq<Entry>, ds: Dirs, o: Origin): Entry
    requires ValidOrigin(toc, ds, o)
  {
    var dest := Rooted(SideOf(toc, ds, o), SubjectOf(toc, ds, o));
    match o
    case CrossDir(d) =>
      Entry(dest, CrossLink(dest, Rooted(if ds.types[d] == DataDir then RESOURCES else FRAMEWORKS, d)), SYMLINK)
    case DotLink(d) => Entry(dest, [Sanitized(Last(d))], SYMLINK)
    case Placed(i) => Entry(dest, toc[i].src, toc[i].typecode)
    case CrossFile(i) =>
      if toc[i].typecode == SYMLINK then Entry(dest, toc[i].src, SYMLINK)
      else Entry(dest, CrossLink(dest, Rooted(HomeOf(toc[i]), toc[i].dest)), SYMLINK)
  }

  /** How many leading components of `dest` step 5 rewrites: the directories above the entry, or
      those above the framework bundle that holds it. */
  function SanitizedLength(dest: Path): (k: nat)
    requires dest != []
    ensures k < |dest|
  {
    if FrameworkLength(dest) > 0 then FrameworkLength(dest) - 1 else |dest| - 1
  }

  function SanitizeEntry(e: Entry): Entry
    requires |e.dest| >= 3
  {
    if e.dest[0] == CONTENTS && e.dest[1] == RESOURCES then e
    else e.(dest := SanitizedBetween(e.dest, 2, SanitizedLength(e.dest)))
  }

  function Item(toc: seq<Entry>, ds: Dirs, o: Origin): Entry
    requires ValidOrigin(toc, ds, o) && SubjectOf(toc, ds, o) != []
  {
    SanitizeEntry(RawItem(toc, ds, o))
  }

  function CrossDirOrigins(ds: Dirs, order: seq<Path>): (r: seq<Origin>)
    ensures forall o :: o in r <==> o.CrossDir? && o.dir in order && HasCrossDir(ds, o.dir)
  {
    if order == [] then []
    else
      var d := order[|order| - 1];
      assert order == order[..|order| - 1] + [d];
      CrossDirOrigins(ds, order[..|order| - 1]) + if HasCrossDir(ds, d) then [CrossDir(d)] else []
  }

  function DotLinkOrigins(ds: Dirs, order: seq<Path>): (r: seq<Origin>)
    ensures forall o :: o in r <==> o.DotLink? && o.dir in order && HasDotLink(ds, o.dir)
  {
    if order == [] then []
    else
      var d := order[|order| - 1];
      assert order == order[..|order| - 1] + [d];
      DotLinkOrigins(ds, order[..|order| - 1]) + if HasDotLink(ds, d) then [DotLink(d)] else []
  }

  function FileOrigins(toc: seq<Entry>, ds: Dirs, n: nat): (r: seq<Origin>)
    requires n <= |toc|
    ensures forall o :: o in r <==> (o.Placed? && o.i < n) || (o.CrossFile? && o.i < n && HasCrossFile(ds, toc[o.i]))
  {
    if n == 0 then []
    else FileOrigins(toc, ds, n - 1) + [Placed(n - 1)] + if HasCrossFile(ds, toc[n - 1]) then [CrossFile(n - 1)] else []
  }

  /** The order in which the bundle entries are created. */
  function Origins(toc: seq<Entry>, ds: Dirs): seq<Origin> {
    CrossDirOrigins(ds, ds.order) + DotLinkOrigins(ds, ds.order) + FileOrigins(toc, ds, |toc|)
  }

  /** Items of a list of origins. */
  function Items(toc: seq<Entry>, ds: Dirs, os: seq<Origin>): (r: seq<Entry>)
    requires forall o :: o in os ==> ValidOrigin(toc, ds, o) && SubjectOf(toc, ds, o) != []
    ensures |r| == |os|
    ensures forall k :: 0 <= k < |os| ==> r[k] == Item(toc, ds, os[k])
  {
    seq(|os|, k requires 0 <= k < |os| => assert os[k] in os; Item(toc, ds, os[k]))
  }
}
