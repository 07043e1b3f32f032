/** De-duplication of TOC lists: `normalize_toc` and `normalize_pyz_toc`. */
module Dedup {
  import opened Paths
  import opened Toc
  import opened Sequences

  type Priority = Typecode -> int

  /** `normalize_toc`: references to other executables win, then links, then code. */
  function TocPriority(t: Typecode): int {
    match t
    case DEPENDENCY => 3
    case SYMLINK => 2
    case BINARY => 1
    case EXTENSION => 1
    case _ => 0
  }

  /** `normalize_pyz_toc`: the higher optimization level wins. */
  function PyzPriority(t: Typecode): int {
    if t == OTHER("PYMODULE-2") then 2 else if t == OTHER("PYMODULE-1") then 1 else 0
  }

  // ---- What the result is ----

  /** The i-th entry is the first one of the highest priority among those for its destination. */
  predicate IsWinner(s: seq<Entry>, pr: Priority, i: nat) {
    && i < |s|
    && forall j :: 0 <= j < |s| && s[j].dest == s[i].dest ==>
         pr(s[j].typecode) <= pr(s[i].typecode) && (j < i ==> pr(s[j].typecode) < pr(s[i].typecode))
  }

  /** Where a destination appears first; |d| if it does not. */
  function IndexOf(d: seq<Entry>, dest: Path): (k: nat)
    ensures k <= |d|
    ensures k < |d| ==> d[k].dest == dest
    ensures forall i :: 0 <= i < k ==> d[i].dest != dest
  {
    if d == [] then 0
    else if d[0].dest == dest then 0
    else 1 + IndexOf(d[1..], dest)
  }

  ghost predicate HasDest(s: seq<Entry>, d: Path) {
    exists i :: 0 <= i < |s| && s[i].dest == d
  }

  /** `r` holds the winner for each destination, in the order of first appearance. */
  ghost predicate IsDedup(s: seq<Entry>, pr: Priority, r: seq<Entry>) {
    && (forall d :: HasDest(s, d) ==> HasDest(r, d))
    && (forall m :: 0 <= m < |r| ==> exists i: nat :: IsWinner(s, pr, i) && s[i] == r[m])
    && (forall m, n :: 0 <= m < n < |r| ==> IndexOf(s, r[m].dest) < IndexOf(s, r[n].dest))
  }

  // ---- How it is computed ----

  /** One entry meets the entries kept so far. */
  function Insert(d: seq<Entry>, pr: Priority, e: Entry): seq<Entry> {
    var k := IndexOf(d, e.dest);
    if k == |d| then d + [e]
    else if pr(e.typecode) > pr(d[k].typecode) then d[k := e]
    else d
  }

  function InsertAll(d: seq<Entry>, pr: Priority, s: seq<Entry>): seq<Entry> {
    if s == [] then d else Insert(InsertAll(d, pr, s[..|s| - 1]), pr, s[|s| - 1])
  }

  function OptionsOf(toc: seq<Entry>): seq<Entry> {
    if toc == [] then []
    else OptionsOf(toc[..|toc| - 1]) + if toc[|toc| - 1].typecode == OPTION then [toc[|toc| - 1]] else []
  }

  /** All other entries, with normalized destinations. */
  function RegularOf(toc: seq<Entry>): seq<Entry> {
    if toc == [] then []
    else
      var e := toc[|toc| - 1];
      RegularOf(toc[..|toc| - 1]) + if e.typecode == OPTION then [] else [e.(dest := NormPath(e.dest))]
  }

  function Normalized(toc: seq<Entry>, pr: Priority): seq<Entry> {
    OptionsOf(toc) + InsertAll([], pr, RegularOf(toc))
  }

  /** A dictionary that keeps its keys in the order of insertion holds the entries of `kept`. */
  ghost predicate Holds(keys: seq<Path>, tmp: map<Path, Entry>, kept: seq<Entry>) {
    && |keys| == |kept|
    && (forall k :: 0 <= k < |kept| ==> keys[k] == kept[k].dest && keys[k] in tmp && tmp[keys[k]] == kept[k])
    && (forall d :: d in tmp ==> d in keys)
  }

  lemma HoldsNew(keys: seq<Path>, tmp: map<Path, Entry>, kept: seq<Entry>, pr: Priority, e: Entry)
    requires Holds(keys, tmp, kept) && DistinctDests(kept) && e.dest !in tmp
    ensures Insert(kept, pr, e) == kept + [e] && DistinctDests(kept + [e])
    ensures Holds(keys + [e.dest], tmp[e.dest := e], kept + [e])
  {
    assert IndexOf(kept, e.dest) == |kept|;
  }

  lemma HoldsKnown(keys: seq<Path>, tmp: map<Path, Entry>, kept: seq<Entry>, pr: Priority, e: Entry) returns (k: nat)
    requires Holds(keys, tmp, kept) && DistinctDests(kept) && e.dest in tmp
    ensures k < |kept| && kept[k] == tmp[e.dest]
    ensures Insert(kept, pr, e) == if pr(e.typecode) > pr(tmp[e.dest].typecode) then kept[k := e] else kept
    ensures DistinctDests(kept[k := e]) && Holds(keys, tmp[e.dest := e], kept[k := e])
  {
    k := IndexOf(kept, e.dest);
    assert e.dest in keys;
    HoldsReplaced(keys, tmp, kept, k, e);
  }

  lemma HoldsReplaced(keys: seq<Path>, tmp: map<Path, Entry>, kept: seq<Entry>, k: nat, e: Entry)
    requires Holds(keys, tmp, kept) && DistinctDests(kept) && k < |kept| && kept[k].dest == e.dest
    ensures DistinctDests(kept[k := e]) && Holds(keys, tmp[e.dest := e], kept[k := e])
  {
  }

  /** The loop over the TOC. */
  method NormalizeToc(toc: seq<Entry>, pr: Priority) returns (r: seq<Entry>)
    ensures r == Normalized(toc, pr)
  {
    var options: seq<Entry> := [];
    var keys: seq<Path> := [];
    var tmp: map<Path, Entry> := map[];
    ghost var kept: seq<Entry> := [];
    for i := 0 to |toc|
      invariant options == OptionsOf(toc[..i])
      invariant kept == InsertAll([], pr, RegularOf(toc[..i]))
      invariant DistinctDests(kept) && Holds(keys, tmp, kept)
    {
      var e := toc[i];
      PartsStep(toc, pr, i);
      if e.typecode == OPTION {
        options := options + [e];
        continue;
      }
      var f := e.(dest := NormPath(e.dest));
      if f.dest !in tmp {
        HoldsNew(keys, tmp, kept, pr, f);
        keys := keys + [f.dest];
        tmp := tmp[f.dest := f];
        kept := kept + [f];
      } else {
        ghost var k := HoldsKnown(keys, tmp, kept, pr, f);
        if pr(f.typecode) > pr(tmp[f.dest].typecode) {
          tmp := tmp[f.dest := f];
          kept := kept[k := f];
        }
      }
    }
    assert toc[..|toc|] == toc;
    r := options + seq(|keys|, i requires 0 <= i < |keys| && keys[i] in tmp => tmp[keys[i]]);
    assert seq(|keys|, i requires 0 <= i < |keys| && keys[i] in tmp => tmp[keys[i]]) == kept;
  }

  lemma OptionsSnoc(s: seq<Entry>, e: Entry)
    ensures OptionsOf(s + [e]) == OptionsOf(s) + (if e.typecode == OPTION then [e] else [])
  {
    assert (s + [e])[..|s|] == s;
  }

  lemma RegularSnoc(s: seq<Entry>, e: Entry)
    ensures RegularOf(s + [e]) == RegularOf(s) + (if e.typecode == OPTION then [] else [e.(dest := NormPath(e.dest))])
  {
    assert (s + [e])[..|s|] == s;
  }

  lemma InsertSnoc(d: seq<Entry>, pr: Priority, s: seq<Entry>, e: Entry)
    ensures InsertAll(d, pr, s + [e]) == Insert(InsertAll(d, pr, s), pr, e)
  {
    assert (s + [e])[..|s|] == s;
  }

  lemma PartsStep(toc: seq<Entry>, pr: Priority, i: nat)
    requires i < |toc|
    ensures OptionsOf(toc[..i + 1]) == OptionsOf(toc[..i]) + (if toc[i].typecode == OPTION then [toc[i]] else [])
    ensures InsertAll([], pr, RegularOf(toc[..i + 1])) ==
      if toc[i].typecode == OPTION then InsertAll([], pr, RegularOf(toc[..i]))
      else Insert(InsertAll([], pr, RegularOf(toc[..i])), pr, toc[i].(dest := NormPath(toc[i].dest)))
  {
    var s, e := toc[..i], toc[i];
    assert toc[..i + 1] == s + [e];
    OptionsSnoc(s, e);
    RegularSnoc(s, e);
    if e.typecode == OPTION {
      assert RegularOf(s) + [] == RegularOf(s);
    } else {
      InsertSnoc([], pr, RegularOf(s), e.(dest := NormPath(e.dest)));
    }
  }

  // ---- The computed result is the specified one ----

  lemma InsertDistinct(d: seq<Entry>, pr: Priority, e: Entry)
    requires DistinctDests(d)
    ensures DistinctDests(Insert(d, pr, e))
  {
  }

  lemma {:induction false} InsertAllDistinct(d: seq<Entry>, pr: Priority, s: seq<Entry>)
    requires DistinctDests(d)
    ensures DistinctDests(InsertAll(d, pr, s))
  {
    if s != [] {
      InsertAllDistinct(d, pr, s[..|s| - 1]);
      InsertDistinct(InsertAll(d, pr, s[..|s| - 1]), pr, s[|s| - 1]);
    }
  }

  /** Which index of `s` each kept entry stems from. */
  ghost predicate Traces(s: seq<Entry>, pr: Priority, r: seq<Entry>, win: seq<nat>) {
    && |win| == |r|
    && (forall m :: 0 <= m < |r| ==> IsWinner(s, pr, win[m]) && s[win[m]] == r[m])
    && (forall m, n :: 0 <= m < n < |r| ==> IndexOf(s, r[m].dest) < IndexOf(s, r[n].dest))
    && (forall i :: 0 <= i < |s| ==> IndexOf(r, s[i].dest) < |r|)
  }

  lemma {:induction false} InsertAllTraces(pr: Priority, s: seq<Entry>) returns (win: seq<nat>)
    ensures Traces(s, pr, InsertAll([], pr, s), win)
  {
    if s == [] {
      win := [];
    } else {
      var init, e := s[..|s| - 1], s[|s| - 1];
      var w := InsertAllTraces(pr, init);
      InsertAllDistinct([], pr, init);
      assert s == init + [e];
      win := TraceNext(pr, init, e, s, InsertAll([], pr, init), InsertAll([], pr, s), w);
    }
  }

  lemma TraceNext(pr: Priority, s: seq<Entry>, e: Entry, t: seq<Entry>, d: seq<Entry>, r: seq<Entry>, w: seq<nat>)
    returns (win: seq<nat>)
    requires t == s + [e] && r == Insert(d, pr, e) && Traces(s, pr, d, w) && DistinctDests(d)
    ensures Traces(t, pr, r, win)
  {
    win := TraceInsert(pr, s, e, d, w);
  }

  lemma IndexOfIs(s: seq<Entry>, d: Path, k: nat)
    requires k <= |s| && (k < |s| ==> s[k].dest == d) && forall i :: 0 <= i < k ==> s[i].dest != d
    ensures IndexOf(s, d) == k
  {
  }

  /** Appending an entry moves no first appearance. */
  lemma IndexOfAppend(s: seq<Entry>, e: Entry, d: Path)
    ensures IndexOf(s + [e], d) == if IndexOf(s, d) < |s| || e.dest == d then IndexOf(s, d) else |s| + 1
  {
    var k, t := IndexOf(s, d), s + [e];
    assert t[|s|] == e && forall i :: 0 <= i < |s| ==> t[i] == s[i];
    IndexOfIs(t, d, if k < |s| || e.dest == d then k else |s| + 1);
  }

  lemma WinnerAppend(s: seq<Entry>, pr: Priority, e: Entry, i: nat)
    requires IsWinner(s, pr, i)
    requires e.dest == s[i].dest ==> pr(e.typecode) <= pr(s[i].typecode)
    ensures IsWinner(s + [e], pr, i)
  {
  }

  lemma WinnerReplace(s: seq<Entry>, pr: Priority, e: Entry, i: nat)
    requires IsWinner(s, pr, i) && e.dest == s[i].dest && pr(e.typecode) > pr(s[i].typecode)
    ensures IsWinner(s + [e], pr, |s|)
  {
  }

  lemma WinnerNew(s: seq<Entry>, pr: Priority, e: Entry)
    requires forall i :: 0 <= i < |s| ==> s[i].dest != e.dest
    ensures IsWinner(s + [e], pr, |s|)
  {
  }

  lemma TraceInsert(pr: Priority, s: seq<Entry>, e: Entry, d: seq<Entry>, w: seq<nat>) returns (win: seq<nat>)
    requires Traces(s, pr, d, w) && DistinctDests(d)
    ensures Traces(s + [e], pr, Insert(d, pr, e), win)
  {
    win := TraceWinners(pr, s, e, d, w);
    TraceOrder(pr, s, e, d, w);
    forall i | 0 <= i < |s + [e]|
      ensures IndexOf(Insert(d, pr, e), (s + [e])[i].dest) < |Insert(d, pr, e)|
    {
      TraceCovers(pr, s, e, d, w, i);
    }
  }

  lemma TraceWinners(pr: Priority, s: seq<Entry>, e: Entry, d: seq<Entry>, w: seq<nat>) returns (win: seq<nat>)
    requires Traces(s, pr, d, w) && DistinctDests(d)
    ensures var t, r := s + [e], Insert(d, pr, e);
      |win| == |r| && forall m :: 0 <= m < |r| ==> IsWinner(t, pr, win[m]) && t[win[m]] == r[m]
  {
    var k, t, r := IndexOf(d, e.dest), s + [e], Insert(d, pr, e);
    if k == |d| {
      forall i | 0 <= i < |s|
        ensures s[i].dest != e.dest
      {
        assert IndexOf(d, s[i].dest) < |d|;
      }
      win := w + [|s|];
      WinnerNew(s, pr, e);
    } else if pr(e.typecode) > pr(d[k].typecode) {
      win := w[k := |s|];
      WinnerReplace(s, pr, e, w[k]);
    } else {
      win := w;
    }
    forall m | 0 <= m < |r|
      ensures IsWinner(t, pr, win[m]) && t[win[m]] == r[m]
    {
      if m < |d| && !(m == k && pr(e.typecode) > pr(d[k].typecode)) {
        WinnerAppend(s, pr, e, w[m]);
      }
    }
  }

  /** The entries kept cover the destinations met. */
  lemma TraceCovers(pr: Priority, s: seq<Entry>, e: Entry, d: seq<Entry>, w: seq<nat>, i: nat)
    requires Traces(s, pr, d, w) && i < |s + [e]|
    ensures IndexOf(Insert(d, pr, e), (s + [e])[i].dest) < |Insert(d, pr, e)|
  {
    var r := Insert(d, pr, e);
    if i < |s| {
      var m := IndexOf(d, s[i].dest);
      assert r[m].dest == s[i].dest;
    } else {
      assert r[IndexOf(d, e.dest)].dest == e.dest;
    }
  }

  lemma TraceOrder(pr: Priority, s: seq<Entry>, e: Entry, d: seq<Entry>, w: seq<nat>)
    requires Traces(s, pr, d, w)
    ensures var t, r := s + [e], Insert(d, pr, e);
      forall m, n :: 0 <= m < n < |r| ==> IndexOf(t, r[m].dest) < IndexOf(t, r[n].dest)
  {
    forall m | 0 <= m < |d|
      ensures IndexOf(s + [e], d[m].dest) == IndexOf(s, d[m].dest) < |s|
    {
      IndexOfAppend(s, e, d[m].dest);
      KnownIndex(pr, s, d, w, m);
    }
    var r := Insert(d, pr, e);
    if IndexOf(d, e.dest) == |d| {
      forall i | 0 <= i < |s|
        ensures s[i].dest != e.dest
      {
        assert IndexOf(d, s[i].dest) < |d|;
      }
      IndexOfIs(s, e.dest, |s|);
      IndexOfAppend(s, e, e.dest);
    }
    InsertOrder(s + [e], d, r, e, |s|);
  }

  lemma InsertOrder(t: seq<Entry>, d: seq<Entry>, r: seq<Entry>, e: Entry, n: nat)
    requires forall m :: 0 <= m < |d| ==> IndexOf(t, d[m].dest) < n
    requires forall i, j :: 0 <= i < j < |d| ==> IndexOf(t, d[i].dest) < IndexOf(t, d[j].dest)
    requires |r| == |d| || (|r| == |d| + 1 && r[|d|] == e && IndexOf(t, e.dest) == n)
    requires forall m :: 0 <= m < |d| ==> r[m].dest == d[m].dest
    ensures forall i, j :: 0 <= i < j < |r| ==> IndexOf(t, r[i].dest) < IndexOf(t, r[j].dest)
  {
    forall i, j | 0 <= i < j < |r|
      ensures IndexOf(t, r[i].dest) < IndexOf(t, r[j].dest)
    {
      assert r[i].dest == d[i].dest;
      if j < |d| {
        assert r[j].dest == d[j].dest;
      }
    }
  }

  lemma KnownIndex(pr: Priority, s: seq<Entry>, d: seq<Entry>, w: seq<nat>, m: nat)
    requires Traces(s, pr, d, w) && m < |d|
    ensures IndexOf(s, d[m].dest) < |s|
  {
    assert s[w[m]].dest == d[m].dest;
  }

  lemma InsertAllIsDedup(s: seq<Entry>, pr: Priority)
    ensures IsDedup(s, pr, InsertAll([], pr, s))
  {
    var r := InsertAll([], pr, s);
    var win := InsertAllTraces(pr, s);
    forall d | HasDest(s, d)
      ensures HasDest(r, d)
    {
      var i :| 0 <= i < |s| && s[i].dest == d;
      assert IndexOf(r, s[i].dest) < |r|;
    }
  }

  /** The specification has one solution. */
  lemma DedupUnique(s: seq<Entry>, pr: Priority, a: seq<Entry>, b: seq<Entry>)
    requires IsDedup(s, pr, a) && IsDedup(s, pr, b)
    ensures a == b
  {
    var less := (x: Entry, y: Entry) => IndexOf(s, x.dest) < IndexOf(s, y.dest);
    forall x
      ensures x in a <==> x in b
    {
      if x in a {
        DedupMember(s, pr, a, b, x);
      }
      if x in b {
        DedupMember(s, pr, b, a, x);
      }
    }
    StrictlySortedUnique(a, b, less);
  }

  lemma DedupMember(s: seq<Entry>, pr: Priority, a: seq<Entry>, b: seq<Entry>, x: Entry)
    requires IsDedup(s, pr, a) && IsDedup(s, pr, b) && x in a
    ensures x in b
  {
    var m :| 0 <= m < |a| && a[m] == x;
    var i: nat :| IsWinner(s, pr, i) && s[i] == a[m];
    assert HasDest(s, x.dest);
    assert HasDest(b, x.dest);
    var n :| 0 <= n < |b| && b[n].dest == x.dest;
    var j: nat :| IsWinner(s, pr, j) && s[j] == b[n];
    assert i == j;
  }

  /** Main result: normalizing lists the options in order and then the unique de-duplication of the
      other entries. */
  lemma NormalizedMeaning(toc: seq<Entry>, pr: Priority, r: seq<Entry>)
    ensures IsDedup(RegularOf(toc), pr, r) <==> Normalized(toc, pr) == OptionsOf(toc) + r
  {
    var s := RegularOf(toc);
    var d := InsertAll([], pr, s);
    InsertAllIsDedup(s, pr);
    if IsDedup(s, pr, r) {
      DedupUnique(s, pr, d, r);
    }
    if Normalized(toc, pr) == OptionsOf(toc) + r {
      var k := |OptionsOf(toc)|;
      assert d == (OptionsOf(toc) + d)[k..] == (OptionsOf(toc) + r)[k..] == r;
    }
  }

  lemma {:induction false} RegularHas(toc: seq<Entry>, i: nat) returns (k: nat)
    requires i < |toc| && toc[i].typecode != OPTION
    ensures k < |RegularOf(toc)| && RegularOf(toc)[k] == toc[i].(dest := NormPath(toc[i].dest))
  {
    if i == |toc| - 1 {
      k := |RegularOf(toc)| - 1;
    } else {
      k := RegularHas(toc[..|toc| - 1], i);
    }
  }

  /** For each module, what is kept for the PYZ archive has the highest optimization level. */
  lemma PyzKeepsHighestLevel(toc: seq<Entry>, i: nat)
    requires i < |toc| && toc[i].typecode != OPTION
    ensures exists e :: IsKeptFor(toc, PyzPriority, toc[i], e)
    ensures forall e :: IsKeptFor(toc, PyzPriority, toc[i], e) ==>
      PyzPriority(toc[i].typecode) <= PyzPriority(e.typecode)
  {
    var s := RegularOf(toc);
    var r := InsertAll([], PyzPriority, s);
    InsertAllIsDedup(s, PyzPriority);
    var k := RegularHas(toc, i);
    assert HasDest(s, s[k].dest);
    var m :| 0 <= m < |r| && r[m].dest == s[k].dest;
    assert r[m] in Normalized(toc, PyzPriority);
    RegularIsClean(toc);
    var j: nat :| IsWinner(s, PyzPriority, j) && s[j] == r[m];
    assert IsClean(s[j]);
    assert IsKeptFor(toc, PyzPriority, toc[i], r[m]);
    forall e | IsKeptFor(toc, PyzPriority, toc[i], e)
      ensures PyzPriority(toc[i].typecode) <= PyzPriority(e.typecode)
    {
      OptionsAreOptions(toc);
      assert e in r;
      var n :| 0 <= n < |r| && r[n] == e;
      var w: nat :| IsWinner(s, PyzPriority, w) && s[w] == r[n];
    }
  }

  ghost predicate IsKeptFor(toc: seq<Entry>, pr: Priority, original: Entry, e: Entry) {
    e in Normalized(toc, pr) && e.typecode != OPTION && e.dest == NormPath(original.dest)
  }

  // ---- Staging ----

  lemma {:induction false} OptionsConcat(a: seq<Entry>, b: seq<Entry>)
    ensures OptionsOf(a + b) == OptionsOf(a) + OptionsOf(b)
  {
    if b == [] {
      assert a + b == a;
    } else {
      assert (a + b)[..|a + b| - 1] == a + b[..|b| - 1];
      OptionsConcat(a, b[..|b| - 1]);
    }
  }

  lemma {:induction false} RegularConcat(a: seq<Entry>, b: seq<Entry>)
    ensures RegularOf(a + b) == RegularOf(a) + RegularOf(b)
  {
    if b == [] {
      assert a + b == a;
    } else {
      assert (a + b)[..|a + b| - 1] == a + b[..|b| - 1];
      RegularConcat(a, b[..|b| - 1]);
    }
  }

  lemma {:induction false} InsertAllConcat(d: seq<Entry>, pr: Priority, a: seq<Entry>, b: seq<Entry>)
    ensures InsertAll(d, pr, a + b) == InsertAll(InsertAll(d, pr, a), pr, b)
  {
    if b == [] {
      assert a + b == a;
    } else {
      assert (a + b)[..|a + b| - 1] == a + b[..|b| - 1];
      InsertAllConcat(d, pr, a, b[..|b| - 1]);
    }
  }

  /** Options pass through unchanged, the rest is regular with a normal destination. */
  predicate IsOption(e: Entry) {
    e.typecode == OPTION
  }

  predicate IsClean(e: Entry) {
    e.typecode != OPTION && NormPath(e.dest) == e.dest
  }

  lemma {:induction false} OptionsAreOptions(toc: seq<Entry>)
    ensures forall e :: e in OptionsOf(toc) ==> IsOption(e)
    ensures OptionsOf(OptionsOf(toc)) == OptionsOf(toc)
    ensures RegularOf(OptionsOf(toc)) == []
  {
    if toc != [] {
      var init := toc[..|toc| - 1];
      OptionsAreOptions(init);
      var last := if toc[|toc| - 1].typecode == OPTION then [toc[|toc| - 1]] else [];
      OptionsConcat(OptionsOf(init), last);
      RegularConcat(OptionsOf(init), last);
    }
  }

  lemma {:induction false} RegularIsClean(toc: seq<Entry>)
    ensures forall i :: 0 <= i < |RegularOf(toc)| ==> IsClean(RegularOf(toc)[i])
  {
    if toc != [] {
      RegularIsClean(toc[..|toc| - 1]);
      NormPathIdempotent(toc[|toc| - 1].dest);
    }
  }

  lemma {:induction false} InsertAllClean(pr: Priority, s: seq<Entry>)
    requires forall i :: 0 <= i < |s| ==> IsClean(s[i])
    ensures forall i :: 0 <= i < |InsertAll([], pr, s)| ==> IsClean(InsertAll([], pr, s)[i])
  {
    if s != [] {
      InsertAllClean(pr, s[..|s| - 1]);
    }
  }

  lemma {:induction false} CleanIsFixed(s: seq<Entry>)
    requires forall i :: 0 <= i < |s| ==> IsClean(s[i])
    ensures OptionsOf(s) == [] && RegularOf(s) == s
  {
    if s != [] {
      var init, e := s[..|s| - 1], s[|s| - 1];
      CleanIsFixed(init);
      assert e.(dest := NormPath(e.dest)) == e;
      assert s == init + [e];
    }
  }

  /** Entries with distinct destinations are kept as they are. */
  lemma {:induction false} InsertAllFixed(pr: Priority, d: seq<Entry>)
    requires DistinctDests(d)
    ensures InsertAll([], pr, d) == d
  {
    if d != [] {
      var init, e := d[..|d| - 1], d[|d| - 1];
      InsertAllFixed(pr, init);
      InsertNew(init, pr, e);
      assert d == init + [e];
    }
  }

  lemma NormalizedParts(toc: seq<Entry>, pr: Priority)
    ensures var d := InsertAll([], pr, RegularOf(toc));
      && OptionsOf(Normalized(toc, pr)) == OptionsOf(toc)
      && RegularOf(Normalized(toc, pr)) == d
      && DistinctDests(d)
  {
    var d := InsertAll([], pr, RegularOf(toc));
    RegularIsClean(toc);
    InsertAllClean(pr, RegularOf(toc));
    CleanIsFixed(d);
    InsertAllDistinct([], pr, RegularOf(toc));
    OptionsConcat(OptionsOf(toc), d);
    RegularConcat(OptionsOf(toc), d);
    OptionsAreOptions(toc);
  }

  lemma NormalizedIdempotent(toc: seq<Entry>, pr: Priority)
    ensures Normalized(Normalized(toc, pr), pr) == Normalized(toc, pr)
  {
    NormalizedParts(toc, pr);
    InsertAllFixed(pr, InsertAll([], pr, RegularOf(toc)));
  }

  /** Normalizing the first part beforehand makes no difference. */
  lemma NormalizedAbsorbsFront(a: seq<Entry>, b: seq<Entry>, pr: Priority)
    ensures Normalized(Normalized(a, pr) + b, pr) == Normalized(a + b, pr)
  {
    var d := InsertAll([], pr, RegularOf(a));
    NormalizedParts(a, pr);
    InsertAllFixed(pr, d);
    OptionsConcat(Normalized(a, pr), b);
    RegularConcat(Normalized(a, pr), b);
    OptionsConcat(a, b);
    RegularConcat(a, b);
    InsertAllConcat([], pr, d, RegularOf(b));
    InsertAllConcat([], pr, RegularOf(a), RegularOf(b));
  }

  lemma InsertKnown(d: seq<Entry>, pr: Priority, e: Entry, k: nat)
    requires k < |d| && d[k].dest == e.dest && forall i :: 0 <= i < k ==> d[i].dest != e.dest
    ensures Insert(d, pr, e) == if pr(e.typecode) > pr(d[k].typecode) then d[k := e] else d
  {
    IndexOfIs(d, e.dest, k);
  }

  lemma InsertNew(d: seq<Entry>, pr: Priority, e: Entry)
    requires forall i :: 0 <= i < |d| ==> d[i].dest != e.dest
    ensures Insert(d, pr, e) == d + [e]
  {
    IndexOfIs(d, e.dest, |d|);
  }

  /** Two inserts for different destinations commute when the later one only replaces. */
  lemma InsertCommutes(d: seq<Entry>, pr: Priority, e: Entry, g: Entry)
    requires IndexOf(d, e.dest) < |d| && e.dest != g.dest
    ensures Insert(Insert(d, pr, g), pr, e) == Insert(Insert(d, pr, e), pr, g)
  {
    CommuteAt(d, pr, e, g, IndexOf(d, e.dest), IndexOf(d, g.dest));
  }

  lemma CommuteAt(d: seq<Entry>, pr: Priority, e: Entry, g: Entry, i: nat, k: nat)
    requires i < |d| && d[i].dest == e.dest && forall j :: 0 <= j < i ==> d[j].dest != e.dest
    requires k <= |d| && (k < |d| ==> d[k].dest == g.dest) && forall j :: 0 <= j < k ==> d[j].dest != g.dest
    requires e.dest != g.dest
    ensures Insert(Insert(d, pr, g), pr, e) == Insert(Insert(d, pr, e), pr, g)
  {
    if k < |d| {
      CommuteKnown(d, pr, e, g, i, k);
    } else {
      CommuteNew(d, pr, e, g, i);
    }
  }

  lemma CommuteKnown(d: seq<Entry>, pr: Priority, e: Entry, g: Entry, i: nat, k: nat)
    requires i < |d| && d[i].dest == e.dest && forall j :: 0 <= j < i ==> d[j].dest != e.dest
    requires k < |d| && d[k].dest == g.dest && forall j :: 0 <= j < k ==> d[j].dest != g.dest
    requires e.dest != g.dest
    ensures Insert(Insert(d, pr, g), pr, e) == Insert(Insert(d, pr, e), pr, g)
  {
    InsertKnown(d, pr, e, i);
    InsertKnown(d, pr, g, k);
    InsertKnown(Insert(d, pr, g), pr, e, i);
    InsertKnown(Insert(d, pr, e), pr, g, k);
    assert d[k := g][i := e] == d[i := e][k := g];
  }

  lemma CommuteNew(d: seq<Entry>, pr: Priority, e: Entry, g: Entry, i: nat)
    requires i < |d| && d[i].dest == e.dest && forall j :: 0 <= j < i ==> d[j].dest != e.dest
    requires e.dest != g.dest && forall j :: 0 <= j < |d| ==> d[j].dest != g.dest
    ensures Insert(Insert(d, pr, g), pr, e) == Insert(Insert(d, pr, e), pr, g)
  {
    InsertKnown(d, pr, e, i);
    InsertNew(d, pr, g);
    InsertKnown(d + [g], pr, e, i);
    InsertNew(Insert(d, pr, e), pr, g);
    assert (d + [g])[i := e] == d[i := e] + [g];
  }

  lemma {:induction false} InsertAllCommutes(d: seq<Entry>, pr: Priority, c: seq<Entry>, e: Entry)
    requires IndexOf(d, e.dest) < |d| && forall j :: 0 <= j < |c| ==> c[j].dest != e.dest
    ensures Insert(InsertAll(d, pr, c), pr, e) == InsertAll(Insert(d, pr, e), pr, c)
    ensures IndexOf(InsertAll(d, pr, c), e.dest) < |InsertAll(d, pr, c)|
  {
    if c != [] {
      var init, g := c[..|c| - 1], c[|c| - 1];
      InsertAllCommutes(d, pr, init, e);
      InsertCommutes(InsertAll(d, pr, init), pr, e, g);
      InsertKeeps(InsertAll(d, pr, init), pr, g, e.dest);
    }
  }

  lemma InsertKeeps(d: seq<Entry>, pr: Priority, g: Entry, dest: Path)
    requires IndexOf(d, dest) < |d|
    ensures IndexOf(Insert(d, pr, g), dest) < |Insert(d, pr, g)|
  {
    var r, i := Insert(d, pr, g), IndexOf(d, dest);
    assert r[i].dest == dest;
  }

  /** An entry that meets one for the same destination. */
  lemma InsertTwice(d: seq<Entry>, pr: Priority, f: Entry, e: Entry)
    requires e.dest == f.dest
    ensures Insert(Insert(d, pr, f), pr, e) ==
      if pr(e.typecode) > pr(f.typecode) then Insert(d, pr, e) else Insert(d, pr, f)
  {
    var k, x := IndexOf(d, f.dest), Insert(d, pr, f);
    IndexOfIs(x, e.dest, k);
  }

  /** Inserting entries and then one more, or combining that one with them first, is the same. */
  lemma InsertIntoStage(d: seq<Entry>, pr: Priority, c: seq<Entry>, e: Entry)
    requires DistinctDests(c)
    ensures Insert(InsertAll(d, pr, c), pr, e) == InsertAll(d, pr, Insert(c, pr, e))
  {
    var k := IndexOf(c, e.dest);
    if k == |c| {
      assert (c + [e])[..|c|] == c;
    } else {
      var u, f, v := c[..k], c[k], c[k + 1..];
      assert c == u + [f] + v;
      assert c[k := e] == u + [e] + v;
      StageAround(d, pr, u, f, v, e);
      InsertKnown(c, pr, e, k);
    }
  }

  lemma StageAround(d: seq<Entry>, pr: Priority, u: seq<Entry>, f: Entry, v: seq<Entry>, e: Entry)
    requires e.dest == f.dest && forall j :: 0 <= j < |v| ==> v[j].dest != e.dest
    ensures Insert(InsertAll(d, pr, u + [f] + v), pr, e) ==
      InsertAll(d, pr, if pr(e.typecode) > pr(f.typecode) then u + [e] + v else u + [f] + v)
  {
    var x := InsertAll(d, pr, u);
    assert (u + [f])[..|u|] == u && (u + [e])[..|u|] == u;
    InsertAllConcat(d, pr, u + [f], v);
    InsertAllConcat(d, pr, u + [e], v);
    InsertPresent(x, pr, f);
    InsertAllCommutes(Insert(x, pr, f), pr, v, e);
    InsertTwice(x, pr, f, e);
  }

  lemma InsertPresent(d: seq<Entry>, pr: Priority, f: Entry)
    ensures IndexOf(Insert(d, pr, f), f.dest) < |Insert(d, pr, f)|
  {
    var r, k := Insert(d, pr, f), IndexOf(d, f.dest);
    assert r[k].dest == f.dest;
  }

  lemma {:induction false} InsertStage(d: seq<Entry>, pr: Priority, s: seq<Entry>)
    ensures InsertAll(d, pr, s) == InsertAll(d, pr, InsertAll([], pr, s))
  {
    if s != [] {
      var init := s[..|s| - 1];
      InsertStage(d, pr, init);
      InsertAllDistinct([], pr, init);
      InsertIntoStage(d, pr, InsertAll([], pr, init), s[|s| - 1]);
    }
  }

  /** Nor does normalizing the second part beforehand: TOC lists can be merged in stages. */
  lemma NormalizedAbsorbsBack(a: seq<Entry>, b: seq<Entry>, pr: Priority)
    ensures Normalized(a + Normalized(b, pr), pr) == Normalized(a + b, pr)
  {
    NormalizedParts(b, pr);
    var c := InsertAll([], pr, RegularOf(b));
    OptionsConcat(a, Normalized(b, pr));
    RegularConcat(a, Normalized(b, pr));
    OptionsConcat(a, b);
    RegularConcat(a, b);
    InsertAllConcat([], pr, RegularOf(a), c);
    InsertAllConcat([], pr, RegularOf(a), RegularOf(b));
    InsertStage(InsertAll([], pr, RegularOf(a)), pr, RegularOf(b));
  }
}
