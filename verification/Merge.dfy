/** MERGE: collecting what several executables share only once. */
module Merge {
  import opened Paths
  import opened Toc
  import opened Dedup
  import opened MergeHistory

  type Key = (Path, Path)

  function KeyOf(e: Entry): Key {
    (e.dest, e.src)
  }

  /** The tables of contents of one executable that a MERGE run changes. */
  class Analysis {
    var binaries: seq<Entry>
    var datas: seq<Entry>
    var dependencies: seq<Entry>
  }

  datatype Argument = Argument(analysis: Analysis, exe: Path)

  function EventsOf(toc: seq<Entry>, exe: Path): seq<Event> {
    seq(|toc|, i requires 0 <= i < |toc| => Event(toc[i], exe))
  }

  lemma EventsOfStep(toc: seq<Entry>, exe: Path, n: nat, before: seq<Event>)
    requires n < |toc|
    ensures before + EventsOf(toc[..n + 1], exe) == (before + EventsOf(toc[..n], exe)) + [Event(toc[n], exe)]
  {
    assert EventsOf(toc[..n + 1], exe) == EventsOf(toc[..n], exe) + [Event(toc[n], exe)];
  }

  /** The two collections agree with the entries met so far, as far as `e` is concerned. */
  ghost predicate AgreeOn(h: seq<Event>, links: set<Key>, owners: map<Key, Path>, e: Entry) {
    if IsLink(e) then KeyOf(e) in links <==> FirstWith(h, e) < |h|
    else
      && (KeyOf(e) in owners <==> FirstWith(h, e) < |h|)
      && (KeyOf(e) in owners ==> owners[KeyOf(e)] == h[FirstWith(h, e)].exe)
  }

  ghost predicate Agree(h: seq<Event>, links: set<Key>, owners: map<Key, Path>) {
    forall e: Entry :: AgreeOn(h, links, owners, e)
  }

  /** Recording an entry in the right collection, unless it is there, keeps the agreement. */
  lemma AgreeStep(h: seq<Event>, x: Event, links: set<Key>, owners: map<Key, Path>, links': set<Key>,
                  owners': map<Key, Path>)
    requires Agree(h, links, owners)
    requires IsLink(x.entry) ==> links' == links + {KeyOf(x.entry)} && owners' == owners
    requires !IsLink(x.entry) ==>
      && links' == links
      && owners' == if KeyOf(x.entry) in owners then owners else owners[KeyOf(x.entry) := x.exe]
    ensures Agree(h + [x], links', owners')
  {
    assert AgreeOn(h, links, owners, x.entry);
    forall e: Entry
      ensures AgreeOn(h + [x], links', owners', e)
    {
      assert AgreeOn(h, links, owners, e);
      FirstWithAppend(h, x, e);
      if SameKey(x.entry, e) {
        FirstWithSame(h, x.entry, e);
      }
    }
  }

  lemma FirstWithSame(h: seq<Event>, a: Entry, b: Entry)
    requires SameKey(a, b)
    ensures FirstWith(h, a) == FirstWith(h, b)
  {
    var i, j := FirstWith(h, a), FirstWith(h, b);
    assert i < |h| ==> SameKey(h[i].entry, b);
    assert j < |h| ==> SameKey(h[j].entry, a);
  }

  class Merger {
    const cwd: Path
    /** Which executable keeps an entry. */
    var dependencies: map<Key, Path>
    var symlinks: set<Key>
    /** All entries met so far, and what became of them. */
    ghost var seen: seq<Event>
    ghost var fates: seq<Fate>

    ghost predicate Valid()
      reads this
    {
      Agree(seen, symlinks, dependencies) && AreFates(cwd, seen, fates)
    }

    constructor (cwd: Path)
      ensures Valid() && this.cwd == cwd && seen == [] && fates == []
    {
      this.cwd := cwd;
      dependencies := map[];
      symlinks := {};
      seen, fates := [], [];
    }

    /** One entry of the table of contents of `exe`. */
    method ProcessEntry(e: Entry, exe: Path) returns (fate: Fate)
      requires Valid()
      modifies this
      ensures Valid() && seen == old(seen) + [Event(e, exe)] && fates == old(fates) + [fate]
    {
      assert AgreeOn(seen, symlinks, dependencies, e);
      if IsLink(e) {
        if KeyOf(e) !in symlinks {
          symlinks := symlinks + {KeyOf(e)};
          fate := Kept(e);
        } else {
          fate := Referenced(e);
        }
      } else if KeyOf(e) !in dependencies {
        dependencies := dependencies[KeyOf(e) := exe];
        fate := Kept(e);
      } else {
        var path := RelPath(cwd, dependencies[KeyOf(e)], Parent(exe));
        if EndsWith(Spelling(path), Spelling(exe)) {
          fate := Dropped;
        } else {
          fate := Referenced(Entry(e.dest, path, DEPENDENCY));
        }
      }
      AgreeStep(seen, Event(e, exe), old(symlinks), old(dependencies), symlinks, dependencies);
      FatesStep(cwd, seen, fates, Event(e, exe), fate);
      seen, fates := seen + [Event(e, exe)], fates + [fate];
    }

    /** A whole table of contents: the entries that stay with `exe`, and its references. */
    method ProcessToc(toc: seq<Entry>, exe: Path) returns (keep: seq<Entry>, refs: seq<Entry>)
      requires Valid()
      modifies this
      ensures Valid() && seen == old(seen) + EventsOf(toc, exe)
      ensures old(fates) <= fates && |fates| == |seen|
      ensures keep == Keeps(fates, |old(fates)|, |fates|)
      ensures refs == References(fates, |old(fates)|, |fates|)
    {
      keep, refs := [], [];
      assert EventsOf(toc[..0], exe) == [] && seen + [] == seen;
      for i := 0 to |toc|
        invariant Valid() && seen == old(seen) + EventsOf(toc[..i], exe) && old(fates) <= fates
        invariant keep == Keeps(fates, |old(fates)|, |fates|)
        invariant refs == References(fates, |old(fates)|, |fates|)
      {
        ghost var before := fates;
        var fate := ProcessEntry(toc[i], exe);
        EventsOfStep(toc, exe, i, old(seen));
        KeepsExtend(before, fates, |old(fates)|, |before|);
        match fate
        case Kept(entry) => keep := keep + [entry];
        case Referenced(entry) => refs := refs + [entry];
        case Dropped =>
      }
      assert toc[..|toc|] == toc;
    }
  }

  lemma FirstWithAppend(h: seq<Event>, x: Event, e: Entry)
    ensures FirstWith(h + [x], e) ==
      if FirstWith(h, e) < |h| then FirstWith(h, e) else if SameKey(x.entry, e) then |h| else |h| + 1
  {
    var g := h + [x];
    var k, n := FirstWith(h, e), FirstWith(g, e);
    assert forall i :: 0 <= i < |h| ==> g[i] == h[i];
    assert g[|h|] == x;
  }

  lemma FatesStep(cwd: Path, h: seq<Event>, fates: seq<Fate>, x: Event, f: Fate)
    requires AreFates(cwd, h, fates) && f == FateOf(cwd, h, x.entry, x.exe)
    ensures AreFates(cwd, h + [x], fates + [f])
  {
    var g := h + [x];
    forall i: nat
      ensures IsFate(cwd, g, fates + [f], i)
    {
      assert IsFate(cwd, h, fates, i);
      if i <= |h| {
        assert g[..i] == h[..i];
        assert h[..|h|] == h;
      }
    }
  }

  /** What became of entries does not change later. */
  lemma {:induction false} KeepsExtend(f: seq<Fate>, g: seq<Fate>, a: nat, b: nat)
    requires f <= g && a <= b <= |f|
    ensures Keeps(g, a, b) == Keeps(f, a, b)
    ensures References(g, a, b) == References(f, a, b)
    decreases b
  {
    if a < b {
      KeepsExtend(f, g, a, b - 1);
    }
  }

  // ---- Whole runs ----

  /** What MERGE is given for one executable. */
  datatype Tables = Tables(binaries: seq<Entry>, datas: seq<Entry>, dependencies: seq<Entry>, exe: Path)

  function TablesOf(a: Argument): Tables
    reads a.analysis
  {
    Tables(a.analysis.binaries, a.analysis.datas, a.analysis.dependencies, a.exe)
  }

  /** The entries of the first `n` executables, in the order in which they are met. */
  function History(t: seq<Tables>, n: nat): seq<Event>
    requires n <= |t|
  {
    if n == 0 then []
    else History(t, n - 1) + EventsOf(t[n - 1].binaries, t[n - 1].exe) + EventsOf(t[n - 1].datas, t[n - 1].exe)
  }

  /** How many entries come before those of executable `n`. */
  function Start(t: seq<Tables>, n: nat): nat
    requires n <= |t|
  {
    if n == 0 then 0 else Start(t, n - 1) + |t[n - 1].binaries| + |t[n - 1].datas|
  }

  lemma {:induction false} HistoryLength(t: seq<Tables>, n: nat)
    requires n <= |t|
    ensures |History(t, n)| == Start(t, n)
  {
    if n > 0 {
      HistoryLength(t, n - 1);
    }
  }

  /** The history holds the binaries of each executable and then its datas, behind those of the
      executables before it. */
  lemma {:induction false} HistoryMeaning(t: seq<Tables>, n: nat, k: nat)
    requires k < n <= |t|
    ensures |History(t, n)| == Start(t, n) && Start(t, 0) == 0
    ensures Start(t, k + 1) == Start(t, k) + |t[k].binaries| + |t[k].datas| <= Start(t, n)
    ensures forall m :: 0 <= m < |t[k].binaries| ==>
      History(t, n)[Start(t, k) + m] == Event(t[k].binaries[m], t[k].exe)
    ensures forall m :: 0 <= m < |t[k].datas| ==>
      History(t, n)[Start(t, k) + |t[k].binaries| + m] == Event(t[k].datas[m], t[k].exe)
    decreases n
  {
    HistoryLength(t, n);
    HistoryLength(t, n - 1);
    if k < n - 1 {
      HistoryMeaning(t, n - 1, k);
    }
  }

  /** `clean` is `normalize_toc`. */
  ghost predicate IsCleaner(clean: Cleaner) {
    forall toc :: Cleans(clean, toc)
  }

  ghost predicate Cleans(clean: Cleaner, toc: seq<Entry>) {
    clean(toc) == Normalized(toc, TocPriority)
  }

  type Cleaner = seq<Entry> -> seq<Entry>

  /** The tables `r` are those of executable `i` after the run so far: what is kept of its binaries
      and its datas, and the references for the rest. */
  ghost predicate IsMerged(clean: Cleaner, t: seq<Tables>, fates: seq<Fate>, i: nat, r: Tables) {
    && i < |t|
    && var a := Start(t, i);
       var b := a + |t[i].binaries|;
       var c := b + |t[i].datas|;
       c <= |fates| && r == Tables(clean(Keeps(fates, a, b)), clean(Keeps(fates, b, c)),
                                   t[i].dependencies + (References(fates, a, b) + References(fates, b, c)), t[i].exe)
  }

  lemma MergedExtend(clean: Cleaner, t: seq<Tables>, f: seq<Fate>, g: seq<Fate>, i: nat, r: Tables)
    requires IsMerged(clean, t, f, i, r) && f <= g
    ensures IsMerged(clean, t, g, i, r)
  {
    var a := Start(t, i);
    var b := a + |t[i].binaries|;
    var c := b + |t[i].datas|;
    KeepsExtend(f, g, a, b);
    KeepsExtend(f, g, b, c);
    assert clean(Keeps(g, a, b)) == r.binaries && clean(Keeps(g, b, c)) == r.datas;
  }

  lemma HistoryNext(t: seq<Tables>, n: nat)
    requires n < |t|
    ensures History(t, n + 1) == History(t, n) + EventsOf(t[n].binaries, t[n].exe) + EventsOf(t[n].datas, t[n].exe)
    ensures |History(t, n)| == Start(t, n)
  {
    HistoryLength(t, n);
  }

  lemma MergedNext(clean: Cleaner, t: seq<Tables>, n: nat, a: nat, f: seq<Fate>, g: seq<Fate>, r: Tables)
    requires n < |t| && a == Start(t, n) && f <= g && |f| == a + |t[n].binaries| && |g| == |f| + |t[n].datas|
    requires r == Tables(clean(Keeps(f, a, |f|)), clean(Keeps(g, |f|, |g|)),
                         t[n].dependencies + (References(f, a, |f|) + References(g, |f|, |g|)), t[n].exe)
    ensures IsMerged(clean, t, g, n, r)
  {
    KeepsExtend(f, g, a, |f|);
  }

  /** Another executable changes nothing for those before it. */
  lemma {:induction false} HistoryMore(t: seq<Tables>, x: Tables, n: nat)
    requires n <= |t|
    ensures History(t + [x], n) == History(t, n) && Start(t + [x], n) == Start(t, n)
  {
    if n > 0 {
      HistoryMore(t, x, n - 1);
    }
  }

  lemma MergedMore(clean: Cleaner, t: seq<Tables>, x: Tables, fates: seq<Fate>, i: nat, r: Tables)
    requires IsMerged(clean, t, fates, i, r)
    ensures IsMerged(clean, t + [x], fates, i, r)
  {
    HistoryMore(t, x, i);
  }

  ghost predicate MergedAt(clean: Cleaner, t: seq<Tables>, fates: seq<Fate>, done: seq<Tables>, i: nat) {
    i < |done| ==> IsMerged(clean, t, fates, i, done[i])
  }

  ghost predicate AllMerged(clean: Cleaner, t: seq<Tables>, fates: seq<Fate>, done: seq<Tables>) {
    forall i: nat :: MergedAt(clean, t, fates, done, i)
  }

  lemma AllMergedNext(
    clean: Cleaner, t: seq<Tables>, x: Tables, f: seq<Fate>, g: seq<Fate>, done: seq<Tables>, r: Tables)
    requires AllMerged(clean, t, f, done) && f <= g && IsMerged(clean, t + [x], g, |done|, r)
    ensures AllMerged(clean, t + [x], g, done + [r])
  {
    forall i: nat
      ensures MergedAt(clean, t + [x], g, done + [r], i)
    {
      if i < |done| {
        assert MergedAt(clean, t, f, done, i);
        MergedExtend(clean, t, f, g, i, done[i]);
        MergedMore(clean, t, x, g, i, done[i]);
      }
    }
  }

  /** One more executable: `t` are the tables that were met so far, `done` what they became. */
  method MergeNext(m: Merger, arg: Argument, ghost t: seq<Tables>, ghost done: seq<Tables>, ghost clean: Cleaner)
    requires m.Valid() && IsCleaner(clean) && AllMerged(clean, t, m.fates, done)
    requires |done| == |t| && m.seen == History(t, |t|)
    modifies m, arg.analysis
    ensures m.Valid() && m.seen == History(t + [old(TablesOf(arg))], |t| + 1)
    ensures AllMerged(clean, t + [old(TablesOf(arg))], m.fates, done + [TablesOf(arg)])
  {
    var a := arg.analysis;
    ghost var n, x := |t|, TablesOf(arg);
    HistoryMore(t, x, n);
    HistoryNext(t + [x], n);
    var binaries, binariesRefs := m.ProcessToc(a.binaries, arg.exe);
    ghost var f := m.fates;
    var datas, datasRefs := m.ProcessToc(a.datas, arg.exe);
    var keptBinaries := NormalizeToc(binaries, TocPriority);
    var keptDatas := NormalizeToc(datas, TocPriority);
    assert Cleans(clean, binaries) && Cleans(clean, datas);
    a.binaries := keptBinaries;
    a.datas := keptDatas;
    a.dependencies := a.dependencies + (binariesRefs + datasRefs);
    MergedNext(clean, t + [x], n, |old(m.fates)|, f, m.fates, TablesOf(arg));
    AllMergedNext(clean, t, x, old(m.fates), m.fates, done, TablesOf(arg));
  }

  /** The last of the first `n` arguments with this analysis; -1 if there is none. */
  ghost function LastWith(args: seq<Argument>, n: nat, a: Analysis): (k: int)
    requires n <= |args|
    ensures -1 <= k < n
    ensures k >= 0 ==> args[k].analysis == a
    ensures forall i :: k < i < n ==> args[i].analysis != a
  {
    if n == 0 then -1 else if args[n - 1].analysis == a then n - 1 else LastWith(args, n - 1, a)
  }

  /** The tables of argument `i` after `n` turns: as they were, or as the last turn of the same analysis
      left them. */
  ghost function TablesAfter(args: seq<Argument>, was: seq<Tables>, done: seq<Tables>, n: nat, i: nat): Tables
    requires n <= |args| && n <= |done| && i < |args| == |was|
  {
    var k := LastWith(args, n, args[i].analysis);
    if k < 0 then was[i] else done[k].(exe := args[i].exe)
  }

  lemma TablesAfterMore(args: seq<Argument>, was: seq<Tables>, done: seq<Tables>, x: Tables, n: nat, i: nat)
    requires n <= |args| && n <= |done| && i < |args| == |was|
    ensures TablesAfter(args, was, done + [x], n, i) == TablesAfter(args, was, done, n, i)
  {
  }

  lemma TablesAfterTurn(args: seq<Argument>, was: seq<Tables>, done: seq<Tables>, x: Tables, n: nat, i: nat)
    requires n == |done| < |args| && i < |args| == |was|
    ensures TablesAfter(args, was, done + [x], n + 1, i) ==
      if args[i].analysis == args[n].analysis then x.(exe := args[i].exe) else TablesAfter(args, was, done, n, i)
  {
    assert (done + [x])[n] == x;
    TablesAfterMore(args, was, done, x, n, i);
  }

  /** All tables are what the first `n` turns made of them. */
  ghost predicate AreAfter(args: seq<Argument>, was: seq<Tables>, done: seq<Tables>, n: nat)
    requires n <= |args| && n <= |done| && |args| == |was|
    reads set i | 0 <= i < |args| :: args[i].analysis
  {
    forall i :: 0 <= i < |args| ==> TablesOf(args[i]) == TablesAfter(args, was, done, n, i)
  }

  /** What the turns met is what the turns before them had left. */
  ghost predicate AreMet(args: seq<Argument>, was: seq<Tables>, done: seq<Tables>, t: seq<Tables>) {
    |t| == |done| <= |args| == |was| && forall i :: 0 <= i < |t| ==> t[i] == TablesAfter(args, was, done, i, i)
  }

  lemma MetMore(args: seq<Argument>, was: seq<Tables>, done: seq<Tables>, t: seq<Tables>, x: Tables, y: Tables)
    requires AreMet(args, was, done, t) && |t| < |args| && x == TablesAfter(args, was, done, |t|, |t|)
    ensures AreMet(args, was, done + [y], t + [x])
  {
    forall i | 0 <= i <= |t|
      ensures TablesAfter(args, was, done + [y], i, i) == TablesAfter(args, was, done, i, i)
    {
      TablesAfterMore(args, was, done, y, i, i);
    }
  }

  /** The turn of argument `n`. */
  method MergeTurn(m: Merger, args: seq<Argument>, n: nat, ghost was: seq<Tables>, ghost t: seq<Tables>,
                   ghost done: seq<Tables>, ghost clean: Cleaner)
    requires n == |t| == |done| < |args| == |was|
    requires m.Valid() && IsCleaner(clean) && AllMerged(clean, t, m.fates, done) && m.seen == History(t, |t|)
    requires AreAfter(args, was, done, n)
    modifies m, args[n].analysis
    ensures m.Valid() && m.seen == History(t + [old(TablesOf(args[n]))], |t| + 1)
    ensures AllMerged(clean, t + [old(TablesOf(args[n]))], m.fates, done + [TablesOf(args[n])])
    ensures AreAfter(args, was, done + [TablesOf(args[n])], n + 1)
  {
    MergeNext(m, args[n], t, done, clean);
    ghost var y := TablesOf(args[n]);
    forall i | 0 <= i < |args|
      ensures TablesOf(args[i]) == TablesAfter(args, was, done + [y], n + 1, i)
    {
      TablesAfterTurn(args, was, done, y, n, i);
      assert args[i].analysis != args[n].analysis ==> TablesOf(args[i]) == old(TablesOf(args[i]));
    }
  }

  /** The whole run; the same analysis may occur more than once. `was` are the tables before the run,
      `t` those that are met when the turn of an argument comes, `done` what they become. */
  method MergeAll(cwd: Path, args: seq<Argument>, ghost was: seq<Tables>, ghost repr: set<Analysis>,
                  ghost clean: Cleaner)
    returns (m: Merger, ghost t: seq<Tables>, ghost done: seq<Tables>)
    requires IsCleaner(clean) && forall i :: 0 <= i < |args| ==> args[i].analysis in repr
    requires |was| == |args| && forall i :: 0 <= i < |args| ==> was[i] == TablesOf(args[i])
    modifies repr
    ensures fresh(m) && m.Valid() && m.cwd == cwd && m.seen == History(t, |t|)
    ensures |t| == |done| == |args| && AllMerged(clean, t, m.fates, done)
    ensures AreMet(args, was, done, t) && AreAfter(args, was, done, |args|)
  {
    m := new Merger(cwd);
    t, done := [], [];
    for n := 0 to |args|
      invariant fresh(m) && m.Valid() && m.cwd == cwd && m.seen == History(t, |t|)
      invariant |t| == |done| == n && AllMerged(clean, t, m.fates, done)
      invariant AreMet(args, was, done, t) && AreAfter(args, was, done, n)
    {
      ghost var x := TablesOf(args[n]);
      MergeTurn(m, args, n, was, t, done, clean);
      MetMore(args, was, done, t, x, TablesOf(args[n]));
      t, done := t + [x], done + [TablesOf(args[n])];
    }
  }
}
