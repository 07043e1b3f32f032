/** What normalizing a TOC keeps, in terms of the entries and their typecodes. */
module DedupMeaning {
  import opened Paths
  import opened Toc
  import opened Sequences
  import opened Dedup

  // ---- Which typecode displaces which ----

  /** `normalize_toc`: a reference displaces anything else, a link anything but references and links,
      code anything but those and code. */
  predicate Displaces(a: Typecode, b: Typecode) {
    || (a == DEPENDENCY && b != DEPENDENCY)
    || (a == SYMLINK && b != DEPENDENCY && b != SYMLINK)
    || ((a == BINARY || a == EXTENSION) && b != DEPENDENCY && b != SYMLINK && b != BINARY && b != EXTENSION)
  }

  /** `normalize_pyz_toc`: a module of level 2 displaces any other, one of level 1 any of level 0. */
  predicate DisplacesModule(a: Typecode, b: Typecode) {
    || (a == OTHER("PYMODULE-2") && b != OTHER("PYMODULE-2"))
    || (a == OTHER("PYMODULE-1") && b != OTHER("PYMODULE-2") && b != OTHER("PYMODULE-1"))
  }

  type Rule = (Typecode, Typecode) -> bool

  ghost predicate IsRuleOf(rule: Rule, pr: Priority) {
    forall a, b :: rule(a, b) <==> pr(a) > pr(b)
  }

  lemma RulesMeaning()
    ensures IsRuleOf(Displaces, TocPriority)
    ensures IsRuleOf(DisplacesModule, PyzPriority)
  {
    assert "PYMODULE-2"[9] != "PYMODULE-1"[9];
  }

  // ---- Which entries are kept ----

  /** The entries `i` and `j` are no options and have the same destination. */
  predicate Rivals(toc: seq<Entry>, i: nat, j: nat) {
    && i < |toc| && j < |toc| && toc[i].typecode != OPTION && toc[j].typecode != OPTION
    && NormPath(toc[i].dest) == NormPath(toc[j].dest)
  }

  /** No entry for its destination displaces entry `i`, and it displaces those before it. */
  ghost predicate IsKept(toc: seq<Entry>, rule: Rule, i: nat) {
    && i < |toc| && toc[i].typecode != OPTION
    && forall j: nat :: Rivals(toc, i, j) ==>
         !rule(toc[j].typecode, toc[i].typecode) && (j < i ==> rule(toc[i].typecode, toc[j].typecode))
  }

  /** The destination of entry `i` is met before the one of entry `j`. */
  ghost predicate IsMetBefore(toc: seq<Entry>, i: nat, j: nat) {
    exists first: nat :: Rivals(toc, first, i) && forall l: nat :: Rivals(toc, l, j) ==> first < l
  }

  // ---- Indices ----

  lemma {:induction false} OptionsPicked(toc: seq<Entry>) returns (at: seq<nat>)
    ensures Ascending(at) && forall i: nat :: i in at <==> i < |toc| && toc[i].typecode == OPTION
    ensures |OptionsOf(toc)| == |at| && forall k :: 0 <= k < |at| ==> at[k] < |toc| && OptionsOf(toc)[k] == toc[at[k]]
    decreases |toc|
  {
    if toc == [] {
      at := [];
    } else {
      var n := |toc| - 1;
      at := OptionsPicked(toc[..n]);
      if toc[n].typecode == OPTION {
        AscendingNext(at, n);
        at := at + [n];
      }
    }
  }

  /** `s` holds the other entries, with normalized destinations; `at` says where they come from. */
  ghost predicate IsRegular(toc: seq<Entry>, s: seq<Entry>, at: seq<nat>) {
    && Ascending(at) && |s| == |at|
    && (forall i: nat :: i in at <==> i < |toc| && toc[i].typecode != OPTION)
    && (forall k :: 0 <= k < |at| ==> at[k] < |toc| && s[k] == toc[at[k]].(dest := NormPath(toc[at[k]].dest)))
  }

  lemma {:induction false} RegularPicked(toc: seq<Entry>) returns (at: seq<nat>)
    ensures IsRegular(toc, RegularOf(toc), at)
    decreases |toc|
  {
    if toc == [] {
      at := [];
    } else {
      var n := |toc| - 1;
      at := RegularPicked(toc[..n]);
      if toc[n].typecode != OPTION {
        AscendingNext(at, n);
        at := at + [n];
      }
    }
  }

  lemma RivalsAt(toc: seq<Entry>, s: seq<Entry>, at: seq<nat>, k: nat, l: nat)
    requires IsRegular(toc, s, at) && k < |s| && l < |s|
    ensures Rivals(toc, at[k], at[l]) <==> s[k].dest == s[l].dest
    ensures at[k] < at[l] <==> k < l
  {
    assert at[k] in at && at[l] in at;
  }

  lemma IndexAt(toc: seq<Entry>, s: seq<Entry>, at: seq<nat>, i: nat) returns (k: nat)
    requires IsRegular(toc, s, at) && i < |toc| && toc[i].typecode != OPTION
    ensures k < |s| && at[k] == i
  {
    assert i in at;
    k :| 0 <= k < |at| && at[k] == i;
  }

  lemma WinnerMeaning(toc: seq<Entry>, rule: Rule, pr: Priority, s: seq<Entry>, at: seq<nat>, k: nat)
    requires IsRuleOf(rule, pr) && IsRegular(toc, s, at) && k < |s|
    ensures IsWinner(s, pr, k) <==> IsKept(toc, rule, at[k])
  {
    assert at[k] in at;
    if IsWinner(s, pr, k) {
      forall j: nat | Rivals(toc, at[k], j)
        ensures !rule(toc[j].typecode, toc[at[k]].typecode)
        ensures j < at[k] ==> rule(toc[at[k]].typecode, toc[j].typecode)
      {
        var l := IndexAt(toc, s, at, j);
        RivalsAt(toc, s, at, k, l);
      }
    }
    if IsKept(toc, rule, at[k]) {
      forall l | 0 <= l < |s| && s[l].dest == s[k].dest
        ensures pr(s[l].typecode) <= pr(s[k].typecode) && (l < k ==> pr(s[l].typecode) < pr(s[k].typecode))
      {
        RivalsAt(toc, s, at, k, l);
        RivalsAt(toc, s, at, l, k);
      }
    }
  }

  lemma OrderMeaning(toc: seq<Entry>, s: seq<Entry>, at: seq<nat>, k: nat, l: nat)
    requires IsRegular(toc, s, at) && k < |s| && l < |s| && IndexOf(s, s[k].dest) < IndexOf(s, s[l].dest)
    ensures IsMetBefore(toc, at[k], at[l])
  {
    var f := IndexOf(s, s[k].dest);
    RivalsAt(toc, s, at, f, k);
    forall j: nat | Rivals(toc, j, at[l])
      ensures at[f] < j
    {
      var m := IndexAt(toc, s, at, j);
      RivalsAt(toc, s, at, m, l);
      RivalsAt(toc, s, at, f, m);
    }
  }

  /** `r` is the list of the options and then of what is kept, from the entries at `options` and `kept`:
      each where it belongs, with normalized destinations, in the order in which the destinations are
      met. */
  ghost predicate IsListOf(toc: seq<Entry>, rule: Rule, r: seq<Entry>, options: seq<nat>, kept: seq<nat>) {
    && |r| == |options| + |kept|
    && Ascending(options) && (forall i: nat :: i in options <==> i < |toc| && toc[i].typecode == OPTION)
    && (forall i: nat :: i in kept <==> IsKept(toc, rule, i))
    && (forall k :: 0 <= k < |options| ==> options[k] < |toc| && r[k] == toc[options[k]])
    && (forall m :: 0 <= m < |kept| ==>
          kept[m] < |toc| && r[|options| + m] == toc[kept[m]].(dest := NormPath(toc[kept[m]].dest)))
    && (forall m, n :: 0 <= m < n < |kept| ==> IsMetBefore(toc, kept[m], kept[n]))
  }

  /** Main result: what normalizing lists. */
  lemma NormalizedLists(toc: seq<Entry>, rule: Rule, pr: Priority) returns (options: seq<nat>, kept: seq<nat>)
    requires IsRuleOf(rule, pr)
    ensures IsListOf(toc, rule, Normalized(toc, pr), options, kept)
  {
    var s := RegularOf(toc);
    options := OptionsPicked(toc);
    var at := RegularPicked(toc);
    var win := InsertAllTraces(pr, s);
    kept := KeptOf(toc, rule, pr, s, at, InsertAll([], pr, s), win);
    ListIs(toc, rule, OptionsOf(toc), InsertAll([], pr, s), options, kept);
  }

  lemma ListIs(toc: seq<Entry>, rule: Rule, o: seq<Entry>, d: seq<Entry>, options: seq<nat>, kept: seq<nat>)
    requires Ascending(options) && (forall i: nat :: i in options <==> i < |toc| && toc[i].typecode == OPTION)
    requires |o| == |options| && forall k :: 0 <= k < |options| ==> options[k] < |toc| && o[k] == toc[options[k]]
    requires |d| == |kept| && forall i: nat :: i in kept <==> IsKept(toc, rule, i)
    requires forall m :: 0 <= m < |d| ==>
      kept[m] < |toc| && d[m] == toc[kept[m]].(dest := NormPath(toc[kept[m]].dest))
    requires forall m, n :: 0 <= m < n < |d| ==> IsMetBefore(toc, kept[m], kept[n])
    ensures IsListOf(toc, rule, o + d, options, kept)
  {
  }

  lemma KeptOf(toc: seq<Entry>, rule: Rule, pr: Priority, s: seq<Entry>, at: seq<nat>, r: seq<Entry>, win: seq<nat>)
    returns (kept: seq<nat>)
    requires IsRuleOf(rule, pr) && IsRegular(toc, s, at) && Traces(s, pr, r, win)
    ensures |kept| == |r| && forall i: nat :: i in kept <==> IsKept(toc, rule, i)
    ensures forall m :: 0 <= m < |r| ==>
      kept[m] < |toc| && r[m] == toc[kept[m]].(dest := NormPath(toc[kept[m]].dest))
    ensures forall m, n :: 0 <= m < n < |r| ==> IsMetBefore(toc, kept[m], kept[n])
  {
    kept := seq(|r|, m requires 0 <= m < |r| => assert IsWinner(s, pr, win[m]); at[win[m]]);
    forall i: nat
      ensures i in kept <==> IsKept(toc, rule, i)
    {
      KeptIff(toc, rule, pr, s, at, r, win, kept, i);
    }
    forall m, n | 0 <= m < n < |r|
      ensures IsMetBefore(toc, kept[m], kept[n])
    {
      KeptOrder(toc, pr, s, at, r, win, m, n);
    }
  }

  lemma KeptOrder(toc: seq<Entry>, pr: Priority, s: seq<Entry>, at: seq<nat>, r: seq<Entry>, win: seq<nat>, m: nat,
                  n: nat)
    requires IsRegular(toc, s, at) && Traces(s, pr, r, win) && m < n < |r|
    ensures win[m] < |at| && win[n] < |at| && IsMetBefore(toc, at[win[m]], at[win[n]])
  {
    assert IsWinner(s, pr, win[m]) && IsWinner(s, pr, win[n]);
    OrderMeaning(toc, s, at, win[m], win[n]);
  }

  lemma KeptIff(toc: seq<Entry>, rule: Rule, pr: Priority, s: seq<Entry>, at: seq<nat>, r: seq<Entry>, win: seq<nat>,
                kept: seq<nat>, i: nat)
    requires IsRuleOf(rule, pr) && IsRegular(toc, s, at) && Traces(s, pr, r, win)
    requires |kept| == |r| && forall m :: 0 <= m < |r| ==> win[m] < |at| && kept[m] == at[win[m]]
    ensures i in kept <==> IsKept(toc, rule, i)
  {
    if i in kept {
      var m :| 0 <= m < |r| && kept[m] == i;
      WinnerMeaning(toc, rule, pr, s, at, win[m]);
    }
    if IsKept(toc, rule, i) {
      var k := IndexAt(toc, s, at, i);
      var m := WinnerListed(toc, rule, pr, s, at, r, win, k);
      assert kept[m] == i;
    }
  }

  lemma WinnerListed(toc: seq<Entry>, rule: Rule, pr: Priority, s: seq<Entry>, at: seq<nat>, r: seq<Entry>,
                     win: seq<nat>, k: nat) returns (m: nat)
    requires IsRuleOf(rule, pr) && IsRegular(toc, s, at) && Traces(s, pr, r, win)
    requires k < |s| && IsKept(toc, rule, at[k])
    ensures m < |r| && win[m] == k
  {
    WinnerMeaning(toc, rule, pr, s, at, k);
    m := IndexOf(r, s[k].dest);
    assert m < |r| && IsWinner(s, pr, win[m]) && s[win[m]] == r[m];
    assert s[win[m]].dest == s[k].dest;
  }

  /** `normalize_toc` by typecodes: */
  lemma TocLists(toc: seq<Entry>) returns (options: seq<nat>, kept: seq<nat>)
    ensures IsListOf(toc, Displaces, Normalized(toc, TocPriority), options, kept)
  {
    RulesMeaning();
    options, kept := NormalizedLists(toc, Displaces, TocPriority);
  }

  /** `normalize_pyz_toc` by optimization levels: */
  lemma PyzLists(toc: seq<Entry>) returns (options: seq<nat>, kept: seq<nat>)
    ensures IsListOf(toc, DisplacesModule, Normalized(toc, PyzPriority), options, kept)
  {
    RulesMeaning();
    options, kept := NormalizedLists(toc, DisplacesModule, PyzPriority);
  }
}
