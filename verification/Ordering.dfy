/** `sorted` on a TOC: entries in the order of their destination texts. */
module Ordering {
  import opened Paths
  import opened Toc
  import opened Sequences

  /** The components joined with "/". */
  function Text(p: Path): string {
    if p == [] then "" else if |p| == 1 then p[0] else p[0] + "/" + Text(p[1..])
  }

  /** One component by itself, and one more behind a slash. */
  lemma {:induction false} TextAppend(p: Path, c: string)
    ensures Text([c]) == c
    ensures p != [] ==> Text(p + [c]) == Text(p) + "/" + c
    decreases |p|
  {
    if |p| == 1 {
      assert (p + [c])[1..] == [c];
    } else if p != [] {
      assert (p + [c])[1..] == p[1..] + [c];
      TextAppend(p[1..], c);
      assert p[0] + "/" + (Text(p[1..]) + "/" + c) == (p[0] + "/" + Text(p[1..])) + "/" + c;
    }
  }

  /** Python's order on strings: character by character, a proper prefix first. */
  predicate StringLess(a: string, b: string) {
    b != "" && (a == "" || a[0] < b[0] || (a[0] == b[0] && StringLess(a[1..], b[1..])))
  }

  lemma {:induction false} StringLessStrict(a: string, b: string)
    ensures StringLess(a, b) ==> !StringLess(b, a)
    ensures StringLess(a, b) || StringLess(b, a) || a == b
  {
    if a != "" && b != "" && a[0] == b[0] {
      StringLessStrict(a[1..], b[1..]);
      assert a == [a[0]] + a[1..] && b == [b[0]] + b[1..];
    }
  }

  /** One text is before another if, where they differ first, it ends or has the smaller character. */
  predicate DifferAt(a: string, b: string, k: nat) {
    && k <= |a| && k < |b| && a[..k] == b[..k]
    && (k == |a| || a[k] < b[k])
  }

  lemma {:induction false} StringLessMeaning(a: string, b: string)
    ensures StringLess(a, b) <==> exists k: nat :: DifferAt(a, b, k)
    decreases |a|
  {
    if a != "" && b != "" && a[0] == b[0] {
      StringLessMeaning(a[1..], b[1..]);
      if k: nat :| DifferAt(a[1..], b[1..], k) {
        assert a[..k + 1] == [a[0]] + a[1..][..k] && b[..k + 1] == [b[0]] + b[1..][..k];
        assert DifferAt(a, b, k + 1);
      }
      if k: nat :| DifferAt(a, b, k) {
        assert k > 0;
        assert a[..k][1..] == a[1..][..k - 1] && b[..k][1..] == b[1..][..k - 1];
        assert DifferAt(a[1..], b[1..], k - 1);
      }
    } else if StringLess(a, b) {
      assert DifferAt(a, b, 0);
    }
  }

  lemma {:induction false} StringLessTransitive(a: string, b: string, c: string)
    requires StringLess(a, b) && StringLess(b, c)
    ensures StringLess(a, c)
  {
    if a != "" && a[0] == b[0] == c[0] {
      StringLessTransitive(a[1..], b[1..], c[1..]);
    }
  }

  function FirstSlash(t: string): (k: nat)
    ensures k <= |t|
    ensures k < |t| ==> t[k] == '/'
    ensures forall i :: 0 <= i < k ==> t[i] != '/'
  {
    if t == "" || t[0] == '/' then 0 else 1 + FirstSlash(t[1..])
  }

  lemma TextHead(p: Path)
    requires p != [] && AllNames(p)
    ensures var t, k := Text(p), FirstSlash(Text(p));
      k > 0 && p[0] == t[..k] && (if |p| == 1 then k == |t| else k < |t| && t[k + 1..] == Text(p[1..]))
  {
    var t, n := Text(p), |p[0]|;
    assert t[..n] == p[0];
    assert forall i :: 0 <= i < n ==> t[i] == p[0][i];
    if |p| > 1 {
      assert t[n] == '/' && t[n + 1..] == Text(p[1..]);
    }
  }

  /** Different paths have different texts. */
  lemma {:induction false} TextInjective(p: Path, q: Path)
    requires AllNames(p) && AllNames(q) && Text(p) == Text(q)
    ensures p == q
    decreases |p|
  {
    if p != [] {
      TextHead(p);
    }
    if q != [] {
      TextHead(q);
    }
    if |p| > 1 && |q| > 1 {
      TextInjective(p[1..], q[1..]);
      assert p == [p[0]] + p[1..] && q == [q[0]] + q[1..];
    }
  }

  predicate EntryLess(a: Entry, b: Entry) {
    StringLess(Text(a.dest), Text(b.dest))
  }

  /** Destinations are distinct wherever this is used, so sources never decide the order. */
  function InsertSorted(s: seq<Entry>, e: Entry): (r: seq<Entry>)
    ensures multiset(r) == multiset(s) + multiset{e}
  {
    if s == [] then [e]
    else if EntryLess(e, s[0]) then
      assert multiset([e] + s) == multiset(s) + multiset{e};
      [e] + s
    else
      assert s == [s[0]] + s[1..];
      [s[0]] + InsertSorted(s[1..], e)
  }

  function Sorted(s: seq<Entry>): (r: seq<Entry>)
    ensures multiset(r) == multiset(s)
  {
    if s == [] then []
    else
      assert s == s[..|s| - 1] + [s[|s| - 1]];
      InsertSorted(Sorted(s[..|s| - 1]), s[|s| - 1])
  }

  lemma SameElements(a: seq<Entry>, b: seq<Entry>, e: Entry)
    requires multiset(a) == multiset(b)
    ensures e in a <==> e in b
  {
    assert e in multiset(a) <==> e in multiset(b);
  }

  lemma {:induction false} InsertSortedStrict(s: seq<Entry>, e: Entry)
    requires StrictlySorted(s, EntryLess) && forall x :: x in s ==> Text(x.dest) != Text(e.dest)
    ensures StrictlySorted(InsertSorted(s, e), EntryLess)
  {
    if s != [] {
      if EntryLess(e, s[0]) {
        forall i | 0 < i < |s|
          ensures EntryLess(e, s[i])
        {
          StringLessTransitive(Text(e.dest), Text(s[0].dest), Text(s[i].dest));
        }
      } else {
        InsertSortedStrict(s[1..], e);
        var r := InsertSorted(s[1..], e);
        forall i | 0 <= i < |r|
          ensures EntryLess(s[0], r[i])
        {
          StringLessStrict(Text(e.dest), Text(s[0].dest));
          assert s[0] in s;
          assert r[i] in multiset(r);
          assert multiset(r) == multiset(s[1..]) + multiset{e};
          if r[i] != e {
            assert r[i] in s[1..];
            var j :| 0 <= j < |s[1..]| && s[1..][j] == r[i];
            assert s[j + 1] == r[i];
          }
        }
      }
    }
  }

  /** Entries with distinct destinations end up in strict order. */
  lemma {:induction false} SortedStrict(s: seq<Entry>)
    requires DistinctDests(s) && forall i :: 0 <= i < |s| ==> AllNames(s[i].dest)
    ensures StrictlySorted(Sorted(s), EntryLess)
  {
    if s != [] {
      var init, e := s[..|s| - 1], s[|s| - 1];
      SortedStrict(init);
      forall x | x in Sorted(init)
        ensures Text(x.dest) != Text(e.dest)
      {
        SameElements(Sorted(init), init, x);
        var i :| 0 <= i < |init| && init[i] == x;
        assert s[i] == x;
        if Text(x.dest) == Text(e.dest) {
          TextInjective(x.dest, e.dest);
        }
      }
      InsertSortedStrict(Sorted(init), e);
    }
  }

  /** The result depends on which entries there are, not on their order. */
  lemma SortedCanonical(a: seq<Entry>, b: seq<Entry>)
    requires DistinctDests(a) && forall i :: 0 <= i < |a| ==> AllNames(a[i].dest)
    requires DistinctDests(b) && forall i :: 0 <= i < |b| ==> AllNames(b[i].dest)
    requires forall e :: e in a <==> e in b
    ensures Sorted(a) == Sorted(b)
  {
    SortedStrict(a);
    SortedStrict(b);
    forall e
      ensures e in Sorted(a) <==> e in Sorted(b)
    {
      SameElements(Sorted(a), a, e);
      SameElements(Sorted(b), b, e);
    }
    forall x: Entry, y: Entry
      ensures EntryLess(x, y) ==> !EntryLess(y, x)
    {
      StringLessStrict(Text(x.dest), Text(y.dest));
    }
    StrictlySortedUnique(Sorted(a), Sorted(b), EntryLess);
  }
}
