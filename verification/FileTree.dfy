/** A tree of files and symbolic links on disk, and POSIX path resolution in it. */
module FileTree {
  import opened Paths
  import opened Toc

  datatype Option<T> = None | Some(value: T)

  datatype Node = File(src: Path, typecode: Typecode) | Link(target: Path)

  /** Every entry that was collected, at its physical place. Directories are implied. */
  type Tree = map<Path, Node>

  function NodeOf(e: Entry): Node {
    if e.typecode == SYMLINK then Link(e.src) else File(e.src, e.typecode)
  }

  /** What collecting the entries one after the other leaves on disk. */
  function TreeOf(toc: seq<Entry>): Tree {
    if toc == [] then map[]
    else TreeOf(toc[..|toc| - 1])[toc[|toc| - 1].dest := NodeOf(toc[|toc| - 1])]
  }

  lemma {:induction false} TreeOfKeys(toc: seq<Entry>)
    ensures forall k :: k in TreeOf(toc) <==> exists i :: 0 <= i < |toc| && toc[i].dest == k
  {
    if toc != [] {
      var init := toc[..|toc| - 1];
      TreeOfKeys(init);
      forall k
        ensures k in TreeOf(toc) <==> exists i :: 0 <= i < |toc| && toc[i].dest == k
      {
        if k in TreeOf(toc) && k != toc[|toc| - 1].dest {
          assert k in TreeOf(init);
          var i :| 0 <= i < |init| && init[i].dest == k;
          assert toc[i].dest == k;
        }
        if i :| 0 <= i < |toc| && toc[i].dest == k {
          if i < |init| {
            assert init[i].dest == k;
          }
        }
      }
    }
  }

  lemma {:induction false} TreeOfAt(toc: seq<Entry>, i: nat)
    requires DistinctDests(toc) && i < |toc|
    ensures toc[i].dest in TreeOf(toc) && TreeOf(toc)[toc[i].dest] == NodeOf(toc[i])
  {
    if i < |toc| - 1 {
      TreeOfAt(toc[..|toc| - 1], i);
    }
  }

  /** The directories that exist before anything is collected. */
  const SKELETON: set<Path> :=
    {["Contents"], ["Contents", "MacOS"], ["Contents", "Resources"], ["Contents", "Frameworks"]}

  ghost predicate IsDir(fs: Tree, p: Path) {
    p in SKELETON || exists k :: k in fs && p < k
  }

  /** Resolves `rest` from the physical directory `base`, following at most `hops` links; every
      component but the last must lead to a directory, and the last one to something that exists. */
  ghost function Resolve(fs: Tree, base: Path, rest: Path, hops: nat): Option<Path>
    decreases hops, |rest|
  {
    if rest == [] then Some(base)
    else if rest[0] == ".." then
      if base == [] then None else Resolve(fs, Parent(base), rest[1..], hops)
    else if !IsName(rest[0]) then None
    else
      var p := base + [rest[0]];
      if p in fs then
        match fs[p]
        case Link(target) => if hops == 0 then None else Resolve(fs, base, target + rest[1..], hops - 1)
        case File(_, _) => if |rest| == 1 then Some(p) else None
      else if IsDir(fs, p) then Resolve(fs, p, rest[1..], hops)
      else None
  }

  /** `rest`, looked up from `base`, leads to `end`. */
  ghost predicate LeadsTo(fs: Tree, base: Path, rest: Path, end: Path) {
    exists hops: nat :: Resolve(fs, base, rest, hops) == Some(end)
  }

  lemma {:induction false} MoreHops(fs: Tree, base: Path, rest: Path, h: nat, k: nat)
    requires Resolve(fs, base, rest, h).Some? && h <= k
    ensures Resolve(fs, base, rest, k) == Resolve(fs, base, rest, h)
    decreases h, |rest|
  {
    if rest != [] {
      if rest[0] == ".." {
        MoreHops(fs, Parent(base), rest[1..], h, k);
      } else {
        var p := base + [rest[0]];
        if p in fs {
          if fs[p].Link? {
            MoreHops(fs, base, fs[p].target + rest[1..], h - 1, k - 1);
          }
        } else {
          MoreHops(fs, p, rest[1..], h, k);
        }
      }
    }
  }

  /** Enough hops for two lookups at once. */
  lemma CommonHops(fs: Tree, base: Path, a: Path, x: Path, b: Path, y: Path) returns (n: nat)
    requires LeadsTo(fs, base, a, x) && LeadsTo(fs, base, b, y)
    ensures Resolve(fs, base, a, n) == Some(x) && Resolve(fs, base, b, n) == Some(y)
  {
    var h: nat :| Resolve(fs, base, a, h) == Some(x);
    var k: nat :| Resolve(fs, base, b, k) == Some(y);
    n := if h <= k then k else h;
    MoreHops(fs, base, a, h, n);
    MoreHops(fs, base, b, k, n);
  }

  /** A lookup has at most one answer. */
  lemma LeadsToUnique(fs: Tree, base: Path, rest: Path, a: Path, b: Path)
    requires LeadsTo(fs, base, rest, a) && LeadsTo(fs, base, rest, b)
    ensures a == b
  {
    var n := CommonHops(fs, base, rest, a, rest, b);
  }

  /** Looking up `a` and then, from the directory reached, `b`, is looking up `a + b`. */
  lemma {:induction false} ResolveCompose(fs: Tree, base: Path, a: Path, mid: Path, b: Path, h: nat, k: nat)
    requires Resolve(fs, base, a, h) == Some(mid) && mid !in fs
    requires Resolve(fs, mid, b, k).Some?
    ensures Resolve(fs, base, a + b, h + k) == Resolve(fs, mid, b, k)
    decreases h, |a|
  {
    if a == [] {
      assert a + b == b;
      MoreHops(fs, mid, b, k, h + k);
    } else {
      assert (a + b)[0] == a[0] && (a + b)[1..] == a[1..] + b;
      if a[0] == ".." {
        ResolveCompose(fs, Parent(base), a[1..], mid, b, h, k);
      } else {
        var p := base + [a[0]];
        if p in fs {
          if fs[p].Link? {
            var t := fs[p].target;
            assert (t + a[1..]) + b == t + (a[1..] + b);
            ResolveCompose(fs, base, t + a[1..], mid, b, h - 1, k);
          }
        } else {
          ResolveCompose(fs, p, a[1..], mid, b, h, k);
        }
      }
    }
  }

  lemma LeadsToCompose(fs: Tree, base: Path, a: Path, mid: Path, b: Path, end: Path)
    requires LeadsTo(fs, base, a, mid) && mid !in fs && LeadsTo(fs, mid, b, end)
    ensures LeadsTo(fs, base, a + b, end)
  {
    var h: nat :| Resolve(fs, base, a, h) == Some(mid);
    var k: nat :| Resolve(fs, mid, b, k) == Some(end);
    ResolveCompose(fs, base, a, mid, b, h, k);
  }

  /** Conversely, looking up `a + b` goes through the directory that `a` leads to. */
  lemma {:induction false} ResolveSplit(fs: Tree, base: Path, a: Path, mid: Path, b: Path, n: nat, end: Path)
    requires Resolve(fs, base, a, n) == Some(mid) && mid !in fs
    requires Resolve(fs, base, a + b, n) == Some(end)
    ensures LeadsTo(fs, mid, b, end)
    decreases n, |a|
  {
    if a == [] {
      assert a + b == b;
    } else {
      assert (a + b)[0] == a[0] && (a + b)[1..] == a[1..] + b;
      if a[0] == ".." {
        ResolveSplit(fs, Parent(base), a[1..], mid, b, n, end);
      } else {
        var p := base + [a[0]];
        if p in fs {
          if fs[p].Link? {
            var t := fs[p].target;
            assert (t + a[1..]) + b == t + (a[1..] + b);
            ResolveSplit(fs, base, t + a[1..], mid, b, n - 1, end);
          }
        } else {
          ResolveSplit(fs, p, a[1..], mid, b, n, end);
        }
      }
    }
  }

  lemma LeadsToSplit(fs: Tree, base: Path, a: Path, mid: Path, b: Path, end: Path)
    requires LeadsTo(fs, base, a, mid) && mid !in fs && LeadsTo(fs, base, a + b, end)
    ensures LeadsTo(fs, mid, b, end)
  {
    var n := CommonHops(fs, base, a, mid, a + b, end);
    ResolveSplit(fs, base, a, mid, b, n, end);
  }

  /** No entry lies at or below another one: parent directories are never files or links. */
  ghost predicate PrefixFree(fs: Tree) {
    && (forall k, l :: k in fs && l in fs && k < l ==> false)
    && (forall k :: k in fs ==> k !in SKELETON && k != [] && !exists d :: d in SKELETON && k < d)
  }

  lemma {:induction false} ApartIsPrefixFree(toc: seq<Entry>)
    requires forall i, j :: 0 <= i < |toc| && 0 <= j < |toc| && i != j ==> !(toc[i].dest <= toc[j].dest)
    requires forall i :: 0 <= i < |toc| ==> |toc[i].dest| >= 3
    ensures DistinctDests(toc) && PrefixFree(TreeOf(toc))
  {
    TreeOfKeys(toc);
  }

  lemma DirsHaveNoEntry(fs: Tree, p: Path)
    requires PrefixFree(fs) && IsDir(fs, p)
    ensures p !in fs
  {
  }

  /** In a prefix-free tree the physical path of a directory or an entry leads where it says. */
  lemma {:induction false} PhysicalDir(fs: Tree, base: Path, rest: Path)
    requires PrefixFree(fs) && AllNames(rest) && IsDir(fs, base + rest)
    ensures Resolve(fs, base, rest, 0) == Some(base + rest)
    decreases |rest|
  {
    if rest == [] {
      assert base + rest == base;
    } else {
      var p := base + [rest[0]];
      assert p + rest[1..] == base + rest;
      assert p <= base + rest;
      DirPrefix(fs, p, base + rest);
      PhysicalDir(fs, p, rest[1..]);
    }
  }

  lemma DirPrefix(fs: Tree, p: Path, q: Path)
    requires PrefixFree(fs) && p != [] && p <= q && IsDir(fs, q)
    ensures IsDir(fs, p) && p !in fs
  {
    if p != q {
      if q in SKELETON {
        assert p == ["Contents"];
      } else {
        var k :| k in fs && q < k;
        assert p < k;
      }
    }
    DirsHaveNoEntry(fs, p);
  }

  lemma PhysicalFile(fs: Tree, base: Path, rest: Path)
    requires PrefixFree(fs) && AllNames(rest) && rest != []
    requires base + rest in fs && fs[base + rest].File?
    ensures Resolve(fs, base, rest, 0) == Some(base + rest)
    decreases |rest|
  {
    var p := base + [rest[0]];
    assert p + rest[1..] == base + rest;
    if |rest| > 1 {
      assert p < base + rest;
      assert IsDir(fs, p);
      DirsHaveNoEntry(fs, p);
      PhysicalFile(fs, p, rest[1..]);
    } else {
      assert p == base + rest;
    }
  }

  /** "..", as often as `base` is longer than `top`, climbs to `top`. */
  lemma {:induction false} Climb(fs: Tree, top: Path, below: Path, rest: Path, h: nat)
    ensures Resolve(fs, top + below, Ups(|below|) + rest, h) == Resolve(fs, top, rest, h)
    decreases |below|
  {
    var r := Ups(|below|) + rest;
    if below == [] {
      assert top + below == top && r == rest;
    } else {
      var n := |below| - 1;
      assert r[0] == ".." && r[1..] == Ups(n) + rest;
      assert Parent(top + below) == top + below[..n];
      Climb(fs, top, below[..n], rest, h);
    }
  }

  /** A link that climbs to `top` and goes down again to `down`. */
  lemma FollowCrossLink(fs: Tree, top: Path, below: Path, name: string, down: Path, rest: Path, end: Path)
    requires IsName(name) && top + below + [name] in fs
    requires fs[top + below + [name]] == Link(Ups(|below|) + down)
    requires LeadsTo(fs, top, down + rest, end)
    ensures LeadsTo(fs, top + below, [name] + rest, end)
  {
    var h: nat :| Resolve(fs, top, down + rest, h) == Some(end);
    var r := [name] + rest;
    assert r[0] == name && r[1..] == rest;
    assert Ups(|below|) + down + rest == Ups(|below|) + (down + rest);
    Climb(fs, top, below, down + rest, h);
    assert Resolve(fs, top + below, r, h + 1) == Some(end);
  }

  /** Conversely, what lies beyond such a link is found from `top`. */
  lemma UnfollowCrossLink(fs: Tree, top: Path, below: Path, name: string, down: Path, rest: Path, end: Path)
    requires IsName(name) && top + below + [name] in fs
    requires fs[top + below + [name]] == Link(Ups(|below|) + down)
    requires LeadsTo(fs, top + below, [name] + rest, end)
    ensures LeadsTo(fs, top, down + rest, end)
  {
    var r := [name] + rest;
    var h: nat :| Resolve(fs, top + below, r, h) == Some(end);
    assert r[0] == name && r[1..] == rest;
    assert Ups(|below|) + down + rest == Ups(|below|) + (down + rest);
    Climb(fs, top, below, down + rest, h - 1);
    assert Resolve(fs, top, down + rest, h - 1) == Some(end);
  }

  /** What is neither collected nor a directory is not found. */
  lemma NameMissing(fs: Tree, base: Path, rest: Path, end: Path)
    requires rest != [] && IsName(rest[0]) && base + [rest[0]] !in fs && !IsDir(fs, base + [rest[0]])
    ensures !LeadsTo(fs, base, rest, end)
  {
    forall h: nat
      ensures Resolve(fs, base, rest, h) == None
    {
    }
  }

  /** A path of names without a file or a link on it leads nowhere unless it is a directory. */
  lemma {:induction false} PathMissing(fs: Tree, base: Path, rest: Path, h: nat)
    requires rest != [] && AllNames(rest) && !IsDir(fs, base + rest)
    requires forall k :: k in fs && base < k ==> !(k <= base + rest)
    ensures Resolve(fs, base, rest, h) == None
    decreases |rest|
  {
    var p := base + [rest[0]];
    assert p + rest[1..] == base + rest;
    assert base < p <= base + rest;
    if |rest| == 1 {
      assert p == base + rest;
    } else {
      PathMissing(fs, p, rest[1..], h);
    }
  }
}
