/** Collected files that are symbolic links: `toc_process_symbolic_links`. */
module SymbolicLinks {
  import opened Paths
  import opened Toc
  import opened FileTree

  /** The file system as seen by this code: which paths are links and what they say, where a path
      really leads, and the working directory. */
  datatype Disk = Disk(links: map<Path, Path>, realpath: Path -> Path, cwd: Path)

  ghost function Dests(toc: seq<Entry>): set<Path> {
    set i | 0 <= i < |toc| :: toc[i].dest
  }

  /** `dirname(p)` joined with the text of a link at `p`, normalized. */
  function Followed(p: Path, target: Path): Path {
    NormPath(Parent(p) + target)
  }

  predicate CanFollow(disk: Disk, src: Path) {
    src in disk.links && !IsAbsolute(disk.links[src])
  }

  /** The state of the loop: the reference that has been followed so far. */
  function Search(disk: Disk, e: Entry, dests: set<Path>, src: Path, dest: Path, seen: set<Path>): Option<Path>
    decreases disk.links.Keys - seen
  {
    if src in seen || !CanFollow(disk, src) then None
    else
      var src', dest' := Followed(src, disk.links[src]), Followed(dest, disk.links[src]);
      if dest' in dests && disk.realpath(e.src) == disk.realpath(src') then Some(dest')
      else Search(disk, e, dests, src', dest', seen + {src})
  }

  function LinkEntry(disk: Disk, e: Entry, target: Path): Entry {
    Entry(e.dest, RelPath(disk.cwd, target, Parent(e.dest)), SYMLINK)
  }

  function Preserved(disk: Disk, e: Entry, dests: set<Path>): Option<Entry> {
    match Search(disk, e, dests, e.src, e.dest, {})
    case None => None
    case Some(target) => Some(LinkEntry(disk, e, target))
  }

  /** `_try_preserving_symbolic_link`. It terminates even when the links go round in circles. */
  method TryPreservingSymbolicLink(disk: Disk, e: Entry, dests: set<Path>) returns (r: Option<Entry>)
    ensures r == Preserved(disk, e, dests)
  {
    var seen: set<Path> := {};
    var src, dest := e.src, e.dest;
    while true
      invariant Search(disk, e, dests, src, dest, seen) == Search(disk, e, dests, e.src, e.dest, {})
      decreases disk.links.Keys - seen
    {
      if src in seen {
        break;
      }
      var before := seen;
      seen := seen + {src};
      if src !in disk.links {
        break;
      }
      var target := disk.links[src];
      if IsAbsolute(target) {
        break;
      }
      dest := Followed(dest, target);
      src := Followed(src, target);
      if dest in dests {
        if disk.realpath(e.src) == disk.realpath(src) {
          return Some(Entry(e.dest, RelPath(disk.cwd, dest, Parent(e.dest)), SYMLINK));
        }
      }
    }
    return None;
  }

  /** Entries that are looked at: not yet links, with a source, and the source is a link. */
  predicate IsCandidate(disk: Disk, e: Entry) {
    e.typecode != SYMLINK && e.src != [] && e.src in disk.links
  }

  function ProcessEntry(disk: Disk, e: Entry, dests: set<Path>): Entry {
    if !IsCandidate(disk, e) then e
    else match Preserved(disk, e, dests)
         case None => e
         case Some(link) => link
  }

  method ProcessSymbolicLinks(disk: Disk, toc: seq<Entry>) returns (r: seq<Entry>)
    ensures |r| == |toc|
    ensures forall i :: 0 <= i < |toc| ==> r[i] == ProcessEntry(disk, toc[i], Dests(toc))
  {
    var dests := set i | 0 <= i < |toc| :: toc[i].dest;
    r := [];
    for i := 0 to |toc|
      invariant |r| == i
      invariant forall k :: 0 <= k < i ==> r[k] == ProcessEntry(disk, toc[k], dests)
    {
      var e := toc[i];
      if e.typecode == SYMLINK || e.src == [] || e.src !in disk.links {
        r := r + [e];
        continue;
      }
      var link := TryPreservingSymbolicLink(disk, e, dests);
      if link.Some? {
        r := r + [link.value];
      } else {
        r := r + [e];
      }
    }
  }

  // ---- Which link is preserved ----

  /** The source and the destination after following `k` links. */
  function Chain(disk: Disk, e: Entry, k: nat): (Path, Path) {
    if k == 0 then (e.src, e.dest)
    else
      var (src, dest) := Chain(disk, e, k - 1);
      if src in disk.links then (Followed(src, disk.links[src]), Followed(dest, disk.links[src])) else (src, dest)
  }

  ghost predicate Follows(disk: Disk, e: Entry, i: nat) {
    CanFollow(disk, Chain(disk, e, i).0)
  }

  ghost predicate Differ(disk: Disk, e: Entry, i: nat, j: nat) {
    Chain(disk, e, i).0 != Chain(disk, e, j).0
  }

  /** `k` links can be followed, all relative, without meeting a link twice. */
  ghost predicate IsReached(disk: Disk, e: Entry, k: nat) {
    && (forall i: nat :: i < k ==> Follows(disk, e, i))
    && (forall i: nat, j: nat :: i < j < k ==> Differ(disk, e, i, j))
  }

  /** After `k` links: a collected destination, and the source is really the same file. */
  ghost predicate IsHit(disk: Disk, e: Entry, dests: set<Path>, k: nat) {
    && k > 0 && IsReached(disk, e, k)
    && Chain(disk, e, k).1 in dests && disk.realpath(e.src) == disk.realpath(Chain(disk, e, k).0)
  }

  ghost predicate IsFirstHit(disk: Disk, e: Entry, dests: set<Path>, k: nat) {
    IsHit(disk, e, dests, k) && forall j :: 0 <= j < k ==> !IsHit(disk, e, dests, j)
  }

  /** The sources of the first `n` links. */
  ghost function SeenBefore(disk: Disk, e: Entry, n: nat): set<Path> {
    if n == 0 then {} else SeenBefore(disk, e, n - 1) + {Chain(disk, e, n - 1).0}
  }

  lemma {:induction false} SeenIsChain(disk: Disk, e: Entry, n: nat, p: Path)
    ensures p in SeenBefore(disk, e, n) <==> exists i: nat :: i < n && IsAt(disk, e, i, p)
  {
    if n > 0 {
      SeenIsChain(disk, e, n - 1, p);
      assert p in SeenBefore(disk, e, n) <==> p in SeenBefore(disk, e, n - 1) || IsAt(disk, e, n - 1, p);
    }
  }

  ghost predicate IsAt(disk: Disk, e: Entry, i: nat, p: Path) {
    Chain(disk, e, i).0 == p
  }

  lemma {:induction false} SearchFrom(disk: Disk, e: Entry, dests: set<Path>, n: nat)
    requires IsReached(disk, e, n) && forall j :: 0 <= j <= n ==> !IsHit(disk, e, dests, j)
    ensures IsFound(disk, e, dests,
                    Search(disk, e, dests, Chain(disk, e, n).0, Chain(disk, e, n).1, SeenBefore(disk, e, n)))
    decreases disk.links.Keys - SeenBefore(disk, e, n)
  {
    var src := Chain(disk, e, n).0;
    if src in SeenBefore(disk, e, n) || !CanFollow(disk, src) {
      NoHitBeyond(disk, e, dests, n);
    } else {
      OneMore(disk, e, n);
      assert SeenBefore(disk, e, n + 1) == SeenBefore(disk, e, n) + {src};
      SearchStep(disk, e, dests, n);
      if IsHit(disk, e, dests, n + 1) {
        FoundHere(disk, e, dests, n + 1);
      } else {
        SearchFrom(disk, e, dests, n + 1);
      }
    }
  }

  /** A result of the search is right: it is the destination of the first hit. */
  ghost predicate IsFound(disk: Disk, e: Entry, dests: set<Path>, r: Option<Path>) {
    && (r.Some? <==> exists k :: IsFirstHit(disk, e, dests, k))
    && (forall k :: IsFirstHit(disk, e, dests, k) ==> r == Some(Chain(disk, e, k).1))
  }

  lemma SearchStep(disk: Disk, e: Entry, dests: set<Path>, n: nat)
    requires Chain(disk, e, n).0 !in SeenBefore(disk, e, n) && CanFollow(disk, Chain(disk, e, n).0)
    requires IsReached(disk, e, n + 1)
    ensures Search(disk, e, dests, Chain(disk, e, n).0, Chain(disk, e, n).1, SeenBefore(disk, e, n)) ==
      if IsHit(disk, e, dests, n + 1) then Some(Chain(disk, e, n + 1).1)
      else Search(disk, e, dests, Chain(disk, e, n + 1).0, Chain(disk, e, n + 1).1, SeenBefore(disk, e, n + 1))
  {
  }

  lemma OneMore(disk: Disk, e: Entry, n: nat)
    requires IsReached(disk, e, n) && CanFollow(disk, Chain(disk, e, n).0)
    requires Chain(disk, e, n).0 !in SeenBefore(disk, e, n)
    ensures IsReached(disk, e, n + 1)
  {
    assert Follows(disk, e, n);
    forall i: nat | i < n
      ensures Differ(disk, e, i, n)
    {
      SeenIsChain(disk, e, n, Chain(disk, e, n).0);
      assert !IsAt(disk, e, i, Chain(disk, e, n).0);
    }
  }

  lemma NotReachedBeyond(disk: Disk, e: Entry, n: nat, k: nat)
    requires Chain(disk, e, n).0 in SeenBefore(disk, e, n) || !CanFollow(disk, Chain(disk, e, n).0)
    requires k > n
    ensures !IsReached(disk, e, k)
  {
    if CanFollow(disk, Chain(disk, e, n).0) {
      SeenIsChain(disk, e, n, Chain(disk, e, n).0);
      var i: nat :| i < n && IsAt(disk, e, i, Chain(disk, e, n).0);
      assert !Differ(disk, e, i, n);
    } else {
      assert !Follows(disk, e, n);
    }
  }

  lemma NoHitBeyond(disk: Disk, e: Entry, dests: set<Path>, n: nat)
    requires forall j :: 0 <= j <= n ==> !IsHit(disk, e, dests, j)
    requires Chain(disk, e, n).0 in SeenBefore(disk, e, n) || !CanFollow(disk, Chain(disk, e, n).0)
    ensures forall k: nat :: !IsHit(disk, e, dests, k)
  {
    forall k: nat
      ensures !IsHit(disk, e, dests, k)
    {
      if k > n {
        NotReachedBeyond(disk, e, n, k);
      }
    }
  }

  lemma FirstHitIs(disk: Disk, e: Entry, dests: set<Path>, n: nat)
    requires IsHit(disk, e, dests, n) && forall j :: 0 <= j < n ==> !IsHit(disk, e, dests, j)
    ensures forall k: nat :: IsFirstHit(disk, e, dests, k) <==> k == n
  {
  }

  lemma FoundHere(disk: Disk, e: Entry, dests: set<Path>, n: nat)
    requires IsHit(disk, e, dests, n) && forall j :: 0 <= j < n ==> !IsHit(disk, e, dests, j)
    ensures IsFound(disk, e, dests, Some(Chain(disk, e, n).1))
  {
    FirstHitIs(disk, e, dests, n);
    assert IsFirstHit(disk, e, dests, n);
  }

  /** What the search finds: the destination of the first hit, if there is any. */
  lemma PreservedMeaning(disk: Disk, e: Entry, dests: set<Path>)
    ensures Preserved(disk, e, dests).Some? <==> exists k :: IsFirstHit(disk, e, dests, k)
    ensures forall k :: IsFirstHit(disk, e, dests, k) ==>
      Preserved(disk, e, dests) == Some(LinkEntry(disk, e, Chain(disk, e, k).1))
  {
    assert SeenBefore(disk, e, 0) == {};
    SearchFrom(disk, e, dests, 0);
  }

  /** Following a link: what its text leads to, read from the directory of the link. */
  lemma FollowedMeaning(cwd: Path, p: Path, text: Path)
    ensures AbsPath(cwd, Followed(p, text)) == AbsPath(cwd, Parent(p) + text) && IsNormal(Followed(p, text))
  {
    AbsPathOfNormal(cwd, Parent(p) + text);
    NormPathIdempotent(Parent(p) + text);
  }

  /** One more link can be followed exactly if the source reached is a link with a relative text that was
      not followed before. */
  lemma ReachedMeaning(disk: Disk, e: Entry, k: nat)
    ensures IsReached(disk, e, 0)
    ensures var src := Chain(disk, e, k).0;
      IsReached(disk, e, k + 1) <==>
        && IsReached(disk, e, k) && src in disk.links && !IsAbsolute(disk.links[src])
        && forall j: nat :: j < k ==> Differ(disk, e, j, k)
  {
    if IsReached(disk, e, k + 1) {
      assert Follows(disk, e, k);
    }
    if IsReached(disk, e, k) && Follows(disk, e, k) && forall j: nat :: j < k ==> Differ(disk, e, j, k) {
      NextIsReached(disk, e, k);
    }
  }

  lemma NextIsReached(disk: Disk, e: Entry, k: nat)
    requires IsReached(disk, e, k) && Follows(disk, e, k) && forall j: nat :: j < k ==> Differ(disk, e, j, k)
    ensures IsReached(disk, e, k + 1)
  {
  }

  /** The chain starts with the entry. The next source is what the link leads to, and the next destination
      is what a link with the same text, put at the destination, leads to. */
  lemma ChainMeaning(disk: Disk, e: Entry, k: nat)
    requires Chain(disk, e, k).0 in disk.links
    ensures Chain(disk, e, 0) == (e.src, e.dest)
    ensures var (src, dest) := Chain(disk, e, k);
      var (src', dest') := Chain(disk, e, k + 1);
      && AbsPath(disk.cwd, src') == AbsPath(disk.cwd, Parent(src) + disk.links[src]) && IsNormal(src')
      && AbsPath(disk.cwd, dest') == AbsPath(disk.cwd, Parent(dest) + disk.links[src]) && IsNormal(dest')
  {
    var (src, dest) := Chain(disk, e, k);
    FollowedMeaning(disk.cwd, src, disk.links[src]);
    FollowedMeaning(disk.cwd, dest, disk.links[src]);
  }

  /** An entry is changed if and only if it is not a link yet, its source is one, and following it leads
      to a collected destination for the same file; then it becomes a link to the first of these. */
  lemma ProcessedMeaning(disk: Disk, toc: seq<Entry>, i: nat)
    requires i < |toc|
    ensures var e, r := toc[i], ProcessEntry(disk, toc[i], Dests(toc));
      && (r != e <==>
          e.typecode != SYMLINK && e.src != [] && e.src in disk.links
          && exists k :: IsFirstHit(disk, e, Dests(toc), k))
      && (r != e ==>
          r.dest == e.dest && r.typecode == SYMLINK
          && forall k :: IsFirstHit(disk, e, Dests(toc), k) ==>
               r.src == RelPath(disk.cwd, Chain(disk, e, k).1, Parent(e.dest)))
  {
    PreservedMeaning(disk, toc[i], Dests(toc));
  }

  /** A hit is a collected destination whose source is really the same file, one step or more away. */
  lemma HitMeaning(disk: Disk, e: Entry, toc: seq<Entry>, k: nat)
    ensures IsHit(disk, e, Dests(toc), k) <==>
      && k > 0 && IsReached(disk, e, k) && disk.realpath(e.src) == disk.realpath(Chain(disk, e, k).0)
      && exists j :: 0 <= j < |toc| && toc[j].dest == Chain(disk, e, k).1
  {
  }

  // ---- Meaning is preserved ----

  /** Read from the directory of its own destination, a new link leads to a collected destination. */
  lemma NewLinkResolves(disk: Disk, toc: seq<Entry>, i: nat) returns (j: nat, k: nat)
    requires IsPlace(disk.cwd) && i < |toc| && IsCandidate(disk, toc[i])
    requires ProcessEntry(disk, toc[i], Dests(toc)) != toc[i]
    ensures j < |toc| && IsFirstHit(disk, toc[i], Dests(toc), k) && toc[j].dest == Chain(disk, toc[i], k).1
    ensures var link := ProcessEntry(disk, toc[i], Dests(toc));
      && link.dest == toc[i].dest && link.typecode == SYMLINK
      && AbsPath(disk.cwd, Parent(link.dest) + link.src) == AbsPath(disk.cwd, toc[j].dest)
  {
    var e := toc[i];
    PreservedMeaning(disk, e, Dests(toc));
    k :| IsFirstHit(disk, e, Dests(toc), k);
    var target := Chain(disk, e, k).1;
    assert target in Dests(toc);
    j :| 0 <= j < |toc| && toc[j].dest == target;
    RelPathRoundTrip(disk.cwd, target, Parent(e.dest));
  }

  /** Each destination that following links can lead to is collected from the source that
      following them leads to. */
  ghost predicate CollectsFollowed(disk: Disk, toc: seq<Entry>) {
    forall i, j, k: nat | 0 <= i < |toc| && 0 <= j < |toc| && IsCandidate(disk, toc[i]) && k > 0
        && IsReached(disk, toc[i], k) && toc[j].dest == Chain(disk, toc[i], k).1 ::
      toc[j].src == Chain(disk, toc[i], k).0 && toc[j].typecode != SYMLINK
  }

  /** The source links are acyclic: following one lowers a rank. */
  ghost predicate IsAcyclic(disk: Disk, rank: Path -> nat) {
    forall src :: CanFollow(disk, src) ==> rank(Followed(src, disk.links[src])) < rank(src)
  }

  lemma {:induction false} RankFalls(disk: Disk, e: Entry, k: nat, rank: Path -> nat)
    requires IsAcyclic(disk, rank) && IsReached(disk, e, k)
    ensures rank(Chain(disk, e, k).0) + k <= rank(e.src)
  {
    if k > 0 {
      RankFalls(disk, e, k - 1, rank);
      assert Follows(disk, e, k - 1);
    }
  }

  /** `path` follows the new links from one TOC index to the next. */
  ghost predicate IsChase(disk: Disk, toc: seq<Entry>, path: seq<nat>) {
    && path != [] && (forall m :: 0 <= m < |path| ==> path[m] < |toc|)
    && forall m :: 0 <= m < |path| - 1 ==> LinksTo(disk, toc, path[m], path[m + 1])
  }

  ghost predicate LinksTo(disk: Disk, toc: seq<Entry>, i: nat, j: nat) {
    && i < |toc| && j < |toc|
    && var link := ProcessEntry(disk, toc[i], Dests(toc));
    && link != toc[i] && link.typecode == SYMLINK
    && AbsPath(disk.cwd, Parent(link.dest) + link.src) == AbsPath(disk.cwd, toc[j].dest)
  }

  ghost predicate CanGoOn(disk: Disk, toc: seq<Entry>, i: nat) {
    exists j: nat :: LinksTo(disk, toc, i, j)
  }

  ghost predicate IsKept(disk: Disk, toc: seq<Entry>, i: nat) {
    i < |toc| && ProcessEntry(disk, toc[i], Dests(toc)) == toc[i]
  }

  /** Chasing the new links from any entry can end, at an entry that is kept as it was and whose source
      is really the same file. */
  lemma {:induction false} SomeChaseEnds(disk: Disk, toc: seq<Entry>, i: nat, rank: Path -> nat)
    returns (path: seq<nat>)
    requires IsPlace(disk.cwd) && IsAcyclic(disk, rank) && CollectsFollowed(disk, toc)
    requires i < |toc| && toc[i].typecode != SYMLINK
    ensures IsChase(disk, toc, path) && path[0] == i && |path| <= rank(toc[i].src) + 1
    ensures IsSameFile(disk, toc, i, path[|path| - 1])
    decreases rank(toc[i].src)
  {
    if IsKept(disk, toc, i) {
      path := [i];
    } else {
      var j, k := NewLinkResolves(disk, toc, i);
      RankFalls(disk, toc[i], k, rank);
      var rest := SomeChaseEnds(disk, toc, j, rank);
      path := [i] + rest;
      assert LinksTo(disk, toc, i, j);
      forall m | 0 <= m < |path| - 1
        ensures LinksTo(disk, toc, path[m], path[m + 1])
      {
        assert m > 0 ==> path[m] == rest[m - 1] && path[m + 1] == rest[m];
      }
    }
  }

  /** `j` is kept as it was, is no link, and its source is really the same file as that of `i`. */
  ghost predicate IsSameFile(disk: Disk, toc: seq<Entry>, i: nat, j: nat) {
    && i < |toc| && IsKept(disk, toc, j) && toc[j].typecode != SYMLINK
    && disk.realpath(toc[j].src) == disk.realpath(toc[i].src)
  }

  /** No two entries are collected to the same place, however their destinations are spelled. */
  ghost predicate PlacesDiffer(disk: Disk, toc: seq<Entry>) {
    forall i, j :: 0 <= i < j < |toc| ==> AbsPath(disk.cwd, toc[i].dest) != AbsPath(disk.cwd, toc[j].dest)
  }

  /** Distinct relative destinations in normal form, below the directory of the bundle, do. */
  lemma NamesDiffer(disk: Disk, toc: seq<Entry>)
    requires IsPlace(disk.cwd) && DistinctDests(toc) && forall i :: 0 <= i < |toc| ==> AllNames(toc[i].dest)
    ensures PlacesDiffer(disk, toc)
  {
    forall i, j | 0 <= i < j < |toc|
      ensures AbsPath(disk.cwd, toc[i].dest) != AbsPath(disk.cwd, toc[j].dest)
    {
      NamesBelow(disk.cwd, toc[i].dest);
      NamesBelow(disk.cwd, toc[j].dest);
      assert (disk.cwd + toc[i].dest)[|disk.cwd|..] == toc[i].dest;
      assert (disk.cwd + toc[j].dest)[|disk.cwd|..] == toc[j].dest;
    }
  }

  /** A kept entry links to nothing; a link links to one entry only. */
  lemma LinksToOne(disk: Disk, toc: seq<Entry>, i: nat, j: nat, k: nat)
    requires PlacesDiffer(disk, toc) && LinksTo(disk, toc, i, j) && LinksTo(disk, toc, i, k)
    ensures j == k && !IsKept(disk, toc, i)
  {
  }

  lemma {:induction false} ChaseIsPrefix(disk: Disk, toc: seq<Entry>, chase: seq<nat>, path: seq<nat>, n: nat)
    requires PlacesDiffer(disk, toc) && IsChase(disk, toc, chase) && IsChase(disk, toc, path) && chase[0] == path[0]
    requires IsKept(disk, toc, path[|path| - 1]) && n < |chase|
    ensures n < |path| && chase[n] == path[n]
  {
    if n > 0 {
      ChaseIsPrefix(disk, toc, chase, path, n - 1);
      assert LinksTo(disk, toc, chase[n - 1], chase[n]);
      LinksToOne(disk, toc, chase[n - 1], chase[n], chase[n]);
      assert LinksTo(disk, toc, path[n - 1], path[n]);
      LinksToOne(disk, toc, chase[n - 1], chase[n], path[n]);
    }
  }

  /** Main result on links: every chase of new links from an entry runs along the same path, which ends;
      a chase that cannot be continued has reached the end, an entry that is kept as it was and whose
      source is really the same file. */
  lemma ChaseEnds(disk: Disk, toc: seq<Entry>, chase: seq<nat>, rank: Path -> nat) returns (path: seq<nat>)
    requires IsPlace(disk.cwd) && IsAcyclic(disk, rank) && CollectsFollowed(disk, toc) && PlacesDiffer(disk, toc)
    requires IsChase(disk, toc, chase) && toc[chase[0]].typecode != SYMLINK
    ensures IsChase(disk, toc, path) && chase <= path && |path| <= rank(toc[chase[0]].src) + 1
    ensures IsSameFile(disk, toc, chase[0], path[|path| - 1])
    ensures CanGoOn(disk, toc, chase[|chase| - 1]) <==> chase != path
  {
    path := SomeChaseEnds(disk, toc, chase[0], rank);
    forall n: nat | n < |chase|
      ensures n < |path| && chase[n] == path[n]
    {
      ChaseIsPrefix(disk, toc, chase, path, n);
    }
    var last := |chase| - 1;
    assert last < |path| && chase[last] == path[last];
    if chase != path {
      assert |chase| < |path|;
      assert LinksTo(disk, toc, path[last], path[last + 1]);
    }
  }
}
