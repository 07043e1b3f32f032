/** What becomes of the entries that a MERGE run meets, in terms of the entries met before. */
module MergeHistory {
  import opened Paths
  import opened Toc
  import opened Ordering
  import opened Sequences

  /** An entry and the executable whose table of contents it comes from. */
  datatype Event = Event(entry: Entry, exe: Path)

  predicate IsLink(e: Entry) {
    e.typecode == SYMLINK
  }

  /** Links are compared with links, all other entries with one another. */
  predicate SameKey(a: Entry, b: Entry) {
    a.dest == b.dest && a.src == b.src && (IsLink(a) <==> IsLink(b))
  }

  /** The first event with the key of `e`; |h| if there is none. */
  function FirstWith(h: seq<Event>, e: Entry): (k: nat)
    ensures k <= |h|
    ensures k < |h| ==> SameKey(h[k].entry, e)
    ensures forall i :: 0 <= i < k ==> !SameKey(h[i].entry, e)
  {
    FirstFrom(h, e, 0)
  }

  function FirstFrom(h: seq<Event>, e: Entry, i: nat): (k: nat)
    requires i <= |h|
    ensures i <= k <= |h|
    ensures k < |h| ==> SameKey(h[k].entry, e)
    ensures forall j :: i <= j < k ==> !SameKey(h[j].entry, e)
    decreases |h| - i
  {
    if i == |h| || SameKey(h[i].entry, e) then i else FirstFrom(h, e, i + 1)
  }

  lemma FirstWithPrefix(h: seq<Event>, n: nat, e: Entry)
    requires n <= |h|
    ensures FirstWith(h, e) < n ==> FirstWith(h[..n], e) == FirstWith(h, e)
    ensures FirstWith(h, e) >= n ==> FirstWith(h[..n], e) == n
  {
    var j, k := FirstWith(h, e), FirstWith(h[..n], e);
    if k < n {
      assert h[..n][k] == h[k];
    }
    if j < n {
      assert h[..n][j] == h[j];
    }
  }

  // ---- References ----

  /** A path as text: components joined with "/", and "." for the current directory. */
  function Spelling(p: Path): string {
    if p == [] then "." else if p[0] == ROOT then ROOT + Text(p[1..]) else Text(p)
  }

  /** The path from the directory of `exe` to the executable `owner`. */
  function Reference(cwd: Path, owner: Path, exe: Path): Path {
    RelPath(cwd, owner, Parent(exe))
  }

  /** The test that is meant to recognize references of an executable to itself. */
  predicate LooksLikeSelf(cwd: Path, owner: Path, exe: Path) {
    EndsWith(Spelling(Reference(cwd, owner, exe)), Spelling(exe))
  }

  datatype Fate = Kept(entry: Entry) | Dropped | Referenced(entry: Entry)

  /** What becomes of `e` from `exe` after the events `h`. */
  function FateOf(cwd: Path, h: seq<Event>, e: Entry, exe: Path): Fate {
    var j := FirstWith(h, e);
    if j == |h| then Kept(e)
    else if IsLink(e) then Referenced(e)
    else if LooksLikeSelf(cwd, h[j].exe, exe) then Dropped
    else Referenced(Entry(e.dest, Reference(cwd, h[j].exe, exe), DEPENDENCY))
  }

  function FateAt(cwd: Path, h: seq<Event>, i: nat): Fate
    requires i < |h|
  {
    FateOf(cwd, h[..i], h[i].entry, h[i].exe)
  }

  /** `fates` says what became of every entry of `h`. */
  ghost predicate AreFates(cwd: Path, h: seq<Event>, fates: seq<Fate>) {
    |fates| == |h| && forall i: nat :: IsFate(cwd, h, fates, i)
  }

  ghost predicate IsFate(cwd: Path, h: seq<Event>, fates: seq<Fate>, i: nat) {
    i < |h| && i < |fates| ==> fates[i] == FateAt(cwd, h, i)
  }

  /** The entries that stay, among those from `a` to `b`. */
  function Keeps(fates: seq<Fate>, a: nat, b: nat): seq<Entry>
    requires a <= b <= |fates|
    decreases b
  {
    if a == b then [] else Keeps(fates, a, b - 1) + if fates[b - 1].Kept? then [fates[b - 1].entry] else []
  }

  /** The entries that become references, among those from `a` to `b`. */
  function References(fates: seq<Fate>, a: nat, b: nat): seq<Entry>
    requires a <= b <= |fates|
    decreases b
  {
    if a == b then [] else References(fates, a, b - 1) + if fates[b - 1].Referenced? then [fates[b - 1].entry] else []
  }

  lemma PickNext(at: seq<nat>, picked: seq<Entry>, n: nat, e: Entry) returns (next: seq<nat>)
    requires Ascending(at) && (forall i: nat :: i in at ==> i < n) && |at| == |picked|
    ensures next == at + [n] && Ascending(next) && |next| == |picked + [e]|
    ensures forall i: nat :: i in next <==> i in at || i == n
    ensures forall k :: 0 <= k < |at| ==> next[k] == at[k] && (picked + [e])[k] == picked[k]
    ensures next[|at|] == n && (picked + [e])[|at|] == e
  {
    AscendingNext(at, n);
    next := at + [n];
  }

  /** What stays is kept in order. */
  lemma {:induction false} KeptInOrder(fates: seq<Fate>, a: nat, b: nat) returns (at: seq<nat>)
    requires a <= b <= |fates|
    ensures Ascending(at) && forall i: nat :: i in at <==> a <= i < b && fates[i].Kept?
    ensures |Keeps(fates, a, b)| == |at|
    ensures forall k :: 0 <= k < |at| ==> at[k] < |fates| && fates[at[k]] == Kept(Keeps(fates, a, b)[k])
    decreases b
  {
    if a == b {
      at := [];
    } else {
      at := KeptInOrder(fates, a, b - 1);
      var fate := fates[b - 1];
      if fate.Kept? {
        at := PickNext(at, Keeps(fates, a, b - 1), b - 1, fate.entry);
      }
    }
  }

  /** References are made in order. */
  lemma {:induction false} ReferencedInOrder(fates: seq<Fate>, a: nat, b: nat) returns (at: seq<nat>)
    requires a <= b <= |fates|
    ensures Ascending(at) && forall i: nat :: i in at <==> a <= i < b && fates[i].Referenced?
    ensures |References(fates, a, b)| == |at|
    ensures forall k :: 0 <= k < |at| ==> at[k] < |fates| && fates[at[k]] == Referenced(References(fates, a, b)[k])
    decreases b
  {
    if a == b {
      at := [];
    } else {
      at := ReferencedInOrder(fates, a, b - 1);
      var fate := fates[b - 1];
      if fate.Referenced? {
        at := PickNext(at, References(fates, a, b - 1), b - 1, fate.entry);
      }
    }
  }

  // ---- Whole runs ----

  /** In a whole run every key is kept exactly once, by its first event. */
  lemma KeptOnce(cwd: Path, h: seq<Event>, i: nat)
    requires i < |h|
    ensures FateAt(cwd, h, i).Kept? <==> FirstWith(h, h[i].entry) == i
    ensures var k := FirstWith(h, h[i].entry); k <= i && FateAt(cwd, h, k).Kept? && SameKey(h[k].entry, h[i].entry)
    ensures forall j: nat :: j < |h| && SameKey(h[j].entry, h[i].entry) && FateAt(cwd, h, j).Kept? ==>
      j == FirstWith(h, h[i].entry)
  {
    FirstWithPrefix(h, i, h[i].entry);
    var k := FirstWith(h, h[i].entry);
    assert k <= i;
    forall j: nat | j < |h| && SameKey(h[j].entry, h[i].entry)
      ensures FirstWith(h, h[j].entry) == k
    {
      var m := FirstWith(h, h[j].entry);
      assert m <= j;
      assert SameKey(h[m].entry, h[i].entry) && SameKey(h[k].entry, h[j].entry);
    }
    forall j: nat | j < |h| && SameKey(h[j].entry, h[i].entry)
      ensures FateAt(cwd, h, j).Kept? <==> j == k
    {
      FirstWithPrefix(h, j, h[j].entry);
      assert j >= k;
    }
    assert SameKey(h[k].entry, h[i].entry);
  }

  /** An entry is kept if and only if no earlier one has the same destination and the same source and
      agrees with it on being a symbolic link. Whatever becomes of it, an entry with its destination and
      source is kept, at it or before it; so entries with different destinations never stand for one
      another. */
  lemma KeptMeaning(cwd: Path, h: seq<Event>, i: nat)
    requires i < |h|
    ensures var e := h[i].entry;
      FateAt(cwd, h, i).Kept? <==>
        forall j :: 0 <= j < i ==>
          h[j].entry.dest != e.dest || h[j].entry.src != e.src
          || (h[j].entry.typecode == SYMLINK) != (e.typecode == SYMLINK)
    ensures FateAt(cwd, h, i).Kept? ==> FateAt(cwd, h, i).entry == h[i].entry
    ensures exists k: nat :: k <= i && IsKeptFor(cwd, h, k, h[i].entry)
    ensures FateAt(cwd, h, i).Referenced? ==> FateAt(cwd, h, i).entry.dest == h[i].entry.dest
    ensures h[i].entry.typecode == SYMLINK && FateAt(cwd, h, i).Referenced? ==> FateAt(cwd, h, i).entry == h[i].entry
  {
    KeptOnce(cwd, h, i);
    FirstWithPrefix(h, i, h[i].entry);
    var k := FirstWith(h, h[i].entry);
    assert k <= i && IsKeptFor(cwd, h, k, h[i].entry);
  }

  /** Event `k` keeps an entry with the destination and the source of `e`, a link if `e` is one. */
  ghost predicate IsKeptFor(cwd: Path, h: seq<Event>, k: nat, e: Entry) {
    && k < |h| && FateAt(cwd, h, k).Kept?
    && h[k].entry.dest == e.dest && h[k].entry.src == e.src
    && (h[k].entry.typecode == SYMLINK <==> e.typecode == SYMLINK)
  }

  /** A reference, followed from the directory of the executable that makes it, leads to the
      executable that keeps the entry. */
  lemma ReferenceLeadsToOwner(cwd: Path, h: seq<Event>, i: nat)
    requires IsPlace(cwd) && i < |h| && !IsLink(h[i].entry) && FateAt(cwd, h, i).Referenced?
    ensures var r := FateAt(cwd, h, i).entry; var k := FirstWith(h, h[i].entry);
      && k < i && FateAt(cwd, h, k).Kept?
      && r.dest == h[i].entry.dest && r.typecode == DEPENDENCY
      && AbsPath(cwd, Parent(h[i].exe) + r.src) == AbsPath(cwd, h[k].exe)
  {
    KeptOnce(cwd, h, i);
    FirstWithPrefix(h, i, h[i].entry);
    var k := FirstWith(h, h[i].entry);
    assert h[..i][k] == h[k];
    RelPathRoundTrip(cwd, h[k].exe, Parent(h[i].exe));
  }

  // ---- Which entries are dropped ----

  predicate IsTextual(p: Path) {
    forall i :: 0 <= i < |p| ==> p[i] != "" && '/' !in p[i]
  }

  /** What follows the first component. */
  function Rest(p: Path): string
    requires p != []
  {
    if |p| == 1 then "" else "/" + Text(p[1..])
  }

  lemma TextParts(p: Path)
    requires p != []
    ensures Text(p) == p[0] + Rest(p)
  {
    if |p| > 1 {
      assert (p[0] + "/") + Text(p[1..]) == p[0] + ("/" + Text(p[1..]));
    }
  }

  predicate StartsWithSlash(s: string) {
    s == "" || s[0] == '/'
  }

  lemma FrontIsFirst(a: string, b: string, s: string)
    requires '/' !in a && StartsWithSlash(b) && s == a + b
    ensures FirstSlash(s) == |a|
  {
    assert forall i :: 0 <= i < |a| ==> s[i] == a[i];
    assert b != "" ==> s[|a|] == b[0];
  }

  lemma SplitAtSlash(a: string, b: string, c: string, d: string)
    requires '/' !in a && '/' !in c && StartsWithSlash(b) && StartsWithSlash(d) && a + b == c + d
    ensures a == c && b == d
  {
    FrontIsFirst(a, b, a + b);
    FrontIsFirst(c, d, c + d);
    var s := a + b;
    assert a == s[..|a|] && c == s[..|c|] && b == s[|a|..] && d == s[|c|..];
  }

  /** A text that is longer than another by a front without "/" is so in its first component. */
  lemma TextPeel(before: string, q: Path, p: Path)
    requires '/' !in before && IsTextual(p) && IsTextual(q) && p != [] && q != []
    requires before + Text(q) == Text(p)
    ensures |p| == |q| && p[0] == before + q[0] && p[1..] == q[1..]
    decreases |p|
  {
    TextParts(p);
    TextParts(q);
    assert (before + q[0]) + Rest(q) == before + (q[0] + Rest(q));
    SplitAtSlash(before + q[0], Rest(q), p[0], Rest(p));
    if |p| > 1 {
      TextPeelRest(q, p);
    }
  }

  lemma TextPeelRest(q: Path, p: Path)
    requires IsTextual(p) && IsTextual(q) && |p| > 1 && q != [] && Rest(q) == Rest(p)
    ensures |p| == |q| && p[1..] == q[1..]
    decreases |p|, 0
  {
    assert |q| > 1;
    assert Text(p[1..]) == Rest(p)[1..] && Text(q[1..]) == Rest(q)[1..];
    assert "" + Text(q[1..]) == Text(q[1..]);
    TextPeel("", q[1..], p[1..]);
    assert p[1] == "" + q[1] == q[1];
    assert p[1..] == [p[1]] + p[1..][1..] && q[1..] == [q[1]] + q[1..][1..];
  }

  lemma EndsWithin(s: string, t: string, u: string)
    requires EndsWith(s, t) && |u| <= |t|
    ensures EndsWith(s, u) <==> EndsWith(t, u)
  {
    assert s[|s| - |u|..] == t[|t| - |u|..];
  }

  /** The last components of one path agree with another, up to a front of the first of them. */
  predicate TailMatches(p: Path, q: Path) {
    q != [] && |q| <= |p| && EndsWith(p[|p| - |q|], q[0]) && p[|p| - |q| + 1..] == q[1..]
  }

  lemma TailInside(p: Path, q: Path)
    requires q != [] && |q| < |p|
    ensures TailMatches(p, q) <==> TailMatches(p[1..], q)
  {
    assert p[|p| - |q|] == p[1..][|p[1..]| - |q|];
    assert p[|p| - |q| + 1..] == p[1..][|p[1..]| - |q| + 1..];
  }

  lemma TextEndsInside(p: Path, q: Path, before: string)
    requires IsTextual(p) && p != [] && Text(p) == before + Text(q) && '/' in before
    ensures |p| > 1 && EndsWith(Text(p[1..]), Text(q))
  {
    TextParts(p);
    var s, n := Text(p), |p[0]|;
    var k :| 0 <= k < |before| && before[k] == '/';
    assert s[k] == '/';
    assert forall i :: 0 <= i < n ==> s[i] == p[0][i];
    if |p| > 1 {
      assert s[n + 1..] == Text(p[1..]);
      assert s[|before|..] == Text(q);
      assert s[n + 1..][|before| - n - 1..] == s[|before|..];
    }
  }

  lemma SuffixAppend(s: string, t: string, u: string)
    requires EndsWith(s, t)
    ensures EndsWith(s + u, t + u)
  {
    var n := |s| - |t|;
    assert (s + u)[n..] == s[n..] + u;
  }

  lemma TailTextEnds(p: Path, q: Path)
    requires TailMatches(p, q) && |p| == |q|
    ensures EndsWith(Text(p), Text(q))
  {
    TextParts(p);
    TextParts(q);
    SuffixAppend(p[0], q[0], Rest(q));
  }

  /** One text ends with another exactly if the last components agree and the component before them
      ends with the first component of the other. */
  lemma {:induction false} TextEndsWith(p: Path, q: Path)
    requires IsTextual(p) && IsTextual(q) && p != [] && q != []
    ensures EndsWith(Text(p), Text(q)) <==> TailMatches(p, q)
    decreases |p|
  {
    if |p| > 1 {
      TextEndsWith(p[1..], q);
      TextParts(p);
      assert EndsWith(Text(p), Text(p[1..]));
    }
    if EndsWith(Text(p), Text(q)) {
      var before := Text(p)[..|Text(p)| - |Text(q)|];
      assert Text(p) == before + Text(q);
      if '/' in before {
        TextEndsInside(p, q, before);
        TailLonger(p[1..], q);
        TailInside(p, q);
      } else {
        TextPeel(before, q, p);
      }
    }
    if TailMatches(p, q) {
      if |p| == |q| {
        TailTextEnds(p, q);
      } else {
        TailInside(p, q);
        EndsWithin(Text(p), Text(p[1..]), Text(q));
      }
    }
  }

  lemma TailLonger(p: Path, q: Path)
    requires TailMatches(p, q)
    ensures |q| <= |p|
  {
  }

  // ---- Executables below the current directory ----

  /** From its own directory, an executable is its last component. */
  lemma OwnReference(cwd: Path, exe: Path)
    requires IsPlace(cwd) && AllNames(exe) && exe != []
    ensures Reference(cwd, exe, exe) == [Last(exe)]
  {
    var a, b := AbsPath(cwd, Parent(exe)), AbsPath(cwd, exe);
    NamesBelow(cwd, exe);
    NamesBelow(cwd, Parent(exe));
    assert b == a + [Last(exe)];
    CommonPrefix(a, [Last(exe)]);
    assert Ups(0) + [Last(exe)] == [Last(exe)];
  }

  lemma CommonPrefix(a: Path, rest: Path)
    ensures CommonLength(a, a + rest) == |a|
  {
  }

  /** A bare executable is referenced by its name from another one. */
  lemma BareReference(cwd: Path, owner: string, exe: string)
    requires IsPlace(cwd) && IsName(owner) && IsName(exe)
    ensures Reference(cwd, [owner], [exe]) == [owner]
  {
    NamesBelow(cwd, [owner]);
    NamesBelow(cwd, []);
    assert Parent([exe]) == [] && cwd + [] == cwd;
    CommonPrefix(cwd, [owner]);
    assert Ups(0) + [owner] == [owner];
  }

  lemma NameSpelled(n: string)
    requires IsName(n)
    ensures Spelling([n]) == n
  {
    assert ROOT[0] == '/';
  }

  /** For bare executables the test looks at the ends of their names only. */
  lemma BareLooksLikeSelf(cwd: Path, owner: string, exe: string)
    requires IsPlace(cwd) && IsName(owner) && IsName(exe)
    ensures LooksLikeSelf(cwd, [owner], [exe]) <==> EndsWith(owner, exe)
  {
    BareReference(cwd, owner, exe);
    NameSpelled(owner);
    NameSpelled(exe);
  }

  lemma {:induction false} CommonBelow(a: Path, x: Path, y: Path)
    ensures CommonLength(a + x, a + y) == |a| + CommonLength(x, y)
  {
    if a == [] {
      assert a + x == x && a + y == y;
    } else {
      assert (a + x)[1..] == a[1..] + x && (a + y)[1..] == a[1..] + y;
      CommonBelow(a[1..], x, y);
    }
  }

  /** References between executables below the current directory do not depend on it. */
  lemma ReferenceBelow(cwd: Path, owner: Path, exe: Path)
    requires IsPlace(cwd) && AllNames(owner) && AllNames(exe)
    ensures var k := CommonLength(Parent(exe), owner);
      Reference(cwd, owner, exe) == Ups(|Parent(exe)| - k) + owner[k..]
  {
    NamesBelow(cwd, owner);
    NamesBelow(cwd, Parent(exe));
    CommonBelow(cwd, Parent(exe), owner);
    var k := CommonLength(Parent(exe), owner);
    assert (cwd + owner)[|cwd| + k..] == owner[k..];
  }

  lemma NameIsTextual(n: string)
    ensures IsName(n) ==> n != "" && '/' !in n && n != ROOT && n != ".."
  {
    assert ROOT[0] == '/';
  }

  /** When the test succeeds: the last components of the reference are those of the executable, and
      the component before them ends with the executable's first one. */
  lemma LooksLikeSelfMeaning(cwd: Path, owner: Path, exe: Path)
    requires IsPlace(cwd) && AllNames(owner) && AllNames(exe) && exe != []
    ensures LooksLikeSelf(cwd, owner, exe) <==> TailMatches(Reference(cwd, owner, exe), exe)
  {
    var r := Reference(cwd, owner, exe);
    ReferenceBelow(cwd, owner, exe);
    forall n: string
      ensures IsName(n) ==> n != "" && '/' !in n && n != ROOT && n != ".."
    {
      NameIsTextual(n);
    }
    assert forall i :: 0 <= i < |r| ==> r[i] == ".." || IsName(r[i]);
    assert IsTextual(r) && IsTextual(exe);
    assert Spelling(exe) == Text(exe) by {
      assert IsName(exe[0]);
    }
    if r == [] {
      SpelledNotDot(exe);
    } else {
      assert Spelling(r) == Text(r);
      TextEndsWith(r, exe);
    }
  }

  lemma SpelledNotDot(exe: Path)
    requires AllNames(exe) && exe != []
    ensures !EndsWith(".", Text(exe))
  {
    TextParts(exe);
    var t := Text(exe);
    assert IsName(exe[0]) && t[..|exe[0]|] == exe[0];
    assert |t| == 1 ==> t == exe[0];
    assert "."[0..] == ".";
  }

  /** An executable recognizes references to itself exactly if it lies in the current directory. */
  lemma SelfReferenceRecognized(cwd: Path, exe: Path)
    requires IsPlace(cwd) && AllNames(exe) && exe != []
    ensures LooksLikeSelf(cwd, exe, exe) <==> |exe| == 1
  {
    OwnReference(cwd, exe);
    LooksLikeSelfMeaning(cwd, exe, exe);
    assert |exe| == 1 ==> exe == [Last(exe)];
  }

  /** With one directory for each executable, only references to other executables look like
      references to the executable itself. */
  lemma FoldersLookLikeSelf(cwd: Path, dir: string, file: string, folder: string, name: string)
    requires IsPlace(cwd) && IsName(dir) && IsName(file) && IsName(folder) && IsName(name)
    ensures LooksLikeSelf(cwd, [dir, file], [folder, name]) <==>
      dir != folder && EndsWith(dir, folder) && file == name
  {
    var owner, exe := [dir, file], [folder, name];
    ReferenceBelow(cwd, owner, exe);
    LooksLikeSelfMeaning(cwd, owner, exe);
    assert Parent(exe) == [folder];
    assert exe[1..] == [name];
    if dir == folder {
      assert owner[1..] == [file];
      assert Reference(cwd, owner, exe) == [file];
    } else {
      assert Ups(1) == [".."] && owner[0..] == owner;
      assert Reference(cwd, owner, exe) == ["..", dir, file];
      assert ["..", dir, file][2..] == [file];
    }
  }

  // ---- Drops in whole runs ----

  /** The executable that keeps the entry of event `i`. */
  function OwnerOf(h: seq<Event>, i: nat): Path
    requires i < |h|
  {
    var k := FirstWith(h, h[i].entry);
    if k < |h| then h[k].exe else []
  }

  /** An entry is dropped exactly if it repeats another one and the reference to the executable that
      keeps it looks like a reference to itself. */
  lemma DroppedMeaning(cwd: Path, h: seq<Event>, i: nat)
    requires i < |h|
    ensures FateAt(cwd, h, i).Dropped? <==>
      FirstWith(h, h[i].entry) < i && !IsLink(h[i].entry) && LooksLikeSelf(cwd, OwnerOf(h, i), h[i].exe)
  {
    FirstWithPrefix(h, i, h[i].entry);
    var k := FirstWith(h, h[i].entry);
    assert k <= i;
    if k < i {
      assert h[..i][k] == h[k];
    }
  }

  ghost predicate AllBare(h: seq<Event>) {
    forall i :: 0 <= i < |h| ==> |h[i].exe| == 1 && IsName(h[i].exe[0])
  }

  lemma BareDropped(cwd: Path, h: seq<Event>, i: nat)
    requires IsPlace(cwd) && AllBare(h) && i < |h|
    ensures FateAt(cwd, h, i).Dropped? <==>
      FirstWith(h, h[i].entry) < i && !IsLink(h[i].entry) && EndsWith(OwnerOf(h, i)[0], h[i].exe[0])
    ensures OwnerOf(h, i) == [OwnerOf(h, i)[0]] && h[i].exe == [h[i].exe[0]]
  {
    DroppedMeaning(cwd, h, i);
    var k := FirstWith(h, h[i].entry);
    assert k <= i;
    var owner, exe := h[k].exe, h[i].exe;
    assert owner == [owner[0]] && exe == [exe[0]];
    BareLooksLikeSelf(cwd, owner[0], exe[0]);
  }

  /** Executables in the current directory: an entry is dropped if the name of the executable that
      keeps it ends with the name of the executable it comes from. If no name ends with another one,
      an entry is dropped only if its own executable keeps it. */
  lemma BareRunDrops(cwd: Path, h: seq<Event>, i: nat)
    requires IsPlace(cwd) && AllBare(h) && i < |h|
    ensures FateAt(cwd, h, i).Dropped? <==>
      FirstWith(h, h[i].entry) < i && !IsLink(h[i].entry) && EndsWith(OwnerOf(h, i)[0], h[i].exe[0])
    ensures
      (forall a, b :: 0 <= a < |h| && 0 <= b < |h| && EndsWith(h[a].exe[0], h[b].exe[0]) ==> h[a].exe == h[b].exe) ==>
      (FateAt(cwd, h, i).Dropped? <==>
        FirstWith(h, h[i].entry) < i && !IsLink(h[i].entry) && OwnerOf(h, i) == h[i].exe)
  {
    BareDropped(cwd, h, i);
    var k := FirstWith(h, h[i].entry);
    assert k <= i && OwnerOf(h, i) == h[k].exe;
  }

  /** Exactly the entries are dropped that their own executable keeps. */
  ghost predicate IsRight(cwd: Path, h: seq<Event>, i: nat) {
    i < |h| ==>
      (FateAt(cwd, h, i).Dropped? <==>
        FirstWith(h, h[i].entry) < i && !IsLink(h[i].entry) && OwnerOf(h, i) == h[i].exe)
  }

  /** A run over bare executables with these names. */
  ghost predicate IsBareRun(h: seq<Event>, names: set<string>) {
    forall i :: 0 <= i < |h| ==> |h[i].exe| == 1 && h[i].exe[0] in names
  }

  ghost predicate IsRightRun(cwd: Path, h: seq<Event>) {
    forall i :: IsRight(cwd, h, i)
  }

  lemma EndingIsWrong(cwd: Path, owner: string, exe: string)
    requires IsPlace(cwd) && IsName(owner) && IsName(exe) && owner != exe && EndsWith(owner, exe)
    ensures var e := Entry([], [], DATA); !IsRight(cwd, [Event(e, [owner]), Event(e, [exe])], 1)
  {
    var e := Entry([], [], DATA);
    var h := [Event(e, [owner]), Event(e, [exe])];
    RepeatedAt(h[0], h[1]);
    BareRunDrops(cwd, h, 1);
  }

  /** The test is right in every run over these executables if and only if no name ends with another. */
  lemma BareRunsAreRight(cwd: Path, names: set<string>)
    requires IsPlace(cwd) && forall n :: n in names ==> IsName(n)
    ensures (forall h :: IsBareRun(h, names) ==> IsRightRun(cwd, h)) <==>
      (forall owner, exe :: owner in names && exe in names && EndsWith(owner, exe) ==> owner == exe)
  {
    if owner, exe :| owner in names && exe in names && EndsWith(owner, exe) && owner != exe {
      SomeRunIsWrong(cwd, names, owner, exe);
    } else {
      forall h | IsBareRun(h, names)
        ensures IsRightRun(cwd, h)
      {
        ApartIsRight(cwd, h, names);
      }
    }
  }

  lemma SomeRunIsWrong(cwd: Path, names: set<string>, owner: string, exe: string)
    requires IsPlace(cwd) && IsName(owner) && IsName(exe) && owner in names && exe in names
    requires owner != exe && EndsWith(owner, exe)
    ensures exists h :: IsBareRun(h, names) && !IsRightRun(cwd, h)
  {
    var e := Entry([], [], DATA);
    var h := [Event(e, [owner]), Event(e, [exe])];
    EndingIsWrong(cwd, owner, exe);
    PairIsBareRun(names, owner, exe, e);
    assert !IsRight(cwd, h, 1);
  }

  lemma PairIsBareRun(names: set<string>, owner: string, exe: string, e: Entry)
    requires owner in names && exe in names
    ensures IsBareRun([Event(e, [owner]), Event(e, [exe])], names)
  {
  }

  lemma ApartIsRight(cwd: Path, h: seq<Event>, names: set<string>)
    requires IsPlace(cwd) && IsBareRun(h, names) && forall n :: n in names ==> IsName(n)
    requires forall owner, exe :: owner in names && exe in names && EndsWith(owner, exe) ==> owner == exe
    ensures IsRightRun(cwd, h)
  {
    assert AllBare(h);
    forall i: nat | i < |h|
      ensures IsRight(cwd, h, i)
    {
      BareDropped(cwd, h, i);
      var k := FirstWith(h, h[i].entry);
      assert OwnerOf(h, i) == h[k].exe && h[k].exe[0] in names && h[i].exe[0] in names;
    }
  }

  lemma FoldersSelf(cwd: Path, owner: Path, exe: Path)
    requires IsPlace(cwd) && |owner| == 2 && |exe| == 2 && AllNames(owner) && AllNames(exe)
    ensures LooksLikeSelf(cwd, owner, exe) <==>
      owner[0] != exe[0] && EndsWith(owner[0], exe[0]) && owner[1] == exe[1]
  {
    assert owner == [owner[0], owner[1]] && exe == [exe[0], exe[1]];
    FoldersLookLikeSelf(cwd, owner[0], owner[1], exe[0], exe[1]);
  }

  ghost predicate AllInFolders(h: seq<Event>) {
    forall i :: 0 <= i < |h| ==> |h[i].exe| == 2 && AllNames(h[i].exe)
  }

  /** Executables in directories of their own: a repeated entry of the same executable is never
      dropped but becomes a reference of the executable to itself, and an entry is dropped exactly if
      another executable of the same file name keeps it, in a directory whose name ends with the
      name of this one's. */
  lemma FolderRunDrops(cwd: Path, h: seq<Event>, i: nat)
    requires IsPlace(cwd) && AllInFolders(h) && i < |h|
    ensures FateAt(cwd, h, i).Dropped? <==>
      && FirstWith(h, h[i].entry) < i && !IsLink(h[i].entry)
      && OwnerOf(h, i)[0] != h[i].exe[0] && EndsWith(OwnerOf(h, i)[0], h[i].exe[0])
      && OwnerOf(h, i)[1] == h[i].exe[1]
    ensures FirstWith(h, h[i].entry) < i && !IsLink(h[i].entry) && OwnerOf(h, i) == h[i].exe ==>
      FateAt(cwd, h, i) == Referenced(Entry(h[i].entry.dest, [h[i].exe[1]], DEPENDENCY))
  {
    DroppedMeaning(cwd, h, i);
    FirstWithPrefix(h, i, h[i].entry);
    var owner, exe := OwnerOf(h, i), h[i].exe;
    FoldersSelf(cwd, owner, exe);
    if FirstWith(h, h[i].entry) < i && owner == exe {
      assert h[..i][FirstWith(h, h[i].entry)] == h[FirstWith(h, h[i].entry)];
      OwnReference(cwd, exe);
    }
  }

  lemma RepeatedAt(a: Event, b: Event)
    requires SameKey(a.entry, b.entry)
    ensures FirstWith([a, b], b.entry) == 0
  {
  }

  /** An entry that `myapp` keeps is lost for `app`. */
  lemma BareDropExample(cwd: Path, e: Entry)
    requires IsPlace(cwd) && !IsLink(e)
    ensures FateAt(cwd, [Event(e, ["myapp"]), Event(e, ["app"])], 1) == Dropped
  {
    assert "myapp"[2..] == "app";
    RepeatedAt(Event(e, ["myapp"]), Event(e, ["app"]));
    BareRunDrops(cwd, [Event(e, ["myapp"]), Event(e, ["app"])], 1);
  }

  /** An entry that `myapp/main` keeps is lost for `app/main`. */
  lemma FolderDropExample(cwd: Path, e: Entry)
    requires IsPlace(cwd) && !IsLink(e)
    ensures FateAt(cwd, [Event(e, ["myapp", "main"]), Event(e, ["app", "main"])], 1) == Dropped
  {
    assert "myapp"[2..] == "app";
    RepeatedAt(Event(e, ["myapp", "main"]), Event(e, ["app", "main"]));
    FolderRunDrops(cwd, [Event(e, ["myapp", "main"]), Event(e, ["app", "main"])], 1);
  }
}
