/** POSIX paths as lists of components, the way `pathlib` lists `parts`: an absolute path starts
    with the component "/", a relative one does not, and the empty list is the current directory. */
module Paths {

  type Path = seq<string>

  /** A component that names a file or a directory: not empty, not "." or "..", and without "/". */
  predicate IsName(c: string) {
    c != "" && c != "." && c != ".." && '/' !in c
  }

  predicate AllNames(p: Path) {
    forall i :: 0 <= i < |p| ==> IsName(p[i])
  }

  function Last(p: Path): string
    requires p != []
  {
    p[|p| - 1]
  }

  /** The parent directory: everything but the last component (`dirname`, `PurePath.parent`). */
  function Parent(p: Path): Path {
    if p == [] then [] else p[..|p| - 1]
  }

  lemma PrefixOfTwo(p: Path, a: string, b: string)
    requires p != [] && p <= [a, b]
    ensures p == [a] || p == [a, b]
  {
    assert p == [a, b][..|p|];
  }

  lemma PrefixOfThree(p: Path, a: string, b: string, c: string)
    requires p != [] && p <= [a, b, c]
    ensures p == [a] || p == [a, b] || p == [a, b, c]
  {
    assert p == [a, b, c][..|p|];
  }

  /** `n` times "..". */
  function Ups(n: nat): (r: Path)
    ensures |r| == n
    ensures forall i :: 0 <= i < n ==> r[i] == ".."
  {
    seq(n, i => "..")
  }

  predicate EndsWith(s: string, suffix: string) {
    |suffix| <= |s| && s[|s| - |suffix|..] == suffix
  }

  lemma EndsWithMeaning(s: string, suffix: string)
    ensures EndsWith(s, suffix) <==> exists front :: s == front + suffix
  {
    if EndsWith(s, suffix) {
      assert s == s[..|s| - |suffix|] + suffix;
    }
  }

  // ---- Normalization: os.path.join and os.path.normpath ----

  const ROOT := "/"

  /** One more component; an absolute path starts over, as it does in `os.path.join`. */
  function NormStep(acc: Path, c: string): Path {
    if c == "" || c == "." then acc
    else if c == ROOT then [ROOT]
    else if c != ".." || acc == [] || Last(acc) == ".." then acc + [c]
    else if Last(acc) == ROOT then acc
    else Parent(acc)
  }

  function NormFrom(acc: Path, p: Path): Path
    decreases |p|
  {
    if p == [] then acc else NormFrom(NormStep(acc, p[0]), p[1..])
  }

  /** `os.path.normpath` of the components joined. */
  function NormPath(p: Path): Path {
    NormFrom([], p)
  }

  /** What normalized paths look like: no empty or "." components, the root only in front, and ".."
      only at the front of a relative path. */
  predicate IsNormal(p: Path) {
    forall i :: 0 <= i < |p| ==>
      && p[i] != "" && p[i] != "."
      && (p[i] == ROOT ==> i == 0)
      && (p[i] == ".." ==> forall j :: 0 <= j < i ==> p[j] == "..")
  }

  lemma NormStepNormal(acc: Path, c: string)
    requires IsNormal(acc)
    ensures IsNormal(NormStep(acc, c))
  {
  }

  lemma {:induction false} NormFromNormal(acc: Path, p: Path)
    requires IsNormal(acc)
    ensures IsNormal(NormFrom(acc, p))
    decreases |p|
  {
    if p != [] {
      NormStepNormal(acc, p[0]);
      NormFromNormal(NormStep(acc, p[0]), p[1..]);
    }
  }

  lemma {:induction false} NormalIsFixed(acc: Path, p: Path)
    requires IsNormal(acc + p)
    ensures NormFrom(acc, p) == acc + p
    decreases |p|
  {
    if p == [] {
      assert acc + p == acc;
    } else {
      var c := p[0];
      assert (acc + p)[|acc|] == c;
      assert acc + p == (acc + [c]) + p[1..];
      if c == ROOT || c == ".." {
        assert c == ".." && acc != [] ==> (acc + p)[|acc| - 1] == Last(acc);
        assert NormStep(acc, c) == acc + [c];
      }
      NormalIsFixed(acc + [c], p[1..]);
    }
  }

  /** `normpath` yields a normal path, and leaves exactly the normal paths as they are. */
  lemma NormPathIdempotent(p: Path)
    ensures IsNormal(NormPath(p))
    ensures NormPath(NormPath(p)) == NormPath(p)
    ensures NormPath(p) == p <==> IsNormal(p)
  {
    NormFromNormal([], p);
    NormalIsFixed([], NormPath(p));
    assert [] + NormPath(p) == NormPath(p);
    if IsNormal(p) {
      assert [] + p == p;
      NormalIsFixed([], p);
    }
  }

  lemma {:induction false} NormFromConcat(acc: Path, p: Path, q: Path)
    ensures NormFrom(acc, p + q) == NormFrom(NormFrom(acc, p), q)
    decreases |p|
  {
    if p == [] {
      assert p + q == q;
    } else {
      assert (p + q)[0] == p[0] && (p + q)[1..] == p[1..] + q;
      NormFromConcat(NormStep(acc, p[0]), p[1..], q);
    }
  }

  // ---- What normalization does, component by component ----

  /** A step of normalization may be taken before or after what came first. */
  lemma StepTwice(a: Path, acc: Path, c: string)
    requires IsNormal(acc)
    ensures NormFrom(a, NormStep(acc, c)) == NormStep(NormFrom(a, acc), c)
  {
    if c == "" || c == "." {
    } else if c == ROOT {
      NormFromOne(a, c);
    } else if acc == [ROOT] && c == ".." {
      NormFromOne(a, ROOT);
    } else if acc == [] || c != ".." || Last(acc) == ".." {
      NormFromConcat(a, acc, [c]);
      NormFromOne(NormFrom(a, acc), c);
    } else {
      UpAfterName(a, Parent(acc), Last(acc));
      assert acc == Parent(acc) + [Last(acc)];
    }
  }

  lemma NormFromOne(a: Path, c: string)
    ensures NormFrom(a, [c]) == NormStep(a, c)
  {
    assert [c][1..] == [];
  }

  lemma UpAfterName(a: Path, p: Path, name: string)
    requires name != "" && name != "." && name != ".." && name != ROOT
    ensures NormStep(NormFrom(a, p + [name]), "..") == NormFrom(a, p)
  {
    NormFromConcat(a, p, [name]);
    NormFromOne(NormFrom(a, p), name);
    var x := NormFrom(a, p);
    assert NormStep(x, name) == x + [name];
    assert ".." != "." && ".." != ROOT;
  }

  /** Normalizing a path first makes no difference to what is done with it. */
  lemma {:induction false} NormFromTwice(a: Path, acc: Path, p: Path)
    requires IsNormal(acc)
    ensures NormFrom(a, NormFrom(acc, p)) == NormFrom(NormFrom(a, acc), p)
    decreases |p|
  {
    if p != [] {
      NormStepNormal(acc, p[0]);
      NormFromTwice(a, NormStep(acc, p[0]), p[1..]);
      StepTwice(a, acc, p[0]);
    }
  }

  /** `normpath` removes empty components and ".", cancels a name against the ".." behind it, starts
      over at a root, and stays there on "..". A path in which none of this is left is normal, and
      stays as it is (`NormPathIdempotent`), so this says what it yields. */
  lemma NormPathRules(p: Path, name: string, q: Path)
    requires IsName(name)
    ensures NormPath(p + [""] + q) == NormPath(p + q) && NormPath(p + ["."] + q) == NormPath(p + q)
    ensures NormPath(p + [name, ".."] + q) == NormPath(p + q)
    ensures NormPath(p + ["/"] + q) == NormPath(["/"] + q) == NormPath(["/", ".."] + q)
  {
    MiddleRule(p, [""], q);
    MiddleRule(p, ["."], q);
    MiddleRule(p, ["/"], q);
    MiddleRule([], ["/"], q);
    MiddleRule([], ["/", ".."], q);
    MiddleRule(p, [name, ".."], q);
    NormFromConcat([], p, q);
    NormFromOne(NormPath(p), "");
    NormFromOne(NormPath(p), ".");
    NormFromOne(NormPath(p), "/");
    NormFromOne([], "/");
    assert [] + ["/"] == ["/"] && [] + ["/", ".."] == ["/", ".."];
    UpFromRoot();
    NameThenUp(NormPath(p), name);
  }

  lemma UpFromRoot()
    ensures NormFrom([], ["/", ".."]) == ["/"]
  {
    assert ["/", ".."][1..] == [".."] && [".."][1..] == [];
    assert "/" != "" && "/" != "." && ".." != "" && ".." != "." && ".." != "/";
  }

  lemma NameThenUp(a: Path, name: string)
    requires IsName(name)
    ensures NormFrom(a, [name, ".."]) == a
  {
    assert ROOT[0] == '/' && name != ROOT;
    UpAfterName(a, [], name);
    NormFromConcat(a, [name], [".."]);
    assert [] + [name] == [name] && [name] + [".."] == [name, ".."];
    NormFromOne(NormFrom(a, [name]), "..");
  }

  lemma MiddleRule(p: Path, m: Path, q: Path)
    ensures NormPath(p + m + q) == NormFrom(NormFrom(NormPath(p), m), q)
  {
    NormFromConcat([], p + m, q);
    NormFromConcat([], p, m);
  }

  lemma NamesAreNormal(p: Path)
    requires AllNames(p)
    ensures IsNormal(p) && NormPath(p) == p
  {
    assert ROOT[0] == '/';
    forall i | 0 <= i < |p|
      ensures p[i] != ROOT
    {
      assert IsName(p[i]);
    }
    NormPathIdempotent(p);
  }

  // ---- Absolute and relative paths ----

  predicate IsAbsolute(p: Path) {
    p != [] && p[0] == ROOT
  }

  predicate IsPlace(p: Path) {
    IsAbsolute(p) && IsNormal(p)
  }

  /** `os.path.abspath` */
  function AbsPath(cwd: Path, p: Path): Path {
    NormPath(cwd + p)
  }

  /** Normalizing a path does not change where it leads. */
  lemma AbsPathOfNormal(cwd: Path, p: Path)
    ensures AbsPath(cwd, NormPath(p)) == AbsPath(cwd, p)
  {
    NormFromTwice(NormPath(cwd), [], p);
    NormFromConcat([], cwd, NormPath(p));
    NormFromConcat([], cwd, p);
  }

  lemma {:induction false} NormFromAbsolute(acc: Path, p: Path)
    requires IsAbsolute(acc)
    ensures IsAbsolute(NormFrom(acc, p))
    decreases |p|
  {
    if p != [] {
      NormFromAbsolute(NormStep(acc, p[0]), p[1..]);
    }
  }

  lemma AbsPathIsPlace(cwd: Path, p: Path)
    requires IsPlace(cwd)
    ensures IsPlace(AbsPath(cwd, p))
  {
    NormFromConcat([], cwd, p);
    NormPathIdempotent(cwd);
    NormFromAbsolute(cwd, p);
    NormPathIdempotent(cwd + p);
  }

  /** Names below a place. */
  lemma NamesBelow(cwd: Path, p: Path)
    requires IsPlace(cwd) && AllNames(p)
    ensures AbsPath(cwd, p) == cwd + p
  {
    NamesAreNormal(p);
    forall i | 0 <= i < |p|
      ensures p[i] != ROOT && IsName(p[i])
    {
      assert ROOT[0] == '/';
    }
    assert IsNormal(cwd + p);
    NormPathIdempotent(cwd + p);
  }

  function CommonLength(a: Path, b: Path): (k: nat)
    ensures k <= |a| && k <= |b| && a[..k] == b[..k]
    ensures k < |a| && k < |b| ==> a[k] != b[k]
  {
    if a == [] || b == [] || a[0] != b[0] then 0 else 1 + CommonLength(a[1..], b[1..])
  }

  /** `os.path.relpath(path, start)` */
  function RelPath(cwd: Path, path: Path, start: Path): Path {
    var a, b := AbsPath(cwd, start), AbsPath(cwd, path);
    Ups(|a| - CommonLength(a, b)) + b[CommonLength(a, b)..]
  }

  lemma NormFromCons(acc: Path, c: string, rest: Path)
    ensures NormFrom(acc, [c] + rest) == NormFrom(NormStep(acc, c), rest)
  {
    assert ([c] + rest)[1..] == rest;
  }

  lemma UpFromPlace(a: Path)
    requires IsPlace(a) && |a| > 1
    ensures NormStep(a, "..") == Parent(a) && IsPlace(Parent(a))
  {
    var l := Last(a);
    assert a[0] == ROOT && ROOT != "..";
    assert l != ROOT && l != "..";
  }

  /** Going up from names removes the last of them. */
  lemma {:induction false} ClimbNames(top: Path, below: Path, rest: Path)
    requires AllNames(top + below)
    ensures NormFrom(top + below, Ups(|below|) + rest) == NormFrom(top, rest)
    decreases |below|
  {
    if below == [] {
      assert top + below == top && Ups(0) + rest == rest;
    } else {
      var n := |below| - 1;
      assert Ups(n + 1) + rest == [".."] + (Ups(n) + rest);
      NormFromCons(top + below, "..", Ups(n) + rest);
      UpFromName(top + below);
      assert Parent(top + below) == top + below[..n];
      ClimbNames(top, below[..n], rest);
    }
  }

  lemma UpFromName(p: Path)
    requires p != [] && AllNames(p)
    ensures NormStep(p, "..") == Parent(p)
  {
    assert IsName(Last(p)) && ROOT[0] == '/' && ".."[0] == '.' && "."[0] == '.';
    assert ".." != "." && ".." != ROOT;
  }

  /** Going up from a place removes its last components. */
  lemma {:induction false} ClimbFromPlace(a: Path, n: nat, rest: Path)
    requires IsPlace(a) && n < |a|
    ensures NormFrom(a, Ups(n) + rest) == NormFrom(a[..|a| - n], rest)
    decreases n
  {
    if n == 0 {
      assert Ups(0) + rest == rest && a[..|a|] == a;
    } else {
      assert Ups(n) + rest == [".."] + (Ups(n - 1) + rest);
      NormFromCons(a, "..", Ups(n - 1) + rest);
      UpFromPlace(a);
      ClimbFromPlace(Parent(a), n - 1, rest);
      assert Parent(a)[..|a| - n] == a[..|a| - n];
    }
  }

  /** From the start directory, the relative path leads to the path it was computed for. */
  lemma RelPathRoundTrip(cwd: Path, path: Path, start: Path)
    requires IsPlace(cwd)
    ensures AbsPath(cwd, start + RelPath(cwd, path, start)) == AbsPath(cwd, path)
  {
    var a, b := AbsPath(cwd, start), AbsPath(cwd, path);
    AbsPathIsPlace(cwd, start);
    AbsPathIsPlace(cwd, path);
    var k := CommonLength(a, b);
    var r := RelPath(cwd, path, start);
    assert cwd + (start + r) == (cwd + start) + r;
    NormFromConcat([], cwd + start, r);
    assert AbsPath(cwd, start + r) == NormFrom(a, r);
    ClimbFromPlace(a, |a| - k, b[k..]);
    assert a[..k] == b[..k];
    assert b[..k] + b[k..] == b;
    NormalIsFixed(b[..k], b[k..]);
  }

  // ---- Relative texts ----

  /** A relative path in normal form is some ".." and then something without. */
  lemma {:induction false} RelativeParts(t: Path) returns (n: nat, q: Path)
    requires IsNormal(t) && !IsAbsolute(t)
    ensures t == Ups(n) + q && IsNormal(q) && ROOT !in q && ".." !in q
  {
    if t == [] || t[0] != ".." {
      n, q := 0, t;
      assert t == Ups(0) + t;
    } else {
      n, q := RelativeParts(t[1..]);
      n := n + 1;
      assert t == [".."] + t[1..];
      assert Ups(n) == [".."] + Ups(n - 1);
    }
  }

  /** Read from a directory of names, it leads up and down again; never above the start if it leads
      to names. */
  lemma RelativeNames(p: Path, n: nat, q: Path, dest: Path)
    requires AllNames(p) && AllNames(dest) && IsNormal(q) && ROOT !in q && ".." !in q
    requires NormPath(p + (Ups(n) + q)) == dest
    ensures n <= |p| && p[..|p| - n] + q == dest && AllNames(q)
  {
    NamesAreNormal(p);
    NormFromConcat([], p, Ups(n) + q);
    if n <= |p| {
      UpAndDown(p, n, q);
      TailIsNames(p[..|p| - n], q, dest);
    } else {
      UpTooFar(p, n, q);
    }
  }

  lemma UpAndDown(p: Path, n: nat, q: Path)
    requires AllNames(p) && IsNormal(q) && ROOT !in q && ".." !in q && n <= |p|
    ensures NormFrom(p, Ups(n) + q) == p[..|p| - n] + q
  {
    var u := p[..|p| - n];
    assert p == u + p[|p| - n..];
    ClimbNames(u, p[|p| - n..], q);
    NamesThenNormal(u, q);
  }

  lemma {:induction false} UpTooFar(p: Path, n: nat, q: Path)
    requires AllNames(p) && IsNormal(q) && ROOT !in q && n > |p|
    ensures !AllNames(NormFrom(p, Ups(n) + q))
  {
    var r := Ups(n - |p|) + q;
    UpsSplit(|p|, n - |p|, q);
    ClimbToNothing(p, r);
    UpsThenNormal(n - |p|, q);
    NormalFromNothing(r);
    assert !IsName(r[0]);
  }

  lemma UpsSplit(a: nat, b: nat, q: Path)
    ensures Ups(a + b) + q == Ups(a) + (Ups(b) + q)
  {
  }

  lemma ClimbToNothing(p: Path, rest: Path)
    requires AllNames(p)
    ensures NormFrom(p, Ups(|p|) + rest) == NormFrom([], rest)
  {
    assert [] + p == p;
    ClimbNames([], p, rest);
  }

  lemma NormalFromNothing(r: Path)
    requires IsNormal(r)
    ensures NormFrom([], r) == r
  {
    assert [] + r == r;
    NormalIsFixed([], r);
  }

  lemma UpsThenNormal(n: nat, q: Path)
    requires IsNormal(q) && ROOT !in q
    ensures IsNormal(Ups(n) + q)
  {
    var r := Ups(n) + q;
    forall i | 0 <= i < |r|
      ensures r[i] != "" && r[i] != "." && r[i] != ROOT
      ensures r[i] == ".." ==> forall j :: 0 <= j < i ==> r[j] == ".."
    {
      if i >= n {
        assert r[i] == q[i - n] && q[i - n] in q;
        assert forall j :: n <= j < i ==> r[j] == q[j - n];
      }
    }
  }

  lemma TailIsNames(u: Path, q: Path, dest: Path)
    requires u + q == dest && AllNames(dest)
    ensures AllNames(q)
  {
    assert forall i :: 0 <= i < |q| ==> q[i] == dest[|u| + i];
  }

  lemma NamesThenNormal(u: Path, q: Path)
    requires AllNames(u) && IsNormal(q) && ROOT !in q && ".." !in q
    ensures NormFrom(u, q) == u + q
  {
    NamesAreNormal(u);
    forall i | 0 <= i < |u + q|
      ensures (u + q)[i] != ".." && (u + q)[i] != ROOT && (u + q)[i] != "" && (u + q)[i] != "."
    {
      if i < |u| {
        assert IsName(u[i]) && ROOT[0] == '/';
      } else {
        assert q[i - |u|] in q;
      }
    }
    NormalIsFixed(u, q);
  }
}
