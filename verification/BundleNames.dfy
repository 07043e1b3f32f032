/** What replacing the dots in directory names yields, when it keeps names apart, and where an entry is
    placed, in terms of the names and the typecodes. */
module BundleNames {
  import opened Paths
  import opened Toc
  import opened BundleSpec
  import opened BundleClassification
  import opened BundleGeometry
  import opened BundleInput
  import opened BundleConsistency
  import opened BundlePaths
  import opened BundleViews

  // ---- One name ----

  /** The text of a name is replaced piece by piece, so dots are replaced where they stand; ... */
  lemma {:induction false} SanitizedConcat(a: string, b: string)
    ensures Sanitized(a + b) == Sanitized(a) + Sanitized(b)
    decreases |a|
  {
    if a == "" {
      assert a + b == b;
    } else {
      assert (a + b)[0] == a[0] && (a + b)[1..] == a[1..] + b;
      SanitizedConcat(a[1..], b);
    }
  }

  /** ... a dot by "__dot__", and any other character by itself. */
  lemma SanitizedChar(c: char)
    ensures Sanitized("") == ""
    ensures Sanitized([c]) == if c == '.' then "__dot__" else [c]
  {
    assert [c][1..] == "";
  }

  predicate IsTextAt(name: string, text: string, i: nat) {
    i + |text| <= |name| && name[i..i + |text|] == text
  }

  predicate HasText(name: string, text: string) {
    exists i :: 0 <= i <= |name| && IsTextAt(name, text, i)
  }

  lemma HasTextAt(name: string, text: string, i: nat)
    requires IsTextAt(name, text, i)
    ensures HasText(name, text)
  {
  }

  lemma HasTextLater(name: string, text: string, k: nat)
    requires k <= |name| && HasText(name[k..], text)
    ensures HasText(name, text)
  {
    var i :| 0 <= i <= |name[k..]| && IsTextAt(name[k..], text, i);
    assert name[k + i..k + i + |text|] == name[k..][i..i + |text|];
    HasTextAt(name, text, k + i);
  }

  /** A name with a dot gets a mark. */
  lemma {:induction false} DotMakesMark(name: string)
    requires '.' in name
    ensures HasText(Sanitized(name), "__dot")
    decreases |name|
  {
    if name[0] == '.' {
      assert Sanitized(name)[..5] == "__dot";
      HasTextAt(Sanitized(name), "__dot", 0);
    } else {
      DotMakesMark(name[1..]);
      assert Sanitized(name)[1..] == Sanitized(name[1..]);
      HasTextLater(Sanitized(name), "__dot", 1);
    }
  }

  /** Where one name goes on with a dot and the other without, the other one must have the mark. */
  lemma MarkAgainstDot(a: string, b: string)
    requires a != "" && b != "" && a[0] == '.' && b[0] != '.'
    requires Sanitized(a) == Sanitized(b)
    ensures HasText(b, "__dot")
  {
    assert Sanitized(a)[..5] == "__dot";
    FirstChars(b, 0);
    FirstChars(b, 1);
    FirstChars(b, 2);
    FirstChars(b, 3);
    FirstChars(b, 4);
    assert b[..5] == "__dot";
    HasTextAt(b, "__dot", 0);
  }

  /** As long as no dot has come, a name and what it is replaced by are the same; and a dot would put
      an underscore there. */
  lemma FirstChars(b: string, n: nat)
    requires |b| >= n && '.' !in b[..n] && n < |Sanitized(b)|
    ensures |b| > n && Sanitized(b)[n] == if b[n] == '.' then '_' else b[n]
  {
    SanitizedConcat(b[..n], b[n..]);
    assert b == b[..n] + b[n..];
    assert Sanitized(b[..n]) == b[..n];
    assert Sanitized(b)[n] == Sanitized(b[n..])[0];
  }

  /** Names without the text "__dot" are told apart: no two of them are replaced by the same name. */
  lemma {:induction false} SanitizedInjective(a: string, b: string)
    requires !HasText(a, "__dot") && !HasText(b, "__dot")
    requires Sanitized(a) == Sanitized(b)
    ensures a == b
    decreases |a|
  {
    if a == "" || b == "" {
      assert a == b;
    } else if a[0] == '.' && b[0] != '.' {
      MarkAgainstDot(a, b);
    } else if b[0] == '.' && a[0] != '.' {
      MarkAgainstDot(b, a);
    } else {
      SameHead(a, b);
      if HasText(a[1..], "__dot") {
        HasTextLater(a, "__dot", 1);
      }
      if HasText(b[1..], "__dot") {
        HasTextLater(b, "__dot", 1);
      }
      SanitizedInjective(a[1..], b[1..]);
      assert a == [a[0]] + a[1..] && b == [b[0]] + b[1..];
    }
  }

  lemma SameHead(a: string, b: string)
    requires a != "" && b != "" && (a[0] == '.' <==> b[0] == '.')
    requires Sanitized(a) == Sanitized(b)
    ensures a[0] == b[0] && Sanitized(a[1..]) == Sanitized(b[1..])
  {
    var n := if a[0] == '.' then 7 else 1;
    assert Sanitized(a)[n..] == Sanitized(a[1..]) && Sanitized(b)[n..] == Sanitized(b[1..]);
    assert Sanitized(a)[0] == if a[0] == '.' then '_' else a[0];
    assert Sanitized(b)[0] == if b[0] == '.' then '_' else b[0];
  }

  lemma DotFirst(rest: string)
    requires '.' !in rest
    ensures Sanitized("." + rest) == "__dot__" + rest
  {
    SanitizedConcat(".", rest);
    SanitizedChar('.');
  }

  lemma DotLast(rest: string)
    requires '.' !in rest
    ensures Sanitized(rest + ".") == rest + "__dot__"
  {
    SanitizedConcat(rest, ".");
    SanitizedChar('.');
  }

  /** The condition is not idle: an underscore next to a dot can make two names collide, ... */
  lemma Collision(p: string, q: string)
    requires '.' !in p && '.' !in q && "__dot__" + p == q + "__dot__"
    ensures Sanitized("." + p) == Sanitized(q + ".")
  {
    DotFirst(p);
    DotLast(q);
  }

  /** ... such as "._dot__" and "__dot_.". */
  lemma CollidingNames(p: string, q: string)
    requires p == "_dot__" && q == "__dot_"
    ensures '.' !in p && '.' !in q && "__dot__" + p == q + "__dot__" && "." + p != q + "."
  {
    assert "__dot__" == "_" + p && "__dot__" == q + "_";
    assert ("." + p)[0] == '.' && (q + ".")[0] == '_';
  }

  // ---- The names of a TOC ----

  /** No component of a destination has the text that dots are replaced by, or the start of it. */
  ghost predicate NoMarks(toc: seq<Entry>) {
    forall i, k :: 0 <= i < |toc| && 0 <= k < |toc[i].dest| ==> !HasText(toc[i].dest[k], "__dot")
  }

  lemma NodeHasNoMark(toc: seq<Entry>, v: Path)
    requires NoMarks(toc) && HasDests(toc) && v in Nodes(toc)
    ensures v != [] && !HasText(Last(v), "__dot")
  {
    var i :| 0 <= i < |toc| && toc[i].typecode != EXECUTABLE && v <= UnitOf(toc[i]);
    assert v <= toc[i].dest;
    assert Last(v) == toc[i].dest[|v| - 1];
  }

  /** Then replacing dots makes no two siblings collide. */
  lemma NoMarksApart(toc: seq<Entry>)
    requires NoMarks(toc) && HasDests(toc) && ProgramAtTop(toc)
    ensures DotsApart(RenamedDirs(toc), Nodes(toc))
  {
    RenamedAreNodes(toc);
    forall u, v | u in RenamedDirs(toc) && v in Nodes(toc) && u != [] && v != [] && u != v && Parent(u) == Parent(v)
      ensures Sanitized(Last(u)) != Last(v) && Sanitized(Last(u)) != Sanitized(Last(v))
    {
      NodeHasNoMark(toc, u);
      NodeHasNoMark(toc, v);
      SiblingsApart(u, v);
    }
  }

  lemma SiblingsApart(u: Path, v: Path)
    requires u != [] && v != [] && u != v && Parent(u) == Parent(v)
    requires !HasText(Last(u), "__dot") && !HasText(Last(v), "__dot")
    ensures Sanitized(Last(u)) != Last(v) && Sanitized(Last(u)) != Sanitized(Last(v))
  {
    assert u == Parent(u) + [Last(u)] && v == Parent(v) + [Last(v)];
    if Sanitized(Last(u)) == Sanitized(Last(v)) {
      SanitizedInjective(Last(u), Last(v));
    }
    if '.' in Last(u) {
      DotMakesMark(Last(u));
    }
  }

  /** So the input is well-formed if its names are names, its destinations do not lie at or below one
      another, no framework bundle holds another one, the program is at the top, and no component has
      the text "__dot". */
  lemma NoMarksWellFormed(toc: seq<Entry>)
    requires ValidNames(toc) && Unrelated(toc) && NoNestedFrameworks(toc) && ProgramAtTop(toc) && NoMarks(toc)
    ensures WellFormed(toc)
  {
    NoMarksApart(toc);
  }

  // ---- Places ----

  /** A file in a framework bundle: some directory above it has a name that ends in ".framework". */
  predicate InFramework(p: Path) {
    exists k :: 0 <= k < |p| - 1 && EndsWith(p[k], ".framework")
  }

  /** The component is above the framework bundle that holds the file or, if there is none, above the
      file. */
  predicate IsOutsideUnit(p: Path, i: nat) {
    i < |p| - 1 && (InFramework(p) ==> exists k :: i < k < |p| - 1 && EndsWith(p[k], ".framework"))
  }

  lemma InFrameworkIs(p: Path)
    requires p != []
    ensures InFramework(p) <==> FrameworkLength(p) > 0
  {
    var k := FrameworkLength(p);
    if k > 0 {
      assert EndsWith(p[k - 1], ".framework");
    }
  }

  lemma OutsideUnitIs(p: Path, i: nat)
    requires p != []
    ensures IsOutsideUnit(p, i) <==> i < SanitizedLength(p)
  {
    InFrameworkIs(p);
    var k := FrameworkLength(p);
    if k > 0 {
      assert EndsWith(p[k - 1], ".framework");
    }
  }

  /** The program is placed in `Contents/MacOS`, its archive and data in `Contents/Resources`, all other
      files, and every file in a framework bundle, in `Contents/Frameworks`. Except in `Contents/Resources`, the
      dots in the names of the directories above it are replaced; not in the name of a framework
      bundle, nor inside it. */
  lemma FilePlaceMeaning(e: Entry, i: nat)
    requires i < |e.dest|
    ensures |FilePlace(e)| == 2 + |e.dest| && FilePlace(e)[0] == "Contents"
    ensures e.typecode == EXECUTABLE ==> FilePlace(e)[1] == "MacOS"
    ensures e.typecode == PKG ==> FilePlace(e)[1] == "Resources"
    ensures e.typecode != EXECUTABLE && e.typecode != PKG ==>
      FilePlace(e)[1] == if e.typecode == DATA && !InFramework(e.dest) then "Resources" else "Frameworks"
    ensures FilePlace(e)[2 + i] ==
      if FilePlace(e)[1] != "Resources" && IsOutsideUnit(e.dest, i) then Sanitized(e.dest[i]) else e.dest[i]
  {
    InFrameworkIs(e.dest);
    OutsideUnitIs(e.dest, i);
    SidesAreNames();
    assert |"Resources"| != |"Frameworks"| && |"Resources"| != |"MacOS"|;
  }

  /** The program is collected once; its archive is also found beside it, through a link. */
  lemma ProgramItems(toc: seq<Entry>, i: nat, name: string)
    requires i < |toc| && toc[i].dest == [name]
    ensures Item(toc, DirsOf(toc), Placed(i)).(dest := []) == toc[i].(dest := [])
    ensures toc[i].typecode == EXECUTABLE ==>
      && !ValidOrigin(toc, DirsOf(toc), CrossFile(i))
      && Item(toc, DirsOf(toc), Placed(i)).dest == ["Contents", "MacOS", name]
    ensures toc[i].typecode == PKG ==>
      && Item(toc, DirsOf(toc), Placed(i)).dest == ["Contents", "Resources", name]
      && ValidOrigin(toc, DirsOf(toc), CrossFile(i))
      && Item(toc, DirsOf(toc), CrossFile(i)) ==
         Entry(["Contents", "MacOS", name], ["..", "Resources", name], SYMLINK)
  {
    var ds := DirsOf(toc);
    ItemPlace(toc, ds, Placed(i));
    if toc[i].typecode == EXECUTABLE || toc[i].typecode == PKG {
      TopPlace(HomeOf(toc[i]), name);
    }
    if toc[i].typecode == PKG {
      ItemPlace(toc, ds, CrossFile(i));
      TopPlace(MACOS, name);
      TopLink(MACOS, RESOURCES, name);
    }
  }

  lemma TopPlace(side: string, name: string)
    ensures Place(side, [name]) == ["Contents", side, name]
  {
    assert Placement([name]) == [name];
  }

  lemma TopLink(side: string, home: string, name: string)
    ensures CrossLink(Rooted(side, [name]), Rooted(home, [name])) == ["..", home, name]
  {
    CrossLinkText(side, home, [name]);
    assert Ups(1) == [".."];
  }
}
