/** Archives end to end, in terms of the entries that were asked for: their destinations, sources and
    typecodes. */
module ArchiveRequests {
  import opened Bytes
  import opened Sequences
  import opened FileTree
  import opened ArchiveToc
  import opened CArchive

  /** The reader finds the entry under `name`. Options are not found under names; a dependency is found
      under its reference, a colon and its destination; anything else under its destination. */
  predicate IsFoundUnder(w: World, r: Request, name: Bytes) {
    if r.typecode == "o" then false
    else if r.typecode == "d" then name == Rstrip(r.src + [58] + w.normpath(r.dest))
    else name == Rstrip(w.normpath(r.dest))
  }

  /** The last of the entries that are found under `name`. */
  predicate IsLastFound(w: World, entries: seq<Request>, name: Bytes, i: nat) {
    && i < |entries| && IsFoundUnder(w, entries[i], name)
    && forall j :: i < j < |entries| ==> !IsFoundUnder(w, entries[j], name)
  }

  lemma FoundMeaning(w: World, entries: seq<Request>, i: nat, name: Bytes)
    requires i < |entries| && AllCodes(PendingsOf(w, entries))
    ensures IsUnder(LowerAll(PendingsOf(w, entries))[i], name) <==> IsFoundUnder(w, entries[i], name)
    ensures LowerAll(PendingsOf(w, entries))[i].info.typecode == OPTION_CODE <==> entries[i].typecode == "o"
  {
    OptionCode(w, entries, i);
  }

  /** Only options are marked as options. */
  lemma OptionCode(w: World, entries: seq<Request>, i: nat)
    requires i < |entries| && AllCodes(PendingsOf(w, entries))
    ensures LowerAll(PendingsOf(w, entries))[i].info.typecode == OPTION_CODE <==> entries[i].typecode == "o"
  {
    var p := PendingsOf(w, entries)[i];
    assert IsCode(p.typecode) && p.typecode == CodeOf(entries[i]);
    if p.typecode[0] as int == 111 {
      assert p.typecode == "o";
    }
  }

  lemma LastMeaning(w: World, entries: seq<Request>, name: Bytes, i: nat)
    requires AllCodes(PendingsOf(w, entries))
    ensures IsLastUnder(LowerAll(PendingsOf(w, entries)), name, i) <==> IsLastFound(w, entries, name, i)
  {
    forall j | 0 <= j < |entries|
      ensures IsUnder(LowerAll(PendingsOf(w, entries))[j], name) <==> IsFoundUnder(w, entries[j], name)
    {
      FoundMeaning(w, entries, j, name);
    }
  }

  /** What is stored for an entry that is found under a name. */
  lemma StoredMeaning(w: World, entries: seq<Request>, i: nat)
    requires i < |entries| && AllCodes(PendingsOf(w, entries))
    ensures var r, info := entries[i], LowerAll(PendingsOf(w, entries))[i].info;
      && info.dataLength == |Payload(w, r)|
      && (r.typecode != "o" && r.typecode != "d" ==> info.compressed == if r.compress then 1 else 0)
      && (r.typecode == "o" || r.typecode == "d" ==> info.compressed == 0 && info.dataLength == 0)
      && (if r.typecode == "s1" || r.typecode == "s2" then info.typecode == 's' as int
          else |r.typecode| == 1 && info.typecode == r.typecode[0] as int)
  {
    var p := PendingsOf(w, entries)[i];
    assert IsCode(p.typecode);
  }

  /** Main result on archives. Take any entries that a writer accepts, and put the archive between any
      two byte strings such that the magic does not occur after the archive's own cookie. Then a name
      is listed if and only if some entry is found under it, with the fields of the last one; ... */
  lemma ListedMeaning(w: World, entries: seq<Request>, pyvers: nat, pylib: Bytes, archive: Bytes, prefix: Bytes,
                      suffix: Bytes, name: Bytes)
    requires IsInverse(w)
    requires Assemble(Join(Blobs(w, entries)), PendingsOf(w, entries), pyvers, pylib) == Ok(archive)
    requires RFind(prefix + archive + suffix, MAGIC) == |prefix| + |archive| - COOKIE_LENGTH
    ensures Load(prefix + archive + suffix).Ok?
    ensures var l := Load(prefix + archive + suffix).value;
      && (name in l.contents.toc <==> exists i :: 0 <= i < |entries| && IsFoundUnder(w, entries[i], name))
      && (name !in l.contents.toc ==>
            ExtractFrom(w, prefix + archive + suffix, l, name) == Err(NoSuchEntry(name)))
      && forall i: nat :: IsLastFound(w, entries, name, i) ==>
           AllCodes(PendingsOf(w, entries)) && l.contents.toc[name] == LowerAll(PendingsOf(w, entries))[i].info
           && ExtractFrom(w, prefix + archive + suffix, l, name) == Ok(Payload(w, entries[i]))
  {
    var pendings := PendingsOf(w, entries);
    LoadEmbedded(prefix, archive, suffix, Join(Blobs(w, entries)), pendings, pyvers, pylib);
    TocMeaning(w, entries, name);
    if i: nat :| IsLastFound(w, entries, name, i) {
      LastIsExtracted(w, entries, pyvers, pylib, archive, prefix, suffix, name, i);
      assert forall j: nat :: IsLastFound(w, entries, name, j) ==> j == i;
    }
  }

  /** What the reader keeps of all entries. */
  lemma TocMeaning(w: World, entries: seq<Request>, name: Bytes)
    requires AllCodes(PendingsOf(w, entries))
    ensures var toc := LowerAll(PendingsOf(w, entries));
      var c := AddAll(NOTHING, toc);
      && (name in c.toc <==> exists i :: 0 <= i < |entries| && IsFoundUnder(w, entries[i], name))
      && forall i: nat :: IsLastFound(w, entries, name, i) ==> name in c.toc && c.toc[name] == toc[i].info
  {
    var toc := LowerAll(PendingsOf(w, entries));
    AddAllMeaning(toc, name);
    forall i: nat
      ensures IsLastUnder(toc, name, i) <==> IsLastFound(w, entries, name, i)
    {
      LastMeaning(w, entries, name, i);
    }
    FoundOrNot(w, entries, name);
  }

  lemma LastIsExtracted(w: World, entries: seq<Request>, pyvers: nat, pylib: Bytes, archive: Bytes, prefix: Bytes,
                        suffix: Bytes, name: Bytes, i: nat)
    requires IsInverse(w)
    requires Assemble(Join(Blobs(w, entries)), PendingsOf(w, entries), pyvers, pylib) == Ok(archive)
    requires RFind(prefix + archive + suffix, MAGIC) == |prefix| + |archive| - COOKIE_LENGTH
    requires IsLastFound(w, entries, name, i)
    ensures Load(prefix + archive + suffix).Ok?
    ensures ExtractFrom(w, prefix + archive + suffix, Load(prefix + archive + suffix).value, name)
         == Ok(Payload(w, entries[i]))
  {
    EndToEnd(w, entries, pyvers, pylib, archive, prefix, suffix);
    LastMeaning(w, entries, name, i);
  }

  /** If any entry is found under the name, one of them is the last one. */
  lemma FoundOrNot(w: World, entries: seq<Request>, name: Bytes)
    requires AllCodes(PendingsOf(w, entries))
    ensures var toc := LowerAll(PendingsOf(w, entries));
      (exists i :: IsLastUnder(toc, name, i)) <==> exists i :: 0 <= i < |entries| && IsFoundUnder(w, entries[i], name)
  {
    var toc := LowerAll(PendingsOf(w, entries));
    var k := LastUnder(toc, name);
    forall i | 0 <= i < |entries|
      ensures IsUnder(toc[i], name) <==> IsFoundUnder(w, entries[i], name)
    {
      FoundMeaning(w, entries, i, name);
    }
    if k >= 0 {
      assert IsLastUnder(toc, name, k) && IsFoundUnder(w, entries[k], name);
    }
  }

  /** ... so what was collected for a destination is extracted under that destination, normalized, unless
      a later entry takes the name; and the fields say how it was stored. */
  lemma CollectedIsExtracted(w: World, entries: seq<Request>, pyvers: nat, pylib: Bytes, archive: Bytes,
                             prefix: Bytes, suffix: Bytes, i: nat, name: Bytes)
    requires IsInverse(w)
    requires Assemble(Join(Blobs(w, entries)), PendingsOf(w, entries), pyvers, pylib) == Ok(archive)
    requires RFind(prefix + archive + suffix, MAGIC) == |prefix| + |archive| - COOKIE_LENGTH
    requires i < |entries| && entries[i].typecode != "o" && entries[i].typecode != "d"
    requires name == w.normpath(entries[i].dest) && (name == [] || name[|name| - 1] != 0)
    requires forall j :: i < j < |entries| ==> !IsFoundUnder(w, entries[j], name)
    ensures Load(prefix + archive + suffix).Ok? && name in Load(prefix + archive + suffix).value.contents.toc
    ensures var r, l := entries[i], Load(prefix + archive + suffix).value;
      var info, data := l.contents.toc[name], ExtractFrom(w, prefix + archive + suffix, l, name);
      && data.Ok? && info.dataLength == |data.value| && info.compressed == (if r.compress then 1 else 0)
      && (r.typecode == "s" ==> data.value == w.scriptCode(name, r.src, 0))
      && (r.typecode == "s1" ==> data.value == w.scriptCode(name, r.src, 1))
      && (r.typecode == "s2" ==> data.value == w.scriptCode(name, r.src, 2))
      && (r.typecode == "m" || r.typecode == "M" ==> data.value == w.moduleCode(r.src))
      && (r.typecode == "n" ==> data.value == r.src + [0])
      && (r.typecode !in ["s", "s1", "s2", "m", "M", "n"] ==> data.value == w.contents(r.src))
      && (if r.typecode == "s1" || r.typecode == "s2" then info.typecode == 's' as int
          else |r.typecode| == 1 && info.typecode == r.typecode[0] as int)
  {
    assert Rstrip(name) == name;
    assert IsLastFound(w, entries, name, i);
    ListedMeaning(w, entries, pyvers, pylib, archive, prefix, suffix, name);
    StoredMeaning(w, entries, i);
    PayloadMeaning(w, entries[i]);
  }

  /** What is collected, by typecode. */
  lemma PayloadMeaning(w: World, r: Request)
    requires r.typecode != "o" && r.typecode != "d"
    ensures var name, data := w.normpath(r.dest), Payload(w, r);
      && (r.typecode == "s" ==> data == w.scriptCode(name, r.src, 0))
      && (r.typecode == "s1" ==> data == w.scriptCode(name, r.src, 1))
      && (r.typecode == "s2" ==> data == w.scriptCode(name, r.src, 2))
      && (r.typecode == "m" || r.typecode == "M" ==> data == w.moduleCode(r.src))
      && (r.typecode == "n" ==> data == r.src + [0])
      && (r.typecode !in ["s", "s1", "s2", "m", "M", "n"] ==> data == w.contents(r.src))
  {
    assert |"s1"| == 2;
  }

  // ---- The cookie ----

  /** The cookie takes the last 88 bytes of an archive: the magic, the length of the archive, where its
      TOC is and how long, the version, each in four bytes, and the name of the library, cut or padded
      to 64 bytes. */
  lemma CookieLayout(body: Bytes, toc: seq<Pending>, pyvers: nat, pylib: Bytes, archive: Bytes) returns (tocData: Bytes)
    requires Assemble(body, toc, pyvers, pylib) == Ok(archive)
    ensures AllCodes(toc) && Serialize(LowerAll(toc)) == Ok(tocData)
    ensures |archive| == |body| + |tocData| + 88 && archive[..|body| + |tocData|] == body + tocData
    ensures var k := archive[|body| + |tocData|..];
      && k[0..8] == [77, 69, 73, 12, 11, 10, 11, 14] && k[8..12] == BigEndian(|archive|, 4)
      && k[12..16] == BigEndian(|body|, 4) && k[16..20] == BigEndian(|tocData|, 4) && k[20..24] == BigEndian(pyvers, 4)
      && k[24..] == if |pylib| < 64 then pylib + Zeros(64 - |pylib|) else pylib[..64]
  {
    var cookie;
    tocData, cookie := AssembledParts(body, toc, pyvers, pylib, archive);
    assert archive[|body| + |tocData|..] == cookie;
    CookieDigits(cookie, |archive|, |body|, |tocData|, pyvers, pylib);
  }

  lemma CookieDigits(k: Bytes, a: nat, b: nat, c: nat, v: nat, lib: Bytes)
    requires a < LIMIT_32 && b < LIMIT_32 && c < LIMIT_32 && v < LIMIT_32
    requires k == Cookie(a, b, c, v, lib)
    ensures k[0..8] == MAGIC && k[8..12] == BigEndian(a, 4) && k[12..16] == BigEndian(b, 4)
    ensures k[16..20] == BigEndian(c, 4) && k[20..24] == BigEndian(v, 4) && k[24..] == Pad64(lib)
  {
    U32IsBigEndian(a);
    U32IsBigEndian(b);
    U32IsBigEndian(c);
    U32IsBigEndian(v);
  }

  // ---- Options ----

  lemma {:induction false} OptionsPicked(toc: seq<TocEntry>) returns (at: seq<nat>)
    ensures Ascending(at) && forall i: nat :: i in at <==> i < |toc| && toc[i].info.typecode == OPTION_CODE
    ensures |OptionNames(toc)| == |at|
    ensures forall k :: 0 <= k < |at| ==> at[k] < |toc| && OptionNames(toc)[k] == Rstrip(toc[at[k]].name)
    decreases |toc|
  {
    if toc == [] {
      at := [];
    } else {
      var n := |toc| - 1;
      at := OptionsPicked(toc[..n]);
      if toc[n].info.typecode == OPTION_CODE {
        AscendingNext(at, n);
        at := at + [n];
      }
    }
  }

  /** The options are read back in order, without NULs at their ends. */
  lemma OptionsAreRead(w: World, entries: seq<Request>, pyvers: nat, pylib: Bytes, archive: Bytes, prefix: Bytes,
                       suffix: Bytes) returns (at: seq<nat>)
    requires IsInverse(w)
    requires Assemble(Join(Blobs(w, entries)), PendingsOf(w, entries), pyvers, pylib) == Ok(archive)
    requires RFind(prefix + archive + suffix, MAGIC) == |prefix| + |archive| - COOKIE_LENGTH
    ensures Ascending(at) && forall i: nat :: i in at <==> i < |entries| && entries[i].typecode == "o"
    ensures Load(prefix + archive + suffix).Ok?
    ensures var options := Load(prefix + archive + suffix).value.contents.options;
      && |options| == |at|
      && forall k :: 0 <= k < |at| ==> at[k] < |entries| && options[k] == Rstrip(entries[at[k]].dest)
  {
    EndToEnd(w, entries, pyvers, pylib, archive, prefix, suffix);
    at := OptionsPicked(LowerAll(PendingsOf(w, entries)));
    forall i | 0 <= i < |entries|
      ensures LowerAll(PendingsOf(w, entries))[i].info.typecode == OPTION_CODE <==> entries[i].typecode == "o"
    {
      OptionCode(w, entries, i);
    }
  }

  // ---- Dependencies ----

  /** A string of C: what comes before the first NUL. */
  function CString(s: Bytes): (r: Bytes)
    ensures |r| <= |s| && r == s[..|r|] && 0 !in r
    ensures |r| < |s| ==> s[|r|] == 0
  {
    if s == [] || s[0] == 0 then [] else [s[0]] + CString(s[1..])
  }

  /** `strchr(s, c)`: the first position of `c`, or the length of `s`. */
  function IndexOf(s: Bytes, c: byte): (k: nat)
    ensures k <= |s| && c !in s[..k]
    ensures k < |s| ==> s[k] == c
  {
    if s == [] || s[0] == c then 0 else 1 + IndexOf(s[1..], c)
  }

  datatype Dependency = Dependency(path: Bytes, filename: Bytes)

  /** `pyi_multipkg_split_dependency_string`: the bootloader splits the name of a dependency at its first
      colon. */
  function SplitDependency(name: Bytes, pathMax: nat): (r: Option<Dependency>) {
    var s := CString(name);
    var k := IndexOf(s, 58);
    if |s| >= pathMax || k == |s| || k == 0 || k == |s| - 1 then None
    else Some(Dependency(s[..k], s[k + 1..]))
  }

  /** It gets back the executable and the destination that the dependency was written for if and only if
      neither is empty or has a NUL, the path of the executable has no colon, and both fit together. */
  lemma DependencyRoundTrip(path: Bytes, filename: Bytes, pathMax: nat)
    ensures SplitDependency(Rstrip(path + [58] + filename), pathMax) == Some(Dependency(path, filename)) <==>
      path != [] && filename != [] && 0 !in path && 0 !in filename && 58 !in path
      && |path| + 1 + |filename| < pathMax
  {
    var whole := path + [58] + filename;
    var name := Rstrip(whole);
    var s := CString(name);
    assert whole[|path|] == 58;
    if 0 in path || 0 in filename {
      ShortCString(whole);
    } else {
      assert 0 !in whole;
      assert name == whole && s == whole;
      var k := IndexOf(s, 58);
      if 58 in path {
        var j :| 0 <= j < |path| && path[j] == 58;
        assert s[j] == 58;
        assert k < |path|;
      } else {
        assert k == |path|;
        assert s[..k] == path && s[k + 1..] == filename;
      }
    }
  }

  lemma ShortCString(whole: Bytes)
    requires 0 in whole
    ensures |CString(Rstrip(whole))| < |whole|
  {
    var s := CString(Rstrip(whole));
    assert s == whole[..|s|];
  }

  // ---- Duplicates ----

  /** Strict mode does not let two entries, other than options and Python code, have the same nonempty
      destination in the case of the file system. */
  predicate IsChecked(r: Request) {
    r.typecode !in ["o", "s", "s1", "s2", "m", "M"]
  }

  predicate SameDestination(w: World, a: Request, b: Request) {
    && IsChecked(a) && IsChecked(b)
    && w.normcase(w.normpath(a.dest)) == w.normcase(w.normpath(b.dest)) != []
  }

  lemma DuplicateMeaning(w: World, entries: seq<Request>)
    ensures HasDuplicate(w, entries) <==>
      w.strict && exists i, j :: 0 <= i < j < |entries| && SameDestination(w, entries[i], entries[j])
  {
    forall i | 0 <= i < |entries|
      ensures IsTracked(w, entries[i]) <==>
        w.strict && IsChecked(entries[i]) && w.normcase(w.normpath(entries[i].dest)) != []
    {
    }
  }
}
