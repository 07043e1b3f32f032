/** CArchive files: written, embedded in other files, found again, and extracted. */
module CArchive {
  import opened Bytes
  import opened ArchiveToc

  /** `MEI\014\013\012\013\016` */
  const MAGIC: Bytes := [77, 69, 73, 12, 11, 10, 11, 14]
  const COOKIE_LENGTH := 88
  const SEARCH_CHUNK_SIZE := 8192

  /** An entry to collect; `typecode` is the one of the `PKG` level, such as "b", "s1" or "o". */
  datatype Request = Request(dest: Bytes, src: Bytes, compress: bool, typecode: string)

  /** Everything outside the archive code: zlib, files, compiled code, path normalization. */
  datatype World = World(
    compress: Bytes -> Bytes,
    decompress: Bytes -> Result<Bytes>,
    contents: Bytes -> Bytes,
    scriptCode: (Bytes, Bytes, nat) -> Bytes,
    moduleCode: Bytes -> Bytes,
    normpath: Bytes -> Bytes,
    normcase: Bytes -> Bytes,
    strict: bool)

  predicate IsScript(typecode: string) {
    typecode == "s" || typecode == "s1" || typecode == "s2"
  }

  // ---- What an entry becomes ----

  /** The bytes that `extract` should return. */
  function Payload(w: World, r: Request): Bytes {
    if r.typecode == "o" || r.typecode == "d" then []
    else if r.typecode == "s" then w.scriptCode(w.normpath(r.dest), r.src, 0)
    else if r.typecode == "s1" then w.scriptCode(w.normpath(r.dest), r.src, 1)
    else if r.typecode == "s2" then w.scriptCode(w.normpath(r.dest), r.src, 2)
    else if r.typecode == "m" || r.typecode == "M" then w.moduleCode(r.src)
    else if r.typecode == "n" then r.src + [0]
    else w.contents(r.src)
  }

  /** The name in the archive. */
  function NameOf(w: World, r: Request): Bytes {
    if r.typecode == "o" then r.dest
    else if r.typecode == "d" then r.src + [58] + w.normpath(r.dest)
    else w.normpath(r.dest)
  }

  function CodeOf(r: Request): string {
    if IsScript(r.typecode) then "s" else r.typecode
  }

  predicate IsCompressed(r: Request) {
    r.compress && r.typecode != "o" && r.typecode != "d"
  }

  function BlobOf(w: World, r: Request): Bytes {
    if IsCompressed(r) then w.compress(Payload(w, r)) else Payload(w, r)
  }

  function Blobs(w: World, entries: seq<Request>): (r: seq<Bytes>)
    ensures |r| == |entries| && forall i :: 0 <= i < |entries| ==> r[i] == BlobOf(w, entries[i])
  {
    seq(|entries|, i requires 0 <= i < |entries| => BlobOf(w, entries[i]))
  }

  /** A TOC entry before it is serialized, with the typecode still a string. */
  datatype Pending = Pending(offset: nat, length: nat, dataLength: nat, compress: bool, typecode: string, name: Bytes)

  function PendingAt(w: World, r: Request, offset: nat): Pending {
    Pending(offset, |BlobOf(w, r)|, |Payload(w, r)|, IsCompressed(r), CodeOf(r), NameOf(w, r))
  }

  function PendingsOf(w: World, entries: seq<Request>): (r: seq<Pending>)
    ensures |r| == |entries|
    ensures forall i :: 0 <= i < |entries| ==> r[i] == PendingAt(w, entries[i], Offset(Blobs(w, entries), i))
  {
    seq(|entries|, i requires 0 <= i < |entries| => PendingAt(w, entries[i], Offset(Blobs(w, entries), i)))
  }

  /** `typecode.encode('ascii')` must give one byte. */
  predicate IsCode(typecode: string) {
    |typecode| == 1 && typecode[0] as int < 128
  }

  function Lower(p: Pending): TocEntry
    requires IsCode(p.typecode)
  {
    TocEntry(Info(p.offset, p.length, p.dataLength, if p.compress then 1 else 0, p.typecode[0] as int), p.name)
  }

  predicate AllCodes(toc: seq<Pending>) {
    forall i :: 0 <= i < |toc| ==> IsCode(toc[i].typecode)
  }

  function LowerAll(toc: seq<Pending>): (r: seq<TocEntry>)
    requires AllCodes(toc)
    ensures |r| == |toc| && forall i :: 0 <= i < |toc| ==> r[i] == Lower(toc[i])
  {
    seq(|toc|, i requires 0 <= i < |toc| => Lower(toc[i]))
  }

  // ---- The file ----

  /** `struct.pack('64s', name)` cuts long names and pads short ones. */
  function Pad64(name: Bytes): (r: Bytes)
    ensures |r| == 64
  {
    if |name| >= 64 then name[..64] else name + Zeros(64 - |name|)
  }

  function Cookie(archiveLength: nat, tocOffset: nat, tocLength: nat, pyvers: nat, pylib: Bytes): (r: Bytes)
    requires archiveLength < LIMIT_32 && tocOffset < LIMIT_32 && tocLength < LIMIT_32 && pyvers < LIMIT_32
    ensures |r| == COOKIE_LENGTH
  {
    MAGIC + U32(archiveLength) + U32(tocOffset) + U32(tocLength) + U32(pyvers) + Pad64(pylib)
  }

  /** The blobs, the TOC, the cookie. */
  function Assemble(body: Bytes, toc: seq<Pending>, pyvers: nat, pylib: Bytes): Result<Bytes> {
    if !AllCodes(toc) then Err(StructError)
    else
      var tocData :- Serialize(LowerAll(toc));
      var archiveLength := |body| + |tocData| + COOKIE_LENGTH;
      if archiveLength >= LIMIT_32 || pyvers >= LIMIT_32 then Err(StructError)
      else Ok(body + tocData + Cookie(archiveLength, |body|, |tocData|, pyvers, pylib))
  }

  /** The key under which strict mode tracks an entry; options and Python code are exempt. */
  predicate IsTracked(w: World, r: Request) {
    && w.strict && r.typecode != "o" && !IsScript(r.typecode) && r.typecode != "m" && r.typecode != "M"
    && w.normcase(w.normpath(r.dest)) != []
  }

  function TrackedName(w: World, r: Request): Bytes {
    w.normcase(w.normpath(r.dest))
  }

  ghost predicate HasDuplicate(w: World, entries: seq<Request>) {
    exists i, j :: 0 <= i < j < |entries| && IsTracked(w, entries[i]) && IsTracked(w, entries[j])
      && TrackedName(w, entries[i]) == TrackedName(w, entries[j])
  }

  class CArchiveWriter {
    const world: World
    var file: Bytes
    var collectedNames: set<Bytes>

    constructor (w: World)
      ensures world == w && file == [] && collectedNames == {}
    {
      world := w;
      file := [];
      collectedNames := {};
    }

    method WriteBlob(blob: Bytes, name: Bytes, typecode: string, compress: bool) returns (p: Pending)
      modifies this`file
      ensures var stored := if compress then world.compress(blob) else blob;
        && file == old(file) + stored
        && p == Pending(|old(file)|, |stored|, |blob|, compress, typecode, name)
    {
      var offset := |file|;
      var stored := blob;
      if compress {
        stored := world.compress(blob);
      }
      file := file + stored;
      p := Pending(offset, |stored|, |blob|, compress, typecode, name);
    }

    method WriteEntry(r: Request) returns (res: Result<Pending>)
      modifies this
      ensures res.Err? <==> IsTracked(world, r) && TrackedName(world, r) in old(collectedNames)
      ensures res.Err? ==> res.error.DuplicateEntry? && file == old(file) && collectedNames == old(collectedNames)
      ensures res.Ok? ==> res.value == PendingAt(world, r, |old(file)|) && file == old(file) + BlobOf(world, r)
      ensures res.Ok? && IsTracked(world, r) ==> collectedNames == old(collectedNames) + {TrackedName(world, r)}
      ensures res.Ok? && !IsTracked(world, r) ==> collectedNames == old(collectedNames)
    {
      if r.typecode == "o" {
        var p := WriteBlob([], r.dest, r.typecode, false);
        return Ok(p);
      }
      var dest := world.normpath(r.dest);
      if world.strict {
        var tracked := !(IsScript(r.typecode) || r.typecode == "m" || r.typecode == "M");
        if tracked {
          var normalized := world.normcase(dest);
          if normalized != [] {
            if normalized in collectedNames {
              return Err(DuplicateEntry(normalized));
            }
            collectedNames := collectedNames + {normalized};
          }
        }
      }
      var p;
      if r.typecode == "d" {
        p := WriteBlob([], r.src + [58] + dest, r.typecode, false);
      } else if IsScript(r.typecode) {
        var level := if r.typecode == "s" then 0 else if r.typecode == "s1" then 1 else 2;
        p := WriteBlob(world.scriptCode(dest, r.src, level), dest, "s", r.compress);
      } else if r.typecode == "m" || r.typecode == "M" {
        p := WriteBlob(world.moduleCode(r.src), dest, r.typecode, r.compress);
      } else if r.typecode == "n" {
        p := WriteBlob(r.src + [0], dest, r.typecode, r.compress);
      } else {
        p := WriteBlob(world.contents(r.src), dest, r.typecode, r.compress);
      }
      return Ok(p);
    }

    /** The loop over the entries: strict mode stops at the first duplicate. */
    method WriteEntries(entries: seq<Request>) returns (res: Result<seq<Pending>>)
      requires file == [] && collectedNames == {}
      modifies this
      ensures HasDuplicate(world, entries) <==> res.Err?
      ensures res.Err? ==> res.error.DuplicateEntry?
      ensures res.Ok? ==> file == Join(Blobs(world, entries)) && res.value == PendingsOf(world, entries)
    {
      var toc: seq<Pending> := [];
      for i := 0 to |entries|
        invariant IsWritten(world, entries, i, file, toc, collectedNames)
      {
        ghost var before, names := file, collectedNames;
        var entry := WriteEntry(entries[i]);
        if entry.Err? {
          DuplicateAt(world, entries, i, TrackedName(world, entries[i]));
          return Err(entry.error);
        }
        WrittenStep(world, entries, i, before, toc, names, collectedNames);
        toc := toc + [entry.value];
      }
      assert entries[..|entries|] == entries;
      assert Blobs(world, entries)[..|entries|] == Blobs(world, entries);
      assert toc == PendingsOf(world, entries);
      return Ok(toc);
    }

    /** Strict mode fails exactly on duplicates; otherwise the file is the assembled archive, or
        something did not fit its field. */
    method Write(entries: seq<Request>, pyvers: nat, pylib: Bytes) returns (res: Result<()>)
      requires file == [] && collectedNames == {}
      modifies this
      ensures HasDuplicate(world, entries) <==> res.Err? && res.error.DuplicateEntry?
      ensures var archive := Assemble(Join(Blobs(world, entries)), PendingsOf(world, entries), pyvers, pylib);
        !HasDuplicate(world, entries) ==> if res.Ok? then archive == Ok(file) else archive == Err(res.error)
    {
      var toc :- WriteEntries(entries);
      res := WriteTocAndCookie(toc, pyvers, pylib);
    }

    method WriteTocAndCookie(toc: seq<Pending>, pyvers: nat, pylib: Bytes) returns (res: Result<()>)
      modifies this`file
      ensures res.Ok? ==> Assemble(old(file), toc, pyvers, pylib) == Ok(file)
      ensures res.Err? ==> Assemble(old(file), toc, pyvers, pylib) == Err(res.error) && res.error == StructError
    {
      if !AllCodes(toc) {
        return Err(StructError);
      }
      var tocOffset := |file|;
      var tocData :- SerializeToc(LowerAll(toc));
      file := file + tocData;
      var archiveLength := tocOffset + |tocData| + COOKIE_LENGTH;
      if archiveLength >= LIMIT_32 || pyvers >= LIMIT_32 {
        return Err(StructError);
      }
      file := file + Cookie(archiveLength, tocOffset, |tocData|, pyvers, pylib);
      return Ok(());
    }
  }

  /** The state after the first `i` entries. */
  ghost predicate IsWritten(w: World, entries: seq<Request>, i: nat, file: Bytes, toc: seq<Pending>,
                            names: set<Bytes>) {
    && i <= |entries| && file == Join(Blobs(w, entries)[..i]) && |toc| == i
    && (forall k :: 0 <= k < i ==> toc[k] == PendingAt(w, entries[k], Offset(Blobs(w, entries), k)))
    && names == (set k | 0 <= k < i && IsTracked(w, entries[k]) :: TrackedName(w, entries[k]))
    && !HasDuplicate(w, entries[..i])
  }

  lemma WrittenStep(w: World, entries: seq<Request>, i: nat, file: Bytes, toc: seq<Pending>,
                    names: set<Bytes>, names': set<Bytes>)
    requires i < |entries| && IsWritten(w, entries, i, file, toc, names)
    requires if IsTracked(w, entries[i])
             then TrackedName(w, entries[i]) !in names && names' == names + {TrackedName(w, entries[i])}
             else names' == names
    ensures IsWritten(w, entries, i + 1, file + BlobOf(w, entries[i]), toc + [PendingAt(w, entries[i], |file|)], names')
  {
    JoinStep(Blobs(w, entries), i);
    NamesStep(w, entries, i);
    NoDuplicateStep(w, entries, i);
  }

  lemma NamesStep(w: World, entries: seq<Request>, i: nat)
    requires i < |entries|
    ensures (set k | 0 <= k < i + 1 && IsTracked(w, entries[k]) :: TrackedName(w, entries[k])) ==
      (set k | 0 <= k < i && IsTracked(w, entries[k]) :: TrackedName(w, entries[k]))
      + if IsTracked(w, entries[i]) then {TrackedName(w, entries[i])} else {}
  {
  }

  lemma JoinStep(parts: seq<Bytes>, i: nat)
    requires i < |parts|
    ensures Join(parts[..i + 1]) == Join(parts[..i]) + parts[i]
  {
    assert parts[..i + 1][..i] == parts[..i];
  }

  lemma DuplicateAt(w: World, entries: seq<Request>, i: nat, name: Bytes)
    requires i < |entries| && IsTracked(w, entries[i]) && TrackedName(w, entries[i]) == name
    requires name in set k | 0 <= k < i && IsTracked(w, entries[k]) :: TrackedName(w, entries[k])
    ensures HasDuplicate(w, entries)
  {
    var k :| 0 <= k < i && IsTracked(w, entries[k]) && TrackedName(w, entries[k]) == name;
  }

  lemma NoDuplicateStep(w: World, entries: seq<Request>, i: nat)
    requires i < |entries| && !HasDuplicate(w, entries[..i])
    requires IsTracked(w, entries[i]) ==>
      TrackedName(w, entries[i]) !in set k | 0 <= k < i && IsTracked(w, entries[k]) :: TrackedName(w, entries[k])
    ensures !HasDuplicate(w, entries[..i + 1])
  {
    var s, t := entries[..i], entries[..i + 1];
    forall a, b | 0 <= a < b < |t| && IsTracked(w, t[a]) && IsTracked(w, t[b])
      ensures TrackedName(w, t[a]) != TrackedName(w, t[b])
    {
      assert t[a] == entries[a] && t[b] == entries[b];
      if b < i {
        assert s[a] == t[a] && s[b] == t[b];
      }
    }
  }

  // ---- Reading ----

  /** What the reader keeps: where the archive starts, and its TOC. */
  datatype Loaded = Loaded(start: int, contents: Contents)

  /** `fp.seek(pos)` and `fp.read(n)`: shorter at the end of the file. */
  function ReadAt(file: Bytes, pos: nat, n: nat): Bytes {
    if pos >= |file| then [] else if pos + n > |file| then file[pos..] else file[pos..pos + n]
  }

  /** As many bytes as there are, up to `n`. */
  lemma ReadAtMeaning(file: Bytes, pos: nat, n: nat)
    ensures var r := ReadAt(file, pos, n);
      && |r| <= n && (|r| < n ==> |file| <= pos + |r|)
      && (r != [] ==> pos + |r| <= |file| && r == file[pos..pos + |r|])
  {
  }

  function Load(file: Bytes): Result<Loaded> {
    var pos := RFind(file, MAGIC);
    if pos == -1 then Err(NoMagic)
    else if pos + COOKIE_LENGTH > |file| then Err(StructError)
    else
      var archiveLength, tocOffset, tocLength := U32At(file, pos + 8), U32At(file, pos + 12), U32At(file, pos + 16);
      var start := pos + COOKIE_LENGTH - archiveLength;
      if file[pos + 24..pos + COOKIE_LENGTH] == [] then Err(NoLibraryName)
      else if start + tocOffset < 0 then Err(NegativeSeek)
      else
        var contents :- ParseFrom(ReadAt(file, start + tocOffset, tocLength), 0, NOTHING);
        Ok(Loaded(start, contents))
  }

  function ExtractFrom(w: World, file: Bytes, l: Loaded, name: Bytes): Result<Bytes> {
    if name !in l.contents.toc then Err(NoSuchEntry(name))
    else
      var info := l.contents.toc[name];
      if l.start + info.offset < 0 then Err(NegativeSeek)
      else
        var data := ReadAt(file, l.start + info.offset, info.length);
        if info.compressed != 0 then w.decompress(data) else Ok(data)
  }

  class CArchiveReader {
    const world: World
    const file: Bytes
    var startOffset: int
    var toc: map<Bytes, Info>
    var options: seq<Bytes>

    constructor (w: World, f: Bytes)
      ensures world == w && file == f && startOffset == 0 && toc == map[] && options == []
    {
      world, file := w, f;
      startOffset := 0;
      toc, options := map[], [];
    }

    function State(): Loaded
      reads this
    {
      Loaded(startOffset, Contents(toc, options))
    }

    method Open() returns (res: Result<()>)
      modifies this
      ensures res.Ok? <==> Load(file).Ok?
      ensures res.Ok? ==> Load(file) == Ok(State())
      ensures res.Err? ==> Load(file) == Err(res.error)
    {
      var pos := FindMagicPattern(file, MAGIC, SEARCH_CHUNK_SIZE);
      if pos == -1 {
        return Err(NoMagic);
      }
      if pos + COOKIE_LENGTH > |file| {
        return Err(StructError);
      }
      var archiveLength, tocOffset, tocLength := U32At(file, pos + 8), U32At(file, pos + 12), U32At(file, pos + 16);
      startOffset := pos + COOKIE_LENGTH - archiveLength;
      var libraryName := file[pos + 24..pos + COOKIE_LENGTH];
      if libraryName == [] {
        return Err(NoLibraryName);
      }
      if startOffset + tocOffset < 0 {
        return Err(NegativeSeek);
      }
      var contents :- ParseToc(ReadAt(file, startOffset + tocOffset, tocLength));
      toc, options := contents.toc, contents.options;
      return Ok(());
    }

    method Extract(name: Bytes) returns (res: Result<Bytes>)
      ensures res == ExtractFrom(world, file, State(), name)
    {
      if name !in toc {
        return Err(NoSuchEntry(name));
      }
      var info := toc[name];
      if startOffset + info.offset < 0 {
        return Err(NegativeSeek);
      }
      var data := ReadAt(file, startOffset + info.offset, info.length);
      if info.compressed != 0 {
        res := world.decompress(data);
      } else {
        res := Ok(data);
      }
    }
  }

  /** The check for a missing library name never fires: the field always has 64 bytes. */
  lemma LibraryNameNeverMissing(file: Bytes)
    ensures Load(file) != Err(NoLibraryName)
  {
    var pos := RFind(file, MAGIC);
    if pos >= 0 && pos + COOKIE_LENGTH <= |file| {
      assert |file[pos + 24..pos + COOKIE_LENGTH]| == 64;
      var start := pos + COOKIE_LENGTH - U32At(file, pos + 8);
      if start + U32At(file, pos + 12) >= 0 {
        ParseErrors(ReadAt(file, start + U32At(file, pos + 12), U32At(file, pos + 16)), 0, NOTHING);
      }
    }
  }

  lemma {:induction false} ParseErrors(data: Bytes, pos: nat, c: Contents)
    requires pos <= |data|
    ensures var r := ParseFrom(data, pos, c); r.Ok? || r.error == StructError || r.error == DecodeError
    decreases |data| - pos
  {
    if pos < |data| && EntryAt(data, pos).Ok? {
      var p := EntryAt(data, pos).value;
      ParseErrors(data, p.next, Add(c, p.info, p.name));
    }
  }

  /** Reading fails if there is no magic anywhere; ... */
  lemma NoMagicMeaning(file: Bytes)
    ensures Load(file) == Err(NoMagic) <==> forall j :: !OccursAt(file, [77, 69, 73, 12, 11, 10, 11, 14], j)
  {
    var pos := RFind(file, MAGIC);
    if pos >= 0 && pos + COOKIE_LENGTH <= |file| {
      LoadMeaning(file, pos, pos + COOKIE_LENGTH - U32At(file, pos + 8), U32At(file, pos + 12));
      if pos + COOKIE_LENGTH - U32At(file, pos + 8) + U32At(file, pos + 12) >= 0 {
        ParseErrors(TocBytes(file, pos), 0, NOTHING);
      }
    }
  }

  /** The bytes of the TOC, according to the cookie at `pos`. */
  function TocBytes(file: Bytes, pos: nat): Bytes
    requires pos + 88 <= |file| && pos + 88 - U32At(file, pos + 8) + U32At(file, pos + 12) >= 0
  {
    ReadAt(file, pos + 88 - U32At(file, pos + 8) + U32At(file, pos + 12), U32At(file, pos + 16))
  }

  /** ... if the last magic is that of a cookie that is cut off; if the TOC were to begin before the file;
      or if something is wrong with the TOC. */
  lemma LoadMeaning(file: Bytes, pos: nat, start: int, tocOffset: nat)
    requires RFind(file, MAGIC) == pos
    requires pos + 88 <= |file| ==> start == pos + 88 - U32At(file, pos + 8) && tocOffset == U32At(file, pos + 12)
    ensures pos + 88 > |file| ==> Load(file) == Err(StructError)
    ensures pos + 88 <= |file| && start + tocOffset < 0 ==> Load(file) == Err(NegativeSeek)
    ensures pos + 88 <= |file| && start + tocOffset >= 0 ==>
      Load(file) == match ParseFrom(TocBytes(file, pos), 0, NOTHING)
                    case Ok(contents) => Ok(Loaded(start, contents))
                    case Err(e) => Err(e)
  {
    if pos + COOKIE_LENGTH <= |file| {
      assert |file[pos + 24..pos + COOKIE_LENGTH]| == 64;
    }
  }

  // ---- End to end ----

  /** The fields of the cookie, wherever it lies. */
  lemma CookieFields(file: Bytes, pos: nat, k: Bytes, a: nat, b: nat, c: nat, v: nat, lib: Bytes)
    requires a < LIMIT_32 && b < LIMIT_32 && c < LIMIT_32 && v < LIMIT_32
    requires k == Cookie(a, b, c, v, lib)
    requires pos + |k| <= |file| && file[pos..pos + |k|] == k
    ensures U32At(file, pos + 8) == a && U32At(file, pos + 12) == b && U32At(file, pos + 16) == c
    ensures OccursAt(file, MAGIC, pos)
  {
    CookieParts(k, a, b, c, v, lib);
    SliceOfSlice(file, pos, pos + |k|, 0, 8);
    SliceOfSlice(file, pos, pos + |k|, 8, 12);
    SliceOfSlice(file, pos, pos + |k|, 12, 16);
    SliceOfSlice(file, pos, pos + |k|, 16, 20);
    U32RoundTrip(file, pos + 8, a);
    U32RoundTrip(file, pos + 12, b);
    U32RoundTrip(file, pos + 16, c);
  }

  lemma CookieParts(k: Bytes, a: nat, b: nat, c: nat, v: nat, lib: Bytes)
    requires a < LIMIT_32 && b < LIMIT_32 && c < LIMIT_32 && v < LIMIT_32
    requires k == Cookie(a, b, c, v, lib)
    ensures k[0..8] == MAGIC && k[8..12] == U32(a) && k[12..16] == U32(b) && k[16..20] == U32(c)
  {
  }

  /** A stretch of an embedded archive reads back as written. */
  lemma ReadEmbedded(prefix: Bytes, a: Bytes, b: Bytes, c: Bytes)
    ensures ReadAt(prefix + (a + b) + c, |prefix| + |a|, |b|) == b
  {
    var file := prefix + (a + b) + c;
    if |b| == 0 {
    } else {
      assert file[|prefix| + |a|..|prefix| + |a| + |b|] == b;
    }
  }

  lemma AssembledParts(body: Bytes, toc: seq<Pending>, pyvers: nat, pylib: Bytes, archive: Bytes)
    returns (tocData: Bytes, cookie: Bytes)
    requires Assemble(body, toc, pyvers, pylib) == Ok(archive)
    ensures AllCodes(toc) && Serialize(LowerAll(toc)) == Ok(tocData)
    ensures |archive| < LIMIT_32 && pyvers < LIMIT_32 && cookie == Cookie(|archive|, |body|, |tocData|, pyvers, pylib)
    ensures archive == body + tocData + cookie
  {
    tocData := Serialize(LowerAll(toc)).value;
    cookie := Cookie(|body| + |tocData| + COOKIE_LENGTH, |body|, |tocData|, pyvers, pylib);
  }

  /** Reading, once the fields of the cookie are known. */
  lemma {:induction false} LoadAt(file: Bytes, pos: nat, start: nat, tocOffset: nat, tocData: Bytes)
    requires RFind(file, MAGIC) == pos && pos + COOKIE_LENGTH <= |file|
    requires U32At(file, pos + 8) == pos + COOKIE_LENGTH - start
    requires U32At(file, pos + 12) == tocOffset && U32At(file, pos + 16) == |tocData|
    requires ReadAt(file, start + tocOffset, |tocData|) == tocData
    requires ParseFrom(tocData, 0, NOTHING).Ok?
    ensures Load(file) == Ok(Loaded(start, ParseFrom(tocData, 0, NOTHING).value))
  {
    LoadMeaning(file, pos, start, tocOffset);
    assert TocBytes(file, pos) == tocData;
  }

  lemma CookieEmbedded(prefix: Bytes, a: Bytes, cookie: Bytes, suffix: Bytes)
    ensures var pos := |prefix| + |a|;
      (prefix + (a + cookie) + suffix)[pos..pos + |cookie|] == cookie
  {
  }

  lemma CookieLocated(file: Bytes, prefix: Bytes, front: Bytes, cookie: Bytes, suffix: Bytes,
                      a: nat, b: nat, c: nat, v: nat, lib: Bytes)
    requires a < LIMIT_32 && b < LIMIT_32 && c < LIMIT_32 && v < LIMIT_32
    requires cookie == Cookie(a, b, c, v, lib) && file == prefix + (front + cookie) + suffix
    ensures var pos := |prefix| + |front|;
      && pos + COOKIE_LENGTH <= |file|
      && U32At(file, pos + 8) == a && U32At(file, pos + 12) == b && U32At(file, pos + 16) == c
  {
    CookieEmbedded(prefix, front, cookie, suffix);
    CookieFields(file, |prefix| + |front|, cookie, a, b, c, v, lib);
  }

  /** What the reader sees of an embedded archive. */
  lemma EmbeddedFields(prefix: Bytes, archive: Bytes, suffix: Bytes,
                       body: Bytes, toc: seq<Pending>, pyvers: nat, pylib: Bytes) returns (tocData: Bytes)
    requires Assemble(body, toc, pyvers, pylib) == Ok(archive)
    ensures AllCodes(toc) && Serialize(LowerAll(toc)) == Ok(tocData)
    ensures |archive| == |body| + |tocData| + COOKIE_LENGTH
    ensures var file, pos := prefix + archive + suffix, |prefix| + |archive| - COOKIE_LENGTH;
      && pos + COOKIE_LENGTH <= |file|
      && U32At(file, pos + 8) == |archive| && U32At(file, pos + 12) == |body| && U32At(file, pos + 16) == |tocData|
      && ReadAt(file, |prefix| + |body|, |tocData|) == tocData
  {
    var cookie;
    tocData, cookie := AssembledParts(body, toc, pyvers, pylib, archive);
    TocEmbedded(prefix, body, tocData, cookie, suffix);
    CookieLocated(prefix + archive + suffix, prefix, body + tocData, cookie, suffix, |archive|, |body|, |tocData|,
                  pyvers, pylib);
  }

  /** The reader finds the start of the archive and its TOC, whatever surrounds it. */
  lemma LoadEmbedded(prefix: Bytes, archive: Bytes, suffix: Bytes,
                     body: Bytes, toc: seq<Pending>, pyvers: nat, pylib: Bytes)
    requires Assemble(body, toc, pyvers, pylib) == Ok(archive)
    requires RFind(prefix + archive + suffix, MAGIC) == |prefix| + |archive| - COOKIE_LENGTH
    ensures AllCodes(toc)
    ensures Load(prefix + archive + suffix) == Ok(Loaded(|prefix|, AddAll(NOTHING, LowerAll(toc))))
  {
    var tocData := EmbeddedFields(prefix, archive, suffix, body, toc, pyvers, pylib);
    LoadFields(prefix + archive + suffix, |prefix| + |archive| - COOKIE_LENGTH, |prefix|, |body|, tocData, toc);
  }

  lemma LoadFields(file: Bytes, pos: nat, start: nat, tocOffset: nat, tocData: Bytes, toc: seq<Pending>)
    requires RFind(file, MAGIC) == pos && pos + COOKIE_LENGTH <= |file|
    requires U32At(file, pos + 8) == pos + COOKIE_LENGTH - start
    requires U32At(file, pos + 12) == tocOffset && U32At(file, pos + 16) == |tocData|
    requires ReadAt(file, start + tocOffset, |tocData|) == tocData
    requires AllCodes(toc) && Serialize(LowerAll(toc)) == Ok(tocData)
    ensures Load(file) == Ok(Loaded(start, AddAll(NOTHING, LowerAll(toc))))
  {
    LoweredToc(toc);
    LoadAt(file, pos, start, tocOffset, tocData);
  }

  lemma TocEmbedded(prefix: Bytes, body: Bytes, tocData: Bytes, cookie: Bytes, suffix: Bytes)
    ensures ReadAt(prefix + (body + tocData + cookie) + suffix, |prefix| + |body|, |tocData|) == tocData
  {
    assert prefix + (body + tocData + cookie) + suffix == prefix + (body + tocData) + (cookie + suffix);
    ReadEmbedded(prefix, body, tocData, cookie + suffix);
  }

  lemma LoweredToc(toc: seq<Pending>)
    requires AllCodes(toc) && Serialize(LowerAll(toc)).Ok?
    ensures ParseFrom(Serialize(LowerAll(toc)).value, 0, NOTHING) == Ok(AddAll(NOTHING, LowerAll(toc)))
  {
    ParseSerialized(LowerAll(toc));
  }

  /** The reader looks at the right cookie if and only if the magic does not occur after it. */
  lemma CookieIsFound(prefix: Bytes, archive: Bytes, suffix: Bytes,
                      body: Bytes, toc: seq<Pending>, pyvers: nat, pylib: Bytes)
    requires Assemble(body, toc, pyvers, pylib) == Ok(archive)
    ensures var file, pos := prefix + archive + suffix, |prefix| + |archive| - COOKIE_LENGTH;
      RFind(file, MAGIC) == pos <==> forall j :: j > pos ==> !OccursAt(file, MAGIC, j)
  {
    var tocData, cookie := AssembledParts(body, toc, pyvers, pylib, archive);
    var file, pos := prefix + archive + suffix, |prefix| + |archive| - COOKIE_LENGTH;
    CookieEmbedded(prefix, body + tocData, cookie, suffix);
    CookieFields(file, pos, cookie, |archive|, |body|, |tocData|, pyvers, pylib);
  }

  ghost predicate IsInverse(w: World) {
    forall b :: w.decompress(w.compress(b)) == Ok(b)
  }

  /** One stored blob is read back, ... */
  lemma ReadBlob(parts: seq<Bytes>, prefix: Bytes, rest: Bytes, i: nat)
    requires i < |parts|
    ensures ReadAt(prefix + (Join(parts) + rest), |prefix| + Offset(parts, i), |parts[i]|) == parts[i]
  {
    var body := Join(parts);
    JoinAt(parts, i);
    var lo, hi := Offset(parts, i), Offset(parts, i + 1);
    var a, b, d := body[..lo], body[lo..hi], body[hi..] + rest;
    assert prefix + (body + rest) == prefix + (a + b) + d;
    ReadEmbedded(prefix, a, b, d);
  }

  /** ... and decompressed if it was compressed. */
  lemma ExtractStored(w: World, file: Bytes, l: Loaded, name: Bytes, stored: Bytes, payload: Bytes)
    requires l.start >= 0 && name in l.contents.toc && l.contents.toc[name].length == |stored|
    requires ReadAt(file, l.start + l.contents.toc[name].offset, |stored|) == stored
    requires if l.contents.toc[name].compressed != 0 then w.decompress(stored) == Ok(payload) else stored == payload
    ensures ExtractFrom(w, file, l, name) == Ok(payload)
  {
  }

  lemma StoredFields(w: World, entries: seq<Request>, i: nat)
    requires i < |entries| && IsCode(CodeOf(entries[i])) && IsInverse(w)
    ensures var info := Lower(PendingsOf(w, entries)[i]).info;
      && info.offset == Offset(Blobs(w, entries), i) && info.length == |Blobs(w, entries)[i]|
      && if info.compressed != 0 then w.decompress(Blobs(w, entries)[i]) == Ok(Payload(w, entries[i]))
         else Blobs(w, entries)[i] == Payload(w, entries[i])
  {
    assert w.decompress(w.compress(Payload(w, entries[i]))) == Ok(Payload(w, entries[i]));
  }

  lemma ExtractEntry(w: World, entries: seq<Request>, prefix: Bytes, rest: Bytes, i: nat, c: Contents, name: Bytes)
    requires IsInverse(w) && i < |entries| && IsCode(CodeOf(entries[i]))
    requires name in c.toc && c.toc[name] == Lower(PendingsOf(w, entries)[i]).info
    ensures ExtractFrom(w, prefix + (Join(Blobs(w, entries)) + rest), Loaded(|prefix|, c), name)
         == Ok(Payload(w, entries[i]))
  {
    StoredFields(w, entries, i);
    ReadBlob(Blobs(w, entries), prefix, rest, i);
    ExtractBlob(w, prefix + (Join(Blobs(w, entries)) + rest), |prefix|, c, name, c.toc[name],
                Blobs(w, entries)[i], Payload(w, entries[i]));
  }

  lemma ExtractBlob(w: World, file: Bytes, start: nat, c: Contents, name: Bytes, info: Info, blob: Bytes,
                    payload: Bytes)
    requires name in c.toc && c.toc[name] == info && info.length == |blob|
    requires ReadAt(file, start + info.offset, |blob|) == blob
    requires if info.compressed != 0 then w.decompress(blob) == Ok(payload) else blob == payload
    ensures ExtractFrom(w, file, Loaded(start, c), name) == Ok(payload)
  {
    ExtractStored(w, file, Loaded(start, c), name, blob, payload);
  }

  /** Main result on archives. Take any entries that a writer accepts and put the archive between
      any two byte strings such that the magic does not occur after the archive's own cookie. The
      reader finds the start of the archive, lists the options in order, and extracts under each
      name the bytes of the last entry written under it, and nothing under other names. */
  lemma EndToEnd(w: World, entries: seq<Request>, pyvers: nat, pylib: Bytes, archive: Bytes, prefix: Bytes,
                 suffix: Bytes)
    requires IsInverse(w)
    requires Assemble(Join(Blobs(w, entries)), PendingsOf(w, entries), pyvers, pylib) == Ok(archive)
    requires RFind(prefix + archive + suffix, MAGIC) == |prefix| + |archive| - COOKIE_LENGTH
    ensures var file := prefix + archive + suffix;
      && AllCodes(PendingsOf(w, entries))
      && var toc := LowerAll(PendingsOf(w, entries));
      && Load(file).Ok? && Load(file).value.start == |prefix|
      && Load(file).value.contents.options == OptionNames(toc)
      && (forall name, i :: IsLastUnder(toc, name, i) ==>
            ExtractFrom(w, file, Load(file).value, name) == Ok(Payload(w, entries[i])))
      && (forall name :: (!exists i :: IsLastUnder(toc, name, i)) ==>
            ExtractFrom(w, file, Load(file).value, name) == Err(NoSuchEntry(name)))
  {
    var body, pendings := Join(Blobs(w, entries)), PendingsOf(w, entries);
    LoadEmbedded(prefix, archive, suffix, body, pendings, pyvers, pylib);
    var tocData, cookie := AssembledParts(body, pendings, pyvers, pylib, archive);
    AddAllOptions(LowerAll(pendings));
    Reassociate(prefix, body, tocData, cookie, suffix);
    forall name, i | IsLastUnder(LowerAll(pendings), name, i) {
      ExtractByName(w, entries, prefix, tocData + cookie + suffix, name, i);
    }
    forall name | !exists i :: IsLastUnder(LowerAll(pendings), name, i) {
      ExtractMissing(w, prefix + archive + suffix, |prefix|, LowerAll(pendings), name);
    }
  }

  lemma ExtractByName(w: World, entries: seq<Request>, prefix: Bytes, rest: Bytes, name: Bytes, i: nat)
    requires IsInverse(w) && AllCodes(PendingsOf(w, entries)) && IsLastUnder(LowerAll(PendingsOf(w, entries)), name, i)
    ensures ExtractFrom(w, prefix + (Join(Blobs(w, entries)) + rest),
      Loaded(|prefix|, AddAll(NOTHING, LowerAll(PendingsOf(w, entries)))), name) == Ok(Payload(w, entries[i]))
  {
    var toc := LowerAll(PendingsOf(w, entries));
    AddAllMeaning(toc, name);
    assert toc[i] == Lower(PendingsOf(w, entries)[i]);
    ExtractEntry(w, entries, prefix, rest, i, AddAll(NOTHING, toc), name);
  }

  lemma Reassociate(a: Bytes, b: Bytes, c: Bytes, d: Bytes, e: Bytes)
    ensures a + (b + c + d) + e == a + (b + (c + d + e))
  {
  }

  lemma ExtractMissing(w: World, file: Bytes, start: int, toc: seq<TocEntry>, name: Bytes)
    requires !exists i :: IsLastUnder(toc, name, i)
    ensures ExtractFrom(w, file, Loaded(start, AddAll(NOTHING, toc)), name) == Err(NoSuchEntry(name))
  {
    AddAllMeaning(toc, name);
  }
}
