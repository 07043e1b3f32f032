/** The on-disk cache of processed binaries: `process_collected_binary`. */
module BinaryCache {
  import opened FileTree
  import opened Bytes
  import opened Paths

  type Digest = Bytes

  datatype Platform = Darwin | Linux | Windows

  /** What a call asks for; empty texts stand for arguments that are not given. */
  datatype Options = Options(strip: bool, upx: bool, arch: string, identity: string, entitlements: Option<Bytes>)

  /** What is found out about a source file: whether its path matches a pattern of files that UPX must
      not touch, whether it has control flow guard or is a Qt plugin, and whether a checksum file lies
      beside it. */
  datatype Facts = Facts(excluded: bool, guarded: bool, qtPlugin: bool, checksum: bool)

  /** The directory of the cache; hashes stand for identities and entitlements. */
  datatype Dir = Dir(strip: bool, upx: bool, arch: string, identity: Option<Digest>, entitlements: Option<Digest>)

  /** A file in the cache: its directory and its case-normalized destination. */
  datatype Key = Key(dir: Dir, id: Path)

  /** What processing does to a copy of a file: it succeeds, or finds the wrong architecture, or fails;
      the copy is left with some content in any case. */
  datatype Outcome = Done(content: Bytes) | WrongArch(content: Bytes) | Broken(content: Bytes)

  /** Everything outside the cache. */
  datatype World = World(
    platform: Platform, digest: Bytes -> Digest, hashText: string -> Digest, normcase: Path -> Path,
    process: (Options, Path, Bytes) -> Outcome)

  /** Digests do not collide, and processing does not depend on the case of a destination. */
  ghost predicate IsWorld(w: World) {
    && (forall a, b :: w.digest(a) == w.digest(b) ==> a == b)
    && (forall a, b :: w.hashText(a) == w.hashText(b) ==> a == b)
    && (forall o, a, b, c :: w.normcase(a) == w.normcase(b) ==> w.process(o, a, c) == w.process(o, b, c))
  }

  // ---- Options and directories ----

  predicate NothingToDo(w: World, o: Options) {
    !o.strip && !o.upx && !w.platform.Darwin?
  }

  /** The options after the rules that turn UPX and strip off. */
  function Effective(w: World, o: Options, f: Facts): Options {
    var upx := o.upx && !f.excluded && !(w.platform.Windows? && f.guarded) && !f.qtPlugin;
    if w.platform.Linux? && f.checksum then o.(strip := false, upx := false) else o.(upx := upx)
  }

  function DirOf(w: World, o: Options): Dir {
    if w.platform.Darwin? then
      Dir(o.strip, o.upx, o.arch,
          if o.identity == "" then None else Some(w.hashText(o.identity)),
          if o.entitlements.None? then None else Some(w.digest(o.entitlements.value)))
    else
      Dir(o.strip, o.upx, o.arch, None, None)
  }

  function KeyOf(w: World, o: Options, dest: Path): Key {
    Key(DirOf(w, o), w.normcase(dest))
  }

  /** Elsewhere nothing is signed, so identities and entitlements make no difference. */
  ghost predicate SigningIsLocal(w: World) {
    !w.platform.Darwin? ==>
      forall o: Options, p: Options, d, c :: o.strip == p.strip && o.upx == p.upx && o.arch == p.arch ==>
        w.process(o, d, c) == w.process(p, d, c)
  }

  /** Calls with the same key process the same content alike. */
  lemma KeyDeterminesProcessing(w: World, o: Options, dest: Path, o': Options, dest': Path, c: Bytes)
    requires IsWorld(w) && SigningIsLocal(w) && KeyOf(w, o, dest) == KeyOf(w, o', dest')
    ensures w.process(o, dest, c) == w.process(o', dest', c)
  {
    assert w.process(o, dest, c) == w.process(o, dest', c);
    if w.platform.Darwin? {
      assert o.identity == o'.identity;
      assert o.entitlements == o'.entitlements;
      assert o == o';
    }
  }

  // ---- One call ----

  datatype Cache = Cache(index: map<Key, Digest>, files: map<Key, Bytes>)

  /** What a call returns: the source itself, or a file in the cache; or it raises an exception. */
  datatype Result = Source | Cached(key: Key) | Raises

  datatype Call = Call(source: Bytes, dest: Path, options: Options, facts: Facts, strict: bool)

  predicate Fails(outcome: Outcome, strict: bool) {
    outcome.Broken? || (outcome.WrongArch? && strict)
  }

  /** Processing the source and recording it. A failing call leaves its file, but not in the index. */
  function Refresh(w: World, s: Cache, k: Key, c: Call, o: Options): (Cache, Result) {
    var outcome := w.process(o, c.dest, c.source);
    var files := s.files[k := outcome.content];
    if Fails(outcome, c.strict) then (Cache(s.index, files), Raises)
    else (Cache(s.index[k := w.digest(c.source)], files), Cached(k))
  }

  function Step(w: World, s: Cache, c: Call): (Cache, Result) {
    if NothingToDo(w, c.options) then (s, Source)
    else
      var o := Effective(w, c.options, c.facts);
      if NothingToDo(w, o) then (s, Source)
      else
        var k := KeyOf(w, o, c.dest);
        if k in s.index && s.index[k] == w.digest(c.source) then (s, Cached(k))
        else if k in s.index && k !in s.files then (s, Raises)
        else Refresh(w, s, k, c, o)
  }

  /** An entry of the index is the digest of a file that, processed with the options of its directory,
      has the content of the file in the cache. */
  ghost predicate Agrees(w: World, s: Cache, k: Key) {
    k in s.index ==> k in s.files && exists c: Bytes, o, d :: IsProcessed(w, s, k, c, o, d)
  }

  ghost predicate IsProcessed(w: World, s: Cache, k: Key, c: Bytes, o: Options, d: Path)
    requires k in s.index && k in s.files
  {
    KeyOf(w, o, d) == k && w.digest(c) == s.index[k] && s.files[k] == w.process(o, d, c).content &&
      !w.process(o, d, c).Broken?
  }

  ghost predicate Consistent(w: World, s: Cache) {
    forall k :: Agrees(w, s, k)
  }

  /** The options with which a call processes its source. */
  function OptionsOf(w: World, c: Call): Options {
    if NothingToDo(w, c.options) then c.options else Effective(w, c.options, c.facts)
  }

  /** The result of a call is what processing its source gives now. */
  ghost predicate IsCurrent(w: World, s: Cache, c: Call, r: Result) {
    match r
    case Raises => false
    case Source => NothingToDo(w, OptionsOf(w, c))
    case Cached(k) =>
      && !NothingToDo(w, OptionsOf(w, c)) && k == KeyOf(w, OptionsOf(w, c), c.dest) && k in s.files
      && s.files[k] == w.process(OptionsOf(w, c), c.dest, c.source).content
      && !w.process(OptionsOf(w, c), c.dest, c.source).Broken?
  }

  lemma FoundIsCurrent(w: World, s: Cache, k: Key, source: Bytes, o: Options, dest: Path)
    requires IsWorld(w) && SigningIsLocal(w) && Agrees(w, s, k) && k == KeyOf(w, o, dest)
    requires k in s.index && s.index[k] == w.digest(source)
    ensures k in s.files && s.files[k] == w.process(o, dest, source).content && !w.process(o, dest, source).Broken?
  {
    var c: Bytes, p, d :| IsProcessed(w, s, k, c, p, d);
    assert c == source;
    KeyDeterminesProcessing(w, p, d, o, dest, c);
  }

  lemma RefreshAgrees(w: World, s: Cache, k: Key, c: Call, o: Options)
    requires Consistent(w, s) && k == KeyOf(w, o, c.dest) && Refresh(w, s, k, c, o).1 != Raises
    ensures Consistent(w, Refresh(w, s, k, c, o).0)
  {
    var t := Refresh(w, s, k, c, o).0;
    forall k'
      ensures Agrees(w, t, k')
    {
      assert Agrees(w, s, k');
      if k' == k {
        assert IsProcessed(w, t, k, c.source, o, c.dest);
      } else if k' in s.index {
        var b: Bytes, p, d :| IsProcessed(w, s, k', b, p, d);
        assert IsProcessed(w, t, k', b, p, d);
      }
    }
  }

  /** A call that returns normally keeps the cache consistent, and returns a file with the content that
      processing the source gives. */
  lemma StepIsCurrent(w: World, s: Cache, c: Call)
    requires IsWorld(w) && SigningIsLocal(w) && Consistent(w, s) && !Step(w, s, c).1.Raises?
    ensures Consistent(w, Step(w, s, c).0) && IsCurrent(w, Step(w, s, c).0, c, Step(w, s, c).1)
  {
    var o := OptionsOf(w, c);
    if !NothingToDo(w, c.options) && !NothingToDo(w, o) {
      var k := KeyOf(w, o, c.dest);
      assert Agrees(w, s, k);
      if k in s.index && s.index[k] == w.digest(c.source) {
        FoundIsCurrent(w, s, k, c.source, o, c.dest);
      } else {
        RefreshAgrees(w, s, k, c, o);
      }
    }
  }

  // ---- Which files are processed ----

  /** A file is compressed if this is asked for, no pattern excludes it, it is no Qt plugin, it has no
      control flow guard on Windows, and on Linux no checksum lies beside it; it is stripped if this is
      asked for and on Linux no checksum lies beside it. Nothing else about the options changes. */
  lemma OptionsMeaning(w: World, c: Call)
    ensures var o := OptionsOf(w, c);
      && (o.upx <==> c.options.upx && !c.facts.excluded && !c.facts.qtPlugin
                     && !(w.platform == Windows && c.facts.guarded) && !(w.platform == Linux && c.facts.checksum))
      && (o.strip <==> c.options.strip && !(w.platform == Linux && c.facts.checksum))
      && o.arch == c.options.arch && o.identity == c.options.identity && o.entitlements == c.options.entitlements
  {
  }

  /** The source itself is returned, and the cache stays as it is, if and only if the platform is not
      macOS and the file is neither to be stripped nor to be compressed. */
  lemma SourceMeaning(w: World, s: Cache, c: Call)
    ensures Step(w, s, c).1 == Source <==>
      && w.platform != Darwin
      && !(c.options.strip && !(w.platform == Linux && c.facts.checksum))
      && !(c.options.upx && !c.facts.excluded && !c.facts.qtPlugin
           && !(w.platform == Windows && c.facts.guarded) && !(w.platform == Linux && c.facts.checksum))
    ensures Step(w, s, c).1 == Source ==> Step(w, s, c).0 == s
  {
  }

  /** Two calls use the same file of the cache if and only if they agree on stripping, compression,
      architecture and destination; on macOS also on the identity and the entitlements. */
  lemma KeyMeaning(w: World, o: Options, dest: Path, o': Options, dest': Path)
    requires IsWorld(w)
    ensures KeyOf(w, o, dest) == KeyOf(w, o', dest') <==>
      && o.strip == o'.strip && o.upx == o'.upx && o.arch == o'.arch && w.normcase(dest) == w.normcase(dest')
      && (w.platform == Darwin ==> o.identity == o'.identity && o.entitlements == o'.entitlements)
  {
  }

  // ---- Whole runs ----

  ghost predicate StepAt(w: World, states: seq<Cache>, calls: seq<Call>, results: seq<Result>, i: nat) {
    i < |calls| && i + 1 < |states| && i < |results| && Step(w, states[i], calls[i]) == (states[i + 1], results[i])
  }

  /** The states and results of a run of any calls, exceptions included, starting with `states[0]`. */
  ghost predicate IsTrace(w: World, states: seq<Cache>, calls: seq<Call>, results: seq<Result>) {
    && |states| == |calls| + 1 && |results| == |calls|
    && (forall i: nat :: i < |calls| ==> StepAt(w, states, calls, results, i))
  }

  /** In this run all calls return normally. */
  ghost predicate IsRun(w: World, states: seq<Cache>, calls: seq<Call>, results: seq<Result>) {
    IsTrace(w, states, calls, results) && Raises !in results
  }

  lemma NextIsConsistent(w: World, states: seq<Cache>, calls: seq<Call>, results: seq<Result>, i: nat)
    requires IsWorld(w) && SigningIsLocal(w) && StepAt(w, states, calls, results, i) && Consistent(w, states[i])
    requires results[i] != Raises
    ensures Consistent(w, states[i + 1]) && IsCurrent(w, states[i + 1], calls[i], results[i])
  {
    StepIsCurrent(w, states[i], calls[i]);
  }

  /** In a run of calls that all return normally, the cache stays consistent. */
  lemma {:induction false} RunIsConsistent(w: World, states: seq<Cache>, calls: seq<Call>, results: seq<Result>, n: nat)
    requires IsWorld(w) && SigningIsLocal(w) && IsRun(w, states, calls, results) && Consistent(w, states[0])
    requires n < |states|
    ensures Consistent(w, states[n])
  {
    if n > 0 {
      RunIsConsistent(w, states, calls, results, n - 1);
      assert StepAt(w, states, calls, results, n - 1) && results[n - 1] in results;
      NextIsConsistent(w, states, calls, results, n - 1);
    }
  }

  /** In a run of calls that all return normally, every call returns what processing its source gives at
      that time. */
  lemma RunIsCurrent(w: World, states: seq<Cache>, calls: seq<Call>, results: seq<Result>, i: nat)
    requires IsWorld(w) && SigningIsLocal(w) && IsRun(w, states, calls, results) && Consistent(w, states[0])
    requires i < |calls|
    ensures IsCurrent(w, states[i + 1], calls[i], results[i])
  {
    RunIsConsistent(w, states, calls, results, i);
    assert StepAt(w, states, calls, results, i) && results[i] in results;
    NextIsConsistent(w, states, calls, results, i);
  }

  /** An empty cache is consistent. */
  lemma EmptyIsConsistent(w: World)
    ensures Consistent(w, Cache(map[], map[]))
  {
    forall k
      ensures Agrees(w, Cache(map[], map[]), k)
    {
    }
  }

  /** No call of a run fails to remove a file that the index lists. */
  lemma IndexedFilesExist(w: World, s: Cache, c: Call)
    requires Consistent(w, s) && Step(w, s, c).1.Raises?
    ensures var o := OptionsOf(w, c);
      Step(w, s, c) == Refresh(w, s, KeyOf(w, o, c.dest), c, o) && Fails(w.process(o, c.dest, c.source), c.strict)
  {
    assert Agrees(w, s, KeyOf(w, OptionsOf(w, c), c.dest));
  }

  /** A call raises an exception if and only if it processes its source, and processing fails, or finds the
      wrong architecture and the call is strict. */
  lemma RaisesMeaning(w: World, s: Cache, c: Call)
    requires Consistent(w, s)
    ensures var o := OptionsOf(w, c); var k := KeyOf(w, o, c.dest); var outcome := w.process(o, c.dest, c.source);
      Step(w, s, c).1.Raises? <==>
        && Step(w, s, c).1 != Source && !(k in s.index && s.index[k] == w.digest(c.source))
        && (outcome.Broken? || (outcome.WrongArch? && c.strict))
  {
    assert Agrees(w, s, KeyOf(w, OptionsOf(w, c), c.dest));
  }

  // ---- Where the cache differs from processing anew ----

  /** A call that raises an exception keeps the cache consistent exactly if the index has no entry for
      its file, or the content that it leaves is the one that was there. */
  lemma FailureKeepsConsistency(w: World, s: Cache, c: Call)
    requires Consistent(w, s) && Step(w, s, c).1.Raises?
    requires IsWorld(w) && SigningIsLocal(w)
    ensures var o := OptionsOf(w, c); var k := KeyOf(w, o, c.dest);
      Consistent(w, Step(w, s, c).0) <==>
        k !in s.index || (k in s.files && s.files[k] == w.process(o, c.dest, c.source).content)
  {
    IndexedFilesExist(w, s, c);
    var o := OptionsOf(w, c);
    var k := KeyOf(w, o, c.dest);
    var t := Step(w, s, c).0;
    assert t == Cache(s.index, s.files[k := w.process(o, c.dest, c.source).content]);
    assert Agrees(w, s, k);
    if k !in s.index || s.files[k] == t.files[k] {
      forall k'
        ensures Agrees(w, t, k')
      {
        assert Agrees(w, s, k');
        if k' in s.index {
          var b: Bytes, p, d :| IsProcessed(w, s, k', b, p, d);
          assert IsProcessed(w, t, k', b, p, d);
        }
      }
    }
    if Consistent(w, t) && k in s.index {
      assert Agrees(w, t, k);
      var b: Bytes, p, d :| IsProcessed(w, s, k, b, p, d);
      var b': Bytes, p', d' :| IsProcessed(w, t, k, b', p', d');
      assert b == b';
      KeyDeterminesProcessing(w, p, d, p', d', b);
    }
  }

  /** Strict validation, when processing finds the wrong architecture: the call raises an exception
      exactly if the index does not list this content for its file, so that it is processed anew. */
  lemma StrictnessFires(w: World, s: Cache, c: Call)
    requires Consistent(w, s) && c.strict && !NothingToDo(w, c.options) && !NothingToDo(w, OptionsOf(w, c))
    requires w.process(OptionsOf(w, c), c.dest, c.source).WrongArch?
    ensures var k := KeyOf(w, OptionsOf(w, c), c.dest);
      Step(w, s, c).1.Raises? <==> !(k in s.index && s.index[k] == w.digest(c.source))
  {
    assert Agrees(w, s, KeyOf(w, OptionsOf(w, c), c.dest));
  }

  /** A call processes its source, and records it in the index under `k`. */
  ghost predicate Records(w: World, s: Cache, c: Call, k: Key) {
    && !NothingToDo(w, c.options) && !NothingToDo(w, OptionsOf(w, c)) && k == KeyOf(w, OptionsOf(w, c), c.dest)
    && !(k in s.index && s.index[k] == w.digest(c.source))
    && !Step(w, s, c).1.Raises?
  }

  lemma StepRecords(w: World, s: Cache, c: Call, k: Key)
    ensures var t := Step(w, s, c).0;
      if Records(w, s, c, k) then k in t.index && t.index[k] == w.digest(c.source)
      else (k in t.index <==> k in s.index) && (k in t.index ==> t.index[k] == s.index[k])
    ensures Records(w, s, c, k) ==> !Fails(w.process(OptionsOf(w, c), c.dest, c.source), c.strict)
  {
  }

  ghost predicate RecordsAt(w: World, states: seq<Cache>, calls: seq<Call>, i: nat, k: Key) {
    i < |calls| && i < |states| && Records(w, states[i], calls[i], k)
  }

  /** Of the first `n` calls, the i-th is the last one that recorded something under `k`. */
  ghost predicate IsLastRecord(w: World, states: seq<Cache>, calls: seq<Call>, n: nat, k: Key, i: nat) {
    i < n && RecordsAt(w, states, calls, i, k) && forall j :: i < j < n ==> !RecordsAt(w, states, calls, j, k)
  }

  /** The index lists what was recorded last. */
  ghost predicate ShowsLastRecord(w: World, states: seq<Cache>, calls: seq<Call>, n: nat, k: Key) {
    && n < |states| && n <= |calls|
    && (k in states[n].index <==> exists i: nat :: IsLastRecord(w, states, calls, n, k, i))
    && (forall i: nat :: IsLastRecord(w, states, calls, n, k, i) && k in states[n].index ==>
          states[n].index[k] == w.digest(calls[i].source))
  }

  lemma {:induction false} IndexIsLastRecord(
    w: World, states: seq<Cache>, calls: seq<Call>, results: seq<Result>, n: nat, k: Key)
    requires IsTrace(w, states, calls, results) && states[0].index == map[] && n < |states|
    ensures ShowsLastRecord(w, states, calls, n, k)
  {
    if n > 0 {
      IndexIsLastRecord(w, states, calls, results, n - 1, k);
      assert StepAt(w, states, calls, results, n - 1);
      StepRecords(w, states[n - 1], calls[n - 1], k);
      if RecordsAt(w, states, calls, n - 1, k) {
        ShowsNewRecord(w, states, calls, n, k);
      } else {
        ShowsOldRecord(w, states, calls, n, k);
      }
    }
  }

  lemma ShowsNewRecord(w: World, states: seq<Cache>, calls: seq<Call>, n: nat, k: Key)
    requires 0 < n < |states| && n <= |calls| && RecordsAt(w, states, calls, n - 1, k)
    requires k in states[n].index && states[n].index[k] == w.digest(calls[n - 1].source)
    ensures ShowsLastRecord(w, states, calls, n, k)
  {
    LastRecordStep(w, states, calls, n, k);
    assert IsLastRecord(w, states, calls, n, k, n - 1);
  }

  lemma ShowsOldRecord(w: World, states: seq<Cache>, calls: seq<Call>, n: nat, k: Key)
    requires 0 < n < |states| && n <= |calls| && !RecordsAt(w, states, calls, n - 1, k)
    requires ShowsLastRecord(w, states, calls, n - 1, k)
    requires k in states[n].index <==> k in states[n - 1].index
    requires k in states[n].index ==> states[n].index[k] == states[n - 1].index[k]
    ensures ShowsLastRecord(w, states, calls, n, k)
  {
    LastRecordStep(w, states, calls, n, k);
    var m := n - 1;
    if i: nat :| IsLastRecord(w, states, calls, m, k, i) {
      assert IsLastRecord(w, states, calls, n, k, i);
    }
  }

  lemma LastRecordStep(w: World, states: seq<Cache>, calls: seq<Call>, n: nat, k: Key)
    requires n > 0
    ensures forall i: nat :: IsLastRecord(w, states, calls, n, k, i) <==>
      if RecordsAt(w, states, calls, n - 1, k) then i == n - 1 else IsLastRecord(w, states, calls, n - 1, k, i)
  {
  }

  /** Strictness is not part of the key. After any run from an empty cache, a strict call whose
      processing finds the wrong architecture returns normally exactly if the last call that recorded
      something for its file was a lenient one with the same source. */
  lemma StrictnessIsForgotten(
    w: World, states: seq<Cache>, calls: seq<Call>, results: seq<Result>, n: nat, c: Call)
    requires IsWorld(w) && SigningIsLocal(w)
    requires IsTrace(w, states, calls, results) && states[0] == Cache(map[], map[]) && n < |states|
    requires c.strict && !NothingToDo(w, c.options) && !NothingToDo(w, OptionsOf(w, c))
    requires w.process(OptionsOf(w, c), c.dest, c.source).WrongArch?
    ensures var k := KeyOf(w, OptionsOf(w, c), c.dest);
      !Step(w, states[n], c).1.Raises? <==>
        exists i: nat :: IsLastRecord(w, states, calls, n, k, i) && !calls[i].strict && calls[i].source == c.source
  {
    var k := KeyOf(w, OptionsOf(w, c), c.dest);
    IndexIsLastRecord(w, states, calls, results, n, k);
    if i: nat :| IsLastRecord(w, states, calls, n, k, i) {
      if calls[i].source == c.source {
        StepRecords(w, states[i], calls[i], k);
        KeyDeterminesProcessing(w, OptionsOf(w, calls[i]), calls[i].dest, OptionsOf(w, c), c.dest, c.source);
      }
    }
  }

  // ---- The cache on disk ----

  class Disk {
    var index: map<Key, Digest>
    var files: map<Key, Bytes>

    constructor ()
      ensures index == map[] && files == map[]
    {
      index, files := map[], map[];
    }

    method ProcessCollectedBinary(w: World, c: Call) returns (r: Result)
      modifies this
      ensures (Cache(index, files), r) == Step(w, old(Cache(index, files)), c)
    {
      var strip, upx := c.options.strip, c.options.upx;
      if !strip && !upx && !w.platform.Darwin? {
        return Source;
      }
      if upx && c.facts.excluded {
        upx := false;
      }
      if upx && w.platform.Windows? && c.facts.guarded {
        upx := false;
      }
      if upx && c.facts.qtPlugin {
        upx := false;
      }
      if (upx || strip) && w.platform.Linux? && c.facts.checksum {
        upx, strip := false, false;
      }
      if !strip && !upx && !w.platform.Darwin? {
        return Source;
      }
      var o := c.options.(strip := strip, upx := upx);
      var k := KeyOf(w, o, c.dest);
      var digest := w.digest(c.source);
      if k in index {
        if index[k] == digest {
          return Cached(k);
        }
        if k !in files {
          return Raises;
        }
        files := files - {k};
      }
      var outcome := w.process(o, c.dest, c.source);
      files := files[k := outcome.content];
      assert files == old(files)[k := outcome.content];
      if Fails(outcome, c.strict) {
        return Raises;
      }
      index := index[k := digest];
      return Cached(k);
    }
  }
}
