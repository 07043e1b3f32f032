/** The resources of the splash screen: written by the build, read by the bootloader. */
module Splash {
  import opened FileTree
  import opened Bytes

  datatype Resources = Resources(names: seq<Bytes>, tclLibrary: Bytes, tkLibrary: Bytes, tkModules: Bytes,
                                 image: Bytes, script: string)

  datatype World = World(normpath: Bytes -> Bytes, encode: string -> Bytes)

  const FIELD_LENGTH := 16
  const HEADER_LENGTH := 72

  // ---- Writing ----

  /** Every name followed by a NUL. */
  function Terminated(names: seq<Bytes>): Bytes {
    if names == [] then [] else Terminated(names[..|names| - 1]) + names[|names| - 1] + [0]
  }

  function Normalized(w: World, names: seq<Bytes>): (r: seq<Bytes>)
    ensures |r| == |names| && forall i :: 0 <= i < |r| ==> r[i] == w.normpath(names[i])
  {
    seq(|names|, i requires 0 <= i < |names| => w.normpath(names[i]))
  }

  function Padded(name: Bytes): (r: Bytes)
    requires |name| <= FIELD_LENGTH
    ensures |r| == FIELD_LENGTH
  {
    name + Zeros(FIELD_LENGTH - |name|)
  }

  /** The lengths of the script in characters and in bytes, of the image, and of the list of names. */
  datatype Lengths = Lengths(characters: nat, script: nat, image: nat, names: nat)

  predicate Fits(l: Lengths) {
    && l.characters < LIMIT_32 && l.image < LIMIT_32 && l.names < LIMIT_32
    && HEADER_LENGTH + l.names + l.script < LIMIT_32
  }

  function Fields(l: Lengths): (r: Bytes)
    requires Fits(l)
    ensures |r| == 24
  {
    var script := HEADER_LENGTH + l.names;
    U32(l.characters) + U32(script) + U32(l.image) + U32(script + l.script) + U32(l.names) + U32(HEADER_LENGTH)
  }

  function LengthsOf(w: World, r: Resources): Lengths {
    Lengths(|r.script|, |w.encode(r.script)|, |r.image|, |Terminated(Normalized(w, r.names))|)
  }

  predicate Writable(w: World, r: Resources) {
    && |r.tclLibrary| < FIELD_LENGTH && |r.tkLibrary| < FIELD_LENGTH && |r.tkModules| < FIELD_LENGTH
    && Fits(LengthsOf(w, r))
  }

  function Header(w: World, r: Resources): (h: Bytes)
    requires Writable(w, r)
    ensures |h| == HEADER_LENGTH
  {
    Padded(r.tclLibrary) + Padded(r.tkLibrary) + Padded(r.tkModules) + Fields(LengthsOf(w, r))
  }

  function Body(w: World, r: Resources): Bytes {
    Terminated(Normalized(w, r.names)) + w.encode(r.script) + r.image
  }

  /** The sections are written behind a place that is kept for the header, which is written last. A name
      that does not fit its field is an exception. */
  method Write(w: World, r: Resources) returns (res: Option<Bytes>)
    ensures res == if Writable(w, r) then Some(Header(w, r) + Body(w, r)) else None
  {
    var names := Normalized(w, r.names);
    var file := Zeros(HEADER_LENGTH);
    var namesLength, namesOffset := 0, |file|;
    for i := 0 to |names|
      invariant file == Zeros(HEADER_LENGTH) + Terminated(names[..i]) && namesLength == |Terminated(names[..i])|
    {
      assert names[..i + 1][..i] == names[..i];
      file := file + names[i] + [0];
      namesLength := namesLength + |names[i]| + 1;
    }
    assert names[..|names|] == names;
    var scriptOffset := |file|;
    file := file + w.encode(r.script);
    var imageOffset := |file|;
    file := file + r.image;
    if |r.tclLibrary| >= FIELD_LENGTH || |r.tkLibrary| >= FIELD_LENGTH || |r.tkModules| >= FIELD_LENGTH {
      return None;
    }
    if |r.script| >= LIMIT_32 || |r.image| >= LIMIT_32 || namesLength >= LIMIT_32 || imageOffset >= LIMIT_32 {
      return None;
    }
    var header := Padded(r.tclLibrary) + Padded(r.tkLibrary) + Padded(r.tkModules)
      + (U32(|r.script|) + U32(scriptOffset) + U32(|r.image|) + U32(imageOffset) + U32(namesLength) + U32(namesOffset));
    assert file[HEADER_LENGTH..] == Body(w, r);
    file := header + file[HEADER_LENGTH..];
    return Some(file);
  }

  /** One byte for each byte of a name, and one for the NUL behind it. */
  function NamesSize(w: World, names: seq<Bytes>): nat {
    if names == [] then 0 else |w.normpath(names[0])| + 1 + NamesSize(w, names[1..])
  }

  lemma {:induction false} TerminatedSize(w: World, names: seq<Bytes>)
    ensures |Terminated(Normalized(w, names))| == NamesSize(w, names)
    decreases |names|
  {
    if names != [] {
      var rest := Normalized(w, names[1..]);
      assert Normalized(w, names) == [w.normpath(names[0])] + rest;
      TerminatedFirst(w.normpath(names[0]), rest);
      TerminatedSize(w, names[1..]);
    }
  }

  /** The resources can be written if and only if the names of the libraries and of the directory of Tk
      have at most 15 bytes, the numbers of characters of the script and of bytes of the image fit in 32
      bits, and so does the offset of the image, behind the header, the names and the script. */
  lemma WritableMeaning(w: World, r: Resources)
    ensures Writable(w, r) <==>
      && |r.tclLibrary| <= 15 && |r.tkLibrary| <= 15 && |r.tkModules| <= 15
      && |r.script| < 0x1_0000_0000 && |r.image| < 0x1_0000_0000
      && 72 + NamesSize(w, r.names) + |w.encode(r.script)| < 0x1_0000_0000
  {
    TerminatedSize(w, r.names);
  }

  /** The header: three names, padded with NULs, and six numbers of four bytes. */
  lemma HeaderLayout(w: World, r: Resources)
    requires Writable(w, r)
    ensures var h, names, script := Header(w, r), NamesSize(w, r.names), |w.encode(r.script)|;
      && h[0..16] == r.tclLibrary + Zeros(16 - |r.tclLibrary|)
      && h[16..32] == r.tkLibrary + Zeros(16 - |r.tkLibrary|)
      && h[32..48] == r.tkModules + Zeros(16 - |r.tkModules|)
      && h[48..52] == BigEndian(|r.script|, 4) && h[52..56] == BigEndian(72 + names, 4)
      && h[56..60] == BigEndian(|r.image|, 4) && h[60..64] == BigEndian(72 + names + script, 4)
      && h[64..68] == BigEndian(names, 4) && h[68..72] == BigEndian(72, 4)
  {
    var l, h := LengthsOf(w, r), Header(w, r);
    TerminatedSize(w, r.names);
    FieldsAt(Fields(l), l);
    assert h[48..72] == Fields(l);
    SliceOfSlice(h, 48, 72, 0, 4);
    SliceOfSlice(h, 48, 72, 4, 8);
    SliceOfSlice(h, 48, 72, 8, 12);
    SliceOfSlice(h, 48, 72, 12, 16);
    SliceOfSlice(h, 48, 72, 16, 20);
    SliceOfSlice(h, 48, 72, 20, 24);
    U32IsBigEndian(l.characters);
    U32IsBigEndian(HEADER_LENGTH + l.names);
    U32IsBigEndian(l.image);
    U32IsBigEndian(HEADER_LENGTH + l.names + l.script);
    U32IsBigEndian(l.names);
    U32IsBigEndian(HEADER_LENGTH);
  }

  // ---- Reading ----

  /** The bytes before the next NUL; None stands for reading past the end. */
  function CString(b: Bytes, pos: nat): (r: Option<Bytes>)
    ensures r.Some? ==> pos + |r.value| < |b| && b[pos + |r.value|] == 0 && r.value == b[pos..pos + |r.value|]
    ensures r.Some? ==> 0 !in r.value
    decreases |b| - pos
  {
    if pos >= |b| then None
    else if b[pos] == 0 then Some([])
    else
      match CString(b, pos + 1)
      case None => None
      case Some(rest) => Some([b[pos]] + rest)
  }

  function Section(file: Bytes, offset: nat, length: nat): Option<Bytes> {
    if offset + length <= |file| then Some(file[offset..offset + length]) else None
  }

  /** The names one after the other, as the bootloader walks over them. */
  function Split(b: Bytes, pos: nat): Option<seq<Bytes>>
    decreases |b| - pos
  {
    if pos >= |b| then Some([])
    else
      match CString(b, pos)
      case None => None
      case Some(name) =>
        match Split(b, pos + |name| + 1)
        case None => None
        case Some(rest) => Some([name] + rest)
  }

  /** The loop over the names. */
  method WalkNames(b: Bytes) returns (r: Option<seq<Bytes>>)
    ensures r == Split(b, 0)
  {
    var names: seq<Bytes> := [];
    var pos := 0;
    PrependNothing(Split(b, 0));
    while pos < |b|
      invariant 0 <= pos && Split(b, 0) == Prepend(names, Split(b, pos))
      decreases |b| - pos
    {
      var name := CString(b, pos);
      if name.None? {
        return None;
      }
      PrependName(names, name.value, Split(b, pos + |name.value| + 1));
      names := names + [name.value];
      pos := pos + |name.value| + 1;
    }
    assert names + [] == names;
    return Some(names);
  }

  function Prepend(names: seq<Bytes>, rest: Option<seq<Bytes>>): Option<seq<Bytes>> {
    if rest.None? then None else Some(names + rest.value)
  }

  lemma PrependNothing(rest: Option<seq<Bytes>>)
    ensures Prepend([], rest) == rest
  {
    if rest.Some? {
      assert [] + rest.value == rest.value;
    }
  }

  lemma PrependName(names: seq<Bytes>, name: Bytes, rest: Option<seq<Bytes>>)
    ensures Prepend(names, Prepend([name], rest)) == Prepend(names + [name], rest)
  {
    if rest.Some? {
      assert names + ([name] + rest.value) == (names + [name]) + rest.value;
    }
  }

  datatype Loaded = Loaded(tclLibrary: Option<Bytes>, tkLibrary: Option<Bytes>, tkModules: Option<Bytes>,
                           script: Option<Bytes>, image: Option<Bytes>, names: Option<Bytes>)

  /** What the bootloader takes from the file. */
  function Load(file: Bytes): Loaded
    requires |file| >= HEADER_LENGTH
  {
    Loaded(CString(file, 0), CString(file, 16), CString(file, 32),
           Section(file, U32At(file, 52), U32At(file, 48)),
           Section(file, U32At(file, 60), U32At(file, 56)),
           Section(file, U32At(file, 68), U32At(file, 64)))
  }

  // ---- Round trip ----

  predicate NoNul(b: Bytes) {
    0 !in b
  }

  lemma {:induction false} CStringAt(b: Bytes, pos: nat, name: Bytes)
    requires pos + |name| < |b| && b[pos..pos + |name|] == name && b[pos + |name|] == 0 && NoNul(name)
    ensures CString(b, pos) == Some(name)
    decreases |name|
  {
    if name != [] {
      assert b[pos] == name[0];
      assert b[pos + 1..pos + 1 + |name[1..]|] == name[1..];
      CStringAt(b, pos + 1, name[1..]);
    }
  }

  lemma {:induction false} TerminatedFirst(name: Bytes, rest: seq<Bytes>)
    ensures Terminated([name] + rest) == name + [0] + Terminated(rest)
    decreases |rest|
  {
    var all := [name] + rest;
    if rest == [] {
      assert all[..0] == [];
    } else {
      assert all[..|all| - 1] == [name] + rest[..|rest| - 1];
      TerminatedFirst(name, rest[..|rest| - 1]);
    }
  }

  lemma {:induction false} SplitTerminated(before: Bytes, names: seq<Bytes>)
    requires forall i :: 0 <= i < |names| ==> NoNul(names[i])
    ensures Split(before + Terminated(names), |before|) == Some(names)
    decreases |names|
  {
    if names != [] {
      var name, rest := names[0], names[1..];
      assert names == [name] + rest;
      TerminatedFirst(name, rest);
      SplitTerminated(before + name + [0], rest);
      SplitFirst(before, name, Terminated(rest), rest);
    }
  }

  lemma {:induction false} SplitFirst(before: Bytes, name: Bytes, t: Bytes, rest: seq<Bytes>)
    requires NoNul(name) && Split((before + name + [0]) + t, |before + name + [0]|) == Some(rest)
    ensures Split(before + (name + [0] + t), |before|) == Some([name] + rest)
  {
    FirstName(before, name, t);
  }

  lemma FirstName(before: Bytes, name: Bytes, rest: Bytes)
    requires NoNul(name)
    ensures CString(before + (name + [0] + rest), |before|) == Some(name)
    ensures before + (name + [0] + rest) == (before + name + [0]) + rest
  {
    var b := before + (name + [0] + rest);
    assert b[|before|..|before| + |name|] == name && b[|before| + |name|] == 0;
    CStringAt(b, |before|, name);
  }

  lemma {:induction false} SplitHasNoNul(b: Bytes, pos: nat)
    ensures Split(b, pos).Some? ==> forall i :: 0 <= i < |Split(b, pos).value| ==> NoNul(Split(b, pos).value[i])
    decreases |b| - pos
  {
    if pos < |b| && CString(b, pos).Some? {
      SplitHasNoNul(b, pos + |CString(b, pos).value| + 1);
    }
  }

  /** The bootloader walks over the names as they were written if and only if none contains a NUL. */
  lemma NamesRoundTrip(names: seq<Bytes>)
    ensures Split(Terminated(names), 0) == Some(names) <==> forall i :: 0 <= i < |names| ==> NoNul(names[i])
  {
    SplitHasNoNul(Terminated(names), 0);
    if forall i :: 0 <= i < |names| ==> NoNul(names[i]) {
      SplitTerminated([], names);
      assert [] + Terminated(names) == Terminated(names);
    }
  }

  lemma FieldsAt(f: Bytes, l: Lengths)
    requires Fits(l) && f == Fields(l)
    ensures f[0..4] == U32(l.characters) && f[4..8] == U32(HEADER_LENGTH + l.names)
    ensures f[8..12] == U32(l.image) && f[12..16] == U32(HEADER_LENGTH + l.names + l.script)
    ensures f[16..20] == U32(l.names) && f[20..24] == U32(HEADER_LENGTH)
  {
  }

  lemma FieldRead(file: Bytes, i: nat, f: Bytes, n: nat)
    requires 48 + |f| <= |file| && file[48..48 + |f|] == f && i + 4 <= |f| && n < LIMIT_32 && f[i..i + 4] == U32(n)
    ensures U32At(file, 48 + i) == n
  {
    SliceOfSlice(file, 48, 48 + |f|, i, i + 4);
    U32RoundTrip(file, 48 + i, n);
  }

  /** The lengths and offsets in the header. */
  lemma HeaderRead(file: Bytes, l: Lengths)
    requires Fits(l) && |file| >= HEADER_LENGTH && file[48..72] == Fields(l)
    ensures U32At(file, 48) == l.characters && U32At(file, 52) == HEADER_LENGTH + l.names
    ensures U32At(file, 56) == l.image && U32At(file, 60) == HEADER_LENGTH + l.names + l.script
    ensures U32At(file, 64) == l.names && U32At(file, 68) == HEADER_LENGTH
  {
    var f := Fields(l);
    FieldsAt(f, l);
    FieldRead(file, 0, f, l.characters);
    FieldRead(file, 4, f, HEADER_LENGTH + l.names);
    FieldRead(file, 8, f, l.image);
    FieldRead(file, 12, f, HEADER_LENGTH + l.names + l.script);
    FieldRead(file, 16, f, l.names);
    FieldRead(file, 20, f, HEADER_LENGTH);
  }

  lemma SectionAt(a: Bytes, b: Bytes, c: Bytes, n: nat)
    requires n <= |b|
    ensures Section(a + b + c, |a|, n) == Some(b[..n])
  {
    assert (a + b + c)[|a|..|a| + n] == b[..n];
  }

  lemma PaddedRead(file: Bytes, pos: nat, name: Bytes)
    requires |name| < FIELD_LENGTH && pos + FIELD_LENGTH <= |file| && file[pos..pos + FIELD_LENGTH] == Padded(name)
    ensures CString(file, pos) == Some(name) <==> NoNul(name)
  {
    var p := Padded(name);
    assert p[..|name|] == name && p[|name|] == 0;
    SliceOfSlice(file, pos, pos + FIELD_LENGTH, 0, |name|);
    assert file[pos + |name|] == p[|name|];
    if NoNul(name) {
      CStringAt(file, pos, name);
    }
  }

  /** Main result on the splash screen: what the build writes is what the bootloader reads. Names of
      libraries survive exactly if they contain no NUL; the script survives exactly if it has as many
      bytes as characters, because its length is written in characters. */
  lemma SplashRoundTrip(w: World, r: Resources, file: Bytes)
    requires Writable(w, r) && file == Header(w, r) + Body(w, r)
    requires |w.encode(r.script)| >= |r.script|
    ensures var l := Load(file);
      && l.names == Some(Terminated(Normalized(w, r.names))) && l.image == Some(r.image)
      && (l.script == Some(w.encode(r.script)) <==> |w.encode(r.script)| == |r.script|)
      && (l.tclLibrary == Some(r.tclLibrary) <==> NoNul(r.tclLibrary))
      && (l.tkLibrary == Some(r.tkLibrary) <==> NoNul(r.tkLibrary))
      && (l.tkModules == Some(r.tkModules) <==> NoNul(r.tkModules))
  {
    LoadWritten(r.tclLibrary, r.tkLibrary, r.tkModules, LengthsOf(w, r), Terminated(Normalized(w, r.names)),
                w.encode(r.script), r.image, file);
  }

  /** The round trip, for any bytes in the sections. */
  lemma LoadWritten(a: Bytes, b: Bytes, c: Bytes, l: Lengths, names: Bytes, script: Bytes, image: Bytes, file: Bytes)
    requires |a| < FIELD_LENGTH && |b| < FIELD_LENGTH && |c| < FIELD_LENGTH && Fits(l)
    requires l.names == |names| && l.script == |script| && l.image == |image| && l.characters <= |script|
    requires file == (Padded(a) + Padded(b) + Padded(c) + Fields(l)) + (names + script + image)
    ensures |file| >= HEADER_LENGTH
    ensures var d := Load(file);
      && d.names == Some(names) && d.image == Some(image)
      && (d.script == Some(script) <==> l.characters == |script|)
      && (d.tclLibrary == Some(a) <==> NoNul(a)) && (d.tkLibrary == Some(b) <==> NoNul(b))
      && (d.tkModules == Some(c) <==> NoNul(c))
  {
    LibrariesRead(a, b, c, l, names + script + image, file);
    SectionsRead(Padded(a) + Padded(b) + Padded(c) + Fields(l), names, script, image, l.characters, file);
    assert l.characters == |script| ==> script[..l.characters] == script;
  }

  lemma LibrariesRead(a: Bytes, b: Bytes, c: Bytes, l: Lengths, body: Bytes, file: Bytes)
    requires |a| < FIELD_LENGTH && |b| < FIELD_LENGTH && |c| < FIELD_LENGTH && Fits(l)
    requires file == (Padded(a) + Padded(b) + Padded(c) + Fields(l)) + body
    ensures CString(file, 0) == Some(a) <==> NoNul(a)
    ensures CString(file, 16) == Some(b) <==> NoNul(b)
    ensures CString(file, 32) == Some(c) <==> NoNul(c)
    ensures |file| >= HEADER_LENGTH
    ensures U32At(file, 48) == l.characters && U32At(file, 52) == HEADER_LENGTH + l.names
    ensures U32At(file, 56) == l.image && U32At(file, 60) == HEADER_LENGTH + l.names + l.script
    ensures U32At(file, 64) == l.names && U32At(file, 68) == HEADER_LENGTH
  {
    HeaderParts(a, b, c, Fields(l), body, file);
    HeaderRead(file, l);
    PaddedRead(file, 0, a);
    PaddedRead(file, 16, b);
    PaddedRead(file, 32, c);
  }

  lemma HeaderParts(a: Bytes, b: Bytes, c: Bytes, f: Bytes, body: Bytes, file: Bytes)
    requires |a| < FIELD_LENGTH && |b| < FIELD_LENGTH && |c| < FIELD_LENGTH && |f| == 24
    requires file == (Padded(a) + Padded(b) + Padded(c) + f) + body
    ensures file[0..16] == Padded(a) && file[16..32] == Padded(b) && file[32..48] == Padded(c) && file[48..72] == f
  {
  }

  lemma SectionsRead(h: Bytes, names: Bytes, script: Bytes, image: Bytes, n: nat, file: Bytes)
    requires |h| == HEADER_LENGTH && n <= |script| && file == h + (names + script + image)
    ensures Section(file, HEADER_LENGTH, |names|) == Some(names)
    ensures Section(file, HEADER_LENGTH + |names|, n) == Some(script[..n])
    ensures Section(file, HEADER_LENGTH + |names| + |script|, |image|) == Some(image)
  {
    assert file == h + names + (script + image);
    SectionAt(h, names, script + image, |names|);
    assert file == (h + names) + script + image;
    SectionAt(h + names, script, image, n);
    assert file == (h + names + script) + image + [];
    SectionAt(h + names + script, image, [], |image|);
  }

  predicate AreNormalized(w: World, names: seq<Bytes>, normal: seq<Bytes>) {
    |normal| == |names| && forall i :: 0 <= i < |names| ==> normal[i] == w.normpath(names[i])
  }

  predicate HasNul(w: World, names: seq<Bytes>) {
    exists i :: 0 <= i < |names| && 0 in w.normpath(names[i])
  }

  /** Walking over the names in the file gives the names of the requirements, normalized, if and only if
      none of them contains a NUL. */
  lemma NamesAreRead(w: World, r: Resources, file: Bytes)
    requires Writable(w, r) && file == Header(w, r) + Body(w, r)
    requires |w.encode(r.script)| >= |r.script|
    ensures Load(file).names.Some?
    ensures var walked := Split(Load(file).names.value, 0);
      (walked.Some? && AreNormalized(w, r.names, walked.value)) <==> !HasNul(w, r.names)
  {
    SplashRoundTrip(w, r, file);
    var names := Normalized(w, r.names);
    NamesRoundTrip(names);
    assert HasNul(w, r.names) <==> !forall i :: 0 <= i < |names| ==> NoNul(names[i]);
    var walked := Split(Load(file).names.value, 0);
    if walked.Some? && AreNormalized(w, r.names, walked.value) {
      assert walked.value == names;
    }
  }
}
