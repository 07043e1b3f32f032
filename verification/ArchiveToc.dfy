/** The table of contents of a CArchive, written and parsed. */
module ArchiveToc {
  import opened Bytes

  datatype ArchiveError =
    | StructError         // a value does not fit its field, or a field is cut off
    | DecodeError         // a typecode is not ASCII
    | DuplicateEntry(name: Bytes)
    | NoMagic
    | NoLibraryName
    | NegativeSeek
    | NoSuchEntry(name: Bytes)
    | ZlibError

  datatype Result<T> = Ok(value: T) | Err(error: ArchiveError) {
    predicate IsFailure() {
      Err?
    }
    function PropagateFailure<U>(): Result<U>
      requires Err?
    {
      Err(error)
    }
    function Extract(): T
      requires Ok?
    {
      value
    }
  }

  const ENTRY_LENGTH := 18
  const OPTION_CODE: byte := 111   // 'o'

  /** Where a blob is stored, and how. */
  datatype Info = Info(offset: nat, length: nat, dataLength: nat, compressed: byte, typecode: byte)

  datatype TocEntry = TocEntry(info: Info, name: Bytes)

  /** Length of the name field: the name, a NUL, and padding of the whole entry to 16 bytes. */
  function NameFieldLength(n: nat): (r: nat)
    ensures n < r <= n + 16
    ensures (ENTRY_LENGTH + r) % 16 == 0
  {
    var nameLength := n + 1;
    var entryLength := ENTRY_LENGTH + nameLength;
    if entryLength % 16 != 0 then nameLength + (16 - entryLength % 16) else nameLength
  }

  predicate Fits(e: TocEntry) {
    && e.info.offset < LIMIT_32 && e.info.length < LIMIT_32 && e.info.dataLength < LIMIT_32
    && ENTRY_LENGTH + NameFieldLength(|e.name|) < LIMIT_32
  }

  /** One serialized entry. */
  function PackEntry(e: TocEntry): (r: Bytes)
    requires Fits(e)
    ensures |r| == ENTRY_LENGTH + NameFieldLength(|e.name|)
  {
    var n := NameFieldLength(|e.name|);
    U32(ENTRY_LENGTH + n) + U32(e.info.offset) + U32(e.info.length) + U32(e.info.dataLength)
    + [e.info.compressed, e.info.typecode] + (e.name + Zeros(n - |e.name|))
  }

  predicate AllFit(toc: seq<TocEntry>) {
    forall i :: 0 <= i < |toc| ==> Fits(toc[i])
  }

  function Pieces(toc: seq<TocEntry>): (r: seq<Bytes>)
    requires AllFit(toc)
    ensures |r| == |toc| && forall i :: 0 <= i < |toc| ==> r[i] == PackEntry(toc[i])
  {
    seq(|toc|, i requires 0 <= i < |toc| => PackEntry(toc[i]))
  }

  /** `struct.pack` rejects numbers that need more than 32 bits. */
  function Serialize(toc: seq<TocEntry>): Result<Bytes> {
    if AllFit(toc) then Ok(Join(Pieces(toc))) else Err(StructError)
  }

  method SerializeToc(toc: seq<TocEntry>) returns (r: Result<Bytes>)
    ensures r == Serialize(toc)
  {
    var pieces: seq<Bytes> := [];
    for i := 0 to |toc|
      invariant |pieces| == i && forall j :: 0 <= j < i ==> Fits(toc[j]) && pieces[j] == PackEntry(toc[j])
    {
      if !Fits(toc[i]) {
        return Err(StructError);
      }
      pieces := pieces + [PackEntry(toc[i])];
    }
    assert pieces == Pieces(toc);
    return Ok(Join(pieces));
  }

  // ---- Parsing ----

  /** What a reader knows: the entries by name, and the names of the options in order. */
  datatype Contents = Contents(toc: map<Bytes, Info>, options: seq<Bytes>)

  const NOTHING := Contents(map[], [])

  function Add(c: Contents, info: Info, name: Bytes): Contents {
    if info.typecode == OPTION_CODE then c.(options := c.options + [name])
    else c.(toc := c.toc[name := info])
  }

  datatype Parsed = Parsed(info: Info, name: Bytes, next: nat)

  function InfoAt(data: Bytes, pos: nat): Info
    requires pos + ENTRY_LENGTH <= |data|
  {
    Info(U32At(data, pos + 4), U32At(data, pos + 8), U32At(data, pos + 12), data[pos + 16], data[pos + 17])
  }

  /** The entry at `pos`. Names may have up to 15 bytes of padding beyond their NUL; stripping them
      strips all of it. */
  function EntryAt(data: Bytes, pos: nat): (r: Result<Parsed>)
    requires pos < |data|
    ensures r.Ok? ==> pos < r.value.next <= |data|
  {
    if pos + ENTRY_LENGTH > |data| then Err(StructError)
    else
      var entryLength := U32At(data, pos);
      if entryLength < ENTRY_LENGTH || pos + entryLength > |data| then Err(StructError)
      else if data[pos + 17] >= 128 then Err(DecodeError)
      else Ok(Parsed(InfoAt(data, pos), Rstrip(data[pos + ENTRY_LENGTH..pos + entryLength]), pos + entryLength))
  }

  function ParseFrom(data: Bytes, pos: nat, c: Contents): Result<Contents>
    requires pos <= |data|
    decreases |data| - pos
  {
    if pos == |data| then Ok(c)
    else
      match EntryAt(data, pos)
      case Err(e) => Err(e)
      case Ok(p) => ParseFrom(data, p.next, Add(c, p.info, p.name))
  }

  lemma ParseStep(data: Bytes, pos: nat, c: Contents, p: Parsed)
    requires pos < |data| && EntryAt(data, pos) == Ok(p)
    ensures ParseFrom(data, pos, c) == ParseFrom(data, p.next, Add(c, p.info, p.name))
  {
  }

  lemma EntryIs(data: Bytes, pos: nat, nameLength: int)
    requires pos + ENTRY_LENGTH <= |data| && nameLength == U32At(data, pos) - ENTRY_LENGTH
    ensures nameLength < 0 || pos + ENTRY_LENGTH + nameLength > |data| ==> EntryAt(data, pos) == Err(StructError)
    ensures 0 <= nameLength && pos + ENTRY_LENGTH + nameLength <= |data| ==>
      var next := pos + ENTRY_LENGTH + nameLength;
      EntryAt(data, pos) == if InfoAt(data, pos).typecode >= 128 then Err(DecodeError)
                            else Ok(Parsed(InfoAt(data, pos), Rstrip(data[pos + ENTRY_LENGTH..next]), next))
  {
  }

  lemma ParseFails(data: Bytes, pos: nat, c: Contents)
    requires pos < |data| && EntryAt(data, pos).Err?
    ensures ParseFrom(data, pos, c) == Err(EntryAt(data, pos).error)
  {
  }

  method ParseToc(data: Bytes) returns (r: Result<Contents>)
    ensures r == ParseFrom(data, 0, NOTHING)
  {
    var toc: map<Bytes, Info>, options: seq<Bytes> := map[], [];
    var pos := 0;
    ghost var whole := ParseFrom(data, 0, NOTHING);
    while pos < |data|
      invariant 0 <= pos <= |data|
      invariant ParseFrom(data, pos, Contents(toc, options)) == whole
      decreases |data| - pos
    {
      var entry := pos;
      ghost var c := Contents(toc, options);
      pos := pos + ENTRY_LENGTH;
      if pos > |data| {
        ParseFails(data, entry, c);
        return Err(StructError);
      }
      var info := InfoAt(data, entry);
      var nameLength: int := U32At(data, entry) - ENTRY_LENGTH;
      EntryIs(data, entry, nameLength);
      if nameLength < 0 || pos + nameLength > |data| {
        ParseFails(data, entry, c);
        return Err(StructError);
      }
      var name := Rstrip(data[pos..pos + nameLength]);
      pos := pos + nameLength;
      if info.typecode >= 128 {
        ParseFails(data, entry, c);
        return Err(DecodeError);
      }
      if info.typecode == OPTION_CODE {
        options := options + [name];
      } else {
        toc := toc[name := info];
      }
      ParseStep(data, entry, c, Parsed(info, name, pos));
    }
    return Ok(Contents(toc, options));
  }

  // ---- Round trip ----

  /** What a reader should know about the entries of a writer. */
  function AddAll(c: Contents, toc: seq<TocEntry>): Contents
    decreases |toc|
  {
    if toc == [] then c else AddAll(Add(c, toc[0].info, Rstrip(toc[0].name)), toc[1..])
  }

  lemma {:induction false} AddAllLast(c: Contents, toc: seq<TocEntry>)
    requires toc != []
    ensures AddAll(c, toc) == Add(AddAll(c, toc[..|toc| - 1]), toc[|toc| - 1].info, Rstrip(toc[|toc| - 1].name))
    decreases |toc|
  {
    var init := toc[..|toc| - 1];
    if |toc| > 1 {
      AddAllLast(Add(c, toc[0].info, Rstrip(toc[0].name)), toc[1..]);
      assert toc[1..][..|toc| - 2] == init[1..];
    }
  }

  /** `p` holds the fields of `e`. */
  predicate IsPiece(p: Bytes, e: TocEntry) {
    && |p| >= ENTRY_LENGTH && U32At(p, 0) == |p|
    && InfoAt(p, 0) == e.info && Rstrip(p[ENTRY_LENGTH..]) == Rstrip(e.name)
  }

  /** Six fields in a row. */
  lemma FieldsOf(p: Bytes, a: Bytes, b: Bytes, c: Bytes, d: Bytes, e: Bytes, f: Bytes)
    requires |a| == |b| == |c| == |d| == 4 && |e| == 2 && p == a + b + c + d + e + f
    ensures p[0..4] == a && p[4..8] == b && p[8..12] == c && p[12..16] == d
    ensures p[16] == e[0] && p[17] == e[1] && p[18..] == f
  {
  }

  lemma PackedFields(e: TocEntry)
    requires Fits(e)
    ensures var p := PackEntry(e);
      IsPiece(p, e) && p[ENTRY_LENGTH..] == e.name + Zeros(NameFieldLength(|e.name|) - |e.name|)
  {
    var n := NameFieldLength(|e.name|);
    FieldsOf(PackEntry(e), U32(ENTRY_LENGTH + n), U32(e.info.offset), U32(e.info.length), U32(e.info.dataLength),
             [e.info.compressed, e.info.typecode], e.name + Zeros(n - |e.name|));
    ReadFields(PackEntry(e), e, n);
  }

  lemma ReadFields(p: Bytes, e: TocEntry, n: nat)
    requires |e.name| <= n && |p| == ENTRY_LENGTH + n < LIMIT_32
    requires e.info.offset < LIMIT_32 && e.info.length < LIMIT_32 && e.info.dataLength < LIMIT_32
    requires p[0..4] == U32(ENTRY_LENGTH + n) && p[4..8] == U32(e.info.offset) && p[8..12] == U32(e.info.length)
    requires p[12..16] == U32(e.info.dataLength)
    requires p[16] == e.info.compressed && p[17] == e.info.typecode
    requires p[ENTRY_LENGTH..] == e.name + Zeros(n - |e.name|)
    ensures IsPiece(p, e)
  {
    U32RoundTrip(p, 0, ENTRY_LENGTH + n);
    U32RoundTrip(p, 4, e.info.offset);
    U32RoundTrip(p, 8, e.info.length);
    U32RoundTrip(p, 12, e.info.dataLength);
    RstripPadded(e.name, n - |e.name|);
  }

  predicate IsAscii(e: TocEntry) {
    e.info.typecode < 128
  }

  /** Parsing one entry, wherever it lies. */
  lemma ParsePiece(data: Bytes, pos: nat, next: nat, p: Bytes, e: TocEntry)
    requires pos + |p| == next <= |data| && data[pos..next] == p && IsPiece(p, e) && IsAscii(e)
    ensures pos < |data| && EntryAt(data, pos) == Ok(Parsed(e.info, Rstrip(e.name), next))
  {
    FieldsAt(data, pos, next, p);
  }

  /** The fields read the same wherever the entry lies. */
  lemma FieldsAt(data: Bytes, pos: nat, next: nat, p: Bytes)
    requires pos + |p| == next <= |data| && data[pos..next] == p && |p| >= ENTRY_LENGTH
    ensures U32At(data, pos) == U32At(p, 0) && InfoAt(data, pos) == InfoAt(p, 0)
    ensures data[pos + 17] == p[17] && data[pos + ENTRY_LENGTH..next] == p[ENTRY_LENGTH..]
  {
    assert forall k :: 0 <= k < ENTRY_LENGTH ==> p[k] == data[pos + k];
  }

  /** Entries that follow one another, the last one to the end. */
  ghost predicate IsChain(data: Bytes, at: seq<nat>, toc: seq<TocEntry>) {
    && |at| == |toc| + 1 && at[|toc|] == |data|
    && forall j :: 0 <= j < |toc| ==>
         at[j] < |data| && EntryAt(data, at[j]) == Ok(Parsed(toc[j].info, Rstrip(toc[j].name), at[j + 1]))
  }

  lemma {:induction false} ParseChain(data: Bytes, at: seq<nat>, toc: seq<TocEntry>, c: Contents)
    requires IsChain(data, at, toc)
    ensures at[0] <= |data| && ParseFrom(data, at[0], c) == Ok(AddAll(c, toc))
    decreases |toc|
  {
    if toc != [] {
      assert IsChain(data, at[1..], toc[1..]);
      ParseChain(data, at[1..], toc[1..], Add(c, toc[0].info, Rstrip(toc[0].name)));
    }
  }

  lemma ParseSerialized(toc: seq<TocEntry>)
    requires AllFit(toc) && forall i :: 0 <= i < |toc| ==> IsAscii(toc[i])
    ensures ParseFrom(Join(Pieces(toc)), 0, NOTHING) == Ok(AddAll(NOTHING, toc))
  {
    var parts := Pieces(toc);
    SerializedChain(toc, Offsets(parts));
    assert parts[..0] == [];
    ParseChain(Join(parts), Offsets(parts), toc, NOTHING);
  }

  lemma SerializedChain(toc: seq<TocEntry>, at: seq<nat>)
    requires AllFit(toc) && (forall i :: 0 <= i < |toc| ==> IsAscii(toc[i])) && at == Offsets(Pieces(toc))
    ensures IsChain(Join(Pieces(toc)), at, toc)
  {
    var parts := Pieces(toc);
    assert parts[..|toc|] == parts;
    forall j | 0 <= j < |toc|
      ensures at[j] < |Join(parts)|
      ensures EntryAt(Join(parts), at[j]) == Ok(Parsed(toc[j].info, Rstrip(toc[j].name), at[j + 1]))
    {
      PieceInChain(toc, j);
    }
  }

  function Offsets(parts: seq<Bytes>): (at: seq<nat>)
    ensures |at| == |parts| + 1
    ensures forall j :: 0 <= j <= |parts| ==> at[j] == Offset(parts, j)
  {
    seq(|parts| + 1, j requires 0 <= j <= |parts| => Offset(parts, j))
  }

  lemma PieceInChain(toc: seq<TocEntry>, j: nat)
    requires AllFit(toc) && j < |toc| && IsAscii(toc[j])
    ensures var parts := Pieces(toc);
      && Offset(parts, j) < |Join(parts)|
      && EntryAt(Join(parts), Offset(parts, j)) == Ok(Parsed(toc[j].info, Rstrip(toc[j].name), Offset(parts, j + 1)))
  {
    PieceOf(toc, j);
    ParsePart(Pieces(toc), j, toc[j]);
  }

  lemma PieceOf(toc: seq<TocEntry>, j: nat)
    requires AllFit(toc) && j < |toc|
    ensures IsPiece(Pieces(toc)[j], toc[j])
  {
    PackedFields(toc[j]);
  }

  /** Parsing one of several parts. */
  lemma ParsePart(parts: seq<Bytes>, j: nat, e: TocEntry)
    requires j < |parts| && IsPiece(parts[j], e) && IsAscii(e)
    ensures Offset(parts, j) < |Join(parts)|
    ensures EntryAt(Join(parts), Offset(parts, j)) == Ok(Parsed(e.info, Rstrip(e.name), Offset(parts, j + 1)))
  {
    JoinAt(parts, j);
    ParsePiece(Join(parts), Offset(parts, j), Offset(parts, j + 1), parts[j], e);
  }

  predicate IsUnder(e: TocEntry, name: Bytes) {
    e.info.typecode != OPTION_CODE && Rstrip(e.name) == name
  }

  /** The last of the entries that a reader finds under `name`. */
  predicate IsLastUnder(toc: seq<TocEntry>, name: Bytes, i: int) {
    0 <= i < |toc| && IsUnder(toc[i], name) && forall j :: i < j < |toc| ==> !IsUnder(toc[j], name)
  }

  function LastUnder(toc: seq<TocEntry>, name: Bytes): (r: int)
    ensures -1 <= r < |toc|
    ensures r >= 0 ==> IsUnder(toc[r], name)
    ensures forall j :: r < j < |toc| ==> !IsUnder(toc[j], name)
  {
    if toc == [] then -1
    else if IsUnder(toc[|toc| - 1], name) then |toc| - 1
    else LastUnder(toc[..|toc| - 1], name)
  }

  function OptionNames(toc: seq<TocEntry>): seq<Bytes> {
    if toc == [] then []
    else
      var last := toc[|toc| - 1];
      OptionNames(toc[..|toc| - 1]) + if last.info.typecode == OPTION_CODE then [Rstrip(last.name)] else []
  }

  lemma {:induction false} AddAllOptions(toc: seq<TocEntry>)
    ensures AddAll(NOTHING, toc).options == OptionNames(toc)
  {
    if toc != [] {
      AddAllOptions(toc[..|toc| - 1]);
      AddAllLast(NOTHING, toc);
    }
  }

  lemma {:induction false} AddAllToc(toc: seq<TocEntry>, name: Bytes)
    ensures var c, k := AddAll(NOTHING, toc), LastUnder(toc, name);
      (name in c.toc <==> k >= 0) && (k >= 0 ==> c.toc[name] == toc[k].info)
  {
    if toc != [] {
      AddAllToc(toc[..|toc| - 1], name);
      AddAllLast(NOTHING, toc);
    }
  }

  lemma AddAllMeaning(toc: seq<TocEntry>, name: Bytes)
    ensures var c := AddAll(NOTHING, toc);
      && (name in c.toc <==> exists i :: IsLastUnder(toc, name, i))
      && (forall i :: IsLastUnder(toc, name, i) ==> name in c.toc && c.toc[name] == toc[i].info)
  {
    AddAllToc(toc, name);
    var k := LastUnder(toc, name);
    assert k >= 0 ==> IsLastUnder(toc, name, k);
    assert forall i :: IsLastUnder(toc, name, i) ==> i == k;
  }

  /** Main result on the TOC: parsing what was serialized gives the options in order and, for every
      name, the last entry written under it. */
  lemma TocRoundTrip(toc: seq<TocEntry>)
    requires Serialize(toc).Ok? && forall i :: 0 <= i < |toc| ==> IsAscii(toc[i])
    ensures var r := ParseFrom(Serialize(toc).value, 0, NOTHING);
      && r.Ok? && r.value.options == OptionNames(toc)
      && (forall name :: name in r.value.toc <==> exists i :: IsLastUnder(toc, name, i))
      && (forall name, i :: IsLastUnder(toc, name, i) ==> r.value.toc[name] == toc[i].info)
  {
    ParseSerialized(toc);
    forall name {
      AddAllMeaning(toc, name);
    }
    AddAllOptions(toc);
  }

  /** A name comes back as it was written exactly when it does not end in NUL. */
  lemma NameRoundTrip(e: TocEntry)
    requires Fits(e) && IsAscii(e) && e.info.typecode != OPTION_CODE
    ensures var r := ParseFrom(PackEntry(e), 0, NOTHING);
      r == Ok(Contents(map[e.name := e.info], [])) <==> (e.name == [] || e.name[|e.name| - 1] != 0)
  {
    var data := PackEntry(e);
    assert data[0..|data|] == data;
    PackedFields(e);
    ParsePiece(data, 0, |data|, data, e);
    if Rstrip(e.name) != e.name {
      assert e.name !in map[Rstrip(e.name) := e.info];
    }
  }

  /** Every serialized entry is aligned, and at least one NUL follows every name. */
  lemma EntryShape(e: TocEntry)
    requires Fits(e)
    ensures var p := PackEntry(e);
      && |p| % 16 == 0
      && p[ENTRY_LENGTH..ENTRY_LENGTH + |e.name|] == e.name
      && 1 <= |p| - ENTRY_LENGTH - |e.name| <= 16
      && forall i :: ENTRY_LENGTH + |e.name| <= i < |p| ==> p[i] == 0
  {
    PackedFields(e);
    TailShape(PackEntry(e), e.name, NameFieldLength(|e.name|));
  }

  /** In front of the name: the length of the entry, where and how long its blob is, the length of what
      was collected, each in four bytes with the most significant first, whether it is compressed, and
      its typecode. */
  lemma EntryLayout(e: TocEntry)
    requires Fits(e)
    ensures var p := PackEntry(e);
      && p[0..4] == BigEndian(|p|, 4) && p[4..8] == BigEndian(e.info.offset, 4)
      && p[8..12] == BigEndian(e.info.length, 4) && p[12..16] == BigEndian(e.info.dataLength, 4)
      && p[16] == e.info.compressed && p[17] == e.info.typecode && p[18..18 + |e.name|] == e.name
  {
    var n := NameFieldLength(|e.name|);
    FieldsOf(PackEntry(e), U32(ENTRY_LENGTH + n), U32(e.info.offset), U32(e.info.length), U32(e.info.dataLength),
             [e.info.compressed, e.info.typecode], e.name + Zeros(n - |e.name|));
    U32IsBigEndian(ENTRY_LENGTH + n);
    U32IsBigEndian(e.info.offset);
    U32IsBigEndian(e.info.length);
    U32IsBigEndian(e.info.dataLength);
    EntryShape(e);
  }

  lemma TailShape(p: Bytes, name: Bytes, n: nat)
    requires n >= |name| && |p| == ENTRY_LENGTH + n && p[ENTRY_LENGTH..] == name + Zeros(n - |name|)
    ensures p[ENTRY_LENGTH..ENTRY_LENGTH + |name|] == name
    ensures forall i :: ENTRY_LENGTH + |name| <= i < |p| ==> p[i] == 0
  {
    assert p[ENTRY_LENGTH..ENTRY_LENGTH + |name|] == p[ENTRY_LENGTH..][..|name|];
    assert forall i :: ENTRY_LENGTH <= i < |p| ==> p[i] == p[ENTRY_LENGTH..][i - ENTRY_LENGTH];
  }

  lemma {:induction false} JoinAligned(parts: seq<Bytes>)
    requires forall i :: 0 <= i < |parts| ==> |parts[i]| % 16 == 0
    ensures |Join(parts)| % 16 == 0
  {
    if parts != [] {
      JoinAligned(parts[..|parts| - 1]);
    }
  }

  lemma SerializedAligned(toc: seq<TocEntry>)
    requires AllFit(toc)
    ensures |Join(Pieces(toc))| % 16 == 0
  {
    forall i | 0 <= i < |toc|
      ensures |Pieces(toc)[i]| % 16 == 0
    {
      EntryShape(toc[i]);
    }
    JoinAligned(Pieces(toc));
  }
}
