/** Byte strings, big-endian 32-bit fields, and searching for a pattern from the back. */
module Bytes {
  type byte = x: int | 0 <= x < 256
  type Bytes = seq<byte>

  const LIMIT_32 := 0x1_0000_0000

  /** `struct.pack('!I', n)` */
  function U32(n: nat): (r: Bytes)
    requires n < LIMIT_32
    ensures |r| == 4
  {
    [n / 0x100_0000, n / 0x1_0000 % 0x100, n / 0x100 % 0x100, n % 0x100]
  }

  /** `struct.unpack('!I', b[i:i + 4])` */
  function U32At(b: Bytes, i: nat): (n: nat)
    requires i + 4 <= |b|
    ensures n < LIMIT_32
  {
    var b3: int, b2: int, b1: int := b[i], b[i + 1], b[i + 2];
    b3 * 0x100_0000 + b2 * 0x1_0000 + b1 * 0x100 + b[i + 3]
  }

  /** A 32-bit field reads as the number written, wherever it lies. */
  lemma U32RoundTrip(b: Bytes, i: nat, n: nat)
    requires n < LIMIT_32 && i + 4 <= |b| && b[i..i + 4] == U32(n)
    ensures U32At(b, i) == n
  {
    var f := b[i..i + 4];
    assert f[0] == b[i] && f[1] == b[i + 1] && f[2] == b[i + 2] && f[3] == b[i + 3];
    var q := n / 0x100;
    var r := q / 0x100;
    assert n / 0x1_0000 == r && n / 0x100_0000 == r / 0x100;
  }

  // ---- Numbers of any width, the most significant byte first ----

  /** `n.to_bytes(width, "big")`, of what fits in `width` bytes */
  function BigEndian(n: nat, width: nat): (r: Bytes)
    ensures |r| == width
  {
    if width == 0 then [] else BigEndian(n / 256, width - 1) + [n % 256]
  }

  /** `int.from_bytes(b, "big")` */
  function FromBigEndian(b: Bytes): nat {
    if b == [] then 0 else FromBigEndian(b[..|b| - 1]) * 256 + b[|b| - 1]
  }

  /** 256 to the power `width` */
  function Numbers(width: nat): (r: nat)
    ensures r > 0
  {
    if width == 0 then 1 else 256 * Numbers(width - 1)
  }

  /** The digits read back as the number if and only if it fits; ... */
  lemma {:induction false} DigitsReadBack(n: nat, width: nat)
    ensures FromBigEndian(BigEndian(n, width)) == n <==> n < Numbers(width)
    ensures FromBigEndian(BigEndian(n, width)) < Numbers(width)
    decreases width
  {
    if width > 0 {
      DigitsReadBack(n / 256, width - 1);
      assert BigEndian(n, width)[..width - 1] == BigEndian(n / 256, width - 1);
      assert n == n / 256 * 256 + n % 256;
    }
  }

  /** ... any bytes are the digits of the number that they read as; ... */
  lemma {:induction false} BytesAreDigits(b: Bytes)
    ensures BigEndian(FromBigEndian(b), |b|) == b && FromBigEndian(b) < Numbers(|b|)
    decreases |b|
  {
    if b != [] {
      var front, last: int := b[..|b| - 1], b[|b| - 1];
      BytesAreDigits(front);
      assert (FromBigEndian(front) * 256 + last) / 256 == FromBigEndian(front);
      assert (FromBigEndian(front) * 256 + last) % 256 == last;
      assert b == front + [b[|b| - 1]];
    }
  }

  /** ... and the first byte weighs the most. */
  lemma {:induction false} FirstByteWeighs(first: byte, rest: Bytes)
    ensures FromBigEndian([first] + rest) == first * Numbers(|rest|) + FromBigEndian(rest)
    decreases |rest|
  {
    var b := [first] + rest;
    if rest == [] {
      assert b[..0] == [];
    } else {
      var n := |rest| - 1;
      assert b[..|b| - 1] == [first] + rest[..n];
      FirstByteWeighs(first, rest[..n]);
      Weights(first, Numbers(n), FromBigEndian(rest[..n]));
    }
  }

  lemma Weights(first: nat, power: nat, rest: nat)
    ensures (first * power + rest) * 256 == first * (256 * power) + rest * 256
  {
  }

  /** The fixed field is the case of four bytes. */
  lemma U32IsBigEndian(n: nat)
    requires n < LIMIT_32
    ensures U32(n) == BigEndian(n, 4)
  {
    var q := n / 0x100;
    var r := q / 0x100;
    assert BigEndian(r / 0x100, 1) == [r / 0x100 % 0x100];
    assert BigEndian(r, 2) == [r / 0x100 % 0x100, r % 0x100];
    assert BigEndian(q, 3) == [r / 0x100 % 0x100, r % 0x100, q % 0x100];
    assert n / 0x1_0000 == r && n / 0x100_0000 == r / 0x100 && r / 0x100 < 0x100;
  }

  function Zeros(n: nat): (r: Bytes)
    ensures |r| == n && forall i :: 0 <= i < n ==> r[i] == 0
  {
    seq(n, i => 0)
  }

  /** `s.rstrip(b'\0')` */
  function Rstrip(s: Bytes): (r: Bytes)
    ensures |r| <= |s| && r == s[..|r|]
    ensures r == [] || r[|r| - 1] != 0
    ensures forall i :: |r| <= i < |s| ==> s[i] == 0
  {
    if s == [] || s[|s| - 1] != 0 then s else Rstrip(s[..|s| - 1])
  }

  lemma {:induction false} RstripPadded(s: Bytes, n: nat)
    ensures Rstrip(s + Zeros(n)) == Rstrip(s)
  {
    var t := s + Zeros(n);
    if n == 0 {
      assert t == s;
    } else {
      assert t[|t| - 1] == 0 && t[..|t| - 1] == s + Zeros(n - 1);
      RstripPadded(s, n - 1);
    }
  }

  /** `b''.join(parts)` */
  function Join(parts: seq<Bytes>): Bytes {
    if parts == [] then [] else Join(parts[..|parts| - 1]) + parts[|parts| - 1]
  }

  lemma {:induction false} JoinConcat(a: seq<Bytes>, b: seq<Bytes>)
    ensures Join(a + b) == Join(a) + Join(b)
  {
    if b == [] {
      assert a + b == a;
    } else {
      assert (a + b)[..|a + b| - 1] == a + b[..|b| - 1];
      JoinConcat(a, b[..|b| - 1]);
    }
  }

  /** Where the j-th part begins. */
  function Offset(parts: seq<Bytes>, j: nat): nat
    requires j <= |parts|
  {
    |Join(parts[..j])|
  }

  lemma JoinAt(parts: seq<Bytes>, j: nat)
    requires j < |parts|
    ensures Offset(parts, j) + |parts[j]| == Offset(parts, j + 1) <= |Join(parts)|
    ensures Join(parts)[Offset(parts, j)..Offset(parts, j + 1)] == parts[j]
  {
    var a, b := parts[..j], parts[j + 1..];
    assert parts[..j + 1][..j] == a;
    assert parts == parts[..j + 1] + b;
    JoinConcat(parts[..j + 1], b);
  }

  // ---- Searching ----

  predicate OccursAt(s: Bytes, pattern: Bytes, i: int) {
    0 <= i <= |s| - |pattern| && s[i..i + |pattern|] == pattern
  }

  /** `s.rfind(pattern)`: the last occurrence, or -1. */
  function RFind(s: Bytes, pattern: Bytes): (r: int)
    ensures -1 <= r <= |s|
    ensures r >= 0 ==> OccursAt(s, pattern, r)
    ensures forall j :: OccursAt(s, pattern, j) ==> j <= r
  {
    RFindFrom(s, pattern, |s|)
  }

  function RFindFrom(s: Bytes, pattern: Bytes, n: nat): (r: int)
    requires n <= |s|
    ensures -1 <= r <= n
    ensures r >= 0 ==> OccursAt(s, pattern, r)
    ensures forall j :: OccursAt(s, pattern, j) && j <= n ==> j <= r
    decreases n
  {
    if OccursAt(s, pattern, n) then n
    else if n == 0 then -1
    else RFindFrom(s, pattern, n - 1)
  }

  lemma SliceOfSlice(s: Bytes, lo: nat, hi: nat, i: nat, j: nat)
    requires lo <= hi <= |s| && i <= j <= hi - lo
    ensures s[lo..hi][i..j] == s[lo + i..lo + j]
  {
    var a, b := s[lo..hi][i..j], s[lo + i..lo + j];
    forall k | 0 <= k < |a|
      ensures a[k] == b[k]
    {
    }
  }

  lemma OccursInSlice(s: Bytes, pattern: Bytes, lo: nat, hi: nat, i: int)
    requires lo <= hi <= |s|
    ensures OccursAt(s[lo..hi], pattern, i) <==> 0 <= i && lo + i + |pattern| <= hi && OccursAt(s, pattern, lo + i)
  {
    if 0 <= i && i + |pattern| <= hi - lo {
      SliceOfSlice(s, lo, hi, i, i + |pattern|);
    }
  }

  /** The search for the cookie reads the file in overlapping chunks, the last one first, and finds
      what a search of the whole file would find. */
  method FindMagicPattern(file: Bytes, pattern: Bytes, chunkSize: nat) returns (offset: int)
    requires pattern != [] && chunkSize >= |pattern|
    ensures offset == RFind(file, pattern)
  {
    var endPos := |file|;
    offset := -1;
    while endPos >= |pattern|
      invariant endPos <= |file|
      invariant forall j :: OccursAt(file, pattern, j) ==> j + |pattern| <= endPos
      decreases endPos
    {
      var startPos := if endPos < chunkSize then 0 else endPos - chunkSize;
      if endPos - startPos < |pattern| {
        break;
      }
      var buf := file[startPos..endPos];
      var pos := RFind(buf, pattern);
      if pos != -1 {
        offset := startPos + pos;
        OccursInSlice(file, pattern, startPos, endPos, pos);
        forall j | OccursAt(file, pattern, j)
          ensures j <= offset
        {
          OccursInSlice(file, pattern, startPos, endPos, j - startPos);
        }
        return;
      }
      forall j | OccursAt(file, pattern, j)
        ensures j < startPos
      {
        OccursInSlice(file, pattern, startPos, endPos, j - startPos);
      }
      endPos := startPos + |pattern| - 1;
    }
  }
}
