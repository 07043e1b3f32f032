/** Scanning byte code with a matcher that may start at any byte: `finditer`. */
module ByteScan {
  import opened FileTree

  /** Where a match at an offset ends, if there is one; matches are not empty. */
  type Matcher = nat -> Option<nat>

  ghost predicate IsMatcher(m: Matcher, n: nat) {
    forall i: nat :: m(i).Some? ==> i < m(i).value <= n
  }

  datatype Span = Span(start: nat, end: nat)

  /** The leftmost match at or after `pos`: what the regular expression engine yields next. */
  function Search(m: Matcher, n: nat, pos: nat): (r: Option<Span>)
    ensures r.Some? ==> pos <= r.value.start < n && m(r.value.start) == Some(r.value.end)
    ensures r.Some? ==> forall i :: pos <= i < r.value.start ==> m(i).None?
    ensures r.None? ==> forall i :: pos <= i < n ==> m(i).None?
    decreases n - pos
  {
    if pos >= n then None
    else if m(pos).Some? then Some(Span(pos, m(pos).value))
    else Search(m, n, pos + 1)
  }

  /** All matches of a leftmost, non-overlapping scan that tries every byte. */
  function FindAll(m: Matcher, n: nat, pos: nat): seq<Span>
    requires IsMatcher(m, n)
    decreases n - pos
  {
    if pos >= n then []
    else if m(pos).Some? then [Span(pos, m(pos).value)] + FindAll(m, n, m(pos).value)
    else FindAll(m, n, pos + 1)
  }

  /** The matches of a leftmost, non-overlapping scan that tries instruction starts only. */
  function EvenScan(m: Matcher, n: nat, pos: nat): seq<Span>
    requires IsMatcher(m, n)
    decreases n - pos
  {
    if pos >= n then []
    else if pos % 2 == 0 && m(pos).Some? then [Span(pos, m(pos).value)] + EvenScan(m, n, m(pos).value)
    else EvenScan(m, n, pos + 1)
  }

  lemma {:induction false} EvenScanSkip(m: Matcher, n: nat, pos: nat, stop: nat)
    requires IsMatcher(m, n) && pos <= stop <= n
    requires forall i :: pos <= i < stop && i % 2 == 0 ==> m(i).None?
    ensures EvenScan(m, n, pos) == EvenScan(m, n, stop)
    decreases stop - pos
  {
    if pos < stop {
      EvenScanSkip(m, n, pos + 1, stop);
    }
  }

  /** What the next match of the byte-wise scan means for the scan over instruction starts. */
  lemma ScanStep(m: Matcher, n: nat, pos: nat, s: Span)
    requires IsMatcher(m, n) && Search(m, n, pos) == Some(s)
    ensures pos <= s.start < s.end <= n
    ensures s.start % 2 == 0 ==> EvenScan(m, n, pos) == [s] + EvenScan(m, n, s.end)
    ensures s.start % 2 != 0 ==> EvenScan(m, n, pos) == EvenScan(m, n, s.start + 1)
  {
    assert m(s.start).Some?;
    EvenScanSkip(m, n, pos, s.start);
  }

  lemma ScanAppend(m: Matcher, n: nat, out: seq<Span>, pos: nat, s: Span)
    requires IsMatcher(m, n) && s.end <= n && EvenScan(m, n, pos) == [s] + EvenScan(m, n, s.end)
    ensures out + EvenScan(m, n, pos) == (out + [s]) + EvenScan(m, n, s.end)
  {
  }

  /** Restarting the scan after every match that starts in the middle of an instruction terminates,
      and yields exactly the matches of a scan over instruction starts. */
  method FindIter(m: Matcher, n: nat) returns (out: seq<Span>)
    requires IsMatcher(m, n)
    ensures out == EvenScan(m, n, 0)
  {
    out := [];
    var pos := 0;
    while true
      invariant pos <= n && out + EvenScan(m, n, pos) == EvenScan(m, n, 0)
      decreases n - pos
    {
      var restart := false;
      var found := Search(m, n, pos);
      ghost var begin := pos;
      while found.Some?
        invariant begin <= pos <= n && !restart && found == Search(m, n, pos)
        invariant out + EvenScan(m, n, pos) == EvenScan(m, n, 0)
        decreases n - pos
      {
        var s := found.value;
        ScanStep(m, n, pos, s);
        if s.start % 2 == 0 {
          ScanAppend(m, n, out, pos, s);
          out := out + [s];
          pos := s.end;
          found := Search(m, n, pos);
        } else {
          pos := s.start + 1;
          restart := true;
          break;
        }
      }
      if !restart {
        EvenScanSkip(m, n, pos, n);
        break;
      }
    }
  }

  /** Between matches that follow one another without a gap, the two scans agree. */
  lemma FindAllStep(m: Matcher, n: nat, pos: nat, end: nat)
    requires IsMatcher(m, n) && pos < n && m(pos) == Some(end)
    ensures FindAll(m, n, pos) == [Span(pos, end)] + FindAll(m, n, end)
  {
  }
}
