/** What `function_calls` finds in code assembled from instructions, whatever their argument widths. */
module CallRecovery {
  import opened FileTree
  import opened Bytes
  import opened ByteScan
  import opened CallScan

  // ---- Assembling code ----

  /** An instruction and its big-endian argument; each byte but the last needs an EXTENDED_ARG. */
  datatype Instr = Instr(op: byte, arg: Bytes)

  ghost predicate IsProgram(kind: byte -> Kind, p: seq<Instr>) {
    forall k :: 0 <= k < |p| ==> |p[k].arg| >= 1 && kind(p[k].op) != Ext
  }

  function Size(x: Instr): nat { 2 * |x.arg| }

  function EncodeInstr(ext: byte, op: byte, arg: Bytes): Bytes {
    if |arg| == 0 then []
    else if |arg| == 1 then [op, arg[0]]
    else [ext, arg[0]] + EncodeInstr(ext, op, arg[1..])
  }

  function Assemble(ext: byte, p: seq<Instr>): Bytes {
    if p == [] then [] else EncodeInstr(ext, p[0].op, p[0].arg) + Assemble(ext, p[1..])
  }

  /** Byte `d` of the argument of `x`, with the opcode before it, is encoded at offset `i`. */
  ghost predicate PairAt(ext: byte, code: Bytes, i: int, x: Instr, d: int) {
    && 0 <= d < |x.arg| && 0 <= i && i + 2 <= |code|
    && code[i] == (if d < |x.arg| - 1 then ext else x.op) && code[i + 1] == x.arg[d]
  }

  /** Instruction `x` is encoded at offset `i`. */
  ghost predicate InstrAt(ext: byte, code: Bytes, i: nat, x: Instr) {
    && |x.arg| >= 1 && i + Size(x) <= |code|
    && forall d, e :: 0 <= d < |x.arg| && e == i + 2 * d ==> PairAt(ext, code, e, x, d)
  }

  /** The instructions from `k` up to `m` are encoded between offsets `i` and `j`. */
  ghost predicate Segment(ext: byte, code: Bytes, i: nat, j: nat, p: seq<Instr>, k: nat, m: nat)
    decreases m - k
  {
    && i <= j <= |code| && k <= m <= |p|
    && if k == m then i == j
       else InstrAt(ext, code, i, p[k]) && Segment(ext, code, i + Size(p[k]), j, p, k + 1, m)
  }

  lemma {:induction false} EncodedInstr(ext: byte, x: Instr, before: Bytes, after: Bytes)
    requires |x.arg| >= 1
    ensures |EncodeInstr(ext, x.op, x.arg)| == Size(x)
    ensures InstrAt(ext, before + EncodeInstr(ext, x.op, x.arg) + after, |before|, x)
    decreases |x.arg|
  {
    var i, code := |before|, before + EncodeInstr(ext, x.op, x.arg) + after;
    if |x.arg| > 1 {
      var rest := Instr(x.op, x.arg[1..]);
      EncodedInstr(ext, rest, before + [ext, x.arg[0]], after);
      assert code == (before + [ext, x.arg[0]]) + EncodeInstr(ext, x.op, x.arg[1..]) + after;
      assert PairAt(ext, code, i, x, 0);
      forall d, e | 0 <= d < |x.arg| && e == i + 2 * d
        ensures PairAt(ext, code, e, x, d)
      {
        if d > 0 {
          assert PairAt(ext, code, i + 2 + 2 * (d - 1), rest, d - 1);
        }
      }
    } else {
      assert PairAt(ext, code, i, x, 0);
    }
  }

  lemma {:induction false} AssembledFrom(ext: byte, p: seq<Instr>, k: nat, before: Bytes)
    requires k <= |p| && forall n :: 0 <= n < |p| ==> |p[n].arg| >= 1
    ensures var code := before + Assemble(ext, p[k..]); Segment(ext, code, |before|, |code|, p, k, |p|)
    decreases |p| - k
  {
    if k < |p| {
      var x := p[k];
      var e := EncodeInstr(ext, x.op, x.arg);
      var after := Assemble(ext, p[k..][1..]);
      EncodedInstr(ext, x, before, after);
      assert p[k..][1..] == p[k + 1..];
      AssembledFrom(ext, p, k + 1, before + e);
      assert before + (e + after) == (before + e) + after;
    } else {
      assert p[k..] == [];
    }
  }

  // ---- Groups and instructions ----

  lemma SegmentStep(ext: byte, code: Bytes, i: nat, j: nat, p: seq<Instr>, k: nat, m: nat)
    requires Segment(ext, code, i, j, p, k, m) && k < m
    ensures InstrAt(ext, code, i, p[k])
    ensures i + Size(p[k]) <= j && Segment(ext, code, i + Size(p[k]), j, p, k + 1, m)
    ensures Segment(ext, code, i, i + Size(p[k]), p, k, k + 1)
  {
  }

  lemma {:induction false} ExtSkipped(kind: byte -> Kind, ext: byte, code: Bytes, i: nat, x: Instr, d: nat)
    requires kind(ext) == Ext && InstrAt(ext, code, i, x) && kind(x.op) != Ext && d < |x.arg|
    ensures SkipExt(kind, code, i + 2 * d) == i + Size(x) - 2
    decreases |x.arg| - d
  {
    if d < |x.arg| - 1 {
      assert PairAt(ext, code, i + 2 * d, x, d);
      ExtSkipped(kind, ext, code, i, x, d + 1);
      assert i + 2 * (d + 1) == i + 2 * d + 2;
    } else {
      assert PairAt(ext, code, i + 2 * d, x, d);
      assert i + 2 * d == i + Size(x) - 2;
    }
  }

  /** From anywhere inside an instruction, its extensions included, one group of its kind can be
      matched, and it ends with the instruction. */
  lemma InstrGroup(kind: byte -> Kind, ext: byte, code: Bytes, i: nat, x: Instr, d: nat, k: Kind)
    requires kind(ext) == Ext && InstrAt(ext, code, i, x) && kind(x.op) != Ext && d < |x.arg|
    ensures GroupEnd(kind, code, i + 2 * d, k) == if kind(x.op) == k then Some(i + Size(x)) else None
    ensures InstructionEnd(kind, code, i) == Some(i + Size(x))
  {
    ExtSkipped(kind, ext, code, i, x, d);
    ExtSkipped(kind, ext, code, i, x, 0);
    assert PairAt(ext, code, i + 2 * (|x.arg| - 1), x, |x.arg| - 1);
  }

  // ---- Reference: scanning instructions ----

  function RunEnd(kind: byte -> Kind, p: seq<Instr>, k: nat, run: Kind): (m: nat)
    requires k <= |p|
    ensures k <= m <= |p|
    ensures forall n :: k <= n < m ==> kind(p[n].op) == run
    ensures m < |p| ==> kind(p[m].op) != run
    decreases |p| - k
  {
    if k < |p| && kind(p[k].op) == run then RunEnd(kind, p, k + 1, run) else k
  }

  /** The instruction after the attributes, and the call, of the candidate call that begins at `k`. */
  function CallAt(kind: byte -> Kind, p: seq<Instr>, k: nat): (r: Option<(nat, nat)>)
    requires k < |p|
    ensures r.Some? ==> k < r.value.0 <= r.value.1 < |p|
  {
    if kind(p[k].op) != Root then None
    else
      var attrs := RunEnd(kind, p, k + 1, Attr);
      var args := RunEnd(kind, p, attrs, Arg);
      if args < |p| && kind(p[args].op) == Call then Some((attrs, args)) else None
  }

  function Value(o: Opmap, c: CodeObject, x: Instr): Option<Const> {
    Lookup(o, c, x.op, FromBigEndian(x.arg))
  }

  function Values(o: Opmap, c: CodeObject, p: seq<Instr>, k: nat, m: nat): Option<seq<Const>>
    requires k <= m <= |p|
    decreases m - k
  {
    if k == m then Some([])
    else
      match Value(o, c, p[k])
      case None => None
      case Some(v) =>
        match Values(o, c, p, k + 1, m)
        case None => None
        case Some(vs) => Some([v] + vs)
  }

  function FirstByte(o: Opmap, x: Instr): byte {
    if |x.arg| == 1 then x.op else o.extendedArg
  }

  /** What the candidate call at `k` is worth. */
  function CallOutcome(o: Opmap, c: CodeObject, p: seq<Instr>, k: nat): Outcome {
    if k >= |p| then Skips
    else
      match CallAt(KindOf(o), p, k)
      case None => Skips
      case Some((attrs, args)) =>
        Judge(o, Value(o, c, p[k]), Values(o, c, p, k + 1, attrs), Values(o, c, p, attrs, args),
              FirstByte(o, p[args]), FromBigEndian(p[args].arg))
  }

  /** The calls that are found when every instruction from `k` on is tried. */
  function CallsFrom(worth: nat -> Outcome, k: nat, n: nat): Option<seq<CallRecord>>
    requires k <= n
    decreases n - k
  {
    if k == n then Some([]) else Combine(worth(k), CallsFrom(worth, k + 1, n))
  }

  function Worth(o: Opmap, c: CodeObject, p: seq<Instr>): nat -> Outcome {
    (k: nat) => CallOutcome(o, c, p, k)
  }

  function ProgramCalls(o: Opmap, c: CodeObject, p: seq<Instr>): Option<seq<CallRecord>> {
    CallsFrom(Worth(o, c, p), 0, |p|)
  }

  // ---- The byte scan agrees with the instruction scan ----

  /** A run of groups covers whole instructions. */
  lemma {:induction false} RunInCode(kind: byte -> Kind, ext: byte, code: Bytes, i: nat, p: seq<Instr>, k: nat,
                                     run: Kind)
    requires kind(ext) == Ext && IsProgram(kind, p) && Segment(ext, code, i, |code|, p, k, |p|) && run != Ext
    ensures var m := RunEnd(kind, p, k, run); var j := StarEnd(kind, code, i, run);
      Segment(ext, code, i, j, p, k, m) && Segment(ext, code, j, |code|, p, m, |p|)
    decreases |p| - k
  {
    if k < |p| {
      InstrGroup(kind, ext, code, i, p[k], 0, run);
      if kind(p[k].op) == run {
        RunInCode(kind, ext, code, i + Size(p[k]), p, k + 1, run);
      }
    }
  }

  lemma NothingAtEnd(kind: byte -> Kind, code: Bytes, k: Kind)
    ensures GroupEnd(kind, code, |code|, k).None?
  {
  }

  /** Where the groups of a match lie in the code, for the candidate that begins at instruction `k`. */
  ghost predicate GroupsCover(ext: byte, code: Bytes, i: nat, p: seq<Instr>, k: nat, g: Groups, attrs: nat, args: nat) {
    && k < attrs <= args < |p|
    && Segment(ext, code, i, g.root, p, k, k + 1)
    && Segment(ext, code, g.root, g.attrs, p, k + 1, attrs)
    && Segment(ext, code, g.attrs, g.args, p, attrs, args)
    && Segment(ext, code, g.args, g.call, p, args, args + 1)
    && Segment(ext, code, g.call, |code|, p, args + 1, |p|)
  }

  /** The match at an offset, with the root's end given. */
  function MatchAfterRoot(kind: byte -> Kind, code: Bytes, root: nat): Option<Groups> {
    var attrs: nat := StarEnd(kind, code, root, Attr);
    var args: nat := StarEnd(kind, code, attrs, Arg);
    match GroupEnd(kind, code, args, Call)
    case None => None
    case Some(call) => Some(Groups(root, attrs, args, call))
  }

  /** The instruction after a run is a call, or else no call can be matched there. */
  lemma CallAfterRun(kind: byte -> Kind, ext: byte, code: Bytes, i: nat, p: seq<Instr>, k: nat)
    requires kind(ext) == Ext && IsProgram(kind, p) && Segment(ext, code, i, |code|, p, k, |p|)
    ensures GroupEnd(kind, code, i, Call).Some? <==> k < |p| && kind(p[k].op) == Call
    ensures k < |p| && kind(p[k].op) == Call ==>
      var j: nat := GroupEnd(kind, code, i, Call).value;
      Segment(ext, code, i, j, p, k, k + 1) && Segment(ext, code, j, |code|, p, k + 1, |p|)
  {
    if k < |p| {
      SegmentStep(ext, code, i, |code|, p, k, |p|);
      InstrGroup(kind, ext, code, i, p[k], 0, Call);
    } else {
      NothingAtEnd(kind, code, Call);
    }
  }

  /** The arguments and the call behind them. */
  lemma ArgsInCode(kind: byte -> Kind, ext: byte, code: Bytes, i: nat, p: seq<Instr>, k: nat)
    requires kind(ext) == Ext && IsProgram(kind, p) && Segment(ext, code, i, |code|, p, k, |p|)
    ensures var args, atArgs := RunEnd(kind, p, k, Arg), StarEnd(kind, code, i, Arg);
      var call := GroupEnd(kind, code, atArgs, Call);
      && Segment(ext, code, i, atArgs, p, k, args)
      && (call.Some? <==> args < |p| && kind(p[args].op) == Call)
      && (call.Some? ==> Segment(ext, code, atArgs, call.value, p, args, args + 1)
                         && Segment(ext, code, call.value, |code|, p, args + 1, |p|))
  {
    RunInCode(kind, ext, code, i, p, k, Arg);
    CallAfterRun(kind, ext, code, StarEnd(kind, code, i, Arg), p, RunEnd(kind, p, k, Arg));
  }

  lemma MatchAfterRootInCode(kind: byte -> Kind, ext: byte, code: Bytes, i: nat, p: seq<Instr>, k: nat)
    requires kind(ext) == Ext && IsProgram(kind, p) && Segment(ext, code, i, |code|, p, k, |p|) && k < |p|
    requires kind(p[k].op) == Root
    ensures var g := MatchAfterRoot(kind, code, i + Size(p[k])); var r := CallAt(kind, p, k);
      (g.Some? <==> r.Some?) && (r.Some? ==> GroupsCover(ext, code, i, p, k, g.value, r.value.0, r.value.1))
  {
    var root := i + Size(p[k]);
    SegmentStep(ext, code, i, |code|, p, k, |p|);
    RunInCode(kind, ext, code, root, p, k + 1, Attr);
    ArgsInCode(kind, ext, code, StarEnd(kind, code, root, Attr), p, RunEnd(kind, p, k + 1, Attr));
  }

  /** A match begins at any of the bytes of an instruction that are opcodes exactly if a candidate
      call begins with that instruction. */
  lemma {:induction false} MatchInCode(kind: byte -> Kind, ext: byte, code: Bytes, i: nat, p: seq<Instr>, k: nat,
                                       d: nat)
    requires kind(ext) == Ext && IsProgram(kind, p) && Segment(ext, code, i, |code|, p, k, |p|)
    requires k < |p| && d < |p[k].arg|
    ensures var g := MatchAt(kind, code, i + 2 * d); var r := CallAt(kind, p, k);
      (g.Some? <==> r.Some?) && (r.Some? ==> GroupsCover(ext, code, i, p, k, g.value, r.value.0, r.value.1))
  {
    InstrGroup(kind, ext, code, i, p[k], d, Root);
    if kind(p[k].op) == Root {
      MatchAfterRootInCode(kind, ext, code, i, p, k);
      assert MatchAt(kind, code, i + 2 * d) == MatchAfterRoot(kind, code, i + Size(p[k]));
    }
  }

  // ---- Reading values ----

  lemma {:induction false} OddBytesOf(ext: byte, raw: Bytes, x: Instr)
    requires InstrAt(ext, raw, 0, x) && |raw| == Size(x)
    ensures OddBytes(raw) == x.arg
    decreases |raw|
  {
    assert PairAt(ext, raw, 0, x, 0);
    if |x.arg| > 1 {
      var rest := Instr(x.op, x.arg[1..]);
      var tail := raw[2..];
      forall d, e | 0 <= d < |rest.arg| && e == 0 + 2 * d
        ensures PairAt(ext, tail, e, rest, d)
      {
        assert PairAt(ext, raw, 0 + 2 * (d + 1), x, d + 1);
      }
      OddBytesOf(ext, tail, rest);
    } else {
      assert raw[2..] == [];
    }
  }

  lemma InstrShift(ext: byte, code: Bytes, i: nat, x: Instr, a: nat, b: nat)
    requires InstrAt(ext, code, i, x) && a <= i && i + Size(x) <= b <= |code|
    ensures InstrAt(ext, code[a..b], i - a, x)
  {
    forall d, e | 0 <= d < |x.arg| && e == i - a + 2 * d
      ensures PairAt(ext, code[a..b], e, x, d)
    {
      assert PairAt(ext, code, i + 2 * d, x, d);
    }
  }

  lemma {:induction false} SegmentShift(ext: byte, code: Bytes, i: nat, j: nat, p: seq<Instr>, k: nat, m: nat, a: nat,
                                        b: nat)
    requires Segment(ext, code, i, j, p, k, m) && a <= i && j <= b <= |code|
    ensures Segment(ext, code[a..b], i - a, j - a, p, k, m)
    decreases m - k
  {
    if k < m {
      SegmentShift(ext, code, i + Size(p[k]), j, p, k + 1, m, a, b);
      InstrShift(ext, code, i, p[k], a, b);
    }
  }

  /** `extended_arguments` inverts the encoding of an argument, whatever its width. */
  lemma ArgumentRead(ext: byte, code: Bytes, i: nat, x: Instr)
    requires InstrAt(ext, code, i, x)
    ensures var raw := code[i..i + Size(x)];
      ExtendedArguments(raw) == FromBigEndian(x.arg) && |raw| >= 2 && raw[|raw| - 2] == x.op
  {
    InstrShift(ext, code, i, x, i, i + Size(x));
    OddBytesOf(ext, code[i..i + Size(x)], x);
    assert PairAt(ext, code, i + 2 * (|x.arg| - 1), x, |x.arg| - 1);
  }

  lemma LoadRead(o: Opmap, c: CodeObject, code: Bytes, i: nat, x: Instr)
    requires InstrAt(o.extendedArg, code, i, x)
    ensures Load(o, c, code[i..i + Size(x)]) == Value(o, c, x)
  {
    ArgumentRead(o.extendedArg, code, i, x);
  }

  lemma LoadSpansFirst(o: Opmap, c: CodeObject, raw: Bytes, s: Span, rest: seq<Span>, v: Option<Const>,
                       vs: Option<seq<Const>>)
    requires forall n :: 0 <= n < |rest| ==> rest[n].start + 2 <= rest[n].end <= |raw|
    requires s.start + 2 <= s.end <= |raw| && Load(o, c, raw[s.start..s.end]) == v && LoadSpans(o, c, raw, rest) == vs
    ensures LoadSpans(o, c, raw, [s] + rest) == if v.None? || vs.None? then None else Some([v.value] + vs.value)
  {
    assert ([s] + rest)[1..] == rest;
  }

  lemma InstrSpan(kind: byte -> Kind, ext: byte, raw: Bytes, m: Matcher, i: nat, x: Instr)
    requires m == InstructionMatcher(kind, raw) && kind(ext) == Ext && InstrAt(ext, raw, i, x) && kind(x.op) != Ext
    ensures FindAll(m, |raw|, i) == [Span(i, i + Size(x))] + FindAll(m, |raw|, i + Size(x))
  {
    InstrGroup(kind, ext, raw, i, x, 0, Root);
    FindAllStep(m, |raw|, i, i + Size(x));
  }

  ghost predicate SpansAre(o: Opmap, c: CodeObject, raw: Bytes, spans: seq<Span>, values: Option<seq<Const>>) {
    && (forall n :: 0 <= n < |spans| ==> spans[n].start + 2 <= spans[n].end <= |raw|)
    && LoadSpans(o, c, raw, spans) == values
  }

  lemma SpansStep(o: Opmap, c: CodeObject, raw: Bytes, i: nat, x: Instr, rest: seq<Span>, values: Option<seq<Const>>)
    requires InstrAt(o.extendedArg, raw, i, x) && SpansAre(o, c, raw, rest, values)
    ensures var v := Value(o, c, x);
      SpansAre(o, c, raw, [Span(i, i + Size(x))] + rest,
               if v.None? || values.None? then None else Some([v.value] + values.value))
  {
    LoadRead(o, c, raw, i, x);
    LoadSpansFirst(o, c, raw, Span(i, i + Size(x)), rest, Value(o, c, x), values);
  }

  /** `loads` splits a run of instructions into the instructions. */
  lemma {:induction false} SpansRead(o: Opmap, c: CodeObject, kind: byte -> Kind, m: Matcher, raw: Bytes,
                                     i: nat, p: seq<Instr>, k: nat, end: nat)
    requires m == InstructionMatcher(kind, raw) && kind(o.extendedArg) == Ext && IsProgram(kind, p)
    requires Segment(o.extendedArg, raw, i, |raw|, p, k, end)
    ensures SpansAre(o, c, raw, FindAll(m, |raw|, i), Values(o, c, p, k, end))
    decreases end - k
  {
    if k < end {
      SegmentStep(o.extendedArg, raw, i, |raw|, p, k, end);
      SpansRead(o, c, kind, m, raw, i + Size(p[k]), p, k + 1, end);
      InstrSpan(kind, o.extendedArg, raw, m, i, p[k]);
      FirstSpanRead(o, c, m, raw, i, p, k, end);
    }
  }

  lemma FirstSpanRead(o: Opmap, c: CodeObject, m: Matcher, raw: Bytes, i: nat, p: seq<Instr>, k: nat, end: nat)
    requires k < end <= |p| && IsMatcher(m, |raw|) && InstrAt(o.extendedArg, raw, i, p[k])
    requires var j := i + Size(p[k]);
      && FindAll(m, |raw|, i) == [Span(i, j)] + FindAll(m, |raw|, j)
      && SpansAre(o, c, raw, FindAll(m, |raw|, j), Values(o, c, p, k + 1, end))
    ensures SpansAre(o, c, raw, FindAll(m, |raw|, i), Values(o, c, p, k, end))
  {
    SpansStep(o, c, raw, i, p[k], FindAll(m, |raw|, i + Size(p[k])), Values(o, c, p, k + 1, end));
  }

  lemma LoadsRead(o: Opmap, c: CodeObject, code: Bytes, i: nat, j: nat, p: seq<Instr>, k: nat, end: nat)
    requires IsProgram(KindOf(o), p) && Segment(o.extendedArg, code, i, j, p, k, end)
    ensures Loads(o, c, code[i..j]) == Values(o, c, p, k, end)
  {
    SegmentShift(o.extendedArg, code, i, j, p, k, end, i, j);
    SpansRead(o, c, KindOf(o), InstructionMatcher(KindOf(o), code[i..j]), code[i..j], 0, p, k, end);
  }

  lemma FirstByteRead(o: Opmap, code: Bytes, i: nat, x: Instr)
    requires InstrAt(o.extendedArg, code, i, x)
    ensures code[i] == FirstByte(o, x)
  {
    assert PairAt(o.extendedArg, code, i, x, 0);
  }

  lemma RootRead(o: Opmap, c: CodeObject, code: Bytes, i: nat, j: nat, p: seq<Instr>, k: nat)
    requires Segment(o.extendedArg, code, i, j, p, k, k + 1)
    ensures i + 2 <= j <= |code| && Load(o, c, code[i..j]) == Value(o, c, p[k])
  {
    SegmentStep(o.extendedArg, code, i, j, p, k, k + 1);
    LoadRead(o, c, code, i, p[k]);
  }

  lemma {:induction false} CallRead(o: Opmap, code: Bytes, i: nat, j: nat, p: seq<Instr>, k: nat)
    requires Segment(o.extendedArg, code, i, j, p, k, k + 1)
    ensures i < j <= |code| && ExtendedArguments(code[i..j]) == FromBigEndian(p[k].arg) && code[i] == FirstByte(o, p[k])
  {
    SegmentStep(o.extendedArg, code, i, j, p, k, k + 1);
    ArgumentRead(o.extendedArg, code, i, p[k]);
    FirstByteRead(o, code, i, p[k]);
  }

  lemma GroupsRead(o: Opmap, c: CodeObject, i: nat, p: seq<Instr>, k: nat, g: Groups, attrs: nat, args: nat)
    requires IsProgram(KindOf(o), p) && GroupsCover(o.extendedArg, c.code, i, p, k, g, attrs, args)
    requires MatchAt(KindOf(o), c.code, i) == Some(g)
    ensures JudgeMatch(o, c, i, g) ==
      Judge(o, Value(o, c, p[k]), Values(o, c, p, k + 1, attrs), Values(o, c, p, attrs, args),
            FirstByte(o, p[args]), FromBigEndian(p[args].arg))
  {
    RootRead(o, c, c.code, i, g.root, p, k);
    LoadsRead(o, c, c.code, g.root, g.attrs, p, k + 1, attrs);
    LoadsRead(o, c, c.code, g.attrs, g.args, p, attrs, args);
    CallRead(o, c.code, g.args, g.call, p, args);
  }

  /** What the scan makes of the bytes at an instruction is what the instructions say. */
  lemma OutcomeRead(o: Opmap, c: CodeObject, i: nat, p: seq<Instr>, k: nat)
    requires IsProgram(KindOf(o), p) && Segment(o.extendedArg, c.code, i, |c.code|, p, k, |p|) && k < |p|
    ensures JudgeAt(o, c, i) == CallOutcome(o, c, p, k)
  {
    MatchInCode(KindOf(o), o.extendedArg, c.code, i, p, k, 0);
    var r := CallAt(KindOf(o), p, k);
    if r.Some? {
      GroupsRead(o, c, i, p, k, MatchAt(KindOf(o), c.code, i).value, r.value.0, r.value.1);
    }
  }

  // ---- The scan ----

  lemma {:induction false} NothingWorth(worth: nat -> Outcome, k: nat, m: nat, n: nat)
    requires k <= m <= n && forall e: nat :: k <= e < m ==> worth(e) == Skips
    ensures CallsFrom(worth, k, n) == CallsFrom(worth, m, n)
    decreases m - k
  {
    if k < m {
      NothingWorth(worth, k + 1, m, n);
      var rest := CallsFrom(worth, m, n);
      if rest.Some? {
        assert [] + rest.value == rest.value;
      }
    }
  }

  /** Between a root and its call no other candidate begins. */
  lemma NoCandidates(kind: byte -> Kind, p: seq<Instr>, k: nat)
    requires k < |p| && CallAt(kind, p, k).Some?
    ensures forall e: nat :: k < e < CallAt(kind, p, k).value.1 + 1 ==> CallAt(kind, p, e).None?
  {
  }

  lemma SkipInstr(m: Matcher, n: nat, i: nat, size: nat)
    requires IsMatcher(m, n) && i % 2 == 0 && size % 2 == 0 && i + size <= n
    requires forall d: nat :: 2 * d < size ==> m(i + 2 * d).None?
    ensures EvenScan(m, n, i) == EvenScan(m, n, i + size)
  {
    forall e | i <= e < i + size && e % 2 == 0
      ensures m(e).None?
    {
      var d := (e - i) / 2;
      assert e == i + 2 * d;
    }
    EvenScanSkip(m, n, i, i + size);
  }

  lemma {:induction false} SegmentEven(ext: byte, code: Bytes, i: nat, j: nat, p: seq<Instr>, k: nat, m: nat)
    requires Segment(ext, code, i, j, p, k, m) && i % 2 == 0
    ensures j % 2 == 0
    decreases m - k
  {
    if k < m {
      SegmentEven(ext, code, i + Size(p[k]), j, p, k + 1, m);
    }
  }

  ghost predicate MatchesAt(kind: byte -> Kind, code: Bytes, m: Matcher, e: nat) {
    m(e) == match MatchAt(kind, code, e) case None => None case Some(g) => Some(g.call)
  }

  ghost predicate MatchesCode(kind: byte -> Kind, code: Bytes, m: Matcher) {
    forall e: nat :: MatchesAt(kind, code, m, e)
  }

  /** Without a candidate no match begins in an instruction. */
  lemma NoMatchInInstr(kind: byte -> Kind, ext: byte, code: Bytes, m: Matcher, i: nat, p: seq<Instr>, k: nat)
    requires IsMatcher(m, |code|) && MatchesCode(kind, code, m)
    requires kind(ext) == Ext && IsProgram(kind, p) && Segment(ext, code, i, |code|, p, k, |p|) && k < |p|
    requires i % 2 == 0 && CallAt(kind, p, k).None?
    ensures i + Size(p[k]) <= |code| && EvenScan(m, |code|, i) == EvenScan(m, |code|, i + Size(p[k]))
  {
    SegmentStep(ext, code, i, |code|, p, k, |p|);
    forall d: nat | 2 * d < Size(p[k])
      ensures m(i + 2 * d).None?
    {
      MatchInCode(kind, ext, code, i, p, k, d);
      assert MatchesAt(kind, code, m, i + 2 * d);
    }
    SkipInstr(m, |code|, i, Size(p[k]));
  }

  lemma CoverEven(ext: byte, code: Bytes, i: nat, p: seq<Instr>, k: nat, g: Groups, attrs: nat, args: nat)
    requires GroupsCover(ext, code, i, p, k, g, attrs, args) && i % 2 == 0
    ensures g.call % 2 == 0 && g.call <= |code|
  {
    SegmentEven(ext, code, i, g.root, p, k, k + 1);
    SegmentEven(ext, code, g.root, g.attrs, p, k + 1, attrs);
    SegmentEven(ext, code, g.attrs, g.args, p, attrs, args);
    SegmentEven(ext, code, g.args, g.call, p, args, args + 1);
  }

  lemma EvenScanFirst(m: Matcher, n: nat, i: nat, j: nat)
    requires IsMatcher(m, n) && i % 2 == 0 && m(i) == Some(j)
    ensures i < j <= n && EvenScan(m, n, i) == [Span(i, j)] + EvenScan(m, n, j)
  {
  }

  lemma CollectFirst(judge: Span -> Outcome, s: Span, rest: seq<Span>)
    ensures Collect(judge, [s] + rest) == Combine(judge(s), Collect(judge, rest))
  {
    assert ([s] + rest)[1..] == rest;
  }

  lemma MatchAtInstr(kind: byte -> Kind, ext: byte, code: Bytes, i: nat, p: seq<Instr>, k: nat) returns (g: Groups)
    requires kind(ext) == Ext && IsProgram(kind, p) && Segment(ext, code, i, |code|, p, k, |p|)
    requires k < |p| && CallAt(kind, p, k).Some?
    ensures MatchAt(kind, code, i) == Some(g)
    ensures GroupsCover(ext, code, i, p, k, g, CallAt(kind, p, k).value.0, CallAt(kind, p, k).value.1)
  {
    MatchInCode(kind, ext, code, i, p, k, 0);
    assert i + 2 * 0 == i;
    g := MatchAt(kind, code, i).value;
  }

  lemma MatcherHere(kind: byte -> Kind, code: Bytes, m: Matcher, i: nat, g: Groups)
    requires MatchesCode(kind, code, m) && MatchAt(kind, code, i) == Some(g)
    ensures m(i) == Some(g.call)
  {
    assert MatchesAt(kind, code, m, i);
  }

  /** A candidate is the next match, and the scan goes on behind its call. */
  lemma CandidateStep(kind: byte -> Kind, ext: byte, code: Bytes, m: Matcher, i: nat, p: seq<Instr>, k: nat)
    returns (j: nat)
    requires IsMatcher(m, |code|)
    requires MatchesCode(kind, code, m)
    requires kind(ext) == Ext && IsProgram(kind, p) && Segment(ext, code, i, |code|, p, k, |p|) && i % 2 == 0
    requires k < |p| && CallAt(kind, p, k).Some?
    ensures j % 2 == 0 && i < j <= |code|
    ensures EvenScan(m, |code|, i) == [Span(i, j)] + EvenScan(m, |code|, j)
    ensures Segment(ext, code, j, |code|, p, CallAt(kind, p, k).value.1 + 1, |p|)
  {
    var g := MatchAtInstr(kind, ext, code, i, p, k);
    var r := CallAt(kind, p, k).value;
    CoverEven(ext, code, i, p, k, g, r.0, r.1);
    j := g.call;
    MatcherHere(kind, code, m, i, g);
    EvenScanFirst(m, |code|, i, j);
  }

  /** Only candidates are worth anything. */
  lemma CandidateWorth(kind: byte -> Kind, p: seq<Instr>, worth: nat -> Outcome, k: nat)
    requires forall n: nat :: n < |p| && CallAt(kind, p, n).None? ==> worth(n) == Skips
    requires k < |p|
    ensures Next(kind, p, k) < |p| && CallsFrom(worth, k + 1, |p|) == CallsFrom(worth, Next(kind, p, k) + 1, |p|)
  {
    if CallAt(kind, p, k).Some? {
      NoCandidates(kind, p, k);
      NothingWorth(worth, k + 1, CallAt(kind, p, k).value.1 + 1, |p|);
    }
  }

  /** The last instruction of the candidate at `k`, or `k` itself. */
  function Next(kind: byte -> Kind, p: seq<Instr>, k: nat): (n: nat)
    ensures k <= n && (k < |p| ==> n < |p|)
  {
    if k >= |p| || CallAt(kind, p, k).None? then k else CallAt(kind, p, k).value.1
  }

  function Offset(p: seq<Instr>, k: nat): nat
    requires k <= |p|
  {
    if k == 0 then 0 else Offset(p, k - 1) + Size(p[k - 1])
  }

  lemma {:induction false} SegmentAt(ext: byte, code: Bytes, p: seq<Instr>, k: nat)
    requires Segment(ext, code, 0, |code|, p, 0, |p|) && k <= |p|
    ensures Segment(ext, code, Offset(p, k), |code|, p, k, |p|) && Offset(p, k) % 2 == 0
  {
    if k > 0 {
      SegmentAt(ext, code, p, k - 1);
      SegmentStep(ext, code, Offset(p, k - 1), |code|, p, k - 1, |p|);
    }
  }

  lemma {:induction false} OffsetUnique(ext: byte, code: Bytes, p: seq<Instr>, i: nat, j: nat, k: nat)
    requires Segment(ext, code, i, |code|, p, k, |p|) && Segment(ext, code, j, |code|, p, k, |p|)
    ensures i == j
    decreases |p| - k
  {
    if k < |p| {
      SegmentStep(ext, code, i, |code|, p, k, |p|);
      SegmentStep(ext, code, j, |code|, p, k, |p|);
      OffsetUnique(ext, code, p, i + Size(p[k]), j + Size(p[k]), k + 1);
    }
  }

  lemma SegmentOffset(ext: byte, code: Bytes, p: seq<Instr>, i: nat, k: nat)
    requires Segment(ext, code, 0, |code|, p, 0, |p|) && Segment(ext, code, i, |code|, p, k, |p|)
    ensures i == Offset(p, k)
  {
    SegmentAt(ext, code, p, k);
    OffsetUnique(ext, code, p, i, Offset(p, k), k);
  }

  lemma SkipAt(kind: byte -> Kind, ext: byte, code: Bytes, m: Matcher, p: seq<Instr>, k: nat, i: nat)
    requires IsMatcher(m, |code|) && MatchesCode(kind, code, m)
    requires kind(ext) == Ext && IsProgram(kind, p) && Segment(ext, code, 0, |code|, p, 0, |p|)
    requires k < |p| && CallAt(kind, p, k).None? && i == Offset(p, k)
    ensures EvenScan(m, |code|, i) == EvenScan(m, |code|, i + Size(p[k]))
  {
    SegmentAt(ext, code, p, k);
    NoMatchInInstr(kind, ext, code, m, i, p, k);
  }

  lemma CandidateOffset(kind: byte -> Kind, ext: byte, code: Bytes, m: Matcher, p: seq<Instr>, k: nat) returns (j: nat)
    requires IsMatcher(m, |code|) && MatchesCode(kind, code, m)
    requires kind(ext) == Ext && IsProgram(kind, p) && Segment(ext, code, 0, |code|, p, 0, |p|)
    requires k < |p| && CallAt(kind, p, k).Some?
    ensures j == Offset(p, Next(kind, p, k) + 1)
    ensures EvenScan(m, |code|, Offset(p, k)) == [Span(Offset(p, k), j)] + EvenScan(m, |code|, j)
  {
    SegmentAt(ext, code, p, k);
    j := CandidateStep(kind, ext, code, m, Offset(p, k), p, k);
    SegmentOffset(ext, code, p, j, Next(kind, p, k) + 1);
  }

  lemma CombineNothing(rest: Option<seq<CallRecord>>)
    ensures Combine(Skips, rest) == rest
  {
    if rest.Some? {
      assert [] + rest.value == rest.value;
    }
  }

  /** A scan from `e` on goes on behind `next(e)`; it yields a match there if `e` is a candidate,
      which is worth what the match is judged to be, and nothing after it is worth anything. */
  ghost predicate Jumps(scan: nat -> seq<Span>, judge: Span -> Outcome, worth: nat -> Outcome, at: nat -> nat,
                        next: nat -> nat, candidate: nat -> bool, n: nat, e: nat)
  {
    && e <= next(e) < n
    && CallsFrom(worth, e + 1, n) == CallsFrom(worth, next(e) + 1, n)
    && if candidate(e)
       then scan(e) == [Span(at(e), at(next(e) + 1))] + scan(next(e) + 1)
         && judge(Span(at(e), at(next(e) + 1))) == worth(e)
       else scan(e) == scan(next(e) + 1) && worth(e) == Skips
  }

  /** A scan that jumps over what is worth nothing finds what trying every instruction finds. */
  lemma {:induction false} JumpingScan(scan: nat -> seq<Span>, judge: Span -> Outcome, worth: nat -> Outcome,
                                       at: nat -> nat, next: nat -> nat, candidate: nat -> bool, n: nat, k: nat)
    requires k <= n && scan(n) == []
    requires forall e: nat :: e < n ==> Jumps(scan, judge, worth, at, next, candidate, n, e)
    ensures Collect(judge, scan(k)) == CallsFrom(worth, k, n)
    decreases n - k
  {
    if k < n {
      assert Jumps(scan, judge, worth, at, next, candidate, n, k);
      JumpingScan(scan, judge, worth, at, next, candidate, n, next(k) + 1);
      if candidate(k) {
        CollectFirst(judge, Span(at(k), at(next(k) + 1)), scan(next(k) + 1));
      } else {
        CombineNothing(CallsFrom(worth, k + 1, n));
      }
    }
  }

  /** The scan that starts with instruction `k`. */
  ghost function ScanFrom(m: Matcher, n: nat, p: seq<Instr>, k: nat): seq<Span>
    requires IsMatcher(m, n)
  {
    if k <= |p| then EvenScan(m, n, Offset(p, k)) else []
  }

  function OffsetOr(p: seq<Instr>, k: nat): nat {
    if k <= |p| then Offset(p, k) else 0
  }

  lemma {:induction false} ScanJumps(kind: byte -> Kind, ext: byte, code: Bytes, m: Matcher, p: seq<Instr>, k: nat)
    requires IsMatcher(m, |code|) && MatchesCode(kind, code, m)
    requires kind(ext) == Ext && IsProgram(kind, p) && Segment(ext, code, 0, |code|, p, 0, |p|) && k < |p|
    ensures var next := Next(kind, p, k) + 1;
      ScanFrom(m, |code|, p, k) ==
        if CallAt(kind, p, k).Some? then [Span(OffsetOr(p, k), OffsetOr(p, next))] + ScanFrom(m, |code|, p, next)
        else ScanFrom(m, |code|, p, next)
  {
    if CallAt(kind, p, k).None? {
      ScanSkips(kind, ext, code, m, p, k);
    } else {
      ScanMatches(kind, ext, code, m, p, k);
    }
  }

  lemma {:induction false} ScanSkips(kind: byte -> Kind, ext: byte, code: Bytes, m: Matcher, p: seq<Instr>, k: nat)
    requires IsMatcher(m, |code|) && MatchesCode(kind, code, m)
    requires kind(ext) == Ext && IsProgram(kind, p) && Segment(ext, code, 0, |code|, p, 0, |p|)
    requires k < |p| && CallAt(kind, p, k).None?
    ensures ScanFrom(m, |code|, p, k) == ScanFrom(m, |code|, p, k + 1)
  {
    SkipAt(kind, ext, code, m, p, k, Offset(p, k));
  }

  lemma ScanMatches(kind: byte -> Kind, ext: byte, code: Bytes, m: Matcher, p: seq<Instr>, k: nat)
    requires IsMatcher(m, |code|) && MatchesCode(kind, code, m)
    requires kind(ext) == Ext && IsProgram(kind, p) && Segment(ext, code, 0, |code|, p, 0, |p|)
    requires k < |p| && CallAt(kind, p, k).Some?
    ensures var next := Next(kind, p, k) + 1;
      ScanFrom(m, |code|, p, k) == [Span(OffsetOr(p, k), OffsetOr(p, next))] + ScanFrom(m, |code|, p, next)
  {
    var j := CandidateOffset(kind, ext, code, m, p, k);
  }

  lemma JudgeRead(o: Opmap, c: CodeObject, p: seq<Instr>, k: nat)
    requires IsProgram(KindOf(o), p) && Segment(o.extendedArg, c.code, 0, |c.code|, p, 0, |p|) && k < |p|
    ensures Judged(KindOf(o), p, Judging(o, c), Worth(o, c, p), k)
  {
    SegmentAt(o.extendedArg, c.code, p, k);
    OutcomeRead(o, c, Offset(p, k), p, k);
  }

  /** Only candidates are worth anything, and a match is judged to be worth what its first
      instruction is worth. */
  ghost predicate Judged(kind: byte -> Kind, p: seq<Instr>, judge: Span -> Outcome, worth: nat -> Outcome, k: nat) {
    && k < |p|
    && (CallAt(kind, p, k).None? ==> worth(k) == Skips)
    && forall j: nat :: judge(Span(Offset(p, k), j)) == worth(k)
  }

  ghost predicate AllJudged(kind: byte -> Kind, p: seq<Instr>, judge: Span -> Outcome, worth: nat -> Outcome) {
    forall k: nat :: k < |p| ==> Judged(kind, p, judge, worth, k)
  }

  lemma ProgramWorth(kind: byte -> Kind, p: seq<Instr>, judge: Span -> Outcome, worth: nat -> Outcome, k: nat)
    requires AllJudged(kind, p, judge, worth) && k < |p|
    ensures CallsFrom(worth, k + 1, |p|) == CallsFrom(worth, Next(kind, p, k) + 1, |p|)
  {
    forall n: nat | n < |p| && CallAt(kind, p, n).None?
      ensures worth(n) == Skips
    {
      assert Judged(kind, p, judge, worth, n);
    }
    CandidateWorth(kind, p, worth, k);
  }

  lemma ProgramRead(kind: byte -> Kind, ext: byte, code: Bytes, m: Matcher, judge: Span -> Outcome,
                    p: seq<Instr>, worth: nat -> Outcome)
    requires IsMatcher(m, |code|) && MatchesCode(kind, code, m)
    requires kind(ext) == Ext && IsProgram(kind, p) && Segment(ext, code, 0, |code|, p, 0, |p|)
    requires AllJudged(kind, p, judge, worth)
    ensures Collect(judge, EvenScan(m, |code|, 0)) == CallsFrom(worth, 0, |p|)
  {
    var scan := (k: nat) => ScanFrom(m, |code|, p, k);
    var at, next := (k: nat) => OffsetOr(p, k), (k: nat) => Next(kind, p, k);
    var candidate := (k: nat) => k < |p| && CallAt(kind, p, k).Some?;
    forall k: nat | k < |p|
      ensures Jumps(scan, judge, worth, at, next, candidate, |p|, k)
    {
      ProgramJumps(kind, ext, code, m, p, scan, judge, worth, at, next, candidate, k);
    }
    ScanEnds(ext, code, m, p);
    JumpingScan(scan, judge, worth, at, next, candidate, |p|, 0);
  }

  lemma {:induction false} ProgramJumps(kind: byte -> Kind, ext: byte, code: Bytes, m: Matcher, p: seq<Instr>,
                                        scan: nat -> seq<Span>, judge: Span -> Outcome, worth: nat -> Outcome,
                                        at: nat -> nat, next: nat -> nat, candidate: nat -> bool, k: nat)
    requires IsMatcher(m, |code|) && MatchesCode(kind, code, m)
    requires kind(ext) == Ext && IsProgram(kind, p) && Segment(ext, code, 0, |code|, p, 0, |p|)
    requires AllJudged(kind, p, judge, worth) && k < |p|
    requires next(k) == Next(kind, p, k) && candidate(k) == CallAt(kind, p, k).Some?
    requires at(k) == OffsetOr(p, k) && at(next(k) + 1) == OffsetOr(p, next(k) + 1)
    requires scan(k) == ScanFrom(m, |code|, p, k) && scan(next(k) + 1) == ScanFrom(m, |code|, p, next(k) + 1)
    ensures Jumps(scan, judge, worth, at, next, candidate, |p|, k)
  {
    ScanJumps(kind, ext, code, m, p, k);
    ProgramWorth(kind, p, judge, worth, k);
    assert Judged(kind, p, judge, worth, k);
    var n := next(k) + 1;
    if candidate(k) {
      assert scan(k) == [Span(at(k), at(n))] + scan(n) && judge(Span(at(k), at(n))) == worth(k);
    } else {
      assert scan(k) == scan(n);
    }
  }

  lemma ScanEnds(ext: byte, code: Bytes, m: Matcher, p: seq<Instr>)
    requires IsMatcher(m, |code|) && Segment(ext, code, 0, |code|, p, 0, |p|)
    ensures ScanFrom(m, |code|, p, 0) == EvenScan(m, |code|, 0) && ScanFrom(m, |code|, p, |p|) == []
  {
    SegmentAt(ext, code, p, |p|);
  }

  /** In code assembled from instructions, whatever the widths of their arguments and whatever
      their argument bytes look like, exactly the calls are found that the instructions make, with
      their dotted names and constants. */
  lemma CallsRecovered(o: Opmap, c: CodeObject, p: seq<Instr>)
    requires IsProgram(KindOf(o), p) && c.code == Assemble(o.extendedArg, p)
    ensures Calls(o, c) == ProgramCalls(o, c, p)
  {
    AssembledFrom(o.extendedArg, p, 0, []);
    assert p[0..] == p && [] + Assemble(o.extendedArg, p) == c.code;
    forall e: nat
      ensures MatchesAt(KindOf(o), c.code, CallMatcher(KindOf(o), c.code), e)
    {
    }
    forall k: nat | k < |p|
      ensures Judged(KindOf(o), p, Judging(o, c), Worth(o, c, p), k)
    {
      JudgeRead(o, c, p, k);
    }
    ProgramRead(KindOf(o), o.extendedArg, c.code, CallMatcher(KindOf(o), c.code), Judging(o, c), p, Worth(o, c, p));
  }

  // ---- What is found ----

  /** The scan fails exactly if some candidate does; otherwise it returns what the candidates are
      worth and nothing else. */
  lemma {:induction false} CallsFromMeaning(worth: nat -> Outcome, k: nat, n: nat)
    requires k <= n
    ensures var r := CallsFrom(worth, k, n);
      && (r.None? <==> exists e: nat :: k <= e < n && worth(e).Fails?)
      && (r.Some? ==> forall call :: call in r.value <==> exists e: nat :: k <= e < n && worth(e) == Finds(call))
    decreases n - k
  {
    if k < n {
      CallsFromMeaning(worth, k + 1, n);
      var r, rest := CallsFrom(worth, k, n), CallsFrom(worth, k + 1, n);
      if r.Some? {
        forall call
          ensures call in r.value <==> exists e: nat :: k <= e < n && worth(e) == Finds(call)
        {
          assert call in r.value <==> worth(k) == Finds(call) || call in rest.value;
        }
      }
    }
  }

  /** The instructions of a call `a.b.c(k1, ..., kn)`: a root up to `k + 1`, attributes up to `attrs`,
      constants up to `args`, and the call. */
  ghost predicate IsCall(kind: byte -> Kind, p: seq<Instr>, k: nat, attrs: nat, args: nat) {
    && k < attrs <= args < |p| && kind(p[k].op) == Root && kind(p[args].op) == Call
    && (forall n :: k < n < attrs ==> kind(p[n].op) == Attr)
    && (forall n :: attrs <= n < args ==> kind(p[n].op) == Arg)
  }

  lemma {:induction false} RunEndUnique(kind: byte -> Kind, p: seq<Instr>, k: nat, m: nat, run: Kind)
    requires k <= m <= |p| && (forall n :: k <= n < m ==> kind(p[n].op) == run)
    requires m < |p| ==> kind(p[m].op) != run
    ensures RunEnd(kind, p, k, run) == m
    decreases m - k
  {
    if k < m {
      RunEndUnique(kind, p, k + 1, m, run);
    }
  }

  /** The candidates are exactly the calls. */
  lemma CandidatesAreCalls(kind: byte -> Kind, p: seq<Instr>, k: nat, attrs: nat, args: nat)
    requires k < |p|
    ensures CallAt(kind, p, k) == Some((attrs, args)) <==> IsCall(kind, p, k, attrs, args)
  {
    if IsCall(kind, p, k, attrs, args) {
      RunEndUnique(kind, p, k + 1, attrs, Attr);
      RunEndUnique(kind, p, attrs, args, Arg);
    }
  }

  lemma {:induction false} ValuesLength(o: Opmap, c: CodeObject, p: seq<Instr>, k: nat, m: nat)
    requires k <= m <= |p| && Values(o, c, p, k, m).Some?
    ensures |Values(o, c, p, k, m).value| == m - k
    decreases m - k
  {
    if k < m {
      ValuesLength(o, c, p, k + 1, m);
    }
  }

  /** Whatever some candidate is found to call is returned, unless some candidate fails the scan. */
  lemma FoundIsReturned(o: Opmap, c: CodeObject, p: seq<Instr>, k: nat, call: CallRecord)
    requires IsProgram(KindOf(o), p) && c.code == Assemble(o.extendedArg, p)
    requires k < |p| && CallOutcome(o, c, p, k) == Finds(call)
    ensures Calls(o, c).Some? ==> call in Calls(o, c).value
    ensures Calls(o, c).None? ==> exists e: nat :: e < |p| && CallOutcome(o, c, p, e).Fails?
  {
    CallsRecovered(o, c, p);
    var worth := Worth(o, c, p);
    assert worth(k) == Finds(call);
    CallsFromMeaning(worth, 0, |p|);
    if Calls(o, c).None? {
      var e: nat :| e < |p| && worth(e).Fails?;
      assert CallOutcome(o, c, p, e).Fails?;
    }
  }

  /** The call at `k` of the dotted name `name`, with the constants `values`. */
  ghost predicate IsNamedCall(o: Opmap, c: CodeObject, p: seq<Instr>, k: nat, attrs: nat, args: nat, name: string,
                              values: seq<Const>) {
    && IsCall(KindOf(o), p, k, attrs, args)
    && Value(o, c, p[k]).Some? && Values(o, c, p, k + 1, attrs).Some?
    && DottedName([Value(o, c, p[k]).value] + Values(o, c, p, k + 1, attrs).value) == Some(name)
    && Values(o, c, p, attrs, args) == Some(values)
  }

  lemma NamedCallOutcome(o: Opmap, c: CodeObject, p: seq<Instr>, k: nat, attrs: nat, args: nat,
                         name: string, values: seq<Const>)
    requires IsNamedCall(o, c, p, k, attrs, args, name, values)
    ensures |values| == args - attrs
    ensures var count := FromBigEndian(p[args].arg);
      CallOutcome(o, c, p, k) ==
        if FirstByte(o, p[args]) != o.callFunctionEx then
          if count == |values| then Finds(CallRecord(name, values)) else Skips
        else if count == 0 && |values| == 1 && values[0].Tuple? then Finds(CallRecord(name, values[0].items))
        else Skips
  {
    CandidatesAreCalls(KindOf(o), p, k, attrs, args);
    ValuesLength(o, c, p, attrs, args);
  }

  /** Every call of a dotted name with as many constants as its argument count says is returned,
      with that name and those constants, unless a bad index somewhere fails the whole scan. */
  lemma ConstantCallIsReturned(o: Opmap, c: CodeObject, p: seq<Instr>, k: nat, attrs: nat, args: nat,
                               name: string, values: seq<Const>)
    requires IsProgram(KindOf(o), p) && c.code == Assemble(o.extendedArg, p)
    requires IsNamedCall(o, c, p, k, attrs, args, name, values)
    requires p[args].op != o.callFunctionEx && o.extendedArg != o.callFunctionEx
    requires FromBigEndian(p[args].arg) == args - attrs
    ensures Calls(o, c).Some? ==> CallRecord(name, values) in Calls(o, c).value
    ensures Calls(o, c).None? ==> exists e: nat :: e < |p| && CallOutcome(o, c, p, e).Fails?
  {
    NamedCallOutcome(o, c, p, k, attrs, args, name, values);
    FoundIsReturned(o, c, p, k, CallRecord(name, values));
  }

  /** A call of a dotted name on an unpacked constant tuple, `a.b(*t)`, is returned with the items of
      the tuple, if its flags are zero and need no extension. */
  lemma {:induction false} UnpackedCallIsReturned(o: Opmap, c: CodeObject, p: seq<Instr>, k: nat, attrs: nat, args: nat,
                                                  name: string, items: seq<Const>)
    requires IsProgram(KindOf(o), p) && c.code == Assemble(o.extendedArg, p)
    requires IsNamedCall(o, c, p, k, attrs, args, name, [Tuple(items)])
    requires p[args].op == o.callFunctionEx && p[args].arg == [0]
    ensures Calls(o, c).Some? ==> CallRecord(name, items) in Calls(o, c).value
    ensures Calls(o, c).None? ==> exists e: nat :: e < |p| && CallOutcome(o, c, p, e).Fails?
  {
    NamedCallOutcome(o, c, p, k, attrs, args, name, [Tuple(items)]);
    var zero: Bytes := [0];
    assert zero[..0] == [] && FromBigEndian(zero) == 0;
    FoundIsReturned(o, c, p, k, CallRecord(name, items));
  }
}
