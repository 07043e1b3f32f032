/** Recovering calls with constant arguments from byte code: `function_calls`, for Python 3.10. */
module CallScan {
  import opened FileTree
  import opened Bytes
  import opened ByteScan

  // ---- Opcodes ----

  datatype Opmap = Opmap(
    extendedArg: byte, loadName: byte, loadGlobal: byte, loadFast: byte, loadAttr: byte, loadMethod: byte,
    loadConst: byte, callFunction: byte, callMethod: byte, callFunctionEx: byte)

  datatype Kind = Ext | Root | Attr | Arg | Call | Other

  /** The classes of opcodes in the regular expression. */
  function KindOf(o: Opmap): byte -> Kind {
    b =>
      if b == o.extendedArg then Ext
      else if b == o.loadName || b == o.loadGlobal || b == o.loadFast then Root
      else if b == o.loadAttr || b == o.loadMethod then Attr
      else if b == o.loadConst then Arg
      else if b == o.callFunction || b == o.callMethod || b == o.callFunctionEx then Call
      else Other
  }

  // ---- The regular expression ----

  /** `(EXTENDED_ARG .)*`, greedy */
  function SkipExt(kind: byte -> Kind, code: Bytes, i: nat): (j: nat)
    ensures i <= j && (i <= |code| ==> j <= |code|)
    ensures (j - i) % 2 == 0
    decreases |code| - i
  {
    if i + 1 < |code| && kind(code[i]) == Ext then SkipExt(kind, code, i + 2) else i
  }

  /** `(EXTENDED_ARG .)* (op .)` with an opcode of kind `k` */
  function GroupEnd(kind: byte -> Kind, code: Bytes, i: nat, k: Kind): (r: Option<nat>)
    ensures r.Some? ==> i + 2 <= r.value <= |code|
  {
    var j := SkipExt(kind, code, i);
    if j + 1 < |code| && kind(code[j]) == k then Some(j + 2) else None
  }

  /** `((EXTENDED_ARG .)* (op .))*` */
  function StarEnd(kind: byte -> Kind, code: Bytes, i: nat, k: Kind): (j: nat)
    ensures i <= j && (i <= |code| ==> j <= |code|)
    decreases |code| - i
  {
    match GroupEnd(kind, code, i, k)
    case None => i
    case Some(j) => StarEnd(kind, code, j, k)
  }

  /** The ends of the four groups of a match. */
  datatype Groups = Groups(root: nat, attrs: nat, args: nat, call: nat)

  function MatchAt(kind: byte -> Kind, code: Bytes, i: nat): (r: Option<Groups>)
    ensures r.Some? ==> i < r.value.root <= r.value.attrs <= r.value.args < r.value.call <= |code|
    ensures r.Some? ==> r.value.root >= i + 2 && r.value.call >= r.value.args + 2
  {
    match GroupEnd(kind, code, i, Root)
    case None => None
    case Some(root) =>
      var attrs := StarEnd(kind, code, root, Attr);
      var args := StarEnd(kind, code, attrs, Arg);
      match GroupEnd(kind, code, args, Call)
      case None => None
      case Some(call) => Some(Groups(root, attrs, args, call))
  }

  /** What the regular expression means, without a matching strategy. */
  ghost predicate IsGroup(kind: byte -> Kind, code: Bytes, i: nat, j: nat, k: Kind) {
    && i + 2 <= j <= |code| && (j - i) % 2 == 0 && kind(code[j - 2]) == k
    && forall m :: i <= m < j - 2 && (m - i) % 2 == 0 ==> kind(code[m]) == Ext
  }

  ghost predicate IsStar(kind: byte -> Kind, code: Bytes, i: nat, j: nat, k: Kind)
    decreases j - i
  {
    && i <= j <= |code|
    && (i == j || exists m :: i < m <= j && IsGroup(kind, code, i, m, k) && IsStar(kind, code, m, j, k))
  }

  ghost predicate IsMatch(kind: byte -> Kind, code: Bytes, i: nat, g: Groups) {
    && IsGroup(kind, code, i, g.root, Root)
    && IsStar(kind, code, g.root, g.attrs, Attr)
    && IsStar(kind, code, g.attrs, g.args, Arg)
    && IsGroup(kind, code, g.args, g.call, Call)
  }

  lemma EvenDistance(i: nat, d: nat)
    ensures (i + 2 * d - i) % 2 == 0
  {
  }

  /** A group can be matched in one way only, so greediness and backtracking do not matter. */
  lemma {:induction false} GroupUnique(kind: byte -> Kind, code: Bytes, i: nat, j: nat, k: Kind)
    requires k != Ext
    ensures IsGroup(kind, code, i, j, k) <==> GroupEnd(kind, code, i, k) == Some(j)
    decreases |code| - i
  {
    if i + 1 < |code| && kind(code[i]) == Ext {
      GroupUnique(kind, code, i + 2, j, k);
      if IsGroup(kind, code, i, j, k) {
        assert j - 2 != i;
        forall m | i + 2 <= m < j - 2 && (m - (i + 2)) % 2 == 0
          ensures kind(code[m]) == Ext
        {
          assert (m - i) % 2 == 0;
        }
      }
      if IsGroup(kind, code, i + 2, j, k) {
        forall m | i <= m < j - 2 && (m - i) % 2 == 0
          ensures kind(code[m]) == Ext
        {
          assert m > i ==> m >= i + 2 && (m - (i + 2)) % 2 == 0;
        }
      }
    } else {
      assert SkipExt(kind, code, i) == i;
      EvenDistance(i, 0);
    }
  }

  lemma GroupKind(kind: byte -> Kind, code: Bytes, i: nat, a: nat, b: nat, k: Kind, l: Kind)
    requires k != Ext && l != Ext && IsGroup(kind, code, i, a, k) && IsGroup(kind, code, i, b, l)
    ensures a == b && k == l
  {
    GroupUnique(kind, code, i, a, k);
    GroupUnique(kind, code, i, b, l);
    var j := SkipExt(kind, code, i);
    assert a == j + 2 == b;
  }

  /** A run of groups stops where a group of another kind begins. */
  lemma {:induction false} StarUnique(kind: byte -> Kind, code: Bytes, i: nat, j: nat, k: Kind)
    requires k != Ext && IsStar(kind, code, i, j, k) && GroupEnd(kind, code, j, k).None?
    ensures StarEnd(kind, code, i, k) == j
    decreases j - i
  {
    if i != j {
      var m :| i < m <= j && IsGroup(kind, code, i, m, k) && IsStar(kind, code, m, j, k);
      GroupUnique(kind, code, i, m, k);
      StarUnique(kind, code, m, j, k);
    }
  }

  lemma {:induction false} StarFound(kind: byte -> Kind, code: Bytes, i: nat, k: Kind)
    requires k != Ext && i <= |code|
    ensures IsStar(kind, code, i, StarEnd(kind, code, i, k), k)
    ensures GroupEnd(kind, code, StarEnd(kind, code, i, k), k).None?
    decreases |code| - i
  {
    match GroupEnd(kind, code, i, k)
    case None =>
    case Some(j) =>
      GroupUnique(kind, code, i, j, k);
      StarFound(kind, code, j, k);
  }

  /** Where an argument run or a call begins, no attribute does; where a call begins, no argument. */
  lemma NoOtherGroup(kind: byte -> Kind, code: Bytes, i: nat, j: nat, k: Kind, l: Kind)
    requires k != Ext && l != Ext && k != l && IsGroup(kind, code, i, j, k)
    ensures GroupEnd(kind, code, i, l).None?
  {
    var e := GroupEnd(kind, code, i, l);
    if e.Some? {
      GroupUnique(kind, code, i, e.value, l);
      GroupKind(kind, code, i, j, e.value, k, l);
    }
  }

  lemma StarStart(kind: byte -> Kind, code: Bytes, i: nat, j: nat, k: Kind, l: Kind)
    requires k != Ext && l != Ext && k != l && IsStar(kind, code, i, j, k)
    requires GroupEnd(kind, code, j, l).None?
    ensures GroupEnd(kind, code, i, l).None?
  {
    if i != j {
      var m :| i < m <= j && IsGroup(kind, code, i, m, k) && IsStar(kind, code, m, j, k);
      NoOtherGroup(kind, code, i, m, k, l);
    }
  }

  /** The matcher finds exactly the matches of the regular expression, and there is at most one at
      each offset. */
  lemma MatchUnique(kind: byte -> Kind, code: Bytes, i: nat, g: Groups)
    ensures IsMatch(kind, code, i, g) <==> MatchAt(kind, code, i) == Some(g)
  {
    if IsMatch(kind, code, i, g) {
      GroupUnique(kind, code, i, g.root, Root);
      GroupUnique(kind, code, g.args, g.call, Call);
      NoOtherGroup(kind, code, g.args, g.call, Call, Arg);
      NoOtherGroup(kind, code, g.args, g.call, Call, Attr);
      StarStart(kind, code, g.attrs, g.args, Arg, Attr);
      StarUnique(kind, code, g.root, g.attrs, Attr);
      StarUnique(kind, code, g.attrs, g.args, Arg);
    }
    if MatchAt(kind, code, i) == Some(g) {
      GroupUnique(kind, code, i, g.root, Root);
      GroupUnique(kind, code, g.args, g.call, Call);
      StarFound(kind, code, g.root, Attr);
      StarFound(kind, code, g.attrs, Arg);
    }
  }

  /** The matcher as `finditer` uses it. */
  function CallMatcher(kind: byte -> Kind, code: Bytes): (m: Matcher)
    ensures IsMatcher(m, |code|)
  {
    (i: nat) => match MatchAt(kind, code, i) case None => None case Some(g) => Some(g.call)
  }

  function InstructionEnd(kind: byte -> Kind, code: Bytes, i: nat): (r: Option<nat>)
    ensures r.Some? ==> i + 2 <= r.value <= |code|
  {
    var j: nat := SkipExt(kind, code, i);
    if j + 1 < |code| && kind(code[j]) != Ext then Some(j + 2) else None
  }

  /** One instruction with its extensions: `(EXTENDED_ARG .)* [^EXTENDED_ARG] .` */
  function InstructionMatcher(kind: byte -> Kind, code: Bytes): (m: Matcher)
    ensures IsMatcher(m, |code|)
  {
    (i: nat) => InstructionEnd(kind, code, i)
  }

  // ---- Reading values ----

  datatype Const = Text(text: string) | Tuple(items: seq<Const>) | Opaque(id: int)

  datatype CodeObject = CodeObject(code: Bytes, names: seq<string>, varnames: seq<string>, consts: seq<Const>)

  datatype CallRecord = CallRecord(callee: string, args: seq<Const>)

  /** `raw[1::2]` */
  function OddBytes(raw: Bytes): Bytes {
    if |raw| < 2 then [] else [raw[1]] + OddBytes(raw[2..])
  }

  function ExtendedArguments(raw: Bytes): nat {
    FromBigEndian(OddBytes(raw))
  }

  /** The value that an opcode loads; None stands for the exception on a bad index. */
  function Lookup(o: Opmap, c: CodeObject, op: byte, index: nat): Option<Const> {
    if op == o.loadFast then
      if index < |c.varnames| then Some(Text(c.varnames[index])) else None
    else if op == o.loadConst then
      if index < |c.consts| then Some(c.consts[index]) else None
    else
      if index < |c.names| then Some(Text(c.names[index])) else None
  }

  function Load(o: Opmap, c: CodeObject, raw: Bytes): Option<Const>
    requires |raw| >= 2
  {
    Lookup(o, c, raw[|raw| - 2], ExtendedArguments(raw))
  }

  function LoadSpans(o: Opmap, c: CodeObject, raw: Bytes, spans: seq<Span>): Option<seq<Const>>
    requires forall k :: 0 <= k < |spans| ==> spans[k].start + 2 <= spans[k].end <= |raw|
  {
    if spans == [] then Some([])
    else
      match Load(o, c, raw[spans[0].start..spans[0].end])
      case None => None
      case Some(v) =>
        match LoadSpans(o, c, raw, spans[1..])
        case None => None
        case Some(vs) => Some([v] + vs)
  }

  lemma {:induction false} InstructionSpans(kind: byte -> Kind, raw: Bytes, pos: nat)
    requires pos <= |raw|
    ensures forall s :: s in FindAll(InstructionMatcher(kind, raw), |raw|, pos) ==> s.start + 2 <= s.end <= |raw|
    decreases |raw| - pos
  {
    var m := InstructionMatcher(kind, raw);
    if pos < |raw| {
      if m(pos).Some? {
        InstructionSpans(kind, raw, m(pos).value);
      } else {
        InstructionSpans(kind, raw, pos + 1);
      }
    }
  }

  /** `loads`: all values that a run of instructions loads. */
  function Loads(o: Opmap, c: CodeObject, raw: Bytes): Option<seq<Const>> {
    InstructionSpans(KindOf(o), raw, 0);
    var spans := FindAll(InstructionMatcher(KindOf(o), raw), |raw|, 0);
    assert forall k :: 0 <= k < |spans| ==> spans[k] in spans;
    LoadSpans(o, c, raw, spans)
  }

  /** `".".join(parts)`; joining anything but strings is an exception. */
  function DottedName(parts: seq<Const>): Option<string> {
    if parts == [] then Some("")
    else if !parts[0].Text? then None
    else if |parts| == 1 then Some(parts[0].text)
    else
      match DottedName(parts[1..])
      case None => None
      case Some(rest) => Some(parts[0].text + "." + rest)
  }

  datatype Outcome = Fails | Skips | Finds(call: CallRecord)

  /** What a match is worth, given the values it loads and the opcode and argument of its call. */
  function Judge(o: Opmap, root: Option<Const>, attrs: Option<seq<Const>>, args: Option<seq<Const>>,
                 op: byte, count: nat): Outcome
  {
    if root.None? || attrs.None? then Fails
    else
      var name := DottedName([root.value] + attrs.value);
      if name.None? || args.None? then Fails
      else if op == o.callFunctionEx then
        if count != 0 then Skips
        else if |args.value| != 1 || !args.value[0].Tuple? then Skips
        else Finds(CallRecord(name.value, args.value[0].items))
      else if count != |args.value| then Skips
      else Finds(CallRecord(name.value, args.value))
  }

  /** The opcode that decides is the first byte of the call group. */
  function JudgeMatch(o: Opmap, c: CodeObject, i: nat, g: Groups): Outcome
    requires MatchAt(KindOf(o), c.code, i) == Some(g)
  {
    Judge(o, Load(o, c, c.code[i..g.root]), Loads(o, c, c.code[g.root..g.attrs]), Loads(o, c, c.code[g.attrs..g.args]),
          c.code[g.args], ExtendedArguments(c.code[g.args..g.call]))
  }

  function JudgeAt(o: Opmap, c: CodeObject, i: nat): Outcome {
    match MatchAt(KindOf(o), c.code, i)
    case None => Skips
    case Some(g) => JudgeMatch(o, c, i, g)
  }

  function Judging(o: Opmap, c: CodeObject): Span -> Outcome {
    (s: Span) => JudgeAt(o, c, s.start)
  }

  /** The calls that are found, in order; a failure anywhere fails the whole scan. */
  function Collect(judge: Span -> Outcome, spans: seq<Span>): Option<seq<CallRecord>> {
    if spans == [] then Some([]) else Combine(judge(spans[0]), Collect(judge, spans[1..]))
  }

  function Found(outcome: Outcome): seq<CallRecord> {
    if outcome.Finds? then [outcome.call] else []
  }

  function Combine(first: Outcome, rest: Option<seq<CallRecord>>): Option<seq<CallRecord>> {
    if first.Fails? || rest.None? then None
    else Some(Found(first) + rest.value)
  }

  function CombineLast(front: Option<seq<CallRecord>>, last: Outcome): Option<seq<CallRecord>> {
    if last.Fails? || front.None? then None
    else Some(front.value + Found(last))
  }

  lemma CombineMiddle(first: Outcome, middle: Option<seq<CallRecord>>, last: Outcome)
    ensures Combine(first, CombineLast(middle, last)) == CombineLast(Combine(first, middle), last)
  {
    if middle.Some? {
      assert Found(first) + (middle.value + Found(last)) == (Found(first) + middle.value) + Found(last);
    }
  }

  lemma {:induction false} CollectLast(judge: Span -> Outcome, spans: seq<Span>, n: nat)
    requires n < |spans|
    ensures Collect(judge, spans[..n + 1]) == CombineLast(Collect(judge, spans[..n]), judge(spans[n]))
  {
    var a, b := spans[..n], spans[..n + 1];
    if n > 0 {
      assert b[1..] == spans[1..][..n] && a[1..] == spans[1..][..n - 1];
      CollectLast(judge, spans[1..], n - 1);
      CombineMiddle(judge(spans[0]), Collect(judge, a[1..]), judge(spans[n]));
    } else {
      assert a == [] && b[1..] == [];
      assert Found(judge(spans[0])) + [] == [] + Found(judge(spans[0]));
    }
  }

  lemma {:induction false} CollectFails(judge: Span -> Outcome, spans: seq<Span>, n: nat)
    requires n <= |spans| && Collect(judge, spans[..n]).None?
    ensures Collect(judge, spans).None?
    decreases |spans| - n
  {
    if n < |spans| {
      CollectLast(judge, spans, n);
      CollectFails(judge, spans, n + 1);
    } else {
      assert spans[..n] == spans;
    }
  }

  function Calls(o: Opmap, c: CodeObject): Option<seq<CallRecord>> {
    Collect(Judging(o, c), EvenScan(CallMatcher(KindOf(o), c.code), |c.code|, 0))
  }

  method CollectCalls(judge: Span -> Outcome, matches: seq<Span>) returns (r: Option<seq<CallRecord>>)
    ensures r == Collect(judge, matches)
  {
    var out: seq<CallRecord> := [];
    for n := 0 to |matches|
      invariant Collect(judge, matches[..n]) == Some(out)
    {
      CollectLast(judge, matches, n);
      var outcome := judge(matches[n]);
      if outcome.Fails? {
        CollectFails(judge, matches, n + 1);
        return None;
      }
      if outcome.Skips? {
        assert out + [] == out;
        continue;
      }
      out := out + [outcome.call];
    }
    assert matches[..|matches|] == matches;
    return Some(out);
  }

  method FunctionCalls(o: Opmap, c: CodeObject) returns (r: Option<seq<CallRecord>>)
    ensures r == Calls(o, c)
  {
    var matches := FindIter(CallMatcher(KindOf(o), c.code), |c.code|);
    r := CollectCalls(Judging(o, c), matches);
  }
}
