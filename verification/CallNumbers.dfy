/** What `function_calls` finds, in terms of opcodes, the numbers that follow them, and the tables that
    the numbers index. */
module CallNumbers {
  import opened FileTree
  import opened Bytes
  import opened Sequences
  import opened ByteScan
  import opened CallScan
  import opened CallRecovery

  /** An instruction with a number as its argument, encoded in `width` bytes. */
  datatype Numbered = Numbered(op: byte, number: nat, width: nat)

  function Coded(x: Numbered): Instr {
    Instr(x.op, BigEndian(x.number, x.width))
  }

  function CodedAll(p: seq<Numbered>): (r: seq<Instr>)
    ensures |r| == |p| && forall k :: 0 <= k < |p| ==> r[k] == Coded(p[k])
  {
    seq(|p|, k requires 0 <= k < |p| => Coded(p[k]))
  }

  ghost predicate AllFit(o: Opmap, p: seq<Numbered>) {
    forall k :: 0 <= k < |p| ==> p[k].width >= 1 && p[k].number < Numbers(p[k].width) && p[k].op != o.extendedArg
  }

  /** The opcodes are different bytes. */
  predicate AreDistinct(o: Opmap) {
    && o.extendedArg !in [o.loadName, o.loadGlobal, o.loadFast, o.loadAttr, o.loadMethod,
                          o.loadConst, o.callFunction, o.callMethod, o.callFunctionEx]
    && o.loadName !in [o.loadGlobal, o.loadFast, o.loadAttr, o.loadMethod, o.loadConst,
                       o.callFunction, o.callMethod, o.callFunctionEx]
    && o.loadGlobal !in [o.loadFast, o.loadAttr, o.loadMethod, o.loadConst,
                         o.callFunction, o.callMethod, o.callFunctionEx]
    && o.loadFast !in [o.loadAttr, o.loadMethod, o.loadConst, o.callFunction, o.callMethod, o.callFunctionEx]
    && o.loadAttr !in [o.loadMethod, o.loadConst, o.callFunction, o.callMethod, o.callFunctionEx]
    && o.loadMethod !in [o.loadConst, o.callFunction, o.callMethod, o.callFunctionEx]
    && o.loadConst !in [o.callFunction, o.callMethod, o.callFunctionEx]
    && o.callFunction !in [o.callMethod, o.callFunctionEx]
    && o.callMethod !in [o.callFunctionEx]
  }

  // ---- Encoding ----

  /** A number below 256 takes one pair of bytes; ... */
  lemma ShortCode(ext: byte, op: byte, number: nat)
    requires number < 256
    ensures EncodeInstr(ext, op, BigEndian(number, 1)) == [op, number]
  {
    assert BigEndian(number / 256, 0) == [];
    assert BigEndian(number, 1) == [number];
  }

  /** ... a larger one is led by its digits, the most significant first, behind EXTENDED_ARG. */
  lemma LongCode(ext: byte, op: byte, number: nat)
    requires number < 0x1_0000
    ensures EncodeInstr(ext, op, BigEndian(number, 2)) == [ext, number / 256, op, number % 256]
  {
    assert BigEndian(number / 256, 1) == [number / 256] by {
      ShortCode(ext, op, number / 256);
      assert BigEndian(number / 256 / 256, 0) == [];
    }
    var arg: Bytes := [number / 256, number % 256];
    assert BigEndian(number, 2) == arg;
    assert arg[1..] == [number % 256];
  }

  /** Whatever its width, the number is read back from the code. */
  lemma {:induction false} NumberRead(ext: byte, code: Bytes, i: nat, x: Numbered)
    requires x.width >= 1 && x.number < Numbers(x.width) && InstrAt(ext, code, i, Coded(x))
    ensures var raw := code[i..i + 2 * x.width];
      ExtendedArguments(raw) == x.number && |raw| == 2 * x.width && raw[|raw| - 2] == x.op
  {
    var y := Coded(x);
    DigitsReadBack(x.number, x.width);
    assert Size(y) == 2 * x.width;
    ArgumentRead(ext, code, i, y);
  }

  // ---- What an instruction loads ----

  /** Names, globals, attributes and methods are looked up among the names; fast locals among the
      variables. */
  predicate LoadsText(o: Opmap, c: CodeObject, x: Numbered, text: string) {
    || (x.op in [o.loadName, o.loadGlobal, o.loadAttr, o.loadMethod] && x.number < |c.names|
        && text == c.names[x.number])
    || (x.op == o.loadFast && x.number < |c.varnames| && text == c.varnames[x.number])
  }

  predicate LoadsConst(o: Opmap, c: CodeObject, x: Numbered, value: Const) {
    x.op == o.loadConst && x.number < |c.consts| && value == c.consts[x.number]
  }

  /** The number is no index of the table that the opcode refers to. */
  predicate IsOutOfRange(o: Opmap, c: CodeObject, x: Numbered) {
    if x.op == o.loadConst then x.number >= |c.consts|
    else if x.op == o.loadFast then x.number >= |c.varnames|
    else x.number >= |c.names|
  }

  lemma KindMeaning(o: Opmap, op: byte)
    requires AreDistinct(o)
    ensures KindOf(o)(op) == Ext <==> op == o.extendedArg
    ensures KindOf(o)(op) == Root <==> op in [o.loadName, o.loadGlobal, o.loadFast]
    ensures KindOf(o)(op) == Attr <==> op in [o.loadAttr, o.loadMethod]
    ensures KindOf(o)(op) == Arg <==> op == o.loadConst
    ensures KindOf(o)(op) == Call <==> op in [o.callFunction, o.callMethod, o.callFunctionEx]
  {
  }

  lemma ValueMeaning(o: Opmap, c: CodeObject, x: Numbered)
    requires AreDistinct(o) && x.number < Numbers(x.width)
    ensures var v := Value(o, c, Coded(x));
      && (v.None? <==> IsOutOfRange(o, c, x))
      && (KindOf(o)(x.op) == Root || KindOf(o)(x.op) == Attr ==>
            (forall text :: v == Some(Text(text)) <==> LoadsText(o, c, x, text)) && (v.Some? ==> v.value.Text?))
      && (KindOf(o)(x.op) == Arg ==> forall value :: v == Some(value) <==> LoadsConst(o, c, x, value))
  {
    DigitsReadBack(x.number, x.width);
    KindMeaning(o, x.op);
  }

  /** What a run of instructions loads: nothing if some number is out of range, ... */
  lemma {:induction false} ValuesFail(o: Opmap, c: CodeObject, p: seq<Numbered>, k: nat, m: nat)
    requires AreDistinct(o) && AllFit(o, p) && k <= m <= |p|
    ensures Values(o, c, CodedAll(p), k, m).None? <==> exists n :: k <= n < m && IsOutOfRange(o, c, p[n])
    decreases m - k
  {
    if k < m {
      ValueMeaning(o, c, p[k]);
      ValuesFail(o, c, p, k + 1, m);
    }
  }

  /** ... and otherwise one value for each. */
  lemma {:induction false} ValuesAt(o: Opmap, c: CodeObject, p: seq<Instr>, k: nat, m: nat, n: nat)
    requires k <= n < m <= |p| && Values(o, c, p, k, m).Some?
    ensures n - k < |Values(o, c, p, k, m).value|
    ensures Value(o, c, p[n]) == Some(Values(o, c, p, k, m).value[n - k])
    decreases m - k
  {
    if k < n {
      ValuesAt(o, c, p, k + 1, m, n);
    }
  }

  ghost predicate LoadsTexts(o: Opmap, c: CodeObject, p: seq<Numbered>, k: nat, m: nat, texts: seq<string>) {
    k <= m <= |p| && |texts| == m - k && forall n :: k <= n < m ==> LoadsText(o, c, p[n], texts[n - k])
  }

  ghost predicate LoadsConsts(o: Opmap, c: CodeObject, p: seq<Numbered>, k: nat, m: nat, values: seq<Const>) {
    k <= m <= |p| && |values| == m - k && forall n :: k <= n < m ==> LoadsConst(o, c, p[n], values[n - k])
  }

  ghost predicate InRange(o: Opmap, c: CodeObject, p: seq<Numbered>, k: nat, m: nat) {
    k <= m <= |p| && forall n :: k <= n < m ==> !IsOutOfRange(o, c, p[n])
  }

  /** What a run of instructions for constants loads. */
  lemma ConstsMeaning(o: Opmap, c: CodeObject, p: seq<Numbered>, k: nat, m: nat, values: seq<Const>)
    requires AreDistinct(o) && AllFit(o, p) && k <= m <= |p|
    requires forall n :: k <= n < m ==> p[n].op == o.loadConst
    ensures Values(o, c, CodedAll(p), k, m) == Some(values) <==> LoadsConsts(o, c, p, k, m, values)
  {
    var r := Values(o, c, CodedAll(p), k, m);
    ValuesFail(o, c, p, k, m);
    if r.Some? {
      ValuesLength(o, c, CodedAll(p), k, m);
      forall n | k <= n < m
        ensures LoadsConst(o, c, p[n], r.value[n - k])
      {
        ConstAt(o, c, p, k, m, n);
      }
      if LoadsConsts(o, c, p, k, m, values) {
        SameConsts(o, c, p, k, m, values, r.value);
      }
    }
  }

  lemma ConstAt(o: Opmap, c: CodeObject, p: seq<Numbered>, k: nat, m: nat, n: nat)
    requires AreDistinct(o) && AllFit(o, p) && k <= n < m <= |p| && p[n].op == o.loadConst
    requires Values(o, c, CodedAll(p), k, m).Some?
    ensures n - k < |Values(o, c, CodedAll(p), k, m).value|
    ensures LoadsConst(o, c, p[n], Values(o, c, CodedAll(p), k, m).value[n - k])
  {
    ValuesAt(o, c, CodedAll(p), k, m, n);
    ValueMeaning(o, c, p[n]);
    KindMeaning(o, p[n].op);
  }

  lemma SameConsts(o: Opmap, c: CodeObject, p: seq<Numbered>, k: nat, m: nat, a: seq<Const>, b: seq<Const>)
    requires LoadsConsts(o, c, p, k, m, a) && LoadsConsts(o, c, p, k, m, b)
    ensures a == b
  {
    forall j | 0 <= j < m - k
      ensures a[j] == b[j]
    {
      assert LoadsConst(o, c, p[k + j], a[k + j - k]) && LoadsConst(o, c, p[k + j], b[k + j - k]);
    }
  }

  // ---- Dotted names ----

  /** `".".join(names)` */
  function Joined(names: seq<string>): string {
    if names == [] then "" else if |names| == 1 then names[0] else names[0] + "." + Joined(names[1..])
  }

  /** A name by itself, and one more name behind a dot. */
  lemma {:induction false} JoinedAppend(names: seq<string>, name: string)
    ensures Joined([name]) == name
    ensures names != [] ==> Joined(names + [name]) == Joined(names) + "." + name
    decreases |names|
  {
    if |names| == 1 {
      assert (names + [name])[1..] == [name];
    } else if names != [] {
      assert (names + [name])[1..] == names[1..] + [name];
      JoinedAppend(names[1..], name);
      var n := names[0];
      assert n + "." + (Joined(names[1..]) + "." + name) == (n + "." + Joined(names[1..])) + "." + name;
    }
  }

  function Texts(names: seq<string>): (r: seq<Const>)
    ensures |r| == |names| && forall k :: 0 <= k < |names| ==> r[k] == Text(names[k])
  {
    seq(|names|, k requires 0 <= k < |names| => Text(names[k]))
  }

  lemma {:induction false} DottedTexts(names: seq<string>)
    ensures DottedName(Texts(names)) == Some(Joined(names))
    decreases |names|
  {
    if |names| > 1 {
      assert Texts(names)[1..] == Texts(names[1..]);
      DottedTexts(names[1..]);
    }
  }

  // ---- Calls ----

  /** `a.b.c(k1, ..., kn)`: a name, attributes up to `attrs`, constants up to `args`, and the call. */
  ghost predicate IsShape(o: Opmap, p: seq<Numbered>, k: nat, attrs: nat, args: nat) {
    && k < attrs <= args < |p|
    && p[k].op in [o.loadName, o.loadGlobal, o.loadFast]
    && (forall n :: k < n < attrs ==> p[n].op in [o.loadAttr, o.loadMethod])
    && (forall n :: attrs <= n < args ==> p[n].op == o.loadConst)
    && p[args].op in [o.callFunction, o.callMethod, o.callFunctionEx]
  }

  lemma ShapeIsCall(o: Opmap, p: seq<Numbered>, k: nat, attrs: nat, args: nat)
    requires AreDistinct(o)
    ensures IsShape(o, p, k, attrs, args) <==> IsCall(KindOf(o), CodedAll(p), k, attrs, args)
  {
    forall op: byte
      ensures KindOf(o)(op) == Root <==> op in [o.loadName, o.loadGlobal, o.loadFast]
      ensures KindOf(o)(op) == Attr <==> op in [o.loadAttr, o.loadMethod]
      ensures KindOf(o)(op) == Arg <==> op == o.loadConst
      ensures KindOf(o)(op) == Call <==> op in [o.callFunction, o.callMethod, o.callFunctionEx]
    {
      KindMeaning(o, op);
    }
    var q := CodedAll(p);
    forall n | 0 <= n < |p|
      ensures q[n].op == p[n].op
    {
    }
  }

  /** The names of a call whose numbers are in range. */
  lemma NamesLoaded(o: Opmap, c: CodeObject, p: seq<Numbered>, k: nat, attrs: nat, args: nat)
    returns (names: seq<string>)
    requires AreDistinct(o) && AllFit(o, p) && IsShape(o, p, k, attrs, args) && InRange(o, c, p, k, attrs)
    ensures LoadsTexts(o, c, p, k, attrs, names)
    ensures Value(o, c, Coded(p[k])).Some? && Values(o, c, CodedAll(p), k + 1, attrs).Some?
    ensures [Value(o, c, Coded(p[k])).value] + Values(o, c, CodedAll(p), k + 1, attrs).value == Texts(names)
  {
    NamesInRange(o, c, p, k, attrs);
    names := NamesFrom(o, c, p, k, attrs, args, Value(o, c, Coded(p[k])).value,
                       Values(o, c, CodedAll(p), k + 1, attrs).value);
  }

  lemma NamesFrom(o: Opmap, c: CodeObject, p: seq<Numbered>, k: nat, attrs: nat, args: nat, root: Const,
                  rest: seq<Const>) returns (names: seq<string>)
    requires AreDistinct(o) && AllFit(o, p) && IsShape(o, p, k, attrs, args) && |rest| == attrs - k - 1
    requires Value(o, c, Coded(p[k])) == Some(root) && Values(o, c, CodedAll(p), k + 1, attrs) == Some(rest)
    ensures LoadsTexts(o, c, p, k, attrs, names) && [root] + rest == Texts(names)
  {
    var all := [root] + rest;
    forall j | 0 <= j < |all|
      ensures all[j].Text? && LoadsText(o, c, p[k + j], all[j].text)
    {
      ShapeNames(o, p, k, attrs, args, k + j);
      NameAt(o, c, p, k, attrs, k + j, root, rest);
    }
    names := NamesOf(o, c, p, k, attrs, all);
  }

  lemma ShapeNames(o: Opmap, p: seq<Numbered>, k: nat, attrs: nat, args: nat, n: nat)
    requires AreDistinct(o) && IsShape(o, p, k, attrs, args) && k <= n < attrs
    ensures KindOf(o)(p[n].op) == Root || KindOf(o)(p[n].op) == Attr
  {
    KindMeaning(o, p[n].op);
  }

  lemma NamesInRange(o: Opmap, c: CodeObject, p: seq<Numbered>, k: nat, attrs: nat)
    requires AreDistinct(o) && AllFit(o, p) && k < attrs <= |p| && InRange(o, c, p, k, attrs)
    ensures Value(o, c, Coded(p[k])).Some? && Values(o, c, CodedAll(p), k + 1, attrs).Some?
    ensures |Values(o, c, CodedAll(p), k + 1, attrs).value| == attrs - k - 1
  {
    ValuesFail(o, c, p, k + 1, attrs);
    ValueMeaning(o, c, p[k]);
    ValuesLength(o, c, CodedAll(p), k + 1, attrs);
  }

  lemma NamesOf(o: Opmap, c: CodeObject, p: seq<Numbered>, k: nat, attrs: nat, all: seq<Const>)
    returns (names: seq<string>)
    requires k < attrs <= |p| && |all| == attrs - k
    requires forall j :: 0 <= j < |all| ==> all[j].Text? && LoadsText(o, c, p[k + j], all[j].text)
    ensures LoadsTexts(o, c, p, k, attrs, names) && all == Texts(names)
  {
    names := seq(attrs - k, j requires 0 <= j < attrs - k => all[j].text);
    forall n | k <= n < attrs
      ensures LoadsText(o, c, p[n], names[n - k])
    {
      assert LoadsText(o, c, p[k + (n - k)], all[n - k].text);
    }
  }

  lemma NameAt(o: Opmap, c: CodeObject, p: seq<Numbered>, k: nat, attrs: nat, n: nat, root: Const, rest: seq<Const>)
    requires AreDistinct(o) && AllFit(o, p) && k <= n < attrs <= |p|
    requires KindOf(o)(p[n].op) == Root || KindOf(o)(p[n].op) == Attr
    requires Value(o, c, Coded(p[k])) == Some(root) && Values(o, c, CodedAll(p), k + 1, attrs) == Some(rest)
    ensures var all := [root] + rest;
      n - k < |all| && all[n - k].Text? && LoadsText(o, c, p[n], all[n - k].text)
  {
    ValueMeaning(o, c, p[n]);
    if n > k {
      ValuesAt(o, c, CodedAll(p), k + 1, attrs, n);
    }
  }

  /** What a call passes, given the constants before it: as many as it says, or the items of the one
      tuple that is unpacked. */
  function Passed(o: Opmap, call: Numbered, values: seq<Const>): Option<seq<Const>> {
    if call.op == o.callFunctionEx && call.width == 1 then
      if call.number == 0 && |values| == 1 && values[0].Tuple? then Some(values[0].items) else None
    else if call.number == |values| then Some(values)
    else None
  }

  lemma OutcomeInRange(o: Opmap, c: CodeObject, p: seq<Numbered>, k: nat, attrs: nat, args: nat, names: seq<string>,
                       values: seq<Const>)
    requires AreDistinct(o) && AllFit(o, p) && IsShape(o, p, k, attrs, args)
    requires LoadsTexts(o, c, p, k, attrs, names) && LoadsConsts(o, c, p, attrs, args, values)
    ensures CallOutcome(o, c, CodedAll(p), k) ==
      match Passed(o, p[args], values) case None => Skips case Some(a) => Finds(CallRecord(Joined(names), a))
  {
    ShapeIsCall(o, p, k, attrs, args);
    TextsInRange(o, c, p, k, attrs, names);
    var same := NamesLoaded(o, c, p, k, attrs, args);
    SameTexts(o, c, p, k, attrs, names, same);
    DottedTexts(names);
    ConstsMeaning(o, c, p, attrs, args, values);
    NamedCallOutcome(o, c, CodedAll(p), k, attrs, args, Joined(names), values);
    DigitsReadBack(p[args].number, p[args].width);
  }

  lemma TextsInRange(o: Opmap, c: CodeObject, p: seq<Numbered>, k: nat, m: nat, names: seq<string>)
    requires AreDistinct(o) && LoadsTexts(o, c, p, k, m, names)
    ensures InRange(o, c, p, k, m)
  {
    forall n | k <= n < m
      ensures !IsOutOfRange(o, c, p[n])
    {
      assert LoadsText(o, c, p[n], names[n - k]);
    }
  }

  lemma SameTexts(o: Opmap, c: CodeObject, p: seq<Numbered>, k: nat, m: nat, a: seq<string>, b: seq<string>)
    requires AreDistinct(o) && LoadsTexts(o, c, p, k, m, a) && LoadsTexts(o, c, p, k, m, b)
    ensures a == b
  {
    forall j | 0 <= j < m - k
      ensures a[j] == b[j]
    {
      assert LoadsText(o, c, p[k + j], a[k + j - k]) && LoadsText(o, c, p[k + j], b[k + j - k]);
    }
  }

  lemma OutcomeOutOfRange(o: Opmap, c: CodeObject, p: seq<Numbered>, k: nat, attrs: nat, args: nat)
    requires AreDistinct(o) && AllFit(o, p) && IsShape(o, p, k, attrs, args)
    ensures CallOutcome(o, c, CodedAll(p), k).Fails? <==> !InRange(o, c, p, k, args)
  {
    ShapeIsCall(o, p, k, attrs, args);
    var q := CodedAll(p);
    CandidatesAreCalls(KindOf(o), q, k, attrs, args);
    JudgeFails(o, Value(o, c, q[k]), Values(o, c, q, k + 1, attrs), Values(o, c, q, attrs, args),
               FirstByte(o, q[args]), FromBigEndian(q[args].arg));
    ValuesFail(o, c, p, attrs, args);
    if InRange(o, c, p, k, attrs) {
      var names := NamesLoaded(o, c, p, k, attrs, args);
      DottedTexts(names);
    } else {
      NamesOutOfRange(o, c, p, k, attrs);
    }
  }

  lemma NamesOutOfRange(o: Opmap, c: CodeObject, p: seq<Numbered>, k: nat, attrs: nat)
    requires AreDistinct(o) && AllFit(o, p) && k < attrs <= |p| && !InRange(o, c, p, k, attrs)
    ensures Value(o, c, Coded(p[k])).None? || Values(o, c, CodedAll(p), k + 1, attrs).None?
  {
    ValuesFail(o, c, p, k + 1, attrs);
    ValueMeaning(o, c, p[k]);
  }

  lemma JudgeFails(o: Opmap, root: Option<Const>, attrs: Option<seq<Const>>, args: Option<seq<Const>>, op: byte,
                   count: nat)
    ensures Judge(o, root, attrs, args, op, count).Fails? <==>
      root.None? || attrs.None? || args.None? || DottedName([root.value] + attrs.value).None?
  {
  }

  // ---- The whole scan ----

  /** Some call in the code loads the names `names` and the constants `values`, and passes what `call`
      says. */
  ghost predicate IsSpelled(o: Opmap, c: CodeObject, p: seq<Numbered>, k: nat, attrs: nat, args: nat,
                            names: seq<string>, values: seq<Const>, call: CallRecord) {
    && IsShape(o, p, k, attrs, args)
    && LoadsTexts(o, c, p, k, attrs, names) && LoadsConsts(o, c, p, attrs, args, values)
    && call.callee == Joined(names) && Passed(o, p[args], values) == Some(call.args)
  }

  ghost predicate Spells(o: Opmap, c: CodeObject, p: seq<Numbered>, k: nat, call: CallRecord) {
    exists attrs: nat, args: nat, names, values :: IsSpelled(o, c, p, k, attrs, args, names, values, call)
  }

  /** The call that begins at `k` has a number that is out of range. */
  ghost predicate IsBroken(o: Opmap, c: CodeObject, p: seq<Numbered>, k: nat) {
    exists attrs: nat, args: nat :: IsShape(o, p, k, attrs, args) && !InRange(o, c, p, k, args)
  }

  lemma OutcomeMeaning(o: Opmap, c: CodeObject, p: seq<Numbered>, k: nat, call: CallRecord)
    requires AreDistinct(o) && AllFit(o, p) && k < |p|
    ensures CallOutcome(o, c, CodedAll(p), k).Fails? <==> IsBroken(o, c, p, k)
    ensures CallOutcome(o, c, CodedAll(p), k) == Finds(call) <==> Spells(o, c, p, k, call)
  {
    forall attrs: nat, args: nat | IsShape(o, p, k, attrs, args)
      ensures CallOutcome(o, c, CodedAll(p), k).Fails? <==> !InRange(o, c, p, k, args)
    {
      OutcomeOutOfRange(o, c, p, k, attrs, args);
    }
    var r := CallAt(KindOf(o), CodedAll(p), k);
    if r.Some? {
      CandidatesAreCalls(KindOf(o), CodedAll(p), k, r.value.0, r.value.1);
      ShapeIsCall(o, p, k, r.value.0, r.value.1);
    }
    SpelledIsFound(o, c, p, k, call);
    if CallOutcome(o, c, CodedAll(p), k) == Finds(call) {
      FoundIsSpelled(o, c, p, k, r.value.0, r.value.1, call);
    }
  }

  lemma SpelledIsFound(o: Opmap, c: CodeObject, p: seq<Numbered>, k: nat, call: CallRecord)
    requires AreDistinct(o) && AllFit(o, p) && k < |p|
    ensures Spells(o, c, p, k, call) ==> CallOutcome(o, c, CodedAll(p), k) == Finds(call)
  {
    if attrs: nat, args: nat, names, values :| IsSpelled(o, c, p, k, attrs, args, names, values, call) {
      OutcomeInRange(o, c, p, k, attrs, args, names, values);
    }
  }

  lemma FoundIsSpelled(o: Opmap, c: CodeObject, p: seq<Numbered>, k: nat, attrs: nat, args: nat, call: CallRecord)
    requires AreDistinct(o) && AllFit(o, p) && IsShape(o, p, k, attrs, args)
    requires CallOutcome(o, c, CodedAll(p), k) == Finds(call)
    ensures Spells(o, c, p, k, call)
  {
    OutcomeOutOfRange(o, c, p, k, attrs, args);
    var names := NamesLoaded(o, c, p, k, attrs, args);
    ValuesFail(o, c, p, attrs, args);
    var values := Values(o, c, CodedAll(p), attrs, args).value;
    ConstsMeaning(o, c, p, attrs, args, values);
    OutcomeInRange(o, c, p, k, attrs, args, names, values);
    assert IsSpelled(o, c, p, k, attrs, args, names, values, call);
  }

  /** Main result on calls. The scan fails if and only if some call in the code has a number that is out
      of range; otherwise it returns the dotted names and the constants of exactly the calls on
      constants. */
  lemma CallsMeaning(o: Opmap, c: CodeObject, p: seq<Numbered>)
    requires AreDistinct(o) && AllFit(o, p) && c.code == Assemble(o.extendedArg, CodedAll(p))
    ensures Calls(o, c).None? <==> exists k: nat :: k < |p| && IsBroken(o, c, p, k)
    ensures Calls(o, c).Some? ==> forall call ::
      call in Calls(o, c).value <==> exists k: nat :: k < |p| && Spells(o, c, p, k, call)
  {
    var worth := Worth(o, c, CodedAll(p));
    ProgramFits(o, p);
    CallsRecovered(o, c, CodedAll(p));
    forall k: nat, call | k < |p|
      ensures IsWorth(o, c, p, worth, k, call)
    {
      OutcomeMeaning(o, c, p, k, call);
    }
    CallsFromWorth(o, c, p, worth);
  }

  ghost predicate IsWorth(o: Opmap, c: CodeObject, p: seq<Numbered>, worth: nat -> Outcome, k: nat, call: CallRecord) {
    && (worth(k).Fails? <==> IsBroken(o, c, p, k))
    && (worth(k) == Finds(call) <==> Spells(o, c, p, k, call))
  }

  lemma {:induction false} CallsFromWorth(o: Opmap, c: CodeObject, p: seq<Numbered>, worth: nat -> Outcome)
    requires forall k: nat, call :: k < |p| ==> IsWorth(o, c, p, worth, k, call)
    ensures var r := CallsFrom(worth, 0, |p|);
      && (r.None? <==> exists k: nat :: k < |p| && IsBroken(o, c, p, k))
      && (r.Some? ==> forall call :: call in r.value <==> exists k: nat :: k < |p| && Spells(o, c, p, k, call))
  {
    CallsFromMeaning(worth, 0, |p|);
    var any := CallRecord("", []);
    forall k: nat | k < |p|
      ensures worth(k).Fails? <==> IsBroken(o, c, p, k)
    {
      assert IsWorth(o, c, p, worth, k, any);
    }
    forall k: nat, call | k < |p|
      ensures worth(k) == Finds(call) <==> Spells(o, c, p, k, call)
    {
      assert IsWorth(o, c, p, worth, k, call);
    }
  }

  /** The calls are returned in the order of the code, one for each place where one begins. */
  lemma CallsInOrder(o: Opmap, c: CodeObject, p: seq<Numbered>) returns (at: seq<nat>)
    requires AreDistinct(o) && AllFit(o, p) && c.code == Assemble(o.extendedArg, CodedAll(p))
    requires Calls(o, c).Some?
    ensures Ascending(at) && |at| == |Calls(o, c).value|
    ensures forall i :: 0 <= i < |at| ==> at[i] < |p| && Spells(o, c, p, at[i], Calls(o, c).value[i])
    ensures forall k: nat, call :: k < |p| && Spells(o, c, p, k, call) ==> k in at
  {
    var worth := Worth(o, c, CodedAll(p));
    ProgramFits(o, p);
    CallsRecovered(o, c, CodedAll(p));
    at := WorthInOrder(worth, 0, |p|);
    forall k: nat, call | k < |p|
      ensures worth(k) == Finds(call) <==> Spells(o, c, p, k, call)
    {
      OutcomeMeaning(o, c, p, k, call);
    }
    forall i | 0 <= i < |at|
      ensures at[i] < |p| && Spells(o, c, p, at[i], Calls(o, c).value[i])
    {
      assert at[i] in at;
    }
  }

  lemma {:induction false} WorthInOrder(worth: nat -> Outcome, k: nat, n: nat) returns (at: seq<nat>)
    requires k <= n && CallsFrom(worth, k, n).Some?
    ensures Ascending(at) && |at| == |CallsFrom(worth, k, n).value|
    ensures forall e: nat :: e in at <==> k <= e < n && worth(e).Finds?
    ensures forall i :: 0 <= i < |at| ==> worth(at[i]) == Finds(CallsFrom(worth, k, n).value[i])
    decreases n - k
  {
    if k == n {
      at := [];
    } else {
      at := WorthInOrder(worth, k + 1, n);
      if worth(k).Finds? {
        AscendingFirst(k, at);
        at := [k] + at;
      }
    }
  }

  lemma ProgramFits(o: Opmap, p: seq<Numbered>)
    requires AreDistinct(o) && AllFit(o, p)
    ensures IsProgram(KindOf(o), CodedAll(p))
  {
    var q := CodedAll(p);
    forall k | 0 <= k < |q|
      ensures |q[k].arg| >= 1 && KindOf(o)(q[k].op) != Ext
    {
      KindMeaning(o, p[k].op);
    }
  }
}
