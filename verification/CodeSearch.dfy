/** Searching a code object and all code objects nested in it: `search_recursively`. */
module CodeSearch {

  /** Code objects are compared by content; their constants may be code objects. */
  datatype Code = Code(body: seq<int>, consts: seq<Item>)
  datatype Item = Nested(code: Code) | Other(value: int)

  /** The code object itself and all that are nested in it. */
  function Within(code: Code): (s: set<Code>)
    ensures code in s
    decreases code, |code.consts| + 1
  {
    {code} + WithinConsts(code, |code.consts|)
  }

  /** The code objects in the first `n` constants. */
  function WithinConsts(code: Code, n: nat): set<Code>
    requires n <= |code.consts|
    decreases code, n
  {
    if n == 0 then {}
    else WithinConsts(code, n - 1) + if code.consts[n - 1].Nested? then Within(code.consts[n - 1].code) else {}
  }

  /** Each code object is a constant of the one before it. */
  ghost predicate IsNesting(chain: seq<Code>) {
    && chain != []
    && forall i :: 0 <= i < |chain| - 1 ==> Nested(chain[i + 1]) in chain[i].consts
  }

  /** Some chain of constants leads from `code` to `c`. */
  ghost predicate IsNestedIn(code: Code, c: Code) {
    exists chain :: IsNesting(chain) && chain[0] == code && chain[|chain| - 1] == c
  }

  /** The code objects that are searched are those to which a chain of constants leads. */
  lemma {:induction false} WithinMeaning(code: Code, c: Code)
    ensures c in Within(code) <==> IsNestedIn(code, c)
    decreases code, |code.consts| + 1
  {
    if c == code {
      assert IsNesting([code]);
    } else {
      WithinConstsMeaning(code, |code.consts|, c);
      if chain :| IsNesting(chain) && chain[0] == code && chain[|chain| - 1] == c {
        assert Nested(chain[1]) in code.consts;
        var k :| 0 <= k < |code.consts| && code.consts[k] == Nested(chain[1]);
        NestingTail(chain);
        assert IsNestedIn(code.consts[k].code, c);
      }
    }
  }

  lemma NestingTail(chain: seq<Code>)
    requires IsNesting(chain) && |chain| > 1
    ensures IsNesting(chain[1..])
  {
  }

  lemma {:induction false} WithinConstsMeaning(code: Code, n: nat, c: Code)
    requires n <= |code.consts|
    ensures c in WithinConsts(code, n) <==>
      exists k :: 0 <= k < n && code.consts[k].Nested? && IsNestedIn(code.consts[k].code, c)
    ensures c in WithinConsts(code, n) ==> IsNestedIn(code, c)
    decreases code, n
  {
    if n > 0 {
      WithinConstsMeaning(code, n - 1, c);
      if code.consts[n - 1].Nested? {
        var inner := code.consts[n - 1].code;
        WithinMeaning(inner, c);
        if c in Within(inner) {
          NestedDeeper(code, inner, c);
        }
      }
    }
  }

  lemma NestedDeeper(code: Code, inner: Code, c: Code)
    requires Nested(inner) in code.consts && IsNestedIn(inner, c)
    ensures IsNestedIn(code, c)
  {
    var chain :| IsNesting(chain) && chain[0] == inner && chain[|chain| - 1] == c;
    var longer := [code] + chain;
    assert forall i :: 0 < i < |longer| ==> longer[i] == chain[i - 1];
    assert IsNesting(longer);
  }

  ghost function Depth(code: Code): nat
    decreases code, |code.consts| + 1
  {
    1 + DepthOfConsts(code, |code.consts|)
  }

  ghost function DepthOfConsts(code: Code, n: nat): nat
    requires n <= |code.consts|
    decreases code, n
  {
    if n == 0 then 0
    else
      var d := if code.consts[n - 1].Nested? then Depth(code.consts[n - 1].code) else 0;
      var rest := DepthOfConsts(code, n - 1);
      if d > rest then d else rest
  }

  /** What is nested is less deep, so a code object is not nested in itself. */
  lemma WithinIsShallow(code: Code, c: Code)
    requires c in Within(code)
    ensures c == code || Depth(c) < Depth(code)
    decreases code, |code.consts| + 1
  {
    if c != code {
      ConstsAreShallow(code, |code.consts|, c);
    }
  }

  lemma {:induction false} ConstsAreShallow(code: Code, n: nat, c: Code)
    requires n <= |code.consts| && c in WithinConsts(code, n)
    ensures Depth(c) <= DepthOfConsts(code, n)
    decreases code, n
  {
    if c in WithinConsts(code, n - 1) {
      ConstsAreShallow(code, n - 1, c);
    } else {
      WithinIsShallow(code.consts[n - 1].code, c);
    }
  }

  lemma WithinTransitive(code: Code, c: Code)
    requires c in Within(code)
    ensures Within(c) <= Within(code)
    decreases code, |code.consts| + 1
  {
    if c != code {
      ConstsTransitive(code, |code.consts|, c);
    }
  }

  lemma {:induction false} ConstsTransitive(code: Code, n: nat, c: Code)
    requires n <= |code.consts| && c in WithinConsts(code, n)
    ensures Within(c) <= WithinConsts(code, n)
    decreases code, n
  {
    if c in WithinConsts(code, n - 1) {
      ConstsTransitive(code, n - 1, c);
    } else {
      WithinTransitive(code.consts[n - 1].code, c);
    }
  }

  /** Every code object in `known`, except those above `code`, is known with all that is nested in it. */
  ghost predicate IsComplete(known: set<Code>, code: Code) {
    forall c :: c in known && Depth(c) <= Depth(code) ==> Within(c) <= known
  }

  /** Every result comes from one search. */
  ghost predicate IsMemo<R>(search: Code -> R, results: map<Code, R>, searched: seq<Code>) {
    && (forall c :: c in results ==> results[c] == search(c))
    && (forall c :: c in results <==> c in searched)
    && (forall i, j :: 0 <= i < j < |searched| ==> searched[i] != searched[j])
  }

  lemma MemoStep<R>(search: Code -> R, results: map<Code, R>, searched: seq<Code>, code: Code)
    requires IsMemo(search, results, searched) && code !in results
    ensures IsMemo(search, results[code := search(code)], searched + [code])
    ensures results[code := search(code)].Keys == results.Keys + {code}
  {
  }

  class Memo<R> {
    var results: map<Code, R>
    /** The code objects that were searched, in order. */
    ghost var searched: seq<Code>

    constructor (search: Code -> R)
      ensures IsMemo(search, results, searched) && results == map[]
    {
      results, searched := map[], [];
    }

    /** Searches exactly the nested code objects that have no result yet, each once. */
    method Search(search: Code -> R, code: Code)
      requires IsMemo(search, results, searched) && IsComplete(results.Keys, code)
      modifies this
      ensures IsMemo(search, results, searched) && old(searched) <= searched
      ensures results.Keys == old(results.Keys) + Within(code)
      decreases code
    {
      ghost var known := results.Keys;
      if code in results {
        assert Within(code) <= known;
        return;
      }
      MemoStep(search, results, searched, code);
      results := results[code := search(code)];
      searched := searched + [code];
      for n := 0 to |code.consts|
        invariant IsMemo(search, results, searched) && old(searched) <= searched
        invariant results.Keys == known + {code} + WithinConsts(code, n)
      {
        KnownStep(known, code, n);
        if code.consts[n].Nested? {
          CompleteInside(known, code, n);
          Search(search, code.consts[n].code);
        }
      }
    }
  }

  lemma KnownStep(known: set<Code>, code: Code, n: nat)
    requires n < |code.consts|
    ensures known + {code} + WithinConsts(code, n + 1) == known + {code} + WithinConsts(code, n)
      + if code.consts[n].Nested? then Within(code.consts[n].code) else {}
  {
  }

  /** While the constants of `code` are searched, `code` itself is above them. */
  lemma CompleteInside(known: set<Code>, code: Code, n: nat)
    requires n < |code.consts| && code.consts[n].Nested? && IsComplete(known, code)
    ensures IsComplete(known + {code} + WithinConsts(code, n), code.consts[n].code)
  {
    var inner := code.consts[n].code;
    ConstsAreShallow(code, n + 1, inner);
    DepthGrows(code, n + 1, |code.consts|);
    forall c | c in known + {code} + WithinConsts(code, n) && Depth(c) <= Depth(inner)
      ensures Within(c) <= known + {code} + WithinConsts(code, n)
    {
      if c in WithinConsts(code, n) {
        ConstsTransitive(code, n, c);
      }
    }
  }

  lemma {:induction false} DepthGrows(code: Code, m: nat, n: nat)
    requires m <= n <= |code.consts|
    ensures DepthOfConsts(code, m) <= DepthOfConsts(code, n)
    decreases n
  {
    if m < n {
      DepthGrows(code, m, n - 1);
    }
  }

  /** Results for exactly the code object and all that are nested in it. */
  method SearchRecursively<R>(search: Code -> R, code: Code) returns (r: map<Code, R>)
    ensures r.Keys == Within(code) && forall c :: c in r ==> r[c] == search(c)
  {
    var memo := new Memo(search);
    memo.Search(search, code);
    r := memo.results;
  }
}
