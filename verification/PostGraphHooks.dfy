/** Running the post-graph hooks of all imported modules: `process_post_graph_hooks`. */
module PostGraphHooks {
  import opened Reachability
  import opened Sequences

  /** What the module graph holds for a name. */
  datatype Node = Absent | Unimportable | Importable

  /** What a hook leaves behind. `G` is the module graph. */
  datatype Outcome<G> = Outcome(graph: G, files: seq<string>, modes: map<string, string>, suppression: set<string>)

  // ---- One run, as the list of hooks that ran ----

  /** The graph after the first `n` hooks. */
  function GraphAfter<G>(run: (string, G) -> Outcome<G>, g: G, ran: seq<string>, n: nat): G
    requires n <= |ran|
  {
    if n == 0 then g else run(ran[n - 1], GraphAfter(run, g, ran, n - 1)).graph
  }

  function OutcomeAt<G>(run: (string, G) -> Outcome<G>, g: G, ran: seq<string>, n: nat): Outcome<G>
    requires n < |ran|
  {
    run(ran[n], GraphAfter(run, g, ran, n))
  }

  /** The names of hooks and their files, in the order of running. */
  function FilesAfter<G>(run: (string, G) -> Outcome<G>, g: G, ran: seq<string>, n: nat): seq<(string, seq<string>)>
    requires n <= |ran|
  {
    if n == 0 then [] else FilesAfter(run, g, ran, n - 1) + [(ran[n - 1], OutcomeAt(run, g, ran, n - 1).files)]
  }

  /** Later hooks override the collection modes that earlier ones set. */
  function ModesAfter<G>(run: (string, G) -> Outcome<G>, g: G, ran: seq<string>, n: nat): map<string, string>
    requires n <= |ran|
  {
    if n == 0 then map[] else ModesAfter(run, g, ran, n - 1) + OutcomeAt(run, g, ran, n - 1).modes
  }

  function SuppressionAfter<G>(run: (string, G) -> Outcome<G>, g: G, ran: seq<string>, n: nat): set<string>
    requires n <= |ran|
  {
    if n == 0 then {} else SuppressionAfter(run, g, ran, n - 1) + OutcomeAt(run, g, ran, n - 1).suppression
  }

  lemma {:induction false} AfterPrefix<G>(run: (string, G) -> Outcome<G>, g: G, ran: seq<string>, more: seq<string>,
                                          n: nat)
    requires n <= |ran|
    ensures GraphAfter(run, g, ran + more, n) == GraphAfter(run, g, ran, n)
    ensures FilesAfter(run, g, ran + more, n) == FilesAfter(run, g, ran, n)
    ensures ModesAfter(run, g, ran + more, n) == ModesAfter(run, g, ran, n)
    ensures SuppressionAfter(run, g, ran + more, n) == SuppressionAfter(run, g, ran, n)
  {
    if n > 0 {
      AfterPrefix(run, g, ran, more, n - 1);
    }
  }

  predicate Distinct(names: seq<string>) {
    forall i, j :: 0 <= i < j < |names| ==> names[i] != names[j]
  }

  /** At some point of the run, the graph held only an unimportable node for `name`. */
  ghost predicate WasUnimportable<G>(run: (string, G) -> Outcome<G>, find: (string, G) -> Node, g: G,
                                     ran: seq<string>, name: string) {
    exists n: nat :: n <= |ran| && find(name, GraphAfter(run, g, ran, n)) == Unimportable
  }

  /** Each hook is run at most once, and only when its module can be imported; the others are dropped
      because their module cannot be imported, or remain. */
  ghost predicate IsRun<G>(run: (string, G) -> Outcome<G>, find: (string, G) -> Node, g: G,
                           hooks: seq<string>, ran: seq<string>, dropped: set<string>, rest: seq<string>)
  {
    && Distinct(ran) && Distinct(rest)
    && (forall h :: h in hooks <==> h in ran || h in dropped || h in rest)
    && (forall h :: h in rest ==> h !in ran && h !in dropped)
    && (forall h :: h in ran ==> h !in dropped)
    && (forall n: nat :: n < |ran| ==> find(ran[n], GraphAfter(run, g, ran, n)) == Importable)
    && (forall h :: h in dropped ==> WasUnimportable(run, find, g, ran, h))
  }

  /** The hook cache, the module graph and what hooks add to them. */
  class PostGraph<G(!new)> {
    /** The names with a hook, in the order of the cache. */
    var hooks: seq<string>
    var graph: G
    var files: seq<(string, seq<string>)>
    var modes: map<string, string>
    var suppression: set<string>

    constructor (hooks: seq<string>, graph: G)
      ensures this.hooks == hooks && this.graph == graph
      ensures files == [] && modes == map[] && suppression == {}
    {
      this.hooks, this.graph := hooks, graph;
      files, modes, suppression := [], map[], {};
    }

    /** What was collected is what the hooks that ran left behind. */
    ghost predicate Collected(run: (string, G) -> Outcome<G>, g: G, ran: seq<string>)
      reads this
    {
      && graph == GraphAfter(run, g, ran, |ran|)
      && files == FilesAfter(run, g, ran, |ran|)
      && modes == ModesAfter(run, g, ran, |ran|)
      && suppression == SuppressionAfter(run, g, ran, |ran|)
    }

    method RunHook(run: (string, G) -> Outcome<G>, name: string, ghost g: G, ghost ran: seq<string>)
      requires Collected(run, g, ran)
      modifies `graph, `files, `modes, `suppression
      ensures Collected(run, g, ran + [name])
    {
      var outcome := run(name, graph);
      AfterPrefix(run, g, ran, [name], |ran|);
      graph := outcome.graph;
      files := files + [(name, outcome.files)];
      modes := modes + outcome.modes;
      suppression := suppression + outcome.suppression;
    }

    /** One module of a pass; its hook is ignored, given up, or run. */
    method Visit(run: (string, G) -> Outcome<G>, find: (string, G) -> Node, name: string, ghost g: G,
                 ghost ran: seq<string>, ghost names: seq<string>, ghost added: seq<string>, ghost dropped: set<string>)
      returns (hooked: bool, ghost added': seq<string>, ghost dropped': set<string>)
      requires Collected(run, g, ran + added) && InPass(run, find, g, names, ran, added, dropped) && name !in names
      modifies `graph, `files, `modes, `suppression
      ensures Collected(run, g, ran + added') && InPass(run, find, g, names + [name], ran, added', dropped')
      ensures
        || (!hooked && added' == added && dropped' == dropped)
        || (hooked && added' == added && dropped' == dropped + {name})
        || (hooked && added' == added + [name] && dropped' == dropped)
    {
      var node := find(name, graph);
      if node.Absent? {
        PassSkips(run, find, g, names, ran, added, dropped, name);
        return false, added, dropped;
      }
      if node.Unimportable? {
        PassDrops(run, find, g, names, ran, added, dropped, name);
        return true, added, dropped + {name};
      }
      PassRuns(run, find, g, names, ran, added, dropped, name);
      RunHook(run, name, g, ran + added);
      assert (ran + added) + [name] == ran + (added + [name]);
      return true, added + [name], dropped;
    }

    /** One pass over the cache. */
    method Pass(run: (string, G) -> Outcome<G>, find: (string, G) -> Node, ghost g: G, ghost ran: seq<string>)
      returns (hooked: set<string>, ghost added: seq<string>, ghost dropped: set<string>, ghost at: seq<nat>)
      requires Collected(run, g, ran) && Distinct(hooks)
      modifies `graph, `files, `modes, `suppression
      ensures Collected(run, g, ran + added) && InPass(run, find, g, hooks, ran, added, dropped)
      ensures forall h :: h in hooked <==> h in added || h in dropped
      ensures IsSelection(hooks, |hooks|, at, added)
    {
      hooked, added, dropped, at := {}, [], {}, [];
      assert ran + [] == ran;
      for i := 0 to |hooks|
        invariant Collected(run, g, ran + added) && InPass(run, find, g, hooks[..i], ran, added, dropped)
        invariant forall h :: h in hooked <==> h in added || h in dropped
        invariant IsSelection(hooks, i, at, added)
      {
        assert hooks[..i + 1] == hooks[..i] + [hooks[i]];
        SelectionGrows(hooks, i, at, added);
        ghost var before := added;
        var isHooked;
        isHooked, added, dropped := Visit(run, find, hooks[i], g, ran, hooks[..i], added, dropped);
        if isHooked {
          hooked := hooked + {hooks[i]};
        }
        if added != before {
          at := at + [i];
        }
      }
      assert hooks[..|hooks|] == hooks;
    }

    /** Removes the modules from the cache. */
    method RemoveModules(names: set<string>)
      modifies `hooks
      ensures hooks == Without(old(hooks), names)
    {
      hooks := Without(hooks, names);
    }

    /** Passes over the cache until one of them finds nothing to run. */
    method ProcessPostGraphHooks(run: (string, G) -> Outcome<G>, find: (string, G) -> Node)
      returns (ghost ran: seq<string>, ghost dropped: set<string>)
      requires Distinct(hooks) && files == [] && modes == map[] && suppression == {}
      modifies this
      ensures Collected(run, old(graph), ran)
      ensures IsRun(run, find, old(graph), old(hooks), ran, dropped, hooks)
      ensures forall h :: h in hooks ==> find(h, graph) == Absent
    {
      ran, dropped := [], {};
      ghost var g, all := graph, hooks;
      while true
        invariant Collected(run, g, ran) && IsRun(run, find, g, all, ran, dropped, hooks)
        decreases |hooks|
      {
        var hooked, added, lost, at := Pass(run, find, g, ran);
        ghost var before := hooks;
        RemoveModules(hooked);
        RunGoesOn(run, find, g, all, ran, dropped, before, added, lost, hooks);
        if hooked == {} {
          NothingHooked(run, find, g, before, ran, added, lost, hooked);
          break;
        }
        WithoutShrinks(before, hooked);
        ran, dropped := ran + added, dropped + lost;
      }
    }
  }

  /** `picked` are some of the first `n` names, in order. */
  ghost predicate IsSelection(names: seq<string>, n: nat, at: seq<nat>, picked: seq<string>) {
    && n <= |names| && Ascending(at) && |at| == |picked|
    && forall k :: 0 <= k < |at| ==> at[k] < n && picked[k] == names[at[k]]
  }

  lemma SelectionGrows(names: seq<string>, n: nat, at: seq<nat>, picked: seq<string>)
    requires n < |names| && IsSelection(names, n, at, picked)
    ensures IsSelection(names, n + 1, at, picked)
    ensures IsSelection(names, n + 1, at + [n], picked + [names[n]])
  {
    AscendingNext(at, n);
  }

  /** The names that remain stay in order, too: each is kept where it is, or removed. */
  lemma {:induction false} WithoutConcat(a: seq<string>, b: seq<string>, name: string, gone: set<string>)
    ensures Without(a + b, gone) == Without(a, gone) + Without(b, gone)
    ensures Without([name], gone) == if name in gone then [] else [name]
    decreases |a|
  {
    if a == [] {
      assert a + b == b;
    } else {
      assert (a + b)[1..] == a[1..] + b;
      WithoutConcat(a[1..], b, name, gone);
    }
  }

  lemma WithoutShrinks(names: seq<string>, gone: set<string>)
    requires gone != {} && forall h :: h in gone ==> h in names
    ensures |Without(names, gone)| < |names|
  {
    var h :| h in gone;
    assert h in names && h !in Without(names, gone);
  }

  lemma EmptyIfInside(names: seq<string>, s: set<string>)
    requires forall h :: h in names ==> h in s
    ensures s == {} ==> names == []
  {
    if names != [] {
      assert names[0] in s;
    }
  }

  lemma NothingHooked<G>(run: (string, G) -> Outcome<G>, find: (string, G) -> Node, g: G, names: seq<string>,
                         ran: seq<string>, added: seq<string>, dropped: set<string>, hooked: set<string>)
    requires InPass(run, find, g, names, ran, added, dropped) && hooked == {}
    requires forall h :: h in hooked <==> h in added || h in dropped
    ensures added == [] && dropped == {} && ran + added == ran
    ensures forall h :: h in names ==> find(h, GraphAfter(run, g, ran, |ran|)) == Absent
  {
    EmptyIfInside(added, hooked);
  }

  // ---- One pass ----

  /** What a pass over `names`, after the hooks `ran`, has run and dropped. */
  ghost predicate InPass<G>(run: (string, G) -> Outcome<G>, find: (string, G) -> Node, g: G, names: seq<string>,
                            ran: seq<string>, added: seq<string>, dropped: set<string>)
  {
    && Distinct(added)
    && (forall h :: h in added || h in dropped ==> h in names)
    && (forall h :: h in dropped ==> h !in added)
    && (forall n: nat :: n < |added| ==> find(added[n], GraphAfter(run, g, ran + added, |ran| + n)) == Importable)
    && (forall h :: h in dropped ==> WasUnimportable(run, find, g, ran + added, h))
    && (added == [] && dropped == {} ==> forall h :: h in names ==> find(h, GraphAfter(run, g, ran, |ran|)) == Absent)
  }

  lemma PassSkips<G>(run: (string, G) -> Outcome<G>, find: (string, G) -> Node, g: G, names: seq<string>,
                     ran: seq<string>, added: seq<string>, dropped: set<string>, name: string)
    requires InPass(run, find, g, names, ran, added, dropped)
    requires find(name, GraphAfter(run, g, ran + added, |ran + added|)) == Absent
    ensures InPass(run, find, g, names + [name], ran, added, dropped)
  {
    if added == [] {
      assert ran + added == ran;
    }
  }

  lemma PassDrops<G>(run: (string, G) -> Outcome<G>, find: (string, G) -> Node, g: G, names: seq<string>,
                     ran: seq<string>, added: seq<string>, dropped: set<string>, name: string)
    requires InPass(run, find, g, names, ran, added, dropped) && name !in names
    requires find(name, GraphAfter(run, g, ran + added, |ran + added|)) == Unimportable
    ensures InPass(run, find, g, names + [name], ran, added, dropped + {name})
  {
    assert WasUnimportable(run, find, g, ran + added, name);
  }

  lemma {:induction false} AddedImportable<G>(run: (string, G) -> Outcome<G>, find: (string, G) -> Node, g: G,
                                              ran: seq<string>, added: seq<string>, name: string)
    requires forall n: nat :: n < |added| ==> find(added[n], GraphAfter(run, g, ran + added, |ran| + n)) == Importable
    requires find(name, GraphAfter(run, g, ran + added, |ran + added|)) == Importable
    ensures var a := added + [name];
      forall n: nat :: n < |a| ==> find(a[n], GraphAfter(run, g, ran + a, |ran| + n)) == Importable
  {
    var a := added + [name];
    assert ran + a == (ran + added) + [name];
    forall n: nat | n < |a|
      ensures find(a[n], GraphAfter(run, g, ran + a, |ran| + n)) == Importable
    {
      AfterPrefix(run, g, ran + added, [name], |ran| + n);
      assert n < |added| ==> a[n] == added[n];
    }
  }

  lemma PassRuns<G>(run: (string, G) -> Outcome<G>, find: (string, G) -> Node, g: G, names: seq<string>,
                    ran: seq<string>, added: seq<string>, dropped: set<string>, name: string)
    requires InPass(run, find, g, names, ran, added, dropped) && name !in names
    requires find(name, GraphAfter(run, g, ran + added, |ran + added|)) == Importable
    ensures InPass(run, find, g, names + [name], ran, added + [name], dropped)
  {
    var a := added + [name];
    assert ran + a == (ran + added) + [name];
    AddedImportable(run, find, g, ran, added, name);
    forall h | h in dropped
      ensures WasUnimportable(run, find, g, ran + a, h)
    {
      StaysUnimportable(run, find, g, ran + added, [name], h);
    }
  }

  lemma StaysUnimportable<G>(run: (string, G) -> Outcome<G>, find: (string, G) -> Node, g: G,
                             ran: seq<string>, more: seq<string>, name: string)
    requires WasUnimportable(run, find, g, ran, name)
    ensures WasUnimportable(run, find, g, ran + more, name)
  {
    var n: nat :| n <= |ran| && find(name, GraphAfter(run, g, ran, n)) == Unimportable;
    AfterPrefix(run, g, ran, more, n);
  }

  // ---- Passes one after the other ----

  /** A pass goes on from a run over the hooks that remain. */
  lemma RunGoesOn<G>(run: (string, G) -> Outcome<G>, find: (string, G) -> Node, g: G, hooks: seq<string>,
                     ran: seq<string>, dropped: set<string>, rest: seq<string>,
                     added: seq<string>, lost: set<string>, rest': seq<string>)
    requires IsRun(run, find, g, hooks, ran, dropped, rest) && InPass(run, find, g, rest, ran, added, lost)
    requires Distinct(rest') && forall h :: h in rest' <==> h in rest && h !in added && h !in lost
    ensures IsRun(run, find, g, hooks, ran + added, dropped + lost, rest')
  {
    var r := ran + added;
    forall n: nat | n < |r|
      ensures find(r[n], GraphAfter(run, g, r, n)) == Importable
    {
      if n < |ran| {
        AfterPrefix(run, g, ran, added, n);
      } else {
        assert find(added[n - |ran|], GraphAfter(run, g, r, |ran| + (n - |ran|))) == Importable;
      }
    }
    forall h | h in dropped
      ensures WasUnimportable(run, find, g, r, h)
    {
      StaysUnimportable(run, find, g, ran, added, h);
    }
    assert forall i :: 0 <= i < |added| ==> added[i] in added && added[i] in rest;
    assert forall i :: 0 <= i < |ran| ==> ran[i] in ran;
  }

  /** The names that are not in a set, in order. */
  function Without(names: seq<string>, gone: set<string>): (r: seq<string>)
    ensures forall h :: h in r <==> h in names && h !in gone
    ensures Distinct(names) ==> Distinct(r)
    ensures |r| <= |names| && (|r| == |names| ==> r == names)
  {
    if names == [] then []
    else
      var rest := Without(names[1..], gone);
      assert forall i :: 0 <= i < |names| - 1 ==> names[1..][i] == names[i + 1];
      if names[0] in gone then rest else [names[0]] + rest
  }

  // ---- Hooks that only add hidden imports ----

  type Modules = set<string>

  /** Hooks over a graph that is a set of modules: what modules import, what the hooks' hidden imports
      are, which modules can be imported, and how the graph adds modules and all they import. */
  datatype World = World(
    imports: string -> Modules, hidden: string -> Modules, importable: string -> bool, close: Modules -> Modules,
    run: (string, Modules) -> Outcome<Modules>, find: (string, Modules) -> Node)

  /** Closing a set adds what its modules import, and what those import, and nothing else. */
  ghost predicate Closes(w: World, s: Modules) {
    && s <= w.close(s) && IsClosed(w.imports, w.close(s))
    && forall t :: s <= t && IsClosed(w.imports, t) ==> w.close(s) <= t
  }

  /** A hook imports its hidden imports as if its module imported them. */
  ghost predicate OnlyImports(w: World, h: string, g: Modules) {
    && Closes(w, g + w.hidden(h)) && w.run(h, g).graph == w.close(g + w.hidden(h))
    && w.find(h, g) == if h !in g then Absent else if w.importable(h) then Importable else Unimportable
  }

  ghost predicate IsWorld(w: World) {
    forall h, g :: OnlyImports(w, h, g)
  }

  /** What a module brings in: its imports, and its hidden imports if it has a hook and can be imported. */
  function Brings(w: World, hooks: seq<string>): string -> Modules {
    (m: string) => w.imports(m) + if m in hooks && w.importable(m) then w.hidden(m) else {}
  }

  /** All modules in the graph are there for a reason. */
  ghost predicate AllReached(edges: string -> Modules, roots: Modules, g: Modules) {
    forall x :: x in g ==> Reaches(edges, roots, x)
  }

  lemma ImportsReached(w: World, edges: string -> Modules, roots: Modules, g: Modules, more: Modules, m: string)
    requires Closes(w, g + more) && (forall x :: w.imports(x) <= edges(x))
    requires AllReached(edges, roots, g) && m in g && more <= edges(m)
    ensures AllReached(edges, roots, w.close(g + more))
  {
    var c := w.close(g + more);
    var t := set x | x in c && Reaches(edges, roots, x);
    forall x | x in g + more
      ensures x in t
    {
      if x !in g {
        ReachesNext(edges, roots, m, x);
      }
    }
    forall x, y | x in t && y in w.imports(x)
      ensures y in t
    {
      assert x in c;
      ReachesNext(edges, roots, x, y);
    }
    assert IsClosed(w.imports, t);
  }

  /** The graph `r` is closed under imports, holds the hidden imports of the first `n` hooks that ran,
      and nothing that the roots do not bring in. */
  ghost predicate Grown(w: World, edges: string -> Modules, roots: Modules, ran: seq<string>, n: nat, r: Modules) {
    && n <= |ran|
    && roots <= r && IsClosed(w.imports, r) && AllReached(edges, roots, r)
    && forall k :: 0 <= k < n ==> w.hidden(ran[k]) <= r
  }

  lemma GrownNext(w: World, edges: string -> Modules, roots: Modules, ran: seq<string>, n: nat, r: Modules)
    requires n < |ran| && Grown(w, edges, roots, ran, n, r) && OnlyImports(w, ran[n], r)
    requires (forall x :: w.imports(x) <= edges(x)) && w.hidden(ran[n]) <= edges(ran[n]) && ran[n] in r
    ensures Grown(w, edges, roots, ran, n + 1, w.run(ran[n], r).graph)
  {
    ImportsReached(w, edges, roots, r, w.hidden(ran[n]), ran[n]);
  }

  /** Hook `k` of the run is one of `hooks`, and its module could be imported when it ran. */
  ghost predicate HasRun(w: World, hooks: seq<string>, g: Modules, ran: seq<string>, k: nat) {
    k < |ran| ==> ran[k] in hooks && w.find(ran[k], GraphAfter(w.run, g, ran, k)) == Importable
  }

  /** After every hook the graph is closed under imports and holds the hidden imports of the hooks
      that ran; nothing else was added. */
  lemma {:induction false} GraphGrows(w: World, hooks: seq<string>, edges: string -> Modules, g: Modules,
                                      ran: seq<string>, n: nat)
    requires IsWorld(w) && IsClosed(w.imports, g) && n <= |ran| && edges == Brings(w, hooks)
    requires forall k: nat :: HasRun(w, hooks, g, ran, k)
    ensures Grown(w, edges, g, ran, n, GraphAfter(w.run, g, ran, n))
  {
    if n == 0 {
      NothingGrown(w, edges, g, ran);
    } else {
      GraphGrows(w, hooks, edges, g, ran, n - 1);
      WorldAt(w, g, ran, n - 1);
      assert HasRun(w, hooks, g, ran, n - 1);
      HookAdds(w, hooks, edges, g, ran, n - 1, GraphAfter(w.run, g, ran, n - 1));
    }
  }

  lemma {:induction false} WorldAt(w: World, g: Modules, ran: seq<string>, n: nat)
    requires IsWorld(w) && n < |ran|
    ensures OnlyImports(w, ran[n], GraphAfter(w.run, g, ran, n))
    ensures GraphAfter(w.run, g, ran, n + 1) == w.run(ran[n], GraphAfter(w.run, g, ran, n)).graph
  {
  }

  lemma NothingGrown(w: World, edges: string -> Modules, g: Modules, ran: seq<string>)
    requires IsClosed(w.imports, g)
    ensures Grown(w, edges, g, ran, 0, g)
  {
    forall x | x in g
      ensures Reaches(edges, g, x)
    {
      RootReaches(edges, g, x);
    }
  }

  lemma HookAdds(w: World, hooks: seq<string>, edges: string -> Modules, g: Modules, ran: seq<string>, n: nat,
                 before: Modules)
    requires n < |ran| && edges == Brings(w, hooks) && Grown(w, edges, g, ran, n, before)
    requires OnlyImports(w, ran[n], before) && ran[n] in hooks && w.find(ran[n], before) == Importable
    ensures Grown(w, edges, g, ran, n + 1, w.run(ran[n], before).graph)
  {
    GrownNext(w, edges, g, ran, n, before);
  }

  lemma DroppedCannotBeImported(w: World, g: Modules, ran: seq<string>, m: string)
    requires IsWorld(w) && WasUnimportable(w.run, w.find, g, ran, m)
    ensures !w.importable(m)
  {
    var n: nat :| n <= |ran| && w.find(m, GraphAfter(w.run, g, ran, n)) == Unimportable;
    assert OnlyImports(w, m, GraphAfter(w.run, g, ran, n));
  }

  /** A module of the final graph with a hook has had its hidden imports added, if it can be imported. */
  lemma HiddenImportsAdded(w: World, hooks: seq<string>, g: Modules, ran: seq<string>, dropped: set<string>,
                           rest: seq<string>, r: Modules, m: string)
    requires IsWorld(w) && IsRun(w.run, w.find, g, hooks, ran, dropped, rest) && m in hooks && w.importable(m)
    requires m in rest ==> w.find(m, r) == Absent
    requires m in r && forall k :: 0 <= k < |ran| ==> w.hidden(ran[k]) <= r
    ensures w.hidden(m) <= r
  {
    assert OnlyImports(w, m, r);
    if m in dropped {
      DroppedCannotBeImported(w, g, ran, m);
    }
    assert m in ran;
  }

  /** `r` is the least set that holds the roots and is closed under the edges. */
  ghost predicate IsLeast(edges: string -> Modules, roots: Modules, r: Modules) {
    roots <= r && IsClosed(edges, r) && forall x :: x in r <==> Reaches(edges, roots, x)
  }

  /** If hooks only add imports, the final graph is the least set of modules that holds the initial
      ones and is closed under imports and the hidden imports of importable modules with a hook,
      whatever the order in which the hooks ran. */
  lemma FinalGraphIsLeast(w: World, hooks: seq<string>, g: Modules,
                          ran: seq<string>, dropped: set<string>, rest: seq<string>)
    requires IsWorld(w) && IsClosed(w.imports, g) && IsRun(w.run, w.find, g, hooks, ran, dropped, rest)
    requires forall h :: h in rest ==> w.find(h, GraphAfter(w.run, g, ran, |ran|)) == Absent
    ensures IsLeast(Brings(w, hooks), g, GraphAfter(w.run, g, ran, |ran|))
  {
    var r, edges := GraphAfter(w.run, g, ran, |ran|), Brings(w, hooks);
    forall k: nat
      ensures HasRun(w, hooks, g, ran, k)
    {
      assert k < |ran| ==> ran[k] in ran;
    }
    GraphGrows(w, hooks, edges, g, ran, |ran|);
    forall m | m in r
      ensures edges(m) <= r
    {
      if m in hooks && w.importable(m) {
        HiddenImportsAdded(w, hooks, g, ran, dropped, rest, r, m);
      }
    }
    forall x | Reaches(edges, g, x)
      ensures x in r
    {
      ClosedHoldsReachable(edges, g, r, x);
    }
  }

  lemma LeastInside(e: string -> Modules, f: string -> Modules, g: Modules, r: Modules, s: Modules)
    requires (forall m :: e(m) == f(m)) && IsLeast(e, g, r) && IsLeast(f, g, s)
    ensures r <= s
  {
    assert IsClosed(e, s);
    forall x | x in r
      ensures x in s
    {
      ClosedHoldsReachable(e, g, s, x);
    }
  }

  /** The order of the hook cache does not matter. */
  lemma HookOrderIsIrrelevant(w: World, g: Modules,
                              hooks: seq<string>, ran: seq<string>, dropped: set<string>, rest: seq<string>,
                              hooks': seq<string>, ran': seq<string>, dropped': set<string>, rest': seq<string>)
    requires IsWorld(w) && IsClosed(w.imports, g) && forall h :: h in hooks <==> h in hooks'
    requires IsRun(w.run, w.find, g, hooks, ran, dropped, rest)
    requires IsRun(w.run, w.find, g, hooks', ran', dropped', rest')
    requires forall h :: h in rest ==> w.find(h, GraphAfter(w.run, g, ran, |ran|)) == Absent
    requires forall h :: h in rest' ==> w.find(h, GraphAfter(w.run, g, ran', |ran'|)) == Absent
    ensures GraphAfter(w.run, g, ran, |ran|) == GraphAfter(w.run, g, ran', |ran'|)
  {
    FinalGraphIsLeast(w, hooks, g, ran, dropped, rest);
    FinalGraphIsLeast(w, hooks', g, ran', dropped', rest');
    var e, f := Brings(w, hooks), Brings(w, hooks');
    LeastInside(e, f, g, GraphAfter(w.run, g, ran, |ran|), GraphAfter(w.run, g, ran', |ran'|));
    LeastInside(f, e, g, GraphAfter(w.run, g, ran', |ran'|), GraphAfter(w.run, g, ran, |ran|));
  }
}
