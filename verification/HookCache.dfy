/** The cache of hook scripts: one hook for each module, the one of the highest priority. */
module HookCache {

  /** A hook script; its priority is that of its directory unless the script overrides it. */
  datatype Hook = Hook(file: string, priority: int)

  /** A script found in a hook directory, and the module it is for. */
  datatype Script = Script(name: string, hook: Hook)

  /** All scripts, directory by directory. */
  function AllScripts(dirs: seq<seq<Script>>): seq<Script> {
    if dirs == [] then [] else AllScripts(dirs[..|dirs| - 1]) + dirs[|dirs| - 1]
  }

  /** The hooks for one module, in the order of caching. */
  function HooksFor(scripts: seq<Script>, name: string): seq<Hook> {
    if scripts == [] then []
    else
      var last := scripts[|scripts| - 1];
      HooksFor(scripts[..|scripts| - 1], name) + if last.name == name then [last.hook] else []
  }

  /** Descending by priority; hooks of the same priority stay in order. */
  function Insert(sorted: seq<Hook>, h: Hook): (r: seq<Hook>)
    ensures |r| == |sorted| + 1
  {
    if sorted == [] || h.priority > sorted[0].priority then [h] + sorted else [sorted[0]] + Insert(sorted[1..], h)
  }

  function ByPriority(hooks: seq<Hook>): (r: seq<Hook>)
    ensures |r| == |hooks|
  {
    if hooks == [] then [] else Insert(ByPriority(hooks[..|hooks| - 1]), hooks[|hooks| - 1])
  }

  /** Script `i` is the active one of its module: none has a higher priority, and none before it has
      the same one. */
  predicate IsActive(scripts: seq<Script>, i: nat) {
    && i < |scripts|
    && forall j :: 0 <= j < |scripts| && scripts[j].name == scripts[i].name ==>
         && scripts[j].hook.priority <= scripts[i].hook.priority
         && (j < i ==> scripts[j].hook.priority < scripts[i].hook.priority)
  }

  lemma ActiveStays(scripts: seq<Script>, s: Script, i: nat)
    requires IsActive(scripts, i) && (s.name == scripts[i].name ==> s.hook.priority <= scripts[i].hook.priority)
    ensures IsActive(scripts + [s], i) && (scripts + [s])[i] == scripts[i]
  {
  }

  lemma ActiveReplaced(scripts: seq<Script>, s: Script)
    requires forall j :: 0 <= j < |scripts| && scripts[j].name == s.name ==> scripts[j].hook.priority < s.hook.priority
    ensures IsActive(scripts + [s], |scripts|)
  {
  }

  /** The first hook in the order of priority is that of the active script. */
  lemma {:induction false} ActiveIsFirst(scripts: seq<Script>, name: string) returns (i: nat)
    ensures HooksFor(scripts, name) == [] ==> forall j :: 0 <= j < |scripts| ==> scripts[j].name != name
    ensures HooksFor(scripts, name) != [] ==>
      IsActive(scripts, i) && scripts[i] == Script(name, ByPriority(HooksFor(scripts, name))[0])
    decreases |scripts|
  {
    i := 0;
    if scripts != [] {
      var before, s := scripts[..|scripts| - 1], scripts[|scripts| - 1];
      assert scripts == before + [s];
      i := ActiveIsFirst(before, name);
      var hooks, all := HooksFor(before, name), HooksFor(scripts, name);
      if s.name == name {
        assert all[..|hooks|] == hooks && all[|hooks|] == s.hook;
        if hooks == [] || s.hook.priority > ByPriority(hooks)[0].priority {
          ActiveReplaced(before, s);
          i := |before|;
        } else {
          ActiveStays(before, s, i);
        }
      } else {
        assert all == hooks;
        if hooks != [] {
          ActiveStays(before, s, i);
        }
      }
    }
  }

  /** A module has a hook if there is a script for it, and it is the hook of the active one. */
  ghost predicate CacheFor(scripts: seq<Script>, hooks: map<string, Hook>, name: string) {
    && (name !in hooks ==> forall i :: 0 <= i < |scripts| ==> scripts[i].name != name)
    && (name in hooks ==> exists i: nat :: IsActive(scripts, i) && scripts[i] == Script(name, hooks[name]))
  }

  // ---- In terms of the directories ----

  /** Script `k` of directory `d` is listed before script `l` of directory `e`. */
  predicate ComesBefore(d: nat, k: nat, e: nat, l: nat) {
    d < e || (d == e && k < l)
  }

  predicate IsScript(dirs: seq<seq<Script>>, d: nat, k: nat, name: string) {
    d < |dirs| && k < |dirs[d]| && dirs[d][k].name == name
  }

  /** Of the scripts for a module, none has a higher priority than script `k` of directory `d`, and none
      that comes before it has the same one. */
  ghost predicate IsActiveAt(dirs: seq<seq<Script>>, d: nat, k: nat, name: string) {
    && IsScript(dirs, d, k, name)
    && forall e: nat, l: nat :: IsScript(dirs, e, l, name) ==>
         && dirs[e][l].hook.priority <= dirs[d][k].hook.priority
         && (ComesBefore(e, l, d, k) ==> dirs[e][l].hook.priority < dirs[d][k].hook.priority)
  }

  /** Where script `k` of directory `d` is listed. */
  function PositionOf(dirs: seq<seq<Script>>, d: nat, k: nat): nat
    requires d <= |dirs|
  {
    |AllScripts(dirs[..d])| + k
  }

  lemma {:induction false} ScriptAt(dirs: seq<seq<Script>>, d: nat, k: nat)
    requires d < |dirs| && k < |dirs[d]|
    ensures PositionOf(dirs, d, k) < PositionOf(dirs, d + 1, 0) <= |AllScripts(dirs)|
    ensures AllScripts(dirs)[PositionOf(dirs, d, k)] == dirs[d][k]
    decreases |dirs|
  {
    var n := |dirs| - 1;
    assert dirs[..d + 1][..d] == dirs[..d] && dirs[..n + 1] == dirs;
    if d < n {
      assert dirs[..n][..d] == dirs[..d] && dirs[..n][..d + 1] == dirs[..d + 1];
      ScriptAt(dirs[..n], d, k);
    }
  }

  lemma {:induction false} PositionsGrow(dirs: seq<seq<Script>>, d: nat, e: nat)
    requires d <= e <= |dirs|
    ensures PositionOf(dirs, d, 0) <= PositionOf(dirs, e, 0)
    decreases e
  {
    if d < e {
      PositionsGrow(dirs, d, e - 1);
      assert dirs[..e][..e - 1] == dirs[..e - 1];
    }
  }

  lemma PositionsOrdered(dirs: seq<seq<Script>>, d: nat, k: nat, e: nat, l: nat)
    requires d < |dirs| && k < |dirs[d]| && e < |dirs| && l < |dirs[e]|
    ensures PositionOf(dirs, d, k) < PositionOf(dirs, e, l) <==> ComesBefore(d, k, e, l)
  {
    ScriptAt(dirs, d, k);
    ScriptAt(dirs, e, l);
    if d < e {
      PositionsGrow(dirs, d + 1, e);
    }
    if e < d {
      PositionsGrow(dirs, e + 1, d);
    }
  }

  lemma {:induction false} EveryScript(dirs: seq<seq<Script>>, i: nat) returns (d: nat, k: nat)
    requires i < |AllScripts(dirs)|
    ensures d < |dirs| && k < |dirs[d]| && PositionOf(dirs, d, k) == i
    decreases |dirs|
  {
    var n := |dirs| - 1;
    if i < |AllScripts(dirs[..n])| {
      d, k := EveryScript(dirs[..n], i);
      assert dirs[..n][..d] == dirs[..d];
    } else {
      d, k := n, i - |AllScripts(dirs[..n])|;
    }
  }

  lemma ActiveMeaning(dirs: seq<seq<Script>>, d: nat, k: nat, name: string)
    requires IsScript(dirs, d, k, name)
    ensures PositionOf(dirs, d, k) < |AllScripts(dirs)|
    ensures IsActive(AllScripts(dirs), PositionOf(dirs, d, k)) <==> IsActiveAt(dirs, d, k, name)
  {
    var all, i := AllScripts(dirs), PositionOf(dirs, d, k);
    ScriptAt(dirs, d, k);
    if IsActive(all, i) {
      forall e: nat, l: nat | IsScript(dirs, e, l, name)
        ensures dirs[e][l].hook.priority <= dirs[d][k].hook.priority
        ensures ComesBefore(e, l, d, k) ==> dirs[e][l].hook.priority < dirs[d][k].hook.priority
      {
        ScriptAt(dirs, e, l);
        PositionsOrdered(dirs, e, l, d, k);
      }
    }
    if IsActiveAt(dirs, d, k, name) {
      forall j | 0 <= j < |all| && all[j].name == name
        ensures all[j].hook.priority <= all[i].hook.priority
        ensures j < i ==> all[j].hook.priority < all[i].hook.priority
      {
        var e, l := EveryScript(dirs, j);
        ScriptAt(dirs, e, l);
        PositionsOrdered(dirs, e, l, d, k);
        assert IsScript(dirs, e, l, name);
      }
    }
  }

  /** Main result on the cache of hooks: a module has a hook if and only if some directory has a script
      for it, and then it is the hook of the active script. */
  lemma CacheMeaning(dirs: seq<seq<Script>>, hooks: map<string, Hook>, name: string)
    requires CacheFor(AllScripts(dirs), hooks, name)
    ensures name in hooks <==> exists d: nat, k: nat :: IsScript(dirs, d, k, name)
    ensures name in hooks ==> exists d: nat, k: nat :: IsActiveAt(dirs, d, k, name)
    ensures forall d: nat, k: nat :: IsActiveAt(dirs, d, k, name) ==>
      name in hooks && hooks[name] == dirs[d][k].hook
  {
    var all := AllScripts(dirs);
    if name in hooks {
      var i: nat :| IsActive(all, i) && all[i] == Script(name, hooks[name]);
      var d, k := EveryScript(dirs, i);
      ScriptAt(dirs, d, k);
      assert IsScript(dirs, d, k, name);
      ActiveMeaning(dirs, d, k, name);
      forall e: nat, l: nat | IsActiveAt(dirs, e, l, name)
        ensures dirs[e][l].hook == hooks[name]
      {
        ActiveMeaning(dirs, e, l, name);
        ScriptAt(dirs, e, l);
        ActiveUnique(all, i, PositionOf(dirs, e, l));
      }
    } else {
      forall d: nat, k: nat | IsScript(dirs, d, k, name)
        ensures false
      {
        ScriptAt(dirs, d, k);
      }
    }
  }

  lemma ActiveUnique(scripts: seq<Script>, i: nat, j: nat)
    requires IsActive(scripts, i) && IsActive(scripts, j) && scripts[i].name == scripts[j].name
    ensures i == j
  {
  }

  class Cache {
    /** One hook for each module. */
    var hooks: map<string, Hook>

    /** Caches the scripts of all directories, then keeps one hook for each module. */
    constructor (dirs: seq<seq<Script>>)
      ensures forall name :: CacheFor(AllScripts(dirs), hooks, name)
    {
      new;
      var lists: map<string, seq<Hook>> := map[];
      ghost var all: seq<Script> := [];
      for d := 0 to |dirs|
        invariant all == AllScripts(dirs[..d])
        invariant Lists(all, lists)
      {
        ghost var before := all;
        for k := 0 to |dirs[d]|
          invariant all == before + dirs[d][..k]
          invariant Lists(all, lists)
        {
          var s := dirs[d][k];
          ListsStep(all, lists, s);
          lists := Recorded(lists, s);
          all := all + [s];
        }
        assert dirs[..d + 1][..d] == dirs[..d];
        assert dirs[d][..|dirs[d]|] == dirs[d];
      }
      assert dirs[..|dirs|] == dirs;
      hooks := map name | name in lists ::
        if |lists[name]| == 1 then lists[name][0]
        else if lists[name] == [] then Hook("", 0)
        else ByPriority(lists[name])[0];
      forall name
        ensures CacheFor(all, hooks, name)
      {
        assert ListFor(all, lists, name);
        var i := ActiveIsFirst(all, name);
      }
    }
  }

  ghost predicate ListFor(scripts: seq<Script>, lists: map<string, seq<Hook>>, name: string) {
    (if name in lists then lists[name] else []) == HooksFor(scripts, name) && (name in lists ==> lists[name] != [])
  }

  ghost predicate Lists(scripts: seq<Script>, lists: map<string, seq<Hook>>) {
    forall name :: ListFor(scripts, lists, name)
  }

  /** The list for the module of `s` with the hook of `s` added (`setdefault` and `append`). */
  function Recorded(lists: map<string, seq<Hook>>, s: Script): map<string, seq<Hook>> {
    lists[s.name := (if s.name in lists then lists[s.name] else []) + [s.hook]]
  }

  lemma ListsStep(scripts: seq<Script>, lists: map<string, seq<Hook>>, s: Script)
    requires Lists(scripts, lists)
    ensures Lists(scripts + [s], Recorded(lists, s))
  {
    forall name
      ensures ListFor(scripts + [s], Recorded(lists, s), name)
    {
      assert ListFor(scripts, lists, name);
      assert (scripts + [s])[..|scripts|] == scripts;
    }
  }
}
