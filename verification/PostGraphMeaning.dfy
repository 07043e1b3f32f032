/** What post-graph hooks leave behind, hook by hook. */
module PostGraphMeaning {
  import opened PostGraphHooks

  /** The graphs between the hooks that ran: each hook gets the graph that the one before it left. */
  ghost predicate AreStates<G(!new)>(run: (string, G) -> Outcome<G>, g: G, ran: seq<string>, states: seq<G>) {
    && |states| == |ran| + 1 && states[0] == g
    && forall n :: 0 <= n < |ran| ==> states[n + 1] == run(ran[n], states[n]).graph
  }

  /** What each hook left behind. */
  ghost predicate AreOutcomes<G(!new)>(run: (string, G) -> Outcome<G>, ran: seq<string>, states: seq<G>,
                                       outcomes: seq<Outcome<G>>) {
    && |states| == |ran| + 1 && |outcomes| == |ran|
    && forall n :: 0 <= n < |ran| ==> outcomes[n] == run(ran[n], states[n])
  }

  lemma {:induction false} GraphMeaning<G(!new)>(run: (string, G) -> Outcome<G>, g: G, ran: seq<string>,
                                                 states: seq<G>, n: nat)
    requires AreStates(run, g, ran, states) && n <= |ran|
    ensures GraphAfter(run, g, ran, n) == states[n]
  {
    if n > 0 {
      GraphMeaning(run, g, ran, states, n - 1);
    }
  }

  lemma OutcomeMeaning<G(!new)>(run: (string, G) -> Outcome<G>, g: G, ran: seq<string>, states: seq<G>,
                                outcomes: seq<Outcome<G>>, n: nat)
    requires AreStates(run, g, ran, states) && AreOutcomes(run, ran, states, outcomes) && n < |ran|
    ensures OutcomeAt(run, g, ran, n) == outcomes[n]
  {
    GraphMeaning(run, g, ran, states, n);
  }

  /** Every hook that ran contributes its files, in the order of running; ... */
  lemma {:induction false} FilesMeaning<G(!new)>(run: (string, G) -> Outcome<G>, g: G, ran: seq<string>,
                                                 states: seq<G>, outcomes: seq<Outcome<G>>, n: nat)
    requires AreStates(run, g, ran, states) && AreOutcomes(run, ran, states, outcomes) && n <= |ran|
    ensures |FilesAfter(run, g, ran, n)| == n
    ensures forall k :: 0 <= k < n ==> FilesAfter(run, g, ran, n)[k] == (ran[k], outcomes[k].files)
  {
    if n > 0 {
      FilesMeaning(run, g, ran, states, outcomes, n - 1);
      OutcomeMeaning(run, g, ran, states, outcomes, n - 1);
    }
  }

  /** Hook `k` is the last of the first `n` to set the collection mode of a package. */
  ghost predicate SetsLast<G(!new)>(outcomes: seq<Outcome<G>>, n: nat, package: string, k: nat) {
    && k < n <= |outcomes| && package in outcomes[k].modes
    && forall l :: k < l < n ==> package !in outcomes[l].modes
  }

  /** ... the last hook to set the collection mode of a package wins; ... */
  lemma {:induction false} ModesMeaning<G(!new)>(run: (string, G) -> Outcome<G>, g: G, ran: seq<string>,
                                                 states: seq<G>, outcomes: seq<Outcome<G>>, n: nat, package: string)
    requires AreStates(run, g, ran, states) && AreOutcomes(run, ran, states, outcomes) && n <= |ran|
    ensures var modes := ModesAfter(run, g, ran, n);
      && (package in modes <==> exists k: nat :: SetsLast(outcomes, n, package, k))
      && (forall k: nat :: SetsLast(outcomes, n, package, k) ==> modes[package] == outcomes[k].modes[package])
  {
    if n > 0 {
      ModesMeaning(run, g, ran, states, outcomes, n - 1, package);
      OutcomeMeaning(run, g, ran, states, outcomes, n - 1);
      var m := n - 1;
      SetsLastNext(outcomes, m, n, package);
      if package in outcomes[m].modes {
        assert SetsLast(outcomes, n, package, m);
      }
    }
  }

  lemma SetsLastNext<G(!new)>(outcomes: seq<Outcome<G>>, m: nat, n: nat, package: string)
    requires n == m + 1 <= |outcomes|
    ensures package in outcomes[m].modes ==> forall k: nat :: SetsLast(outcomes, n, package, k) <==> k == m
    ensures package !in outcomes[m].modes ==>
      forall k: nat :: SetsLast(outcomes, n, package, k) <==> SetsLast(outcomes, m, package, k)
  {
  }

  /** ... and links are suppressed if any hook says so. */
  lemma {:induction false} SuppressionMeaning<G(!new)>(run: (string, G) -> Outcome<G>, g: G, ran: seq<string>,
                                                       states: seq<G>, outcomes: seq<Outcome<G>>, n: nat,
                                                       pattern: string)
    requires AreStates(run, g, ran, states) && AreOutcomes(run, ran, states, outcomes) && n <= |ran|
    ensures pattern in SuppressionAfter(run, g, ran, n) <==>
      exists k :: 0 <= k < n && pattern in outcomes[k].suppression
  {
    if n > 0 {
      SuppressionMeaning(run, g, ran, states, outcomes, n - 1, pattern);
      OutcomeMeaning(run, g, ran, states, outcomes, n - 1);
    }
  }

  /** The graphs and what the hooks left behind always exist. */
  lemma {:induction false} RunHasStates<G(!new)>(run: (string, G) -> Outcome<G>, g: G, ran: seq<string>)
    returns (states: seq<G>, outcomes: seq<Outcome<G>>)
    ensures AreStates(run, g, ran, states) && AreOutcomes(run, ran, states, outcomes)
    decreases |ran|
  {
    if ran == [] {
      states, outcomes := [g], [];
    } else {
      var n := |ran| - 1;
      states, outcomes := RunHasStates(run, g, ran[..n]);
      var last := run(ran[n], states[n]);
      states, outcomes := states + [last.graph], outcomes + [last];
    }
  }
}
