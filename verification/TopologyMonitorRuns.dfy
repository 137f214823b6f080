/** Putting runs of the topology monitor together. */
module TopologyMonitorRuns {
  import opened Basics
  import opened Hosts
  import opened TopologyMonitor

  lemma {:induction false} RunConcat(s: State, xs: seq<Action>, ys: seq<Action>)
    requires Possible(s, xs) && Possible(Run(s, xs), ys)
    ensures Possible(s, xs + ys) && Run(s, xs + ys) == Run(Run(s, xs), ys)
    decreases |xs|
  {
    hide Enabled, Apply;
    if xs == [] {
      assert xs + ys == ys;
    } else {
      assert (xs + ys)[1..] == xs[1..] + ys;
      RunConcat(Apply(s, xs[0]), xs[1..], ys);
    }
  }

  lemma RunSingle(s: State, a: Action)
    requires Enabled(s, a)
    ensures Possible(s, [a]) && Run(s, [a]) == Apply(s, a)
  {
    hide Enabled, Apply;
    assert [a][1..] == [];
    var s1 := Apply(s, a);
    assert Possible(s1, []) && Run(s1, []) == s1;
  }

  ghost predicate Reached(s: State) {
    exists actions :: Possible(INITIAL, actions) && Run(INITIAL, actions) == s
  }

  lemma {:induction false} RunOn(s: State, actions: seq<Action>, a: Action)
    requires Possible(s, actions) && Enabled(Run(s, actions), a)
    ensures Possible(s, actions + [a]) && Run(s, actions + [a]) == Apply(Run(s, actions), a)
    decreases |actions|
  {
    hide Enabled, Apply;
    if actions == [] {
      assert actions + [a] == [a] && [a][1..] == [];
    } else {
      assert (actions + [a])[1..] == actions[1..] + [a];
      RunOn(Apply(s, actions[0]), actions[1..], a);
    }
  }

  /** One more action from a state reached. */
  lemma Then(s: State, a: Action, s1: State)
    requires Reached(s) && Enabled(s, a) && Apply(s, a) == s1
    ensures Reached(s1)
  {
    hide Enabled, Apply, Possible, Run;
    var actions :| Possible(INITIAL, actions) && Run(INITIAL, actions) == s;
    RunOn(INITIAL, actions, a);
  }

  lemma ReachedMeans(s: State)
    requires Reached(s)
    ensures exists actions :: Possible(INITIAL, actions) && Run(INITIAL, actions) == s
  {
  }

  /** The actions, one after the other and with nothing in between, lead from `s` to `end`. */
  ghost predicate Takes(s: State, actions: seq<Action>, end: State) {
    Possible(s, actions) && Run(s, actions) == end
  }

  lemma Stays(s: State)
    ensures Takes(s, [], s)
  {
  }

  /** The first of the actions leads to `next`, the others from there to `end`. */
  lemma First(s: State, actions: seq<Action>, next: State, end: State)
    requires actions != [] && Enabled(s, actions[0]) && Apply(s, actions[0]) == next
    requires Takes(next, actions[1..], end)
    ensures Takes(s, actions, end)
  {
    hide Enabled, Apply;
  }
}
