/** Passes over a scanned list that act on the store entry by entry, each action looking at the
    store that the ones before it left. */
module Sweeps {
  import opened Keys
  import opened Storage

  /** The steps of a pass; `reached` is what the environment lets each action get to. */
  function Sweep<V>(act: (Store<V>, V, nat) -> seq<Step<V>>, st: Store<V>,
                    es: seq<(Key, V)>, reached: seq<nat>): seq<Step<V>>
    requires |reached| == |es|
    decreases |es|
  {
    if es == [] then []
    else
      var n := |es| - 1;
      var before := Sweep(act, st, es[..n], reached[..n]);
      before + act(Run(st, before), es[n].1, reached[n])
  }

  lemma SweepSnoc<V>(act: (Store<V>, V, nat) -> seq<Step<V>>, st: Store<V>,
                     es: seq<(Key, V)>, e: (Key, V), reached: seq<nat>, n: nat)
    requires |reached| == |es|
    ensures var before := Sweep(act, st, es, reached);
      Sweep(act, st, es + [e], reached + [n]) == before + act(Run(st, before), e.1, n)
  {
    assert (es + [e])[..|es|] == es && (reached + [n])[..|es|] == reached;
  }

  /** The steps for the first entries are a prefix of the steps. */
  lemma {:induction false} SweepPrefix<V>(act: (Store<V>, V, nat) -> seq<Step<V>>, st: Store<V>,
                                          es: seq<(Key, V)>, reached: seq<nat>, i: nat)
    requires |reached| == |es| && i <= |es|
    ensures Sweep(act, st, es[..i], reached[..i]) <= Sweep(act, st, es, reached)
    decreases |es| - i
  {
    if i == |es| {
      assert es[..i] == es && reached[..i] == reached;
    } else {
      SweepSnoc(act, st, es[..i], es[i], reached[..i], reached[i]);
      assert es[..i + 1] == es[..i] + [es[i]] && reached[..i + 1] == reached[..i] + [reached[i]];
      SweepPrefix(act, st, es, reached, i + 1);
    }
  }

  /** What is done of one action, whole or cut, is done of the whole pass. */
  lemma SweepPart<V>(act: (Store<V>, V, nat) -> seq<Step<V>>, st: Store<V>, es: seq<(Key, V)>, e: (Key, V),
                     reached: seq<nat>, n: nat, part: seq<Step<V>>)
    requires |reached| == |es| && part <= act(Run(st, Sweep(act, st, es, reached)), e.1, n)
    ensures var before, steps := Sweep(act, st, es, reached), Sweep(act, st, es + [e], reached + [n]);
      && before + part <= steps
      && (part == act(Run(st, before), e.1, n) ==> before + part == steps)
  {
    SweepSnoc(act, st, es, e, reached, n);
  }

  /** An entry on which the action never does anything. */
  ghost predicate Idle<V(!new)>(act: (Store<V>, V, nat) -> seq<Step<V>>, v: V, n: nat) {
    forall st: Store<V> :: act(st, v, n) == []
  }

  lemma {:induction false} SweepIdle<V(!new)>(act: (Store<V>, V, nat) -> seq<Step<V>>, st: Store<V>,
                                              es: seq<(Key, V)>, reached: seq<nat>)
    requires |reached| == |es| && forall i :: 0 <= i < |es| ==> Idle(act, es[i].1, reached[i])
    ensures Sweep(act, st, es, reached) == []
    decreases |es|
  {
    if es != [] {
      var n := |es| - 1;
      SweepIdle(act, st, es[..n], reached[..n]);
      assert Idle(act, es[n].1, reached[n]);
    }
  }

  /** With one entry that is not idle, the pass is the action on that entry. */
  lemma {:induction false} SweepOne<V(!new)>(act: (Store<V>, V, nat) -> seq<Step<V>>, st: Store<V>,
                                             es: seq<(Key, V)>, reached: seq<nat>, j: nat)
    requires |reached| == |es| && j < |es|
    requires forall i :: 0 <= i < |es| && i != j ==> Idle(act, es[i].1, reached[i])
    ensures Sweep(act, st, es, reached) == act(st, es[j].1, reached[j])
    decreases |es|
  {
    var n := |es| - 1;
    if j == n {
      SweepIdle(act, st, es[..n], reached[..n]);
    } else {
      SweepOne(act, st, es[..n], reached[..n], j);
      assert Idle(act, es[n].1, reached[n]);
    }
  }
}
