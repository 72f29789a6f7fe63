/** The key-value connection under the client protocols: a map changed by atomic puts and
    deletes. A crash can fall between any two of these steps, and any call may fail. */
module Storage {
  import opened Keys

  datatype ClientError = StorageError | Serialization | NotFound | Overflow

  datatype Result<+T> = Ok(value: T) | Err(error: ClientError)

  datatype Option<+T> = None | Some(value: T)

  type Store<V> = map<Key, V>

  /** One atomic step of the store. */
  datatype Step<V> = Put(key: Key, value: V) | Delete(key: Key)

  function Apply<V>(st: Store<V>, s: Step<V>): Store<V> {
    match s
    case Put(k, v) => st[k := v]
    case Delete(k) => st - {k}
  }

  /** The store after a list of steps. A crash leaves Run(st, steps[..n]) for some n. */
  function Run<V>(st: Store<V>, steps: seq<Step<V>>): Store<V>
    decreases |steps|
  {
    if steps == [] then st else Run(Apply(st, steps[0]), steps[1..])
  }

  lemma {:induction false} RunConcat<V>(st: Store<V>, a: seq<Step<V>>, b: seq<Step<V>>)
    ensures Run(st, a + b) == Run(Run(st, a), b)
    decreases |a|
  {
    if a == [] {
      assert a + b == b;
    } else {
      assert (a + b)[1..] == a[1..] + b;
      RunConcat(Apply(st, a[0]), a[1..], b);
    }
  }

  lemma RunSnoc<V>(st: Store<V>, a: seq<Step<V>>, s: Step<V>)
    ensures Run(st, a + [s]) == Apply(Run(st, a), s)
  {
    RunConcat(st, a, [s]);
    assert Run(Run(st, a), [s]) == Run(Apply(Run(st, a), s), []);
  }

  /** The first n steps, or all of them when there are fewer. */
  function Cut<V>(steps: seq<Step<V>>, n: nat): seq<Step<V>> {
    if n <= |steps| then steps[..n] else steps
  }

  predicate Touches<V>(steps: seq<Step<V>>, k: Key) {
    exists i :: 0 <= i < |steps| && steps[i].key == k
  }

  lemma TouchesSplit<V>(steps: seq<Step<V>>, k: Key)
    requires steps != []
    ensures Touches(steps, k) <==> steps[0].key == k || Touches(steps[1..], k)
  {
    if Touches(steps, k) && steps[0].key != k {
      var i :| 0 <= i < |steps| && steps[i].key == k;
      assert steps[1..][i - 1].key == k;
    }
    if Touches(steps[1..], k) {
      var i :| 0 <= i < |steps[1..]| && steps[1..][i].key == k;
      assert steps[i + 1].key == k;
    }
  }

  predicate SameAt<V(==)>(st: Store<V>, st': Store<V>, k: Key) {
    (k in st <==> k in st') && (k in st ==> st[k] == st'[k])
  }

  lemma {:induction false} RunLeavesOthers<V>(st: Store<V>, steps: seq<Step<V>>, k: Key)
    requires !Touches(steps, k)
    ensures SameAt(Run(st, steps), st, k)
    decreases |steps|
  {
    if steps != [] {
      TouchesSplit(steps, k);
      RunLeavesOthers(Apply(st, steps[0]), steps[1..], k);
    }
  }

  /** A step list decides every key it touches: what those keys held before is forgotten. */
  lemma {:induction false} RunForgets<V>(st: Store<V>, st': Store<V>, steps: seq<Step<V>>)
    requires forall k :: !Touches(steps, k) ==> SameAt(st, st', k)
    ensures Run(st, steps) == Run(st', steps)
    decreases |steps|
  {
    if steps == [] {
      forall k ensures SameAt(st, st', k) { assert !Touches(steps, k); }
      assert st.Keys == st'.Keys by {
        forall k ensures k in st.Keys <==> k in st'.Keys { assert SameAt(st, st', k); }
      }
      forall k | k in st ensures st[k] == st'[k] { assert SameAt(st, st', k); }
    } else {
      var s := steps[0];
      forall k | !Touches(steps[1..], k) ensures SameAt(Apply(st, s), Apply(st', s), k) {
        if k != s.key {
          TouchesSplit(steps, k);
          assert SameAt(st, st', k);
        }
      }
      RunForgets(Apply(st, s), Apply(st', s), steps[1..]);
    }
  }

  /** The last step on a key. */
  function LastOn<V>(steps: seq<Step<V>>, k: Key): (s: Step<V>)
    requires Touches(steps, k)
    ensures s.key == k && s in steps
  {
    var n := |steps| - 1;
    if steps[n].key == k then steps[n]
    else
      assert Touches(steps[..n], k) by {
        var i :| 0 <= i < |steps| && steps[i].key == k;
        assert steps[..n][i].key == k;
      }
      LastOn(steps[..n], k)
  }

  /** The store already is as the step would leave its key. */
  predicate Holds<V(==)>(st: Store<V>, s: Step<V>) {
    match s
    case Put(k, v) => k in st && st[k] == v
    case Delete(k) => k !in st
  }

  lemma {:induction false} LastStepDecides<V>(st: Store<V>, steps: seq<Step<V>>, k: Key)
    requires Touches(steps, k)
    ensures Holds(Run(st, steps), LastOn(steps, k))
    decreases |steps|
  {
    var n := |steps| - 1;
    assert steps == steps[..n] + [steps[n]];
    RunSnoc(st, steps[..n], steps[n]);
    if steps[n].key != k {
      LastStepDecides(st, steps[..n], k);
    }
  }

  /** A step list changes nothing exactly when every key it touches already is as the last
      step on that key leaves it. */
  lemma RunChangesNothingIff<V>(st: Store<V>, steps: seq<Step<V>>)
    ensures Run(st, steps) == st <==> forall k :: Touches(steps, k) ==> Holds(st, LastOn(steps, k))
  {
    forall k | Touches(steps, k) ensures Holds(Run(st, steps), LastOn(steps, k)) {
      LastStepDecides(st, steps, k);
    }
    if forall k :: Touches(steps, k) ==> Holds(st, LastOn(steps, k)) {
      forall k ensures SameAt(Run(st, steps), st, k) {
        if !Touches(steps, k) { RunLeavesOthers(st, steps, k); }
      }
      assert Run(st, steps).Keys == st.Keys by {
        forall k ensures k in Run(st, steps).Keys <==> k in st.Keys { assert SameAt(Run(st, steps), st, k); }
      }
      forall k | k in st ensures Run(st, steps)[k] == st[k] { assert SameAt(Run(st, steps), st, k); }
    }
  }

  /** Replaying a whole step list over any cut of itself gives what one full run gives. */
  lemma ReplayOverPrefix<V>(st: Store<V>, steps: seq<Step<V>>, n: nat)
    requires n <= |steps|
    ensures Run(Run(st, steps[..n]), steps) == Run(st, steps)
  {
    forall k | !Touches(steps, k) ensures SameAt(Run(st, steps[..n]), st, k) {
      assert !Touches(steps[..n], k);
      RunLeavesOthers(st, steps[..n], k);
    }
    RunForgets(Run(st, steps[..n]), st, steps);
  }

  predicate AllDeletes<V>(steps: seq<Step<V>>) {
    forall i :: 0 <= i < |steps| ==> steps[i].Delete?
  }

  function Deletes<V>(keys: seq<Key>): (ds: seq<Step<V>>)
    ensures |ds| == |keys| && forall i :: 0 <= i < |ds| ==> ds[i] == Delete(keys[i])
  {
    seq(|keys|, i requires 0 <= i < |keys| => Delete(keys[i]))
  }

  function KeysOf<V>(steps: seq<Step<V>>): set<Key> {
    set i | 0 <= i < |steps| :: steps[i].key
  }

  lemma KeysOfConcat<V>(a: seq<Step<V>>, b: seq<Step<V>>)
    ensures KeysOf(a + b) == KeysOf(a) + KeysOf(b)
  {
    forall k ensures k in KeysOf(a + b) <==> k in KeysOf(a) || k in KeysOf(b) {
      if k in KeysOf(a) {
        var i :| 0 <= i < |a| && a[i].key == k;
        assert (a + b)[i].key == k;
      }
      if k in KeysOf(b) {
        var i :| 0 <= i < |b| && b[i].key == k;
        assert (a + b)[|a| + i].key == k;
      }
    }
  }

  lemma {:induction false} RunDeletes<V>(st: Store<V>, steps: seq<Step<V>>)
    requires AllDeletes(steps)
    ensures Run(st, steps) == st - KeysOf(steps)
    decreases |steps|
  {
    if steps != [] {
      RunDeletes(Apply(st, steps[0]), steps[1..]);
      forall k ensures k in KeysOf(steps) <==> k == steps[0].key || k in KeysOf(steps[1..]) {
        if k in KeysOf(steps) && k != steps[0].key {
          var i :| 0 <= i < |steps| && steps[i].key == k;
          assert steps[1..][i - 1].key == k;
        }
        if k in KeysOf(steps[1..]) {
          var i :| 0 <= i < |steps[1..]| && steps[1..][i].key == k;
          assert steps[i + 1].key == k;
        }
      }
    }
  }

  lemma KeysOfPart<V>(steps: seq<Step<V>>, done: nat)
    requires done <= |steps|
    ensures KeysOf(steps[..done]) <= KeysOf(steps)
    ensures done == |steps| ==> steps[..done] == steps
  {
    forall k | k in KeysOf(steps[..done]) ensures k in KeysOf(steps) {
      var i :| 0 <= i < done && steps[..done][i].key == k;
      assert steps[i].key == k;
    }
  }

  /** A cut of one list and then another has not begun the second, or has done the first. */
  lemma KeysOfCut<V>(a: seq<Step<V>>, b: seq<Step<V>>, done: nat)
    requires done <= |a + b|
    ensures KeysOf((a + b)[..done]) <= KeysOf(a) || KeysOf(a) <= KeysOf((a + b)[..done])
  {
    if done <= |a| {
      assert (a + b)[..done] == a[..done];
      KeysOfPart(a, done);
    } else {
      assert (a + b)[..done][..|a|] == a;
      KeysOfPart((a + b)[..done], |a|);
    }
  }

  /** The steps delete these keys, each of them once, and do nothing else. */
  predicate DeletesJust<V>(steps: seq<Step<V>>, ks: set<Key>) {
    AllDeletes(steps) && KeysOf(steps) == ks && |steps| == |ks|
  }

  lemma KeysOfOne<V>(one: seq<Step<V>>)
    requires |one| == 1
    ensures KeysOf(one) == {one[0].key}
  {
    assert one[0].key in KeysOf(one);
  }

  lemma DeleteOneMore<V>(steps: seq<Step<V>>, ks: set<Key>, k: Key, taken: bool)
    requires DeletesJust(steps, ks) && k !in ks
    ensures DeletesJust(steps + if taken then [Delete(k)] else [], ks + if taken then {k} else {})
  {
    if taken {
      DeleteAfter(steps, ks, [Delete(k)]);
    } else {
      assert steps + [] == steps && ks + {} == ks;
    }
  }

  lemma DeleteAfter<V>(steps: seq<Step<V>>, ks: set<Key>, one: seq<Step<V>>)
    requires DeletesJust(steps, ks) && |one| == 1 && one[0].Delete? && one[0].key !in ks
    ensures DeletesJust(steps + one, ks + {one[0].key})
  {
    KeysOfConcat(steps, one);
    KeysOfOne(one);
  }

  /** Done in full such steps leave the store without the keys; cut anywhere they leave the others alone. */
  lemma DeletesPart<V>(st: Store<V>, steps: seq<Step<V>>, ks: set<Key>, done: nat)
    requires DeletesJust(steps, ks) && done <= |steps|
    ensures done == |steps| ==> Run(st, steps[..done]) == st - ks && done == |ks|
    ensures forall k :: k !in ks ==> SameAt(Run(st, steps[..done]), st, k)
  {
    RunDeletes(st, steps[..done]);
    KeysOfPart(steps, done);
  }

  lemma RunOne<V>(st: Store<V>, s: Step<V>)
    ensures Run(st, [s]) == Apply(st, s)
  {
    RunSnoc(st, [], s);
    assert [] + [s] == [s];
  }

  lemma RunTwo<V>(st: Store<V>, s: Step<V>, s': Step<V>)
    ensures Run(st, [s, s']) == Apply(Apply(st, s), s')
  {
    RunOne(st, s);
    RunSnoc(st, [s], s');
    assert [s] + [s'] == [s, s'];
  }

  /** The keys a prefix scan lists, in the order it lists them. */
  function ScanKeys<V>(st: Store<V>, prefix: Key): (s: seq<Key>)
    ensures StrictlyAscending(s)
    ensures forall k :: k in s <==> k in st && prefix <= k
  {
    Ascending(set k | k in st && prefix <= k)
  }

  function Entries<V>(st: Store<V>, keys: seq<Key>): (es: seq<(Key, V)>)
    requires forall k :: k in keys ==> k in st
    ensures |es| == |keys|
    ensures forall i :: 0 <= i < |es| ==> keys[i] in st && es[i] == (keys[i], st[keys[i]])
  {
    if keys == [] then [] else Entries(st, keys[..|keys| - 1]) + [(keys[|keys| - 1], st[keys[|keys| - 1]])]
  }

  lemma EntriesInit<V>(st: Store<V>, keys: seq<Key>)
    requires keys != [] && forall k :: k in keys ==> k in st
    ensures forall k :: k in keys[..|keys| - 1] ==> k in st
    ensures Entries(st, keys)[..|keys| - 1] == Entries(st, keys[..|keys| - 1])
  {
    forall k | k in keys[..|keys| - 1] ensures k in st { assert k in keys; }
  }

  /** The entries under a prefix, in ascending key order. */
  function ScanResult<V>(st: Store<V>, prefix: Key): seq<(Key, V)> {
    Entries(st, ScanKeys(st, prefix))
  }

  /** A connection. Whether a call succeeds is up to the environment. */
  class Connection<V> {
    var store: Store<V>
    /** Every step performed so far. */
    ghost var trace: seq<Step<V>>
    /** How many requests storage has refused so far. */
    ghost var faults: nat

    constructor ()
      ensures store == map[] && trace == [] && faults == 0
    {
      store, trace, faults := map[], [], 0;
    }

    /** The steps performed since the trace was t and the store was st. */
    ghost predicate Performed(t: seq<Step<V>>, st: Store<V>, steps: seq<Step<V>>)
      reads this
    {
      trace == t + steps && store == Run(st, steps)
    }

    /** One put or delete: it happens as a whole or not at all. */
    method Do(step: Step<V>) returns (ok: bool)
      modifies this
      ensures ok ==> store == Apply(old(store), step) && trace == old(trace) + [step]
      ensures !ok ==> store == old(store) && trace == old(trace)
      ensures faults == old(faults) + if ok then 0 else 1
    {
      if * {
        ok, store, trace := true, Apply(store, step), trace + [step];
      } else {
        ok, faults := false, faults + 1;
      }
    }

    /** Puts and deletes in order up to the first one that fails; n is how many succeeded. */
    method DoAll(steps: seq<Step<V>>) returns (ok: bool, ghost n: nat)
      modifies this
      ensures n <= |steps| && (ok <==> n == |steps|)
      ensures Performed(old(trace), old(store), steps[..n])
      ensures faults == old(faults) + if ok then 0 else 1
    {
      var i := 0;
      while i < |steps|
        invariant 0 <= i <= |steps| && faults == old(faults)
        invariant Performed(old(trace), old(store), steps[..i])
      {
        ok := Do(steps[i]);
        if !ok { return false, i; }
        RunSnoc(old(store), steps[..i], steps[i]);
        assert steps[..i + 1] == steps[..i] + [steps[i]];
        i := i + 1;
      }
      ok, n := true, i;
    }

    method Get(key: Key) returns (r: Result<Option<V>>)
      modifies this`faults
      ensures r.Ok? ==> r.value == if key in store then Some(store[key]) else None
      ensures r.Err? ==> r.error == StorageError
      ensures faults == old(faults) + if r.Ok? then 0 else 1
    {
      if * {
        r := Ok(if key in store then Some(store[key]) else None);
      } else {
        r, faults := Err(StorageError), faults + 1;
      }
    }

    method Scan(prefix: Key) returns (r: Result<seq<(Key, V)>>)
      modifies this`faults
      ensures r.Ok? ==> r.value == ScanResult(store, prefix)
      ensures r.Err? ==> r.error == StorageError
      ensures faults == old(faults) + if r.Ok? then 0 else 1
    {
      if * {
        r := Ok(ScanResult(store, prefix));
      } else {
        r, faults := Err(StorageError), faults + 1;
      }
    }
  }

  lemma PerformedThen<V>(c: Connection<V>, t: seq<Step<V>>, st: Store<V>, a: seq<Step<V>>,
                         t': seq<Step<V>>, st': Store<V>, b: seq<Step<V>>)
    requires t' == t + a && st' == Run(st, a)
    requires c.Performed(t', st', b)
    ensures c.Performed(t, st, a + b)
  {
    RunConcat(st, a, b);
    assert t + (a + b) == t + a + b;
  }
}
