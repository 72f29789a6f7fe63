/** Step lists that overlap: exactly when making one late, or only in part, goes unnoticed. */
module Overlaps {
  import opened Keys
  import opened Storage

  lemma EqualIffSame<V>(st: Store<V>, st': Store<V>)
    ensures st == st' <==> forall k :: SameAt(st, st', k)
  {
    if forall k :: SameAt(st, st', k) {
      assert st.Keys == st'.Keys by {
        forall k ensures k in st.Keys <==> k in st'.Keys { assert SameAt(st, st', k); }
      }
      forall k | k in st ensures st[k] == st'[k] { assert SameAt(st, st', k); }
    }
  }

  /** After a run a key is as its last step says, or as it was. */
  lemma RunAt<V>(st: Store<V>, steps: seq<Step<V>>, k: Key)
    ensures Touches(steps, k) ==> Holds(Run(st, steps), LastOn(steps, k))
    ensures !Touches(steps, k) ==> SameAt(Run(st, steps), st, k)
  {
    if Touches(steps, k) { LastStepDecides(st, steps, k); } else { RunLeavesOthers(st, steps, k); }
  }

  /** Steps on one key leave it alike exactly when they are equal. */
  lemma SameStepIff<V>(st: Store<V>, st': Store<V>, s: Step<V>, s': Step<V>)
    requires s.key == s'.key && Holds(st, s) && Holds(st', s')
    ensures SameAt(st, st', s.key) <==> s == s'
  {
  }

  lemma HoldsIffSame<V>(st: Store<V>, st': Store<V>, s: Step<V>)
    requires Holds(st', s)
    ensures Holds(st, s) <==> SameAt(st, st', s.key)
  {
  }

  lemma PrefixTouches<V>(w: seq<Step<V>>, j: nat, k: Key)
    requires j <= |w| && !Touches(w, k)
    ensures !Touches(w[..j], k)
  {
    assert forall i :: 0 <= i < j ==> w[..j][i] == w[i];
  }

  /** A list made in part and then another list leave what both in full would leave exactly when
      every key that only the first list touches already is as its last step leaves it. */
  lemma PartThenIff<V>(d: Store<V>, w: seq<Step<V>>, j: nat, n: seq<Step<V>>)
    requires j <= |w|
    ensures Run(Run(d, w[..j]), n) == Run(Run(d, w), n)
      <==> forall k :: Touches(w, k) && !Touches(n, k) ==> Holds(Run(d, w[..j]), LastOn(w, k))
  {
    var part, full := Run(d, w[..j]), Run(d, w);
    EqualIffSame(Run(part, n), Run(full, n));
    forall k ensures SameAt(Run(part, n), Run(full, n), k)
      <==> (Touches(w, k) && !Touches(n, k) ==> Holds(part, LastOn(w, k)))
    {
      PartAt(d, w, j, n, k);
    }
  }

  lemma PartAt<V>(d: Store<V>, w: seq<Step<V>>, j: nat, n: seq<Step<V>>, k: Key)
    requires j <= |w|
    ensures SameAt(Run(Run(d, w[..j]), n), Run(Run(d, w), n), k)
      <==> (Touches(w, k) && !Touches(n, k) ==> Holds(Run(d, w[..j]), LastOn(w, k)))
  {
    var part, full := Run(d, w[..j]), Run(d, w);
    RunAt(part, n, k);
    RunAt(full, n, k);
    RunAt(d, w, k);
    if Touches(w, k) {
      HoldsIffSame(part, full, LastOn(w, k));
    } else {
      PrefixTouches(w, j, k);
      RunAt(d, w[..j], k);
    }
  }

  /** A list made in part, then another list, and then the first one again in full, leave what the two
      in their own order would leave exactly when they agree on the last step of every shared key. */
  lemma MadeLateIff<V>(d: Store<V>, w: seq<Step<V>>, j: nat, n: seq<Step<V>>)
    requires j <= |w|
    ensures Run(Run(Run(d, w[..j]), n), w) == Run(Run(d, w), n)
      <==> forall k :: Touches(w, k) && Touches(n, k) ==> LastOn(w, k) == LastOn(n, k)
  {
    var late, due := Run(Run(Run(d, w[..j]), n), w), Run(Run(d, w), n);
    EqualIffSame(late, due);
    forall k ensures SameAt(late, due, k) <==> (Touches(w, k) && Touches(n, k) ==> LastOn(w, k) == LastOn(n, k)) {
      LateAt(d, w, j, n, k);
    }
  }

  lemma LateAt<V>(d: Store<V>, w: seq<Step<V>>, j: nat, n: seq<Step<V>>, k: Key)
    requires j <= |w|
    ensures SameAt(Run(Run(Run(d, w[..j]), n), w), Run(Run(d, w), n), k)
      <==> (Touches(w, k) && Touches(n, k) ==> LastOn(w, k) == LastOn(n, k))
  {
    var part, full := Run(d, w[..j]), Run(d, w);
    var late, due := Run(Run(part, n), w), Run(full, n);
    RunAt(Run(part, n), w, k);
    RunAt(full, n, k);
    RunAt(d, w, k);
    if Touches(w, k) {
      if Touches(n, k) { SameStepIff(late, due, LastOn(w, k), LastOn(n, k)); }
    } else {
      PrefixTouches(w, j, k);
      RunAt(d, w[..j], k);
      RunAt(part, n, k);
    }
  }

  /** Of a stopped list of writes j were made before the later ones; a recovery makes all of them
      again after those, unless the record is lost. */
  predicate StoppedOutcome<V(==)>(d: Store<V>, made: Store<V>, recovered: Store<V>, w: seq<Step<V>>, j: int,
                                  later: seq<Step<V>>, lost: bool)
  {
    && 0 <= j <= |w| && made == Run(Run(d, w[..j]), later)
    && recovered == if lost then made else Run(made, w)
  }

  /** If the record is lost, every key of the stopped writes that the later ones leave alone is already
      final; otherwise the later writes end every key they share with them as they do. */
  ghost predicate FineAnyway<V>(d: Store<V>, w: seq<Step<V>>, j: nat, later: seq<Step<V>>, lost: bool)
    requires j <= |w|
  {
    if lost then forall k :: Touches(w, k) && !Touches(later, k) ==> Holds(Run(d, w[..j]), LastOn(w, k))
    else forall k :: Touches(w, k) && Touches(later, k) ==> LastOn(w, k) == LastOn(later, k)
  }

  /** Exactly when such an outcome is that of making the first list in full and then the later ones. */
  lemma LostOrLateIff<V>(d: Store<V>, made: Store<V>, recovered: Store<V>, w: seq<Step<V>>, j: nat,
                         later: seq<Step<V>>, lost: bool)
    requires StoppedOutcome(d, made, recovered, w, j, later, lost)
    ensures (recovered == Run(Run(d, w), later)) == FineAnyway(d, w, j, later, lost)
  {
    PartThenIff(d, w, j, later);
    MadeLateIff(d, w, j, later);
  }

  lemma RunThree<V>(d: Store<V>, a: seq<Step<V>>, b: seq<Step<V>>, c: seq<Step<V>>)
    ensures Run(d, a + b + c) == Run(Run(Run(d, a), b), c) && Run(d, a + b) == Run(Run(d, a), b)
  {
    RunConcat(d, a, b);
    RunConcat(d, a + b, c);
  }

  /** The two lists leave a key alike: by their last steps on it, or by what it held where only one
      list touches it. */
  predicate AlikeAt<V(==)>(d: Store<V>, a: seq<Step<V>>, b: seq<Step<V>>, k: Key) {
    && (Touches(a, k) && Touches(b, k) ==> LastOn(a, k) == LastOn(b, k))
    && (Touches(a, k) && !Touches(b, k) ==> Holds(d, LastOn(a, k)))
    && (!Touches(a, k) && Touches(b, k) ==> Holds(d, LastOn(b, k)))
  }

  lemma AlikeAtIff<V>(d: Store<V>, a: seq<Step<V>>, b: seq<Step<V>>, k: Key)
    ensures SameAt(Run(d, a), Run(d, b), k) <==> AlikeAt(d, a, b, k)
  {
    RunAt(d, a, k);
    RunAt(d, b, k);
    if Touches(a, k) && Touches(b, k) {
      SameStepIff(Run(d, a), Run(d, b), LastOn(a, k), LastOn(b, k));
    } else if Touches(a, k) {
      HoldsIffSame(d, Run(d, a), LastOn(a, k));
    } else if Touches(b, k) {
      HoldsIffSame(d, Run(d, b), LastOn(b, k));
    }
  }

  /** Two step lists leave the same store exactly when they leave every key alike. */
  lemma SameOutcomeIff<V>(d: Store<V>, a: seq<Step<V>>, b: seq<Step<V>>)
    ensures Run(d, a) == Run(d, b) <==> forall k :: AlikeAt(d, a, b, k)
  {
    EqualIffSame(Run(d, a), Run(d, b));
    forall k ensures SameAt(Run(d, a), Run(d, b), k) <==> AlikeAt(d, a, b, k) { AlikeAtIff(d, a, b, k); }
  }
}
