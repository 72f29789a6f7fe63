/** A deletion cut anywhere: every node and every event log loses its oldest records first. */
module CheckpointDeletion {
  import opened Keys
  import opened Storage
  import opened Streams
  import opened Checkpoints
  import opened CheckpointKeys
  import opened CheckpointRuns

  /** The keys under a prefix that the steps touch, in order. */
  function Under(p: Key, steps: seq<Step<Record>>): seq<Key> {
    if steps == [] then []
    else
      var n := |steps| - 1;
      Under(p, steps[..n]) + if p <= steps[n].key then [steps[n].key] else []
  }

  lemma {:induction false} UnderMembers(p: Key, steps: seq<Step<Record>>)
    ensures forall k :: k in Under(p, steps) <==> p <= k && k in KeysOf(steps)
  {
    if steps != [] {
      var n := |steps| - 1;
      UnderMembers(p, steps[..n]);
      KeysOfConcat(steps[..n], [steps[n]]);
      assert steps == steps[..n] + [steps[n]];
      assert [steps[n]][0].key in KeysOf([steps[n]]);
    }
  }

  lemma {:induction false} UnderConcat(p: Key, a: seq<Step<Record>>, b: seq<Step<Record>>)
    ensures Under(p, a + b) == Under(p, a) + Under(p, b)
    decreases |b|
  {
    if b == [] {
      assert a + b == a;
    } else {
      var n := |b| - 1;
      assert (a + b)[..|a + b| - 1] == a + b[..n];
      UnderConcat(p, a, b[..n]);
    }
  }

  lemma {:induction false} UnderNone(p: Key, steps: seq<Step<Record>>)
    requires forall k :: k in KeysOf(steps) ==> !(p <= k)
    ensures Under(p, steps) == []
  {
    if steps != [] {
      var n := |steps| - 1;
      KeysOfConcat(steps[..n], [steps[n]]);
      assert steps == steps[..n] + [steps[n]];
      assert steps[n].key in KeysOf(steps);
      UnderNone(p, steps[..n]);
    }
  }

  lemma {:induction false} UnderAscends(p: Key, ks: seq<Key>)
    requires StrictlyAscending(ks)
    ensures StrictlyAscending(Under(p, Deletes(ks)))
    ensures forall k :: k in Under(p, Deletes(ks)) ==> k in ks
  {
    if ks != [] {
      var n := |ks| - 1;
      UnderAscends(p, ks[..n]);
      assert Deletes<Record>(ks)[..n] == Deletes(ks[..n]);
      var us := Under(p, Deletes(ks[..n]));
      forall i | 0 <= i < |us| ensures Less(us[i], ks[n]) {
        assert us[i] in ks[..n];
      }
    }
  }

  /** The part of a cleared prefix that is under a longer one is what a scan of that one lists. */
  lemma UnderCleared(st: Store<Record>, prefix: Key, p: Key)
    requires prefix <= p
    ensures Under(p, ClearSteps(st, prefix)) == ScanKeys(st, p)
  {
    UnderAscends(p, ScanKeys(st, prefix));
    UnderMembers(p, ClearSteps(st, prefix));
    ClearedKeys(st, prefix);
    AscendingIsUnique(Under(p, ClearSteps(st, prefix)), ScanKeys(st, p));
  }

  /** The prefix of a node of the run, or of its event log. */
  predicate InRun(run: RunId, p: Key) {
    NodesPrefix(run) <= p || EventsPrefix(run) <= p
  }

  lemma MetadataIsApart(run: RunId, p: Key)
    requires InRun(run, p)
    ensures Under(p, [Delete(RunKey(run))]) == []
  {
    KindsApart(run, p);
    UnderNone(p, [Delete(RunKey(run))]);
  }

  /** Clearing one prefix removes nothing under another. */
  lemma ClearedApart(st: Store<Record>, prefix: Key, p: Key)
    requires !(prefix <= p) && !(p <= prefix)
    ensures Under(p, ClearSteps(st, prefix)) == []
    ensures ScanKeys(Run(st, ClearSteps(st, prefix)), p) == ScanKeys(st, p)
  {
    var steps := ClearSteps(st, prefix);
    ClearedKeys(st, prefix);
    forall k | k in KeysOf(steps) ensures !(p <= k) { assert prefix <= k; }
    UnderNone(p, steps);
    RunDeletes(st, steps);
    AscendingIsUnique(ScanKeys(Run(st, steps), p), ScanKeys(st, p));
  }

  lemma UnderContent(st: Store<Record>, run: RunId, p: Key)
    requires InRun(run, p)
    ensures Under(p, ContentSteps(st, run)) == ScanKeys(st, p)
  {
    var cps := ClearSteps(st, NodesPrefix(run));
    var st1 := Run(st, cps);
    UnderConcat(p, cps, ClearSteps(st1, EventsPrefix(run)));
    KindsApart(run, p);
    KindsApart(run, NodesPrefix(run));
    KindsApart(run, EventsPrefix(run));
    if NodesPrefix(run) <= p {
      UnderCleared(st, NodesPrefix(run), p);
      ClearedApart(st1, EventsPrefix(run), p);
    } else {
      ClearedApart(st, NodesPrefix(run), p);
      UnderCleared(st1, EventsPrefix(run), p);
    }
  }

  /** Along a deletion, the keys under a prefix go in the order in which a scan lists them. */
  lemma UnderDeletion(st: Store<Record>, run: RunId, p: Key)
    requires HasRun(st, run) && InRun(run, p)
    ensures Under(p, DeleteSteps(st, run)) == ScanKeys(st, p)
  {
    UnderContent(st, run, p);
    MetadataIsApart(run, p);
    UnderConcat(p, ContentSteps(st, run), [Delete(RunKey(run))]);
  }

  lemma UnderPrefix(p: Key, steps: seq<Step<Record>>, done: nat)
    requires done <= |steps|
    ensures Under(p, steps[..done]) <= Under(p, steps)
  {
    UnderConcat(p, steps[..done], steps[done..]);
    assert steps == steps[..done] + steps[done..];
  }

  /** How many records under a prefix the first steps of a deletion remove. */
  function Removed(st: Store<Record>, run: RunId, done: nat, p: Key): nat
    requires done <= |DeleteSteps(st, run)|
  {
    |Under(p, DeleteSteps(st, run)[..done])|
  }

  /** Those removed are the first ones that a scan lists. */
  lemma RemovedAreFirst(st: Store<Record>, run: RunId, done: nat, p: Key)
    requires HasRun(st, run) && InRun(run, p) && done <= |DeleteSteps(st, run)|
    ensures Removed(st, run, done, p) <= |ScanKeys(st, p)|
    ensures Under(p, DeleteSteps(st, run)[..done]) == ScanKeys(st, p)[..Removed(st, run, done, p)]
  {
    assert UnderDeletionIs(st, run, p) by { UnderDeletion(st, run, p); }
    UnderPrefix(p, DeleteSteps(st, run), done);
    PrefixIsTake(Under(p, DeleteSteps(st, run)[..done]), ScanKeys(st, p));
  }

  predicate UnderDeletionIs(st: Store<Record>, run: RunId, p: Key) {
    Under(p, DeleteSteps(st, run)) == ScanKeys(st, p)
  }

  lemma PrefixIsTake(a: seq<Key>, b: seq<Key>)
    requires a <= b
    ensures |a| <= |b| && a == b[..|a|]
  {
  }

  lemma FirstKeys(keys: seq<Key>, d: nat, i: nat)
    requires d <= |keys| && i < |keys| && forall a, b :: 0 <= a < b < |keys| ==> keys[a] != keys[b]
    ensures keys[i] in keys[..d] <==> i < d
  {
    assert i < d ==> keys[..d][i] == keys[i];
  }

  /** A deletion cut anywhere leaves each stream without its oldest records, and with the rest. */
  lemma CutDeletionKeepsNewest(st: Store<Record>, run: RunId, done: nat, p: Key, h: seq<(nat, Record)>)
    requires HasRun(st, run) && InRun(run, p) && done <= |DeleteSteps(st, run)| && IsStream(st, p, h)
    ensures Removed(st, run, done, p) <= |h|
    ensures IsStream(Run(st, DeleteSteps(st, run)[..done]), p, h[Removed(st, run, done, p)..])
  {
    var cut, d := DeleteSteps(st, run)[..done], Removed(st, run, done, p);
    RemovedAreFirst(st, run, done, p);
    ScanListsStream(st, p, h);
    UnderMembers(p, cut);
    DeletedKeys(st, run, done);
    RunDeletes(st, cut);
    var keys := ScanKeys(st, p);
    AscendingIsDistinct(keys);
    forall i | 0 <= i < |h| ensures Slot(p, h[i].0) in KeysOf(cut) <==> i < d {
      assert ScanResult(st, p)[i] == (keys[i], st[keys[i]]);
      FirstKeys(keys, d, i);
    }
    StreamSuffix(st, KeysOf(cut), p, h, d);
  }

  /** A deletion cut anywhere: no event is gone before every checkpoint of the run is, and the metadata
      goes after both. */
  lemma DeletionOrder(st: Store<Record>, run: RunId, done: nat, k: Key, q: Key)
    requires HasRun(st, run) && done <= |DeleteSteps(st, run)|
    requires k in st && NodesPrefix(run) <= k && q in st && EventsPrefix(run) <= q
    ensures var st' := Run(st, DeleteSteps(st, run)[..done]);
      && (q !in st' ==> k !in st')
      && (RunKey(run) !in st' ==> k !in st' && q !in st')
  {
    DeletedKeys(st, run, done);
    RunDeletes(st, DeleteSteps(st, run)[..done]);
    CheckpointsFirst(st, run, done, k, q);
  }

  lemma CheckpointsFirst(st: Store<Record>, run: RunId, done: nat, k: Key, q: Key)
    requires HasRun(st, run) && done <= |DeleteSteps(st, run)|
    requires k in st && NodesPrefix(run) <= k && q in st && EventsPrefix(run) <= q
    ensures q in KeysOf(DeleteSteps(st, run)[..done]) ==> k in KeysOf(DeleteSteps(st, run)[..done])
  {
    var cps, last := ClearSteps(st, NodesPrefix(run)), [Delete(RunKey(run))];
    var evs := ClearSteps(Run(st, cps), EventsPrefix(run));
    assert DeleteSteps(st, run) == cps + (evs + last);
    KeysOfCut(cps, evs + last, done);
    ClearedKeys(st, NodesPrefix(run));
    KindsApart(run, q);
  }

  lemma CompleteDeletionEmpties(st: Store<Record>, run: RunId, p: Key, h: seq<(nat, Record)>)
    requires HasRun(st, run) && InRun(run, p) && IsStream(st, p, h)
    ensures Removed(st, run, |DeleteSteps(st, run)|, p) == |h|
  {
    var steps := DeleteSteps(st, run);
    assert steps[..|steps|] == steps;
    UnderDeletion(st, run, p);
    ScanListsStream(st, p, h);
  }
}
