/** Edges whose identifiers may hold slashes: exactly when their keys keep them apart. */
module EdgeClashes {
  import opened Keys
  import opened Storage
  import opened AtomicMemory
  import opened GraphIndex

  datatype Edge = Edge(ns: string, fromId: string, edgeType: string, toId: string)

  function KeyOf(e: Edge): Key {
    EdgeKey(e.ns, e.fromId, e.edgeType, e.toId)
  }

  function IndexOf(e: Edge): Key {
    IndexKey(e.ns, e.fromId, e.edgeType, e.toId)
  }

  predicate Agrees(d: Store<Value>, e: Edge) {
    EdgeAgrees(d, e.ns, e.fromId, e.edgeType, e.toId)
  }

  predicate IsEdgeOp(op: MemoryOp) {
    op.CreateEdge? || op.DeleteEdge?
  }

  function EdgeOf(op: MemoryOp): Edge
    requires IsEdgeOp(op)
  {
    Edge(op.ns, op.fromId, op.edgeType, op.toId)
  }

  /** With slashes two different edges can share an edge key ... */
  lemma SlashesShareEdgeKey(ns: string, a: string, b: string, c: string, d: string)
    ensures KeyOf(Edge(ns, a + "/" + b, c, d)) == KeyOf(Edge(ns, a, b + "/" + c, d))
  {
    assert a + "/" + b + "/" + (c + "/" + d) == a + "/" + (b + "/" + c + "/" + d);
  }

  /** ... or an index key. */
  lemma SlashesShareIndexKey(ns: string, t: string, a: string, b: string, c: string)
    ensures IndexOf(Edge(ns, c, t, a + "/" + b)) == IndexOf(Edge(ns, b + "/" + c, t, a))
  {
    assert a + "/" + b + "/" + c == a + "/" + (b + "/" + c);
  }

  /** With slashes in a namespace the edge key of one edge can be the index key of another. */
  lemma SlashesMixKinds(ns: string, f: string, t: string, to: string)
    ensures KeyOf(Edge(ns, "index", t, to + "/" + f)) == IndexOf(Edge(ns + "/" + "edges", f, t, to))
  {
    assert ns + "/" + "edges" + "/" + ("index" + "/" + (t + "/" + (to + "/" + f)))
        == ns + "/" + ("edges" + "/" + ("index" + "/" + (t + "/" + (to + "/" + f))));
  }

  lemma OwnKeysDiffer(e: Edge)
    ensures KeyOf(e) != IndexOf(e)
  {
    var n := |GRAPH_PREFIX + (e.ns + "/")|;
    assert KeyOf(e)[n] == 'e' && IndexOf(e)[n] == 'i';
  }

  /** What an operation on an edge leaves at its two keys, and that it changes no other key. */
  lemma EdgeOpEffect(d: Store<Value>, op: MemoryOp, m: string, v: nat, k: Key)
    requires IsEdgeOp(op)
    ensures var d', x := Run(d, OpSteps(op, m, v)), EdgeOf(op);
      && (k in d' <==> if k == KeyOf(x) || k == IndexOf(x) then op.CreateEdge? else k in d)
      && (k in d' && k == IndexOf(x) ==> d'[k] == Raw(x.fromId))
      && (k in d' && k == KeyOf(x) ==> d'[k].EdgeRecord?)
      && (k in d' && k != KeyOf(x) && k != IndexOf(x) ==> d'[k] == d[k])
  {
    var steps := OpSteps(op, m, v);
    OwnKeysDiffer(EdgeOf(op));
    assert steps == [steps[0], steps[1]];
    RunTwo(d, steps[0], steps[1]);
  }

  /** The key is one of the two keys of the edge. */
  predicate IsKeyOf(k: Key, x: Edge) {
    k == KeyOf(x) || k == IndexOf(x)
  }

  /** After an edge is created and another one deleted, the first agrees with its index entry exactly
      when the deletion takes both of its keys or neither. */
  lemma CreateThenDeleteIff(d: Store<Value>, create: MemoryOp, delete: MemoryOp, m: string, v: nat)
    requires create.CreateEdge? && delete.DeleteEdge?
    ensures var c, x := EdgeOf(create), EdgeOf(delete);
      Agrees(Run(Run(d, OpSteps(create, m, v)), OpSteps(delete, m, v)), c)
      <==> (IsKeyOf(KeyOf(c), x) <==> IsKeyOf(IndexOf(c), x))
  {
    var c, d1 := EdgeOf(create), Run(d, OpSteps(create, m, v));
    EdgeOpEffect(d, create, m, v, KeyOf(c));
    EdgeOpEffect(d, create, m, v, IndexOf(c));
    EdgeOpEffect(d1, delete, m, v, KeyOf(c));
    EdgeOpEffect(d1, delete, m, v, IndexOf(c));
  }

  /** After two edges are created, the first agrees exactly when the second has not put its own edge
      record, or the name of another source, under the index key of the first. */
  lemma CreateThenCreateIff(d: Store<Value>, first: MemoryOp, second: MemoryOp, m: string, v: nat)
    requires first.CreateEdge? && second.CreateEdge?
    ensures var c, x := EdgeOf(first), EdgeOf(second);
      Agrees(Run(Run(d, OpSteps(first, m, v)), OpSteps(second, m, v)), c)
      <==> IndexOf(c) != KeyOf(x) && (IndexOf(c) == IndexOf(x) ==> c.fromId == x.fromId)
  {
    var c, d1 := EdgeOf(first), Run(d, OpSteps(first, m, v));
    OwnKeysDiffer(EdgeOf(second));
    EdgeOpEffect(d, first, m, v, KeyOf(c));
    EdgeOpEffect(d, first, m, v, IndexOf(c));
    EdgeOpEffect(d1, second, m, v, KeyOf(c));
    EdgeOpEffect(d1, second, m, v, IndexOf(c));
  }

  // ---- a whole set of edges, under every sequence of operations ----

  /** No edge key is the other's index key, and the edges share both keys, with one source, or neither. */
  predicate Compatible(c: Edge, x: Edge) {
    && KeyOf(c) != IndexOf(x) && KeyOf(x) != IndexOf(c)
    && (KeyOf(c) == KeyOf(x) <==> IndexOf(c) == IndexOf(x))
    && (IndexOf(c) == IndexOf(x) ==> c.fromId == x.fromId)
  }

  predicate AllCompatible(es: set<Edge>) {
    forall c, x :: c in es && x in es ==> Compatible(c, x)
  }

  predicate AllAgree(d: Store<Value>, es: set<Edge>) {
    forall e :: e in es ==> Agrees(d, e)
  }

  predicate OpsOver(ops: seq<MemoryOp>, es: set<Edge>) {
    forall i :: 0 <= i < |ops| ==> IsEdgeOp(ops[i]) && EdgeOf(ops[i]) in es
  }

  lemma CompatibleOpKeeps(d: Store<Value>, op: MemoryOp, m: string, v: nat, e: Edge)
    requires IsEdgeOp(op) && Compatible(e, EdgeOf(op)) && Agrees(d, e)
    ensures Agrees(Run(d, OpSteps(op, m, v)), e)
  {
    EdgeOpEffect(d, op, m, v, KeyOf(e));
    EdgeOpEffect(d, op, m, v, IndexOf(e));
  }

  lemma {:induction false} CompatibleOpsKeep(d: Store<Value>, ops: seq<MemoryOp>, m: string, v: nat, es: set<Edge>)
    requires AllCompatible(es) && AllAgree(d, es) && OpsOver(ops, es)
    ensures AllAgree(Run(d, OpsSteps(ops, m, v)), es)
  {
    if ops != [] {
      var init, last := ops[..|ops| - 1], ops[|ops| - 1];
      CompatibleOpsKeep(d, init, m, v, es);
      RunConcat(d, OpsSteps(init, m, v), OpSteps(last, m, v));
      forall e | e in es ensures Agrees(Run(d, OpsSteps(ops, m, v)), e) {
        CompatibleOpKeeps(Run(d, OpsSteps(init, m, v)), last, m, v, e);
      }
    }
  }

  lemma TwoOps(d: Store<Value>, a: MemoryOp, b: MemoryOp, m: string, v: nat)
    ensures Run(d, OpsSteps([a, b], m, v)) == Run(Run(d, OpSteps(a, m, v)), OpSteps(b, m, v))
  {
    assert [a, b][..1] == [a] && [a][..0] == [];
    assert OpsSteps([], m, v) == [] && OpsSteps([a], m, v) == OpSteps(a, m, v);
    RunConcat(d, OpSteps(a, m, v), OpSteps(b, m, v));
  }

  /** Two incompatible edges: two operations tear one of them from its index entry, from any data. */
  lemma IncompatibleBreak(d: Store<Value>, c: Edge, x: Edge, m: string, v: nat) returns (ops: seq<MemoryOp>)
    requires !Compatible(c, x)
    ensures OpsOver(ops, {c, x}) && !AllAgree(Run(d, OpsSteps(ops, m, v)), {c, x})
  {
    if KeyOf(c) == IndexOf(x) {
      ops := CreateBoth(d, x, c, m, v);
    } else if KeyOf(x) == IndexOf(c) || (IndexOf(c) == IndexOf(x) && c.fromId != x.fromId) {
      ops := CreateBoth(d, c, x, m, v);
    } else {
      ops := CreateAndDelete(d, c, x, m, v);
    }
    assert c in {c, x} && x in {c, x};
  }

  lemma CreateBoth(d: Store<Value>, c: Edge, x: Edge, m: string, v: nat) returns (ops: seq<MemoryOp>)
    requires KeyOf(x) == IndexOf(c) || (IndexOf(c) == IndexOf(x) && c.fromId != x.fromId)
    ensures OpsOver(ops, {c, x}) && !Agrees(Run(d, OpsSteps(ops, m, v)), c)
  {
    var first := CreateEdge(c.ns, c.fromId, c.edgeType, c.toId, map[]);
    var second := CreateEdge(x.ns, x.fromId, x.edgeType, x.toId, map[]);
    assert EdgeOf(first) == c && EdgeOf(second) == x;
    CreateThenCreateIff(d, first, second, m, v);
    TwoOps(d, first, second, m, v);
    ops := [first, second];
  }

  lemma CreateAndDelete(d: Store<Value>, c: Edge, x: Edge, m: string, v: nat) returns (ops: seq<MemoryOp>)
    requires !(IsKeyOf(KeyOf(c), x) <==> IsKeyOf(IndexOf(c), x))
    ensures OpsOver(ops, {c, x}) && !Agrees(Run(d, OpsSteps(ops, m, v)), c)
  {
    var create := CreateEdge(c.ns, c.fromId, c.edgeType, c.toId, map[]);
    var delete := DeleteEdge(x.ns, x.fromId, x.edgeType, x.toId);
    assert EdgeOf(create) == c && EdgeOf(delete) == x;
    CreateThenDeleteIff(d, create, delete, m, v);
    TwoOps(d, create, delete, m, v);
    ops := [create, delete];
  }

  ghost predicate EveryRunAgrees(d: Store<Value>, es: set<Edge>, m: string, v: nat) {
    forall ops: seq<MemoryOp> :: OpsOver(ops, es) ==> AllAgree(Run(d, OpsSteps(ops, m, v)), es)
  }

  /** A set of edges stays in step with its index under every sequence of creations and deletions
      exactly when its edges are compatible, two by two. */
  lemma EdgesStayInStepIff(d: Store<Value>, es: set<Edge>, m: string, v: nat)
    requires AllAgree(d, es)
    ensures EveryRunAgrees(d, es, m, v) <==> AllCompatible(es)
  {
    if AllCompatible(es) {
      forall ops: seq<MemoryOp> | OpsOver(ops, es) ensures AllAgree(Run(d, OpsSteps(ops, m, v)), es) {
        CompatibleOpsKeep(d, ops, m, v, es);
      }
    } else {
      var c, x :| c in es && x in es && !Compatible(c, x);
      var ops := IncompatibleBreak(d, c, x, m, v);
      assert OpsOver(ops, es);
      assert {c, x} <= es;
    }
  }

  lemma SlashFreeIsCompatible(c: Edge, x: Edge)
    requires Components(c.ns, c.fromId, c.edgeType, c.toId) && Components(x.ns, x.fromId, x.edgeType, x.toId)
    ensures Compatible(c, x)
  {
    EdgeIsNotIndex(c.ns, c.fromId, c.edgeType, c.toId, x.ns, x.fromId, x.edgeType, x.toId);
    EdgeIsNotIndex(x.ns, x.fromId, x.edgeType, x.toId, c.ns, c.fromId, c.edgeType, c.toId);
    if KeyOf(c) == KeyOf(x) {
      EdgeKeyIsInjective(c.ns, c.fromId, c.edgeType, c.toId, x.ns, x.fromId, x.edgeType, x.toId);
    }
    if IndexOf(c) == IndexOf(x) {
      IndexKeyIsInjective(c.ns, c.fromId, c.edgeType, c.toId, x.ns, x.fromId, x.edgeType, x.toId);
    }
  }

  /** Edges whose identifiers have no slash stay in step under every sequence of operations. */
  lemma SlashFreeEdgesStay(d: Store<Value>, es: set<Edge>, m: string, v: nat)
    requires AllAgree(d, es) && forall e :: e in es ==> Components(e.ns, e.fromId, e.edgeType, e.toId)
    ensures EveryRunAgrees(d, es, m, v)
  {
    forall c, x | c in es && x in es ensures Compatible(c, x) { SlashFreeIsCompatible(c, x); }
    EdgesStayInStepIff(d, es, m, v);
  }
}
