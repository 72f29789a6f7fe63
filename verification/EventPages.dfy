/** Selecting and paging through a numbered event list, as the reads of the store do. */
module EventPages {
  import opened Keys
  import opened Storage
  import opened Checkpoints

  /** The events numbered above `since`, in order. */
  function Newer(es: seq<WorkflowEvent>, since: nat): seq<WorkflowEvent> {
    if es == [] then [] else (if es[0].seqNo > since then [es[0]] else []) + Newer(es[1..], since)
  }

  function Take(es: seq<WorkflowEvent>, n: nat): seq<WorkflowEvent> {
    if |es| <= n then es else es[..n]
  }

  predicate Ascends(es: seq<WorkflowEvent>) {
    forall i, j :: 0 <= i < j < |es| ==> es[i].seqNo < es[j].seqNo
  }

  /** In a numbered list the newer events are a suffix; k is where it starts. */
  predicate SuffixAt(es: seq<WorkflowEvent>, since: nat, k: nat) {
    && k <= |es|
    && (forall i :: 0 <= i < k ==> es[i].seqNo <= since)
    && (forall i :: k <= i < |es| ==> es[i].seqNo > since)
  }

  lemma {:induction false} NewerIsSuffix(es: seq<WorkflowEvent>, since: nat) returns (k: nat)
    requires Ascends(es)
    ensures SuffixAt(es, since, k) && Newer(es, since) == es[k..]
  {
    if es == [] {
      k := 0;
    } else {
      var k' := NewerIsSuffix(es[1..], since);
      if es[0].seqNo > since {
        assert |es| > 1 ==> es[1..][0].seqNo > since;
        assert k' == 0;
        k := 0;
      } else {
        k := k' + 1;
        assert forall i :: 0 < i < |es| ==> es[i] == es[1..][i - 1];
      }
    }
  }

  /** How many of the entries are events above `since`. */
  function NewerIn(entries: seq<(Key, Record)>, since: nat): nat {
    if entries == [] then 0
    else (if entries[0].1.EventRecord? && entries[0].1.event.seqNo > since then 1 else 0) + NewerIn(entries[1..], since)
  }

  /** An entry that is no event and comes before the page is full. */
  predicate Blocks(entries: seq<(Key, Record)>, since: nat, room: nat, i: int) {
    0 <= i < |entries| && !entries[i].1.EventRecord? && NewerIn(entries[..i], since) < room
  }

  /** A read fails exactly when it meets an unreadable entry before its page is full. */
  lemma {:induction false} SelectFailsIff(entries: seq<(Key, Record)>, since: nat, room: nat)
    requires room >= 1
    ensures Select(entries, since, room) == Err(Serialization) <==> exists i :: Blocks(entries, since, room, i)
    ensures Select(entries, since, room).Err? ==> Select(entries, since, room) == Err(Serialization)
    decreases |entries|
  {
    if entries != [] {
      var v, rest := entries[0].1, entries[1..];
      if !v.EventRecord? {
        assert Blocks(entries, since, room, 0);
      } else {
        var left: nat := room - if v.event.seqNo > since then 1 else 0;
        forall i | 0 < i < |entries| ensures Blocks(entries, since, room, i) <==> Blocks(rest, since, left, i - 1) {
          assert entries[..i][1..] == rest[..i - 1];
        }
        if left >= 1 { SelectFailsIff(rest, since, left); }
        if i :| Blocks(rest, since, left, i) { assert Blocks(entries, since, room, i + 1); }
      }
    }
  }

  lemma SuffixAfter(es: seq<WorkflowEvent>, m: nat, k: nat)
    requires Ascends(es) && 1 <= m <= |es| && SuffixAt(es, es[m - 1].seqNo, k)
    ensures k == m
  {
    assert m < |es| ==> es[m].seqNo > es[m - 1].seqNo;
  }

  lemma NewerThanPlace(es: seq<WorkflowEvent>, m: nat)
    requires Ascends(es) && 1 <= m <= |es|
    ensures Newer(es, es[m - 1].seqNo) == es[m..]
  {
    var k := NewerIsSuffix(es, es[m - 1].seqNo);
    SuffixAfter(es, m, k);
  }

  lemma PageAdvances(es: seq<WorkflowEvent>, since: nat, limit: nat)
    requires limit >= 1 && Ascends(es) && Newer(es, since) != []
    ensures var page := Take(Newer(es, since), limit);
      && page != [] && page[|page| - 1].seqNo > since
      && Newer(es, since) == page + Newer(es, page[|page| - 1].seqNo)
  {
    var k := NewerIsSuffix(es, since);
    var page := Take(es[k..], limit);
    var m := k + |page|;
    assert es[m - 1] == page[|page| - 1];
    assert es[k..] == page + es[m..];
    NewerThanPlace(es, m);
  }

  predicate HoldsEvents(entries: seq<(Key, Record)>, es: seq<WorkflowEvent>) {
    |entries| == |es| && forall i :: 0 <= i < |es| ==> entries[i].1 == EventRecord(es[i])
  }

  lemma {:induction false} SelectTakesNewer(entries: seq<(Key, Record)>, es: seq<WorkflowEvent>, since: nat, room: nat)
    requires HoldsEvents(entries, es) && room >= 1
    ensures Select(entries, since, room) == Ok(Take(Newer(es, since), room))
    decreases |es|
  {
    if es != [] {
      var rest := Newer(es[1..], since);
      if es[0].seqNo <= since {
        SelectTakesNewer(entries[1..], es[1..], since, room);
        assert Newer(es, since) == rest;
      } else if room > 1 {
        SelectTakesNewer(entries[1..], es[1..], since, room - 1);
        assert Take([es[0]] + rest, room) == [es[0]] + Take(rest, room - 1);
      } else {
        assert Take([es[0]] + rest, 1) == [es[0]];
      }
    }
  }

  /** How many listed events have a number above `since`. */
  function Above(entries: seq<(Key, Record)>, since: nat): nat {
    if entries == [] then 0
    else
      var v := entries[0].1;
      (if v.EventRecord? && v.event.seqNo > since then 1 else 0) + Above(entries[1..], since)
  }

  /** A page that is not empty ends above `since`, and leaves fewer events to read. */
  lemma {:induction false} SelectAdvances(entries: seq<(Key, Record)>, since: nat, room: nat)
    requires room >= 1 && Select(entries, since, room).Ok? && Select(entries, since, room).value != []
    ensures var page := Select(entries, since, room).value;
      && page[|page| - 1].seqNo > since
      && Above(entries, page[|page| - 1].seqNo) < Above(entries, since)
    decreases |entries|
  {
    var page := Select(entries, since, room).value;
    var v, last := entries[0].1, page[|page| - 1];
    var rest := if v.event.seqNo <= since then Select(entries[1..], since, room)
                else if room <= 1 then Ok([]) else Select(entries[1..], since, room - 1);
    if rest.value == [] {
      assert page == [v.event];
    } else {
      assert last == rest.value[|rest.value| - 1];
      SelectAdvances(entries[1..], since, if v.event.seqNo <= since then room else room - 1);
    }
    FewerAbove(entries[1..], since, last.seqNo);
  }

  lemma {:induction false} FewerAbove(entries: seq<(Key, Record)>, since: nat, later: nat)
    requires since <= later
    ensures Above(entries, later) <= Above(entries, since)
    decreases |entries|
  {
    if entries != [] { FewerAbove(entries[1..], since, later); }
  }

  /** Reading page after page, each from the last number of the page before, up to an empty page. */
  function ReadPages(entries: seq<(Key, Record)>, since: nat, room: nat): Result<seq<seq<WorkflowEvent>>>
    requires room >= 1
    decreases Above(entries, since)
  {
    match Select(entries, since, room)
    case Err(e) => Err(e)
    case Ok(page) =>
      if page == [] then Ok([])
      else
        SelectAdvances(entries, since, room);
        match ReadPages(entries, page[|page| - 1].seqNo, room)
        case Err(e) => Err(e)
        case Ok(pages) => Ok([page] + pages)
  }

  function Joined(pages: seq<seq<WorkflowEvent>>): seq<WorkflowEvent> {
    if pages == [] then [] else pages[0] + Joined(pages[1..])
  }

  /** Paging over a listing in number order reads every event above `since` exactly once, in order. */
  lemma {:induction false} PagingReadsAll(entries: seq<(Key, Record)>, es: seq<WorkflowEvent>, since: nat, room: nat)
    requires HoldsEvents(entries, es) && Ascends(es) && room >= 1
    ensures ReadPages(entries, since, room).Ok?
    ensures Joined(ReadPages(entries, since, room).value) == Newer(es, since)
    decreases |Newer(es, since)|
  {
    var page := Take(Newer(es, since), room);
    SelectTakesNewer(entries, es, since, room);
    if page != [] {
      PageAdvances(es, since, room);
      PagingReadsAll(entries, es, page[|page| - 1].seqNo, room);
      var rest := ReadPages(entries, page[|page| - 1].seqNo, room).value;
      assert ([page] + rest)[1..] == rest;
    }
  }
}
