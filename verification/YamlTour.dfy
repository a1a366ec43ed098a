/** The depth-first walk that the dumper makes over a document, twice (dumper.c). */
module YamlTour {
  import opened YamlEvents
  import opened YamlComposer

  function FlatPairs(pairs: seq<Pair>): seq<nat>
  {
    if pairs == [] then [] else [pairs[0].key, pairs[0].value] + FlatPairs(pairs[1..])
  }

  /** The nodes below a node, in the order of the walk. */
  function Children(n: DocNode): seq<nat>
  {
    match n
    case ScalarNode(_, _) => []
    case SequenceNode(_, items) => items
    case MappingNode(_, pairs) => FlatPairs(pairs)
  }

  ghost predicate AllWithin(ks: seq<nat>, n: nat)
  {
    forall k :: 0 <= k < |ks| ==> Within1(ks[k], n)
  }

  ghost predicate ChildrenOk(doc: seq<DocNode>, j: nat)
    requires j < |doc|
  {
    AllWithin(Children(doc[j]), |doc|)
  }

  /** Every index in the document is that of a node. */
  ghost predicate Closed(doc: seq<DocNode>)
  {
    forall j {:trigger ChildrenOk(doc, j)} :: 0 <= j < |doc| ==> ChildrenOk(doc, j)
  }

  lemma {:induction false} FlatPairsOk(pairs: seq<Pair>, n: nat)
    requires forall k :: 0 <= k < |pairs| ==> Within1(pairs[k].key, n) && Within1(pairs[k].value, n)
    ensures AllWithin(FlatPairs(pairs), n)
    decreases |pairs|
  {
    if pairs != [] {
      assert Within1(pairs[0].key, n) && Within1(pairs[0].value, n);
      FlatPairsOk(pairs[1..], n);
    }
  }

  /** A finished document is closed. */
  lemma DocumentIsClosed(doc: seq<DocNode>)
    requires DocumentFits(doc)
    ensures Closed(doc)
  {
    forall j {:trigger ChildrenOk(doc, j)} | 0 <= j < |doc| ensures ChildrenOk(doc, j) {
      assert IndicesOk(doc[j], |doc|);
      if doc[j].MappingNode? {
        forall k | 0 <= k < |doc[j].pairs| ensures Within1(doc[j].pairs[k].key, |doc|)
          && Within1(doc[j].pairs[k].value, |doc|) {
          PairsAreComplete(doc, j, k);
        }
        FlatPairsOk(doc[j].pairs, |doc|);
      }
    }
  }

  /** The nodes in the order of their first visits, and those visited again. */
  datatype Tour = Tour(order: seq<nat>, repeated: set<nat>)

  ghost function Unvisited(doc: seq<DocNode>, t: Tour): set<nat>
  {
    set i | 1 <= i <= |doc| && i !in t.order
  }

  lemma {:induction false} SubsetSize(a: set<nat>, b: set<nat>)
    requires a <= b
    ensures |a| <= |b|
  {
    if a != {} {
      var x :| x in a;
      SubsetSize(a - {x}, b - {x});
    }
  }

  lemma FirstVisit(doc: seq<DocNode>, i: nat, t: Tour, t1: Tour)
    requires Within1(i, |doc|) && i !in t.order && t1.order == t.order + [i]
    ensures |Unvisited(doc, t1)| < |Unvisited(doc, t)| && Unvisited(doc, t1) <= Unvisited(doc, t)
  {
    assert Unvisited(doc, t1) <= Unvisited(doc, t) - {i};
    SubsetSize(Unvisited(doc, t1), Unvisited(doc, t) - {i});
  }

  lemma NoMoreUnvisited(doc: seq<DocNode>, t: Tour, r: Tour)
    requires t.order <= r.order
    ensures |Unvisited(doc, r)| <= |Unvisited(doc, t)|
  {
    assert forall i :: i in t.order ==> i in r.order;
    SubsetSize(Unvisited(doc, r), Unvisited(doc, t));
  }

  ghost function Visit(doc: seq<DocNode>, i: nat, t: Tour): (r: Tour)
    requires Closed(doc) && Within1(i, |doc|)
    ensures t.order <= r.order && t.repeated <= r.repeated && i in r.order
    decreases |Unvisited(doc, t)|, 0
  {
    if i in t.order then Tour(t.order, t.repeated + {i})
    else
      var t1 := Tour(t.order + [i], t.repeated);
      FirstVisit(doc, i, t, t1);
      assert ChildrenOk(doc, i - 1);
      assert t1.order[|t.order|] == i;
      VisitAll(doc, Children(doc[i - 1]), t1)
  }

  ghost function VisitAll(doc: seq<DocNode>, ks: seq<nat>, t: Tour): (r: Tour)
    requires Closed(doc) && AllWithin(ks, |doc|)
    ensures t.order <= r.order && t.repeated <= r.repeated
    decreases |Unvisited(doc, t)|, 1 + |ks|
  {
    if ks == [] then t
    else
      var t1 := Visit(doc, ks[0], t);
      NoMoreUnvisited(doc, t, t1);
      VisitAll(doc, ks[1..], t1)
  }

  // The order of the first visits.

  ghost predicate Distinct(order: seq<nat>)
  {
    forall j, k :: 0 <= j < k < |order| ==> order[j] != order[k]
  }

  ghost predicate Covers(order: seq<nat>, ks: seq<nat>)
  {
    forall k :: 0 <= k < |ks| ==> ks[k] in order
  }

  /** The children of a node of the order have been visited. */
  ghost predicate Done(doc: seq<DocNode>, order: seq<nat>, k: nat)
    requires k < |order|
  {
    Within1(order[k], |doc|) && Covers(order, Children(doc[order[k] - 1]))
  }

  /** All nodes visited since position `from` are done. */
  ghost predicate DoneSince(doc: seq<DocNode>, order: seq<nat>, from: nat)
  {
    forall k {:trigger Done(doc, order, k)} :: from <= k < |order| ==> Done(doc, order, k)
  }

  lemma DoneLater(doc: seq<DocNode>, order: seq<nat>, order': seq<nat>, k: nat)
    requires order <= order' && k < |order| && Done(doc, order, k)
    ensures Done(doc, order', k)
  {
    var kids := Children(doc[order[k] - 1]);
    forall m | 0 <= m < |kids| ensures kids[m] in order' {
      assert kids[m] in order;
    }
  }

  lemma {:induction false} VisitOrder(doc: seq<DocNode>, i: nat, t: Tour)
    requires Closed(doc) && Within1(i, |doc|) && Distinct(t.order)
    ensures Distinct(Visit(doc, i, t).order) && DoneSince(doc, Visit(doc, i, t).order, |t.order|)
    decreases |Unvisited(doc, t)|, 0
  {
    if i !in t.order {
      var t1 := Tour(t.order + [i], t.repeated);
      FirstVisit(doc, i, t, t1);
      assert ChildrenOk(doc, i - 1);
      VisitAllOrder(doc, Children(doc[i - 1]), t1);
      var r := VisitAll(doc, Children(doc[i - 1]), t1);
      assert r.order[|t.order|] == t1.order[|t.order|] == i;
      assert Done(doc, r.order, |t.order|);
    }
  }

  lemma {:induction false} VisitAllOrder(doc: seq<DocNode>, ks: seq<nat>, t: Tour)
    requires Closed(doc) && AllWithin(ks, |doc|) && Distinct(t.order)
    ensures Distinct(VisitAll(doc, ks, t).order) && DoneSince(doc, VisitAll(doc, ks, t).order, |t.order|)
    ensures Covers(VisitAll(doc, ks, t).order, ks)
    decreases |Unvisited(doc, t)|, 1 + |ks|
  {
    if ks != [] {
      var t1 := Visit(doc, ks[0], t);
      var r := VisitAll(doc, ks, t);
      NoMoreUnvisited(doc, t, t1);
      VisitOrder(doc, ks[0], t);
      VisitAllOrder(doc, ks[1..], t1);
      forall k {:trigger Done(doc, r.order, k)} | |t.order| <= k < |r.order| ensures Done(doc, r.order, k) {
        if k < |t1.order| {
          assert Done(doc, t1.order, k);
          DoneLater(doc, t1.order, r.order, k);
        }
      }
      forall k | 0 <= k < |ks| ensures ks[k] in r.order {
        if k > 0 {
          assert ks[k] == ks[1..][k - 1];
        }
      }
    }
  }

  /** A set of nodes that contains all their children. */
  ghost predicate ClosedSet(doc: seq<DocNode>, s: set<nat>)
  {
    forall i, k {:trigger Children(doc[i - 1])[k], i in s} ::
      i in s && Within1(i, |doc|) && 0 <= k < |Children(doc[i - 1])| ==>
      Children(doc[i - 1])[k] in s
  }

  ghost predicate Inside(order: seq<nat>, s: set<nat>)
  {
    forall k :: 0 <= k < |order| ==> order[k] in s
  }

  /** The walk never leaves a closed set that it starts in. */
  lemma {:induction false} VisitInside(doc: seq<DocNode>, i: nat, t: Tour, s: set<nat>)
    requires Closed(doc) && Within1(i, |doc|) && ClosedSet(doc, s) && i in s && Inside(t.order, s)
    ensures Inside(Visit(doc, i, t).order, s)
    decreases |Unvisited(doc, t)|, 0
  {
    if i !in t.order {
      var t1 := Tour(t.order + [i], t.repeated);
      FirstVisit(doc, i, t, t1);
      assert ChildrenOk(doc, i - 1);
      VisitAllInside(doc, Children(doc[i - 1]), t1, s);
    }
  }

  lemma {:induction false} VisitAllInside(doc: seq<DocNode>, ks: seq<nat>, t: Tour, s: set<nat>)
    requires Closed(doc) && AllWithin(ks, |doc|) && ClosedSet(doc, s) && Inside(ks, s) && Inside(t.order, s)
    ensures Inside(VisitAll(doc, ks, t).order, s)
    decreases |Unvisited(doc, t)|, 1 + |ks|
  {
    if ks != [] {
      var t1 := Visit(doc, ks[0], t);
      NoMoreUnvisited(doc, t, t1);
      VisitInside(doc, ks[0], t, s);
      VisitAllInside(doc, ks[1..], t1, s);
    }
  }

  ghost function Whole(doc: seq<DocNode>): Tour
    requires Closed(doc) && doc != []
  {
    Visit(doc, 1, Tour([], {}))
  }

  /** The walk from the root visits each reachable node once, the root first, and no other: what it visits is the least
      set of nodes that holds the root and is closed. */
  lemma WalkReachesExactly(doc: seq<DocNode>)
    requires Closed(doc) && doc != []
    ensures var order := Whole(doc).order;
      && Distinct(order) && order != [] && order[0] == 1
      && (forall k :: 0 <= k < |order| ==> Within1(order[k], |doc|)) && DoneSince(doc, order, 0)
      && (forall s :: 1 in s && ClosedSet(doc, s) ==> Inside(order, s))
  {
    var t := Tour([], {});
    VisitOrder(doc, 1, t);
    FirstVisit(doc, 1, t, Tour([1], {}));
    assert t.order + [1] == [1];
    assert ChildrenOk(doc, 0);
    assert [1] <= Whole(doc).order;
    forall k | 0 <= k < |Whole(doc).order| ensures Within1(Whole(doc).order[k], |doc|) {
      assert Done(doc, Whole(doc).order, k);
    }
    forall s | 1 in s && ClosedSet(doc, s) ensures Inside(Whole(doc).order, s) {
      VisitInside(doc, 1, t, s);
    }
  }
}
