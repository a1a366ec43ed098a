/** The intrusive doubly linked list of hev-list.c. */
module LinkedList {
  import opened Addresses

  datatype Links = Links(next: Ref, prev: Ref)

  /** The items around index `i`; NULL outside the list. */
  function ItemAt(items: seq<Ref>, i: int): Ref
  {
    if 0 <= i < |items| then items[i] else NULL
  }

  ghost predicate LinkedAt(links: map<Ref, Links>, items: seq<Ref>, i: int)
    requires 0 <= i < |items|
  {
    && items[i] != NULL && items[i] in links
    && links[items[i]] == Links(ItemAt(items, i + 1), ItemAt(items, i - 1))
  }

  ghost predicate Distinct(items: seq<Ref>)
  {
    forall i, j :: 0 <= i < j < |items| ==> items[i] != items[j]
  }

  function Removed(items: seq<Ref>, k: nat): seq<Ref>
    requires k < |items|
  {
    items[..k] + items[k + 1..]
  }

  lemma RemovedDistinct(items: seq<Ref>, k: nat)
    requires k < |items| && Distinct(items)
    ensures Distinct(Removed(items, k))
  {
    var rest := Removed(items, k);
    forall i, j | 0 <= i < j < |rest| ensures rest[i] != rest[j] {
      assert rest[i] == items[if i < k then i else i + 1] && rest[j] == items[if j < k then j else j + 1];
    }
  }

  class List {
    var head: Ref
    var tail: Ref
    var links: map<Ref, Links>
    ghost var items: seq<Ref>

    /** `items` is the list from head to tail, and the links in both directions agree with it. */
    ghost predicate Valid()
      reads this
    {
      && Distinct(items)
      && head == ItemAt(items, 0) && tail == ItemAt(items, |items| - 1)
      && (forall i {:trigger LinkedAt(links, items, i)} :: 0 <= i < |items| ==> LinkedAt(links, items, i))
    }

    constructor ()
      ensures Valid() && items == []
    {
      head, tail, links, items := NULL, NULL, map[], [];
    }

    method AddTail(node: Ref)
      requires Valid() && node != NULL && node !in items
      modifies this
      ensures Valid() && items == old(items) + [node]
    {
      ghost var before := items;
      links := links[node := Links(NULL, tail)];
      if tail != NULL {
        assert LinkedAt(old(links), before, |before| - 1);
        links := links[tail := links[tail].(next := node)];
      } else {
        assert before == [] || LinkedAt(old(links), before, |before| - 1);
        head := node;
      }
      tail := node;
      items := items + [node];
      forall i {:trigger LinkedAt(links, items, i)} | 0 <= i < |items|
        ensures LinkedAt(links, items, i)
      {
        if i < |before| {
          assert LinkedAt(old(links), before, i);
        }
      }
    }

    method Del(node: Ref, ghost k: nat)
      requires Valid() && k < |items| && items[k] == node
      modifies this
      ensures Valid() && items == Removed(old(items), k)
    {
      ghost var before := items;
      assert LinkedAt(links, items, k);
      assert k > 0 ==> LinkedAt(links, items, k - 1);
      assert k + 1 < |items| ==> LinkedAt(links, items, k + 1);
      if links[node].prev != NULL {
        links := links[links[node].prev := links[links[node].prev].(next := links[node].next)];
      } else {
        head := links[node].next;
      }
      if links[node].next != NULL {
        links := links[links[node].next := links[links[node].next].(prev := links[node].prev)];
      } else {
        tail := links[node].prev;
      }
      items := Removed(items, k);
      RemovedDistinct(before, k);
      forall i {:trigger LinkedAt(links, items, i)} | 0 <= i < |items|
        ensures LinkedAt(links, items, i)
      {
        assert LinkedAt(old(links), before, if i < k then i else i + 1);
      }
    }
  }
}
