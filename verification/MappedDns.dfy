/** The mapped-DNS cache of hev-mapped-dns.c: one set of records seen as a tree, a list and an array. */
module MappedDns {
  import opened Wrappers
  import opened Addresses
  import opened ByteOrder
  import opened RedBlackShape
  import opened RedBlackLink
  import opened RedBlackTree
  import opened TreeSearch
  import LinkedList
  import LruCache
  import RedBlackErase

  // The three views.

  /** What every record knows: its name and its index. */
  datatype Book = Book(name: map<Ref, Name>, idx: map<Ref, nat>)

  ghost predicate Filed(recs: seq<Ref>, use: nat, b: Book, r: Ref)
  {
    && r != NULL && r in b.name && r in b.idx && b.idx[r] < use <= |recs| && recs[b.idx[r]] == r
  }

  ghost predicate Holds(xs: seq<Ref>, r: Ref)
  {
    r in xs
  }

  /** The list holds exactly the records in `live`, each once. */
  ghost predicate Listed(live: set<Ref>, items: seq<Ref>)
  {
    && LinkedList.Distinct(items)
    && (forall i :: 0 <= i < |items| ==> items[i] in live)
    && (forall r {:trigger Holds(items, r)} :: r in live ==> Holds(items, r))
  }

  /** The first `use` places of the array hold exactly the records in `live`, each at its own index. */
  ghost predicate Recorded(live: set<Ref>, recs: seq<Ref>, use: nat, b: Book)
  {
    && use <= |recs|
    && (forall r {:trigger Filed(recs, use, b, r)} :: r in live ==> Filed(recs, use, b, r))
    && (forall i :: 0 <= i < use ==> recs[i] in live && recs[i] in b.idx && b.idx[recs[i]] == i)
    && (forall i :: use <= i < |recs| ==> recs[i] == NULL)
  }

  /** The tree holds exactly the records in `live`, in strictly descending order of their names. */
  ghost predicate Sorted(live: set<Ref>, elems: seq<Ref>, name: map<Ref, Name>)
  {
    && (forall r {:trigger Holds(elems, r)} :: r in live ==> Holds(elems, r))
    && (forall i :: 0 <= i < |elems| ==> elems[i] in live && elems[i] in name)
    && Descending(elems, name, ByName)
  }

  ghost predicate Views(live: set<Ref>, items: seq<Ref>, elems: seq<Ref>, recs: seq<Ref>, use: nat, b: Book)
  {
    && |items| == use
    && Listed(live, items)
    && Recorded(live, recs, use, b)
    && Sorted(live, elems, b.name)
  }

  ghost function Names(name: map<Ref, Name>, refs: seq<Ref>): seq<Name>
    requires Keyed(refs, name)
  {
    seq(|refs|, i requires 0 <= i < |refs| => name[refs[i]])
  }

  ghost predicate Nameable(items: seq<Ref>, recs: seq<Ref>, use: nat, b: Book)
  {
    use <= |recs| && Keyed(items, b.name) && Keyed(recs[..use], b.name)
  }

  ghost function View(items: seq<Ref>, recs: seq<Ref>, use: nat, b: Book): LruCache.Cache
    requires Nameable(items, recs, use, b)
  {
    LruCache.Cache(Names(b.name, items), Names(b.name, recs[..use]))
  }

  lemma NamesDiffer(elems: seq<Ref>, name: map<Ref, Name>, r: Ref, q: Ref)
    requires Keyed(elems, name) && Descending(elems, name, ByName) && r in elems && q in elems && r != q
    ensures name[r] != name[q]
  {
    var i :| 0 <= i < |elems| && elems[i] == r;
    var j :| 0 <= j < |elems| && elems[j] == q;
    CompareIsOrder(ByName, name[r], name[q], name[q]);
    CompareIsOrder(ByName, name[q], name[r], name[r]);
    assert i < j || j < i;
  }

  /** The three views give a well-formed bounded map. */
  lemma ViewWell(live: set<Ref>, items: seq<Ref>, elems: seq<Ref>, recs: seq<Ref>, use: nat, b: Book)
    requires Views(live, items, elems, recs, use, b)
    ensures Nameable(items, recs, use, b) && LruCache.Well(View(items, recs, use, b), |recs|)
  {
    forall i | 0 <= i < |items|
      ensures items[i] in b.name
    {
      assert Filed(recs, use, b, items[i]);
    }
    forall i | 0 <= i < use
      ensures recs[i] in b.name
    {
      assert Filed(recs, use, b, recs[i]);
    }
    var c := View(items, recs, use, b);
    forall i, j | 0 <= i < j < |c.order|
      ensures c.order[i] != c.order[j]
    {
      assert Holds(elems, items[i]) && Holds(elems, items[j]);
      NamesDiffer(elems, b.name, items[i], items[j]);
    }
    forall i, j | 0 <= i < j < |c.names|
      ensures c.names[i] != c.names[j]
    {
      assert recs[i] != recs[j] && Holds(elems, recs[i]) && Holds(elems, recs[j]);
      NamesDiffer(elems, b.name, recs[i], recs[j]);
    }
    forall x | x in c.order
      ensures x in c.names
    {
      var i :| 0 <= i < |c.order| && c.order[i] == x;
      assert Filed(recs, use, b, items[i]);
      assert c.names[b.idx[items[i]]] == x;
    }
    forall x | x in c.names
      ensures x in c.order
    {
      var i :| 0 <= i < |c.names| && c.names[i] == x;
      assert Holds(items, recs[i]);
      var k :| 0 <= k < |items| && items[k] == recs[i];
      assert c.order[k] == x;
    }
  }

  lemma TouchListed(live: set<Ref>, items: seq<Ref>, k: nat)
    requires Listed(live, items) && k < |items|
    ensures Listed(live, LinkedList.Removed(items, k) + [items[k]])
  {
    var items' := LinkedList.Removed(items, k) + [items[k]];
    forall r {:trigger Holds(items', r)} | r in live
      ensures Holds(items', r)
    {
      assert Holds(items, r);
      var i :| 0 <= i < |items| && items[i] == r;
      assert items'[if i < k then i else if i == k then |items| - 1 else i - 1] == r;
    }
  }

  /** Moving a record to the tail of the list is using its name. */
  lemma TouchViews(live: set<Ref>, items: seq<Ref>, elems: seq<Ref>, recs: seq<Ref>, use: nat, b: Book, k: nat)
    requires Views(live, items, elems, recs, use, b) && k < |items|
    ensures var items' := LinkedList.Removed(items, k) + [items[k]];
      && Views(live, items', elems, recs, use, b)
      && Nameable(items, recs, use, b) && Nameable(items', recs, use, b)
      && View(items, recs, use, b).order[k] in View(items, recs, use, b).order
      && View(items', recs, use, b).order == LruCache.Touch(View(items, recs, use, b).order, b.name[items[k]])
      && View(items', recs, use, b).names == View(items, recs, use, b).names
  {
    ViewWell(live, items, elems, recs, use, b);
    TouchListed(live, items, k);
    var items' := LinkedList.Removed(items, k) + [items[k]];
    ViewWell(live, items', elems, recs, use, b);
    TouchNames(items, b.name, k);
  }

  lemma TouchNames(items: seq<Ref>, name: map<Ref, Name>, k: nat)
    requires k < |items| && Keyed(items, name) && LruCache.Distinct(Names(name, items))
    ensures var items' := LinkedList.Removed(items, k) + [items[k]];
      && Keyed(items', name)
      && Names(name, items)[k] == name[items[k]]
      && Names(name, items') == LruCache.Touch(Names(name, items), name[items[k]])
  {
    var items' := LinkedList.Removed(items, k) + [items[k]];
    LruCache.DistinctIndex(Names(name, items), k);
    assert forall i ::
      0 <= i < |items'| ==> items'[i] == items[if i < k then i else if i == |items| - 1 then k else i + 1];
    assert Names(name, items') == LruCache.Touch(Names(name, items), name[items[k]]);
  }

  lemma AddListed(live: set<Ref>, items: seq<Ref>, n: Ref)
    requires Listed(live, items) && n !in live
    ensures Listed(live + {n}, items + [n])
  {
    forall r {:trigger Holds(items + [n], r)} | r in live + {n}
      ensures Holds(items + [n], r)
    {
      assert r != n ==> Holds(items, r);
    }
  }

  lemma AddSorted(live: set<Ref>, elems: seq<Ref>, name: map<Ref, Name>, n: Ref, x: Name, k: nat)
    requires Sorted(live, elems, name) && n !in live && Between(elems, name, ByName, x, k, k)
    ensures Sorted(live + {n}, Inserted(elems, k, n), name[n := x])
  {
    InsertBetween(elems, name, ByName, x, k, n);
    var elems' := Inserted(elems, k, n);
    assert elems'[k] == n;
    forall r {:trigger Holds(elems', r)} | r in live + {n}
      ensures Holds(elems', r)
    {
      if r != n {
        assert Holds(elems, r);
        var i :| 0 <= i < |elems| && elems[i] == r;
        assert elems'[if i < k then i else i + 1] == r;
      }
    }
  }

  lemma AddRecorded(live: set<Ref>, recs: seq<Ref>, use: nat, b: Book, n: Ref, x: Name)
    requires Recorded(live, recs, use, b) && use < |recs| && n !in live && n != NULL
    ensures Recorded(live + {n}, recs[use := n], use + 1, Book(b.name[n := x], b.idx[n := use]))
  {
    var b' := Book(b.name[n := x], b.idx[n := use]);
    forall r {:trigger Filed(recs[use := n], use + 1, b', r)} | r in live + {n}
      ensures Filed(recs[use := n], use + 1, b', r)
    {
      assert r != n ==> Filed(recs, use, b, r);
    }
  }

  /** A new record in the first unused place. */
  lemma AddViews(live: set<Ref>, items: seq<Ref>, elems: seq<Ref>, recs: seq<Ref>, use: nat, b: Book, n: Ref, x: Name,
                 k: nat)
    requires Views(live, items, elems, recs, use, b) && use < |recs|
    requires n !in live && n != NULL && Between(elems, b.name, ByName, x, k, k)
    ensures var b' := Book(b.name[n := x], b.idx[n := use]);
      && Views(live + {n}, items + [n], Inserted(elems, k, n), recs[use := n], use + 1, b')
      && Nameable(items, recs, use, b) && Nameable(items + [n], recs[use := n], use + 1, b')
      && LruCache.Well(View(items, recs, use, b), |recs|)
      && (View(items + [n], recs[use := n], use + 1, b'), use) == LruCache.Find(View(items, recs, use, b), |recs|, x)
  {
    var b', items', recs', elems' := Book(b.name[n := x], b.idx[n := use]), items + [n], recs[use := n],
      Inserted(elems, k, n);
    AddListed(live, items, n);
    AddSorted(live, elems, b.name, n, x, k);
    AddRecorded(live, recs, use, b, n, x);
    ViewWell(live, items, elems, recs, use, b);
    ViewWell(live + {n}, items', elems', recs', use + 1, b');
    AbsentName(live, items, elems, recs, use, b, x, k);
    assert View(items', recs', use + 1, b').names == View(items, recs, use, b).names + [x];
    assert View(items', recs', use + 1, b').order == View(items, recs, use, b).order + [x];
  }

  lemma AbsentName(live: set<Ref>, items: seq<Ref>, elems: seq<Ref>, recs: seq<Ref>, use: nat, b: Book, x: Name, k: nat)
    requires Views(live, items, elems, recs, use, b) && Between(elems, b.name, ByName, x, k, k)
    ensures Nameable(items, recs, use, b) && x !in View(items, recs, use, b).order
  {
    ViewWell(live, items, elems, recs, use, b);
    BetweenAbsent(elems, b.name, ByName, x, k);
    forall i | 0 <= i < |items|
      ensures b.name[items[i]] != x
    {
      assert Holds(elems, items[i]);
      var j :| 0 <= j < |elems| && elems[j] == items[i];
    }
  }

  /** A new record takes the index of the least recently used one, which is forgotten. `elems1` is the tree order
      between the insertion and the erasure, `p` the place of the old record in it. */
  lemma EvictViews(live: set<Ref>, items: seq<Ref>, elems: seq<Ref>, recs: seq<Ref>, b: Book, n: Ref, x: Name, k: nat,
                   p: nat)
    requires Views(live, items, elems, recs, |recs|, b) && |recs| >= 1
    requires n !in live && n != NULL && Between(elems, b.name, ByName, x, k, k)
    requires p <= |elems| && Inserted(elems, k, n)[p] == items[0]
    ensures items[0] in b.idx && b.idx[items[0]] < |recs|
    ensures var v := items[0];
      var i := b.idx[v];
      var b' := Book(b.name[n := x] - {v}, b.idx[n := i] - {v});
      && Views(live + {n} - {v}, items[1..] + [n], RedBlackErase.Without(Inserted(elems, k, n), p), recs[i := n],
               |recs|, b')
      && Nameable(items, recs, |recs|, b) && Nameable(items[1..] + [n], recs[i := n], |recs|, b')
      && LruCache.Well(View(items, recs, |recs|, b), |recs|)
      && (View(items[1..] + [n], recs[i := n], |recs|, b'), i) == LruCache.Find(View(items, recs, |recs|, b), |recs|, x)
  {
    var v := items[0];
    EvictKeeps(live, items, elems, recs, b, n, x, k, p);
    var i := b.idx[v];
    var b' := Book(b.name[n := x] - {v}, b.idx[n := i] - {v});
    ViewWell(live, items, elems, recs, |recs|, b);
    ViewWell(live + {n} - {v}, items[1..] + [n], RedBlackErase.Without(Inserted(elems, k, n), p), recs[i := n], |recs|,
             b');
    AbsentName(live, items, elems, recs, |recs|, b, x, k);
    EvictNames(live, items, recs, b, n, x);
    LruCache.DistinctIndex(View(items, recs, |recs|, b).names, i);
  }

  lemma EvictNames(live: set<Ref>, items: seq<Ref>, recs: seq<Ref>, b: Book, n: Ref, x: Name)
    requires Listed(live, items) && Recorded(live, recs, |recs|, b) && items != [] && n !in live
    ensures items[0] in b.idx && b.idx[items[0]] < |recs|
    ensures var v := items[0];
      var i, name' := b.idx[v], b.name[n := x] - {v};
      && Nameable(items, recs, |recs|, b) && Keyed(items[1..] + [n], name') && Keyed(recs[i := n], name')
      && recs[..|recs|] == recs && recs[i := n][..|recs|] == recs[i := n]
      && Names(b.name, recs)[i] == Names(b.name, items)[0]
      && Names(name', recs[i := n]) == Names(b.name, recs)[i := x]
      && Names(name', items[1..] + [n]) == Names(b.name, items)[1..] + [x]
  {
    assert recs[..|recs|] == recs;
    var v := items[0];
    assert Filed(recs, |recs|, b, v);
    var i, name' := b.idx[v], b.name[n := x] - {v};
    assert recs[i := n][..|recs|] == recs[i := n];
    forall j | 0 <= j < |items|
      ensures items[j] in b.name && (j > 0 ==> items[j] != v)
    {
      assert Filed(recs, |recs|, b, items[j]);
    }
    forall j | 0 <= j < |recs|
      ensures recs[j] in b.name && (j != i ==> recs[j] != v)
    {
      assert Filed(recs, |recs|, b, recs[j]);
    }
    assert Names(name', recs[i := n]) == Names(b.name, recs)[i := x];
    assert Names(name', items[1..] + [n]) == Names(b.name, items)[1..] + [x];
  }

  lemma EvictListed(live: set<Ref>, items: seq<Ref>, n: Ref)
    requires Listed(live, items) && n !in live && items != []
    ensures Listed(live + {n} - {items[0]}, items[1..] + [n])
  {
    var items' := items[1..] + [n];
    forall r {:trigger Holds(items', r)} | r in live + {n} - {items[0]}
      ensures Holds(items', r)
    {
      if r == n {
        assert items'[|items| - 1] == n;
      } else {
        assert Holds(items, r);
        var j :| 0 <= j < |items| && items[j] == r;
        assert items'[j - 1] == r;
      }
    }
  }

  lemma EvictRecorded(live: set<Ref>, recs: seq<Ref>, b: Book, n: Ref, x: Name, v: Ref)
    requires Recorded(live, recs, |recs|, b) && n !in live && n != NULL && v in live
    ensures v in b.idx && b.idx[v] < |recs|
    ensures var i := b.idx[v];
      Recorded(live + {n} - {v}, recs[i := n], |recs|, Book(b.name[n := x] - {v}, b.idx[n := i] - {v}))
  {
    assert Filed(recs, |recs|, b, v);
    var i := b.idx[v];
    var b' := Book(b.name[n := x] - {v}, b.idx[n := i] - {v});
    forall r {:trigger Filed(recs[i := n], |recs|, b', r)} | r in live + {n} - {v}
      ensures Filed(recs[i := n], |recs|, b', r)
    {
      assert r != n ==> Filed(recs, |recs|, b, r);
    }
  }

  lemma EvictSorted(live: set<Ref>, elems: seq<Ref>, name: map<Ref, Name>, v: Ref, p: nat)
    requires Sorted(live, elems, name) && p < |elems| && elems[p] == v
    ensures Sorted(live - {v}, RedBlackErase.Without(elems, p), name - {v})
  {
    var elems' := RedBlackErase.Without(elems, p);
    assert forall i :: 0 <= i < |elems'| ==> elems'[i] == elems[if i < p then i else i + 1];
    forall i | 0 <= i < |elems| && i != p
      ensures elems[i] != v
    {
      CompareIsOrder(ByName, name[v], name[v], name[v]);
      assert i < p || p < i;
    }
    forall r {:trigger Holds(elems', r)} | r in live - {v}
      ensures Holds(elems', r)
    {
      assert Holds(elems, r);
      var i :| 0 <= i < |elems| && elems[i] == r;
      assert elems'[if i < p then i else i - 1] == r;
    }
  }

  lemma EvictKeeps(live: set<Ref>, items: seq<Ref>, elems: seq<Ref>, recs: seq<Ref>, b: Book, n: Ref, x: Name, k: nat,
                   p: nat)
    requires Views(live, items, elems, recs, |recs|, b) && |recs| >= 1
    requires n !in live && n != NULL && Between(elems, b.name, ByName, x, k, k)
    requires p <= |elems| && Inserted(elems, k, n)[p] == items[0]
    ensures items[0] in b.idx && b.idx[items[0]] < |recs|
    ensures var v := items[0];
      var i := b.idx[v];
      Views(live + {n} - {v}, items[1..] + [n], RedBlackErase.Without(Inserted(elems, k, n), p), recs[i := n], |recs|,
            Book(b.name[n := x] - {v}, b.idx[n := i] - {v}))
  {
    EvictListed(live, items, n);
    EvictRecorded(live, recs, b, n, x, items[0]);
    AddSorted(live, elems, b.name, n, x, k);
    EvictSorted(live + {n}, Inserted(elems, k, n), b.name[n := x], items[0], p);
  }

  /** The cache object. `hosts` is the number of addresses under the mask, so the complement of the mask is `hosts -
      1`. */
  class Dns {
    const max: nat
    const net: nat
    const hosts: nat
    const list: LinkedList.List
    const tree: Tree
    const records: array<Ref>
    var use: nat
    var book: Book

    /** Tree, list and the first `use` records hold the same, distinctly named nodes; `records[i]` has index `i`. */
    ghost predicate Valid()
      reads this, list, tree, records
    {
      && records.Length == max < hosts
      && list.Valid() && tree.Valid()
      && Views(tree.s.Keys, list.items, tree.elems, records[..], use, book)
    }

    /** The bounded map that the three views stand for. */
    ghost function Cache(): LruCache.Cache
      requires Valid()
      reads this, list, tree, records
      ensures LruCache.Well(Cache(), max)
    {
      ViewWell(tree.s.Keys, list.items, tree.elems, records[..], use, book);
      View(list.items, records[..], use, book)
    }

    constructor (net: nat, hosts: nat, max: nat)
      requires max < hosts
      ensures Valid() && fresh(list) && fresh(tree) && fresh(records)
      ensures Cache() == LruCache.Cache([], []) && this.max == max && this.net == net && this.hosts == hosts
    {
      this.net, this.hosts, this.max, use := net, hosts, max, 0;
      book := Book(map[], map[]);
      list := new LinkedList.List();
      tree := new Tree();
      records := new Ref[max](i => NULL);
    }

    /** The index for a name; `mem` is what the allocator returns for a new node, NULL when it fails. A cache without
        places has no index to give. */
    method Find(x: Name, mem: Ref) returns (i: int)
      requires Valid() && mem !in tree.s && max >= 1
      modifies this, list, tree, records
      ensures Valid()
      ensures if mem == NULL && x !in old(Cache()).order
              then i == -1 && Cache() == old(Cache())
              else (Cache(), i) == LruCache.Find(old(Cache()), max, x)
    {
      var n, slot;
      ghost var path;
      n, slot, path := Descend(tree, book.name, ByName, x);
      if n != NULL {
        i := FindExisting(n, x);
      } else {
        ghost var k := SlotIndex(tree.place, slot);
        AbsentName(tree.s.Keys, list.items, tree.elems, records[..], use, book, x, k);
        if mem == NULL {
          i := -1;
        } else if use < max {
          i := FindNew(mem, slot, x);
        } else {
          i := FindEvicting(mem, slot, x);
        }
      }
    }

    method FindExisting(n: Ref, x: Name) returns (i: nat)
      requires Valid() && max >= 1 && n in tree.s && n in book.name && book.name[n] == x
      modifies this, list
      ensures x in old(Cache()).order
      ensures Valid() && (Cache(), i) == LruCache.Find(old(Cache()), max, x)
    {
      assert Holds(list.items, n);
      ghost var k :| 0 <= k < |list.items| && list.items[k] == n;
      TouchViews(tree.s.Keys, list.items, tree.elems, records[..], use, book, k);
      assert Filed(records[..], use, book, n);
      LruCache.DistinctIndex(Cache().names, book.idx[n]);
      list.Del(n, k);
      list.AddTail(n);
      i := book.idx[n];
    }

    /** The insertion part of a search that ended at the empty `slot`. */
    ghost predicate Vacant(mem: Ref, slot: Slot, x: Name)
      reads this, list, tree, records
    {
      && Valid() && mem !in tree.s && mem != NULL
      && SlotIn(tree.s, slot) && Load(tree.s, tree.root, slot) == NULL
      && Between(tree.elems, book.name, ByName, x, SlotIndex(tree.place, slot), SlotIndex(tree.place, slot))
    }

    method FindNew(mem: Ref, slot: Slot, x: Name) returns (i: nat)
      requires Vacant(mem, slot, x) && use < max
      modifies this, list, tree, records
      ensures Valid() && (Cache(), i) == LruCache.Find(old(Cache()), max, x)
    {
      i := use;
      AddViews(tree.s.Keys, list.items, tree.elems, records[..], use, book, mem, x, SlotIndex(tree.place, slot));
      ghost var recs := records[..];
      tree.Insert(mem, slot);
      list.AddTail(mem);
      use := use + 1;
      records[i] := mem;
      assert records[..] == recs[i := mem];
      book := Book(book.name[mem := x], book.idx[mem := i]);
    }

    method FindEvicting(mem: Ref, slot: Slot, x: Name) returns (i: nat)
      requires Vacant(mem, slot, x) && use == max >= 1
      modifies this, list, tree, records
      ensures Valid() && (Cache(), i) == LruCache.Find(old(Cache()), max, x)
    {
      ghost var live, items, elems, k := tree.s.Keys, list.items, tree.elems, SlotIndex(tree.place, slot);
      tree.Insert(mem, slot);
      list.AddTail(mem);
      i := EvictFirst(mem, x, live, items, elems, k);
    }

    /** The new node is already linked; the node at the head of the list leaves, and its index passes on. */
    method EvictFirst(mem: Ref, x: Name, ghost live: set<Ref>, ghost items: seq<Ref>, ghost elems: seq<Ref>,
                      ghost k: nat) returns (i: nat)
      requires records.Length == max == use && 1 <= max < hosts && list.Valid() && tree.Valid()
      requires Views(live, items, elems, records[..], use, book) && mem !in live && mem != NULL
      requires Between(elems, book.name, ByName, x, k, k)
      requires tree.elems == Inserted(elems, k, mem) && tree.s.Keys == live + {mem} && list.items == items + [mem]
      modifies this, list, tree, records
      ensures Valid() && Nameable(items, old(records[..]), old(use), old(book))
      ensures LruCache.Well(View(items, old(records[..]), old(use), old(book)), max)
      ensures (Cache(), i) == LruCache.Find(View(items, old(records[..]), old(use), old(book)), max, x)
    {
      ghost var recs := records[..];
      var nf := list.head;
      assert nf == items[0] && Filed(recs, use, book, nf);
      i := book.idx[nf];
      ghost var p := tree.place[nf].pos;
      tree.Erase(nf);
      list.Del(nf, 0);
      records[i] := mem;
      EvictViews(live, items, elems, recs, book, mem, x, k, p);
      book := Book(book.name[mem := x] - {nf}, book.idx[mem := i] - {nf});
      assert records[..] == recs[i := mem] && list.items == items[1..] + [mem];
    }

    /** A record becomes the most recently used. */
    method Refresh(n: Ref)
      requires Valid() && n in tree.s && n in book.name && book.name[n] in Cache().order
      modifies list
      ensures Valid() && Cache() == LruCache.Cache(LruCache.Touch(old(Cache()).order, book.name[n]), old(Cache()).names)
    {
      assert Holds(list.items, n);
      ghost var k :| 0 <= k < |list.items| && list.items[k] == n;
      TouchViews(tree.s.Keys, list.items, tree.elems, records[..], use, book, k);
      list.Del(n, k);
      list.AddTail(n);
    }

    /** The name behind an address, or none. */
    method Lookup(ip: nat) returns (r: Option<Name>)
      requires Valid()
      modifies this, list
      ensures Valid()
      ensures (Cache(), r) == LruCache.Lookup(old(Cache()), ip % hosts)
    {
      var i := ip % hosts;
      if i >= max {
        return None;
      }
      var n := records[i];
      if n == NULL {
        return None;
      }
      assert i < use && records[..][i] == n && n in tree.s;
      assert Filed(records[..], use, book, n);
      assert Cache().names[i] == book.name[n];
      Refresh(n);
      r := Some(book.name[n]);
    }
  }

  /** A cache must leave at least one host address free; otherwise none is made. */
  method New(net: nat, hosts: nat, max: nat) returns (dns: Dns?)
    ensures dns == null <==> max > hosts - 1
    ensures dns != null ==>
      fresh(dns) && dns.Valid() && dns.Cache() == LruCache.Cache([], []) && dns.max == max && dns.net == net
  {
    if max > hosts - 1 {
      return null;
    }
    dns := new Dns(net, hosts, max);
  }

  lemma QuotientOrder(x: int, y: int, h: nat)
    ensures x * h < y * h ==> x < y
  {
    if x >= y {
      assert x * h - y * h == (x - y) * h;
    }
  }

  /** An address built from the network and an index below the number of hosts gives that index back. */
  lemma AddressIndex(block: nat, hosts: nat, i: nat)
    requires i < hosts
    ensures (block * hosts + i) % hosts == i
  {
    var a := block * hosts + i;
    var q := a / hosts;
    assert a == hosts * q + a % hosts;
    assert (q + 1) * hosts == q * hosts + hosts && (block + 1) * hosts == block * hosts + hosts;
    QuotientOrder(q, block + 1, hosts);
    QuotientOrder(block, q + 1, hosts);
  }
}
