/** The key search that the clients of the red-black tree repeat before linking or erasing. */
module TreeSearch {
  import opened ByteOrder
  import opened Addresses
  import opened RedBlackShape
  import opened RedBlackLink
  import opened RedBlackTree
  import opened RedBlackHeight

  ghost predicate Keyed(elems: seq<Ref>, keys: map<Ref, Name>)
  {
    forall i :: 0 <= i < |elems| ==> elems[i] in keys
  }

  /** Both clients go left at a smaller node, so the in-order sequence is strictly descending. */
  ghost predicate Descending(elems: seq<Ref>, keys: map<Ref, Name>, order: Order)
    requires Keyed(elems, keys)
  {
    forall i, j :: 0 <= i < j < |elems| ==> Compare(order, keys[elems[j]], keys[elems[i]]) < 0
  }

  /** Everything before `lo` is larger than `key`, everything from `hi` on is smaller. */
  ghost predicate Between(elems: seq<Ref>, keys: map<Ref, Name>, order: Order, key: Name, lo: int, hi: int)
    requires Keyed(elems, keys)
  {
    && 0 <= lo <= hi <= |elems|
    && (forall i :: 0 <= i < lo ==> Compare(order, keys[elems[i]], key) > 0)
    && (forall i :: hi <= i < |elems| ==> Compare(order, keys[elems[i]], key) < 0)
  }

  lemma GoLeft(elems: seq<Ref>, keys: map<Ref, Name>, order: Order, key: Name, lo: int, pos: int, hi: int)
    requires Keyed(elems, keys) && Descending(elems, keys, order) && Between(elems, keys, order, key, lo, hi)
    requires lo <= pos < hi && Compare(order, keys[elems[pos]], key) < 0
    ensures Between(elems, keys, order, key, lo, pos)
  {
    forall i | pos <= i < |elems|
      ensures Compare(order, keys[elems[i]], key) < 0
    {
      CompareIsOrder(order, keys[elems[i]], keys[elems[pos]], key);
    }
  }

  lemma GoRight(elems: seq<Ref>, keys: map<Ref, Name>, order: Order, key: Name, lo: int, pos: int, hi: int)
    requires Keyed(elems, keys) && Descending(elems, keys, order) && Between(elems, keys, order, key, lo, hi)
    requires lo <= pos < hi && Compare(order, keys[elems[pos]], key) > 0
    ensures Between(elems, keys, order, key, pos + 1, hi)
  {
    forall i | 0 <= i <= pos
      ensures Compare(order, keys[elems[i]], key) > 0
    {
      CompareIsOrder(order, key, keys[elems[pos]], keys[elems[i]]);
      CompareIsOrder(order, key, keys[elems[i]], key);
    }
  }

  /** A key that falls between two neighbours is absent. */
  lemma BetweenAbsent(elems: seq<Ref>, keys: map<Ref, Name>, order: Order, key: Name, k: int)
    requires Keyed(elems, keys) && Between(elems, keys, order, key, k, k)
    ensures forall i :: 0 <= i < |elems| ==> keys[elems[i]] != key
  {
    forall i | 0 <= i < |elems|
      ensures keys[elems[i]] != key
    {
      CompareIsOrder(order, keys[elems[i]], key, key);
    }
  }

  /** A key that falls between two neighbours may be inserted there. */
  lemma InsertBetween(elems: seq<Ref>, keys: map<Ref, Name>, order: Order, key: Name, k: int, node: Ref)
    requires Keyed(elems, keys) && Descending(elems, keys, order) && Between(elems, keys, order, key, k, k)
    requires node !in elems
    ensures Keyed(Inserted(elems, k, node), keys[node := key])
    ensures Descending(Inserted(elems, k, node), keys[node := key], order)
  {
    var elems', keys' := Inserted(elems, k, node), keys[node := key];
    forall i, j | 0 <= i < j < |elems'|
      ensures Compare(order, keys'[elems'[j]], keys'[elems'[i]]) < 0
    {
      var i', j' := if i < k then i else i - 1, if j < k then j else j - 1;
      if j == k {
        CompareIsOrder(order, keys[elems[i]], key, key);
      } else if i != k {
        assert elems'[i] == elems[i'] && elems'[j] == elems[j'];
      }
    }
  }

  /** `path` is the way down from the root to the owner of `slot`. */
  ghost predicate LeadsTo(s: Store, root: Ref, path: seq<Ref>, slot: Slot)
  {
    && Descends(s, path)
    && (path == [] <==> slot.RootSlot?)
    && (path != [] ==> path[0] == root && path[|path| - 1] == slot.at)
  }

  lemma StepDown(s: Store, root: Ref, path: seq<Ref>, slot: Slot)
    requires NULL !in s && LeadsTo(s, root, path, slot) && SlotIn(s, slot) && Load(s, root, slot) in s
    ensures var n := Load(s, root, slot);
      LeadsTo(s, root, path + [n], LeftSlot(n)) && LeadsTo(s, root, path + [n], RightSlot(n))
  {
  }

  lemma PathShort(s: Store, g: map<Ref, Place>, root: Ref, elems: seq<Ref>, bh: map<Ref, int>, path: seq<Ref>,
                  slot: Slot)
    requires Shape(s, g, root, elems) && Coloured(s, bh, root) && LeadsTo(s, root, path, slot)
    ensures |path| <= 2 * Log2(|elems| + 1)
  {
    if path != [] {
      SearchIsLogarithmic(s, g, root, elems, bh, path);
    }
  }

  /** The subtree at `slot` covers the part of the in-order sequence from `lo` to `hi`. */
  ghost predicate Covers(s: Store, g: map<Ref, Place>, root: Ref, slot: Slot, lo: int, hi: int)
    requires g.Keys == s.Keys
  {
    && SlotIn(s, slot)
    && var n := Load(s, root, slot);
    if n == NULL then lo == hi == SlotIndex(g, slot) else n in s && g[n].lo == lo && g[n].hi == hi
  }

  lemma CoversChildren(s: Store, g: map<Ref, Place>, root: Ref, elems: seq<Ref>, n: Ref)
    requires Shape(s, g, root, elems) && n in s
    ensures 0 <= g[n].lo <= g[n].pos < g[n].hi <= |elems| && elems[g[n].pos] == n
    ensures Covers(s, g, root, LeftSlot(n), g[n].lo, g[n].pos)
    ensures Covers(s, g, root, RightSlot(n), g[n].pos + 1, g[n].hi)
  {
    assert Local(s, g, root, elems, n);
  }

  lemma CoversAll(s: Store, g: map<Ref, Place>, root: Ref, elems: seq<Ref>)
    requires Shape(s, g, root, elems)
    ensures Covers(s, g, root, RootSlot, 0, |elems|)
  {
    assert root != NULL ==> Local(s, g, root, elems, root);
  }

  /** Descends from the root; either finds the node with this key or the empty slot where it belongs. */
  method Descend(t: Tree, keys: map<Ref, Name>, order: Order, key: Name)
    returns (found: Ref, slot: Slot, ghost path: seq<Ref>)
    requires t.Valid() && Keyed(t.elems, keys) && Descending(t.elems, keys, order)
    ensures found != NULL ==> found in t.s && found in keys && keys[found] == key
    ensures found == NULL ==>
      && SlotIn(t.s, slot) && Load(t.s, t.root, slot) == NULL
      && Between(t.elems, keys, order, key, SlotIndex(t.place, slot), SlotIndex(t.place, slot))
    ensures Descends(t.s, path) && |path| <= 2 * Log2(|t.elems| + 1)
  {
    slot := RootSlot;
    path := [];
    ghost var lo, hi := 0, |t.elems|;
    CoversAll(t.s, t.place, t.root, t.elems);
    while Load(t.s, t.root, slot) != NULL
      invariant Covers(t.s, t.place, t.root, slot, lo, hi)
      invariant Between(t.elems, keys, order, key, lo, hi)
      invariant LeadsTo(t.s, t.root, path, slot)
      decreases hi - lo
    {
      var n := Load(t.s, t.root, slot);
      CoversChildren(t.s, t.place, t.root, t.elems, n);
      StepDown(t.s, t.root, path, slot);
      path := path + [n];
      var res := Compare(order, keys[n], key);
      if res < 0 {
        GoLeft(t.elems, keys, order, key, lo, t.place[n].pos, hi);
        slot, hi := LeftSlot(n), t.place[n].pos;
      } else if res > 0 {
        GoRight(t.elems, keys, order, key, lo, t.place[n].pos, hi);
        slot, lo := RightSlot(n), t.place[n].pos + 1;
      } else {
        CompareIsOrder(order, keys[n], key, key);
        found := n;
        PathShort(t.s, t.place, t.root, t.elems, t.bh, path, LeftSlot(n));
        return;
      }
    }
    found := NULL;
    PathShort(t.s, t.place, t.root, t.elems, t.bh, path, slot);
  }
}
