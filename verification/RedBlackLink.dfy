/** Linking a new leaf into the tree (hev_rbtree_node_link). */
module RedBlackLink {
  import opened Addresses
  import opened RedBlackShape

  /** The address of a child pointer, or of the root pointer. */
  datatype Slot = RootSlot | LeftSlot(at: Ref) | RightSlot(at: Ref)

  predicate SlotIn(s: Store, slot: Slot)
  {
    slot.RootSlot? || slot.at in s
  }

  function Load(s: Store, root: Ref, slot: Slot): Ref
    requires SlotIn(s, slot)
  {
    match slot
    case RootSlot => root
    case LeftSlot(p) => s[p].left
    case RightSlot(p) => s[p].right
  }

  /** The node holding the pointer at `slot`. */
  function Owner(slot: Slot): Ref
  {
    if slot.RootSlot? then NULL else slot.at
  }

  function Link(s: Store, root: Ref, node: Ref, slot: Slot): (Store, Ref)
    requires SlotIn(s, slot)
  {
    var s1 := s[node := Node(Owner(slot), true, NULL, NULL)];
    match slot
    case RootSlot => (s1, node)
    case LeftSlot(p) => (s1[p := s1[p].(left := node)], root)
    case RightSlot(p) => (s1[p := s1[p].(right := node)], root)
  }

  /** Where a node at the empty `slot` comes in the in-order sequence. */
  ghost function SlotIndex(g: map<Ref, Place>, slot: Slot): int
    requires slot.RootSlot? || slot.at in g
  {
    match slot
    case RootSlot => 0
    case LeftSlot(p) => g[p].pos
    case RightSlot(p) => g[p].pos + 1
  }

  ghost function LinkPlaces(g: map<Ref, Place>, node: Ref, slot: Slot): map<Ref, Place>
    requires slot.RootSlot? || slot.at in g
  {
    var k := SlotIndex(g, slot);
    var first := if slot.LeftSlot? then k + 1 else k;
    map x | x in g.Keys + {node} ::
      if x == node then Place(k, k, k + 1)
      else Place(if g[x].pos >= k then g[x].pos + 1 else g[x].pos,
                 if g[x].lo >= first then g[x].lo + 1 else g[x].lo,
                 if g[x].hi >= first then g[x].hi + 1 else g[x].hi)
  }

  function Inserted(xs: seq<Ref>, k: nat, x: Ref): seq<Ref>
    requires k <= |xs|
  {
    xs[..k] + [x] + xs[k..]
  }

  ghost predicate Linkable(s: Store, g: map<Ref, Place>, root: Ref, elems: seq<Ref>, node: Ref, slot: Slot)
  {
    Shape(s, g, root, elems) && node !in s && node != NULL && SlotIn(s, slot) && Load(s, root, slot) == NULL
  }

  lemma LinkUp(s: Store, g: map<Ref, Place>, root: Ref, elems: seq<Ref>, node: Ref, slot: Slot, x: Ref)
    requires Linkable(s, g, root, elems, node, slot) && (x in s || x == node)
    requires 0 <= SlotIndex(g, slot) <= |elems|
    ensures var (s', root') := Link(s, root, node, slot);
      var g', elems' := LinkPlaces(g, node, slot), Inserted(elems, SlotIndex(g, slot), node);
      Placed(g', elems', x) && LinkedUp(s', g', root', |elems'|, x)
  {
    assert !slot.RootSlot? ==> Local(s, g, root, elems, slot.at);
    assert x in s ==> Local(s, g, root, elems, x);
  }

  lemma LinkDown(s: Store, g: map<Ref, Place>, root: Ref, elems: seq<Ref>, node: Ref, slot: Slot, x: Ref)
    requires Linkable(s, g, root, elems, node, slot) && (x in s || x == node)
    ensures var (s', root') := Link(s, root, node, slot);
      var g' := LinkPlaces(g, node, slot);
      g'.Keys == s'.Keys && LinkedLeft(s', g', x) && LinkedRight(s', g', x)
  {
    assert !slot.RootSlot? ==> Local(s, g, root, elems, slot.at);
    assert x in s ==> Local(s, g, root, elems, x);
  }

  lemma LinkShape(s: Store, g: map<Ref, Place>, root: Ref, elems: seq<Ref>, node: Ref, slot: Slot)
    requires Linkable(s, g, root, elems, node, slot)
    ensures 0 <= SlotIndex(g, slot) <= |elems|
    ensures var (s', root') := Link(s, root, node, slot);
      Shape(s', LinkPlaces(g, node, slot), root', Inserted(elems, SlotIndex(g, slot), node))
  {
    var (s', root') := Link(s, root, node, slot);
    assert !slot.RootSlot? ==> Local(s, g, root, elems, slot.at);
    var g', elems' := LinkPlaces(g, node, slot), Inserted(elems, SlotIndex(g, slot), node);
    forall x {:trigger Local(s', g', root', elems', x)} | x in s'
      ensures g'.Keys == s'.Keys && Local(s', g', root', elems', x)
    {
      LinkUp(s, g, root, elems, node, slot, x);
      LinkDown(s, g, root, elems, node, slot, x);
    }
    LinkDown(s, g, root, elems, node, slot, node);
  }

  /** A new leaf is red, so only the red rule can be broken, and only at the new node. */
  lemma LinkColours(s: Store, g: map<Ref, Place>, root: Ref, elems: seq<Ref>, bh: map<Ref, int>, node: Ref, slot: Slot)
    requires Linkable(s, g, root, elems, node, slot) && Coloured(s, bh, root)
    ensures var (s', root') := Link(s, root, node, slot);
      NearlyColoured(s', bh[node := 0], root', node)
  {
    var (s', root') := Link(s, root, node, slot);
    var bh' := bh[node := 0];
    forall x {:trigger Balanced(s', bh', x)} | x in s'
      ensures Balanced(s', bh', x)
    {
      if x != node {
        assert Balanced(s, bh, x) && Local(s, g, root, elems, x);
      }
    }
    forall x {:trigger RedOk(s', x, node)} | x in s'
      ensures RedOk(s', x, node)
    {
      if x != node {
        assert RedOk(s, x, NULL) && Local(s, g, root, elems, x);
      }
    }
  }
}
