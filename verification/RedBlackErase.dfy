/** Removal of a node and the rebalancing after it (hev_rbtree_erase). */
module RedBlackErase {
  import opened Addresses
  import opened RedBlackShape

  // Splicing out a node with at most one child.

  function Without(xs: seq<Ref>, k: nat): seq<Ref>
    requires k < |xs|
  {
    xs[..k] + xs[k + 1..]
  }

  function Drop(i: int, k: int): int
  {
    if i > k then i - 1 else i
  }

  ghost function UnlinkPlaces(g: map<Ref, Place>, n: Ref): map<Ref, Place>
    requires n in g
  {
    map x | x in g && x != n :: Place(Drop(g[x].pos, g[n].pos), Drop(g[x].lo, g[n].pos), Drop(g[x].hi, g[n].pos))
  }

  function OnlyChild(n: Node): Ref
  {
    if n.left == NULL then n.right else n.left
  }

  /** The links of `s'` are those of `s` with `n` replaced by its only child, if any. */
  ghost predicate Unlinked(s: Store, s': Store, root: Ref, root': Ref, n: Ref)
  {
    && n in s && (s[n].left == NULL || s[n].right == NULL)
    && s'.Keys == s.Keys - {n}
    && var q, c := s[n].parent, OnlyChild(s[n]);
    && (c != NULL ==> c in s' && c != q && SameLinks(s'[c], s[c].(parent := q)))
    && (q != NULL ==> q in s')
    && ChildChanged(s, s', root, root', q, n, c)
    && (forall x {:trigger s'[x]} :: x in s' && x != c && x != q ==> SameLinks(s'[x], s[x]))
  }

  lemma UnlinkUp(s: Store, s': Store, g: map<Ref, Place>, root: Ref, root': Ref, elems: seq<Ref>, n: Ref, x: Ref)
    requires Shape(s, g, root, elems) && Unlinked(s, s', root, root', n) && x in s'
    requires UnlinkPlaces(g, n).Keys == s'.Keys && 0 <= g[n].pos < |elems|
    ensures Placed(UnlinkPlaces(g, n), Without(elems, g[n].pos), x)
    ensures LinkedUp(s', UnlinkPlaces(g, n), root', |Without(elems, g[n].pos)|, x)
  {
    var q, c := s[n].parent, OnlyChild(s[n]);
    assert Local(s, g, root, elems, x) && Local(s, g, root, elems, n);
    assert q != NULL ==> Local(s, g, root, elems, q);
    assert c != NULL ==> Local(s, g, root, elems, c);
  }

  lemma UnlinkDown(s: Store, s': Store, g: map<Ref, Place>, root: Ref, root': Ref, elems: seq<Ref>, n: Ref, x: Ref)
    requires Shape(s, g, root, elems) && Unlinked(s, s', root, root', n) && x in s'
    requires UnlinkPlaces(g, n).Keys == s'.Keys
    ensures LinkedLeft(s', UnlinkPlaces(g, n), x) && LinkedRight(s', UnlinkPlaces(g, n), x)
  {
    var q, c := s[n].parent, OnlyChild(s[n]);
    assert Local(s, g, root, elems, x) && Local(s, g, root, elems, n);
    assert q != NULL ==> Local(s, g, root, elems, q);
    assert c != NULL ==> Local(s, g, root, elems, c);
  }

  lemma UnlinkShape(s: Store, s': Store, g: map<Ref, Place>, root: Ref, root': Ref, elems: seq<Ref>, n: Ref)
    requires Shape(s, g, root, elems) && Unlinked(s, s', root, root', n)
    ensures 0 <= g[n].pos < |elems|
    ensures Shape(s', UnlinkPlaces(g, n), root', Without(elems, g[n].pos))
  {
    var g' := UnlinkPlaces(g, n);
    assert Local(s, g, root, elems, n);
    assert g'.Keys == s'.Keys;
    var elems' := Without(elems, g[n].pos);
    forall x {:trigger Local(s', g', root', elems', x)} | x in s'
      ensures Local(s', g', root', elems', x)
    {
      UnlinkUp(s, s', g, root, root', elems, n, x);
      UnlinkDown(s, s', g, root, root', elems, n, x);
    }
    assert root' != NULL ==> Local(s, g, root, elems, root');
    assert root' == NULL ==> elems' == [];
    forall x | x in s'
      ensures elems' != []
    {
      assert Local(s', g', root', elems', x);
    }
  }

  /** All black heights agree but on one side of `p`, where one black node is missing. */
  ghost predicate Short(s: Store, bh: map<Ref, int>, p: Ref, left: bool)
    requires p in s && p in bh
  {
    && (if left then 0 <= At(bh, s[p].left) == At(bh, s[p].right) - 1
        else 0 <= At(bh, s[p].right) == At(bh, s[p].left) - 1)
    && (if left then At(bh, s[p].right) else At(bh, s[p].left)) == bh[p] - (if s[p].red then 0 else 1)
    && !RedAt(s, if left then s[p].left else s[p].right)
  }

  ghost predicate Deficient(s: Store, bh: map<Ref, int>, root: Ref, p: Ref, left: bool)
  {
    && bh.Keys == s.Keys && p in s
    && (forall n {:trigger Balanced(s, bh, n)} :: n in s && n != p ==> Balanced(s, bh, n))
    && Short(s, bh, p, left)
    && AllRedOk(s, NULL) && !RedAt(s, root)
  }

  /** A node with one child is black and its child is red. */
  lemma OneChildIsRed(s: Store, bh: map<Ref, int>, g: map<Ref, Place>, root: Ref, elems: seq<Ref>, n: Ref)
    requires Shape(s, g, root, elems) && Coloured(s, bh, root) && n in s
    requires (s[n].left == NULL) != (s[n].right == NULL)
    ensures !s[n].red && RedAt(s, OnlyChild(s[n]))
  {
    assert Local(s, g, root, elems, n) && Balanced(s, bh, n) && RedOk(s, n, NULL);
    assert Balanced(s, bh, OnlyChild(s[n]));
  }

  ghost function UnlinkHeights(s: Store, bh: map<Ref, int>, n: Ref): map<Ref, int>
    requires n in s && n in bh
  {
    map x | x in bh && x != n :: if x == OnlyChild(s[n]) then bh[n] else bh[x]
  }

  /** The colours of `s'` are those of `s`, the only child of `n` taking the colour of `n`. */
  ghost predicate ColourInherited(s: Store, s': Store, n: Ref)
    requires n in s && s'.Keys == s.Keys - {n}
  {
    forall x {:trigger s'[x]} :: x in s' ==> s'[x].red == (if x == OnlyChild(s[n]) then s[n].red else s[x].red)
  }

  lemma UnlinkReds(s: Store, s': Store, bh: map<Ref, int>, g: map<Ref, Place>, root: Ref, root': Ref, elems: seq<Ref>,
                   n: Ref)
    requires Shape(s, g, root, elems) && Coloured(s, bh, root)
    requires Unlinked(s, s', root, root', n) && ColourInherited(s, s', n)
    ensures AllRedOk(s', NULL) && !RedAt(s', root')
  {
    var q, c := s[n].parent, OnlyChild(s[n]);
    assert Local(s, g, root, elems, n) && RedOk(s, n, NULL);
    assert c != NULL ==> Local(s, g, root, elems, c);
    assert c != NULL ==> RedOk(s, c, NULL);
    if c != NULL {
      OneChildIsRed(s, bh, g, root, elems, n);
    }
    forall x {:trigger RedOk(s', x, NULL)} | x in s'
      ensures RedOk(s', x, NULL)
    {
      assert Local(s, g, root, elems, x) && RedOk(s, x, NULL);
    }
  }

  lemma UnlinkBalanced(s: Store, s': Store, bh: map<Ref, int>, g: map<Ref, Place>, root: Ref, root': Ref,
                       elems: seq<Ref>, n: Ref, x: Ref)
    requires Shape(s, g, root, elems) && Coloured(s, bh, root)
    requires Unlinked(s, s', root, root', n) && ColourInherited(s, s', n)
    requires x in s' && UnlinkHeights(s, bh, n).Keys == s'.Keys
    ensures var missing := OnlyChild(s[n]) == NULL && !s[n].red;
      if x == s[n].parent && missing
      then Short(s', UnlinkHeights(s, bh, n), x, s[x].left == n)
      else Balanced(s', UnlinkHeights(s, bh, n), x)
  {
    var q, c := s[n].parent, OnlyChild(s[n]);
    assert Local(s, g, root, elems, n) && Balanced(s, bh, n);
    if c != NULL {
      assert Local(s, g, root, elems, c) && Balanced(s, bh, c);
      OneChildIsRed(s, bh, g, root, elems, n);
    }
    assert Local(s, g, root, elems, x) && Balanced(s, bh, x);
  }

  lemma UnlinkColours(s: Store, s': Store, bh: map<Ref, int>, g: map<Ref, Place>, root: Ref, root': Ref,
                      elems: seq<Ref>, n: Ref)
    requires Shape(s, g, root, elems) && Coloured(s, bh, root)
    requires Unlinked(s, s', root, root', n) && ColourInherited(s, s', n)
    ensures var q := s[n].parent;
      if OnlyChild(s[n]) == NULL && !s[n].red && q != NULL
      then Deficient(s', UnlinkHeights(s, bh, n), root', q, s[q].left == n)
      else Coloured(s', UnlinkHeights(s, bh, n), root')
  {
    var bh' := UnlinkHeights(s, bh, n);
    UnlinkReds(s, s', bh, g, root, root', elems, n);
    assert bh'.Keys == s'.Keys;
    var q := s[n].parent;
    var missing := OnlyChild(s[n]) == NULL && !s[n].red;
    forall x {:trigger Balanced(s', bh', x)} | x in s'
      ensures if x == q && missing then Short(s', bh', x, s[x].left == n) else Balanced(s', bh', x)
    {
      UnlinkBalanced(s, s', bh, g, root, root', elems, n, x);
    }
    if q != NULL && missing {
      UnlinkBalanced(s, s', bh, g, root, root', elems, n, q);
    }
  }

  // Exchanging the names of two nodes.

  function Swap(x: Ref, a: Ref, b: Ref): Ref
  {
    if x == a then b else if x == b then a else x
  }

  ghost function SwapStore(s: Store, a: Ref, b: Ref): Store
    requires a in s && b in s
  {
    map x | x in s ::
      var n := s[Swap(x, a, b)];
      Node(Swap(n.parent, a, b), n.red, Swap(n.left, a, b), Swap(n.right, a, b))
  }

  ghost function SwapKeys<V>(m: map<Ref, V>, a: Ref, b: Ref): map<Ref, V>
    requires a in m && b in m
  {
    map x | x in m :: m[Swap(x, a, b)]
  }

  ghost function SwapElems(xs: seq<Ref>, a: Ref, b: Ref): seq<Ref>
  {
    seq(|xs|, i requires 0 <= i < |xs| => Swap(xs[i], a, b))
  }

  lemma SwapShape(s: Store, g: map<Ref, Place>, root: Ref, elems: seq<Ref>, a: Ref, b: Ref)
    requires Shape(s, g, root, elems) && a in s && b in s
    ensures Shape(SwapStore(s, a, b), SwapKeys(g, a, b), Swap(root, a, b), SwapElems(elems, a, b))
  {
    var s', g', root', elems' := SwapStore(s, a, b), SwapKeys(g, a, b), Swap(root, a, b), SwapElems(elems, a, b);
    forall x {:trigger Local(s', g', root', elems', x)} | x in s'
      ensures Local(s', g', root', elems', x)
    {
      assert Local(s, g, root, elems, Swap(x, a, b));
    }
  }

  lemma SwapColours(s: Store, bh: map<Ref, int>, g: map<Ref, Place>, root: Ref, elems: seq<Ref>, a: Ref, b: Ref)
    requires Shape(s, g, root, elems) && Coloured(s, bh, root) && a in s && b in s
    ensures Coloured(SwapStore(s, a, b), SwapKeys(bh, a, b), Swap(root, a, b))
  {
    var s', bh', root' := SwapStore(s, a, b), SwapKeys(bh, a, b), Swap(root, a, b);
    forall x {:trigger Balanced(s', bh', x)} | x in s'
      ensures Balanced(s', bh', x)
    {
      assert Balanced(s, bh, Swap(x, a, b)) && Local(s, g, root, elems, Swap(x, a, b));
    }
    forall x {:trigger RedOk(s', x, NULL)} | x in s'
      ensures RedOk(s', x, NULL)
    {
      assert RedOk(s, Swap(x, a, b), NULL) && Local(s, g, root, elems, Swap(x, a, b));
    }
  }

  // Pointer steps of the source.

  /** Case 1: the node has at most one child, which takes its place, its parent and its colour. */
  function EraseSimple(s: Store, root: Ref, node: Ref): (Store, Ref)
    requires node in s && (s[node].parent != NULL ==> s[node].parent in s)
    requires s[node].left != NULL ==> s[node].left in s
    requires s[node].right != NULL ==> s[node].right in s
  {
    var parent, child, tmp := s[node].parent, s[node].right, s[node].left;
    if tmp == NULL then
      var (s1, root') := ChangeChild(s, root, node, child, parent);
      ((if child != NULL then SetParentColour(s1, child, parent, s[node].red) else s1) - {node}, root')
    else
      var s1 := SetParentColour(s, tmp, parent, s[node].red);
      var (s2, root') := ChangeChild(s1, root, node, tmp, parent);
      (s2 - {node}, root')
  }

  /** Cases 2 and 3: the successor takes the place of the node; `parent` is the node above the gap it leaves. */
  function EraseSplice(s: Store, root: Ref, node: Ref, successor: Ref, parent: Ref): (Store, Ref)
    requires node in s && successor in s && parent in s && s[node].right in s && s[node].left in s
    requires s[node].parent != NULL ==> s[node].parent in s
    requires s[successor].right != NULL ==> s[successor].right in s
  {
    var child, child2 := s[node].right, s[successor].right;
    var s1 :=
      if parent == successor then s
      else
        var t1 := s[parent := s[parent].(left := child2)];
        var t2 := t1[successor := t1[successor].(right := child)];
        t2[child := t2[child].(parent := successor)];
    var tmp := s1[node].left;
    var s2 := s1[successor := s1[successor].(left := tmp)];
    var s3 := if tmp in s2 then s2[tmp := s2[tmp].(parent := successor)] else s2;
    var (s4, root') := ChangeChild(s3, root, node, successor, s[node].parent);
    var s5 := if child2 != NULL then SetParentColour(s4, child2, parent, false) else s4;
    (SetParentColour(s5, successor, s[node].parent, s[node].red) - {node}, root')
  }

  lemma EraseSimpleUnlinks(s: Store, g: map<Ref, Place>, root: Ref, elems: seq<Ref>, node: Ref)
    requires Shape(s, g, root, elems) && node in s && (s[node].left == NULL || s[node].right == NULL)
    ensures s[node].parent != NULL ==> s[node].parent in s
    ensures s[node].left != NULL ==> s[node].left in s
    ensures s[node].right != NULL ==> s[node].right in s
    ensures var (s', root') := EraseSimple(s, root, node);
      Unlinked(s, s', root, root', node) && ColourInherited(s, s', node)
  {
    assert Local(s, g, root, elems, node);
    var q, c := s[node].parent, OnlyChild(s[node]);
    assert q != NULL ==> Local(s, g, root, elems, q);
    assert c != NULL ==> Local(s, g, root, elems, c);
  }

  /** `successor` is the in-order successor of `node`, and `parent` the node above the gap it leaves. */
  ghost predicate Successor(s: Store, g: map<Ref, Place>, root: Ref, elems: seq<Ref>, node: Ref, successor: Ref,
                            parent: Ref)
  {
    && Shape(s, g, root, elems) && node in s && s[node].left != NULL && s[node].right != NULL
    && successor in s && s[successor].left == NULL && g[successor].pos == g[node].pos + 1
    && parent == (if s[node].right == successor then successor else s[successor].parent)
  }

  /** The nodes that the splice rewrites, and which of them can be the same. */
  ghost predicate AroundSplice(s: Store, root: Ref, node: Ref, successor: Ref, parent: Ref)
  {
    && NULL !in s && node in s && successor in s && parent in s && s[node].left in s && s[node].right in s
    && s[successor].left == NULL && node != successor && parent != node && root != successor
    && var q, l, r, c := s[node].parent, s[node].left, s[node].right, s[successor].right;
    && s[l].parent == node && s[r].parent == node && l != r && l != successor && l != parent && l != node && r != node
    && (q == NULL <==> root == node)
    && (q != NULL ==>
        q in s && q != node && q != successor && q != l && q != r && q != parent
        && (s[q].left == node) != (s[q].right == node))
    && (c != NULL ==>
        c in s && s[c].parent == successor && c != node && c != successor && c != l && c != r && c != q && c != parent)
    && (if r == successor then parent == successor
        else parent == s[successor].parent && parent != successor && s[parent].left == successor
             && s[parent].right != successor)
  }

  /** Only the neighbours of `node` and `successor` point to them. */
  ghost predicate PointsElsewhere(s: Store, node: Ref, successor: Ref, x: Ref)
    requires x in s && node in s && successor in s
  {
    && (x != s[node].parent ==> s[x].left != node && s[x].right != node)
    && (x != s[node].left && x != s[node].right ==> s[x].parent != node)
    && (x != s[successor].parent ==> s[x].left != successor && s[x].right != successor)
    && (x != s[successor].right ==> s[x].parent != successor)
  }

  lemma SpliceLinks(s: Store, g: map<Ref, Place>, root: Ref, elems: seq<Ref>, node: Ref, successor: Ref, parent: Ref)
    requires Successor(s, g, root, elems, node, successor, parent)
    ensures AroundSplice(s, root, node, successor, parent)
  {
    var q, l, r, c := s[node].parent, s[node].left, s[node].right, s[successor].right;
    assert Local(s, g, root, elems, node) && Local(s, g, root, elems, successor);
    assert Local(s, g, root, elems, l) && Local(s, g, root, elems, r);
    assert q != NULL ==> Local(s, g, root, elems, q);
    assert c != NULL ==> Local(s, g, root, elems, c);
    if r != successor {
      assert s[successor].parent != NULL;
      assert Local(s, g, root, elems, s[successor].parent);
    }
  }

  lemma OthersPointElsewhere(s: Store, g: map<Ref, Place>, root: Ref, elems: seq<Ref>, node: Ref, successor: Ref,
                             parent: Ref, x: Ref)
    requires Successor(s, g, root, elems, node, successor, parent) && x in s
    ensures PointsElsewhere(s, node, successor, x)
  {
    assert Local(s, g, root, elems, x);
    assert s[x].parent != NULL ==> Local(s, g, root, elems, s[x].parent);
    assert s[x].left != NULL ==> Local(s, g, root, elems, s[x].left);
    assert s[x].right != NULL ==> Local(s, g, root, elems, s[x].right);
    assert Local(s, g, root, elems, node) && Local(s, g, root, elems, successor);
  }

  lemma SpliceNear(s: Store, root: Ref, node: Ref, successor: Ref, parent: Ref)
    requires AroundSplice(s, root, node, successor, parent)
    requires forall x {:trigger PointsElsewhere(s, node, successor, x)} ::
      x in s ==> PointsElsewhere(s, node, successor, x)
    ensures var (s', root') := EraseSplice(s, root, node, successor, parent);
      var s1 := SwapStore(s, node, successor);
      && s'.Keys == s1.Keys - {node}
      && s1[node].parent == parent && s1[node].left == NULL && s1[node].right == s[successor].right
      && var c := s[successor].right;
      && (c != NULL ==> SameLinks(s'[c], s1[c].(parent := parent)) && !s'[c].red)
      && ChildChanged(s1, s', Swap(root, node, successor), root', parent, node, c)
      && s'[parent].red == s1[parent].red
  {
    var c := s[successor].right;
    assert PointsElsewhere(s, node, successor, parent);
    SpliceParent(s, root, node, successor, parent);
    if c != NULL {
      assert PointsElsewhere(s, node, successor, c);
      SpliceChild(s, root, node, successor, parent);
    }
  }

  lemma SpliceChild(s: Store, root: Ref, node: Ref, successor: Ref, parent: Ref)
    requires AroundSplice(s, root, node, successor, parent) && s[successor].right != NULL
    requires PointsElsewhere(s, node, successor, s[successor].right)
    ensures var (s', root') := EraseSplice(s, root, node, successor, parent);
      var s1, c := SwapStore(s, node, successor), s[successor].right;
      c in s' && c in s1 && SameLinks(s'[c], s1[c].(parent := parent)) && !s'[c].red
  {
  }

  lemma SpliceParent(s: Store, root: Ref, node: Ref, successor: Ref, parent: Ref)
    requires AroundSplice(s, root, node, successor, parent) && PointsElsewhere(s, node, successor, parent)
    ensures var (s', root') := EraseSplice(s, root, node, successor, parent);
      var s1 := SwapStore(s, node, successor);
      && s'.Keys == s1.Keys - {node} && parent in s' && parent in s1 && node in s1
      && s1[node].parent == parent && s1[node].left == NULL && s1[node].right == s[successor].right
      && ChildChanged(s1, s', Swap(root, node, successor), root', parent, node, s[successor].right)
      && s'[parent].red == s1[parent].red
  {
    SpliceRoot(s, root, node, successor, parent);
    if parent == successor {
      SpliceParentNear(s, root, node, successor);
    } else {
      SpliceParentFar(s, root, node, successor, parent);
    }
  }

  lemma SpliceRoot(s: Store, root: Ref, node: Ref, successor: Ref, parent: Ref)
    requires AroundSplice(s, root, node, successor, parent)
    ensures var (s', root') := EraseSplice(s, root, node, successor, parent);
      var s1 := SwapStore(s, node, successor);
      && s'.Keys == s.Keys - {node} && s1.Keys == s.Keys && root' == Swap(root, node, successor)
      && s1[node].parent == parent && s1[node].left == NULL && s1[node].right == s[successor].right
  {
  }

  lemma SpliceParentNear(s: Store, root: Ref, node: Ref, successor: Ref)
    requires AroundSplice(s, root, node, successor, successor)
    ensures var s', s1 := EraseSplice(s, root, node, successor, successor).0, SwapStore(s, node, successor);
      && successor in s' && successor in s1 && s1[successor].left != node
      && s'[successor] == s1[successor].(right := s[successor].right)
  {
  }

  lemma SpliceParentFar(s: Store, root: Ref, node: Ref, successor: Ref, parent: Ref)
    requires AroundSplice(s, root, node, successor, parent) && parent != successor
      && PointsElsewhere(s, node, successor, parent)
    ensures var s', s1 := EraseSplice(s, root, node, successor, parent).0, SwapStore(s, node, successor);
      && parent in s' && parent in s1 && s1[parent].left == node
      && s'[parent] == s1[parent].(left := s[successor].right)
  {
  }

  lemma SpliceFar(s: Store, root: Ref, node: Ref, successor: Ref, parent: Ref, x: Ref)
    requires AroundSplice(s, root, node, successor, parent)
    requires x in s && PointsElsewhere(s, node, successor, x) && x != node && x != parent && x != s[successor].right
    ensures var (s', root') := EraseSplice(s, root, node, successor, parent);
      x in s' && s'[x] == SwapStore(s, node, successor)[x]
  {
  }

  lemma EraseSpliceUnlinks(s: Store, g: map<Ref, Place>, bh: map<Ref, int>, root: Ref, elems: seq<Ref>, node: Ref,
                           successor: Ref, parent: Ref)
    requires Successor(s, g, root, elems, node, successor, parent) && Coloured(s, bh, root)
    ensures AroundSplice(s, root, node, successor, parent)
    ensures var (s', root') := EraseSplice(s, root, node, successor, parent);
      var s1 := SwapStore(s, node, successor);
      Unlinked(s1, s', Swap(root, node, successor), root', node) && ColourInherited(s1, s', node)
  {
    SpliceLinks(s, g, root, elems, node, successor, parent);
    var (s', root') := EraseSplice(s, root, node, successor, parent);
    var s1 := SwapStore(s, node, successor);
    forall x {:trigger PointsElsewhere(s, node, successor, x)} | x in s
      ensures PointsElsewhere(s, node, successor, x)
    {
      OthersPointElsewhere(s, g, root, elems, node, successor, parent, x);
    }
    SpliceNear(s, root, node, successor, parent);
    if s[successor].right != NULL {
      OneChildIsRed(s, bh, g, root, elems, successor);
    }
    forall x {:trigger s'[x]} | x in s' && x != parent && x != s[successor].right
      ensures s'[x] == s1[x]
    {
      OthersPointElsewhere(s, g, root, elems, node, successor, parent, x);
      SpliceFar(s, root, node, successor, parent, x);
    }
  }
}
