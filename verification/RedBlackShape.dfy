/** Links, spans and colours of the intrusive red-black tree of hev-rbtree.c. */
module RedBlackShape {
  import opened Addresses


  /** One node. The parent pointer and the colour share a word in the source. */
  datatype Node = Node(parent: Ref, red: bool, left: Ref, right: Ref)
  type Store = map<Ref, Node>

  /** Index of a node in the in-order sequence and the half-open span of its subtree. */
  datatype Place = Place(pos: int, lo: int, hi: int)

  ghost predicate LinkedUp(s: Store, g: map<Ref, Place>, root: Ref, count: int, n: Ref)
    requires n in s && n in g
  {
    if s[n].parent == NULL then n == root && g[n].lo == 0 && g[n].hi == count
    else s[n].parent in s && (s[s[n].parent].left == n || s[s[n].parent].right == n)
  }

  ghost predicate LinkedLeft(s: Store, g: map<Ref, Place>, n: Ref)
    requires n in s && n in g && g.Keys == s.Keys
  {
    if s[n].left == NULL then g[n].lo == g[n].pos
    else s[n].left in s && s[s[n].left].parent == n && g[s[n].left].lo == g[n].lo && g[s[n].left].hi == g[n].pos
  }

  ghost predicate LinkedRight(s: Store, g: map<Ref, Place>, n: Ref)
    requires n in s && n in g && g.Keys == s.Keys
  {
    if s[n].right == NULL then g[n].hi == g[n].pos + 1
    else s[n].right in s && s[s[n].right].parent == n && g[s[n].right].lo == g[n].pos + 1 && g[s[n].right].hi == g[n].hi
  }

  ghost predicate Placed(g: map<Ref, Place>, elems: seq<Ref>, n: Ref)
    requires n in g
  {
    0 <= g[n].lo <= g[n].pos < g[n].hi <= |elems| && elems[g[n].pos] == n
  }

  /** The links of `n` agree with those of its neighbours and with the in-order sequence. */
  ghost predicate Local(s: Store, g: map<Ref, Place>, root: Ref, elems: seq<Ref>, n: Ref)
    requires n in s && g.Keys == s.Keys
  {
    && Placed(g, elems, n)
    && LinkedUp(s, g, root, |elems|, n)
    && LinkedLeft(s, g, n)
    && LinkedRight(s, g, n)
  }

  ghost predicate Shape(s: Store, g: map<Ref, Place>, root: Ref, elems: seq<Ref>)
  {
    && NULL !in s
    && g.Keys == s.Keys
    && (if root == NULL then s == map[] && elems == [] else root in s && s[root].parent == NULL)
    && (forall i :: 0 <= i < |elems| ==> elems[i] in s && g[elems[i]].pos == i)
    && (forall n {:trigger Local(s, g, root, elems, n)} :: n in s ==> Local(s, g, root, elems, n))
  }

  predicate SameLinks(a: Node, b: Node)
  {
    a.parent == b.parent && a.left == b.left && a.right == b.right
  }

  /** `q` is the parent of `p` (or NULL) and now has `n` where it had `p`. */
  ghost predicate ChildChanged(s: Store, s': Store, root: Ref, root': Ref, q: Ref, p: Ref, n: Ref)
    requires q != NULL ==> q in s && q in s'
  {
    if q == NULL then root' == n
    else
      && root' == root
      && s'[q].parent == s[q].parent
      && (if s[q].left == p then s'[q].left == n && s'[q].right == s[q].right
          else s'[q].right == n && s'[q].left == s[q].left)
  }

  /** The links of `s'` are those of `s` with a left rotation at `p`. */
  ghost predicate RotatedLeft(s: Store, s': Store, root: Ref, root': Ref, p: Ref)
  {
    && s'.Keys == s.Keys
    && p in s && s[p].right in s && s[p].right != p
    && var q, n := s[p].parent, s[p].right;
       var m := s[n].left;
    && (m != NULL ==>
        m in s && m != p && m != n && m != q && s'[m].parent == p && s'[m].left == s[m].left
        && s'[m].right == s[m].right)
    && (q != NULL ==> q in s && q != p && q != n)
    && ChildChanged(s, s', root, root', q, p, n)
    && SameLinks(s'[p], s[p].(parent := n, right := m))
    && SameLinks(s'[n], s[n].(parent := q, left := p))
    && (forall x :: x in s && x != p && x != n && x != m && x != q ==> SameLinks(s'[x], s[x]))
  }

  ghost function PlacesLeft(s: Store, g: map<Ref, Place>, p: Ref): map<Ref, Place>
    requires p in g && p in s && s[p].right in g
  {
    g[p := g[p].(hi := g[s[p].right].pos)][s[p].right := g[s[p].right].(lo := g[p].lo)]
  }

  lemma RotateLeftNear(s: Store, s': Store, g: map<Ref, Place>, root: Ref, root': Ref, elems: seq<Ref>, p: Ref, x: Ref)
    requires Shape(s, g, root, elems)
    requires RotatedLeft(s, s', root, root', p)
    requires x in s && x in {p, s[p].right, s[s[p].right].left, s[p].parent}
    ensures PlacesLeft(s, g, p).Keys == s'.Keys
    ensures Local(s', PlacesLeft(s, g, p), root', elems, x)
  {
    var q, n := s[p].parent, s[p].right;
    var m := s[n].left;
    assert Local(s, g, root, elems, p);
    assert Local(s, g, root, elems, n);
    assert q != NULL ==> Local(s, g, root, elems, q);
    assert m != NULL ==> Local(s, g, root, elems, m);
  }

  lemma RotateLeftFar(s: Store, s': Store, g: map<Ref, Place>, root: Ref, root': Ref, elems: seq<Ref>, p: Ref, x: Ref)
    requires Shape(s, g, root, elems)
    requires RotatedLeft(s, s', root, root', p)
    requires x in s && x !in {p, s[p].right, s[s[p].right].left, s[p].parent}
    ensures PlacesLeft(s, g, p).Keys == s'.Keys
    ensures Local(s', PlacesLeft(s, g, p), root', elems, x)
  {
    var q, n := s[p].parent, s[p].right;
    var m := s[n].left;
    assert Local(s, g, root, elems, x);
    assert Local(s, g, root, elems, p);
    assert Local(s, g, root, elems, n);
    assert q != NULL ==> Local(s, g, root, elems, q);
    assert m != NULL ==> Local(s, g, root, elems, m);
  }

  lemma RotateLeftShape(s: Store, s': Store, g: map<Ref, Place>, root: Ref, root': Ref, elems: seq<Ref>, p: Ref)
    requires Shape(s, g, root, elems)
    requires RotatedLeft(s, s', root, root', p)
    ensures Shape(s', PlacesLeft(s, g, p), root', elems)
  {
    forall x {:trigger Local(s', PlacesLeft(s, g, p), root', elems, x)} | x in s
      ensures PlacesLeft(s, g, p).Keys == s'.Keys
      ensures Local(s', PlacesLeft(s, g, p), root', elems, x)
    {
      if x in {p, s[p].right, s[s[p].right].left, s[p].parent} {
        RotateLeftNear(s, s', g, root, root', elems, p, x);
      } else {
        RotateLeftFar(s, s', g, root, root', elems, p, x);
      }
    }
    assert Local(s, g, root, elems, p) && Local(s, g, root, elems, s[p].right);
    assert s[s[p].right].left != NULL ==> Local(s, g, root, elems, s[s[p].right].left);
  }
  /** The links of `s'` are those of `s` with a right rotation at `p`. */
  ghost predicate RotatedRight(s: Store, s': Store, root: Ref, root': Ref, p: Ref)
  {
    && s'.Keys == s.Keys
    && p in s && s[p].left in s && s[p].left != p
    && var q, n := s[p].parent, s[p].left;
       var m := s[n].right;
    && (m != NULL ==>
        m in s && m != p && m != n && m != q && s'[m].parent == p && s'[m].right == s[m].right
        && s'[m].left == s[m].left)
    && (q != NULL ==> q in s && q != p && q != n)
    && ChildChanged(s, s', root, root', q, p, n)
    && SameLinks(s'[p], s[p].(parent := n, left := m))
    && SameLinks(s'[n], s[n].(parent := q, right := p))
    && (forall x :: x in s && x != p && x != n && x != m && x != q ==> SameLinks(s'[x], s[x]))
  }

  ghost function PlacesRight(s: Store, g: map<Ref, Place>, p: Ref): map<Ref, Place>
    requires p in g && p in s && s[p].left in g
  {
    g[p := g[p].(lo := g[s[p].left].pos + 1)][s[p].left := g[s[p].left].(hi := g[p].hi)]
  }

  lemma RotateRightNear(s: Store, s': Store, g: map<Ref, Place>, root: Ref, root': Ref, elems: seq<Ref>, p: Ref, x: Ref)
    requires Shape(s, g, root, elems)
    requires RotatedRight(s, s', root, root', p)
    requires x in s && x in {p, s[p].left, s[s[p].left].right, s[p].parent}
    ensures PlacesRight(s, g, p).Keys == s'.Keys
    ensures Local(s', PlacesRight(s, g, p), root', elems, x)
  {
    var q, n := s[p].parent, s[p].left;
    var m := s[n].right;
    assert Local(s, g, root, elems, p);
    assert Local(s, g, root, elems, n);
    assert q != NULL ==> Local(s, g, root, elems, q);
    assert m != NULL ==> Local(s, g, root, elems, m);
  }

  lemma RotateRightFar(s: Store, s': Store, g: map<Ref, Place>, root: Ref, root': Ref, elems: seq<Ref>, p: Ref, x: Ref)
    requires Shape(s, g, root, elems)
    requires RotatedRight(s, s', root, root', p)
    requires x in s && x !in {p, s[p].left, s[s[p].left].right, s[p].parent}
    ensures PlacesRight(s, g, p).Keys == s'.Keys
    ensures Local(s', PlacesRight(s, g, p), root', elems, x)
  {
    var q, n := s[p].parent, s[p].left;
    var m := s[n].right;
    assert Local(s, g, root, elems, x);
    assert Local(s, g, root, elems, p);
    assert Local(s, g, root, elems, n);
    assert q != NULL ==> Local(s, g, root, elems, q);
    assert m != NULL ==> Local(s, g, root, elems, m);
  }

  lemma RotateRightShape(s: Store, s': Store, g: map<Ref, Place>, root: Ref, root': Ref, elems: seq<Ref>, p: Ref)
    requires Shape(s, g, root, elems)
    requires RotatedRight(s, s', root, root', p)
    ensures Shape(s', PlacesRight(s, g, p), root', elems)
  {
    forall x {:trigger Local(s', PlacesRight(s, g, p), root', elems, x)} | x in s
      ensures PlacesRight(s, g, p).Keys == s'.Keys
      ensures Local(s', PlacesRight(s, g, p), root', elems, x)
    {
      if x in {p, s[p].left, s[s[p].left].right, s[p].parent} {
        RotateRightNear(s, s', g, root, root', elems, p, x);
      } else {
        RotateRightFar(s, s', g, root, root', elems, p, x);
      }
    }
    assert Local(s, g, root, elems, p) && Local(s, g, root, elems, s[p].left);
    assert s[s[p].left].right != NULL ==> Local(s, g, root, elems, s[s[p].left].right);
  }

  // Colours.

  ghost function At(bh: map<Ref, int>, n: Ref): int
  {
    if n in bh then bh[n] else 0
  }

  predicate RedAt(s: Store, n: Ref)
  {
    n in s && s[n].red
  }

  /** Both subtrees of `n` have the same black height and `bh[n]` counts `n` on top of it. */
  ghost predicate Balanced(s: Store, bh: map<Ref, int>, n: Ref)
    requires n in s && n in bh
  {
    0 <= At(bh, s[n].left) == At(bh, s[n].right) == bh[n] - (if s[n].red then 0 else 1)
  }

  /** A red node has no red child, `except` aside. */
  ghost predicate RedOk(s: Store, n: Ref, except: Ref)
    requires n in s
  {
    s[n].red ==>
      && (s[n].left == except || !RedAt(s, s[n].left))
      && (s[n].right == except || !RedAt(s, s[n].right))
  }

  ghost predicate AllBalanced(s: Store, bh: map<Ref, int>)
  {
    bh.Keys == s.Keys && forall n {:trigger Balanced(s, bh, n)} :: n in s ==> Balanced(s, bh, n)
  }

  ghost predicate AllRedOk(s: Store, except: Ref)
  {
    forall n {:trigger RedOk(s, n, except)} :: n in s ==> RedOk(s, n, except)
  }

  /** Black heights agree everywhere; only `node` may be a red child of a red parent or a red root. */
  ghost predicate NearlyColoured(s: Store, bh: map<Ref, int>, root: Ref, node: Ref)
  {
    && AllBalanced(s, bh)
    && AllRedOk(s, node)
    && (RedAt(s, root) ==> root == node)
  }

  ghost predicate Coloured(s: Store, bh: map<Ref, int>, root: Ref)
  {
    NearlyColoured(s, bh, root, NULL)
  }

  /** Shape speaks of links only. */
  lemma RecolourShape(s: Store, s': Store, g: map<Ref, Place>, root: Ref, elems: seq<Ref>)
    requires Shape(s, g, root, elems)
    requires s'.Keys == s.Keys
    requires forall x {:trigger s'[x]} :: x in s ==> SameLinks(s[x], s'[x])
    ensures Shape(s', g, root, elems)
  {
    forall x {:trigger Local(s', g, root, elems, x)} | x in s'
      ensures Local(s', g, root, elems, x)
    {
      assert Local(s, g, root, elems, x);
    }
  }

  // Pointer steps of the source, each giving the store it leaves behind.

  function SetParentColour(s: Store, n: Ref, parent: Ref, red: bool): Store
    requires n in s
  {
    s[n := s[n].(parent := parent, red := red)]
  }

  function ChangeChild(s: Store, root: Ref, old_: Ref, new_: Ref, parent: Ref): (Store, Ref)
    requires parent != NULL ==> parent in s
  {
    if parent == NULL then (s, new_)
    else if s[parent].left == old_ then (s[parent := s[parent].(left := new_)], root)
    else (s[parent := s[parent].(right := new_)], root)
  }

  /** The new node takes the parent and colour of the old one, which goes below it with the given colour. */
  function RotateSetParents(s: Store, root: Ref, old_: Ref, new_: Ref, red: bool): (Store, Ref)
    requires old_ in s && new_ in s
    requires s[old_].parent != NULL ==> s[old_].parent in s
  {
    var parent := s[old_].parent;
    var s1 := s[new_ := s[new_].(parent := s[old_].parent, red := s[old_].red)];
    ChangeChild(SetParentColour(s1, old_, new_, red), root, old_, new_, parent)
  }
}
