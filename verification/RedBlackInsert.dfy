/** Rebalancing after an insertion (hev_rbtree_insert_color). */
module RedBlackInsert {
  import opened Addresses
  import opened RedBlackShape

  /** The uncle of the red child `node` of the red `p` is red too: colours of the three are flipped. */
  ghost predicate Flipped(s: Store, s': Store, gp: Ref, p: Ref, u: Ref)
  {
    && gp in s && RedAt(s, p) && RedAt(s, u) && p != u
    && s[p].parent == gp && s[u].parent == gp
    && ((s[gp].left == p && s[gp].right == u) || (s[gp].left == u && s[gp].right == p))
    && s' == s[u := s[u].(red := false)][p := s[p].(red := false)][gp := s[gp].(red := true)]
  }

  lemma FlipBalanced(s: Store, s': Store, g: map<Ref, Place>, root: Ref, elems: seq<Ref>, bh: map<Ref, int>,
                     gp: Ref, p: Ref, u: Ref, node: Ref)
    requires Shape(s, g, root, elems) && NearlyColoured(s, bh, root, node)
    requires RedAt(s, node) && s[node].parent == p && Flipped(s, s', gp, p, u)
    ensures AllBalanced(s', bh[p := bh[p] + 1][u := bh[u] + 1])
  {
    var bh' := bh[p := bh[p] + 1][u := bh[u] + 1];
    assert Local(s, g, root, elems, p) && Local(s, g, root, elems, u) && Local(s, g, root, elems, gp);
    assert Balanced(s, bh, p) && Balanced(s, bh, u) && Balanced(s, bh, gp);
    assert RedOk(s, gp, node);
    forall x {:trigger Balanced(s', bh', x)} | x in s'
      ensures Balanced(s', bh', x)
    {
      assert Balanced(s, bh, x) && Local(s, g, root, elems, x);
    }
  }

  lemma FlipReds(s: Store, s': Store, g: map<Ref, Place>, root: Ref, elems: seq<Ref>, bh: map<Ref, int>,
                 gp: Ref, p: Ref, u: Ref, node: Ref)
    requires Shape(s, g, root, elems) && NearlyColoured(s, bh, root, node)
    requires RedAt(s, node) && s[node].parent == p && Flipped(s, s', gp, p, u)
    ensures AllRedOk(s', gp) && (RedAt(s', root) ==> root == gp)
  {
    assert Local(s, g, root, elems, p) && Local(s, g, root, elems, gp);
    forall x {:trigger RedOk(s', x, gp)} | x in s'
      ensures RedOk(s', x, gp)
    {
      assert RedOk(s, x, node) && Local(s, g, root, elems, x);
    }
  }

  /** Left rotation at the red `p` over its red right child `n`; afterwards `p` is the red child of a red parent. */
  lemma RedRotateLeftColours(s: Store, s': Store, g: map<Ref, Place>, root: Ref, root': Ref, elems: seq<Ref>,
                             bh: map<Ref, int>, p: Ref)
    requires Shape(s, g, root, elems) && RotatedLeft(s, s', root, root', p)
    requires NearlyColoured(s, bh, root, s[p].right)
    requires RedAt(s, p) && RedAt(s, s[p].right) && s[p].parent != NULL
    requires forall x {:trigger s'[x]} :: x in s ==> s'[x].red == s[x].red
    ensures NearlyColoured(s', bh, root', p)
  {
    var q, n := s[p].parent, s[p].right;
    var m := s[n].left;
    assert Local(s, g, root, elems, p) && Local(s, g, root, elems, n) && Local(s, g, root, elems, q);
    assert m != NULL ==> Local(s, g, root, elems, m);
    assert Balanced(s, bh, p) && Balanced(s, bh, n) && Balanced(s, bh, q);
    assert RedOk(s, p, n) && RedOk(s, n, n) && RedOk(s, q, n);
    forall x {:trigger Balanced(s', bh, x)} | x in s'
      ensures Balanced(s', bh, x)
    {
      assert Balanced(s, bh, x) && Local(s, g, root, elems, x);
    }
    forall x {:trigger RedOk(s', x, p)} | x in s'
      ensures RedOk(s', x, p)
    {
      assert RedOk(s, x, n) && Local(s, g, root, elems, x);
    }
  }

  /** Right rotation at the red `p` over its red left child `n`; afterwards `p` is the red child of a red parent. */
  lemma RedRotateRightColours(s: Store, s': Store, g: map<Ref, Place>, root: Ref, root': Ref, elems: seq<Ref>,
                              bh: map<Ref, int>, p: Ref)
    requires Shape(s, g, root, elems) && RotatedRight(s, s', root, root', p)
    requires NearlyColoured(s, bh, root, s[p].left)
    requires RedAt(s, p) && RedAt(s, s[p].left) && s[p].parent != NULL
    requires forall x {:trigger s'[x]} :: x in s ==> s'[x].red == s[x].red
    ensures NearlyColoured(s', bh, root', p)
  {
    var q, n := s[p].parent, s[p].left;
    var m := s[n].right;
    assert Local(s, g, root, elems, p) && Local(s, g, root, elems, n) && Local(s, g, root, elems, q);
    assert m != NULL ==> Local(s, g, root, elems, m);
    assert Balanced(s, bh, p) && Balanced(s, bh, n) && Balanced(s, bh, q);
    assert RedOk(s, p, n) && RedOk(s, n, n) && RedOk(s, q, n);
    forall x {:trigger Balanced(s', bh, x)} | x in s'
      ensures Balanced(s', bh, x)
    {
      assert Balanced(s, bh, x) && Local(s, g, root, elems, x);
    }
    forall x {:trigger RedOk(s', x, p)} | x in s'
      ensures RedOk(s', x, p)
    {
      assert RedOk(s, x, n) && Local(s, g, root, elems, x);
    }
  }

  /** Right rotation at the black `gp` over its red left child, whose own left child `node` is red too. */
  ghost predicate BlackRotatedRight(s: Store, s': Store, g: map<Ref, Place>, root: Ref, root': Ref, elems: seq<Ref>,
                                    bh: map<Ref, int>, gp: Ref, node: Ref)
  {
    && Shape(s, g, root, elems) && RotatedRight(s, s', root, root', gp)
    && NearlyColoured(s, bh, root, node)
    && RedAt(s, node) && RedAt(s, s[gp].left) && s[s[gp].left].left == node && !s[gp].red && !RedAt(s, s[gp].right)
    && !s'[s[gp].left].red && s'[gp].red
    && (forall x {:trigger s'[x]} :: x in s && x != gp && x != s[gp].left ==> s'[x].red == s[x].red)
  }

  lemma BlackRotateRightBalanced(s: Store, s': Store, g: map<Ref, Place>, root: Ref, root': Ref, elems: seq<Ref>,
                                 bh: map<Ref, int>, gp: Ref, node: Ref)
    requires BlackRotatedRight(s, s', g, root, root', elems, bh, gp, node)
    ensures AllBalanced(s', bh[s[gp].left := bh[s[gp].left] + 1][gp := bh[gp] - 1])
  {
    var p := s[gp].left;
    var bh' := bh[p := bh[p] + 1][gp := bh[gp] - 1];
    BlackRotateRightPair(s, s', g, root, root', elems, bh, gp, node);
    forall x {:trigger Balanced(s', bh', x)} | x in s'
      ensures Balanced(s', bh', x)
    {
      if x != p && x != gp {
        BlackRotateRightOther(s, s', g, root, root', elems, bh, gp, node, x);
      }
    }
  }

  lemma BlackRotateRightPair(s: Store, s': Store, g: map<Ref, Place>, root: Ref, root': Ref, elems: seq<Ref>,
                             bh: map<Ref, int>, gp: Ref, node: Ref)
    requires BlackRotatedRight(s, s', g, root, root', elems, bh, gp, node)
    ensures var p := s[gp].left;
      var bh' := bh[p := bh[p] + 1][gp := bh[gp] - 1];
      p in s' && gp in s' && Balanced(s', bh', p) && Balanced(s', bh', gp)
  {
    var p := s[gp].left;
    assert Local(s, g, root, elems, p) && Local(s, g, root, elems, gp);
    assert Balanced(s, bh, p) && Balanced(s, bh, gp);
  }

  lemma BlackRotateRightOther(s: Store, s': Store, g: map<Ref, Place>, root: Ref, root': Ref, elems: seq<Ref>,
                              bh: map<Ref, int>, gp: Ref, node: Ref, x: Ref)
    requires BlackRotatedRight(s, s', g, root, root', elems, bh, gp, node) && x in s' && x != gp && x != s[gp].left
    ensures Balanced(s', bh[s[gp].left := bh[s[gp].left] + 1][gp := bh[gp] - 1], x)
  {
    var p := s[gp].left;
    assert Local(s, g, root, elems, p) && Local(s, g, root, elems, gp) && Local(s, g, root, elems, x);
    assert Balanced(s, bh, p) && Balanced(s, bh, gp) && Balanced(s, bh, x);
  }

  lemma BlackRotateRightReds(s: Store, s': Store, g: map<Ref, Place>, root: Ref, root': Ref, elems: seq<Ref>,
                             bh: map<Ref, int>, gp: Ref, node: Ref)
    requires BlackRotatedRight(s, s', g, root, root', elems, bh, gp, node)
    ensures AllRedOk(s', NULL) && !RedAt(s', root')
  {
    var q, p := s[gp].parent, s[gp].left;
    var m := s[p].right;
    assert Local(s, g, root, elems, p) && Local(s, g, root, elems, gp);
    assert RedOk(s, p, node) && RedOk(s, gp, node);
    forall x {:trigger RedOk(s', x, NULL)} | x in s'
      ensures RedOk(s', x, NULL)
    {
      assert RedOk(s, x, node) && Local(s, g, root, elems, x);
    }
  }

  /** Left rotation at the black `gp` over its red right child, whose own right child `node` is red too. */
  ghost predicate BlackRotatedLeft(s: Store, s': Store, g: map<Ref, Place>, root: Ref, root': Ref, elems: seq<Ref>,
                                   bh: map<Ref, int>, gp: Ref, node: Ref)
  {
    && Shape(s, g, root, elems) && RotatedLeft(s, s', root, root', gp)
    && NearlyColoured(s, bh, root, node)
    && RedAt(s, node) && RedAt(s, s[gp].right) && s[s[gp].right].right == node && !s[gp].red && !RedAt(s, s[gp].left)
    && !s'[s[gp].right].red && s'[gp].red
    && (forall x {:trigger s'[x]} :: x in s && x != gp && x != s[gp].right ==> s'[x].red == s[x].red)
  }

  lemma BlackRotateLeftBalanced(s: Store, s': Store, g: map<Ref, Place>, root: Ref, root': Ref, elems: seq<Ref>,
                                 bh: map<Ref, int>, gp: Ref, node: Ref)
    requires BlackRotatedLeft(s, s', g, root, root', elems, bh, gp, node)
    ensures AllBalanced(s', bh[s[gp].right := bh[s[gp].right] + 1][gp := bh[gp] - 1])
  {
    var p := s[gp].right;
    var bh' := bh[p := bh[p] + 1][gp := bh[gp] - 1];
    BlackRotateLeftPair(s, s', g, root, root', elems, bh, gp, node);
    forall x {:trigger Balanced(s', bh', x)} | x in s'
      ensures Balanced(s', bh', x)
    {
      if x != p && x != gp {
        BlackRotateLeftOther(s, s', g, root, root', elems, bh, gp, node, x);
      }
    }
  }

  lemma BlackRotateLeftPair(s: Store, s': Store, g: map<Ref, Place>, root: Ref, root': Ref, elems: seq<Ref>,
                             bh: map<Ref, int>, gp: Ref, node: Ref)
    requires BlackRotatedLeft(s, s', g, root, root', elems, bh, gp, node)
    ensures var p := s[gp].right;
      var bh' := bh[p := bh[p] + 1][gp := bh[gp] - 1];
      p in s' && gp in s' && Balanced(s', bh', p) && Balanced(s', bh', gp)
  {
    var p := s[gp].right;
    assert Local(s, g, root, elems, p) && Local(s, g, root, elems, gp);
    assert Balanced(s, bh, p) && Balanced(s, bh, gp);
  }

  lemma BlackRotateLeftOther(s: Store, s': Store, g: map<Ref, Place>, root: Ref, root': Ref, elems: seq<Ref>,
                              bh: map<Ref, int>, gp: Ref, node: Ref, x: Ref)
    requires BlackRotatedLeft(s, s', g, root, root', elems, bh, gp, node) && x in s' && x != gp && x != s[gp].right
    ensures Balanced(s', bh[s[gp].right := bh[s[gp].right] + 1][gp := bh[gp] - 1], x)
  {
    var p := s[gp].right;
    assert Local(s, g, root, elems, p) && Local(s, g, root, elems, gp) && Local(s, g, root, elems, x);
    assert Balanced(s, bh, p) && Balanced(s, bh, gp) && Balanced(s, bh, x);
  }

  lemma BlackRotateLeftReds(s: Store, s': Store, g: map<Ref, Place>, root: Ref, root': Ref, elems: seq<Ref>,
                            bh: map<Ref, int>, gp: Ref, node: Ref)
    requires BlackRotatedLeft(s, s', g, root, root', elems, bh, gp, node)
    ensures AllRedOk(s', NULL) && !RedAt(s', root')
  {
    var q, p := s[gp].parent, s[gp].right;
    var m := s[p].left;
    assert Local(s, g, root, elems, p) && Local(s, g, root, elems, gp);
    assert RedOk(s, p, node) && RedOk(s, gp, node);
    forall x {:trigger RedOk(s', x, NULL)} | x in s'
      ensures RedOk(s', x, NULL)
    {
      assert RedOk(s, x, node) && Local(s, g, root, elems, x);
    }
  }

  /** `node` is the right child of the red `parent`: rotate left at `parent`. The links between `gparent` and `node` are
      written here too; the source leaves them to Case 3, which always follows and overwrites them. */
  function InsertCase2Left(s: Store, gparent: Ref, parent: Ref, node: Ref): Store
    requires gparent in s && parent in s && node in s && (s[node].left != NULL ==> s[node].left in s)
  {
    var tmp := s[node].left;
    var s1 := s[parent := s[parent].(right := tmp)];
    var s2 := s1[node := s1[node].(left := parent)];
    var s3 := if tmp != NULL then SetParentColour(s2, tmp, parent, false) else s2;
    var s4 := SetParentColour(s3, parent, node, true);
    var s5 := s4[gparent := s4[gparent].(left := node)];
    s5[node := s5[node].(parent := gparent)]
  }

  /** `node` is the left child of the red `parent`: rotate right at `gparent`. */
  function InsertCase3Left(s: Store, root: Ref, gparent: Ref, parent: Ref, tmp: Ref): (Store, Ref)
    requires gparent in s && parent in s && (tmp != NULL ==> tmp in s)
    requires s[gparent].parent != NULL ==> s[gparent].parent in s
    requires gparent != parent && tmp != gparent
  {
    var s1 := s[gparent := s[gparent].(left := tmp)];
    var s2 := s1[parent := s1[parent].(right := gparent)];
    var s3 := if tmp != NULL then SetParentColour(s2, tmp, gparent, false) else s2;
    RotateSetParents(s3, root, gparent, parent, true)
  }

  /** The red `node` hangs below the red left child `parent` of the black `gparent`, whose other child is black. */
  ghost predicate RedRedLeft(s: Store, g: map<Ref, Place>, root: Ref, elems: seq<Ref>, bh: map<Ref, int>, gparent: Ref,
                             parent: Ref, node: Ref)
  {
    && Shape(s, g, root, elems) && NearlyColoured(s, bh, root, node)
    && RedAt(s, node) && RedAt(s, parent) && gparent in s
    && s[node].parent == parent && s[parent].parent == gparent && s[gparent].left == parent
    && !s[gparent].red && !RedAt(s, s[gparent].right)
  }

  /** The nodes around a red left parent with a red child are distinct and linked. */
  ghost predicate AroundRedLeft(s: Store, gparent: Ref, parent: Ref, node: Ref)
  {
    && NULL !in s && gparent in s && RedAt(s, parent) && RedAt(s, node)
    && s[node].parent == parent && s[parent].parent == gparent && s[gparent].left == parent && !s[gparent].red
    && gparent != parent && node != parent && node != gparent
    && (s[parent].left == node || s[parent].right == node) && s[parent].left != s[parent].right
    && s[gparent].left != s[gparent].right
    && var m, k, q := s[parent].right, s[node].left, s[gparent].parent;
    && (m != NULL ==> m in s && m != gparent && m != parent && m != q && s[m].parent == parent)
    && (k != NULL ==> k in s && k != gparent && k != parent && k != node && k != q && s[k].parent == node && !s[k].red)
    && (q != NULL ==> q in s && q != gparent && q != parent && q != node)
    && (s[parent].left == node ==> !RedAt(s, m))
  }

  lemma RedRedLeftLinks(s: Store, g: map<Ref, Place>, root: Ref, elems: seq<Ref>, bh: map<Ref, int>, gparent: Ref,
                        parent: Ref, node: Ref)
    requires RedRedLeft(s, g, root, elems, bh, gparent, parent, node)
    ensures AroundRedLeft(s, gparent, parent, node)
  {
    assert Local(s, g, root, elems, node) && Local(s, g, root, elems, parent) && Local(s, g, root, elems, gparent);
    assert s[parent].right != NULL ==> Local(s, g, root, elems, s[parent].right);
    assert s[node].left != NULL ==> Local(s, g, root, elems, s[node].left);
    assert s[gparent].parent != NULL ==> Local(s, g, root, elems, s[gparent].parent);
    assert RedOk(s, parent, node) && RedOk(s, node, node);
  }

  lemma InsertCase2LeftRotates(s: Store, root: Ref, gparent: Ref, parent: Ref, node: Ref)
    requires AroundRedLeft(s, gparent, parent, node) && s[parent].right == node
    ensures var s' := InsertCase2Left(s, gparent, parent, node);
      && RotatedLeft(s, s', root, root, parent)
      && (forall x {:trigger s'[x]} :: x in s ==> s'[x].red == s[x].red)
  {
    var s' := InsertCase2Left(s, gparent, parent, node);
    assert ChildChanged(s, s', root, root, gparent, parent, node);
  }

  lemma InsertCase2LeftCorrect(s: Store, g: map<Ref, Place>, root: Ref, elems: seq<Ref>, bh: map<Ref, int>,
                               gparent: Ref, parent: Ref, node: Ref)
    requires RedRedLeft(s, g, root, elems, bh, gparent, parent, node) && s[parent].right == node
    ensures AroundRedLeft(s, gparent, parent, node)
    ensures RedRedLeft(InsertCase2Left(s, gparent, parent, node), PlacesLeft(s, g, parent), root, elems, bh, gparent,
                       node, parent)
    ensures InsertCase2Left(s, gparent, parent, node)[node].left == parent
  {
    RedRedLeftLinks(s, g, root, elems, bh, gparent, parent, node);
    InsertCase2LeftRotates(s, root, gparent, parent, node);
    var s' := InsertCase2Left(s, gparent, parent, node);
    RotateLeftShape(s, s', g, root, root, elems, parent);
    RedRotateLeftColours(s, s', g, root, root, elems, bh, parent);
  }

  lemma InsertCase3LeftRotates(s: Store, root: Ref, gparent: Ref, parent: Ref, node: Ref)
    requires AroundRedLeft(s, gparent, parent, node) && s[parent].left == node
    ensures var (s', root') := InsertCase3Left(s, root, gparent, parent, s[parent].right);
      && RotatedRight(s, s', root, root', gparent)
      && !s'[parent].red && s'[gparent].red
      && (forall x {:trigger s'[x]} :: x in s && x != gparent && x != parent ==> s'[x].red == s[x].red)
  {
    var (s', root') := InsertCase3Left(s, root, gparent, parent, s[parent].right);
    assert ChildChanged(s, s', root, root', s[gparent].parent, gparent, parent);
  }

  lemma InsertCase3LeftCorrect(s: Store, g: map<Ref, Place>, root: Ref, elems: seq<Ref>, bh: map<Ref, int>,
                               gparent: Ref, parent: Ref, node: Ref)
    requires RedRedLeft(s, g, root, elems, bh, gparent, parent, node) && s[parent].left == node
    ensures AroundRedLeft(s, gparent, parent, node)
    ensures var (s', root') := InsertCase3Left(s, root, gparent, parent, s[parent].right);
      && s'.Keys == s.Keys
      && Shape(s', PlacesRight(s, g, gparent), root', elems)
      && Coloured(s', bh[parent := bh[parent] + 1][gparent := bh[gparent] - 1], root')
  {
    RedRedLeftLinks(s, g, root, elems, bh, gparent, parent, node);
    InsertCase3LeftRotates(s, root, gparent, parent, node);
    var (s', root') := InsertCase3Left(s, root, gparent, parent, s[parent].right);
    RotateRightShape(s, s', g, root, root', elems, gparent);
    BlackRotateRightBalanced(s, s', g, root, root', elems, bh, gparent, node);
    BlackRotateRightReds(s, s', g, root, root', elems, bh, gparent, node);
  }


  /** `node` is the left child of the red `parent`: rotate right at `parent`. The links between `gparent` and `node` are
      written here too; the source leaves them to Case 3, which always follows and overwrites them. */
  function InsertCase2Right(s: Store, gparent: Ref, parent: Ref, node: Ref): Store
    requires gparent in s && parent in s && node in s && (s[node].right != NULL ==> s[node].right in s)
  {
    var tmp := s[node].right;
    var s1 := s[parent := s[parent].(left := tmp)];
    var s2 := s1[node := s1[node].(right := parent)];
    var s3 := if tmp != NULL then SetParentColour(s2, tmp, parent, false) else s2;
    var s4 := SetParentColour(s3, parent, node, true);
    var s5 := s4[gparent := s4[gparent].(right := node)];
    s5[node := s5[node].(parent := gparent)]
  }

  /** `node` is the right child of the red `parent`: rotate left at `gparent`. */
  function InsertCase3Right(s: Store, root: Ref, gparent: Ref, parent: Ref, tmp: Ref): (Store, Ref)
    requires gparent in s && parent in s && (tmp != NULL ==> tmp in s)
    requires s[gparent].parent != NULL ==> s[gparent].parent in s
    requires gparent != parent && tmp != gparent
  {
    var s1 := s[gparent := s[gparent].(right := tmp)];
    var s2 := s1[parent := s1[parent].(left := gparent)];
    var s3 := if tmp != NULL then SetParentColour(s2, tmp, gparent, false) else s2;
    RotateSetParents(s3, root, gparent, parent, true)
  }

  /** The red `node` hangs below the red right child `parent` of the black `gparent`, whose other child is black. */
  ghost predicate RedRedRight(s: Store, g: map<Ref, Place>, root: Ref, elems: seq<Ref>, bh: map<Ref, int>, gparent: Ref,
                              parent: Ref, node: Ref)
  {
    && Shape(s, g, root, elems) && NearlyColoured(s, bh, root, node)
    && RedAt(s, node) && RedAt(s, parent) && gparent in s
    && s[node].parent == parent && s[parent].parent == gparent && s[gparent].right == parent
    && !s[gparent].red && !RedAt(s, s[gparent].left)
  }

  /** The nodes around a red right parent with a red child are distinct and linked. */
  ghost predicate AroundRedRight(s: Store, gparent: Ref, parent: Ref, node: Ref)
  {
    && NULL !in s && gparent in s && RedAt(s, parent) && RedAt(s, node)
    && s[node].parent == parent && s[parent].parent == gparent && s[gparent].right == parent && !s[gparent].red
    && gparent != parent && node != parent && node != gparent
    && (s[parent].right == node || s[parent].left == node) && s[parent].left != s[parent].right
    && s[gparent].left != s[gparent].right
    && var m, k, q := s[parent].left, s[node].right, s[gparent].parent;
    && (m != NULL ==> m in s && m != gparent && m != parent && m != q && s[m].parent == parent)
    && (k != NULL ==> k in s && k != gparent && k != parent && k != node && k != q && s[k].parent == node && !s[k].red)
    && (q != NULL ==> q in s && q != gparent && q != parent && q != node)
    && (s[parent].right == node ==> !RedAt(s, m))
  }

  lemma RedRedRightLinks(s: Store, g: map<Ref, Place>, root: Ref, elems: seq<Ref>, bh: map<Ref, int>, gparent: Ref,
                         parent: Ref, node: Ref)
    requires RedRedRight(s, g, root, elems, bh, gparent, parent, node)
    ensures AroundRedRight(s, gparent, parent, node)
  {
    assert Local(s, g, root, elems, node) && Local(s, g, root, elems, parent) && Local(s, g, root, elems, gparent);
    assert s[parent].left != NULL ==> Local(s, g, root, elems, s[parent].left);
    assert s[node].right != NULL ==> Local(s, g, root, elems, s[node].right);
    assert s[gparent].parent != NULL ==> Local(s, g, root, elems, s[gparent].parent);
    assert RedOk(s, parent, node) && RedOk(s, node, node);
  }

  lemma InsertCase2RightRotates(s: Store, root: Ref, gparent: Ref, parent: Ref, node: Ref)
    requires AroundRedRight(s, gparent, parent, node) && s[parent].left == node
    ensures var s' := InsertCase2Right(s, gparent, parent, node);
      && RotatedRight(s, s', root, root, parent)
      && (forall x {:trigger s'[x]} :: x in s ==> s'[x].red == s[x].red)
  {
    var s' := InsertCase2Right(s, gparent, parent, node);
    assert ChildChanged(s, s', root, root, gparent, parent, node);
  }

  lemma InsertCase2RightCorrect(s: Store, g: map<Ref, Place>, root: Ref, elems: seq<Ref>, bh: map<Ref, int>,
                                gparent: Ref, parent: Ref, node: Ref)
    requires RedRedRight(s, g, root, elems, bh, gparent, parent, node) && s[parent].left == node
    ensures AroundRedRight(s, gparent, parent, node)
    ensures RedRedRight(InsertCase2Right(s, gparent, parent, node), PlacesRight(s, g, parent), root, elems, bh, gparent,
                        node, parent)
    ensures InsertCase2Right(s, gparent, parent, node)[node].right == parent
  {
    RedRedRightLinks(s, g, root, elems, bh, gparent, parent, node);
    InsertCase2RightRotates(s, root, gparent, parent, node);
    var s' := InsertCase2Right(s, gparent, parent, node);
    RotateRightShape(s, s', g, root, root, elems, parent);
    RedRotateRightColours(s, s', g, root, root, elems, bh, parent);
  }

  lemma InsertCase3RightRotates(s: Store, root: Ref, gparent: Ref, parent: Ref, node: Ref)
    requires AroundRedRight(s, gparent, parent, node) && s[parent].right == node
    ensures var (s', root') := InsertCase3Right(s, root, gparent, parent, s[parent].left);
      && RotatedLeft(s, s', root, root', gparent)
      && !s'[parent].red && s'[gparent].red
      && (forall x {:trigger s'[x]} :: x in s && x != gparent && x != parent ==> s'[x].red == s[x].red)
  {
    var (s', root') := InsertCase3Right(s, root, gparent, parent, s[parent].left);
    assert ChildChanged(s, s', root, root', s[gparent].parent, gparent, parent);
  }

  lemma InsertCase3RightCorrect(s: Store, g: map<Ref, Place>, root: Ref, elems: seq<Ref>, bh: map<Ref, int>,
                                gparent: Ref, parent: Ref, node: Ref)
    requires RedRedRight(s, g, root, elems, bh, gparent, parent, node) && s[parent].right == node
    ensures AroundRedRight(s, gparent, parent, node)
    ensures var (s', root') := InsertCase3Right(s, root, gparent, parent, s[parent].left);
      && s'.Keys == s.Keys
      && Shape(s', PlacesLeft(s, g, gparent), root', elems)
      && Coloured(s', bh[parent := bh[parent] + 1][gparent := bh[gparent] - 1], root')
  {
    RedRedRightLinks(s, g, root, elems, bh, gparent, parent, node);
    InsertCase3RightRotates(s, root, gparent, parent, node);
    var (s', root') := InsertCase3Right(s, root, gparent, parent, s[parent].left);
    RotateLeftShape(s, s', g, root, root', elems, gparent);
    BlackRotateLeftBalanced(s, s', g, root, root', elems, bh, gparent, node);
    BlackRotateLeftReds(s, s', g, root, root', elems, bh, gparent, node);
  }

  lemma BlackenRoot(s: Store, s': Store, g: map<Ref, Place>, root: Ref, elems: seq<Ref>, bh: map<Ref, int>, node: Ref)
    requires Shape(s, g, root, elems) && NearlyColoured(s, bh, root, node) && RedAt(s, node) && s[node].parent == NULL
    requires s' == SetParentColour(s, node, NULL, false)
    ensures Shape(s', g, root, elems) && Coloured(s', bh[node := bh[node] + 1], root)
  {
    RecolourShape(s, s', g, root, elems);
    var bh' := bh[node := bh[node] + 1];
    assert Local(s, g, root, elems, node);
    forall x {:trigger Balanced(s', bh', x)} | x in s'
      ensures Balanced(s', bh', x)
    {
      assert Balanced(s, bh, x) && Local(s, g, root, elems, x);
    }
    forall x {:trigger RedOk(s', x, NULL)} | x in s'
      ensures RedOk(s', x, NULL)
    {
      assert RedOk(s, x, node) && Local(s, g, root, elems, x);
    }
  }

  lemma BlackParentDone(s: Store, g: map<Ref, Place>, root: Ref, elems: seq<Ref>, bh: map<Ref, int>, node: Ref)
    requires Shape(s, g, root, elems) && NearlyColoured(s, bh, root, node) && node in s
    requires s[node].parent in s && !s[s[node].parent].red
    ensures Coloured(s, bh, root)
  {
    assert Local(s, g, root, elems, node);
    forall x {:trigger RedOk(s, x, NULL)} | x in s
      ensures RedOk(s, x, NULL)
    {
      assert RedOk(s, x, node) && Local(s, g, root, elems, x);
    }
  }

  lemma RedParentLinks(s: Store, g: map<Ref, Place>, root: Ref, elems: seq<Ref>, bh: map<Ref, int>, node: Ref)
    requires Shape(s, g, root, elems) && NearlyColoured(s, bh, root, node) && node in s
    requires s[node].parent != NULL
    ensures var parent := s[node].parent;
      && parent in s
      && (s[parent].red ==>
        && s[parent].parent in s && !s[s[parent].parent].red
        && var gparent := s[parent].parent;
        && (s[gparent].left == parent || s[gparent].right == parent)
        && s[gparent].left != s[gparent].right
        && (s[gparent].left != NULL ==> s[gparent].left in s && s[s[gparent].left].parent == gparent)
        && (s[gparent].right != NULL ==> s[gparent].right in s && s[s[gparent].right].parent == gparent)
        && g[node].hi - g[node].lo < g[parent].hi - g[parent].lo < g[gparent].hi - g[gparent].lo <= |elems|)
  {
    var parent := s[node].parent;
    assert Local(s, g, root, elems, node) && Local(s, g, root, elems, parent);
    if s[parent].red {
      var gparent := s[parent].parent;
      assert Local(s, g, root, elems, gparent) && RedOk(s, gparent, node);
    }
  }

  lemma FlipCorrect(s: Store, s': Store, g: map<Ref, Place>, root: Ref, elems: seq<Ref>, bh: map<Ref, int>,
                    gp: Ref, p: Ref, u: Ref, node: Ref)
    requires Shape(s, g, root, elems) && NearlyColoured(s, bh, root, node)
    requires RedAt(s, node) && s[node].parent == p && Flipped(s, s', gp, p, u)
    ensures s'.Keys == s.Keys && Shape(s', g, root, elems)
      && NearlyColoured(s', bh[p := bh[p] + 1][u := bh[u] + 1], root, gp)
  {
    RecolourShape(s, s', g, root, elems);
    FlipBalanced(s, s', g, root, elems, bh, gp, p, u, node);
    FlipReds(s, s', g, root, elems, bh, gp, p, u, node);
  }
}
