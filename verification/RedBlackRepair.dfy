/** Repair of a missing black node (_hev_rbtree_erase_color). */
module RedBlackRepair {
  import opened Addresses
  import opened RedBlackShape
  import opened RedBlackErase

  /** The sibling of the short side exists and hangs below `p`. */
  lemma SiblingExists(s: Store, bh: map<Ref, int>, g: map<Ref, Place>, root: Ref, elems: seq<Ref>, p: Ref, left: bool)
    requires Shape(s, g, root, elems) && Deficient(s, bh, root, p, left)
    ensures var sib := if left then s[p].right else s[p].left;
      && sib in s && s[sib].parent == p && sib != p
      && s[p].left != s[p].right
      && (!s[sib].red ==> At(bh, s[sib].left) == At(bh, s[sib].right) == bh[sib] - 1)
      && (s[sib].red ==>
          !s[p].red && s[sib].left in s && s[sib].right in s && !RedAt(s, s[sib].left) && !RedAt(s, s[sib].right))
  {
    var sib := if left then s[p].right else s[p].left;
    assert Local(s, g, root, elems, p);
    assert Local(s, g, root, elems, sib) && Balanced(s, bh, sib);
    assert RedOk(s, p, NULL) && RedOk(s, sib, NULL);
  }

  // The short side is the left one.

  /** Case 1: the sibling is red; rotate left at `p`, which turns red and keeps the short side. */
  ghost predicate Turned1Left(s: Store, s': Store, g: map<Ref, Place>, bh: map<Ref, int>, root: Ref, root': Ref,
                              elems: seq<Ref>, p: Ref)
  {
    && Shape(s, g, root, elems) && Deficient(s, bh, root, p, true)
    && RotatedLeft(s, s', root, root', p)
    && RedAt(s, s[p].right) && !s[p].red
    && s'[p].red && !s'[s[p].right].red
    && (forall x {:trigger s'[x]} :: x in s && x != p && x != s[p].right ==> s'[x].red == s[x].red)
  }

  lemma Case1LeftHeight(s: Store, s': Store, g: map<Ref, Place>, bh: map<Ref, int>, root: Ref, root': Ref,
                        elems: seq<Ref>, p: Ref, x: Ref)
    requires Turned1Left(s, s', g, bh, root, root', elems, p) && x in s && x != p
    ensures Balanced(s', bh[s[p].right := bh[p]][p := bh[p] - 1], x)
  {
    var sib := s[p].right;
    SiblingExists(s, bh, g, root, elems, p, true);
    assert Local(s, g, root, elems, p) && Local(s, g, root, elems, sib) && Balanced(s, bh, sib);
    assert Local(s, g, root, elems, x) && Balanced(s, bh, x);
  }

  lemma Case1LeftHeights(s: Store, s': Store, g: map<Ref, Place>, bh: map<Ref, int>, root: Ref, root': Ref,
                         elems: seq<Ref>, p: Ref)
    requires Turned1Left(s, s', g, bh, root, root', elems, p)
    ensures var bh' := bh[s[p].right := bh[p]][p := bh[p] - 1];
      && (forall n {:trigger Balanced(s', bh', n)} :: n in s' && n != p ==> Balanced(s', bh', n))
      && Short(s', bh', p, true)
  {
    var sib := s[p].right;
    var bh' := bh[sib := bh[p]][p := bh[p] - 1];
    SiblingExists(s, bh, g, root, elems, p, true);
    assert Local(s, g, root, elems, p) && Local(s, g, root, elems, sib) && Balanced(s, bh, sib);
    forall x {:trigger Balanced(s', bh', x)} | x in s' && x != p
      ensures Balanced(s', bh', x)
    {
      Case1LeftHeight(s, s', g, bh, root, root', elems, p, x);
    }
  }

  lemma Case1LeftReds(s: Store, s': Store, g: map<Ref, Place>, bh: map<Ref, int>, root: Ref, root': Ref,
                      elems: seq<Ref>, p: Ref)
    requires Turned1Left(s, s', g, bh, root, root', elems, p)
    ensures AllRedOk(s', NULL) && !RedAt(s', root')
  {
    var sib := s[p].right;
    SiblingExists(s, bh, g, root, elems, p, true);
    assert Local(s, g, root, elems, p) && Local(s, g, root, elems, sib);
    forall x {:trigger RedOk(s', x, NULL)} | x in s'
      ensures RedOk(s', x, NULL)
    {
      assert Local(s, g, root, elems, x) && RedOk(s, x, NULL);
    }
  }

  /** Case 3: the sibling is black, its near child red and its far child black; rotate right at the sibling. */
  ghost predicate Turned3Left(s: Store, s': Store, g: map<Ref, Place>, bh: map<Ref, int>, root: Ref, elems: seq<Ref>,
                              p: Ref)
  {
    && Shape(s, g, root, elems) && Deficient(s, bh, root, p, true)
    && s[p].right in s
    && var sib := s[p].right;
    && RotatedRight(s, s', root, root, sib)
    && !s[sib].red && RedAt(s, s[sib].left) && !RedAt(s, s[sib].right)
    && s'[sib].red && !s'[s[sib].left].red
    && (forall x {:trigger s'[x]} :: x in s && x != sib && x != s[sib].left ==> s'[x].red == s[x].red)
  }

  lemma Case3LeftHeight(s: Store, s': Store, g: map<Ref, Place>, bh: map<Ref, int>, root: Ref, elems: seq<Ref>, p: Ref,
                        x: Ref)
    requires Turned3Left(s, s', g, bh, root, elems, p) && x in s && x != p
    ensures var sib := s[p].right; Balanced(s', bh[s[sib].left := bh[sib]][sib := bh[sib] - 1], x)
  {
    var sib := s[p].right;
    var near := s[sib].left;
    SiblingExists(s, bh, g, root, elems, p, true);
    assert Local(s, g, root, elems, sib) && Balanced(s, bh, sib);
    assert Local(s, g, root, elems, near) && Balanced(s, bh, near);
    assert Local(s, g, root, elems, x) && Balanced(s, bh, x);
  }

  lemma Case3LeftHeights(s: Store, s': Store, g: map<Ref, Place>, bh: map<Ref, int>, root: Ref, elems: seq<Ref>, p: Ref)
    requires Turned3Left(s, s', g, bh, root, elems, p)
    ensures var sib := s[p].right;
      var bh' := bh[s[sib].left := bh[sib]][sib := bh[sib] - 1];
      && (forall n {:trigger Balanced(s', bh', n)} :: n in s' && n != p ==> Balanced(s', bh', n))
      && Short(s', bh', p, true)
  {
    var sib := s[p].right;
    var near := s[sib].left;
    var bh' := bh[near := bh[sib]][sib := bh[sib] - 1];
    SiblingExists(s, bh, g, root, elems, p, true);
    assert Local(s, g, root, elems, p) && Local(s, g, root, elems, sib) && Balanced(s, bh, sib);
    assert Local(s, g, root, elems, near) && Balanced(s, bh, near);
    forall x {:trigger Balanced(s', bh', x)} | x in s' && x != p
      ensures Balanced(s', bh', x)
    {
      Case3LeftHeight(s, s', g, bh, root, elems, p, x);
    }
  }

  lemma Case3LeftReds(s: Store, s': Store, g: map<Ref, Place>, bh: map<Ref, int>, root: Ref, elems: seq<Ref>, p: Ref)
    requires Turned3Left(s, s', g, bh, root, elems, p)
    ensures AllRedOk(s', NULL) && !RedAt(s', root)
    ensures s'[p].right == s[s[p].right].left && s'[s'[p].right].right == s[p].right
  {
    var sib := s[p].right;
    var near := s[sib].left;
    SiblingExists(s, bh, g, root, elems, p, true);
    assert Local(s, g, root, elems, p) && Local(s, g, root, elems, sib) && Local(s, g, root, elems, near);
    assert RedOk(s, near, NULL);
    forall x {:trigger RedOk(s', x, NULL)} | x in s'
      ensures RedOk(s', x, NULL)
    {
      assert Local(s, g, root, elems, x) && RedOk(s, x, NULL);
    }
  }

  /** Case 4: the sibling is black and its far child red; rotate left at `p` and recolour. */
  ghost predicate Turned4Left(s: Store, s': Store, g: map<Ref, Place>, bh: map<Ref, int>, root: Ref, root': Ref,
                              elems: seq<Ref>, p: Ref)
  {
    && Shape(s, g, root, elems) && Deficient(s, bh, root, p, true)
    && RotatedLeft(s, s', root, root', p)
    && var sib := s[p].right;
    && !s[sib].red && RedAt(s, s[sib].right)
    && !s'[p].red && s'[sib].red == s[p].red && !s'[s[sib].right].red
    && (forall x {:trigger s'[x]} :: x in s && x != p && x != sib && x != s[sib].right ==> s'[x].red == s[x].red)
  }

  lemma Case4LeftNear(s: Store, s': Store, g: map<Ref, Place>, bh: map<Ref, int>, root: Ref, root': Ref,
                      elems: seq<Ref>, p: Ref)
    requires Turned4Left(s, s', g, bh, root, root', elems, p)
    ensures var sib := s[p].right;
      var bh' := bh[p := bh[sib]][s[sib].right := bh[sib]][sib := bh[p]];
      Balanced(s', bh', p) && Balanced(s', bh', sib) && Balanced(s', bh', s[sib].right)
  {
    var sib := s[p].right;
    var far := s[sib].right;
    SiblingExists(s, bh, g, root, elems, p, true);
    assert Local(s, g, root, elems, p) && Local(s, g, root, elems, sib) && Local(s, g, root, elems, far);
    assert Balanced(s, bh, sib) && Balanced(s, bh, far);
  }

  lemma Case4LeftAway(s: Store, s': Store, g: map<Ref, Place>, bh: map<Ref, int>, root: Ref, root': Ref,
                      elems: seq<Ref>, p: Ref, x: Ref)
    requires Turned4Left(s, s', g, bh, root, root', elems, p) && x in s
    requires x != p && x != s[p].right && x != s[s[p].right].right
    ensures var sib := s[p].right; Balanced(s', bh[p := bh[sib]][s[sib].right := bh[sib]][sib := bh[p]], x)
  {
    var sib := s[p].right;
    SiblingExists(s, bh, g, root, elems, p, true);
    assert Local(s, g, root, elems, p) && Local(s, g, root, elems, sib);
    assert Local(s, g, root, elems, x) && Balanced(s, bh, x);
  }

  lemma Case4LeftHeights(s: Store, s': Store, g: map<Ref, Place>, bh: map<Ref, int>, root: Ref, root': Ref,
                         elems: seq<Ref>, p: Ref)
    requires Turned4Left(s, s', g, bh, root, root', elems, p)
    ensures var sib := s[p].right;
      AllBalanced(s', bh[p := bh[sib]][s[sib].right := bh[sib]][sib := bh[p]])
  {
    var sib := s[p].right;
    var bh' := bh[p := bh[sib]][s[sib].right := bh[sib]][sib := bh[p]];
    forall x {:trigger Balanced(s', bh', x)} | x in s'
      ensures Balanced(s', bh', x)
    {
      if x != p && x != sib && x != s[sib].right {
        Case4LeftAway(s, s', g, bh, root, root', elems, p, x);
      } else {
        Case4LeftNear(s, s', g, bh, root, root', elems, p);
      }
    }
  }

  lemma Case4LeftReds(s: Store, s': Store, g: map<Ref, Place>, bh: map<Ref, int>, root: Ref, root': Ref,
                      elems: seq<Ref>, p: Ref)
    requires Turned4Left(s, s', g, bh, root, root', elems, p)
    ensures AllRedOk(s', NULL) && !RedAt(s', root')
  {
    var sib := s[p].right;
    var far := s[sib].right;
    SiblingExists(s, bh, g, root, elems, p, true);
    assert Local(s, g, root, elems, p) && Local(s, g, root, elems, sib) && Local(s, g, root, elems, far);
    forall x {:trigger RedOk(s', x, NULL)} | x in s'
      ensures RedOk(s', x, NULL)
    {
      assert Local(s, g, root, elems, x) && RedOk(s, x, NULL);
    }
  }


  // The short side is the right one.

  /** Case 1: the sibling is red; rotate right at `p`, which turns red and keeps the short side. */
  ghost predicate Turned1Right(s: Store, s': Store, g: map<Ref, Place>, bh: map<Ref, int>, root: Ref, root': Ref,
                               elems: seq<Ref>, p: Ref)
  {
    && Shape(s, g, root, elems) && Deficient(s, bh, root, p, false)
    && RotatedRight(s, s', root, root', p)
    && RedAt(s, s[p].left) && !s[p].red
    && s'[p].red && !s'[s[p].left].red
    && (forall x {:trigger s'[x]} :: x in s && x != p && x != s[p].left ==> s'[x].red == s[x].red)
  }

  lemma Case1RightHeight(s: Store, s': Store, g: map<Ref, Place>, bh: map<Ref, int>, root: Ref, root': Ref,
                         elems: seq<Ref>, p: Ref, x: Ref)
    requires Turned1Right(s, s', g, bh, root, root', elems, p) && x in s && x != p
    ensures Balanced(s', bh[s[p].left := bh[p]][p := bh[p] - 1], x)
  {
    var sib := s[p].left;
    SiblingExists(s, bh, g, root, elems, p, false);
    assert Local(s, g, root, elems, p) && Local(s, g, root, elems, sib) && Balanced(s, bh, sib);
    assert Local(s, g, root, elems, x) && Balanced(s, bh, x);
  }

  lemma Case1RightHeights(s: Store, s': Store, g: map<Ref, Place>, bh: map<Ref, int>, root: Ref, root': Ref,
                          elems: seq<Ref>, p: Ref)
    requires Turned1Right(s, s', g, bh, root, root', elems, p)
    ensures var bh' := bh[s[p].left := bh[p]][p := bh[p] - 1];
      && (forall n {:trigger Balanced(s', bh', n)} :: n in s' && n != p ==> Balanced(s', bh', n))
      && Short(s', bh', p, false)
  {
    var sib := s[p].left;
    var bh' := bh[sib := bh[p]][p := bh[p] - 1];
    SiblingExists(s, bh, g, root, elems, p, false);
    assert Local(s, g, root, elems, p) && Local(s, g, root, elems, sib) && Balanced(s, bh, sib);
    forall x {:trigger Balanced(s', bh', x)} | x in s' && x != p
      ensures Balanced(s', bh', x)
    {
      Case1RightHeight(s, s', g, bh, root, root', elems, p, x);
    }
  }

  lemma Case1RightReds(s: Store, s': Store, g: map<Ref, Place>, bh: map<Ref, int>, root: Ref, root': Ref,
                       elems: seq<Ref>, p: Ref)
    requires Turned1Right(s, s', g, bh, root, root', elems, p)
    ensures AllRedOk(s', NULL) && !RedAt(s', root')
  {
    var sib := s[p].left;
    SiblingExists(s, bh, g, root, elems, p, false);
    assert Local(s, g, root, elems, p) && Local(s, g, root, elems, sib);
    forall x {:trigger RedOk(s', x, NULL)} | x in s'
      ensures RedOk(s', x, NULL)
    {
      assert Local(s, g, root, elems, x) && RedOk(s, x, NULL);
    }
  }

  /** Case 3: the sibling is black, its near child red and its far child black; rotate left at the sibling. */
  ghost predicate Turned3Right(s: Store, s': Store, g: map<Ref, Place>, bh: map<Ref, int>, root: Ref, elems: seq<Ref>,
                               p: Ref)
  {
    && Shape(s, g, root, elems) && Deficient(s, bh, root, p, false)
    && s[p].left in s
    && var sib := s[p].left;
    && RotatedLeft(s, s', root, root, sib)
    && !s[sib].red && RedAt(s, s[sib].right) && !RedAt(s, s[sib].left)
    && s'[sib].red && !s'[s[sib].right].red
    && (forall x {:trigger s'[x]} :: x in s && x != sib && x != s[sib].right ==> s'[x].red == s[x].red)
  }

  lemma Case3RightHeight(s: Store, s': Store, g: map<Ref, Place>, bh: map<Ref, int>, root: Ref, elems: seq<Ref>, p: Ref,
                         x: Ref)
    requires Turned3Right(s, s', g, bh, root, elems, p) && x in s && x != p
    ensures var sib := s[p].left; Balanced(s', bh[s[sib].right := bh[sib]][sib := bh[sib] - 1], x)
  {
    var sib := s[p].left;
    var near := s[sib].right;
    SiblingExists(s, bh, g, root, elems, p, false);
    assert Local(s, g, root, elems, sib) && Balanced(s, bh, sib);
    assert Local(s, g, root, elems, near) && Balanced(s, bh, near);
    assert Local(s, g, root, elems, x) && Balanced(s, bh, x);
  }

  lemma Case3RightHeights(s: Store, s': Store, g: map<Ref, Place>, bh: map<Ref, int>, root: Ref, elems: seq<Ref>,
                          p: Ref)
    requires Turned3Right(s, s', g, bh, root, elems, p)
    ensures var sib := s[p].left;
      var bh' := bh[s[sib].right := bh[sib]][sib := bh[sib] - 1];
      && (forall n {:trigger Balanced(s', bh', n)} :: n in s' && n != p ==> Balanced(s', bh', n))
      && Short(s', bh', p, false)
  {
    var sib := s[p].left;
    var near := s[sib].right;
    var bh' := bh[near := bh[sib]][sib := bh[sib] - 1];
    SiblingExists(s, bh, g, root, elems, p, false);
    assert Local(s, g, root, elems, p) && Local(s, g, root, elems, sib) && Balanced(s, bh, sib);
    assert Local(s, g, root, elems, near) && Balanced(s, bh, near);
    forall x {:trigger Balanced(s', bh', x)} | x in s' && x != p
      ensures Balanced(s', bh', x)
    {
      Case3RightHeight(s, s', g, bh, root, elems, p, x);
    }
  }

  lemma Case3RightReds(s: Store, s': Store, g: map<Ref, Place>, bh: map<Ref, int>, root: Ref, elems: seq<Ref>, p: Ref)
    requires Turned3Right(s, s', g, bh, root, elems, p)
    ensures AllRedOk(s', NULL) && !RedAt(s', root)
    ensures s'[p].left == s[s[p].left].right && s'[s'[p].left].left == s[p].left
  {
    var sib := s[p].left;
    var near := s[sib].right;
    SiblingExists(s, bh, g, root, elems, p, false);
    assert Local(s, g, root, elems, p) && Local(s, g, root, elems, sib) && Local(s, g, root, elems, near);
    assert RedOk(s, near, NULL);
    forall x {:trigger RedOk(s', x, NULL)} | x in s'
      ensures RedOk(s', x, NULL)
    {
      assert Local(s, g, root, elems, x) && RedOk(s, x, NULL);
    }
  }

  /** Case 4: the sibling is black and its far child red; rotate right at `p` and recolour. */
  ghost predicate Turned4Right(s: Store, s': Store, g: map<Ref, Place>, bh: map<Ref, int>, root: Ref, root': Ref,
                               elems: seq<Ref>, p: Ref)
  {
    && Shape(s, g, root, elems) && Deficient(s, bh, root, p, false)
    && RotatedRight(s, s', root, root', p)
    && var sib := s[p].left;
    && !s[sib].red && RedAt(s, s[sib].left)
    && !s'[p].red && s'[sib].red == s[p].red && !s'[s[sib].left].red
    && (forall x {:trigger s'[x]} :: x in s && x != p && x != sib && x != s[sib].left ==> s'[x].red == s[x].red)
  }

  lemma Case4RightNear(s: Store, s': Store, g: map<Ref, Place>, bh: map<Ref, int>, root: Ref, root': Ref,
                       elems: seq<Ref>, p: Ref)
    requires Turned4Right(s, s', g, bh, root, root', elems, p)
    ensures var sib := s[p].left;
      var bh' := bh[p := bh[sib]][s[sib].left := bh[sib]][sib := bh[p]];
      Balanced(s', bh', p) && Balanced(s', bh', sib) && Balanced(s', bh', s[sib].left)
  {
    var sib := s[p].left;
    var far := s[sib].left;
    SiblingExists(s, bh, g, root, elems, p, false);
    assert Local(s, g, root, elems, p) && Local(s, g, root, elems, sib) && Local(s, g, root, elems, far);
    assert Balanced(s, bh, sib) && Balanced(s, bh, far);
  }

  lemma Case4RightAway(s: Store, s': Store, g: map<Ref, Place>, bh: map<Ref, int>, root: Ref, root': Ref,
                       elems: seq<Ref>, p: Ref, x: Ref)
    requires Turned4Right(s, s', g, bh, root, root', elems, p) && x in s
    requires x != p && x != s[p].left && x != s[s[p].left].left
    ensures var sib := s[p].left; Balanced(s', bh[p := bh[sib]][s[sib].left := bh[sib]][sib := bh[p]], x)
  {
    var sib := s[p].left;
    SiblingExists(s, bh, g, root, elems, p, false);
    assert Local(s, g, root, elems, p) && Local(s, g, root, elems, sib);
    assert Local(s, g, root, elems, x) && Balanced(s, bh, x);
  }

  lemma Case4RightHeights(s: Store, s': Store, g: map<Ref, Place>, bh: map<Ref, int>, root: Ref, root': Ref,
                          elems: seq<Ref>, p: Ref)
    requires Turned4Right(s, s', g, bh, root, root', elems, p)
    ensures var sib := s[p].left;
      AllBalanced(s', bh[p := bh[sib]][s[sib].left := bh[sib]][sib := bh[p]])
  {
    var sib := s[p].left;
    var bh' := bh[p := bh[sib]][s[sib].left := bh[sib]][sib := bh[p]];
    forall x {:trigger Balanced(s', bh', x)} | x in s'
      ensures Balanced(s', bh', x)
    {
      if x != p && x != sib && x != s[sib].left {
        Case4RightAway(s, s', g, bh, root, root', elems, p, x);
      } else {
        Case4RightNear(s, s', g, bh, root, root', elems, p);
      }
    }
  }

  lemma Case4RightReds(s: Store, s': Store, g: map<Ref, Place>, bh: map<Ref, int>, root: Ref, root': Ref,
                       elems: seq<Ref>, p: Ref)
    requires Turned4Right(s, s', g, bh, root, root', elems, p)
    ensures AllRedOk(s', NULL) && !RedAt(s', root')
  {
    var sib := s[p].left;
    var far := s[sib].left;
    SiblingExists(s, bh, g, root, elems, p, false);
    assert Local(s, g, root, elems, p) && Local(s, g, root, elems, sib) && Local(s, g, root, elems, far);
    forall x {:trigger RedOk(s', x, NULL)} | x in s'
      ensures RedOk(s', x, NULL)
    {
      assert Local(s, g, root, elems, x) && RedOk(s, x, NULL);
    }
  }

  /** Case 2: the sibling and its children are black; the sibling turns red and the missing black node moves up to
      `p`. */
  ghost predicate Turned2(s: Store, s': Store, g: map<Ref, Place>, bh: map<Ref, int>, root: Ref, elems: seq<Ref>,
                          p: Ref, left: bool)
  {
    && Shape(s, g, root, elems) && Deficient(s, bh, root, p, left)
    && var sib := if left then s[p].right else s[p].left;
    && sib in s && !s[sib].red && !RedAt(s, s[sib].left) && !RedAt(s, s[sib].right) && sib != p
    && s' == (if s[p].red
              then s[sib := s[sib].(red := true)][p := s[p].(red := false)]
              else s[sib := s[sib].(red := true)])
  }

  ghost function Heights2(s: Store, bh: map<Ref, int>, p: Ref, sib: Ref): map<Ref, int>
    requires p in s && p in bh && sib in bh
  {
    bh[sib := bh[sib] - 1][p := if s[p].red then bh[p] else bh[p] - 1]
  }

  lemma Case2Height(s: Store, s': Store, g: map<Ref, Place>, bh: map<Ref, int>, root: Ref, elems: seq<Ref>, p: Ref,
                    left: bool, x: Ref)
    requires Turned2(s, s', g, bh, root, elems, p, left) && x in s' && (s[p].red || x != s[p].parent)
    ensures Balanced(s', Heights2(s, bh, p, if left then s[p].right else s[p].left), x)
  {
    var sib := if left then s[p].right else s[p].left;
    SiblingExists(s, bh, g, root, elems, p, left);
    if x != p && x != sib {
      Case2Away(s, s', g, bh, root, elems, p, left, x);
    } else {
      assert Local(s, g, root, elems, p) && Local(s, g, root, elems, sib) && Balanced(s, bh, sib);
    }
  }

  lemma Case2Away(s: Store, s': Store, g: map<Ref, Place>, bh: map<Ref, int>, root: Ref, elems: seq<Ref>, p: Ref,
                  left: bool, x: Ref)
    requires Turned2(s, s', g, bh, root, elems, p, left) && x in s' && (s[p].red || x != s[p].parent)
    requires x != p && x != (if left then s[p].right else s[p].left)
    ensures Balanced(s', Heights2(s, bh, p, if left then s[p].right else s[p].left), x)
  {
    var sib := if left then s[p].right else s[p].left;
    SiblingExists(s, bh, g, root, elems, p, left);
    assert Local(s, g, root, elems, x) && Balanced(s, bh, x);
  }

  lemma Case2Short(s: Store, s': Store, g: map<Ref, Place>, bh: map<Ref, int>, root: Ref, elems: seq<Ref>, p: Ref,
                   left: bool)
    requires Turned2(s, s', g, bh, root, elems, p, left) && !s[p].red && s[p].parent != NULL
    ensures s[p].parent in s
    ensures Short(s', Heights2(s, bh, p, if left then s[p].right else s[p].left), s[p].parent, s[s[p].parent].left == p)
  {
    var sib, q := if left then s[p].right else s[p].left, s[p].parent;
    SiblingExists(s, bh, g, root, elems, p, left);
    assert Local(s, g, root, elems, p) && Local(s, g, root, elems, sib);
    assert Local(s, g, root, elems, q) && Balanced(s, bh, q);
  }

  lemma Case2Reds(s: Store, s': Store, g: map<Ref, Place>, bh: map<Ref, int>, root: Ref, elems: seq<Ref>, p: Ref,
                  left: bool)
    requires Turned2(s, s', g, bh, root, elems, p, left)
    ensures AllRedOk(s', NULL) && !RedAt(s', root)
  {
    var sib := if left then s[p].right else s[p].left;
    SiblingExists(s, bh, g, root, elems, p, left);
    assert Local(s, g, root, elems, p) && Local(s, g, root, elems, sib);
    forall x {:trigger RedOk(s', x, NULL)} | x in s'
      ensures RedOk(s', x, NULL)
    {
      assert Local(s, g, root, elems, x) && RedOk(s, x, NULL);
    }
  }

  lemma Case2Correct(s: Store, s': Store, g: map<Ref, Place>, bh: map<Ref, int>, root: Ref, elems: seq<Ref>, p: Ref,
                     left: bool)
    requires Turned2(s, s', g, bh, root, elems, p, left)
    ensures s'.Keys == s.Keys && Shape(s', g, root, elems)
    ensures var bh' := Heights2(s, bh, p, if left then s[p].right else s[p].left);
      if s[p].red || s[p].parent == NULL then Coloured(s', bh', root)
      else s[p].parent in s && Deficient(s', bh', root, s[p].parent, s[s[p].parent].left == p)
  {
    var bh' := Heights2(s, bh, p, if left then s[p].right else s[p].left);
    RecolourShape(s, s', g, root, elems);
    Case2Reds(s, s', g, bh, root, elems, p, left);
    forall x {:trigger Balanced(s', bh', x)} | x in s' && (s[p].red || x != s[p].parent)
      ensures Balanced(s', bh', x)
    {
      Case2Height(s, s', g, bh, root, elems, p, left, x);
    }
    if !s[p].red && s[p].parent != NULL {
      Case2Short(s, s', g, bh, root, elems, p, left);
    }
  }

  // Pointer steps of the source when the short side is the left one.

  function EraseCase1Left(s: Store, root: Ref, parent: Ref, sibling: Ref): (Store, Ref)
    requires parent in s && sibling in s && s[sibling].left in s && parent != sibling && s[sibling].left != parent
    requires s[parent].parent != NULL ==> s[parent].parent in s
  {
    var tmp1 := s[sibling].left;
    var s1 := s[parent := s[parent].(right := tmp1)];
    var s2 := s1[sibling := s1[sibling].(left := parent)];
    RotateSetParents(SetParentColour(s2, tmp1, parent, false), root, parent, sibling, true)
  }

  /** The links of `tmp2` and `sibling` to their parents are left to Case 4, which always follows. */
  function EraseCase3Left(s: Store, parent: Ref, sibling: Ref, tmp2: Ref): Store
    requires parent in s && sibling in s && tmp2 in s && (s[tmp2].right != NULL ==> s[tmp2].right in s)
  {
    var tmp1 := s[tmp2].right;
    var s1 := s[sibling := s[sibling].(left := tmp1)];
    var s2 := s1[tmp2 := s1[tmp2].(right := sibling)];
    var s3 := s2[parent := s2[parent].(right := tmp2)];
    if tmp1 != NULL then SetParentColour(s3, tmp1, sibling, false) else s3
  }

  function EraseCase4Left(s: Store, root: Ref, parent: Ref, sibling: Ref, tmp1: Ref): (Store, Ref)
    requires parent in s && sibling in s && tmp1 in s && (s[sibling].left != NULL ==> s[sibling].left in s)
    requires parent != sibling && tmp1 != parent && s[sibling].left != parent
    requires s[parent].parent != NULL ==> s[parent].parent in s
  {
    var tmp2 := s[sibling].left;
    var s1 := s[parent := s[parent].(right := tmp2)];
    var s2 := s1[sibling := s1[sibling].(left := parent)];
    var s3 := SetParentColour(s2, tmp1, sibling, false);
    var s4 := if tmp2 != NULL then s3[tmp2 := s3[tmp2].(parent := parent)] else s3;
    RotateSetParents(s4, root, parent, sibling, false)
  }

  /** What Case 3 leaves to Case 4: the parent links and the colours of the two rotated nodes. */
  ghost function Completed3Left(s: Store, parent: Ref, sibling: Ref, tmp2: Ref): Store
    requires sibling in s && tmp2 in s
  {
    SetParentColour(SetParentColour(s, tmp2, parent, false), sibling, tmp2, true)
  }

  /** The nodes around a short left side are distinct and linked. */
  ghost predicate AroundLeft(s: Store, p: Ref)
  {
    && NULL !in s && p in s
    && var sib, q := s[p].right, s[p].parent;
    && sib in s && s[sib].parent == p && sib != p
    && (q != NULL ==> q in s && q != p && q != sib && (s[q].left == p || s[q].right == p))
    && var near, far := s[sib].left, s[sib].right;
    && (near != NULL ==> near in s && s[near].parent == sib && near != p && near != sib && near != q && near != far)
    && (far != NULL ==> far in s && s[far].parent == sib && far != p && far != sib && far != q)
    && (near != NULL ==>
        && var inner, outer := s[near].right, s[near].left;
        && (inner != NULL ==>
            inner in s && s[inner].parent == near && inner != p && inner != sib && inner != q && inner != near
            && inner != far)
        && (outer != NULL ==>
            outer in s && s[outer].parent == near && outer != p && outer != sib && outer != q && outer != near
            && outer != inner))
  }

  lemma RepairLeftLinks(s: Store, g: map<Ref, Place>, bh: map<Ref, int>, root: Ref, elems: seq<Ref>, p: Ref)
    requires Shape(s, g, root, elems) && Deficient(s, bh, root, p, true)
    ensures AroundLeft(s, p)
  {
    SiblingExists(s, bh, g, root, elems, p, true);
    var sib, q := s[p].right, s[p].parent;
    var near, far := s[sib].left, s[sib].right;
    assert Local(s, g, root, elems, p) && Local(s, g, root, elems, sib);
    assert q != NULL ==> Local(s, g, root, elems, q);
    assert near != NULL ==> Local(s, g, root, elems, near);
    assert far != NULL ==> Local(s, g, root, elems, far);
    if near != NULL {
      assert s[near].right != NULL ==> Local(s, g, root, elems, s[near].right);
      assert s[near].left != NULL ==> Local(s, g, root, elems, s[near].left);
    }
  }

  lemma EraseCase1LeftRotates(s: Store, g: map<Ref, Place>, bh: map<Ref, int>, root: Ref, elems: seq<Ref>, p: Ref)
    requires Shape(s, g, root, elems) && Deficient(s, bh, root, p, true) && RedAt(s, s[p].right)
    ensures var sib := s[p].right;
      && s[sib].left in s && p != sib && s[sib].left != p && (s[p].parent != NULL ==> s[p].parent in s)
      && var (s', root') := EraseCase1Left(s, root, p, sib);
      && Turned1Left(s, s', g, bh, root, root', elems, p)
      && s'[p].right == s[sib].left && !RedAt(s, s[sib].left)
  {
    SiblingExists(s, bh, g, root, elems, p, true);
    RepairLeftLinks(s, g, bh, root, elems, p);
    var sib, q := s[p].right, s[p].parent;
    var (s', root') := EraseCase1Left(s, root, p, sib);
    assert ChildChanged(s, s', root, root', q, p, sib);
    assert RotatedLeft(s, s', root, root', p);
  }

  lemma EraseCase1LeftCorrect(s: Store, g: map<Ref, Place>, bh: map<Ref, int>, root: Ref, elems: seq<Ref>, p: Ref)
    requires Shape(s, g, root, elems) && Deficient(s, bh, root, p, true) && RedAt(s, s[p].right)
    ensures var sib := s[p].right;
      && s[sib].left in s && p != sib && s[sib].left != p && (s[p].parent != NULL ==> s[p].parent in s)
      && var (s', root') := EraseCase1Left(s, root, p, sib);
      && s'.Keys == s.Keys && s'[p].red && !RedAt(s', s'[p].right)
      && Shape(s', PlacesLeft(s, g, p), root', elems)
      && Deficient(s', bh[sib := bh[p]][p := bh[p] - 1], root', p, true)
  {
    EraseCase1LeftRotates(s, g, bh, root, elems, p);
    var (s', root') := EraseCase1Left(s, root, p, s[p].right);
    RotateLeftShape(s, s', g, root, root', elems, p);
    Case1LeftHeights(s, s', g, bh, root, root', elems, p);
    Case1LeftReds(s, s', g, bh, root, root', elems, p);
    assert RedOk(s', p, NULL);
  }

  lemma EraseCase4LeftRotates(s: Store, root: Ref, p: Ref)
    requires AroundLeft(s, p) && !s[s[p].right].red && RedAt(s, s[s[p].right].right)
    ensures var sib := s[p].right;
      var (s', root') := EraseCase4Left(s, root, p, sib, s[sib].right);
      && RotatedLeft(s, s', root, root', p)
      && !s'[p].red && s'[sib].red == s[p].red && !s'[s[sib].right].red
      && (forall x {:trigger s'[x]} :: x in s && x != p && x != sib && x != s[sib].right ==> s'[x].red == s[x].red)
  {
    var sib, q := s[p].right, s[p].parent;
    var (s', root') := EraseCase4Left(s, root, p, sib, s[sib].right);
    assert ChildChanged(s, s', root, root', q, p, sib);
  }

  lemma EraseCase4LeftCorrect(s: Store, g: map<Ref, Place>, bh: map<Ref, int>, root: Ref, elems: seq<Ref>, p: Ref)
    requires Shape(s, g, root, elems) && Deficient(s, bh, root, p, true) && s[p].right in s
    requires !s[s[p].right].red && RedAt(s, s[s[p].right].right)
    ensures var sib := s[p].right;
      && (s[sib].left != NULL ==> s[sib].left in s) && p != sib && s[sib].right != p && s[sib].left != p
      && (s[p].parent != NULL ==> s[p].parent in s)
      && var (s', root') := EraseCase4Left(s, root, p, sib, s[sib].right);
      && s'.Keys == s.Keys && Shape(s', PlacesLeft(s, g, p), root', elems)
      && Coloured(s', bh[p := bh[sib]][s[sib].right := bh[sib]][sib := bh[p]], root')
  {
    RepairLeftLinks(s, g, bh, root, elems, p);
    EraseCase4LeftRotates(s, root, p);
    var (s', root') := EraseCase4Left(s, root, p, s[p].right, s[s[p].right].right);
    RotateLeftShape(s, s', g, root, root', elems, p);
    Case4LeftHeights(s, s', g, bh, root, root', elems, p);
    Case4LeftReds(s, s', g, bh, root, root', elems, p);
  }

  lemma EraseCase3LeftRotates(s: Store, g: map<Ref, Place>, bh: map<Ref, int>, root: Ref, elems: seq<Ref>, p: Ref)
    requires Shape(s, g, root, elems) && Deficient(s, bh, root, p, true) && s[p].right in s
    requires !s[s[p].right].red && RedAt(s, s[s[p].right].left) && !RedAt(s, s[s[p].right].right)
    ensures var sib := s[p].right;
      var near := s[sib].left;
      && (s[near].right != NULL ==> s[near].right in s)
      && Turned3Left(s, Completed3Left(EraseCase3Left(s, p, sib, near), p, sib, near), g, bh, root, elems, p)
  {
    RepairLeftLinks(s, g, bh, root, elems, p);
    var sib := s[p].right;
    var near := s[sib].left;
    assert RedOk(s, near, NULL);
    var s' := Completed3Left(EraseCase3Left(s, p, sib, near), p, sib, near);
    assert ChildChanged(s, s', root, root, p, sib, near);
    assert RotatedRight(s, s', root, root, sib);
  }

  lemma EraseCase3LeftCorrect(s: Store, g: map<Ref, Place>, bh: map<Ref, int>, root: Ref, elems: seq<Ref>, p: Ref)
    requires Shape(s, g, root, elems) && Deficient(s, bh, root, p, true) && s[p].right in s
    requires !s[s[p].right].red && RedAt(s, s[s[p].right].left) && !RedAt(s, s[s[p].right].right)
    ensures var sib := s[p].right;
      var near := s[sib].left;
      && (s[near].right != NULL ==> s[near].right in s)
      && var s' := Completed3Left(EraseCase3Left(s, p, sib, near), p, sib, near);
      && s'.Keys == s.Keys && Shape(s', PlacesRight(s, g, sib), root, elems)
      && Deficient(s', bh[near := bh[sib]][sib := bh[sib] - 1], root, p, true)
      && s'[p].right == near && !s'[near].red && s'[near].right == sib && s'[sib].red
  {
    EraseCase3LeftRotates(s, g, bh, root, elems, p);
    var sib := s[p].right;
    var near := s[sib].left;
    var s' := Completed3Left(EraseCase3Left(s, p, sib, near), p, sib, near);
    RotateRightShape(s, s', g, root, root, elems, sib);
    Case3LeftHeights(s, s', g, bh, root, elems, p);
    Case3LeftReds(s, s', g, bh, root, elems, p);
  }

  /** Case 4 gives the same store whether or not Case 3 was completed. */
  lemma EraseCase3Then4Left(s: Store, root: Ref, p: Ref)
    requires AroundLeft(s, p) && s[s[p].right].left != NULL
    ensures var sib := s[p].right;
      var near := s[sib].left;
      var t := EraseCase3Left(s, p, sib, near);
      && (t[near].left != NULL ==> t[near].left in t) && p != near && sib != p && t[near].left != p
      && t[near].left != sib
      && t.Keys == s.Keys && (t[p].parent != NULL ==> t[p].parent in t)
      && EraseCase4Left(t, root, p, near, sib) == EraseCase4Left(Completed3Left(t, p, sib, near), root, p, near, sib)
  {
    var sib := s[p].right;
    var near := s[sib].left;
    var t := EraseCase3Left(s, p, sib, near);
    assert t[near].left == s[near].left && t[p].parent == s[p].parent;
    Case4OverwritesLeft(t, root, p, near, sib);
  }

  lemma Case4OverwritesLeft(t: Store, root: Ref, p: Ref, near: Ref, sib: Ref)
    requires p in t && near in t && sib in t && p != near && p != sib && near != sib
    requires t[near].left != NULL ==> t[near].left in t && t[near].left != sib && t[near].left != near
    requires t[near].left != p
      && (t[p].parent != NULL ==> t[p].parent in t && t[p].parent != near && t[p].parent != sib)
    ensures EraseCase4Left(t, root, p, near, sib) == EraseCase4Left(Completed3Left(t, p, sib, near), root, p, near, sib)
  {
    var u := Completed3Left(t, p, sib, near);
    assert Before4Left(t, p, near, sib) == Before4Left(u, p, near, sib);
  }

  /** The store of Case 4 just before the child link of the grandparent is changed. */
  ghost function Before4Left(s: Store, parent: Ref, sibling: Ref, tmp1: Ref): Store
    requires parent in s && sibling in s && tmp1 in s && (s[sibling].left != NULL ==> s[sibling].left in s)
  {
    var tmp2 := s[sibling].left;
    var s1 := s[parent := s[parent].(right := tmp2)];
    var s2 := s1[sibling := s1[sibling].(left := parent)];
    var s3 := SetParentColour(s2, tmp1, sibling, false);
    var s4 := if tmp2 != NULL then s3[tmp2 := s3[tmp2].(parent := parent)] else s3;
    var s5 := s4[sibling := s4[sibling].(parent := s4[parent].parent, red := s4[parent].red)];
    SetParentColour(s5, parent, sibling, false)
  }

  /** Case 3 followed by Case 4 repairs the tree. */
  lemma EraseCases3And4Left(s: Store, g: map<Ref, Place>, bh: map<Ref, int>, root: Ref, elems: seq<Ref>, p: Ref)
    returns (g': map<Ref, Place>, bh': map<Ref, int>)
    requires Shape(s, g, root, elems) && Deficient(s, bh, root, p, true) && s[p].right in s
    requires !s[s[p].right].red && RedAt(s, s[s[p].right].left) && !RedAt(s, s[s[p].right].right)
    ensures AroundLeft(s, p)
    ensures var sib := s[p].right;
      var near := s[sib].left;
      var t := EraseCase3Left(s, p, sib, near);
      && t.Keys == s.Keys && (t[near].left != NULL ==> t[near].left in t) && p != near && sib != p && t[near].left != p
      && (t[p].parent != NULL ==> t[p].parent in t)
      && var (s', root') := EraseCase4Left(t, root, p, near, sib);
      s'.Keys == s.Keys && Shape(s', g', root', elems) && Coloured(s', bh', root')
  {
    RepairLeftLinks(s, g, bh, root, elems, p);
    EraseCase3LeftCorrect(s, g, bh, root, elems, p);
    EraseCase3Then4Left(s, root, p);
    var sib := s[p].right;
    var near := s[sib].left;
    var t1 := Completed3Left(EraseCase3Left(s, p, sib, near), p, sib, near);
    g', bh' := RepairFarLeft(t1, PlacesRight(s, g, sib), bh[near := bh[sib]][sib := bh[sib] - 1], root, elems, p);
  }

  lemma RepairFarLeft(s: Store, g: map<Ref, Place>, bh: map<Ref, int>, root: Ref, elems: seq<Ref>, p: Ref)
    returns (g': map<Ref, Place>, bh': map<Ref, int>)
    requires Shape(s, g, root, elems) && Deficient(s, bh, root, p, true) && s[p].right in s
    requires !s[s[p].right].red && RedAt(s, s[s[p].right].right)
    ensures AroundLeft(s, p)
    ensures var sib := s[p].right;
      var (s', root') := EraseCase4Left(s, root, p, sib, s[sib].right);
      s'.Keys == s.Keys && Shape(s', g', root', elems) && Coloured(s', bh', root')
  {
    RepairLeftLinks(s, g, bh, root, elems, p);
    EraseCase4LeftCorrect(s, g, bh, root, elems, p);
    var sib := s[p].right;
    g', bh' := PlacesLeft(s, g, p), bh[p := bh[sib]][s[sib].right := bh[sib]][sib := bh[p]];
  }


  // Pointer steps of the source when the short side is the right one.

  function EraseCase1Right(s: Store, root: Ref, parent: Ref, sibling: Ref): (Store, Ref)
    requires parent in s && sibling in s && s[sibling].right in s && parent != sibling && s[sibling].right != parent
    requires s[parent].parent != NULL ==> s[parent].parent in s
  {
    var tmp1 := s[sibling].right;
    var s1 := s[parent := s[parent].(left := tmp1)];
    var s2 := s1[sibling := s1[sibling].(right := parent)];
    RotateSetParents(SetParentColour(s2, tmp1, parent, false), root, parent, sibling, true)
  }

  /** The links of `tmp2` and `sibling` to their parents are left to Case 4, which always follows. */
  function EraseCase3Right(s: Store, parent: Ref, sibling: Ref, tmp2: Ref): Store
    requires parent in s && sibling in s && tmp2 in s && (s[tmp2].left != NULL ==> s[tmp2].left in s)
  {
    var tmp1 := s[tmp2].left;
    var s1 := s[sibling := s[sibling].(right := tmp1)];
    var s2 := s1[tmp2 := s1[tmp2].(left := sibling)];
    var s3 := s2[parent := s2[parent].(left := tmp2)];
    if tmp1 != NULL then SetParentColour(s3, tmp1, sibling, false) else s3
  }

  function EraseCase4Right(s: Store, root: Ref, parent: Ref, sibling: Ref, tmp1: Ref): (Store, Ref)
    requires parent in s && sibling in s && tmp1 in s && (s[sibling].right != NULL ==> s[sibling].right in s)
    requires parent != sibling && tmp1 != parent && s[sibling].right != parent
    requires s[parent].parent != NULL ==> s[parent].parent in s
  {
    var tmp2 := s[sibling].right;
    var s1 := s[parent := s[parent].(left := tmp2)];
    var s2 := s1[sibling := s1[sibling].(right := parent)];
    var s3 := SetParentColour(s2, tmp1, sibling, false);
    var s4 := if tmp2 != NULL then s3[tmp2 := s3[tmp2].(parent := parent)] else s3;
    RotateSetParents(s4, root, parent, sibling, false)
  }

  /** What Case 3 leaves to Case 4: the parent links and the colours of the two rotated nodes. */
  ghost function Completed3Right(s: Store, parent: Ref, sibling: Ref, tmp2: Ref): Store
    requires sibling in s && tmp2 in s
  {
    SetParentColour(SetParentColour(s, tmp2, parent, false), sibling, tmp2, true)
  }

  /** The nodes around a short right side are distinct and linked. */
  ghost predicate AroundRight(s: Store, p: Ref)
  {
    && NULL !in s && p in s
    && var sib, q := s[p].left, s[p].parent;
    && sib in s && s[sib].parent == p && sib != p
    && (q != NULL ==> q in s && q != p && q != sib && (s[q].left == p || s[q].right == p))
    && var near, far := s[sib].right, s[sib].left;
    && (near != NULL ==> near in s && s[near].parent == sib && near != p && near != sib && near != q && near != far)
    && (far != NULL ==> far in s && s[far].parent == sib && far != p && far != sib && far != q)
    && (near != NULL ==>
        && var inner, outer := s[near].left, s[near].right;
        && (inner != NULL ==>
            inner in s && s[inner].parent == near && inner != p && inner != sib && inner != q && inner != near
            && inner != far)
        && (outer != NULL ==>
            outer in s && s[outer].parent == near && outer != p && outer != sib && outer != q && outer != near
            && outer != inner))
  }

  lemma RepairRightLinks(s: Store, g: map<Ref, Place>, bh: map<Ref, int>, root: Ref, elems: seq<Ref>, p: Ref)
    requires Shape(s, g, root, elems) && Deficient(s, bh, root, p, false)
    ensures AroundRight(s, p)
  {
    SiblingExists(s, bh, g, root, elems, p, false);
    var sib, q := s[p].left, s[p].parent;
    var near, far := s[sib].right, s[sib].left;
    assert Local(s, g, root, elems, p) && Local(s, g, root, elems, sib);
    assert q != NULL ==> Local(s, g, root, elems, q);
    assert near != NULL ==> Local(s, g, root, elems, near);
    assert far != NULL ==> Local(s, g, root, elems, far);
    if near != NULL {
      assert s[near].left != NULL ==> Local(s, g, root, elems, s[near].left);
      assert s[near].right != NULL ==> Local(s, g, root, elems, s[near].right);
    }
  }

  lemma EraseCase1RightRotates(s: Store, g: map<Ref, Place>, bh: map<Ref, int>, root: Ref, elems: seq<Ref>, p: Ref)
    requires Shape(s, g, root, elems) && Deficient(s, bh, root, p, false) && RedAt(s, s[p].left)
    ensures var sib := s[p].left;
      && s[sib].right in s && p != sib && s[sib].right != p && (s[p].parent != NULL ==> s[p].parent in s)
      && var (s', root') := EraseCase1Right(s, root, p, sib);
      && Turned1Right(s, s', g, bh, root, root', elems, p)
      && s'[p].left == s[sib].right && !RedAt(s, s[sib].right)
  {
    SiblingExists(s, bh, g, root, elems, p, false);
    RepairRightLinks(s, g, bh, root, elems, p);
    var sib, q := s[p].left, s[p].parent;
    var (s', root') := EraseCase1Right(s, root, p, sib);
    assert ChildChanged(s, s', root, root', q, p, sib);
    assert RotatedRight(s, s', root, root', p);
  }

  lemma EraseCase1RightCorrect(s: Store, g: map<Ref, Place>, bh: map<Ref, int>, root: Ref, elems: seq<Ref>, p: Ref)
    requires Shape(s, g, root, elems) && Deficient(s, bh, root, p, false) && RedAt(s, s[p].left)
    ensures var sib := s[p].left;
      && s[sib].right in s && p != sib && s[sib].right != p && (s[p].parent != NULL ==> s[p].parent in s)
      && var (s', root') := EraseCase1Right(s, root, p, sib);
      && s'.Keys == s.Keys && s'[p].red && !RedAt(s', s'[p].left)
      && Shape(s', PlacesRight(s, g, p), root', elems)
      && Deficient(s', bh[sib := bh[p]][p := bh[p] - 1], root', p, false)
  {
    EraseCase1RightRotates(s, g, bh, root, elems, p);
    var (s', root') := EraseCase1Right(s, root, p, s[p].left);
    RotateRightShape(s, s', g, root, root', elems, p);
    Case1RightHeights(s, s', g, bh, root, root', elems, p);
    Case1RightReds(s, s', g, bh, root, root', elems, p);
    assert RedOk(s', p, NULL);
  }

  lemma EraseCase4RightRotates(s: Store, root: Ref, p: Ref)
    requires AroundRight(s, p) && !s[s[p].left].red && RedAt(s, s[s[p].left].left)
    ensures var sib := s[p].left;
      var (s', root') := EraseCase4Right(s, root, p, sib, s[sib].left);
      && RotatedRight(s, s', root, root', p)
      && !s'[p].red && s'[sib].red == s[p].red && !s'[s[sib].left].red
      && (forall x {:trigger s'[x]} :: x in s && x != p && x != sib && x != s[sib].left ==> s'[x].red == s[x].red)
  {
    var sib, q := s[p].left, s[p].parent;
    var (s', root') := EraseCase4Right(s, root, p, sib, s[sib].left);
    assert ChildChanged(s, s', root, root', q, p, sib);
  }

  lemma EraseCase4RightCorrect(s: Store, g: map<Ref, Place>, bh: map<Ref, int>, root: Ref, elems: seq<Ref>, p: Ref)
    requires Shape(s, g, root, elems) && Deficient(s, bh, root, p, false) && s[p].left in s
    requires !s[s[p].left].red && RedAt(s, s[s[p].left].left)
    ensures var sib := s[p].left;
      && (s[sib].right != NULL ==> s[sib].right in s) && p != sib && s[sib].left != p && s[sib].right != p
      && (s[p].parent != NULL ==> s[p].parent in s)
      && var (s', root') := EraseCase4Right(s, root, p, sib, s[sib].left);
      && s'.Keys == s.Keys && Shape(s', PlacesRight(s, g, p), root', elems)
      && Coloured(s', bh[p := bh[sib]][s[sib].left := bh[sib]][sib := bh[p]], root')
  {
    RepairRightLinks(s, g, bh, root, elems, p);
    EraseCase4RightRotates(s, root, p);
    var (s', root') := EraseCase4Right(s, root, p, s[p].left, s[s[p].left].left);
    RotateRightShape(s, s', g, root, root', elems, p);
    Case4RightHeights(s, s', g, bh, root, root', elems, p);
    Case4RightReds(s, s', g, bh, root, root', elems, p);
  }

  lemma EraseCase3RightRotates(s: Store, g: map<Ref, Place>, bh: map<Ref, int>, root: Ref, elems: seq<Ref>, p: Ref)
    requires Shape(s, g, root, elems) && Deficient(s, bh, root, p, false) && s[p].left in s
    requires !s[s[p].left].red && RedAt(s, s[s[p].left].right) && !RedAt(s, s[s[p].left].left)
    ensures var sib := s[p].left;
      var near := s[sib].right;
      && (s[near].left != NULL ==> s[near].left in s)
      && Turned3Right(s, Completed3Right(EraseCase3Right(s, p, sib, near), p, sib, near), g, bh, root, elems, p)
  {
    RepairRightLinks(s, g, bh, root, elems, p);
    var sib := s[p].left;
    var near := s[sib].right;
    assert RedOk(s, near, NULL);
    var s' := Completed3Right(EraseCase3Right(s, p, sib, near), p, sib, near);
    assert ChildChanged(s, s', root, root, p, sib, near);
    assert RotatedLeft(s, s', root, root, sib);
  }

  lemma EraseCase3RightCorrect(s: Store, g: map<Ref, Place>, bh: map<Ref, int>, root: Ref, elems: seq<Ref>, p: Ref)
    requires Shape(s, g, root, elems) && Deficient(s, bh, root, p, false) && s[p].left in s
    requires !s[s[p].left].red && RedAt(s, s[s[p].left].right) && !RedAt(s, s[s[p].left].left)
    ensures var sib := s[p].left;
      var near := s[sib].right;
      && (s[near].left != NULL ==> s[near].left in s)
      && var s' := Completed3Right(EraseCase3Right(s, p, sib, near), p, sib, near);
      && s'.Keys == s.Keys && Shape(s', PlacesLeft(s, g, sib), root, elems)
      && Deficient(s', bh[near := bh[sib]][sib := bh[sib] - 1], root, p, false)
      && s'[p].left == near && !s'[near].red && s'[near].left == sib && s'[sib].red
  {
    EraseCase3RightRotates(s, g, bh, root, elems, p);
    var sib := s[p].left;
    var near := s[sib].right;
    var s' := Completed3Right(EraseCase3Right(s, p, sib, near), p, sib, near);
    RotateLeftShape(s, s', g, root, root, elems, sib);
    Case3RightHeights(s, s', g, bh, root, elems, p);
    Case3RightReds(s, s', g, bh, root, elems, p);
  }

  /** Case 4 gives the same store whether or not Case 3 was completed. */
  lemma EraseCase3Then4Right(s: Store, root: Ref, p: Ref)
    requires AroundRight(s, p) && s[s[p].left].right != NULL
    ensures var sib := s[p].left;
      var near := s[sib].right;
      var t := EraseCase3Right(s, p, sib, near);
      && (t[near].right != NULL ==> t[near].right in t) && p != near && sib != p && t[near].right != p
      && t[near].right != sib
      && t.Keys == s.Keys && (t[p].parent != NULL ==> t[p].parent in t)
      && EraseCase4Right(t, root, p, near, sib) == EraseCase4Right(Completed3Right(t, p, sib, near), root, p, near, sib)
  {
    var sib := s[p].left;
    var near := s[sib].right;
    var t := EraseCase3Right(s, p, sib, near);
    assert t[near].right == s[near].right && t[p].parent == s[p].parent;
    Case4OverwritesRight(t, root, p, near, sib);
  }

  lemma Case4OverwritesRight(t: Store, root: Ref, p: Ref, near: Ref, sib: Ref)
    requires p in t && near in t && sib in t && p != near && p != sib && near != sib
    requires t[near].right != NULL ==> t[near].right in t && t[near].right != sib && t[near].right != near
    requires t[near].right != p
      && (t[p].parent != NULL ==> t[p].parent in t && t[p].parent != near && t[p].parent != sib)
    ensures EraseCase4Right(t, root, p, near, sib)
      == EraseCase4Right(Completed3Right(t, p, sib, near), root, p, near, sib)
  {
    var u := Completed3Right(t, p, sib, near);
    assert Before4Right(t, p, near, sib) == Before4Right(u, p, near, sib);
  }

  /** The store of Case 4 just before the child link of the grandparent is changed. */
  ghost function Before4Right(s: Store, parent: Ref, sibling: Ref, tmp1: Ref): Store
    requires parent in s && sibling in s && tmp1 in s && (s[sibling].right != NULL ==> s[sibling].right in s)
  {
    var tmp2 := s[sibling].right;
    var s1 := s[parent := s[parent].(left := tmp2)];
    var s2 := s1[sibling := s1[sibling].(right := parent)];
    var s3 := SetParentColour(s2, tmp1, sibling, false);
    var s4 := if tmp2 != NULL then s3[tmp2 := s3[tmp2].(parent := parent)] else s3;
    var s5 := s4[sibling := s4[sibling].(parent := s4[parent].parent, red := s4[parent].red)];
    SetParentColour(s5, parent, sibling, false)
  }

  /** Case 3 followed by Case 4 repairs the tree. */
  lemma EraseCases3And4Right(s: Store, g: map<Ref, Place>, bh: map<Ref, int>, root: Ref, elems: seq<Ref>, p: Ref)
    returns (g': map<Ref, Place>, bh': map<Ref, int>)
    requires Shape(s, g, root, elems) && Deficient(s, bh, root, p, false) && s[p].left in s
    requires !s[s[p].left].red && RedAt(s, s[s[p].left].right) && !RedAt(s, s[s[p].left].left)
    ensures AroundRight(s, p)
    ensures var sib := s[p].left;
      var near := s[sib].right;
      var t := EraseCase3Right(s, p, sib, near);
      && t.Keys == s.Keys && (t[near].right != NULL ==> t[near].right in t) && p != near && sib != p
      && t[near].right != p
      && (t[p].parent != NULL ==> t[p].parent in t)
      && var (s', root') := EraseCase4Right(t, root, p, near, sib);
      s'.Keys == s.Keys && Shape(s', g', root', elems) && Coloured(s', bh', root')
  {
    RepairRightLinks(s, g, bh, root, elems, p);
    EraseCase3RightCorrect(s, g, bh, root, elems, p);
    EraseCase3Then4Right(s, root, p);
    var sib := s[p].left;
    var near := s[sib].right;
    var t1 := Completed3Right(EraseCase3Right(s, p, sib, near), p, sib, near);
    g', bh' := RepairFarRight(t1, PlacesLeft(s, g, sib), bh[near := bh[sib]][sib := bh[sib] - 1], root, elems, p);
  }

  lemma RepairFarRight(s: Store, g: map<Ref, Place>, bh: map<Ref, int>, root: Ref, elems: seq<Ref>, p: Ref)
    returns (g': map<Ref, Place>, bh': map<Ref, int>)
    requires Shape(s, g, root, elems) && Deficient(s, bh, root, p, false) && s[p].left in s
    requires !s[s[p].left].red && RedAt(s, s[s[p].left].left)
    ensures AroundRight(s, p)
    ensures var sib := s[p].left;
      var (s', root') := EraseCase4Right(s, root, p, sib, s[sib].left);
      s'.Keys == s.Keys && Shape(s', g', root', elems) && Coloured(s', bh', root')
  {
    RepairRightLinks(s, g, bh, root, elems, p);
    EraseCase4RightCorrect(s, g, bh, root, elems, p);
    var sib := s[p].left;
    g', bh' := PlacesRight(s, g, p), bh[p := bh[sib]][s[sib].left := bh[sib]][sib := bh[p]];
  }
}
