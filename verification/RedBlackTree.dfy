/** The red-black tree object of hev-rbtree.c: insertion, erasure and walking. */
module RedBlackTree {
  import opened Addresses
  import opened RedBlackShape
  import opened RedBlackLink
  import opened RedBlackInsert
  import opened RedBlackErase
  import opened RedBlackRepair

  class Tree {
    var root: Ref
    var s: Store
    ghost var elems: seq<Ref>
    ghost var place: map<Ref, Place>
    ghost var bh: map<Ref, int>

    /** `elems` is the in-order sequence, all links agree with it, and the red-black rules hold. */
    ghost predicate Valid()
      reads this
    {
      Shape(s, place, root, elems) && Coloured(s, bh, root)
    }

    constructor ()
      ensures Valid() && elems == [] && s == map[]
    {
      root, s, elems, place, bh := NULL, map[], [], map[], map[];
    }

    /** Links `node` at the empty `slot` and rebalances. */
    method Insert(node: Ref, slot: Slot)
      requires Valid() && Linkable(s, place, root, elems, node, slot)
      modifies this
      ensures Valid() && s.Keys == old(s).Keys + {node}
      ensures 0 <= SlotIndex(old(place), slot) <= |old(elems)|
      ensures elems == Inserted(old(elems), SlotIndex(old(place), slot), node)
    {
      LinkShape(s, place, root, elems, node, slot);
      LinkColours(s, place, root, elems, bh, node, slot);
      elems := Inserted(elems, SlotIndex(place, slot), node);
      place := LinkPlaces(place, node, slot);
      bh := bh[node := 0];
      var (s', root') := Link(s, root, node, slot);
      s, root := s', root';
      InsertColour(node);
    }

    method InsertColour(node0: Ref)
      requires Shape(s, place, root, elems) && RedAt(s, node0) && NearlyColoured(s, bh, root, node0)
      modifies this
      ensures Valid() && elems == old(elems) && s.Keys == old(s).Keys
    {
      var node := node0;
      var parent := s[node].parent;
      while true
        invariant Shape(s, place, root, elems) && RedAt(s, node) && NearlyColoured(s, bh, root, node)
        invariant parent == s[node].parent && elems == old(elems) && s.Keys == old(s).Keys
        decreases |elems| - (place[node].hi - place[node].lo)
      {
        if parent == NULL {
          BlackenRoot(s, SetParentColour(s, node, NULL, false), place, root, elems, bh, node);
          s := SetParentColour(s, node, NULL, false);
          bh := bh[node := bh[node] + 1];
          break;
        }
        RedParentLinks(s, place, root, elems, bh, node);
        if !s[parent].red {
          BlackParentDone(s, place, root, elems, bh, node);
          break;
        }
        var gparent := s[parent].parent;
        var tmp := s[gparent].right;
        if parent != tmp {
          if tmp != NULL && s[tmp].red {
            node, parent := Flip(gparent, parent, tmp, node);
            continue;
          }
          InsertRotateLeft(gparent, parent, node);
          break;
        } else {
          tmp := s[gparent].left;
          if tmp != NULL && s[tmp].red {
            node, parent := Flip(gparent, parent, tmp, node);
            continue;
          }
          InsertRotateRight(gparent, parent, node);
          break;
        }
      }
    }

    /** Cases 2 and 3 of insertion under the left child `parent` of `gparent`. */
    method InsertRotateLeft(gparent: Ref, parent: Ref, node: Ref)
      requires RedRedLeft(s, place, root, elems, bh, gparent, parent, node)
      modifies this
      ensures Valid() && elems == old(elems) && s.Keys == old(s).Keys
    {
      RedRedLeftLinks(s, place, root, elems, bh, gparent, parent, node);
      if node == s[parent].right {
        RotateParentLeft(gparent, parent, node);
        RotateGrandparentRight(gparent, node, parent);
      } else {
        RotateGrandparentRight(gparent, parent, node);
      }
    }

    method RotateParentLeft(gparent: Ref, parent: Ref, node: Ref)
      requires RedRedLeft(s, place, root, elems, bh, gparent, parent, node) && s[parent].right == node
      modifies this
      ensures RedRedLeft(s, place, root, elems, bh, gparent, node, parent) && s[node].left == parent
      ensures elems == old(elems) && s.Keys == old(s).Keys
    {
      InsertCase2LeftCorrect(s, place, root, elems, bh, gparent, parent, node);
      place := PlacesLeft(s, place, parent);
      s := InsertCase2Left(s, gparent, parent, node);
    }

    method RotateGrandparentRight(gparent: Ref, parent: Ref, node: Ref)
      requires RedRedLeft(s, place, root, elems, bh, gparent, parent, node) && s[parent].left == node
      modifies this
      ensures Valid() && elems == old(elems) && s.Keys == old(s).Keys
    {
      InsertCase3LeftCorrect(s, place, root, elems, bh, gparent, parent, node);
      place := PlacesRight(s, place, gparent);
      var (s', root') := InsertCase3Left(s, root, gparent, parent, s[parent].right);
      s, root := s', root';
      bh := bh[parent := bh[parent] + 1][gparent := bh[gparent] - 1];
    }

    /** Cases 2 and 3 of insertion under the right child `parent` of `gparent`. */
    method InsertRotateRight(gparent: Ref, parent: Ref, node: Ref)
      requires RedRedRight(s, place, root, elems, bh, gparent, parent, node)
      modifies this
      ensures Valid() && elems == old(elems) && s.Keys == old(s).Keys
    {
      RedRedRightLinks(s, place, root, elems, bh, gparent, parent, node);
      if node == s[parent].left {
        RotateParentRight(gparent, parent, node);
        RotateGrandparentLeft(gparent, node, parent);
      } else {
        RotateGrandparentLeft(gparent, parent, node);
      }
    }

    method RotateParentRight(gparent: Ref, parent: Ref, node: Ref)
      requires RedRedRight(s, place, root, elems, bh, gparent, parent, node) && s[parent].left == node
      modifies this
      ensures RedRedRight(s, place, root, elems, bh, gparent, node, parent) && s[node].right == parent
      ensures elems == old(elems) && s.Keys == old(s).Keys
    {
      InsertCase2RightCorrect(s, place, root, elems, bh, gparent, parent, node);
      place := PlacesRight(s, place, parent);
      s := InsertCase2Right(s, gparent, parent, node);
    }

    method RotateGrandparentLeft(gparent: Ref, parent: Ref, node: Ref)
      requires RedRedRight(s, place, root, elems, bh, gparent, parent, node) && s[parent].right == node
      modifies this
      ensures Valid() && elems == old(elems) && s.Keys == old(s).Keys
    {
      InsertCase3RightCorrect(s, place, root, elems, bh, gparent, parent, node);
      place := PlacesLeft(s, place, gparent);
      var (s', root') := InsertCase3Right(s, root, gparent, parent, s[parent].left);
      s, root := s', root';
      bh := bh[parent := bh[parent] + 1][gparent := bh[gparent] - 1];
    }

    /** Case 1 of insertion: colour flips; the search for a violation goes on at the grandparent. */
    method Flip(gparent: Ref, parent: Ref, uncle: Ref, node: Ref) returns (node': Ref, parent': Ref)
      requires Shape(s, place, root, elems) && NearlyColoured(s, bh, root, node)
      requires RedAt(s, node) && s[node].parent == parent && RedAt(s, parent) && RedAt(s, uncle) && parent != uncle
      requires gparent in s && s[parent].parent == gparent && s[uncle].parent == gparent
      requires (s[gparent].left == parent && s[gparent].right == uncle)
        || (s[gparent].left == uncle && s[gparent].right == parent)
      modifies this
      ensures Shape(s, place, root, elems) && RedAt(s, node') && NearlyColoured(s, bh, root, node')
      ensures node' == gparent && parent' == s[node'].parent
      ensures elems == old(elems) && place == old(place) && s.Keys == old(s).Keys
    {
      ghost var s0 := s;
      s := SetParentColour(s, uncle, gparent, false);
      s := SetParentColour(s, parent, gparent, false);
      node' := gparent;
      parent' := s[node'].parent;
      s := SetParentColour(s, node', parent', true);
      FlipCorrect(s0, s, place, root, elems, bh, gparent, parent, uncle, node);
      bh := bh[parent := bh[parent] + 1][uncle := bh[uncle] + 1];
    }

    // Walking.

    method First() returns (n: Ref)
      requires Valid()
      ensures n == if elems == [] then NULL else elems[0]
    {
      n := root;
      if n == NULL {
        return;
      }
      assert Local(s, place, root, elems, n);
      while s[n].left != NULL
        invariant n in s && Local(s, place, root, elems, n) && place[n].lo == 0
        decreases place[n].hi - place[n].lo
      {
        n := s[n].left;
        assert Local(s, place, root, elems, n);
      }
    }

    method Last() returns (n: Ref)
      requires Valid()
      ensures n == if elems == [] then NULL else elems[|elems| - 1]
    {
      n := root;
      if n == NULL {
        return;
      }
      assert Local(s, place, root, elems, n);
      while s[n].right != NULL
        invariant n in s && Local(s, place, root, elems, n) && place[n].hi == |elems|
        decreases place[n].hi - place[n].lo
      {
        n := s[n].right;
        assert Local(s, place, root, elems, n);
      }
    }

    method Next(node: Ref) returns (n: Ref)
      requires Valid() && node in s
      ensures 0 <= place[node].pos < |elems| && elems[place[node].pos] == node
      ensures n == if place[node].pos + 1 == |elems| then NULL else elems[place[node].pos + 1]
    {
      assert Local(s, place, root, elems, node);
      if s[node].right != NULL {
        n := s[node].right;
        assert Local(s, place, root, elems, n);
        while s[n].left != NULL
          invariant n in s && Local(s, place, root, elems, n) && place[n].lo == place[node].pos + 1
          decreases place[n].hi - place[n].lo
        {
          n := s[n].left;
          assert Local(s, place, root, elems, n);
        }
        return;
      }
      var child := node;
      n := s[child].parent;
      assert n != NULL ==> Local(s, place, root, elems, n);
      while n != NULL && child == s[n].right
        invariant child in s && n == s[child].parent && Local(s, place, root, elems, child)
        invariant n != NULL ==> Local(s, place, root, elems, n)
        invariant place[child].hi == place[node].pos + 1
        decreases |elems| - (place[child].hi - place[child].lo)
      {
        child := n;
        n := s[child].parent;
        assert n != NULL ==> Local(s, place, root, elems, n);
      }
    }

    method Prev(node: Ref) returns (n: Ref)
      requires Valid() && node in s
      ensures 0 <= place[node].pos < |elems| && elems[place[node].pos] == node
      ensures n == if place[node].pos == 0 then NULL else elems[place[node].pos - 1]
    {
      assert Local(s, place, root, elems, node);
      if s[node].left != NULL {
        n := s[node].left;
        assert Local(s, place, root, elems, n);
        while s[n].right != NULL
          invariant n in s && Local(s, place, root, elems, n) && place[n].hi == place[node].pos
          decreases place[n].hi - place[n].lo
        {
          n := s[n].right;
          assert Local(s, place, root, elems, n);
        }
        return;
      }
      var child := node;
      n := s[child].parent;
      assert n != NULL ==> Local(s, place, root, elems, n);
      while n != NULL && child == s[n].left
        invariant child in s && n == s[child].parent && Local(s, place, root, elems, child)
        invariant n != NULL ==> Local(s, place, root, elems, n)
        invariant place[child].lo == place[node].pos
        decreases |elems| - (place[child].hi - place[child].lo)
      {
        child := n;
        n := s[child].parent;
        assert n != NULL ==> Local(s, place, root, elems, n);
      }
    }

    // Erasure.

    method Erase(node: Ref)
      requires Valid() && node in s
      modifies this
      ensures Valid() && s.Keys == old(s).Keys - {node}
      ensures 0 <= old(place)[node].pos < |old(elems)| && old(elems)[old(place)[node].pos] == node
      ensures elems == Without(old(elems), old(place)[node].pos)
    {
      var rebalance;
      ghost var left;
      rebalance, left := Unlink(node);
      if rebalance != NULL {
        EraseColour(rebalance, left);
      }
    }

    /** Takes `node` out; `rebalance` is the node above a missing black node, if there is one. */
    method Unlink(node: Ref) returns (rebalance: Ref, ghost left: bool)
      requires Valid() && node in s
      modifies this
      ensures 0 <= old(place)[node].pos < |old(elems)| && old(elems)[old(place)[node].pos] == node
      ensures elems == Without(old(elems), old(place)[node].pos) && s.Keys == old(s).Keys - {node}
      ensures Shape(s, place, root, elems)
      ensures if rebalance == NULL then Coloured(s, bh, root)
              else Deficient(s, bh, root, rebalance, left)
                   && NULL == (if left then s[rebalance].left else s[rebalance].right)
    {
      assert Local(s, place, root, elems, node);
      if s[node].left == NULL || s[node].right == NULL {
        rebalance, left := UnlinkSimple(node);
      } else {
        var successor, parent := FindSuccessor(node);
        rebalance, left := UnlinkSuccessor(node, successor, parent);
      }
    }

    method UnlinkSimple(node: Ref) returns (rebalance: Ref, ghost left: bool)
      requires Valid() && node in s && (s[node].left == NULL || s[node].right == NULL)
      modifies this
      ensures 0 <= old(place)[node].pos < |old(elems)|
      ensures elems == Without(old(elems), old(place)[node].pos) && s.Keys == old(s).Keys - {node}
      ensures Shape(s, place, root, elems)
      ensures if rebalance == NULL then Coloured(s, bh, root)
              else Deficient(s, bh, root, rebalance, left)
                   && NULL == (if left then s[rebalance].left else s[rebalance].right)
    {
      EraseSimpleUnlinks(s, place, root, elems, node);
      var (s', root') := EraseSimple(s, root, node);
      UnlinkShape(s, s', place, root, root', elems, node);
      UnlinkColours(s, s', bh, place, root, root', elems, node);
      var parent := s[node].parent;
      left := parent in s && s[parent].left == node;
      rebalance := if s[node].left == NULL && s[node].right == NULL && !s[node].red then parent else NULL;
      elems := Without(elems, place[node].pos);
      place := UnlinkPlaces(place, node);
      bh := UnlinkHeights(s, bh, node);
      s, root := s', root';
    }

    /** The leftmost node of the right subtree, and the node above the gap it would leave. */
    method FindSuccessor(node: Ref) returns (successor: Ref, parent: Ref)
      requires Valid() && node in s && s[node].left != NULL && s[node].right != NULL
      ensures Successor(s, place, root, elems, node, successor, parent)
    {
      assert Local(s, place, root, elems, node);
      successor := s[node].right;
      assert Local(s, place, root, elems, successor);
      parent := successor;
      var tmp := s[successor].left;
      while tmp != NULL
        invariant successor in s && tmp == s[successor].left
        invariant Local(s, place, root, elems, successor) && place[successor].lo == place[node].pos + 1
        invariant parent == (if s[node].right == successor then successor else s[successor].parent)
        decreases place[successor].hi - place[successor].lo
      {
        parent := successor;
        successor := tmp;
        tmp := s[tmp].left;
        assert Local(s, place, root, elems, successor);
      }
    }

    method UnlinkSuccessor(node: Ref, successor: Ref, parent: Ref) returns (rebalance: Ref, ghost left: bool)
      requires Valid() && Successor(s, place, root, elems, node, successor, parent)
      modifies this
      ensures 0 <= old(place)[node].pos < |old(elems)|
      ensures elems == Without(old(elems), old(place)[node].pos) && s.Keys == old(s).Keys - {node}
      ensures Shape(s, place, root, elems)
      ensures if rebalance == NULL then Coloured(s, bh, root)
              else Deficient(s, bh, root, rebalance, left)
                   && NULL == (if left then s[rebalance].left else s[rebalance].right)
    {
      var s', root';
      ghost var g', bh';
      s', root', g', bh' := Splice(s, root, node, successor, parent, place, bh, elems);
      rebalance := if s[successor].right == NULL && !s[successor].red then parent else NULL;
      left := parent != successor;
      elems := Without(elems, place[node].pos);
      place, bh := g', bh';
      s, root := s', root';
    }

    method EraseColour(parent0: Ref, ghost left0: bool)
      requires Shape(s, place, root, elems) && Deficient(s, bh, root, parent0, left0)
      requires NULL == (if left0 then s[parent0].left else s[parent0].right)
      modifies this
      ensures Valid() && elems == old(elems) && s.Keys == old(s).Keys
    {
      var node := NULL;
      var parent := parent0;
      ghost var left := left0;
      while true
        invariant Shape(s, place, root, elems) && Deficient(s, bh, root, parent, left)
        invariant node == (if left then s[parent].left else s[parent].right)
        invariant elems == old(elems) && s.Keys == old(s).Keys
        decreases |elems| - (place[parent].hi - place[parent].lo)
      {
        SiblingExists(s, bh, place, root, elems, parent, left);
        ghost var span := place[parent].hi - place[parent].lo;
        if node != s[parent].right {
          var again := RepairLeft(parent);
          if !again {
            break;
          }
        } else {
          var again := RepairRight(parent);
          if !again {
            break;
          }
        }
        node := parent;
        parent := s[node].parent;
        left := s[parent].left == node;
      }
    }

    /** One pass of the repair loop with the short side on the left; `again` asks for another pass one level up. */
    method RepairLeft(parent: Ref) returns (again: bool)
      requires Shape(s, place, root, elems) && Deficient(s, bh, root, parent, true)
      modifies this
      ensures elems == old(elems) && s.Keys == old(s).Keys
      ensures !again ==> Valid()
      ensures again ==>
        && Shape(s, place, root, elems) && s[parent].parent in s
        && s[s[parent].parent].left != s[s[parent].parent].right
        && Deficient(s, bh, root, s[parent].parent, s[s[parent].parent].left == parent)
        && (s[s[parent].parent].left == parent || s[s[parent].parent].right == parent)
        && old(place)[parent].hi - old(place)[parent].lo
           < place[s[parent].parent].hi - place[s[parent].parent].lo <= |elems|
    {
      SiblingExists(s, bh, place, root, elems, parent, true);
      var sibling := s[parent].right;
      if s[sibling].red {
        RotateSiblingLeft(parent);
        sibling := s[parent].right;
      }
      SiblingExists(s, bh, place, root, elems, parent, true);
      var tmp1 := s[sibling].right;
      if !RedAt(s, tmp1) {
        var tmp2 := s[sibling].left;
        if !RedAt(s, tmp2) {
          again := FlipSibling(parent, sibling, true);
        } else {
          RotateTwiceLeft(parent);
          again := false;
        }
      } else {
        RotateOnceLeft(parent);
        again := false;
      }
    }

    method RotateSiblingLeft(parent: Ref)
      requires Shape(s, place, root, elems) && Deficient(s, bh, root, parent, true) && RedAt(s, s[parent].right)
      modifies this
      ensures Shape(s, place, root, elems) && Deficient(s, bh, root, parent, true)
      ensures s[parent].red && !RedAt(s, s[parent].right) && elems == old(elems) && s.Keys == old(s).Keys
    {
      EraseCase1LeftCorrect(s, place, bh, root, elems, parent);
      var sibling := s[parent].right;
      var (s', root') := EraseCase1Left(s, root, parent, sibling);
      place := PlacesLeft(s, place, parent);
      bh := bh[sibling := bh[parent]][parent := bh[parent] - 1];
      s, root := s', root';
    }

    method RotateOnceLeft(parent: Ref)
      requires Shape(s, place, root, elems) && Deficient(s, bh, root, parent, true) && s[parent].right in s
      requires !s[s[parent].right].red && RedAt(s, s[s[parent].right].right)
      modifies this
      ensures Valid() && elems == old(elems) && s.Keys == old(s).Keys
    {
      EraseCase4LeftCorrect(s, place, bh, root, elems, parent);
      var sibling := s[parent].right;
      var tmp1 := s[sibling].right;
      var (s', root') := EraseCase4Left(s, root, parent, sibling, tmp1);
      place := PlacesLeft(s, place, parent);
      bh := bh[parent := bh[sibling]][tmp1 := bh[sibling]][sibling := bh[parent]];
      s, root := s', root';
    }

    method RotateTwiceLeft(parent: Ref)
      requires Shape(s, place, root, elems) && Deficient(s, bh, root, parent, true) && s[parent].right in s
      requires !s[s[parent].right].red && RedAt(s, s[s[parent].right].left) && !RedAt(s, s[s[parent].right].right)
      modifies this
      ensures Valid() && elems == old(elems) && s.Keys == old(s).Keys
    {
      var sibling := s[parent].right;
      var tmp2 := s[sibling].left;
      ghost var g', bh' := EraseCases3And4Left(s, place, bh, root, elems, parent);
      var t := EraseCase3Left(s, parent, sibling, tmp2);
      var (s', root') := EraseCase4Left(t, root, parent, tmp2, sibling);
      place, bh := g', bh';
      s, root := s', root';
    }


    /** One pass of the repair loop with the short side on the right; `again` asks for another pass one level up. */
    method RepairRight(parent: Ref) returns (again: bool)
      requires Shape(s, place, root, elems) && Deficient(s, bh, root, parent, false)
      modifies this
      ensures elems == old(elems) && s.Keys == old(s).Keys
      ensures !again ==> Valid()
      ensures again ==>
        && Shape(s, place, root, elems) && s[parent].parent in s
        && s[s[parent].parent].left != s[s[parent].parent].right
        && Deficient(s, bh, root, s[parent].parent, s[s[parent].parent].left == parent)
        && (s[s[parent].parent].left == parent || s[s[parent].parent].right == parent)
        && old(place)[parent].hi - old(place)[parent].lo
           < place[s[parent].parent].hi - place[s[parent].parent].lo <= |elems|
    {
      SiblingExists(s, bh, place, root, elems, parent, false);
      var sibling := s[parent].left;
      if s[sibling].red {
        RotateSiblingRight(parent);
        sibling := s[parent].left;
      }
      SiblingExists(s, bh, place, root, elems, parent, false);
      var tmp1 := s[sibling].left;
      if !RedAt(s, tmp1) {
        var tmp2 := s[sibling].right;
        if !RedAt(s, tmp2) {
          again := FlipSibling(parent, sibling, false);
        } else {
          RotateTwiceRight(parent);
          again := false;
        }
      } else {
        RotateOnceRight(parent);
        again := false;
      }
    }

    method RotateSiblingRight(parent: Ref)
      requires Shape(s, place, root, elems) && Deficient(s, bh, root, parent, false) && RedAt(s, s[parent].left)
      modifies this
      ensures Shape(s, place, root, elems) && Deficient(s, bh, root, parent, false)
      ensures s[parent].red && !RedAt(s, s[parent].left) && elems == old(elems) && s.Keys == old(s).Keys
    {
      EraseCase1RightCorrect(s, place, bh, root, elems, parent);
      var sibling := s[parent].left;
      var (s', root') := EraseCase1Right(s, root, parent, sibling);
      place := PlacesRight(s, place, parent);
      bh := bh[sibling := bh[parent]][parent := bh[parent] - 1];
      s, root := s', root';
    }

    method RotateOnceRight(parent: Ref)
      requires Shape(s, place, root, elems) && Deficient(s, bh, root, parent, false) && s[parent].left in s
      requires !s[s[parent].left].red && RedAt(s, s[s[parent].left].left)
      modifies this
      ensures Valid() && elems == old(elems) && s.Keys == old(s).Keys
    {
      EraseCase4RightCorrect(s, place, bh, root, elems, parent);
      var sibling := s[parent].left;
      var tmp1 := s[sibling].left;
      var (s', root') := EraseCase4Right(s, root, parent, sibling, tmp1);
      place := PlacesRight(s, place, parent);
      bh := bh[parent := bh[sibling]][tmp1 := bh[sibling]][sibling := bh[parent]];
      s, root := s', root';
    }

    method RotateTwiceRight(parent: Ref)
      requires Shape(s, place, root, elems) && Deficient(s, bh, root, parent, false) && s[parent].left in s
      requires !s[s[parent].left].red && RedAt(s, s[s[parent].left].right) && !RedAt(s, s[s[parent].left].left)
      modifies this
      ensures Valid() && elems == old(elems) && s.Keys == old(s).Keys
    {
      var sibling := s[parent].left;
      var tmp2 := s[sibling].right;
      ghost var g', bh' := EraseCases3And4Right(s, place, bh, root, elems, parent);
      var t := EraseCase3Right(s, parent, sibling, tmp2);
      var (s', root') := EraseCase4Right(t, root, parent, tmp2, sibling);
      place, bh := g', bh';
      s, root := s', root';
    }

    method FlipSibling(parent: Ref, sibling: Ref, ghost left: bool) returns (again: bool)
      requires Shape(s, place, root, elems) && Deficient(s, bh, root, parent, left)
      requires sibling == (if left then s[parent].right else s[parent].left)
      requires sibling in s && s[sibling].parent == parent && sibling != parent
      requires !s[sibling].red && !RedAt(s, s[sibling].left) && !RedAt(s, s[sibling].right)
      modifies this
      ensures elems == old(elems) && s.Keys == old(s).Keys && place == old(place)
      ensures !again ==> Valid()
      ensures again ==>
        && Shape(s, place, root, elems) && !old(s)[parent].red
        && s[parent].parent in s && s[s[parent].parent].left != s[s[parent].parent].right
        && Deficient(s, bh, root, s[parent].parent, s[s[parent].parent].left == parent)
        && (s[s[parent].parent].left == parent || s[s[parent].parent].right == parent)
        && place[parent].hi - place[parent].lo < place[s[parent].parent].hi - place[s[parent].parent].lo <= |elems|
    {
      ghost var s0 := s;
      var t := SetParentColour(s, sibling, parent, true);
      again := false;
      if t[parent].red {
        t := t[parent := t[parent].(red := false)];
      } else if t[parent].parent != NULL {
        again := true;
      }
      assert Turned2(s, t, place, bh, root, elems, parent, left);
      Case2Correct(s, t, place, bh, root, elems, parent, left);
      bh := Heights2(s, bh, parent, sibling);
      s := t;
      if again {
        assert Local(s, place, root, elems, parent) && Local(s, place, root, elems, s[parent].parent);
      }
    }
  }

  ghost function SpliceHeights(s: Store, bh: map<Ref, int>, node: Ref, successor: Ref): map<Ref, int>
    requires bh.Keys == s.Keys && node in s && successor in s
  {
    UnlinkHeights(SwapStore(s, node, successor), SwapKeys(bh, node, successor), node)
  }

  /** Splicing the successor into the place of the node drops the node from the in-order sequence. */
  lemma SpliceCorrect(s: Store, s': Store, g: map<Ref, Place>, bh: map<Ref, int>, root: Ref, root': Ref,
                      elems: seq<Ref>, node: Ref, successor: Ref, parent: Ref)
    requires Successor(s, g, root, elems, node, successor, parent) && Coloured(s, bh, root)
    requires AroundSplice(s, root, node, successor, parent)
    requires Unlinked(SwapStore(s, node, successor), s', Swap(root, node, successor), root', node)
    requires ColourInherited(SwapStore(s, node, successor), s', node)
    ensures 0 <= g[node].pos < |elems| && s'.Keys == s.Keys - {node}
    ensures Shape(s', UnlinkPlaces(SwapKeys(g, node, successor), node), root', Without(elems, g[node].pos))
    ensures var bh' := SpliceHeights(s, bh, node, successor);
      if s[successor].right == NULL && !s[successor].red
      then Deficient(s', bh', root', parent,
                     parent != successor) && NULL == (if parent != successor then s'[parent].left else s'[parent].right)
      else Coloured(s', bh', root')
  {
    SwappedTree(s, g, bh, root, elems, node, successor, parent);
    SwapThenWithout(s, g, root, elems, node, successor);
    var s1 := SwapStore(s, node, successor);
    SpliceUnlinked(s1, s', SwapKeys(g, node, successor), SwapKeys(bh, node, successor),
                   Swap(root, node, successor), root', SwapElems(elems, node, successor), node, parent,
                     parent != successor);
  }

  lemma SwappedTree(s: Store, g: map<Ref, Place>, bh: map<Ref, int>, root: Ref, elems: seq<Ref>, node: Ref,
                    successor: Ref, parent: Ref)
    requires Successor(s, g, root, elems, node, successor, parent) && Coloured(s, bh, root)
    requires AroundSplice(s, root, node, successor, parent)
    ensures var s1, root1 := SwapStore(s, node, successor), Swap(root, node, successor);
      && Shape(s1, SwapKeys(g, node, successor), root1, SwapElems(elems, node, successor))
      && Coloured(s1, SwapKeys(bh, node, successor), root1)
      && node in s1 && parent in s1 && s1[node].left == NULL && s1[node].parent == parent
      && s1[node].right == s[successor].right
      && s1[node].red == s[successor].red && (s1[parent].left == node) == (parent != successor)
  {
    SwapShape(s, g, root, elems, node, successor);
    SwapColours(s, bh, g, root, elems, node, successor);
    SwappedLinks(s, root, node, successor, parent);
  }

  lemma SwappedLinks(s: Store, root: Ref, node: Ref, successor: Ref, parent: Ref)
    requires AroundSplice(s, root, node, successor, parent)
    ensures var s1 := SwapStore(s, node, successor);
      && node in s1 && parent in s1 && s1[node].left == NULL && s1[node].parent == parent
      && s1[node].right == s[successor].right
      && s1[node].red == s[successor].red && (s1[parent].left == node) == (parent != successor)
  {
  }

  method Splice(s: Store, root: Ref, node: Ref, successor: Ref, parent: Ref, ghost g: map<Ref, Place>,
                ghost bh: map<Ref, int>, ghost elems: seq<Ref>)
    returns (s': Store, root': Ref, ghost g': map<Ref, Place>, ghost bh': map<Ref, int>)
    requires Successor(s, g, root, elems, node, successor, parent) && Coloured(s, bh, root)
    ensures 0 <= g[node].pos < |elems| && s'.Keys == s.Keys - {node} && parent in s
    ensures Shape(s', g', root', Without(elems, g[node].pos))
    ensures
      if s[successor].right == NULL && !s[successor].red
      then Deficient(s', bh', root', parent,
                     parent != successor) && NULL == (if parent != successor then s'[parent].left else s'[parent].right)
      else Coloured(s', bh', root')
  {
    EraseSpliceUnlinks(s, g, bh, root, elems, node, successor, parent);
    var (s1, root1) := EraseSplice(s, root, node, successor, parent);
    SpliceCorrect(s, s1, g, bh, root, root1, elems, node, successor, parent);
    s', root' := s1, root1;
    g', bh' := UnlinkPlaces(SwapKeys(g, node, successor), node), SpliceHeights(s, bh, node, successor);
  }

  lemma SpliceUnlinked(s: Store, s': Store, g: map<Ref, Place>, bh: map<Ref, int>, root: Ref, root': Ref,
                       elems: seq<Ref>, n: Ref, q: Ref, left: bool)
    requires Shape(s, g, root, elems) && Coloured(s, bh, root)
    requires Unlinked(s, s', root, root', n) && ColourInherited(s, s', n)
    requires s[n].left == NULL && q == s[n].parent && q != NULL && left == (s[q].left == n)
    ensures 0 <= g[n].pos < |elems| && Shape(s', UnlinkPlaces(g, n), root', Without(elems, g[n].pos))
    ensures if s[n].right == NULL && !s[n].red
            then Deficient(s', UnlinkHeights(s, bh, n), root', q, left)
                 && NULL == (if left then s'[q].left else s'[q].right)
            else Coloured(s', UnlinkHeights(s, bh, n), root')
  {
    UnlinkShape(s, s', g, root, root', elems, n);
    UnlinkColours(s, s', bh, g, root, root', elems, n);
  }

  /** Exchanging a node with its successor and dropping the second place is dropping the first place. */
  lemma SwapThenWithout(s: Store, g: map<Ref, Place>, root: Ref, elems: seq<Ref>, node: Ref, successor: Ref)
    requires Shape(s, g, root, elems) && node in s && successor in s && g[successor].pos == g[node].pos + 1
    ensures 0 <= g[node].pos < |elems| && SwapKeys(g, node, successor)[node].pos == g[node].pos + 1 < |elems|
    ensures Without(SwapElems(elems, node, successor), g[node].pos + 1) == Without(elems, g[node].pos)
  {
    assert Local(s, g, root, elems, node) && Local(s, g, root, elems, successor);
    var a, b := Without(SwapElems(elems, node, successor), g[node].pos + 1), Without(elems, g[node].pos);
    forall i | 0 <= i < |a|
      ensures a[i] == b[i]
    {
      if i < g[node].pos {
        assert elems[i] != node && elems[i] != successor;
      } else if i > g[node].pos {
        assert elems[i + 1] != node && elems[i + 1] != successor;
      }
    }
    assert a == b;
  }
}
