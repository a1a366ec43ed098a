/** What the in-order sequence and the red-black rules mean for traversal and search. */
module RedBlackHeight {
  import opened Addresses
  import opened RedBlackShape

  /** The traversal that follows child links only. */
  ghost function InOrder(s: Store, g: map<Ref, Place>, root: Ref, elems: seq<Ref>, n: Ref): seq<Ref>
    requires Shape(s, g, root, elems) && (n == NULL || n in s)
    decreases if n == NULL then 0 else g[n].hi - g[n].lo
  {
    if n == NULL then []
    else
      assert Local(s, g, root, elems, n);
      assert s[n].left != NULL ==> Local(s, g, root, elems, s[n].left);
      assert s[n].right != NULL ==> Local(s, g, root, elems, s[n].right);
      InOrder(s, g, root, elems, s[n].left) + [n] + InOrder(s, g, root, elems, s[n].right)
  }

  lemma {:induction false} InOrderSpan(s: Store, g: map<Ref, Place>, root: Ref, elems: seq<Ref>, n: Ref)
    requires Shape(s, g, root, elems) && n in s
    ensures 0 <= g[n].lo <= g[n].hi <= |elems|
    ensures InOrder(s, g, root, elems, n) == elems[g[n].lo..g[n].hi]
    decreases g[n].hi - g[n].lo
  {
    assert Local(s, g, root, elems, n);
    var l, r := s[n].left, s[n].right;
    if l != NULL {
      assert Local(s, g, root, elems, l);
      InOrderSpan(s, g, root, elems, l);
    }
    if r != NULL {
      assert Local(s, g, root, elems, r);
      InOrderSpan(s, g, root, elems, r);
    }
    assert elems[g[n].lo..g[n].hi] == elems[g[n].lo..g[n].pos] + [n] + elems[g[n].pos + 1..g[n].hi];
  }

  /** Following the child links from the root visits exactly the in-order sequence. */
  lemma InOrderIsElems(s: Store, g: map<Ref, Place>, root: Ref, elems: seq<Ref>)
    requires Shape(s, g, root, elems)
    ensures InOrder(s, g, root, elems, root) == elems
  {
    if root != NULL {
      InOrderSpan(s, g, root, elems, root);
      assert Local(s, g, root, elems, root);
    }
  }

  function Pow2(n: nat): nat
  {
    if n == 0 then 1 else 2 * Pow2(n - 1)
  }

  /** The largest exponent whose power of two does not exceed `n`. */
  function Log2(n: nat): nat
    requires n > 0
  {
    if n == 1 then 0 else 1 + Log2(n / 2)
  }

  lemma {:induction false} PowerBelow(k: nat, n: nat)
    requires Pow2(k) <= n
    ensures n > 0 && k <= Log2(n)
    decreases k
  {
    if k > 0 {
      PowerBelow(k - 1, n / 2);
    }
  }

  lemma {:induction false} SizeAtLeast(s: Store, g: map<Ref, Place>, root: Ref, elems: seq<Ref>, bh: map<Ref, int>,
                                       n: Ref)
    requires Shape(s, g, root, elems) && AllBalanced(s, bh) && n in s
    ensures 0 <= bh[n] && Pow2(bh[n]) <= g[n].hi - g[n].lo + 1
    decreases g[n].hi - g[n].lo
  {
    assert Local(s, g, root, elems, n) && Balanced(s, bh, n);
    var l, r := s[n].left, s[n].right;
    if l != NULL {
      assert Local(s, g, root, elems, l);
      SizeAtLeast(s, g, root, elems, bh, l);
    }
    if r != NULL {
      assert Local(s, g, root, elems, r);
      SizeAtLeast(s, g, root, elems, bh, r);
    }
  }

  /** A walk down the tree, one child link at a time. */
  ghost predicate Descends(s: Store, path: seq<Ref>)
  {
    && (forall i :: 0 <= i < |path| ==> path[i] in s)
    && (forall i :: 0 <= i < |path| - 1 ==> path[i + 1] == s[path[i]].left || path[i + 1] == s[path[i]].right)
  }

  lemma {:induction false} DescentShort(s: Store, bh: map<Ref, int>, path: seq<Ref>)
    requires AllBalanced(s, bh) && AllRedOk(s, NULL) && NULL !in s
    requires Descends(s, path) && path != []
    ensures |path| <= 2 * bh[path[0]] + (if s[path[0]].red then 1 else 0)
    decreases path
  {
    assert Balanced(s, bh, path[0]) && RedOk(s, path[0], NULL);
    if |path| > 1 {
      assert forall i :: 0 <= i < |path| - 1 ==> path[1..][i] == path[i + 1];
      assert path[0 + 1] == s[path[0]].left || path[0 + 1] == s[path[0]].right;
      DescentShort(s, bh, path[1..]);
    }
  }

  /** No descent from the root visits more than 2 * log2(n + 1) nodes. */
  lemma SearchIsLogarithmic(s: Store, g: map<Ref, Place>, root: Ref, elems: seq<Ref>, bh: map<Ref, int>, path: seq<Ref>)
    requires Shape(s, g, root, elems) && Coloured(s, bh, root)
    requires Descends(s, path) && path != [] && path[0] == root
    ensures |path| <= 2 * Log2(|elems| + 1)
  {
    DescentShort(s, bh, path);
    SizeAtLeast(s, g, root, elems, bh, root);
    assert Local(s, g, root, elems, root);
    PowerBelow(bh[root], |elems| + 1);
  }
}
