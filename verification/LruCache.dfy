/** A bounded map from names to indices that forgets the least recently used name first. */
module LruCache {
  import opened Wrappers
  import opened ByteOrder

  /** `order` lists the names from least to most recently used; `names[i]` is the name at index `i`. */
  datatype Cache = Cache(order: seq<Name>, names: seq<Name>)

  ghost predicate Distinct(xs: seq<Name>)
  {
    forall i, j :: 0 <= i < j < |xs| ==> xs[i] != xs[j]
  }

  /** At most `max` distinct names, each with one index and one place in the order of use. */
  ghost predicate Well(c: Cache, max: nat)
  {
    && |c.names| == |c.order| <= max
    && Distinct(c.names) && Distinct(c.order)
    && (forall x :: x in c.order <==> x in c.names)
  }

  function IndexOf(xs: seq<Name>, x: Name): (i: nat)
    requires x in xs
    ensures i < |xs| && xs[i] == x
  {
    if xs[0] == x then 0 else 1 + IndexOf(xs[1..], x)
  }

  function Without(xs: seq<Name>, i: nat): seq<Name>
    requires i < |xs|
  {
    xs[..i] + xs[i + 1..]
  }

  /** `x` becomes the most recently used name. */
  function Touch(order: seq<Name>, x: Name): seq<Name>
    requires x in order
  {
    Without(order, IndexOf(order, x)) + [x]
  }

  function Find(c: Cache, max: nat, x: Name): (Cache, nat)
    requires |c.order| == |c.names|
    requires forall y :: y in c.order ==> y in c.names
    requires max >= 1
  {
    if x in c.order then (Cache(Touch(c.order, x), c.names), IndexOf(c.names, x))
    else if |c.names| < max then (Cache(c.order + [x], c.names + [x]), |c.names|)
    else
      var i := IndexOf(c.names, c.order[0]);
      (Cache(c.order[1..] + [x], c.names[i := x]), i)
  }

  function Lookup(c: Cache, i: nat): (Cache, Option<Name>)
    requires forall y :: y in c.names ==> y in c.order
  {
    if i < |c.names| then (Cache(Touch(c.order, c.names[i]), c.names), Some(c.names[i])) else (c, None)
  }

  lemma TouchKeeps(order: seq<Name>, x: Name)
    requires x in order && Distinct(order)
    ensures Distinct(Touch(order, x)) && |Touch(order, x)| == |order|
    ensures forall y :: y in Touch(order, x) <==> y in order
  {
    var k := IndexOf(order, x);
    forall y | y in order
      ensures y in Touch(order, x)
    {
      var i :| 0 <= i < |order| && order[i] == y;
      if i < k {
        assert Touch(order, x)[i] == y;
      } else if i > k {
        assert Touch(order, x)[i - 1] == y;
      } else {
        assert Touch(order, x)[|order| - 1] == y;
      }
    }
  }

  lemma DistinctIndex(xs: seq<Name>, i: nat)
    requires Distinct(xs) && i < |xs|
    ensures IndexOf(xs, xs[i]) == i
  {
  }

  lemma FindKeeps(c: Cache, max: nat, x: Name)
    requires Well(c, max) && max >= 1
    ensures var (c', i) := Find(c, max, x);
      Well(c', max) && i < |c'.names| && c'.names[i] == x && x in c'.order && c'.order[|c'.order| - 1] == x
  {
    var (c', i) := Find(c, max, x);
    if x in c.order {
      TouchKeeps(c.order, x);
    } else if |c.names| == max {
      var v := c.order[0];
      assert c'.order[|c'.order| - 1] == x && c'.names[i] == x;
      assert c.order == [v] + c.order[1..];
      forall y | y in c'.order
        ensures y in c'.names
      {
        if y != x {
          assert y in c.order[1..] && y in c.order;
          var k :| 0 <= k < |c.names| && c.names[k] == y;
          assert c'.names[k] == y;
        }
      }
      forall y | y in c'.names
        ensures y in c'.order
      {
        var k :| 0 <= k < |c'.names| && c'.names[k] == y;
        if k != i {
          assert y in c.order && y != v;
          assert y in c.order[1..];
        }
      }
    } else {
      assert c'.order[|c.order|] == x && c'.names[|c.names|] == x;
    }
  }

  lemma LookupKeeps(c: Cache, max: nat, i: nat)
    requires Well(c, max)
    ensures Well(Lookup(c, i).0, max)
  {
    if i < |c.names| {
      TouchKeeps(c.order, c.names[i]);
    }
  }

  // Histories.

  datatype Op = FindOp(name: Name) | LookupOp(index: nat)

  ghost function Step(c: Cache, max: nat, op: Op): Cache
    requires Well(c, max) && max >= 1
  {
    match op
    case FindOp(x) => Find(c, max, x).0
    case LookupOp(i) => Lookup(c, i).0
  }

  /** The name that an operation uses, if any. */
  ghost function Used(c: Cache, op: Op): set<Name>
  {
    match op
    case FindOp(x) => {x}
    case LookupOp(i) => if i < |c.names| then {c.names[i]} else {}
  }

  lemma StepKeeps(c: Cache, max: nat, op: Op)
    requires Well(c, max) && max >= 1
    ensures Well(Step(c, max, op), max)
  {
    match op
    case FindOp(x) => FindKeeps(c, max, x);
    case LookupOp(i) => LookupKeeps(c, max, i);
  }

  ghost function Run(c: Cache, max: nat, ops: seq<Op>): (r: Cache)
    requires Well(c, max) && max >= 1
    ensures Well(r, max)
    decreases ops
  {
    if ops == [] then c
    else
      StepKeeps(c, max, ops[0]);
      Run(Step(c, max, ops[0]), max, ops[1..])
  }

  ghost function UsedBy(c: Cache, max: nat, ops: seq<Op>): set<Name>
    requires Well(c, max) && max >= 1
    decreases ops
  {
    if ops == [] then {}
    else
      StepKeeps(c, max, ops[0]);
      Used(c, ops[0]) + UsedBy(Step(c, max, ops[0]), max, ops[1..])
  }

  /** Index `i` holds `x`, and only names in `recent` were used after it. */
  ghost predicate Guarded(c: Cache, x: Name, i: nat, recent: set<Name>)
  {
    && i < |c.names| && c.names[i] == x && x in c.order && x !in recent
    && forall k :: IndexOf(c.order, x) < k < |c.order| ==> c.order[k] in recent
  }

  ghost function Elements(xs: seq<Name>): set<Name>
  {
    set y | y in xs
  }

  lemma {:induction false} DistinctCount(xs: seq<Name>)
    requires Distinct(xs)
    ensures |Elements(xs)| == |xs|
  {
    if xs != [] {
      var rest := xs[..|xs| - 1];
      DistinctCount(rest);
      assert xs[|xs| - 1] !in rest;
      assert Elements(xs) == Elements(rest) + {xs[|xs| - 1]};
    }
  }

  lemma SubsetCount(a: set<Name>, b: set<Name>)
    requires a <= b
    ensures |a| <= |b|
  {
    assert b == a + (b - a);
  }

  /** Using another name keeps `x`, as long as fewer than `max` other names were used since. */
  lemma TouchGuarded(c: Cache, max: nat, y: Name, x: Name, i: nat, recent: set<Name>)
    requires Well(c, max) && Guarded(c, x, i, recent) && y in c.order
    ensures Guarded(Cache(Touch(c.order, y), c.names), x, i, (recent + {y}) - {x})
  {
    var order' := Touch(c.order, y);
    TouchKeeps(c.order, y);
    var p, q := IndexOf(c.order, x), IndexOf(c.order, y);
    var p' := if x == y then |c.order| - 1 else if q < p then p - 1 else p;
    assert order'[p'] == x;
    DistinctIndex(order', p');
    assert IndexOf(order', x) == p';
    TouchedAfter(c.order, y, p, p');
    forall k | p' < k < |order'| ensures order'[k] in (recent + {y}) - {x} {
      if order'[k] in c.order[p + 1..] {
        var j :| 0 <= j < |c.order[p + 1..]| && c.order[p + 1..][j] == order'[k];
        assert c.order[p + 1 + j] in recent;
      }
    }
  }

  lemma TouchedAfter(order: seq<Name>, y: Name, p: nat, p': nat)
    requires y in order && p < |order|
    requires p' == if order[p] == y then |order| - 1 else if IndexOf(order, y) < p then p - 1 else p
    ensures |Touch(order, y)| == |order|
    ensures forall k :: p' < k < |order| ==> Touch(order, y)[k] == y || Touch(order, y)[k] in order[p + 1..]
  {
    var q, order' := IndexOf(order, y), Touch(order, y);
    forall k | p' < k < |order| ensures order'[k] == y || order'[k] in order[p + 1..] {
      if k < |order| - 1 {
        var j := if k < q then k else k + 1;
        assert order'[k] == order[j] && order[p + 1..][j - p - 1] == order[j];
      }
    }
  }

  lemma FindGuarded(c: Cache, max: nat, y: Name, x: Name, i: nat, recent: set<Name>)
    requires Well(c, max) && max >= 1 && Guarded(c, x, i, recent)
    requires |(recent + {y}) - {x}| < max
    ensures Guarded(Find(c, max, y).0, x, i, (recent + {y}) - {x})
  {
    if y in c.order {
      TouchGuarded(c, max, y, x, i, recent);
      return;
    }
    FindKeeps(c, max, y);
    var (c', j) := Find(c, max, y);
    var p := IndexOf(c.order, x);
    if |c.names| < max {
      assert c'.order[p] == x;
      DistinctIndex(c'.order, p);
    } else {
      if p == 0 {
        var others := c.order[1..] + [y];
        assert Distinct(others) by {
          assert y !in c.order[1..];
        }
        DistinctCount(others);
        forall z | z in Elements(others)
          ensures z in (recent + {y}) - {x}
        {
          var k :| 0 <= k < |others| && others[k] == z;
          assert k < |others| - 1 ==> z == c.order[k + 1];
        }
        SubsetCount(Elements(others), (recent + {y}) - {x});
        assert false;
      }
      assert c'.order[p - 1] == x;
      DistinctIndex(c'.order, p - 1);
    }
  }

  lemma StepGuarded(c: Cache, max: nat, op: Op, x: Name, i: nat, recent: set<Name>)
    requires Well(c, max) && max >= 1 && Guarded(c, x, i, recent)
    requires |(recent + Used(c, op)) - {x}| < max
    ensures Guarded(Step(c, max, op), x, i, (recent + Used(c, op)) - {x})
  {
    match op
    case FindOp(y) => FindGuarded(c, max, y, x, i, recent);
    case LookupOp(j) =>
      if j < |c.names| {
        TouchGuarded(c, max, c.names[j], x, i, recent);
      } else {
        assert (recent + Used(c, op)) - {x} == recent;
      }
  }

  lemma {:induction false} RunGuarded(c: Cache, max: nat, ops: seq<Op>, x: Name, i: nat, recent: set<Name>)
    requires Well(c, max) && max >= 1 && Guarded(c, x, i, recent)
    requires |(recent + UsedBy(c, max, ops)) - {x}| < max
    ensures Guarded(Run(c, max, ops), x, i, (recent + UsedBy(c, max, ops)) - {x})
    decreases ops
  {
    if ops == [] {
      assert (recent + UsedBy(c, max, ops)) - {x} == recent;
    } else {
      StepKeeps(c, max, ops[0]);
      var recent' := (recent + Used(c, ops[0])) - {x};
      var c' := Step(c, max, ops[0]);
      assert (recent' + UsedBy(c', max, ops[1..])) - {x} == (recent + UsedBy(c, max, ops)) - {x};
      SubsetCount(recent', (recent + UsedBy(c, max, ops)) - {x});
      StepGuarded(c, max, ops[0], x, i, recent);
      RunGuarded(c', max, ops[1..], x, i, recent');
    }
  }

  /** Once `Find` gave index `i` for `x`, looking up `i` still gives `x` after every history that
      uses fewer than `max` other names. */
  lemma Survival(c: Cache, max: nat, x: Name, ops: seq<Op>)
    requires Well(c, max) && max >= 1
    ensures Well(Find(c, max, x).0, max)
    ensures var (c1, i) := Find(c, max, x);
      |UsedBy(c1, max, ops) - {x}| < max ==> Lookup(Run(c1, max, ops), i).1 == Some(x)
  {
    FindKeeps(c, max, x);
    var (c1, i) := Find(c, max, x);
    if |UsedBy(c1, max, ops) - {x}| < max {
      DistinctIndex(c1.order, |c1.order| - 1);
      assert {} + UsedBy(c1, max, ops) - {x} == UsedBy(c1, max, ops) - {x};
      RunGuarded(c1, max, ops, x, i, {});
    }
  }
}
