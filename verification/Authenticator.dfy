/** The user table of hev-socks5-authenticator.c, a red-black tree keyed by length and bytes of the name. */
module Authenticator {
  import opened Addresses
  import opened ByteOrder
  import opened RedBlackShape
  import opened RedBlackLink
  import opened RedBlackTree
  import opened TreeSearch
  import RedBlackErase

  ghost predicate Mapped(users: map<Name, Ref>, name: map<Ref, Name>, r: Ref)
  {
    r in name && name[r] in users && users[name[r]] == r
  }

  ghost predicate Stored(users: map<Name, Ref>, live: set<Ref>, name: map<Ref, Name>, x: Name)
    requires x in users
  {
    users[x] in live && users[x] in name && name[users[x]] == x
  }

  /** The tree `elems`, holding the records `live`, is a sorted form of the map `users`. */
  ghost predicate Represents(users: map<Name, Ref>, live: set<Ref>, elems: seq<Ref>, name: map<Ref, Name>)
  {
    && (forall r {:trigger Mapped(users, name, r)} :: r in live ==> Mapped(users, name, r))
    && (forall x {:trigger Stored(users, live, name, x)} :: x in users ==> Stored(users, live, name, x))
    && (forall i :: 0 <= i < |elems| ==> elems[i] in live && elems[i] in name)
    && Descending(elems, name, ByLength)
  }

  lemma AddRepresents(users: map<Name, Ref>, live: set<Ref>, elems: seq<Ref>, name: map<Ref, Name>, n: Ref, x: Name,
                      k: nat)
    requires Represents(users, live, elems, name) && n !in live && x !in users
      && Between(elems, name, ByLength, x, k, k)
    ensures Represents(users[x := n], live + {n}, Inserted(elems, k, n), name[n := x])
  {
    InsertBetween(elems, name, ByLength, x, k, n);
    var users', name', live' := users[x := n], name[n := x], live + {n};
    forall r {:trigger Mapped(users', name', r)} | r in live'
      ensures Mapped(users', name', r)
    {
      assert r != n ==> Mapped(users, name, r);
    }
    forall y {:trigger Stored(users', live', name', y)} | y in users'
      ensures Stored(users', live', name', y)
    {
      assert y != x ==> Stored(users, live, name, y);
    }
  }

  lemma DropRepresents(users: map<Name, Ref>, live: set<Ref>, elems: seq<Ref>, name: map<Ref, Name>, n: Ref, p: nat)
    requires Represents(users, live, elems, name) && n in live && p < |elems| && elems[p] == n
    requires forall i :: 0 <= i < |elems| && i != p ==> elems[i] != n
    ensures n in name
    ensures Represents(users - {name[n]}, live - {n}, RedBlackErase.Without(elems, p), name)
  {
    assert Mapped(users, name, n);
    var users', live', elems' := users - {name[n]}, live - {n}, RedBlackErase.Without(elems, p);
    assert forall i :: 0 <= i < |elems'| ==> elems'[i] == elems[if i < p then i else i + 1];
    forall r {:trigger Mapped(users', name, r)} | r in live'
      ensures Mapped(users', name, r)
    {
      assert Mapped(users, name, r);
    }
    forall y {:trigger Stored(users', live', name, y)} | y in users'
      ensures Stored(users', live', name, y)
    {
      assert Stored(users, live, name, y);
    }
  }

  class Authenticator {
    const tree: Tree
    var name: map<Ref, Name>
    ghost var users: map<Name, Ref>

    /** The tree holds exactly the users of the map, in strictly descending order. */
    ghost predicate Valid()
      reads this, tree
    {
      tree.Valid() && Represents(users, tree.s.Keys, tree.elems, name)
    }

    constructor ()
      ensures Valid() && fresh(tree) && users == map[]
    {
      tree := new Tree();
      name, users := map[], map[];
    }

    method Get(x: Name) returns (user: Ref)
      requires Valid()
      ensures user == if x in users then users[x] else NULL
    {
      var slot;
      ghost var path;
      user, slot, path := Descend(tree, name, ByLength, x);
      if user != NULL {
        assert Mapped(users, name, user);
      } else {
        Absent(slot, x);
      }
    }

    lemma Absent(slot: Slot, x: Name)
      requires Valid() && SlotIn(tree.s, slot)
      requires Between(tree.elems, name, ByLength, x, SlotIndex(tree.place, slot), SlotIndex(tree.place, slot))
      ensures x !in users
    {
      BetweenAbsent(tree.elems, name, ByLength, x, SlotIndex(tree.place, slot));
      forall y | y in users
        ensures y != x
      {
        assert Stored(users, tree.s.Keys, name, y);
        assert Local(tree.s, tree.place, tree.root, tree.elems, users[y]);
      }
    }

    /** Adds a user under a name; a user of that name already in the table stays, and the call fails. */
    method Add(user: Ref, x: Name) returns (r: int)
      requires Valid() && user != NULL && user !in tree.s
      modifies this, tree
      ensures Valid()
      ensures if x in old(users) then r == -1 && users == old(users) else r == 0 && users == old(users)[x := user]
    {
      var found, slot;
      ghost var path;
      found, slot, path := Descend(tree, name, ByLength, x);
      if found != NULL {
        assert Mapped(users, name, found);
        r := -1;
      } else {
        Absent(slot, x);
        AddRepresents(users, tree.s.Keys, tree.elems, name, user, x, SlotIndex(tree.place, slot));
        tree.Insert(user, slot);
        name := name[user := x];
        users := users[x := user];
        r := 0;
      }
    }

    method Del(x: Name) returns (r: int)
      requires Valid()
      modifies this, tree
      ensures Valid()
      ensures users == old(users) - {x} && r == if x in old(users) then 0 else -1
    {
      var node, slot;
      ghost var path;
      node, slot, path := Descend(tree, name, ByLength, x);
      if node != NULL {
        assert Mapped(users, name, node);
        Remove(node);
        r := 0;
      } else {
        Absent(slot, x);
        r := -1;
      }
    }

    method Remove(node: Ref)
      requires Valid() && node in tree.s
      modifies this, tree
      ensures old(node in name) && Valid() && users == old(users) - {old(name)[node]} && old(name)[node] in old(users)
      ensures tree.s.Keys == old(tree.s).Keys - {node}
    {
      assert Mapped(users, name, node) && Local(tree.s, tree.place, tree.root, tree.elems, node);
      DropRepresents(users, tree.s.Keys, tree.elems, name, node, tree.place[node].pos);
      users := users - {name[node]};
      tree.Erase(node);
    }

    method Clear()
      requires Valid()
      modifies this, tree
      ensures Valid() && users == map[] && tree.root == NULL
    {
      var n := tree.First();
      while n != NULL
        invariant Valid() && n == if tree.elems == [] then NULL else tree.elems[0]
        decreases |tree.s.Keys|
      {
        ghost var keys := tree.s.Keys;
        Remove(n);
        assert tree.s.Keys == keys - {n};
        n := tree.First();
      }
      assert tree.root != NULL ==> Local(tree.s, tree.place, tree.root, tree.elems, tree.root);
      forall x | x in users
        ensures users[x] in tree.s
      {
        assert Stored(users, tree.s.Keys, name, x);
      }
      assert users == map[];
    }
  }
}
