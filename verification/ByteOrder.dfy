/** Byte strings and the two orders in which the tree clients compare them. */
module ByteOrder {

  type byte = x: int | 0 <= x < 256

  type Name = seq<byte>

  /** strcmp on zero-terminated names: `ByName`; length first, then memcmp: `ByLength`. */
  datatype Order = ByName | ByLength

  /** Unsigned lexicographic comparison in which a proper prefix comes first. */
  function Lex(a: Name, b: Name): int
  {
    if a == [] then (if b == [] then 0 else -1)
    else if b == [] then 1
    else if a[0] < b[0] then -1
    else if a[0] > b[0] then 1
    else Lex(a[1..], b[1..])
  }

  function Compare(order: Order, a: Name, b: Name): int
  {
    if order == ByLength && |a| < |b| then -1
    else if order == ByLength && |a| > |b| then 1
    else Lex(a, b)
  }

  lemma {:induction false} LexOpposite(a: Name, b: Name)
    ensures Lex(a, b) == -Lex(b, a)
    ensures Lex(a, b) == 0 <==> a == b
  {
    if a != [] && b != [] && a[0] == b[0] {
      LexOpposite(a[1..], b[1..]);
      assert a == [a[0]] + a[1..] && b == [b[0]] + b[1..];
    }
  }

  lemma {:induction false} LexTransitive(a: Name, b: Name, c: Name)
    requires Lex(a, b) < 0 && Lex(b, c) < 0
    ensures Lex(a, c) < 0
  {
    if a != [] && a[0] == b[0] && b[0] == c[0] {
      LexTransitive(a[1..], b[1..], c[1..]);
    }
  }

  /** Both comparisons are strict total orders on names. */
  lemma CompareIsOrder(order: Order, a: Name, b: Name, c: Name)
    ensures Compare(order, a, b) == -Compare(order, b, a)
    ensures Compare(order, a, b) == 0 <==> a == b
    ensures Compare(order, a, b) < 0 && Compare(order, b, c) < 0 ==> Compare(order, a, c) < 0
  {
    LexOpposite(a, b);
    if Lex(a, b) < 0 && Lex(b, c) < 0 {
      LexTransitive(a, b, c);
    }
  }
}
