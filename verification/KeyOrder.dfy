/** The two orders by which names are kept in red-black trees: `strcmp` for the
    mapped-DNS cache, length and then `memcmp` for the authenticator. */
module KeyOrder {
  type Byte = x: int | 0 <= x < 256

  type Name = seq<Byte>

  datatype Order = ByStrcmp | ByLength

  /** `memcmp` on equally long names; a name that ends first is smaller, as `strcmp`
      has it for zero-terminated names. */
  function CompareBytes(a: Name, b: Name): int {
    if a == [] || b == [] then |a| - |b|
    else if a[0] != b[0] then a[0] - b[0]
    else CompareBytes(a[1..], b[1..])
  }

  function Compare(ord: Order, a: Name, b: Name): int {
    if ord.ByLength? && |a| != |b| then |a| - |b| else CompareBytes(a, b)
  }

  lemma {:induction false} CompareBytesEqual(a: Name, b: Name)
    ensures CompareBytes(a, b) == 0 <==> a == b
  {
    if a != [] && b != [] && a[0] == b[0] {
      CompareBytesEqual(a[1..], b[1..]);
      assert a == [a[0]] + a[1..] && b == [b[0]] + b[1..];
    }
  }

  lemma {:induction false} CompareBytesAntisymmetric(a: Name, b: Name)
    ensures CompareBytes(a, b) == -CompareBytes(b, a)
  {
    if a != [] && b != [] && a[0] == b[0] {
      CompareBytesAntisymmetric(a[1..], b[1..]);
    }
  }

  lemma {:induction false} CompareBytesTransitive(a: Name, b: Name, c: Name)
    requires CompareBytes(a, b) < 0 && CompareBytes(b, c) < 0
    ensures CompareBytes(a, c) < 0
  {
    if a != [] && b != [] && c != [] && a[0] == b[0] == c[0] {
      CompareBytesTransitive(a[1..], b[1..], c[1..]);
    }
  }

  /** Both comparisons are strict total orders. */
  lemma {:induction false} CompareTotal(ord: Order, a: Name, b: Name, c: Name)
    ensures Compare(ord, a, b) == 0 <==> a == b
    ensures Compare(ord, a, b) == -Compare(ord, b, a)
    ensures Compare(ord, a, b) < 0 && Compare(ord, b, c) < 0 ==> Compare(ord, a, c) < 0
  {
    CompareBytesEqual(a, b);
    CompareBytesAntisymmetric(a, b);
    if CompareBytes(a, b) < 0 && CompareBytes(b, c) < 0 {
      CompareBytesTransitive(a, b, c);
    }
  }
}
