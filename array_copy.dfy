/** java.util.Arrays.copyOf, used by the growable buffers: a fresh array holding a prefix of the old one. */
module ArrayCopy {

  /** A fresh array of length n whose first min(n, a.Length) elements are those of a. */
  method CopyOf<T(0)>(a: array<T>, n: nat) returns (b: array<T>)
    ensures fresh(b) && b.Length == n
    ensures n <= a.Length ==> b[..] == a[..n]
    ensures a.Length <= n ==> b[..a.Length] == a[..]
  {
    b := new T[n];
    var k := if n < a.Length then n else a.Length;
    for i := 0 to k
      invariant b[..i] == a[..i]
    {
      b[i] := a[i];
    }
    assert b[..k] == a[..k];
    if n <= a.Length {
      assert b[..] == b[..k];
    } else {
      assert a[..] == a[..k];
    }
  }
}
