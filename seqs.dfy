/**
 * Reference definitions over finite sequences that the cursors are proved against:
 * take, drop, concatenation of a sequence of sequences, and left folds.
 */
module Seqs {

  /** The number of elements `n` selects from a sequence of length `len`: negative counts select none. */
  function Clamp(n: int, len: nat): (k: nat)
    ensures k <= len
    ensures n <= 0 ==> k == 0
    ensures 0 <= n <= len ==> k == n
    ensures len <= n ==> k == len
  {
    if n <= 0 then 0 else if n < len then n else len
  }

  /** The first n elements of s, or all of s when it is shorter; nothing when n <= 0. */
  function Take<T>(s: seq<T>, n: int): seq<T>
  {
    if n <= 0 || s == [] then [] else [s[0]] + Take(s[1..], n - 1)
  }

  /** s without its first n elements; s itself when n <= 0. */
  function Drop<T>(s: seq<T>, n: int): (r: seq<T>)
    ensures |r| == |s| - Clamp(n, |s|)
  {
    if n <= 0 || s == [] then s else Drop(s[1..], n - 1)
  }

  lemma {:induction false} TakeIsPrefix<T>(s: seq<T>, n: int)
    ensures Take(s, n) == s[..Clamp(n, |s|)]
  {
    if n > 0 && s != [] {
      TakeIsPrefix(s[1..], n - 1);
      assert s[..Clamp(n, |s|)] == [s[0]] + s[1..][..Clamp(n - 1, |s| - 1)];
    }
  }

  lemma {:induction false} DropIsSuffix<T>(s: seq<T>, n: int)
    ensures Drop(s, n) == s[Clamp(n, |s|)..]
  {
    if n > 0 && s != [] {
      DropIsSuffix(s[1..], n - 1);
      assert s[1..][Clamp(n - 1, |s| - 1)..] == s[Clamp(n, |s|)..];
    }
  }

  /** Take and Drop split a sequence: s == Take(s, n) + Drop(s, n), with lengths min(n, |s|) and |s| - min(n, |s|). */
  lemma {:induction false} TakeDropSplit<T>(s: seq<T>, n: int)
    ensures Take(s, n) + Drop(s, n) == s
    ensures |Take(s, n)| == Clamp(n, |s|)
  {
    var k := Clamp(n, |s|);
    TakeIsPrefix(s, n);
    DropIsSuffix(s, n);
    assert s[..k] + s[k..] == s;
  }

  /** Taking after dropping k: the elements of s at positions k .. k + n - 1. */
  lemma {:induction false} TakeOfDrop<T>(s: seq<T>, k: nat, n: int)
    requires k <= |s|
    ensures Take(s[k..], n) == s[k..k + Clamp(n, |s| - k)]
  {
    TakeIsPrefix(s[k..], n);
  }

  ghost predicate IsPrefix<T>(a: seq<T>, b: seq<T>)
  {
    |a| <= |b| && a == b[..|a|]
  }

  /** The concatenation of a sequence of sequences, in order. */
  function Flatten<T>(ss: seq<seq<T>>): seq<T>
  {
    if ss == [] then [] else ss[0] + Flatten(ss[1..])
  }

  lemma {:induction false} FlattenAppend<T>(a: seq<seq<T>>, b: seq<seq<T>>)
    ensures Flatten(a + b) == Flatten(a) + Flatten(b)
  {
    if a == [] {
      assert a + b == b;
    } else {
      assert (a + b)[1..] == a[1..] + b;
      FlattenAppend(a[1..], b);
    }
  }

  /** f applied to every element, in order. */
  function Map<A, B>(f: A -> B, s: seq<A>): (r: seq<B>)
    ensures |r| == |s| && forall i :: 0 <= i < |s| ==> r[i] == f(s[i])
  {
    seq(|s|, i requires 0 <= i < |s| => f(s[i]))
  }

  lemma FlattenSingle<T>(s: seq<T>)
    ensures Flatten([s]) == s
  {
    assert [s][1..] == [];
  }

  /** Left fold: Fold(f, z, [a, b, c]) == f(f(f(z, a), b), c). */
  function FoldLeft<A, T>(f: (A, T) -> A, z: A, s: seq<T>): A
  {
    if s == [] then z else FoldLeft(f, f(z, s[0]), s[1..])
  }

  /** Folding one more element onto the right: the step the terminal loops take. */
  lemma {:induction false} FoldLeftSnoc<A, T>(f: (A, T) -> A, z: A, s: seq<T>, x: T)
    ensures FoldLeft(f, z, s + [x]) == f(FoldLeft(f, z, s), x)
  {
    if s == [] {
      assert s + [x] == [x];
      assert [x][1..] == [];
    } else {
      assert (s + [x])[1..] == s[1..] + [x];
      FoldLeftSnoc(f, f(z, s[0]), s[1..], x);
    }
  }

  /** The elements of s that satisfy p, in order. */
  function Filter<T>(p: T -> bool, s: seq<T>): seq<T>
  {
    if s == [] then [] else (if p(s[0]) then [s[0]] else []) + Filter(p, s[1..])
  }

  lemma {:induction false} FilterAppend<T>(p: T -> bool, a: seq<T>, b: seq<T>)
    ensures Filter(p, a + b) == Filter(p, a) + Filter(p, b)
  {
    if a == [] {
      assert a + b == b;
    } else {
      var head := if p(a[0]) then [a[0]] else [];
      assert (a + b)[0] == a[0] && (a + b)[1..] == a[1..] + b;
      FilterAppend(p, a[1..], b);
      calc {
        Filter(p, a + b);
        head + Filter(p, a[1..] + b);
        head + (Filter(p, a[1..]) + Filter(p, b));
        (head + Filter(p, a[1..])) + Filter(p, b);
        Filter(p, a) + Filter(p, b);
      }
    }
  }

  /** x is in the filtered sequence exactly when x is in s and satisfies p; the result is never longer than s. */
  lemma {:induction false} FilterMembers<T>(p: T -> bool, s: seq<T>, x: T)
    ensures x in Filter(p, s) <==> x in s && p(x)
    ensures |Filter(p, s)| <= |s|
  {
    if s != [] {
      FilterMembers(p, s[1..], x);
      assert s == [s[0]] + s[1..];
    }
  }

  /** Java's 32-bit two's-complement int range. */
  predicate IsInt32(x: int)
  {
    -0x8000_0000 <= x < 0x8000_0000
  }

  /** Wraps an integer into the int range the way Java int arithmetic overflows. */
  function WrapInt32(x: int): (r: int)
    ensures IsInt32(r)
    ensures (r - x) % 0x1_0000_0000 == 0
    ensures IsInt32(x) ==> r == x
  {
    (x + 0x8000_0000) % 0x1_0000_0000 - 0x8000_0000
  }

  /** Two values with the same residue wrap to the same int, so wrapping can be done once at the end. */
  lemma WrapInt32Congruent(x: int, y: int)
    requires (x - y) % 0x1_0000_0000 == 0
    ensures WrapInt32(x) == WrapInt32(y)
  {
    var m := 0x1_0000_0000;
    var q := (x - y) / m;
    assert x - y == q * m;
    assert x + 0x8000_0000 == (y + 0x8000_0000) + q * m;
  }

  /** Wrapping moves a value by a whole number of 2^32 steps. */
  lemma WrapInt32Offset(x: int) returns (k: int)
    ensures WrapInt32(x) == x + k * 0x1_0000_0000
  {
    k := (WrapInt32(x) - x) / 0x1_0000_0000;
  }

  /** Adding whole 2^32 steps does not change the wrapped value. */
  lemma WrapInt32Shift(x: int, k: int)
    ensures WrapInt32(x + k * 0x1_0000_0000) == WrapInt32(x)
  {
    WrapInt32Congruent(x + k * 0x1_0000_0000, x);
  }
}
