/**
 * IntSet: the defaults every int set inherits, and IntSet.Base's equals and hashCode, which make two sets
 * equal when they hold the same ints and hash a set to the 32-bit sum of its elements.
 */
module IntSets {
  import opened Wrappers
  import opened Cursors
  import opened Seqs
  import opened IntCollections

  /** No element occurs twice: the iteration order of a set. */
  predicate Distinct(s: seq<int>)
  {
    forall i, j :: 0 <= i < j < |s| ==> s[i] != s[j]
  }

  /** The set of elements of s. */
  function Elements(s: seq<int>): set<int>
  {
    set x | x in s
  }

  /** A sequence without repeats has as many distinct elements as positions. */
  lemma {:induction false} DistinctCardinality(s: seq<int>)
    requires Distinct(s)
    ensures |Elements(s)| == |s|
  {
    if s != [] {
      DistinctCardinality(s[1..]);
      assert Elements(s) == Elements(s[1..]) + {s[0]};
      assert s[0] !in Elements(s[1..]);
    }
  }

  /** The sum of the elements, unwrapped. */
  function Sum(s: seq<int>): int
  {
    if s == [] then 0 else s[0] + Sum(s[1..])
  }

  lemma {:induction false} SumSnoc(s: seq<int>, x: int)
    ensures Sum(s + [x]) == Sum(s) + x
  {
    if s != [] {
      assert (s + [x])[1..] == s[1..] + [x];
      SumSnoc(s[1..], x);
    }
  }

  /** Removing position i takes s[i] off the sum. */
  lemma {:induction false} SumRemove(s: seq<int>, i: int)
    requires 0 <= i < |s|
    ensures Sum(s) == s[i] + Sum(s[..i] + s[i + 1..])
  {
    if i > 0 {
      SumRemove(s[1..], i - 1);
      assert s[1..][..i - 1] + s[1..][i..] == (s[..i] + s[i + 1..])[1..];
    } else {
      assert s[..i] + s[i + 1..] == s[1..];
    }
  }

  /** The sum does not depend on the order of the elements. */
  lemma {:induction false} SumPermutation(s: seq<int>, t: seq<int>)
    requires multiset(s) == multiset(t)
    ensures Sum(s) == Sum(t)
    decreases |s|
  {
    if s != [] {
      assert s[0] in multiset(t);
      var i :| 0 <= i < |t| && t[i] == s[0];
      var rest := t[..i] + t[i + 1..];
      assert t == t[..i] + [t[i]] + t[i + 1..];
      assert multiset(s[1..]) == multiset(rest) by {
        assert s == [s[0]] + s[1..];
        assert multiset(s) == multiset{s[0]} + multiset(s[1..]);
        assert multiset(t) == multiset(t[..i]) + multiset{t[i]} + multiset(t[i + 1..]);
        assert multiset(rest) == multiset(t[..i]) + multiset(t[i + 1..]);
        assert multiset(s[1..]) == multiset(s) - multiset{s[0]};
        assert multiset(rest) == multiset(t) - multiset{t[i]};
      }
      SumPermutation(s[1..], rest);
      SumRemove(t, i);
    }
  }

  /** Two repeat-free sequences with the same elements are permutations of each other. */
  lemma DistinctSameElements(s: seq<int>, t: seq<int>)
    requires Distinct(s) && Distinct(t) && Elements(s) == Elements(t)
    ensures multiset(s) == multiset(t)
  {
    forall x
      ensures multiset(s)[x] == multiset(t)[x]
    {
      DistinctCount(s, x);
      DistinctCount(t, x);
      assert x in s <==> x in Elements(s);
    }
  }

  /** In a repeat-free sequence every element occurs once. */
  lemma {:induction false} DistinctCount(s: seq<int>, x: int)
    requires Distinct(s)
    ensures multiset(s)[x] == if x in s then 1 else 0
  {
    if s != [] {
      assert s == [s[0]] + s[1..];
      DistinctCount(s[1..], x);
      assert Distinct(s[1..]);
    }
  }

  /** The argument of Base.equals: this same set, another IntSet, a Set of other objects, or not a Set. */
  datatype SetArgument = Itself | AnIntSet(ints: seq<int>) | AnObjectSet(objects: seq<Boxed>) | NotASet

  class IntSet {
    /** The elements in iteration order, each once. */
    var elements: seq<int>

    ghost predicate Valid()
      reads this
    {
      Distinct(elements)
    }

    constructor (elements: seq<int>)
      requires Distinct(elements)
      ensures this.elements == elements && Valid()
    {
      this.elements := elements;
    }

    /** isEmpty(): size() == 0. */
    function IsEmpty(): (b: bool)
      reads this
      ensures b <==> elements == []
    {
      |elements| == 0
    }

    function Size(): (n: nat)
      reads this
      ensures n == |elements|
    {
      |elements|
    }

    /** containsInt(x). */
    function ContainsInt(x: int): (b: bool)
      reads this
      ensures b <==> x in Elements(elements)
    {
      x in elements
    }

    /** contains(o): false for anything but an Integer, else containsInt. */
    function Contains(o: Boxed): (b: bool)
      reads this
      ensures o.NotAnInteger? ==> !b
      ensures o.AnInteger? ==> b == ContainsInt(o.value)
    {
      o.AnInteger? && ContainsInt(o.value)
    }

    /** iterator(): a fresh cursor over the elements. */
    method Iterator() returns (it: Cursor<int>)
      ensures fresh(it) && it.remaining == elements
    {
      it := new Cursor(elements);
    }

    /** addInt(x): adds x when absent; true exactly when it was absent. */
    method AddInt(x: int) returns (b: bool)
      requires Valid()
      modifies this
      ensures Valid() && (b <==> x !in old(elements))
      ensures Elements(elements) == Elements(old(elements)) + {x}
      ensures elements == if b then old(elements) + [x] else old(elements)
    {
      if x in elements {
        return false;
      }
      elements := elements + [x];
      b := true;
    }

    /** removeInt(x): removes x when present; true exactly when it was present. */
    method RemoveInt(x: int) returns (b: bool)
      requires Valid()
      modifies this
      ensures Valid() && (b <==> x in old(elements))
      ensures Elements(elements) == Elements(old(elements)) - {x}
    {
      var i := 0;
      while i < |elements|
        invariant 0 <= i <= |elements| && x !in elements[..i]
      {
        if elements[i] == x {
          ghost var before := elements;
          elements := elements[..i] + elements[i + 1..];
          assert forall y :: y in elements <==> y in before && y != x by {
            assert before == before[..i] + [x] + before[i + 1..];
            forall y | y in before && y != x
              ensures y in elements
            {
              var k :| 0 <= k < |before| && before[k] == y;
              if k < i {
                assert elements[k] == y;
              } else {
                assert elements[k - 1] == y;
              }
            }
          }
          return true;
        }
        assert elements[..i + 1] == elements[..i] + [elements[i]];
        i := i + 1;
      }
      assert elements[..i] == elements;
      b := false;
    }

    /** remove(o): false and no change for anything but an Integer, else removeInt. */
    method Remove(o: Boxed) returns (b: bool)
      requires Valid()
      modifies this
      ensures Valid()
      ensures o.NotAnInteger? ==> !b && elements == old(elements)
      ensures o.AnInteger? ==> (b <==> o.value in old(elements)) &&
                               Elements(elements) == Elements(old(elements)) - {o.value}
    {
      if o.NotAnInteger? {
        return false;
      }
      b := RemoveInt(o.value);
    }

    /**
     * Base.equals(o): true for this same set; false for anything not a Set; otherwise equal sizes and every
     * element of the other set contained here (non-Integer objects never are).
     */
    predicate Equals(o: SetArgument)
      reads this
      ensures o.Itself? ==> Equals(o)
      ensures o.NotASet? ==> !Equals(o)
      ensures o.AnIntSet? && Equals(o) ==> |o.ints| == |elements| && Elements(o.ints) <= Elements(elements)
      ensures o.AnObjectSet? && Equals(o) ==>
                |o.objects| == |elements| &&
                forall i :: 0 <= i < |o.objects| ==> o.objects[i].AnInteger? && o.objects[i].value in Elements(elements)
    {
      match o
      case Itself => true
      case NotASet => false
      case AnIntSet(ints) => |elements| == |ints| && forall i :: 0 <= i < |ints| ==> ContainsInt(ints[i])
      case AnObjectSet(objects) => |elements| == |objects| && forall i :: 0 <= i < |objects| ==> Contains(objects[i])
    }

    /** Base.hashCode(): the sum of the elements, accumulated in Java int arithmetic. */
    method HashCode() returns (h: int)
      ensures h == WrapInt32(Sum(elements))
    {
      h := 0;
      var it := Iterator();
      ghost var consumed: seq<int> := [];
      var more := it.HasNext();
      while more
        invariant consumed + it.remaining == elements
        invariant h == WrapInt32(Sum(consumed))
        invariant more <==> it.remaining != []
        decreases |it.remaining|
      {
        var x := it.Next();
        SumSnoc(consumed, x.value);
        var k := WrapInt32Offset(Sum(consumed));
        WrapInt32Shift(Sum(consumed) + x.value, k);
        h := WrapInt32(h + x.value);
        consumed := consumed + [x.value];
        more := it.HasNext();
      }
      assert consumed == elements;
    }
  }

  /** Against another int set, equals holds exactly when both hold the same ints. */
  lemma EqualsIsSetEquality(s: IntSet, ints: seq<int>)
    requires s.Valid() && Distinct(ints)
    ensures s.Equals(AnIntSet(ints)) <==> Elements(s.elements) == Elements(ints)
  {
    DistinctCardinality(s.elements);
    DistinctCardinality(ints);
    if s.Equals(AnIntSet(ints)) {
      assert Elements(ints) <= Elements(s.elements) by {
        forall x | x in Elements(ints)
          ensures x in Elements(s.elements)
        {
          var i :| 0 <= i < |ints| && ints[i] == x;
          assert s.ContainsInt(ints[i]);
        }
      }
      SubsetSameSize(Elements(ints), Elements(s.elements));
    }
  }

  /** A subset as large as its superset is the whole superset. */
  lemma SubsetSameSize(a: set<int>, b: set<int>)
    requires a <= b && |a| == |b|
    ensures a == b
  {
    var d := b - a;
    assert b == a + d;
    assert a * d == {};
    assert |d| == 0;
  }

  /** A set equals a Set of objects only when every one of them is an Integer. */
  lemma EqualsObjectsAllIntegers(s: IntSet, objects: seq<Boxed>)
    ensures s.Equals(AnObjectSet(objects)) ==> forall i :: 0 <= i < |objects| ==> objects[i].AnInteger?
  {
  }

  /** Sets holding the same ints hash alike, whatever the iteration order. */
  lemma EqualSetsHashAlike(s: seq<int>, t: seq<int>)
    requires Distinct(s) && Distinct(t) && Elements(s) == Elements(t)
    ensures WrapInt32(Sum(s)) == WrapInt32(Sum(t))
  {
    DistinctSameElements(s, t);
    SumPermutation(s, t);
  }

  /** Base.create(set): a set whose iterator, size and addInt are those of the wrapped set. */
  class DelegatingIntSet {
    const target: IntSet

    constructor (target: IntSet)
      ensures this.target == target
    {
      this.target := target;
    }

    method Iterator() returns (it: Cursor<int>)
      ensures fresh(it) && it.remaining == target.elements
    {
      it := target.Iterator();
    }

    function Size(): (n: nat)
      reads target
      ensures n == target.Size()
    {
      target.Size()
    }

    method AddInt(x: int) returns (b: bool)
      requires target.Valid()
      modifies target
      ensures target.Valid() && (b <==> x !in old(target.elements))
      ensures target.elements == if b then old(target.elements) + [x] else old(target.elements)
    {
      b := target.AddInt(x);
    }
  }

  /** asChars(): a char set view whose size is the int set's size. */
  class CharView {
    const source: IntSet

    constructor (source: IntSet)
      ensures this.source == source
    {
      this.source := source;
    }

    function Size(): (n: nat)
      reads source
      ensures n == |source.elements|
    {
      source.Size()
    }
  }
}
