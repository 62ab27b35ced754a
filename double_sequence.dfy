/**
 * DoubleSequence: a sequence is something that hands out a fresh traversal on every request. Its terminal
 * operations (first, second, third, last, reduce, all, any, none, toArray, reverse) each take one traversal
 * and compute a value from it; recurse builds an endless generator. A sequence made from a single cursor
 * hands out that same cursor every time, so it can only be traversed once.
 */
module DoubleSequences {
  import opened Wrappers
  import opened Cursors
  import opened Seqs
  import Iterators
  import ArrayCopy

  /** Where a sequence's traversals come from: a fixed list of elements, or one shared cursor. */
  datatype Producer<T> = Elements(elements: seq<T>) | Shared(cursor: Cursor<T>)

  /** s back to front. */
  function Reversed<T>(s: seq<T>): (r: seq<T>)
    ensures |r| == |s|
  {
    if s == [] then [] else Reversed(s[1..]) + [s[0]]
  }

  /** Element i of the reversal is element |s| - 1 - i of the original. */
  lemma {:induction false} ReversedAt<T>(s: seq<T>, i: int)
    requires 0 <= i < |s|
    ensures Reversed(s)[i] == s[|s| - 1 - i]
  {
    if i < |s| - 1 {
      ReversedAt(s[1..], i);
    }
  }

  /** Reversing twice gives back the original. */
  lemma ReversedTwice<T>(s: seq<T>)
    ensures Reversed(Reversed(s)) == s
  {
    forall i | 0 <= i < |s|
      ensures Reversed(Reversed(s))[i] == s[i]
    {
      ReversedAt(Reversed(s), i);
      ReversedAt(s, |s| - 1 - i);
    }
  }

  /** The predicate that holds exactly where p does not. */
  function Not<T>(p: T -> bool): T -> bool
  {
    x => !p(x)
  }

  /**
   * How many elements a loop takes from s when it stops right after the first element satisfying q:
   * all of them when no element does.
   */
  function Pulled<T>(q: T -> bool, s: seq<T>): (n: nat)
    ensures n <= |s|
  {
    if s == [] then 0 else if q(s[0]) then 1 else 1 + Pulled(q, s[1..])
  }

  /** The elements taken before the last one fail q, and the last one taken satisfies q unless s ran out. */
  lemma {:induction false} PulledStopsAtFirst<T>(q: T -> bool, s: seq<T>)
    ensures forall j :: 0 <= j < Pulled(q, s) - 1 ==> !q(s[j])
    ensures Pulled(q, s) < |s| ==> 0 < Pulled(q, s) && q(s[Pulled(q, s) - 1])
    ensures (exists j :: 0 <= j < |s| && q(s[j])) <==> 0 < Pulled(q, s) && q(s[Pulled(q, s) - 1])
  {
    if s != [] && !q(s[0]) {
      PulledStopsAtFirst(q, s[1..]);
      assert forall j :: 1 <= j < |s| ==> s[j] == s[1..][j - 1];
      if exists j :: 0 <= j < |s| && q(s[j]) {
        var j :| 0 <= j < |s| && q(s[j]);
        assert q(s[1..][j - 1]);
      }
    }
  }

  /** op applied k times to seed. */
  function Iterate<T>(op: T -> T, seed: T, k: nat): T
  {
    if k == 0 then seed else op(Iterate(op, seed, k - 1))
  }

  /** Starting one step later is the same as taking one step more. */
  lemma {:induction false} IterateShift<T>(op: T -> T, seed: T, k: nat)
    ensures Iterate(op, op(seed), k) == Iterate(op, seed, k + 1)
  {
    if k > 0 {
      IterateShift(op, seed, k - 1);
    }
  }

  /** reduce(identity, op, iterator): folds every remaining element into the result, left to right. */
  method ReduceFrom<T>(identity: T, op: (T, T) -> T, it: Cursor<T>) returns (r: T)
    modifies it
    ensures r == FoldLeft(op, identity, old(it.remaining)) && it.remaining == []
  {
    r := identity;
    ghost var consumed: seq<T> := [];
    var more := it.HasNext();
    while more
      invariant old(it.remaining) == consumed + it.remaining
      invariant r == FoldLeft(op, identity, consumed)
      invariant more <==> it.remaining != []
      decreases |it.remaining|
    {
      var x := it.Next();
      FoldLeftSnoc(op, identity, consumed, x.value);
      r := op(r, x.value);
      consumed := consumed + [x.value];
      more := it.HasNext();
    }
    assert old(it.remaining) == consumed;
  }

  /**
   * The length of toArray's work array once `count` elements are stored in it: it starts at `capacity` and,
   * each time it is full when another element comes, grows by half its length.
   */
  function Grown(capacity: nat, count: nat): nat
    requires capacity >= 2
    decreases if count > capacity then count - capacity else 0
  {
    if count <= capacity then capacity else Grown(capacity + capacity / 2, count)
  }

  /**
   * The work array ends holding every element, is never below its starting length, and once grown is less
   * than one and a half times the count.
   */
  lemma {:induction false} GrownBounds(capacity: nat, count: nat)
    requires capacity >= 2
    ensures count <= Grown(capacity, count) && capacity <= Grown(capacity, count)
    ensures Grown(capacity, count) == capacity || Grown(capacity, count) < count + count / 2
    decreases if count > capacity then count - capacity else 0
  {
    if count > capacity {
      GrownBounds(capacity + capacity / 2, count);
    }
  }

  /** Storing one more element: the array grows by half exactly when it is full. */
  lemma {:induction false} GrownStep(capacity: nat, count: nat)
    requires capacity >= 2
    ensures Grown(capacity, count + 1) ==
            if Grown(capacity, count) > count then Grown(capacity, count)
            else Grown(capacity, count) + Grown(capacity, count) / 2
    decreases if count > capacity then count - capacity else 0
  {
    if count > capacity {
      GrownStep(capacity + capacity / 2, count);
    }
  }

  /** The growth step of toArray: a work array that is full is copied into one half as long again. */
  method GrowIfFull<T(0)>(work: array<T>, index: nat) returns (grown: array<T>)
    requires index <= work.Length == Grown(10, index)
    ensures grown == work || fresh(grown)
    ensures grown.Length == Grown(10, index + 1) && index < grown.Length
    ensures grown[..index] == work[..index]
  {
    GrownStep(10, index);
    GrownBounds(10, index + 1);
    grown := work;
    if work.Length < index + 1 {
      grown := ArrayCopy.CopyOf(work, work.Length + work.Length / 2);
    }
  }

  /** The loop of toArray: drains the cursor into a work array of 10 slots that grows when full. */
  method Fill<T(0)>(it: Cursor<T>) returns (work: array<T>, index: nat)
    modifies it
    ensures fresh(work) && index <= work.Length == Grown(10, index)
    ensures index == |old(it.remaining)| && work[..index] == old(it.remaining) && it.remaining == []
  {
    ghost var t := it.remaining;
    work := new T[10];
    index := 0;
    var more := it.HasNext();
    while more
      invariant fresh(work) && index <= work.Length == Grown(10, index)
      invariant work[..index] + it.remaining == t
      invariant more <==> it.remaining != []
      decreases |it.remaining|
    {
      work := GrowIfFull(work, index);
      ghost var rest := it.remaining;
      var x := it.Next();
      assert rest == [x.value] + it.remaining;
      work[index] := x.value;
      assert work[..index + 1] == work[..index] + [x.value];
      index := index + 1;
      more := it.HasNext();
    }
    assert work[..index] == t;
  }

  /** Arrayz.swap over the first half: the array ends up back to front. */
  method ReverseInPlace<T>(a: array<T>)
    modifies a
    ensures a[..] == Reversed(old(a[..]))
  {
    var n := a.Length;
    for i := 0 to n / 2
      invariant forall k :: 0 <= k < i ==> a[k] == old(a[n - 1 - k]) && a[n - 1 - k] == old(a[k])
      invariant forall k :: i <= k < n - i ==> a[k] == old(a[k])
    {
      a[i], a[n - 1 - i] := a[n - 1 - i], a[i];
    }
    forall k | 0 <= k < n
      ensures a[k] == Reversed(old(a[..]))[k]
    {
      ReversedAt(old(a[..]), k);
    }
  }

  class Sequence<T(0)> {
    const producer: Producer<T>

    /** of(...): every traversal starts over the given elements. */
    constructor Of(elements: seq<T>)
      ensures producer == Elements(elements)
    {
      producer := Elements(elements);
    }

    /** from(iterator): every traversal is the given cursor itself. */
    constructor From(cursor: Cursor<T>)
      ensures producer == Shared(cursor)
    {
      producer := Shared(cursor);
    }

    /** The objects a traversal can change: the shared cursor, if there is one. */
    function SharedCursor(): set<object>
    {
      if producer.Shared? then {producer.cursor} else {}
    }

    /** The elements the next traversal will see. */
    ghost function Traversal(): seq<T>
      reads SharedCursor()
    {
      match producer
      case Elements(s) => s
      case Shared(c) => c.remaining
    }

    /** iterator(): a fresh cursor over the elements, or the one shared cursor. */
    method Iterator() returns (it: Cursor<T>)
      ensures it.remaining == Traversal()
      ensures producer.Elements? ==> fresh(it)
      ensures producer.Shared? ==> it == producer.cursor
    {
      match producer
      case Elements(s) =>
        it := new Cursor(s);
      case Shared(c) =>
        it := c;
    }

    /** first(): element 0 if there is one. */
    method First() returns (r: Option<T>)
      modifies SharedCursor()
      ensures |old(Traversal())| > 0 ==> r == Some(old(Traversal())[0])
      ensures |old(Traversal())| == 0 ==> r == None
      ensures producer.Shared? ==> Traversal() == Drop(old(Traversal()), 1)
    {
      var it := Iterator();
      var more := it.HasNext();
      if !more {
        r := None;
        return;
      }
      var x := it.Next();
      r := Some(x.value);
    }

    /** second(): skips one element, then element 1 if there is one. */
    method Second() returns (r: Option<T>)
      modifies SharedCursor()
      ensures |old(Traversal())| > 1 ==> r == Some(old(Traversal())[1])
      ensures |old(Traversal())| <= 1 ==> r == None
      ensures producer.Shared? ==> Traversal() == Drop(old(Traversal()), 2)
    {
      var it := Iterator();
      DropIsSuffix(it.remaining, 2);
      Iterators.SkipOne(it);
      var more := it.HasNext();
      if !more {
        r := None;
        return;
      }
      var x := it.Next();
      r := Some(x.value);
    }

    /** third(): skips two elements, then element 2 if there is one. */
    method Third() returns (r: Option<T>)
      modifies SharedCursor()
      ensures |old(Traversal())| > 2 ==> r == Some(old(Traversal())[2])
      ensures |old(Traversal())| <= 2 ==> r == None
      ensures producer.Shared? ==> Traversal() == Drop(old(Traversal()), 3)
    {
      var it := Iterator();
      DropIsSuffix(it.remaining, 3);
      Iterators.SkipOne(it);
      Iterators.SkipOne(it);
      var more := it.HasNext();
      if !more {
        r := None;
        return;
      }
      var x := it.Next();
      r := Some(x.value);
    }

    /** last(): the final element of a non-empty traversal, taken by pulling until exhaustion. */
    method Last() returns (r: Option<T>)
      modifies SharedCursor()
      ensures old(Traversal()) != [] ==> r == Some(old(Traversal())[|old(Traversal())| - 1])
      ensures old(Traversal()) == [] ==> r == None
      ensures producer.Shared? ==> Traversal() == []
    {
      var it := Iterator();
      ghost var t := it.remaining;
      var more := it.HasNext();
      if !more {
        r := None;
        return;
      }
      var x := it.Next();
      var last := x.value;
      more := it.HasNext();
      while more
        invariant |it.remaining| < |t| && it.remaining == t[|t| - |it.remaining|..]
        invariant last == t[|t| - |it.remaining| - 1]
        invariant more <==> it.remaining != []
        decreases |it.remaining|
      {
        x := it.Next();
        last := x.value;
        more := it.HasNext();
      }
      r := Some(last);
    }

    /** reduce(identity, op): the left fold of the traversal starting from identity. */
    method Reduce(identity: T, op: (T, T) -> T) returns (r: T)
      modifies SharedCursor()
      ensures r == FoldLeft(op, identity, old(Traversal()))
      ensures producer.Shared? ==> Traversal() == []
    {
      var it := Iterator();
      r := ReduceFrom(identity, op, it);
    }

    /** reduce(op): nothing for an empty traversal, else the left fold seeded with the first element. */
    method ReduceFirst(op: (T, T) -> T) returns (r: Option<T>)
      modifies SharedCursor()
      ensures old(Traversal()) == [] ==> r == None
      ensures old(Traversal()) != [] ==> r == Some(FoldLeft(op, old(Traversal())[0], old(Traversal())[1..]))
      ensures producer.Shared? ==> Traversal() == []
    {
      var it := Iterator();
      var more := it.HasNext();
      if !more {
        r := None;
        return;
      }
      var x := it.Next();
      var folded := ReduceFrom(x.value, op, it);
      r := Some(folded);
    }

    /** all(p): true exactly when every element satisfies p; stops at the first one that does not. */
    method AllMatch(p: T -> bool) returns (r: bool)
      modifies SharedCursor()
      ensures r <==> forall i :: 0 <= i < |old(Traversal())| ==> p(old(Traversal())[i])
      ensures producer.Shared? ==> Traversal() == old(Traversal())[Pulled(Not(p), old(Traversal()))..]
    {
      var it := Iterator();
      ghost var t := it.remaining;
      ghost var k := 0;
      var more := it.HasNext();
      while more
        invariant 0 <= k <= |t| && it.remaining == t[k..]
        invariant forall j :: 0 <= j < k ==> p(t[j])
        invariant Pulled(Not(p), t) == k + Pulled(Not(p), t[k..])
        invariant more <==> it.remaining != []
        decreases |it.remaining|
      {
        var x := it.Next();
        assert t[k..][1..] == t[k + 1..];
        k := k + 1;
        if !p(x.value) {
          return false;
        }
        more := it.HasNext();
      }
      r := true;
    }

    /** any(p): true exactly when some element satisfies p; stops at the first one that does. */
    method AnyMatch(p: T -> bool) returns (r: bool)
      modifies SharedCursor()
      ensures r <==> exists i :: 0 <= i < |old(Traversal())| && p(old(Traversal())[i])
      ensures producer.Shared? ==> Traversal() == old(Traversal())[Pulled(p, old(Traversal()))..]
    {
      var it := Iterator();
      ghost var t := it.remaining;
      ghost var k := 0;
      var more := it.HasNext();
      while more
        invariant 0 <= k <= |t| && it.remaining == t[k..]
        invariant forall j :: 0 <= j < k ==> !p(t[j])
        invariant Pulled(p, t) == k + Pulled(p, t[k..])
        invariant more <==> it.remaining != []
        decreases |it.remaining|
      {
        var x := it.Next();
        assert t[k..][1..] == t[k + 1..];
        k := k + 1;
        if p(x.value) {
          return true;
        }
        more := it.HasNext();
      }
      r := false;
    }

    /** none(p): the negation of any(p). */
    method NoneMatch(p: T -> bool) returns (r: bool)
      modifies SharedCursor()
      ensures r <==> forall i :: 0 <= i < |old(Traversal())| ==> !p(old(Traversal())[i])
      ensures producer.Shared? ==> Traversal() == old(Traversal())[Pulled(p, old(Traversal()))..]
    {
      var some := AnyMatch(p);
      r := !some;
    }

    /**
     * toArray(): the traversal's elements in order, in an array of exactly their count. The work array starts
     * at 10 slots and grows by half only when full; `capacity` is its length at the end.
     */
    method ToArray() returns (a: array<T>, ghost capacity: nat)
      modifies SharedCursor()
      ensures fresh(a) && a[..] == old(Traversal())
      ensures producer.Shared? ==> Traversal() == []
      ensures capacity == Grown(10, |old(Traversal())|)
    {
      var it := Iterator();
      var work, index := Fill(it);
      capacity := work.Length;
      if work.Length == index {
        assert work[..] == work[..index];
        a := work;
      } else {
        a := ArrayCopy.CopyOf(work, index);
      }
    }

    /** reverse(): a new sequence over the traversal's elements back to front. */
    method Reverse() returns (r: Sequence<T>)
      modifies SharedCursor()
      ensures fresh(r) && r.producer == Elements(Reversed(old(Traversal())))
      ensures forall i :: 0 <= i < |old(Traversal())| ==>
                r.producer.elements[i] == old(Traversal())[|old(Traversal())| - 1 - i]
      ensures producer.Shared? ==> Traversal() == []
    {
      var a: array<T>;
      ghost var capacity: nat;
      a, capacity := ToArray();
      ReverseInPlace(a);
      r := new Sequence.Of(a[..]);
      forall i | 0 <= i < a.Length
        ensures r.producer.elements[i] == old(Traversal())[a.Length - 1 - i]
      {
        ReversedAt(old(Traversal()), i);
      }
    }
  }

  /** A sequence made from one cursor: the second traversal finds it exhausted and sees nothing. */
  method TraverseTwice<T(0)>(c: Cursor<T>) returns (first: array<T>, second: array<T>)
    modifies c
    ensures first[..] == old(c.remaining) && second[..] == []
  {
    var s := new Sequence.From(c);
    ghost var capacity: nat;
    first, capacity := s.ToArray();
    second, capacity := s.ToArray();
  }

  /** A sequence of elements: every traversal sees all of them. */
  method TraverseTwiceOf<T(0)>(elements: seq<T>) returns (first: array<T>, second: array<T>)
    ensures first[..] == elements && second[..] == elements
  {
    var s := new Sequence.Of(elements);
    ghost var capacity: nat;
    first, capacity := s.ToArray();
    second, capacity := s.ToArray();
  }

  /**
   * The cursor behind recurse(seed, op): it never runs out, hands out seed first and then applies op to
   * the value it handed out last.
   */
  class RecursingCursor<T(0)> {
    const seed: T
    const op: T -> T
    var previous: T
    var hasPrevious: bool
    ghost var pulls: nat

    ghost predicate Valid()
      reads this
    {
      (hasPrevious <==> pulls > 0) && (hasPrevious ==> previous == Iterate(op, seed, pulls - 1))
    }

    constructor (seed: T, op: T -> T)
      ensures Valid() && pulls == 0 && this.seed == seed && this.op == op
    {
      this.seed := seed;
      this.op := op;
      hasPrevious := false;
      pulls := 0;
    }

    /** hasNext: always true. */
    method HasNext() returns (b: bool)
      ensures b
    {
      b := true;
    }

    /** nextDouble: pull number k (counting from 0) hands out op applied k times to seed. */
    method Next() returns (x: T)
      requires Valid()
      modifies this
      ensures Valid() && pulls == old(pulls) + 1
      ensures x == Iterate(op, seed, old(pulls))
    {
      previous := if hasPrevious then op(previous) else seed;
      hasPrevious := true;
      pulls := pulls + 1;
      x := previous;
    }
  }
}
