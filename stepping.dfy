/**
 * SteppingIterator: emits the upstream elements at positions 0, step, 2 * step, ... The step - 1 skip
 * happens inside hasNext, right after the element it follows is pulled into the held slot.
 */
module Stepping {
  import opened Wrappers
  import opened Seqs
  import opened Cursors
  import Iterators

  /**
   * What the cursor emits: the first element, then the same for what is left after skipping step - 1 more.
   * A step below 1 makes the skip count negative, so nothing is skipped and every element is emitted.
   */
  function Stride<T>(s: seq<T>, step: int): seq<T>
    decreases |s|
  {
    if s == [] then [] else [s[0]] + Stride(Drop(s[1..], step - 1), step)
  }

  /** For step >= 1 the stride has an element at position i exactly when i * step is a position of s. */
  lemma {:induction false} StrideLength<T>(s: seq<T>, step: int, i: nat)
    requires step >= 1
    ensures i < |Stride(s, step)| <==> i * step < |s|
    decreases i
  {
    if s != [] && i > 0 {
      var rest := Drop(s[1..], step - 1);
      StrideLength(rest, step, i - 1);
      assert i * step == (i - 1) * step + step;
      if |s| < step {
        assert |rest| == 0;
      } else {
        assert |rest| == |s| - step;
      }
    }
  }

  /** For step >= 1 the i-th emitted element is the upstream element at position i * step. */
  lemma {:induction false} StrideAt<T>(s: seq<T>, step: int, i: nat)
    requires step >= 1
    requires i < |Stride(s, step)|
    ensures i * step < |s| && Stride(s, step)[i] == s[i * step]
    decreases i
  {
    StrideLength(s, step, i);
    if i > 0 {
      var rest := Drop(s[1..], step - 1);
      DropIsSuffix(s[1..], step - 1);
      assert i * step == (i - 1) * step + step;
      assert |s| >= step;
      assert rest == s[step..];
      StrideAt(rest, step, i - 1);
    }
  }

  /** With step 1 or less nothing is skipped: the cursor is the identity. */
  lemma {:induction false} StrideOfSmallStep<T>(s: seq<T>, step: int)
    requires step <= 1
    ensures Stride(s, step) == s
  {
    if s != [] {
      assert Drop(s[1..], step - 1) == s[1..];
      StrideOfSmallStep(s[1..], step);
    }
  }

  class SteppingIterator<T> {
    const upstream: Cursor<T>
    const step: int
    var hasNext: bool
    var next: Nullable<T>
    ghost const input: seq<T>
    ghost var output: seq<T>

    /** What is still to come: the held element (if any), then the stride of what the upstream has left. */
    ghost function Pending(): seq<T>
      reads this, upstream
      requires hasNext ==> next.Ref?
    {
      (if hasNext then [next.target] else []) + Stride(upstream.remaining, step)
    }

    ghost predicate Valid()
      reads this, upstream
    {
      (hasNext <==> next.Ref?) &&
      output + Pending() == Stride(input, step)
    }

    constructor (upstream: Cursor<T>, step: int)
      ensures Valid() && !hasNext
      ensures this.upstream == upstream && this.step == step
      ensures input == upstream.remaining && output == []
    {
      this.upstream := upstream;
      this.step := step;
      hasNext := false;
      next := Null;
      input := upstream.remaining;
      output := [];
    }

    /**
     * hasNext: with an element held it returns true and touches nothing; otherwise it pulls one element
     * into the held slot and skips step - 1 more, so polling again consumes nothing further.
     */
    method HasNext() returns (b: bool)
      requires Valid()
      modifies this, upstream
      ensures Valid() && output == old(output)
      ensures b <==> |output| < |Stride(input, step)|
      ensures b <==> hasNext
      ensures !b ==> output == Stride(input, step)
      ensures old(hasNext) ==> upstream.remaining == old(upstream.remaining)
      ensures !old(hasNext) && b ==>
                upstream.remaining == Drop(old(upstream.remaining)[1..], step - 1) &&
                next == Ref(old(upstream.remaining)[0])
    {
      if hasNext {
        return true;
      }
      var more := upstream.HasNext();
      if !more {
        return false;
      }
      var r := upstream.Next();
      next := Ref(r.value);
      Iterators.Skip(step - 1, upstream);
      hasNext := true;
      b := true;
    }

    /** next: returns the held element and clears the slot; NoSuchElementException when the stride is done. */
    method Next() returns (r: Result<T>)
      requires Valid()
      modifies this, upstream
      ensures Valid() && !hasNext && next == Null
      ensures old(|output|) < |Stride(input, step)| ==>
                r == Ok(Stride(input, step)[old(|output|)]) && output == old(output) + [r.value]
      ensures old(|output|) >= |Stride(input, step)| ==> r == Err(NoSuchElement) && output == old(output)
    {
      var more := HasNext();
      if !more {
        r := Err(NoSuchElement);
        return;
      }
      ghost var rest := Stride(upstream.remaining, step);
      assert Pending() == [next.target] + rest;
      assert Stride(input, step) == output + [next.target] + rest;
      assert Stride(input, step)[|output|] == next.target;
      r := Ok(next.target);
      next := Null;
      hasNext := false;
      output := output + [r.value];
      assert Pending() == rest;
    }
  }
}
