/** SkippingIntIterator: drops the first `skip` upstream elements, lazily and once, then passes the rest on. */
module Skipping {
  import opened Wrappers
  import opened Seqs
  import opened Cursors
  import Iterators

  class SkippingIterator<T> {
    const upstream: Cursor<T>
    const skip: int
    var skipped: bool
    ghost const input: seq<T>
    ghost var output: seq<T>

    /** Before the skip nothing has moved; after it, emitted + remaining is Drop(input, skip). */
    ghost predicate Valid()
      reads this, upstream
    {
      if skipped then output + upstream.remaining == Drop(input, skip)
      else output == [] && upstream.remaining == input
    }

    /** The constructor does not touch the upstream: the skip is deferred to the first hasNext. */
    constructor (upstream: Cursor<T>, skip: int)
      ensures Valid() && !skipped
      ensures this.upstream == upstream && this.skip == skip
      ensures input == upstream.remaining && output == []
    {
      this.upstream := upstream;
      this.skip := skip;
      skipped := false;
      input := upstream.remaining;
      output := [];
    }

    /** hasNext: performs the skip on its first call only; later calls leave the upstream untouched. */
    method HasNext() returns (b: bool)
      requires Valid()
      modifies this, upstream
      ensures Valid() && skipped && output == old(output)
      ensures b <==> |output| < |Drop(input, skip)|
      ensures !b ==> output == Drop(input, skip)
      ensures !old(skipped) ==> upstream.remaining == Drop(input, skip)
      ensures old(skipped) ==> upstream.remaining == old(upstream.remaining)
    {
      if !skipped {
        Iterators.Skip(skip, upstream);
        skipped := true;
      }
      b := upstream.HasNext();
    }

    /** nextInt: the next element of Drop(input, skip), or NoSuchElementException when none is left. */
    method Next() returns (r: Result<T>)
      requires Valid()
      modifies this, upstream
      ensures Valid() && skipped
      ensures old(|output|) < |Drop(input, skip)| ==>
                r == Ok(Drop(input, skip)[old(|output|)]) && output == old(output) + [r.value]
      ensures old(|output|) >= |Drop(input, skip)| ==> r == Err(NoSuchElement) && output == old(output)
    {
      var more := HasNext();
      if !more {
        r := Err(NoSuchElement);
        return;
      }
      ghost var before := upstream.remaining;
      r := upstream.Next();
      output := output + [r.value];
      assert output + upstream.remaining == old(output) + before by {
        assert before == [r.value] + upstream.remaining;
      }
    }
  }
}
