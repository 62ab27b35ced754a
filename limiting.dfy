/** LimitingCharIterator: passes on at most `limit` elements of its upstream, counting what it emits. */
module Limiting {
  import opened Wrappers
  import opened Seqs
  import opened Cursors

  class LimitingIterator<T> {
    const upstream: Cursor<T>
    const limit: int
    var count: int
    /** The upstream's elements when the cursor was built, and what this cursor has emitted so far. */
    ghost const input: seq<T>
    ghost var output: seq<T>

    /** Nothing is looked ahead: what was consumed upstream is exactly what was emitted, and count is its length. */
    ghost predicate Valid()
      reads this, upstream
    {
      0 <= count == |output| <= Clamp(limit, |input|) &&
      output == input[..count] &&
      upstream.remaining == input[count..]
    }

    constructor (upstream: Cursor<T>, limit: int)
      ensures Valid()
      ensures this.upstream == upstream && this.limit == limit
      ensures input == upstream.remaining && output == [] && count == 0
    {
      this.upstream := upstream;
      this.limit := limit;
      count := 0;
      input := upstream.remaining;
      output := [];
    }

    /** hasNext: false once count reaches the limit, without asking the upstream; it never consumes anything. */
    method HasNext() returns (b: bool)
      requires Valid()
      ensures b <==> |output| < |Take(input, limit)|
      ensures !b ==> output == Take(input, limit)
      ensures count >= limit ==> !b
    {
      TakeIsPrefix(input, limit);
      if count < limit {
        b := upstream.HasNext();
      } else {
        b := false;
      }
    }

    /** nextChar: the next element of Take(input, limit), or NoSuchElementException past its end. */
    method Next() returns (r: Result<T>)
      requires Valid()
      modifies this, upstream
      ensures Valid()
      ensures old(|output| < |Take(input, limit)|) ==>
                r == Ok(Take(input, limit)[old(|output|)]) && output == old(output) + [r.value] &&
                count == old(count) + 1
      ensures !old(|output| < |Take(input, limit)|) ==>
                r == Err(NoSuchElement) && output == old(output) && count == old(count) &&
                upstream.remaining == old(upstream.remaining)
    {
      TakeIsPrefix(input, limit);
      var more := HasNext();
      if !more {
        r := Err(NoSuchElement);
        return;
      }
      r := upstream.Next();
      count := count + 1;
      output := output + [r.value];
      assert input[..count] == input[..count - 1] + [input[count - 1]];
    }
  }
}
