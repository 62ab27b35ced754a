/** Iterators.skip and Iterators.skipOne: advancing a cursor in place by a bounded number of steps. */
module Iterators {
  import opened Seqs
  import opened Cursors

  /**
   * Advances `it` by min(steps, remaining) elements; `steps <= 0` leaves it alone. The loop tests the
   * count before asking hasNext, and stops at exhaustion, so next is never called on an exhausted cursor.
   */
  method Skip<T>(steps: int, it: Cursor<T>)
    modifies it
    ensures it.remaining == Drop(old(it.remaining), steps)
  {
    var count := 0;
    while count < steps
      invariant 0 <= count <= |old(it.remaining)|
      invariant steps <= 0 ==> count == 0
      invariant count <= steps || count == 0
      invariant it.remaining == old(it.remaining)[count..]
      decreases steps - count
    {
      var more := it.HasNext();
      if !more {
        break;
      }
      var _ := it.Next();
      count := count + 1;
    }
    DropIsSuffix(old(it.remaining), steps);
  }

  /** skipOne: skip(1, it), so at most one element is consumed. */
  method SkipOne<T>(it: Cursor<T>)
    modifies it
    ensures it.remaining == Drop(old(it.remaining), 1)
    ensures old(it.remaining) != [] ==> it.remaining == old(it.remaining)[1..]
    ensures old(it.remaining) == [] ==> it.remaining == []
  {
    Skip(1, it);
    DropIsSuffix(old(it.remaining), 1);
  }
}
