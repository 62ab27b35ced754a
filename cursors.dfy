/**
 * The upstream cursor every combinator pulls from: an iterator whose abstract state is the
 * sequence of elements it has not yet handed out.
 */
module Cursors {
  import opened Wrappers

  class Cursor<T> {
    var remaining: seq<T>

    constructor (elements: seq<T>)
      ensures remaining == elements
    {
      remaining := elements;
    }

    /** hasNext: true exactly when an element is left; it changes nothing. */
    method HasNext() returns (b: bool)
      ensures b <==> remaining != []
    {
      b := remaining != [];
    }

    /** next: hands out the first remaining element, or fails with NoSuchElementException. */
    method Next() returns (r: Result<T>)
      modifies this
      ensures old(remaining) == [] ==> r == Err(NoSuchElement) && remaining == []
      ensures old(remaining) != [] ==> r == Ok(old(remaining)[0]) && remaining == old(remaining)[1..]
    {
      if remaining == [] {
        r := Err(NoSuchElement);
      } else {
        r := Ok(remaining[0]);
        remaining := remaining[1..];
      }
    }
  }
}
