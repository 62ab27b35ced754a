/**
 * FilteredList: a live view of a backing list showing only the elements a predicate accepts. It reads
 * the backing list on every use instead of copying it, and refuses every form of add.
 */
module FilteredLists {
  import opened Wrappers
  import opened Cursors
  import opened Seqs

  /** A mutable backing java.util.List. */
  class JList<T> {
    var elements: seq<T>

    constructor (elements: seq<T>)
      ensures this.elements == elements
    {
      this.elements := elements;
    }

    /** add(x): appends x. */
    method Add(x: T)
      modifies this
      ensures elements == old(elements) + [x]
    {
      elements := elements + [x];
    }
  }

  /**
   * skip(iterator, n), the overload that reports how far it got: advances by up to n elements, stopping at
   * exhaustion, and returns the number it advanced.
   */
  method SkipCounting<T>(it: Cursor<T>, n: int) returns (count: int)
    modifies it
    ensures count == Clamp(n, |old(it.remaining)|)
    ensures it.remaining == old(it.remaining)[count..]
  {
    count := 0;
    var more := it.HasNext();
    while count < n && more
      invariant 0 <= count <= |old(it.remaining)| && it.remaining == old(it.remaining)[count..]
      invariant count <= n || count == 0
      invariant more <==> it.remaining != []
      decreases |it.remaining|
    {
      var x := it.Next();
      count := count + 1;
      more := it.HasNext();
    }
  }

  class FilteredList<T> {
    const list: JList<T>
    const test: T -> bool

    /** FilteredList.from(list, predicate): keeps the list and predicate themselves, copying nothing. */
    constructor (list: JList<T>, test: T -> bool)
      ensures this.list == list && this.test == test
    {
      this.list := list;
      this.test := test;
    }

    /** The elements the view shows: those of the backing list the predicate accepts, in order. */
    ghost function View(): seq<T>
      reads list
    {
      Filter(test, list.elements)
    }

    /** iterator(): a cursor over the accepted elements. */
    method Iterator() returns (it: Cursor<T>)
      ensures fresh(it) && it.remaining == View()
    {
      it := new Cursor(Filter(test, list.elements));
    }

    /**
     * listIterator(index): a cursor positioned before the index-th accepted element; index == size is
     * allowed, and IndexOutOfBoundsException comes when fewer than index elements are accepted or index < 0.
     */
    method ListIterator(index: int) returns (r: Result<Cursor<T>>)
      ensures 0 <= index <= |View()| ==> r.Ok? && fresh(r.value) && r.value.remaining == View()[index..]
      ensures index < 0 || index > |View()| ==> r == Err(IndexOutOfBounds(index))
    {
      var it := Iterator();
      var skipped := SkipCounting(it, index);
      if skipped != index {
        return Err(IndexOutOfBounds(index));
      }
      r := Ok(it);
    }

    /** size(): counts the elements the view's iterator yields. */
    method Size() returns (n: int)
      ensures n == |View()| && n <= |list.elements|
    {
      var it := Iterator();
      n := 0;
      var more := it.HasNext();
      while more
        invariant 0 <= n && n + |it.remaining| == |View()|
        invariant more <==> it.remaining != []
        decreases |it.remaining|
      {
        var x := it.Next();
        n := n + 1;
        more := it.HasNext();
      }
      if list.elements != [] {
        FilterMembers(test, list.elements, list.elements[0]);
      }
    }

    /** add(x): UnsupportedOperationException. */
    method Add(x: T) returns (r: Result<bool>)
      ensures r == Err(UnsupportedOperation)
    {
      r := Err(UnsupportedOperation);
    }

    /** addAll(xs): UnsupportedOperationException. */
    method AddAll(xs: seq<T>) returns (r: Result<bool>)
      ensures r == Err(UnsupportedOperation)
    {
      r := Err(UnsupportedOperation);
    }

    /** add(index, x): UnsupportedOperationException. */
    method AddAt(index: int, x: T) returns (o: Outcome)
      ensures o == Fail(UnsupportedOperation)
    {
      o := Fail(UnsupportedOperation);
    }

    /** addAll(index, xs): UnsupportedOperationException. */
    method AddAllAt(index: int, xs: seq<T>) returns (r: Result<bool>)
      ensures r == Err(UnsupportedOperation)
    {
      r := Err(UnsupportedOperation);
    }
  }

  /** The view holds exactly the accepted elements of the backing list, and no more of them than it has. */
  lemma ViewMembers<T>(v: FilteredList<T>, x: T)
    ensures x in v.View() <==> x in v.list.elements && v.test(x)
    ensures |v.View()| <= |v.list.elements|
  {
    FilterMembers(v.test, v.list.elements, x);
  }

  /**
   * The view is live: an element added to the backing list after the view was made shows up in it when
   * the predicate accepts it.
   */
  method ViewFollowsBackingList<T>(list: JList<T>, test: T -> bool, x: T) returns (v: FilteredList<T>)
    modifies list
    ensures v.list == list && list.elements == old(list.elements) + [x]
    ensures v.View() == Filter(test, old(list.elements)) + if test(x) then [x] else []
  {
    v := new FilteredList(list, test);
    list.Add(x);
    FilterAppend(test, old(list.elements), [x]);
    assert [x][1..] == [];
  }
}
