/**
 * CharList: the list algorithms every char list inherits, written against a list iterator. The list
 * iterator itself belongs to the concrete list; here it is a cursor position into the list's elements
 * with java.util.ListIterator's contract for a modifiable list.
 */
module CharLists {
  import opened Wrappers
  import opened Cursors
  import opened Seqs

  class CharList {
    var elements: seq<char>

    /** create(xs): a mutable list holding a copy of xs. */
    constructor (xs: seq<char>)
      ensures elements == xs
    {
      elements := xs;
    }

    /** iterator(): a fresh cursor over the current elements. */
    method Iterator() returns (it: Cursor<char>)
      ensures fresh(it) && it.remaining == elements
    {
      it := new Cursor(elements);
    }

    /** listIterator(index): positioned before element index; IndexOutOfBoundsException outside 0 .. size. */
    method ListIterator(index: int) returns (r: Result<ListCursor>)
      ensures index < 0 || index > |elements| ==> r == Err(IndexOutOfBounds(index))
      ensures 0 <= index <= |elements| ==>
                r.Ok? && fresh(r.value) && r.value.list == this && r.value.position == index &&
                !r.value.canModify && r.value.Valid()
    {
      if index < 0 || index > |elements| {
        return Err(IndexOutOfBounds(index));
      }
      var c := new ListCursor(this, index);
      r := Ok(c);
    }

    /** addChar(x): adds x at the end through listIterator(size()); always reports a change. */
    method AddChar(x: char) returns (b: bool)
      modifies this
      ensures b && elements == old(elements) + [x]
    {
      var li := ListIterator(|elements|);
      var c := li.value;
      c.Add(x);
      b := true;
    }

    /** addAllChars(xs): false and no change for empty xs; otherwise xs appended in order, and true. */
    method AddAllChars(xs: seq<char>) returns (b: bool)
      modifies this
      ensures b <==> xs != []
      ensures elements == old(elements) + xs
    {
      if |xs| == 0 {
        return false;
      }
      var li := ListIterator(|elements|);
      var c := li.value;
      for i := 0 to |xs|
        invariant c.list == this && c.Valid()
        invariant elements == old(elements) + xs[..i] && c.position == |elements|
      {
        c.Add(xs[i]);
        assert xs[..i + 1] == xs[..i] + [xs[i]];
      }
      assert xs[..|xs|] == xs;
      b := true;
    }

    /**
     * addAllCharsAt(index, xs): false and no change for empty xs, whatever the index; otherwise
     * IndexOutOfBoundsException for an index outside 0 .. size, else xs inserted in order before
     * element index, and true.
     */
    method AddAllCharsAt(index: int, xs: seq<char>) returns (r: Result<bool>)
      modifies this
      ensures xs == [] ==> r == Ok(false) && elements == old(elements)
      ensures xs != [] && (index < 0 || index > |old(elements)|) ==>
                r == Err(IndexOutOfBounds(index)) && elements == old(elements)
      ensures xs != [] && 0 <= index <= |old(elements)| ==>
                r == Ok(true) && elements == old(elements)[..index] + xs + old(elements)[index..]
    {
      if |xs| == 0 {
        return Ok(false);
      }
      var li := ListIterator(index);
      if li.Err? {
        return Err(li.error);
      }
      var c := li.value;
      for i := 0 to |xs|
        invariant c.list == this && c.Valid()
        invariant elements == old(elements)[..index] + xs[..i] + old(elements)[index..]
        invariant c.position == index + i
      {
        c.Add(xs[i]);
        assert xs[..i + 1] == xs[..i] + [xs[i]];
      }
      assert xs[..|xs|] == xs;
      r := Ok(true);
    }

    /** replaceAllChars(op): every element replaced by op of itself, in place; the length is unchanged. */
    method ReplaceAllChars(op: char -> char)
      modifies this
      ensures elements == Map(op, old(elements))
    {
      var li := ListIterator(0);
      var c := li.value;
      var more := c.HasNext();
      while more
        invariant c.list == this && c.Valid()
        invariant |elements| == |old(elements)|
        invariant elements == Map(op, old(elements)[..c.position]) + old(elements)[c.position..]
        invariant more <==> c.position < |elements|
        decreases |elements| - c.position
      {
        var x := c.Next();
        var o := c.Set(op(x.value));
        more := c.HasNext();
      }
    }

    /**
     * getChar(index): the element at index; IndexOutOfBoundsException outside 0 .. size and
     * NoSuchElementException at index size.
     */
    method GetChar(index: int) returns (r: Result<char>)
      ensures index < 0 || index > |elements| ==> r == Err(IndexOutOfBounds(index))
      ensures index == |elements| ==> r == Err(NoSuchElement)
      ensures 0 <= index < |elements| ==> r == Ok(elements[index])
    {
      var li := ListIterator(index);
      if li.Err? {
        return Err(li.error);
      }
      r := li.value.Next();
    }

    /** setChar(index, x): the element that was at index; only position index changes. */
    method SetChar(index: int, x: char) returns (r: Result<char>)
      modifies this
      ensures index < 0 || index > |old(elements)| ==>
                r == Err(IndexOutOfBounds(index)) && elements == old(elements)
      ensures index == |old(elements)| ==> r == Err(NoSuchElement) && elements == old(elements)
      ensures 0 <= index < |old(elements)| ==>
                r == Ok(old(elements)[index]) && elements == old(elements)[index := x]
    {
      var li := ListIterator(index);
      if li.Err? {
        return Err(li.error);
      }
      var c := li.value;
      r := c.Next();
      if r.Ok? {
        var o := c.Set(x);
      }
    }

    /** removeCharAt(index): the element that was at index; exactly that position is removed. */
    method RemoveCharAt(index: int) returns (r: Result<char>)
      modifies this
      ensures index < 0 || index > |old(elements)| ==>
                r == Err(IndexOutOfBounds(index)) && elements == old(elements)
      ensures index == |old(elements)| ==> r == Err(NoSuchElement) && elements == old(elements)
      ensures 0 <= index < |old(elements)| ==>
                r == Ok(old(elements)[index]) && elements == old(elements)[..index] + old(elements)[index + 1..]
    {
      var li := ListIterator(index);
      if li.Err? {
        return Err(li.error);
      }
      var c := li.value;
      r := c.Next();
      if r.Ok? {
        var o := c.Remove();
      }
    }

    /** indexOfChar(x): the smallest index holding x, or -1 when x does not occur. */
    method IndexOfChar(x: char) returns (i: int)
      ensures -1 <= i < |elements|
      ensures i == -1 <==> x !in elements
      ensures 0 <= i ==> elements[i] == x && x !in elements[..i]
    {
      var index := 0;
      var it := Iterator();
      var more := it.HasNext();
      while more
        invariant 0 <= index <= |elements| && it.remaining == elements[index..]
        invariant x !in elements[..index]
        invariant more <==> it.remaining != []
        decreases |it.remaining|
      {
        var y := it.Next();
        if y.value == x {
          return index;
        }
        assert elements[..index + 1] == elements[..index] + [elements[index]];
        index := index + 1;
        more := it.HasNext();
      }
      assert elements[..index] == elements;
      i := -1;
    }

    /** lastIndexOfChar(x): the largest index holding x, or -1 when x does not occur. */
    method LastIndexOfChar(x: char) returns (i: int)
      ensures -1 <= i < |elements|
      ensures i == -1 <==> x !in elements
      ensures 0 <= i ==> elements[i] == x && x !in elements[i + 1..]
    {
      var lastIndex := -1;
      var index := 0;
      var it := Iterator();
      var more := it.HasNext();
      while more
        invariant 0 <= index <= |elements| && it.remaining == elements[index..]
        invariant -1 <= lastIndex < index
        invariant lastIndex == -1 <==> x !in elements[..index]
        invariant 0 <= lastIndex ==> elements[lastIndex] == x && x !in elements[lastIndex + 1..index]
        invariant more <==> it.remaining != []
        decreases |it.remaining|
      {
        var y := it.Next();
        assert elements[..index + 1] == elements[..index] + [elements[index]];
        if y.value == x {
          lastIndex := index;
        } else if 0 <= lastIndex {
          assert elements[lastIndex + 1..index + 1] == elements[lastIndex + 1..index] + [elements[index]];
        }
        index := index + 1;
        more := it.HasNext();
      }
      assert elements[..index] == elements;
      i := lastIndex;
    }
  }

  /** copy(iterator): a new list holding the cursor's remaining elements in order; the cursor is drained. */
  method Copy(it: Cursor<char>) returns (c: CharList)
    modifies it
    ensures fresh(c) && c.elements == old(it.remaining) && it.remaining == []
  {
    c := new CharList([]);
    var more := it.HasNext();
    while more
      invariant fresh(c) && c.elements + it.remaining == old(it.remaining)
      invariant more <==> it.remaining != []
      decreases |it.remaining|
    {
      var x := it.Next();
      var added := c.AddChar(x.value);
      more := it.HasNext();
    }
  }

  /**
   * A list iterator of a modifiable list: a position between elements, and whether the element before it
   * was just handed out by next (which set and remove then act on).
   */
  class ListCursor {
    const list: CharList
    var position: nat
    var canModify: bool

    ghost predicate Valid()
      reads this, list
    {
      position <= |list.elements| && (canModify ==> 0 < position)
    }

    constructor (list: CharList, index: nat)
      requires index <= |list.elements|
      ensures this.list == list && position == index && !canModify && Valid()
    {
      this.list := list;
      position := index;
      canModify := false;
    }

    method HasNext() returns (b: bool)
      ensures b <==> position < |list.elements|
    {
      b := position < |list.elements|;
    }

    /** next: the element after the position, which the position then passes. */
    method Next() returns (r: Result<char>)
      requires Valid()
      modifies this
      ensures Valid()
      ensures old(position) < |list.elements| ==>
                r == Ok(list.elements[old(position)]) && position == old(position) + 1 && canModify
      ensures old(position) == |list.elements| ==>
                r == Err(NoSuchElement) && position == old(position) && canModify == old(canModify)
    {
      if position == |list.elements| {
        return Err(NoSuchElement);
      }
      r := Ok(list.elements[position]);
      position := position + 1;
      canModify := true;
    }

    /** set: replaces the element next just handed out; IllegalStateException when there is none. */
    method Set(x: char) returns (o: Outcome)
      requires Valid()
      modifies list
      ensures Valid()
      ensures old(canModify) ==> o == Done && list.elements == old(list.elements)[position - 1 := x]
      ensures !old(canModify) ==> o == Fail(IllegalState) && list.elements == old(list.elements)
    {
      if !canModify {
        return Fail(IllegalState);
      }
      list.elements := list.elements[position - 1 := x];
      o := Done;
    }

    /** add: inserts x before the position and moves past it. */
    method Add(x: char)
      requires Valid()
      modifies this, list
      ensures Valid() && position == old(position) + 1 && !canModify
      ensures list.elements == old(list.elements)[..old(position)] + [x] + old(list.elements)[old(position)..]
    {
      list.elements := list.elements[..position] + [x] + list.elements[position..];
      position := position + 1;
      canModify := false;
    }

    /** remove: removes the element next just handed out; IllegalStateException when there is none. */
    method Remove() returns (o: Outcome)
      requires Valid()
      modifies this, list
      ensures Valid() && !canModify
      ensures old(canModify) ==>
                o == Done && position == old(position) - 1 &&
                list.elements == old(list.elements)[..old(position) - 1] + old(list.elements)[old(position)..]
      ensures !old(canModify) ==>
                o == Fail(IllegalState) && position == old(position) && list.elements == old(list.elements)
    {
      if !canModify {
        return Fail(IllegalState);
      }
      list.elements := list.elements[..position - 1] + list.elements[position..];
      position := position - 1;
      canModify := false;
      o := Done;
    }
  }

  /**
   * The SubList constructor's bounds check as written: it rejects from < 0 and to > size, and nothing
   * else, so from > to is let through.
   */
  function SubListCheck(size: int, from: int, to: int): (o: Outcome)
    ensures o == Done <==> 0 <= from && to <= size
    ensures from < 0 ==> o == Fail(ArrayIndexOutOfBounds(from))
  {
    if from < 0 then Fail(ArrayIndexOutOfBounds(from))
    else if to > size then Fail(ArrayIndexOutOfBounds(to))
    else Done
  }

  /** With from > to the check as written accepts, and size() = to - from comes out negative. */
  lemma SubListCheckAcceptsReversedBounds()
    ensures SubListCheck(5, 3, 1) == Done && 1 - 3 < 0
  {
  }

  /** The check as written admits a negative size exactly when from > to. */
  lemma SubListCheckNegativeSize(size: int, from: int, to: int)
    requires SubListCheck(size, from, to) == Done
    ensures to - from < 0 <==> from > to
  {
  }

  /**
   * The intended bounds check: also rejects from > to, with IllegalArgumentException as
   * java.util.AbstractList.subList and java.util.ArrayList.subList do, so every accepted window lies inside
   * the list.
   */
  function CheckedSubListBounds(size: int, from: int, to: int): (o: Outcome)
    ensures o == Done <==> 0 <= from <= to <= size
    ensures from < 0 ==> o == Fail(ArrayIndexOutOfBounds(from))
    ensures 0 <= from && to > size ==> o == Fail(ArrayIndexOutOfBounds(to))
    ensures 0 <= from && to <= size && from > to ==> o == Fail(IllegalArgument)
  {
    if from < 0 then Fail(ArrayIndexOutOfBounds(from))
    else if to > size then Fail(ArrayIndexOutOfBounds(to))
    else if from > to then Fail(IllegalArgument)
    else Done
  }

  /** The intended check refines the written one: it accepts a subset, and they differ only on from > to. */
  lemma CheckedSubListBoundsRefines(size: int, from: int, to: int)
    ensures CheckedSubListBounds(size, from, to) == Done ==> SubListCheck(size, from, to) == Done
    ensures CheckedSubListBounds(size, from, to) != SubListCheck(size, from, to) <==>
              0 <= from && to <= size && from > to
  {
  }

  /** new SubList(list, from, to), with the corrected bounds check. */
  method NewSubList(list: CharList, from: int, to: int) returns (r: Result<SubList>)
    ensures CheckedSubListBounds(|list.elements|, from, to) == Done ==>
              r.Ok? && fresh(r.value) && r.value.list == list && r.value.from == from && r.value.to == to &&
              r.value.Valid()
    ensures CheckedSubListBounds(|list.elements|, from, to) != Done ==>
              r == Err(CheckedSubListBounds(|list.elements|, from, to).error)
  {
    var check := CheckedSubListBounds(|list.elements|, from, to);
    if check.Fail? {
      return Err(check.error);
    }
    var s := new SubList(list, from, to);
    r := Ok(s);
  }

  /** A window [from, to) onto a backing list; removing through its iterator shrinks the window. */
  class SubList {
    const list: CharList
    const from: int
    var to: int

    ghost predicate Valid()
      reads this, list
    {
      0 <= from <= to <= |list.elements|
    }

    /** The elements the window shows. */
    ghost function View(): seq<char>
      reads this, list
      requires Valid()
    {
      list.elements[from..to]
    }

    constructor (list: CharList, from: int, to: int)
      requires 0 <= from <= to <= |list.elements|
      ensures this.list == list && this.from == from && this.to == to && Valid()
    {
      this.list := list;
      this.from := from;
      this.to := to;
    }

    /** size(): to - from, the number of elements in the window. */
    function Size(): (n: int)
      reads this, list
      requires Valid()
      ensures n == |View()| && n >= 0
    {
      to - from
    }

    /** iterator(): skips from elements of the list, then yields at most to - from of them. */
    method Iterator() returns (c: SubListCursor)
      requires Valid()
      ensures fresh(c) && c.sub == this && c.Valid() && c.Remaining() == View() && !c.canRemove
    {
      c := new SubListCursor(this);
    }
  }

  /**
   * The iterator of a SubList: a limit of to - from over a skip of from over the backing list. Its position
   * `cursor` is the list index of the next element; `count` elements have been handed out of `limit`.
   */
  class SubListCursor {
    const sub: SubList
    var cursor: int
    const limit: int
    var count: int
    var canRemove: bool

    ghost predicate Valid()
      reads this, sub, sub.list
    {
      sub.Valid() && sub.from <= cursor <= sub.to && 0 <= count <= limit &&
      limit - count == sub.to - cursor && (canRemove ==> sub.from < cursor)
    }

    /** The window elements still to come. */
    ghost function Remaining(): seq<char>
      reads this, sub, sub.list
      requires Valid()
    {
      sub.list.elements[cursor..sub.to]
    }

    constructor (sub: SubList)
      requires sub.Valid()
      ensures this.sub == sub && Valid() && Remaining() == sub.View() && !canRemove
    {
      this.sub := sub;
      cursor := sub.from;
      limit := sub.to - sub.from;
      count := 0;
      canRemove := false;
    }

    /** hasNext: the limit is not reached and the list has more. */
    method HasNext() returns (b: bool)
      requires Valid()
      ensures b <==> Remaining() != []
    {
      b := count < limit && cursor < |sub.list.elements|;
    }

    /** nextChar: the next window element, or NoSuchElementException past the window. */
    method Next() returns (r: Result<char>)
      requires Valid()
      modifies this
      ensures Valid()
      ensures old(Remaining()) != [] ==> r == Ok(old(Remaining())[0]) && Remaining() == old(Remaining())[1..] && canRemove
      ensures old(Remaining()) == [] ==> r == Err(NoSuchElement) && Remaining() == [] && canRemove == old(canRemove)
    {
      if count >= limit || cursor >= |sub.list.elements| {
        return Err(NoSuchElement);
      }
      r := Ok(sub.list.elements[cursor]);
      cursor := cursor + 1;
      count := count + 1;
      canRemove := true;
    }

    /**
     * remove: removes the element just handed out from the backing list and decrements to, so the window
     * loses exactly that element and the elements still to come stay the same; IllegalStateException
     * before any next or twice in a row, with nothing changed.
     */
    method Remove() returns (o: Outcome)
      requires Valid()
      modifies this, sub, sub.list
      ensures Valid() && !canRemove && Remaining() == old(Remaining())
      ensures old(canRemove) ==>
                o == Done && sub.to == old(sub.to) - 1 &&
                sub.list.elements == old(sub.list.elements)[..old(cursor) - 1] + old(sub.list.elements)[old(cursor)..] &&
                sub.View() == old(sub.View())[..old(cursor) - 1 - sub.from] + old(sub.View())[old(cursor) - sub.from..]
      ensures !old(canRemove) ==> o == Fail(IllegalState) && sub.to == old(sub.to) && sub.list.elements == old(sub.list.elements)
    {
      if !canRemove {
        return Fail(IllegalState);
      }
      sub.list.elements := sub.list.elements[..cursor - 1] + sub.list.elements[cursor..];
      sub.to := sub.to - 1;
      cursor := cursor - 1;
      canRemove := false;
      o := Done;
    }
  }
}
