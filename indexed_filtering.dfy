/**
 * IndexedFilteringDoubleIterator: emits the upstream elements x at position i for which predicate(x, i)
 * holds. hasNext searches ahead for the next match and caches it.
 */
module IndexedFiltering {
  import opened Wrappers
  import opened Cursors

  /** The elements s[i] with p(s[i], start + i), in order. */
  function FilterIndexed<T>(p: (T, int) -> bool, s: seq<T>, start: int): seq<T>
  {
    if s == [] then [] else (if p(s[0], start) then [s[0]] else []) + FilterIndexed(p, s[1..], start + 1)
  }

  /** Filtering a concatenation: the second part is tested with its positions offset by the first part's length. */
  lemma {:induction false} FilterIndexedAppend<T>(p: (T, int) -> bool, a: seq<T>, b: seq<T>, start: int)
    ensures FilterIndexed(p, a + b, start) == FilterIndexed(p, a, start) + FilterIndexed(p, b, start + |a|)
  {
    if a == [] {
      assert a + b == b;
    } else {
      var head := if p(a[0], start) then [a[0]] else [];
      assert (a + b)[0] == a[0] && (a + b)[1..] == a[1..] + b;
      FilterIndexedAppend(p, a[1..], b, start + 1);
      calc {
        FilterIndexed(p, a + b, start);
        head + FilterIndexed(p, a[1..] + b, start + 1);
        head + (FilterIndexed(p, a[1..], start + 1) + FilterIndexed(p, b, start + 1 + |a[1..]|));
        (head + FilterIndexed(p, a[1..], start + 1)) + FilterIndexed(p, b, start + |a|);
        FilterIndexed(p, a, start) + FilterIndexed(p, b, start + |a|);
      }
    }
  }

  /** An emitted element sits at a position where the predicate accepted it. */
  lemma {:induction false} FilterIndexedWitness<T>(p: (T, int) -> bool, s: seq<T>, start: int, x: T) returns (i: int)
    requires x in FilterIndexed(p, s, start)
    ensures 0 <= i < |s| && s[i] == x && p(x, start + i)
  {
    assert s != [];
    var tail := s[1..];
    if s[0] == x && p(x, start) {
      i := 0;
    } else {
      assert FilterIndexed(p, s, start) == (if p(s[0], start) then [s[0]] else []) + FilterIndexed(p, tail, start + 1);
      var j := FilterIndexedWitness(p, tail, start + 1, x);
      i := j + 1;
      assert s[i] == tail[j];
    }
  }

  /** An element that is not emitted was rejected at every position where it sits. */
  lemma {:induction false} FilterIndexedRejects<T>(p: (T, int) -> bool, s: seq<T>, start: int, x: T, i: int)
    requires x !in FilterIndexed(p, s, start) && 0 <= i < |s| && s[i] == x
    ensures !p(x, start + i)
  {
    var tail := s[1..];
    assert FilterIndexed(p, s, start) == (if p(s[0], start) then [s[0]] else []) + FilterIndexed(p, tail, start + 1);
    if i > 0 {
      assert tail[i - 1] == x;
      FilterIndexedRejects(p, tail, start + 1, x, i - 1);
    }
  }

  /** x is emitted exactly when it sits at some position i where the predicate accepts (x, start + i). */
  lemma FilterIndexedMembers<T>(p: (T, int) -> bool, s: seq<T>, start: int, x: T)
    ensures x in FilterIndexed(p, s, start) <==> exists i :: 0 <= i < |s| && s[i] == x && p(x, start + i)
  {
    if x in FilterIndexed(p, s, start) {
      var i := FilterIndexedWitness(p, s, start, x);
    } else {
      forall i | 0 <= i < |s| && s[i] == x
        ensures !p(x, start + i)
      {
        FilterIndexedRejects(p, s, start, x, i);
      }
    }
  }

  /** Pulling an element the predicate rejects at position `index` emits nothing. */
  lemma PullRejected<T>(p: (T, int) -> bool, rest: seq<T>, index: int)
    requires rest != [] && !p(rest[0], index)
    ensures FilterIndexed(p, rest, index) == FilterIndexed(p, rest[1..], index + 1)
  {
  }

  /** Pulling an element the predicate accepts at position `index` emits it first. */
  lemma PullAccepted<T>(p: (T, int) -> bool, rest: seq<T>, index: int)
    requires rest != [] && p(rest[0], index)
    ensures FilterIndexed(p, rest, index) == [rest[0]] + FilterIndexed(p, rest[1..], index + 1)
  {
  }

  /** Elements rejected at their positions lo..hi-1 emit nothing: filtering may start after them. */
  lemma {:induction false} SkipRejected<T>(p: (T, int) -> bool, s: seq<T>, lo: int, hi: int)
    requires 0 <= lo <= hi <= |s|
    requires forall k :: lo <= k < hi ==> !p(s[k], k)
    ensures FilterIndexed(p, s[lo..], lo) == FilterIndexed(p, s[hi..], hi)
    decreases hi - lo
  {
    if lo < hi {
      assert s[lo..][0] == s[lo] && s[lo..][1..] == s[lo + 1..];
      PullRejected(p, s[lo..], lo);
      SkipRejected(p, s, lo + 1, hi);
    }
  }

  /** A search from position lo that rejects everything to the end finds no more matches. */
  lemma SeekExhausted<T>(p: (T, int) -> bool, s: seq<T>, lo: int)
    requires 0 <= lo <= |s|
    requires forall k :: lo <= k < |s| ==> !p(s[k], k)
    ensures FilterIndexed(p, s[lo..], lo) == []
  {
    SkipRejected(p, s, lo, |s|);
  }

  /** A search from position lo that first matches at position pos - 1 finds that element next. */
  lemma SeekFound<T>(p: (T, int) -> bool, s: seq<T>, lo: int, pos: int)
    requires 0 <= lo < pos <= |s| && p(s[pos - 1], pos - 1)
    requires forall k :: lo <= k < pos - 1 ==> !p(s[k], k)
    ensures FilterIndexed(p, s[lo..], lo) == [s[pos - 1]] + FilterIndexed(p, s[pos..], pos)
  {
    SkipRejected(p, s, lo, pos - 1);
    assert s[pos - 1..][0] == s[pos - 1] && s[pos - 1..][1..] == s[pos..];
    PullAccepted(p, s[pos - 1..], pos - 1);
  }

  class IndexedFilteringIterator<T(0)> {
    const upstream: Cursor<T>
    const test: (T, int) -> bool
    var index: int
    var next: T
    var hasNext: bool
    ghost const input: seq<T>
    ghost var output: seq<T>

    ghost function Expected(): seq<T>
    {
      FilterIndexed(test, input, 0)
    }

    /**
     * index is the upstream position; a cached match is the element just pulled; output, the cached match and
     * the rest's matches make up Expected().
     */
    ghost predicate Valid()
      reads this, upstream
    {
      0 <= index <= |input| &&
      upstream.remaining == input[index..] &&
      (hasNext ==> 0 < index && next == input[index - 1] && test(next, index - 1)) &&
      output + (if hasNext then [next] else []) + FilterIndexed(test, upstream.remaining, index) == Expected()
    }

    constructor (upstream: Cursor<T>, test: (T, int) -> bool)
      ensures Valid() && !hasNext && index == 0
      ensures this.upstream == upstream && this.test == test
      ensures input == upstream.remaining && output == []
    {
      this.upstream := upstream;
      this.test := test;
      index := 0;
      hasNext := false;
      input := upstream.remaining;
      output := [];
    }

    /**
     * hasNext: true at once when a match is cached; otherwise searches for the next one. It stops right after
     * the match, and drains the upstream when none is left.
     */
    method HasNext() returns (b: bool)
      requires Valid()
      modifies this, upstream
      ensures Valid() && output == old(output) && b == hasNext
      ensures b <==> |output| < |Expected()|
      ensures !b ==> output == Expected()
      ensures old(hasNext) ==> upstream.remaining == old(upstream.remaining) && index == old(index)
      ensures !old(hasNext) && b ==>
                old(index) < index && next == input[index - 1] && test(next, index - 1) &&
                forall k :: old(index) <= k < index - 1 ==> !test(input[k], k)
      ensures !b ==> upstream.remaining == []
    {
      if hasNext {
        return true;
      }
      b := Seek();
    }

    /**
     * The do/while of hasNext: pulls upstream elements, counting each one in index, until one matches (cached)
     * or the upstream runs out.
     */
    method Seek() returns (b: bool)
      requires Valid() && !hasNext
      modifies this, upstream
      ensures Valid() && output == old(output) && b == hasNext
      ensures b ==> |output| < |Expected()|
      ensures !b ==> output == Expected() && upstream.remaining == []
      ensures b ==>
                old(index) < index && next == input[index - 1] && test(next, index - 1) &&
                forall k :: old(index) <= k < index - 1 ==> !test(input[k], k)
    {
      ghost var start := index;
      var found, x, pos := Scan();
      if !found {
        SeekExhausted(test, input, start);
        index := pos;
        return false;
      }
      SeekFound(test, input, start, pos);
      index, next, hasNext := pos, x, true;
      b := true;
    }

    /**
     * The pulling loop of Seek on its own: from position index, pulls until an element matches at its position
     * (found, with its element x and the position pos just after it) or the upstream runs out (pos at the end).
     */
    method Scan() returns (found: bool, x: T, pos: int)
      requires 0 <= index <= |input| && upstream.remaining == input[index..]
      modifies upstream
      ensures index <= pos <= |input| && upstream.remaining == input[pos..]
      ensures found ==> index < pos && x == input[pos - 1] && test(x, pos - 1)
      ensures found ==> forall k :: index <= k < pos - 1 ==> !test(input[k], k)
      ensures !found ==> pos == |input| && forall k :: index <= k < pos ==> !test(input[k], k)
    {
      pos := index;
      while true
        invariant index <= pos <= |input| && upstream.remaining == input[pos..]
        invariant forall k :: index <= k < pos ==> !test(input[k], k)
        decreases |upstream.remaining|
      {
        var more := upstream.HasNext();
        if !more {
          return false, next, pos;
        }
        ghost var rest := upstream.remaining;
        var r := upstream.Next();
        assert rest[0] == r.value == input[pos] && rest[1..] == upstream.remaining == input[pos + 1..];
        x := r.value;
        pos := pos + 1;
        if test(x, pos - 1) {
          return true, x, pos;
        }
      }
    }

    /** nextDouble: hands out the cached match and clears it; NoSuchElementException when no match remains. */
    method Next() returns (r: Result<T>)
      requires Valid()
      modifies this, upstream
      ensures Valid() && !hasNext
      ensures old(|output|) < |Expected()| ==> r == Ok(Expected()[old(|output|)]) && output == old(output) + [r.value]
      ensures old(|output|) >= |Expected()| ==> r == Err(NoSuchElement) && output == old(output)
    {
      var more := HasNext();
      if !more {
        r := Err(NoSuchElement);
        return;
      }
      hasNext := false;
      r := Ok(next);
      output := output + [next];
    }
  }
}
