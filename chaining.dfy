/**
 * ChainingIntIterator: traverses a sequence of sources one after the other. It holds a cursor over the
 * sources and a cursor over the current source's elements, and opens the next source only when the
 * current one is exhausted.
 */
module Chaining {
  import opened Wrappers
  import opened Seqs
  import opened Cursors

  /** All elements of all sources, source by source, each source's elements given by `elementsOf`. */
  function Chain<S, T>(elementsOf: S -> seq<T>, sources: seq<S>): seq<T>
  {
    Flatten(Map(elementsOf, sources))
  }

  /** Chaining peels off one source at a time. */
  lemma ChainCons<S, T>(elementsOf: S -> seq<T>, sources: seq<S>)
    requires sources != []
    ensures Chain(elementsOf, sources) == elementsOf(sources[0]) + Chain(elementsOf, sources[1..])
  {
    assert Map(elementsOf, sources)[1..] == Map(elementsOf, sources[1..]);
  }

  /** Chaining a concatenation of source lists is the concatenation of the two chains. */
  lemma ChainAppend<S, T>(elementsOf: S -> seq<T>, a: seq<S>, b: seq<S>)
    ensures Chain(elementsOf, a + b) == Chain(elementsOf, a) + Chain(elementsOf, b)
  {
    assert Map(elementsOf, a + b) == Map(elementsOf, a) + Map(elementsOf, b);
    FlattenAppend(Map(elementsOf, a), Map(elementsOf, b));
  }

  /** Sources with no elements contribute nothing: chaining only the non-empty ones gives the same result. */
  lemma {:induction false} ChainSkipsEmpty<S, T>(elementsOf: S -> seq<T>, sources: seq<S>)
    ensures Chain(elementsOf, sources) == Chain(elementsOf, Filter(s => elementsOf(s) != [], sources))
  {
    var nonEmpty := (s: S) => elementsOf(s) != [];
    if sources != [] {
      ChainCons(elementsOf, sources);
      ChainSkipsEmpty(elementsOf, sources[1..]);
      var head := if nonEmpty(sources[0]) then [sources[0]] else [];
      assert Filter(nonEmpty, sources) == head + Filter(nonEmpty, sources[1..]);
      ChainAppend(elementsOf, head, Filter(nonEmpty, sources[1..]));
      if head != [] {
        ChainCons(elementsOf, head);
      }
    }
  }

  class ChainingIterator<S, T> {
    const sources: Cursor<S>
    const elementsOf: S -> seq<T>
    var current: Cursor<T>
    ghost const input: seq<S>
    ghost var output: seq<T>
    /** How many sources have been sourcesOpened so far. */
    ghost var sourcesOpened: nat

    ghost function Expected(): seq<T>
    {
      Chain(elementsOf, input)
    }

    /**
     * Emitted, then the current source's rest, then the unopened sources make up the whole chain; the
     * sources cursor only ever moves forward, one source per opening.
     */
    ghost predicate Valid()
      reads this, sources, current
    {
      (current as object) != (sources as object) &&
      sourcesOpened <= |input| && sources.remaining == input[sourcesOpened..] &&
      output + current.remaining + Chain(elementsOf, sources.remaining) == Expected()
    }

    /** Starts from an empty current cursor, so nothing comes before the first source. */
    constructor (sources: Cursor<S>, elementsOf: S -> seq<T>)
      ensures Valid() && current.remaining == [] && sourcesOpened == 0
      ensures this.sources == sources && this.elementsOf == elementsOf
      ensures input == sources.remaining && output == []
    {
      this.sources := sources;
      this.elementsOf := elementsOf;
      current := new Cursor([]);
      input := sources.remaining;
      output := [];
      sourcesOpened := 0;
    }

    /**
     * hasNext: while the current source is exhausted and sources remain, opens the next source. It is false
     * only when the current source is exhausted and no source is left.
     */
    method HasNext() returns (b: bool)
      requires Valid()
      modifies this, sources
      ensures Valid() && output == old(output)
      ensures current == old(current) || fresh(current)
      ensures b <==> |output| < |Expected()|
      ensures !b ==> output == Expected() && sources.remaining == [] && current.remaining == []
      ensures b ==> current.remaining != []
      ensures old(current.remaining) != [] ==> current == old(current) && sourcesOpened == old(sourcesOpened)
    {
      while true
        invariant Valid() && output == old(output)
        invariant current == old(current) || fresh(current)
        invariant old(current.remaining) != [] ==> current == old(current) && sourcesOpened == old(sourcesOpened)
        decreases |sources.remaining|
      {
        var more := current.HasNext();
        if more {
          break;
        }
        var sourcesLeft := sources.HasNext();
        if !sourcesLeft {
          break;
        }
        ChainCons(elementsOf, sources.remaining);
        var r := sources.Next();
        current := new Cursor(elementsOf(r.value));
        sourcesOpened := sourcesOpened + 1;
      }
      b := current.HasNext();
    }

    /** nextInt: the next element of the chain, or NoSuchElementException once every source is exhausted. */
    method Next() returns (r: Result<T>)
      requires Valid()
      modifies this, sources, current
      ensures Valid()
      ensures old(|output|) < |Expected()| ==> r == Ok(Expected()[old(|output|)]) && output == old(output) + [r.value]
      ensures old(|output|) >= |Expected()| ==> r == Err(NoSuchElement) && output == old(output)
    {
      var more := HasNext();
      if !more {
        r := Err(NoSuchElement);
        return;
      }
      ghost var before := current.remaining;
      r := current.Next();
      output := output + [r.value];
      assert before == [r.value] + current.remaining;
    }
  }
}
