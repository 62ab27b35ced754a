/**
 * ChainingIntIterable: a growable list of sources whose iterator chains them. Equality and hashing
 * delegate to the list of sources.
 */
module ChainingIterables {
  import opened Wrappers
  import opened Seqs
  import opened Cursors
  import opened Chaining
  import Maps

  /** The fold h = 31 * h + hash(e) over s from h, in unbounded integers. */
  function HashFold<S>(hash: S -> int, h: int, s: seq<S>): int
    decreases |s|
  {
    if s == [] then h else HashFold(hash, 31 * h + hash(s[0]), s[1..])
  }

  /** The same fold in int arithmetic: each product and each sum wraps to 32 bits. */
  function StepwiseHash<S>(hash: S -> int, h: int, s: seq<S>): (r: int)
    requires IsInt32(h)
    ensures IsInt32(r)
    decreases |s|
  {
    if s == [] then h else StepwiseHash(hash, WrapInt32(WrapInt32(31 * h) + WrapInt32(hash(s[0]))), s[1..])
  }

  /** java.util.List.hashCode: h = 31 * h + hash(e) from h = 1, in wrapping int arithmetic. */
  function ListHashCode<S>(hash: S -> int, s: seq<S>): (h: int)
    ensures IsInt32(h)
  {
    StepwiseHash(hash, 1, s)
  }

  /** Wrapping at every step of the fold gives what wrapping the unbounded fold once gives. */
  lemma {:induction false} StepwiseWrapsOnce<S>(hash: S -> int, z: int, s: seq<S>)
    ensures StepwiseHash(hash, WrapInt32(z), s) == WrapInt32(HashFold(hash, z, s))
    decreases |s|
  {
    if s != [] {
      Maps.WrapStepwise(z, hash(s[0]));
      StepwiseWrapsOnce(hash, 31 * z + hash(s[0]), s[1..]);
    }
  }

  /** The list hash is the unbounded fold from 1 reduced to 32 bits. */
  lemma ListHashCodeWrapsOnce<S>(hash: S -> int, s: seq<S>)
    ensures ListHashCode(hash, s) == WrapInt32(HashFold(hash, 1, s))
  {
    StepwiseWrapsOnce(hash, 1, s);
  }

  class ChainingIterable<S(==), T> {
    var iterables: seq<S>
    const elementsOf: S -> seq<T>

    /** Stores the given sources in argument order. */
    constructor (iterables: seq<S>, elementsOf: S -> seq<T>)
      ensures this.iterables == iterables && this.elementsOf == elementsOf
    {
      this.iterables := iterables;
      this.elementsOf := elementsOf;
    }

    /** append: adds a source at the end and returns this same object. */
    method Append(iterable: S) returns (self: ChainingIterable<S, T>)
      modifies this
      ensures self == this
      ensures iterables == old(iterables) + [iterable]
    {
      iterables := iterables + [iterable];
      self := this;
    }

    /** iterator: a fresh chaining cursor over the sources stored when it is called. */
    method Iterator() returns (it: ChainingIterator<S, T>)
      ensures fresh(it) && fresh(it.sources) && it.Valid()
      ensures it.output == [] && it.Expected() == Chain(elementsOf, iterables)
    {
      var sources := new Cursor(iterables);
      it := new ChainingIterator(sources, elementsOf);
    }

    /** equals: the same object, or an object of this class holding an equal list of sources. */
    predicate Equals(o: Argument<ChainingIterable<S, T>>)
      reads this, if o.SameClass? then {o.instance} else {}
      ensures !o.SameClass? ==> !Equals(o)
      ensures o.SameClass? && o.instance == this ==> Equals(o)
      ensures Equals(o) ==> o.instance.iterables == iterables
    {
      o.SameClass? && (o.instance == this || iterables == o.instance.iterables)
    }

    function HashCode(hash: S -> int): (h: int)
      reads this
      ensures IsInt32(h)
    {
      ListHashCode(hash, iterables)
    }
  }

  /** Two iterables that are equal hash alike, whatever the element hash is. */
  lemma EqualsHashCode<S, T>(a: ChainingIterable<S, T>, b: ChainingIterable<S, T>, hash: S -> int)
    requires a.Equals(SameClass(b))
    ensures a.HashCode(hash) == b.HashCode(hash)
  {
  }

  /** Appending is visible to iterators created afterwards: the chain grows by the new source's elements. */
  lemma AppendExtendsChain<S, T>(elementsOf: S -> seq<T>, iterables: seq<S>, iterable: S)
    ensures Chain(elementsOf, iterables + [iterable]) == Chain(elementsOf, iterables) + elementsOf(iterable)
  {
    ChainAppend(elementsOf, iterables, [iterable]);
    ChainCons(elementsOf, [iterable]);
    assert [iterable][1..] == [];
  }
}
