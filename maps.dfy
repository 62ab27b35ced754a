/**
 * Maps: the map Builder that resets after each build, the immutable entry with its equals and hashCode,
 * the two-element iterator over an entry, and put(map, entry).
 */
module Maps {
  import opened Wrappers
  import opened Seqs

  /** A mutable java.util.Map, with its contents as a Dafny map. */
  class JMap<K(==), V> {
    var contents: map<K, V>

    constructor ()
      ensures contents == map[]
    {
      contents := map[];
    }

    /** put(key, value): maps key to value, replacing any earlier value. */
    method Put(key: K, value: V)
      modifies this
      ensures contents == old(contents)[key := value]
    {
      contents := contents[key := value];
    }
  }

  /**
   * Builder: collects pairs into a map created on the first put; build hands that map out (or a fresh empty
   * one when nothing was put) and forgets it, so the next put starts a new map.
   */
  class Builder<K(==), V> {
    var current: Nullable<JMap<K, V>>

    /** The objects the builder may change: itself and the map under construction. */
    function Footprint(): set<object>
      reads this
    {
      {this} + if current.Ref? then {current.target} else {}
    }

    constructor ()
      ensures current == Null
    {
      current := Null;
    }

    /** put(key, value): creates the map if there is none yet, adds the pair and returns this builder. */
    method Put(key: K, value: V) returns (self: Builder<K, V>)
      modifies Footprint()
      ensures self == this && current.Ref?
      ensures old(current).Ref? ==>
                (current == old(current) && current.target.contents == old(current.target.contents)[key := value])
      ensures old(current).Null? ==> fresh(current.target) && current.target.contents == map[key := value]
    {
      if current.Null? {
        var m := new JMap();
        current := Ref(m);
      }
      current.target.Put(key, value);
      self := this;
    }

    /** build(): the map collected so far, or a fresh empty one; afterwards the builder holds no map. */
    method Build() returns (m: JMap<K, V>)
      modifies this
      ensures current == Null
      ensures old(current).Ref? ==> m == old(current).target
      ensures old(current).Null? ==> fresh(m) && m.contents == map[]
    {
      if current.Null? {
        m := new JMap();
      } else {
        m := current.target;
      }
      current := Null;
    }
  }

  /** Two builds in a row on one builder: the second map holds only what was put after the first build. */
  method BuildTwice<K(==), V>(k1: K, v1: V, k2: K, v2: V) returns (m1: JMap<K, V>, m2: JMap<K, V>)
    ensures m1 != m2
    ensures m1.contents == map[k1 := v1] && m2.contents == map[k2 := v2]
  {
    var b := new Builder();
    var self := b.Put(k1, v1);
    m1 := b.Build();
    self := b.Put(k2, v2);
    m2 := b.Build();
  }

  /** Maps.put(result, entry): puts the entry's key and value into result and returns result itself. */
  method PutEntry<K(==), V(==)>(result: JMap<Nullable<K>, Nullable<V>>, entry: EntryImpl<K, V>)
    returns (m: JMap<Nullable<K>, Nullable<V>>)
    modifies result
    ensures m == result && result.contents == old(result.contents)[entry.key := entry.value]
  {
    result.Put(entry.key, entry.value);
    m := result;
  }

  /** The argument of EntryImpl.equals: any Map.Entry (by its key and value), or anything else, null included. */
  datatype EntryArgument<K, V> = AnEntry(key: Nullable<K>, value: Nullable<V>) | NotAnEntry

  /** hashCode of a reference that may be null: 0 for null. */
  function NullSafeHash<T>(hash: T -> int, x: Nullable<T>): int
  {
    if x.Null? then 0 else hash(x.target)
  }

  /** The hash a Map.Entry with this key and value gets: 31 * hash(key) + hash(value), wrapped to int. */
  function EntryHash<K, V>(hashKey: K -> int, hashValue: V -> int, key: Nullable<K>, value: Nullable<V>): (h: int)
    ensures IsInt32(h)
  {
    WrapInt32(31 * NullSafeHash(hashKey, key) + NullSafeHash(hashValue, value))
  }

  /** Wrapping after each step of 31 * a + b gives what wrapping once at the end gives. */
  lemma WrapStepwise(a: int, b: int)
    ensures WrapInt32(WrapInt32(31 * WrapInt32(a)) + WrapInt32(b)) == WrapInt32(31 * a + b)
  {
    var wa := WrapInt32(a);
    var wb := WrapInt32(b);
    var ka := WrapInt32Offset(a);
    var kb := WrapInt32Offset(b);
    var kx := WrapInt32Offset(31 * wa);
    WrapInt32Shift(31 * wa + wb, kx);
    assert 31 * a + b == (31 * wa + wb) + (-31 * ka - kb) * 0x1_0000_0000;
    WrapInt32Shift(31 * wa + wb, -31 * ka - kb);
  }

  /** Maps.entry(key, value): an immutable pair whose setValue is refused. */
  datatype EntryImpl<K(==), V(==)> = EntryImpl(key: Nullable<K>, value: Nullable<V>)
  {
    /**
     * equals(o): false for anything that is not an entry; for an entry, null-safe equality of the keys and
     * of the values.
     */
    predicate Equals(o: EntryArgument<K, V>)
      ensures o.NotAnEntry? ==> !Equals(o)
      ensures o.AnEntry? ==> (Equals(o) <==> EntryImpl(o.key, o.value) == this)
    {
      o.AnEntry? && o.key == key && o.value == value
    }

    /**
     * hashCode(): each step in Java int arithmetic (the hashes themselves are ints), the key's hash (0 for null) times 31, plus the value's
     * hash (0 for null).
     */
    function HashCode(hashKey: K -> int, hashValue: V -> int): (h: int)
      ensures IsInt32(h) && h == EntryHash(hashKey, hashValue, key, value)
    {
      var result := WrapInt32(NullSafeHash(hashKey, key));
      var valueHash := WrapInt32(NullSafeHash(hashValue, value));
      var stepped := WrapInt32(WrapInt32(31 * result) + valueHash);
      WrapStepwise(NullSafeHash(hashKey, key), NullSafeHash(hashValue, value));
      stepped
    }

    /** setValue(v): always UnsupportedOperationException. */
    function SetValue(v: Nullable<V>): (r: Result<Nullable<V>>)
      ensures r.Err? && r.error == UnsupportedOperation
    {
      Err(UnsupportedOperation)
    }
  }

  /** An entry equals itself, and equals another entry exactly when keys and values are equal. */
  lemma EqualsIsEntryEquality<K, V>(e: EntryImpl<K, V>, key: Nullable<K>, value: Nullable<V>)
    ensures e.Equals(AnEntry(e.key, e.value))
    ensures e.Equals(AnEntry(key, value)) <==> e == EntryImpl(key, value)
    ensures !e.Equals(NotAnEntry)
  {
  }

  /** Entries that are equal have equal hash codes. */
  lemma EqualsHashCode<K, V>(e: EntryImpl<K, V>, f: EntryImpl<K, V>, hashKey: K -> int, hashValue: V -> int)
    requires e.Equals(AnEntry(f.key, f.value))
    ensures e.HashCode(hashKey, hashValue) == f.HashCode(hashKey, hashValue)
  {
  }

  /** An entry with null key and null value hashes to 0. */
  lemma NullEntryHash<K, V>(e: EntryImpl<K, V>, hashKey: K -> int, hashValue: V -> int)
    requires e.key == Null && e.value == Null
    ensures e.HashCode(hashKey, hashValue) == 0
  {
  }

  /** EntryIterator: hands out the key, then the value, then nothing. */
  class EntryIterator<T> {
    const key: T
    const value: T
    var index: int

    ghost predicate Valid()
      reads this
    {
      0 <= index <= 2
    }

    /** The elements still to come. */
    ghost function Remaining(): seq<T>
      reads this
      requires Valid()
    {
      [key, value][index..]
    }

    constructor (key: T, value: T)
      ensures Valid() && this.key == key && this.value == value && Remaining() == [key, value]
    {
      this.key := key;
      this.value := value;
      index := 0;
    }

    /** hasNext: fewer than two elements handed out. */
    method HasNext() returns (b: bool)
      requires Valid()
      ensures b <==> Remaining() != []
    {
      b := index < 2;
    }

    /** next: the key first, then the value; NoSuchElementException after both. */
    method Next() returns (r: Result<T>)
      requires Valid()
      modifies this
      ensures Valid()
      ensures old(Remaining()) != [] ==> r == Ok(old(Remaining())[0]) && Remaining() == old(Remaining())[1..]
      ensures old(Remaining()) == [] ==> r == Err(NoSuchElement) && index == old(index)
    {
      if index >= 2 {
        return Err(NoSuchElement);
      }
      index := index + 1;
      if index == 1 {
        r := Ok(key);
      } else {
        r := Ok(value);
      }
    }
  }

  /** Draining an entry's iterator: key, value, then NoSuchElementException. */
  method DrainEntry<T>(key: T, value: T) returns (first: Result<T>, second: Result<T>, third: Result<T>)
    ensures first == Ok(key) && second == Ok(value) && third == Err(NoSuchElement)
  {
    var it := new EntryIterator(key, value);
    first := it.Next();
    second := it.Next();
    third := it.Next();
  }
}
