/**
 * PredicatePartitioningCharIterator: the same batching as the partitioning cursor, with each batch built
 * in a char array that starts with capacity 3, doubles when full and is trimmed to size at the end.
 */
module CharPartitioning {
  import opened Wrappers
  import opened Cursors
  import opened Partitioning
  import ArrayCopy

  function Pow2(k: nat): (r: nat)
    ensures r >= 1
  {
    if k == 0 then 1 else 2 * Pow2(k - 1)
  }

  /** One step of the batch loop: doubles a full buffer, then stores x at index size. */
  method Store<T(0)>(buffer: array<T>, size: nat, x: T) returns (grown: array<T>)
    requires 0 < buffer.Length && size <= buffer.Length
    modifies buffer
    ensures grown == buffer || fresh(grown)
    ensures grown.Length == if size == buffer.Length then 2 * buffer.Length else buffer.Length
    ensures grown[..size + 1] == old(buffer[..size]) + [x]
  {
    grown := buffer;
    if buffer.Length == size {
      grown := ArrayCopy.CopyOf(buffer, buffer.Length * 2);
    }
    ghost var kept := grown[..size];
    grown[size] := x;
    assert grown[..size] == kept;
  }

  class CharPartitioningIterator<T(0)> {
    const upstream: Cursor<T>
    const split: (T, T) -> bool
    var next: T
    var hasNext: bool
    ghost const input: seq<T>
    ghost var output: seq<seq<T>>

    ghost function Expected(): seq<seq<T>>
    {
      Runs(split, input)
    }

    ghost function Pending(): seq<T>
      reads this, upstream
    {
      (if hasNext then [next] else []) + upstream.remaining
    }

    ghost predicate Valid()
      reads this, upstream
    {
      output + Runs(split, Pending()) == Expected()
    }

    constructor (upstream: Cursor<T>, split: (T, T) -> bool)
      ensures Valid() && !hasNext
      ensures this.upstream == upstream && this.split == split
      ensures input == upstream.remaining && output == []
    {
      this.upstream := upstream;
      this.split := split;
      hasNext := false;
      input := upstream.remaining;
      output := [];
      new;
      assert Pending() == input;
    }

    /** hasNext: holds at most one lookahead element; with one held it consumes nothing. */
    method HasNext() returns (b: bool)
      requires Valid()
      modifies this, upstream
      ensures Valid() && output == old(output) && b == hasNext
      ensures Pending() == old(Pending())
      ensures b <==> |output| < |Expected()|
      ensures !b ==> output == Expected()
      ensures old(hasNext) ==> upstream.remaining == old(upstream.remaining)
      ensures |old(upstream.remaining)| - |upstream.remaining| <= 1
    {
      ghost var pending := Pending();
      if !hasNext {
        var more := upstream.HasNext();
        if more {
          ghost var before := upstream.remaining;
          var r := upstream.Next();
          next := r.value;
          hasNext := true;
          assert Pending() == before;
        }
      }
      assert Pending() == pending;
      b := hasNext;
      if b {
        RunsCons(split, next, upstream.remaining);
      } else {
        assert Pending() == [];
      }
    }

    /**
     * The do-while loop of next: starting from the held element, stores elements into a growing buffer
     * until a split point (whose second element becomes the held one) or exhaustion. The capacity is 3
     * doubled some number of times, never below the size, and below twice the size once it has grown.
     */
    method Gather() returns (buffer: array<T>, size: nat, ghost run: seq<T>)
      requires Valid() && hasNext
      modifies this, upstream
      ensures fresh(buffer) && size <= buffer.Length && buffer[..size] == run
      ensures exists k: nat :: buffer.Length == 3 * Pow2(k) && (k > 0 ==> buffer.Length < 2 * size)
      ensures output == old(output)
      ensures old(output) + [run] + Runs(split, Pending()) == Expected()
    {
      RunsCons(split, next, upstream.remaining);
      assert Pending() == [next] + upstream.remaining;
      buffer := new T[3];
      size := 0;
      ghost var doublings: nat := 0;
      run := [];
      assert run + [next] == [next];
      while true
        invariant hasNext && output == old(output)
        invariant fresh(buffer)
        invariant 0 <= size <= buffer.Length == 3 * Pow2(doublings)
        invariant doublings > 0 ==> buffer.Length < 2 * size
        invariant buffer[..size] == run
        invariant output + RunsFrom(split, run + [next], upstream.remaining) == Expected()
        decreases |upstream.remaining|
      {
        if buffer.Length == size {
          doublings := doublings + 1;
        }
        buffer := Store(buffer, size, next);
        size := size + 1;
        run := run + [next];
        hasNext := upstream.HasNext();
        if !hasNext {
          assert output + [run] + Runs(split, Pending()) == Expected() by {
            assert Pending() == [];
          }
          break;
        }
        ghost var rest := upstream.remaining;
        var pulled := upstream.Next();
        var following := pulled.value;
        var cut := split(next, following);
        next := following;
        assert rest[0] == following && rest[1..] == upstream.remaining;
        if cut {
          RunsCons(split, following, upstream.remaining);
          assert output + [run] + Runs(split, Pending()) == Expected() by {
            assert Pending() == [next] + upstream.remaining;
          }
          break;
        }
      }
      assert buffer.Length == 3 * Pow2(doublings) && (doublings > 0 ==> buffer.Length < 2 * size);
    }

    /** next: NoSuchElementException when no batch is left, else the next batch as a fresh array of exactly its length. */
    method Next() returns (r: Result<array<T>>)
      requires Valid()
      modifies this, upstream
      ensures Valid()
      ensures old(|output|) < |Expected()| ==>
                r.Ok? && fresh(r.value) && r.value[..] == Expected()[old(|output|)] &&
                output == old(output) + [r.value[..]]
      ensures old(|output|) >= |Expected()| ==> r == Err(NoSuchElement) && output == old(output)
    {
      var more := HasNext();
      if !more {
        r := Err(NoSuchElement);
        return;
      }
      var buffer, size, run := Gather();
      if buffer.Length > size {
        buffer := ArrayCopy.CopyOf(buffer, size);
      }
      assert buffer[..] == run;
      r := Ok(buffer);
      ghost var before := output;
      output := output + [run];
      assert Expected()[|before|] == run;
    }
  }
}
