/**
 * PredicatePartitioningDoubleIterator: groups the upstream into batches, closing a batch between two
 * adjacent elements a, b exactly when split(a, b) holds. One element of lookahead is held between calls.
 */
module Partitioning {
  import opened Wrappers
  import opened Seqs
  import opened Cursors

  /** The batches of `run + rest`, where `run` is the batch under construction. */
  function RunsFrom<T>(split: (T, T) -> bool, run: seq<T>, rest: seq<T>): seq<seq<T>>
    requires run != []
    decreases |rest|
  {
    if rest == [] then [run]
    else if split(run[|run| - 1], rest[0]) then [run] + RunsFrom(split, [rest[0]], rest[1..])
    else RunsFrom(split, run + [rest[0]], rest[1..])
  }

  /** The batches of s: none for empty s, else the runs starting with s[0]. */
  function Runs<T>(split: (T, T) -> bool, s: seq<T>): seq<seq<T>>
  {
    if s == [] then [] else RunsFrom(split, [s[0]], s[1..])
  }

  /** No adjacent pair inside `run` satisfies the split predicate. */
  ghost predicate NoSplitInside<T>(split: (T, T) -> bool, run: seq<T>)
  {
    forall j :: 0 <= j < |run| - 1 ==> !split(run[j], run[j + 1])
  }

  /** Batches i and i + 1 are non-empty and meet at a split point. */
  ghost predicate SplitAfter<T>(split: (T, T) -> bool, runs: seq<seq<T>>, i: int)
    requires 0 <= i < |runs| - 1
  {
    runs[i] != [] && runs[i + 1] != [] && split(runs[i][|runs[i]| - 1], runs[i + 1][0])
  }

  /** Every batch is non-empty, holds no split point, and consecutive batches meet at a split point. */
  ghost predicate WellCut<T>(split: (T, T) -> bool, runs: seq<seq<T>>)
  {
    (forall i :: 0 <= i < |runs| ==> runs[i] != [] && NoSplitInside(split, runs[i])) &&
    (forall i :: 0 <= i < |runs| - 1 ==> SplitAfter(split, runs, i))
  }

  /** The batches concatenate back to `run + rest`. */
  lemma {:induction false} RunsFromFlatten<T>(split: (T, T) -> bool, run: seq<T>, rest: seq<T>)
    requires run != []
    ensures Flatten(RunsFrom(split, run, rest)) == run + rest
    decreases |rest|
  {
    if rest == [] {
      FlattenSingle(run);
    } else if split(run[|run| - 1], rest[0]) {
      RunsFromFlatten(split, [rest[0]], rest[1..]);
      assert [rest[0]] + rest[1..] == rest;
    } else {
      RunsFromFlatten(split, run + [rest[0]], rest[1..]);
      assert (run + [rest[0]]) + rest[1..] == run + rest;
    }
  }

  /** There is at least one batch, and the first one starts with `run`. */
  lemma {:induction false} RunsFromHead<T>(split: (T, T) -> bool, run: seq<T>, rest: seq<T>)
    requires run != []
    ensures RunsFrom(split, run, rest) != [] && IsPrefix(run, RunsFrom(split, run, rest)[0])
    decreases |rest|
  {
    if rest != [] && !split(run[|run| - 1], rest[0]) {
      RunsFromHead(split, run + [rest[0]], rest[1..]);
    }
  }

  /** A run without split points stays so when extended by an element that does not split from its last. */
  lemma Extend<T>(split: (T, T) -> bool, run: seq<T>, x: T)
    requires run != [] && NoSplitInside(split, run) && !split(run[|run| - 1], x)
    ensures NoSplitInside(split, run + [x])
  {
    var grown := run + [x];
    forall j | 0 <= j < |grown| - 1
      ensures !split(grown[j], grown[j + 1])
    {
      if j < |run| - 1 {
        assert grown[j] == run[j] && grown[j + 1] == run[j + 1];
      }
    }
  }

  /** Every batch is non-empty, holds no split point, and consecutive batches meet at a split point. */
  lemma {:induction false} RunsFromWellCut<T>(split: (T, T) -> bool, run: seq<T>, rest: seq<T>)
    requires run != [] && NoSplitInside(split, run)
    ensures WellCut(split, RunsFrom(split, run, rest))
    decreases |rest|
  {
    if rest == [] {
    } else if split(run[|run| - 1], rest[0]) {
      var tail := RunsFrom(split, [rest[0]], rest[1..]);
      var runs := [run] + tail;
      RunsFromWellCut(split, [rest[0]], rest[1..]);
      RunsFromHead(split, [rest[0]], rest[1..]);
      forall i | 0 <= i < |runs| - 1
        ensures SplitAfter(split, runs, i)
      {
        if i > 0 {
          assert runs[i] == tail[i - 1] && runs[i + 1] == tail[i];
          assert SplitAfter(split, tail, i - 1);
        }
      }
      forall i | 0 <= i < |runs|
        ensures runs[i] != [] && NoSplitInside(split, runs[i])
      {
        if i > 0 {
          assert runs[i] == tail[i - 1];
        }
      }
    } else {
      Extend(split, run, rest[0]);
      RunsFromWellCut(split, run + [rest[0]], rest[1..]);
    }
  }

  /**
   * The batches cut s correctly: concatenated they give back s, none is empty, no batch holds a split
   * point, and consecutive batches meet at a split point.
   */
  lemma RunsShape<T>(split: (T, T) -> bool, s: seq<T>)
    ensures Flatten(Runs(split, s)) == s
    ensures WellCut(split, Runs(split, s))
  {
    if s != [] {
      RunsFromFlatten(split, [s[0]], s[1..]);
      RunsFromWellCut(split, [s[0]], s[1..]);
      assert [s[0]] + s[1..] == s;
    }
  }

  /** Starting a batch with the held element: the first step the batching loop takes. */
  lemma RunsCons<T>(split: (T, T) -> bool, x: T, rest: seq<T>)
    ensures Runs(split, [x] + rest) == RunsFrom(split, [x], rest)
    ensures Runs(split, [x] + rest) != []
  {
    assert ([x] + rest)[1..] == rest;
    RunsFromHead(split, [x], rest);
  }

  class PartitioningIterator<T(0)> {
    const upstream: Cursor<T>
    const split: (T, T) -> bool
    var next: T
    var hasNext: bool
    ghost const input: seq<T>
    ghost var output: seq<seq<T>>

    ghost function Expected(): seq<seq<T>>
    {
      Runs(split, input)
    }

    /** The elements not yet batched: the held lookahead element, if any, then the upstream's rest. */
    ghost function Pending(): seq<T>
      reads this, upstream
    {
      (if hasNext then [next] else []) + upstream.remaining
    }

    ghost predicate Valid()
      reads this, upstream
    {
      output + Runs(split, Pending()) == Expected()
    }

    constructor (upstream: Cursor<T>, split: (T, T) -> bool)
      ensures Valid() && !hasNext
      ensures this.upstream == upstream && this.split == split
      ensures input == upstream.remaining && output == []
    {
      this.upstream := upstream;
      this.split := split;
      hasNext := false;
      input := upstream.remaining;
      output := [];
      new;
      assert Pending() == input;
    }

    /**
     * hasNext: pulls one upstream element into the held slot when none is held; with one held it consumes
     * nothing, so repeated calls pull nothing more.
     */
    method HasNext() returns (b: bool)
      requires Valid()
      modifies this, upstream
      ensures Valid() && output == old(output) && b == hasNext
      ensures Pending() == old(Pending())
      ensures b <==> |output| < |Expected()|
      ensures !b ==> output == Expected()
      ensures old(hasNext) ==> upstream.remaining == old(upstream.remaining)
      ensures |old(upstream.remaining)| - |upstream.remaining| <= 1
    {
      ghost var pending := Pending();
      if !hasNext {
        var more := upstream.HasNext();
        if more {
          ghost var before := upstream.remaining;
          var r := upstream.Next();
          next := r.value;
          hasNext := true;
          assert Pending() == before;
        }
      }
      assert Pending() == pending;
      b := hasNext;
      if b {
        RunsCons(split, next, upstream.remaining);
      } else {
        assert Pending() == [];
      }
    }

    /**
     * next: NoSuchElementException when nothing is held and the upstream is exhausted; otherwise builds the
     * next batch from the held element, pulling until a split point (whose second element becomes the new
     * held element) or exhaustion.
     */
    method Next() returns (r: Result<seq<T>>)
      requires Valid()
      modifies this, upstream
      ensures Valid()
      ensures old(|output|) < |Expected()| ==> r == Ok(Expected()[old(|output|)]) && output == old(output) + [r.value]
      ensures old(|output|) >= |Expected()| ==> r == Err(NoSuchElement) && output == old(output)
    {
      var more := HasNext();
      if !more {
        r := Err(NoSuchElement);
        return;
      }
      RunsCons(split, next, upstream.remaining);
      assert Pending() == [next] + upstream.remaining;
      var buffer: seq<T> := [];
      assert buffer + [next] == [next];
      while true
        invariant hasNext && output == old(output)
        invariant output + RunsFrom(split, buffer + [next], upstream.remaining) == Expected()
        decreases |upstream.remaining|
      {
        buffer := buffer + [next];
        hasNext := upstream.HasNext();
        if !hasNext {
          assert output + [buffer] + Runs(split, Pending()) == Expected() by {
            assert Pending() == [];
          }
          break;
        }
        ghost var rest := upstream.remaining;
        var pulled := upstream.Next();
        var following := pulled.value;
        var cut := split(next, following);
        next := following;
        assert rest[0] == following && rest[1..] == upstream.remaining;
        if cut {
          RunsCons(split, following, upstream.remaining);
          assert output + [buffer] + Runs(split, Pending()) == Expected() by {
            assert Pending() == [next] + upstream.remaining;
          }
          break;
        }
      }
      r := Ok(buffer);
      ghost var before := output;
      output := output + [buffer];
      assert Expected()[|before|] == buffer;
    }

    /** remove is not supported. */
    method Remove() returns (o: Outcome)
      ensures o == Fail(UnsupportedOperation)
    {
      o := Fail(UnsupportedOperation);
    }
  }
}
