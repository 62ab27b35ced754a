/**
 * InclusiveTerminalCharIterator: passes on the upstream up to and including the first element equal to
 * the terminal, then reports exhaustion even if the upstream has more.
 */
module InclusiveTerminal {
  import opened Wrappers
  import opened Cursors

  /** The prefix of s up to and including the first occurrence of t; all of s when t does not occur. */
  function ThroughFirst<T(==)>(s: seq<T>, t: T): seq<T>
  {
    if s == [] then [] else if s[0] == t then [s[0]] else [s[0]] + ThroughFirst(s[1..], t)
  }

  /** When t first occurs at position i, the emitted elements are exactly s[..i + 1]. */
  lemma {:induction false} ThroughFirstAt<T>(s: seq<T>, t: T, i: nat)
    requires i < |s| && s[i] == t
    requires forall j :: 0 <= j < i ==> s[j] != t
    ensures ThroughFirst(s, t) == s[..i + 1]
  {
    if i > 0 {
      ThroughFirstAt(s[1..], t, i - 1);
      assert s[..i + 1] == [s[0]] + s[1..][..i];
    }
  }

  /** When t never occurs, the whole of s is emitted. */
  lemma {:induction false} ThroughFirstAbsent<T>(s: seq<T>, t: T)
    requires t !in s
    ensures ThroughFirst(s, t) == s
  {
    if s != [] {
      ThroughFirstAbsent(s[1..], t);
    }
  }

  /** The result is a prefix of s, is empty only for empty s, and holds t at most as its last element. */
  lemma {:induction false} ThroughFirstShape<T>(s: seq<T>, t: T)
    ensures |ThroughFirst(s, t)| <= |s| && ThroughFirst(s, t) == s[..|ThroughFirst(s, t)|]
    ensures ThroughFirst(s, t) == [] <==> s == []
    ensures forall j :: 0 <= j < |ThroughFirst(s, t)| - 1 ==> ThroughFirst(s, t)[j] != t
  {
    if s != [] && s[0] != t {
      ThroughFirstShape(s[1..], t);
    }
  }

  /** One emitted element keeps the cursor's bookkeeping: consumed == emitted, and emitted + pending is the cut. */
  lemma EmitStep<T>(emitted: seq<T>, rest: seq<T>, t: T, input: seq<T>)
    requires rest != [] && input == emitted + rest
    requires emitted + ThroughFirst(rest, t) == ThroughFirst(input, t)
    ensures input == (emitted + [rest[0]]) + rest[1..]
    ensures (emitted + [rest[0]]) + (if rest[0] == t then [] else ThroughFirst(rest[1..], t)) == ThroughFirst(input, t)
  {
    assert rest == [rest[0]] + rest[1..];
  }

  class InclusiveTerminalIterator<T(==,0)> {
    const upstream: Cursor<T>
    const terminal: T
    var previous: T
    var hasPrevious: bool
    ghost const input: seq<T>
    ghost var output: seq<T>

    /** What is still to come: nothing once the terminal was emitted, else the same cut of the upstream's rest. */
    ghost function Pending(): seq<T>
      reads this, upstream
    {
      if hasPrevious && previous == terminal then [] else ThroughFirst(upstream.remaining, terminal)
    }

    /** No lookahead: consumed equals emitted, and previous is the last emitted element. */
    ghost predicate Valid()
      reads this, upstream
    {
      input == output + upstream.remaining &&
      (hasPrevious <==> output != []) &&
      (hasPrevious ==> previous == output[|output| - 1]) &&
      output + Pending() == ThroughFirst(input, terminal)
    }

    constructor (upstream: Cursor<T>, terminal: T)
      ensures Valid() && !hasPrevious
      ensures this.upstream == upstream && this.terminal == terminal
      ensures input == upstream.remaining && output == []
    {
      this.upstream := upstream;
      this.terminal := terminal;
      hasPrevious := false;
      input := upstream.remaining;
      output := [];
    }

    /** hasNext: the upstream has more and the last emitted element is not the terminal. It consumes nothing. */
    method HasNext() returns (b: bool)
      requires Valid()
      ensures b <==> |output| < |ThroughFirst(input, terminal)|
      ensures !b ==> output == ThroughFirst(input, terminal)
      ensures hasPrevious && previous == terminal ==> !b
    {
      var more := upstream.HasNext();
      b := more && !(hasPrevious && previous == terminal);
    }

    /** nextChar: emits the next upstream element and remembers it in previous; fails when hasNext is false. */
    method Next() returns (r: Result<T>)
      requires Valid()
      modifies this, upstream
      ensures Valid()
      ensures old(|output|) < |ThroughFirst(input, terminal)| ==>
                r == Ok(ThroughFirst(input, terminal)[old(|output|)]) && output == old(output) + [r.value]
      ensures old(|output|) >= |ThroughFirst(input, terminal)| ==>
                r == Err(NoSuchElement) && output == old(output) && upstream.remaining == old(upstream.remaining)
    {
      var more := HasNext();
      if !more {
        r := Err(NoSuchElement);
        return;
      }
      ghost var before := upstream.remaining;
      EmitStep(output, before, terminal, input);
      r := upstream.Next();
      hasPrevious := true;
      previous := r.value;
      output := output + [r.value];
    }
  }
}
