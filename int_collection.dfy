/**
 * IntCollection: the defaults every int collection inherits. toString renders the elements between
 * brackets; addAllInts adds through addInt, which a collection without its own addInt refuses.
 */
module IntCollections {
  import opened Wrappers
  import opened Cursors
  import opened Seqs

  /** An argument of type Object: a boxed Integer, or anything else (null included). */
  datatype Boxed = AnInteger(value: int) | NotAnInteger

  /**
   * What addInt does in a concrete collection: the inherited default refuses; a list appends; a set
   * appends only what it does not already hold.
   */
  datatype AddBehaviour = Refuses | Appends | AppendsAbsent

  /** The digit character for d. */
  function DigitChar(d: nat): (c: char)
    requires d < 10
    ensures '0' <= c <= '9'
  {
    ('0' as int + d) as char
  }

  /** Whether s is a string of decimal digits. */
  predicate AllDigits(s: string)
  {
    forall i :: 0 <= i < |s| ==> '0' <= s[i] <= '9'
  }

  /** The value of a string of decimal digits. */
  function ParseDigits(s: string): nat
    requires AllDigits(s)
  {
    if s == [] then 0 else ParseDigits(s[..|s| - 1]) * 10 + (s[|s| - 1] as int - '0' as int)
  }

  /** The value of an optional minus sign followed by decimal digits; 0 for anything else. */
  function ParseDecimal(s: string): int
  {
    if s != [] && s[0] == '-' && AllDigits(s[1..]) then -(ParseDigits(s[1..]) as int)
    else if AllDigits(s) then ParseDigits(s)
    else 0
  }

  /** Integer.toString(x): a minus sign for negatives, then the digits of |x| without leading zeros. */
  function Decimal(x: int): (s: string)
    ensures s != []
    decreases if x < 0 then 1 - x else x
  {
    if x < 0 then "-" + Decimal(-x)
    else if x < 10 then [DigitChar(x)]
    else Decimal(x / 10) + [DigitChar(x % 10)]
  }

  /**
   * A natural number renders as digits only, with no leading zero unless it is 0, and reads back as itself.
   */
  lemma {:induction false} NaturalRoundTrip(n: nat)
    ensures AllDigits(Decimal(n)) && ParseDigits(Decimal(n)) == n
    ensures Decimal(n)[0] == '0' ==> n == 0
  {
    var s := Decimal(n);
    if n >= 10 {
      NaturalRoundTrip(n / 10);
      assert s == Decimal(n / 10) + [DigitChar(n % 10)];
      assert s[..|s| - 1] == Decimal(n / 10);
    }
  }

  /** Reading a decimal back gives the number: the rendering loses nothing. */
  lemma DecimalRoundTrip(x: int)
    ensures ParseDecimal(Decimal(x)) == x
  {
    var s := Decimal(x);
    if x < 0 {
      assert s[1..] == Decimal(-x);
      NaturalRoundTrip(-x);
    } else {
      NaturalRoundTrip(x);
    }
  }

  /** A decimal holds neither of the characters toString puts between elements. */
  lemma DecimalHasNoSeparator(x: int)
    ensures ',' !in Decimal(x) && ' ' !in Decimal(x)
  {
    var s := Decimal(x);
    if x < 0 {
      NaturalRoundTrip(-x);
      assert s == "-" + Decimal(-x);
    } else {
      NaturalRoundTrip(x);
    }
  }

  /** The texts in parts with ", " between consecutive ones. */
  function Joined(parts: seq<string>): string
  {
    if parts == [] then ""
    else if |parts| == 1 then parts[0]
    else Joined(parts[..|parts| - 1]) + ", " + parts[|parts| - 1]
  }

  /** The decimal text of every element, in order. */
  function Decimals(xs: seq<int>): (texts: seq<string>)
    ensures |texts| == |xs|
  {
    if xs == [] then [] else Decimals(xs[..|xs| - 1]) + [Decimal(xs[|xs| - 1])]
  }

  /** One more element adds its decimal text at the end. */
  lemma DecimalsSnoc(xs: seq<int>, x: int)
    ensures Decimals(xs + [x]) == Decimals(xs) + [Decimal(x)]
  {
    assert (xs + [x])[..|xs|] == xs;
  }

  /** The decimals of xs with ", " between consecutive ones: what toString puts between the brackets. */
  function Listed(xs: seq<int>): string
  {
    Joined(Decimals(xs))
  }

  /** The rendering toString produces: the listed elements between brackets. */
  function Rendered(elements: seq<int>): string
  {
    "[" + Listed(elements) + "]"
  }

  /** The rendering brackets the elements; it is "[]" exactly for no elements, and one element shows alone. */
  lemma RenderedShape(elements: seq<int>)
    ensures Rendered(elements)[0] == '[' && Rendered(elements)[|Rendered(elements)| - 1] == ']'
    ensures Rendered(elements) == "[]" <==> elements == []
    ensures |elements| == 1 ==> Rendered(elements) == "[" + Decimal(elements[0]) + "]"
  {
    if elements != [] {
      assert Listed(elements) != [];
      assert |Rendered(elements)| > 2;
    }
  }

  /**
   * The body of toString's loop: ", " before every text but the first, then the element's text.
   * With the text so far joining `parts` after the opening bracket, the result joins `parts + [text]`.
   */
  method AppendElement(builder: string, started: bool, ghost parts: seq<string>, text: string)
    returns (appended: string, nowStarted: bool)
    requires started <==> parts != []
    requires builder == "[" + Joined(parts)
    ensures appended == "[" + Joined(parts + [text]) && nowStarted
  {
    appended, nowStarted := builder, started;
    if nowStarted {
      appended := appended + ", ";
    } else {
      nowStarted := true;
    }
    appended := appended + text;
    assert (parts + [text])[..|parts|] == parts;
  }

  /** The elements after addInt(x), by behaviour (unchanged when it refuses). */
  function Added(behaviour: AddBehaviour, s: seq<int>, x: int): seq<int>
  {
    match behaviour
    case Refuses => s
    case Appends => s + [x]
    case AppendsAbsent => if x in s then s else s + [x]
  }

  /** The elements after adding all of xs one by one, in order. */
  function AddedAll(behaviour: AddBehaviour, s: seq<int>, xs: seq<int>): seq<int>
  {
    FoldLeft((t: seq<int>, x: int) => Added(behaviour, t, x), s, xs)
  }

  /** Adding one more element after xs: the step the adding loops take. */
  lemma AddedAllSnoc(behaviour: AddBehaviour, s: seq<int>, xs: seq<int>, x: int)
    ensures AddedAll(behaviour, s, xs + [x]) == Added(behaviour, AddedAll(behaviour, s, xs), x)
  {
    FoldLeftSnoc((t: seq<int>, y: int) => Added(behaviour, t, y), s, xs, x);
  }

  /** A list ends with xs appended; a set ends holding exactly the old elements and those of xs. */
  lemma {:induction false} AddedAllContents(behaviour: AddBehaviour, s: seq<int>, xs: seq<int>)
    ensures behaviour == Appends ==> AddedAll(behaviour, s, xs) == s + xs
    ensures behaviour == AppendsAbsent ==>
              forall y :: y in AddedAll(behaviour, s, xs) <==> y in s || y in xs
    ensures behaviour != Refuses ==> IsPrefix(s, AddedAll(behaviour, s, xs))
    decreases |xs|
  {
    if xs != [] {
      AddedAllContents(behaviour, Added(behaviour, s, xs[0]), xs[1..]);
      assert xs == [xs[0]] + xs[1..];
      if behaviour == Appends {
        assert s + [xs[0]] + xs[1..] == s + xs;
      }
    }
  }

  /** Adding elements a set already holds leaves it as it is. */
  lemma {:induction false} AddedAllPresent(s: seq<int>, xs: seq<int>)
    requires forall x :: x in xs ==> x in s
    ensures AddedAll(AppendsAbsent, s, xs) == s
    decreases |xs|
  {
    if xs != [] {
      assert xs[0] in xs;
      assert Added(AppendsAbsent, s, xs[0]) == s;
      forall x | x in xs[1..]
        ensures x in s
      {
        assert x in xs;
      }
      AddedAllPresent(s, xs[1..]);
    }
  }

  class IntCollection {
    var elements: seq<int>
    const behaviour: AddBehaviour

    constructor (elements: seq<int>, behaviour: AddBehaviour)
      ensures this.elements == elements && this.behaviour == behaviour
    {
      this.elements := elements;
      this.behaviour := behaviour;
    }

    /** isEmpty(): size() == 0. */
    function IsEmpty(): (b: bool)
      reads this
      ensures b <==> elements == []
    {
      |elements| == 0
    }

    /** iterator(): a fresh cursor over the elements. */
    method Iterator() returns (it: Cursor<int>)
      ensures fresh(it) && it.remaining == elements
    {
      it := new Cursor(elements);
    }

    /** toString(xs): the decimals of the elements, ", " between consecutive ones, in brackets. */
    method ToString() returns (s: string)
      ensures s == Rendered(elements)
    {
      var builder := "[";
      var started := false;
      var it := Iterator();
      ghost var consumed: seq<int> := [];
      ghost var parts: seq<string> := [];
      var more := it.HasNext();
      while more
        invariant consumed + it.remaining == elements
        invariant started <==> consumed != []
        invariant parts == Decimals(consumed)
        invariant builder == "[" + Joined(parts)
        invariant more <==> it.remaining != []
        decreases |it.remaining|
      {
        ghost var rest := it.remaining;
        var x := it.Next();
        assert rest == [x.value] + it.remaining;
        var text := Decimal(x.value);
        builder, started := AppendElement(builder, started, parts, text);
        DecimalsSnoc(consumed, x.value);
        consumed := consumed + [x.value];
        parts := parts + [text];
        more := it.HasNext();
      }
      assert consumed == elements;
      s := builder + "]";
    }

    /** addInt(x): refused by default; otherwise true exactly when the collection changed. */
    method AddInt(x: int) returns (r: Result<bool>)
      modifies this
      ensures behaviour == Refuses ==> r == Err(UnsupportedOperation) && elements == old(elements)
      ensures behaviour != Refuses ==>
                elements == Added(behaviour, old(elements), x) && r == Ok(elements != old(elements))
    {
      match behaviour
      case Refuses =>
        r := Err(UnsupportedOperation);
      case Appends =>
        elements := elements + [x];
        r := Ok(true);
      case AppendsAbsent =>
        if x in elements {
          r := Ok(false);
        } else {
          elements := elements + [x];
          r := Ok(true);
        }
    }

    /**
     * addAllInts(int...): addInt on every element in order, true exactly when some call reported a change,
     * which is exactly when the collection changed. With a refusing addInt the first call throws.
     */
    method AddAllInts(xs: seq<int>) returns (r: Result<bool>)
      modifies this
      ensures behaviour == Refuses ==> elements == old(elements)
      ensures behaviour == Refuses ==> r == if xs == [] then Ok(false) else Err(UnsupportedOperation)
      ensures behaviour != Refuses ==>
                elements == AddedAll(behaviour, old(elements), xs) && r == Ok(elements != old(elements))
    {
      var changed := false;
      for i := 0 to |xs|
        invariant behaviour == Refuses ==> elements == old(elements) && i == 0
        invariant behaviour != Refuses ==> elements == AddedAll(behaviour, old(elements), xs[..i])
        invariant behaviour != Refuses ==> IsPrefix(old(elements), elements)
        invariant changed <==> elements != old(elements)
      {
        var step := AddInt(xs[i]);
        if step.Err? {
          return Err(step.error);
        }
        AddedAllSnoc(behaviour, old(elements), xs[..i], xs[i]);
        assert xs[..i + 1] == xs[..i] + [xs[i]];
        changed := changed || step.value;
      }
      assert xs[..|xs|] == xs;
      r := Ok(changed);
    }

    /**
     * addAllInts(IntCollection), as written: false for an empty argument; otherwise addInt on each of its
     * elements in order (forEachInt, the loop of addAllInts(int...) with its result dropped) and true, even
     * when no call changed anything. A collection may be given itself unless its
     * addInt appends, which would change it while it is being iterated.
     */
    method AddAllIntsFrom(other: IntCollection) returns (r: Result<bool>)
      requires other == this ==> behaviour != Appends
      modifies this
      ensures behaviour == Refuses ==> elements == old(elements)
      ensures behaviour == Refuses ==> r == if old(other.elements) == [] then Ok(false) else Err(UnsupportedOperation)
      ensures behaviour != Refuses ==>
                elements == AddedAll(behaviour, old(elements), old(other.elements)) && r == Ok(old(other.elements) != [])
    {
      if other.IsEmpty() {
        return Ok(false);
      }
      var xs := other.elements;
      var added := AddAllInts(xs);
      if added.Err? {
        return Err(added.error);
      }
      r := Ok(true);
    }

    /**
     * addAllInts(IntCollection), corrected: reports whether some addInt call changed the collection, as the
     * int... overload and java.util.Collection.addAll do.
     */
    method AddAllIntsFromChecked(other: IntCollection) returns (r: Result<bool>)
      requires other == this ==> behaviour != Appends
      modifies this
      ensures behaviour == Refuses ==> elements == old(elements)
      ensures behaviour == Refuses ==> r == if old(other.elements) == [] then Ok(false) else Err(UnsupportedOperation)
      ensures behaviour != Refuses ==>
                elements == AddedAll(behaviour, old(elements), old(other.elements)) && r == Ok(elements != old(elements))
    {
      if other.IsEmpty() {
        return Ok(false);
      }
      var xs := other.elements;
      r := AddAllInts(xs);
    }

    /** contains(o): false for anything but an Integer, else whether the int is held. */
    function Contains(o: Boxed): (b: bool)
      reads this
      ensures b <==> o.AnInteger? && o.value in elements
    {
      o.AnInteger? && o.value in elements
    }

    /** removeInt(x): removes the first occurrence of x; true exactly when there was one. */
    method RemoveInt(x: int) returns (b: bool)
      modifies this
      ensures b <==> x in old(elements)
      ensures b ==> exists i :: 0 <= i < |old(elements)| && old(elements)[i] == x && x !in old(elements)[..i] &&
                                elements == old(elements)[..i] + old(elements)[i + 1..]
      ensures !b ==> elements == old(elements)
    {
      var i := 0;
      while i < |elements|
        invariant 0 <= i <= |elements| && x !in elements[..i]
      {
        if elements[i] == x {
          elements := elements[..i] + elements[i + 1..];
          return true;
        }
        assert elements[..i + 1] == elements[..i] + [elements[i]];
        i := i + 1;
      }
      assert elements[..i] == elements;
      b := false;
    }

    /** remove(o): false and no change for anything but an Integer, else removeInt. */
    method Remove(o: Boxed) returns (b: bool)
      modifies this
      ensures o.NotAnInteger? ==> !b && elements == old(elements)
      ensures o.AnInteger? ==> (b <==> o.value in old(elements))
      ensures !b ==> elements == old(elements)
      ensures b ==> exists i :: 0 <= i < |old(elements)| && old(elements)[i] == o.value && o.value !in old(elements)[..i] &&
                                elements == old(elements)[..i] + old(elements)[i + 1..]
    {
      if o.NotAnInteger? {
        return false;
      }
      b := RemoveInt(o.value);
    }
  }

  /** A set already holding 1 gets addAllInts of a collection holding 1: nothing changes, yet true comes back. */
  method AddAllIntsFromReportsNoChange() returns (r: Result<bool>, before: seq<int>, after: seq<int>)
    ensures r == Ok(true) && before == after == [1]
  {
    var target := new IntCollection([1], AppendsAbsent);
    var other := new IntCollection([1], Appends);
    before := target.elements;
    r := target.AddAllIntsFrom(other);
    after := target.elements;
  }

  /** The corrected method reports false for the same call. */
  method AddAllIntsFromCheckedReportsNoChange() returns (r: Result<bool>, after: seq<int>)
    ensures r == Ok(false) && after == [1]
  {
    var target := new IntCollection([1], AppendsAbsent);
    var other := new IntCollection([1], Appends);
    r := target.AddAllIntsFromChecked(other);
    after := target.elements;
  }

  /** A set adding itself: nothing changes, yet the as-written overload reports a change and the corrected one does not. */
  method AddAllIntsFromSelfReportsNoChange() returns (asWritten: Result<bool>, corrected: Result<bool>, after: seq<int>)
    ensures asWritten == Ok(true) && corrected == Ok(false) && after == [1, 2]
  {
    var target := new IntCollection([1, 2], AppendsAbsent);
    AddedAllPresent([1, 2], [1, 2]);
    asWritten := target.AddAllIntsFrom(target);
    corrected := target.AddAllIntsFromChecked(target);
    after := target.elements;
  }
}
