# Lazy sequence cursors and primitive collections, modelled in Dafny

This project models the core of the `org.d2ab` sequence library. That library is built from lazy,
single-pass cursors (Java iterators) that wrap one another, together with a handful of
primitive-specialised collections.

- **The cursors.**
  - `LimitingCharIterator`, `SkippingIntIterator`, `SteppingIterator`, `InclusiveTerminalCharIterator`,
    `IndexedFilteringDoubleIterator` and `ChainingIntIterator` transform the elements of an upstream cursor.
  - `PredicatePartitioningDoubleIterator` and `PredicatePartitioningCharIterator` group the upstream into batches.
  - `Iterators.skip`/`skipOne` advance a cursor.
- **The `DoubleSequence` facade.** It covers the terminal operations first, second, third, last, both reduce
  forms, all, any, none, toArray and reverse, plus the `recurse` generator and the one-shot behaviour of a
  sequence built from a single cursor.
- **The collections.**
  - The `CharList` defaults and its `SubList`.
  - `Maps`: Builder, EntryImpl, EntryIterator and put.
  - The `IntCollection` and `IntSet` defaults.
  - The `FilteredList` view.
  - `ChainingIntIterable`.
  - The `IntBiPredicate` combinators.

**How the cursors are modelled.**
- An upstream cursor is the class `Cursors.Cursor`. Its one field, `remaining`, holds the elements it has
  not yet handed out.
- Each combinator is a class that keeps the source's fields: counters, the held lookahead element and its
  flag, the one-time skip flag, the growable buffer.
- It also records two ghost values: `input`, the upstream's elements when it was built, and `output`,
  what it has emitted so far. Its `Valid()` invariant says that `output`, followed by what is still
  pending, is a pure specification function of `input`. Those functions are `Take`, `Drop`, `Stride`,
  `ThroughFirst`, `FilterIndexed`, `Chain` and `Runs`.
- `HasNext` is proved to answer exactly whether the specification has more elements. `Next` is proved to
  return the next element of the specification, or `NoSuchElementException` past its end. The
  specification functions themselves carry lemmas: positions, membership, concatenation and shape.

**Other conventions.**
- Java exceptions become the `Wrappers.Error` values inside a `Result` or `Outcome`.
- Java `int` hash arithmetic wraps explicitly to 32 bits through `Seqs.WrapInt32`.
- Element types that the source fixes to `double`, `char` or `int`, and uses only through equality and
  the user's functions, are generic.

## Model

| member | source | states |
|---|---|---|
| Iterators.Skip | src/main/java/org/d2ab/iterator/Iterators.java:28-32 | the cursor loses exactly its first `steps` elements, all of them when fewer remain, none when `steps <= 0` |
| Iterators.SkipOne | src/main/java/org/d2ab/iterator/Iterators.java:24-26 | the cursor loses its first element if it has one; an empty cursor stays empty |
| Limiting.LimitingIterator.constructor | src/main/java/org/d2ab/primitive/chars/LimitingCharIterator.java:25-28 | count starts at 0 and nothing is consumed |
| Limiting.LimitingIterator.HasNext | src/main/java/org/d2ab/primitive/chars/LimitingCharIterator.java:39-42 | true exactly while fewer than min(limit, upstream length) elements were emitted; false whenever count has reached the limit |
| Limiting.LimitingIterator.Next | src/main/java/org/d2ab/primitive/chars/LimitingCharIterator.java:30-37 | returns the next of the first `limit` upstream elements and bumps count; otherwise NoSuchElementException with nothing consumed |
| Skipping.SkippingIterator.constructor | src/main/java/org/d2ab/iterator/ints/SkippingIntIterator.java:26-28 | the skip is deferred: the upstream is untouched |
| Skipping.SkippingIterator.HasNext | src/main/java/org/d2ab/iterator/ints/SkippingIntIterator.java:38-46 | the first call drops the first `skip` upstream elements, later calls never move the upstream; the answer is whether elements of the skipped upstream remain |
| Skipping.SkippingIterator.Next | src/main/java/org/d2ab/iterator/ints/SkippingIntIterator.java:30-36 | returns the upstream's elements after the first `skip`, in order, then NoSuchElementException |
| Stepping.StrideLength | src/main/java/org/d2ab/iterator/SteppingIterator.java:41-55 | for step >= 1 the cursor emits an i-th element exactly when i * step is an upstream position |
| Stepping.StrideAt | src/main/java/org/d2ab/iterator/SteppingIterator.java:41-55 | for step >= 1 the i-th emitted element is upstream element i * step |
| Stepping.StrideOfSmallStep | src/main/java/org/d2ab/iterator/SteppingIterator.java:51 | with step <= 1 the skip of step - 1 does nothing and every element is emitted |
| Stepping.SteppingIterator.constructor | src/main/java/org/d2ab/iterator/SteppingIterator.java:26-28 | no element held, nothing consumed |
| Stepping.SteppingIterator.HasNext | src/main/java/org/d2ab/iterator/SteppingIterator.java:41-55 | with an element held it consumes nothing; otherwise it holds the upstream's next element and skips step - 1 more; true exactly while the stride has more |
| Stepping.SteppingIterator.Next | src/main/java/org/d2ab/iterator/SteppingIterator.java:30-39 | hands out the held element and clears the slot: the stride's elements in order, then NoSuchElementException |
| InclusiveTerminal.ThroughFirstAt | src/main/java/org/d2ab/primitive/chars/InclusiveTerminalCharIterator.java:42-44 | when the terminal first occurs at position i the cursor emits exactly the first i + 1 elements |
| InclusiveTerminal.ThroughFirstAbsent | src/main/java/org/d2ab/primitive/chars/InclusiveTerminalCharIterator.java:42-44 | without the terminal every upstream element is emitted |
| InclusiveTerminal.ThroughFirstShape | src/main/java/org/d2ab/primitive/chars/InclusiveTerminalCharIterator.java:42-44 | the output is a prefix of the upstream, empty only for an empty upstream, with the terminal at most as its last element |
| InclusiveTerminal.InclusiveTerminalIterator.constructor | src/main/java/org/d2ab/primitive/chars/InclusiveTerminalCharIterator.java:27-30 | no previous element, nothing consumed |
| InclusiveTerminal.InclusiveTerminalIterator.HasNext | src/main/java/org/d2ab/primitive/chars/InclusiveTerminalCharIterator.java:42-44 | true exactly while the cut through the first terminal has more; false once the previous element is the terminal |
| InclusiveTerminal.InclusiveTerminalIterator.Next | src/main/java/org/d2ab/primitive/chars/InclusiveTerminalCharIterator.java:32-39 | emits the next upstream element and remembers it as previous; NoSuchElementException without consuming after the terminal |
| IndexedFiltering.FilterIndexedAppend | src/main/java/org/d2ab/iterator/doubles/IndexedFilteringDoubleIterator.java:51-56 | elements after a prefix are tested with positions offset by the prefix length, so rejected elements count too |
| IndexedFiltering.FilterIndexedMembers | src/main/java/org/d2ab/iterator/doubles/IndexedFilteringDoubleIterator.java:46-60 | x is emitted exactly when it sits at some upstream position i with predicate(x, i) |
| IndexedFiltering.FilterIndexedWitness | src/main/java/org/d2ab/iterator/doubles/IndexedFilteringDoubleIterator.java:51-56 | every emitted element sits at a position where the predicate accepted it |
| IndexedFiltering.FilterIndexedRejects | src/main/java/org/d2ab/iterator/doubles/IndexedFilteringDoubleIterator.java:51-56 | an element that is never emitted was rejected at every position where it sits |
| IndexedFiltering.IndexedFilteringIterator.constructor | src/main/java/org/d2ab/iterator/doubles/IndexedFilteringDoubleIterator.java:30-33 | index 0, no cached match |
| IndexedFiltering.IndexedFilteringIterator.HasNext | src/main/java/org/d2ab/iterator/doubles/IndexedFilteringDoubleIterator.java:45-60 | a cached match answers true without consuming anything; otherwise the upstream stops right after the next match, which is cached with every element skipped on the way rejected at its position; false exactly when no match remains, with the upstream drained |
| IndexedFiltering.IndexedFilteringIterator.Seek | src/main/java/org/d2ab/iterator/doubles/IndexedFilteringDoubleIterator.java:51-59 | the do/while: index ends just after the cached match, the output still owes exactly the remaining matches, or the upstream is drained and nothing is owed |
| IndexedFiltering.IndexedFilteringIterator.Scan | src/main/java/org/d2ab/iterator/doubles/IndexedFilteringDoubleIterator.java:51-56 | each pulled element is counted in index and tested at its own position; the loop stops at the first accepted one or at the end of the upstream, every skipped element rejected |
| IndexedFiltering.SkipRejected | src/main/java/org/d2ab/iterator/doubles/IndexedFilteringDoubleIterator.java:51-56 | elements rejected at their positions emit nothing, so the search may resume after them with the index advanced past them |
| IndexedFiltering.SeekExhausted | src/main/java/org/d2ab/iterator/doubles/IndexedFilteringDoubleIterator.java:52-54 | a search that rejects everything to the end leaves no matches to emit |
| IndexedFiltering.SeekFound | src/main/java/org/d2ab/iterator/doubles/IndexedFilteringDoubleIterator.java:55-59 | a search whose first accepted element is at position pos - 1 emits that element next, and then the matches after pos |
| IndexedFiltering.IndexedFilteringIterator.Next | src/main/java/org/d2ab/iterator/doubles/IndexedFilteringDoubleIterator.java:35-43 | hands out the cached match and clears it: the matches in order, then NoSuchElementException |
| Chaining.ChainCons | src/main/java/org/d2ab/iterator/ints/ChainingIntIterator.java:38-42 | the chain is the first source's elements followed by the chain of the rest |
| Chaining.ChainAppend | src/main/java/org/d2ab/iterator/ints/ChainingIntIterator.java:38-51 | chaining two lists of sources concatenates their chains |
| Chaining.ChainSkipsEmpty | src/main/java/org/d2ab/iterator/ints/ChainingIntIterator.java:39-42 | empty sources contribute nothing to the chain |
| Chaining.ChainingIterator.constructor | src/main/java/org/d2ab/iterator/ints/ChainingIntIterator.java:33-36 | starts from an empty current cursor with no source opened |
| Chaining.ChainingIterator.HasNext | src/main/java/org/d2ab/iterator/ints/ChainingIntIterator.java:38-43 | opens sources in order while the current one is exhausted; false only when the current is exhausted and no source remains; never opens a source while the current has elements |
| Chaining.ChainingIterator.Next | src/main/java/org/d2ab/iterator/ints/ChainingIntIterator.java:45-51 | yields the concatenation of all sources in order, then NoSuchElementException |
| ChainingIterables.ListHashCode | src/main/java/org/d2ab/collection/ints/ChainingIntIterable.java:47-50 | java.util.List.hashCode: the 31 * h + hash(e) fold from 1 in int arithmetic, a 32-bit int |
| ChainingIterables.StepwiseWrapsOnce | src/main/java/org/d2ab/collection/ints/ChainingIntIterable.java:47-50 | wrapping every step of the hash fold to 32 bits equals wrapping the unbounded fold once |
| ChainingIterables.ListHashCodeWrapsOnce | src/main/java/org/d2ab/collection/ints/ChainingIntIterable.java:47-50 | the list hash is the unbounded fold from 1 reduced to 32 bits |
| ChainingIterables.ChainingIterable.constructor | src/main/java/org/d2ab/collection/ints/ChainingIntIterable.java:33-35 | stores the sources in argument order |
| ChainingIterables.ChainingIterable.Append | src/main/java/org/d2ab/collection/ints/ChainingIntIterable.java:37-40 | adds the source at the end and returns the same object |
| ChainingIterables.ChainingIterable.Iterator | src/main/java/org/d2ab/collection/ints/ChainingIntIterable.java:42-45 | a fresh cursor whose elements are the chain of the sources stored now |
| ChainingIterables.ChainingIterable.HashCode | src/main/java/org/d2ab/collection/ints/ChainingIntIterable.java:47-50 | a 32-bit int: the list's hash |
| ChainingIterables.ChainingIterable.Equals | src/main/java/org/d2ab/collection/ints/ChainingIntIterable.java:52-62 | true for the same object; false for null or another class; whenever it holds, both hold equal lists of sources |
| ChainingIterables.EqualsHashCode | src/main/java/org/d2ab/collection/ints/ChainingIntIterable.java:47-62 | equal iterables hash alike |
| ChainingIterables.AppendExtendsChain | src/main/java/org/d2ab/collection/ints/ChainingIntIterable.java:37-45 | after append, a new iterator yields the old chain followed by the appended source's elements |
| Partitioning.RunsFromFlatten | src/main/java/org/d2ab/iterator/doubles/PredicatePartitioningDoubleIterator.java:51-72 | concatenating the batches built from a started batch and the rest gives back both |
| Partitioning.RunsFromWellCut | src/main/java/org/d2ab/iterator/doubles/PredicatePartitioningDoubleIterator.java:56-69 | batches are non-empty, hold no adjacent pair satisfying the predicate, and consecutive batches meet at a pair that satisfies it |
| Partitioning.RunsShape | src/main/java/org/d2ab/iterator/doubles/PredicatePartitioningDoubleIterator.java:42-72 | the batches of the upstream concatenate back to it exactly and are cut only at split points |
| Partitioning.PartitioningIterator.constructor | src/main/java/org/d2ab/iterator/doubles/PredicatePartitioningDoubleIterator.java:37-40 | nothing held, nothing consumed |
| Partitioning.PartitioningIterator.HasNext | src/main/java/org/d2ab/iterator/doubles/PredicatePartitioningDoubleIterator.java:42-49 | pulls at most one element into the held slot, none when one is held; true exactly while batches remain |
| Partitioning.PartitioningIterator.Next | src/main/java/org/d2ab/iterator/doubles/PredicatePartitioningDoubleIterator.java:51-72 | returns the next batch of the upstream, the held element as its head; NoSuchElementException when none remains |
| Partitioning.PartitioningIterator.Remove | src/main/java/org/d2ab/iterator/doubles/PredicatePartitioningDoubleIterator.java:74-77 | always UnsupportedOperationException |
| ArrayCopy.CopyOf | src/main/java/org/d2ab/iterator/chars/PredicatePartitioningCharIterator.java:57-58 | a fresh array of the requested length holding the old array's prefix |
| CharPartitioning.Store | src/main/java/org/d2ab/iterator/chars/PredicatePartitioningCharIterator.java:57-59 | doubles the buffer only when size equals its length, then writes the element at position size |
| CharPartitioning.CharPartitioningIterator.constructor | src/main/java/org/d2ab/iterator/chars/PredicatePartitioningCharIterator.java:35-38 | nothing held, nothing consumed |
| CharPartitioning.CharPartitioningIterator.HasNext | src/main/java/org/d2ab/iterator/chars/PredicatePartitioningCharIterator.java:40-47 | holds at most one lookahead element and pulls none when one is held; true exactly while batches remain |
| CharPartitioning.CharPartitioningIterator.Gather | src/main/java/org/d2ab/iterator/chars/PredicatePartitioningCharIterator.java:54-69 | the buffer starts at 3 and only doubles when full (length 3 * 2^k, under twice the size once grown); its first size elements are the next batch |
| CharPartitioning.CharPartitioningIterator.Next | src/main/java/org/d2ab/iterator/chars/PredicatePartitioningCharIterator.java:49-73 | returns a fresh array of exactly the next batch's elements; NoSuchElementException when none remains |
| DoubleSequences.ReversedAt | src/main/java/org/d2ab/sequence/DoubleSequence.java:504-510 | the reversal holds original[n - 1 - i] at position i |
| DoubleSequences.ReversedTwice | src/main/java/org/d2ab/sequence/DoubleSequence.java:504-510 | reversing twice gives the original back |
| DoubleSequences.PulledStopsAtFirst | src/main/java/org/d2ab/sequence/DoubleSequence.java:431-449 | a stop-at-first loop consumes exactly through the first element satisfying the test, and finds one exactly when one exists |
| DoubleSequences.IterateShift | src/main/java/org/d2ab/sequence/DoubleSequence.java:176-188 | applying op to the k-th generated value gives the (k + 1)-th |
| DoubleSequences.ReduceFrom | src/main/java/org/d2ab/sequence/DoubleSequence.java:353-358 | the left fold of the cursor's elements from identity; the cursor is drained |
| DoubleSequences.ReverseInPlace | src/main/java/org/d2ab/sequence/DoubleSequence.java:506-508 | the swap loop leaves the array reversed |
| DoubleSequences.Sequence.Of | src/main/java/org/d2ab/sequence/DoubleSequence.java:80-82 | a sequence over the given elements |
| DoubleSequences.Sequence.From | src/main/java/org/d2ab/sequence/DoubleSequence.java:66-68 | a sequence that hands out the given cursor |
| DoubleSequences.Sequence.Iterator | src/main/java/org/d2ab/sequence/DoubleSequence.java:66-82 | a fresh cursor over the elements, or the shared cursor itself |
| DoubleSequences.Sequence.First | src/main/java/org/d2ab/sequence/DoubleSequence.java:360-366 | the element at index 0, or empty for an empty traversal |
| DoubleSequences.Sequence.Second | src/main/java/org/d2ab/sequence/DoubleSequence.java:368-376 | the element at index 1, or empty when there are fewer than two |
| DoubleSequences.Sequence.Third | src/main/java/org/d2ab/sequence/DoubleSequence.java:378-387 | the element at index 2, or empty when there are fewer than three |
| DoubleSequences.Sequence.Last | src/main/java/org/d2ab/sequence/DoubleSequence.java:389-400 | the final element, or empty for an empty traversal |
| DoubleSequences.Sequence.Reduce | src/main/java/org/d2ab/sequence/DoubleSequence.java:349-351 | the left fold of the traversal from identity |
| DoubleSequences.Sequence.ReduceFirst | src/main/java/org/d2ab/sequence/DoubleSequence.java:410-417 | empty for an empty traversal, else the left fold of the rest seeded with the first element |
| DoubleSequences.Sequence.AllMatch | src/main/java/org/d2ab/sequence/DoubleSequence.java:431-437 | true exactly when every element passes; a shared cursor is consumed through the first failure |
| DoubleSequences.Sequence.AnyMatch | src/main/java/org/d2ab/sequence/DoubleSequence.java:443-449 | true exactly when some element passes; a shared cursor is consumed through the first match |
| DoubleSequences.Sequence.NoneMatch | src/main/java/org/d2ab/sequence/DoubleSequence.java:439-441 | the negation of any: true exactly when no element passes |
| DoubleSequences.Sequence.ToArray | src/main/java/org/d2ab/sequence/DoubleSequence.java:468-490 | a fresh array holding exactly the traversed elements in order, the shared cursor drained; the work array's final length is `Grown(10, count)` |
| DoubleSequences.Fill | src/main/java/org/d2ab/sequence/DoubleSequence.java:469-481 | drains the cursor into a work array whose first `count` slots hold its elements in order and whose length is `Grown(10, count)` |
| DoubleSequences.GrowIfFull | src/main/java/org/d2ab/sequence/DoubleSequence.java:474-479 | a full work array is replaced by a copy half as long again, keeping the stored prefix; the length goes from `Grown(10, index)` to `Grown(10, index + 1)` and exceeds index |
| DoubleSequences.GrownStep | src/main/java/org/d2ab/sequence/DoubleSequence.java:474-476 | storing one more element grows the array by length / 2 exactly when it is full |
| DoubleSequences.GrownBounds | src/main/java/org/d2ab/sequence/DoubleSequence.java:469-481 | the work array holds every element, never shrinks below 10, and once grown is under one and a half times the count |
| DoubleSequences.Sequence.Reverse | src/main/java/org/d2ab/sequence/DoubleSequence.java:504-510 | a new sequence of the same length with original[n - 1 - i] at position i |
| DoubleSequences.TraverseTwice | src/main/java/org/d2ab/sequence/DoubleSequence.java:66-68 | a sequence built from one cursor yields everything once and nothing on the second traversal |
| DoubleSequences.TraverseTwiceOf | src/main/java/org/d2ab/sequence/DoubleSequence.java:80-82 | a sequence over elements yields all of them on every traversal |
| DoubleSequences.RecursingCursor.constructor | src/main/java/org/d2ab/sequence/DoubleSequence.java:176-180 | nothing generated yet |
| DoubleSequences.RecursingCursor.HasNext | src/main/java/org/d2ab/sequence/DoubleSequence.java:177 | always true: the generator never ends |
| DoubleSequences.RecursingCursor.Next | src/main/java/org/d2ab/sequence/DoubleSequence.java:181-186 | the k-th pull returns op applied k times to the seed, so the first returns the seed |
| CharLists.CharList.constructor | src/main/java/org/d2ab/collection/chars/CharList.java:58-60 | a list holding the given chars |
| CharLists.CharList.ListIterator | src/main/java/org/d2ab/collection/chars/CharList.java:305-308 | IndexOutOfBoundsException outside 0..size, otherwise a cursor at index that cannot yet modify |
| CharLists.CharList.AddChar | src/main/java/org/d2ab/collection/chars/CharList.java:179-183 | appends the char and returns true |
| CharLists.CharList.AddAllChars | src/main/java/org/d2ab/collection/chars/CharList.java:185-195 | true exactly when xs is non-empty; the list becomes old + xs |
| CharLists.CharList.AddAllCharsAt | src/main/java/org/d2ab/collection/chars/CharList.java:117-126 | false with no change (and no bounds check) for empty xs; out of bounds fails; otherwise xs is inserted in order at index |
| CharLists.CharList.ReplaceAllChars | src/main/java/org/d2ab/collection/chars/CharList.java:143-147 | every element is replaced by op applied to it, length unchanged |
| CharLists.CharList.GetChar | src/main/java/org/d2ab/collection/chars/CharList.java:233-235 | the element at index; NoSuchElementException at index == size; IndexOutOfBoundsException outside 0..size |
| CharLists.CharList.SetChar | src/main/java/org/d2ab/collection/chars/CharList.java:242-247 | returns the old element and replaces only that position; errors as for getChar with the list unchanged |
| CharLists.CharList.RemoveCharAt | src/main/java/org/d2ab/collection/chars/CharList.java:263-268 | returns the element and removes exactly that position; errors as for getChar with the list unchanged |
| CharLists.CharList.IndexOfChar | src/main/java/org/d2ab/collection/chars/CharList.java:291-298 | the smallest index holding x, or -1 exactly when x is absent |
| CharLists.CharList.LastIndexOfChar | src/main/java/org/d2ab/collection/chars/CharList.java:275-284 | the largest index holding x, or -1 exactly when x is absent |
| CharLists.Copy | src/main/java/org/d2ab/collection/chars/CharList.java:65-70 | a fresh list holding exactly the cursor's elements; the cursor is drained |
| CharLists.ListCursor.constructor | src/main/java/org/d2ab/collection/chars/CharList.java:306-308 | a cursor positioned at index |
| CharLists.ListCursor.HasNext | src/main/java/org/d2ab/collection/chars/CharList.java:145 | true exactly while the position is before the end |
| CharLists.ListCursor.Next | src/main/java/org/d2ab/collection/chars/CharList.java:244 | returns the element at the position and advances, or NoSuchElementException at the end |
| CharLists.ListCursor.Set | src/main/java/org/d2ab/collection/chars/CharList.java:245 | replaces the element last returned; IllegalStateException when there is none |
| CharLists.ListCursor.Add | src/main/java/org/d2ab/collection/chars/CharList.java:122-123 | inserts before the position and advances past the insertion |
| CharLists.ListCursor.Remove | src/main/java/org/d2ab/collection/chars/CharList.java:266 | removes the element last returned; IllegalStateException when there is none |
| CharLists.SubListCheck | src/main/java/org/d2ab/collection/chars/CharList.java:321-325 | accepts exactly from >= 0 and to <= size, whatever their order |
| CharLists.SubListCheckAcceptsReversedBounds | src/main/java/org/d2ab/collection/chars/CharList.java:321-329 | bounds from 3, to 1 on a list of 5 are accepted, and the size to - from is negative |
| CharLists.SubListCheckNegativeSize | src/main/java/org/d2ab/collection/chars/CharList.java:346-348 | for accepted bounds the size is negative exactly when from > to |
| CharLists.CheckedSubListBounds | src/main/java/org/d2ab/collection/chars/CharList.java:321-329 | accepts exactly 0 <= from <= to <= size, with the source's exceptions for the other cases |
| CharLists.CheckedSubListBoundsRefines | src/main/java/org/d2ab/collection/chars/CharList.java:321-329 | the corrected check differs from the written one only on from > to |
| CharLists.NewSubList | src/main/java/org/d2ab/collection/chars/CharList.java:321-329 | a sub-list over [from, to) of the list when the corrected check passes, otherwise its error |
| CharLists.SubList.constructor | src/main/java/org/d2ab/collection/chars/CharList.java:321-329 | stores list, from and to |
| CharLists.SubList.Size | src/main/java/org/d2ab/collection/chars/CharList.java:346-348 | to - from is the number of elements the view holds, never negative |
| CharLists.SubList.Iterator | src/main/java/org/d2ab/collection/chars/CharList.java:331-344 | a fresh cursor over exactly the view's elements |
| CharLists.SubListCursor.constructor | src/main/java/org/d2ab/collection/chars/CharList.java:332 | a cursor over the view |
| CharLists.SubListCursor.HasNext | src/main/java/org/d2ab/collection/chars/CharList.java:332 | true exactly while view elements remain |
| CharLists.SubListCursor.Next | src/main/java/org/d2ab/collection/chars/CharList.java:333-336 | the view's elements in order, then NoSuchElementException |
| CharLists.SubListCursor.Remove | src/main/java/org/d2ab/collection/chars/CharList.java:338-342 | removes the element last returned from the backing list and decrements to; the rest of the traversal is unchanged |
| Maps.Builder.constructor | src/main/java/org/d2ab/collection/Maps.java:78-80 | no map yet |
| Maps.Builder.Put | src/main/java/org/d2ab/collection/Maps.java:82-87 | creates the map on first use, adds the pair and returns the same builder |
| Maps.Builder.Build | src/main/java/org/d2ab/collection/Maps.java:89-93 | returns the accumulated map, or a fresh empty one when nothing was put, and resets |
| Maps.BuildTwice | src/main/java/org/d2ab/collection/Maps.java:82-93 | after a build the next put starts a distinct map, so the two built maps have separate contents |
| Maps.PutEntry | src/main/java/org/d2ab/collection/Maps.java:61-64 | returns the same map with the entry's key bound to its value |
| Maps.EntryHash | src/main/java/org/d2ab/collection/Maps.java:105-110 | the entry hash is a 32-bit int |
| Maps.WrapStepwise | src/main/java/org/d2ab/collection/Maps.java:106-109 | wrapping after each step equals wrapping 31 * hash(key) + hash(value) once |
| Maps.EntryImpl.HashCode | src/main/java/org/d2ab/collection/Maps.java:105-110 | 31 * hash(key) + hash(value) in 32-bit wrapping arithmetic, with null hashing to 0 |
| Maps.EntryImpl.SetValue | src/main/java/org/d2ab/collection/Maps.java:138-141 | always UnsupportedOperationException |
| Maps.EntryImpl.Equals | src/main/java/org/d2ab/collection/Maps.java:112-121 | false for a non-entry; for an entry, true exactly when it has the same key and value (nulls equal to nulls) |
| Maps.EqualsIsEntryEquality | src/main/java/org/d2ab/collection/Maps.java:112-121 | equal exactly to entries with equal key and value (null-safe), to itself, and never to a non-entry |
| Maps.EqualsHashCode | src/main/java/org/d2ab/collection/Maps.java:105-121 | equal entries hash alike |
| Maps.NullEntryHash | src/main/java/org/d2ab/collection/Maps.java:106-109 | the null/null entry hashes to 0 |
| Maps.EntryIterator.constructor | src/main/java/org/d2ab/collection/Maps.java:153-155 | two elements to come: key, then value |
| Maps.EntryIterator.HasNext | src/main/java/org/d2ab/collection/Maps.java:157-160 | true exactly while elements remain |
| Maps.EntryIterator.Next | src/main/java/org/d2ab/collection/Maps.java:162-171 | the key, then the value, then NoSuchElementException |
| Maps.DrainEntry | src/main/java/org/d2ab/collection/Maps.java:149-171 | three pulls give the key, the value and NoSuchElementException |
| IntCollections.Decimal | src/main/java/org/d2ab/collection/ints/IntCollection.java:42 | an int's decimal text is never empty |
| IntCollections.NaturalRoundTrip | src/main/java/org/d2ab/collection/ints/IntCollection.java:42 | a natural number renders as digits only, without a leading zero unless it is 0, and parses back to itself |
| IntCollections.DecimalHasNoSeparator | src/main/java/org/d2ab/collection/ints/IntCollection.java:42 | an int's decimal text holds neither ',' nor ' ', so the separators in the rendering are unambiguous |
| IntCollections.DecimalRoundTrip | src/main/java/org/d2ab/collection/ints/IntCollection.java:42 | an int's decimal text parses back to it |
| IntCollections.RenderedShape | src/main/java/org/d2ab/collection/ints/IntCollection.java:32-47 | the text starts with '[' and ends with ']', is "[]" exactly for no elements, and "[x]" for one |
| IntCollections.AddedAllContents | src/main/java/org/d2ab/collection/ints/IntCollection.java:100-105 | adding all of xs one by one appends them (list) or yields the union (set), and keeps the old elements as a prefix |
| IntCollections.IntCollection.IsEmpty | src/main/java/org/d2ab/collection/ints/IntCollection.java:49-52 | true exactly when there are no elements |
| IntCollections.AppendElement | src/main/java/org/d2ab/collection/ints/IntCollection.java:37-42 | one loop step (", " unless it is the first element, then the element's text) extends the joined texts by that text |
| IntCollections.DecimalsSnoc | src/main/java/org/d2ab/collection/ints/IntCollection.java:42 | one more element adds exactly its decimal text to the list of texts |
| IntCollections.IntCollection.ToString | src/main/java/org/d2ab/collection/ints/IntCollection.java:32-47 | the rendered text: '[', the elements joined by ", ", ']' |
| IntCollections.IntCollection.AddInt | src/main/java/org/d2ab/collection/ints/IntCollection.java:81-83 | the default refuses with UnsupportedOperationException; collections that add report whether they changed |
| IntCollections.IntCollection.AddAllInts | src/main/java/org/d2ab/collection/ints/IntCollection.java:100-105 | calls addInt on each element in order and is true exactly when the collection changed |
| IntCollections.IntCollection.AddAllIntsFrom | src/main/java/org/d2ab/collection/ints/IntCollection.java:107-113 | as written: false for an empty argument, otherwise adds all and is true whether or not anything changed; a refusing or set-like collection may be given itself |
| IntCollections.IntCollection.AddAllIntsFromChecked | src/main/java/org/d2ab/collection/ints/IntCollection.java:107-113 | corrected: adds all and is true exactly when the collection changed, the argument possibly being the collection itself |
| IntCollections.IntCollection.Contains | src/main/java/org/d2ab/collection/ints/IntCollection.java:85-88 | false for a non-Integer, else membership |
| IntCollections.IntCollection.RemoveInt | src/main/java/org/d2ab/collection/ints/IntCollection.java:90-93 | removes the first occurrence and is true exactly when there was one |
| IntCollections.IntCollection.Remove | src/main/java/org/d2ab/collection/ints/IntCollection.java:90-93 | false with no change for a non-Integer; for an Integer, true exactly when it is held, and then its first occurrence is removed |
| IntCollections.AddAllIntsFromReportsNoChange | src/main/java/org/d2ab/collection/ints/IntCollection.java:107-113 | adding [1] to the set {1} returns true although the set is unchanged |
| IntCollections.AddAllIntsFromCheckedReportsNoChange | src/main/java/org/d2ab/collection/ints/IntCollection.java:107-113 | with the corrected result the same call returns false |
| IntCollections.AddedAllPresent | src/main/java/org/d2ab/collection/ints/IntCollection.java:107-113 | adding only elements a set already holds leaves it unchanged |
| IntCollections.AddAllIntsFromSelfReportsNoChange | src/main/java/org/d2ab/collection/ints/IntCollection.java:107-113 | the set {1, 2} adding itself stays unchanged, yet the as-written call returns true and the corrected one false |
| IntSets.IntSet.IsEmpty | src/main/java/org/d2ab/collection/ints/IntSet.java:35-38 | true exactly when the size is 0 |
| IntSets.IntSet.ContainsInt | src/main/java/org/d2ab/collection/ints/IntSet.java:50-53 | membership in the set's elements |
| IntSets.IntSet.Contains | src/main/java/org/d2ab/collection/ints/IntSet.java:50-53 | false for a non-Integer, else containsInt |
| IntSets.IntSet.AddInt | src/main/java/org/d2ab/collection/ints/IntSet.java:45-48 | true exactly when x was absent; the set gains x and keeps its elements distinct |
| IntSets.IntSet.RemoveInt | src/main/java/org/d2ab/collection/ints/IntSet.java:55-58 | true exactly when x was present; the set loses exactly x |
| IntSets.IntSet.Remove | src/main/java/org/d2ab/collection/ints/IntSet.java:55-58 | false with no change for a non-Integer, else removeInt |
| IntSets.IntSet.HashCode | src/main/java/org/d2ab/collection/ints/IntSet.java:152-157 | the 32-bit wrapping sum of the elements |
| IntSets.SumPermutation | src/main/java/org/d2ab/collection/ints/IntSet.java:152-157 | the sum does not depend on iteration order |
| IntSets.EqualSetsHashAlike | src/main/java/org/d2ab/collection/ints/IntSet.java:137-157 | sets with the same elements have the same hashCode |
| IntSets.IntSet.Equals | src/main/java/org/d2ab/collection/ints/IntSet.java:137-150 | true for the same set, false for a non-Set; an equal IntSet has as many ints, all held here; an equal Set of objects has as many, all Integers held here |
| IntSets.EqualsIsSetEquality | src/main/java/org/d2ab/collection/ints/IntSet.java:137-145 | equals against an IntSet holds exactly when both hold the same ints |
| IntSets.SubsetSameSize | src/main/java/org/d2ab/collection/ints/IntSet.java:143-145 | a contained set of the same size is equal |
| IntSets.EqualsObjectsAllIntegers | src/main/java/org/d2ab/collection/ints/IntSet.java:146-148 | a Set equal to an IntSet holds only Integers |
| IntSets.DelegatingIntSet.constructor | src/main/java/org/d2ab/collection/ints/IntSet.java:118-119 | wraps the given set |
| IntSets.DelegatingIntSet.Iterator | src/main/java/org/d2ab/collection/ints/IntSet.java:120-123 | the wrapped set's elements |
| IntSets.DelegatingIntSet.Size | src/main/java/org/d2ab/collection/ints/IntSet.java:125-128 | the wrapped set's size |
| IntSets.DelegatingIntSet.AddInt | src/main/java/org/d2ab/collection/ints/IntSet.java:130-133 | the wrapped set's addInt, with the same result and effect |
| IntSets.CharView.constructor | src/main/java/org/d2ab/collection/ints/IntSet.java:96-97 | a view over the given set |
| IntSets.CharView.Size | src/main/java/org/d2ab/collection/ints/IntSet.java:103-106 | the same size as the underlying set |
| FilteredLists.SkipCounting | src/main/java/org/d2ab/collection/FilteredList.java:51 | skips up to n elements and returns how many it skipped: min(max(n, 0), remaining) |
| FilteredLists.FilteredList.constructor | src/main/java/org/d2ab/collection/FilteredList.java:39-42 | stores the backing list and predicate without copying |
| FilteredLists.FilteredList.Iterator | src/main/java/org/d2ab/collection/FilteredList.java:49-50 | a fresh cursor over the backing elements that satisfy the predicate, in order |
| FilteredLists.FilteredList.ListIterator | src/main/java/org/d2ab/collection/FilteredList.java:48-54 | a cursor from the index-th match for 0 <= index <= size, else IndexOutOfBoundsException |
| FilteredLists.FilteredList.Size | src/main/java/org/d2ab/collection/FilteredList.java:56-59 | the number of elements the view yields, at most the backing list's size |
| FilteredLists.FilteredList.Add | src/main/java/org/d2ab/collection/FilteredList.java:61-64 | UnsupportedOperationException |
| FilteredLists.FilteredList.AddAll | src/main/java/org/d2ab/collection/FilteredList.java:66-69 | UnsupportedOperationException |
| FilteredLists.FilteredList.AddAt | src/main/java/org/d2ab/collection/FilteredList.java:71-74 | UnsupportedOperationException |
| FilteredLists.FilteredList.AddAllAt | src/main/java/org/d2ab/collection/FilteredList.java:76-79 | UnsupportedOperationException |
| FilteredLists.ViewMembers | src/main/java/org/d2ab/collection/FilteredList.java:48-54 | x is in the view exactly when it is in the backing list and satisfies the predicate |
| FilteredLists.ViewFollowsBackingList | src/main/java/org/d2ab/collection/FilteredList.java:39-46 | the view reads the live backing list: an element added later shows up in it when it matches |
| IntBiPredicates.Negate | src/main/java/org/d2ab/function/ints/IntBiPredicate.java:34-36 | defined wherever the original is, with the opposite value |
| IntBiPredicates.And | src/main/java/org/d2ab/function/ints/IntBiPredicate.java:41-43 | the conjunction; false without evaluating the second when the first is false |
| IntBiPredicates.Or | src/main/java/org/d2ab/function/ints/IntBiPredicate.java:48-50 | the disjunction; true without evaluating the second when the first is true |
| IntBiPredicates.NegateTwice | src/main/java/org/d2ab/function/ints/IntBiPredicate.java:34-36 | negating twice agrees with the original |
| IntBiPredicates.NegateAnd | src/main/java/org/d2ab/function/ints/IntBiPredicate.java:34-50 | the negation of and is the or of the negations |
| IntBiPredicates.NegateOr | src/main/java/org/d2ab/function/ints/IntBiPredicate.java:34-50 | the negation of or is the and of the negations |

## Left out

- Java `int`/`long` widths of counters are not modelled. The counters are `LimitingCharIterator.count`, the index of
  `IndexedFilteringDoubleIterator`, the capacities in toArray and the char batch buffer, and the element
  counts. They are unbounded integers, so overflow after 2^31 elements is not captured. Hash arithmetic
  is wrapped to 32 bits.
- `double` elements are a generic element type. Floating-point behaviour (NaN, -0.0) plays no part in the
  modelled operations, which only move elements and apply the user's functions.
- These interfaces are implemented in code that is not part of this model, so a model of each stands in:
  - `DoubleIterator.skip()` is modelled as `Iterators.skipOne`.
  - `IntIterator.skip(long)`, called at SkippingIntIterator.java:40, is modelled as `Iterators.Skip`: it
    advances the upstream by up to that many elements.
  - The inherited `skip(long)` that SteppingIterator.java:51 calls is modelled the same way, on the upstream.
  - `containsInt` and `removeInt`, which `contains` and `remove` call at IntCollection.java:87 and :92, are
    modelled as membership and as removal of the first occurrence.
  - `InfiniteDoubleIterator.hasNext` is modelled as always true.
  - `CharIterator.from` (used by `asChars`) is not modelled beyond the size.
  - `Iterators.count` is modelled as a counting loop.
  - `FilteringListIterator` is modelled as a cursor over the filtered elements.
  - `CharListIterator.forwardOnly` is modelled with java.util.ListIterator semantics over the list.
  - `FilteredList` calls an `Iterators.skip(Iterator, int)` overload that returns a count. That overload is
    modelled as `FilteredLists.SkipCounting`.
- `CharLists.CharList.Iterator`, `IntCollections.IntCollection.Iterator` and `IntSets.IntSet.Iterator` stand in for the abstract
  `iterator()` of concrete classes.
- `Maps.Builder`: the map supplier is assumed to return a fresh empty map on each call. The `builder(...)`
  factories, the entry comparator, `toString` and `compareTo` are not modelled.
- Element `equals`/`hashCode` become Dafny equality and caller-supplied hash functions.
- `IntSet.Base.create(int...)` builds an `IntSortedSet`, which is not part of this model. Only the
  delegating `create(IntSet)` is modelled.
- `ChainingIntIterable.toString` and `ChainingIntIterable.equals`:
  - `toString` is not modelled.
  - `equals` is modelled as a predicate. Its own contract and `ChainingIterables.EqualsHashCode` state its meaning.
- `IntCollections.IntCollection.AddAllIntsFrom` and `IntCollections.IntCollection.AddAllIntsFromChecked` require that a
  collection whose addInt appends is not given itself: that changes the collection while it is being iterated.
- `ChainingIterables.ChainingIterable.Iterator` snapshots the list of sources when the iterator is
  created. The source iterates the live `ArrayList`, so a source appended during a traversal is not
  modelled.
- `IntCollections.IntCollection.AddInt` is given one of three behaviours: the refusing default, list append, or set
  insertion. These stand for the concrete overrides, which are not part of this model.
- `IntCollection.toString` starts the `StringBuilder` with a capacity hint of size * 5. This affects
  performance only and is not modelled.
- `IntBiPredicates.Negate`, `IntBiPredicates.And`, `IntBiPredicates.Or`: the contracts say the combined
  predicate is defined wherever evaluating it in Java would not fail. The converse, that it is defined
  only there, is not stated.
- `IntBiPredicates.NegateAnd`, `IntBiPredicates.NegateOr` are stated for total predicates only.
- `DoubleSequences.RecursingCursor.HasNext` states only that the answer is always true. The generator
  never ends.
- `DoubleSequence` operations other than recurse, first, second, third, last, reduce, all, any, none,
  toArray, reverse and from/of are not modelled. Examples are map, filter, sorted, min, max, count, peek,
  streams and spliterators.
- Concurrency and modification during iteration (ConcurrentModificationException) are not modelled.

## Findings

| source | as written | input that shows it | evidently intended | confidence | as-written member | corrected member |
|---|---|---|---|---|---|---|
| src/main/java/org/d2ab/collection/chars/CharList.java:321-329, 346-348 | the SubList constructor rejects only from < 0 and to > size, so from > to is accepted and size() = to - from is negative | a list of size 5 with from = 3, to = 1: accepted, size() = -2 | reject from > to, as java.util.AbstractList.subList and java.util.ArrayList.subList do with IllegalArgumentException (the java.util.List interface documents IndexOutOfBoundsException there) | not executed | CharLists.SubListCheck (shown by CharLists.SubListCheckAcceptsReversedBounds) | CharLists.CheckedSubListBounds (used by CharLists.NewSubList, related by CharLists.CheckedSubListBoundsRefines) |
| src/main/java/org/d2ab/collection/ints/IntCollection.java:107-113 | addAllInts(IntCollection) returns true for any non-empty argument, even when no addInt call changed the collection | adding the collection [1] to the set {1} returns true; the set is unchanged. Likewise the set {1, 2} given itself | return whether the collection changed, as addAllInts(int...) at lines 100-105 does and java.util.Collection.addAll promises | not executed | IntCollections.IntCollection.AddAllIntsFrom (shown by IntCollections.AddAllIntsFromReportsNoChange and IntCollections.AddAllIntsFromSelfReportsNoChange) | IntCollections.IntCollection.AddAllIntsFromChecked (shown by IntCollections.AddAllIntsFromCheckedReportsNoChange) |
