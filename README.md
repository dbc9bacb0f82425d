# Functional helpers, stacks, queues, recursion and televisions

A Dafny model of a set of small JavaScript exercises and proofs about them:

- **Iteration helpers** `_.each`, `_.map`, `_.filter`, `_.from` and
  `_.reduce` (module `Functional`, with worked cases in
  `FunctionalExamples`). Two copies of the library exist. Lines 1-85 of
  `000_implementing_functional_utilities/index.js` and
  `functional-101/index.js` are identical, so one set of members models
  `each`, `map`, `filter` and `from` for both. The copies differ only in
  `reduce` (and in the 000 copy's `_.curry` stub, left out): the 000 copy seeds the accumulator from the first element
  when no initial value is given (`ReduceSeeding`), and the functional-101
  copy is a plain left fold (`ReduceFold`).
  - A helper's input is classified as an array, a non-array object (its
    keys and values in enumeration order) or anything else.
  - A callback is a function parameter.
  - `each` returns the sequence of argument tuples its callback receives.
- **Recursion exercises** `loopN`, `recurseLoopN`, `exponent` and
  `recurseExponent` (module `Recursion`). The loop versions are proved
  equal to the recursive ones on the recursive ones' domain.
- **Map-backed stacks** (module `KeyedStack`). The factory
  `8_stacks_interface_factory` and the prototype-based
  `007_stacks_interface-class` build the same object: `data` holds the
  items under keys 1..n.
- **String-backed stacks**:
  - `5_stacks_interface`, with `***` before each item, and
    `6_stacks_interface_es2015`, with `___`. They are one class with two
    flavours (module `StringStacks`).
  - `004_stacks_interface-string-only`, with `|`, whose pop splits,
    reverses and joins (module `SplitJoinStack`).
  - `JsStrings` holds the string built-ins these call, with the laws that
    connect them.
- **Queues**:
  - The factory queue `10_queues_factory` enqueues under `counter` and
    dequeues the least key (module `QueueFactory`).
  - The prototype queue `9_queues` enqueues under the current size and
    dequeues under `counter` (module `QueuePrototype`).
- **Televisions** `2_creating_a_constructor` and
  `3_creating_a_constructor_es2015` (module `Television`).

The model takes the source's own form:

- State that is changed in place becomes a class. Its fields are the
  JavaScript object's fields, a `map<int, V>` for a `data` object and a
  `string` for `storage`.
- Each stack and queue class has a ghost `Contents` (the items from
  oldest to newest) and a `Valid()` invariant tying the fields to it. The
  televisions have no such invariant: their state is their fields.
- Every method states its whole new state in terms of the old one. On a
  stack or queue it also states, under `Valid()`, the new `Contents`: LIFO
  for the stacks, FIFO for the queues. The one exception is
  `QueuePrototype.Queue.Enqueue`, which keeps FIFO only while `counter` is
  0; see "## Findings".

Loops become methods with loop invariants, proved against specification
functions (`Values`, `Select`, `Fold`, `SeedingState`, `Power`).

JavaScript values are represented as follows:

- `undefined` results are `Option.None`.
- For the seeding `reduce`, `undefined` is an explicit parameter so that
  the `initial === undefined` test can be written.
- Numbers are unbounded integers.

The exported TV instance of `3_creating_a_constructor_es2015` is built
from `{channel: 3, on: false}`. The constructor reads `defaults.power`,
so the instance starts with no power flag rather than with `false`. Both
are falsy, and `ExportedInstance` shows the consequence.

## Model

| member | source | states |
|---|---|---|
| Functional.IndexOf | 000_implementing_functional_utilities/index.js:9 | `list.indexOf(value)` is -1 exactly when the value is absent; otherwise it is a position holding the value, with no earlier occurrence |
| Functional.IndexOfDistinct | 000_implementing_functional_utilities/index.js:9 | in an array without duplicates, the index passed to the callback is the true position |
| Functional.IndexOfRepeated | 000_implementing_functional_utilities/index.js:37 | for a repeated value, a later occurrence is passed the index of an earlier one |
| Functional.CallbackArgs | 000_implementing_functional_utilities/index.js:7-14 | the callback of `each`/`filter` receives, as first argument, the i-th value in walk order |
| Functional.MapCallbackArgs | 000_implementing_functional_utilities/index.js:35-43 | the callback of `map` receives the i-th value, and for an object also its key and the running counter i |
| Functional.Each | 000_implementing_functional_utilities/index.js:3-18 | the callback runs once per array element or object key, in order, with those arguments; never for a non-object |
| Functional.Map | 000_implementing_functional_utilities/index.js:20-46 | the result is an array with one entry per element or key, entry i being the callback's result on the i-th arguments; `[]` for a non-object |
| Functional.MapArgsOnDistinctArray | 000_implementing_functional_utilities/index.js:36-38 | on an array without duplicates, `map` passes `(list[i], i, list)` |
| Functional.SelectAtPositions | 000_implementing_functional_utilities/index.js:60-76 | the kept values are the values at strictly increasing positions, so the result is a subsequence |
| Functional.SelectedPositionsExact | 000_implementing_functional_utilities/index.js:64-66 | a position is kept exactly when its verdict is truthy |
| Functional.FilterExact | 000_implementing_functional_utilities/index.js:60-76 | `filter` returns the values at the positions where the predicate is truthy, and every such position contributes its value, in order |
| Functional.FilterAlwaysTruthy | 000_implementing_functional_utilities/index.js:62-74 | with an always-truthy predicate, `filter` returns every value |
| Functional.Filter | 000_implementing_functional_utilities/index.js:48-77 | the loop's result equals the specification of the kept values; `[]` for a non-object |
| Functional.From | 000_implementing_functional_utilities/index.js:79-85 | `from` copies an array element by element, returns an object's values in enumeration order, and returns `[]` for anything else |
| Functional.FoldAppend | functional-101/index.js:99-110 | folding over two stretches in turn is folding over both, the indices running on |
| Functional.ReduceFold | functional-101/index.js:87-111 | `reduce` is the left fold from the initial value, passing indices 0..n-1; empty or non-object input returns the initial value |
| Functional.SeedingWithInitial | 000_implementing_functional_utilities/index.js:99-108 | with an initial value the seeding loop is the plain left fold with indices 0..n-1 |
| Functional.SeedingFromFirst | 000_implementing_functional_utilities/index.js:101-108 | without an initial value, `list[0]` seeds the accumulator and the rest is folded with indices from 0, the callback running n-1 times |
| Functional.SeedingUndefinedFirst | 000_implementing_functional_utilities/index.js:103-104 | when `list[0]` is itself `undefined`, every iteration re-seeds and the result is `undefined` |
| Functional.ReduceSeeding | 000_implementing_functional_utilities/index.js:87-115 | the 000 `reduce`: the plain fold with an initial value or for an object; the seeded fold of the tail for a non-empty array without one; the initial value for empty input |
| FunctionalExamples.EachPassesIndices | functional-101/test.js:17-27 | `each` over `[1, 2, 3]` passes indices 0, 1, 2 |
| FunctionalExamples.EachOnString | functional-101/test.js:89-99 | `each` over a string never calls the callback |
| FunctionalExamples.MapDoubles | functional-101/test.js:103-113 | doubling `[1, 2, 3]` gives `[2, 4, 6]` |
| FunctionalExamples.MapPluralizesObject | functional-101/test.js:192-203 | pluralising `{0:'cat',1:'dog',2:'frog'}` gives the array `['cats','dogs','frogs']` |
| FunctionalExamples.MapPassesCounter | functional-101/test.js:218-229 | for an object, `map` passes the counter 0, 1, 2 |
| FunctionalExamples.MapEmptyObject | functional-101/test.js:248-259 | `map` of `{}` is `[]` |
| FunctionalExamples.FilterObject | functional-101/index.js:68-73 | filtering an object's values above 3 keeps `[4, 100]` in order |
| FunctionalExamples.FromObject | functional-101/index.js:79-85 | `from` of an object is its values in order |
| FunctionalExamples.ReduceSums | functional-101/index.js:101-105 | summing `[1, 2, 3, 4]` from 0 gives 10 with either `reduce` |
| Recursion.LoopN | 11_recursion_exercises/index.js:5-10 | returns 0 for n >= 0 and n itself for n <= 0, and agrees with `recurseLoopN` for n >= 0 |
| Recursion.RecurseLoopN | 11_recursion_exercises/index.js:14-17 | returns 0 from every n >= 0, the inputs on which its recursion is bounded |
| Recursion.Exponent | 11_recursion_exercises/index.js:21-28 | equals base^expo for expo >= 0 and 1 for expo <= 0, and agrees with `recurseExponent` for expo >= 0 |
| Recursion.RecurseExponent | 11_recursion_exercises/index.js:32-37 | equals base^expo for every expo >= 0, the inputs on which its recursion is bounded |
| Recursion.PowerAdd | 11_recursion_exercises/index.js:21-37 | the power both `exponent` versions compute obeys base^(m + n) = base^m * base^n |
| Recursion.TestCases | 11_recursion_exercises/test.js:3-55 | 9^2 is 81 with both versions and 5 counts down to 0 with both |
| IntSets.Min | 10_queues_factory/index.js:16 | `Math.min` over the keys returns a key no greater than any other |
| IntSets.Max | 10_queues_factory/index.js:10 | `Math.max` over the keys returns a key no smaller than any other |
| QueueFactory.AppendKeepsLayout | 10_queues_factory/index.js:8-11 | storing under `counter` keeps every key below the next counter, with the new item at the back |
| QueueFactory.RemoveFirstKeepsLayout | 10_queues_factory/index.js:16-18 | the least key holds the oldest item, and deleting it keeps the invariant |
| QueueFactory.Queue.constructor | 10_queues_factory/index.js:1-4 | empty `data`, `counter` 0, an empty queue |
| QueueFactory.Queue.Size | 10_queues_factory/index.js:5-7 | `size` is the number of queued items |
| QueueFactory.Queue.Enqueue | 10_queues_factory/index.js:8-11 | stores the item under the old counter and moves the counter past every key; from a valid queue the counter grows by one, the item joins the back and size grows by one |
| QueueFactory.Queue.Dequeue | 10_queues_factory/index.js:12-20 | empty: returns nothing and changes nothing; otherwise removes exactly the least key and returns its item, size down by one and the counter unchanged; on a valid queue that is the oldest item (FIFO) |
| QueueFactory.EnqueueTwiceDequeueThrice | 010_queues-factory/test.js:27-58 | two items sit under keys 0 and 1 and come back in order, the first dequeue leaving only key 1 |
| QueuePrototype.WindowAppend | 9_queues/index.js:10-13 | storing one past the back of the window of keys extends the window by the item |
| QueuePrototype.WindowShift | 9_queues/index.js:20-23 | the key `counter` holds the oldest item, and deleting it moves the window on by one |
| QueuePrototype.Queue.constructor | 9_queues/index.js:1-4 | empty `data`, `counter` 0, an empty queue |
| QueuePrototype.Queue.Size | 9_queues/index.js:6-8 | `size` is the number of queued items |
| QueuePrototype.Queue.Enqueue | 9_queues/index.js:10-13 | stores the item under the current size; while nothing has been dequeued, that is the back of the queue |
| QueuePrototype.Queue.EnqueueAtTail | 9_queues/index.js:10-13 | the corrected enqueue stores under `counter + size` and keeps FIFO from every valid state |
| QueuePrototype.Queue.Dequeue | 9_queues/index.js:15-24 | empty: resets the counter to 0 and returns nothing; otherwise returns the item under `counter`, deletes it and moves the counter on; on a valid queue that is the oldest item |
| QueuePrototype.EnqueueTwiceDequeueThrice | 009_queues-class/test.js:31-59 | the items come back in order, the first one leaves `data`, and the third dequeue returns nothing and resets the counter |
| QueuePrototype.EnqueueAfterDequeueOverwrites | 9_queues/index.js:11-12 | enqueue a, b, dequeue, enqueue c: c replaces b, which never comes out |
| QueuePrototype.EnqueueAfterDrainStrands | 9_queues/index.js:10-24 | enqueue a, dequeue, enqueue b: b sits under key 0 while `counter` is 1, so every later dequeue returns nothing, `size()` stays 1 and `counter` is never reset |
| QueuePrototype.EnqueueAtTailAfterDrain | 9_queues/index.js:15-24 | the same run with the corrected enqueue returns a, then b, then nothing |
| QueuePrototype.EnqueueAtTailKeepsOrder | 9_queues/index.js:15-24 | the same run with the corrected enqueue returns a, b, c in order |
| KeyedStack.PackedAppend | 8_stacks_interface_factory/index.js:4-7 | storing under size + 1 keeps the keys exactly 1..n |
| KeyedStack.PackedDropLast | 8_stacks_interface_factory/index.js:9-13 | the key equal to the size holds the newest item, and deleting it keeps the keys exactly 1..n |
| KeyedStack.Stack.constructor | 8_stacks_interface_factory/index.js:2-3 | an empty `data` object, an empty stack |
| KeyedStack.Stack.Size | 8_stacks_interface_factory/index.js:16-18 | `size` is the number of stacked items |
| KeyedStack.Stack.Push | 8_stacks_interface_factory/index.js:4-7 | stores the item under size + 1; on a valid stack it becomes the top and size grows by one |
| KeyedStack.Stack.Pop | 8_stacks_interface_factory/index.js:8-15 | size 0: returns nothing and changes nothing; otherwise deletes only the key equal to the size and returns its item; on a valid stack that is the newest item (LIFO) |
| KeyedStack.PushThenPop | 007_stacks_interface-class/index.js:4-16 | push then pop returns the item and restores `data` exactly |
| KeyedStack.SeparateInstances | 8_stacks_interface_factory/test.js:12-16 | a push onto one stack is not seen by a pop of another |
| KeyedStack.PushTwicePopOnce | 007_stacks_interface-class/test.js:43-78 | three pushes give size 3; popping after two pushes returns the second item and leaves `{1: first}` |
| JsStrings.LastIndexOf | 5_stacks_interface/index.js:10 | `lastIndexOf` returns an occurrence with none after it, or -1 when there is none |
| JsStrings.Slice | 5_stacks_interface/index.js:12 | `slice(start, end)` within bounds is the substring, and an empty or inverted range gives `''` |
| JsStrings.SliceFrom | 5_stacks_interface/index.js:11 | `slice(start)` is the suffix from `start`, or `''` past the end |
| JsStrings.Split | 5_stacks_interface/index.js:17 | `split` always returns at least one piece |
| JsStrings.Join | 004_stacks_interface-string-only/index.js:11-12 | `join` puts one separator between each two pieces: its length is the pieces' lengths plus one separator fewer than there are pieces |
| JsStrings.ReverseReverse | 004_stacks_interface-string-only/index.js:10-12 | reversing twice gives the array back |
| JsStrings.ReverseDropFirst | 004_stacks_interface-string-only/index.js:10-12 | the first element of the reversed array is the last one, and reversing the rest back gives the array without its last element |
| JsStrings.SplitPiecesClean | 004_stacks_interface-string-only/index.js:10 | with a one-character separator no piece of a split holds the separator |
| JsStrings.SplitLast | 004_stacks_interface-string-only/index.js:10-12 | with a one-character separator the string is the other pieces joined, the separator and the last piece, which holds no separator; a single piece is the whole string |
| JsStrings.JoinSplit | 004_stacks_interface-string-only/index.js:10-12 | joining the pieces of a split with the same separator rebuilds the string |
| JsStrings.JoinSnoc | 004_stacks_interface-string-only/index.js:12 | joining one more piece appends the separator and the piece |
| JsStrings.Delimited | 5_stacks_interface/index.js:6 | the text after pushing the values has one separator per value plus the values' characters |
| JsStrings.SplitDelimited | 5_stacks_interface/index.js:17 | splitting the pushed text gives an empty piece and then exactly the values, when no value shares a character with the separator |
| JsStrings.JoinDelimited | 004_stacks_interface-string-only/index.js:12 | joining an empty piece and the values rebuilds the pushed text |
| JsStrings.LastSeparator | 5_stacks_interface/index.js:10 | after a clean last value, the last separator is the one pushed before it |
| JsStrings.SplitSize | 5_stacks_interface/index.js:17 | the pushed text of clean values splits into one more piece than there are values |
| StringStacks.Separator | 5_stacks_interface/index.js:6 | both separators are three characters long, matching the `+ 3` of `pop` |
| StringStacks.Stack.constructor | 5_stacks_interface/index.js:1-3 | empty `storage`, an empty stack |
| StringStacks.Stack.Size | 5_stacks_interface/index.js:16-18 | on a valid stack, `size` is the number of items |
| StringStacks.Stack.Push | 6_stacks_interface_es2015/index.js:5-7 | appends the separator and the item; a clean item becomes the top of a valid stack, and any other push leaves the items as they were |
| StringStacks.Stack.Pop | 5_stacks_interface/index.js:9-14 | with a separator, `storage` becomes what precedes the last one and the item is what follows it; without one, the slices of index -1; on a valid stack the newest item, and `''` on an empty one |
| StringStacks.PushThenPop | 6_stacks_interface_es2015/index.js:5-14 | from any `storage`, push then pop returns the item and restores `storage` whenever the separator occurs in the separator followed by the item only at the start; a valid stack keeps its items |
| StringStacks.CleanRoundTrips | 5_stacks_interface/index.js:5-14 | every item sharing no character with the separator meets that round-trip condition |
| StringStacks.PushTrailingStarThenPop | 5_stacks_interface/index.js:5-18 | pushing `a*` gives size 1, and popping returns `a*` and leaves `storage` empty |
| StringStacks.PushStarredThenPop | 5_stacks_interface/index.js:5-14 | pushing `*b` then popping returns `b` and leaves `*` |
| SplitJoinStack.Stack.constructor | 004_stacks_interface-string-only/index.js:1-3 | the exported instance starts with empty `storage`, an empty stack |
| SplitJoinStack.Stack.Size | 004_stacks_interface-string-only/index.js:16-18 | on a valid stack, `size` is the number of items |
| SplitJoinStack.Stack.Push | 004_stacks_interface-string-only/index.js:5-7 | appends the bar character and the item; an item without the bar character grows `size` by one from any `storage` and becomes the top of a valid stack |
| JsStrings.SplitClean | 004_stacks_interface-string-only/index.js:16-18 | with a one-character separator, a string free of it splits into itself alone |
| JsStrings.SplitSnocClean | 004_stacks_interface-string-only/index.js:5-7 | with a one-character separator, appending the separator and a piece free of it adds exactly that piece to the split |
| SplitJoinStack.Stack.Pop | 004_stacks_interface-string-only/index.js:9-14 | for any `storage` holding the bar character, the item is what follows the last bar character and holds none, and `storage` becomes what precedes it; with none the item is all of it and `storage` empties; on a valid stack the newest item |
| SplitJoinStack.PiecesOfStack | 004_stacks_interface-string-only/index.js:10-12 | on a valid non-empty stack the last piece is the newest item and the other pieces join back into the text of the older items |
| SplitJoinStack.SplitHoldingBar | 004_stacks_interface-string-only/index.js:16-18 | a `storage` holding the bar character splits into at least two pieces, so `size` is positive |
| SplitJoinStack.PushThenPop | 004_stacks_interface-string-only/index.js:5-14 | from any `storage`, push then pop of an item without the bar character returns it and restores `storage`; a valid stack keeps its items |
| Television.Tv.constructor | 2_creating_a_constructor/index.js:1-5 | named `TV`, on, tuned to the given channel |
| Television.Tv.SwitchOnOff | 2_creating_a_constructor/index.js:7-9 | flips the power and keeps the channel |
| Television.Tv.ChangeChannel | 2_creating_a_constructor/index.js:11-13 | tunes whether on or off and keeps the power |
| Television.SwitchTwice | 2_creating_a_constructor/index.js:8 | switching twice restores power and channel |
| Television.GuardedTv.constructor | 3_creating_a_constructor_es2015/index.js:2-6 | named `TV`, with the given channel and the given power, missing if absent |
| Television.GuardedTv.SwitchOnOff | 3_creating_a_constructor_es2015/index.js:8-10 | sets the power to the negation of its truthiness and keeps the channel |
| Television.GuardedTv.ChangeChannel | 3_creating_a_constructor_es2015/index.js:12-18 | tunes only while the power is truthy; otherwise nothing changes |
| Television.SwitchGuardedTwice | 3_creating_a_constructor_es2015/index.js:8-10 | switching twice restores truthiness and the channel, and the flag itself once it is a boolean |
| Television.ExportedInstance | 3_creating_a_constructor_es2015/index.js:21-23 | the exported instance starts on channel 3, ignores a channel change, and takes one after being switched on |

## Findings

| source | as written | input that shows it | evidently intended | confidence | as-written member | corrected member |
|---|---|---|---|---|---|---|
| 9_queues/index.js:10-13 | `enqueue` stores the item under the key `size()` | enqueue a, enqueue b, dequeue, enqueue c: c is stored under key 1 over b, so the dequeues return a, c, nothing | store the item after the newest one, under `counter + size()`, so items come out in the order they went in | not executed | QueuePrototype.EnqueueAfterDequeueOverwrites | QueuePrototype.Queue.EnqueueAtTail |
| 9_queues/index.js:10-24 | `enqueue` stores the item under the key `size()`, and `dequeue` resets `counter` only when `size()` is 0 | enqueue a, dequeue, enqueue b: b is stored under key 0 while `counter` is 1, so every later dequeue returns nothing and `counter` grows without end | b comes out of the next dequeue | not executed | QueuePrototype.EnqueueAfterDrainStrands | QueuePrototype.Queue.EnqueueAtTail |

## Left out

- The `async-patterns` exercises: network requests, callbacks, promises, generators and `async`/`await`.
- `_.curry` and the `recursiveMultiplier`/`recursiveReverse` stubs have empty bodies. The unused `isEmpty` helpers are never called.
- JavaScript enumeration details are not modelled: the order of integer-like keys under `for…in`, inherited properties, array holes and `typeof null`. An object is an explicit ordered list of keys and values, and `null` counts as "anything else".
- Functional.From: on a string, `for…in` walks the character indices, so the source returns the characters. The model classifies a string as "anything else" and returns `[]`.
- Functional.Each: the source returns `undefined` in every case; the model returns the callback's arguments instead of a value.
- Callbacks are pure functions. Side effects they might have on the input while a helper walks it are not modelled.
- Floating point, `NaN` and number coercion are not modelled. Numbers are unbounded integers, and a queue's keys are integers. The tests' overwriting of `data` with string keys, which makes `Math.max` return `NaN`, is not modelled.
- Accidental globals are not modelled: the undeclared `value` in `from` and the undeclared `publicAPI` in the factory queue.
- String coercion is not modelled: a pushed value is concatenated as a string, and non-string values are not modelled.
- StringStacks.Stack.Push: the model's `Contents` and `Valid()` track only items that share no character with the separator. The source also handles others: `StringStacks.PushThenPop` states the exact round-trip condition, and `StringStacks.PushTrailingStarThenPop` shows `a*` round-tripping. Containing no `***` (or `___`) is not enough, though: `StringStacks.PushStarredThenPop` shows `*b` failing.
- StringStacks.Stack.Size: the model states the count only for items that share no character with the separator; the source also counts others correctly, such as `a*` (`StringStacks.PushTrailingStarThenPop`).
- Stack depth is not modelled: JavaScript throws a `RangeError` when `recurseLoopN` or `recurseExponent` recurses too deep, from a negative argument or from a very large one.
- SplitJoinStack.Stack.Pop: the temporary array that `pop` splits, reverses and splices in place is modelled as a sequence value.
- SplitJoinStack.Stack.constructor: sharing the single exported instance between importers is not modelled; the constructor builds that instance.
- Television.GuardedTv.ChangeChannel: the message logged while the television is off is output only, and is left out.
- The televisions' `name` is a constant field; a channel missing from the settings is `None`.
