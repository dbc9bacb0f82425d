/** The iteration helpers `_.each`, `_.map`, `_.filter`, `_.from` and
    `_.reduce`. Two copies of the library exist; they agree line for line
    except in `reduce`, so one set of members models `each`, `map`,
    `filter` and `from` for both, while `ReduceSeeding` and `ReduceFold`
    model the two `reduce` bodies. Callbacks are pure function parameters;
    what `each` does through its callback is returned as the sequence of
    argument tuples the callback receives. */
module Functional {

  /** A JavaScript value as the helpers classify it on entry: an array, a
      non-array object (its own enumerable keys with their values, in
      `for…in` order), or anything else (a string, a number, `null`,
      `undefined`). */
  datatype Input<V> = Seq(items: seq<V>) | Rec(entries: seq<(string, V)>) | Other

  /** The arguments of one callback invocation. The three shapes keep the
      helpers' different arities apart. */
  datatype Call<V> =
    | ElemCall(value: V, index: int, list: Input<V>)                        // (value, list.indexOf(value), list)
    | PropCall(value: V, key: string, list: Input<V>)                       // (list[key], key, list)
    | CountedPropCall(value: V, key: string, counter: nat, list: Input<V>)  // (list[key], key, index++, list)

  /** The values the helpers walk over, in order. */
  function Values<V>(list: Input<V>): (vals: seq<V>)
  {
    match list
    case Seq(s) => s
    case Rec(es) => seq(|es|, i requires 0 <= i < |es| => es[i].1)
    case Other => []
  }

  /** `Array.prototype.indexOf`: the first position holding `x`, or -1. */
  function IndexOf<V(==)>(s: seq<V>, x: V): (i: int)
    ensures -1 <= i < |s|
    ensures i == -1 <==> x !in s
    ensures 0 <= i ==> s[i] == x && x !in s[..i]
  {
    if s == [] then -1
    else if s[0] == x then 0
    else
      var j := IndexOf(s[1..], x);
      if j == -1 then -1
      else
        assert s[..j + 1] == [s[0]] + s[1..][..j];
        j + 1
  }

  /** Without repeated values, the index reported for an element is its
      true position. */
  lemma IndexOfDistinct<V>(s: seq<V>, i: nat)
    requires i < |s|
    requires forall j, k :: 0 <= j < k < |s| ==> s[j] != s[k]
    ensures IndexOf(s, s[i]) == i
  {
  }

  /** With a repeated value, the later occurrence is reported at an earlier
      position. */
  lemma IndexOfRepeated<V>(s: seq<V>, i: nat, j: nat)
    requires i < j < |s|
    requires s[i] == s[j]
    ensures IndexOf(s, s[j]) <= i < j
  {
  }

  /** The arguments `each` and `filter` pass for the i-th element: `(value,
      indexOf(value), list)` for an array, `(list[key], key, list)` for an
      object. */
  function CallbackArgs<V(==)>(list: Input<V>, i: nat): (c: Call<V>)
    requires i < |Values(list)|
    ensures c.value == Values(list)[i]
  {
    match list
    case Seq(s) => ElemCall(s[i], IndexOf(s, s[i]), list)
    case Rec(es) => PropCall(es[i].1, es[i].0, list)
  }

  /** The arguments `map` passes for the i-th element: as `each` does for an
      array, and with the running counter inserted for an object. */
  function MapCallbackArgs<V(==)>(list: Input<V>, i: nat): (c: Call<V>)
    requires i < |Values(list)|
    ensures c.value == Values(list)[i]
  {
    match list
    case Seq(s) => ElemCall(s[i], IndexOf(s, s[i]), list)
    case Rec(es) => CountedPropCall(es[i].1, es[i].0, i, list)
  }

  /** `_.each`: the callback is invoked once per element, in order, and
      never for an input that is neither an array nor an object. The
      returned sequence lists the invocations' arguments; the source itself
      returns `undefined`. */
  method Each<V(==)>(list: Input<V>) returns (calls: seq<Call<V>>)
    ensures |calls| == |Values(list)|
    ensures list.Other? ==> calls == []
    ensures forall i :: 0 <= i < |calls| ==> calls[i] == CallbackArgs(list, i)
  {
    calls := [];
    match list {
      case Seq(s) =>
        for i := 0 to |s|
          invariant |calls| == i
          invariant forall k :: 0 <= k < i ==> calls[k] == CallbackArgs(list, k)
        {
          var value := s[i];
          calls := calls + [ElemCall(value, IndexOf(s, value), list)];
        }
      case Rec(es) =>
        for i := 0 to |es|
          invariant |calls| == i
          invariant forall k :: 0 <= k < i ==> calls[k] == CallbackArgs(list, k)
        {
          var (prop, value) := es[i];
          calls := calls + [PropCall(value, prop, list)];
        }
      case Other =>
    }
  }

  /** `_.map`: a fresh array with one callback result per element, in
      order, also for an object input; `[]` for anything else. */
  method Map<V(==), R>(list: Input<V>, callback: Call<V> -> R) returns (r: seq<R>)
    ensures |r| == |Values(list)|
    ensures list.Other? ==> r == []
    ensures forall i :: 0 <= i < |r| ==> r[i] == callback(MapCallbackArgs(list, i))
  {
    r := [];
    match list {
      case Seq(s) =>
        for i := 0 to |s|
          invariant |r| == i
          invariant forall k :: 0 <= k < i ==> r[k] == callback(MapCallbackArgs(list, k))
        {
          var value := s[i];
          r := r + [callback(ElemCall(value, IndexOf(s, value), list))];
        }
      case Rec(es) =>
        var index := 0;
        for i := 0 to |es|
          invariant index == i
          invariant |r| == i
          invariant forall k :: 0 <= k < i ==> r[k] == callback(MapCallbackArgs(list, k))
        {
          var (key, value) := es[i];
          r := r + [callback(CountedPropCall(value, key, index, list))];
          index := index + 1;
        }
      case Other =>
    }
  }

  /** On an array without repeated values, `map` applies the callback to
      each element together with its true position. */
  lemma MapArgsOnDistinctArray<V>(s: seq<V>, i: nat)
    requires i < |s|
    requires forall j, k :: 0 <= j < k < |s| ==> s[j] != s[k]
    ensures MapCallbackArgs(Seq(s), i) == ElemCall(s[i], i, Seq(s))
  {
    IndexOfDistinct(s, i);
  }

  /** The truthiness of the predicate on each element, in order, as
      `filter` evaluates it. */
  function Verdicts<V(==)>(list: Input<V>, pred: Call<V> -> bool): (keep: seq<bool>)
    ensures |keep| == |Values(list)|
  {
    seq(|Values(list)|, i requires 0 <= i < |Values(list)| => pred(CallbackArgs(list, i)))
  }

  /** The values whose verdict is true, in order. */
  function Select<V>(vals: seq<V>, keep: seq<bool>): (kept: seq<V>)
    requires |vals| == |keep|
  {
    if vals == [] then []
    else Select(vals[..|vals| - 1], keep[..|keep| - 1]) + (if keep[|keep| - 1] then [vals[|vals| - 1]] else [])
  }

  /** The positions whose verdict is true, in increasing order. */
  function SelectedPositions(keep: seq<bool>): (ps: seq<nat>)
    ensures forall k :: 0 <= k < |ps| ==> ps[k] < |keep|
    ensures forall k, l :: 0 <= k < l < |ps| ==> ps[k] < ps[l]
  {
    if keep == [] then []
    else SelectedPositions(keep[..|keep| - 1]) + (if keep[|keep| - 1] then [|keep| - 1] else [])
  }

  /** `Select` keeps one value per selected position, the value found
      there; with the bounds and order stated on `SelectedPositions`, the
      result is a subsequence of the values. */
  lemma {:induction false} SelectAtPositions<V>(vals: seq<V>, keep: seq<bool>)
    requires |vals| == |keep|
    ensures |Select(vals, keep)| == |SelectedPositions(keep)|
    ensures forall k :: 0 <= k < |SelectedPositions(keep)| ==>
              Select(vals, keep)[k] == vals[SelectedPositions(keep)[k]]
  {
    if vals != [] {
      SelectAtPositions(vals[..|vals| - 1], keep[..|keep| - 1]);
    }
  }

  /** The selected positions are exactly those whose verdict is true. */
  lemma {:induction false} SelectedPositionsExact(keep: seq<bool>)
    ensures forall j :: 0 <= j < |keep| ==> (j in SelectedPositions(keep) <==> keep[j])
  {
    if keep != [] {
      var n := |keep|;
      var init := keep[..n - 1];
      SelectedPositionsExact(init);
      var prev := SelectedPositions(init);
      var last: seq<nat> := if keep[n - 1] then [n - 1] else [];
      assert SelectedPositions(keep) == prev + last;
      assert n - 1 !in prev;
      forall j | 0 <= j < n
        ensures j in prev + last <==> keep[j]
      {
        if j < n - 1 {
          assert keep[j] == init[j];
          assert j !in last;
        }
      }
    }
  }

  /** Selecting with every verdict true keeps every value. */
  lemma {:induction false} SelectAll<V>(vals: seq<V>, keep: seq<bool>)
    requires |vals| == |keep|
    requires forall i :: 0 <= i < |keep| ==> keep[i]
    ensures Select(vals, keep) == vals
  {
    if vals != [] {
      SelectAll(vals[..|vals| - 1], keep[..|keep| - 1]);
      assert vals == vals[..|vals| - 1] + [vals[|vals| - 1]];
    }
  }

  /** Every value `filter` returns is the value at a position on which the
      predicate is truthy, and every such position contributes its value. */
  lemma FilterExact<V>(list: Input<V>, pred: Call<V> -> bool)
    ensures var r := Select(Values(list), Verdicts(list, pred));
            var ps := SelectedPositions(Verdicts(list, pred));
            |r| == |ps|
            && (forall k :: 0 <= k < |ps| ==> r[k] == Values(list)[ps[k]])
            && (forall j :: 0 <= j < |Values(list)| ==> (j in ps <==> pred(CallbackArgs(list, j))))
  {
    SelectAtPositions(Values(list), Verdicts(list, pred));
    SelectedPositionsExact(Verdicts(list, pred));
  }

  /** A predicate that is always truthy makes `filter` return what `from`
      returns. */
  lemma FilterAlwaysTruthy<V>(list: Input<V>, pred: Call<V> -> bool)
    requires forall i :: 0 <= i < |Values(list)| ==> pred(CallbackArgs(list, i))
    ensures Select(Values(list), Verdicts(list, pred)) == Values(list)
  {
    SelectAll(Values(list), Verdicts(list, pred));
  }

  /** One more element for `Select`. */
  lemma SelectSnoc<V>(vals: seq<V>, keep: seq<bool>, i: nat)
    requires |vals| == |keep|
    requires i < |vals|
    ensures Select(vals[..i + 1], keep[..i + 1])
            == Select(vals[..i], keep[..i]) + (if keep[i] then [vals[i]] else [])
  {
    assert vals[..i + 1][..i] == vals[..i];
    assert keep[..i + 1][..i] == keep[..i];
  }

  /** `_.filter`: the values on which the predicate is truthy, in order; an
      object yields its values and `[]` is returned for anything else. */
  method Filter<V(==)>(list: Input<V>, pred: Call<V> -> bool) returns (r: seq<V>)
    ensures r == Select(Values(list), Verdicts(list, pred))
    ensures list.Other? ==> r == []
  {
    r := [];
    ghost var vals, keep := Values(list), Verdicts(list, pred);
    match list {
      case Seq(s) =>
        for i := 0 to |s|
          invariant r == Select(vals[..i], keep[..i])
        {
          var value := s[i];
          SelectSnoc(vals, keep, i);
          assert CallbackArgs(list, i) == ElemCall(value, IndexOf(s, value), list);
          assert vals[i] == value && keep[i] == pred(ElemCall(value, IndexOf(s, value), list));
          if pred(ElemCall(value, IndexOf(s, value), list)) {
            r := r + [value];
          }
        }
        assert vals[..|s|] == vals && keep[..|s|] == keep;
      case Rec(es) =>
        for i := 0 to |es|
          invariant r == Select(vals[..i], keep[..i])
        {
          var (key, value) := es[i];
          SelectSnoc(vals, keep, i);
          assert CallbackArgs(list, i) == PropCall(value, key, list);
          assert vals[i] == value && keep[i] == pred(PropCall(value, key, list));
          if pred(PropCall(value, key, list)) {
            r := r + [value];
          }
        }
        assert vals[..|es|] == vals && keep[..|es|] == keep;
      case Other =>
    }
  }

  /** `_.from`: the enumerated values in order, invoking nothing; an array
      is copied element by element. */
  method From<V>(list: Input<V>) returns (r: seq<V>)
    ensures r == Values(list)
    ensures list.Seq? ==> r == list.items
    ensures list.Rec? ==> |r| == |list.entries| && forall i :: 0 <= i < |r| ==> r[i] == list.entries[i].1
    ensures list.Other? ==> r == []
  {
    r := [];
    match list {
      case Seq(s) =>
        for i := 0 to |s|
          invariant r == s[..i]
        {
          r := r + [s[i]];
        }
      case Rec(es) =>
        for i := 0 to |es|
          invariant |r| == i
          invariant forall k :: 0 <= k < i ==> r[k] == es[k].1
        {
          r := r + [es[i].1];
        }
      case Other =>
    }
  }

  /** The left fold the `reduce` loops perform: `vals[k]` is passed with
      index `first + k`, together with the accumulator and the input. */
  function Fold<V>(callback: (V, V, int, Input<V>) -> V, list: Input<V>, acc: V, vals: seq<V>, first: int): (r: V)
    decreases |vals|
  {
    if vals == [] then acc
    else callback(Fold(callback, list, acc, vals[..|vals| - 1], first), vals[|vals| - 1], first + |vals| - 1, list)
  }

  /** Fold over one more value. */
  lemma FoldSnoc<V>(callback: (V, V, int, Input<V>) -> V, list: Input<V>, acc: V, vals: seq<V>, x: V, first: int)
    ensures Fold(callback, list, acc, vals + [x], first)
            == callback(Fold(callback, list, acc, vals, first), x, first + |vals|, list)
  {
    assert (vals + [x])[..|vals|] == vals;
  }

  /** Folding a concatenation folds the second part from the result of the
      first, its indices continuing where the first part's stopped. */
  lemma {:induction false} FoldAppend<V>(callback: (V, V, int, Input<V>) -> V, list: Input<V>, acc: V, a: seq<V>, b: seq<V>, first: int)
    ensures Fold(callback, list, acc, a + b, first)
            == Fold(callback, list, Fold(callback, list, acc, a, first), b, first + |a|)
    decreases |b|
  {
    if b == [] {
      assert a + b == a;
    } else {
      var b', x := b[..|b| - 1], b[|b| - 1];
      var mid := Fold(callback, list, acc, a, first);
      assert b == b' + [x];
      assert a + b == (a + b') + [x];
      calc {
        Fold(callback, list, acc, a + b, first);
        { FoldSnoc(callback, list, acc, a + b', x, first); }
        callback(Fold(callback, list, acc, a + b', first), x, first + |a| + |b'|, list);
        { FoldAppend(callback, list, acc, a, b', first); }
        callback(Fold(callback, list, mid, b', first + |a|), x, first + |a| + |b'|, list);
        { FoldSnoc(callback, list, mid, b', x, first + |a|); }
        Fold(callback, list, mid, b, first + |a|);
      }
    }
  }

  /** `_.reduce` of the functional-101 copy: the plain left fold from the
      given initial value (even `undefined`), passing indices 0..n-1; the
      initial value comes back unchanged when there is nothing to walk. */
  method ReduceFold<V>(list: Input<V>, callback: (V, V, int, Input<V>) -> V, initial: V) returns (r: V)
    ensures r == Fold(callback, list, initial, Values(list), 0)
    ensures |Values(list)| == 0 ==> r == initial
  {
    r := initial;
    var index := 0;
    match list {
      case Seq(s) =>
        for i := 0 to |s|
          invariant index == i
          invariant r == Fold(callback, list, initial, s[..i], 0)
        {
          FoldSnoc(callback, list, initial, s[..i], s[i], 0);
          assert s[..i + 1] == s[..i] + [s[i]];
          r := callback(r, s[i], index, list);
          index := index + 1;
        }
        assert s[..|s|] == s;
      case Rec(es) =>
        for i := 0 to |es|
          invariant index == i
          invariant r == Fold(callback, list, initial, Values(list)[..i], 0)
        {
          FoldSnoc(callback, list, initial, Values(list)[..i], es[i].1, 0);
          assert Values(list)[..i + 1] == Values(list)[..i] + [es[i].1];
          r := callback(r, es[i].1, index, list);
          index := index + 1;
        }
        assert Values(list)[..|es|] == Values(list);
      case Other =>
    }
  }

  /** The accumulator and index of the array loop of the seeding `reduce`
      after its first n iterations. While the index is 0 and the accumulator
      is `undefined`, an iteration stores `list[0]` instead of calling the
      callback. */
  function SeedingState<V(==)>(callback: (V, V, int, Input<V>) -> V, s: seq<V>, initial: V, undefined: V, n: nat): (state: (V, int))
    requires n <= |s|
  {
    if n == 0 then (initial, 0)
    else
      var (acc, index) := SeedingState(callback, s, initial, undefined, n - 1);
      if index == 0 && acc == undefined then (s[0], index)
      else (callback(acc, s[n - 1], index, Seq(s)), index + 1)
  }

  /** With an initial value given, the seeding loop is the plain left
      fold, passing indices 0..n-1. */
  lemma {:induction false} SeedingWithInitial<V>(callback: (V, V, int, Input<V>) -> V, s: seq<V>, initial: V, undefined: V, n: nat)
    requires n <= |s|
    requires initial != undefined
    ensures SeedingState(callback, s, initial, undefined, n) == (Fold(callback, Seq(s), initial, s[..n], 0), n)
  {
    if n > 0 {
      SeedingWithInitial(callback, s, initial, undefined, n - 1);
      FoldSnoc(callback, Seq(s), initial, s[..n - 1], s[n - 1], 0);
      assert s[..n] == s[..n - 1] + [s[n - 1]];
    }
  }

  /** With the initial value omitted, the first element seeds the
      accumulator and the fold covers the remaining elements, passing
      indices from 0: the callback runs n-1 times. */
  lemma {:induction false} SeedingFromFirst<V>(callback: (V, V, int, Input<V>) -> V, s: seq<V>, undefined: V, n: nat)
    requires 0 < n <= |s|
    requires s[0] != undefined
    ensures SeedingState(callback, s, undefined, undefined, n) == (Fold(callback, Seq(s), s[0], s[1..n], 0), n - 1)
  {
    if n == 1 {
      assert s[1..n] == [];
    } else {
      SeedingFromFirst(callback, s, undefined, n - 1);
      FoldSnoc(callback, Seq(s), s[0], s[1..n - 1], s[n - 1], 0);
      assert s[1..n] == s[1..n - 1] + [s[n - 1]];
    }
  }

  /** With the initial value omitted and an `undefined` first element,
      every iteration re-seeds with `list[0]`: the callback never runs and
      the result is `undefined`. */
  lemma {:induction false} SeedingUndefinedFirst<V>(callback: (V, V, int, Input<V>) -> V, s: seq<V>, undefined: V, n: nat)
    requires 0 < n <= |s|
    requires s[0] == undefined
    ensures SeedingState(callback, s, undefined, undefined, n) == (undefined, 0)
  {
    if n > 1 {
      SeedingUndefinedFirst(callback, s, undefined, n - 1);
    }
  }

  /** `_.reduce` of the 000 copy. With an initial value it is the plain
      left fold; without one (`undefined`), an array seeds the accumulator
      with its first element and folds the rest, the callback running n-1
      times with indices from 0; an object gets no seeding. */
  method ReduceSeeding<V(==)>(list: Input<V>, callback: (V, V, int, Input<V>) -> V, initial: V, undefined: V) returns (r: V)
    ensures initial != undefined ==> r == Fold(callback, list, initial, Values(list), 0)
    ensures !list.Seq? ==> r == Fold(callback, list, initial, Values(list), 0)
    ensures |Values(list)| == 0 ==> r == initial
    ensures list.Seq? && initial == undefined && |list.items| > 0 && list.items[0] != undefined ==>
              r == Fold(callback, list, list.items[0], list.items[1..], 0)
    ensures list.Seq? && initial == undefined && |list.items| > 0 && list.items[0] == undefined ==>
              r == undefined
  {
    r := initial;
    var index := 0;
    match list {
      case Seq(s) =>
        for i := 0 to |s|
          invariant (r, index) == SeedingState(callback, s, initial, undefined, i)
        {
          var value := s[i];
          if index == 0 && r == undefined {
            r := s[0];
          } else {
            r := callback(r, value, index, list);
            index := index + 1;
          }
        }
        if initial != undefined {
          SeedingWithInitial(callback, s, initial, undefined, |s|);
          assert s[..|s|] == s;
        } else if |s| > 0 && s[0] != undefined {
          SeedingFromFirst(callback, s, undefined, |s|);
        } else if |s| > 0 {
          SeedingUndefinedFirst(callback, s, undefined, |s|);
        }
      case Rec(es) =>
        for i := 0 to |es|
          invariant index == i
          invariant r == Fold(callback, list, initial, Values(list)[..i], 0)
        {
          FoldSnoc(callback, list, initial, Values(list)[..i], es[i].1, 0);
          assert Values(list)[..i + 1] == Values(list)[..i] + [es[i].1];
          r := callback(r, es[i].1, index, list);
          index := index + 1;
        }
        assert Values(list)[..|es|] == Values(list);
      case Other =>
    }
  }
}
