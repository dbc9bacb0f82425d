/** Objects whose integer keys form one run of consecutive numbers, as the
    map-backed stacks and the prototype-based queue keep them. */
module KeyRanges {

  /** The object holding `items[i]` under the key `first + i`. */
  ghost function Span<V>(first: int, items: seq<V>): (m: map<int, V>)
  {
    if |items| == 0 then map[]
    else Span(first, items[..|items| - 1])[first + |items| - 1 := items[|items| - 1]]
  }

  /** `Span` has exactly the keys `first` to `first + |items| - 1`, each
      holding its item. */
  lemma {:induction false} SpanExact<V>(first: int, items: seq<V>)
    ensures forall k :: k in Span(first, items) <==> first <= k < first + |items|
    ensures forall i :: 0 <= i < |items| ==> Span(first, items)[first + i] == items[i]
    ensures |Span(first, items)| == |items|
  {
    if |items| > 0 {
      var n := |items|;
      var prefix := items[..n - 1];
      SpanExact(first, prefix);
      assert first + n - 1 !in Span(first, prefix);
      forall i | 0 <= i < n ensures Span(first, items)[first + i] == items[i] {
        if i < n - 1 {
          assert prefix[i] == items[i];
        }
      }
    }
  }

  /** Removing the first key of a span leaves the span of the later items. */
  lemma {:induction false} SpanDropFirst<V>(first: int, items: seq<V>)
    requires |items| > 0
    ensures Span(first, items) - {first} == Span(first + 1, items[1..])
  {
    var n := |items|;
    if n == 1 {
      assert Span(first, items) == map[first := items[0]];
    } else {
      var prefix := items[..n - 1];
      SpanDropFirst(first, prefix);
      assert items[1..][..n - 2] == prefix[1..];
      assert first + 1 + (n - 1) - 1 == first + n - 1;
    }
  }

  /** Removing the last key of a span leaves the span of the earlier items. */
  lemma SpanDropLast<V>(first: int, items: seq<V>)
    requires |items| > 0
    ensures Span(first, items) - {first + |items| - 1} == Span(first, items[..|items| - 1])
  {
    SpanExact(first, items[..|items| - 1]);
  }
}
