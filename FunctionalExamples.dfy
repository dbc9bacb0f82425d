/** Worked examples, derived from the contracts of the `Functional`
    members alone: the behaviour the helpers' test suite expects of `each`
    and `map`, and small cases of `filter`, `from` and `reduce`, which it
    does not exercise. */
module FunctionalExamples {
  import opened Functional

  /** `each` over `[1, 2, 3]` passes the indices 0, 1 and 2. */
  method EachPassesIndices() returns (indices: seq<int>)
    ensures indices == [0, 1, 2]
  {
    var calls := Each(Seq([1, 2, 3]));
    assert calls[0] == CallbackArgs(Seq([1, 2, 3]), 0);
    assert calls[1] == CallbackArgs(Seq([1, 2, 3]), 1);
    assert calls[2] == CallbackArgs(Seq([1, 2, 3]), 2);
    indices := [calls[0].index, calls[1].index, calls[2].index];
  }

  /** `each` over a string never invokes its callback. */
  method EachOnString() returns (count: nat)
    ensures count == 0
  {
    var calls := Each<char>(Other);
    count := |calls|;
  }

  /** Doubling `[1, 2, 3]` with `map` gives `[2, 4, 6]`. */
  method MapDoubles() returns (r: seq<int>)
    ensures r == [2, 4, 6]
  {
    r := Map(Seq([1, 2, 3]), (c: Call<int>) => c.value * 2);
  }

  /** Pluralising the values of `{0: 'cat', 1: 'dog', 2: 'frog'}` with
      `map` gives an array, `['cats', 'dogs', 'frogs']`. */
  method MapPluralizesObject() returns (r: seq<string>)
    ensures r == ["cats", "dogs", "frogs"]
  {
    var obj := Rec([("0", "cat"), ("1", "dog"), ("2", "frog")]);
    r := Map(obj, (c: Call<string>) => c.value + "s");
    assert Values(obj)[0] == "cat" && Values(obj)[1] == "dog" && Values(obj)[2] == "frog";
    assert r[0] == "cats" && r[1] == "dogs" && r[2] == "frogs";
  }

  /** For an object, `map` passes the running counter 0, 1, 2 as third
      argument. */
  method MapPassesCounter() returns (r: seq<int>)
    ensures r == [0, 1, 2]
  {
    var obj := Rec([("0", "cat"), ("1", "dog"), ("2", "frog")]);
    r := Map(obj, (c: Call<string>) => if c.CountedPropCall? then c.counter as int else -1);
  }

  /** `map` of `{}` is `[]`. */
  method MapEmptyObject() returns (r: seq<string>)
    ensures r == []
  {
    r := Map(Rec([]), (c: Call<string>) => c.value + "s");
  }

  /** Keeping the values above 3 of `{dogs: 3, cats: 2, birds: 4,
      spiders: 100}` gives `[4, 100]`. */
  method FilterObject() returns (r: seq<int>)
    ensures r == [4, 100]
  {
    var obj := Rec([("dogs", 3), ("cats", 2), ("birds", 4), ("spiders", 100)]);
    var pred := (c: Call<int>) => c.value > 3;
    r := Filter(obj, pred);
    var vals, keep := Values(obj), Verdicts(obj, pred);
    assert vals == [3, 2, 4, 100] by {
      assert vals[0] == 3 && vals[1] == 2 && vals[2] == 4 && vals[3] == 100;
    }
    assert keep == [false, false, true, true] by {
      assert keep[0] == pred(CallbackArgs(obj, 0)) && CallbackArgs(obj, 0).value == 3;
      assert keep[1] == pred(CallbackArgs(obj, 1)) && CallbackArgs(obj, 1).value == 2;
      assert keep[2] == pred(CallbackArgs(obj, 2)) && CallbackArgs(obj, 2).value == 4;
      assert keep[3] == pred(CallbackArgs(obj, 3)) && CallbackArgs(obj, 3).value == 100;
    }
    assert [3, 2, 4, 100][..3] == [3, 2, 4] && [false, false, true, true][..3] == [false, false, true];
    assert [3, 2, 4][..2] == [3, 2] && [false, false, true][..2] == [false, false];
    assert [3, 2][..1] == [3] && [false, false][..1] == [false];
    assert [3][..0] == [] && [false][..0] == [];
    assert Select([3], [false]) == [];
    assert Select([3, 2], [false, false]) == [];
    assert Select([3, 2, 4], [false, false, true]) == [4];
    assert Select([3, 2, 4, 100], [false, false, true, true]) == [4, 100];
  }

  /** `from` of `{0: 'bird', 1: 'dog'}` is `['bird', 'dog']`. */
  method FromObject() returns (r: seq<string>)
    ensures r == ["bird", "dog"]
  {
    r := From(Rec([("0", "bird"), ("1", "dog")]));
  }

  /** Summing `[1, 2, 3, 4]` from 0 with either `reduce` gives 10. */
  method ReduceSums() returns (plain: int, seeding: int)
    ensures plain == 10 && seeding == 10
  {
    var add := (acc: int, x: int, i: int, l: Input<int>) => acc + x;
    var list := Seq([1, 2, 3, 4]);
    plain := ReduceFold(list, add, 0);
    seeding := ReduceSeeding(list, add, 0, -1);
    assert [1, 2, 3, 4][..3] == [1, 2, 3];
    assert [1, 2, 3][..2] == [1, 2];
    assert [1, 2][..1] == [1];
  }
}
