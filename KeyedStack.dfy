/** The stack kept in a `data` object under the keys 1, 2, ..., n, the
    newest item under the key n equal to the object's size. The factory
    function and the prototype-based constructor build the same object. */
module KeyedStack {
  import opened Wrappers
  import opened KeyRanges

  /** `data` holds the items from oldest to newest under the keys 1 to n
      and nothing else. */
  ghost predicate Packed<V>(data: map<int, V>, contents: seq<V>)
  {
    |data| == |contents| && data == Span(1, contents)
  }

  /** Removing the newest item leaves the rest packed. */
  lemma PackedDropLast<V>(data: map<int, V>, contents: seq<V>)
    requires Packed(data, contents) && |contents| > 0
    ensures |data| in data && data[|data|] == contents[|contents| - 1]
    ensures Packed(data - {|data|}, contents[..|contents| - 1])
  {
    var n := |contents|;
    SpanExact(1, contents);
    assert data[1 + (n - 1)] == contents[n - 1];
    SpanDropLast(1, contents);
    SpanExact(1, contents[..n - 1]);
  }

  /** Adding an item under the key one past the size keeps it packed. */
  lemma PackedAppend<V>(data: map<int, V>, contents: seq<V>, value: V)
    requires Packed(data, contents)
    ensures |data| + 1 !in data
    ensures Packed(data[|data| + 1 := value], contents + [value])
  {
    SpanExact(1, contents);
    assert (contents + [value])[..|contents|] == contents;
  }

  class Stack<V> {
    var data: map<int, V>

    /** The stacked items from oldest to newest */
    ghost var Contents: seq<V>

    ghost predicate Valid()
      reads this
    {
      Packed(data, Contents)
    }

    /** `Stack()` / `new Stack()`: an empty `data` object. */
    constructor ()
      ensures Valid()
      ensures data == map[] && Contents == []
    {
      data := map[];
      Contents := [];
    }

    /** `size`: the number of keys in `data`. */
    function Size(): (n: nat)
      reads this
      ensures Valid() ==> n == |Contents|
    {
      |data|
    }

    /** `push`: stores the item under the key one past the size, which is
        the top of a packed stack. */
    method Push(value: V)
      modifies this
      ensures data == old(data)[old(|data|) + 1 := value]
      ensures old(Valid()) ==> Valid() && Contents == old(Contents) + [value]
      ensures old(Valid()) ==> Size() == old(Size()) + 1
    {
      if Valid() {
        PackedAppend(data, Contents, value);
        Contents := Contents + [value];
      }
      data := data[|data| + 1 := value];
    }

    /** `pop`: with a size of 0 returns nothing and changes nothing;
        otherwise deletes the key equal to the size and returns its item
        (nothing if that key is absent). On a packed stack that is the
        newest item. */
    method Pop() returns (item: Option<V>)
      modifies this
      ensures old(|data|) == 0 ==> item == None && data == old(data)
      ensures old(|data|) > 0 ==>
                && item == (if old(|data|) in old(data) then Some(old(data)[old(|data|)]) else None)
                && data == old(data) - {old(|data|)}
      ensures old(Valid()) ==> Valid()
      ensures old(Valid()) && old(Contents) == [] ==> item == None && Contents == []
      ensures old(Valid()) && old(Contents) != [] ==>
                && item == Some(old(Contents)[|old(Contents)| - 1])
                && Contents == old(Contents)[..|old(Contents)| - 1]
    {
      var index := |data|;
      item := if index in data then Some(data[index]) else None;
      if index > 0 {
        if Valid() {
          PackedDropLast(data, Contents);
          Contents := Contents[..|Contents| - 1];
        }
        data := data - {index};
        return item;
      }
      item := None;
    }
  }

  /** On any stack whose key one past the size is free, a push followed by
      a pop returns the pushed item and restores `data`. */
  method PushThenPop<V>(s: Stack<V>, value: V) returns (item: Option<V>)
    requires |s.data| + 1 !in s.data
    modifies s
    ensures item == Some(value) && s.data == old(s.data)
  {
    s.Push(value);
    assert |s.data| == |old(s.data)| + 1;
    item := s.Pop();
  }

  /** Two stacks do not share their items: after a push onto one, a pop
      from a fresh second stack returns nothing. */
  method SeparateInstances<V>(first: V) returns (popped: Option<V>)
    ensures popped == None
  {
    var myStack := new Stack<V>();
    var secondStack := new Stack<V>();
    myStack.Push(first);
    popped := secondStack.Pop();
  }

  /** The test suite's runs: three pushes give a size of 3; after two
      pushes a pop returns the second item and leaves only the first,
      under key 1. */
  method PushTwicePopOnce<V>(first: V, second: V)
    returns (sizeOfThree: nat, popped: Option<V>, remaining: map<int, V>)
    ensures sizeOfThree == 3
    ensures popped == Some(second) && remaining == map[1 := first]
  {
    var s := new Stack<V>();
    s.Push(first);
    s.Push(second);
    s.Push(first);
    sizeOfThree := s.Size();
    var t := new Stack<V>();
    t.Push(first);
    t.Push(second);
    popped := t.Pop();
    remaining := t.data;
  }
}
