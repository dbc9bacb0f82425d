/** The prototype-based queue: `enqueue` stores an item under the current
    size of `data`, `dequeue` reads the item under `counter` and moves
    `counter` on. */
module QueuePrototype {
  import opened Wrappers
  import opened KeyRanges

  /** `data` holds the items from oldest to newest under the consecutive
      keys `counter`, `counter + 1`, ... and nothing else. */
  ghost predicate Window<V>(data: map<int, V>, counter: int, contents: seq<V>)
  {
    |data| == |contents| && data == Span(counter, contents)
  }

  /** Storing an item one past the back of the window extends it. */
  lemma WindowAppend<V>(data: map<int, V>, counter: int, contents: seq<V>, value: V)
    requires Window(data, counter, contents)
    ensures Window(data[counter + |contents| := value], counter, contents + [value])
  {
    SpanExact(counter, contents);
    assert (contents + [value])[..|contents|] == contents;
  }

  /** Removing the oldest item moves the window one key on. */
  lemma WindowShift<V>(data: map<int, V>, counter: int, contents: seq<V>)
    requires Window(data, counter, contents) && |contents| > 0
    ensures counter in data && data[counter] == contents[0]
    ensures Window(data - {counter}, counter + 1, contents[1..])
  {
    SpanExact(counter, contents);
    assert data[counter + 0] == contents[0];
    SpanDropFirst(counter, contents);
    SpanExact(counter + 1, contents[1..]);
  }

  class Queue<V> {
    var data: map<int, V>
    var counter: int

    /** The queued items from oldest to newest */
    ghost var Contents: seq<V>

    ghost predicate Valid()
      reads this
    {
      Window(data, counter, Contents)
    }

    /** `new Queue()`: empty `data`, `counter` 0. */
    constructor ()
      ensures Valid()
      ensures data == map[] && counter == 0 && Contents == []
    {
      data := map[];
      counter := 0;
      Contents := [];
    }

    /** `size`: the number of entries in `data`. */
    function Size(): (n: nat)
      reads this
      ensures Valid() ==> n == |Contents|
    {
      |data|
    }

    /** `enqueue`: stores the item under the key equal to the current size.
        That is the back of the queue only while nothing has been dequeued
        (`counter` is 0); otherwise the key may already be taken. */
    method Enqueue(value: V)
      modifies this
      ensures data == old(data)[old(|data|) := value] && counter == old(counter)
      ensures old(Valid()) && counter == 0 ==> Valid() && Contents == old(Contents) + [value]
    {
      if Valid() && counter == 0 {
        WindowAppend(data, counter, Contents, value);
        Contents := Contents + [value];
      }
      data := data[|data| := value];
    }

    /** Stores the item under the key one past the back of the window, so
        that it joins the back of the queue whatever `counter` is. */
    method EnqueueAtTail(value: V)
      modifies this
      ensures data == old(data)[old(counter) + old(|data|) := value] && counter == old(counter)
      ensures old(Valid()) ==> Valid() && Contents == old(Contents) + [value]
    {
      if Valid() {
        WindowAppend(data, counter, Contents, value);
        Contents := Contents + [value];
      }
      data := data[counter + |data| := value];
    }

    /** `dequeue`: on an empty queue resets `counter` to 0 and returns
        nothing; otherwise returns the item under `counter` (nothing if
        that key is absent), deletes that key and moves `counter` on. On a
        valid queue that is the oldest item. */
    method Dequeue() returns (item: Option<V>)
      modifies this
      ensures old(|data|) == 0 ==> item == None && data == old(data) && counter == 0
      ensures old(|data|) > 0 ==>
                && item == (if old(counter) in old(data) then Some(old(data)[old(counter)]) else None)
                && data == old(data) - {old(counter)}
                && counter == old(counter) + 1
      ensures old(Valid()) ==> Valid()
      ensures old(Valid()) && old(Contents) == [] ==> item == None && Contents == []
      ensures old(Valid()) && old(Contents) != [] ==>
                item == Some(old(Contents)[0]) && Contents == old(Contents)[1..]
    {
      if |data| == 0 {
        counter := 0;
        return None;
      }
      item := if counter in data then Some(data[counter]) else None;
      if Valid() {
        WindowShift(data, counter, Contents);
        Contents := Contents[1..];
      }
      data := data - {counter};
      counter := counter + 1;
    }
  }

  /** The test suite's run: two items come back in order, the first
      dequeue removes only the first item, and a third dequeue finds the
      queue empty, returns nothing and resets `counter` to 0. */
  method EnqueueTwiceDequeueThrice<V(==)>(first: V, second: V)
    returns (x: Option<V>, afterFirst: map<int, V>, y: Option<V>, z: Option<V>, counter: int)
    requires first != second
    ensures x == Some(first) && first !in afterFirst.Values && second in afterFirst.Values
    ensures y == Some(second) && z == None && counter == 0
  {
    var q := new Queue<V>();
    q.Enqueue(first);
    q.Enqueue(second);
    x := q.Dequeue();
    afterFirst := q.data;
    assert afterFirst == map[1 := second];
    y := q.Dequeue();
    z := q.Dequeue();
    counter := q.counter;
  }

  /** An item enqueued after a dequeue lands on the key of an item still
      queued: of `a`, `b`, `c` only `a` and `c` ever come out. */
  method EnqueueAfterDequeueOverwrites<V>(a: V, b: V, c: V)
    returns (x: Option<V>, y: Option<V>, z: Option<V>, lost: map<int, V>)
    ensures x == Some(a) && y == Some(c) && z == None
    ensures lost == map[1 := c]
  {
    var q := new Queue<V>();
    q.Enqueue(a);
    q.Enqueue(b);
    assert q.data == map[0 := a, 1 := b];
    x := q.Dequeue();
    assert q.data == map[1 := b] && q.counter == 1;
    q.Enqueue(c);
    lost := q.data;
    assert lost == map[1 := c];
    y := q.Dequeue();
    assert q.data == map[];
    z := q.Dequeue();
  }

  /** An item enqueued after the queue has been emptied by a dequeue lands
      under key 0 while `counter` is 1: it never comes out, every later
      dequeue returns nothing, and `size()` stays 1 so `counter` is never
      reset. */
  method EnqueueAfterDrainStrands<V>(a: V, b: V)
    returns (x: Option<V>, y: Option<V>, z: Option<V>, size: nat, stranded: map<int, V>, counter: int)
    ensures x == Some(a) && y == None && z == None
    ensures size == 1 && stranded == map[0 := b] && counter == 3
  {
    var q := new Queue<V>();
    q.Enqueue(a);
    x := q.Dequeue();
    assert q.data == map[] && q.counter == 1;
    q.Enqueue(b);
    assert q.data == map[0 := b];
    y := q.Dequeue();
    z := q.Dequeue();
    size := q.Size();
    stranded := q.data;
    counter := q.counter;
  }

  /** The same run with the item stored one past the back of the window:
      `b` comes out. */
  method EnqueueAtTailAfterDrain<V>(a: V, b: V) returns (x: Option<V>, y: Option<V>, z: Option<V>)
    ensures x == Some(a) && y == Some(b) && z == None
  {
    var q := new Queue<V>();
    q.EnqueueAtTail(a);
    x := q.Dequeue();
    q.EnqueueAtTail(b);
    y := q.Dequeue();
    z := q.Dequeue();
  }

  /** The same run with items stored one past the back of the window:
      `a`, `b`, `c` come out in the order they went in. */
  method EnqueueAtTailKeepsOrder<V>(a: V, b: V, c: V)
    returns (x: Option<V>, y: Option<V>, z: Option<V>, w: Option<V>)
    ensures x == Some(a) && y == Some(b) && z == Some(c) && w == None
  {
    var q := new Queue<V>();
    q.EnqueueAtTail(a);
    q.EnqueueAtTail(b);
    x := q.Dequeue();
    q.EnqueueAtTail(c);
    y := q.Dequeue();
    z := q.Dequeue();
    w := q.Dequeue();
  }
}
