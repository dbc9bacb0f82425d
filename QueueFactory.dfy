/** The factory-made queue: a `data` object from integer keys to items
    and a `counter` naming the next key to fill. */
module QueueFactory {
  import opened Wrappers
  import IntSets

  /** The `data` object that holds `contents[i]` under `keys[i]`. */
  ghost function Stored<V>(keys: seq<int>, contents: seq<V>): (data: map<int, V>)
    requires |keys| == |contents|
  {
    if |keys| == 0 then map[]
    else Stored(keys[..|keys| - 1], contents[..|keys| - 1])[keys[|keys| - 1] := contents[|keys| - 1]]
  }

  ghost predicate Increasing(keys: seq<int>)
  {
    forall i, j :: 0 <= i < j < |keys| ==> keys[i] < keys[j]
  }

  /** The keys, in increasing order and all below `counter`, hold the
      items from oldest to newest, and `data` holds nothing else. */
  ghost predicate Layout<V>(data: map<int, V>, keys: seq<int>, contents: seq<V>, counter: int)
  {
    && |keys| == |contents| == |data|
    && Increasing(keys)
    && (forall i :: 0 <= i < |keys| ==> keys[i] < counter)
    && data == Stored(keys, contents)
  }

  /** With distinct keys, `Stored` holds exactly the keys, each with its item. */
  lemma {:induction false} StoredExact<V>(keys: seq<int>, contents: seq<V>)
    requires |keys| == |contents| && Increasing(keys)
    ensures forall k :: k in Stored(keys, contents) <==> k in keys
    ensures forall i :: 0 <= i < |keys| ==> Stored(keys, contents)[keys[i]] == contents[i]
    ensures |Stored(keys, contents)| == |keys|
  {
    if |keys| > 0 {
      var n := |keys| - 1;
      StoredExact(keys[..n], contents[..n]);
      assert keys[n] !in keys[..n];
      forall k ensures k in keys <==> k in keys[..n] || k == keys[n] {
        assert keys == keys[..n] + [keys[n]];
      }
    }
  }

  /** Dropping the first key and item removes exactly that key. */
  lemma {:induction false} StoredTail<V>(keys: seq<int>, contents: seq<V>)
    requires |keys| == |contents| > 0 && Increasing(keys)
    ensures Stored(keys[1..], contents[1..]) == Stored(keys, contents) - {keys[0]}
  {
    var n := |keys| - 1;
    if n > 0 {
      StoredTail(keys[..n], contents[..n]);
      assert keys[1..][..n - 1] == keys[..n][1..];
      assert contents[1..][..n - 1] == contents[..n][1..];
    }
  }

  /** Storing under `counter` and moving `counter` one further keeps the
      layout, with the item at the back. */
  lemma AppendKeepsLayout<V>(data: map<int, V>, keys: seq<int>, contents: seq<V>, counter: int, value: V)
    requires Layout(data, keys, contents, counter)
    ensures forall k :: k in data ==> k < counter
    ensures Layout(data[counter := value], keys + [counter], contents + [value], counter + 1)
  {
    KeysBelow(data, keys, contents, counter);
    IncreasingAppend(keys, counter);
    var ks, cs := keys + [counter], contents + [value];
    assert ks[..|ks| - 1] == keys && cs[..|cs| - 1] == contents;
    assert Stored(ks, cs) == data[counter := value];
  }

  /** Every key of a layout is below `counter`. */
  lemma KeysBelow<V>(data: map<int, V>, keys: seq<int>, contents: seq<V>, counter: int)
    requires Layout(data, keys, contents, counter)
    ensures forall k :: k in data ==> k < counter
  {
    StoredExact(keys, contents);
  }

  /** A key above all the others keeps the keys increasing. */
  lemma IncreasingAppend(keys: seq<int>, key: int)
    requires Increasing(keys) && forall i :: 0 <= i < |keys| ==> keys[i] < key
    ensures Increasing(keys + [key])
  {
    var ks := keys + [key];
    forall i, j | 0 <= i < j < |ks| ensures ks[i] < ks[j] {
      assert ks[i] == keys[i];
    }
  }

  /** In a non-empty layout the first key is the least one, and removing it
      keeps the layout. */
  lemma RemoveFirstKeepsLayout<V>(data: map<int, V>, keys: seq<int>, contents: seq<V>, counter: int, least: int)
    requires Layout(data, keys, contents, counter)
    requires least in data && forall k :: k in data ==> least <= k
    ensures |keys| > 0 && least == keys[0] && data[least] == contents[0]
    ensures Layout(data - {least}, keys[1..], contents[1..], counter)
  {
    StoredExact(keys, contents);
    assert keys[0] in data;
    StoredTail(keys, contents);
  }

  class Queue<V> {
    var data: map<int, V>
    var counter: int

    /** The queued items from oldest to newest, and the keys holding them */
    ghost var Contents: seq<V>
    ghost var Keys: seq<int>

    ghost predicate Valid()
      reads this
    {
      Layout(data, Keys, Contents, counter)
    }

    /** `Queue()`: empty `data`, `counter` 0. */
    constructor ()
      ensures Valid()
      ensures data == map[] && counter == 0 && Contents == []
    {
      data := map[];
      counter := 0;
      Contents := [];
      Keys := [];
    }

    /** `size`: the number of entries in `data`. */
    function Size(): (n: nat)
      reads this
      ensures Valid() ==> n == |Contents|
    {
      |data|
    }

    /** `enqueue`: stores the item under the old `counter`, then sets
        `counter` one past the greatest key. With every key below
        `counter`, the counter grows by exactly one and the item joins the
        back of the queue. */
    method Enqueue(value: V)
      modifies this
      ensures data == old(data)[old(counter) := value]
      ensures counter - 1 in data && forall k :: k in data ==> k < counter
      ensures old(Valid()) ==> Valid() && counter == old(counter) + 1
      ensures old(Valid()) ==> Contents == old(Contents) + [value] && Size() == old(Size()) + 1
    {
      ghost var wasValid := Valid();
      if wasValid {
        AppendKeepsLayout(data, Keys, Contents, counter, value);
      }
      ghost var key := counter;
      data := data[counter := value];
      assert key in data.Keys;
      var greatest := IntSets.Max(data.Keys);
      counter := greatest + 1;
      Keys := Keys + [key];
      Contents := Contents + [value];
      if wasValid {
        assert greatest == key;
      }
    }

    /** `dequeue`: on an empty queue returns nothing and changes nothing;
        otherwise removes the least key and returns its item, `counter`
        unchanged. On a valid queue that is the oldest item. */
    method Dequeue() returns (item: Option<V>)
      modifies this
      ensures old(|data|) == 0 ==> item == None && data == old(data)
      ensures old(|data|) > 0 ==>
                exists k :: k in old(data) && (forall j :: j in old(data) ==> k <= j)
                            && item == Some(old(data)[k]) && data == old(data) - {k}
      ensures old(|data|) > 0 ==> Size() == old(Size()) - 1
      ensures counter == old(counter)
      ensures old(Valid()) ==> Valid()
      ensures old(Valid()) && old(Contents) == [] ==> item == None && Contents == []
      ensures old(Valid()) && old(Contents) != [] ==>
                item == Some(old(Contents)[0]) && Contents == old(Contents)[1..]
    {
      if |data| == 0 {
        return None;
      }
      assert |data.Keys| > 0;
      var least := IntSets.Min(data.Keys);
      item := Some(data[least]);
      if Valid() {
        RemoveFirstKeepsLayout(data, Keys, Contents, counter, least);
        Keys := Keys[1..];
        Contents := Contents[1..];
      }
      data := data - {least};
    }
  }

  /** The test suite's run: two items enqueued sit under keys 0 and 1;
      they come back in the order they went in, the first dequeue leaving
      only key 1, and a third dequeue finds the queue empty. */
  method EnqueueTwiceDequeueThrice<V>(first: V, second: V)
    returns (filled: map<int, V>, drained: map<int, V>, x: Option<V>, y: Option<V>, z: Option<V>)
    ensures filled == map[0 := first, 1 := second]
    ensures drained == map[1 := second]
    ensures x == Some(first) && y == Some(second) && z == None
  {
    var q := new Queue<V>();
    q.Enqueue(first);
    assert q.data == map[0 := first] && q.counter == 1;
    q.Enqueue(second);
    filled := q.data;
    x := q.Dequeue();
    drained := q.data;
    y := q.Dequeue();
    z := q.Dequeue();
  }
}
