/** The stack kept in one string with `|` before each item, whose pop
    splits the string at `|`, takes the last piece off and joins the rest
    back together. The module exports one shared instance. */
module SplitJoinStack {
  import opened JsStrings

  const Bar: string := "|"

  class Stack {
    var storage: string

    /** The stacked items from oldest to newest */
    ghost var Contents: seq<string>

    /** `storage` is the items, each preceded by `|`, and no item contains
        `|`. */
    ghost predicate Valid()
      reads this
    {
      && storage == Delimited(Contents, Bar)
      && forall k :: 0 <= k < |Contents| ==> Clean(Contents[k], Bar)
    }

    /** `new Stack()`, the exported instance: an empty `storage`. */
    constructor ()
      ensures Valid()
      ensures storage == "" && Contents == []
    {
      storage := "";
      Contents := [];
    }

    /** `size`: one less than the number of pieces between the `|`s; on a
        valid stack, the number of items. */
    function Size(): (n: nat)
      reads this
      ensures Valid() ==> n == |Contents|
    {
      SplitSize(storage, Contents, Bar);
      |Split(storage, Bar)| - 1
    }

    /** `push`: appends `|` and the item. An item without `|` adds one to
        `size` whatever `storage` held, and joins the top of a valid
        stack. */
    method Push(value: string)
      modifies this
      ensures storage == old(storage) + Bar + value
      ensures Clean(value, Bar) ==> Size() == old(Size()) + 1
      ensures old(Valid()) && Clean(value, Bar) ==> Valid() && Contents == old(Contents) + [value]
    {
      if Clean(value, Bar) {
        SplitSnocClean(storage, value, Bar);
      }
      storage := storage + Bar + value;
      if storage == Delimited(Contents, Bar) + Bar + value {
        Contents := Contents + [value];
        assert Contents[..|Contents| - 1] == old(Contents);
      }
    }

    /** `pop`: splits at `|`, reverses the pieces, takes the first one off
        as the item, and joins the others back in their order. With at
        least one `|` the item is what follows the last `|`, so it holds
        no `|`, and `storage` is what precedes it; with none the item is all of
        `storage`, which becomes empty. On a valid stack that is the
        newest item, and popping an empty stack returns the empty string. */
    method Pop() returns (item: string)
      modifies this
      ensures old(Size()) > 0 ==> old(storage) == storage + Bar + item && Clean(item, Bar)
      ensures old(Size()) == 0 ==> item == old(storage) && storage == ""
      ensures old(Valid()) ==> Valid()
      ensures old(Valid()) && old(Contents) == [] ==> item == "" && storage == ""
      ensures old(Valid()) && old(Contents) != [] ==>
                && item == old(Contents)[|old(Contents)| - 1]
                && Contents == old(Contents)[..|old(Contents)| - 1]
    {
      ghost var s := storage;
      ghost var pieces := Split(storage, Bar);
      var tempStorage := Reverse(Split(storage, Bar));
      item := Join(tempStorage[0..1], "");
      tempStorage := tempStorage[1..];
      storage := Join(Reverse(tempStorage), Bar);
      ghost var n := |pieces|;
      ReverseDropFirst(pieces);
      assert item == pieces[n - 1];
      SplitLast(s, Bar);
      if s == Delimited(Contents, Bar) && forall k :: 0 <= k < |Contents| ==> Clean(Contents[k], Bar) {
        SplitDelimited(Contents, Bar);
        if |Contents| > 0 {
          PiecesOfStack(Contents);
          Contents := Contents[..|Contents| - 1];
        }
      }
    }
  }

  /** On a valid non-empty stack the last piece is the newest item and the
      other pieces join back into the text of the older items. */
  lemma PiecesOfStack(contents: seq<string>)
    requires |contents| > 0 && forall k :: 0 <= k < |contents| ==> Clean(contents[k], Bar)
    ensures var pieces, m := Split(Delimited(contents, Bar), Bar), |contents|;
            && |pieces| == m + 1
            && pieces[m] == contents[m - 1]
            && Join(pieces[..m], Bar) == Delimited(contents[..m - 1], Bar)
  {
    var m := |contents|;
    SplitDelimited(contents, Bar);
    var pieces := Split(Delimited(contents, Bar), Bar);
    assert pieces[..m] == [""] + contents[..m - 1];
    JoinDelimited(contents[..m - 1], Bar);
  }

  /** A push and a pop of an item without `|` return the item and restore
      `storage`, whatever it held before, and the stacked items of a valid
      stack. */
  method PushThenPop(s: Stack, value: string) returns (item: string)
    requires Clean(value, Bar)
    modifies s
    ensures item == value && s.storage == old(s.storage)
    ensures old(s.Valid()) ==> s.Valid() && s.Contents == old(s.Contents)
  {
    ghost var before := s.storage;
    s.Push(value);
    ghost var pushed := s.storage;
    SplitHoldingBar(before, value);
    item := s.Pop();
    LastSeparator(before, value, Bar);
    LastSeparator(s.storage, item, Bar);
    assert s.storage == pushed[..|before|];
  }

  /** A string holding `|` splits into at least two pieces. */
  lemma SplitHoldingBar(prefix: string, v: string)
    ensures |Split(prefix + Bar + v, Bar)| > 1
  {
    var t := prefix + Bar + v;
    JoinSplit(t, Bar);
    SplitPiecesClean(t, Bar);
    assert t[|prefix|] in Bar;
  }
}
