/** The stacks kept in one string: each push appends a three-character
    separator and the item, each pop cuts the string at the last
    separator. The prototype-based version separates with `***`, the
    class-based one with `___`; otherwise they are the same. */
module StringStacks {
  import opened JsStrings

  datatype Flavor = Asterisks | Underscores

  /** The separator each version writes before an item. */
  function Separator(f: Flavor): (d: string)
    ensures |d| == 3 && d[0] == d[1] == d[2]
  {
    match f
    case Asterisks => "***"
    case Underscores => "___"
  }

  class Stack {
    const flavor: Flavor
    var storage: string

    /** The stacked items from oldest to newest */
    ghost var Contents: seq<string>

    /** `storage` is the items, each preceded by the separator, and no item
        shares a character with the separator. */
    ghost predicate Valid()
      reads this
    {
      && storage == Delimited(Contents, Separator(flavor))
      && forall k :: 0 <= k < |Contents| ==> Clean(Contents[k], Separator(flavor))
    }

    /** `new Stack()`: an empty `storage`. */
    constructor (f: Flavor)
      ensures Valid()
      ensures flavor == f && storage == "" && Contents == []
    {
      flavor := f;
      storage := "";
      Contents := [];
    }

    /** `size`: one less than the number of pieces `storage` splits into
        at the separator; on a valid stack, the number of items. */
    function Size(): (n: nat)
      reads this
      ensures Valid() ==> n == |Contents|
    {
      SplitSize(storage, Contents, Separator(flavor));
      |Split(storage, Separator(flavor))| - 1
    }

    /** `push`: appends the separator and the item. An item that shares
        no character with the separator joins the top of a valid stack;
        any other push leaves `Contents` as it was. */
    method Push(value: string)
      modifies this
      ensures storage == old(storage) + Separator(flavor) + value
      ensures old(Valid()) && Clean(value, Separator(flavor)) ==>
                Valid() && Contents == old(Contents) + [value]
      ensures !(old(Valid()) && Clean(value, Separator(flavor))) ==> Contents == old(Contents)
    {
      var d := Separator(flavor);
      if Valid() && Clean(value, d) {
        Contents := Contents + [value];
        assert Contents[..|Contents| - 1] == old(Contents);
      }
      storage := storage + d + value;
    }

    /** `pop`: returns what follows the last separator and cuts `storage`
        just before it. Without a separator, it returns what follows the
        first two characters and drops the last character. On a valid
        stack that is the newest item, and popping an empty stack returns
        the empty string and leaves it empty. */
    method Pop() returns (item: string)
      modifies this
      ensures var s, d := old(storage), Separator(flavor);
              LastIndexOf(s, d) >= 0 ==>
                && s == storage + d + item
                && forall j :: |storage| < j <= |s| - |d| ==> !OccursAt(s, d, j)
      ensures var s, d := old(storage), Separator(flavor);
              LastIndexOf(s, d) == -1 ==>
                && item == (if |s| <= 2 then "" else s[2..])
                && storage == (if |s| == 0 then "" else s[..|s| - 1])
      ensures old(Valid()) ==> Valid()
      ensures !old(Valid()) ==> Contents == old(Contents)
      ensures old(Valid()) && old(Contents) == [] ==> item == "" && storage == ""
      ensures old(Valid()) && old(Contents) != [] ==>
                && item == old(Contents)[|old(Contents)| - 1]
                && Contents == old(Contents)[..|old(Contents)| - 1]
    {
      var d := Separator(flavor);
      ghost var s := storage;
      var last := LastIndexOf(storage, d);
      item := SliceFrom(storage, last + 3);
      storage := Slice(storage, 0, last);
      if last >= 0 {
        assert s[last..last + 3] == d;
        assert s == s[..last] + d + s[last + 3..];
      }
      if s == Delimited(Contents, d) && forall k :: 0 <= k < |Contents| ==> Clean(Contents[k], d) {
        if |Contents| > 0 {
          var n := |Contents|;
          LastSeparator(Delimited(Contents[..n - 1], d), Contents[n - 1], d);
          Contents := Contents[..n - 1];
        }
      }
    }
  }

  /** A push and a pop return the item and restore `storage`, whatever it
      held before, whenever the separator occurs in the separator
      followed by the item only at the start; a valid stack keeps its
      items. */
  method PushThenPop(s: Stack, value: string) returns (item: string)
    requires LastIndexOf(Separator(s.flavor) + value, Separator(s.flavor)) == 0
    modifies s
    ensures item == value && s.storage == old(s.storage)
    ensures old(s.Valid()) ==> s.Valid() && s.Contents == old(s.Contents)
  {
    var d := Separator(s.flavor);
    ghost var before := s.storage;
    s.Push(value);
    ghost var pushed := s.storage;
    LastSeparatorAfter(before, value, d);
    assert OccursAt(pushed, d, |before|) by {
      assert pushed[|before|..|before| + |d|] == d;
    }
    item := s.Pop();
    assert OccursAt(pushed, d, |s.storage|) by {
      assert pushed[|s.storage|..|s.storage| + |d|] == d;
    }
    assert |s.storage| == |before|;
    assert s.storage == pushed[..|before|];
  }

  /** Every clean item meets the round-trip condition of `PushThenPop`. */
  lemma CleanRoundTrips(f: Flavor, value: string)
    requires Clean(value, Separator(f))
    ensures LastIndexOf(Separator(f) + value, Separator(f)) == 0
  {
    LastSeparator("", value, Separator(f));
    assert "" + Separator(f) + value == Separator(f) + value;
  }

  /** An item that ends with the separator's character still round-trips:
      after pushing `a*` a pop returns `a*` and leaves the stack empty, and
      `size` counts it as one item. */
  method PushTrailingStarThenPop() returns (size: nat, item: string, left: string)
    ensures size == 1 && item == "a*" && left == ""
  {
    var s := new Stack(Asterisks);
    TrailingStar();
    s.Push("a*");
    assert s.storage == "***" + "a*";
    size := s.Size();
    ghost var t := s.storage;
    item := s.Pop();
    assert OccursAt(t, "***", |s.storage|) by {
      assert t[|s.storage|..|s.storage| + 3] == "***";
    }
    left := s.storage;
  }

  /** How `***a*` splits and where its last separator is. */
  lemma TrailingStar()
    ensures Split("***" + "a*", "***") == ["", "a*"]
    ensures LastIndexOf("***" + "a*", "***") == 0
  {
    var t := "***" + "a*";
    assert t[..3] == "***" && t[3..] == "a*";
    assert Split("a*", "***") == ["a*"];
    assert !OccursAt(t, "***", 1) by { assert t[1..4][2] == t[3] == 'a'; }
    assert !OccursAt(t, "***", 2) by { assert t[2..5][1] == t[3] == 'a'; }
    assert OccursAt(t, "***", 0);
  }

  /** An item that starts with the separator's character is cut short:
      after pushing `*b` a pop returns `b` and leaves `*` behind. */
  method PushStarredThenPop() returns (item: string, left: string)
    ensures item == "b" && left == "*"
  {
    var s := new Stack(Asterisks);
    s.Push("*b");
    assert s.storage == "****b";
    assert OccursAt(s.storage, "***", 1);
    item := s.Pop();
    left := s.storage;
  }
}
