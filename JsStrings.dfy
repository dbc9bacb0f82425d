/** The string and array built-ins the string-backed stacks call:
    `lastIndexOf`, `slice`, `split`, `join` and `reverse`, with the laws
    that connect them. */
module JsStrings {

  /** `d` occurs in `s` starting at index `i`. */
  predicate OccursAt(s: string, d: string, i: int)
  {
    0 <= i && i + |d| <= |s| && s[i..i + |d|] == d
  }

  /** The last occurrence of `d` starting at or before `i`, or -1. */
  function LastAtOrBefore(s: string, d: string, i: int): (r: int)
    decreases i + 1
    ensures r == -1 || 0 <= r <= i
    ensures r >= 0 ==> OccursAt(s, d, r)
    ensures forall j :: r < j <= i ==> !OccursAt(s, d, j)
  {
    if i < 0 then -1
    else if OccursAt(s, d, i) then i
    else LastAtOrBefore(s, d, i - 1)
  }

  /** `s.lastIndexOf(d)`: the index of the last occurrence of `d` in `s`,
      or -1 when there is none. */
  function LastIndexOf(s: string, d: string): (r: int)
    ensures r == -1 || 0 <= r <= |s| - |d|
    ensures r >= 0 ==> OccursAt(s, d, r)
    ensures forall j :: r < j <= |s| - |d| ==> !OccursAt(s, d, j)
  {
    LastAtOrBefore(s, d, |s| - |d|)
  }

  /** A `slice` bound: a negative one counts from the end, and both are
      clamped to the string. */
  function SliceBound(len: nat, k: int): (b: nat)
    ensures b <= len
    ensures 0 <= k <= len ==> b == k
    ensures k < 0 ==> b == if len + k < 0 then 0 else len + k
  {
    if k < 0 then (if len + k < 0 then 0 else len + k)
    else if k > len then len else k
  }

  /** `s.slice(start, end)`. */
  function Slice(s: string, start: int, end: int): (r: string)
    ensures 0 <= start <= end <= |s| ==> r == s[start..end]
    ensures SliceBound(|s|, start) >= SliceBound(|s|, end) ==> r == ""
    ensures |r| <= |s|
  {
    var from, to := SliceBound(|s|, start), SliceBound(|s|, end);
    if from >= to then "" else s[from..to]
  }

  /** `s.slice(start)`: up to the end of the string. */
  function SliceFrom(s: string, start: int): (r: string)
    ensures 0 <= start <= |s| ==> r == s[start..]
    ensures start >= |s| ==> r == ""
  {
    Slice(s, start, |s|)
  }

  /** `s.split(d)` for a non-empty separator: the pieces between the
      occurrences of `d`, found from the left without overlap. */
  function Split(s: string, d: string): (parts: seq<string>)
    requires |d| > 0
    ensures |parts| >= 1
  {
    if |s| < |d| then [s]
    else if s[..|d|] == d then [""] + Split(s[|d|..], d)
    else
      var rest := Split(s[1..], d);
      [[s[0]] + rest[0]] + rest[1..]
  }

  /** `parts.join(d)`: the pieces with one separator between each two. */
  function Join(parts: seq<string>, d: string): (r: string)
    ensures |parts| > 0 ==> |r| == (|parts| - 1) * |d| + Total(parts)
  {
    if |parts| == 0 then ""
    else if |parts| == 1 then parts[0]
    else
      var rest := parts[1..];
      TotalFront(parts[0], rest);
      assert [parts[0]] + rest == parts;
      assert (|parts| - 1) * |d| == (|rest| - 1) * |d| + |d|;
      parts[0] + d + Join(rest, d)
  }

  /** `xs.reverse()`, as a value. */
  function Reverse<T>(xs: seq<T>): (r: seq<T>)
    ensures |r| == |xs|
    ensures forall i :: 0 <= i < |xs| ==> r[i] == xs[|xs| - 1 - i]
  {
    seq(|xs|, i requires 0 <= i < |xs| => xs[|xs| - 1 - i])
  }

  /** `reverse()` twice gives the array back. */
  lemma ReverseReverse<T>(xs: seq<T>)
    ensures Reverse(Reverse(xs)) == xs
  {
    assert forall i :: 0 <= i < |xs| ==> Reverse(Reverse(xs))[i] == Reverse(xs)[|xs| - 1 - i];
  }

  /** Taking the first element off the reversed array and reversing the rest
      back leaves the array without its last element. */
  lemma ReverseDropFirst<T>(xs: seq<T>)
    requires |xs| > 0
    ensures Reverse(xs)[0] == xs[|xs| - 1]
    ensures Reverse(Reverse(xs)[1..]) == xs[..|xs| - 1]
  {
    var rest := Reverse(xs)[1..];
    assert forall i :: 0 <= i < |rest| ==> rest[i] == xs[|xs| - 2 - i];
  }

  /** Putting a character in front of the first piece puts it in front of
      the joined text. */
  lemma JoinConsHead(c: char, parts: seq<string>, d: string)
    requires |parts| > 0
    ensures Join([[c] + parts[0]] + parts[1..], d) == [c] + Join(parts, d)
  {
    var moved := [[c] + parts[0]] + parts[1..];
    if |parts| > 1 {
      assert moved[1..] == parts[1..];
    }
  }

  /** Joining the pieces of a split with the same separator gives the
      string back. */
  lemma {:induction false} JoinSplit(s: string, d: string)
    requires |d| > 0
    ensures Join(Split(s, d), d) == s
  {
    if |s| < |d| {
    } else if s[..|d|] == d {
      var rest := Split(s[|d|..], d);
      assert Split(s, d) == [""] + rest;
      JoinSplit(s[|d|..], d);
      assert Join([""] + rest, d) == "" + d + Join(rest, d) by {
        assert ([""] + rest)[1..] == rest;
      }
      assert s == d + s[|d|..];
    } else {
      JoinSplit(s[1..], d);
      JoinConsHead(s[0], Split(s[1..], d), d);
      assert s == [s[0]] + s[1..];
    }
  }

  /** Joining one more piece adds the separator and that piece at the end. */
  lemma {:induction false} JoinSnoc(parts: seq<string>, p: string, d: string)
    requires |parts| > 0
    ensures Join(parts + [p], d) == Join(parts, d) + d + p
  {
    if |parts| > 1 {
      JoinSnoc(parts[1..], p, d);
      assert (parts + [p])[1..] == parts[1..] + [p];
    }
  }

  /** No character of `v` is a character of the separator. */
  predicate Clean(v: string, d: string)
  {
    forall i :: 0 <= i < |v| ==> v[i] !in d
  }

  /** With a one-character separator no piece of a split holds that
      character. */
  lemma {:induction false} SplitPiecesClean(s: string, d: string)
    requires |d| == 1
    ensures forall k :: 0 <= k < |Split(s, d)| ==> Clean(Split(s, d)[k], d)
  {
    if |s| < |d| {
    } else if s[..|d|] == d {
      SplitPiecesClean(s[|d|..], d);
    } else {
      var rest := Split(s[1..], d);
      SplitPiecesClean(s[1..], d);
      assert s[..1] == [s[0]];
      assert Clean([s[0]] + rest[0], d);
    }
  }

  /** With a one-character separator the last piece of a split holds no
      separator, and the string is the other pieces joined, the separator
      and the last piece. */
  lemma SplitLast(s: string, d: string)
    requires |d| == 1
    ensures var pieces := Split(s, d); var n := |pieces|;
            && Clean(pieces[n - 1], d)
            && (n == 1 ==> s == pieces[0])
            && (n > 1 ==> s == Join(pieces[..n - 1], d) + d + pieces[n - 1])
  {
    var pieces := Split(s, d);
    var n := |pieces|;
    SplitPiecesClean(s, d);
    JoinSplit(s, d);
    if n > 1 {
      JoinSnoc(pieces[..n - 1], pieces[n - 1], d);
      assert pieces == pieces[..n - 1] + [pieces[n - 1]];
    }
  }

  /** With a one-character separator a string free of it is one piece. */
  lemma {:induction false} SplitClean(v: string, d: string)
    requires |d| == 1 && Clean(v, d)
    ensures Split(v, d) == [v]
  {
    if |v| >= |d| {
      assert v[..1][0] == v[0] && v[0] !in d;
      SplitClean(v[1..], d);
      assert [v[0]] + v[1..] == v;
    }
  }

  /** With a one-character separator, appending the separator and a piece
      free of it adds that piece to the split. */
  lemma {:induction false} SplitSnocClean(s: string, v: string, d: string)
    requires |d| == 1 && Clean(v, d)
    ensures Split(s + d + v, d) == Split(s, d) + [v]
  {
    var t := s + d + v;
    if s == "" {
      assert t == d + v && t[..1] == d && t[1..] == v;
      SplitClean(v, d);
    } else if s[..1] == d {
      assert t[..1] == d && t[1..] == s[1..] + d + v;
      SplitSnocClean(s[1..], v, d);
    } else {
      assert t[..1] == s[..1] && t[0] == s[0] && t[1..] == s[1..] + d + v;
      SplitSnocClean(s[1..], v, d);
      var r := Split(s[1..], d);
      assert (r + [v])[0] == r[0] && (r + [v])[1..] == r[1..] + [v];
    }
  }

  /** Splitting a string that starts with the separator gives an empty
      first piece. */
  lemma SplitAfterSeparator(r: string, d: string)
    requires |d| > 0
    ensures Split(d + r, d) == [""] + Split(r, d)
  {
    assert (d + r)[..|d|] == d && (d + r)[|d|..] == r;
  }

  /** A prefix `v` free of the separator's first character stays in the
      first piece. */
  lemma {:induction false} SplitCleanPrefix(v: string, r: string, d: string)
    requires |d| > 0 && forall i :: 0 <= i < |v| ==> v[i] != d[0]
    ensures Split(v + r, d) == [v + Split(r, d)[0]] + Split(r, d)[1..]
  {
    if |v| > 0 {
      var s := v + r;
      if |s| < |d| {
        assert Split(r, d) == [r];
      } else {
        assert s[..|d|][0] == v[0];
        SplitCleanPrefix(v[1..], r, d);
        assert s[1..] == v[1..] + r;
        assert [s[0]] + (v[1..] + Split(r, d)[0]) == v + Split(r, d)[0];
      }
    } else {
      var parts := Split(r, d);
      assert v + r == r && v + parts[0] == parts[0];
      assert parts == [parts[0]] + parts[1..];
    }
  }

  /** The text built by pushing `vs` one after the other, each preceded by
      the separator. */
  function Delimited(vs: seq<string>, d: string): (s: string)
    ensures |s| == |vs| * |d| + Total(vs)
  {
    if |vs| == 0 then ""
    else Delimited(vs[..|vs| - 1], d) + d + vs[|vs| - 1]
  }

  /** The total length of the strings in `vs`. */
  function Total(vs: seq<string>): (n: nat)
  {
    if |vs| == 0 then 0 else Total(vs[..|vs| - 1]) + |vs[|vs| - 1]|
  }

  /** `Total` read from the front. */
  lemma {:induction false} TotalFront(p: string, vs: seq<string>)
    ensures Total([p] + vs) == |p| + Total(vs)
  {
    if |vs| > 0 {
      var n := |vs|;
      TotalFront(p, vs[..n - 1]);
      assert ([p] + vs)[..n] == [p] + vs[..n - 1];
    }
  }

  /** `Delimited` read from the front. */
  lemma {:induction false} DelimitedFront(v: string, vs: seq<string>, d: string)
    ensures Delimited([v] + vs, d) == d + v + Delimited(vs, d)
  {
    if |vs| > 0 {
      var n := |vs|;
      DelimitedFront(v, vs[..n - 1], d);
      assert ([v] + vs)[..n] == [v] + vs[..n - 1];
    }
  }

  /** One clean value in front of a text whose split starts with an
      empty piece. */
  lemma SplitFrontStep(v: string, tail: string, rest: seq<string>, d: string)
    requires |d| > 0 && Clean(v, d) && Split(tail, d) == [""] + rest
    ensures Split(d + v + tail, d) == [""] + ([v] + rest)
  {
    SplitAfterSeparator(v + tail, d);
    assert d + v + tail == d + (v + tail);
    assert forall i :: 0 <= i < |v| ==> v[i] != d[0];
    SplitCleanPrefix(v, tail, d);
    assert v + "" == v;
  }

  /** Splitting a delimited text of clean values gives an empty first
      piece and then the values. */
  lemma {:induction false} SplitDelimited(vs: seq<string>, d: string)
    requires |d| > 0 && forall k :: 0 <= k < |vs| ==> Clean(vs[k], d)
    ensures Split(Delimited(vs, d), d) == [""] + vs
  {
    if |vs| > 0 {
      var v, rest := vs[0], vs[1..];
      DelimitedFront(v, rest, d);
      assert vs == [v] + rest;
      assert forall k :: 0 <= k < |rest| ==> rest[k] == vs[k + 1];
      SplitDelimited(rest, d);
      SplitFrontStep(v, Delimited(rest, d), rest, d);
    }
  }

  /** Joining an empty piece and then the values rebuilds the delimited
      text. */
  lemma {:induction false} JoinDelimited(vs: seq<string>, d: string)
    ensures Join([""] + vs, d) == Delimited(vs, d)
  {
    if |vs| > 0 {
      JoinDelimited(vs[..|vs| - 1], d);
      if |vs| > 1 {
        JoinSnoc([""] + vs[..|vs| - 1], vs[|vs| - 1], d);
        assert [""] + vs == ([""] + vs[..|vs| - 1]) + [vs[|vs| - 1]];
      }
    }
  }

  /** After a clean last value nothing of the separator starts later than
      the separator in front of it. */
  lemma LastSeparator(prefix: string, v: string, d: string)
    requires |d| > 0 && Clean(v, d)
    ensures LastIndexOf(prefix + d + v, d) == |prefix|
  {
    var s := prefix + d + v;
    assert OccursAt(s, d, |prefix|) by {
      assert s[|prefix|..|prefix| + |d|] == d;
    }
    var r := LastIndexOf(s, d);
    assert r >= |prefix|;
    forall j | |prefix| < j <= |s| - |d| ensures !OccursAt(s, d, j) {
      var k := j - 1 - |prefix|;
      assert s[j + |d| - 1] == v[k];
      assert s[j..j + |d|][|d| - 1] == v[k] != d[|d| - 1];
    }
  }

  /** When the separator occurs in `d + v` only at the start, it occurs in
      `prefix + d + v` last at `|prefix|`, whatever the prefix. */
  lemma LastSeparatorAfter(prefix: string, v: string, d: string)
    requires |d| > 0 && LastIndexOf(d + v, d) == 0
    ensures LastIndexOf(prefix + d + v, d) == |prefix|
  {
    var s, t := prefix + d + v, d + v;
    assert OccursAt(s, d, |prefix|) by {
      assert s[|prefix|..|prefix| + |d|] == d;
    }
    forall j | |prefix| < j <= |s| - |d| ensures !OccursAt(s, d, j) {
      var k := j - |prefix|;
      assert s[j..j + |d|] == t[k..k + |d|];
      assert !OccursAt(t, d, k);
    }
  }

  /** Splitting a delimited text of clean values gives one more piece
      than there are values. */
  lemma SplitSize(storage: string, contents: seq<string>, d: string)
    requires |d| > 0
    ensures storage == Delimited(contents, d) && (forall k :: 0 <= k < |contents| ==> Clean(contents[k], d))
            ==> |Split(storage, d)| == |contents| + 1
  {
    if storage == Delimited(contents, d) && (forall k :: 0 <= k < |contents| ==> Clean(contents[k], d)) {
      SplitDelimited(contents, d);
    }
  }
}
