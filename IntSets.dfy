/** Least and greatest element of a finite non-empty set of integers: what
    `Math.min(...keys)` and `Math.max(...keys)` compute over the integer
    keys of an object. */
module IntSets {

  lemma HasElement(s: set<int>)
    requires s != {}
    ensures exists y :: y in s
  {
    if forall y :: y !in s { assert false; }
  }

  /** `Math.min` over the set */
  method Min(s: set<int>) returns (m: int)
    requires s != {}
    ensures m in s
    ensures forall x :: x in s ==> m <= x
  {
    HasElement(s);
    var y :| y in s;
    m := y;
    var rest := s - {y};
    while rest != {}
      invariant rest <= s && m in s
      invariant forall x :: x in s && x !in rest ==> m <= x
      decreases rest
    {
      HasElement(rest);
      var x :| x in rest;
      if x < m {
        m := x;
      }
      rest := rest - {x};
    }
  }

  /** `Math.max` over the set */
  method Max(s: set<int>) returns (m: int)
    requires s != {}
    ensures m in s
    ensures forall x :: x in s ==> x <= m
  {
    HasElement(s);
    var y :| y in s;
    m := y;
    var rest := s - {y};
    while rest != {}
      invariant rest <= s && m in s
      invariant forall x :: x in s && x !in rest ==> x <= m
      decreases rest
    {
      HasElement(rest);
      var x :| x in rest;
      if m < x {
        m := x;
      }
      rest := rest - {x};
    }
  }
}
