/** The recursion exercises: counting n down to 0 and raising a base to an
    exponent, each written once with a `while` loop and once recursively.
    Numbers are integers here. */
module Recursion {

  /** base^expo, multiplying one factor at a time on the right, as the loop
      accumulates its result. */
  function Power(base: int, expo: nat): (r: int)
  {
    if expo == 0 then 1 else Power(base, expo - 1) * base
  }

  /** Exponents add: base^(m + n) is base^m times base^n. */
  lemma {:induction false} PowerAdd(base: int, m: nat, n: nat)
    ensures Power(base, m + n) == Power(base, m) * Power(base, n)
  {
    if n > 0 {
      PowerAdd(base, m, n - 1);
      calc {
        Power(base, m + n);
        Power(base, m + n - 1) * base;
        (Power(base, m) * Power(base, n - 1)) * base;
        Power(base, m) * (Power(base, n - 1) * base);
        Power(base, m) * Power(base, n);
      }
    }
  }

  /** `loopN`: decrements n while it is positive. A non-negative n comes
      back as 0; a non-positive n comes back unchanged. */
  method LoopN(n: int) returns (r: int)
    ensures n >= 0 ==> r == 0
    ensures n <= 0 ==> r == n
    ensures n >= 0 ==> r == RecurseLoopN(n)
  {
    r := n;
    while r > 0
      invariant n >= 0 ==> r >= 0
      invariant n <= 0 ==> r == n
    {
      r := r - 1;
    }
  }

  /** `recurseLoopN`: counts down by recursion until n is 0. From a
      negative n the source recurses without bound, and JavaScript throws a
      `RangeError` once the call stack is exhausted. */
  function RecurseLoopN(n: int): (r: int)
    requires n >= 0
    ensures r == 0
    decreases n
  {
    if n == 0 then n else RecurseLoopN(n - 1)
  }

  /** `exponent`: multiplies the result by base while the exponent is
      positive; base^expo for a non-negative exponent, 1 otherwise. */
  method Exponent(base: int, expo: int) returns (r: int)
    ensures expo >= 0 ==> r == Power(base, expo)
    ensures expo <= 0 ==> r == 1
    ensures expo >= 0 ==> r == RecurseExponent(base, expo)
  {
    r := 1;
    var e := expo;
    while e > 0
      invariant expo > 0 ==> 0 <= e <= expo && r == Power(base, expo - e)
      invariant expo <= 0 ==> e == expo && r == 1
    {
      r := r * base;
      e := e - 1;
    }
  }

  /** `recurseExponent`: base times the power one lower, 1 at exponent 0.
      From a negative exponent the source never reaches 0 and recurses
      without bound, and JavaScript throws a `RangeError` once the call
      stack is exhausted. */
  function RecurseExponent(base: int, expo: int): (r: int)
    requires expo >= 0
    ensures r == Power(base, expo)
    decreases expo
  {
    if expo == 0 then 1 else base * RecurseExponent(base, expo - 1)
  }

  /** The test suite's cases: 9^2 = 81 with both versions, and 5 counts
      down to 0 with both. */
  method TestCases() returns (loop: int, recursive: int, down: int, recursiveDown: int)
    ensures loop == 81 && recursive == 81 && down == 0 && recursiveDown == 0
  {
    loop := Exponent(9, 2);
    recursive := RecurseExponent(9, 2);
    down := LoopN(5);
    recursiveDown := RecurseLoopN(5);
  }
}
