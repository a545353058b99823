/**
  Three ways of summing the integers 1..n: an accumulating loop, the closed
  formula n(n+1)/2 and a recursion. Integers are unbounded here.
*/
module SumToN {

  /** Reference meaning: the sum of the integers k with 1 <= k <= n, so 0 when n < 1. */
  function SumOneTo(n: int): int
    decreases if n < 0 then 0 else n
  {
    if n <= 0 then 0 else SumOneTo(n - 1) + n
  }

  /** Gauss: for n >= 0 twice the sum of 1..n is n(n+1). */
  lemma {:induction false} SumOneToClosedForm(n: int)
    requires n >= 0
    ensures 2 * SumOneTo(n) == n * (n + 1)
  {
    if n > 0 {
      SumOneToClosedForm(n - 1);
      assert (n - 1) * n + 2 * n == n * (n + 1);
    }
  }

  /** The loop version: `sum` accumulates i for i = 1, 2, ... while i <= n. */
  method SumToNLoop(n: int) returns (sum: int)
    ensures sum == SumOneTo(n)
    ensures n <= 0 ==> sum == 0
    ensures n >= 0 ==> 2 * sum == n * (n + 1)
  {
    sum := 0;
    var i := 1;
    while i <= n
      invariant 1 <= i <= (if n >= 1 then n + 1 else 1)
      invariant sum == SumOneTo(i - 1)
      invariant 2 * sum == (i - 1) * i
      decreases n - i
    {
      sum := sum + i;
      i := i + 1;
    }
  }

  /** n(n+1) is the product of two consecutive integers, hence even. */
  lemma ConsecutiveProductEven(n: int)
    ensures (n * (n + 1)) % 2 == 0
  {
    var k := n / 2;
    if n % 2 == 0 {
      assert n * (n + 1) == 2 * (k * (n + 1));
    } else {
      assert n + 1 == 2 * (k + 1);
      assert n * (n + 1) == 2 * (n * (k + 1));
    }
  }

  /** The formula version; the division by 2 is exact for every integer n. */
  function SumToNFormula(n: int): (r: int)
    ensures 2 * r == n * (n + 1)
  {
    ConsecutiveProductEven(n);
    (n * (n + 1)) / 2
  }

  /** The recursive version: returns n itself as soon as n <= 1, negatives included. */
  function SumToNRecursive(n: int): (r: int)
    ensures n <= 1 ==> r == n
    ensures n >= 0 ==> r == SumOneTo(n)
    decreases n
  {
    if n <= 1 then n else n + SumToNRecursive(n - 1)
  }

  /** For n >= 0 the three versions compute the same value, n(n+1)/2
      (the loop's result is SumOneTo(n) by its postcondition). */
  lemma {:induction false} AllThreeAgree(n: int)
    requires n >= 0
    ensures SumOneTo(n) == SumToNFormula(n) == SumToNRecursive(n)
    ensures 2 * SumToNRecursive(n) == n * (n + 1)
  {
    SumOneToClosedForm(n);
  }

  /** For negative n the three versions part ways: the loop gives 0, the formula
      gives the (non-negative) sum of 1..-n-1, and the recursion gives n itself. */
  lemma NegativeInputsDisagree(n: int)
    requires n < 0
    ensures SumOneTo(n) == 0
    ensures SumToNRecursive(n) == n < 0
    ensures SumToNFormula(n) == SumOneTo(-n - 1) >= 0
    ensures SumToNFormula(n) == 0 <==> n == -1
  {
    SumOneToClosedForm(-n - 1);
    assert (-n - 1) * (-n) == n * (n + 1);
    if n < -1 {
      assert n * (n + 1) > 0 by {
        assert -n > 0 && -(n + 1) > 0;
        assert n * (n + 1) == (-n) * (-(n + 1));
      }
    }
  }

  /** The sample call with 5 prints 15 for every version. */
  lemma SampleFive()
    ensures SumOneTo(5) == SumToNFormula(5) == SumToNRecursive(5) == 15
  {
  }

  /** With n = -3 the loop gives 0, the formula 3 and the recursion -3. */
  lemma SampleMinusThree()
    ensures SumOneTo(-3) == 0 && SumToNFormula(-3) == 3 && SumToNRecursive(-3) == -3
  {
  }
}
