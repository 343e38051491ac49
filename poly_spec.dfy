/**
 * Value-level view of a dense single-variable polynomial: a sequence of `int`
 * coefficients in which index i holds the coefficient of x^i, so a polynomial
 * of order n is a sequence of length n + 1. The functions here are the
 * specifications that the `Polynomial` class and its operators are proved
 * against; the lemmas state the algebra those specifications obey.
 */
module PolySpec {

  /** Outcome of the 1-based reversed indexing: a value, or the rejected index. */
  datatype Result<T> = Ok(value: T) | OutOfRange(index: int)

  function Max(a: int, b: int): int
  {
    if a >= b then a else b
  }

  /** Coefficient of x^i; a power outside the stored range has coefficient 0. */
  function Coeff(s: seq<int>, i: int): int
  {
    if 0 <= i < |s| then s[i] else 0
  }

  /** The all-zero coefficient sequence of length n. */
  function Zeros(n: nat): seq<int>
  {
    seq(n, _ => 0)
  }

  /** Position-wise sum, each operand zero-extended to the longer length; no trimming. */
  function Add(a: seq<int>, b: seq<int>): seq<int>
  {
    seq(Max(|a|, |b|), i => Coeff(a, i) + Coeff(b, i))
  }

  /** Position-wise difference a - b with the same alignment as Add. */
  function Sub(a: seq<int>, b: seq<int>): seq<int>
  {
    seq(Max(|a|, |b|), i => Coeff(a, i) - Coeff(b, i))
  }

  /** Every coefficient multiplied by the scalar c; length unchanged. */
  function Scale(a: seq<int>, c: int): seq<int>
  {
    seq(|a|, i requires 0 <= i < |a| => a[i] * c)
  }

  /** Sum of Coeff(a, i) * Coeff(b, k - i) over lo <= i < hi. */
  function ConvSum(a: seq<int>, b: seq<int>, k: int, lo: int, hi: int): int
    decreases hi - lo
  {
    if hi <= lo then 0
    else ConvSum(a, b, k, lo, hi - 1) + Coeff(a, hi - 1) * Coeff(b, k - (hi - 1))
  }

  /** Coefficient of x^k of the product: the sum of a[i] * b[j] over all i + j == k. */
  function MulCoeff(a: seq<int>, b: seq<int>, k: int): int
  {
    ConvSum(a, b, k, 0, k + 1)
  }

  /** Polynomial product (Cauchy product) of two non-empty coefficient sequences. */
  function Mul(a: seq<int>, b: seq<int>): seq<int>
    requires |a| >= 1 && |b| >= 1
  {
    seq(|a| + |b| - 1, k => MulCoeff(a, b, k))
  }

  /** x raised to the power n, by repeated multiplication. */
  function Pow(x: int, n: nat): int
  {
    if n == 0 then 1 else x * Pow(x, n - 1)
  }

  /** Sum of s[i] * x^i for lo <= i < |s|. */
  function EvalFrom(s: seq<int>, x: int, lo: nat): int
    decreases |s| - lo
  {
    if lo >= |s| then 0 else s[lo] * Pow(x, lo) + EvalFrom(s, x, lo + 1)
  }

  /** Value of the polynomial at x: the sum of s[i] * x^i over every stored index. */
  function Eval(s: seq<int>, x: int): int
  {
    EvalFrom(s, x, 0)
  }

  /** 1-based reversed indexing: index 1 is the highest power, index |s| the constant term. */
  function At(s: seq<int>, i: int): Result<int>
  {
    if 1 <= i <= |s| then Ok(s[|s| - i]) else OutOfRange(i)
  }

  /** The coefficients after writing v through 1-based reversed index i. */
  function Update(s: seq<int>, i: int, v: int): seq<int>
    requires 1 <= i <= |s|
  {
    s[|s| - i := v]
  }

  /**
   * The coefficients in the order the printing loop visits them: the
   * coefficient of the order first, then each lower power down to x^0.
   */
  function HighestFirst(s: seq<int>): seq<int>
  {
    if s == [] then [] else [s[|s| - 1]] + HighestFirst(s[..|s| - 1])
  }

  // ---------------------------------------------------------------------------
  // Indexing

  lemma {:induction false} HighestFirstLength(s: seq<int>)
    ensures |HighestFirst(s)| == |s|
  {
    if s != [] {
      HighestFirstLength(s[..|s| - 1]);
    }
  }

  /** Visit k of the highest-first walk reads the coefficient of power |s| - 1 - k. */
  lemma {:induction false} HighestFirstAt(s: seq<int>, k: nat)
    requires k < |s|
    ensures |HighestFirst(s)| == |s| && HighestFirst(s)[k] == s[|s| - 1 - k]
  {
    HighestFirstLength(s[..|s| - 1]);
    if k > 0 {
      HighestFirstAt(s[..|s| - 1], k - 1);
    }
  }

  /**
   * Index i (1-based) reads the i-th coefficient as printed, highest power first,
   * and every index outside 1..|s| is rejected with that index.
   */
  lemma AtIsPrintOrder(s: seq<int>, i: int)
    ensures At(s, i).Ok? <==> 1 <= i <= |s|
    ensures At(s, i).OutOfRange? ==> At(s, i).index == i
    ensures 1 <= i <= |s| ==> |HighestFirst(s)| == |s| && At(s, i) == Ok(HighestFirst(s)[i - 1])
  {
    if 1 <= i <= |s| {
      HighestFirstAt(s, i - 1);
    }
  }

  /** Writing through index i is read back at i and leaves every other index as it was. */
  lemma AtUpdate(s: seq<int>, i: int, v: int, j: int)
    requires 1 <= i <= |s|
    ensures |Update(s, i, v)| == |s|
    ensures At(Update(s, i, v), i) == Ok(v)
    ensures j != i ==> At(Update(s, i, v), j) == At(s, j)
  {
  }

  // ---------------------------------------------------------------------------
  // Addition, subtraction and scaling

  lemma AddCommutes(a: seq<int>, b: seq<int>)
    ensures Add(a, b) == Add(b, a)
  {
  }

  /** Adding an all-zero polynomial of the same or lower order changes nothing. */
  lemma AddZeros(a: seq<int>, n: nat)
    requires n <= |a|
    ensures Add(a, Zeros(n)) == a
  {
  }

  /** Subtraction is addition of the operand scaled by -1. */
  lemma SubIsAddNegated(a: seq<int>, b: seq<int>)
    ensures Sub(a, b) == Add(a, Scale(b, -1))
  {
  }

  // ---------------------------------------------------------------------------
  // Evaluation

  lemma {:induction false} EvalFromShift(s: seq<int>, x: int, lo: nat)
    requires |s| >= 1
    ensures EvalFrom(s, x, lo + 1) == x * EvalFrom(s[1..], x, lo)
    decreases |s| - lo
  {
    if lo + 1 < |s| {
      EvalFromShift(s, x, lo + 1);
      var c := s[lo + 1];
      assert s[1..][lo] == c;
      calc {
        EvalFrom(s, x, lo + 1);
        c * Pow(x, lo + 1) + EvalFrom(s, x, lo + 2);
        c * (x * Pow(x, lo)) + x * EvalFrom(s[1..], x, lo + 1);
        { assert c * (x * Pow(x, lo)) == x * (c * Pow(x, lo)); }
        x * (c * Pow(x, lo)) + x * EvalFrom(s[1..], x, lo + 1);
        x * (c * Pow(x, lo) + EvalFrom(s[1..], x, lo + 1));
        x * EvalFrom(s[1..], x, lo);
      }
    }
  }

  /** Horner's rule: the value is the constant term plus x times the value of the rest. */
  lemma EvalCons(s: seq<int>, x: int)
    requires |s| >= 1
    ensures Eval(s, x) == s[0] + x * Eval(s[1..], x)
  {
    EvalFromShift(s, x, 0);
  }

  lemma {:induction false} EvalAdd(a: seq<int>, b: seq<int>, x: int)
    ensures Eval(Add(a, b), x) == Eval(a, x) + Eval(b, x)
    decreases |a| + |b|
  {
    if a == [] {
      assert Add(a, b) == b;
    } else if b == [] {
      assert Add(a, b) == a;
    } else {
      var r := Add(a, b);
      assert r[1..] == Add(a[1..], b[1..]);
      EvalCons(r, x);
      EvalCons(a, x);
      EvalCons(b, x);
      EvalAdd(a[1..], b[1..], x);
      calc {
        Eval(r, x);
        r[0] + x * Eval(r[1..], x);
        (a[0] + b[0]) + x * (Eval(a[1..], x) + Eval(b[1..], x));
        (a[0] + x * Eval(a[1..], x)) + (b[0] + x * Eval(b[1..], x));
      }
    }
  }

  lemma {:induction false} EvalScale(a: seq<int>, c: int, x: int)
    ensures Eval(Scale(a, c), x) == c * Eval(a, x)
    decreases |a|
  {
    if a != [] {
      var r := Scale(a, c);
      assert r[1..] == Scale(a[1..], c);
      EvalCons(r, x);
      EvalCons(a, x);
      EvalScale(a[1..], c, x);
      var e := Eval(a[1..], x);
      calc {
        Eval(r, x);
        a[0] * c + x * (c * e);
        { assert x * (c * e) == c * (x * e); }
        a[0] * c + c * (x * e);
        c * (a[0] + x * e);
      }
    }
  }

  lemma EvalSub(a: seq<int>, b: seq<int>, x: int)
    ensures Eval(Sub(a, b), x) == Eval(a, x) - Eval(b, x)
  {
    SubIsAddNegated(a, b);
    EvalAdd(a, Scale(b, -1), x);
    EvalScale(b, -1, x);
  }

  // ---------------------------------------------------------------------------
  // Multiplication

  /** ConvSum can be split off at its lowest index as well as at its highest. */
  lemma {:induction false} ConvSumLow(a: seq<int>, b: seq<int>, k: int, lo: int, hi: int)
    requires lo < hi
    ensures ConvSum(a, b, k, lo, hi) == Coeff(a, lo) * Coeff(b, k - lo) + ConvSum(a, b, k, lo + 1, hi)
    decreases hi - lo
  {
    if lo + 1 < hi {
      ConvSumLow(a, b, k, lo, hi - 1);
    }
  }

  /** Terms at indices from n on vanish once n passes past a or past k. */
  lemma {:induction false} ConvSumTailZero(a: seq<int>, b: seq<int>, k: int, lo: int, n: int, hi: int)
    requires lo <= n <= hi
    requires n >= |a| || n > k
    ensures ConvSum(a, b, k, lo, hi) == ConvSum(a, b, k, lo, n)
    decreases hi - n
  {
    if n < hi {
      ConvSumTailZero(a, b, k, lo, n, hi - 1);
      assert Coeff(a, hi - 1) == 0 || Coeff(b, k - (hi - 1)) == 0;
    }
  }

  /**
   * Summing over the stored indices of a, as the nested loops of the
   * multiplication do, gives the product coefficient.
   */
  lemma ConvSumIsMulCoeff(a: seq<int>, b: seq<int>, k: int)
    requires 0 <= k
    ensures ConvSum(a, b, k, 0, |a|) == MulCoeff(a, b, k)
  {
    if |a| <= k + 1 {
      ConvSumTailZero(a, b, k, 0, |a|, k + 1);
    } else {
      ConvSumTailZero(a, b, k, 0, k + 1, |a|);
    }
  }

  /** Reindexing i to k - i reverses the summation range and swaps the operands. */
  lemma {:induction false} ConvSumReverse(a: seq<int>, b: seq<int>, k: int, lo: int, hi: int)
    ensures ConvSum(a, b, k, lo, hi) == ConvSum(b, a, k, k - hi + 1, k - lo + 1)
    decreases hi - lo
  {
    if lo < hi {
      ConvSumReverse(a, b, k, lo, hi - 1);
      ConvSumLow(b, a, k, k - hi + 1, k - lo + 1);
    }
  }

  lemma MulCommutes(a: seq<int>, b: seq<int>)
    requires |a| >= 1 && |b| >= 1
    ensures Mul(a, b) == Mul(b, a)
  {
    forall k | 0 <= k < |a| + |b| - 1
      ensures Mul(a, b)[k] == Mul(b, a)[k]
    {
      ConvSumReverse(a, b, k, 0, k + 1);
    }
  }

  /** Dropping the constant term of a shifts every index of the sum down by one. */
  lemma {:induction false} ConvSumShift(a: seq<int>, b: seq<int>, k: int, lo: int, hi: int)
    requires |a| >= 1 && 0 <= lo
    ensures ConvSum(a, b, k, lo + 1, hi + 1) == ConvSum(a[1..], b, k - 1, lo, hi)
    decreases hi - lo
  {
    if lo < hi {
      ConvSumShift(a, b, k, lo, hi - 1);
      assert Coeff(a, hi) == Coeff(a[1..], hi - 1);
    }
  }

  lemma {:induction false} ConvSumEmpty(b: seq<int>, k: int, lo: int, hi: int)
    requires 0 <= lo
    ensures ConvSum([], b, k, lo, hi) == 0
    decreases hi - lo
  {
    if lo < hi {
      ConvSumEmpty(b, k, lo, hi - 1);
    }
  }

  /** The product coefficient splits into the contribution of a[0] and that of the rest of a. */
  lemma MulCoeffCons(a: seq<int>, b: seq<int>, k: int)
    requires |a| >= 1 && 0 <= k
    ensures MulCoeff(a, b, k) == a[0] * Coeff(b, k) + ConvSum(a[1..], b, k - 1, 0, k)
  {
    ConvSumLow(a, b, k, 0, k + 1);
    ConvSumShift(a, b, k, 0, k);
  }

  /** Multiplying by a polynomial of order 0 scales. */
  lemma MulConstant(a: seq<int>, b: seq<int>)
    requires |a| == 1 && |b| >= 1
    ensures Mul(a, b) == Scale(b, a[0])
  {
    forall k | 0 <= k < |b|
      ensures Mul(a, b)[k] == Scale(b, a[0])[k]
    {
      MulCoeffCons(a, b, k);
      ConvSumEmpty(b, k - 1, 0, k);
    }
  }

  /** For order at least 1, a * b == a[0] * b + x * (rest of a) * b. */
  lemma MulCons(a: seq<int>, b: seq<int>)
    requires |a| >= 2 && |b| >= 1
    ensures Mul(a, b) == Add(Scale(b, a[0]), [0] + Mul(a[1..], b))
  {
    var lhs := Mul(a, b);
    var rhs := Add(Scale(b, a[0]), [0] + Mul(a[1..], b));
    assert |lhs| == |rhs|;
    forall k | 0 <= k < |lhs|
      ensures lhs[k] == rhs[k]
    {
      MulCoeffCons(a, b, k);
      if k >= 1 {
        assert ([0] + Mul(a[1..], b))[k] == MulCoeff(a[1..], b, k - 1);
      }
    }
  }

  /** Multiplication agrees with evaluation: (a * b)(x) == a(x) * b(x). */
  lemma {:induction false} EvalMul(a: seq<int>, b: seq<int>, x: int)
    requires |a| >= 1 && |b| >= 1
    ensures Eval(Mul(a, b), x) == Eval(a, x) * Eval(b, x)
    decreases |a|
  {
    EvalCons(a, x);
    if |a| == 1 {
      MulConstant(a, b);
      EvalScale(b, a[0], x);
      assert a[1..] == [];
    } else {
      var rest := Mul(a[1..], b);
      MulCons(a, b);
      EvalAdd(Scale(b, a[0]), [0] + rest, x);
      EvalScale(b, a[0], x);
      EvalCons([0] + rest, x);
      assert ([0] + rest)[1..] == rest;
      EvalMul(a[1..], b, x);
      var ea, eb := Eval(a[1..], x), Eval(b, x);
      calc {
        Eval(Mul(a, b), x);
        a[0] * eb + x * (ea * eb);
        { assert x * (ea * eb) == (x * ea) * eb; }
        a[0] * eb + (x * ea) * eb;
        (a[0] + x * ea) * eb;
      }
    }
  }

  /** (x + 2) + (3x + 1) == 4x + 3. */
  lemma AddExample()
    ensures Add([2, 1], [1, 3]) == [3, 4]
  {
  }
}
