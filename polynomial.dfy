/**
 * The polynomial class with int coefficients: an order n and an owned array of
 * n + 1 coefficients, index i holding the coefficient of x^i. Its methods and
 * the free operators below are proved against the functions of PolySpec and
 * Render.
 */
module Polynomials {
  import opened PolySpec
  import Render

  /** A fresh array holding the first n elements of src. */
  method CopyPrefix(src: array<int>, n: nat) returns (dst: array<int>)
    requires n <= src.Length
    ensures fresh(dst)
    ensures dst[..] == src[..n]
  {
    dst := new int[n];
    var i := 0;
    while i < n
      invariant 0 <= i <= n
      invariant forall k :: 0 <= k < i ==> dst[k] == src[k]
    {
      dst[i] := src[i];
      i := i + 1;
    }
  }

  class Polynomial {
    var order: nat
    var coefficients: array<int>

    /** The array always holds exactly order + 1 coefficients. */
    ghost predicate Valid()
      reads this
    {
      coefficients.Length == order + 1
    }

    /** Read-only view of the coefficients, index i holding the coefficient of x^i. */
    function Coefficients(): (cs: seq<int>)
      reads this, coefficients
      ensures |cs| == coefficients.Length
      ensures Valid() ==> |cs| == order + 1
      ensures forall i :: 0 <= i < |cs| ==> cs[i] == coefficients[i]
    {
      coefficients[..]
    }

    /** The order: one less than the number of stored coefficients. */
    function GetOrder(): (n: nat)
      reads this
      ensures Valid() ==> n + 1 == coefficients.Length
    {
      order
    }

    /** The constant polynomial 1. */
    constructor ()
      ensures Valid() && fresh(coefficients)
      ensures order == 0 && Coefficients() == [1]
    {
      order := 0;
      var c := new int[1];
      c[0] := 1;
      coefficients := c;
    }

    /** Order `order`, every coefficient equal to `defaultCoeff`. */
    constructor Fill(order: nat, defaultCoeff: int)
      ensures Valid() && fresh(coefficients)
      ensures this.order == order
      ensures forall i :: 0 <= i <= order ==> coefficients[i] == defaultCoeff
    {
      this.order := order;
      var c := new int[order + 1];
      var i := 0;
      while i <= order
        invariant 0 <= i <= order + 1
        invariant forall k :: 0 <= k < i ==> c[k] == defaultCoeff
      {
        c[i] := defaultCoeff;
        i := i + 1;
      }
      coefficients := c;
    }

    /** Order `order`, coefficients copied from the first order + 1 elements of `src`. */
    constructor FromArray(order: nat, src: array<int>)
      requires order + 1 <= src.Length
      ensures Valid() && fresh(coefficients)
      ensures this.order == order && Coefficients() == src[..order + 1]
    {
      this.order := order;
      var c := CopyPrefix(src, order + 1);
      coefficients := c;
    }

    /** Deep copy of `rhs`: same order and coefficients, no shared storage. */
    constructor Copy(rhs: Polynomial)
      requires rhs.Valid()
      ensures Valid() && fresh(coefficients)
      ensures order == rhs.order && Coefficients() == rhs.Coefficients()
    {
      order := rhs.order;
      var c := CopyPrefix(rhs.coefficients, rhs.order + 1);
      coefficients := c;
    }

    /**
     * Copy assignment: takes the order and a fresh copy of the coefficients of
     * `rhs`; assigning an object to itself changes nothing.
     */
    method Assign(rhs: Polynomial)
      requires Valid() && rhs.Valid()
      modifies this
      ensures Valid()
      ensures order == old(rhs.order) && Coefficients() == old(rhs.Coefficients())
      ensures rhs == this ==> coefficients == old(coefficients) && order == old(order)
      ensures rhs != this ==> fresh(coefficients) && unchanged(rhs)
    {
      if this != rhs {
        order := rhs.order;
        coefficients := CopyPrefix(rhs.coefficients, rhs.order + 1);
      }
    }

    /** Replaces the order and the coefficients by a fresh copy of the first order + 1 elements of `src`. */
    method SetValues(order: nat, src: array<int>)
      requires order + 1 <= src.Length
      modifies this
      ensures Valid() && fresh(coefficients)
      ensures this.order == order && Coefficients() == old(src[..order + 1])
    {
      this.order := order;
      coefficients := CopyPrefix(src, order + 1);
    }

    /**
     * Classifies the first `size` elements of `numArray`, scanning from the top:
     * 1 if all are zero, 2 if only index 0 is non-zero, 3 if a higher index is.
     */
    static method NumCheck(numArray: array<int>, size: nat) returns (k: int)
      requires size <= numArray.Length
      ensures k == Render.Classify(numArray[..size])
      ensures k == 1 <==> forall i :: 0 <= i < size ==> numArray[i] == 0
      ensures k == 2 <==> 0 < size && numArray[0] != 0 && forall i :: 1 <= i < size ==> numArray[i] == 0
      ensures k == 3 <==> exists i :: 1 <= i < size && numArray[i] != 0
    {
      ghost var s := numArray[..size];
      var i: int := size - 1;
      while i >= 0
        invariant -1 <= i < size
        invariant forall j :: i < j < size ==> numArray[j] == 0
        invariant Render.ClassifyBelow(s, i + 1) == Render.Classify(s)
      {
        if i == 0 && numArray[i] != 0 {
          return 2;
        }
        if numArray[i] != 0 {
          return 3;
        }
        i := i - 1;
      }
      return 1;
    }

    /** The text the stream operator writes for this polynomial. */
    method ToString() returns (out: string)
      requires Valid()
      ensures out == Render.Render(Coefficients())
    {
      var k := NumCheck(coefficients, order + 1);
      assert coefficients[..order + 1] == Coefficients();
      out := "";
      if k == 1 {
        out := "0";
      } else if k == 2 {
        out := Render.IntToString(coefficients[0]);
      } else if k == 3 {
        out := TermsText();
      }
    }

    /** The terms from the highest power down, zero coefficients skipped: the third case of ToString. */
    method TermsText() returns (out: string)
      requires Valid()
      ensures out == Render.TermsAbove(Coefficients(), -1)
    {
      ghost var s := Coefficients();
      out := "";
      var i: int := order;
      while i >= 0
        invariant -1 <= i <= order
        invariant out == Render.TermsAbove(s, i)
      {
        var c := coefficients[i];
        if c == 0 {
          i := i - 1;
          continue;
        }
        assert s[i] == c;
        var term: string;
        if i == 0 {
          term := Render.Connector(c) + Render.NatToString(Render.Abs(c));
        } else if i == 1 {
          term := Render.Connector(c) + Render.Magnitude(c) + "x";
        } else if i == order {
          var value := if Render.Abs(c) != 1 then Render.IntToString(c) else "";
          var sign := if c == -1 then "-" else "";
          term := value + sign + "x^" + Render.NatToString(i);
        } else {
          term := Render.Connector(c) + Render.Magnitude(c) + "x^" + Render.NatToString(i);
        }
        assert term == Render.Term(s, i);
        out := out + term;
        i := i - 1;
      }
    }

    /** Reads P[i]: index 1 is the highest power, index order + 1 the constant term. */
    method Get(i: int) returns (r: Result<int>)
      requires Valid()
      ensures r == At(Coefficients(), i)
    {
      if i <= 0 || i > order + 1 {
        return OutOfRange(i);
      }
      return Ok(coefficients[(order + 1) - i]);
    }

    /**
     * Writes v through P[i]; an index outside 1..order + 1 is rejected and
     * nothing changes. The order never changes.
     */
    method Set(i: int, v: int) returns (r: Result<()>)
      requires Valid()
      modifies coefficients
      ensures r == (if 1 <= i <= order + 1 then Ok(()) else OutOfRange(i))
      ensures Coefficients() == if r.Ok? then Update(old(Coefficients()), i, v) else old(Coefficients())
    {
      if i <= 0 || i > order + 1 {
        return OutOfRange(i);
      }
      coefficients[(order + 1) - i] := v;
      return Ok(());
    }

    /** P(x): the sum of coefficients[i] * x^i, accumulated from the highest power down. */
    method Evaluate(x: int) returns (answer: int)
      requires Valid()
      ensures answer == Eval(Coefficients(), x)
    {
      ghost var s := Coefficients();
      answer := 0;
      var i: int := order;
      while i >= 0
        invariant -1 <= i <= order
        invariant answer == EvalFrom(s, x, i + 1)
      {
        answer := answer + coefficients[i] * Pow(x, i);
        i := i - 1;
      }
    }
  }

  /** A fresh array of n + 1 coefficients: those of p, then zeros up to power n. */
  method ZeroPadded(p: Polynomial, n: nat) returns (t: array<int>)
    requires p.Valid() && p.order <= n
    ensures fresh(t) && t.Length == n + 1
    ensures forall k :: 0 <= k <= n ==> t[k] == Coeff(p.Coefficients(), k)
  {
    t := new int[n + 1];
    var i := 0;
    while i <= n
      invariant 0 <= i <= n + 1
      invariant forall k :: 0 <= k < i ==> t[k] == 0
    {
      t[i] := 0;
      i := i + 1;
    }
    i := 0;
    while i <= p.order
      invariant 0 <= i <= p.order + 1
      invariant forall k :: 0 <= k < i ==> t[k] == p.coefficients[k]
      invariant forall k :: i <= k <= n ==> t[k] == 0
    {
      t[i] := p.coefficients[i];
      i := i + 1;
    }
  }

  /** lhs + rhs: order max(lhs.order, rhs.order), coefficients added position-wise. */
  method Plus(lhs: Polynomial, rhs: Polynomial) returns (sum: Polynomial)
    requires lhs.Valid() && rhs.Valid()
    ensures fresh(sum) && fresh(sum.coefficients) && sum.Valid()
    ensures sum.order == Max(lhs.order, rhs.order)
    ensures sum.Coefficients() == Add(lhs.Coefficients(), rhs.Coefficients())
  {
    var order := if lhs.order >= rhs.order then lhs.order else rhs.order;
    var t1 := ZeroPadded(lhs, order);
    var t2 := ZeroPadded(rhs, order);
    var t3 := new int[order + 1];
    var i := 0;
    while i <= order
      invariant 0 <= i <= order + 1
      invariant forall k :: 0 <= k < i ==> t3[k] == t1[k] + t2[k]
      modifies t3
    {
      t3[i] := t1[i] + t2[i];
      i := i + 1;
    }
    assert t3[..] == Add(lhs.Coefficients(), rhs.Coefficients());
    sum := new Polynomial.FromArray(order, t3);
  }

  /** lhs - rhs: order max(lhs.order, rhs.order), coefficients subtracted position-wise. */
  method Minus(lhs: Polynomial, rhs: Polynomial) returns (difference: Polynomial)
    requires lhs.Valid() && rhs.Valid()
    ensures fresh(difference) && fresh(difference.coefficients) && difference.Valid()
    ensures difference.order == Max(lhs.order, rhs.order)
    ensures difference.Coefficients() == Sub(lhs.Coefficients(), rhs.Coefficients())
  {
    var order := if lhs.order >= rhs.order then lhs.order else rhs.order;
    var t1 := ZeroPadded(lhs, order);
    var t2 := ZeroPadded(rhs, order);
    var t3 := new int[order + 1];
    var i := 0;
    while i <= order
      invariant 0 <= i <= order + 1
      invariant forall k :: 0 <= k < i ==> t3[k] == t1[k] - t2[k]
      modifies t3
    {
      t3[i] := t1[i] - t2[i];
      i := i + 1;
    }
    assert t3[..] == Sub(lhs.Coefficients(), rhs.Coefficients());
    difference := new Polynomial.FromArray(order, t3);
  }

  /** lhs * rhs: order lhs.order + rhs.order, each coefficient the convolution sum. */
  method Times(lhs: Polynomial, rhs: Polynomial) returns (product: Polynomial)
    requires lhs.Valid() && rhs.Valid()
    ensures fresh(product) && fresh(product.coefficients) && product.Valid()
    ensures product.order == lhs.order + rhs.order
    ensures product.Coefficients() == Mul(lhs.Coefficients(), rhs.Coefficients())
  {
    ghost var a, b := lhs.Coefficients(), rhs.Coefficients();
    product := new Polynomial.Fill(lhs.order + rhs.order, 0);
    var pc := product.coefficients;
    var i := 0;
    while i <= lhs.order
      invariant 0 <= i <= lhs.order + 1
      invariant product.coefficients == pc && product.order == lhs.order + rhs.order
      invariant forall k :: 0 <= k < pc.Length ==> pc[k] == ConvSum(a, b, k, 0, i)
    {
      var j := 0;
      while j <= rhs.order
        invariant 0 <= j <= rhs.order + 1
        invariant product.coefficients == pc && product.order == lhs.order + rhs.order
        invariant forall k :: 0 <= k < pc.Length ==>
          pc[k] == ConvSum(a, b, k, 0, i) + (if 0 <= k - i < j then a[i] * b[k - i] else 0)
      {
        pc[i + j] := pc[i + j] + lhs.coefficients[i] * rhs.coefficients[j];
        j := j + 1;
      }
      i := i + 1;
    }
    forall k | 0 <= k < pc.Length
      ensures pc[k] == MulCoeff(a, b, k)
    {
      ConvSumIsMulCoeff(a, b, k);
    }
    assert product.Coefficients() == Mul(a, b);
  }

  /** P * s: same order, every coefficient multiplied by s. */
  method ScaleRight(lhs: Polynomial, rhs: int) returns (scaled: Polynomial)
    requires lhs.Valid()
    ensures fresh(scaled) && fresh(scaled.coefficients) && scaled.Valid()
    ensures scaled.order == lhs.order
    ensures scaled.Coefficients() == Scale(lhs.Coefficients(), rhs)
  {
    var order := lhs.order;
    var t := new int[order + 1];
    var i := 0;
    while i <= order
      invariant 0 <= i <= order + 1
      invariant forall k :: 0 <= k < i ==> t[k] == lhs.coefficients[k] * rhs
    {
      t[i] := lhs.coefficients[i] * rhs;
      i := i + 1;
    }
    scaled := new Polynomial.FromArray(order, t);
  }

  /** s * P: the same result as P * s. */
  method ScaleLeft(lhs: int, rhs: Polynomial) returns (scaled: Polynomial)
    requires rhs.Valid()
    ensures fresh(scaled) && fresh(scaled.coefficients) && scaled.Valid()
    ensures scaled.order == rhs.order
    ensures scaled.Coefficients() == Scale(rhs.Coefficients(), lhs)
  {
    var order := rhs.order;
    var t := new int[order + 1];
    var i := 0;
    while i <= order
      invariant 0 <= i <= order + 1
      invariant forall k :: 0 <= k < i ==> t[k] == rhs.coefficients[k] * lhs
    {
      t[i] := rhs.coefficients[i] * lhs;
      i := i + 1;
    }
    scaled := new Polynomial.FromArray(order, t);
  }

  /** lhs == rhs: false when the orders differ, otherwise true iff every coefficient matches. */
  method Equals(lhs: Polynomial, rhs: Polynomial) returns (eq: bool)
    requires lhs.Valid() && rhs.Valid()
    ensures lhs.order != rhs.order ==> !eq
    ensures eq <==> lhs.order == rhs.order
                    && forall i :: 0 <= i <= lhs.order ==> lhs.coefficients[i] == rhs.coefficients[i]
    ensures eq <==> lhs.Coefficients() == rhs.Coefficients()
  {
    if lhs.order != rhs.order {
      return false;
    }
    var i := 0;
    while i <= lhs.order || i <= rhs.order
      invariant 0 <= i <= lhs.order + 1
      invariant forall k :: 0 <= k < i ==> lhs.coefficients[k] == rhs.coefficients[k]
      decreases lhs.order + 1 - i
    {
      if lhs.coefficients[i] != rhs.coefficients[i] {
        return false;
      }
      i := i + 1;
    }
    assert lhs.Coefficients() == rhs.Coefficients();
    return true;
  }
}
