/**
 * Textual rendering of a coefficient sequence (index i holds the coefficient
 * of x^i), as the stream operator of the polynomial class writes it, and the
 * decimal rendering of the ints it writes.
 */
module Render {

  function Abs(v: int): nat
  {
    if v < 0 then -v else v
  }

  // ---------------------------------------------------------------------------
  // Decimal text of integers

  function DigitChar(d: nat): (c: char)
    requires d < 10
    ensures '0' <= c <= '9'
  {
    ('0' as int + d) as char
  }

  function DigitValue(c: char): int
  {
    c as int - '0' as int
  }

  /** Decimal digits of n, most significant first, without leading zeros. */
  function NatToString(n: nat): (s: string)
    ensures |s| >= 1
    ensures forall i :: 0 <= i < |s| ==> '0' <= s[i] <= '9'
    decreases n
  {
    if n < 10 then [DigitChar(n)] else NatToString(n / 10) + [DigitChar(n % 10)]
  }

  /** The decimal text has no leading zero: it starts with '0' only for 0 itself. */
  lemma {:induction false} NatToStringCanonical(n: nat)
    ensures NatToString(n)[0] == '0' <==> n == 0
    decreases n
  {
    if n >= 10 {
      NatToStringCanonical(n / 10);
    }
  }

  /** Decimal text of v, with a leading '-' when v is negative. */
  function IntToString(v: int): string
  {
    if v < 0 then "-" + NatToString(-v) else NatToString(v)
  }

  /** Value of a string of decimal digits. */
  function ParseNat(s: string): int
  {
    if s == [] then 0 else 10 * ParseNat(s[..|s| - 1]) + DigitValue(s[|s| - 1])
  }

  /** Value of a string of decimal digits, optionally preceded by '-'. */
  function ParseInt(s: string): int
  {
    if |s| > 0 && s[0] == '-' then -ParseNat(s[1..]) else ParseNat(s)
  }

  lemma {:induction false} NatRoundTrip(n: nat)
    ensures ParseNat(NatToString(n)) == n
    decreases n
  {
    if n >= 10 {
      NatRoundTrip(n / 10);
      var s := NatToString(n);
      assert s[..|s| - 1] == NatToString(n / 10);
    }
  }

  /** Reading back the decimal text of v gives v. */
  lemma IntRoundTrip(v: int)
    ensures ParseInt(IntToString(v)) == v
  {
    NatRoundTrip(Abs(v));
    if v < 0 {
      assert IntToString(v)[1..] == NatToString(-v);
    }
  }

  // ---------------------------------------------------------------------------
  // Classification

  /**
   * Scan of the first n coefficients from the highest index down, with the
   * early exits of NumCheck: 2 when only index 0 is non-zero, 3 when some
   * higher index is non-zero, 1 when all are zero.
   */
  function ClassifyBelow(s: seq<int>, n: nat): (k: int)
    requires n <= |s|
    ensures k == 1 <==> forall i :: 0 <= i < n ==> s[i] == 0
    ensures k == 2 <==> 0 < n && s[0] != 0 && forall i :: 1 <= i < n ==> s[i] == 0
    ensures k == 3 <==> exists i :: 1 <= i < n && s[i] != 0
  {
    if n == 0 then 1
    else if n - 1 == 0 && s[n - 1] != 0 then 2
    else if s[n - 1] != 0 then 3
    else ClassifyBelow(s, n - 1)
  }

  function Classify(s: seq<int>): int
  {
    ClassifyBelow(s, |s|)
  }

  // ---------------------------------------------------------------------------
  // Terms

  /** " + " before a positive coefficient, " - " before a negative one. */
  function Connector(c: int): string
  {
    if c > 0 then " + " else " - "
  }

  /** The magnitude of c, left out when it is 1. */
  function Magnitude(c: int): string
  {
    if Abs(c) != 1 then NatToString(Abs(c)) else ""
  }

  /**
   * Text of the term of power i, where |s| - 1 is the order. A zero coefficient
   * prints nothing; every other term opens with its connector, except the term
   * at the order when the order is at least 2, which prints the signed value.
   */
  function Term(s: seq<int>, i: nat): (t: string)
    requires i < |s|
    ensures t == "" <==> s[i] == 0
    ensures s[i] != 0 ==> |t| >= 2
    ensures s[i] != 0 && (i <= 1 || i != |s| - 1) ==> |t| > 3 && t[..3] == Connector(s[i])
    ensures s[i] != 0 && 2 <= i == |s| - 1 ==> t[0] != ' '
  {
    var c := s[i];
    if c == 0 then ""
    else if i == 0 then Connector(c) + NatToString(Abs(c))
    else if i == 1 then Connector(c) + Magnitude(c) + "x"
    else if i == |s| - 1 then
      (if Abs(c) != 1 then IntToString(c) else "") + (if c == -1 then "-" else "") + "x^" + NatToString(i)
    else Connector(c) + Magnitude(c) + "x^" + NatToString(i)
  }

  /** The power written after a coefficient: nothing for x^0, "x" for x^1, "x^i" above. */
  function PowerText(i: nat): string
  {
    if i == 0 then "" else if i == 1 then "x" else "x^" + NatToString(i)
  }

  /**
   * A non-zero term reads back as its coefficient followed by its power. The
   * term at the order (order at least 2) writes the signed value before the
   * power, with "" for 1 and "-" for -1; every other term writes its connector,
   * then the magnitude (left out for a unit coefficient of a power of at least
   * 1), then the power.
   */
  lemma TermReadsBack(s: seq<int>, i: nat)
    requires i < |s| && s[i] != 0
    ensures |Term(s, i)| >= 3 && (s[i] < 0 <==> Term(s, i)[0] == '-' || Term(s, i)[..3] == " - ")
    ensures |PowerText(i)| <= |Term(s, i)|
    ensures Term(s, i)[|Term(s, i)| - |PowerText(i)|..] == PowerText(i)
    ensures 2 <= i == |s| - 1 ==>
      var v := Term(s, i)[..|Term(s, i)| - |PowerText(i)|];
      (s[i] == 1 ==> v == "") && (s[i] == -1 ==> v == "-") && (Abs(s[i]) != 1 ==> ParseInt(v) == s[i])
    ensures (i <= 1 || i != |s| - 1) ==>
      3 <= |Term(s, i)| - |PowerText(i)| && Term(s, i)[..3] == Connector(s[i]) &&
      var m := Term(s, i)[3..|Term(s, i)| - |PowerText(i)|];
      (1 <= i && Abs(s[i]) == 1 ==> m == "") && (i == 0 || Abs(s[i]) != 1 ==> ParseNat(m) == Abs(s[i]))
  {
    var c, t, x := s[i], Term(s, i), PowerText(i);
    NatRoundTrip(Abs(c));
    if 2 <= i == |s| - 1 {
      var v := (if Abs(c) != 1 then IntToString(c) else "") + (if c == -1 then "-" else "");
      assert t == v + x;
      assert t[..|t| - |x|] == v;
      if Abs(c) != 1 {
        IntRoundTrip(c);
        assert v == IntToString(c);
      }
    } else {
      var m := if i == 0 then NatToString(Abs(c)) else Magnitude(c);
      assert t == Connector(c) + m + x;
      assert t[3..|t| - |x|] == m;
    }
  }

  /** The terms of powers |s| - 1 down to i + 1, highest power first. */
  function TermsAbove(s: seq<int>, i: int): string
    requires -1 <= i < |s|
    decreases |s| - i
  {
    if i == |s| - 1 then "" else TermsAbove(s, i + 1) + Term(s, i + 1)
  }

  /** The whole text: "0", the constant alone, or the non-zero terms from the highest power down. */
  function Render(s: seq<int>): string
  {
    var k := Classify(s);
    if k == 1 then "0"
    else if k == 2 then IntToString(s[0])
    else TermsAbove(s, -1)
  }

  // ---------------------------------------------------------------------------
  // Properties of the rendering

  /** Highest index at most i holding a non-zero coefficient, or -1 if there is none. */
  function HighestNonZero(s: seq<int>, i: int): (top: int)
    requires -1 <= i < |s|
    ensures -1 <= top <= i
    ensures top >= 0 ==> s[top] != 0
    ensures forall j :: top < j <= i ==> s[j] == 0
    decreases i + 1
  {
    if i < 0 then -1 else if s[i] != 0 then i else HighestNonZero(s, i - 1)
  }

  /** Zero coefficients above the highest non-zero one contribute no text. */
  lemma {:induction false} TermsAboveZero(s: seq<int>, i: int)
    requires -1 <= i < |s|
    requires forall j :: i < j < |s| ==> s[j] == 0
    ensures TermsAbove(s, i) == ""
    decreases |s| - i
  {
    if i < |s| - 1 {
      TermsAboveZero(s, i + 1);
    }
  }

  /** The text of the higher powers is always written before that of the lower ones. */
  lemma {:induction false} TermsAbovePrefix(s: seq<int>, j: int, i: int)
    requires -1 <= i <= j < |s|
    ensures |TermsAbove(s, j)| <= |TermsAbove(s, i)|
    ensures TermsAbove(s, i)[..|TermsAbove(s, j)|] == TermsAbove(s, j)
    decreases j - i
  {
    if i < j {
      TermsAbovePrefix(s, j, i + 1);
      var t, u := TermsAbove(s, i + 1), TermsAbove(s, j);
      assert TermsAbove(s, i) == t + Term(s, i + 1);
      assert (t + Term(s, i + 1))[..|u|] == t[..|u|];
    }
  }

  /** The terms open with the term of the highest non-zero power. */
  lemma TermsOpenWithTop(s: seq<int>, top: int)
    requires 0 <= top < |s| && s[top] != 0
    requires forall j :: top < j < |s| ==> s[j] == 0
    ensures |Term(s, top)| <= |TermsAbove(s, -1)|
    ensures TermsAbove(s, -1)[..|Term(s, top)|] == Term(s, top)
  {
    TermsAboveZero(s, top);
    assert TermsAbove(s, top - 1) == Term(s, top);
    TermsAbovePrefix(s, top - 1, -1);
  }

  /** When a power of at least 1 is present, the text opens with the term of the highest non-zero power. */
  lemma LeadingTerm(s: seq<int>)
    requires Classify(s) == 3
    ensures var top := HighestNonZero(s, |s| - 1);
      1 <= top && s[top] != 0 && |Term(s, top)| <= |Render(s)| && Render(s)[..|Term(s, top)|] == Term(s, top)
  {
    var top := HighestNonZero(s, |s| - 1);
    var i :| 1 <= i < |s| && s[i] != 0;
    assert i <= top;
    TermsOpenWithTop(s, top);
  }

  /** The text is "0" exactly when every coefficient is zero. */
  lemma RenderZero(s: seq<int>)
    ensures Render(s) == "0" <==> forall i :: 0 <= i < |s| ==> s[i] == 0
  {
    var k := Classify(s);
    if k == 2 {
      IntRoundTrip(s[0]);
      assert ParseInt("0") == 0;
    } else if k == 3 {
      LeadingTerm(s);
    }
  }

  /** A polynomial whose only non-zero coefficient is the constant prints that constant alone. */
  lemma RenderConstant(s: seq<int>)
    requires |s| >= 1 && s[0] != 0
    requires forall i :: 1 <= i < |s| ==> s[i] == 0
    ensures Render(s) == IntToString(s[0])
    ensures ParseInt(Render(s)) == s[0]
  {
    IntRoundTrip(s[0]);
  }

  /**
   * When some power of at least 1 is present, the text opens with a connector
   * (" + " or " - ") exactly when the order is 1 or the coefficient stored at
   * the order is zero; otherwise it opens with the leading term's signed value.
   */
  lemma LeadingConnector(s: seq<int>)
    requires Classify(s) == 3
    ensures |Render(s)| >= 2
    ensures Render(s)[0] == ' ' <==> (|s| == 2 || s[|s| - 1] == 0)
  {
    LeadingTerm(s);
  }

  // ---------------------------------------------------------------------------
  // Worked examples

  /** 3 - x + 2x^2 prints as "2x^2 - x + 3". */
  lemma RenderMixedSigns()
    ensures Render([3, -1, 2]) == "2x^2 - x + 3"
  {
    assert NatToString(2) == "2";
    assert NatToString(3) == "3";
  }

  /** x, of order 1, prints with a leading connector. */
  lemma RenderOrderOne()
    ensures Render([0, 1]) == " + x"
  {
  }

  /** x^3 prints with its unit coefficient left out. */
  lemma RenderUnitLeading()
    ensures Render([0, 0, 0, 1]) == "x^3"
  {
    assert NatToString(3) == "3";
  }

  /** -x^2 prints with a bare '-' for the coefficient -1 at the order. */
  lemma RenderNegativeUnitLeading()
    ensures Render([0, 0, -1]) == "-x^2"
  {
    assert NatToString(2) == "2";
  }

  lemma RenderExamplesConstant()
    ensures Render([0, 0, 0]) == "0"
    ensures Render([5]) == "5"
    ensures Render([-7]) == "-7"
  {
    assert NatToString(5) == "5";
    assert NatToString(7) == "7";
  }
}
