# Polynomial operations — a Dafny model

This project models the `Polynomial<T>` class template of the polynomial
operations program, with `T` taken as `int`. A polynomial is dense and has a
single variable. It is stored as an order `n` and an owned array of `n + 1`
coefficients, where index `i` holds the coefficient of `x^i`.

The model covers:

- the constructors, copy assignment and `SetValues`;
- addition and subtraction, with zero-padding to the larger order;
- multiplication by convolution, and scaling by a scalar on either side;
- equality and the 1-based reversed indexing, for reading and for writing;
- evaluation at a point;
- the textual rendering that the stream operator writes.

Three modules:

- `PolySpec` (`poly_spec.dfy`) is the value-level specification over
  `seq<int>`. It defines zero-extended coefficients (`Coeff`), `Add`, `Sub`,
  `Scale`, `Mul` (the Cauchy product), `Pow`, `Eval`, and the reversed index
  `At` with `Update`. It also proves the algebra these obey: commutativity,
  the additive identity, Horner's rule, and that evaluation respects `+`, `-`,
  scaling and `*`.
- `Render` (`render.dfy`) specifies the text. It covers decimal integers (with
  a parse-back round trip), the three-way classification that `NumCheck`
  computes, the per-term rules and the whole rendering. It proves the cases of
  the output and some worked examples.
- `Polynomials` (`polynomial.dfy`) holds the class `Polynomial`. Its fields
  are `order` and `coefficients: array<int>`. It has the constructors and
  methods of the class. The free operators are module-level methods: `Plus`,
  `Minus`, `Times`, `ScaleRight` (`P * s`), `ScaleLeft` (`s * P`) and `Equals`.
  Each has loops like the source's, and each is proved against the functions
  of `PolySpec` and `Render`.

Where the evidently intended output and the code differ, the model follows the
code. The order-1 polynomial `[0, 1]` would naturally print as `"x"`, but the
code writes a connector before every power-0 and power-1 term, so it prints
`" + x"`. `Render.RenderOrderOne` states that output, and
`Render.LeadingConnector` states exactly when the text opens with a connector.

The `GetOrder` accessor is modelled as `Polynomial.GetOrder()`. The read-only
view of the coefficients is `Polynomial.Coefficients()`.

## Model

| member | source | states |
|---|---|---|
| `Polynomials.Polynomial.GetOrder` | PO_polyclass.hpp:36 | the order, which for a valid object is one less than the number of stored coefficients |
| `Polynomials.Polynomial.Coefficients` | PO_polyclass.hpp:37 | the read-only view of the coefficient array: same length, and element i equals stored slot i; for a valid object it holds order + 1 coefficients |
| `Polynomials.Polynomial.constructor` | PO_polyclass.hpp:74-81 | order 0 with the single coefficient 1, in a fresh array |
| `Polynomials.Polynomial.Fill` | PO_polyclass.hpp:83-90 | the given order, and all order + 1 coefficients equal to the fill value |
| `Polynomials.Polynomial.FromArray` | PO_polyclass.hpp:92-99 | the given order, and a fresh array equal to the first order + 1 elements of the caller's array |
| `Polynomials.Polynomial.Copy` | PO_polyclass.hpp:101-108 | deep copy: same order and coefficients as the source, with storage not shared |
| `Polynomials.Polynomial.Assign` | PO_polyclass.hpp:110-124 | takes the other polynomial's order and a fresh copy of its coefficients; self-assignment leaves array and order as they were; the right-hand side is unchanged |
| `Polynomials.Polynomial.SetValues` | PO_polyclass.hpp:184-192 | replaces order and coefficients with a fresh copy of the caller's first order + 1 elements |
| `Polynomials.CopyPrefix` | PO_polyclass.hpp:96-97 | the copy loop: a fresh array equal to the first n elements of its source |
| `Polynomials.Polynomial.NumCheck` | PO_polyclass.hpp:60-72 | returns 1 iff all coefficients are zero, 2 iff only index 0 is non-zero, 3 iff some index of at least 1 is non-zero; equals `Render.Classify` |
| `Render.ClassifyBelow` | PO_polyclass.hpp:60-72 | the top-down scan with early exits meets the same three if-and-only-if cases |
| `Polynomials.Polynomial.ToString` | PO_polyclass.hpp:126-182 | the text written is exactly `Render.Render` of the coefficients |
| `Polynomials.Polynomial.TermsText` | PO_polyclass.hpp:140-174 | the loop, with the four term cases in its body, writes the terms of the non-zero coefficients from the highest power down, skipping zeros; the text equals `Render.TermsAbove` |
| `Render.NatToString` | PO_polyclass.hpp:148 | the decimal text of a magnitude is non-empty and all digits |
| `Render.NatToStringCanonical` | PO_polyclass.hpp:148 | the decimal text has no leading zero: it starts with '0' exactly when the number is 0 |
| `Render.IntRoundTrip` | PO_polyclass.hpp:136 | the decimal text of a signed coefficient parses back to that coefficient |
| `Render.Term` | PO_polyclass.hpp:142-172 | a zero coefficient prints nothing and every other term prints at least two characters; a term not at the order, or of power at most 1, opens with its connector; the term at the order, for order at least 2, never opens with a space |
| `Render.TermReadsBack` | PO_polyclass.hpp:144-172 | a non-zero term is negative exactly when it opens with '-' or " - "; it ends with its power ("", "x" or "x^i"); before the power, the term at the order (order at least 2) holds "" for 1, "-" for -1 and otherwise text that parses back to the coefficient; every other term holds its connector and then the magnitude, which parses back to the absolute value and is left out for a unit coefficient of a power of at least 1 |
| `Render.TermsAboveZero` | PO_polyclass.hpp:142 | zero coefficients above the highest non-zero one contribute no text |
| `Render.TermsAbovePrefix` | PO_polyclass.hpp:140 | text of higher powers is always written before text of lower powers |
| `Render.TermsOpenWithTop` | PO_polyclass.hpp:140-174 | the terms open with the term of the highest non-zero power |
| `Render.LeadingTerm` | PO_polyclass.hpp:139-174 | when a power of at least 1 is present, the output opens with the highest non-zero term, at a power of at least 1 |
| `Render.RenderZero` | PO_polyclass.hpp:129-133 | the output is "0" if and only if every coefficient is zero |
| `Render.RenderConstant` | PO_polyclass.hpp:135-137 | when only the constant term is non-zero, the output is that constant alone and parses back to it |
| `Render.LeadingConnector` | PO_polyclass.hpp:144-162 | when a power of at least 1 is present, the output opens with a space (a connector) exactly when the order is 1 or the coefficient at the order is zero |
| `Render.RenderMixedSigns` | PO_polyclass.hpp:140-174 | `[3, -1, 2]` renders as "2x^2 - x + 3" |
| `Render.RenderOrderOne` | PO_polyclass.hpp:150-156 | `[0, 1]` renders as " + x", with the connector the code writes for power 1 |
| `Render.RenderUnitLeading` | PO_polyclass.hpp:158-162 | `[0, 0, 0, 1]` renders as "x^3", with the unit coefficient left out |
| `Render.RenderNegativeUnitLeading` | PO_polyclass.hpp:158-162 | `[0, 0, -1]` renders as "-x^2", with a bare '-' for the coefficient -1 at the order |
| `Render.RenderExamplesConstant` | PO_polyclass.hpp:129-137 | `[0, 0, 0]` renders as "0", `[5]` as "5", `[-7]` as "-7" |
| `Polynomials.Polynomial.Get` | PO_polyclass.hpp:314-320 | `PolySpec.At`: index i in 1..order + 1 reads coefficient order + 1 - i; every other index fails with that index |
| `Polynomials.Polynomial.Set` | PO_polyclass.hpp:322-328 | an in-range write changes only slot order + 1 - i and never the order; an out-of-range index fails with that index and changes nothing |
| `PolySpec.AtIsPrintOrder` | PO_polyclass.hpp:17-22 | index i reads the i-th coefficient in printing order (highest power first); it succeeds exactly on 1..order + 1; a failure carries the index |
| `PolySpec.HighestFirstLength` | PO_polyclass.hpp:140 | the highest-first walk of the printing loop visits every coefficient once: it has as many entries as there are coefficients |
| `PolySpec.HighestFirstAt` | PO_polyclass.hpp:140 | visit k of the highest-first walk, the "Coeff. Num." k + 1 of line 21, reads the coefficient of power \|s\| - 1 - k |
| `PolySpec.AtUpdate` | PO_polyclass.hpp:322-328 | a write through index i reads back at i; every other index reads what it did before |
| `Polynomials.Polynomial.Evaluate` | PO_polyclass.hpp:330-338 | the highest-power-first accumulation equals the sum of coefficients[i] * x^i |
| `PolySpec.EvalCons` | PO_polyclass.hpp:330-338 | Horner's rule: P(x) equals the constant term plus x times the value of the remaining terms |
| `Polynomials.ZeroPadded` | PO_polyclass.hpp:204-206 | the temporary array holds an operand's coefficients, zero-extended to the result order |
| `Polynomials.Plus` | PO_polyclass.hpp:194-217 | fresh result of order max(lhs.order, rhs.order); coefficient i is lhs[i] + rhs[i], with 0 beyond an operand's order; no trimming; operands unchanged |
| `Polynomials.Minus` | PO_polyclass.hpp:219-242 | fresh result of order max(lhs.order, rhs.order); coefficient i is lhs[i] - rhs[i] under the same alignment |
| `PolySpec.AddCommutes` | PO_polyclass.hpp:194-217 | A + B == B + A |
| `PolySpec.AddZeros` | PO_polyclass.hpp:204-208 | adding an all-zero polynomial of the same or lower order changes nothing |
| `PolySpec.SubIsAddNegated` | PO_polyclass.hpp:219-242 | A - B == A + (-1) * B |
| `PolySpec.AddExample` | PO_polyclass.hpp:194-217 | (x + 2) + (3x + 1) == 4x + 3 |
| `PolySpec.EvalAdd` | PO_polyclass.hpp:194-217 | (A + B)(x) == A(x) + B(x) |
| `PolySpec.EvalSub` | PO_polyclass.hpp:219-242 | (A - B)(x) == A(x) - B(x) |
| `Polynomials.Times` | PO_polyclass.hpp:244-266 | fresh result of order lhs.order + rhs.order; coefficient k is the sum of lhs[i] * rhs[j] over i + j == k; the nested accumulation has this as its loop invariant |
| `PolySpec.ConvSumIsMulCoeff` | PO_polyclass.hpp:252-262 | summing over the stored indices of lhs, as the nested loops do, gives the product coefficient |
| `PolySpec.ConvSumReverse` | PO_polyclass.hpp:258 | reindexing i to k - i swaps the operands of the convolution sum |
| `PolySpec.MulCommutes` | PO_polyclass.hpp:244-266 | A * B == B * A |
| `PolySpec.MulConstant` | PO_polyclass.hpp:244-266 | multiplying by a polynomial of order 0 is scaling |
| `PolySpec.MulCons` | PO_polyclass.hpp:244-266 | A * B == A[0] * B + x * (A without its constant term) * B |
| `PolySpec.EvalMul` | PO_polyclass.hpp:244-266 | (A * B)(x) == A(x) * B(x) |
| `Polynomials.ScaleRight` | PO_polyclass.hpp:268-280 | P * s: fresh result with the same order; each coefficient c_i becomes c_i * s |
| `Polynomials.ScaleLeft` | PO_polyclass.hpp:282-294 | s * P: the same result as P * s |
| `PolySpec.EvalScale` | PO_polyclass.hpp:268-294 | (s * P)(x) == s * P(x) |
| `Polynomials.Equals` | PO_polyclass.hpp:296-312 | false whenever the orders differ; otherwise true iff coefficient i matches for every 0 <= i <= order; equivalently, the two coefficient sequences are equal |

## Left out

- The interactive menu in PO_main.cpp is not part of this model: prompts, `cin`/`cout`, `PrintSeparator`, `setw` alignment and `main`. It is console I/O around the class.
- Only `int` coefficients are modelled. The program itself uses `Polynomial<double>`, and floating-point arithmetic is not modelled.
- `Polynomials.Polynomial.Evaluate`: `pow(x, i)` from `<cmath>` returns a `double`, and the product is added to an integer accumulator. The model uses an exact integer power, so it does not capture rounding or the conversion back to the coefficient type.
- Integers are unbounded. The C++ `int` is 32-bit, so overflow in `+`, `*`, `pow`, and `abs` of the most negative value are not modelled.
- `new[]`, `delete[]` and the destructor are not modelled as steps. Every fresh array is an allocation, and Dafny has no deallocation.
- Negative orders are excluded: `order` is a `nat`. In the source, order -1 is defined: `new T[0]` is legal, every loop is skipped, `NumCheck` returns 1 so the text is "0", and every index throws. Order -1 is not modelled, and lower orders make `new T[order + 1]` fail.
- A caller array shorter than order + 1, in `FromArray` and `SetValues`, is undefined in the source and is excluded by a precondition.
- `Polynomials.Polynomial.Fill`: the C++ default argument `defaultCoeff = 0` is not modelled, because Dafny has no default arguments. Every caller passes the fill value explicitly, and `Times` passes 0, as the source's `product(lhs.order + rhs.order)` does.
- `Polynomials.Polynomial.SetValues`: the source frees its own array before reading the caller's, so passing the object's own coefficient array reads freed memory. The model copies first, which is the defined reading.
- `throw i` out of `operator[]` is modelled as the result `OutOfRange(i)`. Stack unwinding is not modelled.
- `Polynomials.Polynomial.Set`: the mutable `operator[]` hands out a `T&`. The model writes one given value through the index. A reference kept and written to later, or never written, is not modelled.
- `Polynomials.Polynomial.Assign`: the `*this` reference that `operator=` returns, which allows chained assignment, is not modelled.
- `GetCoefficients` returns a raw, writable `int*` that aliases the coefficient array until `SetValues` or `operator=` replaces it. It is modelled as the read-only view `Coefficients()`. Writes through the returned pointer, and the aliasing itself, are not modelled.
- `operator<<` writes to an `ostream`. It is modelled as `ToString` returning the string that would be written. Stream state and chaining are not modelled.
