/** 64-bit division built from a 64-by-32 division (lib/arithmetic.c).  Machine integers
    are integers with explicit ranges; where the code truncates, so does the model. */
module Arithmetic {

  const B32: int := 0x1_0000_0000
  const B64: int := 0x1_0000_0000_0000_0000
  const B63: int := 0x8000_0000_0000_0000
  const B31: int := 0x8000_0000

  function Pow2(k: nat): (p: nat)
    ensures p > 0
  {
    if k == 0 then 1 else 2 * Pow2(k - 1)
  }

  lemma {:induction false} Pow2Sum(j: nat, k: nat)
    ensures Pow2(j + k) == Pow2(j) * Pow2(k)
  {
    if j > 0 {
      Pow2Sum(j - 1, k);
      MulAssoc(2, Pow2(j - 1), Pow2(k));
    }
  }

  lemma Pow2Values()
    ensures Pow2(1) == 2 && Pow2(2) == 4 && Pow2(4) == 16 && Pow2(8) == 256 && Pow2(16) == 65536
    ensures Pow2(31) == B31 && Pow2(32) == B32 && Pow2(62) == 0x4000_0000_0000_0000 && Pow2(64) == B64
  {
    SmallPow2();
    assert Pow2(32) == 2 * Pow2(31);
    hide Pow2;
    Pow2Sum(8, 8);
    Pow2Sum(16, 16);
    Pow2Sum(32, 32);
    Pow2Sum(31, 31);
  }

  lemma SmallPow2()
    ensures Pow2(1) == 2 && Pow2(2) == 4 && Pow2(4) == 16 && Pow2(8) == 256
  {
    assert Pow2(4) == 16;
    Pow2Sum(4, 4);
  }

  // ----- divl -----

  /** The DIVL instruction: it traps unless the quotient fits in 32 bits. */
  function Divl(n: nat, d: nat): (q: nat)
    requires n < B64 && 0 < d < B32
    requires n / d < B32
  {
    n / d
  }

  // ----- nlz -----

  /** The number of leading zero bits of a 32-bit value. */
  function Nlz(x: nat): (n: nat)
    requires 0 < x < B32
    ensures n < 32 && B31 <= x * Pow2(n) < B32
    decreases B32 - x
  {
    if x >= B31 then 0
    else
      var n := Nlz(2 * x);
      MulComm(2, x);
      MulAssoc(x, 2, Pow2(n));
      NlzFits(x, n);
      n + 1
  }

  lemma NlzFits(x: nat, n: nat)
    requires 0 < x < B31 && n < 32 && x * Pow2(n + 1) < B32
    ensures n + 1 < 32
  {
    Pow2Values();
    MulMono(1, x, Pow2(32));
  }

  /** Shifting out k known zero bits lowers the count by k. */
  lemma {:induction false} NlzShift(x: nat, k: nat)
    requires 0 < x && x * Pow2(k) < B32
    ensures x < B32 && Nlz(x) == k + Nlz(x * Pow2(k))
    decreases k
  {
    MulMono(1, Pow2(k), x);
    MulComm(Pow2(k), x);
    if k > 0 {
      MulComm(2, x);
      MulAssoc(x, 2, Pow2(k - 1));
      MulMono(1, Pow2(k - 1), 2 * x);
      MulComm(Pow2(k - 1), 2 * x);
      NlzShift(2 * x, k - 1);
    }
  }

  /** nlz(): binary search for the highest set bit, shifting x up as it goes. */
  method CountLeadingZeros(x0: nat) returns (n: nat)
    requires 0 < x0 < B32
    ensures n == Nlz(x0)
  {
    var x := x0;
    Pow2Values();
    hide Nlz, Pow2;
    n := 0;
    if x <= 0x0000FFFF {
      NlzShift(x, 16);
      n, x := n + 16, x * 0x10000;
    }
    if x <= 0x00FFFFFF {
      NlzShift(x, 8);
      n, x := n + 8, x * 0x100;
    }
    if x <= 0x0FFFFFFF {
      NlzShift(x, 4);
      n, x := n + 4, x * 0x10;
    }
    if x <= 0x3FFFFFFF {
      NlzShift(x, 2);
      n, x := n + 2, x * 4;
    }
    NlzTop(if x <= 0x7FFFFFFF then 2 * x else x);
    if x <= 0x7FFFFFFF {
      NlzShift(x, 1);
      n := n + 1;
    }
  }

  lemma NlzTop(x: nat)
    requires B31 <= x < B32
    ensures Nlz(x) == 0
  {
  }

  // ----- Products -----

  lemma MulMono(a: int, b: int, c: int)
    requires a <= b && c >= 0
    ensures a * c <= b * c
  {
  }

  lemma MulStrict(a: int, b: int, c: int)
    requires a < b && c > 0
    ensures a * c < b * c
  {
  }

  lemma MulDist(a: int, b: int, c: int)
    ensures (a + b) * c == a * c + b * c
  {
  }

  lemma MulAssoc(a: int, b: int, c: int)
    ensures a * b * c == a * (b * c)
  {
  }

  lemma MulComm(a: int, b: int)
    ensures a * b == b * a
  {
  }

  /** A factor can be cancelled from a strict inequality. */
  lemma MulCancel(a: int, b: int, c: int)
    requires a * c < b * c && c > 0
    ensures a < b
  {
    if b <= a {
      MulMono(b, a, c);
    }
  }

  // ----- udiv64 -----

  lemma DivBounds(n: nat, d: nat)
    requires d > 0
    ensures n / d * d <= n < (n / d + 1) * d
    ensures n / d * d + n % d == n
    ensures n / d >= 0
  {
    MulComm(n / d, d);
    MulDist(n / d, 1, d);
  }

  lemma DivUnique(n: nat, d: nat, q: int)
    requires d > 0 && q * d <= n < (q + 1) * d
    ensures n / d == q
  {
    DivBounds(n, d);
    MulCancel(n / d, q + 1, d);
    MulCancel(q, n / d + 1, d);
  }

  lemma DivDiv(n: nat, a: nat, b: nat)
    requires a > 0 && b > 0
    ensures a * b > 0 && n / a / b == n / (a * b)
  {
    var x := n / a;
    var q := x / b;
    MulStrict(0, a, b);
    DivBounds(n, a);
    DivBounds(x, b);
    MulMono(q * b, x, a);
    MulMono(x + 1, (q + 1) * b, a);
    Regroup(q, b, a);
    Regroup(q + 1, b, a);
    DivUnique(n, a * b, q);
  }

  lemma Regroup(q: int, b: int, a: int)
    ensures q * b * a == q * (a * b)
  {
    MulAssoc(q, b, a);
    MulComm(a, b);
  }

  /** The 32-bit divisor case: schoolbook division on the high and low words, and the
      low-word DIVL does not trap. */
  lemma ShortDivision(n: nat, d: nat)
    requires n < B64 && 0 < d < B32
    ensures var n1, n0 := n / B32, n % B32;
            && B32 * (n1 % d) + n0 < B64
            && (B32 * (n1 % d) + n0) / d < B32
            && (B32 * (n1 % d) + n0) / d + B32 * (n1 / d) == n / d
            && 0 <= B32 * (n1 % d) + n0 && n / d >= 0
  {
    var n1, n0 := n / B32, n % B32;
    var r1, t := n1 % d, n1 / d;
    var m := B32 * r1 + n0;
    DivBounds(n1, d);
    DivBounds(m, d);
    MulAssoc(B32, t, d);
    assert n == m + B32 * t * d;
    MulCancel(m / d, B32, d) by {
      assert m < B32 * d;
    }
    MulDist(m / d, B32 * t, d);
    MulDist(m / d + 1, B32 * t, d);
    DivUnique(n, d, m / d + B32 * t);
  }

  /** The estimate q0 = n / e, for an e just below d, is n / d or one more. */
  lemma EstimateOffByOne(n: nat, d: nat, e: nat)
    requires 0 < e <= d && n * (d - e) < d * e
    ensures n / e == n / d || n / e == n / d + 1
  {
    var q := n / d;
    DivBounds(n, d);
    DivBounds(n, e);
    // q <= n / e
    MulMono(e, d, q);
    MulComm(e, q);
    MulComm(d, q);
    MulCancel(q, n / e + 1, e);
    // n / e < q + 2
    calc {
      n * d;
      == { MulDist(e, d - e, n); MulComm(e, n); MulComm(d - e, n); MulComm(d, n); }
      n * e + n * (d - e);
      <
      n * e + d * e;
      == { MulDist(n, d, e); }
      (n + d) * e;
      <= { MulDist(q + 1, 1, d); MulMono(n + d, (q + 2) * d, e); }
      (q + 2) * d * e;
      == { MulAssoc(q + 2, d, e); MulComm(d, e); MulAssoc(q + 2, e, d); }
      (q + 2) * e * d;
    }
    MulCancel(n, (q + 2) * e, d);
    MulCancel(n / e, q + 2, e);
  }

  /** Divisor d, scaled by p, has high word v1; scaled back by m = 2^32 / p it is within m. */
  lemma ScaleDown(d: nat, p: nat, m: nat, v1: nat)
    requires p > 0 && p * m == B32 && v1 * B32 <= d * p < (v1 + 1) * B32
    ensures v1 * m <= d < v1 * m + m
  {
    Regroup(v1, m, p);
    Regroup(v1 + 1, m, p);
    MulDist(v1, 1, m);
    MulCancel(d, (v1 + 1) * m, p);
    if d < v1 * m {
      MulStrict(d, v1 * m, p);
    }
  }

  /** The high word of d scaled by p: at least p times the high word of d, and one word. */
  lemma ScaleUp(d: nat, d1: nat, p: nat, m: nat)
    requires d1 == d / B32 && p > 0 && p * m == B32 && B31 <= d1 * p < B32
    ensures d * p < B64 && B31 <= d * p / B32 < B32
  {
    DivBounds(d, B32);
    DivBounds(d * p, B32);
    // d1 * p and 2^32 are both multiples of p
    MulComm(p, m);
    MulCancel(d1, m, p);
    MulMono(d1 + 1, m, p);
    // d1 * p <= v1 < 2^32
    MulMono(d1 * B32, d, p);
    MulStrict(d, (d1 + 1) * B32, p);
    Swap(d1, B32, p);
    Swap(d1 + 1, B32, p);
    MulMono((d1 + 1) * p, B32, B32);
    MulCancel(d1 * p, d * p / B32 + 1, B32);
    MulCancel(d * p / B32, B32, B32);
  }

  lemma Swap(a: int, b: int, c: int)
    ensures a * b * c == a * c * b
  {
    MulAssoc(a, b, c);
    MulComm(b, c);
    MulAssoc(a, c, b);
  }

  /** The top word of the normalized divisor, shifted back, is close below the divisor. */
  lemma NormalizedDivisor(d: nat)
    requires B32 <= d < B64
    ensures 0 < d / B32 < B32
    ensures var s := Nlz(d / B32); var v1 := d * Pow2(s) / B32; var m := Pow2(32 - s);
            && d * Pow2(s) < B64
            && B31 <= v1 < B32
            && v1 * m <= d < v1 * m + m
  {
    var d1 := d / B32;
    var s := Nlz(d1);
    Pow2Values();
    Pow2Sum(s, 32 - s);
    ScaleUp(d, d1, Pow2(s), Pow2(32 - s));
    DivBounds(d * Pow2(s), B32);
    ScaleDown(d, Pow2(s), Pow2(32 - s), d * Pow2(s) / B32);
  }

  lemma SquareGap(m: int)
    ensures 4 * (m - 1) <= m * m
  {
    assert (m - 2) * (m - 2) >= 0;
  }

  /** The error term of the estimate is small enough for every numerator. */
  lemma ErrorIsSmall(n: nat, d: nat, e: nat, m: nat)
    requires n < B64 && m >= 2
    requires e <= d < e + m && e >= B31 * m
    ensures n * (d - e) < d * e
  {
    var x := B31 * m;
    calc {
      n * (d - e);
      <= { MulMono(d - e, m - 1, n); MulComm(d - e, n); MulComm(m - 1, n); }
      n * (m - 1);
      < { MulStrict(n, B64, m - 1); }
      B64 * (m - 1);
      ==
      B31 * B31 * (4 * (m - 1));
      <= { SquareGap(m); MulMono(4 * (m - 1), m * m, B31 * B31);
           MulComm(4 * (m - 1), B31 * B31); MulComm(m * m, B31 * B31); }
      B31 * B31 * (m * m);
      == { MulAssoc(B31, m, x); MulComm(m, x); }
      x * x;
      <= { MulMono(x, e, x); MulMono(x, e, e); MulComm(x, e); MulMono(e, d, e); }
      d * e;
    }
  }

  lemma EstimateFits(n: nat, v1: nat)
    requires n < B64 && B31 <= v1
    ensures n / 2 / v1 < B32
  {
    DivBounds(n / 2, v1);
    MulMono(B31, v1, B32);
    MulComm(v1, B32);
    MulCancel(n / 2 / v1, B32, v1);
  }

  lemma EstimateIsQuotient(n: nat, v1: nat, s: nat)
    requires v1 > 0 && s < 32
    ensures v1 * Pow2(32 - s) > 0
    ensures n / 2 / v1 / Pow2(31 - s) == n / (v1 * Pow2(32 - s))
  {
    DivDiv(n, 2, v1);
    DivDiv(n, 2 * v1, Pow2(31 - s));
    MulComm(2, v1);
    MulAssoc(v1, 2, Pow2(31 - s));
  }

  lemma CorrectEstimate(n: nat, d: nat, q: nat)
    requires 0 < d <= n && (q == n / d || q == n / d + 1)
    ensures q >= 1 && (q - 1) * d <= n && n / d == (if n - (q - 1) * d < d then q - 1 else q)
  {
    DivBounds(n, d);
    MulCancel(1, n / d + 1, d);
    MulDist(n / d, 1, d);
    MulDist(n / d - 1, 1, d);
  }

  /** The 64-bit divisor case: the only DIVL does not trap and the corrected estimate is the
      quotient. */
  lemma LongDivision(n: nat, d: nat)
    requires B32 <= d <= n < B64
    ensures 0 < d / B32 < B32
    ensures var s := Nlz(d / B32); var v1 := d * Pow2(s) / B32;
            && 0 < v1 < B32 && n / 2 / v1 < B32
            && var q := n / 2 / v1 / Pow2(31 - s);
            && q >= 1 && (q - 1) * d <= n
            && n / d == (if n - (q - 1) * d < d then q - 1 else q)
  {
    NormalizedDivisor(d);
    var s := Nlz(d / B32);
    var v1 := d * Pow2(s) / B32;
    var m := Pow2(32 - s);
    EstimateFits(n, v1);
    EstimateIsQuotient(n, v1, s);
    MulMono(B31, v1, m);
    ErrorIsSmall(n, d, v1 * m, m);
    EstimateOffByOne(n, d, v1 * m);
    CorrectEstimate(n, d, n / 2 / v1 / Pow2(31 - s));
  }

  function ShortQuotient(n: nat, d: nat): (q: nat)
    requires n < B64 && 0 < d < B32
    ensures q == n / d
  {
    ShortDivision(n, d);
    var n1: int, n0: int := n / B32, n % B32;
    Divl(B32 * (n1 % d) + n0, d) + B32 * (n1 / d)
  }

  /** The subtraction and product of the correction step are exact, so their wrap-around at
      2^64 never happens. */
  function LongQuotient(n: nat, d: nat): (q: nat)
    requires B32 <= d <= n < B64
    ensures q == n / d
  {
    LongDivision(n, d);
    var s := Nlz(d / B32);
    var q := Divl(n / 2, d * Pow2(s) / B32) / Pow2(31 - s);
    if n - (q - 1) * d < d then q - 1 else q
  }

  lemma HighWordZero(d: nat)
    ensures d / B32 == 0 <==> d < B32
  {
  }

  lemma SmallDiv(n: nat, d: nat)
    requires n < d
    ensures n / d == 0
  {
    DivUnique(n, d, 0);
  }

  /** udiv64(). */
  function UDiv64(n: nat, d: nat): (q: nat)
    requires n < B64 && 0 < d < B64
    ensures q == n / d
  {
    HighWordZero(d);
    if d / B32 == 0 then ShortQuotient(n, d)
    else if n < d then SmallDiv(n, d); 0
    else LongQuotient(n, d)
  }

  // ----- The other three routines -----

  /** umod64() returns a 32-bit value. */
  function UMod64(n: nat, d: nat): (r: nat)
    requires n < B64 && 0 < d < B64
    ensures r == n % d % B32
  {
    DivBounds(n, d);
    MulComm(n / d, d);
    (n - d * UDiv64(n, d)) % B32
  }

  lemma SmallMod(n: nat, d: nat)
    requires n < d
    ensures n % d == n
  {
  }

  /** umod64() is the remainder for every numerator exactly when the divisor is at most
      2^32; beyond that the numerator d - 1 already fails. */
  lemma UMod64ExactIff(d: nat)
    requires 0 < d < B64
    ensures (forall n: nat :: n < B64 ==> UMod64(n, d) == n % d) <==> d <= B32
  {
    hide UMod64;
    if d <= B32 {
      forall n: nat | n < B64 ensures UMod64(n, d) == n % d {
        SmallMod(n % d, B32);
      }
    } else {
      SmallMod(d - 1, d);
      assert UMod64(d - 1, d) < B32;
    }
  }

  /** Reading a 64-bit pattern as a signed number. */
  function ToSigned64(x: int): (r: int)
    ensures -B63 <= r < B63
    ensures -B63 <= x < B63 ==> r == x
  {
    var u: int := x % B64;
    if u < B63 then u else u - B64
  }

  function ToSigned32(x: int): (r: int)
    ensures -B31 <= r < B31
    ensures -B31 <= x < B31 ==> r == x
  {
    var u: int := x % B32;
    if u < B31 then u else u - B32
  }

  function Abs(x: int): nat {
    if x >= 0 then x else -x
  }

  /** C's division: the quotient truncated toward zero. */
  predicate TruncatedQuotient(n: int, d: int, q: int) {
    && Abs(n - q * d) < Abs(d)
    && (n - q * d == 0 || (n - q * d < 0 <==> n < 0))
  }

  /** sdiv64(), with signed conversions that wrap. */
  function SDiv64(n: int, d: int): (q: int)
    requires -B63 <= n < B63 && -B63 <= d < B63 && d != 0
    ensures -B63 <= q < B63
  {
    var qAbs := UDiv64(Abs(n), Abs(d));
    if (n < 0) == (d < 0) then ToSigned64(qAbs) else ToSigned64(-ToSigned64(qAbs))
  }

  lemma QuotientBound(a: nat, b: nat)
    requires b > 0
    ensures 0 <= a / b <= a
    ensures b >= 2 ==> 2 * (a / b) <= a
  {
    DivBounds(a, b);
    MulMono(1, b, a / b);
    if b >= 2 {
      MulMono(2, b, a / b);
    }
    MulComm(b, a / b);
  }

  lemma MulSigns(q: int, d: int)
    ensures q * -d == -(q * d) && -q * d == -(q * d) && -q * -d == q * d
  {
  }

  function WithSign(n: int, d: int, q: int): int {
    if (n < 0) == (d < 0) then q else -q
  }

  lemma SignedQuotient(n: int, d: int, q: nat)
    requires d != 0 && q * Abs(d) <= Abs(n) < (q + 1) * Abs(d)
    ensures TruncatedQuotient(n, d, WithSign(n, d, q))
  {
    MulSigns(q, d);
    MulDist(q, 1, Abs(d));
  }

  /** sdiv64() truncates toward zero for every pair of operands except the one whose
      quotient, 2^63, has no 64-bit representation. */
  lemma SDiv64TruncatesIff(n: int, d: int)
    requires -B63 <= n < B63 && -B63 <= d < B63 && d != 0
    ensures TruncatedQuotient(n, d, SDiv64(n, d)) <==> !(n == -B63 && d == -1)
    ensures n == -B63 && d == -1 ==> SDiv64(n, d) == n
  {
    hide UDiv64;
    var a, b := Abs(n), Abs(d);
    QuotientBound(a, b);
    DivBounds(a, b);
    SignedQuotient(n, d, a / b);
    if n == -B63 && d == -1 {
      assert SDiv64(n, d) == -B63;
    } else {
      assert SDiv64(n, d) == WithSign(n, d, a / b);
    }
  }

  /** smod64() returns a signed 32-bit value; the intermediate product wraps at 2^64. */
  function SMod64(n: int, d: int): (r: int)
    requires -B63 <= n < B63 && -B63 <= d < B63 && d != 0
    ensures -B31 <= r < B31
  {
    ToSigned32(ToSigned64(n - ToSigned64(d * SDiv64(n, d))))
  }

  /** C's remainder: it has the sign of the numerator. */
  function TruncatedRemainder(n: int, d: int): (r: int)
    requires d != 0
    ensures Abs(r) < Abs(d) && Abs(r) <= Abs(n) && (r == 0 || (r < 0 <==> n < 0))
  {
    ModAtMost(Abs(n), Abs(d));
    if n >= 0 then n % Abs(d) else -((-n) % Abs(d))
  }

  lemma ModAtMost(a: nat, b: nat)
    requires b > 0
    ensures a % b <= a
  {
    if a < b {
      SmallMod(a, b);
    }
  }

  lemma NonNegativeFactor(q: int, b: nat, r: nat)
    requires b > 0 && r < b && q * b + r >= 0
    ensures q >= 0
  {
    MulDist(q, 1, b);
    MulCancel(0, q + 1, b);
  }

  lemma TruncatedUnique(n: int, d: int, q: int)
    requires d != 0 && TruncatedQuotient(n, d, q)
    ensures n - q * d == TruncatedRemainder(n, d)
  {
    var a, b := Abs(n), Abs(d);
    var r := Abs(n - q * d);
    var q' := if (n < 0) == (d < 0) then q else -q;
    MulSigns(q, d);
    assert q' * b + r == a;
    NonNegativeFactor(q', b, r);
    MulDist(q', 1, b);
    DivUnique(a, b, q');
    DivBounds(a, b);
    assert a % b == r;
  }

  lemma SMod64Value(n: int, d: int)
    requires -B63 <= n < B63 && -B63 <= d < B63 && d != 0 && !(n == -B63 && d == -1)
    ensures SMod64(n, d) == ToSigned32(TruncatedRemainder(n, d))
  {
    hide SDiv64, TruncatedQuotient, TruncatedRemainder, UDiv64;
    var r := TruncatedRemainder(n, d);
    QuotientTimes(n, d);
    assert -B63 <= n - r < B63 && -B63 <= r < B63;
    assert ToSigned64(d * SDiv64(n, d)) == n - r;
  }

  lemma QuotientTimes(n: int, d: int)
    requires -B63 <= n < B63 && -B63 <= d < B63 && d != 0 && !(n == -B63 && d == -1)
    ensures d * SDiv64(n, d) == n - TruncatedRemainder(n, d)
  {
    hide SDiv64, TruncatedQuotient, TruncatedRemainder, UDiv64;
    SDiv64TruncatesIff(n, d);
    TruncatedUnique(n, d, SDiv64(n, d));
    MulComm(d, SDiv64(n, d));
  }

  /** smod64() is the remainder for every numerator exactly when |d| <= 2^31. */
  lemma SMod64ExactIff(d: int)
    requires -B63 <= d < B63 && d != 0
    ensures (forall n: int :: -B63 <= n < B63 && !(n == -B63 && d == -1) ==>
               SMod64(n, d) == TruncatedRemainder(n, d)) <==> Abs(d) <= B31
  {
    if Abs(d) <= B31 {
      forall n: int | -B63 <= n < B63 && !(n == -B63 && d == -1)
        ensures SMod64(n, d) == TruncatedRemainder(n, d)
      {
        SMod64Value(n, d);
      }
    } else {
      // The numerator |d| - 1 is its own remainder and does not fit.
      var n: int := Abs(d) - 1;
      SmallMod(n, Abs(d));
      assert TruncatedRemainder(n, d) == n;
      assert SMod64(n, d) < B31;
      assert SMod64(n, d) != TruncatedRemainder(n, d);
    }
  }
}
