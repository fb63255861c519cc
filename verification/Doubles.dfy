// `Number(bigint)`: the double nearest to an integer, ties to even.

module Doubles {

  function Pow2(e: nat): (p: nat)
    ensures 1 <= p
  {
    if e == 0 then 1 else 2 * Pow2(e - 1)
  }

  // 2 to the 53rd: doubles hold every integer up to here.
  const MAX_EXACT := 0x20_0000_0000_0000

  function Scaled(m: int, e: nat): int { m * Pow2(e) }

  /** The integers a double can hold: 53 bits, shifted. */
  ghost predicate Representable(d: int) {
    exists m: int, e: nat :: -MAX_EXACT <= m <= MAX_EXACT && d == Scaled(m, e)
  }

  /** The spacing of doubles around n. */
  function Spacing(n: nat): (u: nat)
    ensures 1 <= u
  {
    if n < MAX_EXACT then 1 else 2 * Spacing(n / 2)
  }

  function ToDouble(n: int): int
    decreases if n < 0 then 1 else 0
  {
    if n < 0 then -ToDouble(-n)
    else
      var u := Spacing(n);
      var q, r := n / u, n % u;
      if 2 * r < u || (2 * r == u && q % 2 == 0) then q * u else (q + 1) * u
  }

  function Distance(a: int, b: int): nat { if a < b then b - a else a - b }

  /** No representable integer is nearer. */
  ghost predicate Nearest(d: int, n: int) {
    Representable(d) && forall x: int :: Representable(x) ==> Distance(d, n) <= Distance(x, n)
  }

  lemma Scale(a: int, b: int, c: nat)
    requires a <= b
    ensures a * c <= b * c
  {
  }

  lemma HalfQuotient(n: nat, u: nat)
    requires 1 <= u
    ensures n / (2 * u) == n / 2 / u
  {
    var q, r, b := n / 2 / u, n / 2 % u, n % 2;
    assert n == q * (2 * u) + (2 * r + b) by {
      assert n / 2 == q * u + r && n == 2 * (n / 2) + b;
    }
    QuotientIs(n, 2 * u, q, 2 * r + b);
  }

  lemma QuotientIs(n: nat, u: nat, q: nat, r: nat)
    requires 1 <= u && r < u && n == q * u + r
    ensures n / u == q
  {
    if q < n / u {
      Scale(q + 1, n / u, u);
    } else if n / u < q {
      Scale(n / u + 1, q, u);
    }
  }

  /** The quotient by the spacing has at most 53 bits, and all of them if the spacing is not one. */
  lemma {:induction false} SpacingFits(n: nat) returns (e: nat)
    ensures Spacing(n) == Pow2(e) && n / Spacing(n) < MAX_EXACT && (e > 0 ==> MAX_EXACT <= 2 * (n / Spacing(n)))
  {
    if n < MAX_EXACT {
      e := 0;
    } else {
      var half := SpacingFits(n / 2);
      HalfQuotient(n, Spacing(n / 2));
      e := half + 1;
    }
  }

  lemma Assoc(a: int, b: int, c: int)
    ensures a * (b * c) == a * b * c
  {
  }

  lemma {:induction false} PowersMultiply(e: nat, f: nat)
    requires e <= f
    ensures Pow2(f) == Pow2(f - e) * Pow2(e)
  {
    if e < f {
      PowersMultiply(e, f - 1);
      Assoc(2, Pow2(f - 1 - e), Pow2(e));
    }
  }

  lemma {:induction false} PowersGrow(e: nat, f: nat)
    requires e <= f
    ensures Pow2(e) <= Pow2(f)
  {
    if e < f { PowersGrow(e, f - 1); }
  }

  /** A multiple of u outside the two around n is no nearer than either. */
  lemma MultipleNoNearer(k: int, q: int, r: int, u: nat)
    requires 0 <= r < u
    ensures Distance(k * u, q * u + r) >= (if k <= q then r else u - r)
  {
    if k <= q {
      Scale(k, q, u);
    } else {
      Scale(q + 1, k, u);
      assert (q + 1) * u == q * u + u;
    }
  }

  lemma SmallProduct(m: int, a: nat, b: nat)
    requires m <= MAX_EXACT && a <= b
    ensures m * a <= MAX_EXACT * b
  {
    Scale(m, MAX_EXACT, a);
  }

  /** What a smaller power scales stays at or below a quotient of 53 bits. */
  lemma SmallNoNearer(m: int, f: nat, e: nat, q: nat, r: nat)
    requires m <= MAX_EXACT && f < e && MAX_EXACT <= 2 * q
    ensures Distance(Scaled(m, f), Scaled(q, e) + r) >= r
  {
    PowersGrow(f, e - 1);
    var p := Pow2(e - 1);
    SmallProduct(m, Pow2(f), p);
    Scale(MAX_EXACT, 2 * q, p);
    Regroup(q, p);
  }

  lemma Regroup(q: int, p: int)
    ensures 2 * q * p == q * (2 * p)
  {
  }

  /** Of the two multiples of the spacing around n the nearer one is taken, and of two equally near
      the even one. */
  lemma RoundsToNearer(n: nat)
    ensures var u := Spacing(n);
            var q, r, d := n / u, n % u, ToDouble(n);
            && n == q * u + r && (d == q * u || d == (q + 1) * u)
            && Distance(d, n) <= r && Distance(d, n) <= u - r
            && (2 * r == u ==> (d == q * u <==> q % 2 == 0))
  {
    var u := Spacing(n);
    assert (n / u + 1) * u == n / u * u + u;
  }

  lemma NoneNearer(x: int, n: nat, e: nat)
    requires Representable(x) && Spacing(n) == Pow2(e) && (e > 0 ==> MAX_EXACT <= 2 * (n / Spacing(n)))
    ensures var r := n % Spacing(n); Distance(x, n) >= r || Distance(x, n) >= Spacing(n) - r
  {
    var u := Spacing(n);
    RoundsToNearer(n);
    var m: int, f: nat :| -MAX_EXACT <= m <= MAX_EXACT && x == Scaled(m, f);
    if e <= f {
      PowersMultiply(e, f);
      Assoc(m, Pow2(f - e), u);
      MultipleNoNearer(m * Pow2(f - e), n / u, n % u, u);
    } else {
      SmallNoNearer(m, f, e, n / u, n % u);
    }
  }

  lemma NearestToNat(n: nat)
    ensures Nearest(ToDouble(n), n)
  {
    var e := SpacingFits(n);
    RoundsToNearer(n);
    var q := n / Spacing(n);
    assert ToDouble(n) == Scaled(q, e) || ToDouble(n) == Scaled(q + 1, e);
    forall x: int | Representable(x) ensures Distance(ToDouble(n), n) <= Distance(x, n) {
      NoneNearer(x, n, e);
    }
  }

  lemma NegatedRepresentable(d: int)
    requires Representable(d)
    ensures Representable(-d)
  {
    var m: int, e: nat :| -MAX_EXACT <= m <= MAX_EXACT && d == Scaled(m, e);
    assert -d == Scaled(-m, e);
  }

  /** The conversion gives a double, and none is nearer. */
  lemma ToDoubleIsNearest(n: int)
    ensures Nearest(ToDouble(n), n)
  {
    if 0 <= n {
      NearestToNat(n);
    } else {
      NearestToNat(-n);
      NegatedRepresentable(ToDouble(-n));
      forall x: int | Representable(x) ensures Distance(ToDouble(n), n) <= Distance(x, n) {
        NegatedRepresentable(x);
        assert Distance(-x, -n) == Distance(x, n);
      }
    }
  }

  /** Every integer of up to 53 bits is kept. */
  lemma ExactUpTo53Bits(n: int)
    requires -MAX_EXACT <= n <= MAX_EXACT
    ensures ToDouble(n) == n
  {
    ToDoubleIsNearest(n);
    assert n == Scaled(n, 0);
  }
}
