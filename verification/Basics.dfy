// Shared vocabulary: optional values, and runs of a deterministic state machine.

module Options {
  datatype Option<+T> = None | Some(value: T)
}

/** A protocol is a function `step` from a state and an action to the next state. Everything the
    environment decides (which session moves, clock readings, statement failures) sits in the
    action, so "every interleaving" is "every sequence of actions". */
module Runs {

  function Run<S, A>(step: (S, A) -> S, s: S, acts: seq<A>): S
    decreases |acts|
  {
    if acts == [] then s else step(Run(step, s, acts[..|acts| - 1]), acts[|acts| - 1])
  }

  /** One more action is one more step. */
  lemma RunSnoc<S, A>(step: (S, A) -> S, s: S, acts: seq<A>, a: A)
    ensures Run(step, s, acts + [a]) == step(Run(step, s, acts), a)
  {
    assert (acts + [a])[..|acts + [a]| - 1] == acts;
  }

  lemma RunThree<S, A>(step: (S, A) -> S, s: S, a: A, b: A, c: A)
    ensures Run(step, s, [a, b, c]) == step(step(step(s, a), b), c)
  {
    assert [a] == [] + [a] && [a, b] == [a] + [b] && [a, b, c] == [a, b] + [c];
    RunSnoc(step, s, [], a);
    RunSnoc(step, s, [a], b);
    RunSnoc(step, s, [a, b], c);
  }

  /** What every step keeps, every run keeps. */
  lemma {:induction false} RunKeeps<S(!new), A(!new)>(step: (S, A) -> S, inv: S -> bool, s: S, acts: seq<A>)
    requires inv(s)
    requires forall x: S, a: A :: inv(x) ==> inv(step(x, a))
    ensures inv(Run(step, s, acts))
    decreases |acts|
  {
    if acts != [] {
      RunKeeps(step, inv, s, acts[..|acts| - 1]);
    }
  }

  /** A preorder that every step from a good state respects relates the two ends of every run. */
  lemma {:induction false} RunRelates<S(!new), A(!new)>(
      step: (S, A) -> S, inv: S -> bool, rel: (S, S) -> bool, s: S, acts: seq<A>)
    requires inv(s)
    requires forall x: S, a: A :: inv(x) ==> inv(step(x, a)) && rel(x, step(x, a))
    requires forall x: S :: rel(x, x)
    requires forall x: S, y: S, z: S :: rel(x, y) && rel(y, z) ==> rel(x, z)
    ensures rel(s, Run(step, s, acts))
    decreases |acts|
  {
    if acts != [] {
      var prefix := acts[..|acts| - 1];
      RunRelates(step, inv, rel, s, prefix);
      RunKeeps(step, inv, s, prefix);
      var mid := Run(step, s, prefix);
      assert rel(mid, step(mid, acts[|acts| - 1]));
    }
  }

  /** Running one schedule and then another is running their concatenation. */
  lemma {:induction false} RunAppend<S, A>(step: (S, A) -> S, s: S, first: seq<A>, second: seq<A>)
    ensures Run(step, s, first + second) == Run(step, Run(step, s, first), second)
    decreases |second|
  {
    if second == [] {
      assert first + second == first;
    } else {
      var whole := first + second;
      assert whole[..|whole| - 1] == first + second[..|second| - 1];
      RunAppend(step, s, first, second[..|second| - 1]);
    }
  }
}

/** Products of reals, in the few forms the numeric modules need. */
module Products {
  lemma NonNegative(a: real, b: real)
    requires a >= 0.0 && b >= 0.0
    ensures a * b >= 0.0
  {
  }

  /** A product by name: the solver rewrites the sign of a literal square and loses it. */
  function Mul(a: real, b: real): real { a * b }

  lemma Positive(a: real, b: real)
    requires a > 0.0 && b > 0.0
    ensures Mul(a, b) > 0.0
  {
  }

  lemma Square(a: real)
    ensures a * a >= 0.0
  {
  }

  lemma SquarePositive(a: real, square: real)
    requires square == a * a && a != 0.0
    ensures square > 0.0
  {
    if a > 0.0 {
      Positive(a, a);
    } else {
      Positive(-a, -a);
      assert Mul(-a, -a) == square;
    }
  }

  lemma ZeroFactor(a: real, b: real)
    requires a * a == 0.0
    ensures a * b == 0.0
  {
    if a != 0.0 { SquarePositive(a, a * a); }
  }

  lemma Strict(a: real, b: real, c: real)
    requires a < b && c > 0.0
    ensures a * c < b * c
  {
    assert (b - a) * c > 0.0;
  }

  lemma SquareStrict(a: real, b: real)
    requires 0.0 <= a < b
    ensures a * a < b * b
  {
    Strict(a, b, b);
    NonNegative(b - a, a);
    assert (b - a) * a == b * a - a * a;
  }

  lemma Distributes(a: real, b: real, c: real)
    ensures (a + b) * c == a * c + b * c
  {
  }

  lemma Scale(a: real, b: real, c: real)
    requires a <= b && c > 0.0
    ensures a * c <= b * c
  {
    if a < b { Strict(a, b, c); }
  }

  lemma QuotientAtLeast(part: real, whole: real, bound: real)
    requires whole > 0.0
    ensures part / whole >= bound <==> part >= bound * whole
  {
    var q := part / whole;
    assert q * whole == part;
    if q >= bound {
      Scale(bound, q, whole);
    } else {
      Strict(q, bound, whole);
    }
  }

  /** A weighted mean is the first value and that part of the way to the second. */
  lemma Blend(a: real, b: real, w: real)
    ensures a * (1.0 - w) + b * w == a + (b - a) * w
  {
    Distributes(b, -a, w);
  }

  lemma SelfRatio(a: real, b: real)
    requires a == b && a > 0.0
    ensures b != 0.0 && a / b == 1.0
  {
  }

  lemma Ratio(part: nat, whole: nat)
    requires part <= whole && 0 < whole
    ensures 0.0 <= part as real / whole as real <= 1.0
  {
    var q, n := part as real / whole as real, whole as real;
    assert q * n == part as real;
    if q > 1.0 { Strict(1.0, q, n); }
    if q < 0.0 { Strict(q, 0.0, n); }
  }

  lemma InUnit(a: real, b: real)
    requires 0.0 <= a <= 1.0 && 0.0 <= b <= 1.0
    ensures 0.0 <= a * b <= 1.0
  {
    NonNegative(a, b);
    NonNegative(a, 1.0 - b);
    assert a * (1.0 - b) == a - a * b;
  }
}
