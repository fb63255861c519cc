// The depth service's features: embedding similarity, penalties and the raw depth score, over reals.

module DepthFeatures {
  import D = DepthHeuristic
  import P = Products

  function Max(a: real, b: real): real { if a > b then a else b }
  function Min(a: real, b: real): real { if a < b then a else b }
  function Clamp(value: real): real { Max(0.0, Min(1.0, value)) }

  // ---- Vectors ----

  /** Products of paired components; the longer vector is cut to the shorter. */
  function Dot(left: seq<real>, right: seq<real>): real
    decreases |left|
  {
    if left == [] || right == [] then 0.0 else left[0] * right[0] + Dot(left[1..], right[1..])
  }
  function SumOfSquares(v: seq<real>): real { if v == [] then 0.0 else v[0] * v[0] + SumOfSquares(v[1..]) }

  /** The square root of the sum of squares. */
  predicate IsNorm(norm: real, v: seq<real>) { norm >= 0.0 && norm * norm == SumOfSquares(v) }

  function CosineSimilarity(left: seq<real>, right: seq<real>, leftNorm: real, rightNorm: real): real
    requires IsNorm(leftNorm, left) && IsNorm(rightNorm, right)
  {
    if leftNorm == 0.0 || rightNorm == 0.0 then 0.0 else Dot(left, right) / (leftNorm * rightNorm)
  }

  lemma {:induction false} SquaresNonNegative(v: seq<real>)
    ensures SumOfSquares(v) >= 0.0
  {
    if v != [] {
      SquaresNonNegative(v[1..]);
      P.Square(v[0]);
    }
  }

  /** a*u - 2*d*v + b*w */
  function Form(a: real, d: real, b: real, u: real, v: real, w: real): real { a * u - 2.0 * (d * v) + b * w }

  lemma FormAdds(a: real, d: real, b: real, a': real, d': real, b': real, u: real, v: real, w: real)
    ensures Form(a + a', d + d', b + b', u, v, w) == Form(a, d, b, u, v, w) + Form(a', d', b', u, v, w)
  {
    P.Distributes(a, a', u);
    P.Distributes(d, d', v);
    P.Distributes(b, b', w);
  }

  lemma OneComponent(x: real, y: real, s: real, t: real)
    ensures Form(x * x, x * y, y * y, s * s, s * t, t * t) >= 0.0
  {
    var p, q := x * s, y * t;
    P.Square(p - q);
    assert (p - q) * (p - q) == p * p - 2.0 * (p * q) + q * q;
    assert p * p == (x * x) * (s * s);
    assert q * q == (y * y) * (t * t);
    assert p * q == (x * y) * (s * t);
  }

  predicate NonNegativeForm(a: real, d: real, b: real, s: real, t: real) { Form(a, d, b, s * s, s * t, t * t) >= 0.0 }

  lemma UnpairedComponents(a: real, b: real, s: real, t: real)
    requires a >= 0.0 && b >= 0.0
    ensures NonNegativeForm(a, 0.0, b, s, t)
  {
    P.Square(s);
    P.Square(t);
    P.NonNegative(a, s * s);
    P.NonNegative(b, t * t);
  }

  lemma PairedComponent(x: real, y: real, a: real, d: real, b: real, s: real, t: real)
    requires NonNegativeForm(a, d, b, s, t)
    ensures NonNegativeForm(x * x + a, x * y + d, y * y + b, s, t)
  {
    OneComponent(x, y, s, t);
    FormAdds(x * x, x * y, y * y, a, d, b, s * s, s * t, t * t);
  }

  /** The sum of the squares of left[i]*s - right[i]*t; unpaired components only add to it. */
  lemma {:induction false} QuadraticNonNegative(left: seq<real>, right: seq<real>, s: real, t: real)
    ensures NonNegativeForm(SumOfSquares(left), Dot(left, right), SumOfSquares(right), s, t)
    decreases |left|
  {
    if left == [] || right == [] {
      SquaresNonNegative(left);
      SquaresNonNegative(right);
      UnpairedComponents(SumOfSquares(left), SumOfSquares(right), s, t);
    } else {
      QuadraticNonNegative(left[1..], right[1..], s, t);
      PairedComponent(left[0], right[0], SumOfSquares(left[1..]), Dot(left[1..], right[1..]),
        SumOfSquares(right[1..]), s, t);
    }
  }

  lemma Discriminant(a: real, b: real, d: real)
    ensures Form(a, d, b, d * d, d * a, a * a) == a * (a * b - d * d)
  {
    assert a * (d * d) == d * (d * a);
    assert b * (a * a) == a * (a * b);
    assert a * (a * b - d * d) == a * (a * b) - a * (d * d);
  }

  lemma {:induction false} ZeroSquares(left: seq<real>, right: seq<real>)
    requires SumOfSquares(left) == 0.0
    ensures Dot(left, right) == 0.0
    decreases |left|
  {
    if left != [] && right != [] {
      SquaresNonNegative(left[1..]);
      P.Square(left[0]);
      P.ZeroFactor(left[0], right[0]);
      ZeroSquares(left[1..], right[1..]);
    }
  }

  lemma FromDiscriminant(a: real, b: real, d: real)
    requires a > 0.0 && NonNegativeForm(a, d, b, d, a)
    ensures d * d <= a * b
  {
    Discriminant(a, b, d);
    var gap := a * b - d * d;
    if gap < 0.0 { P.Strict(gap, 0.0, a); }
  }

  /** Cauchy-Schwarz, also for vectors of different lengths. */
  lemma CauchySchwarz(left: seq<real>, right: seq<real>)
    ensures Dot(left, right) * Dot(left, right) <= SumOfSquares(left) * SumOfSquares(right)
  {
    SquaresNonNegative(left);
    if SumOfSquares(left) == 0.0 {
      ZeroSquares(left, right);
    } else {
      QuadraticNonNegative(left, right, Dot(left, right), SumOfSquares(left));
      FromDiscriminant(SumOfSquares(left), SumOfSquares(right), Dot(left, right));
    }
  }

  /** The similarity lies in [-1, 1], whatever the vectors and their lengths. */
  lemma CosineBounded(left: seq<real>, right: seq<real>, leftNorm: real, rightNorm: real)
    requires IsNorm(leftNorm, left) && IsNorm(rightNorm, right)
    ensures -1.0 <= CosineSimilarity(left, right, leftNorm, rightNorm) <= 1.0
  {
    if leftNorm != 0.0 && rightNorm != 0.0 {
      CauchySchwarz(left, right);
      var n := leftNorm * rightNorm;
      P.Strict(0.0, leftNorm, rightNorm);
      assert n * n == (leftNorm * leftNorm) * (rightNorm * rightNorm);
      QuotientBound(Dot(left, right), n);
    }
  }

  lemma QuotientBound(d: real, n: real)
    requires n > 0.0 && d * d <= n * n
    ensures -1.0 <= d / n <= 1.0
  {
    var q := d / n;
    assert q * n == d;
    if q > 1.0 {
      P.Strict(1.0, q, n);
      P.SquareStrict(n, d);
    }
    if q < -1.0 {
      P.Strict(q, -1.0, n);
      P.SquareStrict(n, -d);
    }
  }

  lemma {:induction false} DotSelf(v: seq<real>)
    ensures Dot(v, v) == SumOfSquares(v)
  {
    if v != [] { DotSelf(v[1..]); }
  }

  /** A nonzero vector is fully similar to itself, so the upper bound is reached. */
  lemma SelfSimilarity(v: seq<real>, norm: real)
    requires IsNorm(norm, v) && norm != 0.0
    ensures CosineSimilarity(v, v, norm, norm) == 1.0
  {
    DotSelf(v);
    P.SquarePositive(norm, SumOfSquares(v));
    P.SelfRatio(Dot(v, v), norm * norm);
  }

  // ---- Features ----

  /** What the patterns and word lists found in the texts. */
  datatype Signals = Signals(
    textLength: nat, specificity: nat, emotions: nat, values: nat, situations: nat, sentenceMarks: nat, evasions: nat,
    emoji: nat, symbols: nat, repeatedChar: bool, url: bool, phone: bool, spamTerms: nat, manyDigits: bool)

  datatype Features = Features(
    relevance: real, specificity: real, density: real, structure: real, diversity: real, concreteness: real,
    repeatPenalty: real, symbolPenalty: real, spamPenalty: real)

  /** Four decimals, ties to even. */
  function Round4(x: real): real {
    var f := (x * 10_000.0).Floor;
    var rest := x * 10_000.0 - f as real;
    (if rest < 0.5 || (rest == 0.5 && f % 2 == 0) then f else f + 1) as real / 10_000.0
  }

  function MaxNat(a: nat, b: nat): nat { if a > b then a else b }
  function MinNat(a: nat, b: nat): nat { if a < b then a else b }

  function LexicalOverlap(question: set<string>, tokens: seq<string>): real {
    |set t | t in question && t in tokens| as real / MaxNat(1, |question|) as real
  }
  /** The relevance before it is clamped. */
  function RelevanceArgument(cosine: real, overlap: real): real { (cosine + 1.0) / 2.0 * 0.85 + overlap * 0.15 }

  function Bigrams(tokens: seq<string>): seq<(string, string)>
    requires tokens != []
  {
    seq(|tokens| - 1, i requires 0 <= i < |tokens| - 1 => (tokens[i], tokens[i + 1]))
  }
  function DuplicateBigramRatio(tokens: seq<string>): real {
    if |tokens| < 4 then 0.0 else 1.0 - |set b | b in Bigrams(tokens)| as real / (|tokens| - 1) as real
  }
  function RepeatPenalty(tokens: seq<string>, repeatedChar: bool): real {
    if tokens == [] then 0.0
    else
      var mostCommonRatio := D.MaxFrequency(tokens) as real / |tokens| as real;
      Clamp((mostCommonRatio - 0.25) * 1.4 + DuplicateBigramRatio(tokens) + (if repeatedChar then 0.35 else 0.0))
  }
  function SymbolSum(s: Signals, tokenCount: nat): real {
    (s.emoji as real + s.symbols as real * 0.4) / MaxNat(3, tokenCount) as real
  }
  function SymbolPenalty(s: Signals, tokenCount: nat): real { Clamp(SymbolSum(s, tokenCount)) }
  function SpamSum(s: Signals): real {
    (if s.url then 0.65 else 0.0) + (if s.phone then 0.75 else 0.0) + s.spamTerms as real * 0.22 +
      (if s.manyDigits then 0.25 else 0.0)
  }
  function SpamPenalty(s: Signals): real { Clamp(SpamSum(s)) }

  function SpecificitySum(s: Signals, n: nat): real {
    s.specificity as real / Max(4.0, n as real * 0.45) + MinNat(s.textLength, 80) as real / 240.0
  }
  function DensitySum(s: Signals, n: nat): real {
    (s.specificity + s.emotions + s.values) as real / MaxNat(6, n + 1) as real * 1.7
  }
  function StructureSum(s: Signals): real {
    0.35 + MinNat(MaxNat(1, s.sentenceMarks), 3) as real * 0.18 + MinNat(s.textLength, 80) as real / 220.0 -
      s.evasions as real * 0.18
  }
  function ConcretenessSum(s: Signals): real {
    s.emotions as real * 0.25 + s.values as real * 0.2 + s.situations as real * 0.12
  }
  function Rounded(x: real): real { Round4(Clamp(x)) }

  function ExtractFeatures(question: set<string>, tokens: seq<string>, s: Signals, cosine: real): Features {
    var n := |tokens|;
    Features(
      Rounded(RelevanceArgument(cosine, LexicalOverlap(question, tokens))), Rounded(SpecificitySum(s, n)),
      Rounded(DensitySum(s, n)), Rounded(StructureSum(s)),
      Round4(if n == 0 then 0.0 else Clamp(|set t | t in tokens| as real / n as real)), Rounded(ConcretenessSum(s)),
      Round4(RepeatPenalty(tokens, s.repeatedChar)), Round4(SymbolPenalty(s, n)), Round4(SpamPenalty(s)))
  }

  function DepthRaw(f: Features): real {
    0.3 * f.relevance + 0.25 * f.specificity + 0.15 * f.density + 0.1 * f.structure + 0.1 * f.diversity
    + 0.1 * f.concreteness - 0.2 * f.repeatPenalty - 0.2 * f.symbolPenalty - 0.3 * f.spamPenalty
  }

  lemma OverlapBounded(question: set<string>, tokens: seq<string>)
    ensures 0.0 <= LexicalOverlap(question, tokens) <= 1.0
  {
    var shared := set t | t in question && t in tokens;
    assert shared <= question;
    Subset(shared, question);
    P.Ratio(|shared|, MaxNat(1, |question|));
  }

  lemma Subset(a: set<string>, b: set<string>)
    requires a <= b
    ensures |a| <= |b|
  {
    assert b == a + (b - a);
  }

  /** The relevance clamp never changes its argument. */
  lemma RelevanceClampIsIdentity(
      left: seq<real>, right: seq<real>, leftNorm: real, rightNorm: real, question: set<string>, tokens: seq<string>)
    requires IsNorm(leftNorm, left) && IsNorm(rightNorm, right)
    ensures var argument := RelevanceArgument(CosineSimilarity(left, right, leftNorm, rightNorm),
      LexicalOverlap(question, tokens));
            Clamp(argument) == argument
  {
    CosineBounded(left, right, leftNorm, rightNorm);
    OverlapBounded(question, tokens);
  }

  /** Rounding to four decimals keeps the unit interval. */
  lemma RoundKeepsUnit(x: real)
    requires 0.0 <= x <= 1.0
    ensures 0.0 <= Round4(x) <= 1.0
  {
    var f := (x * 10_000.0).Floor;
    assert 0 <= f <= 10_000;
  }

  predicate InUnit(x: real) { 0.0 <= x <= 1.0 }

  lemma RoundedInUnit(x: real)
    ensures InUnit(Rounded(x))
  {
    RoundKeepsUnit(Clamp(x));
  }

  lemma FeaturesInUnit(question: set<string>, tokens: seq<string>, s: Signals, cosine: real)
    ensures var f := ExtractFeatures(question, tokens, s, cosine);
            && InUnit(f.relevance) && InUnit(f.specificity) && InUnit(f.density) && InUnit(f.structure)
            && InUnit(f.diversity) && InUnit(f.concreteness)
            && InUnit(f.repeatPenalty) && InUnit(f.symbolPenalty) && InUnit(f.spamPenalty)
  {
    var n := |tokens|;
    RoundedInUnit(RelevanceArgument(cosine, LexicalOverlap(question, tokens)));
    RoundedInUnit(SpecificitySum(s, n));
    RoundedInUnit(DensitySum(s, n));
    RoundedInUnit(StructureSum(s));
    RoundedInUnit(ConcretenessSum(s));
    RoundKeepsUnit(if n == 0 then 0.0 else Clamp(|set t | t in tokens| as real / n as real));
    RoundKeepsUnit(RepeatPenalty(tokens, s.repeatedChar));
    RoundKeepsUnit(SymbolPenalty(s, n));
    RoundKeepsUnit(SpamPenalty(s));
  }

  /** Every feature is in [0, 1], so the raw depth is in [-0.7, 1]. */
  lemma DepthRawBounded(question: set<string>, tokens: seq<string>, s: Signals, cosine: real)
    ensures -0.7 <= DepthRaw(ExtractFeatures(question, tokens, s, cosine)) <= 1.0
  {
    FeaturesInUnit(question, tokens, s, cosine);
    var f := ExtractFeatures(question, tokens, s, cosine);
    assert InUnit(f.relevance) && InUnit(f.repeatPenalty);
  }

  /** In hundredths, what each feature is worth. */
  lemma FeatureWorth(f: Features, g: Features)
    ensures 100.0 * (DepthRaw(g) - DepthRaw(f)) ==
            30.0 * (g.relevance - f.relevance) + 25.0 * (g.specificity - f.specificity)
            + 15.0 * (g.density - f.density) + 10.0 * (g.structure - f.structure)
            + 10.0 * (g.diversity - f.diversity) + 10.0 * (g.concreteness - f.concreteness)
            - 20.0 * (g.repeatPenalty - f.repeatPenalty) - 20.0 * (g.symbolPenalty - f.symbolPenalty)
            - 30.0 * (g.spamPenalty - f.spamPenalty)
  {
  }

  lemma RoundMonotone(x: real, y: real)
    requires x <= y
    ensures Round4(x) <= Round4(y)
  {
    var f, g := (x * 10_000.0).Floor, (y * 10_000.0).Floor;
    assert f <= g;
  }

  lemma QuotientMonotone(x: real, y: real, d: real)
    requires x <= y && d > 0.0
    ensures x / d <= y / d
  {
    P.NonNegative(y - x, 1.0 / d);
    assert y / d - x / d == (y - x) * (1.0 / d);
  }

  /** The second text shows at least what the first shows, and has no more of what is penalized. */
  predicate NoWorse(s: Signals, t: Signals) {
    && s.textLength <= t.textLength && s.specificity <= t.specificity && s.emotions <= t.emotions
    && s.values <= t.values && s.situations <= t.situations && s.sentenceMarks <= t.sentenceMarks
    && t.evasions <= s.evasions && t.emoji <= s.emoji && t.symbols <= s.symbols && t.spamTerms <= s.spamTerms
    && (t.repeatedChar ==> s.repeatedChar) && (t.url ==> s.url) && (t.phone ==> s.phone)
    && (t.manyDigits ==> s.manyDigits)
  }

  lemma RoundedMonotone(x: real, y: real)
    requires x <= y
    ensures Rounded(x) <= Rounded(y)
  {
    RoundMonotone(Clamp(x), Clamp(y));
  }

  lemma SumsMonotone(s: Signals, t: Signals, n: nat)
    requires NoWorse(s, t)
    ensures SpecificitySum(s, n) <= SpecificitySum(t, n) && DensitySum(s, n) <= DensitySum(t, n)
    ensures StructureSum(s) <= StructureSum(t) && ConcretenessSum(s) <= ConcretenessSum(t)
  {
    QuotientMonotone(s.specificity as real, t.specificity as real, Max(4.0, n as real * 0.45));
    QuotientMonotone((s.specificity + s.emotions + s.values) as real, (t.specificity + t.emotions + t.values) as real,
      MaxNat(6, n + 1) as real);
  }

  lemma RoundedSumsMonotone(s: Signals, t: Signals, n: nat)
    requires NoWorse(s, t)
    ensures Rounded(SpecificitySum(s, n)) <= Rounded(SpecificitySum(t, n))
    ensures Rounded(DensitySum(s, n)) <= Rounded(DensitySum(t, n))
    ensures Rounded(StructureSum(s)) <= Rounded(StructureSum(t))
    ensures Rounded(ConcretenessSum(s)) <= Rounded(ConcretenessSum(t))
  {
    SumsMonotone(s, t, n);
    RoundedMonotone(SpecificitySum(s, n), SpecificitySum(t, n));
    RoundedMonotone(DensitySum(s, n), DensitySum(t, n));
    RoundedMonotone(StructureSum(s), StructureSum(t));
    RoundedMonotone(ConcretenessSum(s), ConcretenessSum(t));
  }

  lemma PenalizedMonotone(tokens: seq<string>, s: Signals, t: Signals)
    requires NoWorse(s, t)
    ensures Round4(RepeatPenalty(tokens, t.repeatedChar)) <= Round4(RepeatPenalty(tokens, s.repeatedChar))
    ensures Round4(SymbolPenalty(t, |tokens|)) <= Round4(SymbolPenalty(s, |tokens|))
    ensures Round4(SpamPenalty(t)) <= Round4(SpamPenalty(s))
  {
    RoundMonotone(RepeatPenalty(tokens, t.repeatedChar), RepeatPenalty(tokens, s.repeatedChar));
    QuotientMonotone(t.emoji as real + t.symbols as real * 0.4, s.emoji as real + s.symbols as real * 0.4,
      MaxNat(3, |tokens|) as real);
    RoundMonotone(SymbolPenalty(t, |tokens|), SymbolPenalty(s, |tokens|));
    RoundMonotone(SpamPenalty(t), SpamPenalty(s));
  }

  /** A text that shows no less and has no more of what is penalized is never scored lower, rounding
      and clamping included. */
  lemma DepthMonotone(question: set<string>, tokens: seq<string>, s: Signals, t: Signals, cosine: real, closer: real)
    requires NoWorse(s, t) && cosine <= closer
    ensures DepthRaw(ExtractFeatures(question, tokens, s, cosine)) <=
            DepthRaw(ExtractFeatures(question, tokens, t, closer))
  {
    var overlap := LexicalOverlap(question, tokens);
    RoundedMonotone(RelevanceArgument(cosine, overlap), RelevanceArgument(closer, overlap));
    RoundedSumsMonotone(s, t, |tokens|);
    PenalizedMonotone(tokens, s, t);
    FeatureWorth(ExtractFeatures(question, tokens, s, cosine), ExtractFeatures(question, tokens, t, closer));
  }

  // ---- What each signal is worth ----

  function One(b: bool): nat { if b then 1 else 0 }

  /** In whole numbers, before cutting off at zero and one. */
  lemma SignalWorth(s: Signals, cosine: real, overlap: real)
    ensures 100.0 * SpamSum(s) ==
            (65 * One(s.url) + 75 * One(s.phone) + 22 * s.spamTerms + 25 * One(s.manyDigits)) as real
    ensures 100.0 * ConcretenessSum(s) == (25 * s.emotions + 20 * s.values + 12 * s.situations) as real
    ensures var marks := if s.sentenceMarks <= 1 then 1 else if s.sentenceMarks >= 3 then 3 else 2;
            var length := if s.textLength >= 80 then 80 else s.textLength;
            1_100.0 * StructureSum(s) == (385 + 198 * marks + 5 * length - 198 * s.evasions) as real
    ensures 200.0 * RelevanceArgument(cosine, overlap) == 85.0 * (cosine + 1.0) + 30.0 * overlap
  {
  }

  lemma TimesQuotient(a: real, d: real)
    requires d != 0.0
    ensures a / d * d == a
  {
  }

  /** The two shares: density by tokens from the sixth on, specificity by 9/20 of them from the ninth on. */
  lemma ShareWorth(s: Signals, n: nat)
    ensures var found := s.specificity + s.emotions + s.values;
            10.0 * (DensitySum(s, n) * (if n <= 5 then 6 else n + 1) as real) == (17 * found) as real
    ensures var length := if s.textLength >= 80 then 80 else s.textLength;
            var share := SpecificitySum(s, n) - length as real / 240.0;
            if n <= 8 then 4.0 * share == s.specificity as real
            else 9.0 * (share * n as real) == 20.0 * s.specificity as real
  {
    var found := (s.specificity + s.emotions + s.values) as real;
    var d := MaxNat(6, n + 1) as real;
    TimesQuotient(found, d);
    assert DensitySum(s, n) * d == found / d * d * 1.7;
    var e := Max(4.0, n as real * 0.45);
    TimesQuotient(s.specificity as real, e);
    if n > 8 { assert s.specificity as real / e * e == s.specificity as real / e * n as real * 0.45; }
  }

  /** An emoji counts for two and a half symbols, per token from the third on. */
  lemma SymbolWorth(s: Signals, n: nat)
    ensures 10.0 * (SymbolSum(s, n) * (if n <= 3 then 3 else n) as real) == (10 * s.emoji + 4 * s.symbols) as real
  {
    TimesQuotient(s.emoji as real + s.symbols as real * 0.4, MaxNat(3, n) as real);
  }

  /** Rounding goes to a nearest ten-thousandth, and to an even one of two. */
  lemma RoundsToNearest(x: real) returns (k: int)
    ensures Round4(x) * 10_000.0 == k as real && -0.5 <= k as real - x * 10_000.0 <= 0.5
    ensures k as real - x * 10_000.0 == 0.5 || k as real - x * 10_000.0 == -0.5 ==> k % 2 == 0
  {
    var f := (x * 10_000.0).Floor;
    var rest := x * 10_000.0 - f as real;
    k := if rest < 0.5 || (rest == 0.5 && f % 2 == 0) then f else f + 1;
  }

  lemma {:induction false} DifferentBigrams(tokens: seq<string>)
    requires tokens != [] && D.AllDifferent(tokens)
    ensures |set b | b in Bigrams(tokens)| == |tokens| - 1
  {
    if |tokens| == 1 {
      assert Bigrams(tokens) == [];
    } else {
      var front := tokens[..|tokens| - 1];
      var last := (tokens[|tokens| - 2], tokens[|tokens| - 1]);
      DifferentBigrams(front);
      assert Bigrams(tokens) == Bigrams(front) + [last];
      forall i | 0 <= i < |Bigrams(front)| ensures Bigrams(front)[i] != last {
        assert tokens[i] != tokens[|tokens| - 2];
      }
      assert (set b | b in Bigrams(tokens)) == (set b | b in Bigrams(front)) + {last};
    }
  }

  lemma AtMostAQuarter(n: nat)
    requires 4 <= n
    ensures 1.0 / n as real <= 0.25
  {
    P.QuotientAtLeast(-1.0, n as real, -0.25);
    assert -1.0 / n as real == -(1.0 / n as real);
  }

  /** Different tokens repeat nothing: four or more of them are not penalized, a repeated character
      then costs 0.35, and fewer tokens are charged for their share beyond a quarter. */
  lemma DifferentTokensPenalty(tokens: seq<string>)
    requires tokens != [] && D.AllDifferent(tokens)
    ensures |tokens| == 1 ==> RepeatPenalty(tokens, false) == 1.0
    ensures |tokens| == 2 ==> RepeatPenalty(tokens, false) == 0.35
    ensures |tokens| == 3 ==> 60.0 * RepeatPenalty(tokens, false) == 7.0
    ensures |tokens| == 4 ==> RepeatPenalty(tokens, true) == 0.35
    ensures |tokens| >= 4 ==> RepeatPenalty(tokens, false) == 0.0
  {
    D.DifferentCountedOnce(tokens);
    DifferentBigrams(tokens);
    if |tokens| >= 4 {
      P.SelfRatio((|tokens| - 1) as real, (|tokens| - 1) as real);
      AtMostAQuarter(|tokens|);
    }
  }
}
