// The local depth heuristic over an answer as read; numbers are reals.

module DepthHeuristic {
  import opened AnswerText
  import opened Options
  import P = Products

  datatype Verdict = Pass | Review | Reject
  datatype Path = Basic | FastTrack | GrayBand | SpamReject
  datatype Evaluation = Evaluation(score: real, verdict: Verdict, path: Path)

  const THRESHOLD := 0.38
  const FAST_TRACK_SCORE := 0.55
  const GRAY_BAND := 0.03
  const MIN_LENGTH := 12
  const FAST_TRACK_MIN_LENGTH := 8
  const SPAM_GUARD := 0.6

  function Clamp(value: real, lower: real, upper: real): real {
    var raised := if value < lower then lower else value;
    if raised > upper then upper else raised
  }
  function Round4(value: real): real { (value * 10_000.0 + 0.5).Floor as real / 10_000.0 }
  function MaxReal(a: real, b: real): real { if a > b then a else b }

  // ---- Longest run ----

  /** Length of the block of equal characters at the end. */
  function RunAtEnd(s: seq<char>): nat {
    if |s| <= 1 then |s| else if s[|s| - 1] == s[|s| - 2] then RunAtEnd(s[..|s| - 1]) + 1 else 1
  }
  function LongestRun(s: seq<char>): nat {
    if s == [] then 0
    else
      var before := LongestRun(s[..|s| - 1]);
      if RunAtEnd(s) > before then RunAtEnd(s) else before
  }

  ghost predicate Block(s: seq<char>, from: nat, to: nat) {
    from < to <= |s| && forall i :: from <= i < to ==> s[i] == s[from]
  }

  lemma {:induction false} RunAtEndIsLastBlock(s: seq<char>)
    requires s != []
    ensures 1 <= RunAtEnd(s) <= |s| && Block(s, |s| - RunAtEnd(s), |s|)
    ensures forall from: nat :: Block(s, from, |s|) ==> |s| - from <= RunAtEnd(s)
  {
    if |s| > 1 {
      var front := s[..|s| - 1];
      RunAtEndIsLastBlock(front);
      forall from: nat | Block(s, from, |s|) ensures |s| - from <= RunAtEnd(s) {
        if from < |s| - 1 {
          assert s[|s| - 2] == s[from] && Block(front, from, |front|);
        }
      }
    }
  }

  /** The longest run is attained by a block of equal neighbours, and no block is longer. */
  lemma {:induction false} LongestRunIsLongestBlock(s: seq<char>)
    ensures s != [] ==> exists from: nat, to: nat :: Block(s, from, to) && to - from == LongestRun(s)
    ensures forall from: nat, to: nat :: Block(s, from, to) ==> to - from <= LongestRun(s)
  {
    if s != [] {
      var front := s[..|s| - 1];
      LongestRunIsLongestBlock(front);
      RunAtEndIsLastBlock(s);
      if RunAtEnd(s) > LongestRun(front) {
        assert Block(s, |s| - RunAtEnd(s), |s|);
      } else {
        var from: nat, to: nat :| Block(front, from, to) && to - from == LongestRun(front);
        assert Block(s, from, to);
      }
      forall from: nat, to: nat | Block(s, from, to) ensures to - from <= LongestRun(s) {
        if to < |s| {
          assert Block(front, from, to);
        }
      }
    }
  }

  method LongestCharRun(chars: seq<char>) returns (max: nat)
    ensures max == LongestRun(chars)
  {
    max := 0;
    var current: nat := 0;
    var previous: Option<char> := None;
    for n := 0 to |chars|
      invariant max == LongestRun(chars[..n]) && current == RunAtEnd(chars[..n])
      invariant previous == if n == 0 then None else Some(chars[n - 1])
    {
      var next := chars[n];
      var done := chars[..n + 1];
      assert done[..|done| - 1] == chars[..n];
      if Some(next) == previous {
        current := current + 1;
      } else {
        current := 1;
        previous := Some(next);
      }
      if current > max {
        max := current;
      }
    }
    assert chars[..|chars|] == chars;
  }

  // ---- Most frequent token ----

  function MaxFrequency(tokens: seq<string>): nat {
    if tokens == [] then 0
    else
      var before := MaxFrequency(tokens[..|tokens| - 1]);
      var last := multiset(tokens)[tokens[|tokens| - 1]];
      if last > before then last else before
  }

  /** No token occurs more often, and some token occurs exactly as often. */
  lemma {:induction false} MaxFrequencyIsMaximum(tokens: seq<string>)
    ensures forall t :: multiset(tokens)[t] <= MaxFrequency(tokens)
    ensures tokens != [] ==> exists t :: t in tokens && multiset(tokens)[t] == MaxFrequency(tokens)
  {
    if tokens != [] {
      var front, last := tokens[..|tokens| - 1], tokens[|tokens| - 1];
      MaxFrequencyIsMaximum(front);
      assert tokens == front + [last];
      assert forall t :: multiset(tokens)[t] == multiset(front)[t] + (if t == last then 1 else 0);
      if MaxFrequency(front) >= multiset(tokens)[last] {
        var t :| t in front && multiset(front)[t] == MaxFrequency(front);
        assert t in tokens && t != last;
      } else {
        assert last in tokens;
      }
    }
  }

  lemma OneMoreToken(tokens: seq<string>, token: string)
    ensures forall t :: multiset(tokens + [token])[t] == multiset(tokens)[t] + (if t == token then 1 else 0)
    ensures var count := multiset(tokens)[token] + 1;
            MaxFrequency(tokens + [token]) == if count > MaxFrequency(tokens) then count else MaxFrequency(tokens)
  {
    var more := tokens + [token];
    assert more[..|more| - 1] == tokens;
  }

  method MaxTokenFrequency(tokens: seq<string>) returns (max: nat)
    ensures max == MaxFrequency(tokens)
  {
    var counts: map<string, nat> := map[];
    max := 0;
    for n := 0 to |tokens|
      invariant max == MaxFrequency(tokens[..n])
      invariant forall t :: (if t in counts then counts[t] else 0) == multiset(tokens[..n])[t]
    {
      var token := tokens[n];
      assert tokens[..n + 1] == tokens[..n] + [token];
      OneMoreToken(tokens[..n], token);
      var next := (if token in counts then counts[token] else 0) + 1;
      counts := counts[token := next];
      if next > max {
        max := next;
      }
    }
    assert tokens[..|tokens|] == tokens;
  }

  // ---- The verdict ----

  function SymbolPenalty(a: Answer): real {
    if a.nonSpace == 0 then 0.0 else Clamp((a.nonSpace - a.meaningful) as real / a.nonSpace as real, 0.0, 1.0)
  }
  function RepeatPenalty(longestRun: nat, maxFrequency: nat): real {
    var runPenalty := Clamp((longestRun - 1) as real / 3.0, 0.0, 1.0);
    var tokenPenalty := Clamp((maxFrequency - 2) as real / 3.0, 0.0, 1.0);
    Clamp(MaxReal(runPenalty, tokenPenalty), 0.0, 1.0)
  }
  function GenericPenalty(a: Answer): real { Clamp(a.genericHits as real / 3.0, 0.0, 1.0) }

  function Diversity(tokens: seq<string>): real {
    var ratio := if tokens == [] then 0.0 else |set t | t in tokens| as real / |tokens| as real;
    ratio * Clamp(|tokens| as real / 5.0, 0.0, 1.0)
  }

  function Score(a: Answer, repeatPenalty: real): real {
    Clamp((if a.specific then 0.25 else 0.0) + (if a.emotional then 0.3 else 0.0)
          + Clamp(|a.chars| as real / 60.0, 0.0, 1.0) * 0.15 + Diversity(a.tokens) * 0.3
          - (repeatPenalty * 0.5 + GenericPenalty(a) * 0.35 + SymbolPenalty(a) * 0.6), 0.0, 1.0)
  }

  /** The ladder once the hard guards have passed. */
  function Ladder(score: real, length: nat): (Verdict, Path) {
    var distance := if score < THRESHOLD then THRESHOLD - score else score - THRESHOLD;
    if score >= FAST_TRACK_SCORE && length >= FAST_TRACK_MIN_LENGTH then (Pass, FastTrack)
    else if distance <= GRAY_BAND then (Review, GrayBand)
    else if score >= THRESHOLD && length >= MIN_LENGTH then (Pass, Basic)
    else (Reject, Basic)
  }

  predicate HardRejected(a: Answer, repeatPenalty: real) {
    || a.chars == [] || SymbolPenalty(a) >= SPAM_GUARD || repeatPenalty >= SPAM_GUARD
    || (GenericPenalty(a) >= SPAM_GUARD && !a.specific && !a.emotional)
  }

  function Evaluated(a: Answer, longestRun: nat, maxFrequency: nat): Evaluation {
    var repeatPenalty := RepeatPenalty(longestRun, maxFrequency);
    if HardRejected(a, repeatPenalty) then Evaluation(0.0, Reject, SpamReject)
    else
      var score := Score(a, repeatPenalty);
      var rung := Ladder(score, |a.chars|);
      Evaluation(Round4(score), rung.0, rung.1)
  }

  /** The evaluation of an answer as read. */
  function Evaluate(a: Answer): Evaluation { Evaluated(a, LongestRun(a.chars), MaxFrequency(a.tokens)) }

  method EvaluateDepthAnswer(text: string) returns (e: Evaluation)
    ensures e == Evaluate(Read(text))
    ensures e.verdict == Pass ==> PassFacts(Read(text))
    ensures e.path == FastTrack ==> e.verdict == Pass && (Specific(Trim(text)) || Emotional(Trim(text)))
  {
    var a := Read(text);
    var longestRun := LongestCharRun(a.chars);
    var maxFrequency := MaxTokenFrequency(a.tokens);
    e := Evaluated(a, longestRun, maxFrequency);
    PassHasNoRepeats(a);
    FastTrackHasSignal(a);
  }

  // ---- What a verdict guarantees ----

  /** No character three times in a row, no token four times, and the minimum lengths. */
  ghost predicate PassFacts(a: Answer) {
    && (forall i :: 0 <= i && i + 2 < |a.chars| ==> !(a.chars[i] == a.chars[i + 1] == a.chars[i + 2]))
    && (forall t :: multiset(a.tokens)[t] <= 3)
    && FAST_TRACK_MIN_LENGTH <= |a.chars|
  }

  lemma PassHasNoRepeats(a: Answer)
    ensures Evaluate(a).verdict == Pass ==> PassFacts(a)
  {
    if Evaluate(a).verdict == Pass {
      LongestRunIsLongestBlock(a.chars);
      MaxFrequencyIsMaximum(a.tokens);
      forall i | 0 <= i && i + 2 < |a.chars| ensures !(a.chars[i] == a.chars[i + 1] == a.chars[i + 2]) {
        if a.chars[i] == a.chars[i + 1] == a.chars[i + 2] {
          assert Block(a.chars, i, i + 3);
        }
      }
    }
  }

  lemma {:induction false} DistinctAtMostLength(tokens: seq<string>)
    ensures |set t | t in tokens| <= |tokens|
  {
    if tokens != [] {
      DistinctAtMostLength(tokens[1..]);
      assert (set t | t in tokens) == (set t | t in tokens[1..]) + {tokens[0]};
    }
  }

  lemma DiversityBound(tokens: seq<string>)
    ensures 0.0 <= Diversity(tokens) <= 1.0
  {
    DistinctAtMostLength(tokens);
    if tokens != [] {
      P.Ratio(|set t | t in tokens|, |tokens|);
      P.InUnit(|set t | t in tokens| as real / |tokens| as real, Clamp(|tokens| as real / 5.0, 0.0, 1.0));
    }
  }

  /** The best score the signals allow. */
  function Ceiling(specific: bool, emotional: bool): real {
    if specific && emotional then 1.0 else if emotional then 0.75 else if specific then 0.7 else 0.45
  }

  /** Long, varied, without generic phrases or symbols. */
  predicate Flawless(a: Answer) {
    60 <= |a.chars| && Diversity(a.tokens) == 1.0 && a.genericHits == 0 && 0 < a.nonSpace == a.meaningful
  }

  /** No answer scores above its ceiling, and a flawless one without repeats reaches it. */
  lemma ScoreCeiling(a: Answer, repeatPenalty: real)
    requires 0.0 <= repeatPenalty
    ensures 0.0 <= Score(a, repeatPenalty) <= Ceiling(a.specific, a.emotional)
    ensures Flawless(a) && repeatPenalty == 0.0 ==> Score(a, repeatPenalty) == Ceiling(a.specific, a.emotional)
  {
    DiversityBound(a.tokens);
    assert SymbolPenalty(a) >= 0.0 && GenericPenalty(a) >= 0.0;
    if Flawless(a) { assert SymbolPenalty(a) == 0.0 && GenericPenalty(a) == 0.0; }
  }

  /** The fast track needs a specificity or emotional signal: without one its score is out of reach. */
  lemma FastTrackHasSignal(a: Answer)
    ensures Evaluate(a).path == FastTrack ==>
              Evaluate(a).verdict == Pass && (a.specific || a.emotional)
  {
    ScoreCeiling(a, RepeatPenalty(LongestRun(a.chars), MaxFrequency(a.tokens)));
  }

  lemma {:induction false} NoEqualNeighbours(s: seq<char>)
    requires s != [] && forall i :: 0 <= i < |s| - 1 ==> s[i] != s[i + 1]
    ensures LongestRun(s) == 1
  {
    if |s| > 1 {
      NoEqualNeighbours(s[..|s| - 1]);
      assert s[|s| - 2] != s[|s| - 2 + 1];
    }
  }

  ghost predicate AllDifferent(tokens: seq<string>) { forall i, j :: 0 <= i < j < |tokens| ==> tokens[i] != tokens[j] }

  lemma LastIsNew(tokens: seq<string>)
    requires AllDifferent(tokens) && tokens != []
    ensures AllDifferent(tokens[..|tokens| - 1]) && tokens[|tokens| - 1] !in tokens[..|tokens| - 1]
    ensures tokens == tokens[..|tokens| - 1] + [tokens[|tokens| - 1]]
  {
  }

  lemma {:induction false} DifferentCountedOnce(tokens: seq<string>)
    requires AllDifferent(tokens)
    ensures MaxFrequency(tokens) == if tokens == [] then 0 else 1
  {
    if tokens != [] {
      LastIsNew(tokens);
      DifferentCountedOnce(tokens[..|tokens| - 1]);
      OneMoreToken(tokens[..|tokens| - 1], tokens[|tokens| - 1]);
    }
  }

  lemma {:induction false} DifferentSetSize(tokens: seq<string>)
    requires AllDifferent(tokens)
    ensures |set t | t in tokens| == |tokens|
  {
    if tokens != [] {
      var front, last := tokens[..|tokens| - 1], tokens[|tokens| - 1];
      LastIsNew(tokens);
      DifferentSetSize(front);
      assert (set t | t in tokens) == (set t | t in front) + {last};
    }
  }

  // ---- The guards and the penalties in whole counts ----

  /** Rejected outright are exactly: the empty answer, three symbols in five characters, a character
      three times in a row, a token four times, and two generic phrases without any signal. */
  lemma HardRejectedExactly(a: Answer, longestRun: nat, maxFrequency: nat)
    ensures HardRejected(a, RepeatPenalty(longestRun, maxFrequency)) <==>
            || a.chars == []
            || (0 < a.nonSpace && 5 * (a.nonSpace - a.meaningful) >= 3 * a.nonSpace)
            || longestRun >= 3 || maxFrequency >= 4
            || (a.genericHits >= 2 && !a.specific && !a.emotional)
  {
    if 0 < a.nonSpace { SymbolShare(a.nonSpace - a.meaningful, a.nonSpace); }
  }

  lemma SymbolShare(symbols: int, total: nat)
    requires 0 < total
    ensures symbols as real / total as real >= 0.6 <==> 5 * symbols >= 3 * total
  {
    P.QuotientAtLeast(symbols as real, total as real, 0.6);
  }

  function AtMost(n: int, limit: int): int { if n < limit then n else limit }

  /** The score is strictly inside its range, so nothing was cut off. */
  predicate Inside(score: real) { 0.0 < score < 1.0 }

  /** Every generic phrase up to the third costs 7/60 of the score, and further ones nothing. */
  lemma GenericPhrasesCost(a: Answer, hits: nat, repeatPenalty: real)
    requires var b := a.(genericHits := hits); Inside(Score(a, repeatPenalty)) && Inside(Score(b, repeatPenalty))
    ensures var b := a.(genericHits := hits);
            60.0 * (Score(a, repeatPenalty) - Score(b, repeatPenalty)) ==
              (7 * (AtMost(hits, 3) - AtMost(a.genericHits, 3))) as real
  {
  }

  /** A character that is a symbol costs three fifths of its share of the answer. */
  lemma SymbolsCost(a: Answer, meaningful: nat, repeatPenalty: real)
    requires 0 < a.nonSpace && a.meaningful <= a.nonSpace && meaningful <= a.nonSpace
    requires var b := a.(meaningful := meaningful);
             Inside(Score(a, repeatPenalty)) && Inside(Score(b, repeatPenalty))
    ensures var b := a.(meaningful := meaningful);
            5.0 * a.nonSpace as real * (Score(a, repeatPenalty) - Score(b, repeatPenalty)) ==
              (3 * (a.meaningful - meaningful)) as real
  {
    var n := a.nonSpace as real;
    var x, y := (a.nonSpace - a.meaningful) as real / n, (a.nonSpace - meaningful) as real / n;
    P.Ratio(a.nonSpace - a.meaningful, a.nonSpace);
    P.Ratio(a.nonSpace - meaningful, a.nonSpace);
    var b := a.(meaningful := meaningful);
    assert Score(a, repeatPenalty) - Score(b, repeatPenalty) == 0.6 * (y - x);
    assert x * n == (a.nonSpace - a.meaningful) as real && y * n == (a.nonSpace - meaningful) as real;
    assert 5.0 * n * (0.6 * (y - x)) == 3.0 * (y * n - x * n);
  }

  /** Thirds of the repeat penalty: the longer of the run beyond one and the frequency beyond two. */
  function RepeatThirds(longestRun: nat, maxFrequency: nat): int {
    var run, token := AtMost(longestRun - 1, 3), AtMost(maxFrequency - 2, 3);
    if run >= token && run >= 0 then run else if token >= 0 then token else 0
  }

  /** Each third costs a sixth of the score. */
  lemma RepeatsCost(a: Answer, run: nat, frequency: nat, run': nat, frequency': nat)
    requires Inside(Score(a, RepeatPenalty(run, frequency))) && Inside(Score(a, RepeatPenalty(run', frequency')))
    ensures 6.0 * (Score(a, RepeatPenalty(run, frequency)) - Score(a, RepeatPenalty(run', frequency'))) ==
            (RepeatThirds(run', frequency') - RepeatThirds(run, frequency)) as real
  {
  }

  /** Past the hard guards the verdict is decided by the score and the length alone: 0.55 and eight
      characters for the fast track, review from 0.35 to 0.41, and above it a pass from twelve on. */
  lemma LadderExactly(score: real, length: nat)
    ensures Ladder(score, length).1 == FastTrack <==> 0.55 <= score && 8 <= length
    ensures Ladder(score, length).0 == Review <==> 0.35 <= score <= 0.41
    ensures Ladder(score, length).0 == Pass <==> (0.55 <= score && 8 <= length) || (0.41 < score && 12 <= length)
    ensures Ladder(score, length).1 == GrayBand <==> Ladder(score, length).0 == Review
    ensures Ladder(score, length).1 != SpamReject
  {
  }

  /** The reported score is a nearest ten-thousandth, the upper one of two. */
  lemma ScoreRounds(x: real) returns (k: int)
    ensures Round4(x) * 10_000.0 == k as real && -0.5 < k as real - x * 10_000.0 <= 0.5
  {
    k := (x * 10_000.0 + 0.5).Floor;
  }
}
