// What the depth verdict does on actual texts: when the fast track can be reached, and for which
// lengths a higher score never gives a worse verdict.

module DepthTheorems {
  import opened AnswerText
  import opened DepthHeuristic

  /** Letters that start no pattern, besides space. */
  predicate Plain(c: char) { c == ' ' || 'a' <= c <= 'z' }
  lemma PlainNotSpecific(s: string, i: nat)
    requires i < |s| && (Plain(s[i]) || s[i] == '좋')
    ensures !SpecificAt(s, i)
  {
  }
  lemma PlainNotEmotional(s: string, i: nat)
    requires i < |s| && (Plain(s[i]) || s[i] == '1' || s[i] == '비')
    ensures !EmotionalAt(s, i)
  {
  }
  lemma PlainNotGeneric(s: string, i: nat)
    requires i < |s| && (Plain(s[i]) || s[i] == '1' || s[i] == '비' || s[i] == '좋')
    ensures GenericAt(s, i) == 0
  {
  }

  function Repeats(a: Answer): real { RepeatPenalty(LongestRun(a.chars), MaxFrequency(a.tokens)) }

  /** The text has this many characters once trimmed, and passes the hard guards. */
  predicate Scored(text: string, length: nat) {
    |Trim(text)| == length && !HardRejected(Read(text), Repeats(Read(text)))
  }
  function ScoreOf(text: string): real { Score(Read(text), Repeats(Read(text))) }
  function VerdictOf(text: string): Verdict { Evaluate(Read(text)).verdict }

  // ---- Clean answers: joined words, every character a letter, digit or space, no phrase, no repeat ----

  /** Different words of plain letters and at most the three signal characters, no equal neighbours. */
  ghost predicate Clean(words: seq<string>) {
    var s := Join(words);
    && words != [] && AllDifferent(words) && (forall w :: w in words ==> IsWord(w))
    && (forall i :: 0 <= i < |s| ==> Plain(s[i]) || s[i] == '1' || s[i] == '비' || s[i] == '좋')
    && (forall i :: 0 <= i < |s| - 1 ==> s[i] != s[i + 1])
  }

  lemma {:induction false} NoGenericHits(s: string, i: nat)
    requires forall j :: 0 <= j < |s| ==> Plain(s[j]) || s[j] == '1' || s[j] == '비' || s[j] == '좋'
    ensures GenericHits(s, i) == 0
    decreases |s| - i
  {
    if i < |s| {
      PlainNotGeneric(s, i);
      NoGenericHits(s, i + 1);
    }
  }

  lemma {:induction false} AllMeaningful(s: string)
    requires forall j :: 0 <= j < |s| ==> Plain(s[j]) || s[j] == '1' || s[j] == '비' || s[j] == '좋'
    ensures Filter(NonSpace(s), IsMeaningful) == NonSpace(s)
  {
    if s != "" {
      AllMeaningful(s[1..]);
      var head := if IsSpace(s[0]) then "" else [s[0]];
      assert NonSpace(s) == head + NonSpace(s[1..]);
      FilterAppend(head, NonSpace(s[1..]), IsMeaningful);
      assert Filter(head, IsMeaningful) == head;
    }
  }

  lemma {:induction false} SignalsAre(s: string)
    requires forall j :: 0 <= j < |s| ==> Plain(s[j]) || s[j] == '1' || s[j] == '비' || s[j] == '좋'
    ensures Specific(s) <==> '1' in s || '비' in s
    ensures Emotional(s) <==> '좋' in s
  {
    forall i: nat | i < |s| ensures SpecificAt(s, i) <==> s[i] == '1' || s[i] == '비' {
      if Plain(s[i]) || s[i] == '좋' { PlainNotSpecific(s, i); }
    }
    forall i: nat | i < |s| ensures EmotionalAt(s, i) <==> s[i] == '좋' {
      if s[i] != '좋' { PlainNotEmotional(s, i); }
    }
  }

  /** Signals, length and variety, of at most 60 characters and five words. */
  function CleanScore(s: string, words: nat): real {
    (if '1' in s || '비' in s then 0.25 else 0.0) + (if '좋' in s then 0.3 else 0.0) + |s| as real * 0.0025 +
      words as real * 0.06
  }

  /** How a clean text is evaluated. */
  lemma CleanEvaluation(words: seq<string>)
    requires Clean(words) && |Join(words)| <= 60 && |words| <= 5
    ensures var s := Join(words);
            && Trim(s) == s && Scored(s, |s|) && ScoreOf(s) == CleanScore(s, |words|)
            && VerdictOf(s) == Ladder(CleanScore(s, |words|), |s|).0
            && Evaluate(Read(s)).path == Ladder(CleanScore(s, |words|), |s|).1
            && (Specific(s) <==> '1' in s || '비' in s) && (Emotional(s) <==> '좋' in s)
  {
    var s := Join(words);
    TokensOfJoin(words);
    JoinTrimmed(words);
    TrimTrims(s);
    NoGenericHits(s, 0);
    AllMeaningful(s);
    SignalsAre(s);
    NoEqualNeighbours(s);
    DifferentCountedOnce(words);
    DifferentSetSize(words);
    CleanArithmetic(Read(s));
  }

  lemma CleanArithmetic(a: Answer)
    requires a.chars != [] && a.tokens != [] && |a.chars| <= 60 && |a.tokens| <= 5 &&
      |set t | t in a.tokens| == |a.tokens|
    requires a.genericHits == 0 && a.nonSpace == a.meaningful
    ensures !HardRejected(a, 0.0)
    ensures Score(a, 0.0) == (if a.specific then 0.25 else 0.0) + (if a.emotional then 0.3 else 0.0)
                             + |a.chars| as real * 0.0025 + |a.tokens| as real * 0.06
  {
    assert SymbolPenalty(a) == 0.0 && GenericPenalty(a) == 0.0;
    assert Diversity(a.tokens) == |a.tokens| as real / 5.0;
  }

  // ---- The fast track ----

  ghost predicate FastTracks(text: string, specific: bool, emotional: bool) {
    Specific(Trim(text)) == specific && Emotional(Trim(text)) == emotional && Evaluate(Read(text)).path == FastTrack
  }

  /** Five one-letter words with the wanted signals. */
  function Sample(specific: bool, emotional: bool): seq<string> {
    [if specific then "1" else "a", if emotional then "좋" else "b", "c", "d", "e"]
  }

  lemma SampleText(specific: bool, emotional: bool)
    ensures var w := Sample(specific, emotional);
            Join(w) == [w[0][0], ' ', w[1][0], ' ', 'c', ' ', 'd', ' ', 'e']
  {
    var w := Sample(specific, emotional);
    assert Join(w[4..]) == "e";
    assert w[3..][1..] == w[4..] && Join(w[3..]) == "d e";
    assert w[2..][1..] == w[3..] && Join(w[2..]) == "c d e";
    assert w[1..][1..] == w[2..] && Join(w[1..]) == w[1] + " " + "c d e";
  }

  lemma SampleClean(specific: bool, emotional: bool)
    ensures Clean(Sample(specific, emotional))
  {
    var w := Sample(specific, emotional);
    SampleText(specific, emotional);
    assert forall i, j :: 0 <= i < j < 5 ==> w[i][0] != w[j][0];
  }

  lemma SampleSignals(specific: bool, emotional: bool)
    ensures var s := Join(Sample(specific, emotional));
            |s| == 9 && '비' !in s && ('1' in s <==> specific) && ('좋' in s <==> emotional)
  {
    var s := Join(Sample(specific, emotional));
    SampleText(specific, emotional);
    assert s[0] == if specific then '1' else 'a';
    assert s[2] == if emotional then '좋' else 'b';
  }

  lemma SampleFastTracks(specific: bool, emotional: bool)
    requires specific || emotional
    ensures FastTracks(Join(Sample(specific, emotional)), specific, emotional)
  {
    SampleClean(specific, emotional);
    SampleSignals(specific, emotional);
    CleanEvaluation(Sample(specific, emotional));
  }

  /** Some text with exactly these signals takes the fast track if and only if it has a signal. */
  lemma FastTrackReachableExactlyWithSignal(specific: bool, emotional: bool)
    ensures (exists text :: FastTracks(text, specific, emotional)) <==> specific || emotional
  {
    if specific || emotional {
      SampleFastTracks(specific, emotional);
    } else {
      forall text ensures !FastTracks(text, specific, emotional) {
        FastTrackHasSignal(Read(text));
      }
    }
  }

  // ---- Monotonicity ----

  function Rank(v: Verdict): nat { match v case Reject => 0 case Review => 1 case Pass => 2 }

  ghost predicate MonotoneAt(length: nat) {
    forall low: string, high: string :: Scored(low, length) && Scored(high, length) && ScoreOf(low) <= ScoreOf(high) ==>
      Rank(VerdictOf(low)) <= Rank(VerdictOf(high))
  }

  lemma OneCharacterScore(text: string)
    requires |Trim(text)| == 1
    ensures ScoreOf(text) <= 0.3625
  {
    var s, a := Trim(text), Read(text);
    TrimTrims(text);
    OneSignalAtMost(s);
    assert WordLength(s) == 1 && s[..1] == s && Tokens(s) == [s];
    assert (set t | t in a.tokens) == {s};
    assert Diversity(a.tokens) == 0.2;
    assert SymbolPenalty(a) >= 0.0 && GenericPenalty(a) >= 0.0 && Repeats(a) >= 0.0;
  }

  /** No single character carries both signals. */
  lemma OneSignalAtMost(s: string)
    requires |s| == 1
    ensures !Specific(s) || !Emotional(s)
  {
    assert Specific(s) ==> SpecificAt(s, 0);
    assert Emotional(s) ==> EmotionalAt(s, 0);
  }

  /** One word starting with an emotional signal: in the gray band at every length up to 11. */
  function GrayWord(length: nat): string
    requires 2 <= length
  {
    ['좋'] + Letters(length - 1)
  }
  function Letters(n: nat): string { seq(n, i => if i % 2 == 0 then 'a' else 'b') }

  /** A better answer of the same length: another word, or at two characters another signal. */
  function BetterWords(length: nat): seq<string>
    requires 2 <= length
  {
    if length == 2 then ["비좋"] else ["좋", Letters(length - 2)]
  }

  lemma GrayWordClean(length: nat)
    requires 2 <= length
    ensures var low := GrayWord(length);
            Join([low]) == low && Clean([low]) && |low| == length && '좋' in low && '1' !in low && '비' !in low
  {
    var low := GrayWord(length);
    assert low[0] == '좋' && forall i :: 1 <= i < length ==> low[i] == if (i - 1) % 2 == 0 then 'a' else 'b';
  }

  lemma GrayWordReviewed(length: nat) returns (low: string)
    requires 2 <= length < MIN_LENGTH
    ensures Scored(low, length) && ScoreOf(low) < 0.39 && VerdictOf(low) == Review
  {
    low := GrayWord(length);
    GrayWordClean(length);
    CleanEvaluation([low]);
  }

  lemma BetterText(length: nat)
    requires 2 <= length
    ensures Join(BetterWords(length)) == if length == 2 then "비좋" else "좋 " + Letters(length - 2)
  {
    if length > 2 { assert BetterWords(length)[1..] == [Letters(length - 2)]; }
  }

  lemma BetterClean(length: nat)
    requires 2 <= length
    ensures Clean(BetterWords(length)) && |Join(BetterWords(length))| == length
  {
    var words := BetterWords(length);
    BetterText(length);
    if length > 2 { assert words[0][0] == '좋' && words[1][0] == 'a'; }
  }

  lemma BetterRejected(length: nat) returns (high: string)
    requires 2 <= length < MIN_LENGTH
    ensures Scored(high, length) && ScoreOf(high) > 0.41 && VerdictOf(high) == Reject
  {
    high := Join(BetterWords(length));
    BetterClean(length);
    BetterText(length);
    if length == 2 {
      assert high[0] == '비' && high[1] == '좋';
    } else {
      assert high[0] == '좋' && '1' !in high && '비' !in high;
    }
    CleanEvaluation(BetterWords(length));
  }

  lemma VerdictIsLadder(text: string, length: nat)
    requires Scored(text, length)
    ensures VerdictOf(text) == Ladder(ScoreOf(text), length).0
  {
  }

  lemma LadderMonotone(length: nat, low: real, high: real)
    requires low <= high && (MIN_LENGTH <= length || high <= 0.3625)
    ensures Rank(Ladder(low, length).0) <= Rank(Ladder(high, length).0)
  {
  }

  lemma MonotoneOutside(length: nat, low: string, high: string)
    requires length <= 1 || MIN_LENGTH <= length
    requires Scored(low, length) && Scored(high, length) && ScoreOf(low) <= ScoreOf(high)
    ensures Rank(VerdictOf(low)) <= Rank(VerdictOf(high))
  {
    assert length != 0;
    if length == 1 { OneCharacterScore(high); }
    VerdictIsLadder(low, length);
    VerdictIsLadder(high, length);
    LadderMonotone(length, ScoreOf(low), ScoreOf(high));
  }

  /** Among the texts of one length that pass the hard guards, a higher score never gives a worse
      verdict exactly when the length is at most one or at least twelve: in between, a one-word
      answer is reviewed and a better one is rejected as too short. */
  lemma MonotoneExactly(length: nat)
    ensures MonotoneAt(length) <==> length <= 1 || MIN_LENGTH <= length
  {
    if length <= 1 || MIN_LENGTH <= length {
      forall low: string, high: string | Scored(low, length) && Scored(high, length) && ScoreOf(low) <= ScoreOf(high)
        ensures Rank(VerdictOf(low)) <= Rank(VerdictOf(high))
      {
        MonotoneOutside(length, low, high);
      }
    } else {
      NotMonotoneBetween(length);
    }
  }

  lemma NotMonotoneBetween(length: nat)
    requires 2 <= length < MIN_LENGTH
    ensures !MonotoneAt(length)
  {
    var low := GrayWordReviewed(length);
    var high := BetterRejected(length);
    assert Rank(VerdictOf(low)) > Rank(VerdictOf(high)) && ScoreOf(low) <= ScoreOf(high);
  }
}
