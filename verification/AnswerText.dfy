// Reading an answer: trimming, characters, tokens, and the literal patterns of the depth heuristic.
// A character is a Unicode code point.

module AnswerText {

  // ---- Characters ----

  /** White space and line terminators. */
  predicate IsSpace(c: char) {
    || '\t' <= c <= '\r' || c == ' ' || c == '\U{A0}' || c == '\U{1680}' || '\U{2000}' <= c <= '\U{200A}'
    || c == '\U{2028}' || c == '\U{2029}' || c == '\U{202F}' || c == '\U{205F}' || c == '\U{3000}' || c == '\U{FEFF}'
  }
  predicate IsDigit(c: char) { '0' <= c <= '9' }

  /** Latin letters, digits and Hangul. */
  predicate IsMeaningful(c: char) {
    IsDigit(c) || 'a' <= c <= 'z' || 'A' <= c <= 'Z' || '가' <= c <= '힣' || 'ㄱ' <= c <= 'ㅎ' || 'ㅏ' <= c <= 'ㅣ'
  }

  /** Length in UTF-16 code units, which is what `length` of a string counts. */
  function Utf16Length(s: string): nat {
    if s == "" then 0 else (if s[0] < '\U{10000}' then 1 else 2) + Utf16Length(s[1..])
  }

  function TrimStart(s: string): string {
    if s != "" && IsSpace(s[0]) then TrimStart(s[1..]) else s
  }
  function TrimEnd(s: string): string {
    if s != "" && IsSpace(s[|s| - 1]) then TrimEnd(s[..|s| - 1]) else s
  }
  function Trim(s: string): string { TrimEnd(TrimStart(s)) }

  predicate Trimmed(s: string) { s != "" ==> !IsSpace(s[0]) && !IsSpace(s[|s| - 1]) }

  function Filter(s: string, p: char -> bool): string {
    if s == "" then "" else (if p(s[0]) then [s[0]] else "") + Filter(s[1..], p)
  }
  predicate NotSpace(c: char) { !IsSpace(c) }
  function NonSpace(s: string): string { Filter(s, NotSpace) }

  lemma Associative(a: string, b: string, c: string)
    ensures a + (b + c) == (a + b) + c
  {
  }

  lemma {:induction false} FilterAppend(a: string, b: string, p: char -> bool)
    ensures Filter(a + b, p) == Filter(a, p) + Filter(b, p)
  {
    if a == "" {
      assert a + b == b;
    } else {
      var head := if p(a[0]) then [a[0]] else "";
      FilterAppend(a[1..], b, p);
      assert (a + b)[1..] == a[1..] + b;
      assert Filter(a + b, p) == head + (Filter(a[1..], p) + Filter(b, p));
      Associative(head, Filter(a[1..], p), Filter(b, p));
    }
  }

  lemma {:induction false} TrimEndTrims(s: string)
    ensures TrimEnd(s) <= s && NonSpace(TrimEnd(s)) == NonSpace(s)
    ensures TrimEnd(s) != "" ==> !IsSpace(TrimEnd(s)[|TrimEnd(s)| - 1])
  {
    if s != "" && IsSpace(s[|s| - 1]) {
      var front, last := s[..|s| - 1], s[|s| - 1];
      TrimEndTrims(front);
      FilterAppend(front, [last], NotSpace);
      assert s == front + [last] && NonSpace([last]) == "";
    }
  }

  lemma {:induction false} TrimStartTrims(s: string)
    ensures NonSpace(TrimStart(s)) == NonSpace(s) && (TrimStart(s) != "" ==> !IsSpace(TrimStart(s)[0]))
  {
    if s != "" && IsSpace(s[0]) { TrimStartTrims(s[1..]); }
  }

  /** Trimming leaves no space at either end, loses no other character, and is idempotent. */
  lemma TrimTrims(s: string)
    ensures Trimmed(Trim(s)) && NonSpace(Trim(s)) == NonSpace(s)
    ensures Trimmed(s) ==> Trim(s) == s
  {
    TrimStartTrims(s);
    TrimEndTrims(TrimStart(s));
  }

  // ---- Tokens ----

  function WordLength(s: string): (n: nat)
    ensures n <= |s|
  {
    if s == "" || IsSpace(s[0]) then 0 else 1 + WordLength(s[1..])
  }

  /** The pieces between runs of white space. */
  function Tokens(s: string): seq<string> {
    if s == "" then []
    else if IsSpace(s[0]) then Tokens(s[1..])
    else [s[..WordLength(s)]] + Tokens(s[WordLength(s)..])
  }

  predicate IsWord(w: string) { w != "" && forall i :: 0 <= i < |w| ==> !IsSpace(w[i]) }

  function Flatten(words: seq<string>): string { if words == [] then "" else words[0] + Flatten(words[1..]) }

  lemma {:induction false} WordPrefix(s: string)
    ensures forall i :: 0 <= i < WordLength(s) ==> !IsSpace(s[i])
    ensures WordLength(s) < |s| ==> IsSpace(s[WordLength(s)])
    ensures NonSpace(s) == s[..WordLength(s)] + NonSpace(s[WordLength(s)..])
  {
    if s != "" && !IsSpace(s[0]) {
      var n := WordLength(s[1..]);
      WordPrefix(s[1..]);
      var rest := NonSpace(s[1..][n..]);
      assert s[1..][n..] == s[1 + n..];
      assert s[..1 + n] == [s[0]] + s[1..][..n];
      assert NonSpace(s) == [s[0]] + (s[1..][..n] + rest);
      Associative([s[0]], s[1..][..n], rest);
    }
  }

  /** The tokens are words, and together they are the non-space characters in order. */
  lemma {:induction false} TokensPartition(s: string)
    ensures forall w :: w in Tokens(s) ==> IsWord(w)
    ensures Flatten(Tokens(s)) == NonSpace(s)
  {
    if s != "" {
      if IsSpace(s[0]) {
        TokensPartition(s[1..]);
      } else {
        var n := WordLength(s);
        WordPrefix(s);
        TokensPartition(s[n..]);
      }
    }
  }

  function Join(words: seq<string>): string {
    if words == [] then "" else if |words| == 1 then words[0] else words[0] + " " + Join(words[1..])
  }

  lemma {:induction false} WordThenRest(w: string, rest: string)
    requires forall i :: 0 <= i < |w| ==> !IsSpace(w[i])
    requires rest != "" ==> IsSpace(rest[0])
    ensures WordLength(w + rest) == |w|
  {
    if w == "" {
      assert w + rest == rest;
    } else {
      assert (w + rest)[1..] == w[1..] + rest;
      WordThenRest(w[1..], rest);
    }
  }

  lemma FirstToken(w: string, rest: string)
    requires IsWord(w) && (rest != "" ==> IsSpace(rest[0]))
    ensures Tokens(w + rest) == [w] + Tokens(rest)
  {
    WordThenRest(w, rest);
    assert (w + rest)[..|w|] == w && (w + rest)[|w|..] == rest;
  }

  lemma {:induction false} JoinTrimmed(words: seq<string>)
    requires forall w :: w in words ==> IsWord(w)
    ensures Trimmed(Join(words)) && (words != [] ==> Join(words) != "")
  {
    if words != [] {
      assert IsWord(words[0]);
      JoinTrimmed(words[1..]);
    }
  }

  /** Round trip: words joined by single spaces are tokenized back, and nothing is trimmed off. */
  lemma {:induction false} TokensOfJoin(words: seq<string>)
    requires forall w :: w in words ==> IsWord(w)
    ensures Tokens(Join(words)) == words && Trimmed(Join(words))
  {
    JoinTrimmed(words);
    if words != [] {
      var w, more := words[0], words[1..];
      var rest := if more == [] then "" else " " + Join(more);
      assert Join(words) == w + rest;
      FirstToken(w, rest);
      TokensOfJoin(more);
      if more != [] { assert rest[1..] == Join(more); }
    }
  }

  // ---- Patterns ----

  /** The word stands at this position. */
  predicate Spells(s: string, i: nat, w: string)
    decreases |w|
  {
    w == "" || (i < |s| && s[i] == w[0] && Spells(s, i + 1, w[1..]))
  }

  predicate SpecificAt(s: string, i: nat) {
    || (i < |s| && IsDigit(s[i]))
    || Spells(s, i, "어제") || Spells(s, i, "오늘") || Spells(s, i, "내일") || Spells(s, i, "아침") || Spells(s, i, "점심")
    || Spells(s, i, "저녁") || Spells(s, i, "새벽") || Spells(s, i, "밤") || Spells(s, i, "주말") || Spells(s, i, "아까")
    || Spells(s, i, "방금") || Spells(s, i, "지난") || Spells(s, i, "최근") || Spells(s, i, "편의점") || Spells(s, i, "카페")
    || Spells(s, i, "버스") || Spells(s, i, "지하철") || Spells(s, i, "학교") || Spells(s, i, "회사") || Spells(s, i, "집")
    || Spells(s, i, "길") || Spells(s, i, "공원") || Spells(s, i, "시장") || Spells(s, i, "골목") || Spells(s, i, "가게")
    || Spells(s, i, "역") || Spells(s, i, "비") || Spells(s, i, "눈") || Spells(s, i, "커피") || Spells(s, i, "고양이")
    || Spells(s, i, "강아지") || Spells(s, i, "노래") || Spells(s, i, "책") || Spells(s, i, "영화") || Spells(s, i, "음악")
    || Spells(s, i, "사진")
  }
  predicate EmotionalAt(s: string, i: nat) {
    || Spells(s, i, "좋") || Spells(s, i, "싫") || Spells(s, i, "행복") || Spells(s, i, "슬프") || Spells(s, i, "슬펐")
    || Spells(s, i, "웃") || Spells(s, i, "울") || Spells(s, i, "설레") || Spells(s, i, "편안") || Spells(s, i, "그립")
    || Spells(s, i, "그리워") || Spells(s, i, "외로") || Spells(s, i, "위로") || Spells(s, i, "마음") || Spells(s, i, "느낌")
    || Spells(s, i, "고마") || Spells(s, i, "미안") || Spells(s, i, "두렵") || Spells(s, i, "불안") || Spells(s, i, "벅차")
    || Spells(s, i, "뭉클") || Spells(s, i, "환해") || Spells(s, i, "따뜻") || Spells(s, i, "반가") || Spells(s, i, "먼저")
    || Spells(s, i, "보다") || Spells(s, i, "중요") || Spells(s, i, "사람") || Spells(s, i, "소중") || Spells(s, i, "진심")
  }
  predicate Specific(s: string) { exists i: nat :: i < |s| && SpecificAt(s, i) }
  predicate Emotional(s: string) { exists i: nat :: i < |s| && EmotionalAt(s, i) }

  /** Length of the generic phrase at this position, 0 if there is none. */
  function GenericAt(s: string, i: nat): nat {
    if || Spells(s, i, "그냥") || Spells(s, i, "몰라") || Spells(s, i, "없음") || Spells(s, i, "보통") || Spells(s, i, "평범")
       || Spells(s, i, "그저") || Spells(s, i, "딱히") || Spells(s, i, "글쎄") then 2
    else if Spells(s, i, "모르겠") || Spells(s, i, "없어요") || Spells(s, i, "그랬어") then 3
    else if Spells(s, i, "특별한 건 없") then 7
    else if Spells(s, i, "뭐") && i + 1 < |s| && IsSpace(s[i + 1]) then 2
    else 0
  }
  /** Non-overlapping generic phrases from this position on. */
  function GenericHits(s: string, i: nat): nat
    decreases |s| - i
  {
    if i >= |s| then 0
    else if GenericAt(s, i) == 0 then GenericHits(s, i + 1)
    else 1 + GenericHits(s, i + GenericAt(s, i))
  }

  // ---- Reading ----

  /** A trimmed answer: its characters and tokens, how many characters are not spaces and how many
      of those are letters or digits, and what the patterns found. */
  datatype Answer = Answer(
    chars: seq<char>, tokens: seq<string>, nonSpace: nat, meaningful: nat,
    genericHits: nat, specific: bool, emotional: bool)

  function Read(text: string): Answer {
    var chars := Trim(text);
    Answer(chars, Tokens(chars), |NonSpace(chars)|, |Filter(NonSpace(chars), IsMeaningful)|,
           GenericHits(chars, 0), Specific(chars), Emotional(chars))
  }

  /** Trimming first does not change what is read. */
  lemma ReadTrimmed(text: string)
    ensures Read(Trim(text)) == Read(text)
  {
    TrimTrims(text);
    TrimTrims(Trim(text));
  }
}
