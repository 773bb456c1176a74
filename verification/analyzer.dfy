/** `analyzeText` and `checkRepetition` (api/mod.ts): the statistics reported
    for one text. */
module Analyzer {
  import opened Results
  import opened Counting
  import opened Text
  import opened Stats
  import opened Heuristics

  /** The object `analyzeText` returns. Count tables are lists of rows in
      insertion order. */
  datatype Analysis = Analysis(
    charactersCount: nat,
    wordsCount: nat,
    sentencesCount: nat,
    uniqueWordCount: nat,
    averageSentenceLength: real,
    mostUsedWord: string,
    meanSentenceLength: real,
    varianceSentenceLength: real,
    typeTokenRatio: real,
    bigrams: seq<Entry>,
    trigrams: seq<Entry>,
    heuristicMatches: bool,
    aiProbability: int)

  /** The `reduce` that counts the lower-cased words into `wordFrequency`. */
  method WordFrequency(words: seq<string>) returns (wordFrequency: seq<Entry>)
    ensures wordFrequency == Tally(LowerAll(words))
    ensures DistinctKeys(wordFrequency)
    ensures |wordFrequency| == |Elems(LowerAll(words))|
    ensures Total(wordFrequency) == |words|
  {
    var lowered := LowerAll(words);
    wordFrequency := [];
    var i := 0;
    while i < |words|
      invariant 0 <= i <= |words|
      invariant wordFrequency == Tally(lowered[..i])
    {
      var lowerWord := Lower(words[i]);
      assert lowered[..i + 1][..i] == lowered[..i];
      wordFrequency := Bump(wordFrequency, lowerWord);
      i := i + 1;
    }
    assert lowered[..|words|] == lowered;
    TallyRows(lowered);
    TallySize(lowered);
    TallyTotal(lowered);
  }

  /** `nGrams(n)`: for i from 0 while `i <= words.length - n`, the n words from
      index i, joined with one space, are counted into a fresh table. */
  method NGrams(words: seq<string>, n: nat) returns (nGrams: seq<Entry>)
    ensures nGrams == Tally(Grams(words, n))
    ensures DistinctKeys(nGrams)
    ensures Total(nGrams) == if |words| < n then 0 else |words| - n + 1
    ensures nGrams == [] <==> |words| < n
  {
    var grams := Grams(words, n);
    nGrams := [];
    var i := 0;
    while i <= |words| - n
      invariant 0 <= i <= |grams|
      invariant nGrams == Tally(grams[..i])
    {
      var gram := Join(words[i..i + n]);
      assert gram == grams[i];
      assert grams[..i + 1][..i] == grams[..i];
      nGrams := Bump(nGrams, gram);
      i := i + 1;
    }
    assert grams[..i] == grams;
    TallyRows(grams);
    TallyTotal(grams);
    if grams != [] {
      assert grams[0] in Keys(nGrams);
    }
  }

  /** Every n-gram key, split on whitespace, gives back n consecutive words of
      the text, when the words are tokens. */
  lemma NGramKeysAreWindows(words: seq<string>, n: nat)
    requires n >= 1
    requires forall w :: w in words ==> w != [] && forall m :: 0 <= m < |w| ==> !IsWhitespace(w[m])
    ensures forall e :: e in Tally(Grams(words, n)) ==> exists i: nat :: IsWindow(words, n, e.key, i)
  {
    var grams := Grams(words, n);
    TallyRows(grams);
    forall e | e in Tally(grams)
      ensures exists i: nat :: IsWindow(words, n, e.key, i)
    {
      var r :| 0 <= r < |Tally(grams)| && Tally(grams)[r] == e;
      assert e.key in grams;
      var i :| 0 <= i < |grams| && grams[i] == e.key;
      var window := words[i..i + n];
      assert forall w :: w in window ==> w in words;
      SplitJoin(window);
      assert IsWindow(words, n, e.key, i);
    }
  }

  /** key splits on whitespace into the n words of words from index i. */
  predicate IsWindow(words: seq<string>, n: nat, key: string, i: nat)
  {
    i + n <= |words| && Split(key, Whitespace) == words[i..i + n]
  }

  /** Some string occurs more than twice in xs. */
  predicate HasRepeat(xs: seq<string>)
  {
    exists w :: w in xs && Count(xs, w) > 2
  }

  /** `checkRepetition`: the whitespace pieces of the text (empty ones kept)
      are counted into a map, and the result says whether a count exceeds 2. */
  method CheckRepetition(text: string) returns (repeated: bool)
    ensures repeated <==> HasRepeat(Split(text, Whitespace))
  {
    var words := Split(text, Whitespace);
    var wordCounts: map<string, nat> := map[];
    var i := 0;
    while i < |words|
      invariant 0 <= i <= |words|
      invariant forall w :: w in wordCounts <==> w in words[..i]
      invariant forall w :: w in wordCounts ==> wordCounts[w] == Count(words[..i], w)
    {
      var word := words[i];
      assert words[..i + 1][..i] == words[..i];
      assert words[..i + 1] == words[..i] + [word];
      wordCounts := wordCounts[word := (if word in wordCounts then wordCounts[word] else 0) + 1];
      i := i + 1;
    }
    assert words[..i] == words;
    repeated := exists w | w in wordCounts :: wordCounts[w] > 2;
    if repeated {
      var w :| w in wordCounts && wordCounts[w] > 2;
      assert w in words && Count(words, w) > 2;
    }
    if HasRepeat(words) {
      var w :| w in words && Count(words, w) > 2;
      assert w in wordCounts;
    }
  }

  /** The empty pieces that `checkRepetition` counts, unlike the word list, never
      make a repetition: there are at most two of them. */
  lemma RepetitionIgnoresEmptyPieces(text: string)
    ensures HasRepeat(Split(text, Whitespace)) <==> HasRepeat(Tokens(text))
  {
    var pieces := Split(text, Whitespace);
    EmptyPieceAtMostTwice(text, Whitespace);
    if HasRepeat(pieces) {
      var w :| w in pieces && Count(pieces, w) > 2;
      NonEmptyCount(pieces, w);
    }
    if HasRepeat(Tokens(text)) {
      var w :| w in Tokens(text) && Count(Tokens(text), w) > 2;
      NonEmptyCount(pieces, w);
    }
  }

  /** A repetition is a row with a count above 2 in the case-sensitive tally of
      the words. */
  lemma RepetitionIsTallyRow(xs: seq<string>)
    ensures HasRepeat(xs) <==> exists e :: e in Tally(xs) && e.count > 2
  {
    TallyRows(xs);
    var t := Tally(xs);
    if HasRepeat(xs) {
      var w :| w in xs && Count(xs, w) > 2;
      assert w in Keys(t);
      var i :| 0 <= i < |t| && Keys(t)[i] == w;
      assert t[i] in t;
    }
    if exists e :: e in t && e.count > 2 {
      var e :| e in t && e.count > 2;
      var i :| 0 <= i < |t| && t[i] == e;
      assert e.key in xs;
    }
  }

  /** `analyzeText`. A text without words makes the `reduce` over the empty
      frequency table throw; here that is the failure result. */
  method AnalyzeText(text: string) returns (r: Result<Analysis>)
    ensures r.Failure? <==> Blank(text)
    ensures r.Success? ==>
      var a := r.value;
      var words := Tokens(text);
      var sentences := Sentences(text);
      && a.charactersCount == |text|
      && a.wordsCount == |words| >= 1
      && a.sentencesCount == |sentences|
      && a.uniqueWordCount == |Elems(LowerAll(words))|
      && 1 <= a.uniqueWordCount <= a.wordsCount
      && a.averageSentenceLength == Ratio(a.wordsCount, a.sentencesCount)
      && (a.sentencesCount == 0 ==>
            a.averageSentenceLength == 0.0 && a.meanSentenceLength == 0.0 && a.varianceSentenceLength == 0.0)
      && IsMostUsedWord(LowerAll(words), a.mostUsedWord)
      && a.meanSentenceLength == Mean(SentenceLengths(sentences))
      && a.varianceSentenceLength == Variance(SentenceLengths(sentences))
      && a.varianceSentenceLength >= 0.0
      && a.typeTokenRatio == Ratio(a.uniqueWordCount, a.wordsCount)
      && 0.0 < a.typeTokenRatio <= 1.0
      && a.bigrams == Tally(Grams(words, 2))
      && a.trigrams == Tally(Grams(words, 3))
      && a.heuristicMatches == HeuristicMatches(text)
      && a.aiProbability ==
           Score(a.heuristicMatches, a.varianceSentenceLength > 5.0, HasRepeat(words))
  {
    var charactersCount := |text|;
    var words := Tokens(text);
    var wordsCount := |words|;
    var sentences := Sentences(text);
    var sentencesCount := |sentences|;
    var uniqueWords := Elems(LowerAll(words));
    var uniqueWordCount := |uniqueWords|;
    var averageSentenceLength := Ratio(wordsCount, sentencesCount);

    var wordFrequency := WordFrequency(words);
    var mostUsedWordEntry := MostUsed(wordFrequency);
    TokensEmptyIffBlank(text);
    if mostUsedWordEntry.Failure? {
      return Failure(mostUsedWordEntry.error);
    }
    MostUsedOfTally(LowerAll(words));

    var sentenceLengths := SentenceLengths(sentences);
    var meanSentenceLength := Mean(sentenceLengths);
    var varianceSentenceLength := Variance(sentenceLengths);
    VarianceNonNegative(sentenceLengths);

    var typeTokenRatio := Ratio(uniqueWordCount, wordsCount);
    ElemsAtMostLength(LowerAll(words));
    assert LowerAll(words)[0] in uniqueWords;
    RatioOfPart(uniqueWordCount, wordsCount);

    var bigrams := NGrams(words, 2);
    var trigrams := NGrams(words, 3);

    var heuristicMatches := HeuristicMatches(text);
    var repetition := CheckRepetition(text);
    RepetitionIgnoresEmptyPieces(text);
    var aiProbability := AiProbability(heuristicMatches, varianceSentenceLength, repetition);

    r := Success(Analysis(
      charactersCount, wordsCount, sentencesCount, uniqueWordCount,
      averageSentenceLength, mostUsedWordEntry.value.key, meanSentenceLength,
      varianceSentenceLength, typeTokenRatio, bigrams, trigrams,
      heuristicMatches, aiProbability));
  }
}
