/** The phrase heuristics and the probability score of the analysis
    (api/mod.ts). */
module Heuristics {
  import opened Text

  /** The five phrases of `heuristicPatterns`, each a literal regular
      expression with the `i` flag, written here in lower case. */
  const Markers: seq<string> :=
    ["in conclusion", "it is important to note", "as mentioned above", "thus", "moreover"]

  /** The window of text starting at i spells p, ignoring ASCII case. (For a
      regular expression with the `i` flag and without the `u` flag, two
      characters match when they agree after upper-casing, and no non-ASCII
      character is folded onto an ASCII one; so against a lower-case ASCII
      phrase this is ASCII lower-casing.) */
  predicate MatchesAt(text: string, p: string, i: nat)
  {
    i + |p| <= |text| && Lower(text[i..i + |p|]) == p
  }

  /** `/p/i.test(text)` for a literal lower-case phrase p: the regular
      expression is tried at every start index in turn. */
  function Test(text: string, p: string): (found: bool)
    ensures found ==> |p| <= |text|
    decreases |text|
  {
    if |text| < |p| then false
    else Lower(text[..|p|]) == p || Test(text[1..], p)
  }

  /** The scan finds the phrase exactly when the phrase occurs somewhere. */
  lemma {:induction false} TestFindsOccurrence(text: string, p: string)
    ensures Test(text, p) <==> exists i: nat :: MatchesAt(text, p, i)
    decreases |text|
  {
    if |text| < |p| {
    } else if Lower(text[..|p|]) == p {
      assert MatchesAt(text, p, 0);
    } else {
      var rest := text[1..];
      TestFindsOccurrence(rest, p);
      forall i: nat | MatchesAt(rest, p, i)
        ensures MatchesAt(text, p, i + 1)
      {
        assert rest[i..i + |p|] == text[i + 1..i + 1 + |p|];
      }
      forall i: nat | MatchesAt(text, p, i)
        ensures i > 0 && MatchesAt(rest, p, i - 1)
      {
        assert rest[i - 1..i - 1 + |p|] == text[i..i + |p|];
      }
    }
  }

  /** A phrase found in a part of the text is found in the whole text. */
  lemma TestInContext(before: string, part: string, after: string, p: string)
    requires Test(part, p)
    ensures Test(before + part + after, p)
  {
    TestFindsOccurrence(part, p);
    var i: nat :| MatchesAt(part, p, i);
    var text := before + part + after;
    assert text[|before| + i..|before| + i + |p|] == part[i..i + |p|];
    assert MatchesAt(text, p, |before| + i);
    TestFindsOccurrence(text, p);
  }

  /** `patterns.some((pattern) => pattern.test(text))`, the patterns tried in
      order. */
  function AnyMarker(text: string, patterns: seq<string>): (matched: bool)
    ensures matched <==> exists k :: 0 <= k < |patterns| && Test(text, patterns[k])
    decreases |patterns|
  {
    if patterns == [] then false
    else
      assert forall k :: 0 < k < |patterns| ==> patterns[k] == patterns[1..][k - 1];
      Test(text, patterns[0]) || AnyMarker(text, patterns[1..])
  }

  /** `heuristicMatches`: one of the five phrases occurs in the text, in any
      letter case. */
  function HeuristicMatches(text: string): bool
  {
    AnyMarker(text, Markers)
  }

  /** The heuristic holds exactly when some phrase occurs at some index. */
  lemma HeuristicMatchesIff(text: string)
    ensures HeuristicMatches(text) <==>
      exists p, i: nat :: p in Markers && MatchesAt(text, p, i)
  {
    forall k | 0 <= k < |Markers|
      ensures Test(text, Markers[k]) <==> exists i: nat :: MatchesAt(text, Markers[k], i)
    {
      TestFindsOccurrence(text, Markers[k]);
    }
  }

  /** The phrases are not anchored to word boundaries: "Enthusiasm" matches
      because it contains "thus". An empty text matches none. */
  lemma HeuristicExamples()
    ensures HeuristicMatches("Enthusiasm")
    ensures !HeuristicMatches("")
  {
    var text := "Enthusiasm";
    assert Lower(text[2..6]) == "thus";
    assert MatchesAt(text, Markers[3], 2);
    TestFindsOccurrence(text, Markers[3]);
  }

  /** The score as a function of the three signals: the heuristic, a sentence
      length variance above 5, and a token seen more than twice. */
  function Score(matched: bool, complex: bool, repeated: bool): int
  {
    var base := if matched then 41 else 9;
    var raw := base + (if complex then 6 else -4) + (if repeated then 5 else -4);
    Clamp(raw)
  }

  /** `Math.max(0, Math.min(100, x))`. */
  function Clamp(x: int): (y: int)
    ensures 0 <= y <= 100
    ensures 0 <= x <= 100 ==> y == x
  {
    if x < 0 then 0 else if x > 100 then 100 else x
  }

  /** The clamp never acts: the raw score is one of eight values between 1 and
      52. */
  lemma ScoreUnclamped(matched: bool, complex: bool, repeated: bool)
    ensures Score(matched, complex, repeated) in {1, 10, 11, 20, 33, 42, 43, 52}
    ensures Score(matched, complex, repeated) ==
      (if matched then 41 else 9) + (if complex then 6 else -4) + (if repeated then 5 else -4)
  {
  }

  /** Each signal raises the score, whatever the other two are. */
  lemma ScoreMonotone(matched: bool, complex: bool, repeated: bool)
    ensures !matched ==> Score(matched, complex, repeated) < Score(true, complex, repeated)
    ensures !complex ==> Score(matched, complex, repeated) < Score(matched, true, repeated)
    ensures !repeated ==> Score(matched, complex, repeated) < Score(matched, complex, true)
  {
  }

  /** The score determines all three signals: the eight combinations give
      eight different scores. */
  lemma ScoreDecodes(matched: bool, complex: bool, repeated: bool)
    ensures matched <==> Score(matched, complex, repeated) >= 33
    ensures complex <==> Score(matched, complex, repeated) in {11, 20, 43, 52}
    ensures repeated <==> Score(matched, complex, repeated) in {10, 20, 42, 52}
  {
  }

  /** The `aiProbability` updates: a base of 41 or 9, then `+ sentenceComplexity
      + repetitionCheck`, then the clamp to 0..100. */
  method AiProbability(heuristicMatches: bool, variance: real, repetition: bool)
    returns (aiProbability: int)
    ensures aiProbability == Score(heuristicMatches, variance > 5.0, repetition)
    ensures 0 <= aiProbability <= 100
  {
    aiProbability := if heuristicMatches then 41 else 9;
    var sentenceComplexity := if variance > 5.0 then 6 else -4;
    var repetitionCheck := if repetition then 5 else -4;
    aiProbability := aiProbability + sentenceComplexity + repetitionCheck;
    aiProbability := Clamp(aiProbability);
  }
}
