/** Worked examples of the analysis, each computed step by step. */
module Scenarios {
  import opened Counting
  import opened Results
  import opened Text

  /** The tokens of a text that is tokens joined by single spaces are those
      tokens. */
  lemma TokensOfJoined(ws: seq<string>, text: string)
    requires |ws| >= 1 && text == Join(ws)
    requires forall w :: w in ws ==> w != [] && forall m :: 0 <= m < |w| ==> !IsWhitespace(w[m])
    ensures Tokens(text) == ws
  {
    SplitJoin(ws);
    NonEmptyKeepsWords(ws);
  }

  lemma CatTokens()
    ensures Tokens("Cat cat cat dog.") == ["Cat", "cat", "cat", "dog."]
  {
    var ws := ["Cat", "cat", "cat", "dog."];
    assert Join(ws) == "Cat cat cat dog.";
    forall w | w in ws
      ensures w != [] && forall m :: 0 <= m < |w| ==> !IsWhitespace(w[m])
    {
    }
    TokensOfJoined(ws, "Cat cat cat dog.");
  }

  lemma CatLowered()
    ensures LowerAll(["Cat", "cat", "cat", "dog."]) == ["cat", "cat", "cat", "dog."]
  {
    assert Lower("Cat") == "cat";
    assert Lower("cat") == "cat";
    assert Lower("dog.") == "dog.";
  }

  lemma CatTally()
    ensures Tally(["cat", "cat", "cat", "dog."]) == [Entry("cat", 3), Entry("dog.", 1)]
  {
    var xs := ["cat", "cat", "cat", "dog."];
    assert xs[..3][..2][..1] == ["cat"];
    assert xs[..3][..2] == ["cat", "cat"];
    assert xs[..3] == ["cat", "cat", "cat"];
    assert Tally(["cat"]) == [Entry("cat", 1)];
    assert Keys([Entry("cat", 1)]) == ["cat"];
    assert Tally(["cat", "cat"]) == [Entry("cat", 2)];
    assert Keys([Entry("cat", 2)]) == ["cat"];
    assert Tally(["cat", "cat", "cat"]) == [Entry("cat", 3)];
    assert Keys([Entry("cat", 3)]) == ["cat"];
    assert FirstIndex(["cat"], "dog.") == 1;
  }

  /** "Cat cat cat dog." has four words and two distinct lower-cased words: cat
      three times and "dog." once. */
  lemma FrequencyExample()
    ensures |Tokens("Cat cat cat dog.")| == 4
    ensures Tally(LowerAll(Tokens("Cat cat cat dog."))) == [Entry("cat", 3), Entry("dog.", 1)]
  {
    CatTokens();
    CatLowered();
    CatTally();
  }

  lemma CatMostUsed()
    ensures MostUsed([Entry("cat", 3), Entry("dog.", 1)]) == Success(Entry("cat", 3))
  {
    assert [Entry("cat", 3), Entry("dog.", 1)][1..] == [Entry("dog.", 1)];
    assert Reduce(Entry("cat", 3), []) == Entry("cat", 3);
  }

  lemma CatUnique()
    ensures |Elems(["cat", "cat", "cat", "dog."])| == 2
  {
    assert Elems(["cat", "cat", "cat", "dog."]) == {"cat", "dog."};
  }

  lemma CatClause()
    ensures forall m :: 0 <= m < |"Cat cat cat dog"| ==> !IsSep(Terminator, "Cat cat cat dog"[m])
  {
    forall m | 0 <= m < |"Cat cat cat dog"| ensures !IsSep(Terminator, "Cat cat cat dog"[m]) {}
  }

  lemma CatSplitHead()
    ensures Split("Cat cat cat dog.", Terminator) == ["Cat cat cat dog"] + Split("", Terminator)
  {
    CatClause();
    SplitAt("Cat cat cat dog", ".", "", Terminator);
    assert "Cat cat cat dog" + "." + "" == "Cat cat cat dog.";
  }

  lemma CatSplit()
    ensures Split("Cat cat cat dog.", Terminator) == ["Cat cat cat dog", ""]
  {
    CatSplitHead();
    assert Split("", Terminator) == [""];
  }

  lemma CatFilter()
    ensures NonBlank(["Cat cat cat dog", ""]) == ["Cat cat cat dog"]
  {
    var pieces := ["Cat cat cat dog", ""];
    assert !IsWhitespace("Cat cat cat dog"[0]);
    assert pieces[..1] == ["Cat cat cat dog"];
    assert NonBlank(["Cat cat cat dog"]) == ["Cat cat cat dog"];
  }

  lemma CatSentences()
    ensures Sentences("Cat cat cat dog.") == ["Cat cat cat dog"]
  {
    CatSplit();
    CatFilter();
  }

  /** "Cat cat cat dog." has two unique words, one sentence, and the most used
      word "cat", seen three times. */
  lemma CatSummary()
    ensures |Elems(LowerAll(Tokens("Cat cat cat dog.")))| == 2
    ensures MostUsed(Tally(LowerAll(Tokens("Cat cat cat dog.")))) == Success(Entry("cat", 3))
    ensures |Sentences("Cat cat cat dog.")| == 1
  {
    CatTokens();
    CatLowered();
    CatTally();
    CatMostUsed();
    CatUnique();
    CatSentences();
  }

  lemma AbcTokens()
    ensures Tokens("a b c") == ["a", "b", "c"]
  {
    var ws := ["a", "b", "c"];
    assert Join(ws) == "a b c";
    forall w | w in ws
      ensures w != [] && forall m :: 0 <= m < |w| ==> !IsWhitespace(w[m])
    {
    }
    TokensOfJoined(ws, "a b c");
  }

  lemma AbcBigrams()
    ensures Grams(["a", "b", "c"], 2) == ["a b", "b c"]
  {
    var ws := ["a", "b", "c"];
    var g := Grams(ws, 2);
    assert |g| == 2;
    assert ws[0..2] == ["a", "b"];
    assert Join(["a", "b"]) == "a b";
    assert g[0] == "a b";
    assert ws[1..3] == ["b", "c"];
    assert Join(["b", "c"]) == "b c";
    assert g[1] == "b c";
  }

  lemma AbcTrigrams()
    ensures Grams(["a", "b", "c"], 3) == ["a b c"]
  {
    var ws := ["a", "b", "c"];
    var g := Grams(ws, 3);
    assert |g| == 1;
    assert ws[0..3] == ws;
    assert Join(ws) == "a b c";
    assert g[0] == "a b c";
  }

  lemma AbcBigramTally()
    ensures Tally(["a b", "b c"]) == [Entry("a b", 1), Entry("b c", 1)]
  {
    var xs := ["a b", "b c"];
    assert xs[..1] == ["a b"];
    assert Tally(["a b"]) == [Entry("a b", 1)];
    assert Keys([Entry("a b", 1)]) == ["a b"];
    assert FirstIndex(["a b"], "b c") == 1;
  }

  /** "a b c" has the bigrams "a b" and "b c" once each and the trigram
      "a b c" once. */
  lemma NGramExample()
    ensures Tally(Grams(Tokens("a b c"), 2)) == [Entry("a b", 1), Entry("b c", 1)]
    ensures Tally(Grams(Tokens("a b c"), 3)) == [Entry("a b c", 1)]
  {
    AbcTokens();
    AbcBigrams();
    AbcTrigrams();
    AbcBigramTally();
  }

  lemma HiSplitTail()
    ensures Split(" Go?", Terminator) == [" Go", ""]
  {
    forall m | 0 <= m < |" Go"| ensures !IsSep(Terminator, " Go"[m]) {}
    SplitAt(" Go", "?", "", Terminator);
    assert " Go" + "?" + "" == " Go?";
  }

  lemma HiSplitHead()
    ensures Split("Hi all. Go?", Terminator) == ["Hi all"] + Split(" Go?", Terminator)
  {
    forall m | 0 <= m < |"Hi all"| ensures !IsSep(Terminator, "Hi all"[m]) {}
    SplitAt("Hi all", ".", " Go?", Terminator);
    assert "Hi all" + "." + " Go?" == "Hi all. Go?";
  }

  lemma HiSplit()
    ensures Split("Hi all. Go?", Terminator) == ["Hi all", " Go", ""]
  {
    HiSplitHead();
    HiSplitTail();
  }

  lemma HiFilter()
    ensures NonBlank(["Hi all", " Go", ""]) == ["Hi all", " Go"]
  {
    var pieces := ["Hi all", " Go", ""];
    assert !IsWhitespace("Hi all"[0]);
    assert !IsWhitespace(" Go"[1]);
    assert pieces[..2][..1] == ["Hi all"];
    assert pieces[..2] == ["Hi all", " Go"];
    assert NonBlank(["Hi all"]) == ["Hi all"];
  }

  lemma HiFirstTokens()
    ensures Tokens("Hi all") == ["Hi", "all"]
  {
    var ws := ["Hi", "all"];
    assert Join(ws) == "Hi all";
    forall w | w in ws
      ensures w != [] && forall m :: 0 <= m < |w| ==> !IsWhitespace(w[m])
    {
    }
    TokensOfJoined(ws, "Hi all");
  }

  lemma HiSecondTokens()
    ensures Tokens(" Go") == ["Go"]
  {
    SplitAt("", " ", "Go", Whitespace);
    assert "" + " " + "Go" == " Go";
    assert Split("Go", Whitespace) == ["Go"];
    var pieces := ["", "Go"];
    assert Split(" Go", Whitespace) == pieces;
    assert pieces[..1] == [""];
    assert NonEmpty([""]) == [];
  }

  /** "Hi all. Go?" has two sentences, "Hi all" and " Go" (kept untrimmed);
      the empty piece after "?" is dropped. */
  lemma HiSentences()
    ensures Sentences("Hi all. Go?") == ["Hi all", " Go"]
  {
    HiSplit();
    HiFilter();
  }

  /** The two sentences of "Hi all. Go?" (see HiSentences) have two words and
      one word; the leading space of " Go" yields an empty piece, dropped. */
  lemma SentenceExample()
    ensures SentenceLengths(["Hi all", " Go"]) == [2, 1]
  {
    var lengths := SentenceLengths(["Hi all", " Go"]);
    HiFirstTokens();
    HiSecondTokens();
    assert lengths[0] == 2;
    assert lengths[1] == 1;
  }
}
