/** Splitting the analysed text into whitespace tokens and into sentences,
    lower-casing, and joining tokens back into n-gram keys (api/mod.ts). */
module Text {
  import opened Counting

  /** The characters matched by `\s` in a JavaScript regular expression and
      removed by `String.prototype.trim`: ECMAScript WhiteSpace (tab, vertical
      tab, form feed, the byte order mark and every Zs space separator) and
      LineTerminator (line feed, carriage return, U+2028, U+2029). */
  predicate IsWhitespace(c: char)
  {
    || c == '\t' || c == '\n' || c == '\U{000B}' || c == '\U{000C}' || c == '\r'
    || c == ' ' || c == '\U{00A0}' || c == '\U{1680}' || ('\U{2000}' <= c <= '\U{200A}')
    || c == '\U{2028}' || c == '\U{2029}' || c == '\U{202F}' || c == '\U{205F}'
    || c == '\U{3000}' || c == '\U{FEFF}'
  }

  /** The sentence terminators of the class `[.!?]`. */
  predicate IsTerminator(c: char)
  {
    c == '.' || c == '!' || c == '?'
  }

  /** The two separator classes the text is split on: `/\s+/` and `/[.!?]+/`. */
  datatype Separator = Whitespace | Terminator

  predicate IsSep(k: Separator, c: char)
  {
    match k
    case Whitespace => IsWhitespace(c)
    case Terminator => IsTerminator(c)
  }

  /** Index of the first separator of s, or |s| when s has none. */
  function SepIndex(s: string, k: Separator): (i: nat)
    ensures i <= |s|
    ensures forall j :: 0 <= j < i ==> !IsSep(k, s[j])
    ensures i < |s| ==> IsSep(k, s[i])
  {
    if s == [] then 0
    else if IsSep(k, s[0]) then 0
    else 1 + SepIndex(s[1..], k)
  }

  /** End of the run of separators that starts at i: the greedy `+` of the
      regular expression consumes the whole run. */
  function RunEnd(s: string, k: Separator, i: nat): (j: nat)
    requires i <= |s|
    ensures i <= j <= |s|
    ensures i < |s| && IsSep(k, s[i]) ==> i < j
    ensures forall m :: i <= m < j ==> IsSep(k, s[m])
    ensures j < |s| ==> !IsSep(k, s[j])
    decreases |s| - i
  {
    if i < |s| && IsSep(k, s[i]) then RunEnd(s, k, i + 1) else i
  }

  /** `s.split(/\s+/)` or `s.split(/[.!?]+/)`: the pieces between maximal
      runs of separators, keeping the empty piece before a leading run and
      the one after a trailing run; the empty string splits into [""]. */
  function Split(s: string, k: Separator): (pieces: seq<string>)
    ensures |pieces| >= 1
    decreases |s|
  {
    var i := SepIndex(s, k);
    if i == |s| then [s]
    else
      var j := RunEnd(s, k, i);
      [s[..i]] + Split(s[j..], k)
  }

  /** A text made of a separator-free part a, a run of separators and a rest
      that does not start with a separator splits into a and the pieces of
      the rest. */
  lemma SplitAt(a: string, seps: string, b: string, k: Separator)
    requires forall m :: 0 <= m < |a| ==> !IsSep(k, a[m])
    requires |seps| >= 1 && forall m :: 0 <= m < |seps| ==> IsSep(k, seps[m])
    requires b == [] || !IsSep(k, b[0])
    ensures Split(a + seps + b, k) == [a] + Split(b, k)
  {
    var s := a + seps + b;
    SepIndexAt(a, seps, b, k);
    RunEndAt(a, seps, b, k);
    assert s[..|a|] == a;
    assert s[|a| + |seps|..] == b;
  }

  /** In a + seps + b, the first separator is at |a|. */
  lemma SepIndexAt(a: string, seps: string, b: string, k: Separator)
    requires forall m :: 0 <= m < |a| ==> !IsSep(k, a[m])
    requires |seps| >= 1 && IsSep(k, seps[0])
    ensures SepIndex(a + seps + b, k) == |a|
  {
    var s := a + seps + b;
    var i := SepIndex(s, k);
    assert s[|a|] == seps[0];
    assert i <= |a|;
    assert forall m :: 0 <= m < |a| ==> s[m] == a[m];
    assert !IsSep(k, s[i]) || i == |a|;
  }

  /** In a + seps + b, the run of separators from |a| ends where b begins. */
  lemma RunEndAt(a: string, seps: string, b: string, k: Separator)
    requires forall m :: 0 <= m < |seps| ==> IsSep(k, seps[m])
    requires b == [] || !IsSep(k, b[0])
    ensures RunEnd(a + seps + b, k, |a|) == |a| + |seps|
  {
    var s := a + seps + b;
    var j := RunEnd(s, k, |a|);
    assert forall m :: |a| <= m < |a| + |seps| ==> s[m] == seps[m - |a|];
    assert j >= |a| + |seps|;
    assert |a| + |seps| < |s| ==> s[|a| + |seps|] == b[0];
  }

  /** Every piece of a split consists of non-separator characters of s. */
  lemma {:induction false} SplitPieces(s: string, k: Separator)
    ensures forall p, m :: p in Split(s, k) && 0 <= m < |p| ==> !IsSep(k, p[m]) && p[m] in s
    decreases |s|
  {
    var i := SepIndex(s, k);
    if i < |s| {
      var j := RunEnd(s, k, i);
      SplitPieces(s[j..], k);
      forall p, m | p in Split(s, k) && 0 <= m < |p|
        ensures !IsSep(k, p[m]) && p[m] in s
      {
        if p == s[..i] {
          assert p[m] == s[m];
        } else {
          assert p in Split(s[j..], k);
          var c := p[m];
          assert c in s[j..];
          var q :| 0 <= q < |s[j..]| && s[j..][q] == c;
          assert s[j + q] == c;
        }
      }
    }
  }

  /** Splitting a text that does not start with a separator: its first piece
      is empty only when the text is empty. */
  lemma SplitFirstPiece(t: string, k: Separator)
    requires t == [] || !IsSep(k, t[0])
    ensures Split(t, k)[0] == [] ==> t == [] && Split(t, k) == [[]]
  {
  }

  /** Only the first and the last piece of a split can be empty. */
  lemma {:induction false} SplitInteriorNonEmpty(s: string, k: Separator)
    ensures forall n :: 0 < n < |Split(s, k)| - 1 ==> Split(s, k)[n] != []
    decreases |s|
  {
    var i := SepIndex(s, k);
    if i < |s| {
      var j := RunEnd(s, k, i);
      var rest := Split(s[j..], k);
      SplitInteriorNonEmpty(s[j..], k);
      SplitFirstPiece(s[j..], k);
      assert Split(s, k) == [s[..i]] + rest;
    }
  }

  /** Hence the empty string occurs at most twice among the pieces. */
  lemma EmptyPieceAtMostTwice(s: string, k: Separator)
    ensures Count(Split(s, k), []) <= 2
  {
    SplitInteriorNonEmpty(s, k);
    EmptyOnlyAtEnds(Split(s, k));
  }

  /** A list whose interior strings are all non-empty holds the empty string
      at most twice. */
  lemma EmptyOnlyAtEnds(p: seq<string>)
    requires forall n :: 0 < n < |p| - 1 ==> p[n] != []
    ensures Count(p, []) <= 2
  {
    if |p| >= 2 {
      var mid := p[1..|p| - 1];
      assert p == [p[0]] + mid + [p[|p| - 1]];
      CountAppend([p[0]] + mid, [p[|p| - 1]], []);
      CountAppend([p[0]], mid, []);
      assert [] !in mid;
    }
  }

  /** A non-separator character of s lies in some piece. */
  lemma {:induction false} SplitKeepsContent(s: string, k: Separator, m: nat)
    requires m < |s| && !IsSep(k, s[m])
    ensures exists p :: p in Split(s, k) && s[m] in p
    decreases |s|
  {
    var i := SepIndex(s, k);
    if i < |s| {
      var j := RunEnd(s, k, i);
      if m < i {
        assert s[..i][m] == s[m];
        assert s[..i] in Split(s, k);
      } else {
        assert m >= j;
        SplitKeepsContent(s[j..], k, m - j);
        var p :| p in Split(s[j..], k) && s[j..][m - j] in p;
        assert p in Split(s, k);
      }
    } else {
      assert s in Split(s, k);
    }
  }

  /** `.filter(Boolean)` on strings: drops the empty strings. */
  function NonEmpty(xs: seq<string>): (ys: seq<string>)
    ensures forall y :: y in ys ==> y != [] && y in xs
    decreases |xs|
  {
    if xs == [] then []
    else
      var init := xs[..|xs| - 1];
      assert forall y :: y in init ==> y in xs;
      NonEmpty(init) + (if xs[|xs| - 1] != [] then [xs[|xs| - 1]] else [])
  }

  /** Nothing is dropped from a list of non-empty strings. */
  lemma {:induction false} NonEmptyKeepsWords(xs: seq<string>)
    requires forall m :: 0 <= m < |xs| ==> xs[m] != []
    ensures NonEmpty(xs) == xs
    decreases |xs|
  {
    if xs != [] {
      var init := xs[..|xs| - 1];
      NonEmptyKeepsWords(init);
      assert xs == init + [xs[|xs| - 1]];
    }
  }

  /** Dropping the empty strings leaves the count of every other string alone. */
  lemma {:induction false} NonEmptyCount(xs: seq<string>, w: string)
    ensures Count(NonEmpty(xs), w) == if w == [] then 0 else Count(xs, w)
    decreases |xs|
  {
    if xs != [] {
      var init, last := xs[..|xs| - 1], xs[|xs| - 1];
      NonEmptyCount(init, w);
      CountAppend(NonEmpty(init), if last != [] then [last] else [], w);
    }
  }

  /** `s.trim() === ""`: s consists of whitespace only. */
  predicate Blank(s: string)
  {
    forall m :: 0 <= m < |s| ==> IsWhitespace(s[m])
  }

  /** `.filter((sentence) => sentence.trim() !== "")`. */
  function NonBlank(xs: seq<string>): (ys: seq<string>)
    ensures forall y :: y in ys ==> !Blank(y) && y in xs
    decreases |xs|
  {
    if xs == [] then []
    else
      var init := xs[..|xs| - 1];
      assert forall y :: y in init ==> y in xs;
      NonBlank(init) + (if !Blank(xs[|xs| - 1]) then [xs[|xs| - 1]] else [])
  }

  /** The sentence filter keeps every string with non-whitespace content, as
      often as it occurs, and drops every blank one. */
  lemma {:induction false} NonBlankCount(xs: seq<string>, w: string)
    ensures Count(NonBlank(xs), w) == if Blank(w) then 0 else Count(xs, w)
    decreases |xs|
  {
    if xs != [] {
      var init, last := xs[..|xs| - 1], xs[|xs| - 1];
      NonBlankCount(init, w);
      CountAppend(NonBlank(init), if !Blank(last) then [last] else [], w);
    }
  }

  /** `text.split(/\s+/).filter(Boolean)`. */
  function Tokens(text: string): seq<string>
  {
    NonEmpty(Split(text, Whitespace))
  }

  /** `text.split(/[.!?]+/).filter((sentence) => sentence.trim() !== "")`. */
  function Sentences(text: string): seq<string>
  {
    NonBlank(Split(text, Terminator))
  }

  /** Every token is a non-empty run of non-whitespace characters of the text. */
  lemma TokensAreWords(text: string)
    ensures forall w, m :: w in Tokens(text) && 0 <= m < |w| ==> !IsWhitespace(w[m]) && w[m] in text
    ensures forall w :: w in Tokens(text) ==> w != []
  {
    SplitPieces(text, Whitespace);
  }

  /** Every sentence has non-whitespace content and no terminator in it. */
  lemma SentencesAreClauses(text: string)
    ensures forall s :: s in Sentences(text) ==> !Blank(s)
    ensures forall s, m :: s in Sentences(text) && 0 <= m < |s| ==> !IsTerminator(s[m])
  {
    SplitPieces(text, Terminator);
  }

  /** A blank text splits on whitespace into empty pieces only. */
  lemma {:induction false} BlankSplitsIntoEmptyPieces(s: string)
    requires Blank(s)
    ensures forall p :: p in Split(s, Whitespace) ==> p == []
    decreases |s|
  {
    if s != [] {
      var j := RunEnd(s, Whitespace, 0);
      assert Blank(s[j..]);
      BlankSplitsIntoEmptyPieces(s[j..]);
    }
  }

  lemma {:induction false} NoTokensAmongEmptyPieces(xs: seq<string>)
    requires forall p :: p in xs ==> p == []
    ensures NonEmpty(xs) == []
    decreases |xs|
  {
    if xs != [] {
      var init := xs[..|xs| - 1];
      assert forall p :: p in init ==> p in xs;
      NoTokensAmongEmptyPieces(init);
      assert xs[|xs| - 1] in xs;
    }
  }

  /** A text has no token exactly when it is empty or whitespace only. */
  lemma TokensEmptyIffBlank(text: string)
    ensures Tokens(text) == [] <==> Blank(text)
  {
    var pieces := Split(text, Whitespace);
    if Blank(text) {
      BlankSplitsIntoEmptyPieces(text);
      NoTokensAmongEmptyPieces(pieces);
    } else {
      var m :| 0 <= m < |text| && !IsWhitespace(text[m]);
      SplitKeepsContent(text, Whitespace, m);
      var p :| p in pieces && text[m] in p;
      NonEmptyCount(pieces, p);
      assert Count(Tokens(text), p) > 0;
    }
  }

  /** Every non-whitespace character of the text lies in some token. */
  lemma TokensCoverText(text: string, m: nat)
    requires m < |text| && !IsWhitespace(text[m])
    ensures exists w :: w in Tokens(text) && text[m] in w
  {
    var pieces := Split(text, Whitespace);
    SplitKeepsContent(text, Whitespace, m);
    var p :| p in pieces && text[m] in p;
    NonEmptyCount(pieces, p);
    assert Count(Tokens(text), p) > 0;
  }

  /** A kept sentence has at least one word. */
  lemma NonBlankHasTokens(s: string)
    requires !Blank(s)
    ensures |Tokens(s)| >= 1
  {
    TokensEmptyIffBlank(s);
  }

  /** Word count of every sentence: `sentence.split(/\s+/).filter(Boolean).length`. */
  function SentenceLengths(sentences: seq<string>): (lengths: seq<nat>)
    ensures |lengths| == |sentences|
  {
    seq(|sentences|, i requires 0 <= i < |sentences| => |Tokens(sentences[i])|)
  }

  /** Every sentence the text splits into has a length of at least one word. */
  lemma SentenceLengthsPositive(text: string)
    ensures forall i :: 0 <= i < |SentenceLengths(Sentences(text))| ==> SentenceLengths(Sentences(text))[i] >= 1
  {
    var ss := Sentences(text);
    forall i | 0 <= i < |ss| ensures |Tokens(ss[i])| >= 1 {
      assert ss[i] in ss;
      NonBlankHasTokens(ss[i]);
    }
  }

  /** ASCII `toLowerCase` of one character. */
  function LowerChar(c: char): char
  {
    if 'A' <= c <= 'Z' then (c as int + 32) as char else c
  }

  /** `toLowerCase` of a string, character by character. */
  function Lower(s: string): string
  {
    seq(|s|, i requires 0 <= i < |s| => LowerChar(s[i]))
  }

  /** `words.map((word) => word.toLowerCase())`. */
  function LowerAll(words: seq<string>): seq<string>
  {
    seq(|words|, i requires 0 <= i < |words| => Lower(words[i]))
  }

  /** `ws.join(" ")`. */
  function Join(ws: seq<string>): string
  {
    if |ws| == 0 then []
    else if |ws| == 1 then ws[0]
    else ws[0] + " " + Join(ws[1..])
  }

  /** The joined string starts with the first word. */
  lemma {:induction false} JoinStartsWithFirst(ws: seq<string>)
    requires |ws| >= 1
    ensures |Join(ws)| >= |ws[0]| && Join(ws)[..|ws[0]|] == ws[0]
  {
  }

  /** Splitting a joined n-gram on whitespace gives back its words, when the
      words are tokens (non-empty, without whitespace). */
  lemma {:induction false} SplitJoin(ws: seq<string>)
    requires |ws| >= 1
    requires forall w :: w in ws ==> w != [] && forall m :: 0 <= m < |w| ==> !IsWhitespace(w[m])
    ensures Split(Join(ws), Whitespace) == ws
    decreases |ws|
  {
    var w := ws[0];
    assert w in ws;
    if |ws| == 1 {
      WithoutSeparator(w, Whitespace);
    } else {
      var r := Join(ws[1..]);
      assert Join(ws) == w + " " + r;
      JoinStartsWithFirst(ws[1..]);
      assert ws[1] in ws;
      assert r[0] == ws[1][0];
      SplitAt(w, " ", r, Whitespace);
      assert forall v :: v in ws[1..] ==> v in ws;
      SplitJoin(ws[1..]);
      assert ws == [w] + ws[1..];
    }
  }

  /** A text without separators is its own single piece. */
  lemma WithoutSeparator(s: string, k: Separator)
    requires forall m :: 0 <= m < |s| ==> !IsSep(k, s[m])
    ensures Split(s, k) == [s]
  {
    assert SepIndex(s, k) == |s|;
  }

  /** The n-gram keys: every window of n consecutive words, joined, in order
      of its start index `i` from 0 to `words.length - n`. */
  function Grams(words: seq<string>, n: nat): (grams: seq<string>)
    ensures |grams| == if |words| < n then 0 else |words| - n + 1
  {
    if |words| < n then []
    else seq(|words| - n + 1, i requires 0 <= i <= |words| - n => Join(words[i..i + n]))
  }
}
