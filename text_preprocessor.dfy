/**
  The text cleaning of the recipe recommender: digit removal, removal of the
  `ADVERTISEMENT` marker, and the normalisation pipeline (lower-case, tokenize,
  strip punctuation except commas, drop stop words, lemmatize, join with spaces).

  The tokenizer, the stop-word list and the lemmatizer are natural-language
  resources of a library; they are parameters here (`Resources`).
 */
module TextPreprocessor {
  import opened Seqs
  import opened StringOps

  /* ---------------------------------------------------------------- digits */

  function NotDigit(c: char): bool
  {
    !IsDigit(c)
  }

  /** `re.sub(r'\d+', '', s)`: every digit deleted, every other character kept in order. */
  function RemoveDigits(s: string): (r: string)
    ensures |r| <= |s|
    ensures forall i :: 0 <= i < |r| ==> !IsDigit(r[i])
  {
    Filter(s, NotDigit)
  }

  /**
    The output of `RemoveDigits` is exactly the non-digit characters of the input in
    their original order: it is a subsequence of the input, it holds no digit, and it
    holds every other character as often as the input does.
   */
  lemma RemoveDigitsSpec(s: string)
    ensures IsSubsequence(RemoveDigits(s), s)
    ensures forall c :: multiset(RemoveDigits(s))[c] == if IsDigit(c) then 0 else multiset(s)[c]
  {
    FilterIsSubsequence(s, NotDigit);
    FilterCounts(s, NotDigit);
  }

  /** A string without digits is returned unchanged. */
  lemma RemoveDigitsUnchanged(s: string)
    requires forall i :: 0 <= i < |s| ==> !IsDigit(s[i])
    ensures RemoveDigits(s) == s
  {
    FilterKeepsAll(s, NotDigit);
  }

  lemma RemoveDigitsIdempotent(s: string)
    ensures RemoveDigits(RemoveDigits(s)) == RemoveDigits(s)
  {
    FilterIdempotent(s, NotDigit);
  }

  /** Digit removal works piece by piece. */
  lemma RemoveDigitsAppend(a: string, b: string)
    ensures RemoveDigits(a + b) == RemoveDigits(a) + RemoveDigits(b)
  {
    FilterAppend(a, b, NotDigit);
  }

  /* ---------------------------------------------------------------- advertisements */

  /** The boilerplate marker, matched literally and case-sensitively. */
  const AdMarker: string := "ADVERTISEMENT"

  /** `marker` occurs in `s` starting at position `i`. */
  predicate MarkerAt(s: string, marker: string, i: int)
  {
    0 <= i && i + |marker| <= |s| && s[i..i + |marker|] == marker
  }

  /**
    `re.sub(marker, '', s)` for a literal pattern: scan from the left; where the
    marker starts, delete it and continue after it; otherwise keep the character
    and move on.
   */
  function RemoveAll(s: string, marker: string): (r: string)
    requires marker != []
    ensures |r| <= |s|
    decreases |s|
  {
    if s == [] then []
    else if marker <= s then RemoveAll(s[|marker|..], marker)
    else [s[0]] + RemoveAll(s[1..], marker)
  }

  /** `re.sub(r'ADVERTISEMENT', '', s)`. */
  function RemoveAds(s: string): string
  {
    RemoveAll(s, AdMarker)
  }

  /** The number of markers the left-to-right scan of `RemoveAll` deletes. */
  function MarkerCount(s: string, marker: string): nat
    requires marker != []
    decreases |s|
  {
    if s == [] then 0
    else if marker <= s then 1 + MarkerCount(s[|marker|..], marker)
    else MarkerCount(s[1..], marker)
  }

  lemma MarkerAtShift(s: string, marker: string, i: int)
    requires s != [] && 0 <= i
    ensures MarkerAt(s[1..], marker, i) <==> MarkerAt(s, marker, i + 1)
  {
    if i + 1 + |marker| <= |s| {
      assert s[1..][i..i + |marker|] == s[i + 1..i + 1 + |marker|];
    }
  }

  /** One differing character rules out a marker occurrence. */
  lemma MismatchMeansNoMarker(s: string, marker: string, i: int, j: int)
    requires 0 <= i && 0 <= j < |marker| && i + j < |s| && s[i + j] != marker[j]
    ensures !MarkerAt(s, marker, i)
  {
  }

  /** Where the marker does not start, the scan keeps the first character. */
  lemma RemoveAllKeepsFirst(s: string, marker: string)
    requires marker != [] && s != [] && !MarkerAt(s, marker, 0)
    ensures RemoveAll(s, marker) == [s[0]] + RemoveAll(s[1..], marker)
  {
  }

  /** A string in which the marker does not occur is returned unchanged. */
  lemma {:induction false} RemoveAllWithoutMarker(s: string, marker: string)
    requires marker != []
    requires forall i :: 0 <= i < |s| ==> !MarkerAt(s, marker, i)
    ensures RemoveAll(s, marker) == s
    decreases |s|
  {
    if s != [] {
      RemoveAllKeepsFirst(s, marker);
      forall i | 0 <= i < |s[1..]| ensures !MarkerAt(s[1..], marker, i) {
        MarkerAtShift(s, marker, i);
      }
      RemoveAllWithoutMarker(s[1..], marker);
    }
  }

  /**
    The leftmost occurrence of the marker is deleted, the text before it is kept,
    and the scan resumes right after it. With `RemoveAllWithoutMarker` this
    determines `RemoveAll` on every input.
   */
  lemma {:induction false} RemoveAllLeftmost(p: string, marker: string, q: string)
    requires marker != []
    requires forall i :: 0 <= i < |p| ==> !MarkerAt(p + marker + q, marker, i)
    ensures RemoveAll(p + marker + q, marker) == p + RemoveAll(q, marker)
    decreases |p|
  {
    var s := p + marker + q;
    if p == [] {
      assert s == marker + q;
      assert s[|marker|..] == q;
    } else {
      var s' := p[1..] + marker + q;
      assert s[1..] == s';
      RemoveAllKeepsFirst(s, marker);
      forall i | 0 <= i < |p[1..]| ensures !MarkerAt(s', marker, i) {
        MarkerAtShift(s, marker, i);
      }
      RemoveAllLeftmost(p[1..], marker, q);
      assert s[0] == p[0];
      assert p == [p[0]] + p[1..];
    }
  }

  /** Each deleted advertisement marker shortens the text by exactly its 13 characters. */
  lemma {:induction false} RemoveAdsLength(s: string)
    ensures |RemoveAds(s)| == |s| - 13 * MarkerCount(s, AdMarker)
    decreases |s|
  {
    if s != [] {
      var t := if AdMarker <= s then s[|AdMarker|..] else s[1..];
      RemoveAdsLength(t);
    }
  }

  /** The scan deletes something exactly when the marker occurs somewhere. */
  lemma {:induction false} MarkerCountZeroIffAbsent(s: string, marker: string)
    requires marker != []
    ensures MarkerCount(s, marker) == 0 <==> forall i :: 0 <= i < |s| ==> !MarkerAt(s, marker, i)
    decreases |s|
  {
    if s != [] && marker <= s {
      assert MarkerAt(s, marker, 0);
    } else if s != [] {
      MarkerCountZeroIffAbsent(s[1..], marker);
      if MarkerCount(s, marker) == 0 {
        forall i | 0 <= i < |s| ensures !MarkerAt(s, marker, i) {
          if i > 0 { MarkerAtShift(s, marker, i - 1); }
        }
      } else {
        var j :| 0 <= j < |s| - 1 && MarkerAt(s[1..], marker, j);
        MarkerAtShift(s, marker, j);
      }
    }
  }

  /** Marker removal only deletes characters: the result is a subsequence of the input. */
  lemma {:induction false} RemoveAllIsSubsequence(s: string, marker: string)
    requires marker != []
    ensures IsSubsequence(RemoveAll(s, marker), s)
    decreases |s|
  {
    if s != [] {
      if marker <= s {
        RemoveAllIsSubsequence(s[|marker|..], marker);
        SubsequenceOfSuffix(RemoveAll(s, marker), s, |marker|);
      } else {
        RemoveAllIsSubsequence(s[1..], marker);
        var r := RemoveAll(s, marker);
        assert r[0] == s[0] && r[1..] == RemoveAll(s[1..], marker);
      }
    }
  }

  /** A character that does not occur in the marker is never deleted. */
  lemma {:induction false} RemoveAllKeepsOtherCharacters(s: string, marker: string, c: char)
    requires marker != [] && c !in marker
    ensures multiset(RemoveAll(s, marker))[c] == multiset(s)[c]
    decreases |s|
  {
    if s != [] {
      var k := if marker <= s then |marker| else 1;
      var head, tail := s[..k], s[k..];
      assert s == head + tail;
      RemoveAllKeepsOtherCharacters(tail, marker, c);
      assert multiset(s) == multiset(head) + multiset(tail);
      if marker <= s {
        assert head == marker;
        assert c !in multiset(head);
      } else {
        assert RemoveAll(s, marker) == head + RemoveAll(tail, marker);
        assert multiset(RemoveAll(s, marker)) == multiset(head) + multiset(RemoveAll(tail, marker));
      }
    }
  }

  /** Ad removal cannot bring digits back. */
  lemma RemoveAdsKeepsNoDigits(s: string)
    requires forall i :: 0 <= i < |s| ==> !IsDigit(s[i])
    ensures forall i :: 0 <= i < |RemoveAds(s)| ==> !IsDigit(RemoveAds(s)[i])
  {
    RemoveAllIsSubsequence(s, AdMarker);
    SubsequenceMembers(RemoveAds(s), s);
  }

  /** The match is case-sensitive: the lower-case word is kept. */
  lemma LowerCaseMarkerKept()
    ensures RemoveAds("advertisement") == "advertisement"
  {
    var s := "advertisement";
    forall i | 0 <= i < |s| ensures !MarkerAt(s, AdMarker, i) {
      if i == 0 { MismatchMeansNoMarker(s, AdMarker, 0, 0); }
    }
    RemoveAllWithoutMarker(s, AdMarker);
  }

  /** The marker on its own is deleted entirely. */
  lemma RemoveAdsMarkerOnly()
    ensures RemoveAds("ADVERTISEMENT") == ""
  {
    RemoveAllLeftmost([], AdMarker, []);
    assert [] + AdMarker + [] == AdMarker;
  }

  /**
    One pass only: deleting an inner marker can join its neighbours into a new
    marker, which stays. A second pass deletes it, so the function is not idempotent.
   */
  lemma RemoveAdsSinglePass()
    ensures RemoveAds("ADVERADVERTISEMENTTISEMENT") == "ADVERTISEMENT"
    ensures RemoveAds(RemoveAds("ADVERADVERTISEMENTTISEMENT")) == ""
  {
    var p, q := AdMarker[..5], AdMarker[5..];
    var s := p + AdMarker + q;
    assert s == "ADVERADVERTISEMENTTISEMENT";
    assert s[5] == 'A';
    forall i | 0 <= i < |p| ensures !MarkerAt(s, AdMarker, i) {
      MismatchMeansNoMarker(s, AdMarker, i, 5 - i);
    }
    RemoveAllLeftmost(p, AdMarker, q);
    RemoveAllWithoutMarker(q, AdMarker);
    assert p + q == AdMarker;
    RemoveAdsMarkerOnly();
  }

  /* ---------------------------------------------------------------- normalisation */

  /**
    A character of `string.punctuation`: the 32 ASCII punctuation characters, that is
    the code points from '!' to '/', from ':' to '@', from '[' to '`' and from '{' to '~'.
   */
  predicate IsPunctuation(c: char)
  {
    ('!' <= c <= '/') || (':' <= c <= '@') || ('[' <= c <= '`') || ('{' <= c <= '~')
  }

  /** Removed from tokens: every punctuation character except the comma. */
  predicate IsRemovedPunctuation(c: char)
  {
    IsPunctuation(c) && c != ','
  }

  function KeptInToken(c: char): bool
  {
    !IsRemovedPunctuation(c)
  }

  /** `word.translate(str.maketrans('', '', string.punctuation.replace(',', '')))`. */
  function StripPunctuation(word: string): (r: string)
    ensures forall i :: 0 <= i < |r| ==> !IsRemovedPunctuation(r[i])
  {
    Filter(word, KeptInToken)
  }

  /**
    Every removed-punctuation character is deleted from a token; commas and all
    other characters survive, in order and as often as they occurred.
   */
  lemma StripPunctuationSpec(word: string)
    ensures IsSubsequence(StripPunctuation(word), word)
    ensures forall c ::
              multiset(StripPunctuation(word))[c] == if IsRemovedPunctuation(c) then 0 else multiset(word)[c]
    ensures multiset(StripPunctuation(word))[','] == multiset(word)[',']
  {
    FilterIsSubsequence(word, KeptInToken);
    FilterCounts(word, KeptInToken);
  }

  /** A comma token survives, a token made only of other punctuation becomes empty. */
  lemma PunctuationTokens()
    ensures StripPunctuation(",") == ","
    ensures StripPunctuation("&") == ""
    ensures StripPunctuation("(2)") == "2"
  {
  }

  /** The natural-language resources: word tokenizer, stop-word set, lemmatizer. */
  datatype Resources = Resources(
    tokenize: string -> seq<string>,
    stopWords: set<string>,
    lemmatize: string -> string)

  function NotStopWord(stopWords: set<string>): string -> bool
  {
    w => w !in stopWords
  }

  /** The tokens of the lower-cased text with punctuation (but not commas) stripped. */
  function StrippedTokens(text: string, res: Resources): seq<string>
  {
    Map(res.tokenize(Lower(text)), StripPunctuation)
  }

  /** The token sequence `preprocess_text` joins. */
  function Tokens(text: string, res: Resources): seq<string>
  {
    Map(Filter(StrippedTokens(text, res), NotStopWord(res.stopWords)), res.lemmatize)
  }

  /** `preprocess_text`: the normalised tokens joined by single spaces. */
  function PreprocessText(text: string, res: Resources): string
  {
    Join(Tokens(text, res), " ")
  }

  /**
    The stop-word filter keeps, in order, exactly the stripped tokens that are not
    stop words (each as often as it occurs), and the lemmatizer maps them one to one.
   */
  lemma TokensSpec(text: string, res: Resources)
    ensures var stripped := StrippedTokens(text, res);
      var kept := Filter(stripped, NotStopWord(res.stopWords));
      && IsSubsequence(kept, stripped)
      && (forall w :: multiset(kept)[w] == if w in res.stopWords then 0 else multiset(stripped)[w])
      && |Tokens(text, res)| == |kept|
      && (forall i :: 0 <= i < |kept| ==>
            kept[i] !in res.stopWords && Tokens(text, res)[i] == res.lemmatize(kept[i]))
  {
    var stripped := StrippedTokens(text, res);
    FilterIsSubsequence(stripped, NotStopWord(res.stopWords));
    FilterCounts(stripped, NotStopWord(res.stopWords));
  }

  /** The tokenizer sees lower-cased text only: the result does not depend on letter case. */
  lemma PreprocessIgnoresCase(text: string, res: Resources)
    ensures PreprocessText(Lower(text), res) == PreprocessText(text, res)
  {
    LowerIdempotent(text);
  }

  /**
    The output is the tokens joined by single spaces: when no token contains a space,
    splitting the output on spaces gives back the tokens.
   */
  lemma PreprocessTextSplits(text: string, res: Resources)
    requires Tokens(text, res) != []
    requires forall i :: 0 <= i < |Tokens(text, res)| ==> ' ' !in Tokens(text, res)[i]
    ensures Split(PreprocessText(text, res), ' ') == Tokens(text, res)
  {
    SplitJoin(Tokens(text, res), ' ');
  }

  /** Between two words without punctuation, an ampersand token is stripped to an empty token. */
  lemma StripAroundAmpersand(a: string, b: string)
    requires forall i :: 0 <= i < |a| ==> !IsRemovedPunctuation(a[i])
    requires forall i :: 0 <= i < |b| ==> !IsRemovedPunctuation(b[i])
    ensures Map([a, "&", b], StripPunctuation) == [a, "", b]
  {
    FilterKeepsAll(a, KeptInToken);
    FilterKeepsAll(b, KeptInToken);
    var m := Map([a, "&", b], StripPunctuation);
    assert m[0] == StripPunctuation(a) == a;
    assert m[1] == StripPunctuation("&") == "";
    assert m[2] == StripPunctuation(b) == b;
  }

  /** A token of punctuation only is kept as an empty token, giving two spaces in a row. */
  lemma PunctuationTokenLeavesDoubleSpace()
    ensures PreprocessText("Salt & Pepper", Resources(_ => ["salt", "&", "pepper"], {}, w => w))
            == "salt  pepper"
  {
    var res := Resources(_ => ["salt", "&", "pepper"], {}, w => w);
    var stripped := ["salt", "", "pepper"];
    assert StrippedTokens("Salt & Pepper", res) == stripped by {
      StripAroundAmpersand("salt", "pepper");
    }
    FilterKeepsAll(stripped, NotStopWord(res.stopWords));
    assert Tokens("Salt & Pepper", res) == stripped by {
      assert Map(stripped, res.lemmatize) == stripped;
    }
  }
}
