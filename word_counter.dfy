/**
 * WordCounter: the words of a text, as a set, as counts and as a queue,
 * and the case-blind order they are listed in.
 *
 * The static methods of the program receive a `Set` or return a fresh
 * `Set`, `Map` or `Queue`; here each becomes a method returning the new
 * collection as a value, proved equal to the definitions in `TextRuns`.
 */
module WordCounter {
  import opened AsciiText
  import opened TextRuns
  import opened StringOrder

  /** StringLT.compare: compares the lower-cased strings. */
  function StringLTCompare(s1: string, s2: string): (r: int)
    ensures r == 0 <==> ToLower(s1) == ToLower(s2)
    ensures r == -StringOrder.CompareIgnoringCase(s2, s1)
  {
    CompareToZero(ToLower(s1), ToLower(s2));
    CompareToAntisymmetric(ToLower(s1), ToLower(s2));
    CompareIgnoringCase(s1, s2)
  }

  /** generateElements: adds every character of `str` to the set; nothing is removed first. */
  method GenerateElements(str: string, charSet: set<char>) returns (result: set<char>)
    ensures result == charSet + Elems(str)
  {
    result := charSet;
    for i := 0 to |str|
      invariant result == charSet + Elems(str[..i])
    {
      assert str[..i + 1] == str[..i] + [str[i]];
      if str[i] !in result {
        result := result + {str[i]};
      }
    }
    assert str[..|str|] == str;
  }

  /** nextWordOrSeparator: the maximal run of one kind that starts at `position`. */
  method NextWordOrSeparator(text: string, position: nat, separators: set<char>) returns (r: string)
    requires position < |text|
    ensures IsMaximalRun(text, position, separators, r)
  {
    r := [];
    var pos := position;
    if text[pos] in separators {
      while pos < |text| && text[pos] in separators
        invariant position <= pos <= |text| && r == text[position..pos]
        invariant forall k :: position <= k < pos ==> text[k] in separators
      {
        r := r + [text[pos]];
        pos := pos + 1;
      }
    } else {
      while pos < |text| && text[pos] !in separators
        invariant position <= pos <= |text| && r == text[position..pos]
        invariant forall k :: position <= k < pos ==> text[k] !in separators
      {
        r := r + [text[pos]];
        pos := pos + 1;
      }
    }
  }

  /** makeWordSet: the set of the words of `text`, its maximal separator-free stretches. */
  method MakeWordSet(text: string, separators: set<char>) returns (wordSet: set<string>)
    ensures wordSet == Elems(Words(text, separators))
    ensures forall w :: w in wordSet <==> IsWordOf(text, separators, w)
  {
    wordSet := {};
    var position := 0;
    while position < |text|
      invariant AtBoundary(text, separators, position)
      invariant wordSet + Elems(WordsFrom(text, position, separators)) == Elems(Words(text, separators))
      decreases |text| - position
    {
      var wordOrSeparator := NextWordOrSeparator(text, position, separators);
      MaximalRunIsUnique(text, position, separators, wordOrSeparator);
      var next := position + |wordOrSeparator|;
      assert wordOrSeparator[0] == text[position];
      if wordOrSeparator[0] !in separators {
        assert Elems(WordsFrom(text, position, separators))
            == {wordOrSeparator} + Elems(WordsFrom(text, next, separators));
      }
      if wordOrSeparator[0] !in separators && wordOrSeparator !in wordSet {
        wordSet := wordSet + {wordOrSeparator};
      }
      position := next;
    }
    forall w
      ensures w in wordSet <==> IsWordOf(text, separators, w)
    {
      WordsCharacterised(text, separators, w);
    }
  }

  /** makeWordMap: each word of `text` mapped to the number of its occurrences. */
  method MakeWordMap(text: string, separators: set<char>) returns (wordMap: map<string, int>)
    ensures wordMap == TallyInto(map[], Words(text, separators))
    ensures wordMap.Keys == Elems(Words(text, separators))
    ensures forall w :: w in wordMap ==> wordMap[w] == multiset(Words(text, separators))[w] >= 1
  {
    wordMap := map[];
    var position := 0;
    while position < |text|
      invariant position <= |text|
      invariant TallyInto(wordMap, WordsFrom(text, position, separators))
             == TallyInto(map[], Words(text, separators))
      decreases |text| - position
    {
      var wordOrSeparator := NextWordOrSeparator(text, position, separators);
      MaximalRunIsUnique(text, position, separators, wordOrSeparator);
      var next := position + |wordOrSeparator|;
      assert wordOrSeparator[0] == text[position];
      if wordOrSeparator[0] !in separators {
        var rest := WordsFrom(text, next, separators);
        assert WordsFrom(text, position, separators) == [wordOrSeparator] + rest;
        assert ([wordOrSeparator] + rest)[1..] == rest;
        if wordOrSeparator !in wordMap {
          wordMap := wordMap[wordOrSeparator := 1];
        } else {
          var count := wordMap[wordOrSeparator];
          wordMap := wordMap[wordOrSeparator := count + 1];
        }
      }
      position := next;
    }
    TallyCounts(Words(text, separators));
  }

  /**
   * makeWordQueue: takes any element out, builds the queue of the rest,
   * then enqueues the element. Every element appears exactly once.
   */
  method MakeWordQueue(wordSet: set<string>) returns (wordQueue: seq<string>)
    ensures Elems(wordQueue) == wordSet && |wordQueue| == |wordSet| && Distinct(wordQueue)
    decreases |wordSet|
  {
    wordQueue := [];
    if |wordSet| > 0 {
      var item :| item in wordSet;
      wordQueue := MakeWordQueue(wordSet - {item});
      wordQueue := wordQueue + [item];
      assert Elems(wordQueue) == (wordSet - {item}) + {item};
    } else {
      assert wordSet == {};
    }
  }
}
