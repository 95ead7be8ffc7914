/** The separator set of the tag cloud (separatorGetter). */
module TagCloudSeparators {

  predicate IsLetter(c: char) {
    'a' <= c <= 'z' || 'A' <= c <= 'Z'
  }

  predicate NoLetters(seps: set<char>) {
    forall c :: c in seps ==> !IsLetter(c)
  }

  /** The separator characters of the tag cloud. */
  const TagSeparators: set<char> :=
    {'.', ',', ' ', ':', '!', '?', '-', ';', '(', ')', '[', ']', '/', '\'', '*', '`', '"', '\\'}

  /** separatorGetter: exactly the eighteen separator characters. */
  method SeparatorGetter() returns (separators: set<char>)
    ensures separators == TagSeparators
  {
    separators := {};
    separators := separators + {'.'};
    separators := separators + {','};
    separators := separators + {' '};
    separators := separators + {':'};
    separators := separators + {'!'};
    separators := separators + {'?'};
    separators := separators + {'-'};
    separators := separators + {';'};
    assert separators == {'.', ',', ' ', ':', '!', '?', '-', ';'};
    separators := separators + {'('};
    separators := separators + {')'};
    separators := separators + {'['};
    separators := separators + {']'};
    separators := separators + {'/'};
    assert separators == {'.', ',', ' ', ':', '!', '?', '-', ';', '(', ')', '[', ']', '/'};
    separators := separators + {'\''};
    separators := separators + {'*'};
    separators := separators + {'`'};
    separators := separators + {'"'};
    separators := separators + {'\\'};
  }

  /** No separator is a letter, so lower-casing never turns a word character into a separator. */
  lemma TagSeparatorsNoLetters()
    ensures NoLetters(TagSeparators)
  {
  }
}

/**
 * TagCloud: lower-cased word counts of a text, the most frequent entries
 * in alphabetical order, and the font size each count is shown in.
 *
 * The text arrives as its sequence of lines. The map, the queues and the
 * frequency bounds that the program updates in place are, respectively, a
 * returned map, returned sequences and the two fields of `TagCloudState`.
 */
module TagCloud {
  import opened AsciiText
  import opened TextRuns
  import opened StringOrder
  import opened TagCloudSeparators

  /** A (word, count) pair, `Map.Entry<String, Integer>`. */
  type Entry = (string, int)

  const IntMax := 0x7FFF_FFFF
  const IntMin := -0x8000_0000

  /** Lower-casing keeps a character's kind when no letter is a separator. */
  lemma LowerKeepsKind(c: char, seps: set<char>)
    requires NoLetters(seps)
    ensures LowerChar(c) in seps <==> c in seps
  {
    if 'A' <= c <= 'Z' {
      assert IsLetter(c) && IsLetter(LowerChar(c));
    }
  }

  /** nextWordOrSeparator: the maximal run at `position`, lower-cased. */
  method NextWordOrSeparator(definition: string, position: nat, separators: set<char>) returns (r: string)
    requires position < |definition|
    ensures r != [] && position + |r| <= |definition|
    ensures IsMaximalRun(definition, position, separators, definition[position..position + |r|])
    ensures r == ToLower(definition[position..position + |r|])
  {
    var word := [];
    var character := definition[position];
    var i := position;
    if character in separators {
      while i < |definition| && definition[i] in separators
        invariant position <= i <= |definition| && word == definition[position..i]
        invariant forall k :: position <= k < i ==> definition[k] in separators
      {
        character := definition[i];
        word := word + [character];
        i := i + 1;
      }
      ScannedRun(definition, position, separators, i);
    } else {
      while i < |definition| && definition[i] !in separators
        invariant position <= i <= |definition| && word == definition[position..i]
        invariant forall k :: position <= k < i ==> definition[k] !in separators
      {
        character := definition[i];
        word := word + [character];
        i := i + 1;
      }
      ScannedRun(definition, position, separators, i);
    }
    r := ToLower(word);
    assert position + |r| == i;
  }

  function LowerAll(ws: seq<string>): (r: seq<string>)
    ensures |r| == |ws| && forall i :: 0 <= i < |ws| ==> r[i] == ToLower(ws[i])
  {
    if ws == [] then [] else [ToLower(ws[0])] + LowerAll(ws[1..])
  }

  /** The lower-cased words of all lines, in reading order. */
  function AllWords(lines: seq<string>, seps: set<char>): seq<string> {
    if lines == [] then [] else LowerAll(Words(lines[0], seps)) + AllWords(lines[1..], seps)
  }

  /** One run of a line: a word adds its lower-cased form in front, a separator string adds nothing. */
  lemma LineStep(line: string, i: nat, seps: set<char>)
    requires i < |line|
    ensures var e := RunEnd(line, i, seps);
      var after := LowerAll(WordsFrom(line, e, seps));
      LowerAll(WordsFrom(line, i, seps)) == if line[i] in seps then after else [ToLower(line[i..e])] + after
  {
    var e := RunEnd(line, i, seps);
    if line[i] !in seps {
      var ws := [line[i..e]] + WordsFrom(line, e, seps);
      assert ws[1..] == WordsFrom(line, e, seps);
    }
  }

  /** Counting and listing one more word. */
  lemma GatherStep(m: map<string, int>, acc: seq<string>, w: string, ws: seq<string>)
    ensures TallyInto(m, [w] + ws) == TallyInto(Bump(m, w), ws)
    ensures FirstSeen(acc, [w] + ws) == FirstSeen(if w in acc then acc else acc + [w], ws)
  {
    assert ([w] + ws)[1..] == ws;
  }

  /**
   * The run `word` at `i`, as nextWordOrSeparator returns it: counting and
   * listing a word, or skipping a separator string, leaves the same
   * result to be gathered from the rest of the line.
   */
  lemma RunStep(line: string, i: nat, next: nat, seps: set<char>, word: string,
                m: map<string, int>, acc: seq<string>, m': map<string, int>, acc': seq<string>)
    requires NoLetters(seps) && i < |line| && next == i + |word| <= |line| && word != []
    requires IsMaximalRun(line, i, seps, line[i..i + |word|]) && word == ToLower(line[i..i + |word|])
    requires word[0] in seps ==> word !in m
    requires word in acc <==> word in m
    requires m' == if word !in m && word[0] !in seps then m[word := 1]
                   else if word in m then m[word := m[word] + 1] else m
    requires acc' == if word !in m && word[0] !in seps then acc + [word] else acc
    ensures TallyInto(m, LowerAll(WordsFrom(line, i, seps))) == TallyInto(m', LowerAll(WordsFrom(line, next, seps)))
    ensures FirstSeen(acc, LowerAll(WordsFrom(line, i, seps))) == FirstSeen(acc', LowerAll(WordsFrom(line, next, seps)))
  {
    LowerKeepsKind(line[i], seps);
    assert word[0] == LowerChar(line[i..i + |word|][0]);
    MaximalRunIsUnique(line, i, seps, line[i..i + |word|]);
    var e := RunEnd(line, i, seps);
    assert |line[i..i + |word|]| == |line[i..e]|;
    assert next == e;
    if line[i] !in seps {
      assert m' == Bump(m, word);
      assert acc' == if word in acc then acc else acc + [word];
      WordRunStep(line, i, e, seps, word, m, acc);
    } else {
      SeparatorRunStep(line, i, e, seps);
    }
  }

  /** A word run at `i`, ending at `e`: it is counted and listed in front of the rest of the line. */
  lemma WordRunStep(line: string, i: nat, e: nat, seps: set<char>, word: string, m: map<string, int>, acc: seq<string>)
    requires i < |line| && line[i] !in seps && e == RunEnd(line, i, seps) && word == ToLower(line[i..e])
    ensures TallyInto(m, LowerAll(WordsFrom(line, i, seps))) == TallyInto(Bump(m, word), LowerAll(WordsFrom(line, e, seps)))
    ensures FirstSeen(acc, LowerAll(WordsFrom(line, i, seps)))
         == FirstSeen(if word in acc then acc else acc + [word], LowerAll(WordsFrom(line, e, seps)))
  {
    LineStep(line, i, seps);
    GatherStep(m, acc, word, LowerAll(WordsFrom(line, e, seps)));
  }

  /** A separator run at `i`, ending at `e`, contributes no word. */
  lemma SeparatorRunStep(line: string, i: nat, e: nat, seps: set<char>)
    requires i < |line| && line[i] in seps && e == RunEnd(line, i, seps)
    ensures LowerAll(WordsFrom(line, i, seps)) == LowerAll(WordsFrom(line, e, seps))
  {
    LineStep(line, i, seps);
  }

  /** Gathering two stretches of words one after the other is gathering their concatenation. */
  lemma {:induction false} GatherAppend(m: map<string, int>, acc: seq<string>, a: seq<string>, b: seq<string>)
    ensures TallyInto(m, a + b) == TallyInto(TallyInto(m, a), b)
    ensures FirstSeen(acc, a + b) == FirstSeen(FirstSeen(acc, a), b)
    decreases |a|
  {
    if a != [] {
      assert (a + b)[0] == a[0] && (a + b)[1..] == a[1..] + b;
      GatherAppend(Bump(m, a[0]), if a[0] in acc then acc else acc + [a[0]], a[1..], b);
    } else {
      assert a + b == b;
    }
  }

  lemma AllWordsFrom(lines: seq<string>, k: nat, seps: set<char>)
    requires k < |lines|
    ensures AllWords(lines[k..], seps) == LowerAll(WordsFrom(lines[k], 0, seps)) + AllWords(lines[k + 1..], seps)
  {
    assert lines[k..][1..] == lines[k + 1..];
  }

  /** What the counting loop keeps: the listed words are the counted ones, and none starts with a separator. */
  ghost predicate Consistent(wordsAndCounts: map<string, int>, words: seq<string>, separators: set<char>) {
    && (forall w :: w in words <==> w in wordsAndCounts)
    && (forall w :: w in wordsAndCounts ==> w != [] && w[0] !in separators)
  }

  /**
   * One pass of the inner counting loop: reads the run at `i`; the first
   * occurrence of a word enters the map with count 1 and is appended to
   * `words`, a later one raises its count, a separator string is skipped.
   */
  method CountRun(line: string, i: nat, separators: set<char>, counts: map<string, int>, listed: seq<string>)
    returns (next: nat, wordsAndCounts: map<string, int>, words: seq<string>)
    requires NoLetters(separators) && i < |line| && Consistent(counts, listed, separators)
    ensures i < next <= |line| && Consistent(wordsAndCounts, words, separators)
    ensures TallyInto(counts, LowerAll(WordsFrom(line, i, separators)))
         == TallyInto(wordsAndCounts, LowerAll(WordsFrom(line, next, separators)))
    ensures FirstSeen(listed, LowerAll(WordsFrom(line, i, separators)))
         == FirstSeen(words, LowerAll(WordsFrom(line, next, separators)))
  {
    var word := NextWordOrSeparator(line, i, separators);
    var startValue := word[0];
    wordsAndCounts, words := counts, listed;
    if word !in wordsAndCounts && startValue !in separators {
      wordsAndCounts := wordsAndCounts[word := 1];
      words := words + [word];
    } else if word in wordsAndCounts {
      var value := wordsAndCounts[word];
      wordsAndCounts := wordsAndCounts[word := value + 1];
    }
    next := i + |word|;
    RunStep(line, i, next, separators, word, counts, listed, wordsAndCounts, words);
  }

  /** The inner loop of the counting loop, over the runs of one line. */
  method CountLine(line: string, separators: set<char>, counts: map<string, int>, listed: seq<string>)
    returns (wordsAndCounts: map<string, int>, words: seq<string>)
    requires NoLetters(separators) && Consistent(counts, listed, separators)
    ensures wordsAndCounts == TallyInto(counts, LowerAll(Words(line, separators)))
    ensures words == FirstSeen(listed, LowerAll(Words(line, separators)))
    ensures Consistent(wordsAndCounts, words, separators)
  {
    wordsAndCounts, words := counts, listed;
    var i := 0;
    while i < |line|
      invariant i <= |line| && Consistent(wordsAndCounts, words, separators)
      invariant TallyInto(wordsAndCounts, LowerAll(WordsFrom(line, i, separators)))
             == TallyInto(counts, LowerAll(Words(line, separators)))
      invariant FirstSeen(words, LowerAll(WordsFrom(line, i, separators)))
             == FirstSeen(listed, LowerAll(Words(line, separators)))
      decreases |line| - i
    {
      i, wordsAndCounts, words := CountRun(line, i, separators, wordsAndCounts, words);
    }
  }

  /** The counting loop of wordsAndCountsGetter, over the lines of the text. */
  method WordsAndCountsGetter(lines: seq<string>, separators: set<char>)
    returns (wordsAndCounts: map<string, int>, words: seq<string>)
    requires NoLetters(separators)
    ensures wordsAndCounts == TallyInto(map[], AllWords(lines, separators))
    ensures words == FirstSeen([], AllWords(lines, separators))
  {
    wordsAndCounts := map[];
    words := [];
    ghost var all := AllWords(lines, separators);
    for k := 0 to |lines|
      invariant TallyInto(wordsAndCounts, AllWords(lines[k..], separators)) == TallyInto(map[], all)
      invariant FirstSeen(words, AllWords(lines[k..], separators)) == FirstSeen([], all)
      invariant Consistent(wordsAndCounts, words, separators)
    {
      AllWordsFrom(lines, k, separators);
      GatherAppend(wordsAndCounts, words, LowerAll(Words(lines[k], separators)), AllWords(lines[k + 1..], separators));
      wordsAndCounts, words := CountLine(lines[k], separators, wordsAndCounts, words);
    }
  }

  /** Every counted word is non-empty and holds no separator. */
  lemma {:induction false} AllWordsSeparatorFree(lines: seq<string>, seps: set<char>)
    requires NoLetters(seps)
    ensures forall w :: w in AllWords(lines, seps) ==> w != [] && SeparatorFree(w, seps)
  {
    if lines != [] {
      AllWordsSeparatorFree(lines[1..], seps);
      var ws := Words(lines[0], seps);
      WordsAreSeparatorFree(lines[0], seps, 0);
      forall w | w in LowerAll(ws)
        ensures w != [] && SeparatorFree(w, seps)
      {
        var n :| 0 <= n < |ws| && LowerAll(ws)[n] == w;
        assert ws[n] in ws && w == ToLower(ws[n]);
        forall k | 0 <= k < |w|
          ensures w[k] !in seps
        {
          assert w[k] == LowerChar(ws[n][k]);
          LowerKeepsKind(ws[n][k], seps);
        }
      }
    }
  }

  /** The words of a list of entries. */
  function KeysOf(es: seq<Entry>): set<string> {
    if es == [] then {} else KeysOf(es[..|es| - 1]) + {es[|es| - 1].0}
  }

  /** The scan of descendingSort: an entry of the largest count, found in the map's own order. */
  method MaxEntry(remaining: map<string, int>) returns (maxKey: string, maxValue: int)
    requires |remaining| > 0 && forall w :: w in remaining ==> remaining[w] >= 0
    ensures maxKey in remaining && remaining[maxKey] == maxValue
    ensures forall w :: w in remaining ==> remaining[w] <= maxValue
  {
    maxKey := "";
    maxValue := -1;
    var unvisited := remaining.Keys;
    while unvisited != {}
      invariant unvisited <= remaining.Keys
      invariant maxValue >= 0 ==> maxKey in remaining && remaining[maxKey] == maxValue
      invariant unvisited != remaining.Keys ==> maxValue >= 0
      invariant forall w :: w in remaining && w !in unvisited ==> remaining[w] <= maxValue
      decreases unvisited
    {
      var e :| e in unvisited;
      if remaining[e] > maxValue {
        maxKey := e;
        maxValue := remaining[e];
      }
      unvisited := unvisited - {e};
    }
  }

  /**
   * descendingSort: repeatedly scans the remaining map in its own
   * (unspecified) order for an entry of the largest count, appends it and
   * removes it. The result lists every entry of the map once, counts
   * non-increasing.
   */
  method DescendingSort(wordsAndCounts: map<string, int>) returns (tagCloudElements: seq<Entry>)
    requires forall w :: w in wordsAndCounts ==> wordsAndCounts[w] >= 0
    ensures KeysOf(tagCloudElements) == wordsAndCounts.Keys
    ensures forall i :: 0 <= i < |tagCloudElements| ==>
              tagCloudElements[i].0 in wordsAndCounts && wordsAndCounts[tagCloudElements[i].0] == tagCloudElements[i].1
    ensures forall i, j :: 0 <= i < j < |tagCloudElements| ==>
              tagCloudElements[i].0 != tagCloudElements[j].0 && tagCloudElements[i].1 >= tagCloudElements[j].1
  {
    tagCloudElements := [];
    var remaining := wordsAndCounts;
    while |remaining| > 0
      invariant Descending(wordsAndCounts, tagCloudElements, remaining)
      decreases |remaining|
    {
      var maxKey, maxValue := MaxEntry(remaining);
      DescendingStep(wordsAndCounts, tagCloudElements, remaining, maxKey, maxValue);
      tagCloudElements := tagCloudElements + [(maxKey, maxValue)];
      remaining := remaining - {maxKey};
    }
    assert remaining.Keys == {};
  }

  /**
   * The loop invariant of descendingSort: `listed` holds entries of the map,
   * each once, counts non-increasing and none below a count still
   * `remaining`, and the two together hold every word of the map.
   */
  ghost predicate Descending(src: map<string, int>, listed: seq<Entry>, remaining: map<string, int>) {
    && remaining.Keys <= src.Keys
    && (forall w :: w in remaining ==> remaining[w] == src[w])
    && KeysOf(listed) + remaining.Keys == src.Keys
    && (forall i :: 0 <= i < |listed| ==>
          listed[i].0 in src && listed[i].0 !in remaining && src[listed[i].0] == listed[i].1)
    && (forall i, j :: 0 <= i < j < |listed| ==> listed[i].0 != listed[j].0 && listed[i].1 >= listed[j].1)
    && (forall i, w :: 0 <= i < |listed| && w in remaining ==> listed[i].1 >= remaining[w])
  }

  /** Moving an entry of the largest remaining count to the end of the list keeps the invariant. */
  lemma DescendingStep(src: map<string, int>, listed: seq<Entry>, remaining: map<string, int>,
                       maxKey: string, maxValue: int)
    requires Descending(src, listed, remaining)
    requires maxKey in remaining && remaining[maxKey] == maxValue
    requires forall w :: w in remaining ==> remaining[w] <= maxValue
    ensures Descending(src, listed + [(maxKey, maxValue)], remaining - {maxKey})
  {
    var listed' := listed + [(maxKey, maxValue)];
    assert listed'[..|listed|] == listed;
    assert KeysOf(listed') == KeysOf(listed) + {maxKey};
  }

  const Sentinel: Entry := ("ZZZ", -1)

  /** The scan of alphabeticalSort as written: keep the entry whose lower-cased key is smallest so far. */
  function SelectAsWritten(best: Entry, copy: seq<Entry>): (r: Entry)
    ensures r == best || r in copy
    ensures CompareIgnoringCase(r.0, best.0) <= 0
    ensures forall i :: 0 <= i < |copy| ==> CompareIgnoringCase(r.0, copy[i].0) <= 0
    decreases |copy|
  {
    if copy == [] then best
    else
      var next := if CompareIgnoringCase(copy[0].0, best.0) < 0 then copy[0] else best;
      var r := SelectAsWritten(next, copy[1..]);
      SelectStepLeast(best, copy, next, r);
      r
  }

  /** The entry kept by one step of the scan is at most the entry it looked at. */
  lemma SelectStepLeast(best: Entry, copy: seq<Entry>, next: Entry, r: Entry)
    requires copy != []
    requires next == if CompareIgnoringCase(copy[0].0, best.0) < 0 then copy[0] else best
    requires r == next || r in copy[1..]
    requires forall i :: 0 <= i < |copy[1..]| ==> CompareIgnoringCase(r.0, copy[1..][i].0) <= 0
    requires CompareIgnoringCase(r.0, next.0) <= 0
    ensures r == best || r in copy
    ensures CompareIgnoringCase(r.0, best.0) <= 0
    ensures forall i :: 0 <= i < |copy| ==> CompareIgnoringCase(r.0, copy[i].0) <= 0
  {
    if CompareIgnoringCase(copy[0].0, best.0) >= 0 {
      CompareToAntisymmetric(ToLower(copy[0].0), ToLower(best.0));
      AtMostTransitive(r.0, best.0, copy[0].0);
    } else {
      AtMostTransitive(r.0, copy[0].0, best.0);
    }
    forall i | 0 < i < |copy|
      ensures CompareIgnoringCase(r.0, copy[i].0) <= 0
    {
      assert copy[i] == copy[1..][i - 1];
    }
  }

  /** `LinkedList.remove(Object)`: drops the first equal element, if there is one. */
  function RemoveFirst(s: seq<Entry>, e: Entry): (r: seq<Entry>)
    ensures e !in s ==> r == s
    ensures e in s ==> r == s[..FirstIndex(s, e)] + s[FirstIndex(s, e) + 1..]
    ensures multiset(r) == multiset(s) - multiset{e}
  {
    if s == [] then []
    else if s[0] == e then
      assert s == [s[0]] + s[1..];
      assert s[..FirstIndex(s, e)] + s[1..] == s[1..];
      s[1..]
    else
      var r' := RemoveFirst(s[1..], e);
      RemoveFirstKeepsHead(s, e, r');
      if e in s then
        RemoveFirstLater(s, e, r');
        [s[0]] + r'
      else
        [s[0]] + r'
  }

  /** Removing `e` behind a different head removes it from the whole. */
  lemma RemoveFirstKeepsHead(s: seq<Entry>, e: Entry, r': seq<Entry>)
    requires s != [] && s[0] != e
    requires multiset(r') == multiset(s[1..]) - multiset{e}
    requires e !in s[1..] ==> r' == s[1..]
    ensures multiset([s[0]] + r') == multiset(s) - multiset{e}
    ensures e !in s ==> [s[0]] + r' == s
  {
    assert s == [s[0]] + s[1..];
  }

  /** Removing a later first occurrence keeps the head in front. */
  lemma RemoveFirstLater(s: seq<Entry>, e: Entry, r': seq<Entry>)
    requires e in s && s[0] != e
    requires r' == s[1..][..FirstIndex(s[1..], e)] + s[1..][FirstIndex(s[1..], e) + 1..]
    ensures [s[0]] + r' == s[..FirstIndex(s, e)] + s[FirstIndex(s, e) + 1..]
  {
    var j := FirstIndex(s[1..], e);
    assert s[..j + 1] == [s[0]] + s[1..][..j];
    assert s[j + 2..] == s[1..][j + 1..];
  }

  /** One pass of the outer loop of alphabeticalSort as written: (copy, output) after the pass. */
  function AlphabeticalStepAsWritten(copy: seq<Entry>, output: seq<Entry>): (r: (seq<Entry>, seq<Entry>))
    ensures |r.1| == |output| + 1 && r.1[..|output|] == output
    ensures r.1[|output|] == Sentinel || r.1[|output|] in copy
    ensures |r.0| < |copy| <==> r.1[|output|] in copy
    ensures multiset(r.0) == multiset(copy) - multiset{r.1[|output|]}
  {
    var first := SelectAsWritten(Sentinel, copy);
    (RemoveFirst(copy, first), output + [first])
  }

  lemma {:induction false} SelectKeepsSentinel(copy: seq<Entry>)
    requires forall i :: 0 <= i < |copy| ==> CompareIgnoringCase(copy[i].0, Sentinel.0) >= 0
    ensures SelectAsWritten(Sentinel, copy) == Sentinel
    decreases |copy|
  {
    if copy != [] {
      SelectKeepsSentinel(copy[1..]);
    }
  }

  /**
   * When no kept key comes before "zzz" once lower-cased, a pass of the
   * written loop selects the sentinel, removes nothing and appends the
   * sentinel: the copy never shrinks and the loop does not end.
   */
  lemma AlphabeticalSortStalls(copy: seq<Entry>, output: seq<Entry>)
    requires forall i :: 0 <= i < |copy| ==> CompareIgnoringCase(copy[i].0, Sentinel.0) >= 0 && copy[i].1 >= 0
    ensures AlphabeticalStepAsWritten(copy, output) == (copy, output + [Sentinel])
  {
    SelectKeepsSentinel(copy);
    assert Sentinel !in copy;
  }

  /** The word "zzz" alone already stalls the written loop. */
  lemma ZzzStalls()
    ensures AlphabeticalStepAsWritten([("zzz", 2)], []) == ([("zzz", 2)], [Sentinel])
  {
    assert CompareIgnoringCase("zzz", "ZZZ") == 0;
    AlphabeticalSortStalls([("zzz", 2)], []);
    assert [] + [Sentinel] == [Sentinel];
  }

  /**
   * When every kept key comes before "zzz" once lower-cased, the written
   * scan picks the same entry as the corrected one: the first entry whose
   * lower-cased key is smallest.
   */
  lemma SelectAsWrittenFindsFirstLeast(copy: seq<Entry>)
    requires copy != []
    requires forall i :: 0 <= i < |copy| ==> CompareIgnoringCase(copy[i].0, Sentinel.0) < 0
    ensures exists b :: FirstLeast(copy, b) && SelectAsWritten(Sentinel, copy) == copy[b]
    ensures forall b :: FirstLeast(copy, b) ==> SelectAsWritten(Sentinel, copy) == copy[b]
  {
    SelectPassesSentinel(copy);
    SelectFindsFirstLeast(copy, 1, 0);
    var b' :| FirstLeast(copy, b') && SelectAsWritten(Sentinel, copy) == copy[b'];
    forall b | FirstLeast(copy, b)
      ensures SelectAsWritten(Sentinel, copy) == copy[b]
    {
      FirstLeastUnique(copy, b, b');
    }
  }

  /** An entry before the sentinel replaces it at once, and alone is its own first least entry. */
  lemma SelectPassesSentinel(copy: seq<Entry>)
    requires copy != [] && CompareIgnoringCase(copy[0].0, Sentinel.0) < 0
    ensures SelectAsWritten(Sentinel, copy) == SelectAsWritten(copy[0], copy[1..])
    ensures FirstLeast(copy[..1], 0)
  {
    assert copy[..1][0] == copy[0];
  }

  /** `b` is the first index of `s` whose lower-cased key is smallest. */
  ghost predicate FirstLeast(s: seq<Entry>, b: int) {
    && 0 <= b < |s|
    && (forall m :: 0 <= m < |s| ==> CompareIgnoringCase(s[b].0, s[m].0) <= 0)
    && (forall m :: 0 <= m < b ==> CompareIgnoringCase(s[m].0, s[b].0) > 0)
  }

  lemma FirstLeastUnique(s: seq<Entry>, b: int, b': int)
    requires FirstLeast(s, b) && FirstLeast(s, b')
    ensures b == b'
  {
    var before, after := CompareIgnoringCase(s[b].0, s[b'].0), CompareIgnoringCase(s[b'].0, s[b].0);
  }

  /**
   * The written scan, having read the first `n` entries of `s` and holding
   * their first least entry, ends on the first least entry of all of `s`.
   */
  lemma {:induction false} SelectFindsFirstLeast(s: seq<Entry>, n: nat, b: int)
    requires n <= |s| && FirstLeast(s[..n], b)
    ensures exists b' :: FirstLeast(s, b') && SelectAsWritten(s[b], s[n..]) == s[b']
    decreases |s| - n
  {
    if n == |s| {
      assert s[..n] == s;
      assert SelectAsWritten(s[b], s[n..]) == s[b];
    } else {
      var b1 := if CompareIgnoringCase(s[n].0, s[b].0) < 0 then n else b;
      FirstLeastStep(s[..n], b, s[n]);
      assert s[..n] + [s[n]] == s[..n + 1];
      assert s[n..][1..] == s[n + 1..];
      assert SelectAsWritten(s[b], s[n..]) == SelectAsWritten(s[b1], s[n + 1..]);
      SelectFindsFirstLeast(s, n + 1, b1);
    }
  }

  /** One step of the scan keeps the first least entry of what it has read. */
  lemma FirstLeastStep(pre: seq<Entry>, b: int, c: Entry)
    requires FirstLeast(pre, b)
    ensures FirstLeast(pre + [c], if CompareIgnoringCase(c.0, pre[b].0) < 0 then |pre| else b)
  {
    var s := pre + [c];
    if CompareIgnoringCase(c.0, pre[b].0) < 0 {
      forall m | 0 <= m < |pre|
        ensures CompareIgnoringCase(c.0, s[m].0) < 0 && CompareIgnoringCase(s[m].0, c.0) > 0
      {
        BeforeTransitive(c.0, pre[b].0, pre[m].0);
      }
    } else {
      forall m | 0 <= m < |s|
        ensures CompareIgnoringCase(s[b].0, s[m].0) <= 0
      {
        if m == |pre| {
          assert CompareIgnoringCase(pre[b].0, c.0) <= 0;
        }
      }
    }
  }

  /**
   * The scan of alphabeticalSort, started from the first remaining entry:
   * the index of the first entry whose lower-cased key is smallest.
   */
  method FirstAlphabetically(copy: seq<Entry>) returns (best: nat)
    requires |copy| > 0
    ensures FirstLeast(copy, best)
  {
    best := 0;
    CompareToZero(ToLower(copy[0].0), ToLower(copy[0].0));
    for j := 1 to |copy|
      invariant best < j
      invariant forall m :: 0 <= m < j ==> CompareIgnoringCase(copy[best].0, copy[m].0) <= 0
      invariant forall m :: 0 <= m < best ==> CompareIgnoringCase(copy[m].0, copy[best].0) > 0
    {
      CompareToAntisymmetric(ToLower(copy[j].0), ToLower(copy[best].0));
      if CompareIgnoringCase(copy[j].0, copy[best].0) < 0 {
        forall m | 0 <= m < j
          ensures CompareIgnoringCase(copy[j].0, copy[m].0) <= 0
        {
          AtMostTransitive(copy[j].0, copy[best].0, copy[m].0);
        }
        forall m | 0 <= m < j
          ensures CompareIgnoringCase(copy[m].0, copy[j].0) > 0
        {
          BeforeTransitive(copy[j].0, copy[best].0, copy[m].0);
          CompareToAntisymmetric(ToLower(copy[m].0), ToLower(copy[j].0));
        }
        CompareToZero(ToLower(copy[j].0), ToLower(copy[j].0));
        best := j;
      }
    }
  }

  /**
   * After counting the entries `es`, the bounds `lo` and `hi` have moved
   * only outward from `lo0` and `hi0`, cover every count of `es`, and each
   * bound that moved is a count of `es`.
   */
  ghost predicate Widened(es: seq<Entry>, lo: int, hi: int, lo0: int, hi0: int) {
    && lo <= lo0 && hi >= hi0
    && (forall e :: e in es ==> lo <= e.1 <= hi)
    && (lo == lo0 || exists e :: e in es && e.1 == lo)
    && (hi == hi0 || exists e :: e in es && e.1 == hi)
  }

  /** Taking one more entry into the bounds, as alphabeticalSort does for each selected entry. */
  lemma WidenedStep(es: seq<Entry>, e: Entry, lo: int, hi: int, lo': int, hi': int, lo0: int, hi0: int)
    requires Widened(es, lo, hi, lo0, hi0)
    requires lo' == (if e.1 < lo then e.1 else lo) && hi' == (if e.1 > hi then e.1 else hi)
    ensures Widened(es + [e], lo', hi', lo0, hi0)
  {
    if lo' != lo0 {
      if lo' == lo {
        var x :| x in es && x.1 == lo;
        assert x in es + [e];
      } else {
        assert e in es + [e];
      }
    }
    if hi' != hi0 {
      if hi' == hi {
        var x :| x in es && x.1 == hi;
        assert x in es + [e];
      } else {
        assert e in es + [e];
      }
    }
  }

  predicate SortedByKey(es: seq<Entry>) {
    forall i, j :: 0 <= i < j < |es| ==> CompareIgnoringCase(es[i].0, es[j].0) <= 0
  }

  /** Every entry of `sorted` comes, in the case-blind order, no later than every entry of `copy`. */
  predicate AllBefore(sorted: seq<Entry>, copy: seq<Entry>) {
    forall a, b :: 0 <= a < |sorted| && 0 <= b < |copy| ==> CompareIgnoringCase(sorted[a].0, copy[b].0) <= 0
  }

  /**
   * One pass of alphabeticalSort: moving a smallest entry of `copy` to the
   * end of `sorted` keeps `sorted` in order, before the rest, and loses
   * no entry.
   */
  lemma SelectStep(sorted: seq<Entry>, copy: seq<Entry>, best: nat)
    requires SortedByKey(sorted) && AllBefore(sorted, copy) && best < |copy|
    requires forall m :: 0 <= m < |copy| ==> CompareIgnoringCase(copy[best].0, copy[m].0) <= 0
    ensures SortedByKey(sorted + [copy[best]])
    ensures AllBefore(sorted + [copy[best]], copy[..best] + copy[best + 1..])
    ensures multiset(sorted + [copy[best]]) + multiset(copy[..best] + copy[best + 1..])
         == multiset(sorted) + multiset(copy)
  {
    var first, rest := copy[best], copy[..best] + copy[best + 1..];
    forall a, b | 0 <= a < b < |sorted| + 1
      ensures CompareIgnoringCase((sorted + [first])[a].0, (sorted + [first])[b].0) <= 0
    {
      if b == |sorted| {
        assert (sorted + [first])[b] == first;
      }
    }
    forall a, b | 0 <= a < |sorted| + 1 && 0 <= b < |rest|
      ensures CompareIgnoringCase((sorted + [first])[a].0, rest[b].0) <= 0
    {
      var c := if b < best then b else b + 1;
      assert rest[b] == copy[c];
    }
    assert copy == copy[..best] + [first] + copy[best + 1..];
  }

  /** The static fields of the program and the operations that use them. */
  class TagCloudState {
    var minFrequency: int
    var maxFrequency: int

    constructor ()
      ensures minFrequency == IntMax && maxFrequency == IntMin
    {
      minFrequency := IntMax;
      maxFrequency := IntMin;
    }

    /**
     * alphabeticalSort, with the selection of each pass starting from the
     * first remaining entry: keeps the first `size` entries, in ascending
     * order of their lower-cased keys, and widens the frequency bounds to
     * cover their counts.
     */
    method AlphabeticalSort(tagCloudElements: seq<Entry>, size: int) returns (sorted: seq<Entry>)
      requires size <= |tagCloudElements|
      modifies this
      ensures multiset(sorted) == multiset(tagCloudElements[..if size < 0 then 0 else size])
      ensures SortedByKey(sorted)
      ensures Widened(sorted, minFrequency, maxFrequency, old(minFrequency), old(maxFrequency))
    {
      var copy: seq<Entry> := [];
      var i := 0;
      while i < size
        invariant 0 <= i && (i <= size || i == 0) && i <= |tagCloudElements|
        invariant copy == tagCloudElements[..i]
      {
        copy := copy + [tagCloudElements[i]];
        i := i + 1;
      }
      ghost var kept := copy;
      assert kept == tagCloudElements[..if size < 0 then 0 else size];
      sorted := [];
      while |copy| > 0
        invariant multiset(sorted) + multiset(copy) == multiset(kept)
        invariant SortedByKey(sorted)
        invariant AllBefore(sorted, copy)
        invariant Widened(sorted, minFrequency, maxFrequency, old(minFrequency), old(maxFrequency))
        decreases |copy|
      {
        var best := FirstAlphabetically(copy);
        var first := copy[best];
        ghost var sorted0, lo0, hi0 := sorted, minFrequency, maxFrequency;
        if first.1 > maxFrequency {
          maxFrequency := first.1;
        }
        if first.1 < minFrequency {
          minFrequency := first.1;
        }
        WidenedStep(sorted0, first, lo0, hi0, minFrequency, maxFrequency, old(minFrequency), old(maxFrequency));
        SelectStep(sorted, copy, best);
        sorted := sorted + [first];
        copy := copy[..best] + copy[best + 1..];
      }
    }

    /**
     * fontSize: the count's distance from the lowest frequency, in steps of
     * a 37th of the frequency range (at least 1), above the smallest font,
     * clamped to the fonts 11 to 48.
     */
    function FontSize(frequency: int): (size: int)
      reads this
      requires 0 <= minFrequency <= maxFrequency <= IntMax && 0 <= frequency <= IntMax
      ensures 11 <= size <= 48
      ensures frequency == minFrequency ==> size == 11
    {
      var step := (maxFrequency - minFrequency) / (48 - 11);
      var divisor := if step == 0 then step + 1 else step;
      var size := WrapInt(JavaDiv(frequency - minFrequency, divisor) + 11);
      if size < 11 then 11 else if size > 48 then 48 else size
    }

    /** Up to the highest frequency, a higher count never gets a smaller font. */
    lemma FontSizeMonotone(f1: int, f2: int)
      requires 0 <= minFrequency <= maxFrequency <= IntMax && 0 <= f1 <= f2 <= maxFrequency
      ensures FontSize(f1) <= FontSize(f2)
    {
      var range := maxFrequency - minFrequency;
      var step := range / (48 - 11);
      var divisor := if step == 0 then step + 1 else step;
      SumFits(f1 - minFrequency, range, divisor);
      SumFits(f2 - minFrequency, range, divisor);
      JavaDivMonotone(f1 - minFrequency, f2 - minFrequency, divisor);
    }

    /**
     * Above the highest frequency the `int` sum can wrap: with both bounds
     * at 1, a count of 2147483637 gets font 48 but 2147483647 gets 11.
     */
    lemma FontSizeWrapsAtTop()
      requires minFrequency == 1 && maxFrequency == 1
      ensures FontSize(IntMax - 10) == 48
      ensures FontSize(IntMax) == 11
    {
      assert JavaDiv(IntMax - 11, 1) + 11 == IntMax;
      assert JavaDiv(IntMax - 1, 1) + 11 == IntMax + 10;
      assert WrapInt(IntMax + 10) == IntMin + 9;
    }

    /** With a range of at least 37, the highest count gets the largest font. */
    lemma FontSizeAtMax()
      requires 0 <= minFrequency <= maxFrequency <= IntMax && maxFrequency - minFrequency >= 37
      ensures FontSize(maxFrequency) == 48
    {
      var range := maxFrequency - minFrequency;
      var divisor := range / 37;
      assert divisor >= 1;
      DivisorBound(range, divisor);
      SumFits(range, range, divisor);
    }
  }

  /** Java's `int` arithmetic: the mathematical result wrapped into 32 bits. */
  function WrapInt(x: int): (r: int)
    ensures IntMin <= r <= IntMax
    ensures (x - r) % 0x1_0000_0000 == 0
    ensures IntMin <= x <= IntMax ==> r == x
  {
    (x - IntMin) % 0x1_0000_0000 + IntMin
  }

  /**
   * At or below the top of the frequency range, the quotient plus the
   * smallest font stays inside `int`: fontSize's sum does not wrap there.
   */
  lemma SumFits(a: int, range: int, divisor: int)
    requires -IntMax <= a <= range <= IntMax && 0 <= range
    requires divisor == if range / 37 == 0 then 1 else range / 37
    ensures IntMin <= JavaDiv(a, divisor) + 11 <= IntMax
  {
    if a < 0 {
      var n := -a;
      var q := n / divisor;
      assert divisor * q + n % divisor == n;
      MulMonotone(q, divisor, 1);
    } else if divisor >= 2 {
      var q := a / divisor;
      assert divisor * q + a % divisor == a;
      MulMonotone(q, divisor, 2);
    }
  }

  /** Java's `/` on `int`: the quotient truncated toward zero. */
  function JavaDiv(a: int, b: int): int
    requires b > 0
  {
    if a >= 0 then a / b else -((-a) / b)
  }

  /** The remainder left by Java's `/` has the sign of the dividend and is smaller than the divisor: the quotient is truncated toward zero. */
  lemma JavaDivTruncates(a: int, b: int)
    requires b > 0
    ensures a >= 0 ==> 0 <= a - JavaDiv(a, b) * b < b
    ensures a < 0 ==> -b < a - JavaDiv(a, b) * b <= 0
  {
    if a < 0 {
      var n := -a;
      assert n == (n / b) * b + n % b;
      assert a - JavaDiv(a, b) * b == -(n % b);
    }
  }

  lemma JavaDivMonotone(a: int, b: int, d: int)
    requires a <= b && d > 0
    ensures JavaDiv(a, d) <= JavaDiv(b, d)
  {
    if a >= 0 {
      DivMonotone(a, b, d);
    } else if b >= 0 {
    } else {
      DivMonotone(-b, -a, d);
    }
  }

  lemma DivMonotone(a: nat, b: nat, d: nat)
    requires a <= b && d > 0
    ensures a / d <= b / d
  {
    var qa, qb := a / d, b / d;
    MulMonotone(d, qa, qb + 1);
    assert d * qa <= a && b < d * (qb + 1);
  }

  lemma MulMonotone(d: int, x: int, y: int)
    ensures d >= 0 && x >= y ==> d * x >= d * y
  {
    if d >= 0 && x >= y {
      assert d * x - d * y == d * (x - y);
    }
  }

  /** Dividing a range by its own 37th leaves at least 37. */
  lemma DivisorBound(range: nat, divisor: nat)
    requires divisor == range / 37 && divisor >= 1
    ensures range / divisor >= 37
  {
    var q, r := range / divisor, range % divisor;
    assert range == divisor * q + r && r < divisor;
    MulMonotone(divisor, 36, q);
  }
}
