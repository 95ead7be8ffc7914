/**
 * Splitting text into words and separator strings, as both text tools do.
 *
 * A run is a maximal stretch of characters that are all separators or all
 * not separators; a word is a run of non-separators. `WordsFrom` lists the
 * words of a text in order, and `IsWordAt` says independently where a word
 * stands. `TallyInto` and `FirstSeen` are the two ways the tools gather
 * words: counting them in a map and listing the distinct ones in order.
 */
module TextRuns {

  /** The end of the run that starts at `pos`. */
  function RunEnd(text: string, pos: nat, seps: set<char>): (e: nat)
    requires pos < |text|
    ensures pos < e <= |text|
    ensures forall k :: pos <= k < e ==> (text[k] in seps) == (text[pos] in seps)
    ensures e == |text| || (text[e] in seps) != (text[pos] in seps)
    decreases |text| - pos
  {
    if pos + 1 < |text| && (text[pos + 1] in seps) == (text[pos] in seps) then
      RunEnd(text, pos + 1, seps)
    else
      pos + 1
  }

  /**
   * The contract of nextWordOrSeparator: `r` is the text from `pos` on, of
   * the same kind as the character at `pos` throughout, and stops at the
   * end of the text or at a character of the other kind.
   */
  predicate IsMaximalRun(text: string, pos: nat, seps: set<char>, r: string)
    requires pos < |text|
  {
    && pos + |r| <= |text|
    && r == text[pos..pos + |r|]
    && if text[pos] !in seps then
         && (forall k :: 0 <= k < |r| ==> r[k] !in seps)
         && (pos + |r| == |text| || text[pos + |r|] in seps)
       else
         && (forall k :: 0 <= k < |r| ==> r[k] in seps)
         && (pos + |r| == |text| || text[pos + |r|] !in seps)
  }

  /** A scan that stops at the end of the text or at the first character of the other kind finds the maximal run. */
  lemma ScannedRun(text: string, pos: nat, seps: set<char>, i: nat)
    requires pos < i <= |text|
    requires forall k :: pos <= k < i ==> (text[k] in seps) == (text[pos] in seps)
    requires i == |text| || (text[i] in seps) != (text[pos] in seps)
    ensures IsMaximalRun(text, pos, seps, text[pos..i])
  {
    var r := text[pos..i];
    assert forall k :: 0 <= k < |r| ==> r[k] == text[pos + k];
  }

  /** The contract pins the result down: it holds of exactly one string, the run up to `RunEnd`. */
  lemma MaximalRunIsUnique(text: string, pos: nat, seps: set<char>, r: string)
    requires pos < |text|
    ensures IsMaximalRun(text, pos, seps, r) <==> r == text[pos..RunEnd(text, pos, seps)]
  {
    var e := RunEnd(text, pos, seps);
    if IsMaximalRun(text, pos, seps, r) {
      RunKind(text, seps, pos, pos + |r|);
      RunInside(text, pos, seps, r, e - pos);
      assert pos + |r| == e;
    }
  }

  /** A position inside a run that satisfies the contract has the kind of the run's first character. */
  lemma RunInside(text: string, pos: nat, seps: set<char>, r: string, k: int)
    ensures pos < |text| && IsMaximalRun(text, pos, seps, r) && 0 <= k < |r| ==>
              (text[pos + k] in seps) == (text[pos] in seps)
  {
    if pos < |text| && IsMaximalRun(text, pos, seps, r) && 0 <= k < |r| {
      assert r[k] == text[pos + k];
    }
  }

  /** A position inside the run has the kind of the run's first character. */
  lemma RunKind(text: string, seps: set<char>, pos: nat, k: int)
    ensures pos < |text| && pos <= k < RunEnd(text, pos, seps) ==>
              (text[k] in seps) == (text[pos] in seps)
  {
  }

  lemma WordInside(text: string, seps: set<char>, p: nat, q: nat, k: int)
    ensures IsWordAt(text, seps, p, q) && p <= k < q ==> text[k] !in seps
  {
  }

  /** Every position where a run starts: the start, the end, or a change of kind. */
  predicate AtBoundary(text: string, seps: set<char>, pos: nat) {
    && pos <= |text|
    && (pos == 0 || pos == |text| || (text[pos - 1] in seps) != (text[pos] in seps))
  }

  /** The words of `text` from the run boundary `pos` on, in order. */
  function WordsFrom(text: string, pos: nat, seps: set<char>): seq<string>
    requires pos <= |text|
    decreases |text| - pos
  {
    if pos == |text| then []
    else
      var e := RunEnd(text, pos, seps);
      if text[pos] in seps then WordsFrom(text, e, seps)
      else [text[pos..e]] + WordsFrom(text, e, seps)
  }

  function Words(text: string, seps: set<char>): seq<string> {
    WordsFrom(text, 0, seps)
  }

  function Elems<T>(s: seq<T>): set<T> {
    set x | x in s
  }

  /** `text[p..q]` is a word: no separator inside, a separator or an end of the text on either side. */
  predicate IsWordAt(text: string, seps: set<char>, p: nat, q: nat) {
    && p < q <= |text|
    && (forall k :: p <= k < q ==> text[k] !in seps)
    && (p == 0 || text[p - 1] in seps)
    && (q == |text| || text[q] in seps)
  }

  predicate IsWordAfter(text: string, seps: set<char>, pos: nat, w: string) {
    exists p: nat, q: nat :: pos <= p < q <= |text| && IsWordAt(text, seps, p, q) && text[p..q] == w
  }

  predicate IsWordOf(text: string, seps: set<char>, w: string) {
    IsWordAfter(text, seps, 0, w)
  }

  /** The words listed from a boundary are exactly the words that stand at or after it. */
  lemma {:induction false} WordsFromCharacterised(text: string, seps: set<char>, pos: nat, w: string)
    requires AtBoundary(text, seps, pos)
    ensures w in WordsFrom(text, pos, seps) <==> IsWordAfter(text, seps, pos, w)
    decreases |text| - pos
  {
    if pos < |text| {
      var e := RunEnd(text, pos, seps);
      assert AtBoundary(text, seps, e);
      WordsFromCharacterised(text, seps, e, w);
      if w in WordsFrom(text, pos, seps) && !(w in WordsFrom(text, e, seps)) {
        assert text[pos] !in seps && w == text[pos..e];
        assert IsWordAt(text, seps, pos, e);
      }
      if IsWordAfter(text, seps, pos, w) {
        var p: nat, q: nat :| pos <= p < q <= |text| && IsWordAt(text, seps, p, q) && text[p..q] == w;
        if p < e {
          RunKind(text, seps, pos, p - 1);
          RunKind(text, seps, pos, p);
          RunKind(text, seps, pos, q);
          WordInside(text, seps, p, q, e);
          assert p == pos && q == e;
        } else {
          assert IsWordAfter(text, seps, e, w);
        }
      }
    }
  }

  /** The words of a text are its maximal separator-free stretches. */
  lemma WordsCharacterised(text: string, seps: set<char>, w: string)
    ensures w in Words(text, seps) <==> IsWordOf(text, seps, w)
  {
    WordsFromCharacterised(text, seps, 0, w);
  }

  predicate SeparatorFree(w: string, seps: set<char>) {
    forall k :: 0 <= k < |w| ==> w[k] !in seps
  }

  /** No word is empty or holds a separator. */
  lemma {:induction false} WordsAreSeparatorFree(text: string, seps: set<char>, pos: nat)
    requires pos <= |text|
    ensures forall w :: w in WordsFrom(text, pos, seps) ==> w != [] && SeparatorFree(w, seps)
    decreases |text| - pos
  {
    if pos < |text| {
      WordsAreSeparatorFree(text, seps, RunEnd(text, pos, seps));
    }
  }

  /** Adds one occurrence of `w` to the counts. */
  function Bump(m: map<string, int>, w: string): map<string, int> {
    if w in m then m[w := m[w] + 1] else m[w := 1]
  }

  /** Counts the words `ws` into `m`, one after another. */
  function TallyInto(m: map<string, int>, ws: seq<string>): map<string, int>
    decreases |ws|
  {
    if ws == [] then m else TallyInto(Bump(m, ws[0]), ws[1..])
  }

  /** The tally holds the old keys and the new words. */
  lemma {:induction false} TallyIntoKeys(m: map<string, int>, ws: seq<string>)
    ensures TallyInto(m, ws).Keys == m.Keys + Elems(ws)
    decreases |ws|
  {
    if ws != [] {
      TallyIntoKeys(Bump(m, ws[0]), ws[1..]);
      assert ws == [ws[0]] + ws[1..];
      assert Elems(ws) == {ws[0]} + Elems(ws[1..]);
    }
  }

  /** Each count grows by the number of occurrences of its word. */
  lemma {:induction false} TallyIntoCounts(m: map<string, int>, ws: seq<string>, w: string)
    requires w in TallyInto(m, ws)
    ensures TallyInto(m, ws)[w] == (if w in m then m[w] else 0) + multiset(ws)[w]
    decreases |ws|
  {
    if ws != [] {
      TallyIntoKeys(Bump(m, ws[0]), ws[1..]);
      TallyIntoCounts(Bump(m, ws[0]), ws[1..], w);
      assert ws == [ws[0]] + ws[1..];
      assert multiset(ws)[w] == multiset([ws[0]])[w] + multiset(ws[1..])[w];
    }
  }

  /** Counting from nothing: the keys are the words, and every count is the number of occurrences, at least 1. */
  lemma TallyCounts(ws: seq<string>)
    ensures TallyInto(map[], ws).Keys == Elems(ws)
    ensures forall w :: w in TallyInto(map[], ws) ==> TallyInto(map[], ws)[w] == multiset(ws)[w] >= 1
  {
    TallyIntoKeys(map[], ws);
    forall w | w in TallyInto(map[], ws)
      ensures TallyInto(map[], ws)[w] == multiset(ws)[w] >= 1
    {
      TallyIntoCounts(map[], ws, w);
    }
  }

  /** Appends the words of `ws` not yet listed, in the order they first appear. */
  function FirstSeen(acc: seq<string>, ws: seq<string>): seq<string>
    decreases |ws|
  {
    if ws == [] then acc
    else FirstSeen(if ws[0] in acc then acc else acc + [ws[0]], ws[1..])
  }

  predicate Distinct<T(==)>(s: seq<T>) {
    forall i, j :: 0 <= i < j < |s| ==> s[i] != s[j]
  }

  /** The index of the first occurrence of `w` in `ws`. */
  function FirstIndex<T(==)>(ws: seq<T>, w: T): (i: nat)
    requires w in ws
    ensures i < |ws| && ws[i] == w && w !in ws[..i]
  {
    if ws[0] == w then 0
    else
      var i := 1 + FirstIndex(ws[1..], w);
      assert ws[..i] == [ws[0]] + ws[1..][..i - 1];
      i
  }

  /** FirstSeen only appends. */
  lemma {:induction false} FirstSeenExtends(acc: seq<string>, ws: seq<string>)
    ensures |acc| <= |FirstSeen(acc, ws)| && FirstSeen(acc, ws)[..|acc|] == acc
    decreases |ws|
  {
    if ws != [] {
      var acc' := if ws[0] in acc then acc else acc + [ws[0]];
      FirstSeenExtends(acc', ws[1..]);
      assert FirstSeen(acc, ws)[..|acc|] == acc'[..|acc|];
    }
  }

  /** FirstSeen appends only words not listed yet. */
  lemma {:induction false} FirstSeenDistinct(acc: seq<string>, ws: seq<string>)
    requires Distinct(acc)
    ensures Distinct(FirstSeen(acc, ws))
    decreases |ws|
  {
    if ws != [] {
      var acc' := if ws[0] in acc then acc else acc + [ws[0]];
      assert Distinct(acc');
      FirstSeenDistinct(acc', ws[1..]);
    }
  }

  /** FirstSeen lists every word of `ws` and nothing else. */
  lemma {:induction false} FirstSeenElems(acc: seq<string>, ws: seq<string>)
    ensures Elems(FirstSeen(acc, ws)) == Elems(acc) + Elems(ws)
    decreases |ws|
  {
    if ws != [] {
      var acc' := if ws[0] in acc then acc else acc + [ws[0]];
      FirstSeenElems(acc', ws[1..]);
      assert Elems(acc') == Elems(acc) + {ws[0]};
      assert ws == [ws[0]] + ws[1..];
      assert Elems(ws) == {ws[0]} + Elems(ws[1..]);
    }
  }

  /** FirstSeen extends the list, keeps it free of repeats and lists every word. */
  lemma FirstSeenContents(acc: seq<string>, ws: seq<string>)
    requires Distinct(acc)
    ensures var r := FirstSeen(acc, ws);
      && |acc| <= |r| && r[..|acc|] == acc
      && Distinct(r) && Elems(r) == Elems(acc) + Elems(ws)
  {
    FirstSeenExtends(acc, ws);
    FirstSeenDistinct(acc, ws);
    FirstSeenElems(acc, ws);
  }

  /** The words FirstSeen adds stand in the order of their first occurrences. */
  lemma {:induction false} FirstSeenOrder(acc: seq<string>, ws: seq<string>, i: nat, j: nat)
    requires Distinct(acc)
    requires |acc| <= i < j < |FirstSeen(acc, ws)|
    ensures FirstSeen(acc, ws)[i] in ws && FirstSeen(acc, ws)[j] in ws
    ensures FirstIndex(ws, FirstSeen(acc, ws)[i]) < FirstIndex(ws, FirstSeen(acc, ws)[j])
    decreases |ws|
  {
    var r := FirstSeen(acc, ws);
    FirstSeenContents(acc, ws);
    assert ws != [];
    var x, rest := ws[0], ws[1..];
    var acc' := if x in acc then acc else acc + [x];
    FirstSeenContents(acc', rest);
    assert r == FirstSeen(acc', rest);
    assert r[..|acc|] == acc;
    assert r[i] !in acc && r[j] !in acc by {
      forall k | 0 <= k < |acc| ensures acc[k] != r[i] && acc[k] != r[j] {
        assert acc[k] == r[k];
      }
    }
    if x in acc {
      FirstSeenOrder(acc', rest, i, j);
      assert r[i] != x && r[j] != x;
      assert FirstIndex(ws, r[i]) == 1 + FirstIndex(rest, r[i]);
      assert FirstIndex(ws, r[j]) == 1 + FirstIndex(rest, r[j]);
    } else if i == |acc| {
      assert r[..|acc'|] == acc';
      assert r[i] == x && r[j] != x;
      assert r[j] in Elems(acc) + Elems(ws);
      assert FirstIndex(ws, r[i]) == 0;
    } else {
      assert r[..|acc'|] == acc';
      assert r[i] != r[|acc|] == x && r[j] != x;
      FirstSeenOrder(acc', rest, i, j);
      assert FirstIndex(ws, r[i]) == 1 + FirstIndex(rest, r[i]);
      assert FirstIndex(ws, r[j]) == 1 + FirstIndex(rest, r[j]);
    }
  }
}
