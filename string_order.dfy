/**
 * Java's `String.compareTo`: the difference of the first differing
 * characters, or of the lengths when one string is a prefix of the other.
 * The lemmas show it orders strings totally, so both text tools can sort
 * with it after lower-casing.
 */
module StringOrder {
  import opened AsciiText

  function CompareTo(a: string, b: string): int {
    if a == [] || b == [] then |a| - |b|
    else if a[0] != b[0] then a[0] as int - b[0] as int
    else CompareTo(a[1..], b[1..])
  }

  /**
   * Java's contract for `compareTo`: the difference of the lengths when one
   * string is a prefix of the other, otherwise the difference of the
   * characters at the first index where they differ.
   */
  lemma {:induction false} CompareToFirstDifference(a: string, b: string)
    ensures (a <= b || b <= a) ==> CompareTo(a, b) == |a| - |b|
    ensures !(a <= b || b <= a) ==> exists k :: FirstDifference(a, b, k) && CompareTo(a, b) == a[k] as int - b[k] as int
  {
    if a == [] || b == [] {
    } else if a[0] != b[0] {
      assert FirstDifference(a, b, 0);
    } else {
      CompareToFirstDifference(a[1..], b[1..]);
      CompareToShift(a, b, CompareTo(a[1..], b[1..]));
    }
  }

  /** `k` is the smallest index at which `a` and `b` differ. */
  predicate FirstDifference(a: string, b: string, k: int) {
    0 <= k < |a| && k < |b| && a[..k] == b[..k] && a[k] != b[k]
  }

  /** A common first character changes neither prefixes nor the first difference, only shifts it. */
  lemma CompareToShift(a: string, b: string, r: int)
    requires a != [] && b != [] && a[0] == b[0]
    requires (a[1..] <= b[1..] || b[1..] <= a[1..]) ==> r == |a[1..]| - |b[1..]|
    requires !(a[1..] <= b[1..] || b[1..] <= a[1..]) ==>
      exists k :: FirstDifference(a[1..], b[1..], k) && r == a[1..][k] as int - b[1..][k] as int
    ensures (a <= b || b <= a) ==> r == |a| - |b|
    ensures !(a <= b || b <= a) ==> exists k :: FirstDifference(a, b, k) && r == a[k] as int - b[k] as int
  {
    assert a == [a[0]] + a[1..] && b == [b[0]] + b[1..];
    assert (a <= b) == (a[1..] <= b[1..]) && (b <= a) == (b[1..] <= a[1..]);
    if !(a <= b || b <= a) {
      var k :| FirstDifference(a[1..], b[1..], k) && r == a[1..][k] as int - b[1..][k] as int;
      assert a[..k + 1] == [a[0]] + a[1..][..k] && b[..k + 1] == [b[0]] + b[1..][..k];
      assert FirstDifference(a, b, k + 1);
    }
  }

  lemma {:induction false} CompareToAntisymmetric(a: string, b: string)
    ensures CompareTo(a, b) == -CompareTo(b, a)
  {
    if a != [] && b != [] && a[0] == b[0] {
      CompareToAntisymmetric(a[1..], b[1..]);
    }
  }

  /** Only equal strings compare as 0. */
  lemma {:induction false} CompareToZero(a: string, b: string)
    ensures CompareTo(a, b) == 0 <==> a == b
  {
    if a != [] && b != [] && a[0] == b[0] {
      CompareToZero(a[1..], b[1..]);
      assert a == [a[0]] + a[1..] && b == [b[0]] + b[1..];
    }
  }

  lemma {:induction false} CompareToTransitive(a: string, b: string, c: string)
    requires CompareTo(a, b) < 0 && CompareTo(b, c) < 0
    ensures CompareTo(a, c) < 0
  {
    if a != [] && b != [] && c != [] && a[0] == b[0] == c[0] {
      CompareToTransitive(a[1..], b[1..], c[1..]);
    }
  }

  /** Comparing as `e.getKey().toLowerCase().compareTo(...)` does. */
  function CompareIgnoringCase(a: string, b: string): (r: int)
    ensures r == 0 <==> ToLower(a) == ToLower(b)
    ensures r == -CompareTo(ToLower(b), ToLower(a))
  {
    CompareToZero(ToLower(a), ToLower(b));
    CompareToAntisymmetric(ToLower(a), ToLower(b));
    CompareTo(ToLower(a), ToLower(b))
  }

  /** "At most" in the case-blind order is transitive. */
  lemma AtMostTransitive(a: string, b: string, c: string)
    requires CompareIgnoringCase(a, b) <= 0 && CompareIgnoringCase(b, c) <= 0
    ensures CompareIgnoringCase(a, c) <= 0
  {
    CompareToZero(ToLower(a), ToLower(b));
    CompareToZero(ToLower(b), ToLower(c));
    if CompareIgnoringCase(a, b) < 0 && CompareIgnoringCase(b, c) < 0 {
      CompareToTransitive(ToLower(a), ToLower(b), ToLower(c));
    }
  }

  /** Strictly before, then at most: strictly before. */
  lemma BeforeTransitive(a: string, b: string, c: string)
    requires CompareIgnoringCase(a, b) < 0 && CompareIgnoringCase(b, c) <= 0
    ensures CompareIgnoringCase(a, c) < 0
  {
    CompareToZero(ToLower(b), ToLower(c));
    if CompareIgnoringCase(b, c) < 0 {
      CompareToTransitive(ToLower(a), ToLower(b), ToLower(c));
    }
  }

  /** Any two strings are ordered one way or the other. */
  lemma AtMostTotal(a: string, b: string)
    ensures CompareIgnoringCase(a, b) <= 0 || CompareIgnoringCase(b, a) <= 0
  {
    CompareToAntisymmetric(ToLower(a), ToLower(b));
  }
}
