/**
 * A natural number kept as the decimal string of its digits (NaturalNumber3).
 *
 * Convention: every character of `rep` is a digit and `rep` does not start
 * with '0'; zero is the empty string. The kernel methods change `rep` in
 * place, and each is proved to keep the convention and to change the
 * number it stands for as the NaturalNumber contract promises.
 */
module NaturalNumberOnString {

  /** Java's `int`: the constructor from `int` receives one of these. */
  newtype int32 = x: int | -0x8000_0000 <= x < 0x8000_0000

  predicate IsDigit(c: char) {
    '0' <= c <= '9'
  }

  predicate AllDigits(s: string) {
    forall i :: 0 <= i < |s| ==> IsDigit(s[i])
  }

  /** The representation invariant of the class. */
  predicate Convention(s: string) {
    AllDigits(s) && (s == "" || s[0] != '0')
  }

  /** What `s.matches("0|[1-9]\\d*")` accepts: the ordinary depiction of a natural number. */
  predicate IsNumeral(s: string) {
    s == "0" || (s != "" && s[0] != '0' && AllDigits(s))
  }

  function DigitChar(d: nat): (c: char)
    requires d < 10
    ensures IsDigit(c) && (c == '0' <==> d == 0)
  {
    ('0' as int + d) as char
  }

  function DigitValue(c: char): nat
    requires IsDigit(c)
  {
    c as int - '0' as int
  }

  /** The number whose decimal depiction is `s`; the empty string stands for 0. */
  function DecimalValue(s: string): (v: nat)
    requires AllDigits(s)
    ensures v == 0 <==> forall i :: 0 <= i < |s| ==> s[i] == '0'
    ensures s != "" ==> v % 10 == DigitValue(s[|s| - 1])
  {
    if s == "" then 0
    else 10 * DecimalValue(s[..|s| - 1]) + DigitValue(s[|s| - 1])
  }

  /** `String.valueOf` on a non-negative number: its ordinary depiction, "0" for zero. */
  function DecimalString(n: nat): (s: string)
    ensures IsNumeral(s) && DecimalValue(s) == n
    ensures s[0] == '0' <==> n == 0
  {
    if n < 10 then [DigitChar(n)]
    else
      var front := DecimalString(n / 10);
      var s := front + [DigitChar(n % 10)];
      assert s[..|s| - 1] == front;
      s
  }

  /** A depiction without a leading zero and not empty stands for a positive number. */
  lemma {:induction false} LeadingDigitPositive(s: string)
    requires Convention(s) && s != ""
    ensures DecimalValue(s) >= 1
  {
    if |s| > 1 {
      LeadingDigitPositive(s[..|s| - 1]);
    }
  }

  /** `String.valueOf` and the depiction's value are inverse on numerals (TO_STRING is one-to-one). */
  lemma {:induction false} DecimalStringOfValue(s: string)
    requires IsNumeral(s)
    ensures DecimalString(DecimalValue(s)) == s
  {
    var front, last := s[..|s| - 1], s[|s| - 1];
    var n := DecimalValue(s);
    if front == "" {
      assert s == [last];
      assert DecimalValue(front) == 0;
      assert n == DigitValue(last);
    } else {
      assert front[0] == s[0];
      LeadingDigitPositive(front);
      DecimalStringOfValue(front);
      assert n / 10 == DecimalValue(front) && n % 10 == DigitValue(last);
      assert s == front + [last];
    }
  }

  /** Dropping the last digit keeps the convention. */
  lemma DropLastDigit(s: string)
    requires Convention(s) && s != ""
    ensures Convention(s[..|s| - 1])
  {
  }

  /** multiplyBy10 as written: append the digit, then a test for an empty string that can never succeed. */
  function MultiplyBy10AsWritten(rep: string, k: nat): (r: string)
    requires k < 10
    ensures r == rep + [DigitChar(k)]
    ensures Convention(rep) ==> (Convention(r) <==> !(rep == "" && k == 0))
  {
    var appended := rep + [DigitChar(k)];
    if |appended| == 0 then [DigitChar(k)] else appended
  }

  /**
   * On zero with the digit 0 the written multiplyBy10 leaves "0": the
   * convention is broken and isZero (an empty-string test) answers false
   * for the number 0.
   */
  lemma MultiplyZeroByTenAsWritten()
    ensures MultiplyBy10AsWritten("", 0) == "0"
    ensures Convention("") && !Convention(MultiplyBy10AsWritten("", 0))
    ensures DecimalValue(MultiplyBy10AsWritten("", 0)) == 0 && MultiplyBy10AsWritten("", 0) != ""
  {
    var r := MultiplyBy10AsWritten("", 0);
    assert DigitChar(0) == '0';
    assert r == "0";
    assert r[0] == '0';
  }

  class NaturalNumber {
    var rep: string

    predicate Valid()
      reads this
    {
      Convention(rep)
    }

    /** The number `this` stands for. */
    function Value(): nat
      reads this
      requires Valid()
    {
      DecimalValue(rep)
    }

    constructor ()
      ensures Valid() && Value() == 0
    {
      rep := "";
    }

    constructor FromInt(i: int32)
      requires i >= 0
      ensures Valid() && Value() == i as int
    {
      rep := DecimalString(i as int);
      new;
      ClearZero();
    }

    /** From a numeral: `this` is the number the string depicts. */
    constructor FromString(s: string)
      requires IsNumeral(s)
      ensures Valid() && DecimalString(Value()) == s
    {
      DecimalStringOfValue(s);
      rep := s;
      new;
      ClearZero();
    }

    method Clear()
      modifies this
      ensures Valid() && Value() == 0
    {
      rep := "";
    }

    method TransferFrom(source: NaturalNumber)
      requires source != this && source.Valid()
      modifies this, source
      ensures Valid() && Value() == old(source.Value())
      ensures source.Valid() && source.Value() == 0
    {
      rep := source.rep;
      source.rep := "";
    }

    /** Replaces the depiction "0" by the empty string, which stands for the same number. */
    method ClearZero()
      modifies this
      ensures rep == if old(rep) == "0" then "" else old(rep)
      ensures IsNumeral(old(rep)) || old(rep) == "" ==> Valid() && Value() == old(DecimalValue(rep))
    {
      if rep == "0" {
        rep := "";
      }
    }

    /** Appends the digit `k`; the corrected form keeps zero empty when `k` is 0. */
    method MultiplyBy10(k: nat)
      requires Valid() && k < 10
      modifies this
      ensures Valid() && Value() == 10 * old(Value()) + k
    {
      var old_rep := rep;
      rep := rep + [DigitChar(k)];
      assert rep[..|rep| - 1] == old_rep;
      if rep == "0" {
        rep := "";
      }
    }

    /** Removes and returns the last digit; zero stays zero and yields 0. */
    method DivideBy10() returns (d: nat)
      requires Valid()
      modifies this
      ensures d < 10
      ensures Valid() && old(Value()) == 10 * Value() + d
    {
      d := 0;
      if |rep| > 0 {
        var last := rep[|rep| - 1];
        DropLastDigit(rep);
        rep := rep[..|rep| - 1];
        d := DigitValue(last);
      }
    }

    /** Zero is exactly the empty depiction. */
    function IsZero(): (b: bool)
      reads this
      requires Valid()
      ensures b <==> Value() == 0
    {
      if |rep| == 0 then true
      else
        LeadingDigitPositive(rep);
        false
    }
  }
}
