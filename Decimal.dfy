/** Decimal text of integers, as `String.valueOf(int)` writes it and
    `Integer.parseInt` reads it back. The 32-bit range of Java's `int` is not
    modelled: values are unbounded integers. */
module Decimal {

  predicate IsDigit(ch: char) {
    '0' <= ch <= '9'
  }

  predicate AllDigits(s: string) {
    |s| >= 1 && forall i :: 0 <= i < |s| ==> IsDigit(s[i])
  }

  function DigitChar(d: int): (ch: char)
    requires 0 <= d < 10
    ensures IsDigit(ch)
  {
    ('0' as int + d) as char
  }

  function DigitValue(ch: char): (d: int)
    requires IsDigit(ch)
    ensures 0 <= d < 10
  {
    ch as int - '0' as int
  }

  /** The value of a run of decimal digits, most significant first. */
  function DigitsValue(s: string): (n: nat)
    requires AllDigits(s)
    decreases |s|
  {
    if |s| == 1 then DigitValue(s[0])
    else 10 * DigitsValue(s[..|s| - 1]) + DigitValue(s[|s| - 1])
  }

  /** The shortest decimal form of n: digits only, no leading zero. */
  function ShowNat(n: nat): (s: string)
    ensures AllDigits(s) && DigitsValue(s) == n
    ensures s[0] == '0' ==> s == "0"
    decreases n
  {
    if n < 10 then [DigitChar(n)]
    else
      var prefix := ShowNat(n / 10);
      var s := prefix + [DigitChar(n % 10)];
      assert s[..|s| - 1] == prefix;
      s
  }

  /** The strings `Integer.parseInt` accepts, leaving its 32-bit range out:
      an optional sign followed by at least one digit. */
  predicate IsIntLiteral(s: string) {
    AllDigits(s) || (|s| >= 2 && (s[0] == '-' || s[0] == '+') && AllDigits(s[1..]))
  }

  /** `Integer.parseInt` on an accepted string. */
  function Parse(s: string): int
    requires IsIntLiteral(s)
  {
    if AllDigits(s) then DigitsValue(s)
    else if s[0] == '-' then 0 - DigitsValue(s[1..]) as int
    else DigitsValue(s[1..])
  }

  /** `String.valueOf(int)`: the text reads back as the same value, and it holds
      neither a comma nor a letter, so it never collides with a separator or
      with the word FREE. */
  function Show(i: int): (s: string)
    ensures IsIntLiteral(s) && Parse(s) == i
    ensures forall k :: 0 <= k < |s| ==> IsDigit(s[k]) || (k == 0 && s[k] == '-')
  {
    if i < 0 then
      var s := "-" + ShowNat(-i);
      assert s[1..] == ShowNat(-i);
      s
    else ShowNat(i)
  }

  lemma ShowInjective(i: int, j: int)
    ensures Show(i) == Show(j) <==> i == j
  {
    if Show(i) == Show(j) {
      assert Parse(Show(i)) == Parse(Show(j));
    }
  }

  lemma ShowHasNoComma(i: int)
    ensures ',' !in Show(i)
  {
    var s := Show(i);
    forall k | 0 <= k < |s| ensures s[k] != ',' {
      assert IsDigit(s[k]) || s[k] == '-';
    }
  }

  lemma ShowIsNotWord(i: int, w: string)
    requires |w| >= 1 && 'A' <= w[0] <= 'Z'
    ensures Show(i) != w
  {
    var s := Show(i);
    assert IsDigit(s[0]) || s[0] == '-';
  }
}
