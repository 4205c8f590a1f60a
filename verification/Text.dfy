/** The string operations the adapters rely on: stripping, and decimal numerals. */
module Text {

  /** The characters Python's str.strip removes. */
  predicate IsSpace(c: char) {
    || '\U{0009}' <= c <= '\U{000D}' || '\U{001C}' <= c <= '\U{0020}'
    || c == '\U{0085}' || c == '\U{00A0}' || c == '\U{1680}' || '\U{2000}' <= c <= '\U{200A}'
    || c == '\U{2028}' || c == '\U{2029}' || c == '\U{202F}' || c == '\U{205F}' || c == '\U{3000}'
  }

  function StripLeft(s: string): string {
    if s != [] && IsSpace(s[0]) then StripLeft(s[1..]) else s
  }

  function StripRight(s: string): string {
    if s != [] && IsSpace(s[|s| - 1]) then StripRight(s[..|s| - 1]) else s
  }

  function Strip(s: string): string {
    StripRight(StripLeft(s))
  }

  /** Not blank, and nothing to strip. */
  predicate Stripped(s: string) {
    s != [] && !IsSpace(s[0]) && !IsSpace(s[|s| - 1])
  }

  lemma {:induction false} StripLeftResult(s: string)
    ensures StripLeft(s) == [] || !IsSpace(StripLeft(s)[0])
  {
    if s != [] && IsSpace(s[0]) {
      StripLeftResult(s[1..]);
    }
  }

  lemma {:induction false} StripRightResult(s: string)
    requires s == [] || !IsSpace(s[0])
    ensures StripRight(s) == [] || Stripped(StripRight(s))
  {
    if s != [] && IsSpace(s[|s| - 1]) {
      StripRightResult(s[..|s| - 1]);
    }
  }

  /** Stripping leaves nothing or a stripped text, and leaves stripped texts alone. */
  lemma StripResult(s: string)
    ensures Strip(s) == [] || Stripped(Strip(s))
    ensures Stripped(s) ==> Strip(s) == s
  {
    StripLeftResult(s);
    StripRightResult(StripLeft(s));
  }

  lemma {:induction false} StripLeftMeaning(s: string) returns (left: string)
    ensures s == left + StripLeft(s) && forall i :: 0 <= i < |left| ==> IsSpace(left[i])
  {
    left := [];
    if s != [] && IsSpace(s[0]) {
      left := StripLeftMeaning(s[1..]);
      left := [s[0]] + left;
    }
  }

  lemma {:induction false} StripRightMeaning(s: string) returns (right: string)
    ensures s == StripRight(s) + right && forall i :: 0 <= i < |right| ==> IsSpace(right[i])
  {
    right := [];
    if s != [] && IsSpace(s[|s| - 1]) {
      right := StripRightMeaning(s[..|s| - 1]);
      right := right + [s[|s| - 1]];
    }
  }

  /** Stripping takes whitespace off both ends and nothing else. */
  lemma {:induction false} StripMeaning(s: string) returns (left: string, right: string)
    ensures s == left + Strip(s) + right
    ensures forall i :: 0 <= i < |left| ==> IsSpace(left[i])
    ensures forall i :: 0 <= i < |right| ==> IsSpace(right[i])
    ensures Strip(s) == [] || Stripped(Strip(s))
  {
    left := StripLeftMeaning(s);
    right := StripRightMeaning(StripLeft(s));
    StripResult(s);
    assert left + (Strip(s) + right) == left + Strip(s) + right;
  }

  /** Nothing is left of exactly the texts of whitespace. */
  lemma {:induction false} StripBlank(s: string)
    ensures Strip(s) == "" <==> forall i :: 0 <= i < |s| ==> IsSpace(s[i])
  {
    var left, right := StripMeaning(s);
    if Strip(s) != "" {
      assert s[|left|] == Strip(s)[0];
    } else {
      assert s == left + right;
    }
  }

  function Digit(d: nat): char
    requires d < 10
  {
    "0123456789"[d]
  }

  /** The decimal numeral of a natural number. */
  function Decimal(n: nat): string {
    if n < 10 then [Digit(n)] else Decimal(n / 10) + [Digit(n % 10)]
  }

  function DigitValue(c: char): int {
    c as int - '0' as int
  }

  /** The number a string of digits denotes, read from the left. */
  function NumeralValue(s: string): int {
    if s == [] then 0 else 10 * NumeralValue(s[..|s| - 1]) + DigitValue(s[|s| - 1])
  }

  lemma DigitDenotes(d: nat)
    requires d < 10
    ensures DigitValue(Digit(d)) == d && '0' <= Digit(d) <= '9'
  {
  }

  /** A numeral is made of digits, denotes its number, and has no leading zero. */
  lemma {:induction false} DecimalDenotes(n: nat)
    ensures NumeralValue(Decimal(n)) == n
    ensures forall i :: 0 <= i < |Decimal(n)| ==> '0' <= Decimal(n)[i] <= '9'
    ensures Decimal(n) != [] && (n > 0 ==> Decimal(n)[0] != '0')
  {
    if n < 10 {
      DigitDenotes(n);
      assert NumeralValue([Digit(n)]) == 10 * NumeralValue([]) + DigitValue(Digit(n));
    } else {
      DecimalDenotes(n / 10);
      DigitDenotes(n % 10);
      assert Decimal(n)[..|Decimal(n)| - 1] == Decimal(n / 10);
    }
  }

  /** Different numbers have different numerals. */
  lemma DecimalInjective(a: nat, b: nat)
    requires Decimal(a) == Decimal(b)
    ensures a == b
  {
    DecimalDenotes(a);
    DecimalDenotes(b);
  }
}
