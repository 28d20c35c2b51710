/** Decimal notation, as printed by the %d and %zu conversions. */
module Decimals {
  predicate IsDigit(c: char) {
    '0' <= c <= '9'
  }

  function Digits(n: nat): (s: string)
    ensures s != "" && forall i :: 0 <= i < |s| ==> IsDigit(s[i])
  {
    if n < 10 then ['0' + n as char] else Digits(n / 10) + ['0' + (n % 10) as char]
  }

  function Value(s: string): nat
    requires forall i :: 0 <= i < |s| ==> IsDigit(s[i])
  {
    if s == "" then 0
    else
      assert IsDigit(s[|s| - 1]);
      10 * Value(s[..|s| - 1]) + (s[|s| - 1] - '0') as nat
  }

  lemma {:induction false} ValueOfDigits(n: nat)
    ensures Value(Digits(n)) == n
  {
    if n < 10 {
    } else {
      ValueOfDigits(n / 10);
      assert Digits(n)[..|Digits(n)| - 1] == Digits(n / 10);
    }
  }

  lemma DigitsInjective(m: nat, n: nat)
    requires Digits(m) == Digits(n)
    ensures m == n
  {
    ValueOfDigits(m);
    ValueOfDigits(n);
  }

  // The last digit is the remainder by ten, and only zero starts with a zero.
  lemma {:induction false} DigitsShape(n: nat, d: nat)
    requires d < 10
    ensures Digits(10 * n + d) == (if n == 0 then "" else Digits(n)) + ["0123456789"[d]]
    ensures Digits(n)[0] == '0' <==> n == 0
  {
    if n >= 10 { DigitsShape(n / 10, n % 10); }
  }

  lemma LastDigit(s: string) returns (front: string, d: nat)
    requires s != "" && forall i :: 0 <= i < |s| ==> IsDigit(s[i])
    ensures front == s[..|s| - 1] && d < 10 && s == front + ["0123456789"[d]]
    ensures forall i :: 0 <= i < |front| ==> IsDigit(front[i])
    ensures Value(s) == 10 * Value(front) + d && (front == "" ==> Value(front) == 0)
  {
    var last := s[|s| - 1];
    assert IsDigit(last);
    front, d := s[..|s| - 1], (last - '0') as nat;
    assert last == '0' + d as char == "0123456789"[d];
  }

  // Every numeral without leading zeros is printed for the number it denotes.
  lemma {:induction false} DigitsOfValue(s: string)
    requires s != "" && (forall i :: 0 <= i < |s| ==> IsDigit(s[i])) && (|s| > 1 ==> s[0] != '0')
    ensures Digits(Value(s)) == s && (Value(s) == 0 ==> s == "0")
  {
    hide Digits, Value;
    var front, d := LastDigit(s);
    DigitsShape(Value(front), d);
    if front != "" {
      assert front[0] == s[0];
      DigitsOfValue(front);
    }
  }
}
