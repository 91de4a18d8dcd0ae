/** Decimal numerals: printing (`std::to_string`) and reading with 64-bit overflow detection
    (`parse_unsigned` in src/protocol/TextCodec.cpp). */
module Numerals {
  import opened Words
  import opened Wrappers

  predicate IsDigit(c: char) {
    '0' <= c <= '9'
  }

  predicate AllDigits(s: string) {
    forall i :: 0 <= i < |s| ==> IsDigit(s[i])
  }

  predicate IsNumeral(s: string) {
    s != "" && AllDigits(s)
  }

  function DigitValue(c: char): (v: nat)
    requires IsDigit(c)
    ensures v < 10
  {
    c as int - '0' as int
  }

  /** The number that a string of digits denotes; leading zeros do not matter. */
  function Value(s: string): nat
    requires AllDigits(s)
  {
    if s == "" then 0 else 10 * Value(s[..|s| - 1]) + DigitValue(s[|s| - 1])
  }

  /** What `parse_unsigned` promises: exactly the numerals below 2^64 are read, each as its value. */
  function Unsigned(token: string): Option<Word> {
    if IsNumeral(token) && Value(token) < TWO_64 then Some(Value(token)) else None
  }

  function Digit(d: nat): (c: char)
    requires d < 10
    ensures IsDigit(c) && DigitValue(c) == d
  {
    ('0' as int + d) as char
  }

  function Print(n: nat): string {
    if n < 10 then [Digit(n)] else Print(n / 10) + [Digit(n % 10)]
  }

  lemma {:induction false} PrintedIsRead(n: nat)
    ensures IsNumeral(Print(n)) && Value(Print(n)) == n
  {
    var s := Print(n);
    if n >= 10 {
      PrintedIsRead(n / 10);
      assert s[..|s| - 1] == Print(n / 10);
    } else {
      assert s[..|s| - 1] == "";
    }
  }

  /** Numbers are printed without leading zeros. */
  lemma {:induction false} PrintIsPlain(n: nat)
    ensures Print(n)[0] == '0' <==> n == 0
    ensures |Print(n)| == 1 <==> n < 10
  {
    if n >= 10 {
      PrintIsPlain(n / 10);
    }
  }

  lemma PrintIsInjective(m: nat, n: nat)
    requires Print(m) == Print(n)
    ensures m == n
  {
    PrintedIsRead(m);
    PrintedIsRead(n);
  }

  /** A numeral is at least as large as each of its prefixes, so an overflow is never undone. */
  lemma {:induction false} PrefixIsSmaller(s: string, k: nat)
    requires AllDigits(s) && k <= |s|
    ensures Value(s[..k]) <= Value(s)
  {
    if k == |s| {
      assert s[..k] == s;
    } else {
      PrefixIsSmaller(s[..|s| - 1], k);
      assert s[..|s| - 1][..k] == s[..k];
    }
  }

  method ParseUnsigned(token: string) returns (result: Option<Word>)
    ensures result == Unsigned(token)
  {
    var value: Word, overflow, i := 0, false, 0;
    while i < |token| && IsDigit(token[i])
      invariant i <= |token| && AllDigits(token[..i])
      invariant overflow ==> Value(token[..i]) >= TWO_64
      invariant !overflow ==> value == Value(token[..i])
    {
      assert token[..i + 1][..i] == token[..i];
      var digit := DigitValue(token[i]);
      if overflow || value > (TWO_64 - 1 - digit) / 10 {
        overflow := true;
      } else {
        value := 10 * value + digit;
      }
      i := i + 1;
    }
    if i < |token| || token == "" {
      return None;
    }
    assert token[..i] == token;
    return if overflow then None else Some(value);
  }
}
