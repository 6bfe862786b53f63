/** Decimal text of natural numbers: what an f-string does with an int
    (`f"{n}"`) and what `int(text)` does with a string of ASCII digits. */
module Decimal {

  import opened Wrappers

  predicate IsDigit(c: char) {
    '0' <= c <= '9'
  }

  predicate AllDigits(s: string) {
    forall i | 0 <= i < |s| :: IsDigit(s[i])
  }

  function DigitChar(d: nat): (c: char)
    requires d < 10
    ensures IsDigit(c) && DigitValue(c) == d
  {
    (('0' as int) + d) as char
  }

  function DigitValue(c: char): nat
    requires IsDigit(c)
  {
    (c as int) - ('0' as int)
  }

  /** The decimal rendering of `n`, most significant digit first. */
  function Render(n: nat): string {
    if n < 10 then [DigitChar(n)] else Render(n / 10) + [DigitChar(n % 10)]
  }

  /** A rendering is a non-empty run of digits without a leading zero, so it
      holds neither a colon nor a space. */
  lemma {:induction false} RenderShape(n: nat)
    ensures var s := Render(n);
      && |s| > 0 && AllDigits(s)
      && (|s| > 1 ==> s[0] != '0')
      && ':' !in s && ' ' !in s
  {
    if n >= 10 {
      RenderShape(n / 10);
    }
  }

  /** The number denoted by a string of digits, most significant first. */
  function Value(s: string): nat
    requires AllDigits(s)
  {
    if |s| == 0 then 0 else 10 * Value(s[..|s| - 1]) + DigitValue(s[|s| - 1])
  }

  /** `int(s)` restricted to plain ASCII digits: anything else is a failure. */
  function Parse(s: string): (r: Option<nat>)
    ensures r.Some? <==> |s| > 0 && AllDigits(s)
  {
    if |s| > 0 && AllDigits(s) then Some(Value(s)) else None
  }

  lemma {:induction false} ValueRender(n: nat)
    ensures AllDigits(Render(n)) && Value(Render(n)) == n
  {
    RenderShape(n);
    var s := Render(n);
    if n < 10 {
      assert s[..|s| - 1] == [];
    } else {
      ValueRender(n / 10);
      assert s[..|s| - 1] == Render(n / 10);
    }
  }

  /** Parsing what was rendered gives the number back. */
  lemma ParseRender(n: nat)
    ensures Parse(Render(n)) == Some(n)
  {
    RenderShape(n);
    ValueRender(n);
  }

  /** A digit string that does not start with '0' denotes a positive number. */
  lemma {:induction false} ValuePositive(s: string)
    requires |s| > 0 && AllDigits(s) && s[0] != '0'
    ensures Value(s) > 0
    decreases |s|
  {
    if |s| > 1 {
      var p := s[..|s| - 1];
      assert p[0] == s[0];
      ValuePositive(p);
    }
  }

  /** Rendering what was parsed gives the text back, for every digit string
      without a leading zero: together with `ParseRender`, `int()` and
      `f"{n}"` are inverse bijections between the naturals and such texts. */
  lemma {:induction false} RenderParse(s: string)
    requires |s| > 0 && AllDigits(s) && (|s| > 1 ==> s[0] != '0')
    ensures Parse(s).Some? && Render(Parse(s).value) == s
    decreases |s|
  {
    var v := Value(s);
    var c := s[|s| - 1];
    var d := DigitValue(c);
    assert DigitChar(d) == c;
    if |s| == 1 {
      assert s[..|s| - 1] == [];
      assert v == 10 * Value(s[..|s| - 1]) + d;
      assert s == [c];
    } else {
      var p := s[..|s| - 1];
      assert p[0] == s[0];
      RenderParse(p);
      ValuePositive(p);
      assert v == 10 * Value(p) + d;
      assert v / 10 == Value(p) && v % 10 == d;
      assert s == p + [c];
    }
  }
}
