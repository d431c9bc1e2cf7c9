/** Decimal text: the padded counters inside event, request, window, version and draft ids. */
module Text {

  predicate IsDigit(c: char) { '0' <= c <= '9' }

  predicate AllDigits(s: string) { forall i :: 0 <= i < |s| ==> IsDigit(s[i]) }

  function DigitChar(d: nat): (c: char)
    requires d < 10
    ensures IsDigit(c) && c as int - '0' as int == d
  {
    ('0' as int + d) as char
  }

  /** Python's `str(n)` for a natural number. */
  function Digits(n: nat): (s: string)
    ensures |s| >= 1 && AllDigits(s)
  {
    if n < 10 then [DigitChar(n)] else Digits(n / 10) + [DigitChar(n % 10)]
  }

  /** Python's `int(s)` on a string of decimal digits. */
  function Value(s: string): nat
    requires AllDigits(s)
  {
    if s == "" then 0 else Value(s[..|s| - 1]) * 10 + (s[|s| - 1] as int - '0' as int)
  }

  function Zeros(k: nat): (s: string)
    ensures |s| == k && AllDigits(s)
  {
    if k == 0 then "" else "0" + Zeros(k - 1)
  }

  /** Python's `f"{n:0{width}d}"`. */
  function Pad(n: nat, width: nat): (s: string)
    ensures AllDigits(s) && |s| >= 1
  {
    var d := Digits(n);
    if |d| >= width then d else Zeros(width - |d|) + d
  }

  lemma {:induction false} DigitsValue(n: nat)
    ensures Value(Digits(n)) == n
  {
    if n >= 10 {
      DigitsValue(n / 10);
      assert Digits(n)[..|Digits(n)| - 1] == Digits(n / 10);
    } else {
      assert Digits(n)[..0] == "";
    }
  }

  lemma {:induction false} ZerosValue(k: nat, s: string)
    requires AllDigits(s)
    ensures AllDigits(Zeros(k) + s) && Value(Zeros(k) + s) == Value(s)
  {
    if s == "" {
      assert Zeros(k) + s == Zeros(k);
      if k > 0 {
        ZerosValue(k - 1, "");
        assert Zeros(k) == Zeros(k - 1) + "0" by { ZerosSnoc(k - 1); }
        assert Zeros(k - 1) + "" == Zeros(k - 1);
        assert Zeros(k)[..k - 1] == Zeros(k - 1);
      }
    } else {
      var t := s[..|s| - 1];
      ZerosValue(k, t);
      assert (Zeros(k) + s)[..|Zeros(k) + s| - 1] == Zeros(k) + t;
    }
  }

  lemma {:induction false} ZerosSnoc(k: nat)
    ensures "0" + Zeros(k) == Zeros(k) + "0"
  {
    if k > 0 {
      ZerosSnoc(k - 1);
      assert "0" + ("0" + Zeros(k - 1)) == "0" + (Zeros(k - 1) + "0") == ("0" + Zeros(k - 1)) + "0";
    }
  }

  /** Reading a padded counter back gives the counter: padding never makes two counters look alike. */
  lemma PadValue(n: nat, width: nat)
    ensures Value(Pad(n, width)) == n
  {
    hide Digits, Zeros, Value;
    DigitsValue(n);
    var d := Digits(n);
    if |d| < width {
      ZerosValue(width - |d|, d);
    }
  }

  lemma PadInjective(m: nat, n: nat, width: nat)
    requires Pad(m, width) == Pad(n, width)
    ensures m == n
  {
    hide Pad;
    PadValue(m, width);
    PadValue(n, width);
  }

  /** Text up to the first separator determines both sides of the split. */
  lemma SplitAtFirst(a: string, x: string, b: string, y: string, mark: char)
    requires mark !in a && mark !in b
    requires a + [mark] + x == b + [mark] + y
    ensures a == b && x == y
  {
    var s := a + [mark] + x;
    var t := b + [mark] + y;
    assert s[|a|] == mark;
    assert t[|b|] == mark;
    assert |a| == |b|;
    assert s[..|a|] == a && t[..|b|] == b;
    assert s[|a| + 1..] == x && t[|b| + 1..] == y;
  }

  /** Text after the last separator determines both sides of the split. */
  lemma SplitAtLast(x: string, a: string, y: string, b: string, mark: char)
    requires mark !in a && mark !in b
    requires x + [mark] + a == y + [mark] + b
    ensures x == y && a == b
  {
    var s := x + [mark] + a;
    var t := y + [mark] + b;
    assert s[|x|] == mark;
    assert t[|y|] == mark;
    assert |x| == |y|;
    assert s[..|x|] == x && t[..|y|] == y;
    assert s[|x| + 1..] == a && t[|y| + 1..] == b;
  }
}
