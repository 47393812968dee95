/**
 * String operations of JavaScript that the framework relies on: number to
 * string conversion, `String.prototype.split` with a one-character
 * separator, `Array.prototype.join`, prefix and suffix tests.
 */
module JsStrings {

  predicate IsDigit(c: char) { '0' <= c <= '9' }

  predicate AllDigits(s: string) { forall i | 0 <= i < |s| :: IsDigit(s[i]) }

  function DigitChar(d: nat): (c: char)
    requires d < 10
    ensures IsDigit(c)
  {
    ['0', '1', '2', '3', '4', '5', '6', '7', '8', '9'][d]
  }

  function DigitValue(c: char): nat
    requires IsDigit(c)
  {
    (c as int - '0' as int) as nat
  }

  /** Decimal rendering of a natural number, as `String(n)` gives it. */
  function NatToString(n: nat): (s: string)
    ensures |s| > 0 && AllDigits(s)
    decreases n
  {
    if n < 10 then [DigitChar(n)] else NatToString(n / 10) + [DigitChar(n % 10)]
  }

  /** Decimal rendering of an integer, with a leading '-' for a negative one. */
  function IntToString(n: int): (s: string)
    ensures n >= 0 ==> s == NatToString(n)
    ensures n < 0 ==> s == "-" + NatToString(-n)
  {
    if n < 0 then "-" + NatToString(-n) else NatToString(n)
  }

  /** Value of a string of digits read in base ten. */
  function DigitsValue(s: string): nat
    requires AllDigits(s)
  {
    if s == [] then 0 else 10 * DigitsValue(s[..|s| - 1]) + DigitValue(s[|s| - 1])
  }

  lemma {:induction false} DigitValueOfDigitChar(d: nat)
    requires d < 10
    ensures DigitValue(DigitChar(d)) == d
  {
    var digits := ['0', '1', '2', '3', '4', '5', '6', '7', '8', '9'];
    assert DigitChar(d) == digits[d];
  }

  /** Reading back the rendering of a natural number gives the number. */
  lemma {:induction false} NatToStringRoundTrip(n: nat)
    ensures DigitsValue(NatToString(n)) == n
    decreases n
  {
    var s := NatToString(n);
    if n < 10 {
      DigitValueOfDigitChar(n);
    } else {
      NatToStringRoundTrip(n / 10);
      DigitValueOfDigitChar(n % 10);
      assert s[..|s| - 1] == NatToString(n / 10);
    }
  }

  predicate StartsWith(s: string, prefix: string) { |prefix| <= |s| && s[..|prefix|] == prefix }

  predicate EndsWith(s: string, suffix: string) { |suffix| <= |s| && s[|s| - |suffix|..] == suffix }

  /** `s.indexOf(t) !== -1` */
  predicate Contains(s: string, t: string)
    decreases |s|
  {
    StartsWith(s, t) || (|s| > 0 && Contains(s[1..], t))
  }

  /** Index of the first occurrence of `c` in `s`, if any. */
  function IndexOf(s: string, c: char): (r: int)
    ensures r == -1 <==> c !in s
    ensures r != -1 ==> 0 <= r < |s| && s[r] == c && c !in s[..r]
  {
    if |s| == 0 then -1
    else if s[0] == c then 0
    else
      var k := IndexOf(s[1..], c);
      assert s[1..][..if k == -1 then 0 else k] == s[1..if k == -1 then 1 else k + 1];
      if k == -1 then -1 else k + 1
  }

  /** `s.split(c)` for a one-character separator. */
  function Split(s: string, c: char): (parts: seq<string>)
    ensures |parts| >= 1
    decreases |s|
  {
    var k := IndexOf(s, c);
    if k == -1 then [s] else [s[..k]] + Split(s[k + 1..], c)
  }

  /** `parts.join(c)` */
  function Join(parts: seq<string>, c: char): string
  {
    if |parts| == 0 then ""
    else if |parts| == 1 then parts[0]
    else parts[0] + [c] + Join(parts[1..], c)
  }

  /** Splitting and joining again with the same separator gives the input back. */
  lemma {:induction false} JoinSplit(s: string, c: char)
    ensures Join(Split(s, c), c) == s
    decreases |s|
  {
    var k := IndexOf(s, c);
    if k != -1 {
      var rest := s[k + 1..];
      JoinSplit(rest, c);
      assert s == s[..k] + [c] + rest;
    }
  }

  /** The first occurrence of `c` is at `k` when `s[k]` is `c` and no earlier character is. */
  lemma IndexOfAt(s: string, c: char, k: nat)
    requires k < |s| && s[k] == c && c !in s[..k]
    ensures IndexOf(s, c) == k
  {
    assert c in s;
  }

  /** Splitting `a + c + b` where `a` holds no separator gives `a`, then the parts of `b`. */
  lemma {:induction false} SplitAppend(a: string, b: string, c: char)
    requires c !in a
    ensures Split(a + [c] + b, c) == [a] + Split(b, c)
  {
    var s := a + [c] + b;
    assert s[..|a|] == a;
    IndexOfAt(s, c, |a|);
    assert s[|a| + 1..] == b;
  }

  /** Splitting `a + c + b` splits `a` and `b` separately. */
  lemma {:induction false} SplitConcat(a: string, b: string, c: char)
    ensures Split(a + [c] + b, c) == Split(a, c) + Split(b, c)
    decreases |a|
  {
    if c !in a {
      SplitAppend(a, b, c);
    } else {
      var k := IndexOf(a, c);
      SplitConcat(a[k + 1..], b, c);
      SplitConcatStep(a, b, c);
    }
  }

  /** One step of `SplitConcat`: the first separator in `a` cuts both sides alike. */
  lemma SplitConcatStep(a: string, b: string, c: char)
    requires c in a
    requires var rest := a[IndexOf(a, c) + 1..];
      Split(rest + [c] + b, c) == Split(rest, c) + Split(b, c)
    ensures Split(a + [c] + b, c) == Split(a, c) + Split(b, c)
  {
    var k := IndexOf(a, c);
    SplitFirst(a, b, c);
    SplitUnfold(a, c);
    Regrouped(Split(a + [c] + b, c), [a[..k]], Split(a[k + 1..] + [c] + b, c), Split(a[k + 1..], c), Split(b, c), Split(a, c));
  }

  /** `whole` is `x + (y + z)` and `front` is `x + y`, so `whole` is `front + z`. */
  lemma Regrouped<T>(whole: seq<T>, x: seq<T>, tail: seq<T>, y: seq<T>, z: seq<T>, front: seq<T>)
    requires whole == x + tail && tail == y + z && front == x + y
    ensures whole == front + z
  {
  }

  /** Where `s` holds the separator, its parts are the text before the first one, then the parts after it. */
  lemma SplitUnfold(s: string, c: char)
    requires c in s
    ensures var k := IndexOf(s, c);
      Split(s, c) == [s[..k]] + Split(s[k + 1..], c)
  {
  }

  /** Where `a` holds the separator, splitting `a + c + b` cuts at the first one in `a`. */
  lemma SplitFirst(a: string, b: string, c: char)
    requires c in a
    ensures var k := IndexOf(a, c);
      Split(a + [c] + b, c) == [a[..k]] + Split(a[k + 1..] + [c] + b, c)
  {
    var s := a + [c] + b;
    var k := IndexOf(a, c);
    assert IndexOf(s, c) == k by {
      assert s[..k] == a[..k] && s[k] == c;
      IndexOfAt(s, c, k);
    }
    assert s[k + 1..] == a[k + 1..] + [c] + b;
    assert s[..k] == a[..k];
  }

  /** A string contains each of its suffixes. */
  lemma {:induction false} EndsWithContains(s: string, t: string)
    requires EndsWith(s, t)
    ensures Contains(s, t)
    decreases |s|
  {
    if |s| > |t| {
      assert s[1..][|s[1..]| - |t|..] == s[|s| - |t|..];
      EndsWithContains(s[1..], t);
    }
  }

  /** What a string contains, any extension of it in front contains as well. */
  lemma {:induction false} ContainsExtended(a: string, b: string, t: string)
    requires Contains(b, t)
    ensures Contains(a + b, t)
    decreases |a|
  {
    if |a| > 0 {
      assert (a + b)[1..] == a[1..] + b;
      ContainsExtended(a[1..], b, t);
      assert Contains((a + b)[1..], t);
    } else {
      assert a + b == b;
    }
  }

  /** A decimal numeral as `String(n)` writes it: "0" or digits without a leading zero. */
  predicate IsNumeral(s: string)
  {
    |s| > 0 && AllDigits(s) && (s == "0" || s[0] != '0')
  }

  lemma {:induction false} LeadingDigitPositive(s: string)
    requires |s| > 0 && AllDigits(s) && s[0] != '0'
    ensures DigitsValue(s) > 0
    decreases |s|
  {
    if |s| > 1 {
      LeadingDigitPositive(s[..|s| - 1]);
    }
  }

  /** Writing out the value of a numeral gives the numeral back. */
  lemma {:induction false} NumeralRoundTrip(s: string)
    requires IsNumeral(s)
    ensures NatToString(DigitsValue(s)) == s
    decreases |s|
  {
    var last := s[|s| - 1];
    var d := DigitValue(last);
    assert DigitChar(d) == last by {
      var digits := ['0', '1', '2', '3', '4', '5', '6', '7', '8', '9'];
      assert digits[d] == last;
    }
    if |s| > 1 {
      var init := s[..|s| - 1];
      assert init[0] == s[0];
      LeadingDigitPositive(init);
      NumeralRoundTrip(init);
      var n := DigitsValue(s);
      assert n == 10 * DigitsValue(init) + d;
      assert n / 10 == DigitsValue(init) && n % 10 == d;
      assert s == init + [last];
    }
  }

  /** Two different numerals have different values. */
  lemma NumeralsDiffer(a: string, b: string)
    requires IsNumeral(a) && IsNumeral(b) && a != b
    ensures DigitsValue(a) != DigitsValue(b)
  {
    NumeralRoundTrip(a);
    NumeralRoundTrip(b);
  }
}
