/** Strings as sequences of characters: ASCII digits, decimal conversion,
    substring search, splitting and joining, as the gallery script uses them. */
module Text {
  import opened Options

  predicate IsDigit(c: char) {
    '0' <= c <= '9'
  }

  predicate AllDigits(s: string) {
    forall i :: 0 <= i < |s| ==> IsDigit(s[i])
  }

  predicate NoDigits(s: string) {
    forall i :: 0 <= i < |s| ==> !IsDigit(s[i])
  }

  function DigitValue(c: char): (d: nat)
    requires IsDigit(c)
    ensures d < 10
  {
    c as int - '0' as int
  }

  function DigitChar(d: nat): (c: char)
    requires d < 10
    ensures IsDigit(c) && DigitValue(c) == d
  {
    ('0' as int + d) as char
  }

  /** The number a string of ASCII digits spells in base 10 (leading zeros allowed). */
  function DigitsValue(s: string): nat
    requires AllDigits(s)
  {
    if s == [] then 0 else DigitsValue(s[..|s| - 1]) * 10 + DigitValue(s[|s| - 1])
  }

  /** `str(n)` for a natural number: base 10, no leading zeros. */
  function NatToString(n: nat): (s: string)
    ensures 1 <= |s| && AllDigits(s)
    decreases n
  {
    if n < 10 then [DigitChar(n)] else NatToString(n / 10) + [DigitChar(n % 10)]
  }

  lemma {:induction false} NatToStringRoundTrip(n: nat)
    ensures DigitsValue(NatToString(n)) == n
    decreases n
  {
    if n >= 10 {
      NatToStringRoundTrip(n / 10);
      var s := NatToString(n);
      assert s[..|s| - 1] == NatToString(n / 10);
    }
  }

  function Pow10(k: nat): (p: nat)
    ensures 1 <= p
  {
    if k == 0 then 1 else 10 * Pow10(k - 1)
  }

  /** Reading digits is positional: the digits of `x` are worth 10^|y| times more. */
  lemma {:induction false} DigitsValueAppend(x: string, y: string)
    requires AllDigits(x) && AllDigits(y)
    ensures AllDigits(x + y)
    ensures DigitsValue(x + y) == DigitsValue(x) * Pow10(|y|) + DigitsValue(y)
    decreases |y|
  {
    if y == [] {
      assert x + y == x;
    } else {
      var init := y[..|y| - 1];
      var last := y[|y| - 1];
      DigitsValueAppend(x, init);
      assert (x + y)[..|x + y| - 1] == x + init;
      assert (x + y)[|x + y| - 1] == last;
      ShiftDigit(DigitsValue(x), Pow10(|init|), DigitsValue(init), DigitValue(last));
    }
  }

  lemma ShiftDigit(a: int, p: int, b: int, d: int)
    ensures (a * p + b) * 10 + d == a * (10 * p) + (b * 10 + d)
  {
    assert (a * p) * 10 == a * (10 * p);
  }

  lemma {:induction false} DigitsValueBound(s: string)
    requires AllDigits(s)
    ensures DigitsValue(s) < Pow10(|s|)
    decreases |s|
  {
    if s != [] {
      DigitsValueBound(s[..|s| - 1]);
    }
  }

  lemma DigitsValueTwo(s: string)
    requires |s| == 2 && AllDigits(s)
    ensures DigitsValue(s) == DigitValue(s[0]) * 10 + DigitValue(s[1])
  {
    var first := s[..1];
    assert first[..0] == [] && first[0] == s[0];
    assert DigitsValue(first) == DigitValue(s[0]);
  }

  lemma NatToStringInjective(a: nat, b: nat)
    requires NatToString(a) == NatToString(b)
    ensures a == b
  {
    NatToStringRoundTrip(a);
    NatToStringRoundTrip(b);
  }

  /** `int(s)` (Python) and `int.parse(s)` (Dart) on the strings the script hands
      them (digit groups and parts of keys, never signed or padded): defined exactly
      on non-empty strings of decimal digits; None stands for the exception they raise. */
  function ParseInt(s: string): (r: Option<int>)
    ensures r.Some? <==> 1 <= |s| && AllDigits(s)
    ensures r.Some? ==> 0 <= r.value
  {
    if 1 <= |s| && AllDigits(s) then Some(DigitsValue(s)) else None
  }

  lemma ParseNatToString(n: nat)
    ensures ParseInt(NatToString(n)) == Some(n)
  {
    NatToStringRoundTrip(n);
  }

  predicate StartsWith(s: string, prefix: string) {
    |prefix| <= |s| && s[..|prefix|] == prefix
  }

  lemma StartsWithConcat(a: string, b: string)
    ensures StartsWith(a + b, a)
  {
    assert (a + b)[..|a|] == a;
  }

  predicate EndsWith(s: string, suffix: string) {
    |suffix| <= |s| && s[|s| - |suffix|..] == suffix
  }

  predicate OccursAt(s: string, sep: string, k: nat) {
    k + |sep| <= |s| && s[k..k + |sep|] == sep
  }

  /** The leftmost index at or after `from` where `sep` occurs in `s` (Python `str.find`). */
  function IndexOf(s: string, sep: string, from: nat): (r: Option<nat>)
    ensures r.Some? ==> from <= r.value && OccursAt(s, sep, r.value)
    ensures r.Some? ==> forall k :: from <= k < r.value ==> !OccursAt(s, sep, k)
    ensures r.None? ==> forall k :: from <= k ==> !OccursAt(s, sep, k)
    decreases |s| - from
  {
    if from + |sep| > |s| then None
    else if s[from..from + |sep|] == sep then Some(from)
    else IndexOf(s, sep, from + 1)
  }

  /** `sep in s` */
  predicate Contains(s: string, sep: string) {
    IndexOf(s, sep, 0).Some?
  }

  /** `s.split(sep)` for a non-empty separator: the pieces between successive
      leftmost occurrences. */
  function Split(s: string, sep: string): (parts: seq<string>)
    requires |sep| > 0
    ensures 1 <= |parts|
    ensures IndexOf(s, sep, 0).None? ==> parts == [s]
    ensures IndexOf(s, sep, 0).Some? ==> 2 <= |parts| && parts[0] == s[..IndexOf(s, sep, 0).value]
    decreases |s|
  {
    match IndexOf(s, sep, 0)
    case None => [s]
    case Some(i) => [s[..i]] + Split(s[i + |sep|..], sep)
  }

  /** `'\n'.join(lines)` */
  function JoinLines(lines: seq<string>): string {
    if lines == [] then ""
    else if |lines| == 1 then lines[0]
    else JoinLines(lines[..|lines| - 1]) + "\n" + lines[|lines| - 1]
  }

  lemma {:induction false} JoinLinesStartsWith(lines: seq<string>)
    requires 1 <= |lines|
    ensures StartsWith(JoinLines(lines), lines[0])
    decreases |lines|
  {
    if |lines| > 1 {
      var init := lines[..|lines| - 1];
      JoinLinesStartsWith(init);
      assert init[0] == lines[0];
      var j := JoinLines(init);
      assert JoinLines(lines) == j + ("\n" + lines[|lines| - 1]);
      assert JoinLines(lines)[..|lines[0]|] == j[..|lines[0]|];
    }
  }

  lemma EndsWithConcat(p: string, t: string)
    ensures EndsWith(p + t, t)
  {
    assert (p + t)[|p|..] == t;
  }

  lemma JoinAssoc(a: string, x: string, y: string)
    ensures (a + "\n" + x) + "\n" + y == (a + "\n") + (x + "\n" + y)
  {
  }

  /** The joined text ends with the last two lines separated by a newline. */
  lemma JoinLinesEndsWith(lines: seq<string>)
    requires 2 <= |lines|
    ensures EndsWith(JoinLines(lines), lines[|lines| - 2] + "\n" + lines[|lines| - 1])
  {
    var n := |lines|;
    var x, y := lines[n - 2], lines[n - 1];
    var b := JoinLines(lines[..n - 1]);
    assert JoinLines(lines) == b + "\n" + y;
    if n == 2 {
      assert b == x;
      EndsWithConcat([], x + "\n" + y);
      assert [] + (x + "\n" + y) == x + "\n" + y;
    } else {
      var a := JoinLines(lines[..n - 2]);
      assert b == a + "\n" + x by {
        assert lines[..n - 1][..n - 2] == lines[..n - 2];
      }
      JoinAssoc(a, x, y);
      EndsWithConcat(a + "\n", x + "\n" + y);
    }
  }

  /** The joined text is the join of all but the last two lines, then those two,
      each after a newline. */
  lemma JoinLinesLastTwo(lines: seq<string>)
    requires 3 <= |lines|
    ensures JoinLines(lines) == JoinLines(lines[..|lines| - 2]) + "\n" + lines[|lines| - 2] + "\n" + lines[|lines| - 1]
  {
    assert lines[..|lines| - 1][..|lines| - 2] == lines[..|lines| - 2];
  }
}
