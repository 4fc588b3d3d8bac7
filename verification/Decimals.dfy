/** Decimal numbers as text: printing, and the two readers of the tracer. */
module Decimals {
  import opened Intervals

  predicate Digit(c: char) {
    '0' <= c <= '9'
  }

  predicate AllDigits(s: string) {
    forall i :: 0 <= i < |s| ==> Digit(s[i])
  }

  function DigitValue(c: char): (v: nat)
    requires Digit(c)
    ensures v < 10
  {
    c as int - '0' as int
  }

  function DigitChar(d: nat): (c: char)
    requires d < 10
    ensures Digit(c) && DigitValue(c) == d
  {
    ('0' as int + d) as char
  }

  function Value(s: string): nat
    requires AllDigits(s)
  {
    if s == "" then 0 else Value(s[..|s| - 1]) * 10 + DigitValue(s[|s| - 1])
  }

  /** `str(n)`. */
  function Decimal(n: nat): (s: string)
    ensures s != "" && AllDigits(s)
  {
    if n < 10 then [DigitChar(n)] else Decimal(n / 10) + [DigitChar(n % 10)]
  }

  lemma {:induction false} DecimalValue(n: nat)
    ensures Value(Decimal(n)) == n
  {
    if n >= 10 {
      DecimalValue(n / 10);
    } else {
      assert Value(Decimal(n)[..0]) == 0;
    }
  }

  /** The digits from 0 to 9, in the order of their characters. */
  lemma DigitsInOrder(c: char, d: char)
    requires Digit(c) && Digit(d)
    ensures DigitValue(c) < DigitValue(d) <==> c < d
    ensures DigitValue('0') == 0 && DigitValue('9') == 9
  {
  }

  /** The value of a number in two parts. */
  lemma {:induction false} ValueOfJoin(s: string, t: string)
    requires AllDigits(s) && AllDigits(t)
    ensures AllDigits(s + t) && Value(s + t) == Value(s) * Power10(|t|) + Value(t)
  {
    if t == "" {
      assert s + t == s;
    } else {
      var n := |t| - 1;
      assert (s + t)[..|s| + n] == s + t[..n];
      ValueOfJoin(s, t[..n]);
      TenTimes(Value(s), Power10(n));
    }
  }

  lemma TenTimes(a: nat, b: nat)
    ensures (a * b) * 10 == a * (10 * b)
  {
  }

  lemma {:induction false} ValuePositive(s: string)
    requires s != "" && AllDigits(s) && s[0] != '0'
    ensures Value(s) > 0
  {
    if |s| > 1 {
      ValuePositive(s[..|s| - 1]);
    }
  }

  /** The only text of a number without leading zeros is the printed one. */
  lemma {:induction false} OneDecimal(s: string)
    requires s != "" && AllDigits(s) && (s[0] != '0' || |s| == 1)
    ensures s == Decimal(Value(s))
  {
    var n := |s| - 1;
    var front, d := s[..n], DigitValue(s[n]);
    assert s == front + [DigitChar(d)];
    if n > 0 {
      ValuePositive(front);
      OneDecimal(front);
      assert Value(s) / 10 == Value(front) && Value(s) % 10 == d;
    }
  }

  function Power10(k: nat): nat {
    if k == 0 then 1 else 10 * Power10(k - 1)
  }

  lemma {:induction false} DecimalLength(n: nat, k: nat)
    requires 0 < k && n < Power10(k)
    ensures |Decimal(n)| <= k
  {
    if n >= 10 {
      assert k > 1;
      DecimalLength(n / 10, k - 1);
    }
  }

  // ------------------------------------------------------------ strtoul

  const ULONG: nat := 0x1_0000_0000_0000_0000

  predicate IsSpace(c: char) {
    c == ' ' || 9 <= c as int <= 13
  }

  lemma SpaceTable(c: char)
    ensures IsSpace(c) <==> c in {' ', '\t', '\n', '\U{B}', '\U{C}', '\r'}
  {
  }

  function SkipSpaces(s: string, i: nat): (j: nat)
    requires i <= |s|
    ensures i <= j <= |s|
    decreases |s| - i
  {
    if i < |s| && IsSpace(s[i]) then SkipSpaces(s, i + 1) else i
  }

  function DigitsEnd(s: string, i: nat): (j: nat)
    requires i <= |s|
    ensures i <= j <= |s| && AllDigits(s[i..j])
    ensures j == |s| || !Digit(s[j])
    decreases |s| - i
  {
    if i < |s| && Digit(s[i]) then
      var j := DigitsEnd(s, i + 1);
      assert s[i..j] == [s[i]] + s[i + 1..j];
      j
    else i
  }

  /** `strtoul(s, &end, 10)` on 64 bits: white space, a sign, digits; it saturates, and a minus wraps. */
  function StrToUl(s: string): (r: (nat, nat))
    ensures r.0 < ULONG && r.1 <= |s|
  {
    var i := SkipSpaces(s, 0);
    var start := if i < |s| && (s[i] == '+' || s[i] == '-') then i + 1 else i;
    var end := DigitsEnd(s, start);
    if end == start then (0, 0)
    else
      var v := Value(s[start..end]);
      if v >= ULONG then (ULONG - 1, end)
      else if s[i] == '-' then ((ULONG - v) % ULONG, end)
      else (v, end)
  }

  lemma {:induction false} DigitsToTheEnd(s: string, i: nat)
    requires AllDigits(s) && i <= |s|
    ensures DigitsEnd(s, i) == |s|
    decreases |s| - i
  {
    if i < |s| {
      DigitsToTheEnd(s, i + 1);
    }
  }

  lemma {:induction false} StrToUlDigits(s: string)
    requires s != "" && AllDigits(s)
    ensures StrToUl(s) == (if Value(s) < ULONG then Value(s) else ULONG - 1, |s|)
  {
    assert Digit(s[0]);
    DigitsToTheEnd(s, 0);
    assert s[0..|s|] == s;
  }

  /** White space, perhaps a sign, and digits. */
  ghost predicate NumberText(s: string, w: string, sign: string, d: string) {
    && s == w + sign + d && (forall i :: 0 <= i < |w| ==> IsSpace(w[i]))
    && (sign == "" || sign == "+" || sign == "-") && d != "" && AllDigits(d)
  }

  lemma {:induction false} SkippedSpaces(s: string, i: nat)
    requires i <= |s|
    ensures var j := SkipSpaces(s, i);
      (forall k :: i <= k < j ==> IsSpace(s[k])) && (j < |s| ==> !IsSpace(s[j]))
    decreases |s| - i
  {
    if i < |s| && IsSpace(s[i]) {
      SkippedSpaces(s, i + 1);
    }
  }

  lemma {:induction false} DigitsFrom(s: string, i: nat)
    requires i <= |s| && AllDigits(s[i..])
    ensures DigitsEnd(s, i) == |s|
    decreases |s| - i
  {
    if i < |s| {
      assert s[i] == s[i..][0] && s[i + 1..] == s[i..][1..];
      DigitsFrom(s, i + 1);
    }
  }

  lemma {:induction false} SkipsTo(s: string, n: nat)
    requires n < |s| && !IsSpace(s[n]) && forall k :: 0 <= k < n ==> IsSpace(s[k])
    ensures SkipSpaces(s, 0) == n
  {
    SkippedSpaces(s, 0);
  }

  /** A text that is a number to its end: its value, saturated, and wrapped behind a minus sign. */
  lemma {:induction false} ReadsNumber(s: string, w: string, sign: string, d: string)
    requires NumberText(s, w, sign, d)
    ensures StrToUl(s).1 == |s|
    ensures StrToUl(s).0 ==
      if Value(d) >= ULONG then ULONG - 1 else if sign == "-" then (ULONG - Value(d)) % ULONG else Value(d)
  {
    var first, start := |w|, |w| + |sign|;
    assert Digit(d[0]);
    assert s[first] == if sign == "" then d[0] else sign[0];
    assert forall k :: 0 <= k < first ==> s[k] == w[k];
    SkipsTo(s, first);
    assert s[start..] == d && s[start..|s|] == d;
    DigitsFrom(s, start);
  }

  /** Whatever else is read to its end is not a number above zero. */
  lemma NumberRead(s: string) returns (w: string, sign: string, d: string)
    requires StrToUl(s).1 == |s| && StrToUl(s).0 > 0
    ensures NumberText(s, w, sign, d)
  {
    SkippedSpaces(s, 0);
    var i := SkipSpaces(s, 0);
    var start := if i < |s| && (s[i] == '+' || s[i] == '-') then i + 1 else i;
    w, sign, d := s[..i], s[i..start], s[start..];
    assert s[start..|s|] == s[start..];
  }

  // ---------------------------------------------------------------- int()

  /** Digits with single underscores between them. */
  function Grouped(s: string): Option<nat> {
    if s == "" || !Digit(s[|s| - 1]) then None
    else if |s| == 1 then Some(DigitValue(s[0]))
    else
      var rest := if s[|s| - 2] == '_' then s[..|s| - 2] else s[..|s| - 1];
      match Grouped(rest)
      case None => None
      case Some(v) => Some(v * 10 + DigitValue(s[|s| - 1]))
  }

  /** Digits, and underscores that have a digit on either side. */
  ghost predicate WellGrouped(s: string) {
    && s != "" && Digit(s[0]) && Digit(s[|s| - 1])
    && forall i :: 0 <= i < |s| ==> GroupedAt(s, i)
  }

  ghost predicate GroupedAt(s: string, i: nat)
    requires i < |s|
  {
    Digit(s[i]) || (s[i] == '_' && 0 < i < |s| - 1 && Digit(s[i - 1]) && Digit(s[i + 1]))
  }

  /** The digits of a text. */
  ghost function DigitsOf(s: string): (r: string)
    ensures AllDigits(r)
  {
    if s == "" then ""
    else
      var n := |s| - 1;
      DigitsOf(s[..n]) + if Digit(s[n]) then [s[n]] else []
  }

  lemma {:induction false} GroupedMeans(s: string)
    ensures Grouped(s).Some? <==> WellGrouped(s)
    ensures Grouped(s).Some? ==> Grouped(s).value == Value(DigitsOf(s))
    decreases |s|
  {
    if s != "" && Digit(s[|s| - 1]) {
      var n := |s| - 1;
      var d := [s[n]];
      if n == 0 {
        assert s[..0] == "" && DigitsOf(s) == d && d[..0] == "";
      } else if s[n - 1] == '_' {
        var front := s[..n - 1];
        GroupedMeans(front);
        AfterUnderscore(front, s[n]);
        assert s == front + "_" + d && s[..n][..n - 1] == front;
        assert DigitsOf(s[..n]) == DigitsOf(front);
        ValueLast(DigitsOf(front), s[n]);
      } else {
        var front := s[..n];
        GroupedMeans(front);
        AfterDigit(front, s[n]);
        assert s == front + d;
        ValueLast(DigitsOf(front), s[n]);
      }
    }
  }

  lemma {:induction false} ValueLast(digits: string, c: char)
    requires AllDigits(digits) && Digit(c)
    ensures Value(digits + [c]) == Value(digits) * 10 + DigitValue(c)
  {
    assert (digits + [c])[..|digits|] == digits;
  }

  lemma AfterDigit(front: string, c: char)
    requires Digit(c) && front != "" && front[|front| - 1] != '_'
    ensures WellGrouped(front + [c]) <==> WellGrouped(front)
  {
    var s := front + [c];
    assert s[0] == front[0] && GroupedAt(s, |front|);
    forall i | 0 <= i < |front|
      ensures GroupedAt(s, i) <==> GroupedAt(front, i)
    {
    }
    if WellGrouped(s) {
      assert GroupedAt(s, |front| - 1);
    }
  }

  lemma AfterUnderscore(front: string, c: char)
    requires Digit(c)
    ensures WellGrouped(front + "_" + [c]) <==> WellGrouped(front)
  {
    var s := front + "_" + [c];
    var n := |front|;
    assert s[n] == '_' && s[n + 1] == c && GroupedAt(s, n + 1);
    assert n > 0 ==> s[0] == front[0] && (GroupedAt(s, n) <==> Digit(front[n - 1]));
    forall i | 0 <= i < n
      ensures Digit(front[n - 1]) ==> (GroupedAt(s, i) <==> GroupedAt(front, i))
    {
    }
    if WellGrouped(s) {
      assert GroupedAt(s, n);
    }
  }

  /** `int(s)` for stripped text; `None` stands for `ValueError`. */
  function PyInt(s: string): Option<int> {
    if s != "" && (s[0] == '+' || s[0] == '-') then
      match Grouped(s[1..])
      case None => None
      case Some(v) => Some((if s[0] == '-' then -1 else 1) * (v as int))
    else
      match Grouped(s)
      case None => None
      case Some(v) => Some(v as int)
  }

  /** `s` is `d`, perhaps with a sign, and `v` its value. */
  ghost predicate Signed(s: string, d: string, v: int) {
    ((s == d || s == "+" + d) && v == Value(DigitsOf(d))) || (s == "-" + d && v + Value(DigitsOf(d)) == 0)
  }

  /** A number may carry a sign. */
  lemma PyIntMeans(s: string, v: int)
    ensures PyInt(s) == Some(v) <==>
      exists d :: WellGrouped(d) && Signed(s, d, v)
  {
    if PyInt(s) == Some(v) {
      var d := SignedDigits(s, v);
    }
    if d :| WellGrouped(d) && Signed(s, d, v) {
      ReadsSigned(s, d, v);
    }
  }

  lemma SignedDigits(s: string, v: int) returns (d: string)
    requires PyInt(s) == Some(v)
    ensures WellGrouped(d) && Signed(s, d, v)
  {
    d := if s != "" && (s[0] == '+' || s[0] == '-') then s[1..] else s;
    GroupedMeans(d);
    assert s != d ==> s == [s[0]] + d;
  }

  lemma ReadsSigned(s: string, d: string, v: int)
    requires WellGrouped(d) && Signed(s, d, v)
    ensures PyInt(s) == Some(v)
  {
    GroupedMeans(d);
    assert s != d ==> s[1..] == d;
    assert s == d ==> Digit(s[0]);
  }

  lemma {:induction false} GroupedDigits(s: string)
    requires s != "" && AllDigits(s)
    ensures Grouped(s) == Some(Value(s))
  {
    if |s| > 1 {
      assert Digit(s[|s| - 2]);
      GroupedDigits(s[..|s| - 1]);
    } else {
      assert Value(s[..0]) == 0;
    }
  }

  lemma {:induction false} PyIntDigits(s: string)
    requires s != "" && AllDigits(s)
    ensures PyInt(s) == Some(Value(s))
  {
    assert Digit(s[0]);
    GroupedDigits(s);
  }
}
