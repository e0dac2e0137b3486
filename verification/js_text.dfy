/** The few JavaScript string and number conversions the console's helpers
    rely on: `Number.prototype.toString` on integers, `parseInt(s, 10)`,
    `Number(s)`, `String.prototype.split` on one character and
    `String.prototype.replace(/c/g, d)`. Numbers are integers here; NaN is
    `None`. */
module JsText {
  import opened Optional

  // ---------------------------------------------------------------------
  // Decimal digits
  // ---------------------------------------------------------------------

  predicate IsDigit(c: char) {
    '0' <= c <= '9'
  }

  predicate AllDigits(s: string) {
    forall i :: 0 <= i < |s| ==> IsDigit(s[i])
  }

  function DigitValue(c: char): int {
    (c as int) - ('0' as int)
  }

  function DigitChar(d: nat): (c: char)
    requires d < 10
    ensures IsDigit(c) && DigitValue(c) == d
  {
    (('0' as int) + d) as char
  }

  /** The value of a string of decimal digits, most significant first. */
  function DigitsValue(s: string): int {
    if |s| == 0 then 0 else DigitsValue(s[..|s| - 1]) * 10 + DigitValue(s[|s| - 1])
  }

  /** The decimal rendering of a natural number, without leading zeros. */
  function NatToDigits(n: nat): (r: string)
    ensures |r| >= 1 && AllDigits(r)
    ensures |r| > 1 ==> r[0] != '0'
  {
    if n < 10 then [DigitChar(n)] else NatToDigits(n / 10) + [DigitChar(n % 10)]
  }

  /** Reading back the digits of `n` gives `n`. */
  lemma {:induction false} DigitsValueOfNatToDigits(n: nat)
    ensures DigitsValue(NatToDigits(n)) == n
  {
    if n >= 10 {
      var s := NatToDigits(n);
      assert s[..|s| - 1] == NatToDigits(n / 10);
      DigitsValueOfNatToDigits(n / 10);
    }
  }

  /** `String(n)` / `'' + n` for an integer `n`. */
  function IntToString(n: int): (r: string)
    ensures |r| >= 1 && IsDigit(r[|r| - 1])
    ensures r[0] == '-' || IsDigit(r[0])
    ensures r[0] == '-' <==> n < 0
    ensures n >= 0 ==> AllDigits(r)
  {
    if n < 0 then "-" + NatToDigits(-n) else NatToDigits(n)
  }

  // ---------------------------------------------------------------------
  // White space
  // ---------------------------------------------------------------------

  /** ECMAScript's WhiteSpace and LineTerminator code points, the ones that
      `parseInt` skips and `Number` trims. */
  predicate IsJsSpace(c: char) {
    || c == '\t' || c == '\n' || c == '\U{000B}' || c == '\U{000C}' || c == '\r'
    || c == ' ' || c == '\U{00A0}' || c == '\U{1680}'
    || ('\U{2000}' <= c <= '\U{200A}')
    || c == '\U{2028}' || c == '\U{2029}' || c == '\U{202F}' || c == '\U{205F}'
    || c == '\U{3000}' || c == '\U{FEFF}'
  }

  /** `s` without its leading white space. */
  function TrimStart(s: string): string {
    if |s| > 0 && IsJsSpace(s[0]) then TrimStart(s[1..]) else s
  }

  /** `s` without its trailing white space. */
  function TrimEnd(s: string): string {
    if |s| > 0 && IsJsSpace(s[|s| - 1]) then TrimEnd(s[..|s| - 1]) else s
  }

  /** TrimStart removes a run of white space from the front, and only
      that: what remains is a suffix that does not start with white space. */
  lemma {:induction false} TrimStartDropsLeadingSpace(s: string)
    ensures var r := TrimStart(s);
            && |r| <= |s| && r == s[|s| - |r|..]
            && (r == [] || !IsJsSpace(r[0]))
            && forall i :: 0 <= i < |s| - |r| ==> IsJsSpace(s[i])
  {
    if |s| > 0 && IsJsSpace(s[0]) {
      TrimStartDropsLeadingSpace(s[1..]);
    }
  }

  /** TrimEnd removes a run of white space from the back, and only that. */
  lemma {:induction false} TrimEndDropsTrailingSpace(s: string)
    ensures var r := TrimEnd(s);
            && |r| <= |s| && r == s[..|r|]
            && (r == [] || !IsJsSpace(r[|r| - 1]))
            && forall i :: |r| <= i < |s| ==> IsJsSpace(s[i])
  {
    if |s| > 0 && IsJsSpace(s[|s| - 1]) {
      TrimEndDropsTrailingSpace(s[..|s| - 1]);
    }
  }

  // ---------------------------------------------------------------------
  // parseInt(s, 10) and Number(s)
  // ---------------------------------------------------------------------

  /** The longest prefix of `s` made of decimal digits. */
  function LeadingDigits(s: string): string {
    if |s| > 0 && IsDigit(s[0]) then [s[0]] + LeadingDigits(s[1..]) else []
  }

  /** LeadingDigits is the longest prefix of digits: a prefix, all
      digits, and followed by a non-digit or the end. */
  lemma {:induction false} LeadingDigitsIsLongestDigitPrefix(s: string)
    ensures var r := LeadingDigits(s);
            && |r| <= |s| && r == s[..|r|] && AllDigits(r)
            && (|r| < |s| ==> !IsDigit(s[|r|]))
  {
    if |s| > 0 && IsDigit(s[0]) {
      LeadingDigitsIsLongestDigitPrefix(s[1..]);
    }
  }

  /** `parseInt(s, 10)`: skip leading white space, take an optional sign and
      then as many decimal digits as follow; NaN (`None`) when there are none.
      Whatever follows the digits is ignored. */
  function ParseInt(s: string): (r: Option<int>)
  {
    var t := TrimStart(s);
    var negative := |t| > 0 && t[0] == '-';
    var body := if |t| > 0 && (t[0] == '-' || t[0] == '+') then t[1..] else t;
    var digits := LeadingDigits(body);
    if digits == [] then None
    else if negative then Some(-DigitsValue(digits))
    else Some(DigitsValue(digits))
  }

  /** `Number(s)` on the decimal integer forms: white space trimmed at both
      ends, the empty string is 0, an optional sign followed by decimal
      digits is their value, and anything else is NaN (`None`). */
  function ToNumber(s: string): (r: Option<int>)
  {
    var t := TrimEnd(TrimStart(s));
    if t == [] then Some(0)
    else if t[0] == '-' || t[0] == '+' then
      var body := t[1..];
      if body != [] && AllDigits(body) then
        Some(if t[0] == '-' then -DigitsValue(body) else DigitsValue(body))
      else None
    else if AllDigits(t) then Some(DigitsValue(t))
    else None
  }

  lemma {:induction false} LeadingDigitsOfDigits(s: string)
    requires AllDigits(s)
    ensures LeadingDigits(s) == s
  {
    if |s| > 0 {
      LeadingDigitsOfDigits(s[1..]);
    }
  }

  /** Digits and the minus sign are not white space. */
  lemma NotSpace(c: char)
    requires IsDigit(c) || c == '-'
    ensures !IsJsSpace(c)
  {
  }

  /** Text that does not start with white space is not trimmed. */
  lemma TrimStartOfNonSpace(s: string)
    requires |s| > 0 && !IsJsSpace(s[0])
    ensures TrimStart(s) == s
  {
  }

  /** Text that does not end with white space is not trimmed. */
  lemma TrimEndOfNonSpace(s: string)
    requires |s| > 0 && !IsJsSpace(s[|s| - 1])
    ensures TrimEnd(s) == s
  {
  }

  /** A non-empty run of digits is read as its value by parseInt. */
  lemma ParseIntOfDigits(d: string)
    requires |d| > 0 && AllDigits(d)
    ensures ParseInt(d) == Some(DigitsValue(d))
  {
    NotSpace(d[0]);
    TrimStartOfNonSpace(d);
    LeadingDigitsOfDigits(d);
  }

  /** A minus sign before a non-empty run of digits negates its value. */
  lemma ParseIntOfNegatedDigits(d: string)
    requires |d| > 0 && AllDigits(d)
    ensures ParseInt("-" + d) == Some(-DigitsValue(d))
  {
    var m := "-" + d;
    NotSpace('-');
    TrimStartOfNonSpace(m);
    assert m[1..] == d;
    LeadingDigitsOfDigits(d);
  }

  /** A non-empty run of digits is read as its value by Number(). */
  lemma ToNumberOfDigits(d: string)
    requires |d| > 0 && AllDigits(d)
    ensures ToNumber(d) == Some(DigitsValue(d))
  {
    NotSpace(d[0]);
    NotSpace(d[|d| - 1]);
    TrimStartOfNonSpace(d);
    TrimEndOfNonSpace(d);
  }

  /** A minus sign before a non-empty run of digits negates its value. */
  lemma ToNumberOfNegatedDigits(d: string)
    requires |d| > 0 && AllDigits(d)
    ensures ToNumber("-" + d) == Some(-DigitsValue(d))
  {
    var m := "-" + d;
    NotSpace('-');
    NotSpace(d[|d| - 1]);
    assert m[|m| - 1] == d[|d| - 1];
    TrimStartOfNonSpace(m);
    TrimEndOfNonSpace(m);
    assert m[1..] == d;
  }

  /** parseInt reads back every integer that toString writes. */
  lemma ParseIntOfIntToString(n: int)
    ensures ParseInt(IntToString(n)) == Some(n)
  {
    var d := NatToDigits(if n < 0 then -n else n);
    assert IntToString(n) == if n < 0 then "-" + d else d;
    DigitsValueOfNatToDigits(if n < 0 then -n else n);
    if n < 0 {
      ParseIntOfNegatedDigits(d);
    } else {
      ParseIntOfDigits(d);
    }
  }

  /** Number() reads back every integer that toString writes. */
  lemma ToNumberOfIntToString(n: int)
    ensures ToNumber(IntToString(n)) == Some(n)
  {
    var d := NatToDigits(if n < 0 then -n else n);
    assert IntToString(n) == if n < 0 then "-" + d else d;
    DigitsValueOfNatToDigits(if n < 0 then -n else n);
    if n < 0 {
      ToNumberOfNegatedDigits(d);
    } else {
      ToNumberOfDigits(d);
    }
  }

  // ---------------------------------------------------------------------
  // split and join on one separator character
  // ---------------------------------------------------------------------

  /** Index of the first `c` in `s`, or `|s|` when there is none. */
  function IndexOf(s: string, c: char): (i: nat)
    ensures i <= |s| && c !in s[..i]
    ensures i < |s| ==> s[i] == c
  {
    if |s| == 0 then 0
    else if s[0] == c then 0
    else
      var j := IndexOf(s[1..], c);
      assert s[1..][..j] == s[1..j + 1];
      assert s[..j + 1] == [s[0]] + s[1..j + 1];
      1 + j
  }

  /** `s.split(sep)` for a one-character separator: the pieces between the
      separators, in order; a string without `sep` is one piece. */
  function Split(s: string, sep: char): (parts: seq<string>)
    ensures |parts| >= 1
    decreases |s|
  {
    var i := IndexOf(s, sep);
    if i == |s| then [s] else [s[..i]] + Split(s[i + 1..], sep)
  }

  /** The first piece is the text before the first separator, and there is
      more than one piece exactly when the text holds a separator. */
  lemma SplitFirst(s: string, sep: char)
    ensures Split(s, sep)[0] == s[..IndexOf(s, sep)]
    ensures |Split(s, sep)| == 1 <==> sep !in s
  {
    var i := IndexOf(s, sep);
    if i < |s| {
      SplitAt(s, sep);
      assert s[i] == sep;
    } else {
      assert s[..i] == s;
    }
  }

  /** No piece of a split holds the separator. */
  lemma {:induction false} SplitPiecesHoldNoSeparator(s: string, sep: char)
    ensures forall k :: 0 <= k < |Split(s, sep)| ==> sep !in Split(s, sep)[k]
    decreases |s|
  {
    var i := IndexOf(s, sep);
    if i < |s| {
      var rest := s[i + 1..];
      SplitPiecesHoldNoSeparator(rest, sep);
      SplitAt(s, sep);
      var parts, tail := Split(s, sep), Split(rest, sep);
      forall k | 0 <= k < |parts| ensures sep !in parts[k] {
        if k > 0 {
          assert parts[k] == tail[k - 1];
        }
      }
    }
  }

  /** `parts.join(sep)`. */
  function Join(parts: seq<string>, sep: char): string
    requires |parts| >= 1
  {
    if |parts| == 1 then parts[0] else parts[0] + [sep] + Join(parts[1..], sep)
  }

  /** Splitting and joining again gives the string back. */
  lemma {:induction false} JoinSplit(s: string, sep: char)
    ensures Join(Split(s, sep), sep) == s
    decreases |s|
  {
    var i := IndexOf(s, sep);
    if i < |s| {
      var rest := s[i + 1..];
      var tail := Split(rest, sep);
      calc {
        Join(Split(s, sep), sep);
      == { SplitAt(s, sep); }
        Join([s[..i]] + tail, sep);
      == { JoinCons(s[..i], tail, sep); }
        s[..i] + [sep] + Join(tail, sep);
      == { JoinSplit(rest, sep); }
        s[..i] + [sep] + rest;
      == { Recompose(s, i); }
        s;
      }
    }
  }

  /** A string is its prefix, the element at the cut and its suffix. */
  lemma Recompose<T>(s: seq<T>, i: nat)
    requires i < |s|
    ensures s[..i] + [s[i]] + s[i + 1..] == s
  {
    assert s == s[..i] + s[i..];
  }

  /** One step of Split: the piece before the first separator, then the rest. */
  lemma SplitAt(s: string, sep: char)
    requires IndexOf(s, sep) < |s|
    ensures Split(s, sep) == [s[..IndexOf(s, sep)]] + Split(s[IndexOf(s, sep) + 1..], sep)
  {
  }

  /** The second piece of a split is the text between the first separator
      and the next one (or the end). */
  lemma SplitSecond(s: string, sep: char)
    ensures sep in s ==>
              var rest := s[IndexOf(s, sep) + 1..];
              |Split(s, sep)| > 1 && Split(s, sep)[1] == rest[..IndexOf(rest, sep)]
  {
  }

  /** One step of Join. */
  lemma JoinCons(a: string, rest: seq<string>, sep: char)
    requires |rest| >= 1
    ensures Join([a] + rest, sep) == a + [sep] + Join(rest, sep)
  {
    assert ([a] + rest)[1..] == rest;
  }

  /** Joining two pieces that hold no separator and splitting again gives
      the two pieces back. */
  lemma SplitOfPair(a: string, b: string, sep: char)
    requires sep !in a && sep !in b
    ensures Split(a + [sep] + b, sep) == [a, b]
  {
    var s := a + [sep] + b;
    assert s[|a|] == sep;
    assert s[..|a|] == a;
    assert IndexOf(s, sep) == |a|;
    assert s[|a| + 1..] == b;
    assert IndexOf(b, sep) == |b|;
  }

  // ---------------------------------------------------------------------
  // replace(/c/g, d)
  // ---------------------------------------------------------------------

  /** `s.replace(/from/g, to)` for single characters. */
  function ReplaceAll(s: string, from: char, to: char): (r: string)
    ensures |r| == |s|
    ensures forall i :: 0 <= i < |s| ==> r[i] == if s[i] == from then to else s[i]
  {
    if |s| == 0 then [] else [if s[0] == from then to else s[0]] + ReplaceAll(s[1..], from, to)
  }
}
