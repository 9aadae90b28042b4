/**
 * The pieces of JavaScript's string and number semantics the monitor relies on:
 * `String.prototype.split` on one character, `Array.prototype.join`, `trim`,
 * decimal formatting of integers and the integer part of `Number(text)` and
 * `BigInt(text)`.
 */
module JsText {
  import opened Wrappers

  // ---------------------------------------------------------------- white space

  /** The characters `trim()` and the numeric parsers strip (white space and line terminators). */
  predicate IsWhite(c: char) {
    c == '\t' || c == '\n' || c == '\U{000B}' || c == '\U{000C}' || c == '\r' || c == ' '
    || c == '\U{00A0}' || c == '\U{1680}' || ('\U{2000}' <= c <= '\U{200A}')
    || c == '\U{2028}' || c == '\U{2029}' || c == '\U{202F}' || c == '\U{205F}'
    || c == '\U{3000}' || c == '\U{FEFF}'
  }

  function TrimStart(s: string): (t: string)
    ensures |t| <= |s| && t == s[|s| - |t|..]
    ensures t == [] || !IsWhite(t[0])
  {
    if |s| > 0 && IsWhite(s[0]) then TrimStart(s[1..]) else s
  }

  function TrimEnd(s: string): (t: string)
    ensures |t| <= |s| && t == s[..|t|]
    ensures t == [] || !IsWhite(t[|t| - 1])
  {
    if |s| > 0 && IsWhite(s[|s| - 1]) then TrimEnd(s[..|s| - 1]) else s
  }

  /** `s.trim()`. */
  function Trim(s: string): string {
    TrimEnd(TrimStart(s))
  }

  predicate AllWhite(s: string) {
    forall i | 0 <= i < |s| :: IsWhite(s[i])
  }

  /** `!line.trim()` holds exactly when every character of the line is white space. */
  lemma {:induction false} TrimEmptyIffAllWhite(s: string)
    ensures Trim(s) == [] <==> AllWhite(s)
  {
    var t := TrimStart(s);
    if AllWhite(s) {
      AllWhiteTrimStart(s);
    } else {
      var i :| 0 <= i < |s| && !IsWhite(s[i]);
      TrimStartKeeps(s, i);
      assert t != [];
      assert !IsWhite(t[0]);
      assert TrimEnd(t) != [] by {
        if TrimEnd(t) == [] { AllWhiteOfTrimEnd(t); }
      }
    }
  }

  lemma {:induction false} AllWhiteTrimStart(s: string)
    requires AllWhite(s)
    ensures TrimStart(s) == []
    decreases |s|
  {
    if |s| > 0 { AllWhiteTrimStart(s[1..]); }
  }

  lemma {:induction false} TrimStartKeeps(s: string, i: int)
    requires 0 <= i < |s| && !IsWhite(s[i])
    ensures TrimStart(s) != []
    decreases |s|
  {
    if IsWhite(s[0]) { TrimStartKeeps(s[1..], i - 1); }
  }

  lemma {:induction false} AllWhiteOfTrimEnd(s: string)
    requires TrimEnd(s) == []
    ensures AllWhite(s)
    decreases |s|
  {
    if |s| > 0 {
      AllWhiteOfTrimEnd(s[..|s| - 1]);
      assert forall i | 0 <= i < |s| - 1 :: s[i] == s[..|s| - 1][i];
    }
  }

  // ---------------------------------------------------------------- split and join

  /** `s.split(sep)` for a one-character separator: always at least one piece. */
  function Split(s: string, sep: char): (parts: seq<string>)
    ensures |parts| >= 1
    decreases |s|
  {
    if |s| == 0 then [""]
    else
      var rest := Split(s[1..], sep);
      if s[0] == sep then [""] + rest else [[s[0]] + rest[0]] + rest[1..]
  }

  /** `parts.join(sep)`. */
  function Join(parts: seq<string>, sep: char): string
    decreases |parts|
  {
    if |parts| == 0 then ""
    else if |parts| == 1 then parts[0]
    else parts[0] + [sep] + Join(parts[1..], sep)
  }

  predicate Free(s: string, c: char) {
    forall i | 0 <= i < |s| :: s[i] != c
  }

  /** Joining the pieces of a split gives back the text, and no piece holds the separator. */
  lemma {:induction false} JoinSplit(s: string, sep: char)
    ensures Join(Split(s, sep), sep) == s
    ensures forall i | 0 <= i < |Split(s, sep)| :: Free(Split(s, sep)[i], sep)
    decreases |s|
  {
    if |s| > 0 {
      JoinSplit(s[1..], sep);
      var rest := Split(s[1..], sep);
      if s[0] == sep {
        assert Split(s, sep)[1..] == rest;
      } else {
        var parts := Split(s, sep);
        assert parts[1..] == rest[1..];
        if |rest| > 1 {
          assert Join(rest, sep) == rest[0] + [sep] + Join(rest[1..], sep);
        }
        assert Free(parts[0], sep) by {
          assert parts[0] == [s[0]] + rest[0];
          assert Free(rest[0], sep);
        }
        forall i | 1 <= i < |parts| ensures Free(parts[i], sep) {
          assert parts[i] == rest[i];
        }
      }
    }
  }

  lemma {:induction false} SplitPrefix(p: string, t: string, sep: char)
    requires Free(p, sep)
    ensures Split(p + t, sep) == [p + Split(t, sep)[0]] + Split(t, sep)[1..]
    decreases |p|
  {
    if |p| > 0 {
      SplitPrefix(p[1..], t, sep);
      assert (p + t)[1..] == p[1..] + t;
      assert (p + t)[0] == p[0];
      assert [p[0]] + (p[1..] + Split(t, sep)[0]) == p + Split(t, sep)[0];
    } else {
      var q := Split(t, sep);
      assert p + t == t;
      assert p + q[0] == q[0];
      assert [q[0]] + q[1..] == q;
    }
  }

  /** Splitting a join of separator-free pieces gives back the pieces. */
  lemma {:induction false} SplitJoin(parts: seq<string>, sep: char)
    requires |parts| >= 1
    requires forall i | 0 <= i < |parts| :: Free(parts[i], sep)
    ensures Split(Join(parts, sep), sep) == parts
    decreases |parts|
  {
    if |parts| == 1 {
      SplitPrefix(parts[0], "", sep);
      assert parts[0] + "" == parts[0];
    } else {
      var rest := Join(parts[1..], sep);
      SplitJoin(parts[1..], sep);
      SplitPrefix(parts[0], [sep] + rest, sep);
      assert parts[0] + [sep] + rest == parts[0] + ([sep] + rest);
      assert ([sep] + rest)[1..] == rest;
      assert Split([sep] + rest, sep) == [""] + Split(rest, sep);
      assert parts[0] + "" == parts[0];
      assert [parts[0]] + parts[1..] == parts;
    }
  }

  // ---------------------------------------------------------------- decimal digits

  predicate IsDigit(c: char) {
    '0' <= c <= '9'
  }

  predicate AllDigits(s: string) {
    forall i | 0 <= i < |s| :: IsDigit(s[i])
  }

  function DigitValue(c: char): (d: nat)
    requires IsDigit(c)
    ensures d < 10
  {
    (c as int) - ('0' as int)
  }

  function DigitChar(d: nat): (c: char)
    requires d < 10
    ensures IsDigit(c) && DigitValue(c) == d
  {
    (('0' as int) + d) as char
  }

  /** The value of a string of decimal digits ("" counts as 0). */
  function DigitsValue(s: string): nat
    requires AllDigits(s)
    decreases |s|
  {
    if |s| == 0 then 0 else 10 * DigitsValue(s[..|s| - 1]) + DigitValue(s[|s| - 1])
  }

  /** Canonical decimal notation of a natural number, as `String(n)` prints it. */
  function NatToString(n: nat): (s: string)
    ensures |s| >= 1 && AllDigits(s)
    ensures s[0] == '0' ==> s == "0"
    decreases n
  {
    if n < 10 then [DigitChar(n)] else NatToString(n / 10) + [DigitChar(n % 10)]
  }

  /** Reading back a printed natural number gives the number. */
  lemma {:induction false} NatToStringValue(n: nat)
    ensures DigitsValue(NatToString(n)) == n
    decreases n
  {
    if n >= 10 {
      NatToStringValue(n / 10);
      var s := NatToString(n);
      assert s[..|s| - 1] == NatToString(n / 10);
    }
  }

  /** Different numbers print differently. */
  lemma NatToStringInjective(m: nat, n: nat)
    requires NatToString(m) == NatToString(n)
    ensures m == n
  {
    NatToStringValue(m);
    NatToStringValue(n);
  }

  lemma NatToStringFree(n: nat, c: char)
    requires !IsDigit(c)
    ensures Free(NatToString(n), c)
  {
  }

  /** `String(i)` for a safe integer. */
  function IntToString(i: int): string {
    if i < 0 then "-" + NatToString(-i) else NatToString(i)
  }

  // ---------------------------------------------------------------- numeric parsing

  /**
   * The integer that `Number(text)` and `BigInt(text)` both read from an
   * optionally signed decimal literal surrounded by white space, with blank
   * text reading as 0; `None` for any other text.
   */
  function DecimalIntegerValue(text: string): Option<int> {
    var t := Trim(text);
    if t == [] then Some(0)
    else if AllDigits(t) then Some(DigitsValue(t))
    else if |t| >= 2 && t[0] == '-' && AllDigits(t[1..]) then Some(-(DigitsValue(t[1..]) as int))
    else if |t| >= 2 && t[0] == '+' && AllDigits(t[1..]) then Some(DigitsValue(t[1..]))
    else None
  }

  lemma TrimDigits(s: string)
    requires AllDigits(s)
    ensures Trim(s) == s
  {
    assert |s| > 0 ==> !IsWhite(s[0]);
    assert TrimStart(s) == s;
    assert |s| > 0 ==> !IsWhite(s[|s| - 1]);
  }

  /** A printed natural number parses back to itself. */
  lemma DecimalIntegerValueOfNat(n: nat)
    ensures DecimalIntegerValue(NatToString(n)) == Some(n)
  {
    TrimDigits(NatToString(n));
    NatToStringValue(n);
  }

  /** A JavaScript value as far as the monitor's string templates see it. */
  datatype JsValue = Undefined | NaN | Num(value: int)

  /** `Number(text)` on the texts `DecimalIntegerValue` reads; anything else is NaN. */
  function NumberOf(text: string): JsValue {
    match DecimalIntegerValue(text)
    case Some(i) => Num(i)
    case None => NaN
  }

  /** `v + k` for a number `k`: `undefined + k` and `NaN + k` are NaN. */
  function Plus(v: JsValue, k: int): JsValue {
    match v
    case Num(i) => Num(i + k)
    case _ => NaN
  }

  /** How a template literal `${v}` prints `v`. */
  function ToText(v: JsValue): string {
    match v
    case Undefined => "undefined"
    case NaN => "NaN"
    case Num(i) => IntToString(i)
  }

  /** A printed natural number reads back, through `Number` and a template, unchanged. */
  lemma NumberOfNat(n: nat)
    ensures NumberOf(NatToString(n)) == Num(n)
    ensures ToText(NumberOf(NatToString(n))) == NatToString(n)
  {
    DecimalIntegerValueOfNat(n);
  }
}
