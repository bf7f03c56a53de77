/**
 * The pieces of the JavaScript string and number semantics that every
 * other module relies on: the `\s` / `trim()` whitespace set, the `\b` word
 * characters, ASCII case folding (what the `i` flag does without the `u`
 * flag), decimal digit strings, integer-to-text, `Math.round`, `%` and
 * `Math.ceil` of a quotient.
 */
module JsText {

  /** JavaScript's WhiteSpace and LineTerminator code points: the set that both
      `\s` and `String.prototype.trim` use. */
  predicate IsSpace(c: char) {
    c == '\t' || c == '\n' || c == '\U{000B}' || c == '\U{000C}' || c == '\r' ||
    c == ' ' || c == '\U{00A0}' || c == '\U{1680}' ||
    ('\U{2000}' <= c <= '\U{200A}') ||
    c == '\U{2028}' || c == '\U{2029}' || c == '\U{202F}' || c == '\U{205F}' ||
    c == '\U{3000}' || c == '\U{FEFF}'
  }

  /** `\d` */
  predicate IsDigit(c: char) { '0' <= c <= '9' }

  /** `\w`, the characters on whose edge `\b` holds. */
  predicate IsWordChar(c: char) {
    ('a' <= c <= 'z') || ('A' <= c <= 'Z') || IsDigit(c) || c == '_'
  }

  /** ASCII case folding. */
  function Lower(c: char): (r: char)
    ensures 'A' <= c <= 'Z' ==> 'a' <= r <= 'z' && r as int == c as int + 32
    ensures !('A' <= c <= 'Z') ==> r == c
  {
    if 'A' <= c <= 'Z' then (c as int + 32) as char else c
  }

  predicate AllDigits(s: string) {
    forall i :: 0 <= i < |s| ==> IsDigit(s[i])
  }

  function DigitValue(c: char): nat
    requires IsDigit(c)
  {
    c as int - '0' as int
  }

  /** The number a string of decimal digits denotes. */
  function DigitsValue(s: string): nat
    requires AllDigits(s)
  {
    if |s| == 0 then 0 else DigitsValue(s[..|s| - 1]) * 10 + DigitValue(s[|s| - 1])
  }

  function Pow10(n: nat): (r: nat)
    ensures r >= 1
  {
    if n == 0 then 1 else 10 * Pow10(n - 1)
  }

  /** The decimal text of a natural number, no leading zeros. */
  function NatText(n: nat): (r: string)
    ensures |r| > 0 && AllDigits(r)
    ensures DigitsValue(r) == n
  {
    var d := [('0' as int + n % 10) as char];
    if n < 10 then d
    else
      var r := NatText(n / 10) + d;
      assert r[..|r| - 1] == NatText(n / 10);
      r
  }

  /** `${n}` for an integer (exact below 10^21, where JavaScript switches to exponent form). */
  function IntText(n: int): (r: string)
    ensures |r| > 0
    ensures n >= 0 ==> r == NatText(n)
    ensures n < 0 ==> r == "-" + NatText(-n)
  {
    if n < 0 then "-" + NatText(-n) else NatText(n)
  }

  /** A '-' can only ever be the first character of an integer's text. */
  lemma IntTextMinusOnlyFirst(n: int, k: nat)
    requires 0 < k < |IntText(n)|
    ensures IntText(n)[k] != '-'
  {
    if n < 0 {
      assert IntText(n)[k] == NatText(-n)[k - 1];
    }
  }

  predicate StartsWith(s: string, prefix: string) {
    |prefix| <= |s| && s[..|prefix|] == prefix
  }

  /** `String.prototype.trimStart` */
  function TrimStart(s: string): (r: string)
    ensures |r| <= |s| && r == s[|s| - |r|..]
    ensures forall i :: 0 <= i < |s| - |r| ==> IsSpace(s[i])
    ensures |r| > 0 ==> !IsSpace(r[0])
  {
    if |s| > 0 && IsSpace(s[0]) then
      var r := TrimStart(s[1..]);
      assert s[1..][|s| - 1 - |r|..] == s[|s| - |r|..];
      r
    else s
  }

  /** `String.prototype.trimEnd` */
  function TrimEnd(s: string): (r: string)
    ensures |r| <= |s| && r == s[..|r|]
    ensures forall i :: |r| <= i < |s| ==> IsSpace(s[i])
    ensures |r| > 0 ==> !IsSpace(r[|r| - 1])
  {
    if |s| > 0 && IsSpace(s[|s| - 1]) then
      var r := TrimEnd(s[..|s| - 1]);
      assert s[..|s| - 1][..|r|] == s[..|r|];
      r
    else s
  }

  /** `String.prototype.trim`: the longest slice without whitespace at either end. */
  function Trim(s: string): string {
    TrimEnd(TrimStart(s))
  }

  /** Trimming gives a slice of the input that neither starts nor ends with
      whitespace, and everything cut off is whitespace. */
  lemma TrimIsSlice(s: string) returns (i: nat, j: nat)
    ensures i <= j <= |s| && Trim(s) == s[i..j]
    ensures forall k :: 0 <= k < i ==> IsSpace(s[k])
    ensures forall k :: j <= k < |s| ==> IsSpace(s[k])
    ensures j > i ==> !IsSpace(s[i]) && !IsSpace(s[j - 1])
  {
    var t := TrimStart(s);
    var e := TrimEnd(t);
    i := |s| - |t|;
    j := i + |e|;
    CutBothEnds(s, t, e);
  }

  /** A suffix `t` of `s` and a prefix `e` of `t`, cut where the whitespace
      ends, form the slice [i, j) of `s`. */
  lemma CutBothEnds(s: string, t: string, e: string)
    requires |t| <= |s| && t == s[|s| - |t|..]
    requires forall k :: 0 <= k < |s| - |t| ==> IsSpace(s[k])
    requires |t| > 0 ==> !IsSpace(t[0])
    requires |e| <= |t| && e == t[..|e|]
    requires forall k :: |e| <= k < |t| ==> IsSpace(t[k])
    requires |e| > 0 ==> !IsSpace(e[|e| - 1])
    ensures var i, j := |s| - |t|, |s| - |t| + |e|;
      && e == s[i..j]
      && (forall k :: j <= k < |s| ==> IsSpace(s[k]))
      && (j > i ==> !IsSpace(s[i]) && !IsSpace(s[j - 1]))
  {
    var i, j := |s| - |t|, |s| - |t| + |e|;
    assert e == s[i..j];
    forall k | j <= k < |s| ensures IsSpace(s[k]) {
      assert s[k] == t[k - i];
    }
    if j > i {
      assert s[i] == t[0] && s[j - 1] == e[|e| - 1];
    }
  }

  /** A string that neither starts nor ends with whitespace trims to itself. */
  lemma TrimKeepsUnspaced(s: string)
    requires |s| > 0 && !IsSpace(s[0]) && !IsSpace(s[|s| - 1])
    ensures Trim(s) == s
  {
    assert TrimStart(s) == s;
  }

  /** The input trims to "" exactly when it is all whitespace. */
  lemma TrimEmptyIffBlank(s: string)
    ensures Trim(s) == "" <==> forall k :: 0 <= k < |s| ==> IsSpace(s[k])
  {
    var i, j := TrimIsSlice(s);
    if Trim(s) != "" {
      assert !IsSpace(s[i]);
    }
  }

  /** Trimming twice is trimming once. */
  lemma {:induction false} TrimIdempotent(s: string)
    ensures Trim(Trim(s)) == Trim(s)
  {
    var t := Trim(s);
    var i, j := TrimIsSlice(s);
    if |t| > 0 {
      assert TrimStart(t) == t;
      assert TrimEnd(t) == t;
    }
  }

  /** JavaScript's `Math.round`: the nearest integer, halves rounded up. */
  function MathRound(x: real): (r: int)
    ensures r as real - 0.5 <= x < r as real + 0.5
  {
    (x + 0.5).Floor
  }

  /** JavaScript's `a % b` for a positive divisor: the remainder takes the sign of `a`. */
  function JsRem(a: int, b: int): (r: int)
    requires b > 0
    ensures a >= 0 ==> 0 <= r < b && r == a % b
    ensures a < 0 ==> -b < r <= 0
  {
    if a >= 0 then a % b else -((-a) % b)
  }

  /** `Math.ceil(a / d)` for a non-negative integer `a` and a positive `d`. */
  function CeilDiv(a: nat, d: nat): (r: nat)
    requires d > 0
    ensures (r as int - 1) * d < a <= r * d
  {
    (a + d - 1) / d
  }
}
