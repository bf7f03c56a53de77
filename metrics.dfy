/**
 * The free-text metrics parser: athlete-typed heights, takeoff depths and
 * pole descriptions turned into numbers, and the two display conversions.
 *
 * Every regular expression of the parser is written out as a scanner with
 * the semantics of a JavaScript `match`: the leftmost starting position wins,
 * and at that position the greedy reading of `\d+(?:\.\d+)?` and `\s*` is the
 * only one that can succeed (each is followed by a character that is neither
 * a digit, a '.', nor whitespace, so backtracking into them never helps).
 * Numbers are exact reals; `Number()` is finite below 2^1024 - 2^970.
 */
module Metrics {
  import opened Wrappers
  import opened JsText

  // ---------------------------------------------------------------------------
  // Numbers
  // ---------------------------------------------------------------------------

  /** 2^1024 - 2^970: the smallest decimal that `Number()` rounds to Infinity. */
  const OverflowThreshold: real := 179769313486231580793728971405303415079934132710037826936173778980444968292764750946649017977587207096330286416692887910946555547851940402630657488671505820681908902000708383676273854845817711531764475730270069855571366959622842914819860834936475292719074168444365510704342711559699508093042880177904174497792.0

  /** `Number.isFinite` of the double nearest to `x`. */
  predicate IsFinite(x: real) {
    -OverflowThreshold < x < OverflowThreshold
  }

  /** One occurrence of `\d+(?:\.\d+)?` in a string: digits in
      [start, intEnd), and, when end > intEnd, a '.' at intEnd followed by the
      fraction digits up to end. */
  datatype Numeral = Numeral(start: nat, intEnd: nat, end: nat)

  ghost predicate IsNumeralAt(s: string, n: Numeral) {
    && n.start < n.intEnd <= n.end <= |s|
    && (forall i :: n.start <= i < n.intEnd ==> IsDigit(s[i]))
    && (n.end == n.intEnd ||
        (n.end > n.intEnd + 1 && s[n.intEnd] == '.' &&
         forall i :: n.intEnd < i < n.end ==> IsDigit(s[i])))
  }

  /** The matched text, `match[k]` in JavaScript. */
  function NumeralText(s: string, n: Numeral): string
    requires IsNumeralAt(s, n)
  {
    s[n.start..n.end]
  }

  /** `value.includes(".")` for the matched text. */
  predicate HasDecimal(n: Numeral) {
    n.end > n.intEnd
  }

  lemma HasDecimalIffDot(s: string, n: Numeral)
    requires IsNumeralAt(s, n)
    ensures HasDecimal(n) <==> '.' in NumeralText(s, n)
  {
    var t := NumeralText(s, n);
    if HasDecimal(n) {
      assert t[n.intEnd - n.start] == '.';
    } else {
      forall i | 0 <= i < |t| ensures t[i] != '.' {
        assert IsDigit(s[n.start + i]);
      }
    }
  }

  /** The exact value of the matched decimal text. */
  function NumeralValue(s: string, n: Numeral): (v: real)
    requires IsNumeralAt(s, n)
    ensures v >= 0.0
  {
    var whole := DigitsValue(s[n.start..n.intEnd]) as real;
    if n.end == n.intEnd then whole
    else whole + DigitsValue(s[n.intEnd + 1..n.end]) as real / Pow10(n.end - n.intEnd - 1) as real
  }

  /** `toFiniteNumber(match[k])`: the value, or None when `Number()` overflows. */
  function ToFiniteNumber(s: string, n: Numeral): (r: Option<real>)
    requires IsNumeralAt(s, n)
    ensures r.Some? <==> NumeralValue(s, n) < OverflowThreshold
    ensures r.Some? ==> r.value == NumeralValue(s, n) && IsFinite(r.value)
  {
    var v := NumeralValue(s, n);
    if v < OverflowThreshold then Some(v) else None
  }

  // ---------------------------------------------------------------------------
  // Input normalisation
  // ---------------------------------------------------------------------------

  /** `normalizeInput`: null and undefined become "", anything else is trimmed. */
  function NormalizeInput(input: Option<string>): string {
    match input
    case None => ""
    case Some(s) => Trim(s)
  }

  function StraightQuote(c: char): char {
    if c == '\U{2019}' || c == '\U{2018}' then '\''
    else if c == '\U{201C}' || c == '\U{201D}' then '"'
    else c
  }

  predicate IsCurlyQuote(c: char) {
    c == '\U{2018}' || c == '\U{2019}' || c == '\U{201C}' || c == '\U{201D}'
  }

  /** `normalizeQuotes`: typographic single and double quotes become the
      straight ones, every other character stays. */
  function NormalizeQuotes(s: string): (r: string)
    ensures |r| == |s|
    ensures forall i :: 0 <= i < |s| ==> !IsCurlyQuote(r[i])
    ensures forall i :: 0 <= i < |s| ==>
      r[i] == (if s[i] in {'\U{2018}', '\U{2019}'} then '\''
               else if s[i] in {'\U{201C}', '\U{201D}'} then '"'
               else s[i])
  {
    seq(|s|, i requires 0 <= i < |s| => StraightQuote(s[i]))
  }

  // ---------------------------------------------------------------------------
  // Scanning primitives
  // ---------------------------------------------------------------------------

  /** The end of the run of digits that starts at p. */
  function DigitsEnd(s: string, p: nat): (e: nat)
    requires p <= |s|
    ensures p <= e <= |s|
    ensures forall i :: p <= i < e ==> IsDigit(s[i])
    ensures e == |s| || !IsDigit(s[e])
    decreases |s| - p
  {
    if p < |s| && IsDigit(s[p]) then DigitsEnd(s, p + 1) else p
  }

  /** The end of the run of `\s` characters that starts at p. */
  function SpacesEnd(s: string, p: nat): (e: nat)
    requires p <= |s|
    ensures p <= e <= |s|
    ensures forall i :: p <= i < e ==> IsSpace(s[i])
    ensures e == |s| || !IsSpace(s[e])
    decreases |s| - p
  {
    if p < |s| && IsSpace(s[p]) then SpacesEnd(s, p + 1) else p
  }

  /** The greedy `\d+(?:\.\d+)?` starting exactly at p, if any. */
  function NumberAt(s: string, p: nat): (r: Option<Numeral>)
    requires p <= |s|
    ensures r.Some? <==> p < |s| && IsDigit(s[p])
    ensures r.Some? ==> r.value.start == p && IsNumeralAt(s, r.value)
    ensures r.Some? ==> r.value.end == |s| || !IsDigit(s[r.value.end])
  {
    if p < |s| && IsDigit(s[p]) then
      var e := DigitsEnd(s, p);
      if e + 1 < |s| && s[e] == '.' && IsDigit(s[e + 1]) then Some(Numeral(p, e, DigitsEnd(s, e + 1)))
      else Some(Numeral(p, e, e))
    else None
  }

  /** The literal `w` (lower case) occurs at p, ignoring ASCII case. */
  predicate CiAt(s: string, p: nat, w: string)
    requires p <= |s|
    ensures CiAt(s, p, w) ==> p + |w| <= |s|
    decreases |w|
  {
    |w| == 0 || (p < |s| && Lower(s[p]) == w[0] && CiAt(s, p + 1, w[1..]))
  }

  /** A word character at index k (false outside the string). */
  predicate WordCharAt(s: string, k: int) {
    0 <= k < |s| && IsWordChar(s[k])
  }

  /** `\b` at k: a word character on exactly one side of k. */
  predicate IsBoundary(s: string, k: nat) {
    WordCharAt(s, k - 1) != WordCharAt(s, k)
  }

  // ---------------------------------------------------------------------------
  // The regular expressions of the parser
  // ---------------------------------------------------------------------------

  /** A piece of a pattern without a capture group. */
  datatype Atom =
    | Lit(text: string)   // `text` (written in lower case), ignoring ASCII case
    | Boundary            // \b

  datatype Elem =
    | Num                 // (\d+(?:\.\d+)?), a capture group
    | Spaces              // \s*
    | Plain(atom: Atom)

  /** A pattern: a sequence of elements, then an ordered alternation (one empty
      alternative when the pattern has none). A group `(A|B)C` is written as
      `AC|BC`, which a backtracking matcher treats the same way. */
  datatype Regex = Regex(body: seq<Elem>, alternatives: seq<seq<Atom>>)

  datatype Pattern =
    | FeetAndInches   // (\d+(?:\.\d+)?)\s*'\s*(\d+(?:\.\d+)?)\s*(?:"|in\b)   /i
    | FeetOnly        // (\d+(?:\.\d+)?)\s*'
    | NoHeight        // \b(nh|no height)\b                                  /i
    | Meters          // (\d+(?:\.\d+)?)\s*m\b                               /i
    | PoleFeet        // (\d+(?:\.\d+)?)\s*(?:'|ft\b|feet\b|foot\b)          /i
    | Rating          // (\d+(?:\.\d+)?)\s*lbs?\b                            /i
    | FlexFirst       // flex\s*(\d+(?:\.\d+)?)                              /i
    | FlexAfter       // (\d+(?:\.\d+)?)\s*flex\b                            /i
    | NumberToken     // (\d+(?:\.\d+)?)                                     /g

  function RegexOf(pat: Pattern): Regex {
    match pat
    case FeetAndInches =>
      Regex([Num, Spaces, Plain(Lit("'")), Spaces, Num, Spaces], [[Lit("\"")], [Lit("in"), Boundary]])
    case FeetOnly => Regex([Num, Spaces, Plain(Lit("'"))], [[]])
    case NoHeight => Regex([Plain(Boundary)], [[Lit("nh"), Boundary], [Lit("no height"), Boundary]])
    case Meters => Regex([Num, Spaces, Plain(Lit("m")), Plain(Boundary)], [[]])
    case PoleFeet =>
      Regex([Num, Spaces], [[Lit("'")], [Lit("ft"), Boundary], [Lit("feet"), Boundary], [Lit("foot"), Boundary]])
    case Rating => Regex([Num, Spaces, Plain(Lit("lb"))], [[Lit("s"), Boundary], [Boundary]])
    case FlexFirst => Regex([Plain(Lit("flex")), Spaces, Num], [[]])
    case FlexAfter => Regex([Num, Spaces, Plain(Lit("flex")), Plain(Boundary)], [[]])
    case NumberToken => Regex([Num], [[]])
  }

  /** The number of capture groups in a pattern body. */
  function Captures(body: seq<Elem>): nat {
    if |body| == 0 then 0 else (if body[0].Num? then 1 else 0) + Captures(body[1..])
  }

  /** The number of capture groups of each pattern. */
  function GroupCount(pat: Pattern): (n: nat)
    ensures n == Captures(RegexOf(pat).body)
  {
    match pat
    case FeetAndInches => 2
    case NoHeight => 0
    case _ => 1
  }

  /** A match: the matched range [start, end) and the capture groups. */
  datatype Match = Match(start: nat, end: nat, groups: seq<Numeral>)

  ghost predicate WellFormed(pat: Pattern, s: string, m: Match) {
    && m.start <= m.end <= |s|
    && |m.groups| == GroupCount(pat)
    && (|m.groups| >= 1 ==> GroupWithin(s, m.groups[0], m))
    && (|m.groups| >= 2 ==> GroupWithin(s, m.groups[1], m))
  }

  /** A capture group: a numeral inside the matched range. */
  ghost predicate GroupWithin(s: string, n: Numeral, m: Match) {
    IsNumeralAt(s, n) && m.start <= n.start && n.end <= m.end
  }

  function AtomEnd(a: Atom, s: string, p: nat): (r: Option<nat>)
    requires p <= |s|
    ensures r.Some? ==> p <= r.value <= |s|
  {
    match a
    case Lit(w) => if CiAt(s, p, w) then Some(p + |w|) else None
    case Boundary => if IsBoundary(s, p) then Some(p) else None
  }

  function AtomsEnd(atoms: seq<Atom>, s: string, p: nat): (r: Option<nat>)
    requires p <= |s|
    ensures r.Some? ==> p <= r.value <= |s|
  {
    if |atoms| == 0 then Some(p)
    else
      match AtomEnd(atoms[0], s, p)
      case None => None
      case Some(q) => AtomsEnd(atoms[1..], s, q)
  }

  /** The end of the first alternative that matches at p. */
  function AlternativesEnd(alternatives: seq<seq<Atom>>, s: string, p: nat): (r: Option<nat>)
    requires p <= |s|
    ensures r.Some? ==> p <= r.value <= |s|
  {
    if |alternatives| == 0 then None
    else
      var first := AtomsEnd(alternatives[0], s, p);
      if first.Some? then first else AlternativesEnd(alternatives[1..], s, p)
  }

  /** The matched body: where it ends and what its groups captured. */
  datatype Partial = Partial(end: nat, groups: seq<Numeral>)

  /** Runs a pattern body from p. `\d+(?:\.\d+)?` and `\s*` take the longest
      run: every pattern here follows them with a character that is not a
      digit, not '.', and not whitespace (or with nothing), so a shorter run
      never lets a match succeed where the longest one fails. */
  function BodyRun(body: seq<Elem>, s: string, p: nat): (r: Option<Partial>)
    requires p <= |s|
    ensures r.Some? ==> p <= r.value.end <= |s| && |r.value.groups| == Captures(body)
    ensures r.Some? ==> forall k :: 0 <= k < |r.value.groups| ==>
      IsNumeralAt(s, r.value.groups[k]) && p <= r.value.groups[k].start && r.value.groups[k].end <= r.value.end
  {
    if |body| == 0 then Some(Partial(p, []))
    else
      match body[0]
      case Num =>
        (match NumberAt(s, p)
         case None => None
         case Some(n) =>
           match BodyRun(body[1..], s, n.end)
           case None => None
           case Some(rest) => Some(Partial(rest.end, [n] + rest.groups)))
      case Spaces => BodyRun(body[1..], s, SpacesEnd(s, p))
      case Plain(a) =>
        match AtomEnd(a, s, p)
        case None => None
        case Some(q) => BodyRun(body[1..], s, q)
  }

  /** The match of `pat` that starts exactly at p, if there is one. */
  function MatchAt(pat: Pattern, s: string, p: nat): (r: Option<Match>)
    requires p <= |s|
    ensures r.Some? ==> r.value.start == p && WellFormed(pat, s, r.value)
  {
    var re := RegexOf(pat);
    match BodyRun(re.body, s, p)
    case None => None
    case Some(b) =>
      match AlternativesEnd(re.alternatives, s, b.end)
      case None => None
      case Some(e) => Some(Match(p, e, b.groups))
  }

  /** `f` yields no match at any position in [a, b). */
  ghost predicate NoneIn(f: nat -> Option<Match>, a: nat, b: nat)
    decreases b - a
  {
    a >= b || (f(a).None? && NoneIn(f, a + 1, b))
  }

  lemma {:induction false} NoneInAt(f: nat -> Option<Match>, a: nat, b: nat, q: nat)
    requires NoneIn(f, a, b) && a <= q < b
    ensures f(q).None?
    decreases q - a
  {
    if a < q {
      NoneInAt(f, a + 1, b, q);
    }
  }

  /** The matches of `pat` in `s`, position by position. */
  function Matcher(pat: Pattern, s: string): nat -> Option<Match> {
    (q: nat) => if q <= |s| then MatchAt(pat, s, q) else None
  }

  /** No match of `pat` starts anywhere in [a, b). */
  ghost predicate NoMatchIn(pat: Pattern, s: string, a: nat, b: nat) {
    NoneIn(Matcher(pat, s), a, b)
  }

  lemma NoMatchAt(pat: Pattern, s: string, a: nat, b: nat, q: nat)
    requires NoMatchIn(pat, s, a, b) && a <= q < b && q <= |s|
    ensures MatchAt(pat, s, q).None?
  {
    NoneInAt(Matcher(pat, s), a, b, q);
  }

  /** `s.match(pat)` searching from `from`: the leftmost match. */
  function Search(pat: Pattern, s: string, from: nat): (r: Option<Match>)
    requires from <= |s|
    ensures r.Some? ==> from <= r.value.start <= |s|
    ensures r.Some? ==> WellFormed(pat, s, r.value)
    ensures r.Some? ==> Matcher(pat, s)(r.value.start) == r
    ensures r.Some? ==> NoMatchIn(pat, s, from, r.value.start)
    ensures r.None? ==> NoMatchIn(pat, s, from, |s| + 1)
    ensures Leftmost(Matcher(pat, s), from, |s|, r)
    decreases |s| - from
  {
    var here := MatchAt(pat, s, from);
    if here.Some? then here
    else if from == |s| then None
    else Search(pat, s, from + 1)
  }

  /** `[...s.matchAll(/(\d+(?:\.\d+)?)/g)]` from `from`: successive
      non-overlapping numerals, left to right. */
  function NumberTokens(s: string, from: nat): (r: seq<Match>)
    requires from <= |s|
    ensures forall k :: 0 <= k < |r| ==> WellFormed(NumberToken, s, r[k]) && from <= r[k].start
    decreases |s| - from
  {
    match Search(NumberToken, s, from)
    case None => []
    case Some(m) => [m] + NumberTokens(s, m.end)
  }

  // ---------------------------------------------------------------------------
  // Heights and takeoffs
  // ---------------------------------------------------------------------------

  /** A parsed feet-and-inches pair (both parts as typed). */
  datatype FeetInches = FeetInches(feet: real, inches: real)

  /** The finite value of a one-group match. */
  function GroupValue(pat: Pattern, s: string, m: Match): Option<real>
    requires WellFormed(pat, s, m) && GroupCount(pat) >= 1
  {
    ToFiniteNumber(s, m.groups[0])
  }

  /** Both groups of a feet-and-inches match, when both are finite. */
  function BothFinite(s: string, m: Match): (r: Option<FeetInches>)
    requires WellFormed(FeetAndInches, s, m)
    ensures r.Some? <==> ToFiniteNumber(s, m.groups[0]).Some? && ToFiniteNumber(s, m.groups[1]).Some?
    ensures r.Some? ==> r.value == FeetInches(NumeralValue(s, m.groups[0]), NumeralValue(s, m.groups[1]))
  {
    match (ToFiniteNumber(s, m.groups[0]), ToFiniteNumber(s, m.groups[1]))
    case (Some(f), Some(i)) => Some(FeetInches(f, i))
    case _ => None
  }

  /** `parseFeetInches`: the leftmost feet-and-inches form when both parts are
      finite, otherwise the leftmost feet-only form with zero inches. */
  function ParseFeetInches(v: string): (r: Option<FeetInches>)
    ensures r.Some? ==> 0.0 <= r.value.feet < OverflowThreshold
    ensures r.Some? ==> 0.0 <= r.value.inches < OverflowThreshold
  {
    var withInches := match Search(FeetAndInches, v, 0)
      case None => None
      case Some(m) => BothFinite(v, m);
    if withInches.Some? then withInches
    else match Search(FeetOnly, v, 0)
      case None => None
      case Some(m) =>
        match GroupValue(FeetOnly, v, m)
        case None => None
        case Some(feet) => Some(FeetInches(feet, 0.0))
  }

  /** The height read from normalised, non-empty text: "NH"/"no height" is 0,
      a metric value wins over an imperial one, and feet and inches are
      converted at 0.0254 m per inch. */
  function HeightOfText(s: string): (r: Option<real>)
    ensures r.Some? ==> r.value >= 0.0
  {
    if Search(NoHeight, s, 0).Some? then Some(0.0)
    else match Search(Meters, s, 0)
      case Some(m) => GroupValue(Meters, s, m)
      case None =>
        match ParseFeetInches(s)
        case None => None
        case Some(fi) =>
          var totalInches := fi.feet * 12.0 + fi.inches;
          if IsFinite(totalInches) then Some(totalInches * 0.0254) else None
  }

  /** `parseHeightToMeters`: blank input has no height. */
  function ParseHeightToMeters(input: Option<string>): (r: Option<real>)
    ensures r.Some? ==> r.value >= 0.0
    ensures NormalizeInput(input) == "" ==> r.None?
  {
    var raw := NormalizeInput(input);
    if raw == "" then None else HeightOfText(NormalizeQuotes(raw))
  }

  /** The takeoff read from normalised text: feet plus twelfths of a foot. */
  function TakeoffOfText(s: string): (r: Option<real>)
    ensures r.Some? ==> r.value >= 0.0
  {
    match ParseFeetInches(s)
    case None => None
    case Some(fi) =>
      var totalFeet := fi.feet + fi.inches / 12.0;
      if IsFinite(totalFeet) then Some(totalFeet) else None
  }

  /** `parseTakeoffToFeet`: blank input has no takeoff. */
  function ParseTakeoffToFeet(input: Option<string>): (r: Option<real>)
    ensures r.Some? ==> r.value >= 0.0
    ensures NormalizeInput(input) == "" ==> r.None?
  {
    var raw := NormalizeInput(input);
    if raw == "" then None else TakeoffOfText(NormalizeQuotes(raw))
  }

  /** A feet-only match ends with the apostrophe. */
  lemma FeetOnlyEndsWithMark(s: string, p: nat)
    requires p <= |s| && MatchAt(FeetOnly, s, p).Some?
    ensures var m := MatchAt(FeetOnly, s, p).value; 0 < m.end && s[m.end - 1] == '\''
  {
    var body := RegexOf(FeetOnly).body;
    var n := NumberAt(s, p).value;
    var q := SpacesEnd(s, n.end);
    assert body[1..] == [Spaces, Plain(Lit("'"))] && body[1..][1..] == [Plain(Lit("'"))];
    assert BodyRun(body[1..], s, n.end) == BodyRun(body[1..][1..], s, q);
    assert BodyRun(body, s, p).value.end == BodyRun(body[1..], s, n.end).value.end;
    assert AtomEnd(Lit("'"), s, q).Some?;
    assert CiAt(s, q, "'");
    assert Lower(s[q]) == '\'';
    assert s[q] == '\'';
    assert body[1..][1..][1..] == [];
    assert BodyRun(body[1..][1..], s, q) == Some(Partial(q + 1, []));
    assert AlternativesEnd(RegexOf(FeetOnly).alternatives, s, q + 1) == Some(q + 1);
    assert MatchAt(FeetOnly, s, p).value.end == q + 1;
  }

  /** Without an apostrophe there is no imperial value. */
  lemma NoMarkNoFeetInches(s: string)
    requires forall k :: 0 <= k < |s| ==> s[k] != '\''
    ensures ParseFeetInches(s).None?
  {
    var a := Search(FeetAndInches, s, 0);
    if a.Some? {
      assert Matcher(FeetAndInches, s)(a.value.start) == MatchAt(FeetAndInches, s, a.value.start);
      FeetAndInchesHasFeetOnly(s, a.value.start);
      FeetOnlyEndsWithMark(s, a.value.start);
    }
    var b := Search(FeetOnly, s, 0);
    if b.Some? {
      assert Matcher(FeetOnly, s)(b.value.start) == MatchAt(FeetOnly, s, b.value.start);
      FeetOnlyEndsWithMark(s, b.value.start);
    }
  }

  /** The leftmost feet-and-inches form, when both of its numbers are finite,
      is what `parseFeetInches` reads. */
  lemma FeetAndInchesFirst(s: string, q: nat)
    requires q <= |s| && NoMatchIn(FeetAndInches, s, 0, q) && MatchAt(FeetAndInches, s, q).Some?
    requires BothFinite(s, MatchAt(FeetAndInches, s, q).value).Some?
    ensures ParseFeetInches(s) == BothFinite(s, MatchAt(FeetAndInches, s, q).value)
  {
    SearchFindsLeftmost(FeetAndInches, s, 0, q);
  }

  /** Otherwise the leftmost feet-only form is read, with zero inches. */
  lemma FeetOnlyFallback(s: string, q: nat)
    requires NoMatchIn(FeetAndInches, s, 0, |s| + 1)
    requires q <= |s| && NoMatchIn(FeetOnly, s, 0, q) && MatchAt(FeetOnly, s, q).Some?
    ensures var feet := ToFiniteNumber(s, MatchAt(FeetOnly, s, q).value.groups[0]);
      ParseFeetInches(s) == if feet.Some? then Some(FeetInches(feet.value, 0.0)) else None
  {
    SearchFindsNothing(FeetAndInches, s, 0);
    SearchFindsLeftmost(FeetOnly, s, 0, q);
  }

  /** "NH" or "no height" anywhere means a height of zero. */
  lemma NoHeightWins(s: string, q: nat)
    requires q <= |s| && MatchAt(NoHeight, s, q).Some?
    ensures HeightOfText(s) == Some(0.0)
  {
    MatchAnywhereIsFound(NoHeight, s, q);
  }

  /** Otherwise the leftmost metric value decides, even when it is not finite
      (an imperial value is then not consulted). */
  lemma MetricWins(s: string, q: nat)
    requires NoMatchIn(NoHeight, s, 0, |s| + 1)
    requires q <= |s| && NoMatchIn(Meters, s, 0, q) && MatchAt(Meters, s, q).Some?
    ensures HeightOfText(s) == ToFiniteNumber(s, MatchAt(Meters, s, q).value.groups[0])
  {
    SearchFindsNothing(NoHeight, s, 0);
    SearchFindsLeftmost(Meters, s, 0, q);
  }

  /** Without either, a height and a takeoff read the same imperial value:
      the height is the takeoff in meters (0.3048 m per foot). */
  lemma ImperialHeightIsTakeoff(s: string)
    requires NoMatchIn(NoHeight, s, 0, |s| + 1) && NoMatchIn(Meters, s, 0, |s| + 1)
    ensures HeightOfText(s).Some? <==> TakeoffOfText(s).Some? && IsFinite(TakeoffOfText(s).value * 12.0)
    ensures HeightOfText(s).Some? ==> HeightOfText(s).value == TakeoffOfText(s).value * 0.3048
  {
    SearchFindsNothing(NoHeight, s, 0);
    SearchFindsNothing(Meters, s, 0);
  }

  /** Input that neither starts nor ends with whitespace is read as it
      stands, once its quotes are normalised. */
  lemma UnpaddedInput(raw: string)
    requires |raw| > 0 && !IsSpace(raw[0]) && !IsSpace(raw[|raw| - 1])
    ensures NormalizeInput(Some(raw)) == raw && Normalized(Some(raw)) == NormalizeQuotes(raw)
    ensures ParseHeightToMeters(Some(raw)) == HeightOfText(NormalizeQuotes(raw))
    ensures ParseTakeoffToFeet(Some(raw)) == TakeoffOfText(NormalizeQuotes(raw))
  {
    TrimKeepsUnspaced(raw);
  }

  /** Blank or missing input has no height, no takeoff and no pole values. */
  lemma BlankInputsGiveNothing(input: Option<string>)
    requires input.None? || forall k :: 0 <= k < |input.value| ==> IsSpace(input.value[k])
    ensures ParseHeightToMeters(input).None?
    ensures ParseTakeoffToFeet(input).None?
    ensures ParsePole(input) == ParsedPole(None, None, None, "")
  {
    if input.Some? {
      TrimEmptyIffBlank(input.value);
    }
  }

  // ---------------------------------------------------------------------------
  // Pole descriptions
  // ---------------------------------------------------------------------------

  /** A used range [start, end) of the normalised text. */
  datatype Range = Range(start: nat, end: nat)

  /** A value read from the text together with the range of its match. */
  datatype Found = Found(value: real, range: Range)

  /** The result of `parsePoleUsed`; None stands for an absent key. */
  datatype ParsedPole = ParsedPole(lengthFt: Option<real>, ratingLbs: Option<real>, flex: Option<real>, raw: string)

  function ValueOf(f: Option<Found>): Option<real> {
    match f
    case None => None
    case Some(x) => Some(x.value)
  }

  /** The finite value of a one-group match together with its range. */
  function FoundIn(pat: Pattern, s: string, m: Option<Match>): (r: Option<Found>)
    requires m.Some? ==> WellFormed(pat, s, m.value)
    requires GroupCount(pat) == 1
    ensures r.Some? <==> m.Some? && ToFiniteNumber(s, m.value.groups[0]).Some?
    ensures r.Some? ==> r.value == Found(NumeralValue(s, m.value.groups[0]), Range(m.value.start, m.value.end))
  {
    match m
    case None => None
    case Some(x) =>
      match GroupValue(pat, s, x)
      case None => None
      case Some(v) => Some(Found(v, Range(x.start, x.end)))
  }

  /** The pole length: the leftmost feet-and-inches form; only when there is
      none at all, the leftmost feet form ("'", "ft", "feet" or "foot"). */
  function LengthFound(s: string): (r: Option<Found>)
    ensures r.Some? ==> r.value.value >= 0.0
  {
    match Search(FeetAndInches, s, 0)
    case Some(m) => FeetInchesFound(s, m)
    case None => FoundIn(PoleFeet, s, Search(PoleFeet, s, 0))
  }

  /** A feet-and-inches match read as a length: both parts finite, feet
      plus inches over twelve, over the range of the match. */
  function FeetInchesFound(s: string, m: Match): (r: Option<Found>)
    requires WellFormed(FeetAndInches, s, m)
    ensures r.Some? ==> r.value.value >= 0.0
  {
    match BothFinite(s, m)
    case None => None
    case Some(fi) => Some(Found(fi.feet + fi.inches / 12.0, Range(m.start, m.end)))
  }

  /** The pole rating: the leftmost "lb"/"lbs" form. */
  function RatingFound(s: string): Option<Found> {
    FoundIn(Rating, s, Search(Rating, s, 0))
  }

  /** The labelled flex: the leftmost "flex N", or, only when there is none,
      the leftmost "N flex". */
  function FlexLabelFound(s: string): Option<Found> {
    var first := Search(FlexFirst, s, 0);
    if first.Some? then FoundIn(FlexFirst, s, first)
    else FoundIn(FlexAfter, s, Search(FlexAfter, s, 0))
  }

  /** The range a found value occupies, as a list of zero or one ranges. */
  function RangeOf(f: Option<Found>): seq<Range> {
    match f
    case None => []
    case Some(x) => [x.range]
  }

  /** `usedRanges.some(([start, end]) => index >= start && index < end)`. */
  predicate InUsed(index: nat, used: seq<Range>) {
    |used| > 0 && ((used[0].start <= index < used[0].end) || InUsed(index, used[1..]))
  }

  /** A numeral the fallback scan accepts as the flex. */
  predicate Eligible(s: string, t: Match, used: seq<Range>, lengthAndRating: bool)
    requires WellFormed(NumberToken, s, t)
  {
    && !InUsed(t.start, used)
    && ToFiniteNumber(s, t.groups[0]).Some?
    && (HasDecimal(t.groups[0]) || lengthAndRating)
  }

  /** Which numerals the fallback scan accepts, position by position. */
  function EligibleFlags(s: string, tokens: seq<Match>, used: seq<Range>, lengthAndRating: bool): (r: seq<bool>)
    requires forall k :: 0 <= k < |tokens| ==> WellFormed(NumberToken, s, tokens[k])
    ensures |r| == |tokens|
    decreases |tokens|
  {
    if |tokens| == 0 then []
    else
      var last := |tokens| - 1;
      EligibleFlags(s, tokens[..last], used, lengthAndRating) + [Eligible(s, tokens[last], used, lengthAndRating)]
  }

  lemma {:induction false} EligibleFlagAt(s: string, tokens: seq<Match>, used: seq<Range>, lengthAndRating: bool, i: nat)
    requires forall k :: 0 <= k < |tokens| ==> WellFormed(NumberToken, s, tokens[k])
    requires i < |tokens|
    ensures EligibleFlags(s, tokens, used, lengthAndRating)[i] == Eligible(s, tokens[i], used, lengthAndRating)
    decreases |tokens|
  {
    var last := |tokens| - 1;
    if i < last {
      EligibleFlagAt(s, tokens[..last], used, lengthAndRating, i);
    }
  }

  /** The index of the last true flag: where a right-to-left scan stops. */
  function LastTrue(flags: seq<bool>): (r: Option<nat>)
    ensures r.Some? ==> r.value < |flags| && flags[r.value]
    ensures r.Some? ==> forall j :: r.value < j < |flags| ==> !flags[j]
    ensures r.None? <==> forall j :: 0 <= j < |flags| ==> !flags[j]
  {
    if |flags| == 0 then None
    else if flags[|flags| - 1] then Some(|flags| - 1)
    else LastTrue(flags[..|flags| - 1])
  }

  lemma LastTrueOfPrefix(flags: seq<bool>, i: nat)
    requires i < |flags|
    ensures LastTrue(flags[..i + 1]) == if flags[i] then Some(i) else LastTrue(flags[..i])
  {
    assert flags[..i + 1][..i] == flags[..i];
  }

  /** The flex the fallback scan settles on: the value of the rightmost
      eligible numeral. */
  function FallbackFlex(s: string, tokens: seq<Match>, used: seq<Range>, lengthAndRating: bool): Option<real>
    requires forall k :: 0 <= k < |tokens| ==> WellFormed(NumberToken, s, tokens[k])
  {
    match LastTrue(EligibleFlags(s, tokens, used, lengthAndRating))
    case None => None
    case Some(k) => ToFiniteNumber(s, tokens[k].groups[0])
  }

  /** `parsePoleUsed`, as a function of its input. */
  function ParsePole(input: Option<string>): (r: ParsedPole)
    ensures r.raw == NormalizeInput(input)
  {
    var raw := NormalizeInput(input);
    if raw == "" then ParsedPole(None, None, None, "")
    else
      var s := NormalizeQuotes(raw);
      var length := LengthFound(s);
      var rating := RatingFound(s);
      var flex := FlexFound(s, RangeOf(length) + RangeOf(rating), length.Some? && rating.Some?);
      ParsedPole(ValueOf(length), ValueOf(rating), flex, raw)
  }

  /** The flex: the labelled one when there is one, else the fallback scan
      over the numerals outside the ranges `used`. */
  function FlexFound(s: string, used: seq<Range>, lengthAndRating: bool): Option<real> {
    var labelled := FlexLabelFound(s);
    if labelled.Some? then Some(labelled.value.value)
    else FallbackFlex(s, NumberTokens(s, 0), used, lengthAndRating)
  }

  /** The first numeral, then the numerals after it. */
  lemma NumberTokensUnfold(s: string, from: nat)
    requires from <= |s| && |NumberTokens(s, from)| > 0
    ensures var tokens := NumberTokens(s, from);
      tokens[0].end <= |s| && tokens == [tokens[0]] + NumberTokens(s, tokens[0].end)
  {
  }

  /** The numerals `matchAll` yields do not overlap and come left to right. */
  lemma {:induction false} NumberTokensInOrder(s: string, from: nat, i: nat, j: nat)
    requires from <= |s|
    requires i < j < |NumberTokens(s, from)|
    ensures NumberTokens(s, from)[i].end <= NumberTokens(s, from)[j].start
    decreases i
  {
    var tokens := NumberTokens(s, from);
    NumberTokensUnfold(s, from);
    var rest := NumberTokens(s, tokens[0].end);
    assert tokens[j] == rest[j - 1];
    if i > 0 {
      assert tokens[i] == rest[i - 1];
      NumberTokensInOrder(s, tokens[0].end, i - 1, j - 1);
    }
  }

  /** The leftmost feet-and-inches form decides the length, even when it is
      not finite and a feet form appears elsewhere. */
  lemma LengthInchesFormFirst(s: string, q: nat)
    requires q <= |s| && NoMatchIn(FeetAndInches, s, 0, q) && MatchAt(FeetAndInches, s, q).Some?
    ensures var m := MatchAt(FeetAndInches, s, q).value;
      && (LengthFound(s).Some? <==> BothFinite(s, m).Some?)
      && (LengthFound(s).Some? ==>
            LengthFound(s).value == Found(NumeralValue(s, m.groups[0]) + NumeralValue(s, m.groups[1]) / 12.0, Range(q, m.end)))
  {
    SearchFindsLeftmost(FeetAndInches, s, 0, q);
  }

  /** Only without any feet-and-inches form does the leftmost feet form
      ("'", "ft", "feet", "foot") give the length. */
  lemma LengthFeetFormOtherwise(s: string, q: nat)
    requires NoMatchIn(FeetAndInches, s, 0, |s| + 1)
    requires q <= |s| && NoMatchIn(PoleFeet, s, 0, q) && MatchAt(PoleFeet, s, q).Some?
    ensures var m := MatchAt(PoleFeet, s, q).value;
      && (LengthFound(s).Some? <==> ToFiniteNumber(s, m.groups[0]).Some?)
      && (LengthFound(s).Some? ==> LengthFound(s).value == Found(NumeralValue(s, m.groups[0]), Range(q, m.end)))
  {
    SearchFindsNothing(FeetAndInches, s, 0);
    SearchFindsLeftmost(PoleFeet, s, 0, q);
  }

  /** The leftmost "lb"/"lbs" form gives the rating. */
  lemma RatingLeftmost(s: string, q: nat)
    requires q <= |s| && NoMatchIn(Rating, s, 0, q) && MatchAt(Rating, s, q).Some?
    ensures var m := MatchAt(Rating, s, q).value;
      && (RatingFound(s).Some? <==> ToFiniteNumber(s, m.groups[0]).Some?)
      && (RatingFound(s).Some? ==> RatingFound(s).value == Found(NumeralValue(s, m.groups[0]), Range(q, m.end)))
  {
    SearchFindsLeftmost(Rating, s, 0, q);
  }

  /** "flex N" anywhere takes precedence over "N flex", even when its number
      is not finite. */
  lemma FlexFirstWins(s: string, q: nat)
    requires q <= |s| && NoMatchIn(FlexFirst, s, 0, q) && MatchAt(FlexFirst, s, q).Some?
    ensures var m := MatchAt(FlexFirst, s, q).value;
      && (FlexLabelFound(s).Some? <==> ToFiniteNumber(s, m.groups[0]).Some?)
      && (FlexLabelFound(s).Some? ==> FlexLabelFound(s).value == Found(NumeralValue(s, m.groups[0]), Range(q, m.end)))
  {
    SearchFindsLeftmost(FlexFirst, s, 0, q);
  }

  /** Without any "flex N", the leftmost "N flex" is the labelled flex. */
  lemma FlexAfterOtherwise(s: string, q: nat)
    requires NoMatchIn(FlexFirst, s, 0, |s| + 1)
    requires q <= |s| && NoMatchIn(FlexAfter, s, 0, q) && MatchAt(FlexAfter, s, q).Some?
    ensures var m := MatchAt(FlexAfter, s, q).value;
      && (FlexLabelFound(s).Some? <==> ToFiniteNumber(s, m.groups[0]).Some?)
      && (FlexLabelFound(s).Some? ==> FlexLabelFound(s).value == Found(NumeralValue(s, m.groups[0]), Range(q, m.end)))
  {
    SearchFindsNothing(FlexFirst, s, 0);
    SearchFindsLeftmost(FlexAfter, s, 0, q);
  }

  /** The fallback takes the rightmost eligible numeral. */
  lemma FallbackPicksRightmost(s: string, tokens: seq<Match>, used: seq<Range>, lengthAndRating: bool, k: nat)
    requires forall j :: 0 <= j < |tokens| ==> WellFormed(NumberToken, s, tokens[j])
    requires k < |tokens| && Eligible(s, tokens[k], used, lengthAndRating)
    requires forall j :: k < j < |tokens| ==> !Eligible(s, tokens[j], used, lengthAndRating)
    ensures FallbackFlex(s, tokens, used, lengthAndRating) == Some(NumeralValue(s, tokens[k].groups[0]))
  {
    var flags := EligibleFlags(s, tokens, used, lengthAndRating);
    EligibleFlagAt(s, tokens, used, lengthAndRating, k);
    var r := LastTrue(flags).value;
    if r != k {
      EligibleFlagAt(s, tokens, used, lengthAndRating, r);
    }
  }

  /** The fallback finds nothing exactly when no numeral is eligible. */
  lemma FallbackNoneIffNoneEligible(s: string, tokens: seq<Match>, used: seq<Range>, lengthAndRating: bool)
    requires forall j :: 0 <= j < |tokens| ==> WellFormed(NumberToken, s, tokens[j])
    ensures FallbackFlex(s, tokens, used, lengthAndRating).None? <==> NoneEligible(s, tokens, used, lengthAndRating)
  {
    var flags := EligibleFlags(s, tokens, used, lengthAndRating);
    var r := LastTrue(flags);
    if r.Some? {
      EligibleFlagAt(s, tokens, used, lengthAndRating, r.value);
    } else {
      forall j | 0 <= j < |tokens|
        ensures !Eligible(s, tokens[j], used, lengthAndRating)
      {
        EligibleFlagAt(s, tokens, used, lengthAndRating, j);
      }
    }
  }

  /** A labelled flex is the pole's flex, and the numerals are not scanned. */
  lemma PoleLabelledFlex(input: Option<string>)
    requires NormalizeInput(input) != "" && FlexLabelFound(Normalized(input)).Some?
    ensures ParsePole(input).flex == Some(FlexLabelFound(Normalized(input)).value.value)
  {
  }

  /** Without a labelled flex, the pole's flex is the rightmost numeral whose
      start is outside the length and rating matches, that is finite, and that
      has a decimal point or comes with both a length and a rating. */
  lemma PoleFallbackFlex(input: Option<string>, k: nat)
    requires NormalizeInput(input) != "" && FlexLabelFound(Normalized(input)).None?
    requires var s := Normalized(input); var tokens := NumberTokens(s, 0);
      var used := RangeOf(LengthFound(s)) + RangeOf(RatingFound(s));
      var both := LengthFound(s).Some? && RatingFound(s).Some?;
      && k < |tokens| && Eligible(s, tokens[k], used, both)
      && forall j :: k < j < |tokens| ==> !Eligible(s, tokens[j], used, both)
    ensures ParsePole(input).flex == Some(NumeralValue(Normalized(input), NumberTokens(Normalized(input), 0)[k].groups[0]))
  {
    var s := Normalized(input);
    FallbackPicksRightmost(s, NumberTokens(s, 0), RangeOf(LengthFound(s)) + RangeOf(RatingFound(s)),
      LengthFound(s).Some? && RatingFound(s).Some?, k);
  }

  /** No numeral is eligible for the fallback. */
  ghost predicate NoneEligible(s: string, tokens: seq<Match>, used: seq<Range>, lengthAndRating: bool)
    requires forall j :: 0 <= j < |tokens| ==> WellFormed(NumberToken, s, tokens[j])
  {
    forall j :: 0 <= j < |tokens| ==> !Eligible(s, tokens[j], used, lengthAndRating)
  }

  /** Without a labelled flex, the pole has no flex exactly when no numeral is
      eligible. */
  lemma PoleNoFlex(input: Option<string>)
    requires NormalizeInput(input) != "" && FlexLabelFound(Normalized(input)).None?
    ensures var s := Normalized(input);
      ParsePole(input).flex.None? <==>
        NoneEligible(s, NumberTokens(s, 0), RangeOf(LengthFound(s)) + RangeOf(RatingFound(s)),
          LengthFound(s).Some? && RatingFound(s).Some?)
  {
    var s := Normalized(input);
    var tokens := NumberTokens(s, 0);
    var used := RangeOf(LengthFound(s)) + RangeOf(RatingFound(s));
    var both := LengthFound(s).Some? && RatingFound(s).Some?;
    assert ParsePole(input).flex == FallbackFlex(s, tokens, used, both);
    FallbackNoneIffNoneEligible(s, tokens, used, both);
  }

  /** The length block of `parsePoleUsed`: reads the length and records the
      range of the match it came from. */
  method ReadLength(normalized: string, usedRanges: seq<Range>) returns (lengthFt: Option<real>, used: seq<Range>)
    ensures lengthFt == ValueOf(LengthFound(normalized))
    ensures used == usedRanges + RangeOf(LengthFound(normalized))
  {
    lengthFt, used := None, usedRanges;
    var lengthWithInches := Search(FeetAndInches, normalized, 0);
    if lengthWithInches.Some? {
      var m := lengthWithInches.value;
      var found := ReadFeetInches(normalized, m);
      assert found == LengthFound(normalized);
      if found.Some? {
        lengthFt := Some(found.value.value);
        used := used + [found.value.range];
      }
    } else {
      var lengthFeetOnly := Search(PoleFeet, normalized, 0);
      assert LengthFound(normalized) == FoundIn(PoleFeet, normalized, lengthFeetOnly);
      if lengthFeetOnly.Some? {
        var m := lengthFeetOnly.value;
        var feet := ToFiniteNumber(normalized, m.groups[0]);
        if feet.Some? {
          lengthFt := feet;
          used := used + [Range(m.start, m.end)];
        }
      }
    }
  }

  /** The feet-and-inches branch of the length block: both parts finite,
      feet plus inches over twelve, over the range of the match. */
  method ReadFeetInches(normalized: string, m: Match) returns (found: Option<Found>)
    requires WellFormed(FeetAndInches, normalized, m)
    ensures found == FeetInchesFound(normalized, m)
  {
    found := None;
    var feet := ToFiniteNumber(normalized, m.groups[0]);
    var inches := ToFiniteNumber(normalized, m.groups[1]);
    if feet.Some? && inches.Some? {
      found := Some(Found(feet.value + inches.value / 12.0, Range(m.start, m.end)));
    }
  }

  /** The rating block of `parsePoleUsed`. */
  method ReadRating(normalized: string, usedRanges: seq<Range>) returns (ratingLbs: Option<real>, used: seq<Range>)
    ensures ratingLbs == ValueOf(RatingFound(normalized))
    ensures used == usedRanges + RangeOf(RatingFound(normalized))
  {
    ratingLbs, used := None, usedRanges;
    var ratingMatch := Search(Rating, normalized, 0);
    if ratingMatch.Some? {
      var m := ratingMatch.value;
      var rating := ToFiniteNumber(normalized, m.groups[0]);
      if rating.Some? {
        ratingLbs := rating;
        used := used + [Range(m.start, m.end)];
      }
    }
  }

  /** The labelled-flex block of `parsePoleUsed`. */
  method ReadLabelledFlex(normalized: string, usedRanges: seq<Range>) returns (flex: Option<real>, used: seq<Range>)
    ensures flex == ValueOf(FlexLabelFound(normalized))
    ensures used == usedRanges + RangeOf(FlexLabelFound(normalized))
  {
    flex, used := None, usedRanges;
    var flexLabeled := Search(FlexFirst, normalized, 0);
    if flexLabeled.None? {
      flexLabeled := Search(FlexAfter, normalized, 0);
    }
    if flexLabeled.Some? {
      var m := flexLabeled.value;
      var flexValue := ToFiniteNumber(normalized, m.groups[0]);
      if flexValue.Some? {
        flex := flexValue;
        used := used + [Range(m.start, m.end)];
      }
    }
  }

  /** The fallback block of `parsePoleUsed`: numerals from right to left,
      skipping those that start inside a used range, those that are not
      finite, and those without a '.' unless both length and rating are
      known; the first one left is the flex. */
  method ScanFallback(normalized: string, usedRanges: seq<Range>, lengthAndRating: bool) returns (flex: Option<real>)
    ensures flex == FallbackFlex(normalized, NumberTokens(normalized, 0), usedRanges, lengthAndRating)
  {
    flex := None;
    var numberMatches := NumberTokens(normalized, 0);
    ghost var flags := EligibleFlags(normalized, numberMatches, usedRanges, lengthAndRating);
    ghost var answer := LastTrue(flags);
    assert flags[..|numberMatches|] == flags;
    var i := |numberMatches| - 1;
    while i >= 0
      invariant -1 <= i < |numberMatches|
      invariant answer == LastTrue(flags[..i + 1])
      invariant flex.None?
      decreases i + 1
    {
      LastTrueOfPrefix(flags, i);
      EligibleFlagAt(normalized, numberMatches, usedRanges, lengthAndRating, i);
      var match_ := numberMatches[i];
      var index := match_.start;
      var accept := false;
      if !InUsed(index, usedRanges) {
        var numeric := ToFiniteNumber(normalized, match_.groups[0]);
        if numeric.Some? {
          var hasDecimal := HasDecimal(match_.groups[0]);
          if hasDecimal || lengthAndRating {
            flex := numeric;
            accept := true;
          }
        }
      }
      assert flags[i] == Eligible(normalized, match_, usedRanges, lengthAndRating);
      assert accept == flags[i];
      if accept {
        assert answer == Some(i);
        assert FallbackFlex(normalized, numberMatches, usedRanges, lengthAndRating) == ToFiniteNumber(normalized, match_.groups[0]);
        return;
      }
      i := i - 1;
    }
    assert flags[..0] == [];
  }

  /** The flex part of `parsePoleUsed`: the labelled flex, or the
      fallback scan over the ranges used before it when there is none. */
  method ReadFlex(normalized: string, usedRanges: seq<Range>, lengthAndRating: bool) returns (flex: Option<real>)
    ensures flex == FlexFound(normalized, usedRanges, lengthAndRating)
  {
    var used;
    flex, used := ReadLabelledFlex(normalized, usedRanges);
    if flex.None? {
      assert RangeOf(FlexLabelFound(normalized)) == [];
      assert used == usedRanges;
      flex := ScanFallback(normalized, used, lengthAndRating);
    }
  }

  /** `parsePoleUsed` as the source writes it: three leftmost matches that
      record the ranges they consume, then the fallback scan when no flex
      was labelled. */
  method ParsePoleUsed(input: Option<string>) returns (r: ParsedPole)
    ensures r == ParsePole(input)
  {
    var raw := NormalizeInput(input);
    if raw == "" {
      return ParsedPole(None, None, None, "");
    }
    var normalized := NormalizeQuotes(raw);
    var lengthFt, ratingLbs, flex := ReadPole(normalized);
    return ParsedPole(lengthFt, ratingLbs, flex, raw);
  }

  /** The three blocks of `parsePoleUsed` in order, threading the used ranges. */
  method ReadPole(normalized: string) returns (lengthFt: Option<real>, ratingLbs: Option<real>, flex: Option<real>)
    ensures var length, rating := LengthFound(normalized), RatingFound(normalized);
      && lengthFt == ValueOf(length)
      && ratingLbs == ValueOf(rating)
      && flex == FlexFound(normalized, RangeOf(length) + RangeOf(rating), length.Some? && rating.Some?)
  {
    var usedRanges: seq<Range> := [];
    lengthFt, usedRanges := ReadLength(normalized, usedRanges);
    assert usedRanges == RangeOf(LengthFound(normalized));
    ratingLbs, usedRanges := ReadRating(normalized, usedRanges);
    flex := ReadFlex(normalized, usedRanges, lengthFt.Some? && ratingLbs.Some?);
  }

  // ---------------------------------------------------------------------------
  // Leftmost matching
  // ---------------------------------------------------------------------------

  /** NoneInAt as an implication, for use without a case split. */
  lemma NoneInWhen(f: nat -> Option<Match>, a: nat, b: nat, q: nat)
    ensures NoneIn(f, a, b) && a <= q < b ==> f(q).None?
  {
    if NoneIn(f, a, b) && a <= q < b {
      NoneInAt(f, a, b, q);
    }
  }

  /** `r` is what a leftmost search over `f` from `from` to `n` may return. */
  ghost predicate Leftmost(f: nat -> Option<Match>, from: nat, n: nat, r: Option<Match>) {
    && (r.Some? ==> from <= r.value.start <= n && f(r.value.start) == r && NoneIn(f, from, r.value.start))
    && (r.None? ==> NoneIn(f, from, n + 1))
  }

  /** What a leftmost search over `f` returns when `f` hits at q. */
  lemma FirstHit(f: nat -> Option<Match>, from: nat, n: nat, r: Option<Match>, q: nat)
    requires Leftmost(f, from, n, r) && from <= q <= n && f(q).Some?
    ensures r.Some? && r.value.start <= q
    ensures NoneIn(f, from, q) ==> r == f(q)
  {
    var start := if r.Some? then r.value.start else q;
    NoneInWhen(f, from, n + 1, q);
    NoneInWhen(f, from, start, q);
    NoneInWhen(f, from, q, start);
  }

  /** What a leftmost search over `f` returns when `f` never hits. */
  lemma FirstMiss(f: nat -> Option<Match>, from: nat, n: nat, r: Option<Match>)
    requires Leftmost(f, from, n, r) && NoneIn(f, from, n + 1)
    ensures r.None?
  {
    NoneInWhen(f, from, n + 1, if r.Some? then r.value.start else from);
  }

  /** A pattern that misses at every position of [a, b) has no match there. */
  lemma {:induction false} MissesEverywhere(pat: Pattern, s: string, a: nat, b: nat)
    requires forall q :: a <= q < b ==> Matcher(pat, s)(q).None?
    ensures NoMatchIn(pat, s, a, b)
    decreases b - a
  {
    if a < b {
      assert Matcher(pat, s)(a).None?;
      MissesEverywhere(pat, s, a + 1, b);
    }
  }

  /** The patterns whose body opens with the number group. */
  predicate NumberLed(pat: Pattern) {
    !pat.NoHeight? && !pat.FlexFirst?
  }

  /** A number-led pattern matches only where a digit starts. */
  lemma NumberLedNeedsDigit(pat: Pattern, s: string, q: nat)
    requires NumberLed(pat) && q <= |s| && MatchAt(pat, s, q).Some?
    ensures q < |s| && IsDigit(s[q])
  {
    assert RegexOf(pat).body[0] == Num;
  }

  /** A number-led pattern does not match where no digit starts. */
  lemma NotDigitNoMatch(pat: Pattern, s: string, q: nat)
    requires NumberLed(pat) && q <= |s| && (q == |s| || !IsDigit(s[q]))
    ensures MatchAt(pat, s, q).None?
  {
    if MatchAt(pat, s, q).Some? {
      NumberLedNeedsDigit(pat, s, q);
    }
  }

  /** Text without a digit in [a, b) holds no match of a number-led pattern there. */
  lemma NoDigitsNoMatch(pat: Pattern, s: string, a: nat, b: nat)
    requires NumberLed(pat) && b <= |s| + 1
    requires forall k :: a <= k < b && k < |s| ==> !IsDigit(s[k])
    ensures NoMatchIn(pat, s, a, b)
  {
    forall q | a <= q < b ensures Matcher(pat, s)(q).None? {
      if MatchAt(pat, s, q).Some? {
        NumberLedNeedsDigit(pat, s, q);
      }
    }
    MissesEverywhere(pat, s, a, b);
  }

  /** A body that opens with the number, spaces and the keyword `w` runs only
      where the keyword follows the number and its spaces; the rest of the body
      then runs from just after the keyword. */
  lemma KeywordAfterNumber(body: seq<Elem>, s: string, q: nat, w: string) returns (e: nat, after: nat)
    requires |body| >= 3 && body[0] == Num && body[1] == Spaces && body[2] == Plain(Lit(w))
    requires q <= |s| && BodyRun(body, s, q).Some?
    ensures NumberAt(s, q).Some? && e == SpacesEnd(s, NumberAt(s, q).value.end)
    ensures CiAt(s, e, w) && after == e + |w| <= |s| && BodyRun(body[3..], s, after).Some?
    ensures BodyRun(body[3..], s, after).value.end == BodyRun(body, s, q).value.end
  {
    var n := NumberAt(s, q).value;
    e := SpacesEnd(s, n.end);
    after := e + |w|;
    assert body[1..][0] == Spaces && body[1..][1..] == body[2..];
    assert body[2..][0] == Plain(Lit(w)) && body[2..][1..] == body[3..];
    assert BodyRun(body, s, q).value.end == BodyRun(body[1..], s, n.end).value.end;
    assert BodyRun(body[1..], s, n.end) == BodyRun(body[2..], s, e);
    assert AtomEnd(Lit(w), s, e).Some?;
  }

  /** A number, spaces, an apostrophe, then what `InchesFrom` describes. */
  predicate FeetAndInchesShaped(s: string, q: nat)
    requires q <= |s|
  {
    NumberAt(s, q).Some? &&
    var e1 := SpacesEnd(s, NumberAt(s, q).value.end);
    e1 < |s| && s[e1] == '\'' && InchesFrom(s, SpacesEnd(s, e1 + 1))
  }

  /** A number at p, spaces, then `"` or `in`. */
  predicate InchesFrom(s: string, p: nat)
    requires p <= |s|
  {
    NumberAt(s, p).Some? && InchMark(s, SpacesEnd(s, NumberAt(s, p).value.end))
  }

  predicate InchMark(s: string, p: nat)
    requires p <= |s|
  {
    CiAt(s, p, "\"") || CiAt(s, p, "in")
  }

  /** The feet-and-inches form matches only where a number, spaces, an
      apostrophe, spaces, a number and spaces are followed by `"` or `in`. */
  lemma FeetAndInchesShape(s: string, q: nat) returns (e1: nat, e2: nat, e3: nat)
    requires q <= |s| && MatchAt(FeetAndInches, s, q).Some?
    ensures NumberAt(s, q).Some? && e1 == SpacesEnd(s, NumberAt(s, q).value.end)
    ensures e1 < |s| && s[e1] == '\'' && e2 == SpacesEnd(s, e1 + 1)
    ensures NumberAt(s, e2).Some? && e3 == SpacesEnd(s, NumberAt(s, e2).value.end)
    ensures CiAt(s, e3, "\"") || CiAt(s, e3, "in")
    ensures FeetAndInchesShaped(s, q)
  {
    var re := RegexOf(FeetAndInches);
    e1, e2, e3 := FeetAndInchesRun(re.body, re.alternatives, s, q);
    ShapedFrom(s, q, e1, e2, e3);
  }

  lemma ShapedFrom(s: string, q: nat, e1: nat, e2: nat, e3: nat)
    requires q <= |s| && NumberAt(s, q).Some? && e1 == SpacesEnd(s, NumberAt(s, q).value.end)
    requires e1 < |s| && s[e1] == '\'' && e2 == SpacesEnd(s, e1 + 1)
    requires NumberAt(s, e2).Some? && e3 == SpacesEnd(s, NumberAt(s, e2).value.end)
    requires CiAt(s, e3, "\"") || CiAt(s, e3, "in")
    ensures FeetAndInchesShaped(s, q)
  {
  }

  lemma FeetAndInchesRun(body: seq<Elem>, alternatives: seq<seq<Atom>>, s: string, q: nat) returns (e1: nat, e2: nat, e3: nat)
    requires |body| == 6 && body[0] == Num && body[1] == Spaces && body[2] == Plain(Lit("'"))
    requires body[3..] == [Spaces, Num, Spaces] && alternatives == [[Lit("\"")], [Lit("in"), Boundary]]
    requires q <= |s| && BodyRun(body, s, q).Some?
    requires AlternativesEnd(alternatives, s, BodyRun(body, s, q).value.end).Some?
    ensures NumberAt(s, q).Some? && e1 == SpacesEnd(s, NumberAt(s, q).value.end)
    ensures e1 < |s| && s[e1] == '\'' && e2 == SpacesEnd(s, e1 + 1)
    ensures NumberAt(s, e2).Some? && e3 == SpacesEnd(s, NumberAt(s, e2).value.end)
    ensures CiAt(s, e3, "\"") || CiAt(s, e3, "in")
  {
    var after;
    e1, after := KeywordAfterNumber(body, s, q, "'");
    assert Lower(s[e1]) == '\'' && after == e1 + 1;
    e2, e3 := NumberThenSpaces(body[3..], s, after);
    QuoteOrInch(alternatives, s, e3);
  }

  /** `\s*(\d+(?:\.\d+)?)\s*` runs only where a number follows the spaces,
      and it ends after the spaces that follow that number. */
  lemma NumberThenSpaces(body: seq<Elem>, s: string, p: nat) returns (e2: nat, e3: nat)
    requires body == [Spaces, Num, Spaces] && p <= |s| && BodyRun(body, s, p).Some?
    ensures e2 == SpacesEnd(s, p) && NumberAt(s, e2).Some?
    ensures e3 == SpacesEnd(s, NumberAt(s, e2).value.end) && BodyRun(body, s, p).value.end == e3
  {
    e2 := SpacesEnd(s, p);
    assert body[1..] == [Num, Spaces] && [Num, Spaces][1..] == [Spaces] && [Spaces][1..] == [];
    assert BodyRun(body, s, p) == BodyRun([Num, Spaces], s, e2);
    var n := NumberAt(s, e2).value;
    e3 := SpacesEnd(s, n.end);
    assert BodyRun([Spaces], s, n.end) == Some(Partial(e3, []));
  }

  /** The feet-and-inches ending `"|in\b` holds only at a quote or an "in". */
  lemma QuoteOrInch(alternatives: seq<seq<Atom>>, s: string, p: nat)
    requires alternatives == [[Lit("\"")], [Lit("in"), Boundary]]
    requires p <= |s| && AlternativesEnd(alternatives, s, p).Some?
    ensures CiAt(s, p, "\"") || CiAt(s, p, "in")
  {
    var quote, inch := [Lit("\"")], [Lit("in"), Boundary];
    assert alternatives[1..] == [inch] && [inch][1..] == [];
    if AtomsEnd(quote, s, p).None? {
      assert AlternativesEnd(alternatives, s, p) == AlternativesEnd([inch], s, p);
      assert AlternativesEnd([inch], s, p).Some? && AlternativesEnd([], s, p).None?;
      assert AtomEnd(Lit("in"), s, p).Some?;
    } else {
      assert AtomEnd(Lit("\""), s, p).Some?;
    }
  }

  /** Where the number and its spaces are not followed by the keyword `w`, a
      pattern that opens with them does not match. */
  lemma KeywordMissing(pat: Pattern, s: string, q: nat, w: string)
    requires |RegexOf(pat).body| >= 3 && RegexOf(pat).body[0] == Num && RegexOf(pat).body[1] == Spaces
    requires RegexOf(pat).body[2] == Plain(Lit(w))
    requires q < |s| && NumberAt(s, q).Some? && !CiAt(s, SpacesEnd(s, NumberAt(s, q).value.end), w)
    ensures MatchAt(pat, s, q).None?
  {
    if MatchAt(pat, s, q).Some? {
      var _, _ := KeywordAfterNumber(RegexOf(pat).body, s, q, w);
    }
  }

  /** Where the feet-and-inches shape breaks off, the form does not match. */
  lemma FeetAndInchesMissing(s: string, q: nat)
    requires q <= |s| && !FeetAndInchesShaped(s, q)
    ensures MatchAt(FeetAndInches, s, q).None?
  {
    if MatchAt(FeetAndInches, s, q).Some? {
      var _, _, _ := FeetAndInchesShape(s, q);
    }
  }

  /** A number at q, the spaces after it ending at e1, an apostrophe at e1,
      spaces up to a second number at e2, and the spaces after it ending at e3. */
  predicate FeetAndInchesSpans(s: string, q: nat, e1: nat, e2: nat, e3: nat) {
    && q < |s| && NumberAt(s, q).Some? && e1 == SpacesEnd(s, NumberAt(s, q).value.end)
    && e1 < |s| && s[e1] == '\'' && e2 == SpacesEnd(s, e1 + 1)
    && NumberAt(s, e2).Some? && e3 == SpacesEnd(s, NumberAt(s, e2).value.end)
  }

  /** A number, spaces, an apostrophe, spaces, a number, spaces and a quote
      make a feet-and-inches match that ends just after the quote. */
  lemma FeetAndInchesHere(s: string, q: nat, e1: nat, e2: nat, e3: nat)
    requires FeetAndInchesSpans(s, q, e1, e2, e3)
    requires e3 < |s| && s[e3] == '"'
    ensures MatchAt(FeetAndInches, s, q) == Some(Match(q, e3 + 1, [NumberAt(s, q).value, NumberAt(s, e2).value]))
  {
    FeetAndInchesMatch(FeetAndInches, s, q, e1, e2, e3);
  }

  lemma FeetAndInchesMatch(pat: Pattern, s: string, q: nat, e1: nat, e2: nat, e3: nat)
    requires pat == FeetAndInches && FeetAndInchesSpans(s, q, e1, e2, e3)
    requires e3 < |s| && s[e3] == '"'
    ensures MatchAt(pat, s, q) == Some(Match(q, e3 + 1, [NumberAt(s, q).value, NumberAt(s, e2).value]))
  {
    FeetAndInchesElems(pat);
    FeetAndInchesBody(RegexOf(pat).body, s, q, e1, e2, e3);
    FeetAndInchesQuote(pat, s, e3);
  }

  /** The feet-and-inches form closes at a double quote. */
  lemma FeetAndInchesQuote(pat: Pattern, s: string, p: nat)
    requires pat == FeetAndInches && p < |s| && s[p] == '"'
    ensures AlternativesEnd(RegexOf(pat).alternatives, s, p) == Some(p + 1)
  {
    QuoteFirst(RegexOf(pat).alternatives, s, p);
  }

  /** The body of the feet-and-inches form runs over both numbers and the
      spaces after the second. */
  lemma FeetAndInchesBody(body: seq<Elem>, s: string, q: nat, e1: nat, e2: nat, e3: nat)
    requires |body| == 6 && body[0] == Num && body[1] == Spaces && body[2] == Plain(Lit("'"))
    requires body[3] == Spaces && body[4] == Num && body[5] == Spaces
    requires FeetAndInchesSpans(s, q, e1, e2, e3)
    ensures BodyRun(body, s, q) == Some(Partial(e3, [NumberAt(s, q).value, NumberAt(s, e2).value]))
  {
    var n1, n2 := NumberAt(s, q).value, NumberAt(s, e2).value;
    var tail := body[3..];
    assert |tail| == 3 && tail[0] == Spaces && tail[1] == Num && tail[2] == Spaces;
    SpacedNumberRun(tail, s, e1 + 1, e2, n2, e3);
    FeetThenRest(body, s, q, e1, Partial(e3, [n2]));
    assert [n1] + [n2] == [n1, n2];
  }

  /** The number, its spaces and an apostrophe, followed by a body run `rest`. */
  lemma FeetThenRest(body: seq<Elem>, s: string, q: nat, e1: nat, rest: Partial)
    requires |body| >= 3 && body[0] == Num && body[1] == Spaces && body[2] == Plain(Lit("'"))
    requires SpacedNumber(s, q, e1) && e1 < |s| && s[e1] == '\''
    requires BodyRun(body[3..], s, e1 + 1) == Some(rest)
    ensures BodyRun(body, s, q) == Some(Partial(rest.end, [NumberAt(s, q).value] + rest.groups))
  {
    ApostropheAt(s, e1);
    KeywordRun(body, s, q, e1, "'", e1 + 1, rest);
  }

  /** The six elements of the feet-and-inches body. */
  lemma FeetAndInchesElems(pat: Pattern)
    requires pat == FeetAndInches
    ensures var body := RegexOf(pat).body;
      && |body| == 6 && body[0] == Num && body[1] == Spaces && body[2] == Plain(Lit("'"))
      && body[3] == Spaces && body[4] == Num && body[5] == Spaces
  {
  }

  /** A match is a body run followed by an alternative. */
  lemma MatchFrom(pat: Pattern, s: string, p: nat, b: Partial, e: nat)
    requires p <= |s| && BodyRun(RegexOf(pat).body, s, p) == Some(b)
    requires AlternativesEnd(RegexOf(pat).alternatives, s, b.end) == Some(e)
    ensures MatchAt(pat, s, p) == Some(Match(p, e, b.groups))
  {
  }

  /** An alternation that opens with `"` matches one character at a quote. */
  lemma QuoteFirst(alternatives: seq<seq<Atom>>, s: string, p: nat)
    requires |alternatives| > 0 && alternatives[0] == [Lit("\"")]
    requires p < |s| && s[p] == '"'
    ensures AlternativesEnd(alternatives, s, p) == Some(p + 1)
  {
    assert CiAt(s, p, "\"") by { assert CiAt(s, p + 1, ""); }
    assert AtomsEnd(alternatives[0], s, p) == Some(p + 1);
  }

  /** A number at q and the spaces after it, ending at e. */
  predicate SpacedNumber(s: string, q: nat, e: nat) {
    q < |s| && NumberAt(s, q).Some? && e == SpacesEnd(s, NumberAt(s, q).value.end)
  }

  /** A number, spaces and an apostrophe make a feet-only match that ends
      just after the apostrophe. */
  lemma FeetOnlyHere(s: string, q: nat, e: nat)
    requires SpacedNumber(s, q, e)
    requires e < |s| && s[e] == '\''
    ensures MatchAt(FeetOnly, s, q) == Some(Match(q, e + 1, [NumberAt(s, q).value]))
  {
    FeetOnlyMatch(FeetOnly, s, q, e);
  }

  lemma FeetOnlyMatch(pat: Pattern, s: string, q: nat, e: nat)
    requires pat == FeetOnly && SpacedNumber(s, q, e)
    requires e < |s| && s[e] == '\''
    ensures MatchAt(pat, s, q) == Some(Match(q, e + 1, [NumberAt(s, q).value]))
  {
    var re := RegexOf(pat);
    var n := NumberAt(s, q).value;
    ApostropheAt(s, e);
    assert re.body[3..] == [];
    KeywordRun(re.body, s, q, e, "'", e + 1, Partial(e + 1, []));
    assert [n] + [] == [n];
    assert AlternativesEnd(re.alternatives, s, e + 1) == Some(e + 1);
  }

  /** A number, spaces and an m at the end of a word make a metric match. */
  lemma MetersHere(s: string, q: nat, e: nat)
    requires SpacedNumber(s, q, e)
    requires e < |s| && Lower(s[e]) == 'm' && IsBoundary(s, e + 1)
    ensures MatchAt(Meters, s, q) == Some(Match(q, e + 1, [NumberAt(s, q).value]))
  {
    MetersMatch(Meters, s, q, e);
  }

  lemma MetersMatch(pat: Pattern, s: string, q: nat, e: nat)
    requires pat == Meters && SpacedNumber(s, q, e)
    requires e < |s| && Lower(s[e]) == 'm' && IsBoundary(s, e + 1)
    ensures MatchAt(pat, s, q) == Some(Match(q, e + 1, [NumberAt(s, q).value]))
  {
    var re := RegexOf(pat);
    var n := NumberAt(s, q).value;
    assert CiAt(s, e, "m") by { assert CiAt(s, e + 1, ""); }
    var tail := re.body[3..];
    assert tail[0] == Plain(Boundary) && tail[1..] == [];
    assert BodyRun(tail, s, e + 1) == Some(Partial(e + 1, []));
    KeywordRun(re.body, s, q, e, "m", e + 1, Partial(e + 1, []));
    assert [n] + [] == [n];
    assert AlternativesEnd(re.alternatives, s, e + 1) == Some(e + 1);
  }

  /** A number, spaces and an apostrophe make a pole-feet match that ends just
      after the apostrophe. */
  lemma PoleFeetHere(s: string, q: nat, e: nat)
    requires SpacedNumber(s, q, e)
    requires e < |s| && s[e] == '\''
    ensures MatchAt(PoleFeet, s, q) == Some(Match(q, e + 1, [NumberAt(s, q).value]))
  {
    PoleFeetMatch(PoleFeet, s, q, e);
  }

  lemma PoleFeetMatch(pat: Pattern, s: string, q: nat, e: nat)
    requires pat == PoleFeet && SpacedNumber(s, q, e)
    requires e < |s| && s[e] == '\''
    ensures MatchAt(pat, s, q) == Some(Match(q, e + 1, [NumberAt(s, q).value]))
  {
    PoleFeetBody(pat, s, q, e);
    ApostropheFirst(RegexOf(pat).alternatives, s, e);
    MatchFrom(pat, s, q, Partial(e, [NumberAt(s, q).value]), e + 1);
  }

  /** An alternation that opens with `'` matches one character at an apostrophe. */
  lemma ApostropheFirst(alternatives: seq<seq<Atom>>, s: string, p: nat)
    requires |alternatives| > 0 && alternatives[0] == [Lit("'")]
    requires p < |s| && s[p] == '\''
    ensures AlternativesEnd(alternatives, s, p) == Some(p + 1)
  {
    ApostropheAt(s, p);
    assert AtomsEnd(alternatives[0], s, p) == Some(p + 1);
  }

  lemma PoleFeetBody(pat: Pattern, s: string, q: nat, e: nat)
    requires pat == PoleFeet && SpacedNumber(s, q, e)
    ensures BodyRun(RegexOf(pat).body, s, q) == Some(Partial(e, [NumberAt(s, q).value]))
  {
    var body := RegexOf(pat).body;
    var n := NumberAt(s, q).value;
    var tail := body[1..];
    assert tail[0] == Spaces && tail[1..] == [];
    RunSpaces(tail, s, n.end);
    assert BodyRun(tail, s, n.end) == Some(Partial(e, []));
    RunNum(body, s, q);
    assert [n] + [] == [n];
  }

  /** A number, spaces and "lbs" at the end of a word make a rating match. */
  lemma RatingHere(s: string, q: nat, e: nat)
    requires SpacedNumber(s, q, e)
    requires e + 3 <= |s| && CiAt(s, e, "lb") && Lower(s[e + 2]) == 's' && IsBoundary(s, e + 3)
    ensures MatchAt(Rating, s, q) == Some(Match(q, e + 3, [NumberAt(s, q).value]))
  {
    RatingMatch(Rating, s, q, e);
  }

  lemma RatingMatch(pat: Pattern, s: string, q: nat, e: nat)
    requires pat == Rating && SpacedNumber(s, q, e)
    requires e + 3 <= |s| && CiAt(s, e, "lb") && Lower(s[e + 2]) == 's' && IsBoundary(s, e + 3)
    ensures MatchAt(pat, s, q) == Some(Match(q, e + 3, [NumberAt(s, q).value]))
  {
    var re := RegexOf(pat);
    var n := NumberAt(s, q).value;
    assert re.body[3..] == [];
    KeywordRun(re.body, s, q, e, "lb", e + 2, Partial(e + 2, []));
    assert [n] + [] == [n];
    var plural := re.alternatives[0];
    assert plural[0] == Lit("s") && plural[1..] == [Boundary] && plural[1..][1..] == [];
    assert CiAt(s, e + 2, "s") by { assert CiAt(s, e + 3, ""); }
    assert AtomEnd(Boundary, s, e + 3) == Some(e + 3);
    assert AtomsEnd(plural[1..], s, e + 3) == Some(e + 3);
    assert AtomsEnd(plural, s, e + 2) == Some(e + 3);
  }

  /** "no height", in any case, standing as words, is a no-height marker. */
  lemma NoHeightSpelledHere(s: string, q: nat)
    requires q <= |s| && IsBoundary(s, q) && CiAt(s, q, "no height") && IsBoundary(s, q + 9)
    ensures MatchAt(NoHeight, s, q).Some?
  {
    NoHeightSpelledMatch(NoHeight, s, q);
  }

  /** "nh" alone, between word boundaries, is a no-height match. */
  lemma NoHeightAbbreviatedHere(s: string, q: nat)
    requires q <= |s| && IsBoundary(s, q) && CiAt(s, q, "nh") && IsBoundary(s, q + 2)
    ensures MatchAt(NoHeight, s, q).Some?
  {
    NoHeightAbbreviatedMatch(NoHeight, s, q);
  }

  /** The no-height body is a lone word boundary. */
  lemma NoHeightBody(pat: Pattern, s: string, q: nat)
    requires pat == NoHeight && q <= |s| && IsBoundary(s, q)
    ensures BodyRun(RegexOf(pat).body, s, q) == Some(Partial(q, []))
  {
    var body := RegexOf(pat).body;
    assert body[0] == Plain(Boundary) && body[1..] == [];
  }

  lemma NoHeightAbbreviatedMatch(pat: Pattern, s: string, q: nat)
    requires pat == NoHeight && q <= |s| && IsBoundary(s, q) && CiAt(s, q, "nh") && IsBoundary(s, q + 2)
    ensures MatchAt(pat, s, q).Some?
  {
    NoHeightBody(pat, s, q);
    EarlyAlternative(RegexOf(pat).alternatives, s, q, "nh");
  }

  lemma NoHeightSpelledMatch(pat: Pattern, s: string, q: nat)
    requires pat == NoHeight && q <= |s| && IsBoundary(s, q) && CiAt(s, q, "no height") && IsBoundary(s, q + 9)
    ensures MatchAt(pat, s, q).Some?
  {
    NoHeightBody(pat, s, q);
    LateAlternative(RegexOf(pat).alternatives, s, q, "no height");
  }

  lemma EarlyAlternative(alternatives: seq<seq<Atom>>, s: string, p: nat, w: string)
    requires |alternatives| > 0 && alternatives[0] == [Lit(w), Boundary]
    requires p <= |s| && CiAt(s, p, w) && IsBoundary(s, p + |w|)
    ensures AlternativesEnd(alternatives, s, p).Some?
  {
    WordThenBoundary(alternatives[0], s, p, w);
  }

  /** `w\b` runs over w when a word boundary follows it. */
  lemma WordThenBoundary(atoms: seq<Atom>, s: string, p: nat, w: string)
    requires atoms == [Lit(w), Boundary]
    requires p <= |s| && CiAt(s, p, w) && IsBoundary(s, p + |w|)
    ensures AtomsEnd(atoms, s, p) == Some(p + |w|)
  {
    assert atoms[1..] == [Boundary] && atoms[1..][1..] == [];
    assert AtomEnd(atoms[0], s, p) == Some(p + |w|);
    assert AtomsEnd(atoms[1..], s, p + |w|) == Some(p + |w|);
  }

  /** A second alternative `w\b` that matches makes the alternation match. */
  lemma LateAlternative(alternatives: seq<seq<Atom>>, s: string, p: nat, w: string)
    requires |alternatives| == 2 && alternatives[1] == [Lit(w), Boundary]
    requires p <= |s| && CiAt(s, p, w) && IsBoundary(s, p + |w|)
    ensures AlternativesEnd(alternatives, s, p).Some?
  {
    WordThenBoundary(alternatives[1], s, p, w);
    assert alternatives[1..] == [alternatives[1]];
  }

  lemma ApostropheAt(s: string, p: nat)
    requires p < |s| && s[p] == '\''
    ensures CiAt(s, p, "'")
  {
    assert Lower(s[p]) == '\'' && CiAt(s, p + 1, "");
  }

  /** `\s*(\d+(?:\.\d+)?)\s*` run from p over the number n that follows the
      spaces, ending at e after the spaces that follow n. */
  lemma SpacedNumberRun(body: seq<Elem>, s: string, p: nat, e2: nat, n: Numeral, e: nat)
    requires |body| == 3 && body[0] == Spaces && body[1] == Num && body[2] == Spaces
    requires p <= |s| && e2 == SpacesEnd(s, p) && NumberAt(s, e2) == Some(n) && e == SpacesEnd(s, n.end)
    ensures BodyRun(body, s, p) == Some(Partial(e, [n]))
  {
    var t1 := body[1..];
    var t2 := t1[1..];
    assert t2[1..] == [];
    RunSpaces(t2, s, n.end);
    assert BodyRun(t2, s, n.end) == Some(Partial(e, []));
    RunNum(t1, s, e2);
    assert [n] + [] == [n];
    RunSpaces(body, s, p);
  }

  /** The number, its spaces and the keyword `w`, followed by a body run `rest`
      from just after the keyword. */
  lemma KeywordRun(body: seq<Elem>, s: string, q: nat, e: nat, w: string, after: nat, rest: Partial)
    requires |body| >= 3 && body[0] == Num && body[1] == Spaces && body[2] == Plain(Lit(w))
    requires SpacedNumber(s, q, e) && CiAt(s, e, w) && after == e + |w|
    requires BodyRun(body[3..], s, after) == Some(rest)
    ensures BodyRun(body, s, q) == Some(Partial(rest.end, [NumberAt(s, q).value] + rest.groups))
  {
    var n := NumberAt(s, q).value;
    assert body[1..][2..] == body[3..];
    SpacesThenWord(body[1..], s, n.end, e, w, after, rest);
    RunNum(body, s, q);
  }

  /** `\s*w` followed by a body run `rest`. */
  lemma SpacesThenWord(body: seq<Elem>, s: string, p: nat, e: nat, w: string, after: nat, rest: Partial)
    requires |body| >= 2 && body[0] == Spaces && body[1] == Plain(Lit(w))
    requires p <= |s| && e == SpacesEnd(s, p) && CiAt(s, e, w) && after == e + |w|
    requires BodyRun(body[2..], s, after) == Some(rest)
    ensures BodyRun(body, s, p) == Some(rest)
  {
    var t := body[1..];
    assert t[1..] == body[2..] && t[0].atom == Lit(w);
    assert AtomEnd(Lit(w), s, e) == Some(after);
    RunAtom(t, s, e);
    RunSpaces(body, s, p);
  }

  /** One step of a body run: the number group. */
  lemma RunNum(body: seq<Elem>, s: string, p: nat)
    requires |body| > 0 && body[0] == Num && p <= |s| && NumberAt(s, p).Some?
    requires BodyRun(body[1..], s, NumberAt(s, p).value.end).Some?
    ensures var rest := BodyRun(body[1..], s, NumberAt(s, p).value.end).value;
      BodyRun(body, s, p) == Some(Partial(rest.end, [NumberAt(s, p).value] + rest.groups))
  {
  }

  /** One step of a body run: `\s*`. */
  lemma RunSpaces(body: seq<Elem>, s: string, p: nat)
    requires |body| > 0 && body[0] == Spaces && p <= |s|
    ensures BodyRun(body, s, p) == BodyRun(body[1..], s, SpacesEnd(s, p))
  {
  }

  /** One step of a body run: a piece without a group. */
  lemma RunAtom(body: seq<Elem>, s: string, p: nat)
    requires |body| > 0 && body[0].Plain? && p <= |s| && AtomEnd(body[0].atom, s, p).Some?
    ensures BodyRun(body, s, p) == BodyRun(body[1..], s, AtomEnd(body[0].atom, s, p).value)
  {
  }

  /** Where a digit starts, the number-token pattern matches that numeral. */
  lemma NumberTokenAt(s: string, q: nat)
    requires q < |s| && IsDigit(s[q])
    ensures MatchAt(NumberToken, s, q) == Some(Match(q, NumberAt(s, q).value.end, [NumberAt(s, q).value]))
  {
    var n := NumberAt(s, q).value;
    assert [Num][1..] == [];
    assert BodyRun([Num], s, q) == Some(Partial(n.end, [n] + []));
    assert [n] + [] == [n];
  }

  /** "flex N" opens with an f. */
  lemma FlexFirstNeedsF(s: string, q: nat)
    requires q <= |s| && MatchAt(FlexFirst, s, q).Some?
    ensures q < |s| && Lower(s[q]) == 'f'
  {
    assert BodyRun(RegexOf(FlexFirst).body, s, q).Some?;
    assert AtomEnd(Lit("flex"), s, q).Some?;
    assert CiAt(s, q, "flex");
  }

  /** Without an f or F there is no labelled flex. */
  lemma NoFNoFlex(s: string)
    requires forall k :: 0 <= k < |s| ==> Lower(s[k]) != 'f'
    ensures FlexLabelFound(s).None?
  {
    forall q | 0 <= q < |s| + 1 ensures Matcher(FlexFirst, s)(q).None? {
      if MatchAt(FlexFirst, s, q).Some? {
        FlexFirstNeedsF(s, q);
      }
    }
    forall q | 0 <= q < |s| + 1 ensures Matcher(FlexAfter, s)(q).None? {
      if MatchAt(FlexAfter, s, q).Some? {
        var _, _ := KeywordAfterNumber(RegexOf(FlexAfter).body, s, q, "flex");
      }
    }
    MissesEverywhere(FlexFirst, s, 0, |s| + 1);
    MissesEverywhere(FlexAfter, s, 0, |s| + 1);
    SearchFindsNothing(FlexFirst, s, 0);
    SearchFindsNothing(FlexAfter, s, 0);
  }

  /** A no-height match starts at "nh" or "no height", so at an n or N. */
  lemma NoHeightNeedsN(s: string, q: nat)
    requires q <= |s| && MatchAt(NoHeight, s, q).Some?
    ensures q < |s| && Lower(s[q]) == 'n'
    ensures CiAt(s, q, "nh") || CiAt(s, q, "no height")
  {
    var re := RegexOf(NoHeight);
    var nh, noHeight := [Lit("nh"), Boundary], [Lit("no height"), Boundary];
    assert re.alternatives == [nh, noHeight];
    assert BodyRun(re.body, s, q) == Some(Partial(q, []));
    assert AlternativesEnd([nh, noHeight], s, q).Some?;
    assert [nh, noHeight][1..] == [noHeight] && [noHeight][1..] == [];
    if AtomsEnd(nh, s, q).Some? {
      assert AtomEnd(Lit("nh"), s, q).Some?;
      assert CiAt(s, q, "nh");
    } else {
      assert AlternativesEnd([nh, noHeight], s, q) == AlternativesEnd([noHeight], s, q);
      assert AlternativesEnd([noHeight], s, q).Some? && AlternativesEnd([], s, q).None?;
      assert AtomsEnd(noHeight, s, q).Some?;
      assert AtomEnd(Lit("no height"), s, q).Some?;
      assert CiAt(s, q, "no height");
    }
  }

  /** Text in which no n or N starts "nh" or "no height" holds no no-height
      marker. */
  lemma NoHeightNowhere(s: string)
    requires forall k :: 0 <= k < |s| && Lower(s[k]) == 'n' ==> !CiAt(s, k, "nh") && !CiAt(s, k, "no height")
    ensures NoMatchIn(NoHeight, s, 0, |s| + 1)
  {
    forall q | 0 <= q < |s| + 1 ensures Matcher(NoHeight, s)(q).None? {
      if MatchAt(NoHeight, s, q).Some? {
        NoHeightNeedsN(s, q);
      }
    }
    MissesEverywhere(NoHeight, s, 0, |s| + 1);
  }

  /** Text without an n or N holds no no-height marker. */
  lemma NoNNoHeight(s: string)
    requires forall k :: 0 <= k < |s| ==> Lower(s[k]) != 'n'
    ensures NoMatchIn(NoHeight, s, 0, |s| + 1)
  {
    NoHeightNowhere(s);
  }

  /** A match at q with none before it is what `match` returns. */
  lemma SearchFindsLeftmost(pat: Pattern, s: string, from: nat, q: nat)
    requires from <= q <= |s| && NoMatchIn(pat, s, from, q) && MatchAt(pat, s, q).Some?
    ensures Search(pat, s, from) == MatchAt(pat, s, q)
  {
    assert Matcher(pat, s)(q) == MatchAt(pat, s, q);
    FirstHit(Matcher(pat, s), from, |s|, Search(pat, s, from), q);
  }

  /** With no match anywhere, `match` returns null. */
  lemma SearchFindsNothing(pat: Pattern, s: string, from: nat)
    requires from <= |s| && NoMatchIn(pat, s, from, |s| + 1)
    ensures Search(pat, s, from).None?
  {
    FirstMiss(Matcher(pat, s), from, |s|, Search(pat, s, from));
  }

  /** A match anywhere means `match` finds one, at that position or before. */
  lemma MatchAnywhereIsFound(pat: Pattern, s: string, q: nat)
    requires q <= |s| && MatchAt(pat, s, q).Some?
    ensures Search(pat, s, 0).Some? && Search(pat, s, 0).value.start <= q
  {
    assert Matcher(pat, s)(q) == MatchAt(pat, s, q);
    FirstHit(Matcher(pat, s), 0, |s|, Search(pat, s, 0), q);
  }

  /** A body that matches also matches with its tail cut off, capturing a
      prefix of the same groups. */
  lemma {:induction false} BodyRunPrefix(a: seq<Elem>, b: seq<Elem>, s: string, p: nat)
    requires p <= |s| && BodyRun(a + b, s, p).Some?
    ensures BodyRun(a, s, p).Some? && BodyRun(a, s, p).value.groups <= BodyRun(a + b, s, p).value.groups
    decreases |a|
  {
    if |a| > 0 {
      assert (a + b)[0] == a[0];
      assert (a + b)[1..] == a[1..] + b;
      match a[0]
      case Num =>
        var n := NumberAt(s, p).value;
        BodyRunPrefix(a[1..], b, s, n.end);
      case Spaces =>
        BodyRunPrefix(a[1..], b, s, SpacesEnd(s, p));
      case Plain(x) =>
        BodyRunPrefix(a[1..], b, s, AtomEnd(x, s, p).value);
    }
  }

  /** Wherever the feet-and-inches form matches, the feet-only form matches
      too, with the same feet. */
  lemma FeetAndInchesHasFeetOnly(s: string, p: nat)
    requires p <= |s| && MatchAt(FeetAndInches, s, p).Some?
    ensures MatchAt(FeetOnly, s, p).Some?
    ensures MatchAt(FeetOnly, s, p).value.groups[0] == MatchAt(FeetAndInches, s, p).value.groups[0]
  {
    var feetOnly := RegexOf(FeetOnly).body;
    assert RegexOf(FeetAndInches).body == feetOnly + [Spaces, Num, Spaces];
    BodyRunPrefix(feetOnly, [Spaces, Num, Spaces], s, p);
  }

  // ---------------------------------------------------------------------------
  // Normalisation
  // ---------------------------------------------------------------------------

  /** The text every parser matches against. */
  function Normalized(input: Option<string>): (s: string)
    ensures |s| == |NormalizeInput(input)|
  {
    NormalizeQuotes(NormalizeInput(input))
  }

  lemma StraightQuoteKeepsSpaces(c: char)
    ensures IsSpace(StraightQuote(c)) == IsSpace(c)
  {
  }

  lemma {:induction false} QuotesCommuteWithTrimStart(s: string)
    ensures TrimStart(NormalizeQuotes(s)) == NormalizeQuotes(TrimStart(s))
    decreases |s|
  {
    if |s| > 0 {
      StraightQuoteKeepsSpaces(s[0]);
      assert NormalizeQuotes(s)[1..] == NormalizeQuotes(s[1..]);
      if IsSpace(s[0]) {
        QuotesCommuteWithTrimStart(s[1..]);
      }
    }
  }

  lemma {:induction false} QuotesCommuteWithTrimEnd(s: string)
    ensures TrimEnd(NormalizeQuotes(s)) == NormalizeQuotes(TrimEnd(s))
    decreases |s|
  {
    if |s| > 0 {
      StraightQuoteKeepsSpaces(s[|s| - 1]);
      assert NormalizeQuotes(s)[..|s| - 1] == NormalizeQuotes(s[..|s| - 1]);
      if IsSpace(s[|s| - 1]) {
        QuotesCommuteWithTrimEnd(s[..|s| - 1]);
      }
    }
  }

  /** Straightening quotes is idempotent. */
  lemma NormalizeQuotesIdempotent(s: string)
    ensures NormalizeQuotes(NormalizeQuotes(s)) == NormalizeQuotes(s)
  {
  }

  /** Normalising a quote-straightened input gives the same text as
      normalising the input itself. */
  lemma QuotedInputNormalizesAlike(s: string)
    ensures NormalizeInput(Some(NormalizeQuotes(s))) == NormalizeQuotes(NormalizeInput(Some(s)))
    ensures Normalized(Some(NormalizeQuotes(s))) == Normalized(Some(s))
  {
    QuotesCommuteWithTrimStart(s);
    QuotesCommuteWithTrimEnd(TrimStart(s));
    NormalizeQuotesIdempotent(Trim(s));
  }

  /** Typing typographic quotes instead of straight ones changes no height. */
  lemma HeightQuoteStyleIrrelevant(s: string)
    ensures ParseHeightToMeters(Some(NormalizeQuotes(s))) == ParseHeightToMeters(Some(s))
  {
    QuotedInputNormalizesAlike(s);
  }

  /** Typing typographic quotes instead of straight ones changes no takeoff. */
  lemma TakeoffQuoteStyleIrrelevant(s: string)
    ensures ParseTakeoffToFeet(Some(NormalizeQuotes(s))) == ParseTakeoffToFeet(Some(s))
  {
    QuotedInputNormalizesAlike(s);
  }

  /** Typing typographic quotes instead of straight ones changes no parsed
      pole value; only `raw` keeps the quotes as typed. */
  lemma PoleQuoteStyleIrrelevant(s: string)
    ensures var a, b := ParsePole(Some(NormalizeQuotes(s))), ParsePole(Some(s));
      a.lengthFt == b.lengthFt && a.ratingLbs == b.ratingLbs && a.flex == b.flex
    ensures ParsePole(Some(NormalizeQuotes(s))).raw == NormalizeQuotes(ParsePole(Some(s)).raw)
  {
    QuotedInputNormalizesAlike(s);
  }

  // ---------------------------------------------------------------------------
  // Unit conversions
  // ---------------------------------------------------------------------------

  /** A JavaScript number as the conversions see it. */
  datatype Number = Finite(value: real) | NonFinite

  /** Whole feet and inches, as `metersToFeetInches` returns them. */
  datatype WholeFeetInches = WholeFeetInches(feet: int, inches: int)

  /** Splits a whole number of inches the way the source does:
      `Math.floor(total / 12)` feet and `total % 12` inches. */
  function SplitInches(total: int): (r: WholeFeetInches)
    ensures total >= 0 ==> 0 <= r.inches < 12 && 12 * r.feet + r.inches == total
    ensures total < 0 ==> -12 < r.inches <= 0
    ensures total % 12 == 0 ==> r.inches == 0 && 12 * r.feet == total
    ensures total < 0 && total % 12 != 0 ==> 12 * r.feet + r.inches == total - 12
  {
    WholeFeetInches(total / 12, JsRem(total, 12))
  }

  /** `metersToFeetInches`: rounded to the nearest inch at 0.0254 m per inch. */
  function MetersToFeetInches(meters: Number): (r: WholeFeetInches)
    ensures meters.NonFinite? ==> r == WholeFeetInches(0, 0)
  {
    match meters
    case NonFinite => WholeFeetInches(0, 0)
    case Finite(m) => SplitInches(MathRound(m / 0.0254))
  }

  /** `feetDecimalToFeetInches`: rounded to the nearest twelfth of a foot. */
  function FeetDecimalToFeetInches(feetDecimal: Number): (r: WholeFeetInches)
    ensures feetDecimal.NonFinite? ==> r == WholeFeetInches(0, 0)
  {
    match feetDecimal
    case NonFinite => WholeFeetInches(0, 0)
    case Finite(f) => SplitInches(MathRound(f * 12.0))
  }

  lemma RoundOfInteger(n: int)
    ensures MathRound(n as real) == n
  {
  }

  /** For a non-negative value the result is the nearest whole number of
      inches, with 0 <= inches < 12. */
  lemma MetersToFeetInchesIsNearest(m: real)
    requires m >= 0.0
    ensures var r := MetersToFeetInches(Finite(m));
      && 0 <= r.feet && 0 <= r.inches < 12
      && ((12 * r.feet + r.inches) as real - 0.5) * 0.0254 <= m < ((12 * r.feet + r.inches) as real + 0.5) * 0.0254
  {
  }

  lemma FeetDecimalToFeetInchesIsNearest(f: real)
    requires f >= 0.0
    ensures var r := FeetDecimalToFeetInches(Finite(f));
      && 0 <= r.feet && 0 <= r.inches < 12
      && (12 * r.feet + r.inches) as real - 0.5 <= f * 12.0 < (12 * r.feet + r.inches) as real + 0.5
  {
  }

  /** Whole feet and inches survive a round trip through decimal feet. */
  lemma FeetDecimalRoundTrip(feet: nat, inches: nat)
    requires inches < 12
    ensures FeetDecimalToFeetInches(Finite(feet as real + inches as real / 12.0)) == WholeFeetInches(feet, inches)
  {
    var total := 12 * feet + inches;
    assert (feet as real + inches as real / 12.0) * 12.0 == total as real;
    RoundOfInteger(total);
  }

  /** Whole feet and inches survive a round trip through meters. */
  lemma MetersRoundTrip(feet: nat, inches: nat)
    requires inches < 12
    ensures MetersToFeetInches(Finite((12 * feet + inches) as real * 0.0254)) == WholeFeetInches(feet, inches)
  {
    var total := 12 * feet + inches;
    assert (total as real * 0.0254) / 0.0254 == total as real;
    RoundOfInteger(total);
  }

  /** Below zero the split is off by a foot: -1 inch becomes -1 ft -1 in. */
  lemma NegativeInchesSplitOddly()
    ensures FeetDecimalToFeetInches(Finite(-1.0 / 12.0)) == WholeFeetInches(-1, -1)
  {
    assert (-1.0 / 12.0) * 12.0 == -1.0;
    RoundOfInteger(-1);
  }

  /** 4.6 m is 15 ft 1 in. */
  lemma MetersExample()
    ensures MetersToFeetInches(Finite(4.6)) == WholeFeetInches(15, 1)
  {
    assert MathRound(4.6 / 0.0254) == 181;
  }

  /** 12.25 ft is 12 ft 3 in. */
  lemma FeetDecimalExample()
    ensures FeetDecimalToFeetInches(Finite(12.25)) == WholeFeetInches(12, 3)
  {
    assert MathRound(12.25 * 12.0) == 147;
  }
}
