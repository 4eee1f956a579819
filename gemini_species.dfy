/**
 * The parts of `parseSpeciesIdentification` and `extractList`
 * (lib/gemini-services.ts) that do not depend on the regular-expression
 * heuristics: the positional taxonomy split, `Number.parseFloat` and the
 * confidence default, and the caps on the list items. The values the
 * heuristics extract (`extractValue`, `extractBlock`, `cleanTaxon`, the
 * filter chain) are parameters; an absent value is "".
 */
module GeminiSpecies {
  import opened Wrappers
  import opened JsStrings
  import opened GeminiText
  import opened GeminiSplit

  // ---------------------------------------------------------------------------
  // Taxonomic classification.

  datatype Taxonomy = Taxonomy(
    kingdom: string, phylum: string, taxonClass: string,
    order: string, family: string, genus: string)

  /** The i-th rank, kingdom first. */
  function Rank(t: Taxonomy, i: nat): string
    requires i < 6
  {
    if i == 0 then t.kingdom else if i == 1 then t.phylum else if i == 2 then t.taxonClass
    else if i == 3 then t.order else if i == 4 then t.family else t.genus
  }

  /** `parts[i]`, or the initial "" when there are not that many parts. */
  function Part(parts: seq<string>, i: nat): string {
    if i < |parts| then parts[i] else ""
  }

  /**
   * A classification text containing a comma is split on it, each part
   * trimmed and assigned to the ranks in order; any other text gives the
   * per-rank extraction `fallback`.
   */
  function Classification(text: string, fallback: Taxonomy): Taxonomy {
    if text != "" && ',' in text then FromParts(TrimAll(Split(text, ','))) else fallback
  }

  /** Rank i is part i. */
  function FromParts(parts: seq<string>): (t: Taxonomy)
    ensures forall i :: 0 <= i < 6 ==> Rank(t, i) == Part(parts, i)
  {
    Taxonomy(Part(parts, 0), Part(parts, 1), Part(parts, 2), Part(parts, 3), Part(parts, 4), Part(parts, 5))
  }

  /** The ranks, in order, joined with commas. */
  function Joined(t: Taxonomy): string {
    Join([t.kingdom, t.phylum, t.taxonClass, t.order, t.family, t.genus], ",")
  }

  /** A rank value the comma format carries unchanged. */
  predicate PlainRank(r: string) {
    ',' !in r && Trim(r) == r
  }

  /**
   * Position i of a comma-separated text is rank i, trimmed; ranks past the
   * last part stay ""; a text without a comma uses the fallback.
   */
  lemma ClassificationPositional(text: string, fallback: Taxonomy)
    ensures ',' !in text ==> Classification(text, fallback) == fallback
    ensures ',' in text ==>
      var parts := Split(text, ',');
      forall i :: 0 <= i < 6 ==>
        Rank(Classification(text, fallback), i) == (if i < |parts| then Trim(parts[i]) else "")
  {
    if ',' in text {
      var parts := Split(text, ',');
      var trimmed := TrimAll(parts);
      assert Classification(text, fallback) == FromParts(trimmed);
      assert forall i :: 0 <= i < 6 ==> Part(trimmed, i) == if i < |parts| then Trim(parts[i]) else "";
    }
  }

  /** Writing the six ranks comma-separated and parsing them gives them back. */
  lemma ClassificationRoundTrip(t: Taxonomy, fallback: Taxonomy)
    requires forall i :: 0 <= i < 6 ==> PlainRank(Rank(t, i))
    ensures Classification(Joined(t), fallback) == t
  {
    var ranks := [t.kingdom, t.phylum, t.taxonClass, t.order, t.family, t.genus];
    assert forall i :: 0 <= i < 6 ==> ranks[i] == Rank(t, i);
    SplitJoin(ranks, ',');
    assert |Split(Joined(t), ',')| == 6;
    if ',' !in Joined(t) {
      SplitNoSep(Joined(t), ',');
    }
  }

  lemma FromPartsAgree(p: seq<string>, q: seq<string>)
    requires forall i :: 0 <= i < 6 ==> Part(p, i) == Part(q, i)
    ensures FromParts(p) == FromParts(q)
  {
  }

  /** Parts after the sixth are ignored. */
  lemma ExtraPartsIgnored(text: string, extra: string, fallback: Taxonomy)
    requires |Split(text, ',')| >= 6
    ensures Classification(text + "," + extra, fallback) == Classification(text, fallback)
  {
    if ',' !in text {
      SplitNoSep(text, ',');
    }
    var longer := text + "," + extra;
    assert longer == text + [','] + extra;
    SplitConcat(text, ',', extra);
    var p, q := Split(text, ','), Split(longer, ',');
    assert q == p + Split(extra, ',');
    assert forall i :: 0 <= i < 6 ==> q[i] == p[i];
    FromPartsAgree(TrimAll(q), TrimAll(p));
  }

  // ---------------------------------------------------------------------------
  // Number.parseFloat.

  /**
   * A number read from text, before rounding to a double: NaN, an infinity,
   * or the exact decimal `digits` times ten to the `exponent`.
   */
  datatype Num = NaN | Decimal(negative: bool, digits: nat, exponent: int) | Infinite(negative: bool)

  function Negate(n: Num): Num {
    match n
    case NaN => NaN
    case Decimal(neg, m, e) => Decimal(!neg, m, e)
    case Infinite(neg) => Infinite(!neg)
  }

  /** The real number a decimal denotes. */
  function Value(n: Num): real
    requires n.Decimal?
  {
    if n.negative then -Scaled(n.digits, n.exponent) else Scaled(n.digits, n.exponent)
  }

  /** The number of decimal digits from position q on. */
  function DigitRun(s: string, q: nat): (n: nat)
    requires q <= |s|
    ensures q + n <= |s|
    ensures forall i :: q <= i < q + n ==> IsDigit(s[i])
    ensures q + n == |s| || !IsDigit(s[q + n])
    decreases |s| - q
  {
    if q < |s| && IsDigit(s[q]) then 1 + DigitRun(s, q + 1) else 0
  }

  lemma DigitsSlice(s: string, q: nat, n: nat)
    requires q + n <= |s| && forall i :: q <= i < q + n ==> IsDigit(s[i])
    ensures AllDigits(s[q..q + n])
  {
    var t := s[q..q + n];
    forall i | 0 <= i < |t| ensures IsDigit(t[i]) {
      assert t[i] == s[q + i];
    }
  }

  /** A run of exactly n digits from q, ended by the text's end or a non-digit. */
  lemma {:induction false} DigitRunAt(s: string, q: nat, n: nat)
    requires q + n <= |s| && forall i :: q <= i < q + n ==> IsDigit(s[i])
    requires q + n == |s| || !IsDigit(s[q + n])
    ensures DigitRun(s, q) == n
    decreases n
  {
    if n > 0 {
      DigitRunAt(s, q + 1, n - 1);
    }
  }

  /** The exponent written at position e (`e`/`E`, an optional sign, digits);
      0 when there is none or no digit follows. */
  function ExponentAt(u: string, e: nat): int
    requires e <= |u|
  {
    if e < |u| && (u[e] == 'e' || u[e] == 'E') then
      var signed := e + 1 < |u| && (u[e + 1] == '+' || u[e + 1] == '-');
      var ds := if signed then e + 2 else e + 1;
      var d := DigitRun(u, ds);
      DigitsSlice(u, ds, d);
      var v := DigitsValue(u[ds..ds + d]);
      if d == 0 then 0 else if signed && u[e + 1] == '-' then -(v as int) else v
    else 0
  }

  /** The text starts with the word `Infinity`. */
  predicate InfinityAt(u: string) {
    |u| >= 8 && u[..8] == "Infinity"
  }

  /** The longest unsigned decimal literal at the start of `u`. */
  function Unsigned(u: string): Num {
    if InfinityAt(u) then Infinite(false) else Literal(u, DigitRun(u, 0))
  }

  /** After the `i` leading digits: a point and more digits, or the end of
      an integer; NaN when there is no digit at all. */
  function Literal(u: string, i: nat): Num
    requires i == DigitRun(u, 0)
  {
    if i < |u| && u[i] == '.' then Pointed(u, i, DigitRun(u, i + 1))
    else if i == 0 then NaN
    else DigitsSlice(u, 0, i); Integer(u, i)
  }

  /** `i` digits, a point at `i`, then `f` digits. */
  function Pointed(u: string, i: nat, f: nat): Num
    requires i == DigitRun(u, 0) && i < |u| && u[i] == '.' && f == DigitRun(u, i + 1)
  {
    if i == 0 && f == 0 then NaN
    else DigitsSlice(u, 0, i); DigitsSlice(u, i + 1, f); Fraction(u, i, f)
  }

  /** `u[..i]` digits, then the exponent. */
  function Integer(u: string, i: nat): Num
    requires i <= |u| && AllDigits(u[..i])
  {
    Decimal(false, DigitsValue(u[..i]), ExponentAt(u, i))
  }

  /** `u[..i]` digits, a point, `f` digits, then the exponent. */
  function Fraction(u: string, i: nat, f: nat): Num
    requires i + 1 + f <= |u| && AllDigits(u[..i]) && AllDigits(u[i + 1..i + 1 + f])
  {
    Decimal(false, Mantissa(DigitsValue(u[..i]), f, DigitsValue(u[i + 1..i + 1 + f])), ExponentAt(u, i + 1 + f) - f)
  }

  /** The digits before and after the point as one integer. */
  function Mantissa(whole: nat, f: nat, fraction: nat): nat {
    whole * Pow10(f) + fraction
  }

  /** m times ten to the e. */
  function Scaled(m: nat, e: int): real {
    if e >= 0 then (m * Pow10(e)) as real else m as real / Pow10(-e) as real
  }

  /** `Number.parseFloat(s)`: skip leading white space, read an optional sign,
      then the longest decimal literal; NaN when there is none. */
  function ParseFloat(s: string): Num {
    var t := TrimStart(s);
    if |t| > 0 && t[0] == '-' then Negate(Unsigned(t[1..]))
    else if |t| > 0 && t[0] == '+' then Unsigned(t[1..])
    else Unsigned(t)
  }

  /** What a numeric prefix can start with, after the sign. */
  predicate StartsUnsigned(u: string) {
    InfinityAt(u)
    || (|u| >= 1 && IsDigit(u[0]))
    || (|u| >= 2 && u[0] == '.' && IsDigit(u[1]))
  }

  predicate StartsNumber(t: string) {
    if |t| > 0 && (t[0] == '-' || t[0] == '+') then StartsUnsigned(t[1..]) else StartsUnsigned(t)
  }

  /** parseFloat is NaN exactly when the text, after its leading white space,
      does not start with a number. */
  lemma ParseFloatNaNIff(s: string)
    ensures ParseFloat(s).NaN? <==> !StartsNumber(TrimStart(s))
  {
    var t := TrimStart(s);
    var u := if |t| > 0 && (t[0] == '-' || t[0] == '+') then t[1..] else t;
    UnsignedNaNIff(u);
  }

  lemma UnsignedNaNIff(u: string)
    ensures Unsigned(u).NaN? <==> !StartsUnsigned(u)
  {
    if |u| >= 1 && !IsDigit(u[0]) {
      assert DigitRun(u, 0) == 0;
      if u[0] == '.' {
        assert DigitRun(u, 1) == 0 <==> !(|u| >= 2 && IsDigit(u[1]));
      }
    }
  }

  lemma TrimStartOfNonSpace(s: string)
    requires |s| > 0 && !IsSpace(s[0])
    ensures TrimStart(s) == s
  {
  }

  lemma ParseFloatUnsigned(u: string)
    requires |u| > 0 && !(IsSpace(u[0]) || u[0] == '-' || u[0] == '+')
    ensures ParseFloat(u) == Unsigned(u)
  {
    TrimStartOfNonSpace(u);
  }

  /** The text a literal may be followed by without extending it. */
  predicate EndsLiteral(rest: string) {
    rest == [] || !(IsDigit(rest[0]) || rest[0] == '.' || rest[0] == 'e' || rest[0] == 'E')
  }

  /** An integer is read up to the first character that cannot continue it:
      parseFloat("92%") is 92. */
  lemma {:induction false} ParseFloatInteger(d: string, rest: string)
    requires d != "" && AllDigits(d) && EndsLiteral(rest)
    ensures ParseFloat(d + rest) == Decimal(false, DigitsValue(d), 0)
    ensures Value(ParseFloat(d + rest)) == DigitsValue(d) as real
  {
    var u := d + rest;
    assert IsDigit(u[0]);
    TrimStartOfNonSpace(u);
    assert forall k :: 0 <= k < |d| ==> u[k] == d[k];
    assert |d| == |u| || u[|d|] == rest[0];
    DigitRunAt(u, 0, |d|);
    var i := DigitRun(u, 0);
    assert u[..i] == d;
    assert ExponentAt(u, i) == 0;
  }

  /** A decimal fraction is read exactly: parseFloat("87.5") is 87.5. */
  lemma ParseFloatDecimal(a: string, b: string, rest: string)
    requires AllDigits(a) && AllDigits(b) && b != "" && EndsLiteral(rest)
    ensures ParseFloat(a + "." + b + rest) == Decimal(false, Mantissa(DigitsValue(a), |b|, DigitsValue(b)), -(|b| as int))
    ensures Value(ParseFloat(a + "." + b + rest)) == DigitsValue(a) as real + DigitsValue(b) as real / Pow10(|b|) as real
  {
    DecimalDigits(a, b, rest);
    DecimalValue(DigitsValue(a), DigitsValue(b), |b|);
  }

  lemma DecimalDigits(a: string, b: string, rest: string)
    requires AllDigits(a) && AllDigits(b) && b != "" && EndsLiteral(rest)
    ensures ParseFloat(a + "." + b + rest) == Decimal(false, Mantissa(DigitsValue(a), |b|, DigitsValue(b)), 0 - |b|)
  {
    DecimalLayout(a, b, rest);
    UnsignedOfLayout(a + "." + b + rest, a, b);
  }

  lemma UnsignedOfLayout(u: string, a: string, b: string)
    requires |a| < |u| && u[|a|] == '.' && |a| + 1 + |b| <= |u| && b != ""
    requires u[..|a|] == a && u[|a| + 1..|a| + 1 + |b|] == b
    requires DigitRun(u, 0) == |a| && DigitRun(u, |a| + 1) == |b| && ExponentAt(u, |a| + 1 + |b|) == 0
    requires !InfinityAt(u)
    ensures Unsigned(u) == Decimal(false, Mantissa(DigitsValue(a), |b|, DigitsValue(b)), 0 - |b|)
  {
    DigitsSlice(u, 0, |a|);
    DigitsSlice(u, |a| + 1, |b|);
    assert AllDigits(a) && AllDigits(b);
    UnsignedFraction(u, |a|, |b|);
    FractionOf(u, a, b);
  }

  lemma FractionOf(u: string, a: string, b: string)
    requires |a| + 1 + |b| <= |u| && u[..|a|] == a && u[|a| + 1..|a| + 1 + |b|] == b
    requires AllDigits(a) && AllDigits(b) && ExponentAt(u, |a| + 1 + |b|) == 0
    ensures Fraction(u, |a|, |b|) == Decimal(false, Mantissa(DigitsValue(a), |b|, DigitsValue(b)), 0 - |b|)
  {
  }

  /** Where the parts of `a.b` followed by `rest` lie. */
  lemma DecimalLayout(a: string, b: string, rest: string)
    requires AllDigits(a) && AllDigits(b) && b != "" && EndsLiteral(rest)
    ensures var u := a + "." + b + rest;
      var i, f := |a|, |b|;
      i < |u| && u[i] == '.' && i + 1 + f <= |u|
      && u[..i] == a && u[i + 1..i + 1 + f] == b
      && DigitRun(u, 0) == i && DigitRun(u, i + 1) == f && ExponentAt(u, i + 1 + f) == 0
      && !InfinityAt(u)
      && ParseFloat(u) == Unsigned(u)
  {
    var u := a + "." + b + rest;
    WholeLayout(u, a, "." + b + rest);
    FractionLayout(u, a, b, rest);
  }

  lemma WholeLayout(u: string, a: string, tail: string)
    requires u == a + tail && AllDigits(a) && |tail| > 0 && tail[0] == '.'
    ensures |a| < |u| && u[|a|] == '.' && u[..|a|] == a && DigitRun(u, 0) == |a|
    ensures !InfinityAt(u)
    ensures ParseFloat(u) == Unsigned(u)
  {
    SplitAt(u, a, tail);
    DigitRunAt(u, 0, |a|);
    LeadsWithDigitOrPoint(u);
  }

  /** The pieces of a concatenation, read back by position. */
  lemma SplitAt(u: string, a: string, tail: string)
    requires u == a + tail && |tail| > 0
    ensures |a| < |u| && u[|a|] == tail[0] && u[..|a|] == a
    ensures forall k :: 0 <= k < |a| ==> u[k] == a[k]
  {
  }

  /** Text that starts with a digit or a point is its own unsigned literal. */
  lemma LeadsWithDigitOrPoint(u: string)
    requires |u| > 0 && (IsDigit(u[0]) || u[0] == '.')
    ensures !InfinityAt(u)
    ensures ParseFloat(u) == Unsigned(u)
  {
    ParseFloatUnsigned(u);
    if |u| >= 8 {
      assert u[..8][0] == u[0];
    }
  }

  lemma FractionLayout(u: string, a: string, b: string, rest: string)
    requires u == a + "." + b + rest && AllDigits(b) && EndsLiteral(rest)
    ensures var i, f := |a|, |b|;
      i + 1 + f <= |u| && u[i + 1..i + 1 + f] == b
      && DigitRun(u, i + 1) == f && ExponentAt(u, i + 1 + f) == 0
  {
    var i, f := |a|, |b|;
    assert forall k :: 0 <= k < f ==> u[i + 1 + k] == b[k];
    assert i + 1 + f == |u| || u[i + 1 + f] == rest[0];
    DigitRunAt(u, i + 1, f);
    assert u[i + 1..i + 1 + f] == b;
  }

  lemma UnsignedFraction(u: string, i: nat, f: nat)
    requires i < |u| && u[i] == '.' && f > 0 && i + 1 + f <= |u|
    requires DigitRun(u, 0) == i && DigitRun(u, i + 1) == f
    requires !InfinityAt(u)
    requires AllDigits(u[..i]) && AllDigits(u[i + 1..i + 1 + f])
    ensures Unsigned(u) == Fraction(u, i, f)
  {
    assert Unsigned(u) == Literal(u, i) == Pointed(u, i, f);
  }

  lemma DecimalValue(w: nat, v: nat, f: nat)
    ensures Scaled(Mantissa(w, f, v), 0 - f) == w as real + v as real / Pow10(f) as real
  {
    if f > 0 {
      var p := Pow10(f);
      assert Scaled(Mantissa(w, f, v), 0 - f) == (w * p + v) as real / p as real;
      DivSplit(w, v, p);
    }
  }

  lemma DivSplit(w: nat, v: nat, p: nat)
    requires p >= 1
    ensures (w * p + v) as real / p as real == w as real + v as real / p as real
  {
    var pr, wr, vr := p as real, w as real, v as real;
    assert (w * p + v) as real == wr * pr + vr;
    assert (wr + vr / pr) * pr == wr * pr + vr;
  }

  /** A leading minus sign negates what follows it. */
  lemma ParseFloatMinus(s: string)
    requires s == [] || !(IsSpace(s[0]) || s[0] == '-' || s[0] == '+')
    ensures ParseFloat("-" + s) == Negate(ParseFloat(s))
  {
    TrimStartOfNonSpace("-" + s);
    assert ("-" + s)[1..] == s;
  }

  /** Leading white space is ignored. */
  lemma ParseFloatSkipsSpace(spaces: string, s: string)
    requires forall i :: 0 <= i < |spaces| ==> IsSpace(spaces[i])
    ensures ParseFloat(spaces + s) == ParseFloat(s)
  {
    TrimStartSkipsSpaces(spaces, s);
  }

  // ---------------------------------------------------------------------------
  // Confidence.

  const DefaultConfidence := "75"
  const SeventyFive := Decimal(false, 75, 0)

  /** `a || b || ... || fallback` over strings. */
  function FirstTruthy(candidates: seq<string>, fallback: string): (r: string)
    ensures (forall i :: 0 <= i < |candidates| ==> candidates[i] == "") ==> r == fallback
    ensures r == fallback || r in candidates
    ensures (exists i :: 0 <= i < |candidates| && candidates[i] != "") ==> r in candidates && r != ""
    decreases |candidates|
  {
    if |candidates| == 0 then fallback else Or(candidates[0], FirstTruthy(candidates[1..], fallback))
  }

  /**
   * The confidence: the first non-empty of the values extracted under
   * "confidence", "Confidence", "probability" and "certainty" (or "75"),
   * parsed; NaN becomes 75.
   */
  function Confidence(candidates: seq<string>): (c: Num)
    ensures !c.NaN?
  {
    var n := ParseFloat(FirstTruthy(candidates, DefaultConfidence));
    if n.NaN? then SeventyFive else n
  }

  lemma ParseFloatDefault()
    ensures ParseFloat(DefaultConfidence) == SeventyFive
  {
    assert DefaultConfidence == "75" + "";
    assert DigitsValue("75") == 75 by {
      assert "75"[..1] == "7";
      assert "7"[..0] == "";
    }
    ParseFloatInteger("75", "");
  }

  /** No extracted value gives 75. */
  lemma ConfidenceDefault(candidates: seq<string>)
    requires forall i :: 0 <= i < |candidates| ==> candidates[i] == ""
    ensures Confidence(candidates) == SeventyFive
  {
    ParseFloatDefault();
  }

  lemma {:induction false} FirstTruthyIs(candidates: seq<string>, fallback: string, i: nat)
    requires i < |candidates| && candidates[i] != ""
    requires forall j :: 0 <= j < i ==> candidates[j] == ""
    ensures FirstTruthy(candidates, fallback) == candidates[i]
    decreases i
  {
    if i > 0 {
      FirstTruthyIs(candidates[1..], fallback, i - 1);
    }
  }

  /**
   * Only the first non-empty value is parsed: its number when it starts with
   * one, and 75 otherwise, even when a later value is numeric.
   */
  lemma ConfidenceFromFirst(candidates: seq<string>, i: nat)
    requires i < |candidates| && candidates[i] != ""
    requires forall j :: 0 <= j < i ==> candidates[j] == ""
    ensures Confidence(candidates) ==
              if StartsNumber(TrimStart(candidates[i])) then ParseFloat(candidates[i]) else SeventyFive
  {
    FirstTruthyIs(candidates, DefaultConfidence, i);
    ParseFloatNaNIff(candidates[i]);
  }

  // ---------------------------------------------------------------------------
  // extractList.

  /** `flatMap(splitLongClause)`. */
  function Clauses(items: seq<string>): seq<string>
    decreases |items|
  {
    if |items| == 0 then [] else SplitLongClause(items[0]) + Clauses(items[1..])
  }

  const MaxListItems: nat := 4
  const MaxItemWords: nat := 25

  /**
   * The block path: the filtered items are split into clauses, each clause
   * cut to 25 words, the first four kept.
   */
  function BlockItems(items: seq<string>): (r: seq<string>)
    ensures |r| <= MaxListItems
    ensures |r| == if |Clauses(items)| < 4 then |Clauses(items)| else 4
    ensures forall i :: 0 <= i < |r| ==> r[i] == TruncateWords(Clauses(items)[i], MaxItemWords)
  {
    var cs := Clauses(items);
    Take(seq(|cs|, i requires 0 <= i < |cs| => TruncateWords(cs[i], MaxItemWords)), MaxListItems)
  }

  /** Each block item has at most 26 words (25, or one more short word). */
  lemma BlockItemWords(items: seq<string>, i: nat)
    requires i < |BlockItems(items)|
    ensures |Words(BlockItems(items)[i])| <= MaxItemWords + 1
  {
    TruncateWordsSpec(Clauses(items)[i], MaxItemWords);
  }

  function ReplaceChar(s: string, from: char, to: char): (r: string)
    ensures |r| == |s|
    ensures forall i :: 0 <= i < |s| ==> r[i] == if s[i] == from then to else s[i]
  {
    seq(|s|, i requires 0 <= i < |s| => if s[i] == from then to else s[i])
  }

  /** `split(/[,;]/)`: cutting at either character is cutting at ',' once
      every ';' has become ','. */
  function SplitListValue(value: string): seq<string> {
    Split(ReplaceChar(value, ';', ','), ',')
  }

  predicate ListItem(x: string) {
    x != "" && ':' !in x
  }

  /** `filter(item => item.length > 0 && !item.includes(":"))`: the items kept, in order and with repeats. */
  function KeepListItems(parts: seq<string>): (r: seq<string>)
    ensures |r| <= |parts|
    ensures forall x :: x in r <==> x in parts && x != "" && ':' !in x
    ensures (forall i :: 0 <= i < |parts| ==> ListItem(parts[i])) ==> r == parts
    decreases |parts|
  {
    if |parts| == 0 then []
    else if parts[0] != "" && ':' !in parts[0] then [parts[0]] + KeepListItems(parts[1..])
    else KeepListItems(parts[1..])
  }

  /** Filtering a concatenation filters each side and keeps them in order. */
  lemma {:induction false} KeepListItemsConcat(a: seq<string>, b: seq<string>)
    ensures KeepListItems(a + b) == KeepListItems(a) + KeepListItems(b)
    decreases |a|
  {
    if |a| == 0 {
      assert a + b == b;
    } else {
      assert (a + b)[0] == a[0];
      assert (a + b)[1..] == a[1..] + b;
      KeepListItemsConcat(a[1..], b);
    }
  }

  /** The value path: split on ',' and ';', trim, drop empty items and items with a ':'. */
  function ValueItems(value: string): (r: seq<string>)
    ensures forall x :: x in r ==> x != "" && ':' !in x && Trim(x) == x
  {
    KeepListItems(TrimAll(SplitListValue(value)))
  }

  /** Replacing a character that does not occur changes nothing. */
  lemma ReplaceAbsent(s: string, from: char, to: char)
    requires from !in s
    ensures ReplaceChar(s, from, to) == s
  {
  }

  lemma ReplaceConcat(a: string, b: string, from: char, to: char)
    ensures ReplaceChar(a + b, from, to) == ReplaceChar(a, from, to) + ReplaceChar(b, from, to)
  {
  }

  /** Pieces free of ',' and ';' joined by either keep their text once every ';' is a ','. */
  lemma {:induction false} ReplaceJoin(ps: seq<string>, c: char)
    requires c == ',' || c == ';'
    requires forall i :: 0 <= i < |ps| ==> ',' !in ps[i] && ';' !in ps[i]
    ensures ReplaceChar(Join(ps, [c]), ';', ',') == Join(ps, [','])
    decreases |ps|
  {
    if |ps| == 1 {
      ReplaceAbsent(ps[0], ';', ',');
    } else if |ps| > 1 {
      ReplaceJoin(ps[1..], c);
      ReplaceConcat(ps[0] + [c], Join(ps[1..], [c]), ';', ',');
      ReplaceConcat(ps[0], [c], ';', ',');
      ReplaceAbsent(ps[0], ';', ',');
    }
  }

  /**
   * A value made of pieces free of ',' and ';', separated by either, gives
   * back those pieces trimmed, in order, with the empty ones and those
   * holding a ':' dropped.
   */
  lemma ValueItemsOfPieces(ps: seq<string>, c: char)
    requires |ps| >= 1 && (c == ',' || c == ';')
    requires forall i :: 0 <= i < |ps| ==> ',' !in ps[i] && ';' !in ps[i]
    ensures ValueItems(Join(ps, [c])) == KeepListItems(TrimAll(ps))
  {
    ReplaceJoin(ps, c);
    SplitJoin(ps, ',');
  }

  /** For instance a value such as "a; b" lists "a" and then "b". */
  lemma ValueItemsExample(a: char, b: char)
    requires !IsSpace(a) && !IsSpace(b)
    requires a != ',' && a != ';' && a != ':' && b != ',' && b != ';' && b != ':'
    ensures ValueItems([a, ';', ' ', b]) == [[a], [b]]
  {
    ValueItemsOfTwo([a], [' ', b], ';');
    assert [a] + [';'] + [' ', b] == [a, ';', ' ', b];
    TrimOfNoSpace([a]);
    TrimOfLeadingSpace(b);
    KeepTwo([a], [b]);
  }

  lemma KeepTwo(x: string, y: string)
    requires ListItem(x) && ListItem(y)
    ensures KeepListItems([x, y]) == [x, y]
  {
  }

  lemma ValueItemsOfTwo(x: string, y: string, c: char)
    requires c == ',' || c == ';'
    requires ',' !in x && ';' !in x && ',' !in y && ';' !in y
    ensures ValueItems(x + [c] + y) == KeepListItems([Trim(x), Trim(y)])
  {
    JoinTwo(x, y, c);
    ValueItemsOfPieces([x, y], c);
    TrimAllTwo(x, y);
  }

  lemma JoinTwo(a: string, b: string, c: char)
    ensures Join([a, b], [c]) == a + [c] + b
  {
    assert [a, b][1..] == [b];
  }

  lemma TrimOfLeadingSpace(c: char)
    requires !IsSpace(c)
    ensures Trim([' ', c]) == [c]
  {
    var s := [' ', c];
    assert SpaceRun(s, 2) == 0;
    assert SpaceRun(s, 1) == 0;
    assert SpaceRun(s, 0) == 1;
    TrimRemovesOnlySpace(s);
  }

  /**
   * `extractList`: `block` is the filtered block items when a block was found,
   * `value` the extracted value ("" when none). The block path wins when it
   * yields an item; otherwise the value path; otherwise nothing.
   */
  function ExtractList(block: Option<seq<string>>, value: string): Option<seq<string>> {
    if block.Some? && |BlockItems(block.value)| > 0 then Some(BlockItems(block.value))
    else if value != "" && |ValueItems(value)| > 0 then Some(ValueItems(value))
    else None
  }

  /** A list from a block has at most four items; one from a value has only
      non-empty, trimmed, colon-free items; no list is ever empty. */
  lemma ExtractListShape(block: Option<seq<string>>, value: string)
    ensures var r := ExtractList(block, value);
      (r.Some? ==> |r.value| > 0)
      && (block.Some? && |Clauses(block.value)| > 0 ==> r.Some? && |r.value| <= 4)
      && (r.Some? && (block.None? || |Clauses(block.value)| == 0) ==>
            forall x :: x in r.value ==> x != "" && ':' !in x && Trim(x) == x)
      && (block.Some? && |Clauses(block.value)| > 0 ==> r == Some(BlockItems(block.value)))
      && ((block.None? || |Clauses(block.value)| == 0) ==>
            r == if |ValueItems(value)| > 0 then Some(ValueItems(value)) else None)
  {
  }
}
