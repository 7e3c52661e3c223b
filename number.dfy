/**
 * lib/optimise/Number.php: recognising a number with an optional unit,
 * dropping the unit of a zero, adding `px` where a length is required,
 * prefixing bare hex colours with `#` (section 4.3.6 of CSS 2.1) and the
 * leading-zero rule of `compressNumber`, all over decimal text.
 */
module Numbers {
  import opened Wrappers
  import opened Text
  import opened Diagnostics

  /** `Number::$units` */
  const Units: seq<string> := [
    "px", "in", "cm", "mm", "pt", "pc",
    "%", "em", "rem", "ex", "ch", "vw", "vh", "vm",
    "deg", "grad", "rad", "turn",
    "ms", "s",
    "khz", "hz",
    "fr", "gr",
    "dpi", "dpcm", "dppx",
    "db", "st"]

  /** The keys of `Number::$colorValues` */
  const ColorValues: set<string> := {
    "background-color", "border-color", "border-top-color", "border-right-color",
    "border-bottom-color", "border-left-color", "color", "outline-color"}

  /** `Number::$unitValues` */
  const UnitValues: set<string> := {
    "background", "background-position", "border", "border-top", "border-right", "border-bottom", "border-left",
    "border-width", "border-top-width", "border-right-width", "border-left-width", "border-bottom-width", "bottom",
    "border-spacing", "font-size", "height", "left", "margin", "margin-top", "margin-right", "margin-bottom",
    "margin-left", "max-height", "max-width", "min-height", "min-width", "outline", "outline-width", "padding",
    "padding-top", "padding-right", "padding-bottom", "padding-left", "right", "top", "text-indent",
    "letter-spacing", "word-spacing", "width"}

  /** What `analyse` returns on success: the compressed value and the lower-case unit. */
  datatype Number = Number(value: string, unit: string)

  // ------------------------------------------------------------ hex colours

  /** `checkHexValue`: three or six hex digits. */
  function CheckHexValue(s: string): bool {
    if |s| != 3 && |s| != 6 then false else AllHex(s)
  }

  /** `checkHexValue` accepts exactly three or six hex digits. */
  lemma CheckHexValueMeans(s: string)
    ensures CheckHexValue(s) <==> (|s| == 3 || |s| == 6) && forall i :: 0 <= i < |s| ==> IsHexDigit(s[i])
  {
    AllHexMeans(s);
  }

  // --------------------------------------------------- the number expression

  /** The length of the run of decimal digits starting at `i`. */
  function DigitRun(s: string, i: nat): (n: nat)
    requires i <= |s|
    ensures i + n <= |s|
    ensures forall j :: i <= j < i + n ==> IsDigit(s[j])
    ensures i + n == |s| || !IsDigit(s[i + n])
    decreases |s| - i
  {
    if i < |s| && IsDigit(s[i]) then 1 + DigitRun(s, i + 1) else 0
  }

  /**
   * Where `[0-9]*\.[0-9]+|[0-9]+` ends when matched at `q`, or -1. The
   * first alternative is tried first; both quantifiers are greedy.
   */
  function NumberEnd(s: string, q: nat): (e: int)
    requires q <= |s|
    ensures e == -1 || q < e <= |s|
  {
    var d := DigitRun(s, q);
    if q + d + 1 < |s| && s[q + d] == '.' && IsDigit(s[q + d + 1]) then q + d + 1 + DigitRun(s, q + d + 1)
    else if d > 0 then q + d
    else -1
  }

  /** Where `-?(...)` ends when matched at `p`, or -1. */
  function MatchEnd(s: string, p: nat): (e: int)
    requires p <= |s|
    ensures e == -1 || p < e <= |s|
  {
    if p < |s| && s[p] == '-' && NumberEnd(s, p + 1) >= 0 then NumberEnd(s, p + 1) else NumberEnd(s, p)
  }

  /** The leftmost match at or after `p`, as (start, end): `preg_match` is not anchored. */
  function FirstMatch(s: string, p: nat): (r: Option<(nat, nat)>)
    requires p <= |s|
    ensures r.Some? ==> p <= r.value.0 < r.value.1 <= |s| && MatchEnd(s, r.value.0) == r.value.1
    ensures r.Some? ==> forall q :: p <= q < r.value.0 ==> MatchEnd(s, q) == -1
    ensures r.None? ==> forall q :: p <= q <= |s| ==> MatchEnd(s, q) == -1
    decreases |s| - p
  {
    if MatchEnd(s, p) >= 0 then Some((p, MatchEnd(s, p)))
    else if p == |s| then None
    else FirstMatch(s, p + 1)
  }

  /** A unit `analyse` accepts: none, or one from the table. */
  predicate KnownUnit(u: string) {
    u == "" || u in Units
  }

  /**
   * `analyse` with unit conversion switched off: the first number in the
   * text, compressed, and the rest of the text, trimmed and lower-cased,
   * as its unit.
   */
  function Analyse(s: string): (r: Option<Number>)
    ensures s == [] || s[0] == '#' || IsAlpha(s[0]) ==> r == None
    ensures s == "0" ==> r == Some(Number("0", ""))
    ensures r.Some? ==> KnownUnit(r.value.unit)
    ensures r.Some? ==> Lower(r.value.unit) == r.value.unit
  {
    if s == [] || s[0] == '#' || IsAlpha(s[0]) then None
    else if s == "0" then Some(Number("0", ""))
    else match FirstMatch(s, 0)
      case None => None
      case Some((b, e)) =>
        var unit := Lower(Trim(s[e..]));
        LowerIsIdempotent(Trim(s[e..]));
        if unit != "" && unit !in Units then None
        else Some(Number(CompressNumber(s[b..e]), unit))
  }

  lemma LowerIsIdempotent(s: string)
    ensures Lower(Lower(s)) == Lower(s)
  {
    var l := Lower(s);
    forall i | 0 <= i < |l| ensures !('A' <= l[i] <= 'Z') {
      assert l[i] == LowerChar(s[i]);
    }
    LowerOfLower(l);
  }

  // ------------------------------------------------------- decimal text

  /** Decimal text taken apart: sign, digits before the dot, digits after it. */
  datatype Decimal = Decimal(negative: bool, whole: string, frac: string)

  predicate Digits(s: string) {
    forall i :: 0 <= i < |s| ==> IsDigit(s[i])
  }

  predicate WellFormed(d: Decimal) {
    Digits(d.whole) && Digits(d.frac)
  }

  /** The digits before the first dot. */
  function IntPart(body: string): (r: string)
    ensures |r| <= |body| && r == body[..|r|] && '.' !in r
    ensures |r| < |body| ==> body[|r|] == '.'
  {
    if body == [] || body[0] == '.' then "" else [body[0]] + IntPart(body[1..])
  }

  /** Reads `-?digits(.digits)?` the way `floatval` does for the text the expression captures. */
  function ParseDecimal(t: string): (d: Decimal)
  {
    var negative := |t| > 0 && t[0] == '-';
    var body := if negative then t[1..] else t;
    var whole := IntPart(body);
    Decimal(negative, whole, if |whole| < |body| then body[|whole| + 1..] else "")
  }

  /** Prints a decimal: "0" stands for an empty magnitude, and the dot only appears with a fraction. */
  function Render(d: Decimal): string {
    (if d.negative then "-" else "")
    + (if d.whole == "" && d.frac == "" then "0" else d.whole)
    + (if d.frac != "" then "." + d.frac else "")
  }

  /** The value is zero: no digit other than `0`. */
  predicate IsZero(d: Decimal) {
    (forall i :: 0 <= i < |d.whole| ==> d.whole[i] == '0')
    && (forall i :: 0 <= i < |d.frac| ==> d.frac[i] == '0')
  }

  /** The value printing a float keeps: no leading zero before the dot, no trailing zero after it. */
  function Canonical(d: Decimal): (c: Decimal)
    ensures c.negative == d.negative
    ensures c.whole == [] || c.whole[0] != '0'
    ensures c.frac == [] || c.frac[|c.frac| - 1] != '0'
    ensures WellFormed(d) ==> WellFormed(c)
  {
    Decimal(d.negative, TrimLeftOf(d.whole, {'0'}), TrimRightOf(d.frac, {'0'}))
  }

  /**
   * `compressNumber` on decimal text: leading zeros of the integer part
   * and trailing zeros of the fraction go, as printing the float does, so
   * a magnitude below one loses its `0` before the dot.
   */
  function CompressNumber(t: string): string {
    Render(Canonical(ParseDecimal(t)))
  }

  /** Reading back what Render printed gives the same decimal. */
  lemma ParseRender(d: Decimal)
    requires WellFormed(d) && (d.whole != "" || d.frac != "")
    ensures ParseDecimal(Render(d)) == d
  {
    RenderShape(d);
    ParseBody(d.negative, d.whole, d.frac);
  }

  /** A sign, digits and an optional dot with digits read back as those three parts. */
  lemma ParseBody(negative: bool, w: string, f: string)
    requires Digits(w)
    ensures ParseDecimal((if negative then "-" else "") + (w + (if f != "" then "." + f else "")))
      == Decimal(negative, w, f)
  {
    var rest := if f != "" then "." + f else "";
    var body := w + rest;
    BodyUnsigned(w, rest);
    ParseSigned(negative, body);
    IntPartBeforeDot(w, rest);
    FracAfterDot(w, f);
  }

  /** What follows the whole part and its dot is the fraction. */
  lemma FracAfterDot(w: string, f: string)
    ensures var body := w + (if f != "" then "." + f else "");
      (if |w| < |body| then body[|w| + 1..] else "") == f
  {
    if f != "" {
      DropAfterDot(w, f);
    }
  }

  /** A decimal with a digit prints as its sign, its whole part and its fraction after a dot. */
  lemma RenderShape(d: Decimal)
    requires d.whole != "" || d.frac != ""
    ensures Render(d) == (if d.negative then "-" else "") + (d.whole + (if d.frac != "" then "." + d.frac else ""))
  {
  }

  /** Digits followed by nothing or a dot do not start with a sign. */
  lemma BodyUnsigned(w: string, rest: string)
    requires Digits(w) && (rest == [] || rest[0] == '.')
    ensures w + rest == [] || (w + rest)[0] != '-'
  {
    if w == [] {
      assert w + rest == rest;
    } else {
      assert (w + rest)[0] == w[0];
    }
  }

  lemma DropAfterDot(w: string, f: string)
    ensures (w + ("." + f))[|w| + 1..] == f
  {
    var b := w + ("." + f);
    assert |b| == |w| + 1 + |f|;
    forall i | 0 <= i < |f| ensures b[|w| + 1 + i] == f[i] {
    }
  }

  /** The sign is read off first, and the rest is the magnitude. */
  lemma ParseSigned(negative: bool, body: string)
    requires body == [] || body[0] != '-'
    ensures var w := IntPart(body);
      ParseDecimal((if negative then "-" else "") + body)
        == Decimal(negative, w, if |w| < |body| then body[|w| + 1..] else "")
  {
    var t := (if negative then "-" else "") + body;
    if negative {
      assert t[0] == '-' && t[1..] == body;
    } else {
      assert t == body;
    }
  }

  lemma {:induction false} IntPartBeforeDot(w: string, rest: string)
    requires Digits(w) && (rest == [] || rest[0] == '.')
    ensures IntPart(w + rest) == w
  {
    if w != [] {
      assert (w + rest)[1..] == w[1..] + rest;
      IntPartBeforeDot(w[1..], rest);
      assert [w[0]] + w[1..] == w;
    } else {
      assert w + rest == rest;
    }
  }

  /** Canonical is idempotent. */
  lemma CanonicalTwice(d: Decimal)
    ensures Canonical(Canonical(d)) == Canonical(d)
  {
  }

  /** Compressing compressed text changes nothing. */
  lemma CompressIdempotent(t: string)
    requires WellFormed(ParseDecimal(t))
    ensures CompressNumber(CompressNumber(t)) == CompressNumber(t)
  {
    var c := Canonical(ParseDecimal(t));
    if c.whole == "" && c.frac == "" {
      var z := Decimal(c.negative, "0", "");
      assert Render(c) == Render(z);
      ParseRender(z);
      assert TrimLeftOf("0", {'0'}) == "";
    } else {
      ParseRender(c);
      CanonicalTwice(ParseDecimal(t));
    }
  }

  /** A decimal and its canonical form are zero together: the zero-unit rule sees the same thing. */
  lemma CanonicalKeepsZero(d: Decimal)
    ensures IsZero(Canonical(d)) <==> IsZero(d)
  {
    var c := Canonical(d);
    if IsZero(d) {
      TrimLeftOfAll(d.whole, '0');
      TrimRightOfAll(d.frac, '0');
    } else if exists i :: 0 <= i < |d.whole| && d.whole[i] != '0' {
      var i :| 0 <= i < |d.whole| && d.whole[i] != '0';
      assert c.whole != [] by {
        NotAllKept(d.whole, i);
      }
    } else {
      var i :| 0 <= i < |d.frac| && d.frac[i] != '0';
      assert c.frac != [] by {
        NotAllKeptRight(d.frac, i);
      }
    }
  }

  /** Every character of `s` is `c`. */
  predicate All(s: string, c: char) {
    forall i :: 0 <= i < |s| ==> s[i] == c
  }

  lemma {:induction false} TrimLeftOfAll(s: string, c: char)
    requires All(s, c)
    ensures TrimLeftOf(s, {c}) == ""
  {
    if s != [] {
      TrimLeftOfAll(s[1..], c);
    }
  }

  lemma {:induction false} TrimRightOfAll(s: string, c: char)
    requires All(s, c)
    ensures TrimRightOf(s, {c}) == ""
  {
    if s != [] {
      TrimRightOfAll(s[..|s| - 1], c);
    }
  }

  lemma NotAllKept(s: string, j: nat)
    requires j < |s| && s[j] != '0'
    ensures TrimLeftOf(s, {'0'}) != ""
  {
  }

  lemma NotAllKeptRight(s: string, j: nat)
    requires j < |s| && s[j] != '0'
    ensures TrimRightOf(s, {'0'}) != ""
  {
  }

  // ------------------------------------------- analyse reads printed numbers

  /** Unit text: lower-case letters and `%`, as every entry of the unit table is. */
  predicate UnitText(u: string) {
    forall j :: 0 <= j < |u| ==> 'a' <= u[j] <= 'z' || u[j] == '%'
  }

  lemma UnitsAreUnitText()
    ensures forall u :: u in Units ==> UnitText(u)
  {
    forall i | 0 <= i < |Units| ensures UnitText(Units[i]) {
    }
  }

  lemma {:induction false} DigitRunIs(s: string, i: nat, n: nat)
    requires i + n <= |s|
    requires forall j :: i <= j < i + n ==> IsDigit(s[j])
    requires i + n == |s| || !IsDigit(s[i + n])
    ensures DigitRun(s, i) == n
    decreases n
  {
    if n > 0 {
      DigitRunIs(s, i + 1, n - 1);
    }
  }

  /** The expression stops right after the digits of a printed magnitude. */
  lemma NumberEndIs(s: string, q: nat, w: string, f: string)
    requires Digits(w) && Digits(f) && (w != "" || f != "")
    requires q + |w| <= |s| && s[q..q + |w|] == w
    requires f != "" ==> q + |w| + 1 + |f| <= |s| && s[q + |w|] == '.' && s[q + |w| + 1..q + |w| + 1 + |f|] == f
    requires var e := q + |w| + (if f != "" then 1 + |f| else 0);
      e == |s| || (!IsDigit(s[e]) && s[e] != '.')
    ensures NumberEnd(s, q) == q + |w| + (if f != "" then 1 + |f| else 0)
  {
    forall j | q <= j < q + |w| ensures IsDigit(s[j]) {
      assert s[j] == w[j - q];
    }
    DigitRunIs(s, q, |w|);
    if f != "" {
      var k := q + |w| + 1;
      forall j | k <= j < k + |f| ensures IsDigit(s[j]) {
        assert s[j] == f[j - k];
      }
      assert s[k] == f[0];
      DigitRunIs(s, k, |f|);
    }
  }

  /** The magnitude Render prints: "0" for an empty one. */
  function Magnitude(d: Decimal): string {
    (if d.whole == "" && d.frac == "" then "0" else d.whole) + (if d.frac != "" then "." + d.frac else "")
  }

  /**
   * `analyse` reads back any number it could print followed by a known
   * unit: the value comes out compressed and the unit unchanged.
   */
  lemma AnalyseReadsNumber(d: Decimal, u: string)
    requires WellFormed(d)
    requires u == "" || u in Units
    ensures Analyse(Render(d) + u) == Some(Number(CompressNumber(Render(d)), u))
  {
    assert UnitText(u) by {
      UnitsAreUnitText();
    }
    ReadsNumberWithUnit(d, u);
  }

  lemma ReadsNumberWithUnit(d: Decimal, u: string)
    requires WellFormed(d) && KnownUnit(u) && UnitText(u)
    ensures Analyse(Render(d) + u) == Some(Number(CompressNumber(Render(d)), u))
  {
    var t := Render(d);
    FirstMatchOfPrinted(d, u);
    RenderStart(d);
    if t + u == "0" {
      assert t == "0" && u == "" by {
        assert |t| == 1;
      }
      CompressZero();
    } else {
      ReadsPrinted(t, u);
    }
  }

  /** A printed number followed by a unit, other than a bare `0`, is read back with that unit. */
  lemma ReadsPrinted(t: string, u: string)
    requires |t| > 0 && (t[0] == '-' || IsDigit(t[0]) || t[0] == '.')
    requires t + u != "0" && FirstMatch(t + u, 0) == Some((0, |t|))
    requires KnownUnit(u) && UnitText(u)
    ensures Analyse(t + u) == Some(Number(CompressNumber(t), u))
  {
    var s := t + u;
    assert s[0] == t[0];
    assert s[0..|t|] == t && s[|t|..] == u;
    UnitIsKept(u);
    AnalyseMatched(s, |t|);
  }

  /** `analyse` on a text that starts like a number and is matched from its start up to `e`. */
  lemma AnalyseMatched(s: string, e: nat)
    requires s != [] && s[0] != '#' && !IsAlpha(s[0]) && s != "0"
    requires FirstMatch(s, 0) == Some((0, e)) && KnownUnit(Lower(Trim(s[e..])))
    ensures Analyse(s) == Some(Number(CompressNumber(s[0..e]), Lower(Trim(s[e..]))))
  {
  }

  lemma CompressZero()
    ensures CompressNumber("0") == "0"
  {
    assert ParseDecimal("0") == Decimal(false, "0", "");
    assert Canonical(Decimal(false, "0", "")) == Decimal(false, "", "");
  }

  lemma RenderStart(d: Decimal)
    requires WellFormed(d)
    ensures |Render(d)| > 0
    ensures Render(d)[0] == '-' || IsDigit(Render(d)[0]) || Render(d)[0] == '.'
  {
    var w := if d.whole == "" && d.frac == "" then "0" else d.whole;
    var rest := if d.frac != "" then "." + d.frac else "";
    assert Render(d) == (if d.negative then "-" else "") + (w + rest);
    if !d.negative && w != "" {
      assert Render(d)[0] == w[0];
    }
  }

  /** The leftmost match in a printed number followed by a unit covers exactly the number. */
  lemma FirstMatchOfPrinted(d: Decimal, u: string)
    requires WellFormed(d) && UnitText(u)
    ensures FirstMatch(Render(d) + u, 0) == Some((0, |Render(d)|))
  {
    var sign := if d.negative then "-" else "";
    var w := if d.whole == "" && d.frac == "" then "0" else d.whole;
    var rest := if d.frac != "" then "." + d.frac else "";
    assert Render(d) == sign + (w + rest);
    MatchEndPrinted(sign, w, d.frac, u);
  }

  lemma MatchEndPrinted(sign: string, w: string, f: string, u: string)
    requires sign == "" || sign == "-"
    requires Digits(w) && Digits(f) && (w != "" || f != "") && UnitText(u)
    ensures var t := sign + (w + (if f != "" then "." + f else ""));
      MatchEnd(t + u, 0) == |t|
  {
    var t := sign + (w + (if f != "" then "." + f else ""));
    var s := t + u;
    var q := |sign|;
    var e := q + |w| + (if f != "" then 1 + |f| else 0);
    SliceFacts(sign, w, f, u);
    assert e == |s| || (!IsDigit(s[e]) && s[e] != '.') by {
      if e < |s| {
        assert s[e] == u[0];
      }
    }
    NumberEndIs(s, q, w, f);
    if sign == "-" {
      assert s[0] == '-';
    } else if w != "" {
      assert s[0] == w[0];
    } else {
      assert s[0] == '.';
    }
  }

  /** The pieces of sign + magnitude + unit sit where NumberEndIs looks for them. */
  lemma SliceFacts(sign: string, w: string, f: string, u: string)
    ensures var s := sign + (w + (if f != "" then "." + f else "")) + u;
      var q := |sign|;
      q + |w| <= |s| && s[q..q + |w|] == w
      && (f != "" ==> q + |w| + 1 + |f| <= |s| && s[q + |w|] == '.' && s[q + |w| + 1..q + |w| + 1 + |f|] == f)
  {
  }

  /** A unit from the table survives `strtolower(trim(...))`. */
  lemma UnitIsKept(u: string)
    requires UnitText(u)
    ensures Lower(Trim(u)) == u
  {
    if u != [] {
      TrimKeeps(u, TrimChars);
    }
    LowerOfLower(u);
  }

  // ------------------------------------------------------------- optimise

  /** What one part becomes, with what was logged on the way. */
  datatype PartResult = PartResult(text: string, log: Log)

  /**
   * The body of the `foreach` in `optimise` for one part: None when the
   * part is not a number (the whole sub-value is then returned as it was).
   * The optimiser's logger is not given a line, so entries carry line 0.
   * With `recheck` the hex test is also made on the rewritten part (the
   * correction in Rechecked); without it the part is as written.
   */
  function OptimisePart(property: string, part: string, recheck: bool): (r: Option<PartResult>)
    ensures r.None? <==> Analyse(part).None?
  {
    match Analyse(part)
    case None => None
    case Some(n) =>
      var pr := OptimiseNumber(property, part, n);
      Some(if recheck then Rechecked(property, pr) else pr)
  }

  /** The rewriting of one part that `analyse` read as the number `n`. */
  function OptimiseNumber(property: string, part: string, n: Number): PartResult {
    if property in ColorValues && CheckHexValue(part) then PartResult("#" + part, [])
    else
      var colorLog := ColorLog(property, part);
      if !IsZero(ParseDecimal(n.value)) then
        if n.unit == "" && property in UnitValues then
          PartResult(n.value + "px", colorLog + [Entry(AddedPxUnit(part), Warning, 0)])
        else PartResult(n.value + n.unit, colorLog)
      else if n.unit != "" then
        PartResult(n.value, colorLog + [Entry(RemovedZeroUnit(n.unit, part), Information, 0)])
      else PartResult(n.value, colorLog)
  }

  /**
   * As written, the hex test looks at the part before it is rewritten:
   * in a colour property `100.0` is not a hex colour, but is rewritten to
   * `100`, which is one. The correction repeats the test on the rewritten
   * text, so the `#` the next pass would add is added now.
   */
  function Rechecked(property: string, pr: PartResult): (r: PartResult)
    ensures r.log == pr.log
    ensures property in ColorValues && CheckHexValue(pr.text) ==> r.text == "#" + pr.text
    ensures !(property in ColorValues && CheckHexValue(pr.text)) ==> r == pr
  {
    if property in ColorValues && CheckHexValue(pr.text) then PartResult("#" + pr.text, pr.log) else pr
  }

  /** The log of a colour property whose part is not a hex colour. */
  function ColorLog(property: string, part: string): Log {
    if property in ColorValues then [Entry(InvalidColor(part, property), Error, 0)] else []
  }

  /** The parts `optimise` walks: split on `/` for `font`, the whole sub-value otherwise. */
  function PartsOf(property: string, subValue: string): (parts: seq<string>)
    ensures |parts| > 0
  {
    if property == "font" then Split(subValue, '/') else [subValue]
  }

  /** The state of the walk: parts rewritten so far, the log, and whether a part was not a number. */
  datatype Pass = Pass(parts: seq<string>, log: Log, failed: bool)

  /** The walk over `parts`, left to right, stopping at the first part that is not a number. */
  function OptimiseParts(property: string, parts: seq<string>, recheck: bool): (p: Pass)
    ensures p.failed <==> exists i :: 0 <= i < |parts| && Analyse(parts[i]).None?
    ensures !p.failed ==> |p.parts| == |parts|
  {
    if parts == [] then Pass([], [], false)
    else
      var prev := OptimiseParts(property, parts[..|parts| - 1], recheck);
      assert forall i :: 0 <= i < |parts| - 1 ==> parts[..|parts| - 1][i] == parts[i];
      if prev.failed then prev
      else match OptimisePart(property, parts[|parts| - 1], recheck)
        case None => Pass(prev.parts, prev.log, true)
        case Some(pr) => Pass(prev.parts + [pr.text], prev.log + pr.log, false)
  }

  /** Without a failure, each part is replaced by its own rewriting, in order. */
  lemma {:induction false} PartsRewritten(property: string, parts: seq<string>, recheck: bool, i: nat)
    requires !OptimiseParts(property, parts, recheck).failed && i < |parts|
    ensures OptimisePart(property, parts[i], recheck).Some?
    ensures OptimiseParts(property, parts, recheck).parts[i] == OptimisePart(property, parts[i], recheck).value.text
  {
    var init := parts[..|parts| - 1];
    var prev := OptimiseParts(property, init, recheck);
    assert !prev.failed;
    if i < |parts| - 1 {
      PartsRewritten(property, init, recheck, i);
      assert init[i] == parts[i];
    }
  }

  /** `isset($parts[1]) ? $parts[0] . '/' . $parts[1] : $parts[0]`: parts after the second are dropped. */
  function Rejoin(parts: seq<string>): string
    requires |parts| > 0
  {
    if |parts| > 1 then parts[0] + "/" + parts[1] else parts[0]
  }

  /** What `optimise` returns and logs. */
  function OptimiseValue(property: string, subValue: string, recheck: bool): (string, Log) {
    var pass := OptimiseParts(property, PartsOf(property, subValue), recheck);
    if pass.failed then (subValue, pass.log) else (Rejoin(pass.parts), pass.log)
  }

  /** Once a part fails, the walk ends: later parts neither log nor change anything. */
  lemma {:induction false} FailedStays(property: string, parts: seq<string>, recheck: bool, i: nat)
    requires i <= |parts| && OptimiseParts(property, parts[..i], recheck).failed
    ensures OptimiseParts(property, parts, recheck) == OptimiseParts(property, parts[..i], recheck)
    decreases |parts| - i
  {
    if i < |parts| {
      assert parts[..i + 1][..i] == parts[..i];
      FailedStays(property, parts, recheck, i + 1);
    } else {
      assert parts[..i] == parts;
    }
  }

  /** `optimise`: the by-reference `foreach` over the parts, returning early on a non-number. */
  method Optimise(property: string, subValue: string) returns (r: string, log: Log)
    ensures (r, log) == OptimiseValue(property, subValue, false)
  {
    var parts := PartsOf(property, subValue);
    var done: seq<string> := [];
    log := [];
    for i := 0 to |parts|
      invariant OptimiseParts(property, parts[..i], false) == Pass(done, log, false)
    {
      assert parts[..i + 1][..i] == parts[..i];
      var part := OptimisePart(property, parts[i], false);
      if part.None? {
        FailedStays(property, parts, false, i + 1);
        return subValue, log;
      }
      done := done + [part.value.text];
      log := log + part.value.log;
    }
    assert parts[..|parts|] == parts;
    r := Rejoin(done);
  }

  /** A sub-value with a part that is not a number comes back unchanged. */
  lemma NotNumberUnchanged(property: string, subValue: string, recheck: bool, i: nat)
    requires i < |PartsOf(property, subValue)| && Analyse(PartsOf(property, subValue)[i]).None?
    ensures OptimiseValue(property, subValue, recheck).0 == subValue
  {
  }

  /** Outside `font` the sub-value is one part, optimised on its own. */
  lemma SinglePart(property: string, subValue: string)
    requires property != "font"
    ensures OptimiseValue(property, subValue, false) == match Analyse(subValue)
      case None => (subValue, [])
      case Some(n) => (OptimiseNumber(property, subValue, n).text, OptimiseNumber(property, subValue, n).log)
  {
    var parts := [subValue];
    assert PartsOf(property, subValue) == parts;
    assert parts[..0] == [];
    assert OptimiseParts(property, parts[..0], false) == Pass([], [], false);
    match Analyse(subValue)
    case None =>
      assert OptimisePart(property, subValue, false) == None;
      assert OptimiseParts(property, parts, false) == Pass([], [], true);
    case Some(n) =>
      var pr := OptimiseNumber(property, subValue, n);
      assert OptimisePart(property, subValue, false) == Some(pr);
      assert OptimiseParts(property, parts, false) == Pass([pr.text], pr.log, false);
  }

  /** A zero loses its unit: `0px` becomes `0` (outside colour properties). */
  lemma ZeroLosesUnit(property: string, d: Decimal, u: string)
    requires WellFormed(d) && IsZero(d) && KnownUnit(u)
    requires property !in ColorValues && property != "font"
    ensures OptimiseValue(property, Render(d) + u, false).0 == CompressNumber(Render(d))
  {
    AnalyseReadsNumber(d, u);
    ReadZeroIsZero(d);
    SinglePart(property, Render(d) + u);
  }

  lemma ReadZeroIsZero(d: Decimal)
    requires WellFormed(d)
    ensures IsZero(ParseDecimal(CompressNumber(Render(d)))) <==> IsZero(d)
  {
    CanonicalOfPrinted(d);
    ZeroOfPrinted(Canonical(d));
    CanonicalKeepsZero(d);
  }

  /** Printing and reading back keeps the canonical value. */
  lemma CanonicalOfPrinted(d: Decimal)
    requires WellFormed(d)
    ensures Canonical(ParseDecimal(Render(d))) == Canonical(d)
  {
    if d.whole != "" || d.frac != "" {
      ParseRender(d);
    } else {
      var z := Decimal(d.negative, "0", "");
      ParseRender(z);
      assert Render(d) == Render(z);
      assert TrimLeftOf("0", {'0'}) == "";
    }
  }

  /** Printing and reading back keeps zero-ness. */
  lemma ZeroOfPrinted(c: Decimal)
    requires WellFormed(c)
    ensures IsZero(ParseDecimal(Render(c))) <==> IsZero(c)
  {
    if c.whole != "" || c.frac != "" {
      ParseRender(c);
    } else {
      var z := Decimal(c.negative, "0", "");
      ParseRender(z);
      assert Render(c) == Render(z);
    }
  }

  /** `font` is neither a colour nor a length property. */
  lemma FontTakesNoUnit()
    ensures "font" !in UnitValues && "font" !in ColorValues
  {
  }

  /** A non-zero number without a unit gets `px` where the property needs a length. */
  lemma LengthGetsPx(property: string, d: Decimal)
    requires WellFormed(d) && !IsZero(d)
    requires property in UnitValues && property !in ColorValues
    ensures OptimiseValue(property, Render(d), false).0 == CompressNumber(Render(d)) + "px"
  {
    AnalyseReadsNumber(d, "");
    assert Render(d) + "" == Render(d);
    ReadZeroIsZero(d);
    FontTakesNoUnit();
    SinglePart(property, Render(d));
    var n := Number(CompressNumber(Render(d)), "");
    assert OptimiseNumber(property, Render(d), n).text == n.value + "px";
  }

  /** In a colour property, three or six digits read as a number get their `#`. */
  lemma BareHexGetsHash(property: string, part: string)
    requires property in ColorValues && Analyse(part).Some? && CheckHexValue(part)
    ensures OptimiseValue(property, part, false) == ("#" + part, [])
  {
    FontTakesNoUnit();
    SinglePart(property, part);
    assert OptimiseNumber(property, part, Analyse(part).value) == PartResult("#" + part, []);
  }

  // ------------------------------------------------- optimise, applied twice

  /** Digits, then possibly a dot and digits: the integer part and the fraction are digits. */
  lemma DigitsAroundDot(body: string, d: nat)
    requires d <= |body| && forall j :: 0 <= j < d ==> IsDigit(body[j])
    requires d < |body| ==> body[d] == '.' && forall j :: d < j < |body| ==> IsDigit(body[j])
    ensures WellFormed(Decimal(false, IntPart(body), if |IntPart(body)| < |body| then body[|IntPart(body)| + 1..] else ""))
  {
  }

  /** What `[0-9]*\.[0-9]+|[0-9]+` matches: digits up to `d`, then possibly a dot and digits. */
  lemma NumberBody(s: string, q: nat) returns (d: nat)
    requires q <= |s| && NumberEnd(s, q) >= 0
    ensures var body := s[q..NumberEnd(s, q)];
      && d <= |body| && (forall j :: 0 <= j < d ==> IsDigit(body[j]))
      && (d < |body| ==> body[d] == '.' && forall j :: d < j < |body| ==> IsDigit(body[j]))
      && body[0] != '-'
  {
    d := DigitRun(s, q);
    var body := s[q..NumberEnd(s, q)];
    assert forall j :: 0 <= j < |body| ==> body[j] == s[q + j];
  }

  /** `-?` followed by the body: the match at `b` is an optional sign and what NumberEnd matches after it. */
  lemma MatchSplit(s: string, b: nat) returns (minus: bool, q: nat)
    requires b <= |s| && MatchEnd(s, b) >= 0
    ensures q <= |s| && NumberEnd(s, q) == MatchEnd(s, b)
    ensures s[b..MatchEnd(s, b)] == (if minus then "-" else "") + s[q..MatchEnd(s, b)]
  {
    minus := b < |s| && s[b] == '-' && NumberEnd(s, b + 1) >= 0;
    q := if minus then b + 1 else b;
    if minus {
      assert s[b..MatchEnd(s, b)] == [s[b]] + s[q..MatchEnd(s, b)];
    }
  }

  /** A signed body of digits, possibly with a dot and digits, reads as a well-formed decimal. */
  lemma SignedWellFormed(minus: bool, body: string, d: nat)
    requires d <= |body| && forall j :: 0 <= j < d ==> IsDigit(body[j])
    requires d < |body| ==> body[d] == '.' && forall j :: d < j < |body| ==> IsDigit(body[j])
    requires body == [] || body[0] != '-'
    ensures WellFormed(ParseDecimal((if minus then "-" else "") + body))
  {
    DigitsAroundDot(body, d);
    ParseSigned(minus, body);
  }

  /** What the number expression matches reads as digits, with a dot and digits after it at most. */
  lemma MatchedWellFormed(s: string, b: nat)
    requires b <= |s| && MatchEnd(s, b) >= 0
    ensures WellFormed(ParseDecimal(s[b..MatchEnd(s, b)]))
  {
    var minus, q := MatchSplit(s, b);
    var d := NumberBody(s, q);
    SignedWellFormed(minus, s[q..MatchEnd(s, b)], d);
  }

  /** An analysed value is a printed decimal that compressing leaves alone. */
  lemma AnalysedIsPrinted(s: string) returns (d: Decimal)
    requires Analyse(s).Some?
    ensures WellFormed(d) && Canonical(d) == d
    ensures Analyse(s).value.value == Render(d)
  {
    if s == "0" {
      d := Decimal(false, "", "");
    } else {
      var (b, e) := FirstMatch(s, 0).value;
      MatchedWellFormed(s, b);
      d := Canonical(ParseDecimal(s[b..e]));
      CanonicalTwice(ParseDecimal(s[b..e]));
    }
  }

  /** Compressing a printed canonical decimal gives it back. */
  lemma CompressPrinted(d: Decimal)
    requires WellFormed(d) && Canonical(d) == d
    ensures CompressNumber(Render(d)) == Render(d)
  {
    CanonicalOfPrinted(d);
  }

  /** Neither a printed decimal nor a unit holds a slash. */
  lemma PrintedHasNoSlash(d: Decimal, u: string)
    requires WellFormed(d) && UnitText(u)
    ensures forall j :: 0 <= j < |Render(d) + u| ==> (Render(d) + u)[j] != '/'
  {
    var sign := if d.negative then "-" else "";
    var w := if d.whole == "" && d.frac == "" then "0" else d.whole;
    var rest := if d.frac != "" then "." + d.frac else "";
    var t := sign + w + rest + u;
    assert Render(d) + u == t;
    forall j | 0 <= j < |t| ensures t[j] != '/' {
      if j < |sign| {
        assert t[j] == sign[j];
      } else if j < |sign| + |w| {
        assert t[j] == w[j - |sign|];
      } else if j < |sign| + |w| + |rest| {
        assert t[j] == rest[j - |sign| - |w|];
        if j > |sign| + |w| {
          assert rest[j - |sign| - |w|] == d.frac[j - |sign| - |w| - 1];
        }
      } else {
        assert t[j] == u[j - |sign| - |w| - |rest|];
      }
    }
  }

  /** The unit the rewriting of a number leaves: none on a zero, `px` where a length is required. */
  function NewUnit(property: string, n: Number): string {
    if IsZero(ParseDecimal(n.value)) then "" else if n.unit == "" && property in UnitValues then "px" else n.unit
  }

  lemma NewUnitKnown(property: string, n: Number)
    requires KnownUnit(n.unit)
    ensures KnownUnit(NewUnit(property, n)) && UnitText(NewUnit(property, n))
  {
    var u := NewUnit(property, n);
    if u == "px" {
      PxIsUnit();
    } else {
      assert u == "" || u == n.unit;
      UnitsAreUnitText();
    }
  }

  lemma PxIsUnit()
    ensures "px" in Units && UnitText("px")
  {
    assert Units[0] == "px";
  }

  /** Outside the hex-colour branch a number becomes its value followed by its new unit. */
  lemma NumberText(property: string, part: string, n: Number)
    requires !(property in ColorValues && CheckHexValue(part))
    ensures OptimiseNumber(property, part, n).text == n.value + NewUnit(property, n)
  {
  }

  /** Where the corrected pass adds `#` to a rewritten number, the result is no number any more. */
  lemma HashSettles(property: string, part: string, n: Number, recheck: bool)
    requires recheck && property in ColorValues && CheckHexValue(OptimiseNumber(property, part, n).text)
    ensures var pr := OptimiseNumber(property, part, n);
      var t := (if recheck then Rechecked(property, pr) else pr).text;
      OptimisePart(property, t, recheck).None?
  {
    HashIsNoNumber(property, OptimiseNumber(property, part, n).text, recheck);
  }

  /**
   * Elsewhere the rewritten number reads back with the same value and
   * unit, so rewriting it again gives the same text.
   */
  lemma PlainSettles(property: string, part: string, n: Number, d: Decimal, recheck: bool)
    requires !(property in ColorValues && CheckHexValue(part))
    requires recheck || property !in ColorValues
    requires WellFormed(d) && Canonical(d) == d && n.value == Render(d) && KnownUnit(n.unit)
    requires !(recheck && property in ColorValues && CheckHexValue(OptimiseNumber(property, part, n).text))
    ensures var pr := OptimiseNumber(property, part, n);
      var t := (if recheck then Rechecked(property, pr) else pr).text;
      OptimisePart(property, t, recheck).Some? && OptimisePart(property, t, recheck).value.text == t
  {
    NumberText(property, part, n);
    NewUnitKnown(property, n);
    var u := NewUnit(property, n);
    PrintedReadsItself(d, u);
    NewUnitSettles(property, n);
    Reread(property, Render(d) + u, Number(Render(d), u), recheck);
  }

  /** The new unit of a rewritten number is its unit. */
  lemma NewUnitSettles(property: string, n: Number)
    ensures NewUnit(property, Number(n.value, NewUnit(property, n))) == NewUnit(property, n)
  {
  }

  /** A part that starts with `#` is not a number. */
  lemma HashIsNoNumber(property: string, x: string, recheck: bool)
    ensures OptimisePart(property, "#" + x, recheck).None?
  {
    assert ("#" + x)[0] == '#';
  }

  /** A printed canonical number followed by a known unit is read back as exactly that number and unit. */
  lemma PrintedReadsItself(d: Decimal, u: string)
    requires WellFormed(d) && Canonical(d) == d && KnownUnit(u)
    ensures Analyse(Render(d) + u) == Some(Number(Render(d), u))
  {
    AnalyseReadsNumber(d, u);
    CompressPrinted(d);
  }

  /** A text that `analyse` reads as a number whose rewriting leaves that text is a fixed point of the rewriting. */
  lemma Reread(property: string, t: string, n: Number, recheck: bool)
    requires Analyse(t) == Some(n) && t == n.value + NewUnit(property, n)
    requires !(property in ColorValues && CheckHexValue(t))
    ensures OptimisePart(property, t, recheck) == Some(OptimiseNumber(property, t, n))
    ensures OptimiseNumber(property, t, n).text == t
  {
    NumberText(property, t, n);
    var pr := OptimiseNumber(property, t, n);
    assert Rechecked(property, pr) == pr;
  }

  /**
   * Optimising the text a part became gives that text again, or finds no
   * number in it (a `#` colour): each part is a fixed point. As written
   * this holds outside colour properties only.
   */
  lemma PartSettles(property: string, part: string, recheck: bool)
    requires recheck || property !in ColorValues
    requires OptimisePart(property, part, recheck).Some?
    ensures var t := OptimisePart(property, part, recheck).value.text;
      OptimisePart(property, t, recheck).None? || OptimisePart(property, t, recheck).value.text == t
  {
    var n := Analyse(part).value;
    var pr := OptimiseNumber(property, part, n);
    assert OptimisePart(property, part, recheck).value == if recheck then Rechecked(property, pr) else pr;
    if property in ColorValues && CheckHexValue(part) {
      var t := "#" + part;
      assert pr.text == t;
      assert Analyse(t).None?;
    } else if recheck && property in ColorValues && CheckHexValue(pr.text) {
      HashSettles(property, part, n, recheck);
    } else {
      var d := AnalysedIsPrinted(part);
      PlainSettles(property, part, n, d, recheck);
    }
  }

  /** A part of `font` becomes a number and a unit, which hold no slash. */
  lemma FontPartHasNoSlash(part: string, recheck: bool)
    requires OptimisePart("font", part, recheck).Some?
    ensures var t := OptimisePart("font", part, recheck).value.text;
      forall j :: 0 <= j < |t| ==> t[j] != '/'
  {
    var n := Analyse(part).value;
    FontTakesNoUnit();
    var d := AnalysedIsPrinted(part);
    NumberText("font", part, n);
    NewUnitKnown("font", n);
    PrintedHasNoSlash(d, NewUnit("font", n));
  }

  /** `t` is a fixed point of the part rewriting, or no number at all. */
  predicate Settled(property: string, t: string, recheck: bool) {
    OptimisePart(property, t, recheck).None? || OptimisePart(property, t, recheck).value.text == t
  }

  /** `t` holds no `/`. */
  predicate NoSlash(t: string) {
    forall j :: 0 <= j < |t| ==> t[j] != '/'
  }

  /** The parts of `Rejoin(ts)`: the first two. */
  function Kept(ts: seq<string>): seq<string>
    requires |ts| > 0
  {
    if |ts| > 1 then [ts[0], ts[1]] else [ts[0]]
  }

  /** Parts that are fixed points are walked over unchanged, or the walk stops at one that is no number. */
  lemma SettledPartsStay(property: string, qs: seq<string>, recheck: bool)
    requires forall k :: 0 <= k < |qs| ==> Settled(property, qs[k], recheck)
    ensures var p := OptimiseParts(property, qs, recheck);
      p.failed || p.parts == qs
  {
    var p := OptimiseParts(property, qs, recheck);
    if !p.failed {
      forall k | 0 <= k < |qs| ensures p.parts[k] == qs[k] {
        PartsRewritten(property, qs, recheck, k);
      }
    }
  }

  /** Every part a successful walk produces is a fixed point. */
  lemma PassSettles(property: string, parts: seq<string>, recheck: bool)
    requires recheck || property !in ColorValues
    requires !OptimiseParts(property, parts, recheck).failed
    ensures var ts := OptimiseParts(property, parts, recheck).parts;
      forall k :: 0 <= k < |ts| ==> Settled(property, ts[k], recheck)
  {
    var ts := OptimiseParts(property, parts, recheck).parts;
    forall k | 0 <= k < |ts| ensures Settled(property, ts[k], recheck) {
      PartsRewritten(property, parts, recheck, k);
      PartSettles(property, parts[k], recheck);
    }
  }

  /** Every part a successful walk over `font` produces holds no slash. */
  lemma FontPassNoSlash(parts: seq<string>, recheck: bool)
    requires !OptimiseParts("font", parts, recheck).failed
    ensures var ts := OptimiseParts("font", parts, recheck).parts;
      forall k :: 0 <= k < |ts| ==> NoSlash(ts[k])
  {
    var ts := OptimiseParts("font", parts, recheck).parts;
    forall k | 0 <= k < |ts| ensures NoSlash(ts[k]) {
      PartsRewritten("font", parts, recheck, k);
      FontPartHasNoSlash(parts[k], recheck);
    }
  }

  /** Splitting two slash-free parts joined by `Rejoin` gives them back. */
  lemma RejoinSplits(ts: seq<string>)
    requires |ts| > 0
    requires forall k :: 0 <= k < |ts| ==> NoSlash(ts[k])
    ensures Split(Rejoin(ts), '/') == Kept(ts)
  {
    if |ts| > 1 {
      assert NoSlash(ts[0]) && NoSlash(ts[1]);
      assert Rejoin(ts) == ts[0] + ['/'] + ts[1];
      SplitFirst(ts[0], ts[1], '/');
      SplitWhole(ts[1], '/');
    } else {
      assert NoSlash(ts[0]);
      SplitWhole(ts[0], '/');
    }
  }

  /** What `optimise` returns for a value whose parts are walked over unchanged. */
  lemma UnchangedPartsRejoin(property: string, v: string, qs: seq<string>, recheck: bool)
    requires |qs| > 0 && PartsOf(property, v) == qs && Rejoin(qs) == v
    requires var p := OptimiseParts(property, qs, recheck); p.failed || p.parts == qs
    ensures OptimiseValue(property, v, recheck).0 == v
  {
  }

  /** A value rejoined from fixed points, and split back into them, is a fixed point. */
  lemma RejoinSettles(property: string, ts: seq<string>, recheck: bool)
    requires |ts| > 0
    requires forall k :: 0 <= k < |ts| ==> Settled(property, ts[k], recheck)
    requires PartsOf(property, Rejoin(ts)) == Kept(ts)
    ensures OptimiseValue(property, Rejoin(ts), recheck).0 == Rejoin(ts)
  {
    var qs := Kept(ts);
    assert forall k :: 0 <= k < |qs| ==> qs[k] == ts[k];
    SettledPartsStay(property, qs, recheck);
    UnchangedPartsRejoin(property, Rejoin(ts), qs, recheck);
  }

  /**
   * With the hex test repeated on the rewritten part, optimising an
   * optimised value changes nothing, for every property. As written the
   * same holds outside colour properties (ColourTwiceDiffers shows a
   * colour value that the second pass still changes).
   */
  lemma OptimiseIdempotent(property: string, subValue: string, recheck: bool)
    requires recheck || property !in ColorValues
    ensures var r := OptimiseValue(property, subValue, recheck).0;
      OptimiseValue(property, r, recheck).0 == r
  {
    var parts := PartsOf(property, subValue);
    var pass := OptimiseParts(property, parts, recheck);
    if !pass.failed {
      PassSettles(property, parts, recheck);
      if property == "font" {
        FontPassNoSlash(parts, recheck);
        RejoinSplits(pass.parts);
      }
      RejoinSettles(property, pass.parts, recheck);
    }
  }

  /** A three-digit integer without a leading zero, such as `100`. */
  predicate ThreeDigits(w: string) {
    |w| == 3 && Digits(w) && w[0] != '0'
  }

  /** `w.0` prints `w` with a zero fraction, and `w` prints itself. */
  lemma ThreeDigitsPrint(w: string)
    requires ThreeDigits(w)
    ensures WellFormed(Decimal(false, w, "0"))
    ensures Render(Decimal(false, w, "0")) == w + ".0"
    ensures Render(Decimal(false, w, "")) == w
  {
    assert Digits("0");
  }

  /** The canonical form of `w.0` is `w`. */
  lemma ThreeDigitsCanonical(w: string)
    requires ThreeDigits(w)
    ensures Canonical(Decimal(false, w, "0")) == Decimal(false, w, "")
  {
    assert TrimLeftOf(w, {'0'}) == w;
    assert TrimRightOf("0", {'0'}) == "";
  }

  /** `w.0` reads as the number `w` without a unit. */
  lemma ZeroFractionReads(w: string)
    requires ThreeDigits(w)
    ensures Analyse(w + ".0") == Some(Number(w, ""))
  {
    var d := Decimal(false, w, "0");
    ThreeDigitsPrint(w);
    ThreeDigitsCanonical(w);
    AnalyseReadsNumber(d, "");
    CanonicalOfPrinted(d);
    assert Render(d) + "" == w + ".0";
  }

  /** `w` reads as the nonzero number `w` without a unit. */
  lemma ThreeDigitsReads(w: string)
    requires ThreeDigits(w)
    ensures Analyse(w) == Some(Number(w, ""))
    ensures !IsZero(ParseDecimal(w))
  {
    var d := Decimal(false, w, "0");
    var c := Decimal(false, w, "");
    ThreeDigitsPrint(w);
    ThreeDigitsCanonical(w);
    AnalyseReadsNumber(c, "");
    ParseRender(c);
    assert Canonical(c) == Canonical(d);
    assert Render(c) + "" == w;
  }

  /** `w.0` and `w` both read as the number `w` without a unit. */
  lemma ThreeDigitsRead(w: string)
    requires ThreeDigits(w)
    ensures Analyse(w + ".0") == Some(Number(w, ""))
    ensures Analyse(w) == Some(Number(w, ""))
    ensures !IsZero(ParseDecimal(w))
  {
    ZeroFractionReads(w);
    ThreeDigitsReads(w);
  }

  /** `w` is a hex colour, `w.0` is not. */
  lemma ThreeDigitsAreHex(w: string)
    requires ThreeDigits(w)
    ensures CheckHexValue(w) && !CheckHexValue(w + ".0")
  {
    AllHexMeans(w);
  }

  /** `color` is a colour property that takes no `px`. */
  lemma ColorIsColour()
    ensures "color" in ColorValues && "color" !in UnitValues
  {
  }

  /** A colour property that takes no `px` rewrites the part `w.0`, read as `w`, to `w`. */
  lemma ZeroFractionRewrite(property: string, w: string)
    requires ThreeDigits(w) && property in ColorValues && property !in UnitValues
    ensures OptimiseNumber(property, w + ".0", Number(w, "")).text == w
  {
    ThreeDigitsReads(w);
    ThreeDigitsAreHex(w);
  }

  /** A colour property rewrites the part `w`, read as `w`, to `#w`. */
  lemma HexRewrite(property: string, w: string)
    requires ThreeDigits(w) && property in ColorValues
    ensures OptimiseNumber(property, w, Number(w, "")).text == "#" + w
  {
    ThreeDigitsAreHex(w);
  }

  /**
   * As written, optimising `color: w.0` for a three-digit integer `w`
   * (`100.0`, say) gives `w` (the hex test saw `w.0`), and optimising `w`
   * gives `#w`: a second pass still changes the value.
   */
  lemma ColourTwiceDiffers(w: string)
    requires ThreeDigits(w)
    ensures OptimiseValue("color", w + ".0", false).0 == w
    ensures OptimiseValue("color", w, false).0 == "#" + w
  {
    ThreeDigitsRead(w);
    ColorIsColour();
    ZeroFractionRewrite("color", w);
    HexRewrite("color", w);
    SinglePart("color", w + ".0");
    SinglePart("color", w);
  }

  /** With the correction, `color: w.0` gets its `#` in the first pass. */
  lemma ColourOncePasses(w: string)
    requires ThreeDigits(w)
    ensures OptimiseValue("color", w + ".0", true).0 == "#" + w
  {
    ZeroFractionReads(w);
    ColorIsColour();
    ZeroFractionRewrite("color", w);
    ThreeDigitsAreHex(w);
    var parts := PartsOf("color", w + ".0");
    assert parts == [w + ".0"];
    PartsRewritten("color", parts, true, 0);
  }
}
