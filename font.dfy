/**
 * The `font` shorthand of lib/optimise/Shorthand.php: `dissolveShortFont`,
 * which splits a `font` value into its six longhands, and `mergeFont`, which
 * writes the longhands back as one `font` declaration.
 */
module Fonts {
  import opened Wrappers
  import opened Text
  import opened OrderedMaps
  import opened Elements
  import Scanner
  import opened Tidy

  /** The keys of `Shorthand::$fontPropDefault`, in table order. */
  const FontNames: seq<string> := ["font-style", "font-variant", "font-weight", "font-size", "line-height", "font-family"]

  /** The values of `Shorthand::$fontPropDefault`, in table order. */
  const FontDefaults: seq<string> := ["normal", "normal", "normal", "", "", ""]

  const Style := 0
  const Variant := 1
  const Weight := 2
  const Size := 3
  const LineHeight := 4
  const Family := 5

  const VariantWords: set<string> := {"normal", "small-caps"}
  const StyleWords: set<string> := {"normal", "italic", "oblique"}

  /**
   * The weights `dissolveShortFont` recognises as written: its list holds the
   * numeric weights as integers and is searched strictly, so no token, which
   * is always a string, ever equals one of them.
   */
  const WordWeights: set<string> := {"normal", "bold", "bolder", "lighter"}

  /** The weights the list evidently means: the words and `100` to `900`. */
  const FontWeights: set<string> := WordWeights + {"100", "200", "300", "400", "500", "600", "700", "800", "900"}

  // ------------------------------------------------------ dissolveShortFont

  /** `$return` of `dissolveShortFont`, one slot per longhand; `None` is PHP's `null`. */
  type FontSlots = s: seq<Option<string>> | |s| == 6 witness [None, None, None, None, None, None]

  const NoFontSlots: FontSlots := [None, None, None, None, None, None]

  /**
   * The slots and `$multiwords`. The `$have` flags need no field of their
   * own: a flag is set exactly when its slot is, and `$have['size']` exactly
   * when `line-height` is.
   */
  datatype FontParts = FontParts(slots: FontSlots, multiwords: bool)

  const NoFontParts: FontParts := FontParts(NoFontSlots, false)

  /** A token the size branch takes: its first character is a digit or `.`. */
  predicate SizeLike(t: string) {
    |t| > 0 && (IsDigit(t[0]) || t[0] == '.')
  }

  /** Where one space-separated token before the first comma goes, first rule that applies. */
  function FontToken(weights: set<string>, p: FontParts, t: string): FontParts {
    var s := p.slots;
    if s[Weight].None? && t in weights then p.(slots := s[Weight := Some(t)])
    else if s[Variant].None? && t in VariantWords then p.(slots := s[Variant := Some(t)])
    else if s[Style].None? && t in StyleWords then p.(slots := s[Style := Some(t)])
    else if s[LineHeight].None? && SizeLike(t) then
      var size := Scanner.Exploded('/', Trim(t));
      var s' := s[Size := if |size| > 0 then Some(size[0]) else None];
      p.(slots := s'[LineHeight := Some(if |size| > 1 then size[1] else "")])
    else if s[Family].Some? then FontParts(s[Family := Some(s[Family].value + " " + t)], true)
    else p.(slots := s[Family := Some(t)])
  }

  /** The tokens, in order. */
  function FontTokens(weights: set<string>, p: FontParts, tokens: seq<string>): FontParts
    decreases |tokens|
  {
    if tokens == [] then p
    else FontToken(weights, FontTokens(weights, p, tokens[..|tokens| - 1]), tokens[|tokens| - 1])
  }

  /** The family after the words before the first comma: quoted when it has several words. */
  function QuotedFamily(p: FontParts): Option<string> {
    if p.multiwords then Some("\"" + p.slots[Family].GetOr("") + "\"") else p.slots[Family]
  }

  /** The families after the first comma, each trimmed and appended after a comma. */
  function JoinFamilies(family: Option<string>, rest: seq<string>): Option<string>
    decreases |rest|
  {
    if rest == [] then family
    else Some(JoinFamilies(family, rest[..|rest| - 1]).GetOr("") + "," + Trim(rest[|rest| - 1]))
  }

  /** One finished longhand: its slot, or its default, then the importance. */
  function FontEntry(s: FontSlots, q: nat, important: string): (string, string)
    requires q < 6
  {
    (FontNames[q], s[q].GetOr(FontDefaults[q]) + important)
  }

  /**
   * Whether the numeric-weight fix applies: no size was found and the weight
   * starts with a digit, so the weight is taken as the size.
   */
  predicate WeightIsSize(s: FontSlots) {
    s[LineHeight].None? && s[Weight].Some? && |s[Weight].value| > 0 && IsDigit(s[Weight].value[0])
  }

  /**
   * The defaults loop. When the fix applies, `font-weight` was unset before
   * the loop and so comes back last, with its default.
   */
  function FinishedFont(s: FontSlots, important: string): (r: seq<(string, string)>)
    ensures |r| == 6
  {
    if WeightIsSize(s) then
      [FontEntry(s, Style, important), FontEntry(s, Variant, important),
       ("font-size", s[Weight].value + important), FontEntry(s, LineHeight, important),
       FontEntry(s, Family, important), ("font-weight", "normal" + important)]
    else
      [FontEntry(s, Style, important), FontEntry(s, Variant, important), FontEntry(s, Weight, important),
       FontEntry(s, Size, important), FontEntry(s, LineHeight, important), FontEntry(s, Family, important)]
  }

  /** The words before the first comma, and the families after it. */
  function FontGroups(v: string): (seq<string>, seq<string>) {
    var families := Scanner.Exploded(',', Trim(v));
    if families == [] then ([], []) else (Scanner.Exploded(' ', Trim(families[0])), families[1..])
  }

  /** The slots once the words are placed and the families joined. */
  function SlotsOfGroups(weights: set<string>, groups: (seq<string>, seq<string>)): FontSlots {
    var p := FontTokens(weights, NoFontParts, groups.0);
    p.slots[Family := JoinFamilies(QuotedFamily(p), groups.1)]
  }

  function FontSlotsOf(weights: set<string>, v: string): FontSlots {
    SlotsOfGroups(weights, FontGroups(v))
  }

  /** `dissolveShortFont` with the given weight list. */
  function DissolvedFontWith(weights: set<string>, value: string): (r: seq<(string, string)>)
    ensures |r| == 6
  {
    FinishedFont(FontSlotsOf(weights, RemoveImportant(value)), FontImportance(value))
  }

  /** The suffix every longhand of an important `font` gets, with no space before it. */
  function FontImportance(value: string): string {
    if IsImportant(value) then Important else ""
  }

  /** `dissolveShortFont` as written: numeric weights are never recognised. */
  function DissolvedFontAsWritten(value: string): (r: seq<(string, string)>)
    ensures |r| == 6
  {
    DissolvedFontWith(WordWeights, value)
  }

  /** `dissolveShortFont` as intended: numeric weights are weights. */
  function DissolvedFont(value: string): (r: seq<(string, string)>)
    ensures |r| == 6
  {
    DissolvedFontWith(FontWeights, value)
  }

  /** The body of the token loop of `dissolveShortFont`. */
  method PlaceFontToken(p: FontParts, t: string) returns (r: FontParts)
    ensures r == FontToken(WordWeights, p, t)
  {
    var s := p.slots;
    r := p;
    if s[Weight].None? && t in WordWeights {
      r := p.(slots := s[Weight := Some(t)]);
    } else if s[Variant].None? && t in VariantWords {
      r := p.(slots := s[Variant := Some(t)]);
    } else if s[Style].None? && t in StyleWords {
      r := p.(slots := s[Style := Some(t)]);
    } else if s[LineHeight].None? && SizeLike(t) {
      var size := Scanner.ExplodeWithoutString('/', Trim(t));
      s := s[Size := if |size| > 0 then Some(size[0]) else None];
      if |size| > 1 {
        s := s[LineHeight := Some(size[1])];
      } else {
        s := s[LineHeight := Some("")];
      }
      r := p.(slots := s);
    } else if s[Family].Some? {
      r := FontParts(s[Family := Some(s[Family].value + " " + t)], true);
    } else {
      r := p.(slots := s[Family := Some(t)]);
    }
  }

  /** The words before the first comma, then the quoting and the other families. */
  method CollectFontSlots(v: string) returns (s: FontSlots)
    ensures s == FontSlotsOf(WordWeights, v)
  {
    var beforeColon, rest := SplitFamilies(v);
    var p := PlaceFontTokens(beforeColon);
    var family := p.slots[Family];
    if p.multiwords {
      family := Some("\"" + p.slots[Family].GetOr("") + "\"");
    }
    family := AppendFamilies(family, rest);
    s := p.slots[Family := family];
  }

  /** The families split on commas; the first one split again on spaces. */
  method SplitFamilies(v: string) returns (beforeColon: seq<string>, rest: seq<string>)
    ensures (beforeColon, rest) == FontGroups(v)
  {
    var families := Scanner.ExplodeWithoutString(',', Trim(v));
    beforeColon := [];
    rest := [];
    if families != [] {
      beforeColon := Scanner.ExplodeWithoutString(' ', Trim(families[0]));
      rest := families[1..];
    }
  }

  /** The token loop of `dissolveShortFont`. */
  method PlaceFontTokens(tokens: seq<string>) returns (p: FontParts)
    ensures p == FontTokens(WordWeights, NoFontParts, tokens)
  {
    p := NoFontParts;
    for i := 0 to |tokens|
      invariant p == FontTokens(WordWeights, NoFontParts, tokens[..i])
    {
      assert tokens[..i + 1][..i] == tokens[..i];
      p := PlaceFontToken(p, tokens[i]);
    }
    assert tokens[..|tokens|] == tokens;
  }

  /** The loop appending the other families, each trimmed, after a comma. */
  method AppendFamilies(family: Option<string>, rest: seq<string>) returns (r: Option<string>)
    ensures r == JoinFamilies(family, rest)
  {
    r := family;
    for i := 0 to |rest|
      invariant r == JoinFamilies(family, rest[..i])
    {
      assert rest[..i + 1][..i] == rest[..i];
      r := Some(r.GetOr("") + "," + Trim(rest[i]));
    }
    assert rest[..|rest|] == rest;
  }

  /** `dissolveShortFont` as written: the numeric weights of its list are never matched. */
  method DissolveShortFont(value: string) returns (r: seq<(string, string)>)
    ensures r == DissolvedFontAsWritten(value)
  {
    var important := "";
    var v := value;
    if IsImportant(v) {
      important := Important;
      v := RemoveImportant(v);
    }
    var s := CollectFontSlots(v);
    r := FinishedFont(s, important);
  }

  /** The finished longhands name each of the six exactly once. */
  lemma FinishedFontNames(s: FontSlots, important: string)
    ensures forall j, k :: 0 <= j < k < 6 ==> FinishedFont(s, important)[j].0 != FinishedFont(s, important)[k].0
    ensures forall q :: 0 <= q < 6 ==> exists j :: 0 <= j < 6 && FinishedFont(s, important)[j].0 == FontNames[q]
  {
    var r := FinishedFont(s, important);
    if WeightIsSize(s) {
      assert r[0].0 == FontNames[0] && r[1].0 == FontNames[1] && r[2].0 == FontNames[3];
      assert r[3].0 == FontNames[4] && r[4].0 == FontNames[5] && r[5].0 == FontNames[2];
    } else {
      assert forall q :: 0 <= q < 6 ==> r[q].0 == FontNames[q];
    }
  }

  /** Every finished longhand ends with the importance suffix. */
  lemma FinishedFontSuffix(s: FontSlots, important: string, j: nat)
    requires j < 6
    ensures var t := FinishedFont(s, important)[j].1; |t| >= |important| && t[|t| - |important|..] == important
  {
    var t := FinishedFont(s, important)[j].1;
    var body: string;
    if WeightIsSize(s) {
      if j == 2 { body := s[Weight].value; }
      else if j == 5 { body := "normal"; }
      else if j < 2 { body := s[j].GetOr(FontDefaults[j]); }
      else { body := s[j + 1].GetOr(FontDefaults[j + 1]); }
    } else {
      body := s[j].GetOr(FontDefaults[j]);
    }
    assert t == body + important;
  }

  /** The result names each of the six longhands exactly once. */
  lemma DissolvedFontNames(weights: set<string>, value: string)
    ensures forall j, k :: 0 <= j < k < 6 ==> DissolvedFontWith(weights, value)[j].0 != DissolvedFontWith(weights, value)[k].0
    ensures forall q :: 0 <= q < 6 ==> exists j :: 0 <= j < 6 && DissolvedFontWith(weights, value)[j].0 == FontNames[q]
    ensures forall j :: 0 <= j < 6 ==> DissolvedFontWith(weights, value)[j].0 != "font"
  {
    var s := FontSlotsOf(weights, RemoveImportant(value));
    assert DissolvedFontWith(weights, value) == FinishedFont(s, FontImportance(value));
    FinishedFontNames(s, FontImportance(value));
    FinishedFontNotFont(s, FontImportance(value));
  }

  /** No finished longhand is named `font`. */
  lemma FinishedFontNotFont(s: FontSlots, important: string)
    ensures forall j :: 0 <= j < 6 ==> FinishedFont(s, important)[j].0 != "font"
  {
  }

  /** Every longhand finished with `!important` ends in it and is important. */
  lemma FinishedFontImportant(s: FontSlots, j: nat)
    requires j < 6
    ensures var t := FinishedFont(s, Important)[j].1; |t| >= 10 && t[|t| - 10..] == Important && IsImportant(t)
  {
    FinishedFontSuffix(s, Important, j);
    EndsImportant(FinishedFont(s, Important)[j].1);
  }

  /** An important `font` makes every longhand important. */
  lemma DissolvedFontImportant(weights: set<string>, value: string, j: nat)
    requires j < 6 && IsImportant(value)
    ensures IsImportant(DissolvedFontWith(weights, value)[j].1)
  {
    var s := FontSlotsOf(weights, RemoveImportant(value));
    assert FontImportance(value) == Important;
    FinishedFontImportant(s, j);
  }

  /** The weight slot only ever holds a word of the weight list. */
  lemma {:induction false} WeightFromList(weights: set<string>, tokens: seq<string>)
    ensures var w := FontTokens(weights, NoFontParts, tokens).slots[Weight]; w.None? || w.value in weights
    decreases |tokens|
  {
    if tokens != [] {
      WeightFromList(weights, tokens[..|tokens| - 1]);
    }
  }

  /** A weight from the word list is never taken for a size, and is written as it is. */
  lemma FinishedWordWeight(s: FontSlots, important: string)
    requires s[Weight].None? || s[Weight].value in WordWeights
    ensures !WeightIsSize(s)
    ensures FinishedFont(s, important)[Weight] == ("font-weight", s[Weight].GetOr("normal") + important)
  {
    if s[Weight].Some? {
      var w := s[Weight].value;
      assert w == "normal" || w == "bold" || w == "bolder" || w == "lighter";
      assert !IsDigit(w[0]);
    }
  }

  /**
   * As written, the numeric-weight fix never applies, and `font-weight` is
   * always a word of the list or the default `normal`.
   */
  lemma WrittenWeightIsWord(value: string)
    ensures !WeightIsSize(FontSlotsOf(WordWeights, RemoveImportant(value)))
    ensures exists w :: (w in WordWeights || w == "normal") && DissolvedFontAsWritten(value)[Weight] == ("font-weight", w + FontImportance(value))
  {
    var v := RemoveImportant(value);
    var families := Scanner.Exploded(',', Trim(v));
    var before := if families == [] then [] else Scanner.Exploded(' ', Trim(families[0]));
    WeightFromList(WordWeights, before);
    var p := FontTokens(WordWeights, NoFontParts, before);
    var s := FontSlotsOf(WordWeights, v);
    assert s == p.slots[Family := JoinFamilies(QuotedFamily(p), if families == [] then [] else families[1..])];
    assert s[Weight] == p.slots[Weight];
    assert DissolvedFontAsWritten(value) == FinishedFont(s, FontImportance(value));
    FinishedWordWeight(s, FontImportance(value));
    var w := s[Weight].GetOr("normal");
    assert w in WordWeights || w == "normal";
  }

  /**
   * As written, `font: 700 12px Arial` takes `700` for the size and
   * `12px Arial` for one quoted family, and leaves the weight `normal`.
   */
  lemma WrittenMisreadsWeight(a: string, b: string, c: string)
    requires a == "700" && b == "12px" && c == "Arial"
    ensures DissolvedFontAsWritten(a + " " + b + " " + c) ==
      [("font-style", "normal"), ("font-variant", "normal"), ("font-weight", "normal"),
       ("font-size", a), ("line-height", ""), ("font-family", "\"" + (b + " " + c) + "\"")]
  {
    NumericWeightAsWritten(a, b, c);
  }

  /** The same value as intended: weight `700`, size `12px`, family `Arial`. */
  lemma IntendedReadsWeight(a: string, b: string, c: string)
    requires a == "700" && b == "12px" && c == "Arial"
    ensures DissolvedFont(a + " " + b + " " + c) ==
      [("font-style", "normal"), ("font-variant", "normal"), ("font-weight", a),
       ("font-size", b), ("line-height", ""), ("font-family", c)]
  {
    NumericWeightIntended(a, b, c);
  }

  /** Three plain words that no keyword rule takes, the first two starting like a size. */
  predicate WeightSizeFamily(a: string, b: string, c: string) {
    a != "" && b != "" && c != ""
    && (forall i :: 0 <= i < |a| ==> PlainChar(a[i]))
    && (forall i :: 0 <= i < |b| ==> PlainChar(b[i]))
    && (forall i :: 0 <= i < |c| ==> PlainChar(c[i]))
    && a !in WordWeights && a !in VariantWords && a !in StyleWords && SizeLike(a)
    && b !in FontWeights && b !in VariantWords && b !in StyleWords && SizeLike(b)
    && c !in FontWeights && c !in VariantWords && c !in StyleWords && !SizeLike(c)
  }

  /** As written, a numeric weight before a size is read as the size, and what follows as one family. */
  lemma NumericWeightAsWritten(a: string, b: string, c: string)
    requires WeightSizeFamily(a, b, c)
    ensures DissolvedFontAsWritten(a + " " + b + " " + c) ==
      [("font-style", "normal"), ("font-variant", "normal"), ("font-weight", "normal"),
       ("font-size", a), ("line-height", ""), ("font-family", "\"" + (b + " " + c) + "\"")]
  {
    var p1 := SizeStep(WordWeights, NoFontParts, a);
    var p2 := FamilyStep(WordWeights, p1, b);
    var p3 := FamilyStep(WordWeights, p2, c);
    ThreeTokens(WordWeights, NoFontParts, a, b, c);
    SizeThenFamily(a, b, c);
    var v := a + " " + b + " " + c;
    PlainPhrase(a, b, c);
    PhraseGroups(v, a, b, c);
    PhraseDissolves(WordWeights, v, a, b, c);
  }

  /** The slots of a size followed by a two-word family, finished. */
  lemma SizeThenFamily(a: string, b: string, c: string)
    requires FontTokens(WordWeights, NoFontParts, [a, b, c])
      == FontParts(NoFontSlots[Size := Some(a)][LineHeight := Some("")][Family := Some(b + " " + c)], true)
    ensures FinishedFont(SlotsOfGroups(WordWeights, ([a, b, c], [])), "") ==
      [("font-style", "normal"), ("font-variant", "normal"), ("font-weight", "normal"),
       ("font-size", a), ("line-height", ""), ("font-family", "\"" + (b + " " + c) + "\"")]
  {
    var s := NoFontSlots[Size := Some(a)][LineHeight := Some("")][Family := Some("\"" + (b + " " + c) + "\"")];
    assert SlotsOfGroups(WordWeights, ([a, b, c], [])) == s;
    assert !WeightIsSize(s);
    FinishedPlain(s);
  }

  /** Finishing without importance fills each empty slot with its default. */
  lemma FinishedPlain(s: FontSlots)
    requires !WeightIsSize(s)
    ensures FinishedFont(s, "") == seq(6, q requires 0 <= q < 6 => (FontNames[q], s[q].GetOr(FontDefaults[q])))
  {
    forall q | 0 <= q < 6
      ensures FontEntry(s, q, "") == (FontNames[q], s[q].GetOr(FontDefaults[q]))
    {
      assert s[q].GetOr(FontDefaults[q]) + "" == s[q].GetOr(FontDefaults[q]);
    }
  }

  /** As intended, the numeric weight is the weight, and the size and family are read as such. */
  lemma NumericWeightIntended(a: string, b: string, c: string)
    requires WeightSizeFamily(a, b, c) && a in FontWeights
    ensures DissolvedFont(a + " " + b + " " + c) ==
      [("font-style", "normal"), ("font-variant", "normal"), ("font-weight", a),
       ("font-size", b), ("line-height", ""), ("font-family", c)]
  {
    var p1 := NoFontParts.(slots := NoFontSlots[Weight := Some(a)]);
    assert FontToken(FontWeights, NoFontParts, a) == p1;
    var p2 := SizeStep(FontWeights, p1, b);
    var p3 := FamilyStep(FontWeights, p2, c);
    ThreeTokens(FontWeights, NoFontParts, a, b, c);
    WeightSizeThenFamily(a, b, c);
    var v := a + " " + b + " " + c;
    PlainPhrase(a, b, c);
    PhraseGroups(v, a, b, c);
    PhraseDissolves(FontWeights, v, a, b, c);
  }

  /** The slots of a weight, a size and a one-word family, finished. */
  lemma WeightSizeThenFamily(a: string, b: string, c: string)
    requires FontTokens(FontWeights, NoFontParts, [a, b, c])
      == FontParts(NoFontSlots[Weight := Some(a)][Size := Some(b)][LineHeight := Some("")][Family := Some(c)], false)
    ensures FinishedFont(SlotsOfGroups(FontWeights, ([a, b, c], [])), "") ==
      [("font-style", "normal"), ("font-variant", "normal"), ("font-weight", a),
       ("font-size", b), ("line-height", ""), ("font-family", c)]
  {
    var s := NoFontSlots[Weight := Some(a)][Size := Some(b)][LineHeight := Some("")][Family := Some(c)];
    assert SlotsOfGroups(FontWeights, ([a, b, c], [])) == s;
    assert !WeightIsSize(s);
    FinishedPlain(s);
  }

  /** A value that trims to itself, has no comma and splits into three words is one group of them. */
  lemma PhraseGroups(v: string, a: string, b: string, c: string)
    requires Trim(v) == v && Scanner.Exploded(',', v) == [v] && Scanner.Exploded(' ', v) == [a, b, c]
    ensures FontGroups(v) == ([a, b, c], [])
  {
    var families := Scanner.Exploded(',', Trim(v));
    assert families == [v] && families[0] == v && families[1..] == [];
  }

  /** An unimportant value grouped as three words dissolves as those three tokens. */
  lemma PhraseDissolves(weights: set<string>, v: string, a: string, b: string, c: string)
    requires FontGroups(v) == ([a, b, c], []) && RemoveImportant(v) == v && !IsImportant(v)
    ensures DissolvedFontWith(weights, v) == FinishedFont(SlotsOfGroups(weights, ([a, b, c], [])), "")
  {
  }

  /** A character that neither splits, opens, escapes, trims nor marks importance. */
  predicate PlainChar(ch: char) {
    ch !in TrimChars && ch != ',' && ch != '/' && ch != '!' && ch != '"' && ch != '\'' && ch != '(' && ch != '\\'
  }

  /** Three plain words joined by single spaces: one family group of three words. */
  lemma PlainPhrase(a: string, b: string, c: string)
    requires a != "" && b != "" && c != ""
    requires forall i :: 0 <= i < |a| ==> PlainChar(a[i])
    requires forall i :: 0 <= i < |b| ==> PlainChar(b[i])
    requires forall i :: 0 <= i < |c| ==> PlainChar(c[i])
    ensures var v := a + " " + b + " " + c;
      !IsImportant(v) && RemoveImportant(v) == v && Trim(v) == v && Scanner.Exploded(',', v) == [v] && Scanner.Exploded(' ', v) == [a, b, c]
  {
    var v := a + " " + b + " " + c;
    assert forall i :: 0 <= i < |v| ==> v[i] == ' ' || PlainChar(v[i]);
    NoBangNotImportant(v);
    TrimKeeps(v, TrimChars);
    Scanner.ExplodedWithoutSeparator(',', v);
    Scanner.ExplodedPlain(' ', v);
    Scanner.PlainConcat(' ', a + [' '] + b, c);
    Scanner.PlainConcat(' ', a, b);
    Scanner.PlainWord(' ', a);
    Scanner.PlainWord(' ', b);
    Scanner.PlainWord(' ', c);
  }

  /** Three tokens, in order. */
  lemma ThreeTokens(weights: set<string>, p: FontParts, a: string, b: string, c: string)
    ensures FontTokens(weights, p, [a, b, c]) == FontToken(weights, FontToken(weights, FontToken(weights, p, a), b), c)
  {
    assert [a, b, c][..2] == [a, b] && [a, b][..1] == [a] && [a][..0] == [];
    assert FontTokens(weights, p, [a]) == FontToken(weights, p, a);
    assert FontTokens(weights, p, [a, b]) == FontToken(weights, FontToken(weights, p, a), b);
  }

  /** A plain token that is no keyword and comes before any size is the size. */
  lemma SizeStep(weights: set<string>, p: FontParts, t: string) returns (r: FontParts)
    requires p.slots[Weight].Some? || t !in weights
    requires p.slots[Variant].Some? || t !in VariantWords
    requires p.slots[Style].Some? || t !in StyleWords
    requires p.slots[LineHeight].None? && SizeLike(t)
    requires forall i :: 0 <= i < |t| ==> PlainChar(t[i])
    ensures r == FontToken(weights, p, t)
    ensures r == p.(slots := p.slots[Size := Some(t)][LineHeight := Some("")])
  {
    TrimKeeps(t, TrimChars);
    Scanner.ExplodedWithoutSeparator('/', t);
    r := FontToken(weights, p, t);
  }

  /** A token that no other rule takes joins the family. */
  lemma FamilyStep(weights: set<string>, p: FontParts, t: string) returns (r: FontParts)
    requires p.slots[Weight].Some? || t !in weights
    requires p.slots[Variant].Some? || t !in VariantWords
    requires p.slots[Style].Some? || t !in StyleWords
    requires p.slots[LineHeight].Some? || !SizeLike(t)
    ensures r == FontToken(weights, p, t)
    ensures r == if p.slots[Family].Some? then FontParts(p.slots[Family := Some(p.slots[Family].value + " " + t)], true)
      else p.(slots := p.slots[Family := Some(t)])
  {
    r := FontToken(weights, p, t);
  }

  // ------------------------------------------------------ mergeFont

  /** The merged text so far, the importance seen so far, and `$preserveFontVariant`. */
  datatype FontMerging = FontMerging(text: string, important: string, preserveVariant: bool)

  /** Whether longhand `q` holds a value `mergeFont` writes into `font`. */
  predicate Written(m: Props, q: nat)
    requires q < 6
  {
    Value(m, FontNames[q]).Some? && Value(m, FontNames[q]).value != FontDefaults[q]
      && (q != Variant || Value(m, FontNames[q]).value == "small-caps")
  }

  /** `/` joins the size to a non-empty line height; a space follows any other value. */
  function Separator(m: Props, q: nat): string {
    if q == Size && Value(m, "line-height").Some? && Value(m, "line-height").value != "" then "/" else " "
  }

  /** The body of the longhand loop of `mergeFont`. */
  function MergeFontLonghand(m: Props, q: nat, acc: FontMerging): FontMerging
    requires q < 6
  {
    match Value(m, FontNames[q])
    case None => acc
    case Some(current) =>
      if current == FontDefaults[q] then acc
      else if q == Variant && current != "small-caps" then acc.(preserveVariant := true)
      else
        var important := if IsImportant(current) then Important else acc.important;
        var v := if IsImportant(current) then RemoveImportant(current) else current;
        FontMerging(acc.text + v + Separator(m, q), important, acc.preserveVariant)
  }

  /** The first `k` longhands. */
  function MergeFontRow(m: Props, k: nat): FontMerging
    requires k <= 6
  {
    if k == 0 then FontMerging("", "", false) else MergeFontLonghand(m, k - 1, MergeFontRow(m, k - 1))
  }

  /** The longhands `mergeFont` deletes: all six, or all but a preserved `font-variant`. */
  function DroppedFontNames(preserveVariant: bool): seq<string> {
    if preserveVariant then [FontNames[Style], FontNames[Weight], FontNames[Size], FontNames[LineHeight], FontNames[Family]]
    else FontNames
  }

  /** `mergeFont`, as the new declarations of the block. */
  function MergedFont(m: Props): Props {
    if Value(m, "font-size").None? then m else MergedFontOf(m, MergeFontRow(m, 6))
  }

  /** What `mergeFont` does once the longhands are read: nothing when the text is blank. */
  function MergedFontOf(m: Props, a: FontMerging): Props {
    var t := Trim(a.text);
    if t == "" then m
    else Put(RemoveKeys(m, DroppedFontNames(a.preserveVariant)), Name("font"), Decl(t + a.important))
  }

  /** One longhand makes the merged value important exactly when it is written and important. */
  lemma LonghandImportance(m: Props, q: nat, acc: FontMerging)
    requires q < 6
    ensures MergeFontLonghand(m, q, acc).important ==
      if Written(m, q) && IsImportant(Value(m, FontNames[q]).value) then Important else acc.important
  {
  }

  /** The merged value is important exactly when some written longhand is. */
  lemma {:induction false} MergeFontRowImportant(m: Props, k: nat)
    requires k <= 6
    ensures MergeFontRow(m, k).important == Important || MergeFontRow(m, k).important == ""
    ensures MergeFontRow(m, k).important == Important <==>
      exists q :: 0 <= q < k && Written(m, q) && IsImportant(Value(m, FontNames[q]).value)
  {
    if k > 0 {
      MergeFontRowImportant(m, k - 1);
      LonghandImportance(m, k - 1, MergeFontRow(m, k - 1));
    }
  }

  /** `font-variant` is kept exactly when it holds a value other than its default and `small-caps`. */
  lemma {:induction false} MergeFontRowPreserves(m: Props, k: nat)
    requires k <= 6
    ensures MergeFontRow(m, k).preserveVariant <==>
      k > Variant && Value(m, "font-variant").Some? && Value(m, "font-variant").value !in VariantWords
  {
    if k > 0 {
      MergeFontRowPreserves(m, k - 1);
    }
  }

  /** Without `font-size` nothing is merged. */
  lemma FontNeedsSize(m: Props)
    requires Value(m, "font-size").None?
    ensures MergedFont(m) == m
  {
  }

  lemma FontNamesDistinct()
    ensures forall q :: 0 <= q < 6 ==> FontNames[q] != "font"
    ensures forall j, k :: 0 <= j < k < 6 ==> FontNames[j] != FontNames[k]
  {
  }

  /** The merged `font` holds the trimmed text and the importance. */
  lemma FontOfValue(m: Props, a: FontMerging)
    requires Trim(a.text) != "" && (a.important == Important || a.important == "")
    ensures Has(MergedFontOf(m, a), Name("font"))
    ensures Get(MergedFontOf(m, a), Name("font")) == Decl(Trim(a.text) + a.important)
    ensures a.important == Important ==> IsImportant(Get(MergedFontOf(m, a), Name("font")).value)
  {
    var t := Trim(a.text);
    PutGet(RemoveKeys(m, DroppedFontNames(a.preserveVariant)), Name("font"), Decl(t + a.important));
    if a.important == Important {
      SuffixedIsImportant(t);
    }
  }

  /** After merging, longhand `q` is left only when it is a preserved `font-variant`. */
  lemma FontOfLonghand(m: Props, a: FontMerging, q: nat)
    requires DistinctKeys(m) && q < 6 && Trim(a.text) != ""
    ensures Has(MergedFontOf(m, a), Name(FontNames[q])) <==> q == Variant && a.preserveVariant && Has(m, Name("font-variant"))
  {
    var names := DroppedFontNames(a.preserveVariant);
    var cleared := RemoveKeys(m, names);
    FontNamesDistinct();
    PutOther(cleared, Name("font"), Decl(Trim(a.text) + a.important), Name(FontNames[q]));
    if q == Variant && a.preserveVariant {
      forall i | 0 <= i < |names|
        ensures Name(names[i]) != Name(FontNames[q])
      {
        DroppedIsLonghand(a.preserveVariant, i);
      }
      RemoveKeysOther(m, names, Name(FontNames[q]));
    } else {
      var i := if !a.preserveVariant || q < Variant then q else q - 1;
      DroppedIsLonghand(a.preserveVariant, i);
      RemoveKeysGone(m, names, i);
    }
  }

  /** How many dropped names come before longhand `q`. */
  function DroppedBefore(preserveVariant: bool, q: nat): (r: nat)
    requires q <= 6
    ensures r <= |DroppedFontNames(preserveVariant)|
  {
    if preserveVariant && q > Variant then q - 1 else q
  }

  /** The `i`-th dropped name is a longhand: the same one, or the next when `font-variant` is kept. */
  lemma DroppedIsLonghand(preserveVariant: bool, i: nat)
    requires i < |DroppedFontNames(preserveVariant)|
    ensures var q := if preserveVariant && i >= Variant then i + 1 else i;
      q < 6 && DroppedFontNames(preserveVariant)[i] == FontNames[q]
  {
  }

  /** One turn of the deletion loop of `mergeFont`: longhand `q` goes unless it is the preserved `font-variant`. */
  lemma DroppedStep(m: Props, preserveVariant: bool, q: nat)
    requires q < 6
    ensures var names := DroppedFontNames(preserveVariant);
      var before := RemoveKeys(m, names[..DroppedBefore(preserveVariant, q)]);
      RemoveKeys(m, names[..DroppedBefore(preserveVariant, q + 1)]) ==
        if q == Variant && preserveVariant then before else Remove(before, Name(FontNames[q]))
  {
    var names := DroppedFontNames(preserveVariant);
    var j := DroppedBefore(preserveVariant, q);
    if !(q == Variant && preserveVariant) {
      DroppedIsLonghand(preserveVariant, j);
      assert DroppedBefore(preserveVariant, q + 1) == j + 1;
      RemoveKeysStep(m, names, j);
    } else {
      assert DroppedBefore(preserveVariant, q + 1) == j;
    }
  }

  /** Merging leaves every key other than `font` and its longhands alone. */
  lemma FontOfOthers(m: Props, a: FontMerging, k: Key)
    requires DistinctKeys(m) && k != Name("font") && forall q :: 0 <= q < 6 ==> k != Name(FontNames[q])
    ensures Has(MergedFontOf(m, a), k) <==> Has(m, k)
    ensures Has(m, k) ==> Get(MergedFontOf(m, a), k) == Get(m, k)
  {
    if Trim(a.text) != "" {
      var names := DroppedFontNames(a.preserveVariant);
      var cleared := RemoveKeys(m, names);
      forall i | 0 <= i < |names|
        ensures Name(names[i]) != k
      {
        DroppedIsLonghand(a.preserveVariant, i);
      }
      RemoveKeysOther(m, names, k);
      PutOther(cleared, Name("font"), Decl(Trim(a.text) + a.important), k);
    }
  }

  /**
   * Once merged, `font` holds the written longhands with their importance,
   * and every longhand is gone except a `font-variant` that `font` cannot hold.
   */
  lemma MergedFontWrites(m: Props, q: nat)
    requires DistinctKeys(m) && q < 6
    requires Value(m, "font-size").Some? && Trim(MergeFontRow(m, 6).text) != ""
    ensures Has(MergedFont(m), Name("font"))
    ensures var important := exists q :: 0 <= q < 6 && Written(m, q) && IsImportant(Value(m, FontNames[q]).value);
      Get(MergedFont(m), Name("font")) == Decl(Trim(MergeFontRow(m, 6).text) + if important then Important else "")
    ensures (exists q :: 0 <= q < 6 && Written(m, q) && IsImportant(Value(m, FontNames[q]).value)) ==>
      IsImportant(Get(MergedFont(m), Name("font")).value)
    ensures Has(MergedFont(m), Name(FontNames[q])) <==>
      q == Variant && Value(m, "font-variant").Some? && Value(m, "font-variant").value !in VariantWords
  {
    var a := MergeFontRow(m, 6);
    assert MergedFont(m) == MergedFontOf(m, a);
    MergeFontRowImportant(m, 6);
    MergeFontRowPreserves(m, 6);
    FontOfValue(m, a);
    FontOfLonghand(m, a, q);
  }

  /** Declarations other than `font` and its longhands are untouched. */
  lemma MergedFontKeepsOthers(m: Props, k: Key)
    requires DistinctKeys(m) && k != Name("font") && forall q :: 0 <= q < 6 ==> k != Name(FontNames[q])
    ensures Has(MergedFont(m), k) <==> Has(m, k)
    ensures Has(m, k) ==> Get(MergedFont(m), k) == Get(m, k)
  {
    if Value(m, "font-size").Some? {
      FontOfOthers(m, MergeFontRow(m, 6), k);
    }
  }
}
