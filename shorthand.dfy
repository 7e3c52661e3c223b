/**
 * lib/optimise/Shorthand.php: collapsing and merging shorthand properties.
 * Four-value box shorthands follow the tie-break of section 8.3 of CSS 2.1
 * (one value for all sides, two for top/bottom and left/right, three when
 * left equals right); two-value shorthands merge when both halves agree on
 * importance; `background` and `font` are dissolved into longhands and
 * merged back (the `font` shorthand of section 3.7 of CSS Fonts Module
 * Level 3).
 */
module Shorthands {
  import opened Wrappers
  import opened Text
  import opened OrderedMaps
  import opened Elements
  import Scanner
  import opened Tidy
  import opened Backgrounds
  import opened Fonts

  /** `Shorthand::$shorthands`: each box shorthand with its top, right, bottom and left longhands. */
  const FourValue: seq<(string, seq<string>)> := [
    ("border-color", ["border-top-color", "border-right-color", "border-bottom-color", "border-left-color"]),
    ("border-style", ["border-top-style", "border-right-style", "border-bottom-style", "border-left-style"]),
    ("border-width", ["border-top-width", "border-right-width", "border-bottom-width", "border-left-width"]),
    ("margin", ["margin-top", "margin-right", "margin-bottom", "margin-left"]),
    ("padding", ["padding-top", "padding-right", "padding-bottom", "padding-left"]),
    ("border-radius", ["border-radius-top-left", "border-radius-top-right", "border-radius-bottom-right", "border-radius-bottom-left"])]

  /** `Shorthand::$twoValuesShorthand` */
  const TwoValue: seq<(string, string, string)> := [
    ("overflow", "overflow-x", "overflow-y"),
    ("pause", "pause-before", "pause-after"),
    ("rest", "rest-before", "rest-after"),
    ("cue", "cue-before", "cue-after")]

  /** `!important` as `compressShorthandValues` appends it. */
  function ImportantText(important: bool): string {
    if important then Important else ""
  }

  // ------------------------------------------------ compressShorthandValues

  /** The four sides a list of one to four values stands for (section 8.3 of CSS 2.1). */
  function Sides(t: seq<string>): (r: seq<string>)
    requires 1 <= |t| <= 4
    ensures |r| == 4
  {
    if |t| == 1 then [t[0], t[0], t[0], t[0]]
    else if |t| == 2 then [t[0], t[1], t[0], t[1]]
    else if |t| == 3 then [t[0], t[1], t[2], t[1]]
    else t
  }

  /** The `switch` of `compressShorthandValues`: the shorter list it returns, or None when it falls through. */
  function Collapsed(values: seq<string>): (r: Option<seq<string>>)
    ensures r.Some? ==> 1 <= |r.value| < |values| <= 4
  {
    if |values| == 4 then
      if values[0] == values[1] && values[0] == values[2] && values[0] == values[3] then Some([values[0]])
      else if values[1] == values[3] && values[0] == values[2] then Some(values[..2])
      else if values[1] == values[3] then Some(values[..3])
      else None
    else if |values| == 3 then
      if values[0] == values[1] && values[0] == values[2] then Some([values[0]])
      else if values[0] == values[2] then Some(values[..2])
      else None
    else if |values| == 2 then
      if values[0] == values[1] then Some([values[0]]) else None
    else None
  }

  /** The values `compressShorthandValues` writes out. */
  function Tokens(values: seq<string>): seq<string> {
    Collapsed(values).GetOr(values)
  }

  /** Collapsing never changes what the four sides are. */
  lemma TokensKeepSides(values: seq<string>)
    requires 1 <= |values| <= 4
    ensures 1 <= |Tokens(values)| <= 4 && Sides(Tokens(values)) == Sides(values)
  {
  }

  /** No shorter list stands for the same four sides: the tie-break picks the fewest values. */
  lemma TokensFewest(values: seq<string>, t: seq<string>)
    requires 1 <= |values| <= 4 && 1 <= |t| < |Tokens(values)|
    ensures Sides(t) != Sides(values)
  {
  }

  /** `compressShorthandValues` as written: a list that does not collapse loses its `!important`. */
  function CompressShorthandValuesAsWritten(values: seq<string>, important: bool): string {
    match Collapsed(values)
    case Some(t) => Join(" ", t) + ImportantText(important)
    case None => Join(" ", values)
  }

  /** A single important value, which takes none of the `case` branches. */
  lemma SingleValueLosesImportant()
    ensures CompressShorthandValuesAsWritten(["1px"], true) == "1px"
    ensures CompressShorthandValues(["1px"], true) == "1px" + Important
  {
  }

  /** `compressShorthandValues` with the suffix on every path, as the collapsing paths have it. */
  function CompressShorthandValues(values: seq<string>, important: bool): string {
    Join(" ", Tokens(values)) + ImportantText(important)
  }

  /** An important input stays important. */
  lemma CompressKeepsImportant(values: seq<string>)
    ensures IsImportant(CompressShorthandValues(values, true))
  {
    SuffixedIsImportant(Join(" ", Tokens(values)));
  }

  /** Both agree wherever the source collapses. */
  lemma CompressAgreesWhenCollapsing(values: seq<string>, important: bool)
    requires Collapsed(values).Some? || !important
    ensures CompressShorthandValues(values, important) == CompressShorthandValuesAsWritten(values, important)
  {
  }

  // -------------------------------------------------------- compressShorthand

  /** `compressShorthand`: strip `!important`, split on unquoted spaces, collapse. */
  function CompressShorthand(value: string): string {
    CompressShorthandValuesAsWritten(Scanner.Exploded(' ', RemoveImportant(value)), IsImportant(value))
  }

  /**
   * An important shorthand value stays important when its parts collapse;
   * when they do not, the parts are written back without `!important`.
   */
  lemma CompressShorthandImportance(value: string)
    requires IsImportant(value)
    ensures var vs := Scanner.Exploded(' ', RemoveImportant(value));
      && (Collapsed(vs).Some? ==> IsImportant(CompressShorthand(value)))
      && (Collapsed(vs).None? ==> CompressShorthand(value) == Join(" ", vs))
  {
    var vs := Scanner.Exploded(' ', RemoveImportant(value));
    if Collapsed(vs).Some? {
      CompressKeepsImportant(vs);
      CompressAgreesWhenCollapsing(vs, true);
    }
  }

  /**
   * `borderRadiusShorthand`: at most two `/`-separated halves, each compressed
   * on its own; a value with more halves is returned without `!important`
   * and otherwise unchanged.
   */
  function BorderRadiusShorthand(value: string): (r: string)
    ensures |Split(RemoveImportant(value), '/')| > 2 ==> r == RemoveImportant(value)
  {
    var v := RemoveImportant(value);
    var parts := Split(v, '/');
    if |parts| > 2 then v
    else if |parts| == 2 then
      CompressShorthand(Trim(parts[0])) + "/" + CompressShorthand(Trim(parts[1])) + ImportantText(IsImportant(value))
    else CompressShorthand(Trim(parts[0])) + ImportantText(IsImportant(value))
  }

  /** The halves of a border radius are compressed separately and joined by the one `/`. */
  lemma BorderRadiusHalves(value: string, a: string, b: string)
    requires !IsImportant(value) && '/' !in a && '/' !in b && value == a + "/" + b
    ensures BorderRadiusShorthand(value) == CompressShorthand(Trim(a)) + "/" + CompressShorthand(Trim(b))
  {
    SplitTwo(a, b);
  }

  lemma SplitTwo(a: string, b: string)
    requires '/' !in a && '/' !in b
    ensures Split(a + "/" + b, '/') == [a, b]
  {
    SplitWhole(b);
    SplitBefore(a, "/" + b);
    assert ("/" + b)[1..] == b;
  }

  lemma {:induction false} SplitWhole(a: string)
    requires '/' !in a
    ensures Split(a, '/') == [a]
  {
    if a != [] {
      SplitWhole(a[1..]);
      assert [a[0]] + a[1..] == a;
    }
  }

  lemma {:induction false} SplitBefore(a: string, rest: string)
    requires '/' !in a && rest != [] && rest[0] == '/'
    ensures Split(a + rest, '/') == [a] + Split(rest[1..], '/')
  {
    if a == [] {
      assert a + rest == rest;
    } else {
      assert (a + rest)[1..] == a[1..] + rest;
      SplitBefore(a[1..], rest);
      assert [a[0]] + a[1..] == a;
    }
  }

  // ------------------------------------------------- declarations of a block

  /** The values of the named declarations, in order. */
  function ValuesOf(m: Props, names: seq<string>): (r: seq<string>)
    requires forall i :: 0 <= i < |names| ==> Value(m, names[i]).Some?
    ensures |r| == |names|
    ensures forall i :: 0 <= i < |names| ==> r[i] == Value(m, names[i]).value
    decreases |names|
  {
    if names == [] then []
    else ValuesOf(m, names[..|names| - 1]) + [Value(m, names[|names| - 1]).value]
  }

  /** Each value passed through `f`. */
  function Through(vs: seq<string>, f: string -> string): (r: seq<string>)
    ensures |r| == |vs|
    decreases |vs|
  {
    if vs == [] then [] else Through(vs[..|vs| - 1], f) + [f(vs[|vs| - 1])]
  }

  /** Whether `p` holds of any value, read from the first on. */
  function AnyOf(vs: seq<string>, p: string -> bool): bool
    decreases |vs|
  {
    vs != [] && (AnyOf(vs[..|vs| - 1], p) || p(vs[|vs| - 1]))
  }

  /** The values of the named declarations with `!important` removed, and whether any was important. */
  function Stripped(m: Props, names: seq<string>): (r: (seq<string>, bool))
    requires forall i :: 0 <= i < |names| ==> Value(m, names[i]).Some?
    ensures |r.0| == |names|
  {
    var vs := ValuesOf(m, names);
    (Through(vs, RemoveImportant), AnyOf(vs, IsImportant))
  }

  /** Stripped reads each value with its `!important` removed. */
  lemma StrippedValues(m: Props, names: seq<string>)
    requires forall i :: 0 <= i < |names| ==> Value(m, names[i]).Some?
    ensures forall i :: 0 <= i < |names| ==> Stripped(m, names).0[i] == RemoveImportant(Value(m, names[i]).value)
  {
    var vs := ValuesOf(m, names);
    forall i | 0 <= i < |names|
      ensures Stripped(m, names).0[i] == RemoveImportant(Value(m, names[i]).value)
    {
      ThroughAt(vs, RemoveImportant, i);
    }
  }

  lemma {:induction false} ThroughAt(vs: seq<string>, f: string -> string, i: nat)
    requires i < |vs|
    ensures Through(vs, f)[i] == f(vs[i])
    decreases |vs|
  {
    var n := |vs| - 1;
    var init := vs[..n];
    if i < n {
      assert init[i] == vs[i];
      ThroughAt(init, f, i);
    }
  }

  /** Stripped flags importance exactly when one of the values is important. */
  lemma StrippedImportance(m: Props, names: seq<string>)
    requires forall i :: 0 <= i < |names| ==> Value(m, names[i]).Some?
    ensures Stripped(m, names).1 <==> exists i :: 0 <= i < |names| && IsImportant(Value(m, names[i]).value)
  {
    var vs := ValuesOf(m, names);
    if AnyOf(vs, IsImportant) {
      var i := AnyOfWitness(vs, IsImportant);
      assert IsImportant(Value(m, names[i]).value);
    }
    if exists i :: 0 <= i < |names| && IsImportant(Value(m, names[i]).value) {
      var i :| 0 <= i < |names| && IsImportant(Value(m, names[i]).value);
      AnyOfFlagged(vs, IsImportant, i);
    }
  }

  /** A flagged list holds a value `p` accepts. */
  lemma {:induction false} AnyOfWitness(vs: seq<string>, p: string -> bool) returns (i: nat)
    requires AnyOf(vs, p)
    ensures i < |vs| && p(vs[i])
    decreases |vs|
  {
    var n := |vs| - 1;
    if p(vs[n]) {
      i := n;
    } else {
      var init := vs[..n];
      i := AnyOfWitness(init, p);
      assert init[i] == vs[i];
    }
  }

  /** A value `p` accepts flags the list. */
  lemma {:induction false} AnyOfFlagged(vs: seq<string>, p: string -> bool, i: nat)
    requires i < |vs| && p(vs[i])
    ensures AnyOf(vs, p)
    decreases |vs|
  {
    var n := |vs| - 1;
    if i < n {
      var init := vs[..n];
      assert init[i] == vs[i];
      AnyOfFlagged(init, p, i);
    }
  }

  // ------------------------------------------------ mergeFourValueShorthands

  predicate AllSet(m: Props, names: seq<string>) {
    forall i :: 0 <= i < |names| ==> Value(m, names[i]).Some?
  }

  /** One iteration of `mergeFourValueShorthands`. */
  function MergeFourOne(m: Props, shorthand: string, sides: seq<string>): Props {
    if AllSet(m, sides) then
      var (values, important) := Stripped(m, sides);
      Put(RemoveKeys(m, sides), Name(shorthand), Decl(CompressShorthandValuesAsWritten(values, important)))
    else m
  }

  /** `mergeFourValueShorthands` over the first `t` box shorthands. */
  function MergedFour(m: Props, t: nat): Props
    requires t <= |FourValue|
  {
    if t == 0 then m else MergeFourOne(MergedFour(m, t - 1), FourValue[t - 1].0, FourValue[t - 1].1)
  }

  /** When all four sides are set, none of them is left. */
  lemma MergeFourRemovesSides(m: Props, shorthand: string, sides: seq<string>, i: nat)
    requires DistinctKeys(m) && |sides| == 4 && AllSet(m, sides) && i < 4
    requires sides[i] != shorthand
    ensures !Has(MergeFourOne(m, shorthand, sides), Name(sides[i]))
  {
    var (values, important) := Stripped(m, sides);
    RemoveKeysGone(m, sides, i);
    PutOther(RemoveKeys(m, sides), Name(shorthand), Decl(CompressShorthandValuesAsWritten(values, important)), Name(sides[i]));
  }

  /**
   * When all four sides are set, the shorthand is written from their values
   * as `compressShorthandValues` writes them, and collapsing them keeps the
   * four sides.
   */
  lemma MergeFourSetsShorthand(m: Props, shorthand: string, sides: seq<string>)
    requires |sides| == 4 && AllSet(m, sides)
    ensures Value(MergeFourOne(m, shorthand, sides), shorthand) ==
      Some(CompressShorthandValuesAsWritten(Stripped(m, sides).0, Stripped(m, sides).1))
    ensures Sides(Tokens(Stripped(m, sides).0)) == Stripped(m, sides).0
  {
    var r := Stripped(m, sides);
    var d := Decl(CompressShorthandValuesAsWritten(r.0, r.1));
    var out := Put(RemoveKeys(m, sides), Name(shorthand), d);
    assert MergeFourOne(m, shorthand, sides) == out;
    PutGet(RemoveKeys(m, sides), Name(shorthand), d);
    assert Value(out, shorthand) == Some(d.value);
    TokensKeepSides(r.0);
  }

  /** The shorthand is important if any side was. */
  lemma MergeFourKeepsImportance(m: Props, shorthand: string, sides: seq<string>)
    requires |sides| == 4 && AllSet(m, sides)
    requires exists i :: 0 <= i < 4 && IsImportant(Value(m, sides[i]).value)
    requires Collapsed(Stripped(m, sides).0).Some?
    ensures Value(MergeFourOne(m, shorthand, sides), shorthand).Some?
    ensures IsImportant(Value(MergeFourOne(m, shorthand, sides), shorthand).value)
  {
    var r := Stripped(m, sides);
    MergeFourSetsShorthand(m, shorthand, sides);
    StrippedImportance(m, sides);
    CompressKeepsImportant(r.0);
    CompressAgreesWhenCollapsing(r.0, r.1);
  }

  /** Four sides that do not collapse are written back plain, even when one of them was important. */
  lemma MergeFourDropsImportance(m: Props, shorthand: string, sides: seq<string>)
    requires |sides| == 4 && AllSet(m, sides) && Collapsed(Stripped(m, sides).0).None?
    ensures Value(MergeFourOne(m, shorthand, sides), shorthand) == Some(Join(" ", Stripped(m, sides).0))
  {
    MergeFourSetsShorthand(m, shorthand, sides);
  }

  /** Every key other than the shorthand and its sides keeps its value. */
  lemma MergeFourKeepsOthers(m: Props, shorthand: string, sides: seq<string>, k: Key)
    requires DistinctKeys(m) && k != Name(shorthand) && forall i :: 0 <= i < |sides| ==> k != Name(sides[i])
    ensures Has(MergeFourOne(m, shorthand, sides), k) <==> Has(m, k)
    ensures Has(m, k) ==> Get(MergeFourOne(m, shorthand, sides), k) == Get(m, k)
  {
    if AllSet(m, sides) {
      var (values, important) := Stripped(m, sides);
      RemoveKeysOther(m, sides, k);
      PutOther(RemoveKeys(m, sides), Name(shorthand), Decl(CompressShorthandValuesAsWritten(values, important)), k);
    }
  }

  /** One more side: its value is appended and its key unset. */
  lemma StripStep(m: Props, sides: seq<string>, j: nat)
    requires AllSet(m, sides) && j < |sides|
    ensures Stripped(m, sides[..j + 1]) ==
      (Stripped(m, sides[..j]).0 + [RemoveImportant(Value(m, sides[j]).value)],
       Stripped(m, sides[..j]).1 || IsImportant(Value(m, sides[j]).value))
    ensures RemoveKeys(m, sides[..j + 1]) == Remove(RemoveKeys(m, sides[..j]), Name(sides[j]))
  {
    var pre, post := sides[..j], sides[..j + 1];
    assert post[..j] == pre;
    var vs := ValuesOf(m, post);
    assert vs[..j] == ValuesOf(m, pre);
  }

  /** With a side missing nothing changes. */
  lemma MergeFourNeedsAllSides(m: Props, shorthand: string, sides: seq<string>)
    requires !AllSet(m, sides)
    ensures MergeFourOne(m, shorthand, sides) == m
  {
  }

  // ------------------------------------------------- mergeTwoValuesShorthand

  /**
   * The value `mergeTwoValuesShorthand` writes for two halves of the same
   * importance: one value when they agree, both otherwise, then the suffix.
   */
  function HalvesJoined(first: string, second: string): string {
    var important := ImportantText(IsImportant(first));
    var x := if IsImportant(first) then RemoveImportant(first) else first;
    var y := if IsImportant(first) then RemoveImportant(second) else second;
    if x == y then x + important else x + " " + y + important
  }

  /** The output computation of `mergeTwoValuesShorthand`. */
  method JoinHalves(first: string, second: string) returns (output: string)
    ensures output == HalvesJoined(first, second)
  {
    var important := if IsImportant(first) then Important else "";
    var x, y := first, second;
    if important != "" {
      x := RemoveImportant(first);
      y := RemoveImportant(second);
    }
    output := if x == y then x + important else x + " " + y + important;
  }

  /** One iteration of `mergeTwoValuesShorthand`. */
  function MergeTwoOne(m: Props, shorthand: string, a: string, b: string): Props {
    match (Value(m, a), Value(m, b))
    case (Some(first), Some(second)) =>
      if IsImportant(first) != IsImportant(second) then m
      else
        Remove(Remove(Put(m, Name(shorthand), Decl(HalvesJoined(first, second))), Name(a)), Name(b))
    case _ => m
  }

  /** `mergeTwoValuesShorthand` over the first `t` two-value shorthands. */
  function MergedTwo(m: Props, t: nat): Props
    requires t <= |TwoValue|
  {
    if t == 0 then m else MergeTwoOne(MergedTwo(m, t - 1), TwoValue[t - 1].0, TwoValue[t - 1].1, TwoValue[t - 1].2)
  }

  /** Halves that differ in importance are left as they are. */
  lemma MergeTwoNeedsSameImportance(m: Props, shorthand: string, a: string, b: string)
    requires Value(m, a).Some? && Value(m, b).Some?
    requires IsImportant(Value(m, a).value) != IsImportant(Value(m, b).value)
    ensures MergeTwoOne(m, shorthand, a, b) == m
  {
  }

  /** The joined value reads both halves without `!important` and puts the suffix back once. */
  lemma HalvesJoinedValue(first: string, second: string)
    requires IsImportant(first) == IsImportant(second)
    ensures var x := RemoveImportant(first);
      var y := RemoveImportant(second);
      HalvesJoined(first, second) == (if x == y then x else x + " " + y) + ImportantText(IsImportant(first))
  {
    var x := RemoveImportant(first);
    var y := RemoveImportant(second);
    var important := ImportantText(IsImportant(first));
    if x == y {
      assert x + important == (if x == y then x else x + " " + y) + important;
    }
  }

  /** Merged halves: both longhands are gone and equal halves give one value. */
  lemma MergeTwoReplacesHalves(m: Props, shorthand: string, a: string, b: string)
    requires DistinctKeys(m) && shorthand != a && shorthand != b && a != b
    requires Value(m, a).Some? && Value(m, b).Some?
    requires IsImportant(Value(m, a).value) == IsImportant(Value(m, b).value)
    ensures var r := MergeTwoOne(m, shorthand, a, b);
      var x := RemoveImportant(Value(m, a).value);
      var y := RemoveImportant(Value(m, b).value);
      && !Has(r, Name(a)) && !Has(r, Name(b))
      && Value(r, shorthand) == Some((if x == y then x else x + " " + y) + ImportantText(IsImportant(Value(m, a).value)))
  {
    var output := HalvesJoined(Value(m, a).value, Value(m, b).value);
    HalvesJoinedValue(Value(m, a).value, Value(m, b).value);
    var p := Put(m, Name(shorthand), Decl(output));
    PutGet(m, Name(shorthand), Decl(output));
    PutKeepsDistinct(m, Name(shorthand), Decl(output));
    RemoveTwo(p, Name(a), Name(b), Name(shorthand));
  }

  predicate Distinct(names: seq<string>) {
    forall i, k :: 0 <= i < k < |names| ==> names[i] != names[k]
  }

  /** The four sides of every box shorthand are different properties. */
  lemma FourValueDistinct(t: nat)
    requires t < |FourValue|
    ensures |FourValue[t].1| == 4 && Distinct(FourValue[t].1)
  {
  }

  /** A side not yet unset is still set after unsetting the earlier ones. */
  lemma StillSet(m: Props, sides: seq<string>, j: nat)
    requires DistinctKeys(m) && AllSet(m, sides) && j < |sides|
    requires forall i :: 0 <= i < j ==> sides[i] != sides[j]
    ensures Value(RemoveKeys(m, sides[..j]), sides[j]) == Value(m, sides[j])
  {
    RemoveKeysOther(m, sides[..j], Name(sides[j]));
  }

  // ------------------------------------------------------- dissolveShorthands

  /** The levels of `Configuration`: common shorthands, then `font`, then `background`. */
  const CommonLevel := 1
  const FontLevel := 2
  const BackgroundLevel := 3

  /** The name/value pairs a dissolve returns, as declarations. */
  function Declarations(ds: seq<(string, string)>): Props {
    seq(|ds|, i requires 0 <= i < |ds| => (Name(ds[i].0), Decl(ds[i].1)))
  }

  /** Whether `mergeProperties` writes `v` under `name`: not empty, and not plain over important. */
  predicate Takes(m: Props, name: string, v: string) {
    v != "" && (Value(m, name).None? || !IsImportant(Value(m, name).value) || IsImportant(v))
  }

  /** Blank the shorthand, then merge its longhands into the block. */
  function Dissolve(m: Props, shorthand: string, longhands: seq<(string, string)>): Props {
    MergeAll(Put(m, Name(shorthand), Decl("")), Declarations(longhands))
  }

  /** The `font` half of `dissolveShorthands`. */
  function DissolveFontStep(level: nat, m: Props): Props {
    if Value(m, "font").Some? && level > CommonLevel then Dissolve(m, "font", DissolvedFontAsWritten(Value(m, "font").value)) else m
  }

  /** The `background` half of `dissolveShorthands`. */
  function DissolveBackgroundStep(level: nat, m: Props): Props {
    if Value(m, "background").Some? && level > FontLevel then
      Dissolve(m, "background", DissolvedBackground(Value(m, "background").value))
    else m
  }

  /** `dissolveShorthands`: `font` first, then `background`. */
  function DissolvedShorthands(level: nat, m: Props): Props {
    DissolveBackgroundStep(level, DissolveFontStep(level, m))
  }

  /**
   * Each dissolved longhand ends up with its dissolved value when that value
   * may override the one the block had, and keeps the block's otherwise; the
   * shorthand itself is left blank.
   */
  lemma DissolveSets(m: Props, shorthand: string, ds: seq<(string, string)>, j: nat)
    requires j < |ds| && ds[j].0 != shorthand
    requires forall a, b :: 0 <= a < b < |ds| ==> ds[a].0 != ds[b].0
    ensures Value(Dissolve(m, shorthand, ds), ds[j].0) == if Takes(m, ds[j].0, ds[j].1) then Some(ds[j].1) else Value(m, ds[j].0)
  {
    var blank := Put(m, Name(shorthand), Decl(""));
    var ps := Declarations(ds);
    PutOther(m, Name(shorthand), Decl(""), Name(ds[j].0));
    MergeAllAt(blank, ps, j);
  }

  /** A shorthand no dissolved longhand is named after stays blank. */
  lemma DissolveBlanks(m: Props, shorthand: string, ds: seq<(string, string)>)
    requires forall j :: 0 <= j < |ds| ==> ds[j].0 != shorthand
    ensures Value(Dissolve(m, shorthand, ds), shorthand) == Some("")
  {
    var blank := Put(m, Name(shorthand), Decl(""));
    PutGet(m, Name(shorthand), Decl(""));
    MergeAllOther(blank, Declarations(ds), Name(shorthand));
  }

  /** Other declarations are untouched by a dissolve. */
  lemma DissolveKeepsOthers(m: Props, shorthand: string, ds: seq<(string, string)>, k: Key)
    requires k != Name(shorthand) && forall j :: 0 <= j < |ds| ==> Name(ds[j].0) != k
    ensures Has(Dissolve(m, shorthand, ds), k) <==> Has(m, k)
    ensures Has(m, k) ==> Get(Dissolve(m, shorthand, ds), k) == Get(m, k)
  {
    var blank := Put(m, Name(shorthand), Decl(""));
    PutOther(m, Name(shorthand), Decl(""), k);
    MergeAllOther(blank, Declarations(ds), k);
  }

  /**
   * Dissolving `font` above the common level: each of its six longhands takes
   * the dissolved value unless that value is empty or plain over an important
   * one, and `font` is left blank.
   */
  lemma DissolveFontSets(level: nat, m: Props, j: nat)
    requires level > CommonLevel && Value(m, "font").Some? && j < 6
    ensures var d := DissolvedFontAsWritten(Value(m, "font").value);
      Value(DissolveFontStep(level, m), d[j].0) == if Takes(m, d[j].0, d[j].1) then Some(d[j].1) else Value(m, d[j].0)
    ensures Value(DissolveFontStep(level, m), "font") == Some("")
  {
    var value := Value(m, "font").value;
    DissolvedFontNames(WordWeights, value);
    DissolveSets(m, "font", DissolvedFontAsWritten(value), j);
    DissolveBlanks(m, "font", DissolvedFontAsWritten(value));
  }

  /** An important `font` overrides all six longhands, each of which becomes important. */
  lemma DissolveImportantFont(level: nat, m: Props, j: nat)
    requires level > CommonLevel && Value(m, "font").Some? && IsImportant(Value(m, "font").value) && j < 6
    ensures var d := DissolvedFontAsWritten(Value(m, "font").value);
      Value(DissolveFontStep(level, m), d[j].0) == Some(d[j].1) && IsImportant(d[j].1)
  {
    var value := Value(m, "font").value;
    DissolvedFontImportant(WordWeights, value, j);
    DissolveFontSets(level, m, j);
  }

  /**
   * Dissolving `background` above the `font` level: each of the eight
   * longhands takes the dissolved value unless that value is empty or plain
   * over an important one, and `background` is left blank.
   */
  lemma DissolveBackgroundSets(level: nat, m: Props, q: nat)
    requires level > FontLevel && Value(m, "background").Some? && !HasGradient(Value(m, "background").value) && q < 8
    ensures var d := DissolvedBackground(Value(m, "background").value);
      Value(DissolveBackgroundStep(level, m), BackgroundNames[q]) ==
        if Takes(m, BackgroundNames[q], d[q].1) then Some(d[q].1) else Value(m, BackgroundNames[q])
    ensures Value(DissolveBackgroundStep(level, m), "background") == Some("")
  {
    var d := DissolvedBackground(Value(m, "background").value);
    DissolvedBackgroundKeys(Value(m, "background").value);
    DissolveEight(m, d, q);
  }

  /** Dissolve of eight pairs named after the background longhands, in order. */
  lemma DissolveEight(m: Props, d: seq<(string, string)>, q: nat)
    requires |d| == 8 && q < 8 && forall j :: 0 <= j < 8 ==> d[j].0 == BackgroundNames[j]
    ensures Value(Dissolve(m, "background", d), BackgroundNames[q]) ==
      if Takes(m, BackgroundNames[q], d[q].1) then Some(d[q].1) else Value(m, BackgroundNames[q])
    ensures Value(Dissolve(m, "background", d), "background") == Some("")
  {
    BackgroundNamesDistinct();
    DissolveSets(m, "background", d, q);
    DissolveBlanks(m, "background", d);
  }

  /** A `background` with a gradient is written back whole. */
  lemma DissolveKeepsGradient(level: nat, m: Props)
    requires level > FontLevel && Value(m, "background").Some? && HasGradient(Value(m, "background").value)
    ensures Value(DissolveBackgroundStep(level, m), "background") == Value(m, "background")
  {
    var value := Value(m, "background").value;
    var blank := Put(m, Name("background"), Decl(""));
    PutGet(m, Name("background"), Decl(""));
    assert DissolvedBackground(value) == [("background", value)];
    assert HasGradient(value) ==> value != "";
    MergeAllAt(blank, Declarations(DissolvedBackground(value)), 0);
  }

  /** Below their levels neither shorthand is dissolved. */
  lemma DissolveNeedsLevel(level: nat, m: Props)
    requires level <= CommonLevel
    ensures DissolvedShorthands(level, m) == m
  {
  }

  // ------------------------------------------------------- compressing in place

  /** The value `process` writes back under a box shorthand that is set. */
  function CompressedValue(shorthand: string, value: string): string {
    if shorthand == "border-radius" then BorderRadiusShorthand(value) else CompressShorthand(value)
  }

  /** One turn of the compression loop of `process`. */
  function CompressOne(m: Props, shorthand: string): (r: Props)
    ensures |r| == |m|
  {
    if Value(m, shorthand).Some? then Put(m, Name(shorthand), Decl(CompressedValue(shorthand, Value(m, shorthand).value)))
    else m
  }

  /** The compression loop of `process` over the first `t` box shorthands. */
  function Compressed(m: Props, t: nat): (r: Props)
    requires t <= |FourValue|
    ensures |r| == |m|
  {
    if t == 0 then m else CompressOne(Compressed(m, t - 1), FourValue[t - 1].0)
  }

  lemma ShorthandNamesDistinct()
    ensures forall a, b :: 0 <= a < b < |FourValue| ==> FourValue[a].0 != FourValue[b].0
  {
    assert FourValue[0].0[7] == 'c' && FourValue[1].0[7] == 's' && FourValue[2].0[7] == 'w';
    assert FourValue[5].0[7] == 'r';
  }

  /** A compression turn for one shorthand leaves every other key alone. */
  lemma CompressOneOther(m: Props, shorthand: string, k: Key)
    requires k != Name(shorthand)
    ensures Has(CompressOne(m, shorthand), k) <==> Has(m, k)
    ensures Has(m, k) ==> Get(CompressOne(m, shorthand), k) == Get(m, k)
  {
    if Value(m, shorthand).Some? {
      PutOther(m, Name(shorthand), Decl(CompressedValue(shorthand, Value(m, shorthand).value)), k);
    }
  }

  /**
   * After the loop, each box shorthand that was set holds its compressed
   * value and one that was not set is still not set; every other key keeps
   * its value.
   */
  lemma {:induction false} CompressedValues(m: Props, t: nat, u: nat)
    requires u < |FourValue| && t <= |FourValue|
    ensures var s := FourValue[u].0;
      Value(Compressed(m, t), s) ==
        if u < t && Value(m, s).Some? then Some(CompressedValue(s, Value(m, s).value)) else Value(m, s)
  {
    if t > 0 {
      var s := FourValue[u].0;
      var prev := Compressed(m, t - 1);
      var w := FourValue[t - 1].0;
      CompressedValues(m, t - 1, u);
      if u == t - 1 {
        if Value(prev, s).Some? {
          PutGet(prev, Name(s), Decl(CompressedValue(s, Value(prev, s).value)));
        }
      } else {
        ShorthandNamesDistinct();
        CompressOneOther(prev, w, Name(s));
      }
    }
  }

  /** Keys that are not box shorthands keep their values through the loop. */
  lemma {:induction false} CompressedKeepsOthers(m: Props, t: nat, k: Key)
    requires t <= |FourValue|
    requires forall u :: 0 <= u < |FourValue| ==> k != Name(FourValue[u].0)
    ensures Has(Compressed(m, t), k) <==> Has(m, k)
    ensures Has(m, k) ==> Get(Compressed(m, t), k) == Get(m, k)
  {
    if t > 0 {
      CompressedKeepsOthers(m, t - 1, k);
      CompressOneOther(Compressed(m, t - 1), FourValue[t - 1].0, k);
    }
  }

  /** An important box shorthand other than `border-radius` whose parts collapse stays important. */
  lemma CompressedStaysImportant(shorthand: string, value: string)
    requires shorthand != "border-radius" && IsImportant(value)
    requires Collapsed(Scanner.Exploded(' ', RemoveImportant(value))).Some?
    ensures IsImportant(CompressedValue(shorthand, value))
  {
    CompressShorthandImportance(value);
  }

  // ------------------------------------------------------------------ process

  /** `process` on a block's own properties, before its nested blocks. */
  function OwnProcessed(level: nat, m: Props): Props {
    var common := Compressed(MergedTwo(MergedFour(DissolvedShorthands(level, m), |FourValue|), |TwoValue|), |FourValue|);
    if level < FontLevel then common
    else if level < BackgroundLevel then MergedFont(common)
    else MergedBackground(MergedFont(common))
  }

  /**
   * `process` on a block, nested blocks included; `h` bounds the depth of
   * the recursion and starts at the height of the tree.
   */
  function ProcessedNode(level: nat, n: Node, h: nat): (r: Node)
    ensures r.id == n.id && r.kind == n.kind && r.name == n.name && r.subSelectors == n.subSelectors
    decreases h, 2
  {
    n.(properties := ProcessedProps(level, n.kind, n.properties, h))
  }

  /** The properties of a block of the given kind after `process`: its own first, then its nested blocks. */
  function ProcessedProps(level: nat, kind: Kind, m: Props, h: nat): Props
    decreases h, 1
  {
    if kind == AtRuleBlock then ChildrenProcessed(level, OwnProcessed(level, m), h) else OwnProcessed(level, m)
  }

  /** `process` at a level and depth bound, as a function on blocks. */
  function Step(level: nat, h: nat): Node -> Node
    decreases h, 3
  {
    n => ProcessedNode(level, n, h)
  }

  /** The loop of `process` over an at-rule block's entries: each nested block is processed. */
  function ChildrenProcessed(level: nat, m: Props, h: nat): (r: Props)
    ensures |r| == |m|
    decreases h, 0
  {
    if h == 0 then m else EachChild(m, Step(level, h - 1), |m|)
  }

  /** `process` on a whole tree. */
  function Processed(level: nat, n: Node): Node {
    ProcessedNode(level, n, Height(n))
  }

  /** The first `i` entries with each nested block `n` replaced by `f(n)`. */
  function EachChild(m: Props, f: Node -> Node, i: nat): (r: Props)
    requires i <= |m|
    ensures |r| == |m|
  {
    if i == 0 then m
    else
      var prev := EachChild(m, f, i - 1);
      var (key, item) := m[i - 1];
      if item.Child? && DistinctKeys(item.node.properties) then prev[i - 1 := (key, Child(f(item.node)))] else prev
  }

  /**
   * The loop over nested blocks replaces each of the first `i` of them in
   * place, and changes no key, no declaration, no at-rule line and no later
   * entry.
   */
  lemma {:induction false} EachChildAt(m: Props, f: Node -> Node, i: nat, j: nat)
    requires i <= |m| && j < |m|
    ensures var r := EachChild(m, f, i);
      && r[j].0 == m[j].0
      && r[j] == if j < i && m[j].1.Child? && DistinctKeys(m[j].1.node.properties)
                then (m[j].0, Child(f(m[j].1.node)))
                else m[j]
  {
    if i > 0 {
      EachChildAt(m, f, i - 1, j);
    }
  }

  /** The loop over nested blocks keeps the keys, so keeps them distinct. */
  lemma EachChildKeepsDistinct(m: Props, f: Node -> Node, i: nat)
    requires i <= |m| && DistinctKeys(m)
    ensures DistinctKeys(EachChild(m, f, i))
  {
    var r := EachChild(m, f, i);
    forall j | 0 <= j < |m|
      ensures r[j].0 == m[j].0
    {
      EachChildAt(m, f, i, j);
    }
  }

  /** One more turn of the loop over nested blocks. */
  lemma EachChildStep(m: Props, f: Node -> Node, i: nat)
    requires i < |m|
    ensures var prev := EachChild(m, f, i);
      EachChild(m, f, i + 1) ==
        if m[i].1.Child? && DistinctKeys(m[i].1.node.properties) then prev[i := (m[i].0, Child(f(m[i].1.node)))] else prev
  {
  }

  lemma ProcessedNodeUnfold(level: nat, n: Node, h: nat)
    ensures Step(level, h)(n).properties ==
      if n.kind == AtRuleBlock then ChildrenProcessed(level, OwnProcessed(level, n.properties), h) else OwnProcessed(level, n.properties)
  {
    var r := ProcessedNode(level, n, h);
    assert Step(level, h)(n) == r;
    assert r.properties == ProcessedProps(level, n.kind, n.properties, h);
  }

  /** Processing nested blocks keeps the keys of the at-rule block, so keeps them distinct. */
  lemma ChildrenKeepKeys(level: nat, m: Props, h: nat)
    requires DistinctKeys(m)
    ensures var r := ChildrenProcessed(level, m, h);
      DistinctKeys(r) && forall j :: 0 <= j < |m| ==> r[j].0 == m[j].0
  {
    if h > 0 {
      forall j | 0 <= j < |m|
        ensures ChildrenProcessed(level, m, h)[j].0 == m[j].0
      {
        EachChildAt(m, Step(level, h - 1), |m|, j);
      }
    }
  }

  // ------------------------------------------------------------ the optimiser

  /** The `Shorthand` optimiser, configured with the shorthand optimisation level. */
  class Shorthand {
    const optimiseShorthand: nat

    constructor (level: nat)
      ensures optimiseShorthand == level
    {
      optimiseShorthand := level;
    }

    /** `process` on a whole tree. */
    method Process(block: Block)
      requires block.Valid()
      modifies block
      ensures block.Valid()
      ensures block.Snapshot() == Processed(optimiseShorthand, old(block.Snapshot()))
    {
      ProcessAt(block, Height(block.Snapshot()));
    }

    /**
     * `process` with `h` bounding the depth of the recursion. Emptying the
     * block's properties ends in `unset($block)`, which only clears the local
     * variable: the caller's block is left as it is, and an empty block has no
     * nested blocks to visit.
     */
    method ProcessAt(block: Block, h: nat)
      requires block.Valid()
      modifies block
      ensures block.Valid()
      ensures block.Snapshot() == Step(optimiseShorthand, h)(old(block.Snapshot()))
      decreases h, 3
    {
      ProcessedNodeUnfold(optimiseShorthand, block.Snapshot(), h);
      ProcessOwn(block);
      if block.kind == AtRuleBlock && h > 0 {
        ProcessChildren(block, h);
      }
    }

    /** The optimisations of `process` on the block's own properties. */
    method ProcessOwn(block: Block)
      requires block.Valid()
      modifies block
      ensures block.Valid()
      ensures block.properties == OwnProcessed(optimiseShorthand, old(block.properties))
      ensures block.name == old(block.name) && block.subSelectors == old(block.subSelectors)
    {
      DissolveShorthands(block);
      MergeFourValueShorthands(block);
      MergeTwoValuesShorthand(block);
      CompressShorthands(block);
      if optimiseShorthand >= FontLevel {
        MergeFont(block);
        if optimiseShorthand >= BackgroundLevel {
          MergeBackground(block);
        }
      }
    }

    /** The loop of `process` over the entries of an at-rule block: each nested block is processed. */
    method ProcessChildren(block: Block, h: nat)
      requires block.Valid() && h > 0
      modifies block
      ensures block.Valid()
      ensures block.properties == EachChild(old(block.properties), Step(optimiseShorthand, h - 1), |old(block.properties)|)
      ensures block.name == old(block.name) && block.subSelectors == old(block.subSelectors)
      decreases h, 2
    {
      var props := ProcessEach(block.properties, h - 1);
      EachChildKeepsDistinct(old(block.properties), Step(optimiseShorthand, h - 1), |old(block.properties)|);
      block.properties := props;
    }

    /** The loop of `process` over the entries, each nested block processed at depth bound `h`. */
    method ProcessEach(entries: Props, h: nat) returns (props: Props)
      ensures props == EachChild(entries, Step(optimiseShorthand, h), |entries|)
      decreases h + 1, 1
    {
      props := entries;
      for i := 0 to |entries|
        invariant props == EachChild(entries, Step(optimiseShorthand, h), i)
      {
        props := ProcessEntry(entries, props, i, h);
      }
    }

    /** One turn of the loop over the entries: a nested block is processed and written back. */
    method ProcessEntry(entries: Props, props: Props, i: nat, h: nat) returns (r: Props)
      requires i < |entries| && props == EachChild(entries, Step(optimiseShorthand, h), i)
      ensures r == EachChild(entries, Step(optimiseShorthand, h), i + 1)
      decreases h + 1, 0
    {
      var (key, item) := entries[i];
      EachChildStep(entries, Step(optimiseShorthand, h), i);
      r := props;
      if item.Child? && DistinctKeys(item.node.properties) {
        var processed := ProcessChild(item.node, h);
        r := props[i := (key, Child(processed))];
      }
    }

    /** One nested block of the loop: `$this->process($block)` on the object the entry holds. */
    method ProcessChild(n: Node, h: nat) returns (r: Node)
      requires DistinctKeys(n.properties)
      ensures r == Step(optimiseShorthand, h)(n)
      decreases h, 4
    {
      var child := new Block.FromNode(n);
      ProcessAt(child, h);
      r := child.Snapshot();
    }

    /** `dissolveShorthands`: `font` above the common level, `background` above the font level. */
    method DissolveShorthands(block: Block)
      requires block.Valid()
      modifies block
      ensures block.Valid()
      ensures block.properties == DissolvedShorthands(optimiseShorthand, old(block.properties))
      ensures block.name == old(block.name) && block.subSelectors == old(block.subSelectors)
    {
      if Value(block.properties, "font").Some? && optimiseShorthand > CommonLevel {
        var value := Value(block.properties, "font").value;
        PutKeepsDistinct(block.properties, Name("font"), Decl(""));
        block.properties := Put(block.properties, Name("font"), Decl(""));
        var longhands := DissolveShortFont(value);
        block.MergeProperties(Declarations(longhands));
      }
      if Value(block.properties, "background").Some? && optimiseShorthand > FontLevel {
        var value := Value(block.properties, "background").value;
        PutKeepsDistinct(block.properties, Name("background"), Decl(""));
        block.properties := Put(block.properties, Name("background"), Decl(""));
        var longhands := DissolveShortBackground(value);
        block.MergeProperties(Declarations(longhands));
      }
    }

    /** The compression loop of `process`: every box shorthand that is set is written back compressed. */
    method CompressShorthands(block: Block)
      requires block.Valid()
      modifies block
      ensures block.Valid()
      ensures block.properties == Compressed(old(block.properties), |FourValue|)
      ensures block.name == old(block.name) && block.subSelectors == old(block.subSelectors)
    {
      for t := 0 to |FourValue|
        invariant block.Valid()
        invariant block.properties == Compressed(old(block.properties), t)
        invariant block.name == old(block.name) && block.subSelectors == old(block.subSelectors)
      {
        var shorthand := FourValue[t].0;
        var present := Value(block.properties, shorthand);
        if present.Some? {
          var value := if shorthand == "border-radius" then BorderRadiusShorthand(present.value) else CompressShorthand(present.value);
          PutKeepsDistinct(block.properties, Name(shorthand), Decl(value));
          block.properties := Put(block.properties, Name(shorthand), Decl(value));
        }
      }
    }

    /** `mergeFourValueShorthands` */
    method MergeFourValueShorthands(block: Block)
      requires block.Valid()
      modifies block
      ensures block.Valid()
      ensures block.properties == MergedFour(old(block.properties), |FourValue|)
      ensures block.name == old(block.name) && block.subSelectors == old(block.subSelectors)
    {
      for t := 0 to |FourValue|
        invariant block.Valid()
        invariant block.properties == MergedFour(old(block.properties), t)
        invariant block.name == old(block.name) && block.subSelectors == old(block.subSelectors)
      {
        FourValueDistinct(t);
        MergeFour(block, FourValue[t].0, FourValue[t].1);
      }
    }

    /** One pass of `mergeFourValueShorthands`: the four sides of `shorthand`. */
    method MergeFour(block: Block, shorthand: string, sides: seq<string>)
      requires block.Valid() && |sides| == 4 && Distinct(sides)
      modifies block
      ensures block.Valid()
      ensures block.properties == MergeFourOne(old(block.properties), shorthand, sides)
      ensures block.name == old(block.name) && block.subSelectors == old(block.subSelectors)
    {
      if AllSet(block.properties, sides) {
        var props, values, important := StripSides(block.properties, sides);
        PutKeepsDistinct(props, Name(shorthand), Decl(CompressShorthandValuesAsWritten(values, important)));
        block.properties := Put(props, Name(shorthand), Decl(CompressShorthandValuesAsWritten(values, important)));
      }
    }

    /** The side loop of `mergeFourValueShorthands`: read each side without `!important`, then unset it. */
    method StripSides(m: Props, sides: seq<string>) returns (props: Props, values: seq<string>, important: bool)
      requires DistinctKeys(m) && |sides| == 4 && Distinct(sides) && AllSet(m, sides)
      ensures DistinctKeys(props) && props == RemoveKeys(m, sides)
      ensures (values, important) == Stripped(m, sides)
    {
      important := false;
      values := [];
      props := m;
      for j := 0 to 4
        invariant DistinctKeys(props)
        invariant props == RemoveKeys(m, sides[..j])
        invariant (values, important) == Stripped(m, sides[..j])
      {
        StripStep(m, sides, j);
        StillSet(m, sides, j);
        var val := Value(props, sides[j]).value;
        if IsImportant(val) {
          important := true;
          values := values + [RemoveImportant(val)];
        } else {
          values := values + [val];
        }
        RemoveGone(props, Name(sides[j]));
        props := Remove(props, Name(sides[j]));
      }
      assert sides[..4] == sides;
    }

    /** `mergeTwoValuesShorthand` */
    method MergeTwoValuesShorthand(block: Block)
      requires block.Valid()
      modifies block
      ensures block.Valid()
      ensures block.properties == MergedTwo(old(block.properties), |TwoValue|)
      ensures block.name == old(block.name) && block.subSelectors == old(block.subSelectors)
    {
      for t := 0 to |TwoValue|
        invariant block.Valid()
        invariant block.properties == MergedTwo(old(block.properties), t)
        invariant block.name == old(block.name) && block.subSelectors == old(block.subSelectors)
      {
        MergeTwo(block, TwoValue[t].0, TwoValue[t].1, TwoValue[t].2);
      }
    }

    /** One pass of `mergeTwoValuesShorthand`: the halves `a` and `b` of `shorthandProperty`. */
    method MergeTwo(block: Block, shorthandProperty: string, a: string, b: string)
      requires block.Valid()
      modifies block
      ensures block.Valid()
      ensures block.properties == MergeTwoOne(old(block.properties), shorthandProperty, a, b)
      ensures block.name == old(block.name) && block.subSelectors == old(block.subSelectors)
    {
      var props := block.properties;
      if Value(props, a).Some? && Value(props, b).Some? {
        var first := Value(props, a).value;
        var second := Value(props, b).value;
        var firstImportant := IsImportant(first);
        var secondImportant := IsImportant(second);
        if firstImportant != secondImportant {
          assert MergeTwoOne(props, shorthandProperty, a, b) == props;
          return;
        }
        var output := JoinHalves(first, second);
        var m := Put(props, Name(shorthandProperty), Decl(output));
        PutKeepsDistinct(props, Name(shorthandProperty), Decl(output));
        RemoveGone(m, Name(a));
        RemoveGone(Remove(m, Name(a)), Name(b));
        block.properties := Remove(Remove(m, Name(a)), Name(b));
        assert block.properties == MergeTwoOne(old(block.properties), shorthandProperty, a, b);
      } else {
        assert MergeTwoOne(props, shorthandProperty, a, b) == props;
      }
    }
  
    /** `mergeBackground` */
    method MergeBackground(block: Block)
      requires block.Valid()
      modifies block
      ensures block.Valid()
      ensures block.properties == MergedBackground(old(block.properties))
      ensures block.name == old(block.name) && block.subSelectors == old(block.subSelectors)
    {
      var properties := block.properties;
      if Value(properties, "background").Some? && Truthy(Value(properties, "background").value) {
        return;
      }
      var explodedImage, numberOfValues := CountLayers(properties);
      var merged := MergeLayersOf(properties, explodedImage, numberOfValues);
      if merged.None? {
        return;
      }
      ReplaceLonghands(block, merged.value);
    }

    /** `$explodedImage`, `$colorCount` and `$numberOfValues` of `mergeBackground`. */
    method CountLayers(properties: Props) returns (explodedImage: seq<string>, numberOfValues: nat)
      ensures explodedImage == ImageLayers(properties)
      ensures numberOfValues == LayerCount(properties)
    {
      explodedImage := [];
      if Value(properties, "background-image").Some? {
        explodedImage := Scanner.ExplodeWithoutString(',', RemoveImportant(Value(properties, "background-image").value));
      }
      var colorCount := 0;
      if Value(properties, "background-color").Some? {
        var colors := Scanner.ExplodeWithoutString(',', Value(properties, "background-color").value);
        colorCount := |colors|;
      }
      numberOfValues := if |explodedImage| >= colorCount && |explodedImage| >= 1 then |explodedImage|
        else if colorCount >= 1 then colorCount else 1;
    }

    /** The layer loop of `mergeBackground`; `None` when a gradient stops it. */
    method MergeLayersOf(properties: Props, explodedImage: seq<string>, numberOfValues: nat) returns (r: Option<Merging>)
      ensures r == MergeLayers(properties, explodedImage, numberOfValues, numberOfValues)
    {
      var merging := Merging("", "");
      for i := 0 to numberOfValues
        invariant MergeLayers(properties, explodedImage, numberOfValues, i) == Some(merging)
      {
        var row := MergeLayer(properties, explodedImage, i, merging);
        if row.None? {
          assert MergeLayers(properties, explodedImage, numberOfValues, i + 1).None?;
          AbandonedStays(properties, explodedImage, numberOfValues, i + 1, numberOfValues);
          return None;
        }
        merging := row.value;
        var newBackgroundValue := Trim(merging.text);
        if i != numberOfValues - 1 {
          newBackgroundValue := newBackgroundValue + ",";
        }
        assert MergeLayers(properties, explodedImage, numberOfValues, i + 1)
          == Some(CloseLayer(row.value, i, numberOfValues));
        merging := merging.(text := newBackgroundValue);
      }
      return Some(merging);
    }

    /**
     * One layer of `mergeBackground`: the eight longhands in table order.
     * `None` is the early return on a gradient.
     */
    method MergeLayer(properties: Props, explodedImage: seq<string>, i: nat, start: Merging) returns (r: Option<Merging>)
      ensures r == MergeRow(properties, explodedImage, i, 8, start)
    {
      var merging := start;
      for q := 0 to 8
        invariant MergeRow(properties, explodedImage, i, q, start) == Some(merging)
      {
        var next := MergeLonghandAt(properties, explodedImage, i, q, merging);
        assert MergeRow(properties, explodedImage, i, q + 1, start) == next;
        if next.None? {
          RowStaysAbandoned(properties, explodedImage, i, q + 1, start);
          return None;
        }
        merging := next.value;
      }
      return Some(merging);
    }

    /** The body of the longhand loop of `mergeBackground`; `None` on a gradient. */
    method MergeLonghandAt(properties: Props, explodedImage: seq<string>, i: nat, q: nat, merging: Merging)
      returns (r: Option<Merging>)
      requires q < 8
      ensures r == MergeLonghand(properties, explodedImage, i, q, merging)
    {
      var present := Value(properties, BackgroundNames[q]);
      if present.None? {
        return Some(merging);
      }
      if HasGradient(present.value) {
        return None;
      }
      if (i >= |explodedImage| || explodedImage[i] == "none") && ImageOnly(q) {
        return Some(merging);
      }
      var next := Contribute(merging, present.value, i, q);
      return Some(next);
    }

    /** The part of the longhand loop that reads the longhand's value. */
    method Contribute(merging: Merging, value: string, i: nat, q: nat) returns (r: Merging)
      requires q < 8
      ensures r == Contributed(merging, value, i, q)
    {
      var newBackgroundValue := merging.text;
      var important := merging.important;
      var currentValue := value;
      if IsImportant(currentValue) {
        important := SpacedImportant;
        currentValue := RemoveImportant(currentValue);
      }
      if currentValue == BackgroundDefaults[q] {
        return Merging(newBackgroundValue, important);
      }
      var temp := Scanner.ExplodeWithoutString(',', currentValue);
      if i < |temp| {
        if q == Backgrounds.Size {
          newBackgroundValue := newBackgroundValue + "(" + temp[i] + ") ";
        } else {
          newBackgroundValue := newBackgroundValue + temp[i] + " ";
        }
      }
      return Merging(newBackgroundValue, important);
    }

    /** The end of `mergeBackground`: drop the eight longhands and write `background`. */
    method ReplaceLonghands(block: Block, merging: Merging)
      requires block.Valid()
      modifies block
      ensures block.Valid()
      ensures block.properties == (
        var cleared := RemoveKeys(old(block.properties), BackgroundNames);
        if merging.text != "" then Put(cleared, Name("background"), Decl(merging.text + merging.important))
        else if Value(cleared, "background").Some? then Put(cleared, Name("background"), Decl("none"))
        else cleared)
      ensures block.name == old(block.name) && block.subSelectors == old(block.subSelectors)
    {
      ghost var m := block.properties;
      var properties := block.properties;
      for q := 0 to 8
        modifies {}
        invariant DistinctKeys(properties)
        invariant properties == RemoveKeys(m, BackgroundNames[..q])
      {
        RemoveKeysStep(m, BackgroundNames, q);
        RemoveGone(properties, Name(BackgroundNames[q]));
        properties := Remove(properties, Name(BackgroundNames[q]));
      }
      assert BackgroundNames[..8] == BackgroundNames;
      if merging.text != "" {
        PutKeepsDistinct(properties, Name("background"), Decl(merging.text + merging.important));
        properties := Put(properties, Name("background"), Decl(merging.text + merging.important));
      } else if Value(properties, "background").Some? {
        PutKeepsDistinct(properties, Name("background"), Decl("none"));
        properties := Put(properties, Name("background"), Decl("none"));
      }
      block.properties := properties;
    }

    /** `mergeFont` */
    method MergeFont(block: Block)
      requires block.Valid()
      modifies block
      ensures block.Valid()
      ensures block.properties == MergedFont(old(block.properties))
      ensures block.name == old(block.name) && block.subSelectors == old(block.subSelectors)
    {
      var properties := block.properties;
      if Value(properties, "font-size").None? {
        return;
      }
      var merging := FontLonghands(properties);
      var newFontValue := Trim(merging.text);
      if newFontValue == "" {
        return;
      }
      RemoveFontLonghands(block, merging.preserveVariant);
      PutKeepsDistinct(block.properties, Name("font"), Decl(newFontValue + merging.important));
      block.properties := Put(block.properties, Name("font"), Decl(newFontValue + merging.important));
    }

    /** The longhand loop of `mergeFont`. */
    method FontLonghands(properties: Props) returns (r: FontMerging)
      ensures r == MergeFontRow(properties, 6)
    {
      r := FontMerging("", "", false);
      for q := 0 to 6
        invariant r == MergeFontRow(properties, q)
      {
        r := FontLonghandAt(properties, q, r);
      }
    }

    /** The body of the longhand loop of `mergeFont`. */
    method FontLonghandAt(properties: Props, q: nat, merging: FontMerging) returns (r: FontMerging)
      requires q < 6
      ensures r == MergeFontLonghand(properties, q, merging)
    {
      var present := Value(properties, FontNames[q]);
      if present.None? {
        return merging;
      }
      var currentValue := present.value;
      if currentValue == FontDefaults[q] {
        return merging;
      } else if q == Variant && currentValue != "small-caps" {
        return merging.(preserveVariant := true);
      }
      var important := merging.important;
      if IsImportant(currentValue) {
        important := Important;
        currentValue := RemoveImportant(currentValue);
      }
      var newFontValue := merging.text + currentValue;
      if q == Fonts.Size && Value(properties, "line-height").Some? && Value(properties, "line-height").value != "" {
        newFontValue := newFontValue + "/";
      } else {
        newFontValue := newFontValue + " ";
      }
      return FontMerging(newFontValue, important, merging.preserveVariant);
    }

    /** The deletion loop of `mergeFont`: every longhand but a preserved `font-variant`. */
    method RemoveFontLonghands(block: Block, preserveFontVariant: bool)
      requires block.Valid()
      modifies block
      ensures block.Valid()
      ensures block.properties == RemoveKeys(old(block.properties), DroppedFontNames(preserveFontVariant))
      ensures block.name == old(block.name) && block.subSelectors == old(block.subSelectors)
    {
      ghost var m := block.properties;
      ghost var names := DroppedFontNames(preserveFontVariant);
      var properties := block.properties;
      for q := 0 to 6
        modifies {}
        invariant DistinctKeys(properties)
        invariant properties == RemoveKeys(m, names[..DroppedBefore(preserveFontVariant, q)])
      {
        DroppedStep(m, preserveFontVariant, q);
        if !(q == Variant && preserveFontVariant) {
          RemoveGone(properties, Name(FontNames[q]));
          properties := Remove(properties, Name(FontNames[q]));
        }
      }
      assert names[..DroppedBefore(preserveFontVariant, 6)] == names;
      block.properties := properties;
    }
  }
}
