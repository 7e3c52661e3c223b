/**
 * lib/optimise/Shorthand.php, the `background` shorthand: dissolving a
 * `background` value into its eight longhands and merging the longhands
 * back into one `background` declaration.
 */
module Backgrounds {
  import opened Wrappers
  import opened Text
  import opened OrderedMaps
  import opened Elements
  import Scanner
  import opened Tidy

  /** The keys of `Shorthand::$backgroundPropDefault`, in order. */
  const BackgroundNames: seq<string> := [
    "background-image", "background-size", "background-repeat", "background-position",
    "background-attachment", "background-clip", "background-origin", "background-color"]

  /** The values of `Shorthand::$backgroundPropDefault`, in the same order. */
  const BackgroundDefaults: seq<string> := ["none", "auto", "repeat", "0 0", "scroll", "border", "padding", "transparent"]

  /** Positions of the longhands in the two tables above. */
  const Image: nat := 0
  const Size: nat := 1
  const Repeat: nat := 2
  const Position: nat := 3
  const Attachment: nat := 4
  const Clip: nat := 5
  const Origin: nat := 6
  const Color: nat := 7

  /** The suffix `dissolveShortBackground` and `mergeBackground` append to an important value. */
  const SpacedImportant: string := " " + Important

  lemma SpacedIsImportant(v: string)
    ensures IsImportant(v + SpacedImportant)
  {
    MarkedIsImportant(v);
    assert v + SpacedImportant == v + " " + Important;
  }

  const RepeatWords: set<string> := {"repeat", "repeat-x", "repeat-y", "no-repeat", "space"}
  const AttachmentWords: set<string> := {"scroll", "fixed", "local"}
  const ClipWords: set<string> := {"border", "padding"}
  const OriginWords: set<string> := {"border", "padding", "content"}
  const PositionWords: set<string> := {"top", "center", "bottom", "left", "right"}

  // --------------------------------------------------- dissolveShortBackground

  /**
   * The eight collected longhands: `None` is PHP's `null` (nothing seen
   * yet), `Some(t)` the text gathered so far, each piece followed by a
   * separator.
   */
  type Slots = s: seq<Option<string>> | |s| == 8 witness [None, None, None, None, None, None, None, None]

  const NoSlots: Slots := [None, None, None, None, None, None, None, None]

  /** What a layer has already seen; reset at every comma-separated layer. */
  datatype Have = Have(clip: bool, pos: bool, color: bool, bg: bool)

  const NothingYet: Have := Have(false, false, false, false)

  /** PHP's `.=` on a slot that may still be `null`. */
  function Append(slots: Slots, slot: nat, text: string): (r: Slots)
    requires slot < 8
    ensures r[slot] == Some(slots[slot].GetOr("") + text)
    ensures forall q :: 0 <= q < 8 && q != slot ==> r[q] == slots[q]
  {
    slots[slot := Some(slots[slot].GetOr("") + text)]
  }

  /** A token that can stand for a position: a keyword, or one starting with a digit, `-` or `.`. */
  predicate PositionLike(current: string) {
    current in PositionWords || (|current| > 0 && (IsDigit(current[0]) || current[0] == '-' || current[0] == '.'))
  }

  /** Where one space-separated token of a layer goes, first rule that applies. */
  function BackgroundToken(slots: Slots, have: Have, current: string): (Slots, Have) {
    if !have.bg && (Substr(current, 0, 4) == "url(" || current == "none") then
      (Append(slots, Image, current + ","), have.(bg := true))
    else if current in RepeatWords then
      (Append(slots, Repeat, current + ","), have)
    else if current in AttachmentWords then
      (Append(slots, Attachment, current + ","), have)
    else if current in ClipWords && !have.clip then
      (Append(slots, Clip, current + ","), have.(clip := true))
    else if current in OriginWords then
      (Append(slots, Origin, current + ","), have)
    else if |current| > 0 && current[0] == '(' then
      (Append(slots, Size, Substr(current, 1, -1) + ","), have)
    else if PositionLike(current) then
      (Append(slots, Position, current + (if have.pos then "," else " ")), have.(pos := true))
    else if !have.color then
      (Append(slots, Color, current + ","), have.(color := true))
    else
      (slots, have)
  }

  /** The tokens of one layer, from a fresh `$have`. */
  function LayerTokens(slots: Slots, tokens: seq<string>): (Slots, Have)
    decreases |tokens|
  {
    if tokens == [] then (slots, NothingYet)
    else
      var (s, h) := LayerTokens(slots, tokens[..|tokens| - 1]);
      BackgroundToken(s, h, tokens[|tokens| - 1])
  }

  /** The comma-separated layers, each split into space-separated tokens. */
  function Layers(slots: Slots, layers: seq<string>): Slots
    decreases |layers|
  {
    if layers == [] then slots
    else LayerTokens(Layers(slots, layers[..|layers| - 1]), Scanner.Exploded(' ', Trim(layers[|layers| - 1]))).0
  }

  /** The final value of one longhand: its text without the last separator, or its default. */
  function Finished(slots: Slots, important: string, q: nat): string
    requires q < 8
  {
    match slots[q]
    case Some(t) => Substr(t, 0, -1) + important
    case None => BackgroundDefaults[q] + important
  }

  /** The eight longhands, in the order of the defaults table. */
  function FinishAll(slots: Slots, important: string, n: nat): (r: seq<(string, string)>)
    requires n <= 8
    ensures |r| == n
    ensures forall q :: 0 <= q < n ==> r[q] == (BackgroundNames[q], Finished(slots, important, q))
  {
    if n == 0 then [] else FinishAll(slots, important, n - 1) + [(BackgroundNames[n - 1], Finished(slots, important, n - 1))]
  }

  /** `stripos($value, "gradient(") !== false`; the needle has no capital letters to fold. */
  predicate HasGradient(value: string) {
    Contains(Lower(value), "gradient(")
  }

  /** `dissolveShortBackground`, as the array it returns. */
  function DissolvedBackground(value: string): seq<(string, string)> {
    if HasGradient(value) then [("background", value)]
    else
      var important := if IsImportant(value) then SpacedImportant else "";
      var v := if IsImportant(value) then RemoveImportant(value) else value;
      FinishAll(Layers(NoSlots, Scanner.Exploded(',', v)), important, 8)
  }

  /** The body of the token loop of `dissolveShortBackground`. */
  method PlaceToken(slots: Slots, have: Have, current: string) returns (slots': Slots, have': Have)
    ensures (slots', have') == BackgroundToken(slots, have, current)
  {
    slots', have' := slots, have;
    if !have.bg && (Substr(current, 0, 4) == "url(" || current == "none") {
      slots' := Append(slots, Image, current + ",");
      have' := have.(bg := true);
    } else if current in RepeatWords {
      slots' := Append(slots, Repeat, current + ",");
    } else if current in AttachmentWords {
      slots' := Append(slots, Attachment, current + ",");
    } else if current in ClipWords && !have.clip {
      slots' := Append(slots, Clip, current + ",");
      have' := have.(clip := true);
    } else if current in OriginWords {
      slots' := Append(slots, Origin, current + ",");
    } else if |current| > 0 && current[0] == '(' {
      slots' := Append(slots, Size, Substr(current, 1, -1) + ",");
    } else if PositionLike(current) {
      slots' := Append(slots, Position, current + (if have.pos then "," else " "));
      have' := have.(pos := true);
    } else if !have.color {
      slots' := Append(slots, Color, current + ",");
      have' := have.(color := true);
    }
  }

  /** One more layer applies its tokens to the slots collected so far. */
  lemma LayersStep(slots: Slots, layers: seq<string>, l: nat)
    requires l < |layers|
    ensures Layers(slots, layers[..l + 1]) == LayerTokens(Layers(slots, layers[..l]), Scanner.Exploded(' ', Trim(layers[l]))).0
  {
    assert layers[..l + 1][..l] == layers[..l];
  }

  /** One more token is placed after the tokens before it. */
  lemma LayerTokensStep(slots: Slots, tokens: seq<string>, t: nat)
    requires t < |tokens|
    ensures LayerTokens(slots, tokens[..t + 1]) ==
      BackgroundToken(LayerTokens(slots, tokens[..t]).0, LayerTokens(slots, tokens[..t]).1, tokens[t])
  {
    assert tokens[..t + 1][..t] == tokens[..t];
  }

  /** The layer loop of `dissolveShortBackground`. */
  method CollectLayers(strValue: string) returns (slots: Slots)
    ensures slots == Layers(NoSlots, Scanner.Exploded(',', strValue))
  {
    slots := NoSlots;
    var layers := Scanner.ExplodeWithoutString(',', strValue);
    for l := 0 to |layers|
      invariant slots == Layers(NoSlots, layers[..l])
    {
      LayersStep(NoSlots, layers, l);
      slots := CollectTokens(slots, layers[l]);
    }
    WholePrefix(layers);
  }

  /** The token loop of `dissolveShortBackground`, over one layer. */
  method CollectTokens(start: Slots, layer: string) returns (slots: Slots)
    ensures slots == LayerTokens(start, Scanner.Exploded(' ', Trim(layer))).0
  {
    slots := start;
    var have := NothingYet;
    var tokens := Scanner.ExplodeWithoutString(' ', Trim(layer));
    for t := 0 to |tokens|
      invariant (slots, have) == LayerTokens(start, tokens[..t])
    {
      LayerTokensStep(start, tokens, t);
      slots, have := PlaceToken(slots, have, tokens[t]);
    }
    WholePrefix(tokens);
  }

  /** The closing loop of `dissolveShortBackground`: drop each trailing separator or use the default. */
  method FinishSlots(slots: Slots, important: string) returns (r: seq<(string, string)>)
    ensures r == FinishAll(slots, important, 8)
  {
    r := [];
    for q := 0 to 8
      invariant r == FinishAll(slots, important, q)
    {
      assert FinishAll(slots, important, q + 1) == r + [(BackgroundNames[q], Finished(slots, important, q))];
      if slots[q].Some? {
        r := r + [(BackgroundNames[q], Substr(slots[q].value, 0, -1) + important)];
      } else {
        r := r + [(BackgroundNames[q], BackgroundDefaults[q] + important)];
      }
    }
  }


  /** `dissolveShortBackground` */
  method DissolveShortBackground(value: string) returns (r: seq<(string, string)>)
    ensures r == DissolvedBackground(value)
  {
    if HasGradient(value) {
      return [("background", value)];
    }
    var important := "";
    var strValue := value;
    if IsImportant(strValue) {
      important := SpacedImportant;
      strValue := RemoveImportant(strValue);
    }
    var slots := CollectLayers(strValue);
    r := FinishSlots(slots, important);
  }

  /** Without a gradient the result names exactly the eight longhands, in table order. */
  lemma DissolvedBackgroundKeys(value: string)
    requires !HasGradient(value)
    ensures |DissolvedBackground(value)| == 8
    ensures forall q :: 0 <= q < 8 ==> DissolvedBackground(value)[q].0 == BackgroundNames[q]
  {
  }

  /** A gradient is never taken apart. */
  lemma GradientKeptWhole(value: string)
    requires HasGradient(value)
    ensures DissolvedBackground(value) == [("background", value)]
  {
  }

  /** An important `background` makes every one of its longhands important. */
  lemma DissolvedBackgroundImportant(value: string, q: nat)
    requires !HasGradient(value) && IsImportant(value) && q < 8
    ensures IsImportant(DissolvedBackground(value)[q].1)
  {
    var slots := Layers(NoSlots, Scanner.Exploded(',', RemoveImportant(value)));
    assert DissolvedBackground(value) == FinishAll(slots, SpacedImportant, 8);
    assert DissolvedBackground(value)[q].1 == Finished(slots, SpacedImportant, q);
    match slots[q]
    case Some(t) => SpacedIsImportant(Substr(t, 0, -1));
    case None => SpacedIsImportant(BackgroundDefaults[q]);
  }

  /** A longhand nothing in the value fills gets its default. */
  lemma UnfilledGetsDefault(value: string, q: nat)
    requires !HasGradient(value) && !IsImportant(value) && q < 8
    requires Layers(NoSlots, Scanner.Exploded(',', value))[q].None?
    ensures DissolvedBackground(value)[q].1 == BackgroundDefaults[q]
  {
  }

  // ----------------------------------------------------------- mergeBackground

  /** PHP's truth value of a string: anything but `""` and `"0"`. */
  predicate Truthy(s: string) {
    s != "" && s != "0"
  }

  /** A non-empty `background` declaration makes `mergeBackground` leave the block alone. */
  predicate HasBackground(m: Props) {
    Value(m, "background").Some? && Truthy(Value(m, "background").value)
  }

  /** Some present longhand holds a gradient. */
  predicate GradientIn(m: Props) {
    exists q :: 0 <= q < 8 && Value(m, BackgroundNames[q]).Some? && HasGradient(Value(m, BackgroundNames[q]).value)
  }

  /** `$explodedImage`: the layers of `background-image`, without `!important`. */
  function ImageLayers(m: Props): seq<string> {
    match Value(m, "background-image")
    case Some(v) => Scanner.Exploded(',', RemoveImportant(v))
    case None => []
  }

  /** `$colorCount` */
  function ColorCount(m: Props): nat {
    match Value(m, "background-color")
    case Some(v) => |Scanner.Exploded(',', v)|
    case None => 0
  }

  /** `$numberOfValues`: the number of layers the merged value gets. */
  function LayerCount(m: Props): (n: nat)
    ensures n >= 1 && n >= |ImageLayers(m)| && n >= ColorCount(m)
  {
    var a := |ImageLayers(m)|;
    var b := ColorCount(m);
    if a >= b && a >= 1 then a else if b >= 1 then b else 1
  }

  /** The merged text so far and the importance suffix seen so far. */
  datatype Merging = Merging(text: string, important: string)

  /** Longhands that only matter for a layer with an image. */
  predicate ImageOnly(q: nat) {
    q == Size || q == Position || q == Attachment || q == Repeat
  }

  /**
   * Longhand `q` in layer `i`: `None` when it holds a gradient (the merge
   * is abandoned), otherwise what it adds to the merged text.
   */
  function MergeLonghand(m: Props, image: seq<string>, i: nat, q: nat, acc: Merging): Option<Merging>
    requires q < 8
  {
    match Value(m, BackgroundNames[q])
    case None => Some(acc)
    case Some(current) =>
      if HasGradient(current) then None
      else if (i >= |image| || image[i] == "none") && ImageOnly(q) then Some(acc)
      else Some(Contributed(acc, current, i, q))
  }

  /** What a present, gradient-free longhand adds to layer `i`: its `i`-th comma part, unless it is the default. */
  function Contributed(acc: Merging, current: string, i: nat, q: nat): Merging
    requires q < 8
  {
    var important := if IsImportant(current) then SpacedImportant else acc.important;
    var value := if IsImportant(current) then RemoveImportant(current) else current;
    if value == BackgroundDefaults[q] then acc.(important := important)
    else
      var temp := Scanner.Exploded(',', value);
      if i < |temp| then
        Merging(if q == Size then acc.text + "(" + temp[i] + ") " else acc.text + temp[i] + " ", important)
      else acc.(important := important)
  }

  /** The first `k` longhands of layer `i`. */
  function MergeRow(m: Props, image: seq<string>, i: nat, k: nat, acc: Merging): Option<Merging>
    requires k <= 8
  {
    if k == 0 then Some(acc)
    else match MergeRow(m, image, i, k - 1, acc)
      case None => None
      case Some(a) => MergeLonghand(m, image, i, k - 1, a)
  }

  /** The end of a layer: trim, and a comma unless it is the last one. */
  function CloseLayer(acc: Merging, i: nat, count: nat): Merging {
    var t := Trim(acc.text);
    acc.(text := if i != count - 1 then t + "," else t)
  }

  /** The first `i` of `count` layers. */
  function MergeLayers(m: Props, image: seq<string>, count: nat, i: nat): Option<Merging> {
    if i == 0 then Some(Merging("", ""))
    else match MergeLayers(m, image, count, i - 1)
      case None => None
      case Some(a) =>
        match MergeRow(m, image, i - 1, 8, a)
        case None => None
        case Some(b) => Some(CloseLayer(b, i - 1, count))
  }

  /** The merged text and importance, or `None` when a gradient stops the merge. */
  function Merge(m: Props): Option<Merging> {
    MergeLayers(m, ImageLayers(m), LayerCount(m), LayerCount(m))
  }

  /** `mergeBackground`, as the new declarations of the block. */
  function MergedBackground(m: Props): Props {
    if HasBackground(m) then m
    else match Merge(m)
      case None => m
      case Some(a) =>
        var cleared := RemoveKeys(m, BackgroundNames);
        if a.text != "" then Put(cleared, Name("background"), Decl(a.text + a.important))
        else if Value(cleared, "background").Some? then Put(cleared, Name("background"), Decl("none"))
        else cleared
  }

  /** A gradient in longhand `q` ends the row there, whatever came before. */
  lemma {:induction false} GradientEndsRow(m: Props, image: seq<string>, i: nat, k: nat, acc: Merging, q: nat)
    requires q < k <= 8
    requires Value(m, BackgroundNames[q]).Some? && HasGradient(Value(m, BackgroundNames[q]).value)
    ensures MergeRow(m, image, i, k, acc).None?
  {
    if q < k - 1 {
      GradientEndsRow(m, image, i, k - 1, acc, q);
    }
  }

  /** Once abandoned, a row stays abandoned for every later longhand. */
  lemma {:induction false} RowStaysAbandoned(m: Props, image: seq<string>, i: nat, k: nat, acc: Merging)
    requires k <= 8 && MergeRow(m, image, i, k, acc).None?
    ensures MergeRow(m, image, i, 8, acc).None?
    decreases 8 - k
  {
    if k < 8 {
      RowStaysAbandoned(m, image, i, k + 1, acc);
    }
  }

  /** Once abandoned, the merge stays abandoned for every later layer. */
  lemma {:induction false} AbandonedStays(m: Props, image: seq<string>, count: nat, i: nat, j: nat)
    requires i <= j && MergeLayers(m, image, count, i).None?
    ensures MergeLayers(m, image, count, j).None?
    decreases j
  {
    if i < j {
      AbandonedStays(m, image, count, i, j - 1);
    }
  }

  /** A non-empty `background` is left as it is, and so is everything else. */
  lemma BackgroundPresentKeepsAll(m: Props)
    requires HasBackground(m)
    ensures MergedBackground(m) == m
  {
  }

  /** A gradient in any longhand leaves the block unchanged. */
  lemma GradientKeepsAll(m: Props)
    requires GradientIn(m)
    ensures MergedBackground(m) == m
  {
    var q :| 0 <= q < 8 && Value(m, BackgroundNames[q]).Some? && HasGradient(Value(m, BackgroundNames[q]).value);
    GradientEndsRow(m, ImageLayers(m), 0, 8, Merging("", ""), q);
    AbandonedStays(m, ImageLayers(m), LayerCount(m), 1, LayerCount(m));
  }

  lemma BackgroundNamesDistinct()
    ensures forall q :: 0 <= q < 8 ==> BackgroundNames[q] != "background"
    ensures forall a, b :: 0 <= a < b < 8 ==> BackgroundNames[a] != BackgroundNames[b]
  {
  }

  /** Once merged, none of the eight longhands is left. */
  lemma MergedDropsLonghands(m: Props, q: nat)
    requires DistinctKeys(m) && Merge(m).Some? && !HasBackground(m) && q < 8
    ensures !Has(MergedBackground(m), Name(BackgroundNames[q]))
  {
    var cleared := RemoveKeys(m, BackgroundNames);
    RemoveKeysGone(m, BackgroundNames, q);
    BackgroundNamesDistinct();
    PutOther(cleared, Name("background"), Decl(Merge(m).value.text + Merge(m).value.important), Name(BackgroundNames[q]));
    PutOther(cleared, Name("background"), Decl("none"), Name(BackgroundNames[q]));
  }

  /** Declarations other than `background` and its longhands are untouched. */
  lemma MergedKeepsOthers(m: Props, k: Key)
    requires DistinctKeys(m) && k != Name("background") && forall q :: 0 <= q < 8 ==> k != Name(BackgroundNames[q])
    ensures Has(MergedBackground(m), k) <==> Has(m, k)
    ensures Has(m, k) ==> Get(MergedBackground(m), k) == Get(m, k)
  {
    if HasBackground(m) || Merge(m).None? {
      assert MergedBackground(m) == m;
    } else {
      var a := Merge(m).value;
      var cleared := RemoveKeys(m, BackgroundNames);
      RemoveKeysOther(m, BackgroundNames, k);
      if a.text != "" {
        var v := Decl(a.text + a.important);
        assert MergedBackground(m) == Put(cleared, Name("background"), v);
        PutOther(cleared, Name("background"), v, k);
      } else if Value(cleared, "background").Some? {
        assert MergedBackground(m) == Put(cleared, Name("background"), Decl("none"));
        PutOther(cleared, Name("background"), Decl("none"), k);
      } else {
        assert MergedBackground(m) == cleared;
      }
    }
  }

  /** A text without an opening bracket holds no gradient. */
  lemma NoBracketNoGradient(v: string)
    requires forall i :: 0 <= i < |v| ==> v[i] != '('
    ensures !HasGradient(v)
  {
    var r := Find(Lower(v), "gradient(", 0);
    if r != -1 {
      GradientEndsInBracket(Lower(v), r);
    }
  }

  lemma GradientEndsInBracket(s: string, r: nat)
    requires OccursAt(s, "gradient(", r)
    ensures r + 8 < |s| && s[r + 8] == '('
  {
    assert s[r..r + 9][8] == '(';
  }

  /** A text without brackets, commas or exclamation marks. */
  predicate Plain(v: string) {
    forall i :: 0 <= i < |v| ==> v[i] != '(' && v[i] != ',' && v[i] != '!'
  }

  /** Every default value is plain text. */
  lemma DefaultsArePlainText(q: nat)
    requires q < 8
    ensures BackgroundDefaults[q] != "" && Plain(BackgroundDefaults[q])
  {
    var d := BackgroundDefaults[q];
    if q == 0 { assert d == "none"; }
    else if q == 1 { assert d == "auto"; }
    else if q == 2 { assert d == "repeat"; }
    else if q == 3 { assert d == "0 0"; }
    else if q == 4 { assert d == "scroll"; }
    else if q == 5 { assert d == "border"; }
    else if q == 6 { assert d == "padding"; }
    else { assert d == "transparent"; }
  }

  /** No default value holds a gradient, a comma, or `!important`. */
  lemma DefaultsArePlain(q: nat)
    requires q < 8
    ensures !HasGradient(BackgroundDefaults[q]) && !IsImportant(BackgroundDefaults[q])
    ensures BackgroundDefaults[q] != "" && forall i :: 0 <= i < |BackgroundDefaults[q]| ==> BackgroundDefaults[q][i] != ','
  {
    var d := BackgroundDefaults[q];
    DefaultsArePlainText(q);
    NoBracketNoGradient(d);
    assert forall i :: 0 <= i < |d| ==> d[i] != '!';
    NoBangNotImportant(d);
  }

  /** Longhands that all hold their defaults add nothing to a layer. */
  lemma {:induction false} DefaultsAddNothingToRow(m: Props, image: seq<string>, k: nat, acc: Merging)
    requires k <= 8
    requires forall q :: 0 <= q < 8 && Value(m, BackgroundNames[q]).Some? ==> Value(m, BackgroundNames[q]).value == BackgroundDefaults[q]
    ensures MergeRow(m, image, 0, k, acc) == Some(acc)
  {
    if k > 0 {
      DefaultsAddNothingToRow(m, image, k - 1, acc);
      DefaultsArePlain(k - 1);
    }
  }

  /** Longhands that all hold their defaults make a single layer. */
  lemma DefaultsMakeOneLayer(m: Props)
    requires forall q :: 0 <= q < 8 && Value(m, BackgroundNames[q]).Some? ==> Value(m, BackgroundNames[q]).value == BackgroundDefaults[q]
    ensures LayerCount(m) == 1
  {
    assert BackgroundNames[Image] == "background-image" && BackgroundDefaults[Image] == "none";
    assert BackgroundNames[Color] == "background-color" && BackgroundDefaults[Color] == "transparent";
    DefaultImageOneLayer(m);
    DefaultColorOneLayer(m);
  }

  /** A default `background-image` is one layer. */
  lemma DefaultImageOneLayer(m: Props)
    requires Value(m, "background-image").Some? ==> Value(m, "background-image").value == "none"
    ensures |ImageLayers(m)| <= 1
  {
    if Value(m, "background-image").Some? {
      DefaultsArePlain(Image);
      assert RemoveImportant("none") == "none";
      Scanner.ExplodedWithoutSeparator(',', "none");
    }
  }

  /** A default `background-color` is one layer. */
  lemma DefaultColorOneLayer(m: Props)
    requires Value(m, "background-color").Some? ==> Value(m, "background-color").value == "transparent"
    ensures ColorCount(m) <= 1
  {
    if Value(m, "background-color").Some? {
      DefaultsArePlain(Color);
      Scanner.ExplodedWithoutSeparator(',', "transparent");
    }
  }

  /**
   * Default values are not written: when every longhand present holds its
   * default, the longhands are dropped and an empty `background` becomes
   * `none`.
   */
  lemma DefaultsOmitted(m: Props)
    requires DistinctKeys(m) && !HasBackground(m)
    requires forall q :: 0 <= q < 8 && Value(m, BackgroundNames[q]).Some? ==> Value(m, BackgroundNames[q]).value == BackgroundDefaults[q]
    ensures Merge(m) == Some(Merging("", ""))
    ensures MergedBackground(m) == if Value(m, "background").Some?
      then Put(RemoveKeys(m, BackgroundNames), Name("background"), Decl("none"))
      else RemoveKeys(m, BackgroundNames)
  {
    DefaultsMergeNothing(m);
    var cleared := RemoveKeys(m, BackgroundNames);
    BackgroundNamesDistinct();
    RemoveKeysOther(m, BackgroundNames, Name("background"));
    assert Value(cleared, "background") == Value(m, "background");
  }

  /** Longhands that all hold their defaults merge into an empty, plain value. */
  lemma DefaultsMergeNothing(m: Props)
    requires forall q :: 0 <= q < 8 && Value(m, BackgroundNames[q]).Some? ==> Value(m, BackgroundNames[q]).value == BackgroundDefaults[q]
    ensures Merge(m) == Some(Merging("", ""))
  {
    var image := ImageLayers(m);
    DefaultsMakeOneLayer(m);
    assert Merge(m) == MergeLayers(m, image, 1, 1);
    DefaultsAddNothingToRow(m, image, 8, Merging("", ""));
    assert MergeLayers(m, image, 1, 0) == Some(Merging("", ""));
    assert Trim("") == "";
  }
}
