# CSSTidy core in Dafny

A model of the core of CSSTidy, a CSS minifier written in PHP, with proofs of
what its parser, its document tree and its optimisers promise. Every module
stands for one part of the program:

- `Text` (text.dfy), `Wrappers` (wrappers.dfy), `OrderedMaps` (ordered.dfy):
  the PHP string functions the code relies on (`trim`, `strtolower`,
  `explode`, `implode`, `strpos`, `substr`), `Option`, and PHP's ordered
  arrays as sequences of key/value pairs. `$m[$k] = $v` replaces in place or
  appends, `unset` removes and `$m[] = $v` appends under the next integer key.
- `Diagnostics` (diagnostics.dfy): the messages the logger receives, as an
  append-only list of entries.
- `Properties` (properties.dfy): the tables of known properties and the CSS
  levels that define them.
- `Scanner` (scanner.dfy): the character-level helpers of `Parser`:
  `escaped`, `isToken`, `removeQuotes`, `normalizeQuotes`,
  `explodeWithoutString`, `unicode`, `parseComment`, `setSubSelectors`,
  `propertyIsValid`, `propertyIsNext` and the look-ahead
  `nextParserInAtRule`.
- `Parser` (parser.dfy): `Parser::parse`, the state machine over the
  selector, property, value, bracket, string and at-rule states, with its
  `$from` stack of return states and its stack of open blocks, and
  `processAtRule`. `Parse` runs the loop as a method; each case is a
  function, and the state invariant (`Consistent`) and lower-case property
  names are proved to hold at every step.
- `Tidy` (tidy.dfy): the importance helpers `isImportant` and
  `removeImportant` of `CSSTidy`, and its older `escaped`, `propertyIsValid`
  and `propertyIsNext`, related to the parser's.
- `Elements` (elements.dfy): the tree of `Block`, `AtBlock` and `Selector`,
  as one class `Block` whose methods update its ordered map of properties
  (space-suffixed names for repeated keys, the `!important`-aware merge,
  adding, removing and finding blocks of the same name).
- `LineAts` (lineat.dfy): the one-line at-rule record and its text.
- `Legacy` (legacy.dfy): the older revision of the tree: `Selector`,
  `AtBlock` with its merge modes, `Parsed` with the nested
  `css[media][selector][property]` array and its renaming of repeated media
  sections, selectors and properties, and `CSSTidy::explodeSelectors`.
- `Manipulate` (manipulate.dfy): the whole-tree passes of
  `SelectorManipulate`: merging blocks with the same name (never
  `@font-face`), merging selectors with the same declarations, discarding
  invalid selectors (section 4.1.7 of CSS 2.1) and separating grouped
  selectors.
- `Shorthands` (shorthand.dfy), `Fonts` (font.dfy), `Backgrounds`
  (background.dfy): the shorthand optimiser: the one-to-four value collapse
  of section 8.3 of CSS 2.1, two-value shorthands, `border-radius`, and the
  dissolving and merging of `font` and `background`.
- `Numbers` (number.dfy): the number optimiser: `analyse`, the
  leading- and trailing-zero rule of `compressNumber` on decimal text,
  zero units, `px`, and `#` for bare hexadecimal colours.

Where the program's behaviour is evidently not what its authors meant, the
model keeps the behaviour as written, in the members the rest of the model
uses, and proves the intended behaviour beside it (see "## Findings").

## Model

| member | source | states |
|---|---|---|
| LineAts.ToText | lib/LineAt.php:22-25 | the text is `@`, the name, one space, the value and `;`, each piece at its place and nothing else |
| LineAts.FromToText | lib/LineAt.php:16-25 | reading the printed text back gives the same name and value whenever the name holds no space, so printing loses nothing |
| Tidy.IsImportant | lib/CSSTidy.php:817-820 | an important value has at least ten characters, the length of the marker it must end with |
| Tidy.RemoveImportant | lib/CSSTidy.php:829-841 | a value that is not important is returned as it is; an important one loses at least the ten marker characters and comes out trimmed |
| Tidy.CutTail | lib/CSSTidy.php:833-837 | `trim(substr($s, 0, -k))` drops at least `k` characters and leaves no blank at either end |
| Tidy.NoBangNotImportant | lib/CSSTidy.php:817-820 | a value without `!` is never important |
| Tidy.MarkedIsImportant | lib/CSSTidy.php:817-820 | a value followed by ` !important` is important, whatever it holds |
| Tidy.SuffixedIsImportant | lib/CSSTidy.php:817-820 | a value followed directly by `!important` is important |
| Tidy.EndsImportant | lib/CSSTidy.php:817-820 | text whose last ten characters are `!important` is important |
| Tidy.RemoveMarkedImportant | lib/CSSTidy.php:829-841 | marking a value important and removing the mark again gives the value back, trimmed: removeImportant undoes the marking |
| Tidy.SameEscaped | lib/CSSTidy.php:805-808 | the older `escaped` of CSSTidy and the parser's `escaped` agree at every position |
| Tidy.TidyPropertyIsValid | lib/CSSTidy.php:885-888 | a property the older table accepts is one the parser's table accepts, and it is accepted exactly when it is not among the properties only the parser's table adds |
| Tidy.TidyPropertyIsNext | lib/CSSTidy.php:851-864 | whenever the older `propertyIsNext` finds a property, the parser's does too |
| Numbers.CheckHexValueMeans | lib/optimise/Number.php:253-262 | `checkHexValue` accepts a string exactly when it has three or six characters, all hex digits (both directions) |
| Numbers.FirstMatch | lib/optimise/Number.php:145 | the unanchored match starts at the leftmost position where the number expression matches, and at no earlier one; there is no match exactly when no position matches |
| Numbers.Analyse | lib/optimise/Number.php:138-175 | text that is empty or starts with `#` or a letter is not a number; `0` is the number 0 without a unit; on success the unit is empty or in the unit table, and in lower case |
| Numbers.AnalyseReadsNumber | lib/optimise/Number.php:138-175 | any number the model can print, followed by a unit of the table, is read back as its compressed value with that unit |
| Numbers.AnalysedIsPrinted | lib/optimise/Number.php:145-166 | every value `analyse` returns is a printed decimal that compressing leaves unchanged |
| Numbers.MatchedWellFormed | lib/optimise/Number.php:145 | what the number expression captures reads as digits, with at most one dot followed by digits |
| Numbers.Canonical | lib/optimise/Number.php:183-195 | the canonical form keeps the sign, has no leading `0` before the dot and no trailing `0` after it, and stays well formed |
| Numbers.ParseRender | lib/optimise/Number.php:183-195 | reading back a printed decimal gives the same decimal |
| Numbers.ParseBody | lib/optimise/Number.php:183-195 | a sign, digits and an optional dot with digits read back as exactly those three parts |
| Numbers.CompressIdempotent | lib/optimise/Number.php:183-195 | compressing a compressed number changes nothing |
| Numbers.CanonicalKeepsZero | lib/optimise/Number.php:116-124 | a number and its compressed form are zero together, so the zero-unit rule sees the same thing before and after compression |
| Numbers.OptimisePart | lib/optimise/Number.php:99-127 | a part gives no result exactly when `analyse` finds no number in it |
| Numbers.Rechecked | lib/optimise/Number.php:107-114 | the corrected hex test: in a colour property a rewritten part that is three or six hex digits gets `#`; anything else is left alone; the log is never changed |
| Numbers.OptimiseParts | lib/optimise/Number.php:99-104 | the walk fails exactly when some part is not a number, and otherwise yields one rewritten part per part |
| Numbers.PartsRewritten | lib/optimise/Number.php:99-127 | without a failure every part is replaced, in order, by its own rewriting |
| Numbers.FailedStays | lib/optimise/Number.php:101-104 | once a part is not a number the walk ends: later parts neither change nor log anything |
| Numbers.Optimise | lib/optimise/Number.php:90-130 | the method returns the value and log the as-written `optimise` function gives |
| Numbers.NotNumberUnchanged | lib/optimise/Number.php:101-104 | a sub-value with a part that is not a number comes back unchanged |
| Numbers.SinglePart | lib/optimise/Number.php:93-97 | outside `font` the sub-value is one part: the result is that part's rewriting, or the sub-value itself when it is not a number |
| Numbers.ZeroLosesUnit | lib/optimise/Number.php:121-124 | outside colour properties a zero loses its unit (`0px` becomes `0`) |
| Numbers.LengthGetsPx | lib/optimise/Number.php:116-120 | a non-zero number without a unit gets `px` in a property that needs a length |
| Numbers.BareHexGetsHash | lib/optimise/Number.php:107-110 | in a colour property three or six hex digits read as a number get `#` and log nothing |
| Numbers.FontTakesNoUnit | lib/optimise/Number.php:42-69 | `font` is in neither the colour table nor the length table |
| Numbers.PrintedHasNoSlash | lib/optimise/Number.php:94 | a printed number followed by a unit holds no `/`, so rejoined `font` parts split back the same way |
| Numbers.RejoinSplits | lib/optimise/Number.php:94 | splitting on `/` the rejoined text of slash-free parts gives back the first two parts |
| Numbers.PartSettles | lib/optimise/Number.php:99-127 | optimising the text a part became gives that text again or finds no number in it (a `#` colour), for every property with the correction and outside colour properties as written |
| Numbers.PrintedReadsItself | lib/optimise/Number.php:138-175 | a printed canonical number followed by a known unit is read back as exactly that number and unit |
| Numbers.Reread | lib/optimise/Number.php:99-127 | a part that `analyse` reads as a number whose rewriting gives the part back is returned unchanged |
| Numbers.OptimiseIdempotent | lib/optimise/Number.php:90-130 | optimising an optimised value changes nothing: with the corrected hex test for every property, as written for every property outside the colour table |
| Numbers.ColourTwiceDiffers | lib/optimise/Number.php:107-126 | as written, `color: w.0` for a three-digit integer `w` (`100.0`) becomes `w`, and optimising `w` again gives `#w`: a second pass still changes the value |
| Numbers.ColourOncePasses | lib/optimise/Number.php:107-126 | with the corrected hex test, `color: w.0` becomes `#w` in a single pass |
| Elements.MergeOne | lib/elements/Block.php:74-82 | a key already present stays present after one step of `mergeProperties` |
| Elements.MergeSkipsEmpty | lib/elements/Block.php:76 | an empty value changes nothing |
| Elements.MergeOverwritesPlain | lib/elements/Block.php:75-81 | a non-empty value is stored under an absent key, and over a present value that is not important |
| Elements.MergeImportantWins | lib/elements/Block.php:78-81 | an important value is replaced only by a non-empty important one; a value that is not important leaves the array as it was |
| Elements.MergeOther | lib/elements/Block.php:81 | one step writes only its own key: every other key keeps its presence and value |
| Elements.MergeAllOther | lib/elements/Block.php:72-84 | keys the merged array does not mention keep their presence and value |
| Elements.MergeAllAt | lib/elements/Block.php:72-84 | with distinct keys, each merged key ends up with its new value exactly when that value overrides the existing one, and keeps the existing one otherwise (both directions) |
| Elements.ChainSearch | lib/elements/AtBlock.php:55-61 | a search that succeeds stops at a key in use whose entry is the one looked for |
| Elements.ChainFirstHit | lib/elements/AtBlock.php:55-61 | every key probed before the hit is in use and its entry misses: the search stops at the first hit |
| Elements.ChainNoneMisses | lib/elements/AtBlock.php:74-86 | a search that finds nothing saw every key of the chain, up to the first unused one, miss |
| Elements.ChainHit | lib/elements/AtBlock.php:56-58 | a key in use whose entry hits ends the search there |
| Elements.ChainMiss | lib/elements/AtBlock.php:60 | a key in use whose entry misses sends the search on to the key with one more space |
| Elements.ChainEnd | lib/elements/AtBlock.php:55 | an unused key ends the search empty-handed |
| Elements.SameName | lib/elements/AtBlock.php:70-87 | `getBlockWithSameName` never returns its argument, only another block of the same class and name that is stored in the array |
| Elements.SameNameAt | lib/elements/AtBlock.php:72-86 | the block returned is the one the key-chain search finds under `'!' . name` |
| Elements.Removed | lib/elements/AtBlock.php:51-64 | when the object is not on its key chain nothing changes, otherwise exactly one entry goes |
| Elements.RemovedKeepsOthers | lib/elements/AtBlock.php:55-58 | `removeBlock` unsets the object's key and keeps every other key with its value |
| Elements.RemovedDistinct | lib/elements/AtBlock.php:57 | `removeBlock` keeps the keys distinct |
| Elements.RemovedKeepsEntry | lib/elements/AtBlock.php:55-58 | an entry other than the removed object keeps its key and value, and moves up by at most one place |
| Elements.RemovedAppend | lib/elements/AtBlock.php:51-64 | removing an object found before entries appended later removes it and keeps the appended ones |
| Elements.Added | lib/elements/Block.php:50-57 | `addProperty` appends one pair under the name followed by the fewest spaces that make the key unused, and never overwrites |
| Elements.MergedAppends | lib/elements/AtBlock.php:92-103 | `merge` only appends: one entry per merged entry, every earlier pair kept in place |
| Elements.MergedValues | lib/elements/AtBlock.php:94-102 | `merge` keeps each merged entry's value, in order, after the existing ones |
| Elements.RemoveKeys | lib/optimise/Shorthand.php:337 | unsetting a list of names keeps the keys distinct |
| Elements.RemoveKeysOther | lib/optimise/Shorthand.php:337 | unsetting other names leaves a key and its value alone |
| Elements.RemoveKeysGone | lib/optimise/Shorthand.php:337 | every unset name is gone |
| Elements.Block.constructor | lib/elements/Block.php:41-44 | a new block has the given name and kind and no properties or sub-selectors |
| Elements.Block.AddProperty | lib/elements/Block.php:50-57 | the new property array is Added of the old one, so earlier pairs stay and the keys stay distinct; name and sub-selectors are unchanged |
| Elements.Block.SetProperties | lib/elements/Block.php:62-67 | the new property array is `addProperty` applied to each pair in order |
| Elements.Block.MergeProperties | lib/elements/Block.php:72-84 | the new property array is MergeOne applied to each entry in order, with the override rule of MergeAllAt |
| Elements.Block.AddBlock | lib/elements/AtBlock.php:36-45 | the block is stored under `'!' . name` plus the fewest spaces that make the key unused, and is returned |
| Elements.Block.RemoveBlock | lib/elements/AtBlock.php:51-64 | returns true exactly when the object is on its key chain, and leaves the array Removed of the old one |
| Elements.Block.GetBlockWithSameName | lib/elements/AtBlock.php:70-87 | returns what SameName gives: another block of the same class and name, or nothing |
| Elements.Block.Merge | lib/elements/AtBlock.php:92-103 | the new array is the old one with every entry of the other block added, never overwriting |
| Elements.Block.AddLineAt | lib/elements/AtBlock.php:108-111 | the line is appended under one more than the largest integer key |
| Elements.Block.AppendSelectorName | lib/elements/Selector.php:12-16 | the selector ends the sub-selector list, the name gains `,` and the selector, and the properties are unchanged |
| Elements.AddedAllDistinct | lib/elements/Block.php:62-67 | `setProperties` keeps the keys distinct |
| Elements.AddedAllAppends | lib/elements/Block.php:62-67 | `setProperties` keeps every pair it was given, in order, after the existing ones |
| OrderedMaps.FreshSpaces | lib/elements/Block.php:52-54 | the loop that appends spaces to a name stops at an unused key, and every key it passed on the way is in use |
| OrderedMaps.FreshSpacesLeast | lib/elements/Block.php:52-54 | the number of spaces appended is the fewest that make the key unused |
| OrderedMaps.FreshName | lib/elements/AtBlock.php:38-42 | the key the loop settles on is not in use |
| OrderedMaps.Push | lib/elements/AtBlock.php:110 | `$m[] = $v` appends one pair holding the value and keeps every earlier pair |
| OrderedMaps.PushFresh | lib/elements/AtBlock.php:110 | the key `$m[] =` uses is not in use, so the keys stay distinct |
| Legacy.FontFaceAppended | lib/AtBlock.php:17-21 | `@font-face` is never merged: it is appended under an unused key and returned |
| Legacy.MergeModeAbsorbs | lib/AtBlock.php:22-26 | in MERGE_SELECTORS mode the selector already stored under the name absorbs the new properties by `mergeProperties` and is returned; no entry is added and no other entry changes |
| Legacy.OtherModesAppend | lib/AtBlock.php:27-40 | in the other modes a name used by an entry other than the last is stored under the name plus at least one space, at an unused key, without overwriting |
| Legacy.UnusedNameStored | lib/AtBlock.php:43 | a name not yet in use is stored as it is, in every mode |
| Legacy.SelectorAddedKeepsDistinct | lib/AtBlock.php:13-44 | `addSelector` keeps the keys distinct |
| Legacy.FirstHolder | lib/AtBlock.php:51-57 | the position found holds the object and no earlier one does; none is found only when no entry holds it |
| Legacy.SelectorRemoved | lib/AtBlock.php:49-58 | nothing changes when no entry is the object; otherwise exactly the first entry that is goes |
| Legacy.RemovesOnlyFirst | lib/AtBlock.php:53-55 | after `removeSelector` every other entry is kept in order, and no entry before the removed one held the object |
| Legacy.DropKeepsDistinct | lib/AtBlock.php:54 | unsetting one entry keeps the keys distinct |
| Legacy.FreshKey | lib/Selector.php:26-28 | the loop appends spaces until the key is unused, the fewest that do so |
| Legacy.Selector.constructor | lib/Selector.php:15-18 | a new selector has the given name and no properties |
| Legacy.Selector.AddProperty | lib/Selector.php:24-31 | the pair is appended under the name plus the fewest spaces that make the key unused; nothing is overwritten |
| Legacy.Selector.MergeProperties | lib/Selector.php:36-48 | the same override rule as `Block::mergeProperties`: empty values are skipped and a plain value never replaces an important one |
| Legacy.Selector.AddSelector | lib/AtBlock.php:13-44 | the new array and the selector returned are those of SelectorAdded in the configured mode; when the entry to absorb into is not a selector, nothing changes and nothing is returned |
| Legacy.Selector.Absorb | lib/AtBlock.php:24-25 | the selector stored under the key absorbs the properties and is returned |
| Legacy.Selector.RemoveSelector | lib/AtBlock.php:49-58 | the array becomes SelectorRemoved of the old one |
| Legacy.Selector.AddLineAt | lib/AtBlock.php:63-66 | the line is appended under one more than the largest integer key |
| Legacy.StoredGet | lib/Parsed.php:70 | the value stored in the nested array is read back |
| Legacy.StoredOther | lib/Parsed.php:70 | storing one property changes no other media, selector or property |
| Legacy.StoredOtherMedia | lib/Parsed.php:70 | storing leaves every other media section as it was |
| Legacy.StoredKeepsDistinct | lib/Parsed.php:70 | storing keeps the selector keys of every media section distinct |
| Legacy.AddPropertySkips | lib/Parsed.php:61-63 | in preserve mode, and for a value that trims to nothing, `addProperty` changes nothing |
| Legacy.AddPropertyKeepsImportant | lib/Parsed.php:65-68 | an important value is not replaced by a plain one |
| Legacy.AddPropertyStores | lib/Parsed.php:65-71 | otherwise the property holds the trimmed value afterwards, and no other property changes |
| Legacy.AddPropertyOthers | lib/Parsed.php:59-72 | `addProperty` changes at most the one property it is given |
| Legacy.AddPropertyShape | lib/Parsed.php:59-72 | `addProperty` leaves other media sections alone and keeps selector keys distinct |
| Legacy.CssMergedOthers | lib/Parsed.php:81-86 | properties `mergeCssBlocks` is not given, and other selectors, keep their values |
| Legacy.CssMergedShape | lib/Parsed.php:81-86 | `mergeCssBlocks` leaves other media sections alone and keeps selector keys distinct |
| Legacy.MediaRoomLeft | lib/Parsed.php:116-122 | a media key in use leaves the renaming loop room to go on, so the loop ends |
| Legacy.FreshMedia | lib/Parsed.php:116-122 | the renamed media key is unused, and a numeric name stays numeric |
| Legacy.MediaSectionFresh | lib/Parsed.php:97-124 | outside preserve mode a new media section never lands on a section in use, except the last one, which it continues; numeric names stay numeric |
| Legacy.FontFaceSelectorFresh | lib/Parsed.php:145-167 | a selector starting with `@font-face` always gets a name not in use in its media section |
| Legacy.SelectorNameCollides | lib/Parsed.php:139-168 | a new selector name is one in use only when it is the trimmed name, does not start with `@font-face`, and merging is on or it is the last selector |
| Legacy.PropertyNameFresh | lib/Parsed.php:180-195 | outside preserve mode a new property name is never in use in its selector and starts with the name given |
| Legacy.Parsed.constructor | lib/Parsed.php:30-34 | the settings are copied from the configuration; the tree, the tokens and the header rules start empty |
| Legacy.Parsed.AddToken | lib/Parsed.php:43-48 | a token is recorded only in preserve mode or when forced, comments verbatim and anything else trimmed; the tree is unchanged |
| Legacy.Parsed.AddProperty | lib/Parsed.php:59-72 | the tree becomes PropertyAdded of the old one, with the properties above |
| Legacy.Parsed.MergeCssBlocks | lib/Parsed.php:81-86 | the tree becomes `addProperty` applied to each entry in order |
| Legacy.Parsed.NewMediaSection | lib/Parsed.php:97-124 | returns MediaSection, so MediaSectionFresh holds of the result |
| Legacy.Parsed.NewSelector | lib/Parsed.php:139-168 | returns SelectorName, so FontFaceSelectorFresh and SelectorNameCollides hold of the result |
| Legacy.Parsed.NewProperty | lib/Parsed.php:180-195 | returns PropertyName, so PropertyNameFresh holds of the result |
| Legacy.Parsed.Spread | lib/CSSTidy.php:739-743 | each fragment receives, by `mergeCssBlocks`, what the whole group holds at that moment, if it is set |
| Legacy.SpreadOverShape | lib/CSSTidy.php:739-743 | copying to the fragments leaves other media sections alone and keeps selector keys distinct |
| Legacy.ExplodedRemovesGroup | lib/CSSTidy.php:738-745 | once a group of more than one selector is exploded, the group's own key is gone from its media section and every other media section is as it was |
| Legacy.CssTidy.ExplodeSelectors | lib/CSSTidy.php:722-748 | only in SEPARATE_SELECTORS mode is the tree changed, into Exploded of the old one; the recorded comma positions are always cleared and the tokens are unchanged |
| OrderedMaps.Put | lib/elements/Block.php:56 | assigning to a present key keeps the length; to an absent key it appends the pair at the end |
| OrderedMaps.PutGet | lib/elements/Block.php:56 | after `$m[$k] = $v`, `$m[$k]` is `$v` |
| OrderedMaps.PutOther | lib/elements/Block.php:81 | assigning one key leaves every other key's presence and value alone |
| OrderedMaps.PutKeepsDistinct | lib/elements/Block.php:81 | assignment keeps the keys distinct |
| OrderedMaps.PutInPlace | lib/elements/Block.php:81 | assigning to a present key keeps every key at its position |
| OrderedMaps.Remove | lib/elements/AtBlock.php:57 | `unset` of a present key removes one pair; of an absent key changes nothing |
| OrderedMaps.RemoveOther | lib/elements/AtBlock.php:57 | `unset` leaves every other key's presence and value alone |
| OrderedMaps.RemoveKeeps | lib/optimise/Shorthand.php:334 | a key other than the unset one keeps its value |
| OrderedMaps.RemoveGone | lib/optimise/Shorthand.php:547 | after `unset` the key is gone and the keys stay distinct |
| OrderedMaps.RemoveTwo | lib/optimise/Shorthand.php:377 | two `unset`s remove both keys and leave a third alone |
| OrderedMaps.RemovedIndex | lib/elements/AtBlock.php:57 | after `unset` the pairs before the removed one keep their positions and the later ones move up by one |
| OrderedMaps.FreshNameUnused | lib/elements/Block.php:52-54 | a name not in use is taken as it is |
| OrderedMaps.PutFresh | lib/elements/Block.php:52-56 | storing under the name the loop settles on appends one pair and keeps the keys distinct |
| Manipulate.SpaceEnd | lib/SelectorManipulate.php:102 | the greedy `\s*` of the separator pattern stops at the first character that is not whitespace |
| Manipulate.RunStart | lib/SelectorManipulate.php:102 | the separator pattern can first match at the first combinator or whitespace character |
| Manipulate.MatchEnd | lib/SelectorManipulate.php:102 | a match of `\s*[+>~\s]\s*` consumes at least one character |
| Manipulate.MatchEndsInRun | lib/SelectorManipulate.php:102 | the last character a match consumes is whitespace or a combinator |
| Manipulate.PairInMatch | lib/SelectorManipulate.php:102 | a match swallows whitespace after a combinator but not a second combinator: a pair of combinators splits around an empty piece |
| Manipulate.SplitFromGap | lib/SelectorManipulate.php:102-107 | `preg_split` leaves an empty piece exactly when the text is empty, starts or ends with a combinator or whitespace, or has two combinators with only whitespace between them (both directions) |
| Manipulate.SimpleSelectorsGap | lib/SelectorManipulate.php:102-107 | the same equivalence for one whole comma part |
| Manipulate.ValidSelectorMeans | lib/SelectorManipulate.php:98-111 | a selector name passes the check of `discardInvalid` exactly when every trimmed comma part is simple selectors joined by single combinators (section 4.1.7 of CSS 2.1) |
| Manipulate.PartsMeans | lib/SelectorManipulate.php:101-111 | the trimmed comma parts pass exactly when each one is well joined |
| Manipulate.TrimAll | lib/SelectorManipulate.php:99 | each comma part is trimmed, and no part is added or lost |
| Manipulate.CheckSelector | lib/SelectorManipulate.php:98-111 | the flag `$ok` is true exactly when the name is a valid selector |
| Manipulate.CheckParts | lib/SelectorManipulate.php:101-111 | the loops over the parts end with `$ok` true exactly when no part splits into an empty simple selector (`break 2` included) |
| Manipulate.HasEmpty | lib/SelectorManipulate.php:103-110 | the inner loop finds an empty simple selector exactly when there is one |
| Manipulate.Kept | lib/SelectorManipulate.php:90-115 | one entry gives at most one entry, under its own key |
| Manipulate.FilteredSelector | lib/SelectorManipulate.php:94-115 | a selector survives `discardInvalid` exactly when its name is valid, and then keeps its value |
| Manipulate.FilteredOther | lib/SelectorManipulate.php:90-96 | declarations and at-rule lines stay as they are; a nested at-rule block stays and is cleaned in turn |
| Manipulate.EachKeptDistinct | lib/SelectorManipulate.php:114 | removing entries keeps the keys distinct |
| Manipulate.EachKeptKeys | lib/SelectorManipulate.php:114 | every key left was a key of the block: nothing is added |
| Manipulate.EachKeptAt | lib/SelectorManipulate.php:90-116 | an entry's key is still there exactly when the rule keeps the entry, and then holds what the rule made of it |
| Manipulate.DiscardFuel | lib/SelectorManipulate.php:92 | once the depth bound reaches the height of the nested blocks, raising it changes nothing |
| Manipulate.DiscardSettles | lib/SelectorManipulate.php:92 | a bound of at least the height of the tree reaches every nested block |
| Manipulate.DiscardInvalid | lib/SelectorManipulate.php:88-117 | the block becomes Discard of the old one: invalid selectors gone, nested at-rule blocks cleaned in turn, everything else in its place |
| Manipulate.DiscardEntries | lib/SelectorManipulate.php:90-116 | the loop leaves the entries Filtered by the rule, in their order |
| Manipulate.DiscardEntry | lib/SelectorManipulate.php:91-115 | one turn replaces the entry by what the rule makes of it and leaves the entries before and after alone |
| Manipulate.DiscardChild | lib/SelectorManipulate.php:92 | the nested call cleans the at-rule block it is given |
| Manipulate.SplitPairs | lib/SelectorManipulate.php:139-143 | one new selector per sub-selector, in order, under `'!' . sub-selector`, each with the element's properties and a fresh identity |
| Manipulate.SeparatedFuel | lib/SelectorManipulate.php:130 | once the depth bound reaches the height of the nested blocks, raising it changes nothing |
| Manipulate.SeparatedFoldFuel | lib/SelectorManipulate.php:126-146 | the loop enters only the blocks it started with, so their height is the bound it needs |
| Manipulate.SeparateSettles | lib/SelectorManipulate.php:130 | a bound of at least the height of the tree reaches every nested block |
| Manipulate.SeparateSplits | lib/SelectorManipulate.php:135-145 | a selector with several sub-selectors gives way to one new selector per sub-selector, each holding its properties, after the other entries, which keep their order |
| Manipulate.SplitAppends | lib/SelectorManipulate.php:139-143 | the new selectors are appended one per sub-selector, in order, and every earlier entry is kept |
| Manipulate.SeparateTurnKeepsPlain | lib/SelectorManipulate.php:126-146 | one turn keeps the keys distinct and leaves declarations and at-rule lines with their values |
| Manipulate.SeparatedKeepsPlain | lib/SelectorManipulate.php:124-147 | `separate` keeps the keys distinct and leaves declarations and at-rule lines with their values |
| Manipulate.Separate | lib/SelectorManipulate.php:124-147 | the block and the identity counter become SeparatedNode of the old block |
| Manipulate.SeparateEntry | lib/SelectorManipulate.php:127-145 | one turn of the loop leaves the array as SeparateTurn says, name and sub-selectors unchanged |
| Manipulate.AddSplitBlocks | lib/SelectorManipulate.php:139-143 | the inner loop adds each new selector with `addBlock`, in order |
| Manipulate.SeparateChild | lib/SelectorManipulate.php:130 | the nested call separates the at-rule block it is given |
| Manipulate.Absorb | lib/SelectorManipulate.php:27-32 | taking in a namesake keeps the element's identity, class and name |
| Manipulate.TakeNamesake | lib/SelectorManipulate.php:25-34 | the keys stay distinct, the element keeps its key, and the cursor's element moves up by at most one place |
| Manipulate.TakeNamesakeEffect | lib/SelectorManipulate.php:25-34 | with a namesake found, the element becomes the merge of the two, exactly one entry goes and it held the namesake, and every other entry keeps its value |
| Manipulate.NamesakeFound | lib/SelectorManipulate.php:31-33 | after the element is written back, `removeBlock` still finds the namesake `getBlockWithSameName` returned |
| Manipulate.NameTurn | lib/SelectorManipulate.php:24-38 | one turn keeps the keys distinct and the element under its key, and never moves the cursor back |
| Manipulate.NameTurnEffect | lib/SelectorManipulate.php:24-38 | the element's namesake, if any, is merged into it (`merge` for an at-rule block, `mergeProperties` for a selector) and removed; an at-rule element is then merged in turn; nothing else changes |
| Manipulate.NameStep | lib/SelectorManipulate.php:15-38 | each turn keeps the keys distinct and brings the cursor nearer the end, so the loop ends |
| Manipulate.NameStepCases | lib/SelectorManipulate.php:16-22 | entries that are not blocks and `@font-face` at-rule blocks are passed over; any other block takes its turn and the cursor moves past it |
| Manipulate.NameStepTurns | lib/SelectorManipulate.php:16-38 | a block that is not passed over takes its turn and the cursor moves past it |
| Manipulate.NamesFromStep | lib/SelectorManipulate.php:15-16 | the loop goes on after an entry that is not falsy from where the cursor then stands |
| Manipulate.NameTurnSpares | lib/SelectorManipulate.php:24-38 | a turn adds no key, changes no block's identity, class or name, and keeps every spared entry |
| Manipulate.NamesakeNotSpared | lib/SelectorManipulate.php:17-20 | the namesake of a block that is merged is never a declaration, a line or an `@font-face` at-rule block |
| Manipulate.NameStepSpares | lib/SelectorManipulate.php:15-38 | one turn of the loop keeps every spared entry and adds no key |
| Manipulate.NamesFromSpares | lib/SelectorManipulate.php:15-39 | the loop keeps every spared entry and adds no key |
| Manipulate.NamesSpare | lib/SelectorManipulate.php:11-40 | `mergeWithSameName` adds no entry, keeps each block's identity, class and name, and leaves declarations, lines and `@font-face` at-rule blocks where they were |
| Manipulate.TakeNamesakeBelow | lib/SelectorManipulate.php:27-33 | merging a namesake makes no block higher than the highest already there |
| Manipulate.NamesNodeFuel | lib/SelectorManipulate.php:37 | once the depth bound reaches the height of the nested blocks, raising it changes nothing, and no block grows higher |
| Manipulate.NamesFromFuel | lib/SelectorManipulate.php:15-39 | the same for the loop from any cursor |
| Manipulate.NameStepFuel | lib/SelectorManipulate.php:16-38 | the same for one turn of the loop |
| Manipulate.NameTurnStepFuel | lib/SelectorManipulate.php:24-38 | the same for one turn of a block that is merged |
| Manipulate.NameTurnFuel | lib/SelectorManipulate.php:24-38 | the same for the turn itself |
| Manipulate.InnerTurnBelow | lib/SelectorManipulate.php:36-38 | writing back an element merged in turn keeps every block at most as high as before |
| Manipulate.NamesSettle | lib/SelectorManipulate.php:11-40 | a bound of at least the height of the tree reaches every nested block |
| Manipulate.MergeWithSameName | lib/SelectorManipulate.php:11-40 | the block becomes NamesNode of the old one |
| Manipulate.MergeNameStep | lib/SelectorManipulate.php:15-38 | one turn of the loop leaves the array and the cursor as NameStep says |
| Manipulate.MergeNameEntry | lib/SelectorManipulate.php:24-38 | the body of the loop leaves the array as NameTurn says |
| Manipulate.TakeNamesakeIn | lib/SelectorManipulate.php:25-34 | `getBlockWithSameName`, the merge and `removeBlock` leave the array and the element as TakeNamesake says |
| Manipulate.MergeNamesChild | lib/SelectorManipulate.php:37 | the nested call merges the at-rule block it is given |
| Manipulate.Twins | lib/SelectorManipulate.php:60-69 | every block collected is another selector with the same pairs |
| Manipulate.TwinsMeans | lib/SelectorManipulate.php:60-69 | a block is collected exactly when it is such a twin and some entry holds it (both directions) |
| Manipulate.NamesOf | lib/SelectorManipulate.php:74 | the sub-selectors added are the twins' names, in order |
| Manipulate.AbsorbOne | lib/SelectorManipulate.php:74-75 | one twin: the element appends its name, keeps its key, and at most one entry before it goes |
| Manipulate.AbsorbTwins | lib/SelectorManipulate.php:72-76 | the element keeps its identity, class, key and properties; the keys stay distinct |
| Manipulate.AbsorbTwinsNames | lib/SelectorManipulate.php:72-76 | the element ends up with every twin's name appended, in order, to its name and sub-selectors |
| Manipulate.AbsorbTwinsEffect | lib/SelectorManipulate.php:72-76 | at most one entry per twin goes, each holding a twin, and every entry other than the element keeps its value |
| Manipulate.IdsOf | lib/SelectorManipulate.php:75 | the identities of the twins, in order |
| Manipulate.AbsorbOneEffect | lib/SelectorManipulate.php:74-75 | one twin: at most the entry holding it goes, and nothing but the element changes |
| Manipulate.TwinTurn | lib/SelectorManipulate.php:60-77 | the turn of a selector keeps the keys distinct and the element under its key, and never moves the cursor back |
| Manipulate.TwinTurnEffect | lib/SelectorManipulate.php:60-77 | a selector gains the names of all its twins in map order and keeps its properties; only entries holding twins go; every other entry keeps its value |
| Manipulate.PropsStep | lib/SelectorManipulate.php:51-77 | each turn keeps the keys distinct and brings the cursor nearer the end, so the loop ends |
| Manipulate.PropsFromStep | lib/SelectorManipulate.php:51-52 | the loop goes on after an entry that is not falsy from where the cursor then stands |
| Manipulate.AbsorbTwinsBelow | lib/SelectorManipulate.php:72-76 | taking in twins only renames the element, so no block grows higher |
| Manipulate.PropsNodeFuel | lib/SelectorManipulate.php:56 | once the depth bound reaches the height of the nested blocks, raising it changes nothing, and no block grows higher |
| Manipulate.PropsFromFuel | lib/SelectorManipulate.php:51-78 | the same for the loop from any cursor |
| Manipulate.PropsStepFuel | lib/SelectorManipulate.php:52-77 | the same for one turn of the loop |
| Manipulate.PropsSettle | lib/SelectorManipulate.php:47-79 | a bound of at least the height of the tree reaches every nested block |
| Manipulate.MergeWithSameProperties | lib/SelectorManipulate.php:47-79 | the block becomes PropsNode of the old one |
| Manipulate.MergePropsStep | lib/SelectorManipulate.php:51-77 | one turn of the loop leaves the array and the cursor as PropsStep says |
| Manipulate.CollectTwins | lib/SelectorManipulate.php:60-69 | the inner `foreach` collects exactly Twins, in map order |
| Manipulate.AbsorbTwinsIn | lib/SelectorManipulate.php:71-77 | `appendSelectorName` and `removeBlock` for each twin leave the array and the element as AbsorbTwins says |
| Manipulate.MergePropsChild | lib/SelectorManipulate.php:56 | the nested call merges the at-rule block it is given |
| Manipulate.PropsStepKeepsPlain | lib/SelectorManipulate.php:51-77 | one turn keeps every declaration and line with its value |
| Manipulate.PropsFromKeepsPlain | lib/SelectorManipulate.php:51-78 | the loop keeps every declaration and line with its value |
| Manipulate.PropsKeepsPlain | lib/SelectorManipulate.php:47-79 | `mergeWithSameProperties` leaves every declaration and line of the block where it was |
| Manipulate.KeptCleaned | lib/SelectorManipulate.php:91-93 | a nested at-rule block stays under its key and is cleaned in turn |
| Manipulate.KeptDropped | lib/SelectorManipulate.php:113-115 | a selector whose name fails the check is dropped |
| Manipulate.KeptStays | lib/SelectorManipulate.php:94-96 | declarations, at-rule lines and valid selectors stay as they are |
| Manipulate.SelectorEntry | lib/SelectorManipulate.php:113-115 | unsetting the key of a failed selector removes exactly that entry and keeps the entries around it |
| Manipulate.FilteredWhole | lib/SelectorManipulate.php:90-116 | after the last turn every entry has been visited and the keys stay distinct |
| Shorthands.Sides | lib/optimise/Shorthand.php:228-259 | one to four values stand for four sides, as section 8.3 of CSS 2.1 reads them |
| Shorthands.Collapsed | lib/optimise/Shorthand.php:232-256 | a branch of the `switch` that returns gives a strictly shorter list of one to three values |
| Shorthands.TokensKeepSides | lib/optimise/Shorthand.php:232-258 | collapsing never changes the four sides the values stand for |
| Shorthands.TokensFewest | lib/optimise/Shorthand.php:232-258 | no shorter list stands for the same four sides: the collapse is the shortest |
| Shorthands.SingleValueLosesImportant | lib/optimise/Shorthand.php:258 | as written, a single important value takes no `case` branch and comes back without `!important`; the corrected version keeps it |
| Shorthands.CompressKeepsImportant | lib/optimise/Shorthand.php:228-259 | the corrected `compressShorthandValues` keeps an important input important on every path |
| Shorthands.CompressAgreesWhenCollapsing | lib/optimise/Shorthand.php:232-258 | the corrected and the as-written versions agree wherever the values collapse or nothing is important |
| Shorthands.CompressShorthandImportance | lib/optimise/Shorthand.php:178-189 | an important shorthand stays important when its parts collapse, and is written back as its plain parts when they do not |
| Shorthands.BorderRadiusShorthand | lib/optimise/Shorthand.php:198-221 | a value with more than two `/`-separated halves is returned without `!important` and otherwise unchanged |
| Shorthands.BorderRadiusHalves | lib/optimise/Shorthand.php:206-220 | the two halves of a border radius are compressed separately and joined by the one `/` |
| Shorthands.ValuesOf | lib/optimise/Shorthand.php:326-327 | the values of the named declarations, in order |
| Shorthands.StrippedValues | lib/optimise/Shorthand.php:326-333 | each side is read with its `!important` removed |
| Shorthands.StrippedImportance | lib/optimise/Shorthand.php:324-330 | the flag is set exactly when one of the sides is important (both directions) |
| Shorthands.MergeFourRemovesSides | lib/optimise/Shorthand.php:334 | when all four sides are set, none of them is left |
| Shorthands.MergeFourSetsShorthand | lib/optimise/Shorthand.php:337 | the shorthand holds what `compressShorthandValues` makes of the stripped sides, and collapsing keeps the four sides |
| Shorthands.MergeFourKeepsImportance | lib/optimise/Shorthand.php:324-337 | when any side was important and the sides collapse, the shorthand is important |
| Shorthands.MergeFourDropsImportance | lib/optimise/Shorthand.php:258 | four sides that do not collapse are written back plain, even when one was important |
| Shorthands.MergeFourKeepsOthers | lib/optimise/Shorthand.php:315-340 | every key other than the shorthand and its sides keeps its value |
| Shorthands.MergeFourNeedsAllSides | lib/optimise/Shorthand.php:318-323 | with a side missing nothing changes |
| Shorthands.StillSet | lib/optimise/Shorthand.php:326-334 | a side not yet unset is still set after the earlier ones are unset |
| Shorthands.FourValueDistinct | lib/optimise/Shorthand.php:50-57 | the four sides of every box shorthand are different properties |
| Shorthands.JoinHalves | lib/optimise/Shorthand.php:363-374 | the output is one value when the stripped halves agree, both otherwise, then the common suffix |
| Shorthands.HalvesJoinedValue | lib/optimise/Shorthand.php:363-374 | the joined value reads both halves without `!important` and puts the suffix back once |
| Shorthands.MergeTwoNeedsSameImportance | lib/optimise/Shorthand.php:359-361 | halves that differ in importance are left as they are |
| Shorthands.MergeTwoReplacesHalves | lib/optimise/Shorthand.php:365-377 | merged halves: both longhands are gone and the shorthand holds one value for equal halves, both otherwise, important when they were |
| Shorthands.DissolveSets | lib/optimise/Shorthand.php:161-162 | each dissolved longhand takes its dissolved value when `mergeProperties` lets it override, and keeps the block's otherwise |
| Shorthands.DissolveBlanks | lib/optimise/Shorthand.php:161 | the dissolved shorthand is left blank |
| Shorthands.DissolveKeepsOthers | lib/optimise/Shorthand.php:157-170 | other declarations are untouched by a dissolve |
| Shorthands.DissolveFontSets | lib/optimise/Shorthand.php:159-163 | above the common level each of the six `font` longhands takes what `dissolveShortFont` gives unless it is empty or plain over important, and `font` is left blank |
| Shorthands.DissolveImportantFont | lib/optimise/Shorthand.php:159-163 | an important `font` overrides all six longhands, each of which becomes important |
| Shorthands.DissolveBackgroundSets | lib/optimise/Shorthand.php:165-169 | above the font level each of the eight `background` longhands takes its dissolved value unless it is empty or plain over important, and `background` is left blank |
| Shorthands.DissolveEight | lib/optimise/Shorthand.php:168 | merging eight pairs named after the background longhands sets each as DissolveSets says |
| Shorthands.DissolveKeepsGradient | lib/optimise/Shorthand.php:165-169 | a `background` with a gradient is written back whole |
| Shorthands.DissolveNeedsLevel | lib/optimise/Shorthand.php:159 | at or below the common level neither shorthand is dissolved |
| Shorthands.CompressOne | lib/optimise/Shorthand.php:126-129 | a compression turn adds and removes no entry |
| Shorthands.Compressed | lib/optimise/Shorthand.php:125-131 | the compression loop adds and removes no entry |
| Shorthands.ShorthandNamesDistinct | lib/optimise/Shorthand.php:50-57 | the box shorthands are different properties |
| Shorthands.CompressOneOther | lib/optimise/Shorthand.php:126-129 | a turn for one shorthand leaves every other key alone |
| Shorthands.CompressedValues | lib/optimise/Shorthand.php:125-131 | after the loop each box shorthand that was set holds its compressed value (`borderRadiusShorthand` for `border-radius`) and one that was not set is still not set |
| Shorthands.CompressedKeepsOthers | lib/optimise/Shorthand.php:125-131 | keys that are not box shorthands keep their values through the loop |
| Shorthands.CompressedStaysImportant | lib/optimise/Shorthand.php:127-129 | an important box shorthand other than `border-radius` whose parts collapse stays important |
| Shorthands.ProcessedNode | lib/optimise/Shorthand.php:118-152 | `process` keeps a block's identity, class, name and sub-selectors |
| Shorthands.ChildrenProcessed | lib/optimise/Shorthand.php:145-151 | the loop over nested blocks adds and removes no entry |
| Shorthands.EachChild | lib/optimise/Shorthand.php:146-150 | the loop over nested blocks adds and removes no entry |
| Shorthands.EachChildAt | lib/optimise/Shorthand.php:146-150 | each nested block of the first `i` entries is replaced in place by its processed form; keys, declarations, lines and later entries are unchanged |
| Shorthands.EachChildKeepsDistinct | lib/optimise/Shorthand.php:146-150 | the loop keeps the keys, so keeps them distinct |
| Shorthands.ChildrenKeepKeys | lib/optimise/Shorthand.php:145-151 | processing nested blocks keeps the keys of the at-rule block |
| Shorthands.Shorthand.constructor | lib/optimise/Shorthand.php:110-113 | the optimiser keeps the configured level |
| Shorthands.Shorthand.Process | lib/optimise/Shorthand.php:118-152 | the tree becomes Processed of the old one: the block's own optimisations, then each nested block in turn |
| Shorthands.Shorthand.ProcessAt | lib/optimise/Shorthand.php:118-152 | the same with a depth bound; an emptied block is left as it is, since `unset($block)` only clears the local variable |
| Shorthands.Shorthand.ProcessOwn | lib/optimise/Shorthand.php:120-143 | dissolve, merge four-value and two-value shorthands, compress, then `mergeFont` from the font level and `mergeBackground` from the background level |
| Shorthands.Shorthand.ProcessChildren | lib/optimise/Shorthand.php:145-151 | each nested block of an at-rule block is processed in place |
| Shorthands.Shorthand.ProcessEach | lib/optimise/Shorthand.php:146-150 | the loop leaves each nested block processed |
| Shorthands.Shorthand.ProcessEntry | lib/optimise/Shorthand.php:147-149 | one turn processes one more entry |
| Shorthands.Shorthand.ProcessChild | lib/optimise/Shorthand.php:148 | the nested call processes the block it is given |
| Shorthands.Shorthand.DissolveShorthands | lib/optimise/Shorthand.php:157-170 | the array becomes DissolvedShorthands of the old one: `font` above the common level, then `background` above the font level |
| Shorthands.Shorthand.CompressShorthands | lib/optimise/Shorthand.php:125-131 | every box shorthand that is set is written back compressed |
| Shorthands.Shorthand.MergeFourValueShorthands | lib/optimise/Shorthand.php:315-340 | each box shorthand whose four sides are set replaces them, in table order |
| Shorthands.Shorthand.MergeFour | lib/optimise/Shorthand.php:318-338 | one pass for one box shorthand |
| Shorthands.Shorthand.StripSides | lib/optimise/Shorthand.php:324-335 | the side loop reads each side without `!important`, records whether any was important, and unsets all four |
| Shorthands.Shorthand.MergeTwoValuesShorthand | lib/optimise/Shorthand.php:349-380 | each two-value shorthand whose halves are set and agree in importance replaces them, in table order |
| Shorthands.Shorthand.MergeTwo | lib/optimise/Shorthand.php:352-378 | one pass for one two-value shorthand |
| Shorthands.Shorthand.MergeBackground | lib/optimise/Shorthand.php:475-556 | the array becomes MergedBackground of the old one |
| Shorthands.Shorthand.CountLayers | lib/optimise/Shorthand.php:485-492 | the image layers and the number of layers the longhands hold |
| Shorthands.Shorthand.MergeLayersOf | lib/optimise/Shorthand.php:497-543 | the layer loop gives what MergeLayers gives, None when a gradient stops it |
| Shorthands.Shorthand.MergeLayer | lib/optimise/Shorthand.php:498-542 | one layer visits the eight longhands in table order |
| Shorthands.Shorthand.MergeLonghandAt | lib/optimise/Shorthand.php:499-536 | the body of the longhand loop, None on a gradient |
| Shorthands.Shorthand.Contribute | lib/optimise/Shorthand.php:504-536 | the part of the longhand loop that reads the longhand's value |
| Shorthands.Shorthand.ReplaceLonghands | lib/optimise/Shorthand.php:545-555 | the eight longhands are dropped and `background` is written, or set to `none` when it was set and nothing is left to write |
| Shorthands.Shorthand.MergeFont | lib/optimise/Shorthand.php:660-720 | the array becomes MergedFont of the old one |
| Shorthands.Shorthand.FontLonghands | lib/optimise/Shorthand.php:668-704 | the longhand loop gives what MergeFontRow gives |
| Shorthands.Shorthand.FontLonghandAt | lib/optimise/Shorthand.php:669-703 | the body of the longhand loop |
| Shorthands.Shorthand.RemoveFontLonghands | lib/optimise/Shorthand.php:710-714 | every `font` longhand is unset except a preserved `font-variant` |
| Fonts.FinishedFont | lib/optimise/Shorthand.php:638-650 | `dissolveShortFont` always returns six longhands |
| Fonts.DissolvedFontWith | lib/optimise/Shorthand.php:563-653 | six longhands, whatever the weight list |
| Fonts.DissolvedFontAsWritten | lib/optimise/Shorthand.php:563-653 | six longhands, with the weight list as the source searches it |
| Fonts.DissolvedFont | lib/optimise/Shorthand.php:563-653 | six longhands, with numeric weights recognised |
| Fonts.PlaceFontToken | lib/optimise/Shorthand.php:601-626 | one token goes to the first free slot whose rule takes it (weight, variant, style, size with line height), otherwise to the family, which then counts as several words |
| Fonts.CollectFontSlots | lib/optimise/Shorthand.php:595-635 | the words before the first comma are placed, the family quoted when it has several words, and the other families appended |
| Fonts.SplitFamilies | lib/optimise/Shorthand.php:595-598 | the value is split on unquoted commas and the first group again on unquoted spaces |
| Fonts.PlaceFontTokens | lib/optimise/Shorthand.php:600-627 | the token loop places each token in order |
| Fonts.AppendFamilies | lib/optimise/Shorthand.php:633-635 | each further family is trimmed and appended after a comma |
| Fonts.DissolveShortFont | lib/optimise/Shorthand.php:563-653 | the longhands are DissolvedFontAsWritten of the value, so the properties below hold of them |
| Fonts.FinishedFontNames | lib/optimise/Shorthand.php:644-650 | the six longhands are named once each |
| Fonts.FinishedFontSuffix | lib/optimise/Shorthand.php:645-649 | every longhand ends with the importance suffix |
| Fonts.DissolvedFontNames | lib/optimise/Shorthand.php:575-582 | the result names each of the six longhands exactly once and never `font` |
| Fonts.FinishedFontNotFont | lib/optimise/Shorthand.php:644-650 | no longhand is named `font` |
| Fonts.FinishedFontImportant | lib/optimise/Shorthand.php:645-649 | a longhand finished with `!important` ends in it and is important |
| Fonts.DissolvedFontImportant | lib/optimise/Shorthand.php:569-573 | an important `font` makes every longhand important |
| Fonts.WeightFromList | lib/optimise/Shorthand.php:601-603 | the weight slot only ever holds a member of the weight list |
| Fonts.FinishedWordWeight | lib/optimise/Shorthand.php:638-650 | a word weight is never taken for a size and is written as it is |
| Fonts.WrittenWeightIsWord | lib/optimise/Shorthand.php:601 | as written the numeric-weight fix never applies, and `font-weight` is always a word of the list or `normal` |
| Fonts.WrittenMisreadsWeight | lib/optimise/Shorthand.php:601 | as written, `font: 700 12px Arial` gives size `700`, one quoted family `"12px Arial"` and weight `normal` |
| Fonts.IntendedReadsWeight | lib/optimise/Shorthand.php:601 | with numeric weights recognised, the same value gives weight `700`, size `12px` and family `Arial` |
| Fonts.NumericWeightAsWritten | lib/optimise/Shorthand.php:600-631 | as written, any numeric weight before a size is read as the size, and what follows as one quoted family |
| Fonts.NumericWeightIntended | lib/optimise/Shorthand.php:600-631 | with numeric weights recognised, the weight, the size and the family are each read as such |
| Fonts.SizeThenFamily | lib/optimise/Shorthand.php:610-631 | a size followed by two words finishes as that size, no line height and a two-word quoted family |
| Fonts.WeightSizeThenFamily | lib/optimise/Shorthand.php:601-626 | a weight, a size and a one-word family finish as those three |
| Fonts.FinishedPlain | lib/optimise/Shorthand.php:644-650 | without importance every empty slot takes its default |
| Fonts.PhraseGroups | lib/optimise/Shorthand.php:595-598 | a comma-free value of three words is one group of those words |
| Fonts.PhraseDissolves | lib/optimise/Shorthand.php:569-653 | an unimportant value grouped as three words dissolves as those three tokens |
| Fonts.PlainPhrase | lib/optimise/Shorthand.php:595-598 | three plain words joined by single spaces split back into those words |
| Fonts.ThreeTokens | lib/optimise/Shorthand.php:600-627 | the loop places three tokens one after the other |
| Fonts.SizeStep | lib/optimise/Shorthand.php:610-618 | a plain token that is no keyword and comes before any size is the size, with an empty line height |
| Fonts.FamilyStep | lib/optimise/Shorthand.php:619-626 | a token no other rule takes joins the family |
| Fonts.LonghandImportance | lib/optimise/Shorthand.php:689-692 | one longhand makes the merged value important exactly when it is written and important |
| Fonts.MergeFontRowImportant | lib/optimise/Shorthand.php:668-704 | the merged value is important exactly when some written longhand is (both directions) |
| Fonts.MergeFontRowPreserves | lib/optimise/Shorthand.php:683-686 | `font-variant` is kept exactly when it holds a value other than its default and `small-caps` |
| Fonts.FontNeedsSize | lib/optimise/Shorthand.php:667 | without `font-size` nothing is merged |
| Fonts.FontNamesDistinct | lib/optimise/Shorthand.php:94-102 | the six longhands are different properties, none of them `font` |
| Fonts.FontOfValue | lib/optimise/Shorthand.php:706-717 | the merged `font` holds the trimmed text and the importance |
| Fonts.FontOfLonghand | lib/optimise/Shorthand.php:710-714 | after merging a longhand is left only when it is a preserved `font-variant` |
| Fonts.DroppedBefore | lib/optimise/Shorthand.php:710-714 | the count of unset longhands before one is within the list |
| Fonts.DroppedIsLonghand | lib/optimise/Shorthand.php:710-714 | every unset name is a longhand: the same one, or the next when `font-variant` is kept |
| Fonts.DroppedStep | lib/optimise/Shorthand.php:711-713 | one turn of the deletion loop unsets a longhand unless it is the preserved `font-variant` |
| Fonts.FontOfOthers | lib/optimise/Shorthand.php:708-718 | merging leaves every key other than `font` and its longhands alone |
| Fonts.MergedFontWrites | lib/optimise/Shorthand.php:660-720 | once merged, `font` holds the written longhands, important exactly when one of them was, and every longhand is gone except a `font-variant` that `font` cannot hold |
| Fonts.MergedFontKeepsOthers | lib/optimise/Shorthand.php:660-720 | declarations other than `font` and its longhands are untouched |
| Backgrounds.SpacedIsImportant | lib/optimise/Shorthand.php:415 | a value with ` !important` appended is important |
| Backgrounds.Append | lib/optimise/Shorthand.php:436-453 | `.=` on a slot that may still be null extends that slot and no other |
| Backgrounds.PlaceToken | lib/optimise/Shorthand.php:435-455 | one token goes to the first slot whose rule takes it (image once per layer, repeat, attachment, clip once per layer, origin, bracketed size, position, colour once per layer), and is dropped otherwise |
| Backgrounds.LayersStep | lib/optimise/Shorthand.php:420-457 | each layer applies its tokens to the slots the earlier layers filled |
| Backgrounds.LayerTokensStep | lib/optimise/Shorthand.php:434-456 | each token is placed after the tokens before it |
| Backgrounds.CollectLayers | lib/optimise/Shorthand.php:419-457 | the layer loop fills the slots from every comma-separated layer, in order |
| Backgrounds.CollectTokens | lib/optimise/Shorthand.php:421-456 | one layer starts with nothing seen and places its space-separated tokens in order |
| Backgrounds.FinishAll | lib/optimise/Shorthand.php:459-465 | each of the eight longhands, in table order, gets its text without the last separator, or its default, then the importance |
| Backgrounds.FinishSlots | lib/optimise/Shorthand.php:459-465 | the closing loop finishes the eight longhands |
| Backgrounds.DissolveShortBackground | lib/optimise/Shorthand.php:389-468 | the longhands are DissolvedBackground of the value, so the properties below hold of them |
| Backgrounds.DissolvedBackgroundKeys | lib/optimise/Shorthand.php:402-411 | without a gradient the result names exactly the eight longhands, in table order |
| Backgrounds.GradientKeptWhole | lib/optimise/Shorthand.php:392-394 | a value holding `gradient(` in any case is returned whole as `background` |
| Backgrounds.DissolvedBackgroundImportant | lib/optimise/Shorthand.php:413-417 | an important `background` makes every one of its longhands important |
| Backgrounds.UnfilledGetsDefault | lib/optimise/Shorthand.php:462-463 | a longhand nothing in the value fills gets its default |
| Backgrounds.LayerCount | lib/optimise/Shorthand.php:492 | the number of layers is at least one and at least the numbers of image and colour layers |
| Backgrounds.GradientEndsRow | lib/optimise/Shorthand.php:505-508 | a gradient in a present longhand abandons the merge, whatever came before |
| Backgrounds.RowStaysAbandoned | lib/optimise/Shorthand.php:498-537 | once abandoned, a layer stays abandoned for every later longhand |
| Backgrounds.AbandonedStays | lib/optimise/Shorthand.php:497-543 | once abandoned, the merge stays abandoned for every later layer |
| Backgrounds.BackgroundPresentKeepsAll | lib/optimise/Shorthand.php:480-482 | a `background` that is set and not falsy leaves the block as it is |
| Backgrounds.GradientKeepsAll | lib/optimise/Shorthand.php:505-508 | a gradient in any longhand leaves the block unchanged |
| Backgrounds.BackgroundNamesDistinct | lib/optimise/Shorthand.php:78-87 | the eight longhands are different properties, none of them `background` |
| Backgrounds.MergedDropsLonghands | lib/optimise/Shorthand.php:545-548 | once merged, none of the eight longhands is left |
| Backgrounds.MergedKeepsOthers | lib/optimise/Shorthand.php:475-556 | declarations other than `background` and its longhands are untouched |
| Backgrounds.NoBracketNoGradient | lib/optimise/Shorthand.php:506 | text without an opening bracket holds no gradient |
| Backgrounds.GradientEndsInBracket | lib/optimise/Shorthand.php:506 | an occurrence of `gradient(` ends in a bracket |
| Backgrounds.DefaultsArePlainText | lib/optimise/Shorthand.php:78-87 | every default is non-empty plain text |
| Backgrounds.DefaultsArePlain | lib/optimise/Shorthand.php:78-87 | no default holds a gradient, a comma or `!important` |
| Backgrounds.DefaultsAddNothingToRow | lib/optimise/Shorthand.php:523-526 | longhands that all hold their defaults add nothing to a layer |
| Backgrounds.DefaultsMakeOneLayer | lib/optimise/Shorthand.php:485-492 | longhands that all hold their defaults make a single layer |
| Backgrounds.DefaultImageOneLayer | lib/optimise/Shorthand.php:485-486 | a default `background-image` is at most one layer |
| Backgrounds.DefaultColorOneLayer | lib/optimise/Shorthand.php:488-489 | a default `background-color` is at most one layer |
| Backgrounds.DefaultsOmitted | lib/optimise/Shorthand.php:523-555 | when every longhand present holds its default, the longhands are dropped and a set but empty `background` becomes `none` |
| Backgrounds.DefaultsMergeNothing | lib/optimise/Shorthand.php:497-543 | longhands that all hold their defaults merge into an empty, plain value |
| Scanner.BackslashRun | lib/Parser.php:799-802 | the run of backslashes right before a position is bounded by it, made of backslashes only, and maximal |
| Scanner.EscapedIffOddRun | lib/Parser.php:799-802 | `escaped` holds exactly when an odd number of backslashes precedes the position |
| Scanner.BackslashesEscapeWhenOdd | lib/Parser.php:799-802 | after the start or a non-backslash, `n` backslashes escape the next character exactly when `n` is odd |
| Scanner.IsToken | lib/Parser.php:775-778 | a character is a token exactly when it is in the token list and an even run of backslashes precedes it |
| Scanner.NormalizeQuotes | lib/Parser.php:823-830 | the result holds `"`; a string with `"` is kept, one without has its quotes replaced by `"` and its text kept |
| Scanner.RemoveQuotes | lib/Parser.php:808-816 | a quoted plain word loses its quotes; one with whitespace, quotes or brackets keeps its text and length, with `"` quotes |
| Scanner.QuotedWordLosesQuotes | lib/Parser.php:808-816 | `"w"` and `'w'` both become `w` for a plain word |
| Scanner.QuotedPhraseGetsDoubleQuotes | lib/Parser.php:808-830 | a single-quoted phrase with a space comes back double-quoted, text unchanged |
| Scanner.ExplodeWithoutString | lib/Parser.php:838-869 | the loop returns the pieces the step function defines, so the lemmas below hold of it |
| Scanner.JoinSplitPrefix | lib/Parser.php:849-866 | at every point of the loop, the pieces joined with the separator are the text read so far |
| Scanner.JoinExploded | lib/Parser.php:838-869 | joining the pieces with the separator gives the text back, for any text but a lone separator |
| Scanner.NoSeparatorOnePiece | lib/Parser.php:849-866 | a text without the separator stays one piece |
| Scanner.ExplodedWithoutSeparator | lib/Parser.php:838-869 | a non-empty text without the separator is returned as its only piece |
| Scanner.PlainSplitPrefix | lib/Parser.php:849-866 | on text with no quote, bracket or backslash the loop is a plain split |
| Scanner.PlainWord | lib/Parser.php:849-866 | a plain word without the separator is one piece |
| Scanner.PlainConcat | lib/Parser.php:855-858 | an unquoted separator between two plain texts ends a piece |
| Scanner.ExplodedPlain | lib/Parser.php:838-869 | on plain text the result is the plain split |
| Scanner.InsideStep | lib/Parser.php:851-865 | inside a string or bracket any character but the unescaped closer only extends the last piece |
| Scanner.OpenStep | lib/Parser.php:859-862 | outside, a quote or an unescaped `(` that is not a split point opens a string or bracket |
| Scanner.OpenedStaysWhole | lib/Parser.php:849-866 | once a string or bracket opens, everything up to its unescaped closer stays in one piece, separators included |
| Scanner.QuotedSeparatorKept | lib/Parser.php:838-869 | a separator inside a double-quoted string does not split it |
| Scanner.QuotedUpToClose | lib/Parser.php:849-866 | up to its closing quote a quoted text is one open piece |
| Scanner.HexRun | lib/Parser.php:705 | the run is bounded by the limit, consists of hexadecimal digits and stops before a non-digit unless the limit is reached |
| Scanner.EscapeEnd | lib/Parser.php:705-711 | the escape's loop ends after the backslash and within the text |
| Scanner.KeptEscape | lib/Parser.php:724-726 | an escape that is not decoded is kept starting with its backslash |
| Scanner.TrimKeepsBackslash | lib/Parser.php:725 | trimming `\` followed by any text keeps the backslash first |
| Scanner.ResumeAt | lib/Parser.php:728-731 | the parser resumes within the text, at or after the backslash |
| Scanner.ReadEscape | lib/Parser.php:705-711 | the loop collects the escape's text and stops where EscapeEnd says |
| Scanner.UnicodeEscape | lib/Parser.php:699-740 | an escape whose code is an ASCII digit or letter becomes that one character and is logged; any other escape is kept as the backslash and its trimmed text, except that a lone backslash is dropped, and logged, only when backslash removal is on; the parser resumes within the text, at or after the backslash |
| Scanner.UnicodeDecodesEscape | lib/Parser.php:705-722 | decoding undoes the escape: a digit or letter written as a backslash and its two hexadecimal digits, followed by the end or a non-digit, is read back as that character |
| Scanner.HexValueZeros | lib/Parser.php:713 | a run of zeros reads as 0 |
| Scanner.SeventhDigitIsRead | lib/Parser.php:705 | as written, the loop reads seven digits of `\0000041`, which decode to the letter `A` |
| Scanner.SixDigitsEndTheEscape | lib/Parser.php:705 | with the six-digit bound an escape spans at most seven characters, and `\0000041` is code 4, not a letter |
| Scanner.ParseComment | lib/Parser.php:591-606 | the scan resumes past the opener and within the text, and the line count grows by the newlines of the comment |
| Scanner.CommentClosed | lib/Parser.php:594-605 | a closed comment is the text up to its first closer, and the scan resumes at the closer's slash |
| Scanner.CommentUnclosed | lib/Parser.php:595-605 | an unclosed comment runs to the end of the input minus its last character |
| Scanner.CommaPieceJoined | lib/Parser.php:569-583 | adding the fragment up to the next comma extends the rebuilt prefix up to that comma |
| Scanner.LastPieceJoined | lib/Parser.php:580-582 | adding the rest after the last comma rebuilds the whole name |
| Scanner.Fragments | lib/Parser.php:569-583 | there is one fragment more than recorded comma positions |
| Scanner.SubSelectors | lib/Parser.php:569-583 | the loop cuts the name into the fragments, and when every position follows a comma they join with commas back into the name |
| Scanner.FragmentsStep | lib/Parser.php:573-579 | each iteration adds the next fragment |
| Scanner.InnerFragment | lib/Parser.php:573-579 | a fragment ending at a recorded comma is the text between two commas |
| Scanner.LastFragment | lib/Parser.php:580-582 | the last fragment runs from the last recorded comma to the end |
| Scanner.FragmentsPrefix | lib/Parser.php:573-579 | the first `k` fragments, each with its comma, spell the name up to the `k`-th position |
| Scanner.FragmentsJoin | lib/Parser.php:569-583 | the fragments joined with commas are the selector name |
| Scanner.PropertyIsValid | lib/Parser.php:787-791 | valid exactly when the property is known and its levels mention the configured level |
| Scanner.OccursAtChar | lib/Parser.php:790 | a one-character search hits exactly where that character is |
| Scanner.FirstColonUnique | lib/Parser.php:752 | the first colon after a position is unique |
| Scanner.PropertyIsNext | lib/Parser.php:750-767 | false with no colon ahead; otherwise true exactly when the trimmed, lowercased text up to the first colon is a known property |
| Scanner.FindUnescaped | lib/Parser.php:679-688 | the first occurrence no backslash escapes: every earlier one is escaped |
| Scanner.NextParserInAtRule | lib/Parser.php:667-691 | declarations follow exactly when a `:` comes before the next `{` after the brace |
| Scanner.RetryStaysPut | lib/Parser.php:682-684 | a retry from a found `:` finds the same `:` again |
| Scanner.RetryMakesNoProgress | lib/Parser.php:681-684 | on `@media s{a\:b{c:d}}` the escaped `:` keeps the retry loop where it is, so the loop does not end |
| Scanner.IntendedNextParserInAtRule | lib/Parser.php:667-691 | declarations follow exactly when an unescaped `:` comes before the next unescaped `{` |
| Scanner.IntendedAgreesUnescaped | lib/Parser.php:667-691 | with nothing escaped after the brace the loops end and the written and intended look-aheads agree |
| Scanner.EscapedColonFaceDiffers | lib/Parser.php:667-691 | on `@font-face{a\:b}` the written look-ahead reads declarations and the intended one rule sets |
| Parser.ReplacedCharGone | lib/Parser.php:260 | after replacing every `\r`, none is left |
| Parser.ReplaceAbsent | lib/Parser.php:260 | text without `\r` is unchanged by the replacements |
| Parser.NormalizedInput | lib/Parser.php:260 | the scanned text has no `\r` and ends with the appended space; text without `\r` only gains the space |
| Parser.Append | lib/Parser.php:409 | an element added to the top block becomes its last child, the stack depth unchanged, and lowercase names stay lowercase |
| Parser.Close | lib/Parser.php:313 | popping a block makes it the last child of the block below it |
| Parser.Closed | lib/Parser.php:561 | closing the open blocks into the document keeps property names lowercase |
| Parser.AddToTop | lib/Parser.php:409 | with the document on the stack the element joins the top block; with an empty stack the call is fatal |
| Parser.Push | lib/Parser.php:296 | a new, empty block goes on top of the stack; with an empty stack the call is fatal |
| Parser.Pop | lib/Parser.php:343 | popping a block closes it into the one below; popping the document empties the stack |
| Parser.PopFrom | lib/Parser.php:344 | going back to the previous state leaves position and blocks alone |
| Parser.LowerIsLowercase | lib/Parser.php:399 | lowercasing twice is lowercasing once |
| Parser.Span | lib/Parser.php:323 | `strcspn`: the run from `i` holds no token or whitespace and ends at one or at the end |
| Parser.EscapeAt | lib/Parser.php:544-545 | after an escape the parser resumes within the text, at or after the backslash |
| Parser.WithComment | lib/Parser.php:302-303 | a comment joins the top block, the line count grows by its newlines, and the scan moves forward |
| Parser.FlushValue | lib/Parser.php:401-404 | flushing the value touches only the value's text and parts |
| Parser.SelectorStep | lib/Parser.php:290-334 | the selector case moves forward within the text and keeps property names lowercase |
| Parser.SelectorToken | lib/Parser.php:292-304 | `{`, `,`, a comment or `@` in a selector move forward and keep names lowercase |
| Parser.SelectorOther | lib/Parser.php:305-321 | the other selector tokens move forward and keep names lowercase |
| Parser.PropertyStep | lib/Parser.php:337-366 | the property case moves forward within the text and keeps names lowercase |
| Parser.PropertyToken | lib/Parser.php:338-356 | the property tokens move forward and keep names lowercase |
| Parser.Commit | lib/Parser.php:396-421 | the property is lowercased and added unless invalid and discarded; the log gets the removal or the invalid-level warning; property and parts are reset |
| Parser.Committed | lib/Parser.php:407-421 | a kept declaration becomes the last child of the top block; a dropped one leaves the blocks alone; the log only grows by the given entries |
| Parser.ValueToken | lib/Parser.php:371-391 | the value's token actions move forward and keep names lowercase |
| Parser.ValueOther | lib/Parser.php:389-395 | a backslash, the end or other text in a value never changes the blocks |
| Parser.ValueStep | lib/Parser.php:369-445 | the value case moves forward, keeps names lowercase and keeps the parser's variables consistent |
| Parser.ValueEnd | lib/Parser.php:396-429 | ending a declaration or block moves forward and keeps names lowercase |
| Parser.BracketStep | lib/Parser.php:448-476 | the bracket case stays at the same character and keeps names lowercase |
| Parser.StringStep | lib/Parser.php:479-502 | the string case stays at the same character and keeps names lowercase |
| Parser.ProcessAtRule | lib/Parser.php:613-660 | a one-line at-rule leaves position, line and state alone and keeps names lowercase |
| Parser.AtStep | lib/Parser.php:505-555 | the at-rule case moves forward and keeps names lowercase |
| Parser.AtToken | lib/Parser.php:506-546 | the at-rule tokens move forward and keep names lowercase |
| Parser.OpenAtBlock | lib/Parser.php:524-538 | opening an at-block stays at the brace and keeps names lowercase |
| Parser.Step | lib/Parser.php:281-556 | each pass of the loop moves strictly forward, keeps names lowercase and keeps the variables consistent |
| Parser.Dispatch | lib/Parser.php:288-555 | every case moves forward within the text and keeps names lowercase |
| Parser.Run | lib/Parser.php:281-556 | the loop stops at the end of the text unless it threw or spins |
| Parser.Parse | lib/Parser.php:255-562 | the loop gives the outcome the step function defines, and every declaration of a parsed document has a lowercase property name |
| Parser.NewlineInString | lib/Parser.php:481-484 | an unescaped newline in a string becomes `\A `, counts a line and is logged |
| Parser.StringCloses | lib/Parser.php:488-501 | a string ends exactly at its own unescaped quote, returning to the state it began in |
| Parser.EnteringBracket | lib/Parser.php:379-383 | `(` in a value enters the bracket state at depth 1, to return to the value, remembering the function name |
| Parser.BracketNests | lib/Parser.php:457-458 | an unescaped `(` in brackets goes one level deeper |
| Parser.BracketCloses | lib/Parser.php:459-461 | an unescaped `)` goes one level up, and leaves the bracket state exactly when depth reaches 0 |
| Parser.SemicolonCommits | lib/Parser.php:392-421 | `;` in a selector's value returns to the property state and adds the lowercased declaration unless it is invalid and discarded |
| Parser.CharsetRedefinition | lib/Parser.php:620-627 | a second `@charset` replaces the first and logs the redefinition |
| Parser.UnknownAtRuleIsLine | lib/Parser.php:655-658 | any other one-line at-rule joins the top block as a line, lowercased |
| Parser.EnterKeepsControl | lib/Parser.php:293-294 | entering a state that does not push itself keeps the state invariant |
| Parser.EnterBracketKeepsControl | lib/Parser.php:379-383 | opening a bracket at depth 1 keeps the state invariant |
| Parser.EnterStringKeepsControl | lib/Parser.php:450-454 | opening a string keeps the state invariant |
| Parser.BackKeepsControl | lib/Parser.php:344 | going back keeps the state invariant |
| Parser.CloseBracketKeepsControl | lib/Parser.php:459-461 | the last `)` returns to a state that is not a bracket, keeping the invariant |
| Parser.CloseValueKeepsControl | lib/Parser.php:424-429 | `}` in a value drops two states and keeps the invariant |
| Parser.SelectorKeepsConsistent | lib/Parser.php:290-334 | the selector case keeps the variables consistent |
| Parser.SelectorTokenKeepsConsistent | lib/Parser.php:292-321 | the selector tokens keep the variables consistent |
| Parser.PropertyKeepsConsistent | lib/Parser.php:337-366 | the property case keeps the variables consistent |
| Parser.ValueTokenKeepsConsistent | lib/Parser.php:371-391 | the value tokens keep the variables consistent, and `}` leaves the state for the block's end |
| Parser.ValueEndKeepsConsistent | lib/Parser.php:396-429 | ending a declaration or block keeps the variables consistent |
| Parser.BracketKeepsConsistent | lib/Parser.php:448-476 | the bracket case keeps the variables consistent |
| Parser.StringKeepsConsistent | lib/Parser.php:479-502 | the string case keeps the variables consistent |
| Parser.OpenAtBlockKeepsConsistent | lib/Parser.php:524-538 | opening an at-block keeps the variables consistent |
| Parser.AtTokenKeepsConsistent | lib/Parser.php:506-546 | the at-rule tokens keep the variables consistent |
| Parser.AtKeepsConsistent | lib/Parser.php:505-555 | the at-rule case keeps the variables consistent |
| Parser.DispatchKeepsConsistent | lib/Parser.php:288-555 | whatever the state, its case keeps the variables consistent |
| Parser.RunKeepsConsistent | lib/Parser.php:281-556 | every state the loop reaches is consistent |

## Left out

- Scanner.ExplodeWithoutString: lib/optimise/Shorthand.php:34 imports `CSSTidy\CSSTidy` under the alias `Parser`, and that class (lib/CSSTidy.php) defines `isImportant` and `removeImportant` but not `explodeWithoutString`, which only lib/Parser.php:838 defines; as written every `Parser::explodeWithoutString` call of the shorthand optimiser (lines 186, 278, 419, 432, 486, 489, 528, 595, 598, 611) is a call to an undefined method, a fatal error. The model has those calls use lib/Parser.php's split, the evident intent, and does not model the fatal error.
- Shorthands.Collapsed: compares values with exact string equality, where PHP's `==` compares numeric strings as numbers (lib/optimise/Shorthand.php:234-252); `margin:0 0.0 0 0.0` collapses to `0` in PHP and stays `0 0.0` here.
- Shorthands.HalvesJoined: the same exact equality stands for PHP's loose `==` between the two halves (lib/optimise/Shorthand.php:370).
- Manipulate.IsTwin: two declaration maps are equal only when their pairs are equal as text; PHP's `==` on arrays compares numeric strings as numbers (lib/SelectorManipulate.php:66), so `Manipulate.MergeWithSameProperties` merges fewer selectors than the program may.
- Shorthands.Shorthand.Process: the optimisation levels are the constants `CommonLevel` 1, `FontLevel` 2 and `BackgroundLevel` 3; the Configuration class that defines them is not part of this model.
- Numbers.Analyse: numbers are decimal text, not PHP floats, so float precision and exponent notation are not modelled, and unit conversion (`unitConvert`) is taken as switched off.
- Elements.Block.constructor: nested blocks are values carrying an id, not shared objects; aliasing of one block object under two parents is not modelled.
- Diagnostics: the logger is an append-only list of entries; its filtering by level and its output are not modelled.
- Manipulate.DiscardInvalid: recurses only into nested blocks whose keys are distinct; every PHP array has distinct keys, but this is a guard in the model, not a proved property of every tree.
- Manipulate.Separate: the same guard on nested blocks with distinct keys.
- Manipulate.MergeWithSameName: the same guard on nested blocks with distinct keys.
- Manipulate.MergeWithSameProperties: the same guard on nested blocks with distinct keys.
- Shorthands.Shorthand.ProcessChildren: the same guard on nested blocks with distinct keys.
- Manipulate.DiscardInvalid: the recursion carries a depth bound; `Manipulate.DiscardSettles`, `Manipulate.SeparateSettles`, `Manipulate.NamesSettle` and `Manipulate.PropsSettle` prove that any bound at least the height of the tree gives the whole recursion.
- Scanner.NextParserInAtRule: requires that the retry loops end; where the first `:` or `{` after the brace is escaped and a `{` follows, the program loops for ever, and the parser model ends with the outcome `NeverEnds` instead.
- Scanner.EscapedIffOddRun: position 0 is never escaped, as PHP before 7.1 reads the offset -1 as unset.
- Shorthands.BorderRadiusShorthand: the `empty($parts)` branch (lib/optimise/Shorthand.php:208-210) is unreachable, because `explode` always returns at least one piece, and has no counterpart.
- Parser.Parse: comments and declarations are elements of the tree, not `Comment` and `Property` objects; the `Parsed` document is the datatype `Document`.
- Parser.Parse: a call on an empty block stack, which throws in PHP, ends the model with the outcome `Crashed`.
- CSSTidy's own superseded `parse` loop, its printer, `optimiser.php`, the `Configuration` and `Logger` classes, and all input and output are not part of this model.

## Findings

| source | as written | input that shows it | evidently intended | confidence | as-written member | corrected member |
|---|---|---|---|---|---|---|
| lib/optimise/Shorthand.php:258 | when no collapse applies, `compressShorthandValues` joins the values and drops `$important` | `margin: 1px !important` becomes `1px`, and so does `margin: 1px 2px 3px 4px !important` become `1px 2px 3px 4px` | the importance suffix is kept on every path | not executed | Shorthands.SingleValueLosesImportant | Shorthands.CompressKeepsImportant |
| lib/optimise/Shorthand.php:565 | `in_array($value, $weights, true)` compares strings to the integers 100-900, so no numeric weight is recognised | `font: 700 12px Arial` gives size `700`, family `"12px Arial"`, weight `normal` | numeric weights are read as weights | not executed | Fonts.WrittenMisreadsWeight | Fonts.IntendedReadsWeight |
| lib/Parser.php:705 | `!isset($add{6})` lets `unicode` collect a seventh hexadecimal digit | `\0000041` decodes to `A` | at most six digits, as section 4.1.3 of CSS 2.1 states | not executed | Scanner.SeventhDigitIsRead | Scanner.SixDigitsEndTheEscape |
| lib/Parser.php:681-687 | the retry loops search again from the escaped character they found, so they never move past it | `@media s{a\:b{c:d}}` never ends | escaped `:` and `{` are skipped | not executed | Scanner.RetryMakesNoProgress | Scanner.IntendedAgreesUnescaped |
| lib/Parser.php:670-678 | the first `:` is taken even when escaped, if no `{` follows | `@font-face{a\:b}` is read as declarations | an escaped `:` does not count | not executed | Scanner.EscapedColonFaceDiffers | Scanner.IntendedNextParserInAtRule |
| lib/optimise/Number.php:107-126 | the hex test looks at the part before it is rewritten | `color: 100.0` becomes `100`, and a second pass makes it `#100` (any three-digit integer `w` with `.0`) | the rewritten part gets its `#` in the same pass, so optimising is idempotent | not executed | Numbers.ColourTwiceDiffers | Numbers.OptimiseIdempotent |
