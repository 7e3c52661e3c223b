/**
 * The older revision of the document tree: lib/Selector.php and
 * lib/AtBlock.php (a selector's ordered property map, and an at-rule block
 * that nests selectors in the same map under `'!' . name` keys), and
 * lib/Parsed.php (the nested `css[media][selector][property]` array with the
 * renaming helpers the old parse loop calls), together with the
 * `explodeSelectors` step of lib/CSSTidy.php that writes into it.
 *
 * As in the newer tree, a nested selector is kept in its parent's map as a
 * value (`Node`) whose `id` stands for the object identity PHP's `===`
 * compares, and the two PHP classes become one class with a `kind`.
 */
module Legacy {
  import opened Wrappers
  import opened Text
  import opened OrderedMaps
  import opened LineAts
  import opened Elements
  import Tidy
  import Scanner

  /**
   * The `mergeSelectors` setting. `DoNotChange` is the one PHP reads as
   * false; the other two are non-zero constants.
   */
  datatype MergeMode = DoNotChange | SeparateSelectors | MergeSelectors

  // ================================================ lib/Selector.php, lib/AtBlock.php

  /**
   * `$this->properties[$key]->mergeProperties($props); return $this->properties[$key];`:
   * the selector stored under `key` absorbs the properties and stays in place.
   * PHP stops with a fatal error when the entry is not an object (None).
   */
  function AbsorbedAt(m: Props, key: Key, props: Props): Option<(Props, Node)>
    requires Has(m, key)
  {
    var it := Get(m, key);
    if it.Child? then
      var merged := it.node.(properties := MergeAll(it.node.properties, props));
      Some((Put(m, key, Child(merged)), merged))
    else None
  }

  /** `return $this->properties[$key] = $selector;` */
  function StoredAt(m: Props, key: Key, s: Node): Option<(Props, Node)> {
    Some((Put(m, key, Child(s)), s))
  }

  /**
   * `addSelector`: the new map and the selector returned. `@font-face` always
   * gets an unused key; in MERGE_SELECTORS mode a selector stored under the
   * same name absorbs the new one; in the other modes only a selector stored
   * under the same name as the very last entry does, and otherwise the new
   * one goes under the name plus at least one space.
   */
  function SelectorAdded(mode: MergeMode, m: Props, s: Node): Option<(Props, Node)> {
    var name := "!" + s.name;
    if s.name == "@font-face" then StoredAt(m, FreshName(m, name), s)
    else if mode == MergeSelectors then
      if Has(m, Name(name)) then AbsorbedAt(m, Name(name), s.properties) else StoredAt(m, Name(name), s)
    else if Has(m, Name(name)) then
      if LastKey(m) == Name(name) then AbsorbedAt(m, Name(name), s.properties)
      else StoredAt(m, Probe(name, FreshSpaces(m, name, 1)), s)
    else StoredAt(m, Name(name), s)
  }

  /** `@font-face` is never merged: it is appended under an unused key and returned. */
  lemma FontFaceAppended(mode: MergeMode, m: Props, s: Node)
    requires s.name == "@font-face"
    ensures var r := SelectorAdded(mode, m, s);
      && r.Some? && r.value.1 == s
      && r.value.0 == m + [(FreshName(m, "!" + s.name), Child(s))]
      && !Has(m, FreshName(m, "!" + s.name))
  {
    PutFresh(m, "!" + s.name, Child(s));
  }

  /**
   * In MERGE_SELECTORS mode a selector already stored under the name absorbs
   * the new properties and is returned: no entry is added and no other entry
   * changes.
   */
  lemma MergeModeAbsorbs(m: Props, s: Node, k: Key)
    requires s.name != "@font-face"
    requires Has(m, Name("!" + s.name)) && Get(m, Name("!" + s.name)).Child?
    ensures var r := SelectorAdded(MergeSelectors, m, s);
      var old_ := Get(m, Name("!" + s.name)).node;
      && r.Some? && |r.value.0| == |m|
      && r.value.1 == old_.(properties := MergeAll(old_.properties, s.properties))
      && Has(r.value.0, Name("!" + s.name)) && Get(r.value.0, Name("!" + s.name)) == Child(r.value.1)
      && (k != Name("!" + s.name) ==> (Has(r.value.0, k) <==> Has(m, k)))
      && (k != Name("!" + s.name) && Has(m, k) ==> Get(r.value.0, k) == Get(m, k))
  {
    var old_ := Get(m, Name("!" + s.name)).node;
    var merged := old_.(properties := MergeAll(old_.properties, s.properties));
    PutGet(m, Name("!" + s.name), Child(merged));
    if k != Name("!" + s.name) {
      PutOther(m, Name("!" + s.name), Child(merged), k);
    }
  }

  /**
   * Outside MERGE_SELECTORS mode a selector whose name is in use by an entry
   * other than the last one is appended under the name plus one or more
   * spaces, never overwriting.
   */
  lemma OtherModesAppend(mode: MergeMode, m: Props, s: Node)
    requires mode != MergeSelectors && s.name != "@font-face"
    requires Has(m, Name("!" + s.name)) && LastKey(m) != Name("!" + s.name)
    ensures var r := SelectorAdded(mode, m, s);
      var k := FreshSpaces(m, "!" + s.name, 1);
      && k >= 1 && !Has(m, Probe("!" + s.name, k))
      && r == Some((m + [(Probe("!" + s.name, k), Child(s))], s))
  {
  }

  /** A name not yet in use is stored as it is, whatever the mode. */
  lemma UnusedNameStored(mode: MergeMode, m: Props, s: Node)
    requires s.name != "@font-face" && !Has(m, Name("!" + s.name))
    ensures SelectorAdded(mode, m, s) == Some((m + [(Name("!" + s.name), Child(s))], s))
  {
  }

  /** `addSelector` keeps the keys distinct. */
  lemma SelectorAddedKeepsDistinct(mode: MergeMode, m: Props, s: Node)
    requires DistinctKeys(m) && SelectorAdded(mode, m, s).Some?
    ensures DistinctKeys(SelectorAdded(mode, m, s).value.0)
  {
    var name := "!" + s.name;
    if s.name == "@font-face" {
      PutKeepsDistinct(m, FreshName(m, name), Child(s));
    } else if Has(m, Name(name)) && (mode == MergeSelectors || LastKey(m) == Name(name)) {
      var it := Get(m, Name(name));
      PutKeepsDistinct(m, Name(name), Child(it.node.(properties := MergeAll(it.node.properties, s.properties))));
    } else if Has(m, Name(name)) {
      PutKeepsDistinct(m, Probe(name, FreshSpaces(m, name, 1)), Child(s));
    } else {
      PutKeepsDistinct(m, Name(name), Child(s));
    }
  }

  /** Whether an entry is the very object `removeSelector` looks for. */
  predicate Holds(it: Item, id: nat) {
    it.Child? && it.node.id == id
  }

  /** The position of the first entry holding the object, if any. */
  function FirstHolder(m: Props, id: nat): (r: Option<nat>)
    ensures r.Some? ==> r.value < |m| && Holds(m[r.value].1, id)
    ensures r.Some? ==> forall j :: 0 <= j < r.value ==> !Holds(m[j].1, id)
    ensures r.None? ==> forall j :: 0 <= j < |m| ==> !Holds(m[j].1, id)
  {
    if m == [] then None
    else if Holds(m[0].1, id) then Some(0)
    else match FirstHolder(m[1..], id)
      case None => None
      case Some(j) => Some(j + 1)
  }

  /** `removeSelector`: the first entry holding the object goes; every other entry stays, in order. */
  function SelectorRemoved(m: Props, id: nat): (r: Props)
    ensures FirstHolder(m, id).None? ==> r == m
    ensures FirstHolder(m, id).Some? ==>
      var p := FirstHolder(m, id).value; r == m[..p] + m[p + 1..]
  {
    match FirstHolder(m, id)
    case None => m
    case Some(p) => m[..p] + m[p + 1..]
  }

  /** Dropping one entry keeps the keys distinct. */
  lemma DropKeepsDistinct(m: Props, p: nat)
    requires DistinctKeys(m) && p < |m|
    ensures DistinctKeys(m[..p] + m[p + 1..])
  {
    var r := m[..p] + m[p + 1..];
    assert forall i :: 0 <= i < |r| ==> r[i] == m[if i < p then i else i + 1];
  }

  /** After `removeSelector`, no entry before the removed one held the object, and every other entry is kept. */
  lemma RemovesOnlyFirst(m: Props, id: nat)
    requires FirstHolder(m, id).Some?
    ensures var p := FirstHolder(m, id).value; var r := SelectorRemoved(m, id);
      && |r| == |m| - 1
      && (forall i :: 0 <= i < p ==> r[i] == m[i] && !Holds(r[i].1, id))
      && (forall i :: p <= i < |r| ==> r[i] == m[i + 1])
  {
    var p := FirstHolder(m, id).value;
    var r := m[..p] + m[p + 1..];
    assert forall i :: 0 <= i < p ==> r[i] == m[..p][i];
    assert forall i :: p <= i < |r| ==> r[i] == m[p + 1..][i - p];
  }

  /** `while (isset($m[$key])) $key .= ' ';` from `n` spaces after `base` on. */
  method FreshKey<V>(m: OMap<Key, V>, base: string, n: nat) returns (key: string)
    ensures Name(key) == Probe(base, FreshSpaces(m, base, n))
  {
    key := base + Spaces(n);
    ghost var k := n;
    while Has(m, Name(key))
      invariant key == base + Spaces(k) && n <= k
      invariant FreshSpaces(m, base, n) == FreshSpaces(m, base, k)
      decreases MaxNameLength(m) + 1 - |key|
    {
      NameLengthBound(m, key);
      ProbeNext(base, k);
      key := key + " ";
      k := k + 1;
    }
  }

  /** `lib/Selector.php` and `lib/AtBlock.php`. */
  class Selector {
    const id: nat
    const kind: Kind
    var name: string
    var properties: Props

    /** PHP arrays never repeat a key. */
    ghost predicate Valid()
      reads this
    {
      DistinctKeys(properties)
    }

    function Snapshot(): Node
      reads this
    {
      Node(id, kind, name, properties, [])
    }

    /** `new Selector($name)` / `new AtBlock($name)`, with `id` the new object's identity. */
    constructor (id: nat, kind: Kind, name: string)
      ensures this.id == id && this.kind == kind && this.name == name
      ensures properties == [] && Valid()
    {
      this.id := id;
      this.kind := kind;
      this.name := name;
      properties := [];
    }

    /** `addProperty`: never overwrites; appends spaces to the name until the key is unused. */
    method AddProperty(property: string, value: string)
      requires Valid()
      modifies this
      ensures Valid()
      ensures properties == Added(old(properties), property, Decl(value))
      ensures name == old(name)
    {
      var m := properties;
      var key := property;
      ghost var n := 0;
      while Has(m, Name(key))
        modifies {}
        invariant key == property + Spaces(n)
        invariant forall j :: 0 <= j < n ==> Has(m, Probe(property, j))
        decreases MaxNameLength(m) + 1 - |key|
      {
        NameLengthBound(m, key);
        ProbeNext(property, n);
        key := key + " ";
        n := n + 1;
      }
      FreshSpacesLeast(m, property, n);
      PutFresh(m, property, Decl(value));
      properties := Put(m, Name(key), Decl(value));
    }

    /** `mergeProperties`: skips empty values and never lets a plain value replace an important one. */
    method MergeProperties(ps: Props)
      requires Valid()
      modifies this
      ensures Valid()
      ensures properties == MergeAll(old(properties), ps)
      ensures name == old(name)
    {
      for i := 0 to |ps|
        invariant Valid()
        invariant properties == MergeAll(old(properties), ps[..i])
        invariant name == old(name)
      {
        assert ps[..i + 1][..i] == ps[..i];
        var (property, value) := ps[i];
        if value != Decl("") && (!Has(properties, property) || !ItemImportant(Get(properties, property))
            || (ItemImportant(Get(properties, property)) && ItemImportant(value))) {
          PutKeepsDistinct(properties, property, value);
          properties := Put(properties, property, value);
        }
      }
      assert ps[..|ps|] == ps;
    }

    /**
     * `AtBlock::addSelector`, with the static `$mergeSelectors` setting as
     * `mode`: the selector stored or absorbed, or None where PHP would call
     * `mergeProperties` on a non-object.
     */
    method AddSelector(mode: MergeMode, s: Node) returns (r: Option<Node>)
      requires kind == AtRuleBlock && Valid()
      modifies this
      ensures Valid()
      ensures SelectorAdded(mode, old(properties), s).None? ==> r.None? && properties == old(properties)
      ensures SelectorAdded(mode, old(properties), s).Some? ==>
        r == Some(SelectorAdded(mode, old(properties), s).value.1) && properties == SelectorAdded(mode, old(properties), s).value.0
      ensures name == old(name)
    {
      var m := properties;
      var key := "!" + s.name;
      if s.name == "@font-face" {
        key := FreshKey(m, key, 0);
      } else if mode == MergeSelectors {
        if Has(m, Name(key)) {
          r := Absorb(key, s.properties);
          return;
        }
      } else {
        if Has(m, Name(key)) {
          if m[|m| - 1].0 == Name(key) {
            r := Absorb(key, s.properties);
            return;
          }
          ProbeNext(key, 0);
          assert key + Spaces(0) == key;
          key := FreshKey(m, "!" + s.name, 1);
        }
      }
      SelectorAddedKeepsDistinct(mode, m, s);
      properties := Put(m, Name(key), Child(s));
      r := Some(s);
    }

    /**
     * The selector stored under `key` absorbs the properties and is returned;
     * None, with nothing changed, when the entry is not a selector.
     */
    method Absorb(key: string, ps: Props) returns (r: Option<Node>)
      requires Valid() && Has(properties, Name(key))
      modifies this
      ensures Valid()
      ensures AbsorbedAt(old(properties), Name(key), ps).None? ==> r.None? && properties == old(properties)
      ensures AbsorbedAt(old(properties), Name(key), ps).Some? ==>
        r == Some(AbsorbedAt(old(properties), Name(key), ps).value.1) && properties == AbsorbedAt(old(properties), Name(key), ps).value.0
      ensures name == old(name)
    {
      var m := properties;
      var i := IndexOf(m, Name(key));
      if !m[i].1.Child? {
        return None;
      }
      var child := m[i].1.node;
      var merged := child.(properties := MergeAll(child.properties, ps));
      PutKeepsDistinct(m, Name(key), Child(merged));
      properties := m[i := (Name(key), Child(merged))];
      r := Some(merged);
    }

    /** `AtBlock::removeSelector`: unsets the first entry that is the object itself. */
    method RemoveSelector(s: Node)
      requires kind == AtRuleBlock && Valid()
      modifies this
      ensures Valid()
      ensures properties == SelectorRemoved(old(properties), s.id)
      ensures name == old(name)
    {
      var m := properties;
      for i := 0 to |m|
        invariant properties == m
        invariant forall j :: 0 <= j < i ==> !Holds(m[j].1, s.id)
      {
        if m[i].1.Child? && m[i].1.node.id == s.id {
          assert FirstHolder(m, s.id) == Some(i);
          DropKeepsDistinct(m, i);
          properties := m[..i] + m[i + 1..];
          return;
        }
      }
      assert FirstHolder(m, s.id).None?;
    }

    /** `AtBlock::addLineAt`: `$this->properties[] = $lineAt`. */
    method AddLineAt(l: LineAt)
      requires kind == AtRuleBlock && Valid()
      modifies this
      ensures Valid()
      ensures properties == Push(old(properties), Line(l))
      ensures name == old(name)
    {
      PushFresh(properties, Line(l));
      properties := Push(properties, Line(l));
    }
  }

  // ================================================================ lib/Parsed.php

  /** `css[media][selector][property] = value`, each level an ordered PHP array. */
  type Css = OMap<Key, OMap<Key, OMap<Key, string>>>

  /** The token types of lib/CSSTidy.php, AT_START (1) to COMMENT (7). */
  datatype TokenType = AtStart | AtEnd | SelStart | SelEnd | PropertyToken | ValueToken | CommentToken

  datatype Token = Token(kind: TokenType, data: string)

  /** `$css[$media]`, or an empty array when unset. */
  function MediaOf(css: Css, media: Key): OMap<Key, OMap<Key, string>> {
    if Has(css, media) then Get(css, media) else []
  }

  /** `$css[$media][$selector]`, or an empty array when unset. */
  function BlockOf(css: Css, media: Key, selector: Key): OMap<Key, string> {
    var ms := MediaOf(css, media);
    if Has(ms, selector) then Get(ms, selector) else []
  }

  /** `isset($css[$media][$selector][$property])`, with the value. */
  function Lookup(css: Css, media: Key, selector: Key, property: Key): Option<string> {
    var b := BlockOf(css, media, selector);
    if Has(b, property) then Some(Get(b, property)) else None
  }

  /** `$css[$media][$selector][$property] = $v`, creating the missing levels. */
  function Stored(css: Css, media: Key, selector: Key, property: Key, v: string): Css {
    Put(css, media, Put(MediaOf(css, media), selector, Put(BlockOf(css, media, selector), property, v)))
  }

  /** The stored value is read back. */
  lemma StoredGet(css: Css, media: Key, selector: Key, property: Key, v: string)
    ensures Lookup(Stored(css, media, selector, property, v), media, selector, property) == Some(v)
  {
    var b := Put(BlockOf(css, media, selector), property, v);
    var ms := Put(MediaOf(css, media), selector, b);
    PutGet(css, media, ms);
    PutGet(MediaOf(css, media), selector, b);
    PutGet(BlockOf(css, media, selector), property, v);
  }

  /** Every other media, selector and property keeps what it had. */
  lemma StoredOther(css: Css, media: Key, selector: Key, property: Key, v: string, m2: Key, s2: Key, p2: Key)
    requires (m2, s2, p2) != (media, selector, property)
    ensures Lookup(Stored(css, media, selector, property, v), m2, s2, p2) == Lookup(css, m2, s2, p2)
  {
    var b := Put(BlockOf(css, media, selector), property, v);
    var ms := Put(MediaOf(css, media), selector, b);
    var r := Put(css, media, ms);
    if m2 != media {
      PutOther(css, media, ms, m2);
      assert MediaOf(r, m2) == MediaOf(css, m2);
    } else {
      PutGet(css, media, ms);
      if s2 != selector {
        PutOther(MediaOf(css, media), selector, b, s2);
        assert BlockOf(r, m2, s2) == BlockOf(css, m2, s2);
      } else {
        PutGet(MediaOf(css, media), selector, b);
        PutOther(BlockOf(css, media, selector), property, v, p2);
      }
    }
  }

  /** Storing leaves every other media section as it was. */
  lemma StoredOtherMedia(css: Css, media: Key, selector: Key, property: Key, v: string, m2: Key)
    requires m2 != media
    ensures MediaOf(Stored(css, media, selector, property, v), m2) == MediaOf(css, m2)
  {
    PutOther(css, media, Put(MediaOf(css, media), selector, Put(BlockOf(css, media, selector), property, v)), m2);
  }

  /** Storing keeps the selector keys of every media section distinct. */
  lemma StoredKeepsDistinct(css: Css, media: Key, selector: Key, property: Key, v: string, m2: Key)
    requires DistinctKeys(MediaOf(css, m2))
    ensures DistinctKeys(MediaOf(Stored(css, media, selector, property, v), m2))
  {
    var ms := Put(MediaOf(css, media), selector, Put(BlockOf(css, media, selector), property, v));
    if m2 == media {
      PutGet(css, media, ms);
      PutKeepsDistinct(MediaOf(css, media), selector, Put(BlockOf(css, media, selector), property, v));
    } else {
      StoredOtherMedia(css, media, selector, property, v, m2);
    }
  }

  /**
   * `addProperty`: nothing in preserve mode or for a blank value; otherwise the
   * trimmed value is stored unless it would replace an important value with a
   * plain one.
   */
  function PropertyAdded(preserveCss: bool, css: Css, media: Key, selector: Key, property: Key, newValue: string): Css {
    if preserveCss || Trim(newValue) == "" then css
    else match Lookup(css, media, selector, property)
      case Some(current) =>
        if (Tidy.IsImportant(current) && Tidy.IsImportant(newValue)) || !Tidy.IsImportant(current)
        then Stored(css, media, selector, property, Trim(newValue))
        else css
      case None => Stored(css, media, selector, property, Trim(newValue))
  }

  /** Preserve mode and blank values change nothing. */
  lemma AddPropertySkips(preserveCss: bool, css: Css, media: Key, selector: Key, property: Key, newValue: string)
    requires preserveCss || Trim(newValue) == ""
    ensures PropertyAdded(preserveCss, css, media, selector, property, newValue) == css
  {
  }

  /** An important value is kept against a plain one. */
  lemma AddPropertyKeepsImportant(css: Css, media: Key, selector: Key, property: Key, newValue: string)
    requires Lookup(css, media, selector, property).Some? && Tidy.IsImportant(Lookup(css, media, selector, property).value)
    requires !Tidy.IsImportant(newValue)
    ensures PropertyAdded(false, css, media, selector, property, newValue) == css
  {
  }

  /**
   * Otherwise the trimmed value is what the property holds afterwards, and no
   * other property of any selector changes.
   */
  lemma AddPropertyStores(css: Css, media: Key, selector: Key, property: Key, newValue: string, m2: Key, s2: Key, p2: Key)
    requires Trim(newValue) != ""
    requires Lookup(css, media, selector, property).None? || !Tidy.IsImportant(Lookup(css, media, selector, property).value)
      || Tidy.IsImportant(newValue)
    ensures var r := PropertyAdded(false, css, media, selector, property, newValue);
      && Lookup(r, media, selector, property) == Some(Trim(newValue))
      && ((m2, s2, p2) != (media, selector, property) ==> Lookup(r, m2, s2, p2) == Lookup(css, m2, s2, p2))
  {
    StoredGet(css, media, selector, property, Trim(newValue));
    if (m2, s2, p2) != (media, selector, property) {
      StoredOther(css, media, selector, property, Trim(newValue), m2, s2, p2);
    }
  }

  /** `addProperty` changes at most the one property it is given. */
  lemma AddPropertyOthers(preserveCss: bool, css: Css, media: Key, selector: Key, property: Key, newValue: string, m2: Key, s2: Key, p2: Key)
    requires (m2, s2, p2) != (media, selector, property)
    ensures Lookup(PropertyAdded(preserveCss, css, media, selector, property, newValue), m2, s2, p2) == Lookup(css, m2, s2, p2)
  {
    StoredOther(css, media, selector, property, Trim(newValue), m2, s2, p2);
  }

  /** `addProperty` leaves other media sections alone and keeps selector keys distinct. */
  lemma AddPropertyShape(preserveCss: bool, css: Css, media: Key, selector: Key, property: Key, newValue: string, m2: Key)
    ensures m2 != media ==> MediaOf(PropertyAdded(preserveCss, css, media, selector, property, newValue), m2) == MediaOf(css, m2)
    ensures DistinctKeys(MediaOf(css, m2)) ==> DistinctKeys(MediaOf(PropertyAdded(preserveCss, css, media, selector, property, newValue), m2))
  {
    if m2 != media {
      StoredOtherMedia(css, media, selector, property, Trim(newValue), m2);
    }
    if DistinctKeys(MediaOf(css, m2)) {
      StoredKeepsDistinct(css, media, selector, property, Trim(newValue), m2);
    }
  }

  /** `mergeCssBlocks`: `addProperty` for each entry, in order. */
  function CssMerged(preserveCss: bool, css: Css, media: Key, selector: Key, add: OMap<Key, string>): Css
    decreases |add|
  {
    if add == [] then css
    else
      var (property, value) := add[|add| - 1];
      PropertyAdded(preserveCss, CssMerged(preserveCss, css, media, selector, add[..|add| - 1]), media, selector, property, value)
  }

  /** Properties `mergeCssBlocks` is not given, and other selectors, keep their values. */
  lemma {:induction false} CssMergedOthers(preserveCss: bool, css: Css, media: Key, selector: Key, add: OMap<Key, string>, m2: Key, s2: Key, p2: Key)
    requires (m2, s2) != (media, selector) || !Has(add, p2)
    ensures Lookup(CssMerged(preserveCss, css, media, selector, add), m2, s2, p2) == Lookup(css, m2, s2, p2)
    decreases |add|
  {
    if add != [] {
      var init := add[..|add| - 1];
      if (m2, s2) == (media, selector) {
        assert Keys(add) == Keys(init) + [add[|add| - 1].0];
      }
      CssMergedOthers(preserveCss, css, media, selector, init, m2, s2, p2);
      AddPropertyOthers(preserveCss, CssMerged(preserveCss, css, media, selector, init), media, selector,
        add[|add| - 1].0, add[|add| - 1].1, m2, s2, p2);
    }
  }

  /** `mergeCssBlocks` leaves other media sections alone and keeps selector keys distinct. */
  lemma {:induction false} CssMergedShape(preserveCss: bool, css: Css, media: Key, selector: Key, add: OMap<Key, string>, m2: Key)
    ensures m2 != media ==> MediaOf(CssMerged(preserveCss, css, media, selector, add), m2) == MediaOf(css, m2)
    ensures DistinctKeys(MediaOf(css, m2)) ==> DistinctKeys(MediaOf(CssMerged(preserveCss, css, media, selector, add), m2))
    decreases |add|
  {
    if add != [] {
      var init := add[..|add| - 1];
      CssMergedShape(preserveCss, css, media, selector, init, m2);
      AddPropertyShape(preserveCss, CssMerged(preserveCss, css, media, selector, init), media, selector,
        add[|add| - 1].0, add[|add| - 1].1, m2);
    }
  }

  /** `is_numeric($media) ? $media++ : $media .= ' '`. */
  function Bumped(media: Key): Key {
    match media
    case Index(n) => Index(n + 1)
    case Name(t) => Name(t + " ")
  }

  /** How far a media key is from the keys in use: what bumping it uses up. */
  function MediaRoom(css: Css, media: Key): int {
    match media
    case Index(n) => MaxIndex(css) + 1 - n
    case Name(t) => MaxNameLength(css) + 1 - |t|
  }

  /** A media key in use has room left. */
  lemma MediaRoomLeft(css: Css, media: Key)
    requires Has(css, media)
    ensures MediaRoom(css, media) >= 1
  {
    var i := HasWitness(css, media);
  }

  /** The loop of `newMediaSection`: bump the name until it is unused. */
  function FreshMedia(css: Css, media: Key): (r: Key)
    ensures !Has(css, r) && r.Index? == media.Index?
    decreases MediaRoom(css, media)
  {
    if !Has(css, media) then media
    else
      MediaRoomLeft(css, media);
      FreshMedia(css, Bumped(media))
  }

  /**
   * `newMediaSection`: the name as it is in preserve mode, for an empty tree
   * and when it is the last media section; otherwise bumped until unused.
   */
  function MediaSection(preserveCss: bool, css: Css, media: Key): Key {
    if preserveCss || css == [] || LastKey(css) == media then media else FreshMedia(css, media)
  }

  /**
   * Outside preserve mode, a new media section never lands on a section in
   * use, except on the last one, which it continues; numeric names stay
   * numeric.
   */
  lemma MediaSectionFresh(css: Css, media: Key)
    ensures var r := MediaSection(false, css, media);
      && r.Index? == media.Index?
      && (Has(css, r) ==> r == media && LastKey(css) == media)
  {
  }

  /** `strncmp($selector, "@font-face", 10) == 0` */
  predicate FontFacePrefix(s: string) {
    |s| >= 10 && s[..10] == "@font-face"
  }

  /**
   * `newSelector`: in preserve mode the name as given; otherwise the trimmed
   * name, kept as it is when merging is on, the media section is empty or it
   * continues the last selector (never for `@font-face`), and made unused by
   * appending spaces otherwise.
   */
  function SelectorName(preserveCss: bool, mode: MergeMode, css: Css, media: Key, selector: string): string {
    if preserveCss then selector
    else
      var s := Trim(selector);
      var ms := MediaOf(css, media);
      if !FontFacePrefix(s) && (mode != DoNotChange || ms == [] || LastKey(ms) == Name(s)) then s
      else s + Spaces(FreshSpaces(ms, s, 0))
  }

  /** `@font-face` always gets a selector name not in use in its media section. */
  lemma FontFaceSelectorFresh(mode: MergeMode, css: Css, media: Key, selector: string)
    requires FontFacePrefix(Trim(selector))
    ensures !Has(MediaOf(css, media), Name(SelectorName(false, mode, css, media, selector)))
  {
  }

  /**
   * A new selector name collides with one in use only when it is the trimmed
   * name, not `@font-face`, and merging is on or it is the last selector.
   */
  lemma SelectorNameCollides(mode: MergeMode, css: Css, media: Key, selector: string)
    requires Has(MediaOf(css, media), Name(SelectorName(false, mode, css, media, selector)))
    ensures var r := SelectorName(false, mode, css, media, selector);
      && r == Trim(selector) && !FontFacePrefix(r)
      && (mode != DoNotChange || LastKey(MediaOf(css, media)) == Name(r))
  {
  }

  /**
   * `newProperty`: in preserve mode, or when the selector holds nothing yet,
   * the name as given; otherwise spaces are appended until it is unused.
   */
  function PropertyName(preserveCss: bool, css: Css, media: Key, selector: string, property: string): string {
    var b := BlockOf(css, media, Name(selector));
    if preserveCss || b == [] then property else property + Spaces(FreshSpaces(b, property, 0))
  }

  /** Outside preserve mode a new property name is never in use in its selector. */
  lemma PropertyNameFresh(css: Css, media: Key, selector: string, property: string)
    ensures var r := PropertyName(false, css, media, selector, property);
      !Has(BlockOf(css, media, Name(selector)), Name(r)) && r[..|property|] == property
  {
  }

  /** `addToken`: what is recorded, if anything. */
  function TokensAdded(preserveCss: bool, tokens: seq<Token>, kind: TokenType, data: string, force: bool): seq<Token> {
    if preserveCss || force then tokens + [Token(kind, if kind == CommentToken then data else Trim(data))] else tokens
  }

  /** The parsed document: the nested css array, the token list and the header rules. */
  class Parsed {
    var css: Css
    var tokens: seq<Token>
    var charset: string
    var imports: seq<string>
    var namespace: string
    const preserveCss: bool
    const mergeSelectors: MergeMode

    constructor (preserveCss: bool, mergeSelectors: MergeMode)
      ensures this.preserveCss == preserveCss && this.mergeSelectors == mergeSelectors
      ensures css == [] && tokens == [] && charset == "" && imports == [] && namespace == ""
    {
      this.preserveCss := preserveCss;
      this.mergeSelectors := mergeSelectors;
      css := [];
      tokens := [];
      charset := "";
      imports := [];
      namespace := "";
    }

    /** `addToken($type, $data, $do)`: only in preserve mode or when forced; comments are kept verbatim. */
    method AddToken(kind: TokenType, data: string, force: bool)
      modifies this
      ensures tokens == TokensAdded(preserveCss, old(tokens), kind, data, force)
      ensures css == old(css)
    {
      if preserveCss || force {
        tokens := tokens + [Token(kind, if kind == CommentToken then data else Trim(data))];
      }
    }

    /** `addProperty($media, $selector, $property, $newValue)`. */
    method AddProperty(media: Key, selector: string, property: Key, newValue: string)
      modifies this
      ensures css == PropertyAdded(preserveCss, old(css), media, Name(selector), property, newValue)
      ensures tokens == old(tokens)
    {
      if preserveCss || Trim(newValue) == "" {
        return;
      }
      var current := Lookup(css, media, Name(selector), property);
      if current.Some? {
        if (Tidy.IsImportant(current.value) && Tidy.IsImportant(newValue)) || !Tidy.IsImportant(current.value) {
          css := Stored(css, media, Name(selector), property, Trim(newValue));
        }
      } else {
        css := Stored(css, media, Name(selector), property, Trim(newValue));
      }
    }

    /** `mergeCssBlocks`: addProperty for each entry, in order. */
    method MergeCssBlocks(media: Key, selector: string, cssAdd: OMap<Key, string>)
      modifies this
      ensures css == CssMerged(preserveCss, old(css), media, Name(selector), cssAdd)
      ensures tokens == old(tokens)
    {
      for i := 0 to |cssAdd|
        invariant css == CssMerged(preserveCss, old(css), media, Name(selector), cssAdd[..i])
        invariant tokens == old(tokens)
      {
        assert cssAdd[..i + 1][..i] == cssAdd[..i];
        var (property, value) := cssAdd[i];
        AddProperty(media, selector, property, value);
      }
      assert cssAdd[..|cssAdd|] == cssAdd;
    }

    /** `newMediaSection`. */
    method NewMediaSection(media: Key) returns (r: Key)
      ensures r == MediaSection(preserveCss, css, media)
    {
      if preserveCss || css == [] || css[|css| - 1].0 == media {
        return media;
      }
      r := media;
      while Has(css, r)
        invariant FreshMedia(css, r) == FreshMedia(css, media)
        decreases MediaRoom(css, r)
      {
        MediaRoomLeft(css, r);
        if r.Index? {
          r := Index(r.n + 1);
        } else {
          r := Name(r.text + " ");
        }
      }
    }

    /** `newSelector`. */
    method NewSelector(media: Key, selector: string) returns (r: string)
      ensures r == SelectorName(preserveCss, mergeSelectors, css, media, selector)
    {
      if preserveCss {
        return selector;
      }
      r := Trim(selector);
      var ms := MediaOf(css, media);
      if !FontFacePrefix(r) {
        if mergeSelectors != DoNotChange {
          return;
        }
        if ms == [] {
          return;
        }
        if ms[|ms| - 1].0 == Name(r) {
          return;
        }
      }
      r := FreshKey(ms, r, 0);
      assert Trim(selector) + Spaces(0) == Trim(selector);
    }

    /** `newProperty`. */
    method NewProperty(media: Key, selector: string, property: string) returns (r: string)
      ensures r == PropertyName(preserveCss, css, media, selector, property)
    {
      var b := BlockOf(css, media, Name(selector));
      if preserveCss || b == [] {
        return property;
      }
      r := FreshKey(b, property, 0);
    }

    /** The loop of `explodeSelectors`: each fragment receives the group's properties while the group is set. */
    method Spread(at: Key, selector: string, pieces: seq<string>)
      modifies this
      ensures css == SpreadOver(preserveCss, old(css), at, selector, pieces)
      ensures tokens == old(tokens)
    {
      for i := 0 to |pieces|
        invariant css == SpreadOver(preserveCss, old(css), at, selector, pieces[..i])
        invariant tokens == old(tokens)
      {
        assert pieces[..i + 1][..i] == pieces[..i];
        if Has(MediaOf(css, at), Name(selector)) {
          MergeCssBlocks(at, pieces[i], BlockOf(css, at, Name(selector)));
        }
      }
      assert pieces[..|pieces|] == pieces;
    }
  }

  // ================================================= lib/CSSTidy.php: explodeSelectors

  /**
   * The loop of `explodeSelectors` over the fragments: each one receives
   * the properties the whole group holds at that moment, if it is set.
   */
  function SpreadOver(preserveCss: bool, css: Css, at: Key, selector: string, pieces: seq<string>): Css
    decreases |pieces|
  {
    if pieces == [] then css
    else
      var prev := SpreadOver(preserveCss, css, at, selector, pieces[..|pieces| - 1]);
      if Has(MediaOf(prev, at), Name(selector))
      then CssMerged(preserveCss, prev, at, Name(pieces[|pieces| - 1]), BlockOf(prev, at, Name(selector)))
      else prev
  }

  /** `unset($css[$at][$selector])` */
  function Unset(css: Css, at: Key, selector: string): Css {
    if Has(css, at) then Put(css, at, Remove(Get(css, at), Name(selector))) else css
  }

  /**
   * `explodeSelectors` in SEPARATE_SELECTORS mode: a group of more than one
   * selector is copied to each of its fragments and then removed.
   */
  function Exploded(preserveCss: bool, css: Css, at: Key, selector: string, separate: seq<nat>): Css {
    var pieces := Scanner.Fragments(selector, separate);
    if |pieces| > 1 then Unset(SpreadOver(preserveCss, css, at, selector, pieces), at, selector) else css
  }

  /** Copying to the fragments leaves other media sections alone and keeps selector keys distinct. */
  lemma {:induction false} SpreadOverShape(preserveCss: bool, css: Css, at: Key, selector: string, pieces: seq<string>, m2: Key)
    ensures m2 != at ==> MediaOf(SpreadOver(preserveCss, css, at, selector, pieces), m2) == MediaOf(css, m2)
    ensures DistinctKeys(MediaOf(css, m2)) ==> DistinctKeys(MediaOf(SpreadOver(preserveCss, css, at, selector, pieces), m2))
    decreases |pieces|
  {
    if pieces != [] {
      var init := pieces[..|pieces| - 1];
      var prev := SpreadOver(preserveCss, css, at, selector, init);
      SpreadOverShape(preserveCss, css, at, selector, init, m2);
      if Has(MediaOf(prev, at), Name(selector)) {
        CssMergedShape(preserveCss, prev, at, Name(pieces[|pieces| - 1]), BlockOf(prev, at, Name(selector)), m2);
      }
    }
  }

  /**
   * After a group is exploded, the group's own selector is gone from its
   * media section, and every other media section is as it was.
   */
  lemma ExplodedRemovesGroup(preserveCss: bool, css: Css, at: Key, selector: string, separate: seq<nat>, m2: Key)
    requires |separate| > 0 && DistinctKeys(MediaOf(css, at))
    ensures !Has(MediaOf(Exploded(preserveCss, css, at, selector, separate), at), Name(selector))
    ensures m2 != at ==> MediaOf(Exploded(preserveCss, css, at, selector, separate), m2) == MediaOf(css, m2)
  {
    var pieces := Scanner.Fragments(selector, separate);
    var spread := SpreadOver(preserveCss, css, at, selector, pieces);
    SpreadOverShape(preserveCss, css, at, selector, pieces, at);
    SpreadOverShape(preserveCss, css, at, selector, pieces, m2);
    if Has(spread, at) {
      var ms := Remove(Get(spread, at), Name(selector));
      RemoveGone(Get(spread, at), Name(selector));
      PutGet(spread, at, ms);
      if m2 != at {
        PutOther(spread, at, ms, m2);
      }
    }
  }

  /** The parse state `explodeSelectors` works on. */
  class CssTidy {
    const mergeSelectors: MergeMode
    const parsed: Parsed
    var at: Key
    var selector: string
    var selSeparate: seq<nat>

    constructor (mergeSelectors: MergeMode, parsed: Parsed)
      ensures this.mergeSelectors == mergeSelectors && this.parsed == parsed
      ensures at == Name("") && selector == "" && selSeparate == []
    {
      this.mergeSelectors := mergeSelectors;
      this.parsed := parsed;
      at := Name("");
      selector := "";
      selSeparate := [];
    }

    /**
     * `explodeSelectors`: only in SEPARATE_SELECTORS mode does it touch the
     * tree; the recorded comma positions are always cleared.
     */
    method ExplodeSelectors()
      modifies this, parsed
      ensures selSeparate == []
      ensures at == old(at) && selector == old(selector)
      ensures parsed.css == if mergeSelectors == SeparateSelectors
        then Exploded(parsed.preserveCss, old(parsed.css), at, selector, old(selSeparate))
        else old(parsed.css)
      ensures parsed.tokens == old(parsed.tokens)
    {
      if mergeSelectors == SeparateSelectors {
        var newSels := Scanner.SubSelectors(selector, selSeparate);
        if |newSels| > 1 {
          parsed.Spread(at, selector, newSels);
          parsed.css := Unset(parsed.css, at, selector);
        }
      }
      selSeparate := [];
    }
  }
}
