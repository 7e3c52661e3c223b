/**
 * lib/elements: the document tree. `Block` holds a name and an ordered
 * property map; `Selector` adds the list of its comma-separated
 * sub-selectors; `AtBlock` nests further blocks and opaque at-rule lines
 * in the same map. The PHP subclasses become one class with a `kind`.
 * A nested block is kept in its parent's map as a value (`Node`) whose
 * `id` stands for the object identity that PHP's `===` compares.
 */
module Elements {
  import opened Wrappers
  import opened Text
  import opened OrderedMaps
  import opened LineAts
  import Tidy

  /** Which concrete subclass of `Block` an object is. */
  datatype Kind = SelectorBlock | AtRuleBlock

  /** What a property map holds: a declaration value, a nested block, or an at-rule line. */
  datatype Item = Decl(value: string) | Child(node: Node) | Line(line: LineAt)

  /** A block as a value. */
  datatype Node = Node(id: nat, kind: Kind, name: string, properties: OMap<Key, Item>, subSelectors: seq<string>)

  type Props = OMap<Key, Item>

  /** `CSSTidy::isImportant` on a map entry: only declarations can be important. */
  predicate ItemImportant(it: Item) {
    it.Decl? && Tidy.IsImportant(it.value)
  }

  // ------------------------------------------------------ mergeProperties

  /** When `mergeProperties` writes `value` under `key`: never an empty value, never a plain one over an important one. */
  predicate Overrides(m: Props, key: Key, value: Item) {
    value != Decl("") && (!Has(m, key) || !ItemImportant(Get(m, key)) || ItemImportant(value))
  }

  /** One iteration of `mergeProperties`. */
  function MergeOne(m: Props, key: Key, value: Item): (r: Props)
    ensures Has(m, key) ==> Has(r, key)
  {
    PutGet(m, key, value);
    if Overrides(m, key, value) then Put(m, key, value) else m
  }

  /** `mergeProperties`: MergeOne for each entry, in order. */
  function MergeAll(m: Props, ps: Props): Props
    decreases |ps|
  {
    if ps == [] then m else MergeOne(MergeAll(m, ps[..|ps| - 1]), ps[|ps| - 1].0, ps[|ps| - 1].1)
  }

  /** An empty value changes nothing. */
  lemma MergeSkipsEmpty(m: Props, key: Key)
    ensures MergeOne(m, key, Decl("")) == m
  {
  }

  /** An absent key is added; a present plain value is overwritten. */
  lemma MergeOverwritesPlain(m: Props, key: Key, value: Item)
    requires value != Decl("")
    requires !Has(m, key) || !ItemImportant(Get(m, key))
    ensures Has(MergeOne(m, key, value), key) && Get(MergeOne(m, key, value), key) == value
  {
    PutGet(m, key, value);
  }

  /** An important value is replaced only by an important one. */
  lemma MergeImportantWins(m: Props, key: Key, value: Item)
    requires Has(m, key) && ItemImportant(Get(m, key))
    ensures Get(MergeOne(m, key, value), key) == (if value != Decl("") && ItemImportant(value) then value else Get(m, key))
    ensures !ItemImportant(value) ==> MergeOne(m, key, value) == m
  {
    PutGet(m, key, value);
  }

  /** Other keys keep their values. */
  lemma MergeOther(m: Props, key: Key, value: Item, other: Key)
    requires other != key
    ensures Has(MergeOne(m, key, value), other) <==> Has(m, other)
    ensures Has(m, other) ==> Get(MergeOne(m, key, value), other) == Get(m, other)
  {
    PutOther(m, key, value, other);
  }

  /** Keys that `ps` does not mention are untouched by `mergeProperties`. */
  lemma {:induction false} MergeAllOther(m: Props, ps: Props, k: Key)
    requires forall j :: 0 <= j < |ps| ==> ps[j].0 != k
    ensures Has(MergeAll(m, ps), k) <==> Has(m, k)
    ensures Has(m, k) ==> Get(MergeAll(m, ps), k) == Get(m, k)
    decreases |ps|
  {
    if ps != [] {
      MergeAllOther(m, ps[..|ps| - 1], k);
      MergeOther(MergeAll(m, ps[..|ps| - 1]), ps[|ps| - 1].0, ps[|ps| - 1].1, k);
    }
  }

  /**
   * With distinct keys, `mergeProperties` leaves under each key of `ps`
   * its value when it overrides the existing one, and the existing one otherwise.
   */
  lemma {:induction false} MergeAllAt(m: Props, ps: Props, i: nat)
    requires DistinctKeys(ps) && i < |ps|
    ensures Has(MergeAll(m, ps), ps[i].0) <==> Has(m, ps[i].0) || Overrides(m, ps[i].0, ps[i].1)
    ensures Has(MergeAll(m, ps), ps[i].0) ==>
      Get(MergeAll(m, ps), ps[i].0) == if Overrides(m, ps[i].0, ps[i].1) then ps[i].1 else Get(m, ps[i].0)
    decreases |ps|
  {
    var init := ps[..|ps| - 1];
    var k := ps[i].0;
    if i == |ps| - 1 {
      MergeAllOther(m, init, k);
      PutGet(MergeAll(m, init), k, ps[i].1);
    } else {
      assert init[i] == ps[i];
      MergeAllAt(m, init, i);
      MergeOther(MergeAll(m, init), ps[|ps| - 1].0, ps[|ps| - 1].1, k);
    }
  }

  /** The largest of some numbers, 0 for none. */
  function MaxOf(s: seq<nat>): (r: nat)
    ensures forall i :: 0 <= i < |s| ==> s[i] <= r
  {
    if s == [] then 0
    else
      var rest := MaxOf(s[..|s| - 1]);
      assert forall i :: 0 <= i < |s| - 1 ==> s[..|s| - 1][i] == s[i];
      if s[|s| - 1] > rest then s[|s| - 1] else rest
  }

  /** How deeply blocks nest inside a block, the block itself counted. */
  function Height(n: Node): (r: nat)
    ensures r >= 1
    decreases n
  {
    1 + MaxOf(seq(|n.properties|, i requires 0 <= i < |n.properties| =>
      if n.properties[i].1.Child? then Height(n.properties[i].1.node) else 0))
  }

  /** The height an entry brings: a nested block's own, nothing for anything else. */
  function ItemHeight(it: Item): nat {
    if it.Child? then Height(it.node) else 0
  }

  /** No entry holds a block higher than `h`. */
  predicate Below(m: Props, h: nat) {
    forall i :: 0 <= i < |m| ==> ItemHeight(m[i].1) <= h
  }

  lemma {:induction false} MaxOfAtMost(s: seq<nat>, b: nat)
    requires forall i :: 0 <= i < |s| ==> s[i] <= b
    ensures MaxOf(s) <= b
    decreases |s|
  {
    if s != [] {
      MaxOfAtMost(s[..|s| - 1], b);
    }
  }

  /** A block is one higher than the highest block among its entries. */
  lemma HeightBelow(n: Node, h: nat)
    ensures Below(n.properties, Height(n) - 1)
    ensures Below(n.properties, h) ==> Height(n) <= h + 1
  {
    var hs := seq(|n.properties|, i requires 0 <= i < |n.properties| =>
      if n.properties[i].1.Child? then Height(n.properties[i].1.node) else 0);
    assert forall i :: 0 <= i < |n.properties| ==> hs[i] == ItemHeight(n.properties[i].1);
    if Below(n.properties, h) {
      MaxOfAtMost(hs, h);
    }
  }

  /** The height of a block depends on its entries only. */
  lemma HeightOfEntries(a: Node, b: Node)
    requires a.properties == b.properties
    ensures Height(a) == Height(b)
  {
  }

  lemma GetBelow(m: Props, k: Key, h: nat)
    requires Below(m, h) && Has(m, k)
    ensures ItemHeight(Get(m, k)) <= h
  {
  }

  /** Writing a value no higher than `h` keeps every entry at most `h` high. */
  lemma PutBelow(m: Props, k: Key, v: Item, h: nat)
    requires Below(m, h) && ItemHeight(v) <= h
    ensures Below(Put(m, k, v), h)
  {
  }

  lemma {:induction false} RemoveBelow(m: Props, k: Key, h: nat)
    requires Below(m, h)
    ensures Below(Remove(m, k), h)
    decreases |m|
  {
    if m != [] && m[0].0 != k {
      RemoveBelow(m[1..], k, h);
    }
  }

  lemma RemovedBelow(m: Props, b: Node, h: nat)
    requires Below(m, h)
    ensures Below(Removed(m, b), h)
  {
    match ChainSearch(m, "!" + b.name, 0, TheObject(b))
    case None =>
    case Some(j) => RemoveBelow(m, Probe("!" + b.name, j), h);
  }

  /** `mergeProperties` takes every value from one of its two arrays. */
  lemma {:induction false} MergeAllBelow(m: Props, ps: Props, h: nat)
    requires Below(m, h) && Below(ps, h)
    ensures Below(MergeAll(m, ps), h)
    decreases |ps|
  {
    if ps != [] {
      var init := ps[..|ps| - 1];
      MergeAllBelow(m, init, h);
      PutBelow(MergeAll(m, init), ps[|ps| - 1].0, ps[|ps| - 1].1, h);
    }
  }

  /** So does `merge`. */
  lemma {:induction false} MergedBelow(m: Props, ps: Props, h: nat)
    requires Below(m, h) && Below(ps, h)
    ensures Below(Merged(m, ps), h)
    decreases |ps|
  {
    if ps != [] {
      var init := ps[..|ps| - 1];
      MergedBelow(m, init, h);
      var prev := Merged(m, init);
      var (key, value) := ps[|ps| - 1];
      match value
      case Child(b) => assert AddedBlock(prev, b) == prev + [(FreshName(prev, "!" + b.name), value)];
      case Line(l) => assert Push(prev, Line(l))[..|prev|] == prev;
      case Decl(_) =>
    }
  }

  // -------------------------------------------------- the key chain of a name

  /**
   * What a chain search looks for: the object with identity `id` when
   * `alike` is None, otherwise another object of the given class and name.
   */
  datatype Want = Want(id: nat, alike: Option<(Kind, string)>)

  predicate Hits(want: Want, it: Item) {
    it.Child? &&
    match want.alike
    case None => it.node.id == want.id
    case Some((kind, name)) => it.node.id != want.id && it.node.kind == kind && it.node.name == name
  }

  /**
   * The loops of `removeBlock` and `getBlockWithSameName`: walk the keys
   * `base`, `base `, `base  `, ... while they are in use and return the first
   * step whose entry satisfies `want`.
   */
  function ChainSearch(m: Props, base: string, j: nat, want: Want): (r: Option<nat>)
    ensures r.Some? ==> j <= r.value && Has(m, Probe(base, r.value)) && Hits(want, Get(m, Probe(base, r.value)))
    decreases MaxNameLength(m) + 1 - |base| - j
  {
    if !Has(m, Probe(base, j)) then None
    else if Hits(want, Get(m, Probe(base, j))) then Some(j)
    else
      NameLengthBound(m, base + Spaces(j));
      ChainSearch(m, base, j + 1, want)
  }

  /** The search stops at the first hit: every key before it is in use and misses. */
  lemma {:induction false} ChainFirstHit(m: Props, base: string, j: nat, want: Want, k: nat)
    requires ChainSearch(m, base, j, want).Some? && j <= k < ChainSearch(m, base, j, want).value
    ensures Has(m, Probe(base, k)) && !Hits(want, Get(m, Probe(base, k)))
    decreases k - j
  {
    if k > j {
      ChainFirstHit(m, base, j + 1, want, k);
    }
  }

  /** An empty-handed search saw every key of the chain, up to the first unused one, miss. */
  lemma {:induction false} ChainNoneMisses(m: Props, base: string, j: nat, want: Want, k: nat)
    requires ChainSearch(m, base, j, want).None? && j <= k < FreshSpaces(m, base, j)
    ensures !Hits(want, Get(m, Probe(base, k)))
    decreases k - j
  {
    assert Has(m, Probe(base, j));
    if k > j {
      ChainNoneMisses(m, base, j + 1, want, k);
    }
  }

  /** A used key whose entry misses: the search moves to the next key. */
  lemma ChainMiss(m: Props, base: string, j: nat, want: Want)
    requires Has(m, Probe(base, j)) && !Hits(want, Get(m, Probe(base, j)))
    ensures ChainSearch(m, base, j, want) == ChainSearch(m, base, j + 1, want)
  {
  }

  /** A used key whose entry hits ends the search there. */
  lemma ChainHit(m: Props, base: string, j: nat, want: Want)
    requires Has(m, Probe(base, j)) && Hits(want, Get(m, Probe(base, j)))
    ensures ChainSearch(m, base, j, want) == Some(j)
  {
  }

  /** An unused key ends the search empty-handed. */
  lemma ChainEnd(m: Props, base: string, j: nat, want: Want)
    requires !Has(m, Probe(base, j))
    ensures ChainSearch(m, base, j, want) == None
  {
  }

  /** A chain whose keys are all in use up to a hitting entry: the search stops there or earlier. */
  lemma {:induction false} ChainReach(m: Props, base: string, i: nat, want: Want, j: nat)
    requires i <= j && Has(m, Probe(base, j)) && Hits(want, Get(m, Probe(base, j)))
    requires forall k :: i <= k < j ==> Has(m, Probe(base, k))
    ensures ChainSearch(m, base, i, want).Some? && ChainSearch(m, base, i, want).value <= j
    decreases j - i
  {
    if Hits(want, Get(m, Probe(base, i))) {
      ChainHit(m, base, i, want);
    } else {
      ChainReach(m, base, i + 1, want, j);
      ChainMissReach(m, base, i, want, j);
    }
  }

  /** A miss at `i` passes the bound found from `i + 1` back to `i`. */
  lemma ChainMissReach(m: Props, base: string, i: nat, want: Want, j: nat)
    requires Has(m, Probe(base, i)) && !Hits(want, Get(m, Probe(base, i)))
    requires ChainSearch(m, base, i + 1, want).Some? && ChainSearch(m, base, i + 1, want).value <= j
    ensures ChainSearch(m, base, i, want).Some? && ChainSearch(m, base, i, want).value <= j
  {
    ChainMiss(m, base, i, want);
  }

  /** The entry `removeBlock($b)` looks for: the very same object. */
  function TheObject(b: Node): Want {
    Want(b.id, None)
  }

  /** The entry `getBlockWithSameName($b)` looks for: another object of the same class and name. */
  function Namesake(b: Node): Want {
    Want(b.id, Some((b.kind, b.name)))
  }

  /** What `getBlockWithSameName` returns: never its argument, always a same-class, same-name block. */
  function SameName(m: Props, b: Node): (r: Option<Node>)
    ensures r.Some? ==> r.value.id != b.id && r.value.kind == b.kind && r.value.name == b.name
    ensures r.Some? ==> exists k :: Has(m, k) && Get(m, k) == Child(r.value)
  {
    match ChainSearch(m, "!" + b.name, 0, Namesake(b))
    case None => None
    case Some(j) => Some(Get(m, Probe("!" + b.name, j)).node)
  }

  /** SameName read off the search. */
  lemma SameNameAt(m: Props, b: Node)
    ensures SameName(m, b) == match ChainSearch(m, "!" + b.name, 0, Namesake(b))
      case None => None
      case Some(j) => Some(Get(m, Probe("!" + b.name, j)).node)
  {
  }

  /** What `removeBlock` leaves: the map without the first entry on the chain that is the object itself. */
  function Removed(m: Props, b: Node): (r: Props)
    ensures ChainSearch(m, "!" + b.name, 0, TheObject(b)).None? ==> r == m
    ensures ChainSearch(m, "!" + b.name, 0, TheObject(b)).Some? ==> |r| == |m| - 1
  {
    match ChainSearch(m, "!" + b.name, 0, TheObject(b))
    case None => m
    case Some(j) => Remove(m, Probe("!" + b.name, j))
  }

  /** `removeBlock` drops the object itself and keeps every other key with its value. */
  lemma RemovedKeepsOthers(m: Props, b: Node, k: Key)
    requires DistinctKeys(m)
    requires ChainSearch(m, "!" + b.name, 0, TheObject(b)).Some?
    ensures var j := ChainSearch(m, "!" + b.name, 0, TheObject(b)).value;
      Get(m, Probe("!" + b.name, j)).node.id == b.id
      && !Has(Removed(m, b), Probe("!" + b.name, j))
      && (k != Probe("!" + b.name, j) ==> (Has(Removed(m, b), k) <==> Has(m, k)))
      && (k != Probe("!" + b.name, j) && Has(m, k) ==> Get(Removed(m, b), k) == Get(m, k))
  {
    var j := ChainSearch(m, "!" + b.name, 0, TheObject(b)).value;
    RemoveGone(m, Probe("!" + b.name, j));
    if k != Probe("!" + b.name, j) {
      RemoveOther(m, Probe("!" + b.name, j), k);
    }
  }

  /** `removeBlock` keeps the keys distinct. */
  lemma RemovedDistinct(m: Props, b: Node)
    requires DistinctKeys(m)
    ensures DistinctKeys(Removed(m, b))
  {
    match ChainSearch(m, "!" + b.name, 0, TheObject(b))
    case None =>
    case Some(j) => RemoveGone(m, Probe("!" + b.name, j));
  }

  /**
   * An entry that is not the object `removeBlock` looks for keeps its key
   * and value, and at most the one removed entry moves from before it.
   */
  lemma RemovedKeepsEntry(m: Props, b: Node, k: Key)
    requires DistinctKeys(m) && Has(m, k) && !(Get(m, k).Child? && Get(m, k).node.id == b.id)
    ensures var r := Removed(m, b);
      DistinctKeys(r) && Has(r, k) && Get(r, k) == Get(m, k) && |r| - IndexOf(r, k) <= |m| - IndexOf(m, k)
  {
    RemovedDistinct(m, b);
    match ChainSearch(m, "!" + b.name, 0, TheObject(b))
    case None =>
    case Some(j) =>
      var k0 := Probe("!" + b.name, j);
      assert Get(m, k0).node.id == b.id;
      RemoveShift(m, k0, k);
  }

  /** A search that hits in a map hits at the same step once entries are appended. */
  lemma {:induction false} ChainExtends(m: Props, extra: Props, base: string, j: nat, want: Want)
    requires ChainSearch(m, base, j, want).Some?
    ensures ChainSearch(m + extra, base, j, want) == ChainSearch(m, base, j, want)
    decreases MaxNameLength(m) + 1 - |base| - j
  {
    var key := Probe(base, j);
    NameLengthBound(m, base + Spaces(j));
    AppendKeeps(m, extra, key);
    if Hits(want, Get(m, key)) {
      ChainHit(m + extra, base, j, want);
    } else {
      ChainMiss(m, base, j, want);
      ChainMiss(m + extra, base, j, want);
      ChainExtends(m, extra, base, j + 1, want);
    }
  }

  /** `removeBlock` of an object found before some appended entries removes it and keeps the appended ones. */
  lemma RemovedAppend(m: Props, extra: Props, b: Node)
    requires ChainSearch(m, "!" + b.name, 0, TheObject(b)).Some?
    ensures Removed(m + extra, b) == Removed(m, b) + extra
  {
    ChainExtends(m, extra, "!" + b.name, 0, TheObject(b));
    var j := ChainSearch(m, "!" + b.name, 0, TheObject(b)).value;
    RemoveAppend(m, extra, Probe("!" + b.name, j));
  }

  // ------------------------------------------------------------ AtBlock::merge

  /** The text of a key when `addProperty` appends spaces to it. */
  function KeyText(k: Key): string {
    match k
    case Name(t) => t
    case Index(n) => if n < 0 then "-" + DecimalText(-n) else DecimalText(n)
  }

  /** `addProperty($name, $value)`: store under the name plus the fewest spaces that make the key unused. */
  function Added(m: Props, name: string, value: Item): (r: Props)
    ensures r == m + [(FreshName(m, name), value)]
  {
    PutFresh(m, name, value);
    Put(m, FreshName(m, name), value)
  }

  /** `addBlock($b)`: added under `'!' . $b->name`. */
  function AddedBlock(m: Props, b: Node): Props {
    Added(m, "!" + b.name, Child(b))
  }

  /** One iteration of `merge`: blocks go to addBlock, lines to addLineAt, the rest to addProperty. */
  function MergeEntry(m: Props, key: Key, value: Item): Props {
    match value
    case Child(b) => AddedBlock(m, b)
    case Line(l) => Push(m, Line(l))
    case Decl(_) => Added(m, KeyText(key), value)
  }

  /** `merge`: MergeEntry for each entry of the other block, in order. */
  function Merged(m: Props, ps: Props): Props
    decreases |ps|
  {
    if ps == [] then m else MergeEntry(Merged(m, ps[..|ps| - 1]), ps[|ps| - 1].0, ps[|ps| - 1].1)
  }

  /** `merge` only appends: one entry per merged entry, every earlier pair kept in place. */
  lemma {:induction false} MergedAppends(m: Props, ps: Props)
    ensures |Merged(m, ps)| == |m| + |ps|
    ensures Merged(m, ps)[..|m|] == m
    decreases |ps|
  {
    if ps != [] {
      var prev := Merged(m, ps[..|ps| - 1]);
      MergedAppends(m, ps[..|ps| - 1]);
      assert MergeEntry(prev, ps[|ps| - 1].0, ps[|ps| - 1].1)[..|prev|] == prev;
    }
  }

  /** `merge` keeps the merged entries' values, in order, after the existing ones. */
  lemma {:induction false} MergedValues(m: Props, ps: Props, i: nat)
    requires i < |ps|
    ensures |Merged(m, ps)| == |m| + |ps| && Merged(m, ps)[|m| + i].1 == ps[i].1
    decreases |ps|
  {
    MergedAppends(m, ps);
    var init := ps[..|ps| - 1];
    MergedAppends(m, init);
    if i < |ps| - 1 {
      MergedValues(m, init, i);
      var prev := Merged(m, init);
      assert MergeEntry(prev, ps[|ps| - 1].0, ps[|ps| - 1].1)[..|prev|] == prev;
      assert Merged(m, ps)[|m| + i] == prev[|m| + i];
    }
  }

  // ------------------------------------------------------------------ Block

  /**
   * `isset($block->properties[$p])` together with the value. Declarations
   * are the only entries stored under plain property names.
   */
  function Value(m: Props, p: string): Option<string> {
    if Has(m, Name(p)) && Get(m, Name(p)).Decl? then Some(Get(m, Name(p)).value) else None
  }

  /** `unset` of each name, in order. */
  function RemoveKeys(m: Props, names: seq<string>): (r: Props)
    ensures DistinctKeys(m) ==> DistinctKeys(r)
    decreases |names|
  {
    if names == [] then m
    else
      var prev := RemoveKeys(m, names[..|names| - 1]);
      assert DistinctKeys(m) ==> DistinctKeys(Remove(prev, Name(names[|names| - 1]))) by {
        if DistinctKeys(m) {
          RemoveGone(prev, Name(names[|names| - 1]));
        }
      }
      Remove(prev, Name(names[|names| - 1]))
  }

  /** Unsetting one more name of the list. */
  lemma RemoveKeysStep(m: Props, names: seq<string>, j: nat)
    requires j < |names|
    ensures RemoveKeys(m, names[..j + 1]) == Remove(RemoveKeys(m, names[..j]), Name(names[j]))
  {
    assert names[..j + 1][..j] == names[..j];
  }

  /** Unsetting other names leaves a key and its value alone. */
  lemma {:induction false} RemoveKeysOther(m: Props, names: seq<string>, k: Key)
    requires DistinctKeys(m) && forall i :: 0 <= i < |names| ==> Name(names[i]) != k
    ensures Has(RemoveKeys(m, names), k) <==> Has(m, k)
    ensures Has(m, k) ==> Get(RemoveKeys(m, names), k) == Get(m, k)
    decreases |names|
  {
    if names != [] {
      var init := names[..|names| - 1];
      RemoveKeysOther(m, init, k);
      RemoveOther(RemoveKeys(m, init), Name(names[|names| - 1]), k);
    }
  }

  /** Every unset name is gone. */
  lemma {:induction false} RemoveKeysGone(m: Props, names: seq<string>, i: nat)
    requires DistinctKeys(m) && i < |names|
    ensures !Has(RemoveKeys(m, names), Name(names[i]))
    decreases |names|
  {
    var init := names[..|names| - 1];
    var prev := RemoveKeys(m, init);
    if i == |names| - 1 {
      RemoveGone(prev, Name(names[i]));
    } else {
      RemoveKeysGone(m, init, i);
      assert init[i] == names[i];
      if Name(names[|names| - 1]) != Name(names[i]) {
        RemoveOther(prev, Name(names[|names| - 1]), Name(names[i]));
      }
      RemoveGone(prev, Name(names[|names| - 1]));
    }
  }

  class Block {
    const id: nat
    const kind: Kind
    var name: string
    var properties: Props
    var subSelectors: seq<string>

    /** PHP arrays never repeat a key. */
    ghost predicate Valid()
      reads this
    {
      DistinctKeys(properties)
    }

    function Snapshot(): Node
      reads this
    {
      Node(id, kind, name, properties, subSelectors)
    }

    /** `new Selector($name)` / `new AtBlock($name)`, with `id` the new object's identity. */
    constructor (id: nat, kind: Kind, name: string)
      ensures this.id == id && this.kind == kind && this.name == name
      ensures properties == [] && subSelectors == []
      ensures Valid()
    {
      this.id := id;
      this.kind := kind;
      this.name := name;
      properties := [];
      subSelectors := [];
    }

    /** The object a stored value stands for. */
    constructor FromNode(n: Node)
      ensures Snapshot() == n
      ensures DistinctKeys(n.properties) ==> Valid()
    {
      id := n.id;
      kind := n.kind;
      name := n.name;
      properties := n.properties;
      subSelectors := n.subSelectors;
    }

    /** `addProperty`: never overwrites; appends spaces to the name until the key is unused. */
    method AddProperty(property: string, value: Item)
      requires Valid()
      modifies this
      ensures Valid()
      ensures properties == Added(old(properties), property, value)
      ensures name == old(name) && subSelectors == old(subSelectors)
    {
      var m := properties;
      var key := property;
      ghost var n := 0;
      while Has(m, Name(key))
        modifies {}
        invariant key == property + Spaces(n)
        invariant forall j :: 0 <= j < n ==> Has(m, Probe(property, j))
        decreases MaxNameLength(m) + 1 - |key|
      {
        NameLengthBound(m, key);
        ProbeNext(property, n);
        key := key + " ";
        n := n + 1;
      }
      FreshSpacesLeast(m, property, n);
      PutFresh(m, property, value);
      properties := Put(m, Name(key), value);
    }

    /** `setProperties`: addProperty for each pair, in order. */
    method SetProperties(ps: seq<(string, Item)>)
      requires Valid()
      modifies this
      ensures Valid()
      ensures properties == AddedAll(old(properties), ps)
      ensures name == old(name) && subSelectors == old(subSelectors)
    {
      for i := 0 to |ps|
        invariant Valid()
        invariant properties == AddedAll(old(properties), ps[..i])
        invariant name == old(name) && subSelectors == old(subSelectors)
      {
        assert ps[..i + 1][..i] == ps[..i];
        AddProperty(ps[i].0, ps[i].1);
      }
      assert ps[..|ps|] == ps;
    }

    /** `mergeProperties`: MergeOne for each entry, in order. */
    method MergeProperties(ps: Props)
      requires Valid()
      modifies this
      ensures Valid()
      ensures properties == MergeAll(old(properties), ps)
      ensures name == old(name) && subSelectors == old(subSelectors)
    {
      for i := 0 to |ps|
        invariant Valid()
        invariant properties == MergeAll(old(properties), ps[..i])
        invariant name == old(name) && subSelectors == old(subSelectors)
      {
        assert ps[..i + 1][..i] == ps[..i];
        var (key, value) := ps[i];
        if value != Decl("") && (!Has(properties, key) || !ItemImportant(Get(properties, key)) || ItemImportant(value)) {
          PutKeepsDistinct(properties, key, value);
          properties := Put(properties, key, value);
        }
      }
      assert ps[..|ps|] == ps;
    }

    /** `AtBlock::addBlock`: stored under `'!' . name` plus spaces; the block is returned. */
    method AddBlock(b: Node) returns (r: Node)
      requires kind == AtRuleBlock && Valid()
      modifies this
      ensures Valid()
      ensures properties == AddedBlock(old(properties), b) && r == b
      ensures name == old(name) && subSelectors == old(subSelectors)
    {
      AddProperty("!" + b.name, Child(b));
      r := b;
    }

    /** `AtBlock::removeBlock`: walks the key chain of the name and unsets the object itself, if found. */
    method RemoveBlock(b: Node) returns (removed: bool)
      requires kind == AtRuleBlock && Valid()
      modifies this
      ensures Valid()
      ensures removed <==> ChainSearch(old(properties), "!" + b.name, 0, TheObject(b)).Some?
      ensures properties == Removed(old(properties), b)
      ensures name == old(name) && subSelectors == old(subSelectors)
    {
      var m := properties;
      var key;
      key, removed := FindObject(m, b);
      if removed {
        RemoveGone(m, Name(key));
        properties := Remove(m, Name(key));
      }
    }

    /** The key-chain walk of `removeBlock`: the key holding the object itself, if any. */
    static method FindObject(m: Props, b: Node) returns (key: string, found: bool)
      ensures found <==> ChainSearch(m, "!" + b.name, 0, TheObject(b)).Some?
      ensures found ==> Name(key) == Probe("!" + b.name, ChainSearch(m, "!" + b.name, 0, TheObject(b)).value)
    {
      key := "!" + b.name;
      ghost var n := 0;
      while Has(m, Name(key))
        invariant key == "!" + b.name + Spaces(n)
        invariant ChainSearch(m, "!" + b.name, 0, TheObject(b)) == ChainSearch(m, "!" + b.name, n, TheObject(b))
        decreases MaxNameLength(m) + 1 - |key|
      {
        NameLengthBound(m, key);
        assert Name(key) == Probe("!" + b.name, n);
        var it := Get(m, Name(key));
        if it.Child? && it.node.id == b.id {
          ChainHit(m, "!" + b.name, n, TheObject(b));
          return key, true;
        }
        ChainMiss(m, "!" + b.name, n, TheObject(b));
        ProbeNext("!" + b.name, n);
        key := key + " ";
        n := n + 1;
      }
      ChainEnd(m, "!" + b.name, n, TheObject(b));
      return key, false;
    }

    /** `AtBlock::getBlockWithSameName`: another block of the same class and name, or nothing (PHP's false). */
    method GetBlockWithSameName(b: Node) returns (r: Option<Node>)
      requires kind == AtRuleBlock
      ensures r == SameName(properties, b)
    {
      var m := properties;
      var key := "!" + b.name;
      ghost var n := 0;
      while Has(m, Name(key))
        modifies {}
        invariant key == "!" + b.name + Spaces(n)
        invariant ChainSearch(m, "!" + b.name, 0, Namesake(b)) == ChainSearch(m, "!" + b.name, n, Namesake(b))
        decreases MaxNameLength(m) + 1 - |key|
      {
        NameLengthBound(m, key);
        assert Name(key) == Probe("!" + b.name, n);
        var same := Get(m, Name(key));
        if same.Child? && same.node.id != b.id && same.node.kind == b.kind && same.node.name == b.name {
          ChainHit(m, "!" + b.name, n, Namesake(b));
          SameNameAt(m, b);
          return Some(same.node);
        }
        ChainMiss(m, "!" + b.name, n, Namesake(b));
        ProbeNext("!" + b.name, n);
        key := key + " ";
        n := n + 1;
      }
      ChainEnd(m, "!" + b.name, n, Namesake(b));
      SameNameAt(m, b);
      return None;
    }

    /** `AtBlock::merge`: every entry of the other block is added, never overwriting. */
    method Merge(other: Node)
      requires kind == AtRuleBlock && Valid()
      modifies this
      ensures Valid()
      ensures properties == Merged(old(properties), other.properties)
      ensures name == old(name) && subSelectors == old(subSelectors)
    {
      var ps := other.properties;
      for i := 0 to |ps|
        invariant Valid()
        invariant properties == Merged(old(properties), ps[..i])
        invariant name == old(name) && subSelectors == old(subSelectors)
      {
        assert ps[..i + 1][..i] == ps[..i];
        var (key, value) := ps[i];
        match value
        case Child(c) =>
          var _ := AddBlock(c);
        case Line(l) =>
          AddLineAt(l);
        case Decl(_) =>
          AddProperty(KeyText(key), value);
      }
      assert ps[..|ps|] == ps;
    }

    /** `AtBlock::addLineAt`: `$this->properties[] = $lineAt`. */
    method AddLineAt(l: LineAt)
      requires kind == AtRuleBlock && Valid()
      modifies this
      ensures Valid()
      ensures properties == Push(old(properties), Line(l))
      ensures name == old(name) && subSelectors == old(subSelectors)
    {
      PushFresh(properties, Line(l));
      properties := Push(properties, Line(l));
    }

    /** `Selector::appendSelectorName`. */
    method AppendSelectorName(selector: string)
      requires kind == SelectorBlock
      modifies this
      ensures subSelectors == old(subSelectors) + [selector]
      ensures name == old(name) + "," + selector
      ensures properties == old(properties)
      ensures Snapshot() == AppendName(old(Snapshot()), selector)
    {
      subSelectors := subSelectors + [selector];
      name := name + "," + selector;
    }
  }

  /** `Selector::appendSelectorName` on a value: the name gains "," and the selector, which also ends `subSelectors`. */
  function AppendName(n: Node, selector: string): Node {
    n.(name := n.name + "," + selector, subSelectors := n.subSelectors + [selector])
  }

  /** `setProperties`: Added for each pair, in order. */
  function AddedAll(m: Props, ps: seq<(string, Item)>): Props
    decreases |ps|
  {
    if ps == [] then m else Added(AddedAll(m, ps[..|ps| - 1]), ps[|ps| - 1].0, ps[|ps| - 1].1)
  }

  lemma AddedAllStep(m: Props, ps: seq<(string, Item)>, j: nat)
    requires j < |ps|
    ensures AddedAll(m, ps[..j + 1]) == Added(AddedAll(m, ps[..j]), ps[j].0, ps[j].1)
  {
    assert ps[..j + 1][..j] == ps[..j];
  }

  /** `setProperties` keeps the keys distinct. */
  lemma {:induction false} AddedAllDistinct(m: Props, ps: seq<(string, Item)>)
    requires DistinctKeys(m)
    ensures DistinctKeys(AddedAll(m, ps))
    decreases |ps|
  {
    if ps != [] {
      var prev := AddedAll(m, ps[..|ps| - 1]);
      AddedAllDistinct(m, ps[..|ps| - 1]);
      PutKeepsDistinct(prev, FreshName(prev, ps[|ps| - 1].0), ps[|ps| - 1].1);
    }
  }

  /** `setProperties` keeps every pair it was given, in order, after the existing ones. */
  lemma {:induction false} AddedAllAppends(m: Props, ps: seq<(string, Item)>)
    ensures |AddedAll(m, ps)| == |m| + |ps|
    ensures AddedAll(m, ps)[..|m|] == m
    ensures forall i :: 0 <= i < |ps| ==> AddedAll(m, ps)[|m| + i].1 == ps[i].1
    decreases |ps|
  {
    if ps != [] {
      var init := ps[..|ps| - 1];
      AddedAllAppends(m, init);
      var prev := AddedAll(m, init);
      var r := AddedAll(m, ps);
      assert r == prev + [(FreshName(prev, ps[|ps| - 1].0), ps[|ps| - 1].1)];
      forall i | 0 <= i < |ps| ensures r[|m| + i].1 == ps[i].1 {
        if i < |ps| - 1 {
          assert r[|m| + i] == prev[|m| + i];
          assert init[i] == ps[i];
        }
      }
    }
  }
}
