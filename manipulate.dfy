/**
 * lib/SelectorManipulate.php: the whole-tree rewrite passes over an
 * at-rule block. Each pass walks the block's entries and enters every
 * nested at-rule block; `h` bounds the depth of that recursion, and the
 * passes are meant to be started with the height of the tree.
 */
module Manipulate {
  import opened Text
  import opened OrderedMaps
  import opened Elements
  import opened Wrappers

  // ------------------------------------ preg_split('/\s*[+>~\s]\s*/', $s)

  /** The combinators between simple selectors. */
  predicate IsCombinator(c: char) {
    c == '+' || c == '>' || c == '~'
  }

  /** The bracketed class `[+>~\s]` of the separator pattern. */
  predicate InRun(c: char) {
    IsSpace(c) || IsCombinator(c)
  }

  /** The end of the whitespace that starts at `i` (greedy `\s*`). */
  function SpaceEnd(s: string, i: nat): (r: nat)
    requires i <= |s|
    ensures i <= r <= |s| && (r < |s| ==> !IsSpace(s[r]))
    ensures forall k :: i <= k < r ==> IsSpace(s[k])
    decreases |s| - i
  {
    if i < |s| && IsSpace(s[i]) then SpaceEnd(s, i + 1) else i
  }

  /** The first position from `p` on where the separator pattern can match. */
  function RunStart(s: string, p: nat): (r: nat)
    requires p <= |s|
    ensures p <= r <= |s| && (r < |s| ==> InRun(s[r]))
    ensures forall k :: p <= k < r ==> !InRun(s[k])
    decreases |s| - p
  {
    if p < |s| && !InRun(s[p]) then RunStart(s, p + 1) else p
  }

  /**
   * Where the match of `\s*[+>~\s]\s*` that starts at `i` ends: the leading
   * whitespace, a combinator and the whitespace after it; with no
   * combinator after the leading whitespace, the pattern backtracks so that
   * its last space is the bracketed character and nothing trails.
   */
  function MatchEnd(s: string, i: nat): (r: nat)
    requires i < |s| && InRun(s[i])
    ensures i < r <= |s|
  {
    var j := SpaceEnd(s, i);
    if j < |s| && IsCombinator(s[j]) then SpaceEnd(s, j + 1) else j
  }

  /** The pieces preg_split returns for `s[p..]`, empty ones included. */
  function SplitFrom(s: string, p: nat): (r: seq<string>)
    requires p <= |s|
    ensures |r| > 0
    decreases |s| - p
  {
    var i := RunStart(s, p);
    if i == |s| then [s[p..]] else [s[p..i]] + SplitFrom(s, MatchEnd(s, i))
  }

  /** preg_split with the pattern `\s*[+>~\s]\s*`: the simple selectors of one comma part. */
  function SimpleSelectors(s: string): seq<string> {
    SplitFrom(s, 0)
  }

  /** Two combinators with nothing but whitespace between them, at `a` and `b`. */
  predicate CombinatorPair(s: string, a: nat, b: nat) {
    a < b < |s| && IsCombinator(s[a]) && IsCombinator(s[b]) && forall k :: a < k < b ==> IsSpace(s[k])
  }

  /** Two such combinators, the first at `p` or later. */
  predicate PairFrom(s: string, p: nat) {
    exists a, b :: p <= a < b < |s| && CombinatorPair(s, a, b)
  }

  /**
   * When `s[p..]` splits with an empty piece: it is empty, or it starts or
   * ends with a combinator or a space, or two of its combinators have only
   * whitespace between them.
   */
  predicate GapFrom(s: string, p: nat)
    requires p <= |s|
  {
    p == |s| || InRun(s[p]) || InRun(s[|s| - 1]) || PairFrom(s, p)
  }

  /** The last character of a match is a space or its combinator. */
  lemma MatchEndsInRun(s: string, i: nat)
    requires i < |s| && InRun(s[i])
    ensures InRun(s[MatchEnd(s, i) - 1])
  {
    var j := SpaceEnd(s, i);
    var e := MatchEnd(s, i);
    if j < |s| && IsCombinator(s[j]) {
      if e > j + 1 {
        assert IsSpace(s[e - 1]);
      }
    } else {
      assert IsSpace(s[e - 1]);
    }
  }

  /** A combinator pair that starts inside a match ends right where the match ends. */
  lemma PairInMatch(s: string, i: nat, a: nat, b: nat)
    requires i < |s| && InRun(s[i]) && i <= a < MatchEnd(s, i) && CombinatorPair(s, a, b)
    ensures b == MatchEnd(s, i)
  {
    var j := SpaceEnd(s, i);
    var e := MatchEnd(s, i);
    assert !IsSpace(s[a]) && !IsSpace(s[b]);
    assert j <= a;
    assert j < |s| && IsCombinator(s[j]);
    assert a == j;
    assert e <= b;
    if e < |s| {
      assert !IsSpace(s[e]);
    }
    assert b <= e;
  }

  /** preg_split leaves an empty piece of `s[p..]` exactly when GapFrom holds. */
  lemma {:induction false} SplitFromGap(s: string, p: nat)
    requires p <= |s|
    ensures "" in SplitFrom(s, p) <==> GapFrom(s, p)
    decreases |s| - p
  {
    var i := RunStart(s, p);
    if i == |s| {
      assert SplitFrom(s, p) == [s[p..]];
      forall a, b | p <= a < b < |s|
        ensures !CombinatorPair(s, a, b)
      {
        assert !InRun(s[a]);
      }
      assert |s[p..]| == |s| - p;
      if p < |s| {
        assert !InRun(s[p]) && !InRun(s[|s| - 1]);
      }
    } else if i == p {
      assert SplitFrom(s, p)[0] == "";
    } else {
      var e := MatchEnd(s, i);
      SplitFromGap(s, e);
      assert SplitFrom(s, p) == [s[p..i]] + SplitFrom(s, e);
      assert |s[p..i]| > 0;
      var j := SpaceEnd(s, i);
      if e == |s| {
        MatchEndsInRun(s, i);
      }
      if e < |s| && InRun(s[e]) {
        assert j < |s| && IsCombinator(s[j]);
        assert CombinatorPair(s, j, e);
      }
      if PairFrom(s, e) {
        var a, b :| e <= a < b < |s| && CombinatorPair(s, a, b);
        assert p <= a;
      }
      if PairFrom(s, p) && !PairFrom(s, e) {
        var a, b :| p <= a < b < |s| && CombinatorPair(s, a, b);
        assert IsCombinator(s[a]);
        assert i <= a;
        if a < e {
          PairInMatch(s, i, a, b);
        }
        assert !(e <= a);
      }
    }
  }

  /**
   * A comma part of a selector splits with an empty simple selector exactly
   * when it is empty, starts or ends with a combinator or a space, or has
   * two combinators with only whitespace between them.
   */
  lemma SimpleSelectorsGap(s: string)
    ensures "" in SimpleSelectors(s) <==> s == "" || InRun(s[0]) || InRun(s[|s| - 1]) || PairFrom(s, 0)
  {
    SplitFromGap(s, 0);
  }

  // ---------------------------------------------------------- discardInvalid

  /** preg_split leaves an empty simple selector in a comma part. */
  predicate Gap(t: string) {
    "" in SimpleSelectors(t)
  }

  /**
   * The check of `discardInvalid` (section 4.1.7 of CSS 2.1): no comma
   * part, trimmed, splits into an empty simple selector.
   */
  predicate ValidSelector(name: string) {
    var selectors := TrimAll(Split(name, ','));
    forall k :: 0 <= k < |selectors| ==> !Gap(selectors[k])
  }

  /** A comma part CSS 2.1 accepts as a selector: simple selectors joined by single combinators. */
  predicate WellJoined(t: string) {
    t != "" && !InRun(t[0]) && !InRun(t[|t| - 1]) && !PairFrom(t, 0)
  }

  /** Every part is well joined. */
  predicate AllWellJoined(selectors: seq<string>) {
    forall k :: 0 <= k < |selectors| ==> WellJoined(selectors[k])
  }

  /** The check accepts a name exactly when every trimmed comma part is well joined. */
  lemma ValidSelectorMeans(name: string)
    ensures ValidSelector(name) <==> AllWellJoined(TrimAll(Split(name, ',')))
  {
    PartsMeans(TrimAll(Split(name, ',')));
  }

  /** Trimmed comma parts pass the check exactly when each is well joined. */
  lemma PartsMeans(selectors: seq<string>)
    ensures (forall k :: 0 <= k < |selectors| ==> !Gap(selectors[k])) <==> AllWellJoined(selectors)
  {
    forall k | 0 <= k < |selectors|
      ensures !Gap(selectors[k]) <==> WellJoined(selectors[k])
    {
      SimpleSelectorsGap(selectors[k]);
    }
  }

  /** `array_map('trim', $parts)` */
  function TrimAll(parts: seq<string>): (r: seq<string>)
    ensures |r| == |parts| && forall k :: 0 <= k < |parts| ==> r[k] == Trim(parts[k])
  {
    seq(|parts|, k requires 0 <= k < |parts| => Trim(parts[k]))
  }

  /** The comma parts of a selector name, trimmed, and their check. */
  method CheckSelector(name: string) returns (ok: bool)
    ensures ok <==> ValidSelector(name)
  {
    var selectors := TrimAll(Split(name, ','));
    ok := CheckParts(selectors);
  }

  /**
   * The loops over the trimmed comma parts and their simple selectors;
   * an empty simple selector ends both (`break 2`).
   */
  method CheckParts(selectors: seq<string>) returns (ok: bool)
    ensures ok <==> forall k :: 0 <= k < |selectors| ==> !Gap(selectors[k])
  {
    ok := true;
    ghost var bad := 0;
    var i := 0;
    while i < |selectors| && ok
      invariant 0 <= i <= |selectors|
      invariant ok ==> forall k :: 0 <= k < i ==> !Gap(selectors[k])
      invariant !ok ==> bad < i && Gap(selectors[bad])
    {
      var empty := HasEmpty(SimpleSelectors(selectors[i]));
      if empty {
        ok := false;
        bad := i;
      }
      i := i + 1;
    }
  }

  /** The inner loop: whether some simple selector is the empty string. */
  method HasEmpty(simpleSelectors: seq<string>) returns (found: bool)
    ensures found <==> "" in simpleSelectors
  {
    found := false;
    var j := 0;
    while j < |simpleSelectors|
      invariant 0 <= j <= |simpleSelectors|
      invariant forall k :: 0 <= k < j ==> simpleSelectors[k] != ""
    {
      if simpleSelectors[j] == "" {
        return true;
      }
      j := j + 1;
    }
  }

  /**
   * What `discardInvalid` makes of one entry: a nested at-rule block is
   * cleaned in turn, a selector with an invalid name is dropped, anything
   * else stays.
   */
  function Kept(e: (Key, Item), h: nat): (r: Props)
    ensures |r| <= 1 && forall t :: 0 <= t < |r| ==> r[t].0 == e.0
    decreases h, 0
  {
    match e.1
    case Child(n) =>
      if n.kind == AtRuleBlock then
        if h > 0 && DistinctKeys(n.properties) then [(e.0, Child(Discard(h - 1)(n)))] else [e]
      else if ValidSelector(n.name) then [e] else []
    case _ => [e]
  }

  /** Kept as a function value. */
  function KeepRule(h: nat): ((Key, Item)) -> Props
    decreases h, 1
  {
    e => Kept(e, h)
  }

  /** The entries of an at-rule block after `discardInvalid`, in their order. */
  function Filtered(m: Props, h: nat): Props
    decreases h, 2
  {
    EachKept(m, KeepRule(h))
  }

  /** `discardInvalid` on an at-rule block, as a function on blocks. */
  function Discard(h: nat): Node -> Node
    decreases h, 3
  {
    (n: Node) => n.(properties := Filtered(n.properties, h))
  }

  lemma DiscardUnfold(n: Node, h: nat)
    ensures Discard(h)(n) == n.(properties := Filtered(n.properties, h))
  {
  }

  /** Two rules that agree on every entry make the same array. */
  lemma {:induction false} EachKeptAlike(m: Props, f: ((Key, Item)) -> Props, g: ((Key, Item)) -> Props)
    requires forall i :: 0 <= i < |m| ==> f(m[i]) == g(m[i])
    ensures EachKept(m, f) == EachKept(m, g)
    decreases |m|
  {
    if m != [] {
      EachKeptAlike(m[..|m| - 1], f, g);
    }
  }

  /** Once the bound reaches the height of the nested blocks, raising it changes nothing. */
  lemma {:induction false} DiscardFuel(n: Node, h1: nat, h2: nat)
    requires Below(n.properties, h1) && Below(n.properties, h2)
    ensures Discard(h1)(n) == Discard(h2)(n)
    decreases h1
  {
    forall i | 0 <= i < |n.properties|
      ensures KeepRule(h1)(n.properties[i]) == KeepRule(h2)(n.properties[i])
    {
      var e := n.properties[i];
      if e.1.Child? && e.1.node.kind == AtRuleBlock && DistinctKeys(e.1.node.properties) {
        HeightBelow(e.1.node, 0);
        DiscardFuel(e.1.node, h1 - 1, h2 - 1);
      }
    }
    EachKeptAlike(n.properties, KeepRule(h1), KeepRule(h2));
  }

  /**
   * `discardInvalid` started with a bound of at least the height of the
   * tree below the block reaches every nested block: it gives what the
   * bound `Height(n)` gives.
   */
  lemma DiscardSettles(n: Node, h: nat)
    requires h + 1 >= Height(n)
    ensures Discard(h)(n) == Discard(Height(n))(n)
  {
    HeightBelow(n, 0);
    DiscardFuel(n, h, Height(n));
  }

  /** A rule that maps an entry to itself, rewritten, or to nothing, keeping its key. */
  ghost predicate KeepsKey(f: ((Key, Item)) -> Props) {
    forall e :: |f(e)| <= 1 && forall t :: 0 <= t < |f(e)| ==> f(e)[t].0 == e.0
  }

  /** Each entry in order, replaced by what the rule makes of it. */
  function EachKept(m: Props, f: ((Key, Item)) -> Props): Props
    decreases |m|
  {
    if m == [] then [] else EachKept(m[..|m| - 1], f) + f(m[|m| - 1])
  }

  lemma EachKeptStep(m: Props, f: ((Key, Item)) -> Props, i: nat)
    requires i < |m|
    ensures EachKept(m[..i + 1], f) == EachKept(m[..i], f) + f(m[i])
  {
    assert m[..i + 1][..i] == m[..i];
  }

  /** Every key left was a key of the block. */
  lemma {:induction false} EachKeptKeys(m: Props, f: ((Key, Item)) -> Props, j: nat)
    requires KeepsKey(f) && j < |EachKept(m, f)|
    ensures exists i :: 0 <= i < |m| && m[i].0 == EachKept(m, f)[j].0
    decreases |m|
  {
    var init := m[..|m| - 1];
    var prev := EachKept(init, f);
    if j < |prev| {
      EachKeptKeys(init, f, j);
      var i :| 0 <= i < |init| && init[i].0 == prev[j].0;
      assert m[i] == init[i];
    } else {
      assert EachKept(m, f)[j] == f(m[|m| - 1])[j - |prev|];
    }
  }

  /** A key not in the block is not in the result. */
  lemma EachKeptAvoids(m: Props, f: ((Key, Item)) -> Props, k: Key)
    requires KeepsKey(f) && forall i :: 0 <= i < |m| ==> m[i].0 != k
    ensures forall j :: 0 <= j < |EachKept(m, f)| ==> EachKept(m, f)[j].0 != k
  {
    forall j | 0 <= j < |EachKept(m, f)|
      ensures EachKept(m, f)[j].0 != k
    {
      EachKeptKeys(m, f, j);
    }
  }

  /** The keys stay distinct. */
  lemma {:induction false} EachKeptDistinct(m: Props, f: ((Key, Item)) -> Props)
    requires KeepsKey(f) && DistinctKeys(m)
    ensures DistinctKeys(EachKept(m, f))
    decreases |m|
  {
    if m != [] {
      var init := m[..|m| - 1];
      EachKeptDistinct(init, f);
      EachKeptAvoids(init, f, m[|m| - 1].0);
      assert EachKept(m, f) == EachKept(init, f) + f(m[|m| - 1]);
    }
  }

  /** An entry's key is in the result exactly when the rule keeps the entry, and then holds what the rule made. */
  lemma {:induction false} EachKeptAt(m: Props, f: ((Key, Item)) -> Props, i: nat)
    requires KeepsKey(f) && DistinctKeys(m) && i < |m|
    ensures Has(EachKept(m, f), m[i].0) <==> |f(m[i])| == 1
    ensures |f(m[i])| == 1 ==> Get(EachKept(m, f), m[i].0) == f(m[i])[0].1
    decreases |m|
  {
    var init := m[..|m| - 1];
    var prev := EachKept(init, f);
    var k := m[i].0;
    assert EachKept(m, f) == prev + f(m[|m| - 1]);
    if i == |m| - 1 {
      EachKeptAvoids(init, f, k);
      NotHas(prev, k);
      if |f(m[i])| == 1 {
        assert f(m[i]) == [(k, f(m[i])[0].1)];
        AppendNew(prev, k, f(m[i])[0].1);
      } else {
        assert f(m[i]) == [];
        assert prev + f(m[i]) == prev;
      }
    } else {
      assert init[i] == m[i];
      EachKeptAt(init, f, i);
      AppendOther(prev, f(m[|m| - 1]), k);
    }
  }

  /** The rule of `discardInvalid` keeps keys. */
  lemma KeptKeepsKey(h: nat)
    ensures KeepsKey(KeepRule(h))
  {
  }

  /**
   * A selector entry survives `discardInvalid` exactly when its name is
   * valid, and keeps its value.
   */
  lemma FilteredSelector(m: Props, h: nat, i: nat)
    requires DistinctKeys(m) && i < |m| && m[i].1.Child? && m[i].1.node.kind == SelectorBlock
    ensures Has(Filtered(m, h), m[i].0) <==> ValidSelector(m[i].1.node.name)
    ensures Has(Filtered(m, h), m[i].0) ==> Get(Filtered(m, h), m[i].0) == m[i].1
  {
    KeptKeepsKey(h);
    EachKeptAt(m, KeepRule(h), i);
    assert KeepRule(h)(m[i]) == Kept(m[i], h);
  }

  /** A nested at-rule block is cleaned in place; declarations and at-rule lines stay as they are. */
  lemma FilteredOther(m: Props, h: nat, i: nat)
    requires DistinctKeys(m) && i < |m| && !(m[i].1.Child? && m[i].1.node.kind == SelectorBlock)
    ensures Has(Filtered(m, h), m[i].0)
    ensures Get(Filtered(m, h), m[i].0) ==
      if m[i].1.Child? && h > 0 && DistinctKeys(m[i].1.node.properties) then Child(Discard(h - 1)(m[i].1.node)) else m[i].1
  {
    KeptKeepsKey(h);
    EachKeptAt(m, KeepRule(h), i);
    assert KeepRule(h)(m[i]) == Kept(m[i], h);
  }

  /** `discardInvalid`, with `h` bounding the depth of the recursion. */
  method DiscardInvalid(block: Block, h: nat)
    requires block.Valid() && block.kind == AtRuleBlock
    modifies block
    ensures block.Valid()
    ensures block.Snapshot() == Discard(h)(old(block.Snapshot()))
    decreases h, 2
  {
    var props := DiscardEntries(block.properties, h);
    FilteredWhole(block.properties, h);
    block.properties := props;
    DiscardUnfold(old(block.Snapshot()), h);
  }

  /** The loop of `discardInvalid` over the entries of one block, in their order. */
  method DiscardEntries(entries: Props, h: nat) returns (props: Props)
    requires DistinctKeys(entries)
    ensures props == Filtered(entries, h)
    decreases h, 1
  {
    props := entries;
    for i := 0 to |entries|
      invariant props == Filtered(entries[..i], h) + entries[i..]
    {
      FilteredStep(entries, h, i);
      props := DiscardEntry(Filtered(entries[..i], h), entries[i], entries[i + 1..], h);
    }
    FilteredWhole(entries, h);
  }

  /** The facts one turn of the loop of `discardInvalid` needs about the entries visited so far. */
  lemma FilteredStep(entries: Props, h: nat, i: nat)
    requires DistinctKeys(entries) && i < |entries|
    ensures forall j :: 0 <= j < |Filtered(entries[..i], h)| ==> Filtered(entries[..i], h)[j].0 != entries[i].0
    ensures Filtered(entries[..i + 1], h) == Filtered(entries[..i], h) + Kept(entries[i], h)
  {
    KeptKeepsKey(h);
    EachKeptAvoids(entries[..i], KeepRule(h), entries[i].0);
    EachKeptStep(entries, KeepRule(h), i);
    assert KeepRule(h)(entries[i]) == Kept(entries[i], h);
  }

  /** After the last turn every entry has been visited, and the keys stay distinct. */
  lemma FilteredWhole(entries: Props, h: nat)
    requires DistinctKeys(entries)
    ensures Filtered(entries[..|entries|], h) + entries[|entries|..] == Filtered(entries, h)
    ensures DistinctKeys(Filtered(entries, h))
  {
    assert entries[..|entries|] == entries;
    KeptKeepsKey(h);
    EachKeptDistinct(entries, KeepRule(h));
  }

  /**
   * One turn of the loop of `discardInvalid`, on the entry `e` that follows
   * the entries already visited: its key is not among theirs.
   */
  method DiscardEntry(prev: Props, e: (Key, Item), rest: Props, h: nat) returns (r: Props)
    requires forall j :: 0 <= j < |prev| ==> prev[j].0 != e.0
    ensures r == prev + Kept(e, h) + rest
    decreases h, 0
  {
    var (key, item) := e;
    r := prev + [e] + rest;
    if item.Child? && item.node.kind == AtRuleBlock {
      if h > 0 && DistinctKeys(item.node.properties) {
        var cleaned := DiscardChild(item.node, h - 1);
        KeptCleaned(e, h);
        r := r[|prev| := (key, Child(cleaned))];
        assert r == prev + [(key, Child(cleaned))] + rest;
      } else {
        KeptStays(e, h);
      }
    } else if item.Child? {
      var ok := CheckSelector(item.node.name);
      SelectorEntry(prev, e, rest, h, ok);
      if !ok {
        r := Remove(r, key);
      }
    } else {
      KeptStays(e, h);
    }
  }

  lemma KeptCleaned(e: (Key, Item), h: nat)
    requires e.1.Child? && e.1.node.kind == AtRuleBlock && h > 0 && DistinctKeys(e.1.node.properties)
    ensures Kept(e, h) == [(e.0, Child(Discard(h - 1)(e.1.node)))]
  {
  }

  lemma KeptDropped(e: (Key, Item), h: nat)
    requires e.1.Child? && e.1.node.kind == SelectorBlock && !ValidSelector(e.1.node.name)
    ensures Kept(e, h) == []
  {
    var n := e.1.node;
    assert e.1 == Child(n) && n.kind != AtRuleBlock && !ValidSelector(n.name);
  }

  /** A selector entry stays or is removed as the check decides. */
  lemma SelectorEntry(prev: Props, e: (Key, Item), rest: Props, h: nat, ok: bool)
    requires e.1.Child? && e.1.node.kind == SelectorBlock && (ok <==> ValidSelector(e.1.node.name))
    requires forall j :: 0 <= j < |prev| ==> prev[j].0 != e.0
    ensures (if ok then prev + [e] + rest else Remove(prev + [e] + rest, e.0)) == prev + Kept(e, h) + rest
  {
    if ok {
      KeptStays(e, h);
    } else {
      KeptDropped(e, h);
      RemoveAt(prev, e.0, e.1, rest);
    }
  }

  lemma KeptStays(e: (Key, Item), h: nat)
    requires e.1.Child? && e.1.node.kind == AtRuleBlock ==> h == 0 || !DistinctKeys(e.1.node.properties)
    requires e.1.Child? && e.1.node.kind == SelectorBlock ==> ValidSelector(e.1.node.name)
    ensures Kept(e, h) == [e]
  {
  }

  /** One nested at-rule block: `$this->discardInvalid($selector)` on the object the entry holds. */
  method DiscardChild(n: Node, h: nat) returns (r: Node)
    requires DistinctKeys(n.properties) && n.kind == AtRuleBlock
    ensures r == Discard(h)(n)
    decreases h, 3
  {
    var child := new Block.FromNode(n);
    DiscardInvalid(child, h);
    r := child.Snapshot();
  }

  // ------------------------------------------------------------ separate

  /** Whether the entry under `k` is the object with identity `id`. */
  predicate Holds(m: Props, k: Key, id: nat) {
    Has(m, k) && Get(m, k).Child? && Get(m, k).node.id == id
  }

  /** `new Selector($subSelector)` for the `k`-th sub-selector of `n`, given `n`'s properties; `id` is the new object. */
  function SplitBlock(n: Node, k: nat, id: nat): Node
    requires k < |n.subSelectors|
  {
    Node(id, SelectorBlock, n.subSelectors[k], n.properties, [])
  }

  /** What the inner loop of `separate` hands to `addBlock`, in order, identities counted from `next`. */
  function SplitPairs(n: Node, next: nat): (r: seq<(string, Item)>)
    ensures |r| == |n.subSelectors|
    ensures forall k :: 0 <= k < |r| ==> r[k] == ("!" + n.subSelectors[k], Child(SplitBlock(n, k, next + k)))
  {
    seq(|n.subSelectors|, k requires 0 <= k < |n.subSelectors| => ("!" + n.subSelectors[k], Child(SplitBlock(n, k, next + k))))
  }

  /**
   * One turn of the loop of `separate` on the map as it stands: a nested
   * at-rule block is separated in turn and, the object being shared, seen
   * under its key if it is still there; a selector with several
   * sub-selectors gives one new selector each and is removed. The counter
   * `next` supplies the identities of the new objects.
   */
  function SeparateTurn(live: Props, e: (Key, Item), h: nat, next: nat): (Props, nat)
    decreases h, 0
  {
    match e.1
    case Child(n) =>
      if n.kind == AtRuleBlock then
        if h > 0 && DistinctKeys(n.properties) then
          var (inner, after) := SeparatedNode(n, h - 1, next);
          (if Holds(live, e.0, n.id) then Put(live, e.0, Child(inner)) else live, after)
        else (live, next)
      else if |n.subSelectors| <= 1 then (live, next)
      else (Removed(AddedAll(live, SplitPairs(n, next)), n), next + |n.subSelectors|)
    case _ => (live, next)
  }

  /** The loop of `separate` over the entries the block had when it started (`foreach` walks a copy). */
  function SeparatedFold(live: Props, snap: Props, h: nat, next: nat): (Props, nat)
    decreases h, 1, |snap|
  {
    if snap == [] then (live, next)
    else
      var (m, after) := SeparatedFold(live, snap[..|snap| - 1], h, next);
      SeparateTurn(m, snap[|snap| - 1], h, after)
  }

  /** `separate` on an at-rule block, and the counter after it. */
  function SeparatedNode(n: Node, h: nat, next: nat): (Node, nat)
    decreases h, 2
  {
    var (m, after) := SeparatedFold(n.properties, n.properties, h, next);
    (n.(properties := m), after)
  }

  /** Once the bound reaches the height of the nested blocks, raising it changes nothing. */
  lemma {:induction false} SeparatedFuel(n: Node, h1: nat, h2: nat, next: nat)
    requires Below(n.properties, h1) && Below(n.properties, h2)
    ensures SeparatedNode(n, h1, next) == SeparatedNode(n, h2, next)
    decreases h1, 2
  {
    SeparatedFoldFuel(n.properties, n.properties, h1, h2, next);
  }

  /** The fold enters the blocks of the entries it started with only, so their height is the bound it needs. */
  lemma {:induction false} SeparatedFoldFuel(live: Props, snap: Props, h1: nat, h2: nat, next: nat)
    requires Below(snap, h1) && Below(snap, h2)
    ensures SeparatedFold(live, snap, h1, next) == SeparatedFold(live, snap, h2, next)
    decreases h1, 1, |snap|
  {
    if snap != [] {
      var init := snap[..|snap| - 1];
      SeparatedFoldFuel(live, init, h1, h2, next);
      var (m, after) := SeparatedFold(live, init, h1, next);
      var e := snap[|snap| - 1];
      if e.1.Child? && e.1.node.kind == AtRuleBlock && DistinctKeys(e.1.node.properties) {
        HeightBelow(e.1.node, 0);
        SeparatedFuel(e.1.node, h1 - 1, h2 - 1, after);
      }
    }
  }

  /** `separate` started with a bound of at least the height of the tree gives what the bound `Height(n)` gives. */
  lemma SeparateSettles(n: Node, h: nat, next: nat)
    requires h + 1 >= Height(n)
    ensures SeparatedNode(n, h, next) == SeparatedNode(n, Height(n), next)
  {
    HeightBelow(n, 0);
    SeparatedFuel(n, h, Height(n), next);
  }

  lemma SeparatedFoldStep(live: Props, snap: Props, h: nat, next: nat, i: nat)
    requires i < |snap|
    ensures SeparatedFold(live, snap[..i + 1], h, next) ==
      SeparateTurn(SeparatedFold(live, snap[..i], h, next).0, snap[i], h, SeparatedFold(live, snap[..i], h, next).1)
  {
    assert snap[..i + 1][..i] == snap[..i];
  }

  /**
   * A selector with several sub-selectors, found where `removeBlock` looks
   * for it, gives way to one new selector per sub-selector, each holding
   * its properties, after the other entries, which keep their order.
   */
  lemma SeparateSplits(live: Props, key: Key, n: Node, h: nat, next: nat)
    requires n.kind == SelectorBlock && |n.subSelectors| > 1
    requires ChainSearch(live, "!" + n.name, 0, TheObject(n)).Some?
    ensures |live| > 0 && |SeparateTurn(live, (key, Child(n)), h, next).0| == |live| - 1 + |n.subSelectors|
    ensures var r := SeparateTurn(live, (key, Child(n)), h, next).0;
      var gone := Probe("!" + n.name, ChainSearch(live, "!" + n.name, 0, TheObject(n)).value);
      var added := r[|live| - 1..];
      && r[..|live| - 1] == Remove(live, gone)
      && forall k :: 0 <= k < |added| ==> added[k].1 == Child(SplitBlock(n, k, next + k))
  {
    var a := AddedAll(live, SplitPairs(n, next));
    SplitAppends(live, n, next);
    var extra := a[|live|..];
    RemovedAppend(live, extra, n);
    var r := Removed(live, n) + extra;
    assert SeparateTurn(live, (key, Child(n)), h, next).0 == r;
    assert r[..|live| - 1] == Removed(live, n);
    assert r[|live| - 1..] == extra;
  }

  /** The new selectors are appended, one per sub-selector, in order. */
  lemma SplitAppends(live: Props, n: Node, next: nat)
    ensures var a := AddedAll(live, SplitPairs(n, next));
      && |a| == |live| + |n.subSelectors| && a == live + a[|live|..]
      && forall k :: 0 <= k < |n.subSelectors| ==> a[|live|..][k].1 == Child(SplitBlock(n, k, next + k))
  {
    var ps := SplitPairs(n, next);
    var a := AddedAll(live, ps);
    AddedAllAppends(live, ps);
    assert a == live + a[|live|..];
    forall k | 0 <= k < |n.subSelectors|
      ensures a[|live|..][k].1 == Child(SplitBlock(n, k, next + k))
    {
      assert a[|live|..][k] == a[|live| + k];
    }
  }

  /** One turn of `separate` keeps the keys distinct and leaves declarations and at-rule lines alone. */
  lemma SeparateTurnKeepsPlain(live: Props, e: (Key, Item), h: nat, next: nat, k: Key)
    requires DistinctKeys(live) && Has(live, k) && !Get(live, k).Child?
    ensures var r := SeparateTurn(live, e, h, next).0;
      DistinctKeys(r) && Has(r, k) && Get(r, k) == Get(live, k)
  {
    match e.1
    case Child(n) =>
      if n.kind == AtRuleBlock {
        if h > 0 && DistinctKeys(n.properties) && Holds(live, e.0, n.id) {
          var inner := SeparatedNode(n, h - 1, next).0;
          PutOther(live, e.0, Child(inner), k);
          PutKeepsDistinct(live, e.0, Child(inner));
        }
      } else if |n.subSelectors| > 1 {
        var a := AddedAll(live, SplitPairs(n, next));
        AddedAllAppends(live, SplitPairs(n, next));
        AddedAllDistinct(live, SplitPairs(n, next));
        assert a == live + a[|live|..];
        AppendKeeps(live, a[|live|..], k);
        RemovedKeepsEntry(a, n, k);
      }
    case _ =>
  }

  /** `separate` keeps the keys distinct and leaves the declarations and at-rule lines of the block alone. */
  lemma {:induction false} SeparatedKeepsPlain(live: Props, snap: Props, h: nat, next: nat, k: Key)
    requires DistinctKeys(live) && Has(live, k) && !Get(live, k).Child?
    ensures var r := SeparatedFold(live, snap, h, next).0;
      DistinctKeys(r) && Has(r, k) && Get(r, k) == Get(live, k)
    decreases |snap|
  {
    if snap != [] {
      SeparatedKeepsPlain(live, snap[..|snap| - 1], h, next, k);
      var prev := SeparatedFold(live, snap[..|snap| - 1], h, next);
      SeparateTurnKeepsPlain(prev.0, snap[|snap| - 1], h, prev.1, k);
    }
  }

  /** `separate`, with `h` bounding the depth and `next` the first identity free for new selectors. */
  method Separate(block: Block, h: nat, next: nat) returns (after: nat)
    requires block.Valid() && block.kind == AtRuleBlock
    modifies block
    ensures block.Valid()
    ensures (block.Snapshot(), after) == SeparatedNode(old(block.Snapshot()), h, next)
    decreases h, 1
  {
    var snap := block.properties;
    after := next;
    for i := 0 to |snap|
      invariant block.Valid()
      invariant block.name == old(block.name) && block.subSelectors == old(block.subSelectors)
      invariant (block.properties, after) == SeparatedFold(snap, snap[..i], h, next)
    {
      SeparatedFoldStep(snap, snap, h, next, i);
      after := SeparateEntry(block, snap[i], h, after);
    }
    assert snap[..|snap|] == snap;
  }

  /** One turn of the loop of `separate`. */
  method SeparateEntry(block: Block, e: (Key, Item), h: nat, next: nat) returns (after: nat)
    requires block.Valid() && block.kind == AtRuleBlock
    modifies block
    ensures block.Valid()
    ensures block.name == old(block.name) && block.subSelectors == old(block.subSelectors)
    ensures (block.properties, after) == SeparateTurn(old(block.properties), e, h, next)
    decreases h, 0
  {
    var (key, item) := e;
    after := next;
    if item.Child? && item.node.kind == AtRuleBlock {
      if h > 0 && DistinctKeys(item.node.properties) {
        var inner;
        inner, after := SeparateChild(item.node, h - 1, next);
        if Holds(block.properties, key, item.node.id) {
          PutKeepsDistinct(block.properties, key, Child(inner));
          block.properties := Put(block.properties, key, Child(inner));
        }
      }
    } else if item.Child? && |item.node.subSelectors| > 1 {
      AddSplitBlocks(block, item.node, next);
      after := next + |item.node.subSelectors|;
      var _ := block.RemoveBlock(item.node);
    }
  }

  /** The inner loop of `separate`: a new selector per sub-selector, with the same properties. */
  method AddSplitBlocks(block: Block, n: Node, next: nat)
    requires block.Valid() && block.kind == AtRuleBlock
    modifies block
    ensures block.Valid()
    ensures block.properties == AddedAll(old(block.properties), SplitPairs(n, next))
    ensures block.name == old(block.name) && block.subSelectors == old(block.subSelectors)
  {
    var pairs := SplitPairs(n, next);
    for j := 0 to |n.subSelectors|
      invariant block.Valid()
      invariant block.name == old(block.name) && block.subSelectors == old(block.subSelectors)
      invariant block.properties == AddedAll(old(block.properties), pairs[..j])
    {
      AddedAllStep(old(block.properties), pairs, j);
      var _ := block.AddBlock(SplitBlock(n, j, next + j));
    }
    assert pairs[..|pairs|] == pairs;
  }

  /** One nested at-rule block: `$this->separate($element)` on the object the entry holds. */
  method SeparateChild(n: Node, h: nat, next: nat) returns (r: Node, after: nat)
    requires DistinctKeys(n.properties) && n.kind == AtRuleBlock
    ensures (r, after) == SeparatedNode(n, h, next)
    decreases h, 2
  {
    var child := new Block.FromNode(n);
    after := Separate(child, h, next);
    r := child.Snapshot();
  }

  // --------------------------------------------------- mergeWithSameName

  /** What ends `while ($element = current(...))` besides the end of the array: the falsy strings "" and "0". */
  predicate Falsy(it: Item) {
    it == Decl("") || it == Decl("0")
  }

  /** Entries `mergeWithSameName` passes over: anything but a block, and `@font-face` at-rule blocks, which are never merged. */
  predicate PassedOver(it: Item) {
    !it.Child? || (it.node.kind == AtRuleBlock && it.node.name == "@font-face")
  }

  /** The element after taking in its namesake: `merge` for an at-rule block, `mergeProperties` for a selector. */
  function Absorb(n: Node, same: Node): (r: Node)
    ensures r.id == n.id && r.kind == n.kind && r.name == n.name
  {
    if n.kind == AtRuleBlock then n.(properties := Merged(n.properties, same.properties))
    else n.(properties := MergeAll(n.properties, same.properties))
  }

  /**
   * The element `n` under `key` takes in the first other block of its
   * class and name, which is then removed; the element stays under its
   * key and at most one entry before it goes.
   */
  function TakeNamesake(m: Props, key: Key, n: Node): (r: (Props, Node))
    requires DistinctKeys(m) && Has(m, key) && Get(m, key) == Child(n)
    ensures DistinctKeys(r.0) && Has(r.0, key) && |r.0| - IndexOf(r.0, key) <= |m| - IndexOf(m, key)
    ensures r.1.id == n.id && r.1.kind == n.kind && r.1.name == n.name
  {
    match SameName(m, n)
    case None => (m, n)
    case Some(same) =>
      var n1 := Absorb(n, same);
      PutInPlace(m, key, Child(n1));
      RemovedKeepsEntry(Put(m, key, Child(n1)), same, key);
      (Removed(Put(m, key, Child(n1)), same), n1)
  }

  /**
   * One turn of `mergeWithSameName` on the block at `pos`: it takes in its
   * namesake and, when it is an at-rule block, is then merged in turn. The
   * cursor does not move back.
   */
  function NameTurn(m: Props, pos: nat, h: nat): (r: Props)
    requires DistinctKeys(m) && pos < |m| && m[pos].1.Child?
    ensures DistinctKeys(r) && Has(r, m[pos].0) && |r| - IndexOf(r, m[pos].0) <= |m| - pos
    decreases h, 0
  {
    var key := m[pos].0;
    var n := m[pos].1.node;
    IndexOfDistinct(m, pos);
    var (m1, n1) := TakeNamesake(m, key, n);
    if n.kind == AtRuleBlock && h > 0 && DistinctKeys(n1.properties) then
      var inner := NamesNode(n1, h - 1);
      PutInPlace(m1, key, Child(inner));
      Put(m1, key, Child(inner))
    else m1
  }

  /** One turn of the loop of `mergeWithSameName`: the map after it and where the cursor then stands. */
  function NameStep(m: Props, pos: nat, h: nat): (r: (Props, nat))
    requires DistinctKeys(m) && pos < |m|
    ensures DistinctKeys(r.0) && |r.0| - r.1 < |m| - pos
    decreases h, 1
  {
    if PassedOver(m[pos].1) || !DistinctKeys(m[pos].1.node.properties) then (m, pos + 1)
    else
      var r := NameTurn(m, pos, h);
      (r, IndexOf(r, m[pos].0) + 1)
  }

  /** The loop of `mergeWithSameName` from the cursor `pos` on the map as it stands. */
  function NamesFrom(m: Props, pos: nat, h: nat): Props
    requires DistinctKeys(m)
    decreases h, 2, |m| - pos
  {
    if pos >= |m| || Falsy(m[pos].1) then m
    else
      var (r, next) := NameStep(m, pos, h);
      NamesFrom(r, next, h)
  }

  /** `mergeWithSameName` on an at-rule block. */
  function NamesNode(n: Node, h: nat): Node
    requires DistinctKeys(n.properties)
    decreases h, 3
  {
    n.(properties := NamesFrom(n.properties, 0, h))
  }

  /**
   * Once the element is written back under its key, `removeBlock` still
   * finds the namesake `getBlockWithSameName` returned: the key chain up
   * to it is unchanged.
   */
  lemma NamesakeFound(m: Props, key: Key, n: Node, v: Item)
    requires Has(m, key) && Get(m, key) == Child(n) && SameName(m, n).Some?
    requires !(v.Child? && v.node.id == SameName(m, n).value.id)
    ensures ChainSearch(Put(m, key, v), "!" + SameName(m, n).value.name, 0, TheObject(SameName(m, n).value)).Some?
  {
    var base := "!" + n.name;
    var j := ChainSearch(m, base, 0, Namesake(n)).value;
    SameNameAt(m, n);
    var same := SameName(m, n).value;
    assert Get(m, Probe(base, j)) == Child(same);
    var m1 := Put(m, key, v);
    PutOther(m, key, v, Probe(base, j));
    forall k | 0 <= k < j
      ensures Has(m1, Probe(base, k))
    {
      ChainFirstHit(m, base, 0, Namesake(n), k);
      if Probe(base, k) != key {
        PutOther(m, key, v, Probe(base, k));
      } else {
        PutGet(m, key, v);
      }
    }
    ChainReach(m1, base, 0, TheObject(same), j);
  }

  /**
   * A namesake found: the element under its key becomes the merge of the
   * two, exactly one entry goes (one holding the namesake's object), and
   * every other entry keeps its value.
   */
  lemma TakeNamesakeEffect(m: Props, key: Key, n: Node)
    requires DistinctKeys(m) && Has(m, key) && Get(m, key) == Child(n) && SameName(m, n).Some?
    ensures var same := SameName(m, n).value;
      var r := TakeNamesake(m, key, n);
      r.1 == Absorb(n, same) && |r.0| == |m| - 1 && Has(r.0, key) && Get(r.0, key) == Child(Absorb(n, same))
      && (forall k :: k != key && Has(r.0, k) ==> Has(m, k) && Get(r.0, k) == Get(m, k))
      && (forall k :: Has(m, k) && !Has(r.0, k) ==> Get(m, k).Child? && Get(m, k).node.id == same.id)
  {
    var same := SameName(m, n).value;
    var n1 := Absorb(n, same);
    var m1 := Put(m, key, Child(n1));
    NamesakeFound(m, key, n, Child(n1));
    PutInPlace(m, key, Child(n1));
    RemovedKeepsEntry(m1, same, key);
    forall k | Has(m, k) || Has(Removed(m1, same), k)
      ensures k != key && Has(Removed(m1, same), k) ==> Has(m, k) && Get(Removed(m1, same), k) == Get(m, k)
      ensures Has(m, k) && !Has(Removed(m1, same), k) ==> Get(m, k).Child? && Get(m, k).node.id == same.id
    {
      RemovedKeepsOthers(m1, same, k);
      if k != key {
        PutOther(m, key, Child(n1), k);
      }
    }
  }

  /** The properties the element ends up with after taking in `found`. */
  function AbsorbedProperties(n: Node, found: Option<Node>): Props {
    match found
    case None => n.properties
    case Some(same) =>
      if n.kind == AtRuleBlock then Merged(n.properties, same.properties)
      else MergeAll(n.properties, same.properties)
  }

  /**
   * One turn on the block at `pos`: its namesake, if any, is merged into it
   * (`merge` for an at-rule block, `mergeProperties` for a selector) and
   * removed; an at-rule block is then merged in turn; nothing else changes.
   */
  lemma NameTurnEffect(m: Props, pos: nat, h: nat)
    requires DistinctKeys(m) && pos < |m| && m[pos].1.Child?
    ensures var key := m[pos].0;
      var n := m[pos].1.node;
      var r := NameTurn(m, pos, h);
      var t := AbsorbedProperties(n, SameName(m, n));
      |r| == |m| - (if SameName(m, n).Some? then 1 else 0)
      && Has(r, key) && Get(r, key).Child?
      && Get(r, key).node == n.(properties := if n.kind == AtRuleBlock && h > 0 && DistinctKeys(t) then NamesFrom(t, 0, h - 1) else t)
      && (forall k :: k != key && Has(r, k) ==> Has(m, k) && Get(r, k) == Get(m, k))
      && (forall k :: Has(m, k) && !Has(r, k) ==>
            SameName(m, n).Some? && Get(m, k).Child? && Get(m, k).node.id == SameName(m, n).value.id)
  {
    var key := m[pos].0;
    var n := m[pos].1.node;
    IndexOfDistinct(m, pos);
    var (m1, n1) := TakeNamesake(m, key, n);
    if SameName(m, n).Some? {
      TakeNamesakeEffect(m, key, n);
    }
    assert n1 == n.(properties := AbsorbedProperties(n, SameName(m, n)));
    if n.kind == AtRuleBlock && h > 0 && DistinctKeys(n1.properties) {
      var inner := NamesNode(n1, h - 1);
      PutInPlace(m1, key, Child(inner));
      forall k | k != key
        ensures Has(Put(m1, key, Child(inner)), k) <==> Has(m1, k)
        ensures Has(m1, k) ==> Get(Put(m1, key, Child(inner)), k) == Get(m1, k)
      {
        PutOther(m1, key, Child(inner), k);
      }
    }
  }

  /** `b` is what `a` became: a block stays a block with the same identity, class and name; anything else is untouched. */
  predicate SameShape(a: Item, b: Item) {
    if a.Child? then b.Child? && b.node.id == a.node.id && b.node.kind == a.node.kind && b.node.name == a.node.name
    else b == a
  }

  /** `r` has no key `m` lacks, and each of its entries is what the entry of `m` became. */
  ghost predicate Shrinks(m: Props, r: Props) {
    forall k :: Has(r, k) ==> Has(m, k) && SameShape(Get(m, k), Get(r, k))
  }

  lemma ShrinksTrans(a: Props, b: Props, c: Props)
    requires Shrinks(a, b) && Shrinks(b, c)
    ensures Shrinks(a, c)
  {
    forall k | Has(c, k)
      ensures Has(a, k) && SameShape(Get(a, k), Get(c, k))
    {
      assert Has(b, k);
    }
  }

  /**
   * An entry `mergeWithSameName` must leave alone: a declaration or line,
   * or an `@font-face` at-rule block whose object is held by no other entry.
   */
  ghost predicate Spared(m: Props, k: Key) {
    Has(m, k) && PassedOver(Get(m, k)) &&
    (Get(m, k).Child? ==> forall k2 :: k2 != k && Has(m, k2) && Get(m, k2).Child? ==> Get(m, k2).node.id != Get(m, k).node.id)
  }

  /** A spared entry that keeps its value stays spared in a map that shrinks. */
  lemma SparedShrinks(m: Props, r: Props, k: Key)
    requires Spared(m, k) && Shrinks(m, r) && Has(r, k) && Get(r, k) == Get(m, k)
    ensures Spared(r, k)
  {
    if Get(m, k).Child? {
      forall k2 | k2 != k && Has(r, k2) && Get(r, k2).Child?
        ensures Get(r, k2).node.id != Get(r, k).node.id
      {
        assert Has(m, k2) && SameShape(Get(m, k2), Get(r, k2));
      }
    }
  }

  /** A turn on a block that is merged spares every spared entry, and the map shrinks. */
  lemma NameTurnSpares(m: Props, pos: nat, h: nat, k: Key)
    requires DistinctKeys(m) && pos < |m| && m[pos].1.Child? && !PassedOver(m[pos].1) && Spared(m, k)
    ensures Shrinks(m, NameTurn(m, pos, h))
    ensures Has(NameTurn(m, pos, h), k) && Get(NameTurn(m, pos, h), k) == Get(m, k)
  {
    var key := m[pos].0;
    var n := m[pos].1.node;
    var r := NameTurn(m, pos, h);
    NameTurnEffect(m, pos, h);
    IndexOfDistinct(m, pos);
    assert key != k;
    forall k2 | Has(r, k2)
      ensures Has(m, k2) && SameShape(Get(m, k2), Get(r, k2))
    {
    }
    if SameName(m, n).Some? {
      NamesakeNotSpared(m, n, k);
    }
  }

  /** The namesake of a block that is merged is never a spared entry, nor held by one. */
  lemma NamesakeNotSpared(m: Props, n: Node, k: Key)
    requires !PassedOver(Child(n)) && SameName(m, n).Some? && Spared(m, k)
    ensures !(Get(m, k).Child? && Get(m, k).node.id == SameName(m, n).value.id)
  {
    var same := SameName(m, n).value;
    var ks :| Has(m, ks) && Get(m, ks) == Child(same);
    assert !PassedOver(Child(same));
  }

  /** One turn of the loop spares every spared entry, and the map shrinks. */
  lemma NameStepSpares(m: Props, pos: nat, h: nat, k: Key)
    requires DistinctKeys(m) && pos < |m| && Spared(m, k)
    ensures Shrinks(m, NameStep(m, pos, h).0)
    ensures Has(NameStep(m, pos, h).0, k) && Get(NameStep(m, pos, h).0, k) == Get(m, k)
  {
    if PassedOver(m[pos].1) || !DistinctKeys(m[pos].1.node.properties) {
      assert NameStep(m, pos, h).0 == m;
    } else {
      NameTurnSpares(m, pos, h, k);
    }
  }

  /** The loop from `pos` on spares every spared entry, and the map shrinks. */
  lemma {:induction false} NamesFromSpares(m: Props, pos: nat, h: nat, k: Key)
    requires DistinctKeys(m) && Spared(m, k)
    ensures Shrinks(m, NamesFrom(m, pos, h))
    ensures Has(NamesFrom(m, pos, h), k) && Get(NamesFrom(m, pos, h), k) == Get(m, k)
    decreases |m| - pos
  {
    if pos < |m| && !Falsy(m[pos].1) {
      var (r, next) := NameStep(m, pos, h);
      NameStepSpares(m, pos, h, k);
      SparedShrinks(m, r, k);
      NamesFromSpares(r, next, h, k);
      ShrinksTrans(m, r, NamesFrom(r, next, h));
    }
  }

  /**
   * `mergeWithSameName` adds no entry, keeps each block's identity, class
   * and name, and leaves declarations, lines and `@font-face` at-rule
   * blocks (held by one entry only) where they were.
   */
  lemma NamesSpare(n: Node, h: nat, k: Key)
    requires DistinctKeys(n.properties) && Spared(n.properties, k)
    ensures Shrinks(n.properties, NamesNode(n, h).properties)
    ensures Has(NamesNode(n, h).properties, k) && Get(NamesNode(n, h).properties, k) == Get(n.properties, k)
  {
    NamesFromSpares(n.properties, 0, h, k);
  }

  /** Taking in a namesake keeps every block of the array at most `b` high, the element included. */
  lemma TakeNamesakeBelow(m: Props, key: Key, n: Node, b: nat)
    requires DistinctKeys(m) && Has(m, key) && Get(m, key) == Child(n) && Below(m, b)
    ensures Below(TakeNamesake(m, key, n).0, b)
    ensures Height(TakeNamesake(m, key, n).1) <= b
  {
    GetBelow(m, key, b);
    match SameName(m, n)
    case None =>
    case Some(same) =>
      var k :| Has(m, k) && Get(m, k) == Child(same);
      GetBelow(m, k, b);
      HeightBelow(n, 0);
      HeightBelow(same, 0);
      var n1 := Absorb(n, same);
      if n.kind == AtRuleBlock {
        MergedBelow(n.properties, same.properties, b - 1);
      } else {
        MergeAllBelow(n.properties, same.properties, b - 1);
      }
      HeightBelow(n1, b - 1);
      PutBelow(m, key, Child(n1), b);
      RemovedBelow(Put(m, key, Child(n1)), same, b);
  }

  /**
   * Once the bound reaches the height of the nested blocks, raising it
   * changes nothing, and no block grows higher than that.
   */
  lemma {:induction false} NamesNodeFuel(n: Node, b: nat, h1: nat, h2: nat)
    requires DistinctKeys(n.properties) && Below(n.properties, b) && b <= h1 && b <= h2
    ensures NamesNode(n, h1) == NamesNode(n, h2)
    ensures Below(NamesNode(n, h1).properties, b)
    decreases h1, 4
  {
    NamesFromFuel(n.properties, 0, b, h1, h2);
  }

  lemma {:induction false} NamesFromFuel(m: Props, pos: nat, b: nat, h1: nat, h2: nat)
    requires DistinctKeys(m) && Below(m, b) && b <= h1 && b <= h2
    ensures NamesFrom(m, pos, h1) == NamesFrom(m, pos, h2)
    ensures Below(NamesFrom(m, pos, h1), b)
    decreases h1, 3, |m| - pos
  {
    if pos < |m| && !Falsy(m[pos].1) {
      NameStepFuel(m, pos, b, h1, h2);
      var (r, next) := NameStep(m, pos, h1);
      NamesFromFuel(r, next, b, h1, h2);
    }
  }

  lemma {:induction false} NameStepFuel(m: Props, pos: nat, b: nat, h1: nat, h2: nat)
    requires DistinctKeys(m) && pos < |m| && Below(m, b) && b <= h1 && b <= h2
    ensures NameStep(m, pos, h1) == NameStep(m, pos, h2)
    ensures Below(NameStep(m, pos, h1).0, b)
    decreases h1, 2
  {
    if PassedOver(m[pos].1) || !DistinctKeys(m[pos].1.node.properties) {
      assert NameStep(m, pos, h1) == (m, pos + 1) == NameStep(m, pos, h2);
    } else {
      NameTurnStepFuel(m, pos, b, h1, h2);
    }
  }

  lemma {:induction false} NameTurnStepFuel(m: Props, pos: nat, b: nat, h1: nat, h2: nat)
    requires DistinctKeys(m) && pos < |m| && Below(m, b) && b <= h1 && b <= h2
    requires !PassedOver(m[pos].1) && DistinctKeys(m[pos].1.node.properties)
    ensures NameStep(m, pos, h1) == NameStep(m, pos, h2)
    ensures Below(NameStep(m, pos, h1).0, b)
    decreases h1, 1
  {
    NameTurnFuel(m, pos, b, h1, h2);
    NameStepTurns(m, pos, h1);
    NameStepTurns(m, pos, h2);
    var s1 := NameStep(m, pos, h1);
    var s2 := NameStep(m, pos, h2);
    assert s1.0 == s2.0;
    assert s1.1 == s2.1;
  }

  /** A block that is not passed over takes its turn, and the cursor moves past it. */
  lemma NameStepTurns(m: Props, pos: nat, h: nat)
    requires DistinctKeys(m) && pos < |m|
    requires !PassedOver(m[pos].1) && DistinctKeys(m[pos].1.node.properties)
    ensures NameStep(m, pos, h).0 == NameTurn(m, pos, h)
    ensures Has(NameStep(m, pos, h).0, m[pos].0)
    ensures NameStep(m, pos, h).1 == IndexOf(NameStep(m, pos, h).0, m[pos].0) + 1
  {
  }

  lemma {:induction false} NameTurnFuel(m: Props, pos: nat, b: nat, h1: nat, h2: nat)
    requires DistinctKeys(m) && pos < |m| && m[pos].1.Child? && Below(m, b) && b <= h1 && b <= h2
    ensures NameTurn(m, pos, h1) == NameTurn(m, pos, h2)
    ensures Below(NameTurn(m, pos, h1), b)
    decreases h1, 0
  {
    var key := m[pos].0;
    var n := m[pos].1.node;
    IndexOfDistinct(m, pos);
    TakeNamesakeBelow(m, key, n, b);
    var (m1, n1) := TakeNamesake(m, key, n);
    if n.kind == AtRuleBlock && DistinctKeys(n1.properties) {
      HeightBelow(n1, 0);
      NamesNodeFuel(n1, Height(n1) - 1, h1 - 1, h2 - 1);
      InnerTurnBelow(m1, key, n1, b, h1 - 1);
      assert NameTurn(m, pos, h1) == Put(m1, key, Child(NamesNode(n1, h1 - 1)));
      assert NameTurn(m, pos, h2) == Put(m1, key, Child(NamesNode(n1, h2 - 1)));
    }
  }

  /** Writing back an element merged in turn keeps every block at most `b` high. */
  lemma InnerTurnBelow(m1: Props, key: Key, n1: Node, b: nat, h: nat)
    requires DistinctKeys(m1) && Has(m1, key) && Below(m1, b) && DistinctKeys(n1.properties)
    requires Height(n1) <= b && Height(n1) - 1 <= h
    requires Below(NamesNode(n1, h).properties, Height(n1) - 1)
    ensures Below(Put(m1, key, Child(NamesNode(n1, h))), b)
  {
    var inner := NamesNode(n1, h);
    HeightBelow(inner, Height(n1) - 1);
    PutBelow(m1, key, Child(inner), b);
  }

  /**
   * `mergeWithSameName` started with a bound of at least the height of
   * the tree gives what the bound `Height(n)` gives: merging two blocks
   * never makes a higher one, so every nested block is reached.
   */
  lemma NamesSettle(n: Node, h: nat)
    requires DistinctKeys(n.properties) && h + 1 >= Height(n)
    ensures NamesNode(n, h) == NamesNode(n, Height(n))
  {
    HeightBelow(n, 0);
    NamesNodeFuel(n, Height(n) - 1, h, Height(n));
  }

  /** `mergeWithSameName`, with `h` bounding the depth. */
  method MergeWithSameName(block: Block, h: nat)
    requires block.Valid() && block.kind == AtRuleBlock
    modifies block
    ensures block.Valid()
    ensures block.Snapshot() == NamesNode(old(block.Snapshot()), h)
    decreases h, 2
  {
    var pos: nat := 0;
    while pos < |block.properties| && !Falsy(block.properties[pos].1)
      invariant block.Valid()
      invariant block.name == old(block.name) && block.subSelectors == old(block.subSelectors)
      invariant NamesFrom(block.properties, pos, h) == NamesFrom(old(block.properties), 0, h)
      decreases |block.properties| - pos
    {
      NamesFromStep(block.properties, pos, h);
      pos := MergeNameStep(block, pos, h);
    }
  }

  /** One turn of the loop of `mergeWithSameName`, and the cursor after it (`next()` past the element). */
  method MergeNameStep(block: Block, pos: nat, h: nat) returns (next: nat)
    requires block.Valid() && block.kind == AtRuleBlock && pos < |block.properties|
    modifies block
    ensures block.Valid()
    ensures block.name == old(block.name) && block.subSelectors == old(block.subSelectors)
    ensures block.properties == NameStep(old(block.properties), pos, h).0
    ensures next == NameStep(old(block.properties), pos, h).1
    decreases h, 1
  {
    var (key, item) := block.properties[pos];
    var skip := PassedOver(item) || !DistinctKeys(item.node.properties);
    NameStepCases(block.properties, pos, h, skip);
    if skip {
      next := pos + 1;
    } else {
      MergeNameEntry(block, pos, h);
      next := IndexOf(block.properties, key) + 1;
    }
  }

  lemma NameStepCases(m: Props, pos: nat, h: nat, skip: bool)
    requires DistinctKeys(m) && pos < |m|
    requires skip <==> PassedOver(m[pos].1) || !DistinctKeys(m[pos].1.node.properties)
    ensures skip ==> NameStep(m, pos, h) == (m, pos + 1)
    ensures !skip ==> m[pos].1.Child? && NameStep(m, pos, h).0 == NameTurn(m, pos, h)
    ensures !skip ==> NameStep(m, pos, h).1 == IndexOf(NameStep(m, pos, h).0, m[pos].0) + 1
  {
  }

  lemma NamesFromStep(m: Props, pos: nat, h: nat)
    requires DistinctKeys(m) && pos < |m| && !Falsy(m[pos].1)
    ensures NamesFrom(m, pos, h) == NamesFrom(NameStep(m, pos, h).0, NameStep(m, pos, h).1, h)
  {
  }

  /** The body of the loop of `mergeWithSameName` on the element at `pos`. */
  method MergeNameEntry(block: Block, pos: nat, h: nat)
    requires block.Valid() && block.kind == AtRuleBlock
    requires pos < |block.properties| && block.properties[pos].1.Child?
    requires DistinctKeys(block.properties[pos].1.node.properties)
    modifies block
    ensures block.Valid()
    ensures block.name == old(block.name) && block.subSelectors == old(block.subSelectors)
    ensures block.properties == NameTurn(old(block.properties), pos, h)
    decreases h, 0
  {
    var (key, item) := block.properties[pos];
    IndexOfDistinct(block.properties, pos);
    var n1 := TakeNamesakeIn(block, key, item.node);
    if item.node.kind == AtRuleBlock && h > 0 {
      var inner := MergeNamesChild(n1, h - 1);
      PutKeepsDistinct(block.properties, key, Child(inner));
      block.properties := Put(block.properties, key, Child(inner));
    }
  }

  /** `getBlockWithSameName`, then `merge` or `mergeProperties` on the element and `removeBlock` of the namesake. */
  method TakeNamesakeIn(block: Block, key: Key, n: Node) returns (n1: Node)
    requires block.Valid() && block.kind == AtRuleBlock
    requires Has(block.properties, key) && Get(block.properties, key) == Child(n) && DistinctKeys(n.properties)
    modifies block
    ensures block.Valid() && DistinctKeys(n1.properties)
    ensures block.name == old(block.name) && block.subSelectors == old(block.subSelectors)
    ensures (block.properties, n1) == TakeNamesake(old(block.properties), key, n)
  {
    var same := block.GetBlockWithSameName(n);
    n1 := n;
    if same.Some? {
      var element := new Block.FromNode(n);
      if n.kind == AtRuleBlock {
        element.Merge(same.value);
      } else {
        element.MergeProperties(same.value.properties);
      }
      n1 := element.Snapshot();
      PutKeepsDistinct(block.properties, key, Child(n1));
      block.properties := Put(block.properties, key, Child(n1));
      var _ := block.RemoveBlock(same.value);
    }
  }

  /** One nested at-rule block: `$this->mergeWithSameName($element)` on the object the entry holds. */
  method MergeNamesChild(n: Node, h: nat) returns (r: Node)
    requires DistinctKeys(n.properties) && n.kind == AtRuleBlock
    ensures r == NamesNode(n, h)
    decreases h, 3
  {
    var child := new Block.FromNode(n);
    MergeWithSameName(child, h);
    r := child.Snapshot();
  }

  // --------------------------------------------- mergeWithSameProperties

  /**
   * `$val instanceof Selector && $val->properties == $element->properties
   * && $val !== $element`: another selector object with the same key/value
   * pairs, in any order.
   */
  predicate IsTwin(n: Node, it: Item) {
    it.Child? && it.node.kind == SelectorBlock && it.node.id != n.id && ToMap(it.node.properties) == ToMap(n.properties)
  }

  /** The inner `foreach`: the twins of `n` among the entries, in map order. */
  function Twins(m: Props, n: Node): (r: seq<Node>)
    ensures |r| <= |m|
    ensures forall s :: s in r ==> IsTwin(n, Child(s))
    decreases |m|
  {
    if m == [] then []
    else Twins(m[..|m| - 1], n) + (if IsTwin(n, m[|m| - 1].1) then [m[|m| - 1].1.node] else [])
  }

  /** A block is collected exactly when it is a twin held by some entry. */
  lemma {:induction false} TwinsMeans(m: Props, n: Node, s: Node)
    ensures s in Twins(m, n) <==> IsTwin(n, Child(s)) && exists i :: 0 <= i < |m| && m[i].1 == Child(s)
    decreases |m|
  {
    if m != [] {
      var init := m[..|m| - 1];
      TwinsMeans(init, n, s);
      if exists i :: 0 <= i < |init| && init[i].1 == Child(s) {
        var i :| 0 <= i < |init| && init[i].1 == Child(s);
        assert m[i].1 == Child(s);
      }
      if exists i :: 0 <= i < |m| && m[i].1 == Child(s) {
        var i :| 0 <= i < |m| && m[i].1 == Child(s);
        if i < |init| {
          assert init[i].1 == Child(s);
        }
      }
    }
  }

  /** The names the twins' `appendSelectorName` calls add to `subSelectors`. */
  function NamesOf(ss: seq<Node>): (r: seq<string>)
    ensures |r| == |ss| && forall i :: 0 <= i < |ss| ==> r[i] == ss[i].name
    decreases |ss|
  {
    if ss == [] then [] else NamesOf(ss[..|ss| - 1]) + [ss[|ss| - 1].name]
  }

  /** What the twins' `appendSelectorName` calls add to the name: "," and the name of each. */
  function CommaNames(ss: seq<Node>): string
    decreases |ss|
  {
    if ss == [] then "" else CommaNames(ss[..|ss| - 1]) + "," + ss[|ss| - 1].name
  }

  /**
   * One twin: the element under `key` appends its name, and `removeBlock`
   * drops the twin; the element keeps its key and at most one entry before
   * it goes.
   */
  function AbsorbOne(m: Props, key: Key, n: Node, s: Node): (r: Props)
    requires DistinctKeys(m) && Has(m, key) && Get(m, key) == Child(n) && s.id != n.id
    ensures DistinctKeys(r) && Has(r, key) && Get(r, key) == Child(AppendName(n, s.name))
    ensures |r| - IndexOf(r, key) <= |m| - IndexOf(m, key)
  {
    var m1 := Put(m, key, Child(AppendName(n, s.name)));
    PutInPlace(m, key, Child(AppendName(n, s.name)));
    RemovedKeepsEntry(m1, s, key);
    Removed(m1, s)
  }

  /**
   * The last `foreach`: the twins in turn, each appending its name to the
   * element (an object the map holds, written back under its key) and then
   * removed.
   */
  function AbsorbTwins(m: Props, key: Key, n: Node, ss: seq<Node>): (r: (Props, Node))
    requires DistinctKeys(m) && Has(m, key) && Get(m, key) == Child(n)
    requires forall s :: s in ss ==> s.id != n.id
    ensures DistinctKeys(r.0) && Has(r.0, key) && Get(r.0, key) == Child(r.1)
    ensures r.1.id == n.id && r.1.kind == n.kind && r.1.properties == n.properties
    ensures |r.0| - IndexOf(r.0, key) <= |m| - IndexOf(m, key)
    decreases |ss|
  {
    if ss == [] then (m, n)
    else
      var init := ss[..|ss| - 1];
      assert forall s :: s in init ==> s in ss;
      var (m1, n1) := AbsorbTwins(m, key, n, init);
      var s := ss[|ss| - 1];
      (AbsorbOne(m1, key, n1, s), AppendName(n1, s.name))
  }

  /** The element ends up with every twin's name appended, in order, and its own properties. */
  lemma {:induction false} AbsorbTwinsNames(m: Props, key: Key, n: Node, ss: seq<Node>)
    requires DistinctKeys(m) && Has(m, key) && Get(m, key) == Child(n)
    requires forall s :: s in ss ==> s.id != n.id
    ensures AbsorbTwins(m, key, n, ss).1 == n.(name := n.name + CommaNames(ss), subSelectors := n.subSelectors + NamesOf(ss))
    decreases |ss|
  {
    if ss != [] {
      var init := ss[..|ss| - 1];
      assert forall s :: s in init ==> s in ss;
      AbsorbTwinsNames(m, key, n, init);
      var s := ss[|ss| - 1];
      var n1 := AbsorbTwins(m, key, n, init).1;
      assert AbsorbTwins(m, key, n, ss).1 == AppendName(n1, s.name);
      Regroup(n.name, CommaNames(init), ",", s.name);
      Regroup(n.subSelectors, NamesOf(init), [s.name], []);
    }
  }

  /**
   * Absorbing the twins removes at most one entry per twin, each holding a
   * twin's object, and leaves every other entry but the element alone.
   */
  lemma {:induction false} AbsorbTwinsEffect(m: Props, key: Key, n: Node, ss: seq<Node>)
    requires DistinctKeys(m) && Has(m, key) && Get(m, key) == Child(n)
    requires forall s :: s in ss ==> s.id != n.id
    ensures var r := AbsorbTwins(m, key, n, ss).0;
      |r| >= |m| - |ss|
      && (forall k :: k != key && Has(r, k) ==> Has(m, k) && Get(r, k) == Get(m, k))
      && (forall k :: Has(m, k) && !Has(r, k) ==> Get(m, k).Child? && Get(m, k).node.id in IdsOf(ss))
    decreases |ss|
  {
    if ss != [] {
      var init := ss[..|ss| - 1];
      assert forall s :: s in init ==> s in ss;
      AbsorbTwinsEffect(m, key, n, init);
      var (m1, n1) := AbsorbTwins(m, key, n, init);
      var s := ss[|ss| - 1];
      var r := AbsorbOne(m1, key, n1, s);
      assert AbsorbTwins(m, key, n, ss).0 == r;
      AbsorbOneEffect(m1, key, n1, s);
      assert IdsOf(ss) == IdsOf(init) + [s.id];
      forall k | Has(m, k) && !Has(r, k)
        ensures Get(m, k).Child? && Get(m, k).node.id in IdsOf(ss)
      {
        if Has(m1, k) {
          assert k != key;
        }
      }
    }
  }

  /** The identities of the twins. */
  function IdsOf(ss: seq<Node>): (r: seq<nat>)
    ensures |r| == |ss| && forall i :: 0 <= i < |ss| ==> r[i] == ss[i].id
    decreases |ss|
  {
    if ss == [] then [] else IdsOf(ss[..|ss| - 1]) + [ss[|ss| - 1].id]
  }

  /** One twin: at most the entry holding its object goes, and nothing but the element changes. */
  lemma AbsorbOneEffect(m: Props, key: Key, n: Node, s: Node)
    requires DistinctKeys(m) && Has(m, key) && Get(m, key) == Child(n) && s.id != n.id
    ensures var r := AbsorbOne(m, key, n, s);
      |r| >= |m| - 1
      && (forall k :: k != key && Has(r, k) ==> Has(m, k) && Get(r, k) == Get(m, k))
      && (forall k :: Has(m, k) && !Has(r, k) ==> Get(m, k).Child? && Get(m, k).node.id == s.id)
  {
    var m1 := Put(m, key, Child(AppendName(n, s.name)));
    PutInPlace(m, key, Child(AppendName(n, s.name)));
    RemovedKeepsEntry(m1, s, key);
    forall k | Has(m, k) || Has(Removed(m1, s), k)
      ensures k != key && Has(Removed(m1, s), k) ==> Has(m, k) && Get(Removed(m1, s), k) == Get(m, k)
      ensures Has(m, k) && !Has(Removed(m1, s), k) ==> Get(m, k).Child? && Get(m, k).node.id == s.id
    {
      if k != key {
        PutOther(m, key, Child(AppendName(n, s.name)), k);
        if ChainSearch(m1, "!" + s.name, 0, TheObject(s)).Some? {
          RemovedKeepsOthers(m1, s, k);
        }
      }
    }
  }

  /** The turn of a selector at `pos`: it takes in every twin found in the map as it stands. */
  function TwinTurn(m: Props, pos: nat): (r: Props)
    requires DistinctKeys(m) && pos < |m| && m[pos].1.Child?
    ensures DistinctKeys(r) && Has(r, m[pos].0) && |r| - IndexOf(r, m[pos].0) <= |m| - pos
  {
    var n := m[pos].1.node;
    IndexOfDistinct(m, pos);
    AbsorbTwins(m, m[pos].0, n, Twins(m, n)).0
  }

  /**
   * One turn of the loop of `mergeWithSameProperties`: the map after it
   * and where the cursor then stands. An at-rule block is merged in turn
   * and written back; a selector takes in its twins.
   */
  function PropsStep(m: Props, pos: nat, h: nat): (r: (Props, nat))
    requires DistinctKeys(m) && pos < |m|
    ensures DistinctKeys(r.0) && |r.0| - r.1 < |m| - pos
    decreases h, 1
  {
    var (key, item) := m[pos];
    if !item.Child? then (m, pos + 1)
    else if item.node.kind == AtRuleBlock then
      if h > 0 && DistinctKeys(item.node.properties) then
        IndexOfDistinct(m, pos);
        PutInPlace(m, key, Child(PropsNode(item.node, h - 1)));
        (Put(m, key, Child(PropsNode(item.node, h - 1))), pos + 1)
      else (m, pos + 1)
    else
      var r := TwinTurn(m, pos);
      (r, IndexOf(r, key) + 1)
  }

  /** The loop of `mergeWithSameProperties` from the cursor `pos` on the map as it stands. */
  function PropsFrom(m: Props, pos: nat, h: nat): Props
    requires DistinctKeys(m)
    decreases h, 2, |m| - pos
  {
    if pos >= |m| || Falsy(m[pos].1) then m
    else
      var (r, next) := PropsStep(m, pos, h);
      PropsFrom(r, next, h)
  }

  /** `mergeWithSameProperties` on an at-rule block. */
  function PropsNode(n: Node, h: nat): Node
    requires DistinctKeys(n.properties)
    decreases h, 3
  {
    n.(properties := PropsFrom(n.properties, 0, h))
  }

  lemma PropsFromStep(m: Props, pos: nat, h: nat)
    requires DistinctKeys(m) && pos < |m| && !Falsy(m[pos].1)
    ensures PropsFrom(m, pos, h) == PropsFrom(PropsStep(m, pos, h).0, PropsStep(m, pos, h).1, h)
  {
  }

  /** Taking in twins only renames the element, so every block stays at most `b` high. */
  lemma {:induction false} AbsorbTwinsBelow(m: Props, key: Key, n: Node, ss: seq<Node>, b: nat)
    requires DistinctKeys(m) && Has(m, key) && Get(m, key) == Child(n) && Below(m, b)
    requires forall s :: s in ss ==> s.id != n.id
    ensures Below(AbsorbTwins(m, key, n, ss).0, b)
    decreases |ss|
  {
    if ss != [] {
      var init := ss[..|ss| - 1];
      assert forall s :: s in init ==> s in ss;
      AbsorbTwinsBelow(m, key, n, init, b);
      var (m1, n1) := AbsorbTwins(m, key, n, init);
      var s := ss[|ss| - 1];
      GetBelow(m1, key, b);
      HeightOfEntries(n1, AppendName(n1, s.name));
      PutBelow(m1, key, Child(AppendName(n1, s.name)), b);
      RemovedBelow(Put(m1, key, Child(AppendName(n1, s.name))), s, b);
    }
  }

  /**
   * Once the bound reaches the height of the nested blocks, raising it
   * changes nothing, and no block grows higher than that.
   */
  lemma {:induction false} PropsNodeFuel(n: Node, b: nat, h1: nat, h2: nat)
    requires DistinctKeys(n.properties) && Below(n.properties, b) && b <= h1 && b <= h2
    ensures PropsNode(n, h1) == PropsNode(n, h2)
    ensures Below(PropsNode(n, h1).properties, b)
    decreases h1, 3
  {
    PropsFromFuel(n.properties, 0, b, h1, h2);
  }

  lemma {:induction false} PropsFromFuel(m: Props, pos: nat, b: nat, h1: nat, h2: nat)
    requires DistinctKeys(m) && Below(m, b) && b <= h1 && b <= h2
    ensures PropsFrom(m, pos, h1) == PropsFrom(m, pos, h2)
    ensures Below(PropsFrom(m, pos, h1), b)
    decreases h1, 2, |m| - pos
  {
    if pos < |m| && !Falsy(m[pos].1) {
      PropsStepFuel(m, pos, b, h1, h2);
      var (r, next) := PropsStep(m, pos, h1);
      PropsFromFuel(r, next, b, h1, h2);
    }
  }

  lemma {:induction false} PropsStepFuel(m: Props, pos: nat, b: nat, h1: nat, h2: nat)
    requires DistinctKeys(m) && pos < |m| && Below(m, b) && b <= h1 && b <= h2
    ensures PropsStep(m, pos, h1) == PropsStep(m, pos, h2)
    ensures Below(PropsStep(m, pos, h1).0, b)
    decreases h1, 1
  {
    var (key, item) := m[pos];
    if item.Child? {
      var n := item.node;
      IndexOfDistinct(m, pos);
      if n.kind == AtRuleBlock {
        if DistinctKeys(n.properties) {
          HeightBelow(n, 0);
          PropsNodeFuel(n, Height(n) - 1, h1 - 1, h2 - 1);
          var inner := PropsNode(n, h1 - 1);
          HeightBelow(inner, Height(n) - 1);
          PutBelow(m, key, Child(inner), b);
        }
      } else {
        AbsorbTwinsBelow(m, key, n, Twins(m, n), b);
      }
    }
  }

  /**
   * `mergeWithSameProperties` started with a bound of at least the height
   * of the tree gives what the bound `Height(n)` gives.
   */
  lemma PropsSettle(n: Node, h: nat)
    requires DistinctKeys(n.properties) && h + 1 >= Height(n)
    ensures PropsNode(n, h) == PropsNode(n, Height(n))
  {
    HeightBelow(n, 0);
    PropsNodeFuel(n, Height(n) - 1, h, Height(n));
  }

  /** `mergeWithSameProperties`, with `h` bounding the depth. */
  method MergeWithSameProperties(block: Block, h: nat)
    requires block.Valid() && block.kind == AtRuleBlock
    modifies block
    ensures block.Valid()
    ensures block.Snapshot() == PropsNode(old(block.Snapshot()), h)
    decreases h, 2
  {
    var pos: nat := 0;
    while pos < |block.properties| && !Falsy(block.properties[pos].1)
      invariant block.Valid()
      invariant block.name == old(block.name) && block.subSelectors == old(block.subSelectors)
      invariant PropsFrom(block.properties, pos, h) == PropsFrom(old(block.properties), 0, h)
      decreases |block.properties| - pos
    {
      PropsFromStep(block.properties, pos, h);
      pos := MergePropsStep(block, pos, h);
    }
  }

  /** One turn of the loop of `mergeWithSameProperties`, and the cursor after it. */
  method MergePropsStep(block: Block, pos: nat, h: nat) returns (next: nat)
    requires block.Valid() && block.kind == AtRuleBlock && pos < |block.properties|
    modifies block
    ensures block.Valid()
    ensures block.name == old(block.name) && block.subSelectors == old(block.subSelectors)
    ensures block.properties == PropsStep(old(block.properties), pos, h).0
    ensures next == PropsStep(old(block.properties), pos, h).1
    decreases h, 1
  {
    var (key, item) := block.properties[pos];
    if !item.Child? {
      next := pos + 1;
    } else if item.node.kind == AtRuleBlock {
      if h > 0 && DistinctKeys(item.node.properties) {
        var inner := MergePropsChild(item.node, h - 1);
        PutKeepsDistinct(block.properties, key, Child(inner));
        block.properties := Put(block.properties, key, Child(inner));
      }
      next := pos + 1;
    } else {
      IndexOfDistinct(block.properties, pos);
      var twins := CollectTwins(block.properties, item.node);
      var _ := AbsorbTwinsIn(block, key, item.node, twins);
      next := IndexOf(block.properties, key) + 1;
    }
  }

  /** The inner `foreach` of `mergeWithSameProperties`, collecting `$sameSelectors`. */
  method CollectTwins(m: Props, n: Node) returns (ss: seq<Node>)
    ensures ss == Twins(m, n)
  {
    ss := [];
    for i := 0 to |m|
      invariant ss == Twins(m[..i], n)
    {
      assert m[..i + 1][..i] == m[..i];
      var val := m[i].1;
      if val.Child? && val.node.kind == SelectorBlock && val.node.id != n.id && ToMap(val.node.properties) == ToMap(n.properties) {
        ss := ss + [val.node];
      }
    }
    assert m[..|m|] == m;
  }

  /** The last `foreach`: `appendSelectorName` on the element and `removeBlock` of each twin. */
  method AbsorbTwinsIn(block: Block, key: Key, n: Node, ss: seq<Node>) returns (n1: Node)
    requires block.Valid() && block.kind == AtRuleBlock && n.kind == SelectorBlock
    requires Has(block.properties, key) && Get(block.properties, key) == Child(n)
    requires forall s :: s in ss ==> s.id != n.id
    modifies block
    ensures block.Valid()
    ensures block.name == old(block.name) && block.subSelectors == old(block.subSelectors)
    ensures (block.properties, n1) == AbsorbTwins(old(block.properties), key, n, ss)
  {
    var element := new Block.FromNode(n);
    for j := 0 to |ss|
      invariant block.Valid()
      invariant block.name == old(block.name) && block.subSelectors == old(block.subSelectors)
      invariant forall s :: s in ss[..j] ==> s in ss
      invariant (block.properties, element.Snapshot()) == AbsorbTwins(old(block.properties), key, n, ss[..j])
    {
      assert ss[..j + 1][..j] == ss[..j];
      var prev := block.properties;
      element.AppendSelectorName(ss[j].name);
      PutInPlace(prev, key, Child(element.Snapshot()));
      block.properties := Put(prev, key, Child(element.Snapshot()));
      var _ := block.RemoveBlock(ss[j]);
    }
    assert ss[..|ss|] == ss;
    n1 := element.Snapshot();
  }

  /** One nested at-rule block: `$this->mergeWithSameProperties($element)` on the object the entry holds. */
  method MergePropsChild(n: Node, h: nat) returns (r: Node)
    requires DistinctKeys(n.properties) && n.kind == AtRuleBlock
    ensures r == PropsNode(n, h)
    decreases h, 3
  {
    var child := new Block.FromNode(n);
    MergeWithSameProperties(child, h);
    r := child.Snapshot();
  }

  /**
   * A selector's turn: it gains the names of all its twins, in map order,
   * and keeps its properties; at most one entry per twin goes, each holding
   * a twin's object; every other entry keeps its value.
   */
  lemma TwinTurnEffect(m: Props, pos: nat)
    requires DistinctKeys(m) && pos < |m| && m[pos].1.Child?
    ensures var key := m[pos].0;
      var n := m[pos].1.node;
      var ss := Twins(m, n);
      var r := TwinTurn(m, pos);
      Has(r, key) && Get(r, key) == Child(n.(name := n.name + CommaNames(ss), subSelectors := n.subSelectors + NamesOf(ss)))
      && |r| >= |m| - |ss|
      && (forall k :: k != key && Has(r, k) ==> Has(m, k) && Get(r, k) == Get(m, k))
      && (forall k :: Has(m, k) && !Has(r, k) ==> Get(m, k).Child? && Get(m, k).node.id in IdsOf(ss))
  {
    var n := m[pos].1.node;
    IndexOfDistinct(m, pos);
    AbsorbTwinsNames(m, m[pos].0, n, Twins(m, n));
    AbsorbTwinsEffect(m, m[pos].0, n, Twins(m, n));
  }

  /** One turn of the loop of `mergeWithSameProperties` keeps a declaration or line with its value. */
  lemma PropsStepKeepsPlain(m: Props, pos: nat, h: nat, k: Key)
    requires DistinctKeys(m) && pos < |m| && Has(m, k) && !Get(m, k).Child?
    ensures Has(PropsStep(m, pos, h).0, k) && Get(PropsStep(m, pos, h).0, k) == Get(m, k)
  {
    var (key, item) := m[pos];
    IndexOfDistinct(m, pos);
    if item.Child? {
      assert key != k;
      if item.node.kind == AtRuleBlock {
        if h > 0 && DistinctKeys(item.node.properties) {
          PutOther(m, key, Child(PropsNode(item.node, h - 1)), k);
        }
      } else {
        TwinTurnEffect(m, pos);
      }
    }
  }

  /** The loop of `mergeWithSameProperties` from `pos` on keeps a declaration or line with its value. */
  lemma {:induction false} PropsFromKeepsPlain(m: Props, pos: nat, h: nat, k: Key)
    requires DistinctKeys(m) && Has(m, k) && !Get(m, k).Child?
    ensures Has(PropsFrom(m, pos, h), k) && Get(PropsFrom(m, pos, h), k) == Get(m, k)
    decreases |m| - pos
  {
    if pos < |m| && !Falsy(m[pos].1) {
      var (r, next) := PropsStep(m, pos, h);
      PropsStepKeepsPlain(m, pos, h, k);
      PropsFromKeepsPlain(r, next, h, k);
    }
  }

  /** `mergeWithSameProperties` leaves every declaration and line of the block where it was. */
  lemma PropsKeepsPlain(n: Node, h: nat, k: Key)
    requires DistinctKeys(n.properties) && Has(n.properties, k) && !Get(n.properties, k).Child?
    ensures Has(PropsNode(n, h).properties, k) && Get(PropsNode(n, h).properties, k) == Get(n.properties, k)
  {
    PropsFromKeepsPlain(n.properties, 0, h, k);
  }
}
