/**
 * lib/Parser.php `parse` and `processAtRule`: the character-by-character
 * state machine that turns CSS text into a document of nested blocks,
 * declarations, comments and one-line at-rules, logging what it repairs.
 *
 * The loop state of `parse` is one `Scan` record; each state of the switch
 * is a function from the record at index `i` to the record after that
 * character, and `Parse` is the loop that applies them.
 */
module Parser {
  import opened Text
  import opened Scanner
  import opened Diagnostics
  import Properties

  /** The three settings the parser reads from its configuration. */
  datatype Config = Config(discardInvalidProperties: bool, cssLevel: string, removeBackSlash: bool)

  /** The settings and `Parser::$allProperties`, the table properties are checked against. */
  datatype Env = Env(cfg: Config, table: map<string, string>)

  /** A one-line at-rule: its lowercased name and the words that followed it. */
  datatype AtLine = AtLine(rule: string, parts: seq<string>)

  /** What opens a block: a selector with its comma-separated pieces, or an at-rule's words. */
  datatype Head = SelectorHead(name: string, subSelectors: seq<string>) | AtBlockHead(parts: seq<string>)

  /** What a block, or the document, holds, in the order the parser met it. */
  datatype Element =
    | Declaration(property: string, values: seq<string>, line: nat)
    | Comment(text: string)
    | Line(at: AtLine)
    | Block(head: Head, children: seq<Element>)

  /** A block that is still open on the parser's stack, with the children it has so far. */
  datatype Frame = Frame(head: Head, children: seq<Element>)

  /**
   * `Fatal`: a method was called on `end($stack)` of an empty stack, which
   * throws. `Spins`: `nextParserInAtRule` met an escaped `:` or `{` and its
   * retry loop never ends.
   */
  datatype Halt = Running | Fatal | Spins

  /**
   * The block stack of `parse`: `rootOn` while the document itself is still
   * on it, and `open`, the blocks above it; an open block becomes a child of
   * the block below it when it is popped.
   */
  datatype Tree = Tree(root: seq<Element>, rootOn: bool, open: seq<Frame>)

  /**
   * Where `parse` is: the current state, the states to go back to (`$from`),
   * the bracket depth and the quote that ends the current string.
   */
  datatype Control = Control(status: Status, from: seq<Status>, bracketCount: int, stringEndsWith: string)

  /** The variables of `parse`. */
  datatype Scan = Scan(
    i: nat, line: nat, ctl: Control,
    tree: Tree,
    charset: string, namespaces: seq<string>, imports: seq<AtLine>,
    selector: string, separate: seq<nat>, property: string,
    subValue: string, subValues: seq<string>, functionName: string,
    currentString: string, quotedString: bool,
    log: Log, halt: Halt)

  /** The parsed document `parse` returns. */
  datatype Document = Document(charset: string, namespaces: seq<string>, imports: seq<AtLine>, elements: seq<Element>)

  /** A document and the log; the error `parse` throws; or a loop that never ends. */
  datatype Outcome = Parsed(doc: Document, log: Log) | Crashed(log: Log) | NeverEnds

  // ------------------------------------------------------------------ input

  /** str_replace of every `needle`, left to right, by `with`. */
  function ReplaceAll(s: string, needle: string, with: string): (r: string)
    requires |needle| > 0
    decreases |s|
  {
    if |s| < |needle| then s
    else if s[..|needle|] == needle then with + ReplaceAll(s[|needle|..], needle, with)
    else [s[0]] + ReplaceAll(s[1..], needle, with)
  }

  lemma {:induction false} ReplacedCharGone(s: string, c: char, with: string)
    requires c !in with
    ensures c !in ReplaceAll(s, [c], with)
    decreases |s|
  {
    if |s| >= 1 {
      ReplacedCharGone(s[1..], c, with);
    }
  }

  lemma {:induction false} ReplaceAbsent(s: string, c: char, rest: string, with: string)
    requires c !in s
    ensures ReplaceAll(s, [c] + rest, with) == s
    decreases |s|
  {
    if |s| >= |[c] + rest| {
      assert s[..|[c] + rest|][0] == s[0];
      ReplaceAbsent(s[1..], c, rest, with);
    }
  }

  /** The text `parse` scans: line breaks made `\n`, and a space appended. */
  function Normalized(input: string): string {
    ReplaceAll(ReplaceAll(input, "\r\n", "\n"), "\r", "\n") + " "
  }

  /**
   * The scanned text has no `\r` and ends with a space; text without `\r`
   * is only given its space.
   */
  lemma NormalizedInput(input: string)
    ensures '\r' !in Normalized(input)
    ensures |Normalized(input)| > 0 && Normalized(input)[|Normalized(input)| - 1] == ' '
    ensures '\r' !in input ==> Normalized(input) == input + " "
  {
    var once := ReplaceAll(input, "\r\n", "\n");
    ReplacedCharGone(once, '\r', "\n");
    if '\r' !in input {
      assert "\r\n" == ['\r'] + "\n";
      ReplaceAbsent(input, '\r', "\n", "\n");
      assert once == input;
      assert "\r" == ['\r'] + "";
      ReplaceAbsent(input, '\r', "", "\n");
    }
  }

  // ------------------------------------------------------------ block stack

  /** The children of `end($stack)`: the innermost open block, or the document. */
  function Top(t: Tree): seq<Element> {
    if |t.open| > 0 then t.open[|t.open| - 1].children else t.root
  }

  /** `!empty($parsed->elements)`: a block still open is already a child of the document. */
  predicate HasElements(t: Tree) {
    t.root != [] || |t.open| > 0
  }

  /** `end($stack)->add…($e)` while the document is on the stack: `e` joins the innermost open block. */
  function Append(t: Tree, e: Element): (r: Tree)
    ensures Top(r) == Top(t) + [e] && |r.open| == |t.open| && r.rootOn == t.rootOn
    ensures LowercasedTree(t) && Lowercased(e) ==> LowercasedTree(r)
  {
    if |t.open| > 0 then
      var top := t.open[|t.open| - 1];
      var r := t.(open := t.open[..|t.open| - 1] + [Frame(top.head, top.children + [e])]);
      assert r.open[|t.open| - 1].children == top.children + [e];
      r
    else t.(root := t.root + [e])
  }

  /** `array_pop($stack)` of an open block: it becomes the last child of the block below it. */
  function Close(t: Tree): (r: Tree)
    requires |t.open| > 0
    ensures |r.open| == |t.open| - 1 && r.rootOn == t.rootOn
    ensures Top(r) == Top(t.(open := t.open[..|t.open| - 1])) + [Block(t.open[|t.open| - 1].head, t.open[|t.open| - 1].children)]
    ensures LowercasedTree(t) ==> LowercasedTree(r)
  {
    var top := t.open[|t.open| - 1];
    Append(t.(open := t.open[..|t.open| - 1]), Block(top.head, top.children))
  }

  /** The open blocks closed one by one into the document, as they stand in the tree `parse` returns. */
  function Closed(t: Tree): (r: seq<Element>)
    ensures LowercasedTree(t) ==> AllLowercased(r)
    decreases |t.open|
  {
    if t.open == [] then t.root else Closed(Close(t))
  }

  /** `end($stack)->add…($e)`: with an empty stack the call throws. */
  function AddToTop(st: Scan, e: Element): (r: Scan)
    ensures r.i == st.i && r.line == st.line && r.ctl == st.ctl
    ensures st.tree.rootOn ==> r.tree == Append(st.tree, e) && r.halt == st.halt
    ensures !st.tree.rootOn ==> r.tree == st.tree && r.halt == Fatal
    ensures r.ctl == st.ctl && (TreeOk(st.tree) ==> TreeOk(r.tree))
  {
    if !st.tree.rootOn then st.(halt := Fatal) else st.(tree := Append(st.tree, e))
  }

  /** `$stack[] = end($stack)->addBlock(...)`: a new, empty block on top. */
  function Push(st: Scan, head: Head): (r: Scan)
    ensures r.i == st.i
    ensures st.tree.rootOn ==> r.tree == st.tree.(open := st.tree.open + [Frame(head, [])]) && r.halt == st.halt
    ensures !st.tree.rootOn ==> r.tree == st.tree && r.halt == Fatal
    ensures LowercasedTree(st.tree) ==> LowercasedTree(r.tree)
    ensures r.ctl == st.ctl && (TreeOk(st.tree) ==> TreeOk(r.tree))
  {
    if !st.tree.rootOn then st.(halt := Fatal) else st.(tree := st.tree.(open := st.tree.open + [Frame(head, [])]))
  }

  /** `array_pop($stack)`: the top block is closed; popping the document leaves the stack empty. */
  function Pop(st: Scan): (r: Scan)
    ensures r.i == st.i
    ensures |st.tree.open| > 0 ==> r.tree == Close(st.tree)
    ensures |st.tree.open| == 0 ==> r.tree == st.tree.(rootOn := false)
    ensures LowercasedTree(st.tree) ==> LowercasedTree(r.tree)
    ensures r.ctl == st.ctl && (TreeOk(st.tree) ==> TreeOk(r.tree))
  {
    if |st.tree.open| == 0 then st.(tree := st.tree.(rootOn := false)) else st.(tree := Close(st.tree))
  }

  // ------------------------------------------------------------ control

  /** `$status = next; $from[] = back;` */
  function Enter(c: Control, next: Status, back: Status): Control {
    c.(status := next, from := c.from + [back])
  }

  /** `$status = array_pop($from)`: an empty `from` gives null, which no case matches. */
  function Back(c: Control): Control {
    if |c.from| == 0 then c.(status := Lost)
    else c.(status := c.from[|c.from| - 1], from := c.from[..|c.from| - 1])
  }

  /** A bare `array_pop($from)`: the state on top of `from` is dropped. */
  function Dropped(c: Control): Control {
    if |c.from| == 0 then c else c.(from := c.from[..|c.from| - 1])
  }

  /** `$status = array_pop($from)` on the variables. */
  function PopFrom(st: Scan): (r: Scan)
    ensures r.i == st.i && r.tree == st.tree
  {
    st.(ctl := Back(st.ctl))
  }

  // ------------------------------------------------------------ invariants

  /** Every declaration, at any depth, has a property name without capitals. */
  predicate Lowercased(e: Element)
    decreases e
  {
    match e
    case Declaration(p, _, _) => Lower(p) == p
    case Block(_, children) => forall k :: 0 <= k < |children| ==> Lowercased(children[k])
    case _ => true
  }

  predicate AllLowercased(es: seq<Element>) {
    forall k :: 0 <= k < |es| ==> Lowercased(es[k])
  }

  predicate LowercasedTree(t: Tree) {
    AllLowercased(t.root) && forall k :: 0 <= k < |t.open| ==> AllLowercased(t.open[k].children)
  }

  /**
   * What the states of `parse` keep true of its variables: a bracket is
   * open at depth at least 1 and knows where to return; a string knows its
   * closing quote and the state to return to; `from` holds only states that
   * push themselves, and a bracket state only directly under a string begun
   * inside it; the document leaves the stack last.
   */
  predicate ControlOk(c: Control) {
    && (c.status == InBracket ==> c.bracketCount >= 1 && |c.from| > 0)
    && (c.status == InString ==> |c.from| > 0 && (c.stringEndsWith == "\"" || c.stringEndsWith == "'"))
    && (forall k :: 0 <= k < |c.from| ==> c.from[k] != InString && c.from[k] != Lost)
    && (forall k :: 0 <= k < |c.from| && c.from[k] == InBracket ==>
          0 < k == |c.from| - 1 && c.status == InString && c.bracketCount >= 1)
  }

  /** The document leaves the stack last. */
  predicate TreeOk(t: Tree) {
    !t.rootOn ==> t.open == []
  }

  predicate Consistent(st: Scan) {
    ControlOk(st.ctl) && TreeOk(st.tree)
  }

  lemma LowerIsLowercase(p: string)
    ensures Lower(Lower(p)) == Lower(p)
  {
    LowerOfLower(Lower(p));
  }

  // ------------------------------------------------------------ scanning aids

  /** The text `parse` scans: it ends with the space that was appended, and `i` is in it. */
  predicate Ready(s: string, st: Scan) {
    0 < |s| && s[|s| - 1] == ' ' && st.i < |s|
  }

  /** `strcspn($s, tokens . whitespace, $i)`: how many characters from `i` are neither. */
  function Span(s: string, i: nat): (n: nat)
    requires i <= |s|
    ensures i + n <= |s|
    ensures forall k :: i <= k < i + n ==> s[k] !in TokensList && s[k] !in Whitespace
    ensures i + n < |s| ==> s[i + n] in TokensList || s[i + n] in Whitespace
    decreases |s| - i
  {
    if i == |s| || s[i] in TokensList || s[i] in Whitespace then 0 else 1 + Span(s, i + 1)
  }

  predicate EndsWith(x: string, c: char) {
    |x| > 0 && x[|x| - 1] == c
  }

  /** `trim($x, Parser::$whitespace)` */
  function TrimWhitespace(x: string): string {
    TrimOf(x, Whitespace)
  }

  /** `unicode($string, $i)` as the parser calls it: seven characters at most, as written. */
  function EscapeAt(env: Env, s: string, st: Scan): (e: Escape)
    requires st.i < |s|
    ensures st.i <= e.i < |s|
  {
    UnicodeEscape(s, st.i, ParserEscapeLimit, env.cfg.removeBackSlash, st.line)
  }

  /** `end($stack)->addComment(new Comment($this->parseComment($string, $i)))` */
  function WithComment(s: string, st: Scan): (r: Scan)
    requires st.i + 2 <= |s|
    ensures st.i <= r.i <= |s|
    ensures st.tree.rootOn ==> Top(r.tree) == Top(st.tree) + [Comment(ParseComment(s, st.i).text)]
    ensures st.tree.rootOn ==> r.line == st.line + ParseComment(s, st.i).newlines
    ensures r.ctl == st.ctl && (TreeOk(st.tree) ==> TreeOk(r.tree))
  {
    var c := ParseComment(s, st.i);
    AddToTop(st.(i := c.next, line := st.line + c.newlines), Comment(c.text))
  }

  /** Enter a string at the quote `c`, to return to `back`. */
  function OpenString(st: Scan, c: char, back: Status): Scan {
    st.(ctl := Enter(st.ctl, InString, back).(stringEndsWith := [c]), currentString := [c])
  }

  /** The trimmed text so far becomes a part of the value. */
  function FlushValue(st: Scan): (r: Scan)
    ensures r == st.(subValue := r.subValue, subValues := r.subValues)
  {
    var t := TrimWhitespace(st.subValue);
    if t != "" then st.(subValues := st.subValues + [t], subValue := "") else st
  }

  // ------------------------------------------------------------ the states

  /** Case 'is': reading a selector. */
  function SelectorStep(env: Env, s: string, st: Scan): (r: Scan)
    requires Ready(s, st)
    ensures st.i <= r.i <= |s|
    ensures LowercasedTree(st.tree) ==> LowercasedTree(r.tree)
  {
    if IsToken(s, st.i) then SelectorToken(env, s, st)
    else
      var i := st.i;
      var last := Span(s, i);
      if last != 0 then st.(selector := st.selector + s[i..i + last], i := i + last - 1)
      else if st.selector == "" || !(EndsWith(st.selector, ',') || IsSpace(st.selector[|st.selector| - 1])) then
        st.(selector := st.selector + [s[i]])
      else st
  }

  /** A token in a selector: `{` opens the block, `,` records a piece, `@` starts an at-rule. */
  function SelectorToken(env: Env, s: string, st: Scan): (r: Scan)
    requires Ready(s, st)
    ensures st.i <= r.i <= |s|
    ensures LowercasedTree(st.tree) ==> LowercasedTree(r.tree)
  {
    var i := st.i;
    var c := s[i];
    if c == '{' then
      var name := Trim(st.selector);
      Push(st.(ctl := Enter(st.ctl, InProperty, InSelector), selector := name, separate := []),
        SelectorHead(name, Fragments(name, st.separate)))
    else if c == ',' then
      var sel := Trim(st.selector) + ",";
      st.(selector := sel, separate := st.separate + [|sel|])
    else if c == '/' && s[i + 1] == '*' then WithComment(s, st)
    else if c == '@' && Trim(st.selector) == "" then st.(ctl := st.ctl.(status := InAt))
    else SelectorOther(env, s, st)
  }

  /** The other tokens in a selector: a quote, `}`, a backslash, a redundant `*`. */
  function SelectorOther(env: Env, s: string, st: Scan): (r: Scan)
    requires Ready(s, st)
    ensures st.i <= r.i <= |s|
    ensures LowercasedTree(st.tree) ==> LowercasedTree(r.tree)
  {
    var i := st.i;
    var c := s[i];
    if c == '"' || c == '\'' then
      OpenString(st, c, InSelector).(quotedString := i > 0 && s[i - 1] == '=')
    else if c == '}' then Pop(st).(selector := "")
    else if c == '\\' then
      var e := EscapeAt(env, s, st);
      st.(selector := st.selector + e.add, i := e.i, log := st.log + e.log)
    else if c == '*' && i + 1 < |s| && s[i + 1] in {'.', '#', '[', ':'} then st
    else st.(selector := st.selector + [c])
  }

  /** Case 'ip': reading a property name. */
  function PropertyStep(env: Env, s: string, st: Scan): (r: Scan)
    requires Ready(s, st)
    ensures st.i <= r.i <= |s|
    ensures LowercasedTree(st.tree) ==> LowercasedTree(r.tree)
  {
    if IsToken(s, st.i) then PropertyToken(env, s, st)
    else
      var i := st.i;
      var last := Span(s, i);
      if last != 0 then st.(property := st.property + s[i..i + last], i := i + last - 1)
      else if !IsSpace(s[i]) then st.(property := st.property + [s[i]])
      else st
  }

  /** A token in a property name: `:` or `=` after a name starts the value, `}` closes the block. */
  function PropertyToken(env: Env, s: string, st: Scan): (r: Scan)
    requires Ready(s, st)
    ensures st.i <= r.i <= |s|
    ensures LowercasedTree(st.tree) ==> LowercasedTree(r.tree)
  {
    var i := st.i;
    var c := s[i];
    if (c == ':' || c == '=') && st.property != "" then st.(ctl := Enter(st.ctl, InValue, InProperty))
    else if c == '}' then PopFrom(Pop(st)).(selector := "", property := "")
    else if c == '@' then st.(ctl := st.ctl.(status := InAt))
    else if c == '/' && s[i + 1] == '*' then WithComment(s, st)
    else if c == ';' then st.(property := "")
    else if c == '\\' then
      var e := EscapeAt(env, s, st);
      st.(property := st.property + e.add, i := e.i, log := st.log + e.log)
    else if st.property == "" && !IsSpace(c) then st.(property := [c])
    else st
  }

  /**
   * The end of a declaration: the property is lowercased and, unless it is
   * invalid and invalid ones are discarded, added to the current block.
   */
  function Commit(env: Env, st: Scan): (r: Scan)
    ensures r.property == "" && r.subValues == []
    ensures r.ctl == st.ctl && r.i == st.i && r.line == st.line
    ensures var p := Lower(st.property);
      var valid := PropertyIsValid(env.table, TrimRight(p), env.cfg.cssLevel);
      && (valid || !env.cfg.discardInvalidProperties ==>
            (st.tree.rootOn ==> Top(r.tree) == Top(st.tree) + [Declaration(p, FlushValue(st).subValues, st.line)]))
      && (!valid && env.cfg.discardInvalidProperties ==> r.tree == st.tree)
      && r.log == st.log + (if valid then []
                            else if env.cfg.discardInvalidProperties then [Entry(RemovedInvalidProperty(p), Warning, st.line)]
                            else [Entry(InvalidProperty(env.cfg.cssLevel, p), Warning, st.line)])
    ensures LowercasedTree(st.tree) ==> LowercasedTree(r.tree)
  {
    var p := Lower(st.property);
    LowerIsLowercase(st.property);
    var valid := PropertyIsValid(env.table, TrimRight(p), env.cfg.cssLevel);
    var extra := if valid then []
                 else if env.cfg.discardInvalidProperties then [Entry(RemovedInvalidProperty(p), Warning, st.line)]
                 else [Entry(InvalidProperty(env.cfg.cssLevel, p), Warning, st.line)];
    Committed(FlushValue(st), p, valid || !env.cfg.discardInvalidProperties, extra)
  }

  /** The declaration `p` with the value's parts joins the current block when `keep`; `extra` is logged. */
  function Committed(st: Scan, p: string, keep: bool, extra: Log): (r: Scan)
    ensures r.property == "" && r.subValues == []
    ensures r.ctl == st.ctl && r.i == st.i && r.line == st.line
    ensures r.log == st.log + extra
    ensures keep && st.tree.rootOn ==> Top(r.tree) == Top(st.tree) + [Declaration(p, st.subValues, st.line)]
    ensures !keep ==> r.tree == st.tree
    ensures LowercasedTree(st.tree) && Lower(p) == p ==> LowercasedTree(r.tree)
  {
    var b := if keep then AddToTop(st, Declaration(p, st.subValues, st.line)) else st;
    b.(property := "", subValues := [], log := st.log + extra)
  }

  /** The token actions of case 'iv', before the declaration is committed. */
  function ValueToken(env: Env, s: string, st: Scan, pn: bool): (r: Scan)
    requires Ready(s, st)
    ensures st.i <= r.i <= |s|
    ensures LowercasedTree(st.tree) ==> LowercasedTree(r.tree)
  {
    var i := st.i;
    var c := s[i];
    if c == '/' && i + 1 < |s| && s[i + 1] == '*' then WithComment(s, st)
    else if c == '"' || c == '\'' then OpenString(st, c, InValue)
    else if c == '(' then
      st.(functionName := st.subValue, subValue := st.subValue + "(",
          ctl := Enter(st.ctl, InBracket, InValue).(bracketCount := 1))
    else if c == ',' || c == '!' then
      var a := FlushValue(st);
      a.(subValues := a.subValues + [[c]])
    else ValueOther(env, s, st, pn)
  }

  /** The rest of the token actions of case 'iv': a backslash, the end of the declaration, other text. */
  function ValueOther(env: Env, s: string, st: Scan, pn: bool): (r: Scan)
    requires Ready(s, st)
    ensures st.i <= r.i <= |s|
    ensures r.tree == st.tree
  {
    var c := s[st.i];
    if c == '\\' then
      var e := EscapeAt(env, s, st);
      st.(subValue := st.subValue + e.add, i := e.i, log := st.log + e.log)
    else if c == ';' || pn then PopFrom(st)
    else if c != '}' then st.(subValue := st.subValue + [c])
    else st
  }

  /** Case 'iv': reading a value. */
  function ValueStep(env: Env, s: string, st: Scan): (r: Scan)
    requires Ready(s, st)
    ensures st.i <= r.i <= |s|
    ensures LowercasedTree(st.tree) ==> LowercasedTree(r.tree)
    ensures st.ctl.status == InValue && Consistent(st) ==> Consistent(r)
  {
    var i := st.i;
    var c := s[i];
    var next := c == '\n' && PropertyIsNext(env.table, s, i + 1);
    var pn := next || i == |s| - 1;
    var a := if next then st.(log := st.log + [Entry(AddedSemicolon, Warning, st.line)]) else st;
    if IsToken(s, i) || pn then
      ValueEndKeepsConsistent(env, s, a, pn);
      ValueEnd(env, s, a, pn)
    else
      var last := Span(s, i);
      if last != 0 then a.(subValue := a.subValue + s[i..i + last], i := i + last - 1)
      else if IsSpace(c) then FlushValue(a)
      else a.(subValue := a.subValue + [c])
  }

  /**
   * A token in a value, or its end: after the token's action, `}`, `;` or
   * the end of the declaration commits it when a selector is open, and `}`
   * closes the block and returns two states back.
   */
  function ValueEnd(env: Env, s: string, st: Scan, pn: bool): (r: Scan)
    requires Ready(s, st)
    ensures st.i <= r.i <= |s|
    ensures LowercasedTree(st.tree) ==> LowercasedTree(r.tree)
  {
    var c := s[st.i];
    var a := ValueToken(env, s, st, pn);
    var b := if (c == '}' || c == ';' || pn) && !Empty(a.selector) then Commit(env, a) else a;
    if c == '}' then
      var d := Pop(b);
      d.(ctl := Back(Dropped(d.ctl)), selector := "")
    else b
  }

  /** Characters that matter inside brackets. */
  const BracketSpecials: set<char> := {'"', '\'', '(', ')', ' ', ',', '\n'} + Whitespace

  /** Case 'inbrck': inside parentheses of a value or an at-rule. */
  function BracketStep(s: string, st: Scan): (r: Scan)
    requires Ready(s, st)
    ensures r.i == st.i
    ensures LowercasedTree(st.tree) ==> LowercasedTree(r.tree)
  {
    var i := st.i;
    var c := s[i];
    if c in BracketSpecials && !Escaped(s, i) then
      if c == '"' || c == '\'' then
        OpenString(st, c, InBracket).(quotedString := st.functionName == "format")
      else
        var a := if c == '(' then st.(ctl := st.ctl.(bracketCount := st.ctl.bracketCount + 1))
                 else if c == ')' then
                   (if st.ctl.bracketCount - 1 == 0 then st.(ctl := Back(st.ctl.(bracketCount := 0)), functionName := "")
                    else st.(ctl := st.ctl.(bracketCount := st.ctl.bracketCount - 1)))
                 else st;
        var cur := if c == '\n' then ' ' else c;
        if cur in Whitespace && (EndsWith(a.subValue, ' ') || EndsWith(a.subValue, ',') || EndsWith(a.subValue, '(')) then a
        else
          var v := if (cur == ',' || cur == ')') && EndsWith(a.subValue, ' ') then a.subValue[..|a.subValue| - 1] else a.subValue;
          a.(subValue := v + [cur])
    else st.(subValue := st.subValue + [c])
  }

  /** Case 'instr': inside a quoted string. */
  function StringStep(s: string, st: Scan): (r: Scan)
    requires Ready(s, st)
    ensures r.i == st.i
    ensures LowercasedTree(st.tree) ==> LowercasedTree(r.tree)
  {
    var i := st.i;
    var c := s[i];
    var fixed := c == '\n' && !(i > 0 && s[i - 1] == '\\' && !Escaped(s, i - 1));
    var cur := if fixed then "\\A " else [c];
    var a := st.(currentString := st.currentString + cur,
                 log := if fixed then st.log + [Entry(FixedNewlineInString, Warning, st.line)] else st.log);
    if cur == st.ctl.stringEndsWith && !Escaped(s, i) then
      var b := PopFrom(a);
      var text := if st.property != "content" && st.property != "quotes" && !st.quotedString
                  then RemoveQuotes(a.currentString) else NormalizeQuotes(a.currentString);
      var d := if b.ctl.status == InSelector then b.(selector := b.selector + text) else b.(subValue := b.subValue + text);
      d.(currentString := text, quotedString := false)
    else a
  }

  /**
   * `processAtRule`: `@charset`, `@namespace` and `@import` go to the
   * document; any other one-line at-rule joins the current block.
   */
  function ProcessAtRule(parts: seq<string>, st: Scan): (r: Scan)
    requires |parts| > 0
    ensures r.i == st.i && r.line == st.line && r.ctl == st.ctl
    ensures LowercasedTree(st.tree) ==> LowercasedTree(r.tree)
  {
    var rule := Lower(parts[0]);
    var rest := parts[1..];
    if rule == "charset" then
      if !st.tree.rootOn then st
      else
        var redefined := if !Empty(st.charset) then [Entry(CharsetRedefined, Warning, st.line)] else [];
        var late := if HasElements(st.tree) || st.imports != [] || st.namespaces != [] then [Entry(CharsetNotFirst, Warning, st.line)] else [];
        st.(charset := if |rest| > 0 then rest[0] else "", log := st.log + redefined + late)
    else if rule == "namespace" then
      if !st.tree.rootOn then st
      else
        var words := if |rest| >= 2 then [" " + rest[0]] + rest[1..] else rest;
        st.(namespaces := st.namespaces + [Join(" ", words)],
            log := st.log + if HasElements(st.tree) then [Entry(NamespaceAfterSelectors, Warning, st.line)] else [])
    else if rule == "import" then
      if !st.tree.rootOn then st
      else
        st.(imports := st.imports + [AtLine(rule, rest)],
            log := st.log + if HasElements(st.tree) then [Entry(ImportAfterSelectors, Warning, st.line)]
                            else if |st.tree.open| >= 1 then [Entry(ImportInsideMedia, Warning, st.line)] else [])
    else AddToTop(st, Line(AtLine(rule, rest)))
  }

  /** Case 'at': reading the words of an at-rule. */
  function AtStep(env: Env, s: string, st: Scan): (r: Scan)
    requires Ready(s, st)
    ensures st.i <= r.i <= |s|
    ensures LowercasedTree(st.tree) ==> LowercasedTree(r.tree)
  {
    var c := s[st.i];
    if IsToken(s, st.i) then AtToken(env, s, st)
    else if IsSpace(c) then
      if Trim(st.subValue) != "" then st.(subValues := st.subValues + [st.subValue], subValue := "") else st
    else st.(subValue := st.subValue + [c])
  }

  /** A token in an at-rule: a string, a bracket, the end `;`, a `,`, or the block's `{`. */
  function AtToken(env: Env, s: string, st: Scan): (r: Scan)
    requires Ready(s, st)
    ensures st.i <= r.i <= |s|
    ensures LowercasedTree(st.tree) ==> LowercasedTree(r.tree)
  {
    var i := st.i;
    var c := s[i];
    if c == '"' || c == '\'' then OpenString(st, c, InAt).(quotedString := true)
    else if c == '(' then
      st.(subValue := st.subValue + "(", ctl := Enter(st.ctl, InBracket, InAt).(bracketCount := 1))
    else if c == ';' then
      var q := ProcessAtRule(st.subValues + [st.subValue], st);
      q.(subValues := [], subValue := "", ctl := q.ctl.(status := InSelector))
    else if c == ',' then st.(subValues := st.subValues + [st.subValue, ","], subValue := "")
    else if c == '{' then OpenAtBlock(s, st)
    else if c == '/' && s[i + 1] == '*' then WithComment(s, st)
    else if c == '\\' then
      var e := EscapeAt(env, s, st);
      st.(subValue := st.subValue + e.add, i := e.i, log := st.log + e.log)
    else st.(subValue := st.subValue + [c])
  }

  /**
   * `{` after an at-rule's words opens an at-block holding them; the
   * look-ahead decides whether it holds declarations or rule sets.
   */
  function OpenAtBlock(s: string, st: Scan): (r: Scan)
    requires st.i < |s|
    ensures r.i == st.i
    ensures LowercasedTree(st.tree) ==> LowercasedTree(r.tree)
  {
    var parts := if Trim(st.subValue) != "" then st.subValues + [st.subValue] else st.subValues;
    if !LookaheadEnds(s, st.i) then st.(halt := Spins)
    else
      var next := NextParserInAtRule(s, st.i);
      Push(st.(ctl := Enter(st.ctl, next, InSelector), selector := if next == InProperty then " " else st.selector,
               subValues := [], subValue := ""),
        AtBlockHead(parts))
  }

  // ------------------------------------------------------------ the loop

  /** One pass of the loop of `parse`: count the line, run the current state, move on. */
  function Step(env: Env, s: string, st: Scan): (r: Scan)
    requires Ready(s, st)
    ensures st.i < r.i <= |s| + 1
    ensures LowercasedTree(st.tree) ==> LowercasedTree(r.tree)
    ensures Consistent(st) ==> Consistent(r)
  {
    var a := if s[st.i] == '\n' then st.(line := st.line + 1) else st;
    DispatchKeepsConsistent(env, s, a);
    var b := Dispatch(env, s, a);
    b.(i := b.i + 1)
  }

  /** The `switch ($status)` of the loop. */
  function Dispatch(env: Env, s: string, st: Scan): (r: Scan)
    requires Ready(s, st)
    ensures st.i <= r.i <= |s|
    ensures LowercasedTree(st.tree) ==> LowercasedTree(r.tree)
  {
    match st.ctl.status
    case InSelector => SelectorStep(env, s, st)
    case InProperty => PropertyStep(env, s, st)
    case InValue => ValueStep(env, s, st)
    case InBracket => BracketStep(s, st)
    case InString => StringStep(s, st)
    case InAt => AtStep(env, s, st)
    case Lost => st
  }

  /** The variables of `parse` before the first character. */
  const Start: Scan := Scan(
    0, 1, Control(InSelector, [], 0, ""), Tree([], true, []), "", [], [], "", [], "", "", [], "", "", false, [], Running)

  /** The loop from `st` to the end of the text, or until it throws or spins. */
  function Run(env: Env, s: string, st: Scan): (r: Scan)
    requires 0 < |s| && s[|s| - 1] == ' ' && st.i <= |s| + 1
    ensures r.halt != Running || r.i >= |s|
    decreases |s| + 1 - st.i
  {
    if st.halt != Running || st.i >= |s| then st else Run(env, s, Step(env, s, st))
  }

  /** What `parse` gives back for the final variables. */
  function Finish(st: Scan): Outcome {
    match st.halt
    case Running => Parsed(Document(st.charset, st.namespaces, st.imports, Closed(st.tree)), st.log)
    case Fatal => Crashed(st.log)
    case Spins => NeverEnds
  }

  /** `parse($string)` */
  function ParseOutcome(cfg: Config, input: string): Outcome {
    var s := Normalized(input);
    NormalizedInput(input);
    Finish(Run(Env(cfg, Properties.AllProperties), s, Start))
  }

  /**
   * `parse`: the loop over the characters. Every declaration in the
   * document it returns has a lowercase property name.
   */
  method Parse(cfg: Config, input: string) returns (out: Outcome)
    ensures out == ParseOutcome(cfg, input)
    ensures out.Parsed? ==> AllLowercased(out.doc.elements)
  {
    var s := Normalized(input);
    NormalizedInput(input);
    var env := Env(cfg, Properties.AllProperties);
    var st := Start;
    while st.halt == Running && st.i < |s|
      invariant st.i <= |s| + 1
      invariant Run(env, s, st) == Run(env, s, Start)
      invariant LowercasedTree(st.tree) && Consistent(st)
      decreases |s| + 1 - st.i
    {
      st := Step(env, s, st);
    }
    out := Finish(st);
  }

  // ------------------------------------------------------------ properties

  /** A newline in a string not escaped by a backslash is written `\A ` and logged. */
  lemma NewlineInString(env: Env, s: string, st: Scan)
    requires Ready(s, st) && st.ctl.status == InString && Consistent(st)
    requires s[st.i] == '\n' && !(st.i > 0 && s[st.i - 1] == '\\' && !Escaped(s, st.i - 1))
    ensures var r := Step(env, s, st);
      && r.ctl.status == InString && r.ctl.from == st.ctl.from
      && r.currentString == st.currentString + "\\A "
      && r.line == st.line + 1
      && r.log == st.log + [Entry(FixedNewlineInString, Warning, st.line + 1)]
  {
  }

  /** The string ends exactly at its own unescaped quote, and `parse` goes back to where it began. */
  lemma StringCloses(env: Env, s: string, st: Scan)
    requires Ready(s, st) && st.ctl.status == InString && Consistent(st)
    ensures var r := Step(env, s, st);
      && (r.ctl.status != InString <==> [s[st.i]] == st.ctl.stringEndsWith && !Escaped(s, st.i))
      && (r.ctl.status != InString ==> r.ctl.status == st.ctl.from[|st.ctl.from| - 1] && r.ctl.from == st.ctl.from[..|st.ctl.from| - 1])
  {
  }

  /** `(` in a value enters the bracket state at depth 1, to come back to the value. */
  lemma EnteringBracket(env: Env, s: string, st: Scan)
    requires Ready(s, st) && st.ctl.status == InValue && s[st.i] == '(' && IsToken(s, st.i)
    ensures var r := Step(env, s, st);
      r.ctl.status == InBracket && r.ctl.bracketCount == 1 && r.ctl.from == st.ctl.from + [InValue] && r.functionName == st.subValue
  {
    StepInValue(env, s, st);
    ValueStepAtToken(env, s, st);
    ValueEndOpensBracket(env, s, st);
  }

  /** Away from a newline, a pass of the loop in the value state is the value case. */
  lemma StepInValue(env: Env, s: string, st: Scan)
    requires Ready(s, st) && st.ctl.status == InValue && s[st.i] != '\n'
    ensures Step(env, s, st).ctl == ValueStep(env, s, st).ctl
    ensures Step(env, s, st).functionName == ValueStep(env, s, st).functionName
  {
  }

  /** A token other than a newline, before the last character, goes to the token actions of the value case. */
  lemma ValueStepAtToken(env: Env, s: string, st: Scan)
    requires Ready(s, st) && s[st.i] != '\n' && s[st.i] != ' ' && IsToken(s, st.i)
    ensures ValueStep(env, s, st).ctl == ValueEnd(env, s, st, false).ctl
    ensures ValueStep(env, s, st).functionName == ValueEnd(env, s, st, false).functionName
  {
    assert st.i != |s| - 1;
  }

  /** `(` in a value remembers the function name and opens a bracket at depth 1. */
  lemma ValueEndOpensBracket(env: Env, s: string, st: Scan)
    requires Ready(s, st) && s[st.i] == '('
    ensures ValueEnd(env, s, st, false).ctl == Enter(st.ctl, InBracket, InValue).(bracketCount := 1)
    ensures ValueEnd(env, s, st, false).functionName == st.subValue
  {
    var v := ValueToken(env, s, st, false);
    assert v.ctl == Enter(st.ctl, InBracket, InValue).(bracketCount := 1) && v.functionName == st.subValue;
  }

  /** An unescaped `(` inside brackets goes one level deeper. */
  lemma BracketNests(env: Env, s: string, st: Scan)
    requires Ready(s, st) && st.ctl.status == InBracket && s[st.i] == '(' && !Escaped(s, st.i)
    ensures var r := Step(env, s, st);
      r.ctl.status == InBracket && r.ctl.bracketCount == st.ctl.bracketCount + 1 && r.ctl.from == st.ctl.from
  {
    assert BracketStep(s, st).ctl == st.ctl.(bracketCount := st.ctl.bracketCount + 1);
  }

  /**
   * An unescaped `)` goes one level up, and the bracket state
   * is left exactly when the depth reaches 0, for the state it was entered from.
   */
  lemma BracketCloses(env: Env, s: string, st: Scan)
    requires Ready(s, st) && st.ctl.status == InBracket && Consistent(st)
    requires s[st.i] == ')' && !Escaped(s, st.i)
    ensures var r := Step(env, s, st);
      && (r.ctl.status == InBracket <==> st.ctl.bracketCount > 1)
      && (st.ctl.bracketCount > 1 ==> r.ctl.bracketCount == st.ctl.bracketCount - 1 && r.ctl.from == st.ctl.from)
      && (st.ctl.bracketCount == 1 ==>
            r.ctl.bracketCount == 0 && r.ctl.status == st.ctl.from[|st.ctl.from| - 1] && r.ctl.from == st.ctl.from[..|st.ctl.from| - 1])
  {
    CloseBracketKeepsControl(st.ctl);
    if st.ctl.bracketCount == 1 {
      assert BracketStep(s, st).ctl == Back(st.ctl.(bracketCount := 0));
    } else {
      assert BracketStep(s, st).ctl == st.ctl.(bracketCount := st.ctl.bracketCount - 1);
    }
  }

  /**
   * `;` ends a declaration inside a selector: its property is
   * lowercased and joins the current block unless it is invalid and invalid
   * properties are discarded, and the value's state returns to the property.
   */
  lemma SemicolonCommits(env: Env, s: string, st: Scan)
    requires Ready(s, st) && st.ctl.status == InValue && s[st.i] == ';' && IsToken(s, st.i)
    requires !Empty(st.selector) && st.tree.rootOn && |st.ctl.from| > 0
    ensures var r := Step(env, s, st);
      var p := Lower(st.property);
      var valid := PropertyIsValid(env.table, TrimRight(p), env.cfg.cssLevel);
      && r.ctl.status == st.ctl.from[|st.ctl.from| - 1] && r.property == "" && r.subValues == []
      && (valid || !env.cfg.discardInvalidProperties ==>
            Top(r.tree) == Top(st.tree) + [Declaration(p, FlushValue(st).subValues, st.line)])
      && (!valid && env.cfg.discardInvalidProperties ==> r.tree == st.tree)
  {
    var a := PopFrom(st);
    assert ValueToken(env, s, st, false).ctl == a.ctl;
    assert ValueToken(env, s, st, false).tree == a.tree;
    var b := Commit(env, a);
    var v := ValueStep(env, s, st);
    assert v.ctl == b.ctl && v.tree == b.tree && v.property == b.property && v.subValues == b.subValues;
    assert FlushValue(a).subValues == FlushValue(st).subValues;
  }

  /** A later `@charset` replaces the first one and is logged as redefined. */
  lemma CharsetRedefinition(parts: seq<string>, st: Scan)
    requires |parts| >= 2 && Lower(parts[0]) == "charset" && st.tree.rootOn && !Empty(st.charset)
    ensures var r := ProcessAtRule(parts, st);
      r.charset == parts[1] && |r.log| > |st.log| && r.log[|st.log|] == Entry(CharsetRedefined, Warning, st.line)
  {
  }

  /** An at-rule other than `@charset`, `@namespace` and `@import` joins the current block as a line. */
  lemma UnknownAtRuleIsLine(parts: seq<string>, st: Scan)
    requires |parts| > 0 && Lower(parts[0]) !in {"charset", "namespace", "import"} && st.tree.rootOn
    ensures var r := ProcessAtRule(parts, st);
      Top(r.tree) == Top(st.tree) + [Line(AtLine(Lower(parts[0]), parts[1..]))] && r.charset == st.charset
  {
  }

  // ------------------------------------------------------------ the states keep `Consistent`

  /** Entering a state that does not push itself, from one that is not a string. */
  lemma EnterKeepsControl(c: Control, next: Status, back: Status)
    requires ControlOk(c) && c.status != InString
    requires next != InString && next != InBracket && back != InString && back != InBracket && back != Lost
    ensures ControlOk(Enter(c, next, back))
  {
  }

  /** `(` opens a bracket at depth 1. */
  lemma EnterBracketKeepsControl(c: Control, back: Status)
    requires ControlOk(c) && c.status != InString && back != InString && back != InBracket && back != Lost
    ensures ControlOk(Enter(c, InBracket, back).(bracketCount := 1))
  {
  }

  /** A quote opens a string, remembering the state it was met in. */
  lemma EnterStringKeepsControl(c: Control, back: Status, q: char)
    requires ControlOk(c) && c.status == back && back != InString && back != Lost && (q == '"' || q == '\'')
    ensures ControlOk(Enter(c, InString, back).(stringEndsWith := [q]))
  {
    var d := Enter(c, InString, back).(stringEndsWith := [q]);
    assert forall k :: 0 <= k < |c.from| ==> d.from[k] == c.from[k];
  }

  /** Going back to the state on top of `from`. */
  lemma BackKeepsControl(c: Control)
    requires ControlOk(c)
    ensures ControlOk(Back(c))
  {
  }

  /** The last `)` leaves the bracket for the state it was entered from, which is not a bracket. */
  lemma CloseBracketKeepsControl(c: Control)
    requires ControlOk(c) && c.status == InBracket
    ensures ControlOk(Back(c.(bracketCount := 0)))
    ensures Back(c.(bracketCount := 0)).status != InBracket
  {
  }

  /** `}` in a value drops the property's state and goes back to the one before it. */
  lemma CloseValueKeepsControl(c: Control)
    requires ControlOk(c) && c.status == InValue
    ensures ControlOk(Back(Dropped(c)))
  {
  }

  lemma SelectorKeepsConsistent(env: Env, s: string, st: Scan)
    requires Ready(s, st) && st.ctl.status == InSelector && Consistent(st)
    ensures Consistent(SelectorStep(env, s, st))
  {
    if IsToken(s, st.i) {
      SelectorTokenKeepsConsistent(env, s, st);
    }
  }

  lemma SelectorTokenKeepsConsistent(env: Env, s: string, st: Scan)
    requires Ready(s, st) && st.ctl.status == InSelector && Consistent(st)
    ensures Consistent(SelectorToken(env, s, st))
  {
    var c := s[st.i];
    if c == '{' {
      EnterKeepsControl(st.ctl, InProperty, InSelector);
    } else if c == '"' || c == '\'' {
      EnterStringKeepsControl(st.ctl, InSelector, c);
    }
  }

  lemma PropertyKeepsConsistent(env: Env, s: string, st: Scan)
    requires Ready(s, st) && st.ctl.status == InProperty && Consistent(st)
    ensures Consistent(PropertyStep(env, s, st))
  {
    EnterKeepsControl(st.ctl, InValue, InProperty);
    BackKeepsControl(st.ctl);
  }

  lemma ValueTokenKeepsConsistent(env: Env, s: string, st: Scan, pn: bool)
    requires Ready(s, st) && st.ctl.status == InValue && Consistent(st)
    ensures Consistent(ValueToken(env, s, st, pn))
    ensures s[st.i] == '}' && !pn ==> ValueToken(env, s, st, pn).ctl == st.ctl
  {
    var c := s[st.i];
    if c == '"' || c == '\'' {
      EnterStringKeepsControl(st.ctl, InValue, c);
    } else if c == '(' {
      EnterBracketKeepsControl(st.ctl, InValue);
    } else {
      BackKeepsControl(st.ctl);
    }
  }

  lemma ValueEndKeepsConsistent(env: Env, s: string, st: Scan, pn: bool)
    requires Ready(s, st) && (s[st.i] == '}' ==> !pn)
    ensures st.ctl.status == InValue && Consistent(st) ==> Consistent(ValueEnd(env, s, st, pn))
  {
    if st.ctl.status != InValue || !Consistent(st) {
      return;
    }
    ValueTokenKeepsConsistent(env, s, st, pn);
    if s[st.i] == '}' {
      CloseValueKeepsControl(st.ctl);
    }
  }

  lemma BracketKeepsConsistent(s: string, st: Scan)
    requires Ready(s, st) && st.ctl.status == InBracket && Consistent(st)
    ensures Consistent(BracketStep(s, st))
  {
    var c := s[st.i];
    var r := BracketStep(s, st);
    assert r.tree == st.tree;
    if c in BracketSpecials && !Escaped(s, st.i) {
      if c == '"' || c == '\'' {
        EnterStringKeepsControl(st.ctl, InBracket, c);
        assert r.ctl == Enter(st.ctl, InString, InBracket).(stringEndsWith := [c]);
      } else if c == ')' && st.ctl.bracketCount == 1 {
        CloseBracketKeepsControl(st.ctl);
        assert r.ctl == Back(st.ctl.(bracketCount := 0));
      } else {
        assert r.ctl.status == InBracket && r.ctl.from == st.ctl.from && r.ctl.bracketCount >= 1;
      }
    } else {
      assert r.ctl == st.ctl;
    }
  }

  lemma StringKeepsConsistent(s: string, st: Scan)
    requires Ready(s, st) && st.ctl.status == InString && Consistent(st)
    ensures Consistent(StringStep(s, st))
  {
    BackKeepsControl(st.ctl);
  }

  lemma OpenAtBlockKeepsConsistent(s: string, st: Scan)
    requires st.i < |s| && st.ctl.status == InAt && Consistent(st)
    ensures Consistent(OpenAtBlock(s, st))
  {
    if LookaheadEnds(s, st.i) {
      EnterKeepsControl(st.ctl, NextParserInAtRule(s, st.i), InSelector);
    }
  }

  lemma AtTokenKeepsConsistent(env: Env, s: string, st: Scan)
    requires Ready(s, st) && st.ctl.status == InAt && Consistent(st)
    ensures Consistent(AtToken(env, s, st))
  {
    var c := s[st.i];
    var r := AtToken(env, s, st);
    if c == '"' || c == '\'' {
      EnterStringKeepsControl(st.ctl, InAt, c);
      assert r.ctl == Enter(st.ctl, InString, InAt).(stringEndsWith := [c]) && r.tree == st.tree;
    } else if c == '(' {
      EnterBracketKeepsControl(st.ctl, InAt);
      assert r.ctl == Enter(st.ctl, InBracket, InAt).(bracketCount := 1) && r.tree == st.tree;
    } else if c == ';' {
      assert r.ctl == st.ctl.(status := InSelector);
    } else if c == '{' {
      OpenAtBlockKeepsConsistent(s, st);
    } else {
      assert r.ctl == st.ctl;
    }
  }

  lemma AtKeepsConsistent(env: Env, s: string, st: Scan)
    requires Ready(s, st) && st.ctl.status == InAt && Consistent(st)
    ensures Consistent(AtStep(env, s, st))
  {
    if IsToken(s, st.i) {
      AtTokenKeepsConsistent(env, s, st);
    }
  }

  /** Whatever the state, its case keeps the variables consistent. */
  lemma DispatchKeepsConsistent(env: Env, s: string, st: Scan)
    requires Ready(s, st)
    ensures Consistent(st) ==> Consistent(Dispatch(env, s, st))
  {
    if !Consistent(st) {
      return;
    }
    match st.ctl.status
    case InSelector => SelectorKeepsConsistent(env, s, st);
    case InProperty => PropertyKeepsConsistent(env, s, st);
    case InValue =>
    case InBracket => BracketKeepsConsistent(s, st);
    case InString => StringKeepsConsistent(s, st);
    case InAt => AtKeepsConsistent(env, s, st);
    case Lost =>
  }

  /** The whole loop keeps them consistent: every state `parse` reaches from the start is. */
  lemma {:induction false} RunKeepsConsistent(env: Env, s: string, st: Scan)
    requires 0 < |s| && s[|s| - 1] == ' ' && st.i <= |s| + 1 && Consistent(st)
    ensures Consistent(Run(env, s, st))
    decreases |s| + 1 - st.i
  {
    if st.halt == Running && st.i < |s| {
      RunKeepsConsistent(env, s, Step(env, s, st));
    }
  }
}
