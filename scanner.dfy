/**
 * The character-level helpers of lib/Parser.php: escape detection, token
 * recognition, string de-quoting, the quote-aware split, `\` escapes,
 * comments, selector fragments and the property look-ups.
 */
module Scanner {
  import opened Text
  import opened Diagnostics

  /** `Parser::$whitespace`: CSS whitespace without '\r', which parse turns into '\n' first. */
  const Whitespace: set<char> := {' ', '\n', '\t', '\U{000B}', '\U{000C}'}

  /** `Parser::$tokensList` */
  const TokensList: string := "/@}{;:=\'\"(,\\!$%&)*+.<>?[]^`|~"

  /** `Parser::$stringTokens`: a string holding one of these keeps its quotes. */
  const StringTokens: set<char> := Whitespace + {'\'', '"', '(', ')'}

  /**
   * The states of the parser's main loop. `Lost` is the null that popping an
   * empty `from` stack gives: no case of the loop's switch matches it.
   */
  datatype Status = InSelector | InProperty | InValue | InString | InBracket | InAt | Lost

  // ---------------------------------------------------------------- escapes

  /**
   * `escaped`: the character at `pos` follows a backslash that is not itself
   * escaped. Position 0 has no predecessor and is never escaped; neither is a
   * position past the end, where PHP reads an unset offset.
   */
  predicate Escaped(s: string, pos: nat)
    decreases pos
  {
    0 < pos <= |s| && s[pos - 1] == '\\' && !Escaped(s, pos - 1)
  }

  /** The number of backslashes immediately before `pos`. */
  function BackslashRun(s: string, pos: nat): (n: nat)
    requires pos <= |s|
    ensures n <= pos
    ensures forall j :: pos - n <= j < pos ==> s[j] == '\\'
    ensures n < pos ==> s[pos - n - 1] != '\\'
  {
    if pos == 0 || s[pos - 1] != '\\' then 0 else 1 + BackslashRun(s, pos - 1)
  }

  /** Section 4.1.3 of CSS 2.1: a character is escaped by an odd run of backslashes. */
  lemma {:induction false} EscapedIffOddRun(s: string, pos: nat)
    requires pos <= |s|
    ensures Escaped(s, pos) <==> BackslashRun(s, pos) % 2 == 1
    decreases pos
  {
    if pos > 0 && s[pos - 1] == '\\' {
      EscapedIffOddRun(s, pos - 1);
    }
  }

  function Backslashes(n: nat): (r: string)
    ensures |r| == n
    ensures forall j :: 0 <= j < n ==> r[j] == '\\'
  {
    if n == 0 then "" else Backslashes(n - 1) + "\\"
  }

  /**
   * After the start or a character other than a backslash, `n` backslashes
   * escape what follows exactly when `n` is odd.
   */
  lemma BackslashesEscapeWhenOdd(prefix: string, n: nat, rest: string)
    requires prefix == [] || prefix[|prefix| - 1] != '\\'
    ensures Escaped(prefix + Backslashes(n) + rest, |prefix| + n) <==> n % 2 == 1
  {
    var s := prefix + Backslashes(n) + rest;
    var p := |prefix| + n;
    var b := BackslashRun(s, p);
    forall j | |prefix| <= j < p ensures s[j] == '\\' {
      assert s[j] == Backslashes(n)[j - |prefix|];
    }
    assert prefix != [] ==> s[|prefix| - 1] == prefix[|prefix| - 1];
    assert b == n;
    EscapedIffOddRun(s, p);
  }

  /** The character at `i` is `c` and no backslash escapes it. */
  predicate UnescapedAt(s: string, i: nat, c: char) {
    i < |s| && s[i] == c && !Escaped(s, i)
  }

  /** `isToken`: a character of the token list that no backslash escapes. */
  function IsToken(s: string, i: nat): (r: bool)
    requires i < |s|
    ensures r <==> s[i] in TokensList && BackslashRun(s, i) % 2 == 0
  {
    EscapedIffOddRun(s, i);
    s[i] in TokensList && !Escaped(s, i)
  }

  // ----------------------------------------------------------------- quotes

  /** `substr($s, 1, -1)`: the text between the first and the last character. */
  function Inner(s: string): (r: string)
    ensures |s| >= 2 ==> r == s[1..|s| - 1]
    ensures |s| < 2 ==> r == ""
  {
    Substr(s, 1, -1)
  }

  /**
   * `normalizeQuotes`: a quoted string without `"` has its quotes replaced
   * by `"`; one that contains `"` is kept as it is.
   */
  function NormalizeQuotes(s: string): (r: string)
    ensures '"' in r
    ensures '"' in s ==> r == s
    ensures '"' !in s ==> |r| == |Inner(s)| + 2 && r[0] == '"' && r[|r| - 1] == '"' && Inner(r) == Inner(s)
  {
    if '"' !in s then "\"" + Inner(s) + "\"" else s
  }

  predicate HasStringToken(s: string) {
    exists j :: 0 <= j < |s| && s[j] in StringTokens
  }

  /**
   * `removeQuotes`: section 4.3.7 of CSS 2.1 lets a string that is a plain
   * word drop its quotes; a string with whitespace, quotes or parentheses
   * keeps them, normalised to `"`, and its text is unchanged.
   */
  function RemoveQuotes(s: string): (r: string)
    ensures !HasStringToken(Inner(s)) ==> r == Inner(s)
    ensures HasStringToken(Inner(s)) ==> |r| == |s| && Inner(r) == Inner(s) && '"' in r
  {
    if HasStringToken(Inner(s)) then NormalizeQuotes(s) else Inner(s)
  }

  /** A quoted plain word loses its quotes, whichever quote it used. */
  lemma QuotedWordLosesQuotes(q: char, t: string)
    requires q == '"' || q == '\''
    requires !HasStringToken(t)
    ensures RemoveQuotes([q] + t + [q]) == t
  {
    assert Inner([q] + t + [q]) == t;
  }

  /** A single-quoted phrase with a space comes back double-quoted with the same text. */
  lemma QuotedPhraseGetsDoubleQuotes(t: string)
    requires '"' !in t && ' ' in t
    ensures RemoveQuotes("'" + t + "'") == "\"" + t + "\""
  {
    var s := "'" + t + "'";
    assert Inner(s) == t;
    var j :| 0 <= j < |t| && t[j] == ' ';
    assert t[j] in StringTokens;
    assert '"' !in s by {
      forall k | 0 <= k < |s| ensures s[k] != '"' {
        if 0 < k < |s| - 1 {
          assert s[k] == t[k - 1];
        }
      }
    }
  }

  // ---------------------------------------------------- explodeWithoutString

  /** The loop state of `explodeWithoutString`. */
  datatype SplitState = SplitState(inside: bool, close: char, pieces: seq<string>)

  /** What closes the string or bracket opened by `c`. */
  function Closer(c: char): char {
    if c == '(' then ')' else c
  }

  /**
   * Whether the character at `i` opens a string or bracket. As written in
   * the source, the escape test binds to `(` only: a quote opens a string
   * even when it is escaped.
   */
  predicate Opens(s: string, i: nat)
    requires i < |s|
  {
    s[i] == '"' || s[i] == '\'' || (s[i] == '(' && !Escaped(s, i))
  }

  function AppendToLast(pieces: seq<string>, c: char): (r: seq<string>)
    requires |pieces| > 0
    ensures |r| == |pieces|
  {
    pieces[..|pieces| - 1] + [pieces[|pieces| - 1] + [c]]
  }

  /** One iteration of the loop, at character `i`. */
  function SplitStep(sep: char, s: string, i: nat, st: SplitState): (r: SplitState)
    requires i < |s| && |st.pieces| > 0
    ensures |r.pieces| > 0
  {
    if st.inside then
      SplitState(!UnescapedAt(s, i, st.close), st.close, AppendToLast(st.pieces, s[i]))
    else if UnescapedAt(s, i, sep) then
      SplitState(false, st.close, st.pieces + [""])
    else if Opens(s, i) then
      SplitState(true, Closer(s[i]), AppendToLast(st.pieces, s[i]))
    else
      SplitState(false, st.close, AppendToLast(st.pieces, s[i]))
  }

  /** The state after the first `n` characters; the initial closer is never read. */
  function SplitPrefix(sep: char, s: string, n: nat): (r: SplitState)
    requires n <= |s|
    ensures |r.pieces| > 0
  {
    if n == 0 then SplitState(false, '\0', [""])
    else SplitStep(sep, s, n - 1, SplitPrefix(sep, s, n - 1))
  }

  /** The pieces `explodeWithoutString` returns. */
  function Exploded(sep: char, s: string): seq<string> {
    if s == "" || s == [sep] then [] else SplitPrefix(sep, s, |s|).pieces
  }

  /** `explodeWithoutString`: split on `sep`, but not inside strings, brackets or after `\`. */
  method ExplodeWithoutString(sep: char, s: string) returns (output: seq<string>)
    ensures output == Exploded(sep, s)
  {
    if s == "" || s == [sep] {
      return [];
    }
    var insideString := false;
    var to := '\0';
    output := [""];
    var num := 0;
    for i := 0 to |s|
      invariant num == |output| - 1
      invariant SplitState(insideString, to, output) == SplitPrefix(sep, s, i)
    {
      if insideString {
        if s[i] == to && !Escaped(s, i) {
          insideString := false;
        }
      } else {
        if s[i] == sep && !Escaped(s, i) {
          num := num + 1;
          output := output + [""];
          continue;
        } else if s[i] == '"' || s[i] == '\'' || (s[i] == '(' && !Escaped(s, i)) {
          insideString := true;
          to := if s[i] == '(' then ')' else s[i];
        }
      }
      assert output[num := output[num] + [s[i]]] == AppendToLast(output, s[i]);
      output := output[num := output[num] + [s[i]]];
    }
  }

  /** The pieces after one step: a new empty piece at a split point, one more character otherwise. */
  lemma SplitStepPieces(sep: char, s: string, i: nat, st: SplitState)
    requires i < |s| && |st.pieces| > 0
    ensures SplitStep(sep, s, i, st).pieces
      == if !st.inside && UnescapedAt(s, i, sep) then st.pieces + [""] else AppendToLast(st.pieces, s[i])
  {
  }

  lemma JoinAppendToLast(sep: string, pieces: seq<string>, c: char)
    requires |pieces| > 0
    ensures Join(sep, AppendToLast(pieces, c)) == Join(sep, pieces) + [c]
  {
    var init := pieces[..|pieces| - 1];
    var last := pieces[|pieces| - 1];
    if |pieces| > 1 {
      assert pieces == init + [last];
      assert AppendToLast(pieces, c) == init + [last + [c]];
      JoinAppend(sep, init, last);
      JoinAppend(sep, init, last + [c]);
    }
  }

  /** One pass of the loop keeps the pieces, joined with the separator, equal to the text read. */
  lemma JoinSplitStep(sep: char, s: string, i: nat, st: SplitState)
    requires i < |s| && |st.pieces| > 0 && Join([sep], st.pieces) == s[..i]
    ensures Join([sep], SplitStep(sep, s, i, st).pieces) == s[..i + 1]
  {
    SplitStepPieces(sep, s, i, st);
    assert s[..i + 1] == s[..i] + [s[i]];
    if !st.inside && UnescapedAt(s, i, sep) {
      JoinAppend([sep], st.pieces, "");
      assert [sep] + "" == [s[i]];
    } else {
      JoinAppendToLast([sep], st.pieces, s[i]);
    }
  }

  /** Joining the pieces so far with the separator gives back the text read so far. */
  lemma {:induction false} JoinSplitPrefix(sep: char, s: string, n: nat)
    requires n <= |s|
    ensures Join([sep], SplitPrefix(sep, s, n).pieces) == s[..n]
  {
    if n > 0 {
      JoinSplitPrefix(sep, s, n - 1);
      JoinSplitStep(sep, s, n - 1, SplitPrefix(sep, s, n - 1));
    }
  }

  /** `implode($sep, explodeWithoutString($sep, $s)) === $s`, except for a lone separator. */
  lemma JoinExploded(sep: char, s: string)
    requires s != [sep]
    ensures Join([sep], Exploded(sep, s)) == s
  {
    if s != "" {
      JoinSplitPrefix(sep, s, |s|);
      assert s[..|s|] == s;
    }
  }

  /** Without a separator character the text stays one piece. */
  lemma {:induction false} NoSeparatorOnePiece(sep: char, s: string, n: nat)
    requires n <= |s| && forall i :: 0 <= i < |s| ==> s[i] != sep
    ensures |SplitPrefix(sep, s, n).pieces| == 1
  {
    if n > 0 {
      NoSeparatorOnePiece(sep, s, n - 1);
      SplitStepPieces(sep, s, n - 1, SplitPrefix(sep, s, n - 1));
    }
  }

  /** `explodeWithoutString` returns a text without the separator as its only piece. */
  /** Text with no quote, bracket or backslash: nothing in it opens a string or escapes. */
  predicate PlainText(s: string) {
    forall i :: 0 <= i < |s| ==> s[i] != '"' && s[i] != '\'' && s[i] != '(' && s[i] != '\\'
  }

  /** The pieces of a split that knows no strings, brackets or escapes. */
  function PlainPieces(sep: char, t: string): (r: seq<string>)
    ensures |r| > 0
    decreases |t|
  {
    if t == [] then [""]
    else
      var p := PlainPieces(sep, t[..|t| - 1]);
      if t[|t| - 1] == sep then p + [""] else AppendToLast(p, t[|t| - 1])
  }

  /** On plain text the quote-aware split is the plain one. */
  lemma {:induction false} PlainSplitPrefix(sep: char, s: string, n: nat)
    requires n <= |s| && PlainText(s)
    ensures SplitPrefix(sep, s, n) == SplitState(false, '\0', PlainPieces(sep, s[..n]))
  {
    if n > 0 {
      PlainSplitPrefix(sep, s, n - 1);
      assert s[..n][..n - 1] == s[..n - 1];
      assert !Escaped(s, n - 1);
    }
  }

  /** A word without the separator is one piece. */
  lemma {:induction false} PlainWord(sep: char, w: string)
    requires forall i :: 0 <= i < |w| ==> w[i] != sep
    ensures PlainPieces(sep, w) == [w]
    decreases |w|
  {
    if w != [] {
      PlainWord(sep, w[..|w| - 1]);
      assert w[..|w| - 1] + [w[|w| - 1]] == w;
    }
  }

  /** A separator between two texts joins their pieces. */
  lemma {:induction false} PlainConcat(sep: char, a: string, b: string)
    ensures PlainPieces(sep, a + [sep] + b) == PlainPieces(sep, a) + PlainPieces(sep, b)
    decreases |b|
  {
    var t := a + [sep] + b;
    if b == [] {
      assert t[..|t| - 1] == a;
    } else {
      var b' := b[..|b| - 1];
      var c := b[|b| - 1];
      PlainConcat(sep, a, b');
      assert t[..|t| - 1] == a + [sep] + b' && t[|t| - 1] == c;
      var pa, pb := PlainPieces(sep, a), PlainPieces(sep, b');
      if c == sep {
        assert PlainPieces(sep, t) == (pa + pb) + [""];
        assert PlainPieces(sep, b) == pb + [""];
      } else {
        assert PlainPieces(sep, t) == AppendToLast(pa + pb, c);
        assert PlainPieces(sep, b) == AppendToLast(pb, c);
        AppendToLastConcat(pa, pb, c);
      }
    }
  }

  lemma AppendToLastConcat(pa: seq<string>, pb: seq<string>, c: char)
    requires |pb| > 0
    ensures AppendToLast(pa + pb, c) == pa + AppendToLast(pb, c)
  {
    var x := pa + pb;
    assert x[..|x| - 1] == pa + pb[..|pb| - 1];
    assert x[|x| - 1] == pb[|pb| - 1];
  }

  /** `explodeWithoutString` on plain text. */
  lemma ExplodedPlain(sep: char, s: string)
    requires PlainText(s) && s != "" && s != [sep]
    ensures Exploded(sep, s) == PlainPieces(sep, s)
  {
    PlainSplitPrefix(sep, s, |s|);
    assert s[..|s|] == s;
  }

  lemma ExplodedWithoutSeparator(sep: char, s: string)
    requires s != "" && forall i :: 0 <= i < |s| ==> s[i] != sep
    ensures Exploded(sep, s) == [s]
  {
    NoSeparatorOnePiece(sep, s, |s|);
    JoinExploded(sep, s);
  }

  /** The pieces with `tail` added to the last one. */
  function WithLast(pieces: seq<string>, tail: string): (r: seq<string>)
    requires |pieces| > 0
    ensures |r| == |pieces|
  {
    pieces[..|pieces| - 1] + [pieces[|pieces| - 1] + tail]
  }

  lemma WithLastTwice(pieces: seq<string>, a: string, c: char)
    requires |pieces| > 0
    ensures AppendToLast(WithLast(pieces, a), c) == WithLast(pieces, a + [c])
  {
    var w := WithLast(pieces, a);
    assert w[..|w| - 1] == pieces[..|pieces| - 1];
    assert pieces[|pieces| - 1] + a + [c] == pieces[|pieces| - 1] + (a + [c]);
  }

  /** Inside a string or bracket, a character other than the unescaped closer only extends the last piece. */
  lemma InsideStep(sep: char, s: string, j: nat, c: char, before: seq<string>, a: string)
    requires j < |s| && |before| > 0
    requires SplitPrefix(sep, s, j) == SplitState(true, c, WithLast(before, a))
    requires !UnescapedAt(s, j, c)
    ensures SplitPrefix(sep, s, j + 1) == SplitState(true, c, WithLast(before, a + [s[j]]))
  {
    WithLastTwice(before, a, s[j]);
  }

  /** Outside, an opening character that is not a split point starts a string or bracket. */
  lemma OpenStep(sep: char, s: string, i: nat)
    requires i < |s| && !SplitPrefix(sep, s, i).inside
    requires !UnescapedAt(s, i, sep) && Opens(s, i)
    ensures SplitPrefix(sep, s, i + 1)
      == SplitState(true, Closer(s[i]), WithLast(SplitPrefix(sep, s, i).pieces, s[i..i + 1]))
  {
    assert s[i..i + 1] == [s[i]];
  }

  /**
   * Once a string or bracket opens at `i`, every character up to the first
   * unescaped closer goes into the same piece: a separator in between is
   * never a split point.
   */
  lemma {:induction false} OpenedStaysWhole(sep: char, s: string, i: nat, k: nat)
    requires i < k <= |s|
    requires !SplitPrefix(sep, s, i).inside
    requires !UnescapedAt(s, i, sep) && Opens(s, i)
    requires forall m :: i < m < k ==> !UnescapedAt(s, m, Closer(s[i]))
    ensures SplitPrefix(sep, s, k) == SplitState(true, Closer(s[i]), WithLast(SplitPrefix(sep, s, i).pieces, s[i..k]))
  {
    var before := SplitPrefix(sep, s, i).pieces;
    if k == i + 1 {
      OpenStep(sep, s, i);
    } else {
      OpenedStaysWhole(sep, s, i, k - 1);
      InsideStep(sep, s, k - 1, Closer(s[i]), before, s[i..k - 1]);
      assert s[i..k - 1] + [s[k - 1]] == s[i..k];
    }
  }

  /** A separator inside a closed quoted section does not split it. */
  lemma QuotedSeparatorKept(sep: char, t: string)
    requires sep != '"' && '"' !in t && '\\' !in t
    ensures Exploded(sep, "\"" + t + "\"") == ["\"" + t + "\""]
  {
    var s := "\"" + t + "\"";
    var k := |s| - 1;
    QuotedUpToClose(sep, t);
    assert !Escaped(s, k) by {
      assert s[k - 1] != '\\' by {
        if k > 1 {
          assert s[k - 1] == t[k - 2];
        }
      }
    }
    assert SplitPrefix(sep, s, |s|).pieces == AppendToLast([s[..k]], s[k]);
    assert s[..k] + [s[k]] == s;
  }

  /** Up to the closing quote, a quoted text is one open piece. */
  lemma QuotedUpToClose(sep: char, t: string)
    requires sep != '"' && '"' !in t
    ensures SplitPrefix(sep, "\"" + t + "\"", |t| + 1) == SplitState(true, '"', [("\"" + t + "\"")[..|t| + 1]])
  {
    var s := "\"" + t + "\"";
    var k := |s| - 1;
    forall m | 0 < m < k ensures !UnescapedAt(s, m, Closer(s[0])) {
      assert s[m] == t[m - 1];
    }
    OpenedStaysWhole(sep, s, 0, k);
    assert s[0..k] == s[..k];
    assert s[0] == '"';
    assert SplitPrefix(sep, s, 0) == SplitState(false, '\0', [""]);
    assert [""][..0] == [] && "" + s[0..k] == s[0..k];
    assert WithLast([""], s[0..k]) == [s[0..k]];
  }

  // --------------------------------------------------------- unicode escapes

  /** A code `unicode` replaces by its character: an ASCII digit or letter. */
  predicate IsAlnumCode(n: nat) {
    47 < n < 58 || 64 < n < 91 || 96 < n < 123
  }

  function HexDigitValue(c: char): (v: nat)
    requires IsHexDigit(c)
    ensures v < 16
  {
    if '0' <= c <= '9' then c as int - '0' as int
    else if 'a' <= c <= 'f' then c as int - 'a' as int + 10
    else c as int - 'A' as int + 10
  }

  /** `hexdec`: the digits read as a base-16 number; other characters are skipped. */
  function HexValue(s: string): nat {
    if s == [] then 0
    else if IsHexDigit(s[|s| - 1]) then 16 * HexValue(s[..|s| - 1]) + HexDigitValue(s[|s| - 1])
    else HexValue(s[..|s| - 1])
  }

  /** The length of the run of hexadecimal digits at `j`, read up to `limit` of them. */
  function HexRun(s: string, j: nat, limit: nat): (n: nat)
    requires j <= |s|
    ensures n <= limit && j + n <= |s|
    ensures forall k :: j <= k < j + n ==> IsHexDigit(s[k])
    ensures n < limit && j + n < |s| ==> !IsHexDigit(s[j + n])
    decreases limit
  {
    if limit == 0 || j == |s| || !IsHexDigit(s[j]) then 0 else 1 + HexRun(s, j + 1, limit - 1)
  }

  /**
   * The most escape characters the loop of `unicode` collects, as written:
   * `!isset($add{6})` lets it take a seventh.
   */
  const ParserEscapeLimit: nat := 7

  /**
   * Section 4.1.3 of CSS 2.1: a backslash is followed by at most six
   * hexadecimal digits, which is also the bound of the older revision in
   * lib/CSSTidy.php.
   */
  const EscapeLimit: nat := 6

  /** Where the hexadecimal digits of the escape whose backslash is at `start` end. */
  function EscapeEnd(s: string, start: nat, limit: nat): (k: nat)
    requires start < |s|
    ensures start + 1 <= k <= |s|
  {
    start + 1 + HexRun(s, start + 1, limit)
  }

  /** A whitespace character right after fewer than `limit` digits ends the escape and is read with it. */
  predicate EndsWithSpace(s: string, start: nat, limit: nat)
    requires start < |s|
  {
    var k := EscapeEnd(s, start, limit);
    k - start - 1 < limit && k < |s| && IsSpace(s[k])
  }

  /** The characters the loop of `unicode` collects. */
  function EscapeText(s: string, start: nat, limit: nat): string
    requires start < |s|
  {
    var k := EscapeEnd(s, start, limit);
    s[start + 1..k] + (if EndsWithSpace(s, start, limit) then [s[k]] else "")
  }

  /** The code point the escape's digits denote. */
  function EscapeCode(s: string, start: nat, limit: nat): nat
    requires start < |s|
  {
    HexValue(s[start + 1..EscapeEnd(s, start, limit)])
  }

  /** What `unicode` keeps of an escape it does not decode: the backslash and the trimmed text. */
  function KeptEscape(s: string, start: nat, limit: nat): (r: string)
    requires start < |s|
    ensures |r| > 0 && r[0] == '\\'
  {
    var read := EscapeText(s, start, limit);
    TrimKeepsBackslash(read);
    if read == " " then "\\ " else Trim("\\" + read)
  }

  lemma TrimKeepsBackslash(t: string)
    ensures |Trim("\\" + t)| > 0 && Trim("\\" + t)[0] == '\\'
  {
    var x := "\\" + t;
    assert x[0] == '\\' && x[0] !in TrimChars;
    assert TrimLeftOf(x, TrimChars) == x;
    var r := TrimRightOf(x, TrimChars);
    assert r == Trim(x);
    assert |r| > 0;
    assert r[0] == x[0];
  }

  /**
   * The position the main loop resumes after (it then adds one): a whitespace
   * after the digits is consumed, unless the escape was kept and another
   * hexadecimal digit follows, which the space has to stay to separate.
   */
  function ResumeAt(s: string, start: nat, limit: nat, replaced: bool): (i: nat)
    requires start < |s|
    ensures start <= i < |s|
  {
    var k := EscapeEnd(s, start, limit);
    var consumed := k < |s| && IsSpace(s[k]);
    if consumed && !(!replaced && k + 1 < |s| && IsHexDigit(s[k + 1])) then k else k - 1
  }

  /** The loop of `unicode`: collect digits, or one whitespace that ends them, up to `limit` characters. */
  method ReadEscape(s: string, start: nat, limit: nat) returns (read: string, i: nat)
    requires start < |s|
    ensures read == EscapeText(s, start, limit)
    ensures i == EscapeEnd(s, start, limit)
  {
    var k := EscapeEnd(s, start, limit);
    i := start + 1;
    read := "";
    while i < |s| && (IsHexDigit(s[i]) || IsSpace(s[i])) && |read| < limit
      invariant start + 1 <= i <= k
      invariant read == s[start + 1..i]
      decreases |s| - i
    {
      read := read + [s[i]];
      if IsSpace(s[i]) {
        assert i == k;
        return;
      }
      i := i + 1;
    }
  }

  /** What `unicode` returns: the text to keep, where the parser resumes, and what it logs. */
  datatype Escape = Escape(add: string, i: nat, log: Log)

  /**
   * `unicode`, entered at the backslash `start`: returns the text to keep and
   * the position the parser resumes after. An escape of an ASCII digit or
   * letter becomes that character; a backslash that escapes nothing useful
   * (no digits, a following character outside the token list) is dropped
   * when `removeBackSlash` is set.
   */
  function UnicodeEscape(s: string, start: nat, limit: nat, removeBackSlash: bool, line: nat): (r: Escape)
    requires start < |s|
    ensures start <= r.i < |s|
    ensures IsAlnumCode(EscapeCode(s, start, limit)) ==> r.add == [EscapeCode(s, start, limit) as char] && IsAlnumChar(r.add[0])
    ensures !IsAlnumCode(EscapeCode(s, start, limit)) ==>
      r.add == KeptEscape(s, start, limit) || (r.add == "" && removeBackSlash && KeptEscape(s, start, limit) == "\\")
    ensures r.add == "" ==> removeBackSlash
    ensures |r.log| <= 1 && (r.log != [] <==> IsAlnumCode(EscapeCode(s, start, limit)) || r.add == "")
  {
    var code := EscapeCode(s, start, limit);
    if IsAlnumCode(code) then
      Escape([code as char], ResumeAt(s, start, limit, true), [Entry(ReplacedUnicode(EscapeText(s, start, limit), code as char), Information, line)])
    else
      var add := KeptEscape(s, start, limit);
      var i := ResumeAt(s, start, limit, false);
      if add == "\\" && removeBackSlash && !(i + 1 < |s| && s[i + 1] in TokensList) then
        Escape("", i, [Entry(RemovedBackslash, Information, line)])
      else
        Escape(add, i, [])
  }

  /** An ASCII digit or letter. */
  predicate IsAlnumChar(c: char) {
    '0' <= c <= '9' || 'A' <= c <= 'Z' || 'a' <= c <= 'z'
  }

  /** The lower-case hexadecimal digit of `d`. */
  function HexDigitOf(d: nat): (c: char)
    requires d < 16
    ensures IsHexDigit(c) && HexDigitValue(c) == d
  {
    if d < 10 then ('0' as int + d) as char else ('a' as int + d - 10) as char
  }

  /** A character below 256 written as a backslash and two hexadecimal digits. */
  function HexEscape(c: char): (e: string)
    requires c as int < 256
    ensures |e| == 3 && e[0] == '\\' && IsHexDigit(e[1]) && IsHexDigit(e[2])
  {
    ['\\', HexDigitOf(c as int / 16), HexDigitOf(c as int % 16)]
  }

  lemma HexValueOfTwo(c: char)
    requires c as int < 256
    ensures HexValue(HexEscape(c)[1..]) == c as int
  {
    var t := HexEscape(c)[1..];
    var hi, lo := c as int / 16, c as int % 16;
    assert t == [HexDigitOf(hi), HexDigitOf(lo)];
    assert t[..1] == [t[0]] && [t[0]][..0] == [];
    assert HexValue([t[0]]) == 16 * HexValue([]) + hi;
    assert HexValue(t) == 16 * HexValue(t[..1]) + lo;
  }

  lemma HexRunOfTwo(s: string, j: nat, limit: nat)
    requires j + 2 <= |s| && IsHexDigit(s[j]) && IsHexDigit(s[j + 1]) && limit >= 2
    requires j + 2 == |s| || !IsHexDigit(s[j + 2])
    ensures HexRun(s, j, limit) == 2
  {
    assert HexRun(s, j + 2, limit - 2) == 0;
  }

  /**
   * Decoding undoes the escape: an ASCII digit or letter written as `\`
   * and its two hexadecimal digits, followed by the end or a character
   * that is not a hexadecimal digit, is read back as that character.
   */
  lemma {:induction false} UnicodeDecodesEscape(pre: string, c: char, rest: string, limit: nat, removeBackSlash: bool, line: nat)
    requires IsAlnumChar(c) && limit >= 2
    requires rest == [] || !IsHexDigit(rest[0])
    ensures var s := pre + HexEscape(c) + rest;
      UnicodeEscape(s, |pre|, limit, removeBackSlash, line).add == [c]
  {
    var e := HexEscape(c);
    var s := pre + e + rest;
    var j := |pre| + 1;
    assert s[j] == e[1] && s[j + 1] == e[2];
    assert j + 2 < |s| ==> s[j + 2] == rest[0];
    HexRunOfTwo(s, j, limit);
    assert s[|pre| + 1..EscapeEnd(s, |pre|, limit)] == e[1..];
    HexValueOfTwo(c);
  }

  lemma {:induction false} HexValueZeros(z: string)
    requires forall j :: 0 <= j < |z| ==> z[j] == '0'
    ensures HexValue(z) == 0
  {
    if z != [] {
      HexValueZeros(z[..|z| - 1]);
    }
  }

  /** The text "\0000041": a backslash and seven hexadecimal digits. */
  const SevenDigitEscape: string := "\\0000041"

  /**
   * As written, `unicode` reads all seven digits of "\0000041", which then
   * decode to the letter `A`.
   */
  lemma SeventhDigitIsRead()
    ensures EscapeEnd(SevenDigitEscape, 0, ParserEscapeLimit) == 8
    ensures EscapeCode(SevenDigitEscape, 0, ParserEscapeLimit) == 65
    ensures IsAlnumCode(65)
  {
    var s := SevenDigitEscape;
    assert HexRun(s, 8, 0) == 0;
    assert HexRun(s, 1, 7) == 7;
    var d := s[1..8];
    HexValueZeros(d[..5]);
    assert d[..6][..5] == d[..5];
    assert HexValue(d[..6]) == 4;
    assert d[..7] == d;
  }

  /**
   * With the bound of CSS 2.1 the escape ends after six digits: "\000004"
   * is code 4, not a letter, and the seventh digit stays ordinary text.
   */
  lemma SixDigitsEndTheEscape(s: string, start: nat)
    requires start < |s|
    ensures EscapeEnd(s, start, EscapeLimit) <= start + 7
    ensures EscapeEnd(SevenDigitEscape, 0, EscapeLimit) == 7
    ensures EscapeCode(SevenDigitEscape, 0, EscapeLimit) == 4 && !IsAlnumCode(4)
  {
    var e := SevenDigitEscape;
    assert HexRun(e, 7, 0) == 0;
    assert HexRun(e, 1, 6) == 6;
    var d := e[1..7];
    HexValueZeros(d[..5]);
    assert d[..6] == d;
  }

  // ---------------------------------------------------------------- comments

  /** The comment `parseComment` extracts, where the scan resumes, and the newlines it spans. */
  datatype CommentScan = CommentScan(text: string, next: nat, newlines: nat)

  /**
   * `parseComment`, entered at the slash that opens a comment at `i`: the text up to the
   * first `*` `/` after the opener, and the index of that closing `/`. An
   * unclosed comment runs to the end, minus the last character (parse always
   * appends a space to its input).
   */
  function ParseComment(s: string, i: nat): (r: CommentScan)
    requires i + 2 <= |s|
    ensures i + 2 <= r.next <= |s|
    ensures r.newlines == Count(r.text, '\n')
  {
    var from := i + 2;
    var close := Find(s, "*/", from);
    var len := if close != -1 then close - from else |s| - from - 1;
    var text := if len > 0 then s[from..from + len] else "";
    CommentScan(text, from + len + 1, if len > 0 then Count(text, '\n') else 0)
  }

  /** A closed comment holds the text up to the first closer, and the scan resumes at its slash. */
  lemma CommentClosed(s: string, i: nat, c: nat)
    requires i + 2 <= c && OccursAt(s, "*/", c)
    ensures var r := ParseComment(s, i);
      && i + 3 <= r.next
      && OccursAt(s, "*/", r.next - 1)
      && r.text == s[i + 2..r.next - 1]
      && forall c' :: i + 2 <= c' < r.next - 1 ==> !OccursAt(s, "*/", c')
  {
    var close := Find(s, "*/", i + 2);
    assert close != -1;
    assert ParseComment(s, i).next == close + 1;
  }

  /** An unclosed comment runs to the end of the input, minus its last character. */
  lemma CommentUnclosed(s: string, i: nat)
    requires i + 2 <= |s|
    requires forall c :: i + 2 <= c ==> !OccursAt(s, "*/", c)
    ensures var r := ParseComment(s, i);
      r.next == |s| && r.text == (if i + 3 < |s| then s[i + 2..|s| - 1] else "")
  {
    var close := Find(s, "*/", i + 2);
    assert close == -1;
  }

  // ------------------------------------------------------------ sub-selectors

  /** Increasing positions each just after a comma of `name`: what parse records per selector. */
  predicate CommaEnds(name: string, separate: seq<nat>) {
    && (forall k :: 0 <= k < |separate| ==> 1 <= separate[k] <= |name| && name[separate[k] - 1] == ',')
    && (forall k :: 0 < k < |separate| ==> separate[k - 1] < separate[k])
  }

  /** Appending the piece up to the next comma extends the joined prefix up to that comma. */
  lemma CommaPieceJoined(name: string, subs: seq<string>, last: nat, pos: nat)
    requires last < pos <= |name| && name[pos - 1] == ','
    requires (subs == [] && last == 0) || (subs != [] && Join(",", subs) + "," == name[..last])
    ensures Join(",", subs + [name[last..pos - 1]]) + "," == name[..pos]
  {
    var piece := name[last..pos - 1];
    if subs != [] {
      JoinAppend(",", subs, piece);
    } else {
      assert subs + [piece] == [piece];
    }
    assert name[..pos - 1] == name[..last] + piece;
    assert name[..pos] == name[..pos - 1] + ",";
  }

  /** Appending the rest of the name after the last comma gives the whole name. */
  lemma LastPieceJoined(name: string, subs: seq<string>, last: nat)
    requires last <= |name|
    requires (subs == [] && last == 0) || (subs != [] && Join(",", subs) + "," == name[..last])
    ensures Join(",", subs + [name[last..]]) == name
  {
    var piece := name[last..];
    if subs != [] {
      JoinAppend(",", subs, piece);
    } else {
      assert subs + [piece] == [piece];
    }
    assert name == name[..last] + piece;
  }

  /**
   * The `k`-th fragment `setSubSelectors` cuts: it runs from the previous
   * recorded position up to the character before the next one, and the
   * last runs to the end of the name.
   */
  function Fragment(name: string, separate: seq<nat>, k: nat): string
    requires k <= |separate|
  {
    var last := if k == 0 then 0 else separate[k - 1];
    var next := if k == |separate| then |name| + 1 else separate[k];
    Substr(name, last, next - last - 1)
  }

  /** All the fragments, one more than the recorded positions. */
  function Fragments(name: string, separate: seq<nat>): (r: seq<string>)
    ensures |r| == |separate| + 1
  {
    seq(|separate| + 1, k requires 0 <= k <= |separate| => Fragment(name, separate, k))
  }

  /**
   * `setSubSelectors`: cut the selector name at the recorded comma positions.
   * The fragments joined with commas give the name back.
   */
  method SubSelectors(name: string, separate: seq<nat>) returns (subs: seq<string>)
    ensures subs == Fragments(name, separate)
    ensures CommaEnds(name, separate) ==> Join(",", subs) == name
  {
    var positions := separate + [|name|];
    var last: nat := 0;
    subs := [];
    for num := 0 to |positions|
      invariant subs == Fragments(name, separate)[..num]
      invariant num <= |separate| ==> last == if num == 0 then 0 else separate[num - 1]
    {
      var pos := positions[num];
      if num == |positions| - 1 {
        pos := pos + 1;
      }
      FragmentsStep(name, separate, num);
      subs := subs + [Substr(name, last, pos - last - 1)];
      last := pos;
    }
    assert subs == Fragments(name, separate);
    if CommaEnds(name, separate) {
      FragmentsJoin(name, separate);
    }
  }

  /** One more fragment. */
  lemma FragmentsStep(name: string, separate: seq<nat>, k: nat)
    requires k <= |separate|
    ensures Fragments(name, separate)[..k + 1] == Fragments(name, separate)[..k] + [Fragment(name, separate, k)]
  {
    var f := Fragments(name, separate);
    assert f[..k + 1] == f[..k] + [f[k]];
  }

  /** A fragment that ends at a recorded comma is the text between the two commas. */
  lemma InnerFragment(name: string, separate: seq<nat>, k: nat)
    requires CommaEnds(name, separate) && k < |separate|
    ensures var last := if k == 0 then 0 else separate[k - 1];
      last < separate[k] && Fragment(name, separate, k) == name[last..separate[k] - 1]
  {
    if k > 0 {
      assert separate[k - 1] < separate[k];
    }
  }

  /** The fragment after the last recorded comma runs to the end of the name. */
  lemma LastFragment(name: string, separate: seq<nat>)
    requires CommaEnds(name, separate)
    ensures var last := if separate == [] then 0 else separate[|separate| - 1];
      last <= |name| && Fragment(name, separate, |separate|) == name[last..]
  {
  }

  /** The first `k` fragments, each followed by its comma, spell the name up to the `k`-th recorded position. */
  lemma {:induction false} FragmentsPrefix(name: string, separate: seq<nat>, k: nat)
    requires CommaEnds(name, separate) && 0 < k <= |separate|
    ensures Join(",", Fragments(name, separate)[..k]) + "," == name[..separate[k - 1]]
  {
    var f := Fragments(name, separate);
    var last: nat := if k == 1 then 0 else separate[k - 2];
    InnerFragment(name, separate, k - 1);
    if k > 1 {
      FragmentsPrefix(name, separate, k - 1);
    }
    FragmentsStep(name, separate, k - 1);
    CommaPieceJoined(name, f[..k - 1], last, separate[k - 1]);
  }

  /** With every recorded position just after a comma, the fragments joined with commas give the name back. */
  lemma FragmentsJoin(name: string, separate: seq<nat>)
    requires CommaEnds(name, separate)
    ensures Join(",", Fragments(name, separate)) == name
  {
    var f := Fragments(name, separate);
    var k := |separate|;
    var last: nat := if k == 0 then 0 else separate[k - 1];
    LastFragment(name, separate);
    if k > 0 {
      FragmentsPrefix(name, separate, k);
    }
    FragmentsStep(name, separate, k);
    assert f[..k + 1] == f;
    LastPieceJoined(name, f[..k], last);
  }

  // -------------------------------------------------------- property look-ups

  /**
   * `propertyIsValid`: the property is in the table and its list of CSS
   * levels mentions the configured level.
   */
  function PropertyIsValid(table: map<string, string>, property: string, level: string): (r: bool)
    ensures r <==> property in table && level != "" && exists at :: OccursAt(table[property], level, at)
  {
    property in table && level != "" && Contains(table[property], level)
  }

  lemma OccursAtChar(s: string, c: char, at: nat)
    ensures OccursAt(s, [c], at) <==> at < |s| && s[at] == c
  {
    if at < |s| {
      assert s[at..at + 1] == [s[at]];
    }
  }

  /** `c` is the first `:` at or after `pos`. */
  predicate FirstColonAt(s: string, pos: nat, c: int) {
    pos <= c < |s| && s[c] == ':' && forall d :: pos <= d < c ==> s[d] != ':'
  }

  lemma FirstColonUnique(s: string, pos: nat, c: int)
    requires FirstColonAt(s, pos, c)
    ensures forall c' :: FirstColonAt(s, pos, c') ==> c' == c
  {
  }

  /**
   * `propertyIsNext`: the text from `pos` up to the next `:`, trimmed and
   * lowercased, names a known property. With no `:` ahead it is false.
   */
  function PropertyIsNext(table: map<string, string>, s: string, pos: nat): (r: bool)
    ensures (forall c :: pos <= c < |s| ==> s[c] != ':') ==> !r
    ensures forall c :: FirstColonAt(s, pos, c) ==> (r <==> Lower(Trim(s[pos..c])) in table)
  {
    if pos >= |s| then false
    else
      var c := Find(s, ":", pos);
      if c == -1 then
        assert forall d :: pos <= d < |s| ==> s[d] != ':' by {
          forall d | pos <= d < |s| ensures s[d] != ':' {
            OccursAtChar(s, ':', d);
          }
        }
        false
      else
        assert FirstColonAt(s, pos, c) by {
          OccursAtChar(s, ':', c);
          forall d | pos <= d < c ensures s[d] != ':' {
            OccursAtChar(s, ':', d);
          }
        }
        FirstColonUnique(s, pos, c);
        Lower(Trim(s[pos..c])) in table
  }

  // ------------------------------------------------------- at-rule lookahead

  /** The first occurrence of `ch` at or after `from` that no backslash escapes, or -1. */
  function FindUnescaped(s: string, ch: char, from: nat): (r: int)
    ensures r == -1 || (from <= r && UnescapedAt(s, r, ch))
    ensures forall j :: from <= j < |s| && (r == -1 || j < r) ==> !UnescapedAt(s, j, ch)
    decreases |s| - from
  {
    if from >= |s| then -1
    else if UnescapedAt(s, from, ch) then from
    else FindUnescaped(s, ch, from + 1)
  }

  /**
   * The retry loops of `nextParserInAtRule` end: when both a `:` and a `{`
   * follow `i`, neither of the first ones is escaped.
   */
  predicate LookaheadEnds(s: string, i: nat) {
    var colon := Find(s, ":", i + 1);
    var curly := Find(s, "{", i + 1);
    colon == -1 || curly == -1 || (!Escaped(s, colon) && !Escaped(s, curly))
  }

  /**
   * `nextParserInAtRule` for the `{` at `i`, as written: the first `:` and
   * the first `{` after it are compared, so the block holds declarations
   * (like `@font-face`) exactly when a `:` comes before the next `{`.
   */
  function NextParserInAtRule(s: string, i: nat): (r: Status)
    requires LookaheadEnds(s, i)
    ensures r == InSelector || r == InProperty
    ensures r == InProperty <==> exists c :: i < c < |s| && s[c] == ':' && forall d :: i < d < c ==> s[d] != '{'
  {
    var colon := Find(s, ":", i + 1);
    if colon == -1 then
      assert forall c :: i < c < |s| ==> s[c] != ':' by {
        forall c | i < c < |s| ensures s[c] != ':' {
          OccursAtChar(s, ':', c);
        }
      }
      InSelector
    else
      OccursAtChar(s, ':', colon);
      var curly := Find(s, "{", i + 1);
      if curly == -1 then
        assert forall d :: i < d < colon ==> s[d] != '{' by {
          forall d | i < d < colon ensures s[d] != '{' {
            OccursAtChar(s, '{', d);
          }
        }
        InProperty
      else
        OccursAtChar(s, '{', curly);
        if colon > curly then
          assert forall c :: i < c < |s| && s[c] == ':' ==> s[curly] == '{' && i < curly < c by {
            forall c | i < c < |s| && s[c] == ':' ensures i < curly < c {
              OccursAtChar(s, ':', c);
            }
          }
          InSelector
        else
          assert forall d :: i < d < colon ==> s[d] != '{' by {
            forall d | i < d < colon ensures s[d] != '{' {
              OccursAtChar(s, '{', d);
            }
          }
          InProperty
  }

  /**
   * One pass of the retry loop for an escaped `:`: it searches again from
   * the `:` it already found.
   */
  function RetryColon(s: string, at: nat): int {
    Find(s, ":", at)
  }

  /** Every pass of the retry loop returns the index it started from, so an escaped `:` keeps the loop going for ever. */
  lemma RetryStaysPut(s: string, at: nat)
    requires at < |s| && s[at] == ':'
    ensures RetryColon(s, at) == at
  {
    OccursAtChar(s, ':', at);
  }

  /** The text "@media s{a\:b{c:d}} ": the first `:` after the `{` at 8 is escaped. */
  const EscapedColonRule: string := "@media s{a\\:b{c:d}} "

  lemma RetryMakesNoProgress()
    ensures Find(EscapedColonRule, ":", 9) == 11 && Escaped(EscapedColonRule, 11)
    ensures !LookaheadEnds(EscapedColonRule, 8)
    ensures RetryColon(EscapedColonRule, 11) == 11
  {
    var s := EscapedColonRule;
    OccursAtChar(s, ':', 9);
    OccursAtChar(s, ':', 10);
    OccursAtChar(s, ':', 11);
    assert s[9] == 'a' && s[10] == '\\' && s[11] == ':';
    assert !Escaped(s, 10);
    OccursAtChar(s, '{', 9);
    OccursAtChar(s, '{', 10);
    OccursAtChar(s, '{', 11);
    OccursAtChar(s, '{', 12);
    OccursAtChar(s, '{', 13);
    assert Find(s, "{", 9) == 13;
  }

  /**
   * The look-ahead the retry loops are there for: the first `:` and the
   * first `{` after `i` that no backslash escapes, compared.
   */
  function IntendedNextParserInAtRule(s: string, i: nat): (r: Status)
    ensures r == InSelector || r == InProperty
    ensures r == InProperty <==>
      exists c :: i < c && UnescapedAt(s, c, ':') && forall d :: i < d < c ==> !UnescapedAt(s, d, '{')
  {
    var colon := FindUnescaped(s, ':', i + 1);
    if colon == -1 then InSelector
    else
      var curly := FindUnescaped(s, '{', i + 1);
      if curly == -1 then InProperty
      else if colon > curly then
        assert UnescapedAt(s, curly, '{');
        InSelector
      else InProperty
  }

  /** Where nothing after `i` is escaped, the loops end and both look-aheads agree. */
  lemma IntendedAgreesUnescaped(s: string, i: nat)
    requires forall c :: i < c < |s| ==> !Escaped(s, c)
    ensures LookaheadEnds(s, i)
    ensures NextParserInAtRule(s, i) == IntendedNextParserInAtRule(s, i)
  {
    var colon := Find(s, ":", i + 1);
    var curly := Find(s, "{", i + 1);
    if colon != -1 {
      OccursAtChar(s, ':', colon);
    }
    if curly != -1 {
      OccursAtChar(s, '{', curly);
    }
    if NextParserInAtRule(s, i) == InProperty {
      var c :| i < c < |s| && s[c] == ':' && forall d :: i < d < c ==> s[d] != '{';
      assert UnescapedAt(s, c, ':');
      forall d | i < d < c ensures !UnescapedAt(s, d, '{') {
      }
    }
    if IntendedNextParserInAtRule(s, i) == InProperty {
      var c :| i < c && UnescapedAt(s, c, ':') && forall d :: i < d < c ==> !UnescapedAt(s, d, '{');
      forall d | i < d < c ensures s[d] != '{' {
        assert !UnescapedAt(s, d, '{');
      }
    }
  }

  /**
   * In "@font-face{a\:b}" the only `:` after the `{` at 10 is escaped and no
   * `{` follows: as written the block holds declarations, while skipping the
   * escaped `:` makes it hold rule sets.
   */
  const EscapedColonFace: string := "@font-face{a\\:b}"

  lemma EscapedColonFaceDiffers()
    ensures LookaheadEnds(EscapedColonFace, 10)
    ensures NextParserInAtRule(EscapedColonFace, 10) == InProperty
    ensures IntendedNextParserInAtRule(EscapedColonFace, 10) == InSelector
  {
    var s := EscapedColonFace;
    assert s[11] == 'a' && s[12] == '\\' && s[13] == ':';
    assert !Escaped(s, 12);
    assert Escaped(s, 13);
    assert s[13] == ':' && forall d :: 10 < d < 13 ==> s[d] != '{';
    assert forall c :: 10 < c < |s| && s[c] == ':' ==> c == 13;
  }
}
