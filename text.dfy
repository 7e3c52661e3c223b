/**
 * The PHP string primitives the CSS code relies on, over `seq<char>`:
 * character classes (ctype_*), trim, strtolower, explode, implode, strpos,
 * substr and the falsy-string test of empty().
 */
module Text {

  /** A prefix as long as the sequence is the sequence itself. */
  lemma WholePrefix<T>(s: seq<T>)
    ensures s[..|s|] == s
  {
  }

  /** Characters removed by PHP's trim() when no character list is given. */
  const TrimChars: set<char> := {' ', '\t', '\n', '\r', '\0', '\U{000B}'}

  /** ctype_space */
  predicate IsSpace(c: char) {
    c in {' ', '\t', '\n', '\r', '\U{000B}', '\U{000C}'}
  }

  /** ctype_digit on one character */
  predicate IsDigit(c: char) {
    '0' <= c <= '9'
  }

  /** ctype_xdigit on one character */
  predicate IsHexDigit(c: char) {
    IsDigit(c) || 'a' <= c <= 'f' || 'A' <= c <= 'F'
  }

  /** ctype_alpha on one character */
  predicate IsAlpha(c: char) {
    'a' <= c <= 'z' || 'A' <= c <= 'Z'
  }

  /** ctype_xdigit on a string: non-empty and all hex digits */
  predicate AllHex(s: string) {
    |s| > 0 && IsHexDigit(s[0]) && (|s| == 1 || AllHex(s[1..]))
  }

  lemma {:induction false} AllHexMeans(s: string)
    ensures AllHex(s) <==> |s| > 0 && forall i :: 0 <= i < |s| ==> IsHexDigit(s[i])
  {
    if |s| > 1 {
      AllHexMeans(s[1..]);
      assert forall i :: 1 <= i < |s| ==> s[i] == s[1..][i - 1];
    }
  }

  /** PHP's empty() on a string: "" and "0" are falsy. */
  predicate Empty(s: string) {
    s == "" || s == "0"
  }

  function LowerChar(c: char): (r: char)
    ensures 'A' <= c <= 'Z' ==> r != c && 'a' <= r <= 'z'
    ensures !('A' <= c <= 'Z') ==> r == c
  {
    if 'A' <= c <= 'Z' then (c as int + 32) as char else c
  }

  /** strtolower (ASCII letters only) */
  function Lower(s: string): (r: string)
    ensures |r| == |s|
    ensures forall i :: 0 <= i < |s| ==> r[i] == LowerChar(s[i])
  {
    if s == [] then [] else [LowerChar(s[0])] + Lower(s[1..])
  }

  /** strtolower leaves a string without capital letters alone. */
  lemma {:induction false} LowerOfLower(s: string)
    requires forall i :: 0 <= i < |s| ==> !('A' <= s[i] <= 'Z')
    ensures Lower(s) == s
  {
    if s != [] {
      assert forall i :: 0 <= i < |s[1..]| ==> s[1..][i] == s[i + 1];
      LowerOfLower(s[1..]);
      assert [s[0]] + s[1..] == s;
    }
  }

  function Spaces(n: nat): (r: string)
    ensures |r| == n
    ensures forall i :: 0 <= i < n ==> r[i] == ' '
  {
    if n == 0 then "" else Spaces(n - 1) + " "
  }

  lemma SpacesStep(n: nat)
    ensures Spaces(n) + " " == Spaces(n + 1)
  {
  }

  /** ltrim with an explicit character list */
  function TrimLeftOf(s: string, cs: set<char>): (r: string)
    ensures |r| <= |s| && r == s[|s| - |r|..]
    ensures r == [] || r[0] !in cs
    ensures forall j :: 0 <= j < |s| - |r| ==> s[j] in cs
  {
    if s != [] && s[0] in cs then TrimLeftOf(s[1..], cs) else s
  }

  /** rtrim with an explicit character list */
  function TrimRightOf(s: string, cs: set<char>): (r: string)
    ensures |r| <= |s| && r == s[..|r|]
    ensures r == [] || r[|r| - 1] !in cs
    ensures forall j :: |r| <= j < |s| ==> s[j] in cs
  {
    if s != [] && s[|s| - 1] in cs then TrimRightOf(s[..|s| - 1], cs) else s
  }

  /** trim with an explicit character list */
  function TrimOf(s: string, cs: set<char>): (r: string)
    ensures |r| <= |s|
    ensures r == [] || (r[0] !in cs && r[|r| - 1] !in cs)
  {
    TrimRightOf(TrimLeftOf(s, cs), cs)
  }

  lemma {:induction false} TrimLeftConcat(a: string, b: string, cs: set<char>)
    ensures TrimLeftOf(a, cs) != [] ==> TrimLeftOf(a + b, cs) == TrimLeftOf(a, cs) + b
    ensures TrimLeftOf(a, cs) == [] ==> TrimLeftOf(a + b, cs) == TrimLeftOf(b, cs)
  {
    if a == [] {
      assert a + b == b;
    } else {
      assert (a + b)[0] == a[0] && (a + b)[1..] == a[1..] + b;
      if a[0] in cs {
        TrimLeftConcat(a[1..], b, cs);
      }
    }
  }

  /** trim leaves a string alone whose ends are not in the list. */
  lemma TrimKeeps(s: string, cs: set<char>)
    requires s != [] && s[0] !in cs && s[|s| - 1] !in cs
    ensures TrimOf(s, cs) == s
  {
    assert TrimLeftOf(s, cs) == s;
  }

  lemma TrimRightDropsLast(s: string, cs: set<char>)
    requires s != [] && s[|s| - 1] in cs
    ensures TrimRightOf(s, cs) == TrimRightOf(s[..|s| - 1], cs)
  {
  }

  /** PHP trim() with its default character list */
  function Trim(s: string): (r: string)
    ensures |r| <= |s|
    ensures r == [] || (r[0] !in TrimChars && r[|r| - 1] !in TrimChars)
  {
    TrimOf(s, TrimChars)
  }

  /** rtrim() with the default character list */
  function TrimRight(s: string): string {
    TrimRightOf(s, TrimChars)
  }

  /** str_replace(list-of-characters, '', s) */
  function RemoveAll(s: string, cs: set<char>): (r: string)
    ensures |r| <= |s|
    ensures forall i :: 0 <= i < |r| ==> r[i] !in cs
  {
    if s == [] then [] else (if s[0] in cs then [] else [s[0]]) + RemoveAll(s[1..], cs)
  }

  /** implode */
  function Join(sep: string, parts: seq<string>): string {
    if |parts| == 0 then ""
    else if |parts| == 1 then parts[0]
    else parts[0] + sep + Join(sep, parts[1..])
  }

  lemma JoinAppend(sep: string, parts: seq<string>, last: string)
    requires |parts| > 0
    ensures Join(sep, parts + [last]) == Join(sep, parts) + sep + last
  {
    if |parts| == 1 {
      assert parts + [last] == [parts[0], last];
    } else {
      assert (parts + [last])[1..] == parts[1..] + [last];
      JoinAppend(sep, parts[1..], last);
    }
  }

  /** explode on a one-character separator */
  function Split(s: string, c: char): (r: seq<string>)
    ensures |r| > 0
    ensures forall i, j :: 0 <= i < |r| && 0 <= j < |r[i]| ==> r[i][j] != c
    ensures Join([c], r) == s
  {
    if s == [] then [""]
    else
      var rest := Split(s[1..], c);
      if s[0] == c then
        assert Join([c], [""] + rest) == [c] + Join([c], rest) by {
          assert ([""] + rest)[1..] == rest;
        }
        [""] + rest
      else
        assert Join([c], [[s[0]] + rest[0]] + rest[1..]) == [s[0]] + Join([c], rest) by {
          if |rest| > 1 {
            assert ([[s[0]] + rest[0]] + rest[1..])[1..] == rest[1..];
          }
        }
        [[s[0]] + rest[0]] + rest[1..]
  }

  /** Text without the separator is one piece. */
  lemma {:induction false} SplitWhole(a: string, c: char)
    requires forall j :: 0 <= j < |a| ==> a[j] != c
    ensures Split(a, c) == [a]
  {
    if a != [] {
      SplitWhole(a[1..], c);
    }
  }

  /** The first separator ends the first piece. */
  lemma {:induction false} SplitFirst(a: string, b: string, c: char)
    requires forall j :: 0 <= j < |a| ==> a[j] != c
    ensures Split(a + [c] + b, c) == [a] + Split(b, c)
  {
    var s := a + [c] + b;
    if a == [] {
      assert s[1..] == b;
    } else {
      assert s[1..] == a[1..] + [c] + b;
      SplitFirst(a[1..], b, c);
      var rest := Split(s[1..], c);
      assert rest[0] == a[1..] && rest[1..] == Split(b, c);
      assert [s[0]] + rest[0] == a;
    }
  }

  /** PHP substr($s, $start, $length) for a non-negative start. */
  function Substr(s: string, start: nat, length: int): (r: string)
    ensures |r| <= |s|
    ensures start == 0 && length < 0 ==> r == s[..if |s| + length > 0 then |s| + length else 0]
  {
    if start >= |s| then ""
    else if length >= 0 then s[start..if start + length <= |s| then start + length else |s|]
    else if |s| + length <= start then ""
    else s[start..|s| + length]
  }

  /** True when `needle` occurs in `s` starting at position `at`. */
  predicate OccursAt(s: string, needle: string, at: nat) {
    at + |needle| <= |s| && s[at..at + |needle|] == needle
  }

  /** strpos($s, $needle, $from): the first occurrence at or after `from`, or -1. */
  function Find(s: string, needle: string, from: nat): (r: int)
    requires |needle| > 0
    ensures r == -1 || (from <= r && OccursAt(s, needle, r))
    ensures forall j :: from <= j && (r == -1 || j < r) ==> !OccursAt(s, needle, j)
    decreases |s| - from
  {
    if from + |needle| > |s| then -1
    else if s[from..from + |needle|] == needle then from
    else Find(s, needle, from + 1)
  }

  predicate Contains(s: string, needle: string)
    requires |needle| > 0
  {
    Find(s, needle, 0) != -1
  }

  /** stripos($s, $needle) !== false */
  predicate ContainsNoCase(s: string, needle: string)
    requires |needle| > 0
  {
    Contains(Lower(s), Lower(needle))
  }

  /** substr_count for one character */
  function Count(s: string, c: char): (n: nat)
    ensures n <= |s|
    ensures n == 0 <==> c !in s
  {
    if s == [] then 0 else (if s[0] == c then 1 else 0) + Count(s[1..], c)
  }

  /** Decimal text of a natural number (PHP's int-to-string conversion). */
  function DecimalText(n: nat): (r: string)
    ensures |r| > 0
    ensures forall i :: 0 <= i < |r| ==> IsDigit(r[i])
  {
    if n < 10 then [('0' as int + n) as char]
    else DecimalText(n / 10) + [('0' as int + n % 10) as char]
  }
}
