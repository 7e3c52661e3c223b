/**
 * The helpers of lib/CSSTidy.php that outlived its own parse loop:
 * `!important` detection and removal (section 6.4.2 of CSS 2.1), the older
 * `escaped`, and the property look-ups against the older table.
 */
module Tidy {
  import opened Text
  import Scanner
  import opened Properties

  /** `CSSTidy::$whitespace` */
  const TidyWhitespace: set<char> := {' ', '\n', '\t', '\r', '\U{000B}'}

  const Important: string := "!important"

  /**
   * `isImportant`: with all whitespace removed, the value ends with
   * `!important` in any letter case.
   */
  function IsImportant(value: string): (r: bool)
    ensures r ==> |value| >= 10
  {
    var squeezed := RemoveAll(value, TidyWhitespace);
    |squeezed| >= 10 && Lower(squeezed[|squeezed| - 10..]) == Important
  }

  /**
   * `removeImportant`: an important value loses its last ten non-blank
   * characters and the whitespace around them; any other value is returned
   * as it is.
   */
  function RemoveImportant(value: string): (r: string)
    ensures !IsImportant(value) ==> r == value
    ensures IsImportant(value) ==> |r| <= |value| - 10
    ensures IsImportant(value) ==> r == [] || (r[0] !in TrimChars && r[|r| - 1] !in TrimChars)
  {
    if IsImportant(value) then CutTail(CutTail(Trim(value), 9), 1) else value
  }

  /** `trim(substr($s, 0, -k))`: drop `k` characters from the end, then trim. */
  function CutTail(s: string, k: nat): (r: string)
    requires k > 0
    ensures |r| + k <= |s| || r == []
    ensures r == [] || (r[0] !in TrimChars && r[|r| - 1] !in TrimChars)
  {
    Trim(Substr(s, 0, -(k as int)))
  }

  /** Removing characters keeps only characters of the original. */
  lemma {:induction false} RemoveAllFrom(s: string, cs: set<char>)
    ensures forall c :: c in RemoveAll(s, cs) ==> c in s
  {
    if s != [] {
      RemoveAllFrom(s[1..], cs);
      assert forall c :: c in s[1..] ==> c in s;
    }
  }

  /** A value without an exclamation mark is never important. */
  lemma NoBangNotImportant(v: string)
    requires '!' !in v
    ensures !IsImportant(v)
  {
    var squeezed := RemoveAll(v, TidyWhitespace);
    RemoveAllFrom(v, TidyWhitespace);
  }

  /** The space-separated suffix CSSTidy itself writes makes a value important. */
  lemma MarkedIsImportant(v: string)
    ensures IsImportant(v + " " + Important)
  {
    SqueezeMarked(v);
    SuffixOfConcat(RemoveAll(v, TidyWhitespace), Important);
    ImportantIsLowerCase();
  }

  /** A value that ends in `!important`, with or without a space before it, is important. */
  lemma SuffixedIsImportant(v: string)
    ensures IsImportant(v + Important)
  {
    RemoveAllConcat(v, Important, TidyWhitespace);
    ImportantHasNoBlank();
    RemoveAllKeeps(Important, TidyWhitespace);
    SuffixOfConcat(RemoveAll(v, TidyWhitespace), Important);
    ImportantIsLowerCase();
  }

  /** A value whose last ten characters are `!important` is important. */
  lemma EndsImportant(t: string)
    requires |t| >= |Important| && t[|t| - |Important|..] == Important
    ensures IsImportant(t)
  {
    assert t == t[..|t| - |Important|] + Important;
    SuffixedIsImportant(t[..|t| - |Important|]);
  }

  /** Removing the whitespace from a marked value leaves the marker at the end. */
  lemma SqueezeMarked(v: string)
    ensures RemoveAll(v + " " + Important, TidyWhitespace) == RemoveAll(v, TidyWhitespace) + Important
  {
    var w := " " + Important;
    assert v + " " + Important == v + w;
    RemoveAllConcat(v, w, TidyWhitespace);
    ImportantHasNoBlank();
    SqueezeAfterSpace(Important);
  }

  lemma ImportantHasNoBlank()
    ensures forall j :: 0 <= j < |Important| ==> Important[j] !in TidyWhitespace
  {
  }

  lemma SqueezeAfterSpace(w: string)
    requires forall j :: 0 <= j < |w| ==> w[j] !in TidyWhitespace
    ensures RemoveAll(" " + w, TidyWhitespace) == w
  {
    assert (" " + w)[1..] == w;
    RemoveAllKeeps(w, TidyWhitespace);
  }

  lemma SuffixOfConcat(a: string, b: string)
    ensures (a + b)[|a + b| - |b|..] == b
  {
  }

  lemma ImportantIsLowerCase()
    ensures Lower(Important) == Important
  {
    forall i | 0 <= i < |Important| ensures !('A' <= Important[i] <= 'Z') {
      assert Important[i] in "!important";
    }
    LowerOfLower(Important);
  }

  lemma {:induction false} RemoveAllConcat(a: string, b: string, cs: set<char>)
    ensures RemoveAll(a + b, cs) == RemoveAll(a, cs) + RemoveAll(b, cs)
  {
    if a == [] {
      assert a + b == b;
    } else {
      assert (a + b)[0] == a[0] && (a + b)[1..] == a[1..] + b;
      RemoveAllConcat(a[1..], b, cs);
      var h := if a[0] in cs then [] else [a[0]];
      assert h + (RemoveAll(a[1..], cs) + RemoveAll(b, cs)) == (h + RemoveAll(a[1..], cs)) + RemoveAll(b, cs);
    }
  }

  lemma {:induction false} RemoveAllKeeps(s: string, cs: set<char>)
    requires forall j :: 0 <= j < |s| ==> s[j] !in cs
    ensures RemoveAll(s, cs) == s
  {
    if s != [] {
      assert forall j :: 0 <= j < |s[1..]| ==> s[1..][j] == s[j + 1];
      RemoveAllKeeps(s[1..], cs);
      assert [s[0]] + s[1..] == s;
    }
  }

  /**
   * Marking a value important and removing the mark again gives the value
   * back, trimmed.
   */
  lemma RemoveMarkedImportant(v: string)
    ensures RemoveImportant(v + " " + Important) == Trim(v)
  {
    MarkedIsImportant(v);
    var m := " " + Important;
    assert v + " " + Important == v + m;
    assert m[1] == '!' && m[10] == 't' && '!' !in TrimChars && 't' !in TrimChars;
    Unmark(v, m);
  }

  /** The removal steps on a value followed by an eleven-character marker such as " !important". */
  lemma Unmark(v: string, m: string)
    requires |m| == 11 && m[0] == ' ' && m[1] !in TrimChars && m[10] !in TrimChars
    ensures CutTail(CutTail(Trim(v + m), 9), 1) == Trim(v)
  {
    TrimLeftConcat(v, m, TrimChars);
    var l := TrimLeftOf(v, TrimChars);
    if l != [] {
      assert Trim(v + m) == Trim(l + m) by {
        TrimLeftConcat(l, m, TrimChars);
      }
      UnmarkWord(l, m);
    } else {
      UnmarkBlank(v, m);
    }
  }

  /** With a non-blank first character, only the marker and the space before it go. */
  lemma UnmarkWord(l: string, m: string)
    requires l != [] && l[0] !in TrimChars
    requires |m| == 11 && m[0] == ' ' && m[1] !in TrimChars && m[10] !in TrimChars
    ensures CutTail(CutTail(Trim(l + m), 9), 1) == TrimRightOf(l, TrimChars)
  {
    TrimWithEnds(l, m);
    CutWord(l, m);
  }

  lemma CutWord(l: string, m: string)
    requires l != [] && l[0] !in TrimChars
    requires |m| == 11 && m[0] == ' ' && m[1] !in TrimChars && m[10] !in TrimChars
    ensures CutTail(CutTail(l + m, 9), 1) == TrimRightOf(l, TrimChars)
  {
    CutMarker(l, m);
    CutBang(l, m[..2]);
  }

  /** A blank value leaves nothing behind. */
  lemma UnmarkBlank(v: string, m: string)
    requires TrimLeftOf(v, TrimChars) == []
    requires |m| == 11 && m[0] == ' ' && m[1] !in TrimChars && m[10] !in TrimChars
    ensures CutTail(CutTail(Trim(v + m), 9), 1) == []
  {
    TrimBlankThenMarker(v, m);
    CutBare(m[1..]);
  }

  lemma TrimBlankThenMarker(v: string, m: string)
    requires TrimLeftOf(v, TrimChars) == []
    requires |m| == 11 && m[0] == ' ' && m[1] !in TrimChars && m[10] !in TrimChars
    ensures Trim(v + m) == m[1..]
  {
    TrimBlankPrefix(v, m, TrimChars);
    TrimDropsFirst(m, TrimChars);
    TrimKeeps(m[1..], TrimChars);
  }

  /** A leading character of the list is trimmed away. */
  lemma TrimDropsFirst(m: string, cs: set<char>)
    requires m != [] && m[0] in cs
    ensures TrimOf(m, cs) == TrimOf(m[1..], cs)
  {
  }

  /** A prefix that trims to nothing does not change what the rest trims to. */
  lemma TrimBlankPrefix(v: string, m: string, cs: set<char>)
    requires TrimLeftOf(v, cs) == []
    ensures TrimOf(v + m, cs) == TrimOf(m, cs)
  {
    TrimLeftConcat(v, m, cs);
  }

  lemma CutBare(t: string)
    requires |t| == 10 && t[0] !in TrimChars
    ensures CutTail(CutTail(t, 9), 1) == []
  {
    CutToFirst(t);
    CutSingle(t[..1]);
  }

  lemma CutToFirst(t: string)
    requires |t| == 10 && t[0] !in TrimChars
    ensures CutTail(t, 9) == t[..1]
  {
    SubstrDropsTail([], t, 9);
    assert [] + t == t && [] + t[..1] == t[..1];
    TrimKeeps(t[..1], TrimChars);
  }

  lemma CutSingle(c: string)
    requires |c| == 1
    ensures CutTail(c, 1) == []
  {
    SubstrDropsTail([], c, 1);
    assert [] + c == c;
  }

  /** `substr($a . $b, 0, -k)` for `k` within `$b`. */
  lemma SubstrDropsTail(a: string, b: string, k: nat)
    requires 0 < k <= |b|
    ensures Substr(a + b, 0, -(k as int)) == a + b[..|b| - k]
  {
    var s := a + b;
    if |s| > 0 {
      assert s[..|a| + |b| - k] == a + b[..|b| - k];
    }
  }
  /** Trimming a string whose ends are not blank changes nothing. */
  lemma TrimWithEnds(l: string, b: string)
    requires l != [] && l[0] !in TrimChars && b != [] && b[|b| - 1] !in TrimChars
    ensures Trim(l + b) == l + b
  {
    var x := l + b;
    assert x[0] == l[0] && x[|x| - 1] == b[|b| - 1];
    TrimKeeps(x, TrimChars);
  }
  lemma TrimSpaceAfter(l: string)
    requires l != [] && l[0] !in TrimChars
    ensures Trim(l + " ") == TrimRightOf(l, TrimChars)
  {
    var d2 := l + " ";
    assert TrimLeftOf(d2, TrimChars) == d2 by {
      assert d2[0] == l[0];
    }
    TrimRightDropsLast(d2, TrimChars);
    assert d2[..|d2| - 1] == l;
  }
  lemma CutMarker(l: string, m: string)
    requires l != [] && l[0] !in TrimChars
    requires |m| == 11 && m[1] !in TrimChars
    ensures CutTail(l + m, 9) == l + m[..2]
  {
    assert Substr(l + m, 0, -9) == l + m[..2] by {
      SubstrDropsTail(l, m, 9);
    }
    TrimWithEnds(l, m[..2]);
  }
  lemma CutBang(l: string, b: string)
    requires l != [] && l[0] !in TrimChars
    requires |b| == 2 && b[0] == ' '
    ensures CutTail(l + b, 1) == TrimRightOf(l, TrimChars)
  {
    var d := Substr(l + b, 0, -1);
    assert d == l + " " by {
      SubstrDropsTail(l, b, 1);
      assert b[..1] == " ";
    }
    assert Trim(d) == TrimRightOf(l, TrimChars) by {
      TrimSpaceAfter(l);
    }
  }
  /** The character PHP before 7.1 reads at `$s{k}`: none when `k` is out of range. */
  function CharAt(s: string, k: int): string {
    if 0 <= k < |s| then [s[k]] else ""
  }

  /** `CSSTidy::escaped`, with the failed read at offset -1 as an empty string. */
  predicate TidyEscaped(s: string, pos: nat)
    decreases pos
  {
    !(CharAt(s, pos - 1) != "\\" || (pos > 0 && TidyEscaped(s, pos - 1)))
  }

  /** The older `escaped` and the parser's agree everywhere. */
  lemma {:induction false} SameEscaped(s: string, pos: nat)
    ensures TidyEscaped(s, pos) == Scanner.Escaped(s, pos)
    decreases pos
  {
    if pos > 0 {
      SameEscaped(s, pos - 1);
      if pos <= |s| {
        assert CharAt(s, pos - 1) == "\\" <==> s[pos - 1] == '\\';
      }
    }
  }

  /** `CSSTidy::propertyIsValid` against the older table. */
  function TidyPropertyIsValid(property: string, level: string): (r: bool)
    ensures r ==> Scanner.PropertyIsValid(AllProperties, property, level)
    ensures r <==> property !in AddedInParser && Scanner.PropertyIsValid(AllProperties, property, level)
  {
    Scanner.PropertyIsValid(LegacyProperties, property, level)
  }

  /** `CSSTidy::propertyIsNext` against the older table. */
  function TidyPropertyIsNext(s: string, pos: nat): (r: bool)
    ensures r ==> Scanner.PropertyIsNext(AllProperties, s, pos)
  {
    Scanner.PropertyIsNext(LegacyProperties, s, pos)
  }
}
