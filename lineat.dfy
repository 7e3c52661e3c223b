/**
 * lib/LineAt.php: an opaque one-line at-rule (`@name value;`) kept verbatim,
 * such as an unknown at-rule or an `@import`.
 */
module LineAts {

  /** The record the PHP constructor builds: both fields are stored as given. */
  datatype LineAt = LineAt(name: string, value: string)

  /** `__toString`: "@" + name + " " + value + ";" */
  function ToText(l: LineAt): (r: string)
    ensures |r| == |l.name| + |l.value| + 3
    ensures r[0] == '@' && r[|r| - 1] == ';'
    ensures r[1..|l.name| + 1] == l.name && r[|l.name| + 1] == ' '
    ensures r[|l.name| + 2..|r| - 1] == l.value
  {
    "@" + l.name + " " + l.value + ";"
  }

  /** The position of the first space in `s`, or |s|. */
  function FirstSpace(s: string): (k: nat)
    ensures k <= |s|
    ensures k < |s| ==> s[k] == ' '
    ensures forall j :: 0 <= j < k ==> s[j] != ' '
  {
    if s == [] || s[0] == ' ' then 0 else 1 + FirstSpace(s[1..])
  }

  /**
   * The inverse of ToText for names without a space: the name runs up to the
   * first space after `@`, the value up to the final `;`.
   */
  function FromText(s: string): (l: LineAt)
    requires |s| >= 3 && s[0] == '@' && s[|s| - 1] == ';'
  {
    var body := s[1..|s| - 1];
    var k := FirstSpace(body);
    if k < |body| then LineAt(body[..k], body[k + 1..]) else LineAt(body, "")
  }

  /** Rendering then reading back gives the same record, so ToText is one-to-one on such names. */
  lemma {:induction false} FromToText(l: LineAt)
    requires ' ' !in l.name
    ensures FromText(ToText(l)) == l
  {
    var s := ToText(l);
    var body := s[1..|s| - 1];
    assert body == l.name + " " + l.value;
    assert body[|l.name|] == ' ';
    forall j | 0 <= j < |l.name| ensures body[j] != ' ' {
      assert body[j] == l.name[j];
    }
    var k := FirstSpace(body);
    assert k == |l.name|;
    assert body[..k] == l.name;
    assert body[k + 1..] == l.value;
  }
}
