/** What it is for a text to spell a JSON tree: the tokens of the tree in order, with any characters that
    mean nothing between them. The text that the printer writes is the spelling without such characters. */
module JsonGrammar {
  import opened Common
  import opened MachineInts
  import opened JsonText

  /** Blanks, tabs, line breaks and whatever else can be no part of a token. */
  predicate Filler(c: char) {
    && !('0' <= c <= '9') && !('a' <= c <= 'z') && !('A' <= c <= 'Z')
    && c != '\"' && c != '{' && c != '}' && c != '[' && c != ']' && c != ',' && c != ':' && c != '-' && c != '.'
  }

  ghost predicate Gap(text: string, p: nat, q: nat) {
    p <= q <= |text| && forall k | p <= k < q :: FillerAt(text, k)
  }

  predicate FillerAt(text: string, k: nat)
    requires k < |text|
  {
    Filler(text[k])
  }

  /** The text of a floating-point number with a point: a digit first, behind at most one minus sign, and an
      exponent only where it is negative. */
  predicate RealText(t: string) {
    && '.' in t
    && (var d := if t[0] == '-' then 1 else 0; d < |t| && '0' <= t[d] <= '9')
    && forall k | 0 <= k < |t| :: InReal(t, k)
  }

  predicate InReal(t: string, k: nat)
    requires k < |t|
  {
    || '0' <= t[k] <= '9'
    || t[k] == '.'
    || (t[k] == '-' && (k == 0 || t[k - 1] == 'e'))
    || (t[k] == 'e' && k + 1 < |t| && t[k + 1] == '-')
  }

  predicate IsDigit(c: char) {
    '0' <= c <= '9'
  }

  predicate AllDigits(s: string) {
    forall i | 0 <= i < |s| :: IsDigit(s[i])
  }

  function DigitsValue(s: string): nat
    requires AllDigits(s)
  {
    if s == [] then 0
    else
      assert IsDigit(s[|s| - 1]);
      10 * DigitsValue(s[..|s| - 1]) + (s[|s| - 1] as int - '0' as int)
  }

  /** A whole number: digits, leading zeros or not, behind a minus sign or not. */
  predicate Numeral(t: string, n: int) {
    var negative := t != [] && t[0] == '-';
    var digits := if negative then t[1..] else t;
    digits != [] && AllDigits(digits)
    && var size: int := DigitsValue(digits); n == if negative then -size else size
  }

  /** One token: a word, a number, or the characters of a string between quotes, as they are. */
  predicate SpellsLeaf(t: string, v: Json)
    requires !IsContainer(v)
  {
    match v
    case Null => t == "null"
    case Bool(b) => t == if b then "true" else "false"
    case Int(n) => Numeral(t, n)
    case Real(r) => t == r && RealText(r)
    case Str(s) => t == "\"" + s + "\""
  }

  predicate IsContainer(v: Json) {
    v.Arr? || v.Obj?
  }

  /** The characters from i up to j spell v. Between the brackets of an empty container nothing may stand. */
  ghost predicate Spells(text: string, i: nat, j: nat, v: Json)
    decreases v, 0
  {
    match v
    case Arr(items) =>
      && i + 2 <= j <= |text| && text[i] == '[' && text[j - 1] == ']'
      && if items == [] then j == i + 2 else SpellsItems(text, i + 1, j - 1, items, 0)
    case Obj(fields) =>
      && i + 2 <= j <= |text| && text[i] == '{' && text[j - 1] == '}'
      && if fields == [] then j == i + 2 else SpellsFields(text, i + 1, j - 1, fields, 0)
    case _ => i <= j <= |text| && SpellsLeaf(text[i..j], v)
  }

  /** The same from a up to b, in a gap from p to c. */
  ghost predicate SpellsPadded(text: string, p: nat, a: nat, b: nat, c: nat, v: Json)
    decreases v, 1
  {
    Gap(text, p, a) && Spells(text, a, b, v) && Gap(text, b, c)
  }

  /** The items from the k-th on, with commas between them, up to e. */
  ghost predicate SpellsItems(text: string, p: nat, e: nat, items: seq<Json>, k: nat)
    requires k < |items| && e <= |text|
    decreases items, |items| - k
  {
    exists a: nat, b: nat, c: nat ::
      && SpellsPadded(text, p, a, b, c, items[k])
      && if k + 1 == |items| then c == e else c < e && text[c] == ',' && SpellsItems(text, c + 1, e, items, k + 1)
  }

  ghost predicate SpellsFields(text: string, p: nat, e: nat, fields: seq<Field>, k: nat)
    requires k < |fields| && e <= |text|
    decreases fields, |fields| - k
  {
    exists c: nat ::
      && SpellsField(text, p, c, fields[k])
      && if k + 1 == |fields| then c == e else c < e && text[c] == ',' && SpellsFields(text, c + 1, e, fields, k + 1)
  }

  /** A quoted key, a colon and a value. */
  ghost predicate SpellsField(text: string, p: nat, c: nat, f: Field)
    decreases f, 0
  {
    exists a: nat, m: nat, x: nat, y: nat ::
      SpellsKey(text, p, a, m, f.key) && SpellsPadded(text, m, x, y, c, f.value)
  }

  /** The key stands at a, and m is behind the colon. */
  ghost predicate SpellsKey(text: string, p: nat, a: nat, m: nat, key: string) {
    && Gap(text, p, a) && a + |key| + 2 <= |text| && text[a..a + |key| + 2] == "\"" + key + "\""
    && 0 < m <= |text| && Gap(text, a + |key| + 2, m - 1) && text[m - 1] == ':'
  }
}
