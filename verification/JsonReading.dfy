/** Reading back: whatever text spells a tree, however its tokens are set apart, gives the tree in its normal
    form. */
module JsonReading {
  import opened Common
  import opened MachineInts
  import opened JsonText
  import opened JsonGrammar
  import opened JsonParse

  // ---------------------------------------------------------------- what can be read back

  predicate KeysDiffer(fields: seq<Field>) {
    forall i, j | 0 <= i < j < |fields| :: fields[i].key != fields[j].key
  }

  /** Nothing in it needs an escape, and no key is there twice or would be cut short. */
  predicate Clean(v: Json) {
    match v
    case Str(s) => '\"' !in s
    case Arr(items) => forall i | 0 <= i < |items| :: Clean(items[i])
    case Obj(fields) =>
      && KeysDiffer(fields)
      && forall i | 0 <= i < |fields| ::
           '\"' !in fields[i].key && NUL !in fields[i].key && Clean(fields[i].value)
    case _ => true
  }

  /** The normal form: the parser makes a container only when it puts something into it. */
  function Norm(v: Json): Json {
    match v
    case Arr(items) =>
      if items == [] then Null else Arr(seq(|items|, i requires 0 <= i < |items| => Norm(items[i])))
    case Obj(fields) =>
      if fields == [] then Null
      else Obj(seq(|fields|, i requires 0 <= i < |fields| => Field(fields[i].key, Norm(fields[i].value))))
    case _ => v
  }

  /** What was read once reads back as it is. */
  lemma {:induction false} NormIsStable(v: Json)
    ensures Norm(Norm(v)) == Norm(v)
  {
    match v
    case Arr(items) =>
      forall i | 0 <= i < |items| ensures Norm(Norm(items[i])) == Norm(items[i]) {
        NormIsStable(items[i]);
      }
      assert items != [] ==> Norm(Norm(v)).items == Norm(v).items;
    case Obj(fields) =>
      forall i | 0 <= i < |fields| ensures Norm(Norm(fields[i].value)) == Norm(fields[i].value) {
        NormIsStable(fields[i].value);
      }
      assert fields != [] ==> Norm(Norm(v)).fields == Norm(v).fields;
    case _ =>
  }

  predicate NoneEmpty(v: Json) {
    match v
    case Arr(items) => items != [] && forall i | 0 <= i < |items| :: NoneEmpty(items[i])
    case Obj(fields) => fields != [] && forall i | 0 <= i < |fields| :: NoneEmpty(fields[i].value)
    case _ => true
  }

  /** Only an empty container, anywhere in it, makes the normal form another tree. */
  lemma {:induction false} NormKeepsExactly(v: Json)
    ensures Norm(v) == v <==> NoneEmpty(v)
  {
    match v
    case Arr(items) =>
      forall i | 0 <= i < |items| ensures Norm(items[i]) == items[i] <==> NoneEmpty(items[i]) {
        NormKeepsExactly(items[i]);
      }
      assert items != [] ==> forall i | 0 <= i < |items| :: Norm(v).items[i] == Norm(items[i]);
    case Obj(fields) =>
      forall i | 0 <= i < |fields| ensures Norm(fields[i].value) == fields[i].value <==> NoneEmpty(fields[i].value) {
        NormKeepsExactly(fields[i].value);
      }
      assert fields != [] ==>
          forall i | 0 <= i < |fields| :: Norm(v).fields[i] == Field(fields[i].key, Norm(fields[i].value));
    case _ =>
  }

  /** What the parser holds after the first i items, or fields, of a container. */
  function FirstItems(items: seq<Json>, i: nat): Json
    requires i <= |items|
  {
    Norm(Arr(items[..i]))
  }

  function FirstFields(fields: seq<Field>, i: nat): Json
    requires i <= |fields|
  {
    Norm(Obj(fields[..i]))
  }

  lemma NextItem(items: seq<Json>, i: nat)
    requires i < |items|
    ensures Push(FirstItems(items, i), Norm(items[i])) == FirstItems(items, i + 1)
  {
    assert items[..i + 1] == items[..i] + [items[i]];
  }

  lemma {:induction false} PutNewKey(fields: seq<Field>, f: Field)
    requires forall i | 0 <= i < |fields| :: fields[i].key != f.key
    ensures PutField(fields, f) == fields + [f]
  {
    if fields != [] {
      PutNewKey(fields[1..], f);
    }
  }

  function ValueOf(fields: seq<Field>, key: string): Option<Json> {
    if fields == [] then None else if fields[0].key == key then Some(fields[0].value) else ValueOf(fields[1..], key)
  }

  /** A key that comes again replaces the value that it had, and no other. */
  lemma {:induction false} PutSets(fields: seq<Field>, f: Field, key: string)
    ensures ValueOf(PutField(fields, f), key) == if key == f.key then Some(f.value) else ValueOf(fields, key)
    ensures |PutField(fields, f)| == |fields| + if ValueOf(fields, f.key).Some? then 0 else 1
  {
    if fields != [] && fields[0].key != f.key {
      PutSets(fields[1..], f, key);
    }
  }

  lemma NextField(fields: seq<Field>, i: nat)
    requires i < |fields| && KeysDiffer(fields)
    ensures Put(FirstFields(fields, i), Field(fields[i].key, Norm(fields[i].value))) == FirstFields(fields, i + 1)
  {
    assert fields[..i + 1] == fields[..i] + [fields[i]];
    if i > 0 {
      PutNewKey(FirstFields(fields, i).fields, Field(fields[i].key, Norm(fields[i].value)));
    }
  }

  // ---------------------------------------------------------------- numbers

  lemma {:induction false} DigitsAreTaken(s: string, rest: string)
    requires AllDigits(s) && (rest != [] ==> !IsDigit(rest[0]))
    ensures DigitPrefix(s + rest) == s
  {
    if s != [] {
      assert (s + rest)[1..] == s[1..] + rest;
      DigitsAreTaken(s[1..], rest);
    } else {
      assert s + rest == rest;
    }
  }

  /** Every 64-bit number is read from any of its numerals, whatever that is no digit follows. */
  lemma NumeralIsTaken(t: string, rest: string, n: int)
    requires Numeral(t, n) && (rest != [] ==> !IsDigit(rest[0]))
    ensures FromChars(t + rest) == if FitsInt64(n) then Some(n) else None
  {
    if t[0] == '-' {
      assert (t + rest)[1..] == t[1..] + rest;
      DigitsAreTaken(t[1..], rest);
    } else {
      DigitsAreTaken(t, rest);
      assert (t + rest)[0] == t[0];
    }
  }

  lemma NumeralIsRead(t: string, n: int)
    requires Numeral(t, n)
    ensures NumberOf(t) == if FitsInt64(n) then Int(n) else Null
  {
    NumeralIsTaken(t, "", n);
    assert t + "" == t;
    NumeralIsNumber(t, n);
  }

  lemma NumeralIsNumber(t: string, n: int)
    requires Numeral(t, n)
    ensures t != [] && forall i | 0 <= i < |t| :: IsNumber(t[i])
  {
    assert t[0] == '-' ==> forall i | 1 <= i < |t| :: t[i] == t[1..][i - 1];
  }

  // ---------------------------------------------------------------- scans over spelled text

  lemma StartsWithParts(text: string, i: nat, a: string, b: string)
    requires StartsWith(text, i, a + b)
    ensures StartsWith(text, i, a) && StartsWith(text, i + |a|, b)
  {
    assert text[i..i + |a|] == (a + b)[..|a|];
    assert text[i + |a|..i + |a| + |b|] == (a + b)[|a|..];
  }

  lemma StartsWithAt(text: string, i: nat, word: string, k: nat)
    requires StartsWith(text, i, word) && k < |word|
    ensures text[i + k] == word[k]
  {
    assert text[i..i + |word|][k] == text[i + k];
  }

  lemma {:induction false} ScanFinds(text: string, i: nat, j: nat, stop: char -> bool)
    requires i <= j < |text| && stop(text[j]) && forall k | i <= k < j :: !stop(text[k])
    ensures ScanTo(text, i, stop) == Stopped(j, true)
    decreases j - i
  {
    if i < j {
      ScanFinds(text, i + 1, j, stop);
    }
  }

  /** Whether the number has gone on to this place. */
  predicate NumberGoesOn(text: string, k: nat)
    requires k < |text|
  {
    IsNumber(text[k]) || text[k] == '.' || (text[k] == 'e' && k + 1 < |text| && text[k + 1] == '-')
  }

  lemma {:induction false} NumberFinds(text: string, i: nat, j: nat)
    requires i <= j < |text| && Closes(text[j]) && forall k | i <= k < j :: NumberGoesOn(text, k)
    ensures ScanNumber(text, i) == Stopped(j, true)
    decreases j - i
  {
    if i < j {
      assert NumberGoesOn(text, i);
      NumberFinds(text, i + 1, j);
    }
  }

  /** What may stand directly behind a token. */
  predicate Closes(c: char) {
    Filler(c) || c == ',' || c == '}' || c == ']'
  }

  /** From one token on to the next there are fillers, commas and colons only. */
  ghost predicate Between(text: string, p: nat, q: nat) {
    p <= q <= |text| && forall k | p <= k < q :: NothingAt(text, k)
  }

  predicate NothingAt(text: string, k: nat)
    requires k < |text|
  {
    FillerAt(text, k) || text[k] == ',' || text[k] == ':'
  }

  lemma FirstOf(text: string, p: nat, word: string)
    requires word != []
    ensures StartsWith(text, p, word) ==> text[p] == word[0]
  {
    if StartsWith(text, p, word) {
      StartsWithAt(text, p, word, 0);
    }
  }

  /** A word that runs on into a letter is no value, nor null one that runs on into a number. */
  lemma RunOnIsNoWord(text: string, i: nat, word: string)
    requires word == "true" || word == "false" || word == "null"
    requires StartsWith(text, i, word) && i + |word| < |text|
    ensures StartsValue(text, i)
        <==> !IsLetter(text[i + |word|]) && !(word == "null" && IsNumber(text[i + |word|]))
  {
    FirstOf(text, i, "true");
    FirstOf(text, i, "false");
    FirstOf(text, i, "null");
    FirstOf(text, i, word);
  }

  lemma NoValueHere(text: string, k: nat)
    requires k < |text| && NothingAt(text, k)
    ensures !StartsValue(text, k) && text[k] != '}' && text[k] != ']' && text[k] != '\"'
  {
    FirstOf(text, k, "true");
    FirstOf(text, k, "false");
    FirstOf(text, k, "null");
  }

  lemma {:induction false} ValueFinds(text: string, p: nat, q: nat)
    requires Between(text, p, q) && q < |text| && StartsValue(text, q)
    ensures ScanValue(text, p) == Stopped(q, true)
    decreases q - p
  {
    if p < q {
      assert NothingAt(text, p);
      NoValueHere(text, p);
      ValueFinds(text, p + 1, q);
    }
  }

  lemma QuotedFinds(text: string, i: nat, s: string)
    requires StartsWith(text, i, "\"" + s + "\"") && '\"' !in s
    ensures text[i] == '\"' && ParseString(text, i + 1, true) == Parsed(s, i + |s| + 2, true)
  {
    var end, quoted := i + 1 + |s|, "\"" + s + "\"";
    StartsWithAt(text, i, quoted, 0);
    StartsWithAt(text, i, quoted, 1 + |s|);
    StartsWithParts(text, i, "\"" + s, "\"");
    StartsWithParts(text, i, "\"", s);
    forall k | i + 1 <= k < end ensures text[k] != '\"' {
      StartsWithAt(text, i + 1, s, k - i - 1);
    }
    ScanFinds(text, i + 1, end, IsQuote);
  }

  // ---------------------------------------------------------------- reading tokens

  lemma SliceAt(text: string, a: nat, b: nat, k: nat)
    requires a <= k < b <= |text|
    ensures text[a..b][k - a] == text[k]
  {
  }

  lemma NumberIsFound(text: string, a: nat, b: nat, n: int64)
    requires a <= b < |text| && Numeral(text[a..b], n) && Closes(text[b])
    ensures IsNumber(text[a]) && ParseNumber(text, a, true) == Parsed(Int(n), b, true)
  {
    NumeralIsRead(text[a..b], n);
    NumeralIsNumber(text[a..b], n);
    forall k | a <= k < b ensures IsNumber(text[k]) {
      SliceAt(text, a, b, k);
    }
    NumberFinds(text, a, b);
  }

  lemma RealGoesOn(text: string, a: nat, b: nat, t: string, i: nat)
    requires a <= b < |text| && text[a..b] == t && RealText(t) && i < |t|
    ensures text[a + i] == t[i] && NumberGoesOn(text, a + i)
  {
    assert InReal(t, i);
    assert text[a..b][i] == text[a + i];
    if i + 1 < |t| {
      assert text[a..b][i + 1] == text[a + i + 1];
    }
  }

  lemma RealIsFound(text: string, a: nat, b: nat, t: string)
    requires a <= b < |text| && text[a..b] == t && RealText(t) && Closes(text[b])
    ensures IsNumber(text[a]) && ParseNumber(text, a, true) == Parsed(Real(t), b, true)
  {
    forall k | a <= k < b ensures t[k - a] == text[k] && NumberGoesOn(text, k) {
      RealGoesOn(text, a, b, t, k - a);
    }
    NumberFinds(text, a, b);
    assert StartsReal(t);
  }

  lemma WordIsFound(text: string, a: nat, b: nat, v: Json, fuel: nat)
    requires a <= b < |text| && (v.Null? || v.Bool?) && SpellsLeaf(text[a..b], v) && Closes(text[b])
    ensures StartsValue(text, a) && ParseFound(text, a, true, fuel) == Parsed(v, b, true)
  {
    SliceAt(text, a, b, a);
    if v.Null? {
      FirstOf(text, a, "true");
      FirstOf(text, a, "false");
      assert IsNull(text, a);
    } else if v.b {
      assert IsTrue(text, a);
    } else {
      FirstOf(text, a, "true");
      assert IsFalse(text, a);
    }
  }

  lemma LeafIsFound(text: string, a: nat, b: nat, v: Json, fuel: nat)
    requires Spells(text, a, b, v) && !IsContainer(v) && Clean(v) && b < |text| && Closes(text[b])
    ensures StartsValue(text, a) && ParseFound(text, a, true, fuel) == Parsed(v, b, true)
  {
    match v
    case Str(s) => QuotedFinds(text, a, s);
    case Int(n) => NumberIsFound(text, a, b, n);
    case Real(t) => RealIsFound(text, a, b, t);
    case _ => WordIsFound(text, a, b, v, fuel);
  }

  predicate OpensValue(c: char) {
    c == '\"' || IsOpen(c) || IsNumber(c) || c == 't' || c == 'f' || c == 'n'
  }

  lemma SpelledOpens(text: string, a: nat, b: nat, v: Json)
    requires Spells(text, a, b, v)
    ensures a < b <= |text| && OpensValue(text[a])
  {
    if v.Int? {
      NumeralIsNumber(text[a..b], v.n);
    }
    if !IsContainer(v) {
      assert text[a..b][0] == text[a];
    }
  }

  lemma KeyIsRead(text: string, q: nat, a: nat, key: string)
    requires Between(text, q, a) && StartsWith(text, a, "\"" + key + "\"") && '\"' !in key
    ensures ParseKey(text, q, true) == Parsed(key, a + |key| + 2, true)
  {
    QuotedFinds(text, a, key);
    forall k | q <= k < a ensures !IsQuoteOrBrace(text[k]) {
      assert NothingAt(text, k);
      NoValueHere(text, k);
    }
    ScanFinds(text, q, a, IsQuoteOrBrace);
  }

  lemma {:induction false} WholeCString(s: string)
    requires NUL !in s
    ensures CString(s) == s
  {
    if s != [] {
      WholeCString(s[1..]);
    }
  }

  // ---------------------------------------------------------------- reading spelled trees

  /** What may follow a value and its fillers. */
  predicate Divides(c: char) {
    c == ',' || c == '}' || c == ']'
  }

  /** From p on, a spelled value stands from a up to b, fillers around it, and is divided at c from what follows. */
  ghost predicate Ahead(text: string, p: nat, a: nat, b: nat, c: nat, v: Json) {
    Between(text, p, a) && Spells(text, a, b, v) && Gap(text, b, c) && c < |text| && Divides(text[c])
  }

  /** With this much fuel or more, a value is read from p and the cursor stops at the end. */
  ghost predicate ReadsValue(text: string, p: nat, v: Json, need: nat, end: nat) {
    forall fuel: nat | need <= fuel :: ParseValue(text, p, true, fuel) == Parsed(Norm(v), end, true)
  }

  /** The key fact: whatever fillers stand around a spelled value, the parser takes the value and stops on the
      comma or bracket behind it. */
  lemma {:induction false} ValueIsRead(text: string, p: nat, a: nat, b: nat, c: nat, v: Json, need: nat)
    requires Ahead(text, p, a, b, c, v) && Clean(v) && b - a <= need
    ensures ReadsValue(text, p, v, need, c)
    decreases v, 1
  {
    SpelledOpens(text, a, b, v);
    assert b == c || FillerAt(text, b);
    if IsContainer(v) {
      ContainerIsRead(text, a, b, v, need);
    }
    forall fuel: nat | need <= fuel ensures ParseValue(text, p, true, fuel) == Parsed(Norm(v), c, true) {
      if IsContainer(v) {
        ContainerIsFound(text, a, fuel);
      } else {
        LeafIsFound(text, a, b, v, fuel);
      }
      ValueFromFound(text, p, a, b, c, Norm(v), fuel);
    }
  }

  lemma ValueFromFound(text: string, p: nat, a: nat, b: nat, c: nat, v: Json, fuel: nat)
    requires Between(text, p, a) && a < |text| && StartsValue(text, a)
    requires ParseFound(text, a, true, fuel) == Parsed(v, b, true)
    requires Gap(text, b, c) && c < |text| && Divides(text[c])
    ensures ParseValue(text, p, true, fuel) == Parsed(v, c, true)
  {
    ValueFinds(text, p, a);
    forall k | b <= k < c ensures !EndsValue(text[k]) {
      assert FillerAt(text, k);
    }
    ScanFinds(text, b, c, EndsValue);
  }

  /** What the parser does behind an opening bracket. */
  function ParseInside(text: string, q: nat, fuel: nat): Outcome<Json>
    requires q < |text|
  {
    if text[q] == '{' then ParseObject(text, q + 1, true, Null, fuel) else ParseArray(text, q + 1, true, Null, fuel)
  }

  lemma {:induction false} ContainerIsRead(text: string, i: nat, j: nat, v: Json, need: nat)
    requires Spells(text, i, j, v) && Clean(v) && IsContainer(v) && j - i <= need
    ensures i < j <= |text| && IsOpen(text[i])
    ensures forall fuel: nat | need <= fuel :: ParseInside(text, i, fuel) == Parsed(Norm(v), j, true)
    decreases v, 0
  {
    match v
    case Arr(items) =>
      if items != [] {
        ItemsAreRead(text, i + 1, i + 1, j - 1, items, 0, need);
      }
      AllItems(items);
    case Obj(fields) =>
      if fields != [] {
        FieldsAreRead(text, i + 1, i + 1, j - 1, fields, 0, need);
      }
      AllFields(fields);
  }

  lemma AllItems(items: seq<Json>)
    ensures FirstItems(items, 0) == Null && FirstItems(items, |items|) == Norm(Arr(items))
  {
    assert items[..|items|] == items;
  }

  lemma AllFields(fields: seq<Field>)
    ensures FirstFields(fields, 0) == Null && FirstFields(fields, |fields|) == Norm(Obj(fields))
  {
    assert fields[..|fields|] == fields;
  }

  lemma ContainerIsFound(text: string, q: nat, fuel: nat)
    requires q < |text| && IsOpen(text[q])
    ensures StartsValue(text, q) && ParseFound(text, q, true, fuel) == ParseInside(text, q, fuel)
  {
    FirstOf(text, q, "true");
    FirstOf(text, q, "false");
    FirstOf(text, q, "null");
  }

  /** From the k-th item on the parser takes all the items, and the bracket behind them. */
  ghost predicate ReadsItems(text: string, p: nat, items: seq<Json>, k: nat, need: nat, stop: nat)
    requires k <= |items|
  {
    forall fuel: nat | need <= fuel ::
      ParseArray(text, p, true, FirstItems(items, k), fuel) == Parsed(FirstItems(items, |items|), stop, true)
  }

  lemma NextItemIsRead(text: string, p: nat, items: seq<Json>, k: nat, end: nat, need: nat, stop: nat)
    requires k < |items| && p < |text| && text[p] != ']' && end < |text| && need > 0
    requires ReadsValue(text, p, items[k], need - 1, end)
    requires ReadsItems(text, end, items, k + 1, need - 1, stop)
    ensures ReadsItems(text, p, items, k, need, stop)
  {
    NextItem(items, k);
    forall fuel: nat | need <= fuel
      ensures ParseArray(text, p, true, FirstItems(items, k), fuel)
           == ParseArray(text, end, true, FirstItems(items, k + 1), fuel - 1)
    {
    }
  }

  lemma LastItemIsRead(text: string, e: nat, items: seq<Json>, need: nat)
    requires e < |text| && text[e] == ']'
    ensures ReadsItems(text, e, items, |items|, need, e + 1)
  {
  }

  /** The cursor stands on no closing bracket as long as a spelled token lies ahead. */
  lemma NotClosedYet(text: string, q: nat, p: nat, a: nat)
    requires Between(text, q, p) && Gap(text, p, a) && a < |text| && OpensValue(text[a])
    ensures Between(text, q, a) && q < |text| && text[q] != '}' && text[q] != ']'
  {
    forall k | q <= k < a ensures NothingAt(text, k) {
      assert k < p || FillerAt(text, k);
    }
    if q < a {
      assert NothingAt(text, q);
      NoValueHere(text, q);
    }
  }

  lemma CleanItem(items: seq<Json>, k: nat)
    requires Clean(Arr(items)) && k < |items|
    ensures Clean(items[k])
  {
  }

  predicate CleanEntry(f: Field) {
    '\"' !in f.key && NUL !in f.key && Clean(f.value)
  }

  lemma CleanField(fields: seq<Field>, k: nat)
    requires Clean(Obj(fields)) && k < |fields|
    ensures CleanEntry(fields[k])
  {
  }

  lemma ItemAhead(text: string, q: nat, p: nat, e: nat, items: seq<Json>, k: nat) returns (a: nat, b: nat, c: nat)
    requires k < |items| && e < |text| && text[e] == ']' && Between(text, q, p) && SpellsItems(text, p, e, items, k)
    ensures q <= a < b <= c <= e && text[q] != ']' && Ahead(text, q, a, b, c, items[k])
    ensures if k + 1 == |items| then c == e else c < e && Between(text, c, c + 1) && SpellsItems(text, c + 1, e, items, k + 1)
  {
    a, b, c :|
      && SpellsPadded(text, p, a, b, c, items[k])
      && if k + 1 == |items| then c == e else c < e && text[c] == ',' && SpellsItems(text, c + 1, e, items, k + 1);
    PaddedAhead(text, q, p, a, b, c, items[k]);
    assert k + 1 < |items| ==> NothingAt(text, c);
  }

  lemma PaddedAhead(text: string, q: nat, p: nat, a: nat, b: nat, c: nat, v: Json)
    requires Between(text, q, p) && SpellsPadded(text, p, a, b, c, v) && c < |text| && Divides(text[c])
    ensures q <= a < b <= c && text[q] != '}' && text[q] != ']' && Ahead(text, q, a, b, c, v)
  {
    SpelledOpens(text, a, b, v);
    NotClosedYet(text, q, p, a);
  }

  lemma {:induction false} ItemsAreRead(text: string, q: nat, p: nat, e: nat, items: seq<Json>, k: nat, need: nat)
    requires k < |items| && e < |text| && text[e] == ']' && Between(text, q, p)
    requires SpellsItems(text, p, e, items, k) && Clean(Arr(items)) && e - q < need
    ensures ReadsItems(text, q, items, k, need, e + 1)
    decreases items, |items| - k, 1
  {
    var a, b, c := ItemAhead(text, q, p, e, items, k);
    CleanItem(items, k);
    ValueIsRead(text, q, a, b, c, items[k], need - 1);
    if k + 1 == |items| {
      LastItemIsRead(text, e, items, need - 1);
    } else {
      ItemsAreRead(text, c, c + 1, e, items, k + 1, need - 1);
    }
    NextItemIsRead(text, q, items, k, c, need, e + 1);
  }

  ghost predicate ReadsFields(text: string, p: nat, fields: seq<Field>, k: nat, need: nat, stop: nat)
    requires k <= |fields|
  {
    forall fuel: nat | need <= fuel ::
      ParseObject(text, p, true, FirstFields(fields, k), fuel) == Parsed(FirstFields(fields, |fields|), stop, true)
  }

  lemma NextFieldIsRead(text: string, p: nat, fields: seq<Field>, k: nat, end: nat, need: nat, stop: nat)
    requires k < |fields| && KeysDiffer(fields) && p < |text| && text[p] != '}' && end < |text| && need > 0
    requires ReadsField(text, p, fields[k], need - 1, end)
    requires ReadsFields(text, end, fields, k + 1, need - 1, stop)
    ensures ReadsFields(text, p, fields, k, need, stop)
  {
    NextField(fields, k);
    forall fuel: nat | need <= fuel
      ensures ParseObject(text, p, true, FirstFields(fields, k), fuel)
           == ParseObject(text, end, true, FirstFields(fields, k + 1), fuel - 1)
    {
    }
  }

  lemma LastFieldIsRead(text: string, e: nat, fields: seq<Field>, need: nat)
    requires e < |text| && text[e] == '}'
    ensures ReadsFields(text, e, fields, |fields|, need, e + 1)
  {
  }

  ghost predicate ReadsField(text: string, p: nat, f: Field, need: nat, end: nat) {
    forall fuel: nat | need <= fuel ::
      ParseField(text, p, true, fuel) == Parsed(Field(f.key, Norm(f.value)), end, true)
  }

  lemma ColonBetween(text: string, p: nat, m: nat, x: nat)
    requires 0 < m <= |text| && Gap(text, p, m - 1) && text[m - 1] == ':' && Gap(text, m, x)
    ensures Between(text, p, x)
  {
    forall k | p <= k < x ensures NothingAt(text, k) {
      assert if k == m - 1 then text[k] == ':' else FillerAt(text, k);
    }
  }

  lemma SpelledKeyIsRead(text: string, q: nat, p: nat, a: nat, m: nat, x: nat, key: string)
    requires Between(text, q, p) && SpellsKey(text, p, a, m, key) && Gap(text, m, x) && '\"' !in key
    ensures q < |text| && text[q] != '}' && q < a + |key| + 2 < |text|
    ensures ParseKey(text, q, true) == Parsed(key, a + |key| + 2, true) && Between(text, a + |key| + 2, x)
  {
    StartsWithAt(text, a, "\"" + key + "\"", 0);
    NotClosedYet(text, q, p, a);
    KeyIsRead(text, q, a, key);
    ColonBetween(text, a + |key| + 2, m, x);
  }

  lemma FieldAhead(text: string, q: nat, p: nat, c: nat, f: Field) returns (k: nat, x: nat, y: nat)
    requires Between(text, q, p) && SpellsField(text, p, c, f) && c < |text| && Divides(text[c]) && '\"' !in f.key
    ensures q < k <= x < y <= c && text[q] != '}'
    ensures ParseKey(text, q, true) == Parsed(f.key, k, true) && Ahead(text, k, x, y, c, f.value)
  {
    var a: nat, m: nat;
    a, m, x, y :| SpellsKey(text, p, a, m, f.key) && SpellsPadded(text, m, x, y, c, f.value);
    SpelledOpens(text, x, y, f.value);
    SpelledKeyIsRead(text, q, p, a, m, x, f.key);
    k := a + |f.key| + 2;
  }

  lemma {:induction false} FieldIsRead(text: string, q: nat, p: nat, c: nat, f: Field, need: nat)
    requires Between(text, q, p) && SpellsField(text, p, c, f) && c < |text| && Divides(text[c]) && c - q <= need
    requires CleanEntry(f)
    ensures q < c && text[q] != '}' && ReadsField(text, q, f, need, c)
    decreases f, 0
  {
    var k, x, y := FieldAhead(text, q, p, c, f);
    ValueIsRead(text, k, x, y, c, f.value, need);
    FieldFromParts(text, q, f, k, need, c);
  }

  lemma FieldFromParts(text: string, p: nat, f: Field, colon: nat, need: nat, end: nat)
    requires ParseKey(text, p, true) == Parsed(f.key, colon, true) && NUL !in f.key
    requires ReadsValue(text, colon, f.value, need, end)
    ensures ReadsField(text, p, f, need, end)
  {
    WholeCString(f.key);
  }

  lemma FieldsSplit(text: string, p: nat, e: nat, fields: seq<Field>, k: nat) returns (c: nat)
    requires k < |fields| && e < |text| && text[e] == '}' && SpellsFields(text, p, e, fields, k)
    ensures p < c <= e && Divides(text[c]) && SpellsField(text, p, c, fields[k])
    ensures if k + 1 == |fields| then c == e else c < e && Between(text, c, c + 1) && SpellsFields(text, c + 1, e, fields, k + 1)
  {
    c :|
      && SpellsField(text, p, c, fields[k])
      && if k + 1 == |fields| then c == e else c < e && text[c] == ',' && SpellsFields(text, c + 1, e, fields, k + 1);
    FieldIsSpace(text, p, c, fields[k]);
  }

  lemma FieldIsSpace(text: string, p: nat, c: nat, f: Field)
    requires SpellsField(text, p, c, f)
    ensures p < c
  {
    var a: nat, m: nat, x: nat, y: nat :| SpellsKey(text, p, a, m, f.key) && SpellsPadded(text, m, x, y, c, f.value);
    SpelledOpens(text, x, y, f.value);
  }

  lemma {:induction false} FieldsAreRead(text: string, q: nat, p: nat, e: nat, fields: seq<Field>, k: nat, need: nat)
    requires k < |fields| && p <= e < |text| && text[e] == '}' && Between(text, q, p)
    requires SpellsFields(text, p, e, fields, k) && Clean(Obj(fields)) && e - q < need
    ensures ReadsFields(text, q, fields, k, need, e + 1)
    decreases fields, |fields| - k, 1
  {
    var c := FieldsSplit(text, p, e, fields, k);
    if k + 1 == |fields| {
      LastFieldIsRead(text, e, fields, need - 1);
    } else {
      FieldsAreRead(text, c, c + 1, e, fields, k + 1, need - 1);
    }
    CleanField(fields, k);
    FieldIsRead(text, q, p, c, fields[k], need - 1);
    NextFieldIsRead(text, q, fields, k, c, need, e + 1);
  }

  /** A container, however it is spelled, is read to its last character, behind any text without an opening
      bracket and before any text at all: valid, and in its normal form. */
  lemma SpelledIsRead(text: string, i: nat, j: nat, v: Json, fuel: nat)
    requires Spells(text, i, j, v) && IsContainer(v) && Clean(v) && j - i <= fuel
    requires forall k | 0 <= k < i <= |text| :: text[k] != '{' && text[k] != '['
    ensures Parse(text, fuel) == Parsed(Norm(v), j, true)
  {
    ContainerIsRead(text, i, j, v, fuel);
    ScanFinds(text, 0, i, IsOpen);
    assert ParseInside(text, i, fuel) == Parsed(Norm(v), j, true);
  }

  // ---------------------------------------------------------------- fillers between the brackets of nothing

  /** An empty array with a filler between its brackets is read as an array of one null. */
  lemma PaddedArrayIsMisread(text: string, i: nat, j: nat, fuel: nat)
    requires i + 2 < j <= |text| && text[i] == '[' && text[j - 1] == ']' && Gap(text, i + 1, j - 1) && fuel >= 2
    ensures ParseInside(text, i, fuel) == Parsed(Arr([Null]), j, true)
  {
    assert FillerAt(text, i + 1);
    NothingIsFound(text, i + 1, j - 1, fuel - 1);
    assert ParseArray(text, j - 1, true, Arr([Null]), fuel - 1) == Parsed(Arr([Null]), j, true);
    assert Push(Null, Null) == Arr([Null]);
  }

  /** The search for a value ends on the closing bracket, with null. */
  lemma NothingIsFound(text: string, p: nat, q: nat, fuel: nat)
    requires Gap(text, p, q) && q < |text| && text[q] == ']'
    ensures ParseValue(text, p, true, fuel) == Parsed(Null, q, true)
  {
    BracketFinds(text, p, q);
    FirstOf(text, q, "true");
    FirstOf(text, q, "false");
    FirstOf(text, q, "null");
    ScanFinds(text, q, q, EndsValue);
  }

  lemma {:induction false} BracketFinds(text: string, p: nat, q: nat)
    requires Gap(text, p, q) && q < |text| && text[q] == ']'
    ensures ScanValue(text, p) == Stopped(q, true)
    decreases q - p
  {
    if p < q {
      assert FillerAt(text, p);
      NoValueHere(text, p);
      BracketFinds(text, p + 1, q);
    }
  }

  /** Where a brace comes before any quote, the brace itself is taken for a key. */
  lemma BraceIsTakenForKey(text: string, p: nat, q: nat)
    requires p <= q < |text| && text[q] == '}' && forall k | p <= k < q :: text[k] != '\"' && text[k] != '}'
    ensures ParseKey(text, p, true) == Parsed("}", q + 1, true)
  {
    ScanFinds(text, p, q, IsQuoteOrBrace);
  }

  /** A text that is an empty object with a filler between its brackets is refused. */
  lemma PaddedObjectIsRefused(text: string, fuel: nat)
    requires |text| > 2 && text[0] == '{' && text[|text| - 1] == '}' && Gap(text, 1, |text| - 1) && fuel > 0
    ensures Parse(text, fuel) == Parsed(Null, |text| + 1, false)
  {
    var end := |text| - 1;
    assert FillerAt(text, 1);
    forall k | 1 <= k < end ensures text[k] != '\"' && text[k] != '}' {
      assert FillerAt(text, k);
    }
    BraceIsTakenForKey(text, 1, end);
    assert ParseValue(text, |text|, true, fuel - 1) == Parsed(Null, |text|, false);
    WholeCString("}");
    assert ParseField(text, 1, true, fuel - 1) == Parsed(Field("}", Null), |text|, false);
    ScanFinds(text, 0, 0, IsOpen);
  }
}
