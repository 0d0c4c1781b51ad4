/** Printing a tree and parsing the text gives the tree back, with every empty container replaced by
    null, exactly when the root is a container and its strings and keys can be printed unescaped. */
module JsonRoundTrip {
  import opened Common
  import opened MachineInts
  import opened JsonText
  import opened JsonGrammar
  import opened JsonParse
  import opened JsonReading

  predicate NoReals(v: Json) {
    match v
    case Real(_) => false
    case Arr(items) => forall i | 0 <= i < |items| :: NoReals(items[i])
    case Obj(fields) => forall i | 0 <= i < |fields| :: NoReals(fields[i].value)
    case _ => true
  }

  // ---------------------------------------------------------------- numbers

  lemma {:induction false} DigitsAreRead(n: nat)
    ensures AllDigits(Digits(n)) && DigitsValue(Digits(n)) == n
  {
    if n < 10 {
      assert Digits(n)[..0] == [];
    } else {
      DigitsAreRead(n / 10);
      assert Digits(n)[..|Digits(n)| - 1] == Digits(n / 10);
    }
  }

  lemma DecimalIsNumeral(n: int)
    ensures Numeral(Decimal(n), n)
  {
    var size: int := if n < 0 then -n else n;
    DigitsAreRead(size);
    if n < 0 {
      assert Decimal(n)[1..] == Digits(size);
    } else {
      assert IsDigit(Digits(size)[0]);
    }
  }

  /** Every 64-bit number survives, the smallest one included. */
  lemma DecimalIsRead(n: int64)
    ensures FromChars(Decimal(n)) == Some(n)
  {
    DecimalIsNumeral(n);
    NumeralIsTaken(Decimal(n), "", n);
    assert Decimal(n) + "" == Decimal(n);
  }

  // ---------------------------------------------------------------- what is printed is spelled

  /** The printer's text spells what it was printed for. */
  lemma {:induction false} PrintSpells(text: string, i: nat, j: nat, v: Json)
    requires StartsWith(text, i, Print(v)) && j == i + |Print(v)| && NoReals(v)
    ensures Spells(text, i, j, v)
    decreases v
  {
    match v
    case Arr(items) => ArrayPrintSpells(text, i, j, items);
    case Obj(fields) => ObjectPrintSpells(text, i, j, fields);
    case Int(n) => DecimalIsNumeral(n);
    case _ =>
  }

  lemma {:induction false} ArrayPrintSpells(text: string, i: nat, j: nat, items: seq<Json>)
    requires StartsWith(text, i, "[" + PrintItems(items, 0) + "]") && j == i + 2 + |PrintItems(items, 0)|
    requires NoReals(Arr(items))
    ensures Spells(text, i, j, Arr(items))
    decreases items, |items| + 1
  {
    BracketsPrinted(text, i, j, '[', PrintItems(items, 0), ']');
    if items != [] {
      FromFirstItem(items);
      ItemsSpelled(text, i + 1, j - 1, items, 0);
    }
    ArrSpelled(text, i, j, items);
  }

  lemma {:induction false} ObjectPrintSpells(text: string, i: nat, j: nat, fields: seq<Field>)
    requires StartsWith(text, i, "{" + PrintFields(fields, 0) + "}") && j == i + 2 + |PrintFields(fields, 0)|
    requires NoReals(Obj(fields))
    ensures Spells(text, i, j, Obj(fields))
    decreases fields, |fields| + 1
  {
    BracketsPrinted(text, i, j, '{', PrintFields(fields, 0), '}');
    if fields != [] {
      FromFirstField(fields);
      FieldsSpelled(text, i + 1, j - 1, fields, 0);
    }
    ObjSpelled(text, i, j, fields);
  }

  lemma ArrSpelled(text: string, i: nat, j: nat, items: seq<Json>)
    requires i + 2 <= j <= |text| && text[i] == '[' && text[j - 1] == ']'
    requires if items == [] then j == i + 2 else SpellsItems(text, i + 1, j - 1, items, 0)
    ensures Spells(text, i, j, Arr(items))
  {
  }

  lemma ObjSpelled(text: string, i: nat, j: nat, fields: seq<Field>)
    requires i + 2 <= j <= |text| && text[i] == '{' && text[j - 1] == '}'
    requires if fields == [] then j == i + 2 else SpellsFields(text, i + 1, j - 1, fields, 0)
    ensures Spells(text, i, j, Obj(fields))
  {
  }

  lemma FromFirstItem(items: seq<Json>)
    requires items != []
    ensures PrintItems(items, 0) == Print(items[0]) + PrintItems(items, 1)
  {
    Regroup("", Print(items[0]), PrintItems(items, 1));
  }

  lemma FromFirstField(fields: seq<Field>)
    requires fields != []
    ensures PrintFields(fields, 0) == PrintField(fields[0]) + PrintFields(fields, 1)
  {
    Regroup("", PrintField(fields[0]), PrintFields(fields, 1));
  }

  lemma BracketsPrinted(text: string, i: nat, j: nat, open: char, inside: string, close: char)
    requires StartsWith(text, i, [open] + inside + [close]) && j == i + 2 + |inside|
    ensures text[i] == open && text[j - 1] == close && StartsWith(text, i + 1, inside)
  {
    StartsWithParts(text, i, [open] + inside, [close]);
    StartsWithParts(text, i, [open], inside);
    StartsWithAt(text, i, [open], 0);
    StartsWithAt(text, j - 1, [close], 0);
  }

  /** One entry, and either nothing or a comma and the rest. */
  lemma EntryPrinted(text: string, p: nat, b: nat, e: nat, entry: string, rest: string)
    requires StartsWith(text, p, entry + rest) && b == p + |entry| && e == b + |rest|
    ensures StartsWith(text, p, entry) && StartsWith(text, b, rest)
  {
    StartsWithParts(text, p, entry, rest);
  }

  lemma {:induction false} ItemsSpelled(text: string, p: nat, e: nat, items: seq<Json>, k: nat)
    requires k < |items| && NoReals(Arr(items)) && StartsWith(text, p, Print(items[k]) + PrintItems(items, k + 1))
    requires e == p + |Print(items[k])| + |PrintItems(items, k + 1)|
    ensures SpellsItems(text, p, e, items, k)
    decreases items, |items| - k
  {
    var b := p + |Print(items[k])|;
    EntryPrinted(text, p, b, e, Print(items[k]), PrintItems(items, k + 1));
    PrintSpells(text, p, b, items[k]);
    if k + 1 < |items| {
      CommaPrinted(text, b, Print(items[k + 1]), PrintItems(items, k + 2));
      ItemsSpelled(text, b + 1, e, items, k + 1);
    }
    ItemSpelled(text, p, b, e, items, k);
  }

  lemma ItemSpelled(text: string, p: nat, b: nat, e: nat, items: seq<Json>, k: nat)
    requires k < |items| && p <= b <= e <= |text| && Spells(text, p, b, items[k])
    requires if k + 1 == |items| then b == e else b < e && text[b] == ',' && SpellsItems(text, b + 1, e, items, k + 1)
    ensures SpellsItems(text, p, e, items, k)
  {
    assert SpellsPadded(text, p, p, b, b, items[k]);
  }

  lemma CommaPrinted(text: string, b: nat, entry: string, rest: string)
    requires StartsWith(text, b, "," + entry + rest)
    ensures text[b] == ',' && StartsWith(text, b + 1, entry + rest)
  {
    Regroup(",", entry, rest);
    StartsWithParts(text, b, ",", entry + rest);
    StartsWithAt(text, b, ",", 0);
  }

  lemma {:induction false} FieldsSpelled(text: string, p: nat, e: nat, fields: seq<Field>, k: nat)
    requires k < |fields| && NoReals(Obj(fields)) && StartsWith(text, p, PrintField(fields[k]) + PrintFields(fields, k + 1))
    requires e == p + |PrintField(fields[k])| + |PrintFields(fields, k + 1)|
    ensures SpellsFields(text, p, e, fields, k)
    decreases fields, |fields| - k
  {
    var b := p + |PrintField(fields[k])|;
    EntryPrinted(text, p, b, e, PrintField(fields[k]), PrintFields(fields, k + 1));
    FieldSpelled(text, p, b, fields[k]);
    if k + 1 < |fields| {
      CommaPrinted(text, b, PrintField(fields[k + 1]), PrintFields(fields, k + 2));
      FieldsSpelled(text, b + 1, e, fields, k + 1);
    }
    FieldThenSpelled(text, p, b, e, fields, k);
  }

  lemma FieldThenSpelled(text: string, p: nat, b: nat, e: nat, fields: seq<Field>, k: nat)
    requires k < |fields| && b <= e <= |text| && SpellsField(text, p, b, fields[k])
    requires if k + 1 == |fields| then b == e else b < e && text[b] == ',' && SpellsFields(text, b + 1, e, fields, k + 1)
    ensures SpellsFields(text, p, e, fields, k)
  {
  }

  lemma {:induction false} FieldSpelled(text: string, p: nat, c: nat, f: Field)
    requires StartsWith(text, p, PrintField(f)) && c == p + |PrintField(f)| && NoReals(f.value)
    ensures SpellsField(text, p, c, f)
    decreases f
  {
    var m := p + |f.key| + 3;
    KeySpelled(text, p, m, c, f);
    PrintSpells(text, m, c, f.value);
    assert SpellsPadded(text, m, m, c, c, f.value);
  }

  lemma KeySpelled(text: string, p: nat, m: nat, c: nat, f: Field)
    requires StartsWith(text, p, PrintField(f)) && m == p + |f.key| + 3 && c == p + |PrintField(f)|
    ensures SpellsKey(text, p, p, m, f.key) && StartsWith(text, m, Print(f.value)) && c == m + |Print(f.value)|
  {
    var quoted := "\"" + f.key + "\"";
    FieldIs(f);
    StartsWithParts(text, p, quoted, ":" + Print(f.value));
    StartsWithParts(text, m - 1, ":", Print(f.value));
    StartsWithAt(text, m - 1, ":", 0);
  }

  lemma FieldIs(f: Field)
    ensures PrintField(f) == ("\"" + f.key + "\"") + (":" + Print(f.value))
  {
    var name, value := "\"" + f.key, Print(f.value);
    assert name + "\":" + value == name + ("\"" + ":") + value;
    Regroup(name, "\"", ":");
    Regroup(name + "\"", ":", value);
  }

  // ---------------------------------------------------------------- and it is the shortest spelling

  lemma Glued(text: string, p: nat, b: nat, e: nat, x: string, y: string)
    requires p <= b <= e <= |text| && text[p..b] == x && text[b..e] == y
    ensures text[p..e] == x + y
  {
  }

  lemma {:induction false} ShortestDigits(s: string)
    requires AllDigits(s) && s != []
    ensures |s| >= |Digits(DigitsValue(s))|
    ensures |s| == |Digits(DigitsValue(s))| ==> s == Digits(DigitsValue(s))
  {
    var n, front, last := DigitsValue(s), s[..|s| - 1], s[|s| - 1];
    assert IsDigit(last);
    if n >= 10 {
      assert n / 10 == DigitsValue(front) && n % 10 == last as int - '0' as int;
      ShortestDigits(front);
      assert s == front + [last];
    } else if |s| == 1 {
      assert front == [] && s == [last];
    }
  }

  /** No numeral of a number is shorter than the decimal that is printed for it. */
  lemma ShortestNumeral(t: string, n: int)
    requires Numeral(t, n)
    ensures |t| >= |Decimal(n)| && (|t| == |Decimal(n)| ==> t == Decimal(n))
  {
    ShortestDigits(if t[0] == '-' then t[1..] else t);
    assert t[0] == '-' ==> t == "-" + t[1..];
  }

  /** Every spelling of a tree is longer than its printed text, unless it is the same. */
  lemma {:induction false} ShortestSpelling(text: string, i: nat, j: nat, v: Json)
    requires Spells(text, i, j, v)
    ensures i <= j <= |text| && j - i >= |Print(v)| && (j - i == |Print(v)| ==> text[i..j] == Print(v))
    decreases v
  {
    match v
    case Int(n) => ShortestNumeral(text[i..j], n);
    case Arr(items) =>
      if items != [] {
        ShortestItems(text, i + 1, j - 1, items, 0);
        FromFirstItem(items);
      }
      InBrackets(text, i, j);
    case Obj(fields) =>
      if fields != [] {
        ShortestFields(text, i + 1, j - 1, fields, 0);
        FromFirstField(fields);
      }
      InBrackets(text, i, j);
    case _ =>
  }

  lemma InBrackets(text: string, i: nat, j: nat)
    requires i + 2 <= j <= |text|
    ensures text[i..j] == [text[i]] + text[i + 1..j - 1] + [text[j - 1]]
  {
  }

  ghost predicate IsShortest(text: string, p: nat, e: nat, printed: string) {
    p <= e <= |text| && e - p >= |printed| && (e - p == |printed| ==> text[p..e] == printed)
  }

  /** Fillers, a comma and the rest behind an entry only make the whole longer. */
  lemma ShortestEntry(text: string, p: nat, b: nat, c: nat, e: nat, entry: string, rest: string)
    requires p <= b <= c < e <= |text| && IsShortest(text, p, b, entry) && text[c] == ','
    requires IsShortest(text, c + 1, e, rest)
    ensures IsShortest(text, p, e, entry + ("," + rest))
  {
    if e - p == |entry + ("," + rest)| {
      Glued(text, c, c + 1, e, ",", rest);
      Glued(text, p, c, e, entry, "," + rest);
    }
  }

  lemma ShortestPadded(text: string, p: nat, a: nat, b: nat, c: nat, printed: string)
    requires p <= a && b <= c <= |text| && IsShortest(text, a, b, printed)
    ensures IsShortest(text, p, c, printed)
  {
  }

  lemma {:induction false} ShortestItems(text: string, p: nat, e: nat, items: seq<Json>, k: nat)
    requires k < |items| && e <= |text| && SpellsItems(text, p, e, items, k)
    ensures IsShortest(text, p, e, Print(items[k]) + PrintItems(items, k + 1))
    decreases items, |items| - k
  {
    var a: nat, b: nat, c: nat :|
      && SpellsPadded(text, p, a, b, c, items[k])
      && if k + 1 == |items| then c == e else c < e && text[c] == ',' && SpellsItems(text, c + 1, e, items, k + 1);
    ShortestSpelling(text, a, b, items[k]);
    ShortestPadded(text, p, a, b, c, Print(items[k]));
    if k + 1 < |items| {
      ShortestItems(text, c + 1, e, items, k + 1);
      ShortestEntry(text, p, c, c, e, Print(items[k]), Print(items[k + 1]) + PrintItems(items, k + 2));
      Regroup(",", Print(items[k + 1]), PrintItems(items, k + 2));
    } else {
      assert Print(items[k]) + PrintItems(items, k + 1) == Print(items[k]);
    }
  }

  lemma {:induction false} ShortestField(text: string, p: nat, c: nat, f: Field)
    requires SpellsField(text, p, c, f)
    ensures IsShortest(text, p, c, PrintField(f))
    decreases f
  {
    var a: nat, m: nat, x: nat, y: nat :| SpellsKey(text, p, a, m, f.key) && SpellsPadded(text, m, x, y, c, f.value);
    ShortestSpelling(text, x, y, f.value);
    ShortestPadded(text, m, x, y, c, Print(f.value));
    ShortestKey(text, p, a, m, f.key);
    FieldIs(f);
    var name := "\"" + f.key + "\"";
    Regroup(name, ":", Print(f.value));
    if c - p == |PrintField(f)| {
      Glued(text, p, m, c, name + ":", Print(f.value));
    }
  }

  lemma ShortestKey(text: string, p: nat, a: nat, m: nat, key: string)
    requires SpellsKey(text, p, a, m, key)
    ensures IsShortest(text, p, m, "\"" + key + "\"" + ":")
  {
    if m - p == |key| + 3 {
      Glued(text, p, m - 1, m, "\"" + key + "\"", ":");
    }
  }

  lemma {:induction false} ShortestFields(text: string, p: nat, e: nat, fields: seq<Field>, k: nat)
    requires k < |fields| && e <= |text| && SpellsFields(text, p, e, fields, k)
    ensures IsShortest(text, p, e, PrintField(fields[k]) + PrintFields(fields, k + 1))
    decreases fields, |fields| - k
  {
    var c: nat :|
      && SpellsField(text, p, c, fields[k])
      && if k + 1 == |fields| then c == e else c < e && text[c] == ',' && SpellsFields(text, c + 1, e, fields, k + 1);
    ShortestField(text, p, c, fields[k]);
    if k + 1 < |fields| {
      ShortestFields(text, c + 1, e, fields, k + 1);
      ShortestEntry(text, p, c, c, e, PrintField(fields[k]), PrintField(fields[k + 1]) + PrintFields(fields, k + 2));
      Regroup(",", PrintField(fields[k + 1]), PrintFields(fields, k + 2));
    } else {
      assert PrintField(fields[k]) + PrintFields(fields, k + 1) == PrintField(fields[k]);
    }
  }

  // ---------------------------------------------------------------- there and back

  /** Printed text is consumed to its end, stays valid and reads back as the normal form. */
  lemma RoundTrip(v: Json, fuel: nat)
    requires Clean(v) && NoReals(v) && IsContainer(v) && |Print(v)| <= fuel
    ensures Parse(Print(v), fuel) == Parsed(Norm(v), |Print(v)|, true)
  {
    var text := Print(v);
    assert text[0..0 + |text|] == text;
    PrintSpells(text, 0, |text|, v);
    SpelledIsRead(text, 0, |text|, v, fuel);
  }

  /** The object {"a": 1}, with any blanks behind the colon, is one field of value 1. */
  lemma BlanksAreSkipped(blanks: string, fuel: nat)
    requires Gap(blanks, 0, |blanks|) && fuel >= 7 + |blanks|
    ensures Parse("{\"a\":" + blanks + "1}", fuel) == Parsed(Obj([Field("a", Int(1))]), 7 + |blanks|, true)
  {
    var text, v := "{\"a\":" + blanks + "1}", Obj([Field("a", Int(1))]);
    BlanksSpell(text, blanks);
    assert NoneEmpty(v) && Clean(v);
    NormKeepsExactly(v);
    SpelledIsRead(text, 0, 7 + |blanks|, v, fuel);
  }

  lemma BlanksSpell(text: string, blanks: string)
    requires text == "{\"a\":" + blanks + "1}" && Gap(blanks, 0, |blanks|)
    ensures Spells(text, 0, 7 + |blanks|, Obj([Field("a", Int(1))]))
  {
    var x := 5 + |blanks|;
    forall k | 5 <= k < x ensures FillerAt(text, k) {
      assert FillerAt(blanks, k - 5);
    }
    OneField(text, x);
    assert text[0] == text[..5][0] && text[x + 1] == text[x..][1];
    ObjectOfOne(text, 0, x + 2, Field("a", Int(1)));
  }

  lemma ObjectOfOne(text: string, i: nat, j: nat, f: Field)
    requires i + 2 <= j <= |text| && text[i] == '{' && text[j - 1] == '}' && SpellsField(text, i + 1, j - 1, f)
    ensures Spells(text, i, j, Obj([f]))
  {
    var fields := [f];
    FieldThenSpelled(text, i + 1, j - 1, j - 1, fields, 0);
    ObjSpelled(text, i, j, fields);
  }

  lemma OneField(text: string, x: nat)
    requires |text| == x + 2 && x >= 5 && text[..5] == "{\"a\":" && text[x..] == "1}" && Gap(text, 5, x)
    ensures SpellsField(text, 1, x + 1, Field("a", Int(1)))
  {
    ValueOfOne(text, x);
    KeyOfOne(text);
  }

  lemma ValueOfOne(text: string, x: nat)
    requires 5 <= x < |text| && text[x..] == "1}" && Gap(text, 5, x)
    ensures SpellsPadded(text, 5, x, x + 1, x + 1, Int(1))
  {
    assert text[x] == text[x..][0];
    OneIsNumeral(text[x..x + 1]);
  }

  lemma KeyOfOne(text: string)
    requires |text| >= 5 && text[..5] == "{\"a\":"
    ensures SpellsKey(text, 1, 1, 5, "a")
  {
    assert text[1..4] == text[..5][1..4] == "\"a\"";
    assert text[4] == text[..5][4];
  }

  lemma OneIsNumeral(t: string)
    requires t == "1"
    ensures Numeral(t, 1)
  {
    assert DigitsValue(t[..0]) == 0;
  }

  // ---------------------------------------------------------------- nothing else reads back

  lemma {:induction false} ScannedOver(text: string, i: nat, stop: char -> bool)
    requires i <= |text|
    ensures var r := ScanTo(text, i, stop);
            r.Stopped? && r.pos <= |text| ==> forall k | i <= k < r.pos :: !stop(text[k])
    decreases |text| - i
  {
    if i < |text| && !stop(text[i]) && i + 1 < |text| {
      ScannedOver(text, i + 1, stop);
    }
  }

  lemma StringsAreClean(text: string, start: nat, ok: bool)
    ensures var r := ParseString(text, start, ok); r.Parsed? ==> '\"' !in r.value
  {
    if start <= |text| {
      ScannedOver(text, start, IsQuote);
    }
  }

  lemma {:induction false} CStringsHaveNoNul(s: string)
    ensures NUL !in CString(s) && CString(s) <= s && (|CString(s)| < |s| ==> s[|CString(s)|] == NUL)
  {
    if s != [] {
      CStringsHaveNoNul(s[1..]);
    }
  }

  lemma {:induction false} PutFieldChanges(fields: seq<Field>, f: Field)
    requires KeysDiffer(fields)
    ensures var r := PutField(fields, f);
            KeysDiffer(r) && forall i | 0 <= i < |r| :: r[i] == f || (r[i] in fields && r[i].key != f.key)
  {
    if fields != [] && fields[0].key != f.key {
      PutFieldChanges(fields[1..], f);
    }
  }

  lemma PutKeepsClean(target: Json, f: Field)
    requires Clean(target) && '\"' !in f.key && NUL !in f.key && Clean(f.value)
    ensures Clean(Put(target, f))
  {
    if target.Obj? {
      PutFieldChanges(target.fields, f);
    }
  }

  lemma KeysAreClean(text: string, start: nat, ok: bool)
    ensures var r := ParseKey(text, start, ok); r.Parsed? ==> '\"' !in r.value
  {
    var r := ScanTo(text, start, IsQuoteOrBrace);
    if r.Stopped? {
      StringsAreClean(text, r.pos + 1, ok && r.ok);
    }
  }

  /** Whatever is read, from whatever text, is clean. */
  lemma {:induction false} FieldsReadAreClean(text: string, pos: nat, ok: bool, fuel: nat)
    ensures var r := ParseField(text, pos, ok, fuel);
            r.Parsed? ==> '\"' !in r.value.key && NUL !in r.value.key && Clean(r.value.value)
    decreases fuel, 4
  {
    KeysAreClean(text, pos, ok);
    var key := ParseKey(text, pos, ok);
    if key.Parsed? {
      CStringsHaveNoNul(key.value);
      ValuesReadAreClean(text, key.pos, key.ok, fuel);
    }
  }

  lemma {:induction false} ValuesReadAreClean(text: string, start: nat, ok: bool, fuel: nat)
    ensures var r := ParseValue(text, start, ok, fuel); r.Parsed? ==> Clean(r.value)
    decreases fuel, 3
  {
    var at := ScanValue(text, start);
    if at.Stopped? && at.ok {
      FoundReadsClean(text, at.pos, ok, fuel);
    }
  }

  lemma {:induction false} FoundReadsClean(text: string, i: nat, ok: bool, fuel: nat)
    requires i <= |text|
    ensures var r := ParseFound(text, i, ok, fuel); r.Parsed? ==> Clean(r.value)
    decreases fuel, 2
  {
    match CharAt(text, i).value
    case '\"' => StringsAreClean(text, i + 1, ok);
    case '{' => ObjectReadsClean(text, i + 1, ok, Null, fuel);
    case '[' => ArrayReadsClean(text, i + 1, ok, Null, fuel);
    case _ =>
  }

  lemma {:induction false} ObjectReadsClean(text: string, pos: nat, ok: bool, acc: Json, fuel: nat)
    requires Clean(acc) && (acc.Null? || acc.Obj?)
    ensures var r := ParseObject(text, pos, ok, acc, fuel);
            r.Parsed? ==> Clean(r.value) && (r.value.Null? || r.value.Obj?)
    decreases fuel, 1
  {
    if pos <= |text| && CharAt(text, pos) != Some('}') && fuel > 0 {
      FieldsReadAreClean(text, pos, ok, fuel - 1);
      var field := ParseField(text, pos, ok, fuel - 1);
      if field.Parsed? {
        PutKeepsClean(acc, field.value);
        ObjectReadsClean(text, field.pos, field.ok, Put(acc, field.value), fuel - 1);
      }
    }
  }

  lemma {:induction false} ArrayReadsClean(text: string, pos: nat, ok: bool, acc: Json, fuel: nat)
    requires Clean(acc) && (acc.Null? || acc.Arr?)
    ensures var r := ParseArray(text, pos, ok, acc, fuel);
            r.Parsed? ==> Clean(r.value) && (r.value.Null? || r.value.Arr?)
    decreases fuel, 1
  {
    if pos <= |text| && CharAt(text, pos) != Some(']') && fuel > 0 {
      ValuesReadAreClean(text, pos, ok, fuel - 1);
      var value := ParseValue(text, pos, ok, fuel - 1);
      if value.Parsed? {
        ArrayReadsClean(text, value.pos, value.ok, Push(acc, value.value), fuel - 1);
      }
    }
  }

  lemma ParsesClean(text: string, fuel: nat)
    ensures var r := Parse(text, fuel); r.Parsed? ==> Clean(r.value) && (r.value.Null? || IsContainer(r.value))
  {
    var at := ScanTo(text, 0, IsOpen);
    if at.Stopped? {
      ObjectReadsClean(text, at.pos + 1, at.ok, Null, fuel);
      ArrayReadsClean(text, at.pos + 1, at.ok, Null, fuel);
    }
  }

  lemma {:induction false} OnlyCleanHasCleanNorm(v: Json)
    requires Clean(Norm(v))
    ensures Clean(v)
  {
    match v
    case Arr(items) =>
      forall i | 0 <= i < |items| ensures Clean(items[i]) {
        assert Norm(v).items[i] == Norm(items[i]);
        OnlyCleanHasCleanNorm(items[i]);
      }
    case Obj(fields) =>
      forall i | 0 <= i < |fields|
        ensures '\"' !in fields[i].key && NUL !in fields[i].key && Clean(fields[i].value)
      {
        assert Norm(v).fields[i] == Field(fields[i].key, Norm(fields[i].value));
        OnlyCleanHasCleanNorm(fields[i].value);
      }
      forall i, j | 0 <= i < j < |fields| ensures fields[i].key != fields[j].key {
        assert Norm(v).fields[i].key == fields[i].key && Norm(v).fields[j].key == fields[j].key;
      }
    case _ =>
  }

  /** A lone null is not found in its own text. */
  lemma LoneNullIsLost(fuel: nat)
    ensures Parse(Print(Null), fuel).Broken?
  {
    var text := "null";
    assert ScanTo(text, 3, IsOpen) == Stopped(4, false);
    assert ScanTo(text, 2, IsOpen) == Stopped(4, false);
    assert ScanTo(text, 1, IsOpen) == Stopped(4, false);
    assert ScanTo(text, 0, IsOpen) == Stopped(4, false);
  }

  ghost predicate RoundTrips(v: Json) {
    exists fuel: nat :: Parse(Print(v), fuel) == Parsed(Norm(v), |Print(v)|, true)
  }

  /** Among the trees without floating-point numbers, exactly these survive. */
  lemma RoundTripsExactly(v: Json)
    requires NoReals(v)
    ensures RoundTrips(v) <==> Clean(v) && IsContainer(v)
  {
    if Clean(v) && IsContainer(v) {
      RoundTrip(v, |Print(v)|);
    }
    if fuel: nat :| Parse(Print(v), fuel) == Parsed(Norm(v), |Print(v)|, true) {
      ParsesClean(Print(v), fuel);
      OnlyCleanHasCleanNorm(v);
      LoneNullIsLost(fuel);
    }
  }
}
