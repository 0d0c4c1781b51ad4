/** What the parser accepts it accepts whatever follows, and with whatever fuel. So no text is accepted that was
    cut off within a container. */
module JsonPrefix {
  import opened Common
  import opened MachineInts
  import opened JsonText
  import opened JsonGrammar
  import opened JsonParse
  import opened JsonReading

  lemma SameSlice(text: string, longer: string, i: nat, j: nat)
    requires text <= longer && i <= j <= |text|
    ensures longer[i..j] == text[i..j]
  {
  }

  // ---------------------------------------------------------------- scans

  lemma {:induction false} ScanStays(text: string, longer: string, i: nat, stop: char -> bool)
    requires text <= longer && !stop(NUL)
    ensures var r := ScanTo(text, i, stop);
            r.Stopped? && r.ok ==> i <= r.pos < |text| && stop(text[r.pos]) && ScanTo(longer, i, stop) == r
    decreases |text| - i
  {
    if i + 1 < |text| && !stop(text[i]) {
      ScanStays(text, longer, i + 1, stop);
    }
  }

  lemma WordStays(text: string, longer: string, i: nat, word: string)
    requires text <= longer && StartsWith(text, i, word)
    ensures StartsWith(longer, i, word)
  {
    SameSlice(text, longer, i, i + |word|);
  }

  /** A word that is read is read in the longer text too. */
  lemma WordsStay(text: string, longer: string, i: nat)
    requires text <= longer && i < |text|
    ensures IsTrue(text, i) ==> IsTrue(longer, i)
    ensures IsFalse(text, i) ==> IsFalse(longer, i)
    ensures IsNull(text, i) ==> IsNull(longer, i)
  {
    if IsTrue(text, i) {
      WordStays(text, longer, i, "true");
    } else if IsFalse(text, i) {
      WordStays(text, longer, i, "false");
    } else if IsNull(text, i) {
      WordStays(text, longer, i, "null");
    }
  }

  /** A word that only the longer text completes would have covered the place where the scan stopped. */
  lemma NoNewWord(text: string, longer: string, i: nat, j: nat, word: string)
    requires text <= longer && i < j < |text| <= i + |word| && StartsWith(longer, i, word)
    ensures text[j] == word[j - i]
  {
    StartsWithAt(longer, i, word, j - i);
  }

  predicate StopsValue(text: string, j: nat)
    requires j < |text|
  {
    StartsValue(text, j) || text[j] == '}' || text[j] == ']'
  }

  lemma WordInside(text: string, j: nat)
    requires j < |text| && text[j] in "rueals"
    ensures !StopsValue(text, j)
  {
    FirstOf(text, j, "true");
    FirstOf(text, j, "false");
    FirstOf(text, j, "null");
  }

  lemma NoNewStart(text: string, longer: string, i: nat, j: nat)
    requires text <= longer && i < j < |text| && StopsValue(text, j) && !StartsValue(text, i)
    ensures !StartsValue(longer, i)
  {
    if IsTrue(longer, i) && |text| <= i + 4 {
      NoNewWord(text, longer, i, j, "true");
      WordInside(text, j);
    } else if IsFalse(longer, i) && |text| <= i + 5 {
      NoNewWord(text, longer, i, j, "false");
      WordInside(text, j);
    } else if IsNull(longer, i) && |text| <= i + 4 {
      NoNewWord(text, longer, i, j, "null");
      WordInside(text, j);
    } else {
      NoOldStart(text, longer, i);
    }
  }

  lemma NoOldStart(text: string, longer: string, i: nat)
    requires text <= longer && i < |text| && !StartsValue(text, i)
    requires IsTrue(longer, i) || IsNull(longer, i) ==> i + 4 < |text|
    requires IsFalse(longer, i) ==> i + 5 < |text|
    ensures !StartsValue(longer, i)
  {
    if i + 4 < |text| {
      SameSlice(text, longer, i, i + 4);
    }
    if i + 5 < |text| {
      SameSlice(text, longer, i, i + 5);
    }
  }

  lemma {:induction false} ValueScanStays(text: string, longer: string, i: nat)
    requires text <= longer
    ensures var r := ScanValue(text, i);
            r.Stopped? && r.ok ==> i <= r.pos < |text| && StopsValue(text, r.pos) && ScanValue(longer, i) == r
    decreases |text| - i
  {
    var r := ScanValue(text, i);
    if r.Stopped? && r.ok {
      if r.pos == i {
        WordsStay(text, longer, i);
      } else {
        ValueScanStays(text, longer, i + 1);
        NoNewStart(text, longer, i, r.pos);
      }
    }
  }

  /** The text goes on behind the number, and not with an 'e' that is its last character. */
  predicate Settled(text: string, end: nat) {
    end < |text| && (text[end] != 'e' || end + 1 < |text|)
  }

  /** A number ends where it did, unless the text ended on the 'e' of an exponent. */
  lemma {:induction false} NumberScanStays(text: string, longer: string, i: nat)
    requires text <= longer && i < |text|
    ensures var r := ScanNumber(text, i);
            r.Stopped? && r.ok && Settled(text, r.pos) ==> ScanNumber(longer, i) == r
    decreases |text| - i
  {
    if i + 1 < |text| && InNumber(text, i) {
      NumberScanStays(text, longer, i + 1);
    }
  }

  // ---------------------------------------------------------------- what was found invalid stays invalid

  lemma FieldNeverRecovers(text: string, pos: nat, fuel: nat)
    ensures var r := ParseField(text, pos, false, fuel); r.Parsed? ==> !r.ok
  {
    var key := ParseKey(text, pos, false);
    assert key.Parsed? ==> !key.ok;
  }

  lemma {:induction false} ObjectNeverRecovers(text: string, pos: nat, acc: Json, fuel: nat)
    ensures var r := ParseObject(text, pos, false, acc, fuel); r.Parsed? ==> !r.ok
    decreases fuel
  {
    if fuel > 0 && pos <= |text| {
      var field := ParseField(text, pos, false, fuel - 1);
      FieldNeverRecovers(text, pos, fuel - 1);
      if field.Parsed? {
        ObjectNeverRecovers(text, field.pos, Put(acc, field.value), fuel - 1);
      }
    }
  }

  lemma {:induction false} ArrayNeverRecovers(text: string, pos: nat, acc: Json, fuel: nat)
    ensures var r := ParseArray(text, pos, false, acc, fuel); r.Parsed? ==> !r.ok
    decreases fuel
  {
    if fuel > 0 && pos <= |text| {
      var value := ParseValue(text, pos, false, fuel - 1);
      if value.Parsed? {
        ArrayNeverRecovers(text, value.pos, Push(acc, value.value), fuel - 1);
      }
    }
  }

  // ---------------------------------------------------------------- what is accepted stays accepted

  /** Read to the end and found valid. */
  predicate Accepted<T>(r: Outcome<T>) {
    r.Parsed? && r.ok
  }

  lemma StringStays(text: string, longer: string, start: nat)
    requires text <= longer
    ensures var r := ParseString(text, start, true);
            Accepted(r) ==> start < r.pos <= |text| && ParseString(longer, start, true) == r
  {
    ScanStays(text, longer, start, IsQuote);
    var r := ScanTo(text, start, IsQuote);
    if r.Stopped? && r.ok {
      SameSlice(text, longer, start, r.pos);
    }
  }

  lemma NumberStays(text: string, longer: string, start: nat)
    requires text <= longer && start < |text|
    ensures var r := ParseNumber(text, start, true);
            Accepted(r) && Settled(text, r.pos) ==> ParseNumber(longer, start, true) == r
  {
    NumberScanStays(text, longer, start);
    var r := ScanNumber(text, start);
    if r.Stopped? && r.pos <= |text| {
      SameSlice(text, longer, start, r.pos);
    }
  }

  lemma KeyStays(text: string, longer: string, start: nat)
    requires text <= longer
    ensures var r := ParseKey(text, start, true);
            Accepted(r) ==> start < r.pos <= |text| && ParseKey(longer, start, true) == r
  {
    ScanStays(text, longer, start, IsQuoteOrBrace);
    var r := ScanTo(text, start, IsQuoteOrBrace);
    if r.Stopped? && r.ok {
      StringStays(text, longer, r.pos + 1);
    }
  }

  /** In this text, with this much fuel or more, the outcome is always the same. */
  ghost predicate FieldAlways(text: string, pos: nat, need: nat, r: Outcome<Field>) {
    forall fuel: nat | need <= fuel :: ParseField(text, pos, true, fuel) == r
  }

  ghost predicate ValueAlways(text: string, start: nat, need: nat, r: Outcome<Json>) {
    forall fuel: nat | need <= fuel :: ParseValue(text, start, true, fuel) == r
  }

  ghost predicate FoundAlways(text: string, i: nat, need: nat, r: Outcome<Json>)
    requires i <= |text|
  {
    forall fuel: nat | need <= fuel :: ParseFound(text, i, true, fuel) == r
  }

  ghost predicate ObjectAlways(text: string, pos: nat, acc: Json, need: nat, r: Outcome<Json>) {
    forall fuel: nat | need <= fuel :: ParseObject(text, pos, true, acc, fuel) == r
  }

  ghost predicate ArrayAlways(text: string, pos: nat, acc: Json, need: nat, r: Outcome<Json>) {
    forall fuel: nat | need <= fuel :: ParseArray(text, pos, true, acc, fuel) == r
  }

  lemma {:induction false} FieldStays(text: string, longer: string, pos: nat, fuel: nat, r: Outcome<Field>)
    requires text <= longer && r == ParseField(text, pos, true, fuel) && Accepted(r)
    ensures pos < r.pos < |text| && FieldAlways(longer, pos, fuel, r)
    decreases fuel, 4
  {
    KeyStays(text, longer, pos);
    var key := ParseKey(text, pos, true);
    ValueStays(text, longer, key.pos, fuel, ParseValue(text, key.pos, key.ok, fuel));
  }

  lemma {:induction false} ValueStays(text: string, longer: string, start: nat, fuel: nat, r: Outcome<Json>)
    requires text <= longer && r == ParseValue(text, start, true, fuel) && Accepted(r)
    ensures start <= r.pos < |text| && ValueAlways(longer, start, fuel, r)
    decreases fuel, 3
  {
    ValueScanStays(text, longer, start);
    var at := ScanValue(text, start);
    var found := ParseFound(text, at.pos, true, fuel);
    FoundIsSettled(text, at.pos, fuel);
    FoundStays(text, longer, at.pos, fuel, found);
    ScanStays(text, longer, found.pos, EndsValue);
  }

  /** An accepted value is followed by a divider. */
  lemma FoundIsSettled(text: string, i: nat, fuel: nat)
    requires i < |text|
    ensures var found := ParseFound(text, i, true, fuel);
            found.Parsed? ==>
              var end := ScanTo(text, found.pos, EndsValue);
              end.Stopped? && end.ok ==> Settled(text, found.pos)
  {
  }

  lemma {:induction false} FoundStays(text: string, longer: string, i: nat, fuel: nat, r: Outcome<Json>)
    requires text <= longer && i < |text| && StopsValue(text, i)
    requires r == ParseFound(text, i, true, fuel) && Accepted(r) && Settled(text, r.pos)
    ensures i <= r.pos && FoundAlways(longer, i, fuel, r)
    decreases fuel, 2
  {
    if IsOpen(text[i]) {
      ContainerIsFound(text, i, fuel);
      forall more: nat | fuel <= more ensures ParseFound(longer, i, true, more) == ParseInside(longer, i, more) {
        ContainerIsFound(longer, i, more);
      }
      if text[i] == '{' {
        ObjectStays(text, longer, i + 1, Null, fuel, r);
      } else {
        ArrayStays(text, longer, i + 1, Null, fuel, r);
      }
    } else {
      forall more: nat | fuel <= more ensures ParseFound(longer, i, true, more) == r {
        LeafStays(text, longer, i, fuel, more);
      }
      LeafStays(text, longer, i, fuel, fuel);
    }
  }

  lemma LeafStays(text: string, longer: string, i: nat, fuel: nat, more: nat)
    requires text <= longer && i < |text| && StopsValue(text, i)
    requires !IsOpen(text[i])
    ensures var r := ParseFound(text, i, true, fuel);
            Accepted(r) && Settled(text, r.pos) ==> i <= r.pos && ParseFound(longer, i, true, more) == r
  {
    if text[i] == '\"' {
      StringStays(text, longer, i + 1);
    } else if IsNumber(text[i]) {
      NumberStays(text, longer, i);
    } else {
      WordsStay(text, longer, i);
      OneWord(longer, i);
    }
  }

  lemma OneWord(text: string, i: nat)
    requires i < |text|
    ensures !(IsTrue(text, i) && IsFalse(text, i)) && !(IsTrue(text, i) && IsNull(text, i))
    ensures !(IsFalse(text, i) && IsNull(text, i))
    ensures text[i] == '}' || text[i] == ']' ==> !IsTrue(text, i) && !IsFalse(text, i) && !IsNull(text, i)
  {
    FirstOf(text, i, "true");
    FirstOf(text, i, "false");
    FirstOf(text, i, "null");
  }

  /** One turn of the loop over fields. */
  lemma ObjectTurns(text: string, pos: nat, acc: Json, fuel: nat, r: Outcome<Json>)
    returns (field: Outcome<Field>, next: Json)
    requires r == ParseObject(text, pos, true, acc, fuel) && Accepted(r)
    requires pos < |text| && text[pos] != '}' && fuel > 0
    ensures field == ParseField(text, pos, true, fuel - 1) && Accepted(field) && field.pos < |text|
    ensures next == Put(acc, field.value) && r == ParseObject(text, field.pos, true, next, fuel - 1)
  {
    field := ParseField(text, pos, true, fuel - 1);
    next := Put(acc, field.value);
    ObjectNeverRecovers(text, field.pos, next, fuel - 1);
  }

  lemma ObjectGoesOn(text: string, pos: nat, acc: Json, need: nat, field: Outcome<Field>, r: Outcome<Json>)
    requires pos < |text| && text[pos] != '}' && need > 0
    requires FieldAlways(text, pos, need - 1, field) && Accepted(field) && field.pos < |text|
    requires ObjectAlways(text, field.pos, Put(acc, field.value), need - 1, r)
    ensures ObjectAlways(text, pos, acc, need, r)
  {
    forall fuel: nat | need <= fuel
      ensures ParseObject(text, pos, true, acc, fuel)
           == ParseObject(text, field.pos, true, Put(acc, field.value), fuel - 1)
    {
      assert ParseField(text, pos, true, fuel - 1) == field;
    }
  }

  lemma {:induction false} ObjectStays(text: string, longer: string, pos: nat, acc: Json, fuel: nat, r: Outcome<Json>)
    requires text <= longer && r == ParseObject(text, pos, true, acc, fuel) && Accepted(r)
    ensures pos < r.pos <= |text| && text[r.pos - 1] == '}' && ObjectAlways(longer, pos, acc, fuel, r)
    decreases fuel, 1
  {
    if pos < |text| && text[pos] != '}' && fuel > 0 {
      var field, next := ObjectTurns(text, pos, acc, fuel, r);
      FieldStays(text, longer, pos, fuel - 1, field);
      ObjectStays(text, longer, field.pos, next, fuel - 1, r);
      ObjectGoesOn(longer, pos, acc, fuel, field, r);
    }
  }

  /** One turn of the loop over items. */
  lemma ArrayTurns(text: string, pos: nat, acc: Json, fuel: nat, r: Outcome<Json>)
    returns (value: Outcome<Json>, next: Json)
    requires r == ParseArray(text, pos, true, acc, fuel) && Accepted(r)
    requires pos < |text| && text[pos] != ']' && fuel > 0
    ensures value == ParseValue(text, pos, true, fuel - 1) && Accepted(value) && value.pos < |text|
    ensures next == Push(acc, value.value) && r == ParseArray(text, value.pos, true, next, fuel - 1)
  {
    value := ParseValue(text, pos, true, fuel - 1);
    next := Push(acc, value.value);
    ArrayNeverRecovers(text, value.pos, next, fuel - 1);
  }

  lemma ArrayGoesOn(text: string, pos: nat, acc: Json, need: nat, value: Outcome<Json>, r: Outcome<Json>)
    requires pos < |text| && text[pos] != ']' && need > 0
    requires ValueAlways(text, pos, need - 1, value) && Accepted(value) && value.pos < |text|
    requires ArrayAlways(text, value.pos, Push(acc, value.value), need - 1, r)
    ensures ArrayAlways(text, pos, acc, need, r)
  {
    forall fuel: nat | need <= fuel
      ensures ParseArray(text, pos, true, acc, fuel)
           == ParseArray(text, value.pos, true, Push(acc, value.value), fuel - 1)
    {
      assert ParseValue(text, pos, true, fuel - 1) == value;
    }
  }

  lemma {:induction false} ArrayStays(text: string, longer: string, pos: nat, acc: Json, fuel: nat, r: Outcome<Json>)
    requires text <= longer && r == ParseArray(text, pos, true, acc, fuel) && Accepted(r)
    ensures pos < r.pos <= |text| && text[r.pos - 1] == ']' && ArrayAlways(longer, pos, acc, fuel, r)
    decreases fuel, 1
  {
    if pos < |text| && text[pos] != ']' && fuel > 0 {
      var value, next := ArrayTurns(text, pos, acc, fuel, r);
      ValueStays(text, longer, pos, fuel - 1, value);
      ArrayStays(text, longer, value.pos, next, fuel - 1, r);
      ArrayGoesOn(longer, pos, acc, fuel, value, r);
    }
  }

  /** Text that is accepted ends, as far as it was read, in a closing bracket. Whatever follows, and with
      whatever fuel that is no less, it is accepted with the same value and no more of it is read. */
  lemma AcceptedStays(text: string, longer: string, fuel: nat, more: nat)
    requires text != [] && text <= longer && fuel <= more && Accepted(Parse(text, fuel))
    ensures var r := Parse(text, fuel);
            && 0 < r.pos <= |text| && (text[r.pos - 1] == '}' || text[r.pos - 1] == ']')
            && Parse(longer, more) == r
  {
    ScanStays(text, longer, 0, IsOpen);
    var at, r := ScanTo(text, 0, IsOpen), Parse(text, fuel);
    if !at.ok {
      ObjectNeverRecovers(text, at.pos + 1, Null, fuel);
      ArrayNeverRecovers(text, at.pos + 1, Null, fuel);
    } else if text[at.pos] == '{' {
      ObjectStays(text, longer, at.pos + 1, Null, fuel, r);
    } else {
      ArrayStays(text, longer, at.pos + 1, Null, fuel, r);
    }
  }

  /** A spelled container that is cut off before its last bracket is not accepted, wherever it is cut. */
  lemma CutOffIsRefused(text: string, i: nat, j: nat, v: Json, n: nat, fuel: nat)
    requires Spells(text, i, j, v) && IsContainer(v) && Clean(v) && 0 < n < j
    requires forall k | 0 <= k < i <= |text| :: text[k] != '{' && text[k] != '['
    ensures !Accepted(Parse(text[..n], fuel))
  {
    SpelledOpens(text, i, j, v);
    if Accepted(Parse(text[..n], fuel)) {
      var more := if fuel < j - i then j - i else fuel;
      AcceptedStays(text[..n], text, fuel, more);
      SpelledIsRead(text, i, j, v, more);
    }
  }
}
