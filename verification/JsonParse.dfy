/** The recursive parser, on arbitrary text. It keeps a cursor and a validity flag.

    The outcome is Broken where the original reads past the terminator of its text, or throws: nothing
    is said of it then. On malformed text the original may also loop for ever, so each call carries
    fuel, and a call without fuel is Broken too. */
module JsonParse {
  import opened Common
  import opened MachineInts
  import opened JsonText
  import opened JsonGrammar

  /** Where a scan stopped. It is not ok when it ran off the text. */
  datatype Scan = Stopped(pos: nat, ok: bool) | Lost

  datatype Outcome<T> = Parsed(value: T, pos: nat, ok: bool) | Broken

  // ---------------------------------------------------------------- characters and tokens

  const NUL: char := '\0'

  /** The text is followed by a terminator, which may be read. */
  function CharAt(text: string, i: nat): Option<char> {
    if i < |text| then Some(text[i]) else if i == |text| then Some(NUL) else None
  }

  predicate IsNumber(c: char) {
    IsDigit(c) || c == '-'
  }

  predicate IsLetter(c: char) {
    'a' <= c <= 'z' || 'A' <= c <= 'Z'
  }

  predicate StartsWith(text: string, i: nat, word: string) {
    i + |word| <= |text| && text[i..i + |word|] == word
  }

  predicate IsTrue(text: string, i: nat) {
    i + 4 < |text| && !IsLetter(text[i + 4]) && StartsWith(text, i, "true")
  }

  predicate IsFalse(text: string, i: nat) {
    i + 5 < |text| && !IsLetter(text[i + 5]) && StartsWith(text, i, "false")
  }

  predicate IsNull(text: string, i: nat) {
    i + 4 < |text| && !IsLetter(text[i + 4]) && !IsNumber(text[i + 4]) && StartsWith(text, i, "null")
  }

  predicate StartsValue(text: string, i: nat)
    requires i <= |text|
  {
    var c := CharAt(text, i).value;
    c == '\"' || c == '{' || c == '[' || IsNumber(c) || IsTrue(text, i) || IsFalse(text, i) || IsNull(text, i)
  }

  predicate IsOpen(c: char) { c == '{' || c == '[' }

  predicate IsQuote(c: char) { c == '\"' }

  predicate IsQuoteOrBrace(c: char) { c == '\"' || c == '}' }

  predicate EndsValue(c: char) { c == ',' || c == '}' || c == ']' }

  // ---------------------------------------------------------------- scans

  /** On to the first character that stops the scan; running off the text ends it. */
  function ScanTo(text: string, i: nat, stop: char -> bool): (r: Scan)
    ensures r.Stopped? ==> i <= r.pos && (r.ok ==> r.pos <= |text|)
    decreases |text| - i
  {
    match CharAt(text, i)
    case None => Lost
    case Some(c) =>
      if stop(c) then Stopped(i, true)
      else if i + 1 >= |text| then Stopped(i + 1, false)
      else ScanTo(text, i + 1, stop)
  }

  /** On to the start of a value, or to a closing bracket. */
  function ScanValue(text: string, i: nat): (r: Scan)
    ensures r.Stopped? ==> i <= r.pos && r.ok == (r.pos < |text|)
    decreases |text| - i
  {
    match CharAt(text, i)
    case None => Lost
    case Some(c) =>
      if StartsValue(text, i) || c == '}' || c == ']' then Stopped(i, true)
      else if i + 1 >= |text| then Stopped(i + 1, false)
      else ScanValue(text, i + 1)
  }

  predicate InNumber(text: string, i: nat)
    requires i <= |text|
  {
    var c := CharAt(text, i).value;
    IsNumber(c) || c == '.' || (c == 'e' && CharAt(text, i + 1) == Some('-'))
  }

  function ScanNumber(text: string, i: nat): (r: Scan)
    ensures r.Stopped? ==> i <= r.pos
    decreases |text| - i
  {
    if i > |text| then Lost
    else if !InNumber(text, i) then Stopped(i, true)
    else if i + 1 >= |text| then Stopped(i + 1, false)
    else ScanNumber(text, i + 1)
  }

  // ---------------------------------------------------------------- leaves

  function DigitPrefix(s: string): (r: string)
    ensures |r| <= |s| && r == s[..|r|]
  {
    if s == [] || !IsDigit(s[0]) then "" else [s[0]] + DigitPrefix(s[1..])
  }

  lemma DigitPrefixIsDigits(s: string)
    ensures AllDigits(DigitPrefix(s))
  {
  }

  /** A decimal number at the front of the string; none if there is no digit or it does not fit. */
  function FromChars(s: string): Option<int64> {
    var negative := s != [] && s[0] == '-';
    var digits := DigitPrefix(if negative then s[1..] else s);
    DigitPrefixIsDigits(if negative then s[1..] else s);
    var size: int := DigitsValue(digits);
    var n := if negative then -size else size;
    if digits != [] && FitsInt64(n) then Some(n) else None
  }

  /** A floating-point number is taken from the front of the string if a digit comes first, or a point and a
      digit, behind at most one minus sign. */
  predicate StartsReal(s: string) {
    var t := if s != [] && s[0] == '-' then s[1..] else s;
    t != [] && (IsDigit(t[0]) || (t[0] == '.' && |t| > 1 && IsDigit(t[1])))
  }

  function NumberOf(s: string): Json {
    if '.' in s then if StartsReal(s) then Real(s) else Null
    else
      match FromChars(s)
      case Some(n) => Int(n)
      case None => Null
  }

  /** A key is handed on as a C string, which ends at its first NUL. */
  function CString(s: string): string {
    if s == [] || s[0] == NUL then "" else [s[0]] + CString(s[1..])
  }

  /** The text between the cursor and the next quote. */
  function ParseString(text: string, start: nat, ok: bool): Outcome<string> {
    match ScanTo(text, start, IsQuote)
    case Lost => Broken
    case Stopped(end, found) => if end > |text| then Broken else Parsed(text[start..end], end + 1, ok && found)
  }

  function ParseNumber(text: string, start: nat, ok: bool): Outcome<Json> {
    match ScanNumber(text, start)
    case Lost => Broken
    case Stopped(end, found) => if end > |text| then Broken else Parsed(NumberOf(text[start..end]), end, ok && found)
  }

  function ParseKey(text: string, start: nat, ok: bool): Outcome<string> {
    match ScanTo(text, start, IsQuoteOrBrace)
    case Lost => Broken
    case Stopped(open, found) =>
      match CharAt(text, open)
      case None => Broken
      case Some(c) => if c == '}' then Parsed("}", open + 1, ok && found) else ParseString(text, open + 1, ok && found)
  }

  // ---------------------------------------------------------------- values

  /** Assigning to a key of an object that may not exist yet: a new field, or a new value for an old one. */
  function Put(target: Json, field: Field): Json {
    match target
    case Obj(fields) => Obj(PutField(fields, field))
    case _ => Obj([field])
  }

  function PutField(fields: seq<Field>, field: Field): seq<Field> {
    if fields == [] then [field]
    else if fields[0].key == field.key then [field] + fields[1..]
    else [fields[0]] + PutField(fields[1..], field)
  }

  /** Assigning to the index after the last one of an array that may not exist yet. */
  function Push(target: Json, value: Json): Json {
    match target
    case Arr(items) => Arr(items + [value])
    case _ => Arr([value])
  }

  /** A key and the value behind it. */
  function ParseField(text: string, pos: nat, ok: bool, fuel: nat): Outcome<Field>
    decreases fuel, 4
  {
    match ParseKey(text, pos, ok)
    case Broken => Broken
    case Parsed(key, afterKey, ok1) =>
      match ParseValue(text, afterKey, ok1, fuel)
      case Broken => Broken
      case Parsed(value, afterValue, ok2) => Parsed(Field(CString(key), value), afterValue, ok2)
  }

  /** After an opening brace. The test for an empty object compares the addresses of two strings, which
      never are the same, so it takes no part. */
  function ParseObject(text: string, pos: nat, ok: bool, acc: Json, fuel: nat): Outcome<Json>
    decreases fuel, 1
  {
    match CharAt(text, pos)
    case None => Broken
    case Some(c) =>
      if c == '}' then Parsed(acc, pos + 1, ok)
      else if fuel == 0 then Broken
      else
        match ParseField(text, pos, ok, fuel - 1)
        case Broken => Broken
        case Parsed(field, after, ok1) =>
          if after >= |text| then Parsed(Put(acc, field), after + 1, false)
          else ParseObject(text, after, ok1, Put(acc, field), fuel - 1)
  }

  /** After an opening bracket. */
  function ParseArray(text: string, pos: nat, ok: bool, acc: Json, fuel: nat): Outcome<Json>
    decreases fuel, 1
  {
    match CharAt(text, pos)
    case None => Broken
    case Some(c) =>
      if c == ']' then Parsed(acc, pos + 1, ok)
      else if fuel == 0 then Broken
      else
        match ParseValue(text, pos, ok, fuel - 1)
        case Broken => Broken
        case Parsed(value, afterValue, ok1) =>
          if afterValue >= |text| then Parsed(Push(acc, value), afterValue + 1, false)
          else ParseArray(text, afterValue, ok1, Push(acc, value), fuel - 1)
  }

  /** A value that starts at the cursor. */
  function ParseFound(text: string, i: nat, ok: bool, fuel: nat): Outcome<Json>
    requires i <= |text|
    decreases fuel, 2
  {
    var c := CharAt(text, i).value;
    if c == '\"' then
      match ParseString(text, i + 1, ok)
      case Broken => Broken
      case Parsed(s, pos, ok1) => Parsed(Str(s), pos, ok1)
    else if IsNumber(c) then ParseNumber(text, i, ok)
    else if IsTrue(text, i) then Parsed(Bool(true), i + 4, ok)
    else if IsFalse(text, i) then Parsed(Bool(false), i + 5, ok)
    else if IsNull(text, i) then Parsed(Null, i + 4, ok)
    else if c == '{' then ParseObject(text, i + 1, ok, Null, fuel)
    else if c == '[' then ParseArray(text, i + 1, ok, Null, fuel)
    else Parsed(Null, i, ok)
  }

  /** The next value, and the cursor on the separator or bracket behind it. Once the text has proved
      invalid, the cursor stays unless a bracket moved it. */
  function ParseValue(text: string, start: nat, ok: bool, fuel: nat): Outcome<Json>
    decreases fuel, 3
  {
    match ScanValue(text, start)
    case Lost => Broken
    case Stopped(i, found) =>
      if !found then Parsed(Null, start, false)
      else if !ok then Parsed(Null, if StartsValue(text, i) then start else i, false)
      else
        match ParseFound(text, i, ok, fuel)
        case Broken => Broken
        case Parsed(value, pos, ok1) =>
          match ScanTo(text, pos, EndsValue)
          case Lost => Broken
          case Stopped(end, closed) => Parsed(value, end, ok1 && closed)
  }

  /** The whole text: empty text and invalid text give null. */
  function Parse(text: string, fuel: nat): (r: Outcome<Json>)
    ensures r.Parsed? && (text == [] || !r.ok) ==> r.value == Null
  {
    if |text| == 0 then Parsed(Null, 0, true)
    else
      match ScanTo(text, 0, IsOpen)
      case Lost => Broken
      case Stopped(i, found) =>
        var r := if CharAt(text, i) == Some('{') then ParseObject(text, i + 1, found, Null, fuel)
                 else ParseArray(text, i + 1, found, Null, fuel);
        match r
        case Broken => Broken
        case Parsed(value, pos, ok) => Parsed(if ok then value else Null, pos, ok)
  }

  // ---------------------------------------------------------------- the parser object

  /** What a parsing method returns beside the flag of its object. */
  datatype Cursor<T> = At(value: T, pos: nat) | Failed

  predicate Agrees<T(==)>(spec: Outcome<T>, r: Cursor<T>, valid: bool) {
    match spec
    case Broken => r.Failed?
    case Parsed(value, pos, ok) => r == At(value, pos) && valid == ok
  }

  class JsonParser {
    const text: string
    var valid: bool

    constructor (text: string)
      ensures this.text == text && valid
    {
      this.text := text;
      valid := true;
    }

    method CheckExceedSize(index: nat) returns (exceeded: bool)
      modifies this
      ensures exceeded == (index >= |text|) && valid == (old(valid) && !exceeded)
    {
      exceeded := index >= |text|;
      if exceeded {
        valid := false;
      }
    }

    /** The loop by which the parser looks for one of a few characters. */
    method SkipTo(start: nat, stop: char -> bool) returns (r: Option<nat>)
      modifies this
      ensures match ScanTo(text, start, stop)
              case Lost => r.None?
              case Stopped(pos, ok) => r == Some(pos) && valid == (old(valid) && ok)
    {
      var i := start;
      while CharAt(text, i).Some? && !stop(CharAt(text, i).value)
        invariant valid == old(valid) && ScanTo(text, start, stop) == ScanTo(text, i, stop)
        decreases |text| + 1 - i
      {
        i := i + 1;
        var exceeded := CheckExceedSize(i);
        if exceeded {
          return Some(i);
        }
      }
      return if CharAt(text, i).Some? then Some(i) else None;
    }

    method SkipToValue(start: nat) returns (r: Option<nat>)
      modifies this
      ensures match ScanValue(text, start)
              case Lost => r.None?
              case Stopped(pos, ok) => r == Some(pos) && valid == (old(valid) && ok)
    {
      var i := start;
      while i <= |text| && !StartsValue(text, i) && CharAt(text, i) != Some('}') && CharAt(text, i) != Some(']')
        invariant valid == old(valid) && ScanValue(text, start) == ScanValue(text, i)
        decreases |text| + 1 - i
      {
        i := i + 1;
        var exceeded := CheckExceedSize(i);
        if exceeded {
          return Some(i);
        }
      }
      return if i <= |text| then Some(i) else None;
    }

    method SkipNumber(start: nat) returns (r: Option<nat>)
      modifies this
      ensures match ScanNumber(text, start)
              case Lost => r.None?
              case Stopped(pos, ok) => r == Some(pos) && valid == (old(valid) && ok)
    {
      var i := start;
      while i <= |text| && InNumber(text, i)
        invariant valid == old(valid) && ScanNumber(text, start) == ScanNumber(text, i)
        decreases |text| + 1 - i
      {
        i := i + 1;
        var exceeded := CheckExceedSize(i);
        if exceeded {
          return Some(i);
        }
      }
      return if i <= |text| then Some(i) else None;
    }

    method ReadString(start: nat) returns (r: Cursor<string>)
      modifies this
      ensures Agrees(ParseString(text, start, old(valid)), r, valid)
    {
      var end := SkipTo(start, IsQuote);
      if end.None? || end.value > |text| {
        return Failed;
      }
      return At(text[start..end.value], end.value + 1);
    }

    method ReadNumber(start: nat) returns (r: Cursor<Json>)
      modifies this
      ensures Agrees(ParseNumber(text, start, old(valid)), r, valid)
    {
      var end := SkipNumber(start);
      if end.None? || end.value > |text| {
        return Failed;
      }
      return At(NumberOf(text[start..end.value]), end.value);
    }

    method ReadKey(start: nat) returns (r: Cursor<string>)
      modifies this
      ensures Agrees(ParseKey(text, start, old(valid)), r, valid)
    {
      var open := SkipTo(start, IsQuoteOrBrace);
      if open.None? || CharAt(text, open.value).None? {
        return Failed;
      }
      if CharAt(text, open.value) == Some('}') {
        return At("}", open.value + 1);
      }
      r := ReadString(open.value + 1);
    }

    method ReadField(start: nat, fuel: nat) returns (r: Cursor<Field>)
      modifies this
      ensures Agrees(ParseField(text, start, old(valid), fuel), r, valid)
      decreases fuel, 4
    {
      var key := ReadKey(start);
      if key.Failed? {
        return Failed;
      }
      var value := ReadValue(key.pos, fuel);
      return if value.Failed? then Failed else At(Field(CString(key.value), value.value), value.pos);
    }

    method ReadObject(start: nat, fuel: nat) returns (r: Cursor<Json>)
      modifies this
      ensures Agrees(ParseObject(text, start, old(valid), Null, fuel), r, valid)
      decreases fuel, 1
    {
      var res, pos: nat, left: nat := Null, start, fuel;
      ghost var goal := ParseObject(text, start, old(valid), Null, fuel);
      while pos <= |text| && CharAt(text, pos) != Some('}')
        invariant left <= fuel && goal == ParseObject(text, pos, valid, res, left)
        decreases left
      {
        if left == 0 {
          return Failed;
        }
        var more, exceeded := ReadMember(res, pos, left);
        if more.Failed? {
          return Failed;
        }
        res, pos, left := more.value, more.pos, left - 1;
        if exceeded {
          return At(res, pos + 1);
        }
      }
      return if pos <= |text| then At(res, pos + 1) else Failed;
    }

    /** One turn of that loop: the object with one more field, and whether the text ended with it. */
    method ReadMember(res: Json, pos: nat, left: nat) returns (r: Cursor<Json>, exceeded: bool)
      requires pos <= |text| && CharAt(text, pos) != Some('}') && left > 0
      modifies this
      ensures var goal := ParseObject(text, pos, old(valid), res, left);
              if r.Failed? then goal.Broken?
              else if exceeded then goal == Parsed(r.value, r.pos + 1, false) && !valid
              else goal == ParseObject(text, r.pos, valid, r.value, left - 1)
      decreases left, 0
    {
      var field := ReadField(pos, left - 1);
      if field.Failed? {
        return Failed, false;
      }
      exceeded := CheckExceedSize(field.pos);
      r := At(Put(res, field.value), field.pos);
    }

    method ReadArray(start: nat, fuel: nat) returns (r: Cursor<Json>)
      modifies this
      ensures Agrees(ParseArray(text, start, old(valid), Null, fuel), r, valid)
      decreases fuel, 1
    {
      var res, pos: nat, left: nat := Null, start, fuel;
      ghost var goal := ParseArray(text, start, old(valid), Null, fuel);
      while pos <= |text| && CharAt(text, pos) != Some(']')
        invariant left <= fuel && goal == ParseArray(text, pos, valid, res, left)
        decreases left
      {
        if left == 0 {
          return Failed;
        }
        var value := ReadValue(pos, left - 1);
        if value.Failed? {
          return Failed;
        }
        res, pos, left := Push(res, value.value), value.pos, left - 1;
        var exceeded := CheckExceedSize(pos);
        if exceeded {
          return At(res, pos + 1);
        }
      }
      return if pos <= |text| then At(res, pos + 1) else Failed;
    }

    method ReadFound(i: nat, fuel: nat) returns (r: Cursor<Json>)
      requires i <= |text|
      modifies this
      ensures Agrees(ParseFound(text, i, old(valid), fuel), r, valid)
      decreases fuel, 2
    {
      var c := CharAt(text, i).value;
      if c == '\"' {
        var s := ReadString(i + 1);
        r := if s.Failed? then Failed else At(Str(s.value), s.pos);
      } else if IsNumber(c) {
        r := ReadNumber(i);
      } else if IsTrue(text, i) {
        r := At(Bool(true), i + 4);
      } else if IsFalse(text, i) {
        r := At(Bool(false), i + 5);
      } else if IsNull(text, i) {
        r := At(Null, i + 4);
      } else if c == '{' {
        r := ReadObject(i + 1, fuel);
      } else if c == '[' {
        r := ReadArray(i + 1, fuel);
      } else {
        r := At(Null, i);
      }
    }

    method ReadValue(start: nat, fuel: nat) returns (r: Cursor<Json>)
      modifies this
      ensures Agrees(ParseValue(text, start, old(valid), fuel), r, valid)
      decreases fuel, 3
    {
      var i := SkipToValue(start);
      if i.None? {
        return Failed;
      }
      if !valid {
        var bracket := i.value < |text| && !StartsValue(text, i.value);
        return At(Null, if bracket then i.value else start);
      }
      var found := ReadFound(i.value, fuel);
      if found.Failed? {
        return Failed;
      }
      var end := SkipTo(found.pos, EndsValue);
      return if end.None? then Failed else At(found.value, end.value);
    }

    method Run(fuel: nat) returns (r: Cursor<Json>)
      requires valid
      modifies this
      ensures Agrees(Parse(text, fuel), r, valid)
    {
      if |text| == 0 {
        return At(Null, 0);
      }
      var i := SkipTo(0, IsOpen);
      if i.None? {
        return Failed;
      }
      if CharAt(text, i.value) == Some('{') {
        r := ReadObject(i.value + 1, fuel);
      } else {
        r := ReadArray(i.value + 1, fuel);
      }
      if r.At? && !valid {
        r := At(Null, r.pos);
      }
    }
  }
}
