/** JSON values and the text that the printer writes for them. The printer escapes nothing. */
module JsonText {
  import opened Common
  import opened MachineInts

  /** A null handle and a null value print and read alike. The fields of an object are listed in the
      order in which its hash map is walked, whatever that is. A floating-point number is kept as the
      text it was read from. */
  datatype Json =
    | Null
    | Bool(b: bool)
    | Int(n: int64)
    | Real(text: string)
    | Str(s: string)
    | Arr(items: seq<Json>)
    | Obj(fields: seq<Field>)

  datatype Field = Field(key: string, value: Json)

  // ---------------------------------------------------------------- numbers

  function Digit(d: nat): char
    requires d < 10
  {
    '0' + d as char
  }

  function Digits(n: nat): (r: string)
    ensures |r| > 0
  {
    if n < 10 then [Digit(n)] else Digits(n / 10) + [Digit(n % 10)]
  }

  function Decimal(n: int): string {
    if n < 0 then "-" + Digits(-n) else Digits(n)
  }

  // ---------------------------------------------------------------- printing

  function Print(v: Json): string
    decreases v, 0
  {
    match v
    case Null => "null"
    case Bool(b) => if b then "true" else "false"
    case Int(n) => Decimal(n)
    case Real(t) => t
    case Str(s) => "\"" + s + "\""
    case Arr(items) => "[" + PrintItems(items, 0) + "]"
    case Obj(fields) => "{" + PrintFields(fields, 0) + "}"
  }

  /** The text of the items from the i-th on, each but the very first after a comma. */
  function PrintItems(items: seq<Json>, i: nat): string
    requires i <= |items|
    decreases items, |items| - i
  {
    if i == |items| then ""
    else (if i > 0 then "," else "") + Print(items[i]) + PrintItems(items, i + 1)
  }

  function PrintFields(fields: seq<Field>, i: nat): string
    requires i <= |fields|
    decreases fields, |fields| - i
  {
    if i == |fields| then ""
    else (if i > 0 then "," else "") + PrintField(fields[i]) + PrintFields(fields, i + 1)
  }

  function PrintField(f: Field): string
    decreases f
  {
    "\"" + f.key + "\":" + Print(f.value)
  }

  class JsonStringBuilder {
    var written: string

    constructor ()
      ensures written == ""
    {
      written := "";
    }

    method WriteChar(c: char)
      modifies this
      ensures written == old(written) + [c]
    {
      written := written + [c];
    }

    method WriteRaw(data: string)
      modifies this
      ensures written == old(written) + data
    {
      written := written + data;
    }
  }

  lemma Written(w: string, a: string, b: string, c: string)
    ensures w + a + b + c == w + (a + b + c)
  {
    Regroup(w, a, b);
    Regroup(w, a + b, c);
  }

  method WriteStringValue(v: Json, builder: JsonStringBuilder)
    modifies builder
    ensures builder.written == old(builder.written) + Print(v)
    decreases v, 0
  {
    match v
    case Null => builder.WriteRaw("null");
    case Bool(b) =>
      if b {
        builder.WriteRaw("true");
      } else {
        builder.WriteRaw("false");
      }
    case Int(n) => builder.WriteRaw(Decimal(n));
    case Real(t) => builder.WriteRaw(t);
    case Str(s) =>
      builder.WriteChar('\"');
      builder.WriteRaw(s);
      builder.WriteChar('\"');
      Written(old(builder.written), "\"", s, "\"");
    case Arr(items) =>
      builder.WriteChar('[');
      WriteItems(items, builder);
      builder.WriteChar(']');
      Written(old(builder.written), "[", PrintItems(items, 0), "]");
    case Obj(fields) =>
      builder.WriteChar('{');
      WriteFields(fields, builder);
      builder.WriteChar('}');
      Written(old(builder.written), "{", PrintFields(fields, 0), "}");
  }

  method WriteItems(items: seq<Json>, builder: JsonStringBuilder)
    modifies builder
    ensures builder.written == old(builder.written) + PrintItems(items, 0)
    decreases items, 1
  {
    for i := 0 to |items|
      invariant builder.written + PrintItems(items, i) == old(builder.written) + PrintItems(items, 0)
    {
      ghost var w, comma := builder.written, if i > 0 then "," else "";
      Written(w, comma, Print(items[i]), PrintItems(items, i + 1));
      if i > 0 {
        builder.WriteChar(',');
      }
      assert builder.written == w + comma;
      WriteStringValue(items[i], builder);
    }
  }

  method WriteFields(fields: seq<Field>, builder: JsonStringBuilder)
    modifies builder
    ensures builder.written == old(builder.written) + PrintFields(fields, 0)
    decreases fields, 1
  {
    for i := 0 to |fields|
      invariant builder.written + PrintFields(fields, i) == old(builder.written) + PrintFields(fields, 0)
    {
      ghost var w, comma := builder.written, if i > 0 then "," else "";
      Written(w, comma, PrintField(fields[i]), PrintFields(fields, i + 1));
      if i > 0 {
        builder.WriteChar(',');
      }
      assert builder.written == w + comma;
      WriteField(fields[i], builder);
    }
  }

  method WriteField(f: Field, builder: JsonStringBuilder)
    modifies builder
    ensures builder.written == old(builder.written) + PrintField(f)
    decreases f, 1
  {
    builder.WriteChar('\"');
    builder.WriteRaw(f.key);
    builder.WriteChar('\"');
    builder.WriteChar(':');
    WriteStringValue(f.value, builder);
    Written(old(builder.written) + "\"", f.key, "\":", Print(f.value));
  }
}
