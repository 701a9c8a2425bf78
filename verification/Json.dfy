/**
 JSON values as the configuration reader sees them. An object keeps its keys in insertion order, and
 setting a key that is already there keeps its place.
 */
module JsonValues {
  import opened Text

  /** A float carries the text it is written as, which its value determines. */
  datatype Number = Int(i: int) | Float(x: real, text: string)

  datatype Field = Field(key: string, value: Json)

  type Fields = seq<Field>

  datatype Json =
    | Null
    | Bool(b: bool)
    | Num(n: Number)
    | Str(s: string)
    | Arr(items: seq<Json>)
    | Obj(fields: Fields)

  // --- objects --------------------------------------------------------------------------

  function Get(fields: Fields, key: string): Option<Json> {
    if fields == [] then None
    else if fields[0].key == key then Some(fields[0].value)
    else Get(fields[1..], key)
  }

  function Put(fields: Fields, key: string, value: Json): Fields {
    if fields == [] then [Field(key, value)]
    else if fields[0].key == key then [Field(key, value)] + fields[1..]
    else [fields[0]] + Put(fields[1..], key, value)
  }

  lemma {:induction false} GetAfterPut(fields: Fields, key: string, value: Json, other: string)
    ensures Get(Put(fields, key, value), other) == if other == key then Some(value) else Get(fields, other)
  {
    if fields != [] {
      if fields[0].key == key {
        assert ([Field(key, value)] + fields[1..])[1..] == fields[1..];
      } else {
        GetAfterPut(fields[1..], key, value, other);
        assert ([fields[0]] + Put(fields[1..], key, value))[1..] == Put(fields[1..], key, value);
      }
    }
  }

  /** Setting a key to the value it has changes nothing, not even the order. */
  lemma {:induction false} PutAgain(fields: Fields, key: string, value: Json)
    requires Get(fields, key) == Some(value)
    ensures Put(fields, key, value) == fields
  {
    if fields[0].key == key {
      assert fields == [Field(key, value)] + fields[1..];
    } else {
      PutAgain(fields[1..], key, value);
    }
  }

  // --- text -----------------------------------------------------------------------------

  function HexDigit(d: nat): char
    requires d < 16
  {
    if d < 10 then ('0' as int + d) as char else ('a' as int + d - 10) as char
  }

  function EscapeChar(c: char): string {
    match c as int
    case 0x22 => "\\\""
    case 0x5C => "\\\\"
    case 0x08 => "\\b"
    case 0x09 => "\\t"
    case 0x0A => "\\n"
    case 0x0C => "\\f"
    case 0x0D => "\\r"
    case n => if n < 0x20 then "\\u00" + [HexDigit(n / 16), HexDigit(n % 16)] else [c]
  }

  function Escape(s: string): string {
    if s == [] then [] else EscapeChar(s[0]) + Escape(s[1..])
  }

  function NumberText(n: Number): string {
    match n
    case Float(_, text) => text
    case Int(i) => if i < 0 then "-" + Decimal(-i) else Decimal(i)
  }

  /** The compact text of a value. */
  function ToText(v: Json): string
    decreases v, 1
  {
    match v
    case Null => "null"
    case Bool(b) => if b then "true" else "false"
    case Num(n) => NumberText(n)
    case Str(s) => "\"" + Escape(s) + "\""
    case Arr(items) => "[" + ItemsText(items) + "]"
    case Obj(fields) => "{" + FieldsText(fields) + "}"
  }

  function ItemsText(items: seq<Json>): string
    decreases items, 0
  {
    if items == [] then ""
    else ToText(items[0]) + (if |items| > 1 then "," else "") + ItemsText(items[1..])
  }

  function FieldsText(fields: Fields): string
    decreases fields, 0
  {
    if fields == [] then ""
    else
      "\"" + Escape(fields[0].key) + "\":" + ToText(fields[0].value)
      + (if |fields| > 1 then "," else "") + FieldsText(fields[1..])
  }

  // --- reading a setting ----------------------------------------------------------------

  /** A setting as text: absent and null are empty, a string loses its outer spaces, anything else is
      its JSON text without outer quotes and spaces. */
  function ValueStr(v: Option<Json>): string {
    match v
    case None => ""
    case Some(Null) => ""
    case Some(Str(s)) => Trim(s)
    case Some(other) => Trim(TrimBy(ToText(other), IsQuote))
  }

  lemma TrimTwice(s: string)
    ensures Trim(Trim(s)) == Trim(s)
  {
    TrimByEnds(s, IsSpace);
    TrimByKeeps(Trim(s), IsSpace);
  }

  /** A setting read as text and written back as a string reads as the same text. */
  lemma ValueStrTwice(v: Option<Json>)
    ensures ValueStr(Some(Str(ValueStr(v)))) == ValueStr(v)
  {
    match v
    case Some(Str(s)) => TrimTwice(s);
    case None =>
    case Some(Null) =>
    case Some(other) => TrimTwice(TrimBy(ToText(other), IsQuote));
  }

  function ValueBool(v: Option<Json>, default: bool): bool {
    match v
    case None => default
    case Some(Null) => default
    case Some(Bool(b)) => b
    case Some(Num(Int(i))) => i != 0
    case Some(Num(Float(x, _))) => x != 0.0
    case Some(Str(s)) => s != ""
    case Some(Arr(items)) => items != []
    case Some(Obj(fields)) => fields != []
  }
}
