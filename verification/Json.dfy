/** Compact JSON text, as the mesh puts it on the wire: no blanks between tokens and every
    character outside printable ASCII escaped, so one character is one byte. Objects keep
    the insertion order of the dictionaries they come from (sections 4, 5 and 7 of
    RFC 8259). */
module Json {
  /** Token stands for a number or one of true, false and null, already spelled out. */
  datatype Json = Token(text: string) | Str(s: string) | Arr(items: seq<Json>) | Obj(fields: seq<Field>)

  datatype Field = Field(key: string, value: Json)

  function HexDigit(n: int): char
    requires 0 <= n < 16
  {
    "0123456789abcdef"[n]
  }

  function UnicodeEscape(n: int): string
    requires 0 <= n < 0x1_0000
  {
    ['\\', 'u', HexDigit(n / 0x1000), HexDigit(n / 0x100 % 16), HexDigit(n / 0x10 % 16), HexDigit(n % 16)]
  }

  function EscapeChar(c: char): string {
    var n := c as int;
    if c == '"' then "\\\""
    else if c == '\\' then "\\\\"
    else if 0x20 <= n <= 0x7e then [c]
    else if n == 8 then "\\b"
    else if n == 9 then "\\t"
    else if n == 10 then "\\n"
    else if n == 12 then "\\f"
    else if n == 13 then "\\r"
    else if n < 0x1_0000 then UnicodeEscape(n)
    else
      var m := n - 0x1_0000;
      UnicodeEscape(0xd800 + m / 0x400) + UnicodeEscape(0xdc00 + m % 0x400)
  }

  function EscapeAll(s: string): string {
    if s == [] then [] else EscapeAll(s[..|s| - 1]) + EscapeChar(s[|s| - 1])
  }

  function EncodeString(s: string): string { "\"" + EscapeAll(s) + "\"" }

  function Encode(j: Json): string
    decreases j, 1
  {
    match j
    case Token(text) => text
    case Str(s) => EncodeString(s)
    case Arr(items) => "[" + EncodeItems(items) + "]"
    case Obj(fields) => "{" + EncodeFields(fields) + "}"
  }

  function EncodeItems(items: seq<Json>): string
    decreases items, 0
  {
    if items == [] then []
    else
      EncodeItems(items[..|items| - 1]) + (if |items| == 1 then "" else ",") + Encode(items[|items| - 1])
  }

  function EncodeFields(fields: seq<Field>): string
    decreases fields, 0
  {
    if fields == [] then []
    else
      var last := fields[|fields| - 1];
      EncodeFields(fields[..|fields| - 1]) + (if |fields| == 1 then "" else ",")
      + EncodeString(last.key) + ":" + Encode(last.value)
  }

  /** The number of bytes a value takes on the wire. */
  function Size(j: Json): nat { |Encode(j)| }

  function StringSize(s: string): nat { |EncodeString(s)| }

  lemma {:induction false} ArrayGrows(items: seq<Json>, item: Json)
    ensures Size(Arr(items + [item])) == Size(Arr(items)) + (if items == [] then 0 else 1) + Size(item)
  {
    var more := items + [item];
    assert more[..|items|] == items;
    assert EncodeItems(more) == EncodeItems(items) + (if |more| == 1 then "" else ",") + Encode(item);
    assert Encode(Arr(more)) == "[" + EncodeItems(more) + "]" && Encode(Arr(items)) == "[" + EncodeItems(items) + "]";
  }

  lemma {:induction false} ObjectGrows(fields: seq<Field>, f: Field)
    ensures Size(Obj(fields + [f])) == Size(Obj(fields)) + (if fields == [] then 0 else 1) + StringSize(f.key) + 1 + Size(f.value)
  {
    var more := fields + [f];
    assert more[..|fields|] == fields;
    assert EncodeFields(more) == EncodeFields(fields) + (if |more| == 1 then "" else ",")
      + EncodeString(f.key) + ":" + Encode(f.value);
    assert Encode(Obj(more)) == "{" + EncodeFields(more) + "}" && Encode(Obj(fields)) == "{" + EncodeFields(fields) + "}";
  }

  lemma {:induction false} FieldsReplaced(fields: seq<Field>, i: nat, v: Json)
    requires i < |fields|
    ensures |EncodeFields(fields[i := fields[i].(value := v)])|
         == |EncodeFields(fields)| - Size(fields[i].value) + Size(v)
  {
    hide EncodeString;
    var n := |fields| - 1;
    if i < n {
      FieldsReplaced(fields[..n], i, v);
      assert fields[i := fields[i].(value := v)][..n] == fields[..n][i := fields[i].(value := v)];
    } else {
      assert fields[i := fields[i].(value := v)][..n] == fields[..n];
    }
  }

  lemma {:induction false} ObjectReplaced(fields: seq<Field>, i: nat, v: Json)
    requires i < |fields|
    ensures Size(Obj(fields[i := fields[i].(value := v)])) == Size(Obj(fields)) - Size(fields[i].value) + Size(v)
  {
    FieldsReplaced(fields, i, v);
    var changed := fields[i := fields[i].(value := v)];
    assert Encode(Obj(changed)) == "{" + EncodeFields(changed) + "}";
    assert Encode(Obj(fields)) == "{" + EncodeFields(fields) + "}";
  }

  // ----- dictionaries in insertion order -----

  predicate DistinctKeys(fields: seq<Field>) { forall i, j | 0 <= i < j < |fields| :: fields[i].key != fields[j].key }

  predicate HasKey(fields: seq<Field>, key: string) { exists i | 0 <= i < |fields| :: fields[i].key == key }

  function IndexOf(fields: seq<Field>, key: string): (i: nat)
    requires HasKey(fields, key)
    ensures i < |fields| && fields[i].key == key
  {
    var n := |fields| - 1;
    if fields[n].key == key then n else
      assert HasKey(fields[..n], key);
      IndexOf(fields[..n], key)
  }

  function ValueAt(fields: seq<Field>, key: string): Json
    requires HasKey(fields, key)
  {
    fields[IndexOf(fields, key)].value
  }

  /** Assignment to a dictionary key: in place when present, at the end otherwise. */
  function Put(fields: seq<Field>, key: string, v: Json): seq<Field> {
    if HasKey(fields, key) then fields[IndexOf(fields, key) := Field(key, v)] else fields + [Field(key, v)]
  }

  /** With distinct keys the position of a key does not matter. */
  lemma {:induction false} IndexIsUnique(fields: seq<Field>, i: nat)
    requires DistinctKeys(fields) && i < |fields|
    ensures HasKey(fields, fields[i].key) && IndexOf(fields, fields[i].key) == i
  {
    var k := IndexOf(fields, fields[i].key);
    assert fields[k].key == fields[i].key;
  }

  /** Assigning to a key keeps the keys distinct and changes that key alone. */
  lemma {:induction false} PutKeepsDistinct(fields: seq<Field>, key: string, v: Json, other: string)
    requires DistinctKeys(fields)
    ensures var r := Put(fields, key, v);
      && DistinctKeys(r)
      && (HasKey(r, other) <==> HasKey(fields, other) || other == key)
      && HasKey(r, key) && ValueAt(r, key) == v
      && (other != key && HasKey(fields, other) ==> ValueAt(r, other) == ValueAt(fields, other))
  {
    hide IndexOf;
    var r := Put(fields, key, v);
    var at := if HasKey(fields, key) then IndexOf(fields, key) else |fields|;
    assert r[at] == Field(key, v);
    IndexIsUnique(r, at);
    if HasKey(fields, other) && other != key {
      var i := IndexOf(fields, other);
      assert r[i] == fields[i];
      IndexIsUnique(r, i);
    }
    if HasKey(r, other) && other != key {
      var i := IndexOf(r, other);
      assert r[i] == fields[i];
    }
  }

  /** What assigning to a key adds to the size of the object. */
  lemma {:induction false} PutSize(fields: seq<Field>, key: string, v: Json)
    ensures Size(Obj(Put(fields, key, v))) == Size(Obj(fields))
      + if HasKey(fields, key) then Size(v) - Size(ValueAt(fields, key))
        else (if fields == [] then 0 else 1) + StringSize(key) + 1 + Size(v)
  {
    if HasKey(fields, key) {
      ObjectReplaced(fields, IndexOf(fields, key), v);
    } else {
      ObjectGrows(fields, Field(key, v));
    }
  }
}
