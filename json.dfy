/** Decoded JSON values, as the scraping provider returns them and as they are
    stored in the response table, with Python's truthiness test and the text
    `json.dumps` produces for them (default separators, `ensure_ascii=True`). */
module Json {

  datatype Json =
    | JNull
    | JBool(b: bool)
    | JNum(n: int)
    | JStr(s: string)
    | JArr(items: seq<Json>)
    | JObj(fields: seq<Field>)

  /** One key of an object, in insertion order. */
  datatype Field = Field(key: string, value: Json)

  /** Python's `if data:` on a decoded value: null, false, 0, "", [] and {} are falsy. */
  predicate Truthy(j: Json)
  {
    match j
    case JNull => false
    case JBool(b) => b
    case JNum(n) => n != 0
    case JStr(s) => s != []
    case JArr(items) => items != []
    case JObj(fields) => fields != []
  }

  /** A character `json.dumps` may emit with `ensure_ascii=True`: space to tilde. */
  predicate Printable(c: char)
  {
    ' ' <= c <= '~'
  }

  predicate AllPrintable(s: string)
  {
    forall i :: 0 <= i < |s| ==> Printable(s[i])
  }

  /** True when some string of the value, key or leaf, contains an at-sign. */
  predicate HasAt(j: Json)
  {
    match j
    case JStr(s) => '@' in s
    case JArr(items) => exists i :: 0 <= i < |items| && HasAt(items[i])
    case JObj(fields) =>
      exists i :: 0 <= i < |fields| && ('@' in fields[i].key || HasAt(fields[i].value))
    case _ => false
  }

  function HexDigit(n: nat): (c: char)
    requires n < 16
    ensures Printable(c) && c != '@'
  {
    if n < 10 then (48 + n) as char else (87 + n) as char
  }

  /** Four lower-case hexadecimal digits, as in Python's `'\\u{0:04x}'`. */
  function Hex4(n: nat): (r: string)
    requires n < 0x1_0000
    ensures |r| == 4 && AllPrintable(r) && '@' !in r
  {
    [HexDigit(n / 0x1000), HexDigit(n / 0x100 % 16), HexDigit(n / 0x10 % 16), HexDigit(n % 16)]
  }

  /** The escape of one character inside a JSON string literal under `ensure_ascii`:
      the two-character escapes for quote, backslash and the five named controls,
      the character itself from space to tilde, `\uXXXX` otherwise, and a
      surrogate pair above the basic plane. */
  function EscapeChar(c: char): (r: string)
    ensures AllPrintable(r)
    ensures '@' in r <==> c == '@'
    ensures Printable(c) && c != '"' && c != '\\' ==> r == [c]
  {
    var n := c as int;
    if c == '"' then "\\\""
    else if c == '\\' then "\\\\"
    else if n == 0x0A then "\\n"
    else if n == 0x0D then "\\r"
    else if n == 0x09 then "\\t"
    else if n == 0x08 then "\\b"
    else if n == 0x0C then "\\f"
    else if Printable(c) then [c]
    else if n < 0x1_0000 then "\\u" + Hex4(n)
    else
      var v := n - 0x1_0000;
      "\\u" + Hex4(0xD800 + v / 0x400) + "\\u" + Hex4(0xDC00 + v % 0x400)
  }

  function EscapeString(s: string): (r: string)
    ensures AllPrintable(r)
    ensures '@' in r <==> '@' in s
  {
    if s == [] then "" else EscapeChar(s[0]) + EscapeString(s[1..])
  }

  function Quote(s: string): (r: string)
    ensures AllPrintable(r)
    ensures '@' in r <==> '@' in s
  {
    "\"" + EscapeString(s) + "\""
  }

  function NatToString(n: nat): (r: string)
    ensures r != [] && forall i :: 0 <= i < |r| ==> '0' <= r[i] <= '9'
  {
    if n < 10 then [(48 + n) as char] else NatToString(n / 10) + [(48 + n % 10) as char]
  }

  /** `str(n)` for a Python int. */
  function IntToString(n: int): (r: string)
    ensures AllPrintable(r) && '@' !in r
  {
    if n < 0 then "-" + NatToString(-n) else NatToString(n)
  }

  /** `json.dumps(j)`: items joined by ", ", keys and values by ": ".
      Every character of the text is printable ASCII, and an at-sign occurs
      in it exactly when one occurs in some string of the value. */
  function Dumps(j: Json): (r: string)
    ensures AllPrintable(r)
    ensures '@' in r <==> HasAt(j)
    decreases j, 1
  {
    match j
    case JNull => "null"
    case JBool(b) => if b then "true" else "false"
    case JNum(n) => IntToString(n)
    case JStr(s) => Quote(s)
    case JArr(items) => "[" + DumpsItems(j, items) + "]"
    case JObj(fields) => "{" + DumpsFields(j, fields) + "}"
  }

  function DumpsItems(ghost parent: Json, items: seq<Json>): (r: string)
    requires forall i :: 0 <= i < |items| ==> items[i] < parent
    ensures AllPrintable(r)
    ensures '@' in r <==> exists i :: 0 <= i < |items| && HasAt(items[i])
    decreases parent, 0, |items|
  {
    if items == [] then ""
    else if |items| == 1 then Dumps(items[0])
    else
      var rest := DumpsItems(parent, items[1..]);
      assert forall i :: 1 <= i < |items| ==> items[i] == items[1..][i - 1];
      Dumps(items[0]) + ", " + rest
  }

  function DumpsFields(ghost parent: Json, fields: seq<Field>): (r: string)
    requires forall i :: 0 <= i < |fields| ==> fields[i].value < parent
    ensures AllPrintable(r)
    ensures '@' in r <==> exists i :: 0 <= i < |fields| && ('@' in fields[i].key || HasAt(fields[i].value))
    decreases parent, 0, |fields|
  {
    if fields == [] then ""
    else
      var head := Quote(fields[0].key) + ": " + Dumps(fields[0].value);
      if |fields| == 1 then head
      else
        var rest := DumpsFields(parent, fields[1..]);
        assert forall i :: 1 <= i < |fields| ==> fields[i] == fields[1..][i - 1];
        head + ", " + rest
  }
}
