/**
 * The slice of Python's object model that the scraper's payload handling
 * touches: the values a JSON document decodes to (None, bool, int, str,
 * list, dict), truthiness, `dict.get`, subscription, iteration, `in`, and
 * the `str()` / `repr()` renderings used by f-strings and `str(v)`.
 *
 * Every operation that raises in Python returns `Err` with the exception
 * class here, so callers propagate it exactly where the source would.
 */
module Py {

  import opened Wrappers
  import opened Text

  /** The exception classes the modelled code can raise. */
  datatype Exc =
    | AttributeError    // method called on a value of the wrong type (`None.get`, `5.split`)
    | KeyError(key: string)
    | TypeError         // subscription, iteration or arithmetic on the wrong type
    | ValueError        // `strptime` rejects its input, tuple unpacking of the wrong arity
    | ZeroDivisionError

  /**
   * A Python value decoded from JSON. `JNull` is Python's `None`; a dict is
   * its key/value pairs in insertion order (keys are taken to be distinct).
   */
  datatype Json =
    | JNull
    | JBool(b: bool)
    | JInt(i: int)
    | JStr(s: string)
    | JArr(items: seq<Json>)
    | JObj(fields: seq<Member>)

  datatype Member = Member(key: string, val: Json)

  /** Python's `bool(v)`. */
  predicate Truthy(v: Json) {
    match v
    case JNull => false
    case JBool(b) => b
    case JInt(i) => i != 0
    case JStr(s) => |s| > 0
    case JArr(items) => |items| > 0
    case JObj(fields) => |fields| > 0
  }

  /** The value stored under `key`, if any. */
  function Lookup(fields: seq<Member>, key: string): (r: Option<Json>)
    ensures r.Some? <==> exists i :: 0 <= i < |fields| && fields[i].key == key
    ensures r.Some? ==> exists i :: 0 <= i < |fields| && fields[i] == Member(key, r.value)
  {
    if |fields| == 0 then None
    else if fields[0].key == key then Some(fields[0].val)
    else
      var r := Lookup(fields[1..], key);
      assert forall i :: 1 <= i < |fields| ==> fields[i] == fields[1..][i - 1];
      r
  }

  /** Python's `v.get(key, default)`: only dicts have `get`. */
  function Get(v: Json, key: string, default: Json): (r: Result<Json, Exc>)
    ensures r.Err? <==> !v.JObj?
    ensures r.Err? ==> r.error == AttributeError
    ensures v.JObj? ==> r.value == Lookup(v.fields, key).GetOr(default)
  {
    match v
    case JObj(fields) => Ok(Lookup(fields, key).GetOr(default))
    case _ => Err(AttributeError)
  }

  /** `d.get(key, default)` on a value known to be a dict. */
  function DictGet(v: Json, key: string, default: Json): Json
    requires v.JObj?
  {
    Lookup(v.fields, key).GetOr(default)
  }

  /** Python's `v[key]` with a string key. */
  function Index(v: Json, key: string): (r: Result<Json, Exc>)
    ensures r.Ok? <==> v.JObj? && Lookup(v.fields, key).Some?
    ensures r.Ok? ==> r.value == Lookup(v.fields, key).value
    ensures v.JObj? && r.Err? ==> r.error == KeyError(key)
    ensures !v.JObj? ==> r == Err(TypeError)
  {
    match v
    case JObj(fields) =>
      (match Lookup(fields, key)
       case Some(x) => Ok(x)
       case None => Err(KeyError(key)))
    case _ => Err(TypeError)
  }

  /** The elements `for x in v` visits: list items, dict keys, string characters. */
  function Iterate(v: Json): (r: Result<seq<Json>, Exc>)
    ensures r.Err? <==> !(v.JArr? || v.JObj? || v.JStr?)
    ensures v.JArr? ==> r == Ok(v.items)
    ensures r.Ok? ==> |r.value| == (match v case JArr(a) => |a| case JObj(f) => |f| case JStr(s) => |s| case _ => 0)
  {
    match v
    case JArr(items) => Ok(items)
    case JObj(fields) => Ok(seq(|fields|, i requires 0 <= i < |fields| => JStr(fields[i].key)))
    case JStr(s) => Ok(seq(|s|, i requires 0 <= i < |s| => JStr([s[i]])))
    case _ => Err(TypeError)
  }

  /** Python's `needle in v` for a string `needle`. */
  function HasMember(v: Json, needle: string): (r: Result<bool, Exc>)
    ensures v.JObj? ==> r == Ok(Lookup(v.fields, needle).Some?)
    ensures v.JArr? ==> r == Ok(JStr(needle) in v.items)
    ensures v.JStr? ==> r == Ok(Contains(v.s, needle))
    ensures r.Err? <==> !(v.JObj? || v.JArr? || v.JStr?)
  {
    match v
    case JObj(fields) => Ok(Lookup(fields, needle).Some?)
    case JArr(items) => Ok(JStr(needle) in items)
    case JStr(s) => Ok(Contains(s, needle))
    case _ => Err(TypeError)
  }

  /** The integer a value stands for in arithmetic (`bool` is a subclass of `int`). */
  function AsInt(v: Json): (r: Result<int, Exc>)
    ensures r.Ok? <==> v.JInt? || v.JBool?
    ensures v.JInt? ==> r == Ok(v.i)
  {
    match v
    case JInt(i) => Ok(i)
    case JBool(b) => Ok(if b then 1 else 0)
    case _ => Err(TypeError)
  }

  /** Python's `str(i)` for any integer. */
  function IntToString(i: int): (s: string)
    ensures i >= 0 ==> s == NatToString(i)
    ensures i < 0 ==> s == "-" + NatToString(-i)
  {
    if i < 0 then "-" + NatToString(-i) else NatToString(i)
  }

  /** Python's `str(v)`, which is also what an f-string inserts for `{v}`. */
  function Str(v: Json): string {
    match v
    case JNull => "None"
    case JBool(b) => if b then "True" else "False"
    case JInt(i) => IntToString(i)
    case JStr(s) => s
    case _ => Repr(v)
  }

  /** Python's `repr(v)`. */
  function Repr(v: Json): string
    decreases v
  {
    match v
    case JStr(s) => StrRepr(s)
    case JArr(items) =>
      "[" + Join(", ", seq(|items|, i requires 0 <= i < |items| => Repr(items[i]))) + "]"
    case JObj(fields) =>
      "{" + Join(", ", seq(|fields|, i requires 0 <= i < |fields| =>
        StrRepr(fields[i].key) + ": " + Repr(fields[i].val))) + "}"
    case JNull => "None"
    case JBool(b) => if b then "True" else "False"
    case JInt(i) => IntToString(i)
  }

  /**
   * Python's `repr` of a string: single quotes unless the text has `'` but
   * no `"`, and a text none of whose characters needs an escape inside those
   * quotes stands verbatim between them.
   */
  function StrRepr(s: string): (r: string)
    ensures |r| >= 2 && r[0] == r[|r| - 1] && (r[0] == '\'' || r[0] == '"')
    ensures r[0] == '"' <==> '\'' in s && '"' !in s
    ensures (forall i :: 0 <= i < |s| ==> Verbatim(s[i], r[0])) ==> r == [r[0]] + s + [r[0]]
  {
    var q := if '\'' in s && '"' !in s then '"' else '\'';
    EscapeAllVerbatim(s, q);
    [q] + EscapeAll(s, q) + [q]
  }

  /** A character `repr` writes as itself inside quotes `q`: printable, neither a backslash nor `q`. */
  predicate Verbatim(c: char, q: char) {
    c != '\\' && c != q && IsPrintable(c)
  }

  function EscapeAll(s: string, q: char): string {
    if |s| == 0 then "" else EscapeChar(s[0], q) + EscapeAll(s[1..], q)
  }

  /** Escaping leaves a text of verbatim characters unchanged. */
  lemma {:induction false} EscapeAllVerbatim(s: string, q: char)
    ensures (forall i :: 0 <= i < |s| ==> Verbatim(s[i], q)) ==> EscapeAll(s, q) == s
  {
    if |s| > 0 && forall i :: 0 <= i < |s| ==> Verbatim(s[i], q) {
      assert Verbatim(s[0], q);
      assert forall i :: 0 <= i < |s[1..]| ==> s[1..][i] == s[i + 1];
      EscapeAllVerbatim(s[1..], q);
      assert s == [s[0]] + s[1..];
    }
  }

  /** How `repr` writes one character inside quotes `q`. */
  function EscapeChar(c: char, q: char): string {
    if c == '\\' then "\\\\"
    else if c == q then ['\\', q]
    else if c == '\n' then "\\n"
    else if c == '\r' then "\\r"
    else if c == '\t' then "\\t"
    else if !IsPrintable(c) then
      var n := c as int;
      if n < 0x100 then "\\x" + Hex(n, 2)
      else if n < 0x10000 then "\\u" + Hex(n, 4)
      else "\\U" + Hex(n, 8)
    else [c]
  }

  /** Python's `str.isprintable()` on the Latin-1 range and the Unicode spaces. */
  predicate IsPrintable(c: char) {
    var n := c as int;
    !(n < 0x20 || 0x7F <= n <= 0xA0 || n == 0xAD || (IsSpace(c) && n != 0x20))
  }

  /** `n mod 16^width` in `width` lower-case hexadecimal digits. */
  function Hex(n: nat, width: nat): (s: string)
    ensures |s| == width
  {
    if width == 0 then ""
    else Hex(n / 16, width - 1) + [HexDigit(n % 16)]
  }

  function HexDigit(d: nat): char
    requires d < 16
  {
    if d < 10 then DigitChar(d) else (d - 10 + 'a' as int) as char
  }
}
