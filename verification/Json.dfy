/** JSON documents as `serde_json::Value` holds them.  An object is the sequence of
    its members in iteration order, which for the map type in use is key order. */
module JsonModel {
  import opened Basics
  import Text

  predicate NumberChar(c: char) {
    '0' <= c <= '9' || c == '-' || c == '+' || c == '.' || c == 'e'
  }

  /** A number that is not an integer is identified by its printed text, which always
      carries a point or an exponent. */
  type DecimalText = s: string | ('.' in s || 'e' in s) && s[0] != 'e' && forall c :: c in s ==> NumberChar(c) witness "0.0"

  datatype Json =
    | Null
    | Bool(flag: bool)
    | Int(n: int)
    | Dec(decimal: DecimalText)
    | Str(text: string)
    | Arr(items: seq<Json>)
    | Obj(members: seq<Member>)

  datatype Member = Member(key: string, value: Json)

  /** Key order, by code point. */
  predicate Less(a: string, b: string) {
    b != [] && (a == [] || a[0] < b[0] || (a[0] == b[0] && Less(a[1..], b[1..])))
  }

  function Find(members: seq<Member>, key: string): (r: Option<Json>)
    ensures r.None? <==> forall m :: m in members ==> m.key != key
    ensures r.Some? ==> Member(key, r.value) in members
  {
    if members == [] then None
    else if members[0].key == key then Some(members[0].value)
    else Find(members[1..], key)
  }

  /** Replace the member called `key`, or insert one in key order. */
  function Put(members: seq<Member>, key: string, value: Json): (r: seq<Member>)
  {
    if members == [] then [Member(key, value)]
    else if members[0].key == key then [Member(key, value)] + members[1..]
    else if Less(key, members[0].key) then [Member(key, value)] + members
    else [members[0]] + Put(members[1..], key, value)
  }

  /** `Put` is a map update. */
  lemma {:induction false} FindAfterPut(members: seq<Member>, key: string, value: Json, probe: string)
    ensures Find(Put(members, key, value), probe)
         == if probe == key then Some(value) else Find(members, probe)
  {
    if members != [] {
      var r := Put(members, key, value);
      if members[0].key == key {
        assert r[1..] == members[1..];
      } else if Less(key, members[0].key) {
        assert r[1..] == members;
      } else {
        assert r[1..] == Put(members[1..], key, value);
        FindAfterPut(members[1..], key, value, probe);
      }
    }
  }

  lemma {:induction false} PutMembers(members: seq<Member>, key: string, value: Json, m: Member)
    requires m in Put(members, key, value)
    ensures m == Member(key, value) || m in members
  {
    if members != [] && members[0].key != key && !Less(key, members[0].key) && m != members[0] {
      PutMembers(members[1..], key, value, m);
    }
  }

  /** `Value::get` with a string index: only objects have members. */
  function Get(v: Json, key: string): (r: Option<Json>)
    ensures r.Some? ==> v.Obj? && r.value < v
  {
    if v.Obj? then
      var r := Find(v.members, key);
      assert r.Some? ==> Member(key, r.value) in v.members;
      r
    else None
  }

  // ---------------------------------------------------------------------------
  // Compact printing, as `Value::to_string` does it
  // ---------------------------------------------------------------------------

  function Print(v: Json): string {
    match v
    case Null => "null"
    case Bool(flag) => if flag then "true" else "false"
    case Int(n) => Text.IntText(n)
    case Dec(text) => text
    case Str(text) => Quote(text)
    case Arr(items) => "[" + PrintItems(items) + "]"
    case Obj(members) => "{" + PrintMembers(members) + "}"
  }

  function PrintItems(items: seq<Json>): string {
    if items == [] then ""
    else Print(items[0]) + (if |items| == 1 then "" else "," + PrintItems(items[1..]))
  }

  function PrintMembers(members: seq<Member>): string {
    if members == [] then ""
    else
      Quote(members[0].key) + ":" + Print(members[0].value)
      + (if |members| == 1 then "" else "," + PrintMembers(members[1..]))
  }

  function Quote(s: string): string {
    "\"" + QuoteBody(s) + "\""
  }

  function QuoteBody(s: string): string {
    if s == [] then "" else QuoteChar(s[0]) + QuoteBody(s[1..])
  }

  function QuoteChar(c: char): string {
    if c == '\"' then "\\\""
    else if c == '\\' then "\\\\"
    else if c == '\n' then "\\n"
    else if c == '\r' then "\\r"
    else if c == '\t' then "\\t"
    else if c == 8 as char then "\\b"
    else if c == 12 as char then "\\f"
    else if c < ' ' then "\\u00" + [HexDigit(c as int / 16), HexDigit(c as int % 16)]
    else [c]
  }

  function HexDigit(d: nat): char
    requires d < 16
  {
    if d < 10 then Text.Digit(d) else ('a' as int + d - 10) as char
  }
}
