/** JSON trees, and the lexical classes both parsers share (RFC 8259 sections 2, 6 and 7). */
module Json {
  import opened Encoding

  /** A parsed value. Numbers keep their source token; an object keeps its members in order,
      repeated keys included. A string holds scalar values in Rust and 16-bit units in Java:
      see `OfForm`. */
  datatype Json =
    | Null
    | Bool(b: bool)
    | Number(token: seq<int>)
    | String(s: seq<int>)
    | Array(items: seq<Json>)
    | Object(members: seq<Member>)
  {
    /** The value of the first member with this key. */
    function Get(key: seq<int>): Option<Json> {
      if Object? then Lookup(members, key) else None
    }
  }

  datatype Member = Member(key: seq<int>, value: Json)

  function Lookup(members: seq<Member>, key: seq<int>): Option<Json> {
    if members == [] then None
    else if members[0].key == key then Some(members[0].value)
    else Lookup(members[1..], key)
  }

  /** `Get` answers with the first of several members that share a key. */
  lemma {:induction false} LookupIsFirst(members: seq<Member>, key: seq<int>)
    ensures Lookup(members, key) == None <==> forall k :: 0 <= k < |members| ==> members[k].key != key
    ensures forall k :: 0 <= k < |members| && members[k].key == key
                        && (forall j :: 0 <= j < k ==> members[j].key != key)
              ==> Lookup(members, key) == Some(members[k].value)
  {
    if members != [] && members[0].key != key {
      LookupIsFirst(members[1..], key);
    }
  }

  /** One element of a string: a scalar value in Rust, a 16-bit unit in Java. */
  predicate IsChar(f: Form, c: int) {
    match f
    case Utf16 => 0 <= c < 0x1_0000
    case _ => IsScalar(c)
  }

  predicate IsText(f: Form, s: seq<int>) { forall k :: 0 <= k < |s| ==> IsChar(f, s[k]) }

  /** The strings of the tree are strings of the language. */
  ghost predicate OfForm(f: Form, v: Json)
    decreases v
  {
    match v
    case String(s) => IsText(f, s)
    case Array(items) => forall k :: 0 <= k < |items| ==> OfForm(f, items[k])
    case Object(members) =>
      forall k :: 0 <= k < |members| ==> IsText(f, members[k].key) && OfForm(f, members[k].value)
    case _ => true
  }

  /** ASCII text written out. */
  function Ascii(s: string): (u: seq<int>)
    ensures |u| == |s| && forall k :: 0 <= k < |s| ==> u[k] == s[k] as int
  {
    seq(|s|, k requires 0 <= k < |s| => s[k] as int)
  }

  const QUOTE: int := 0x22
  const BACKSLASH: int := 0x5C
  const LBRACE: int := 0x7B
  const RBRACE: int := 0x7D
  const LBRACKET: int := 0x5B
  const RBRACKET: int := 0x5D
  const COMMA: int := 0x2C
  const COLON: int := 0x3A
  const MINUS: int := 0x2D
  const PLUS: int := 0x2B
  const DOT: int := 0x2E
  const ZERO: int := 0x30
  const LETTER_E: int := 0x65
  const CAPITAL_E: int := 0x45
  const LETTER_F: int := 0x66
  const LETTER_N: int := 0x6E
  const LETTER_T: int := 0x74
  const LETTER_U: int := 0x75
  const LF: int := 0x0A

  const TRUE_TEXT: seq<int> := [0x74, 0x72, 0x75, 0x65]
  const FALSE_TEXT: seq<int> := [0x66, 0x61, 0x6C, 0x73, 0x65]
  const NULL_TEXT: seq<int> := [0x6E, 0x75, 0x6C, 0x6C]

  predicate IsWs(c: int) { c == 0x20 || c == 0x09 || c == 0x0A || c == 0x0D }
  predicate IsDigit(c: int) { 0x30 <= c <= 0x39 }
  predicate IsExp(c: int) { c == 0x65 || c == 0x45 }
  predicate IsSign(c: int) { c == 0x2B || c == 0x2D }

  function HexValue(c: int): (r: Option<int>)
    ensures r.Some? ==> 0 <= r.value < 16
  {
    if IsDigit(c) then Some(c - 0x30)
    else if 0x61 <= c <= 0x66 then Some(c - 0x61 + 10)
    else if 0x41 <= c <= 0x46 then Some(c - 0x41 + 10)
    else None
  }

  /** The character a two-character escape stands for. */
  function ShortEscape(e: int): Option<int> {
    if e == 0x22 || e == 0x5C || e == 0x2F then Some(e)
    else if e == 0x62 then Some(0x08)
    else if e == 0x66 then Some(0x0C)
    else if e == 0x6E then Some(0x0A)
    else if e == 0x72 then Some(0x0D)
    else if e == 0x74 then Some(0x09)
    else None
  }
}
