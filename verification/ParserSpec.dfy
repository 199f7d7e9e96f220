/** What the Rust parser (`Utf8`) and the Java parser (`Utf16`) compute, as functions of the
    whole input `u` and a position `i`. The two differ only inside strings. */
module ParserSpec {
  import opened Encoding
  import opened Json

  datatype Parsed<+T> = Fail | Ok(value: T, next: nat)

  function Ws(u: seq<int>, i: nat): (j: nat)
    requires i <= |u|
    ensures i <= j <= |u|
    decreases |u| - i
  {
    if i < |u| && IsWs(u[i]) then Ws(u, i + 1) else i
  }

  function Digits(u: seq<int>, i: nat): (j: nat)
    requires i <= |u|
    ensures i <= j <= |u|
    decreases |u| - i
  {
    if i < |u| && IsDigit(u[i]) then Digits(u, i + 1) else i
  }

  function IntEnd(u: seq<int>, i: nat): (r: Option<nat>)
    requires i <= |u|
    ensures r.Some? ==> i < r.value <= |u|
  {
    if i < |u| && u[i] == ZERO then Some(i + 1)
    else if i < |u| && IsDigit(u[i]) then Some(Digits(u, i))
    else None
  }

  function FracEnd(u: seq<int>, i: nat): (r: Option<nat>)
    requires i <= |u|
    ensures r.Some? ==> i <= r.value <= |u|
  {
    if i < |u| && u[i] == DOT then
      var j := Digits(u, i + 1);
      if j == i + 1 then None else Some(j)
    else Some(i)
  }

  function ExpEnd(u: seq<int>, i: nat): (r: Option<nat>)
    requires i <= |u|
    ensures r.Some? ==> i <= r.value <= |u|
  {
    if i < |u| && IsExp(u[i]) then
      var k := if i + 1 < |u| && IsSign(u[i + 1]) then i + 2 else i + 1;
      var j := Digits(u, k);
      if j == k then None else Some(j)
    else Some(i)
  }

  function NumberAt(u: seq<int>, i: nat): (r: Parsed<seq<int>>)
    requires i <= |u|
    ensures r.Ok? ==> i < r.next <= |u| && r.value == u[i..r.next]
  {
    match IntEnd(u, if i < |u| && u[i] == MINUS then i + 1 else i)
    case None => Fail
    case Some(j) =>
      match FracEnd(u, j)
      case None => Fail
      case Some(k) =>
        match ExpEnd(u, k)
        case None => Fail
        case Some(m) => Ok(u[i..m], m)
  }

  function Hex4(u: seq<int>, i: nat): (r: Option<int>)
    ensures r.Some? ==> i + 4 <= |u| && 0 <= r.value < 0x1_0000
  {
    if i + 4 <= |u| && HexValue(u[i]).Some? && HexValue(u[i + 1]).Some?
       && HexValue(u[i + 2]).Some? && HexValue(u[i + 3]).Some?
    then Some(HexValue(u[i]).value * 0x1000 + HexValue(u[i + 1]).value * 0x100
              + HexValue(u[i + 2]).value * 0x10 + HexValue(u[i + 3]).value)
    else None
  }

  lemma NumberSteps(u: seq<int>, i: nat)
    requires i <= |u|
    ensures var a := IntEnd(u, if i < |u| && u[i] == MINUS then i + 1 else i);
            var k := if a.Some? then FracEnd(u, a.value) else None;
            var m := if k.Some? then ExpEnd(u, k.value) else None;
            NumberAt(u, i) == if m.Some? then Ok(u[i..m.value], m.value) else Fail
  {
    hide IntEnd, FracEnd, ExpEnd;
  }

  /** The value of the first `k` of four hex digits, as a loop accumulates it. */
  function HexPrefix(u: seq<int>, i: nat, k: nat): Option<int> {
    if k == 0 then Some(0)
    else match HexPrefix(u, i, k - 1)
      case None => None
      case Some(v) =>
        if i + k - 1 < |u| && HexValue(u[i + k - 1]).Some? then Some(v * 16 + HexValue(u[i + k - 1]).value) else None
  }

  lemma HexPrefixFour(u: seq<int>, i: nat)
    ensures Hex4(u, i) == HexPrefix(u, i, 4)
  {
    var p1, p2, p3 := HexPrefix(u, i, 1), HexPrefix(u, i, 2), HexPrefix(u, i, 3);
    assert HexPrefix(u, i, 0) == Some(0);
    assert p1.Some? <==> i < |u| && HexValue(u[i]).Some?;
    assert p2.Some? <==> p1.Some? && i + 1 < |u| && HexValue(u[i + 1]).Some?;
    assert p3.Some? <==> p2.Some? && i + 2 < |u| && HexValue(u[i + 2]).Some?;
  }

  lemma HexPrefixNone(u: seq<int>, i: nat, k: nat)
    requires k <= 4
    ensures HexPrefix(u, i, k).None? ==> Hex4(u, i).None?
  {
    HexPrefixFour(u, i);
    if k < 4 && HexPrefix(u, i, k).None? {
      assert HexPrefix(u, i, k + 1).None?;
      if k < 3 {
        assert HexPrefix(u, i, k + 2).None?;
        if k < 2 {
          assert HexPrefix(u, i, k + 3).None?;
        }
      }
    }
  }

  /** What follows a backslash. Java keeps the unit a `\u` escape names; Rust wants surrogates
      in pairs, and makes one scalar value of a pair. */
  function Escape(f: Form, u: seq<int>, i: nat): (r: Parsed<seq<int>>)
    ensures r.Ok? ==> i < r.next <= |u|
  {
    if i >= |u| then Fail
    else if ShortEscape(u[i]).Some? then Ok([ShortEscape(u[i]).value], i + 1)
    else if u[i] != LETTER_U then Fail
    else match Hex4(u, i + 1)
      case None => Fail
      case Some(cp) =>
        if f == Utf16 || !IsSurrogate(cp) then Ok([cp], i + 5)
        else if IsHigh(cp) && i + 6 < |u| && u[i + 5] == BACKSLASH && u[i + 6] == LETTER_U then
          match Hex4(u, i + 7)
          case None => Fail
          case Some(low) => if IsLow(low) then Ok([Combine(cp, low)], i + 11) else Fail
        else Fail
  }

  /** The rest of a string after `acc`, up to and with its closing quote. */
  function StrTail(f: Form, u: seq<int>, i: nat, acc: seq<int>): (r: Parsed<seq<int>>)
    ensures r.Ok? ==> i < r.next <= |u|
    decreases |u| - i
  {
    if i >= |u| then Fail
    else if u[i] == QUOTE then Ok(acc, i + 1)
    else if u[i] == BACKSLASH then
      match Escape(f, u, i + 1)
      case Fail => Fail
      case Ok(piece, j) => StrTail(f, u, j, acc + piece)
    else if u[i] < 0x20 then Fail
    else if f == Utf16 then StrTail(f, u, i + 1, acc + [u[i]])
    else match DecodeOne(f, u, i)
      case None => Fail
      case Some((c, n)) => StrTail(f, u, i + n, acc + [c])
  }

  function StrAt(f: Form, u: seq<int>, i: nat): (r: Parsed<seq<int>>)
    ensures r.Ok? ==> i < r.next <= |u|
  {
    if i < |u| && u[i] == QUOTE then StrTail(f, u, i + 1, []) else Fail
  }

  function LiteralAt(u: seq<int>, i: nat, text: seq<int>, v: Json): (r: Parsed<Json>)
    requires |text| > 0
    ensures r.Ok? ==> i < r.next <= |u|
  {
    if i + |text| <= |u| && u[i..i + |text|] == text then Ok(v, i + |text|) else Fail
  }

  /** A value that starts at `i`. */
  function ValueAt(f: Form, u: seq<int>, i: nat): (r: Parsed<Json>)
    requires i <= |u|
    ensures r.Ok? ==> i < r.next <= |u|
    decreases |u| - i, 0
  {
    if i == |u| then Fail
    else if u[i] == LBRACE then
      var j := Ws(u, i + 1);
      if j < |u| && u[j] == RBRACE then Ok(Json.Object([]), j + 1) else MembersAt(f, u, j, [])
    else if u[i] == LBRACKET then
      var j := Ws(u, i + 1);
      if j < |u| && u[j] == RBRACKET then Ok(Json.Array([]), j + 1) else ItemsAt(f, u, j, [])
    else if u[i] == QUOTE then
      match StrAt(f, u, i)
      case Fail => Fail
      case Ok(s, j) => Ok(Json.String(s), j)
    else if u[i] == LETTER_T then LiteralAt(u, i, TRUE_TEXT, Json.Bool(true))
    else if u[i] == LETTER_F then LiteralAt(u, i, FALSE_TEXT, Json.Bool(false))
    else if u[i] == LETTER_N then LiteralAt(u, i, NULL_TEXT, Json.Null)
    else if u[i] == MINUS || IsDigit(u[i]) then
      match NumberAt(u, i)
      case Fail => Fail
      case Ok(t, j) => Ok(Json.Number(t), j)
    else Fail
  }

  /** The elements of an array from `i` on, after `acc`, and the closing bracket. */
  function ItemsAt(f: Form, u: seq<int>, i: nat, acc: seq<Json>): (r: Parsed<Json>)
    requires i <= |u|
    ensures r.Ok? ==> i < r.next <= |u|
    decreases |u| - i, 1
  {
    match ValueAt(f, u, Ws(u, i))
    case Fail => Fail
    case Ok(v, next) =>
      var j := Ws(u, next);
      if j < |u| && u[j] == COMMA then ItemsAt(f, u, j + 1, acc + [v])
      else if j < |u| && u[j] == RBRACKET then Ok(Json.Array(acc + [v]), j + 1)
      else Fail
  }

  /** One `key : value`, with the white space before its parts. */
  function MemberAt(f: Form, u: seq<int>, i: nat): (r: Parsed<Member>)
    requires i <= |u|
    ensures r.Ok? ==> i < r.next <= |u|
    decreases |u| - i, 1
  {
    match StrAt(f, u, Ws(u, i))
    case Fail => Fail
    case Ok(key, afterKey) =>
      var c := Ws(u, afterKey);
      if !(c < |u| && u[c] == COLON) then Fail
      else match ValueAt(f, u, Ws(u, c + 1))
        case Fail => Fail
        case Ok(v, next) => Ok(Member(key, v), next)
  }

  /** The members of an object from `i` on, after `acc`, and the closing brace. */
  function MembersAt(f: Form, u: seq<int>, i: nat, acc: seq<Member>): (r: Parsed<Json>)
    requires i <= |u|
    ensures r.Ok? ==> i < r.next <= |u|
    decreases |u| - i, 2
  {
    match MemberAt(f, u, i)
    case Fail => Fail
    case Ok(m, next) =>
      var j := Ws(u, next);
      if j < |u| && u[j] == COMMA then MembersAt(f, u, j + 1, acc + [m])
      else if j < |u| && u[j] == RBRACE then Ok(Json.Object(acc + [m]), j + 1)
      else Fail
  }

  lemma {:induction false} WsTwice(u: seq<int>, i: nat)
    requires i <= |u|
    ensures Ws(u, Ws(u, i)) == Ws(u, i)
    ensures Ws(u, i) < |u| ==> !IsWs(u[Ws(u, i)])
    decreases |u| - i
  {
    if i < |u| && IsWs(u[i]) {
      WsTwice(u, i + 1);
    }
  }

  /** How a value that opens a list goes on. */
  lemma ValueOpens(f: Form, u: seq<int>, i: nat)
    requires i < |u|
    ensures var j := Ws(u, i + 1);
            && (u[i] == LBRACKET ==>
                  ValueAt(f, u, i) ==
                    if j < |u| && u[j] == RBRACKET then Ok(Json.Array([]), j + 1) else ItemsAt(f, u, j, []))
            && (u[i] == LBRACE ==>
                  ValueAt(f, u, i) ==
                    if j < |u| && u[j] == RBRACE then Ok(Json.Object([]), j + 1) else MembersAt(f, u, j, []))
  {
    hide Ws, ItemsAt, MembersAt;
  }

  lemma ItemsSameStart(f: Form, u: seq<int>, i: nat, j: nat, acc: seq<Json>)
    requires i <= |u| && j <= |u| && Ws(u, i) == Ws(u, j)
    ensures ItemsAt(f, u, i, acc) == ItemsAt(f, u, j, acc)
  {
    hide ValueAt, Ws;
  }

  lemma MembersSameStart(f: Form, u: seq<int>, i: nat, j: nat, acc: seq<Member>)
    requires i <= |u| && j <= |u| && Ws(u, i) == Ws(u, j)
    ensures MembersAt(f, u, i, acc) == MembersAt(f, u, j, acc)
  {
    hide ValueAt, StrAt, Ws;
  }

  /** What an element loop that succeeds found in its first round. */
  lemma ItemsParts(f: Form, u: seq<int>, i: nat, acc: seq<Json>)
    requires i <= |u| && ItemsAt(f, u, i, acc).Ok?
    ensures var v := ValueAt(f, u, Ws(u, i));
            && v.Ok?
            && var x := Ws(u, v.next);
               && x < |u|
               && (|| (u[x] == RBRACKET && ItemsAt(f, u, i, acc) == Ok(Json.Array(acc + [v.value]), x + 1))
                   || (u[x] == COMMA && ItemsAt(f, u, i, acc) == ItemsAt(f, u, x + 1, acc + [v.value])))
  {
    hide ValueAt, Ws;
  }

  /** What a member that is read consists of. */
  lemma MemberParts(f: Form, u: seq<int>, i: nat)
    requires i <= |u| && MemberAt(f, u, i).Ok?
    ensures var key := StrAt(f, u, Ws(u, i));
            && key.Ok?
            && var c := Ws(u, key.next);
               && c < |u| && u[c] == COLON
               && var v := ValueAt(f, u, Ws(u, c + 1));
                  v.Ok? && MemberAt(f, u, i) == Ok(Member(key.value, v.value), v.next)
  {
    hide StrAt, ValueAt, Ws;
  }

  /** What a member loop that succeeds found in its first round. */
  lemma MembersParts(f: Form, u: seq<int>, i: nat, acc: seq<Member>)
    requires i <= |u| && MembersAt(f, u, i, acc).Ok?
    ensures var m := MemberAt(f, u, i);
            && m.Ok?
            && var x := Ws(u, m.next);
               && x < |u|
               && (|| (u[x] == RBRACE && MembersAt(f, u, i, acc) == Ok(Json.Object(acc + [m.value]), x + 1))
                   || (u[x] == COMMA && MembersAt(f, u, i, acc) == MembersAt(f, u, x + 1, acc + [m.value])))
  {
    hide MemberAt, Ws;
  }

  /** One value with white space around it and nothing else. */
  function Document(f: Form, u: seq<int>): Option<Json> {
    match ValueAt(f, u, Ws(u, 0))
    case Fail => None
    case Ok(v, next) => if Ws(u, next) == |u| then Some(v) else None
  }

  /** `parse` of rust/src/codec/json.rs. */
  function ParseRust(input: seq<int>): Option<Json> {
    if WellFormed(Utf8, input) then Document(Utf8, input) else None
  }

  /** `JsonParser.parse`. */
  function ParseJava(input: seq<int>): Option<Json> {
    Document(Utf16, input)
  }
}
