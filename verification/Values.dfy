/** SQL values on the wire: rust/src/codec/encode.rs and decode.rs.

    `f64` is a type parameter `F`. What the standard library does with it is a parameter too,
    and `Faithful` is what is assumed of it. */
module Values {
  import opened Encoding
  import opened Json
  import opened Grammar
  import opened ParserSpec
  import opened JsonWriter
  import Base64

  type I64 = x: int | -0x8000_0000_0000_0000 <= x <= 0x7FFF_FFFF_FFFF_FFFF

  datatype Value<+F> =
    | NullValue
    | Integer(i: I64)
    | Real(f: F)
    | Text(s: seq<Scalar>)
    | Blob(bytes: seq<Byte>)

  /** `is_finite`, `{:?}` and `f64::from_str`. */
  datatype FloatStd<!F(!new)> = FloatStd(finite: F -> bool, debug: F -> seq<int>, fromStr: seq<int> -> Option<F>)
  {
    /** A finite float prints as a JSON number that parses back to it, with or without ".0" added. */
    ghost predicate Faithful() {
      && (forall f :: finite(f) ==> IsNumber(debug(f)) && fromStr(debug(f)) == Some(f))
      && (forall f :: finite(f) && !IsReal(debug(f)) ==> fromStr(debug(f) + [DOT, ZERO]) == Some(f))
    }
  }

  /** `NumberToken::is_real`. */
  predicate IsReal(token: seq<int>) { exists k :: 0 <= k < |token| && (token[k] == DOT || IsExp(token[k])) }

  /** `real_token`: the guard at the end makes the token bind as REAL whatever `{:?}` prints. */
  function RealToken(s: seq<int>): (t: seq<int>)
    ensures IsReal(t)
  {
    if IsReal(s) then s
    else
      var t := s + [DOT, ZERO];
      assert t[|s|] == DOT;
      t
  }

  //
  // Decimal integers
  //

  function Decimal(n: nat): seq<int> {
    if n < 10 then [ZERO + n] else Decimal(n / 10) + [ZERO + n % 10]
  }

  /** `i.to_string()`. */
  function PrintInt(i: int): seq<int> { if i < 0 then [MINUS] + Decimal(-i) else Decimal(i) }

  function DecimalValue(d: seq<int>): int {
    if d == [] then 0 else DecimalValue(d[..|d| - 1]) * 10 + (d[|d| - 1] - ZERO)
  }

  /** `parse::<i64>()`: an optional sign, digits, and a result in range. */
  function ParseI64(t: seq<int>): Option<I64> {
    var signed := |t| > 0 && IsSign(t[0]);
    var d := if signed then t[1..] else t;
    if d == [] || !AllDigits(d) then None
    else
      var v := if signed && t[0] == MINUS then -DecimalValue(d) else DecimalValue(d);
      if -0x8000_0000_0000_0000 <= v <= 0x7FFF_FFFF_FFFF_FFFF then Some(v) else None
  }

  lemma {:induction false} DecimalOk(n: nat)
    ensures |Decimal(n)| > 0 && AllDigits(Decimal(n)) && DecimalValue(Decimal(n)) == n
    ensures Decimal(n)[0] == ZERO ==> n == 0 && |Decimal(n)| == 1
  {
    if n < 10 {
      assert DecimalValue([]) == 0 && [ZERO + n][..0] == [];
    } else {
      DecimalOk(n / 10);
      var d := Decimal(n);
      assert d[..|d| - 1] == Decimal(n / 10) && d[0] == Decimal(n / 10)[0];
    }
  }

  /** The tokens with a fraction or an exponent are the REAL ones. */
  lemma RealIff(n: NumParts)
    requires NumOk(n)
    ensures IsReal(NumText(n)) <==> n.frac.Some? || n.exp.Some?
  {
    var m := if n.minus then [MINUS] else [];
    var t := NumText(n);
    var k := |m| + |n.int_|;
    assert t == m + n.int_ + (FracText(n.frac) + ExpText(n.exp));
    if n.frac.Some? {
      assert t[k] == DOT;
    } else if n.exp.Some? {
      assert t[k] == n.exp.value.e;
    } else {
      assert forall j :: 0 <= j < k ==> t[j] == MINUS || IsDigit(t[j]);
    }
  }

  /** A token of nothing but an integer part. */
  lemma IntToken(minus: bool, d: seq<int>)
    requires |d| > 0 && AllDigits(d) && (d[0] == ZERO ==> |d| == 1)
    ensures var t := (if minus then [MINUS] else []) + d; IsNumber(t) && !IsReal(t)
  {
    var n := NumParts(minus, d, None, None);
    RealIff(n);
    assert NumText(n) == (if minus then [MINUS] else []) + d;
  }

  /** Printing and parsing an integer are inverse, and the token is an INTEGER token. */
  lemma IntRoundTrip(i: I64)
    ensures ParseI64(PrintInt(i)) == Some(i)
    ensures IsNumber(PrintInt(i)) && !IsReal(PrintInt(i))
  {
    hide Decimal, DecimalValue, IsNumber, IsReal;
    var x: int := i;
    var m: nat := if x < 0 then -x else x;
    var d := Decimal(m);
    DecimalOk(m);
    IntToken(i < 0, d);
    if i < 0 {
      assert ([MINUS] + d)[1..] == d;
    } else {
      assert [] + d == d && IsDigit(d[0]);
    }
  }

  lemma RealTokenNumber(s: seq<int>)
    requires IsNumber(s)
    ensures IsNumber(RealToken(s))
  {
    if !IsReal(s) {
      var n :| NumOk(n) && NumText(n) == s;
      RealIff(n);
      PointZero(n);
    }
  }

  /** An integer token with ".0" after it. */
  lemma PointZero(n: NumParts)
    requires NumOk(n) && n.frac.None? && n.exp.None?
    ensures var r := n.(frac := Some([ZERO])); NumOk(r) && NumText(r) == NumText(n) + [DOT, ZERO]
  {
    var m := if n.minus then [MINUS] else [];
    assert m + (n.int_ + ([DOT, ZERO] + [])) == m + (n.int_ + ([] + [])) + [DOT, ZERO];
  }

  //
  // Values
  //

  /** `encode_value`: fails on a REAL that is not finite. */
  function EncodeValue<F(!new)>(std: FloatStd<F>, v: Value<F>): Option<Json> {
    match v
    case NullValue => Some(Null)
    case Integer(i) => Some(Number(PrintInt(i)))
    case Real(f) => if std.finite(f) then Some(Number(RealToken(std.debug(f)))) else None
    case Text(s) => Some(String(s))
    case Blob(b) => Some(Array([String(Base64.Encode(b))]))
  }

  /** `decode_value`. */
  function DecodeValue<F(!new)>(std: FloatStd<F>, raw: Json): Option<Value<F>>
    requires OfForm(Utf8, raw)
  {
    match raw
    case Null => Some(NullValue)
    case Bool(_) => None
    case Number(t) =>
      if IsReal(t) then
        match std.fromStr(t)
        case None => None
        case Some(f) => Some(Real(f))
      else
        (match ParseI64(t)
         case None => None
         case Some(i) => Some(Integer(i)))
    case String(s) => Some(Text(s))
    case Array(items) =>
      if |items| != 1 || !items[0].String? then None
      else
        assert OfForm(Utf8, items[0]);
        (match Base64.Decode(Bytes(items[0].s))
         case None => None
         case Some(b) => Some(Blob(b)))
    case Object(_) => None
  }

  lemma BlobText(b: seq<Byte>)
    ensures IsText(Utf8, Base64.Encode(b)) && EncAll(Utf8, Base64.Encode(b)) == Base64.Encode(b)
  {
    hide Base64.Encode;
    Base64.EncodeAscii(b);
    var e: seq<Byte> := Base64.Encode(b);
    assert forall k :: 0 <= k < |e| ==> e[k] in e;
    EncAscii(Utf8, e);
  }

  /** What is encoded can be written, and decodes to the same value: INTEGER stays INTEGER and REAL
      stays REAL. */
  lemma ValueRoundTrip<F(!new)>(std: FloatStd<F>, v: Value<F>)
    requires std.Faithful() && EncodeValue(std, v).Some?
    ensures var j := EncodeValue(std, v).value;
            Writable(Utf8, j) && DecodeValue(std, j) == Some(v)
  {
    match v
    case Integer(i) => IntRoundTrip(i);
    case Real(f) => RealTokenNumber(std.debug(f));
    case Blob(b) =>
      BlobText(b);
      Base64.DecodeEncode(b);
    case _ =>
  }

  /** The same through the writer, the bytes on the wire and the parser. */
  lemma WireRoundTrip<F(!new)>(std: FloatStd<F>, v: Value<F>)
    requires std.Faithful()
    ensures EncodeValue(std, v).Some? <==> (v.Real? ==> std.finite(v.f))
    ensures EncodeValue(std, v).Some? ==>
              var parsed := ParseRust(EncAll(Utf8, Write(EncodeValue(std, v).value)));
              && parsed.Some? && OfForm(Utf8, parsed.value)
              && DecodeValue(std, parsed.value) == Some(v)
  {
    if EncodeValue(std, v).Some? {
      ValueRoundTrip(std, v);
      RustRoundTrip(EncodeValue(std, v).value);
    }
  }

  /** The class of a number token decides the class of the value, both ways. */
  lemma ClassKept<F(!new)>(std: FloatStd<F>, v: Value<F>)
    requires EncodeValue(std, v).Some?
    ensures v.Integer? <==> EncodeValue(std, v).value.Number? && !IsReal(EncodeValue(std, v).value.token)
    ensures v.Real? <==> EncodeValue(std, v).value.Number? && IsReal(EncodeValue(std, v).value.token)
  {
    if v.Integer? {
      IntRoundTrip(v.i);
    }
  }

  //
  // Lists of values
  //

  /** A list of results, or where the first failure is. */
  datatype Listed<+T> = All(items: seq<T>) | BadAt(index: nat)

  ghost predicate EncodesTo<F(!new)>(std: FloatStd<F>, vs: seq<Value<F>>, js: seq<Json>) {
    |js| == |vs| && forall k :: 0 <= k < |vs| ==> EncodeValue(std, vs[k]) == Some(js[k])
  }

  /** `encode_params`: no field for no params, else an array of them, or the index of the first
      param that cannot be encoded. */
  method EncodeParams<F(!new)>(std: FloatStd<F>, params: seq<Value<F>>) returns (r: Listed<Json>, field: Option<Json>)
    ensures match r
            case All(items) =>
              EncodesTo(std, params, items) && field == if params == [] then None else Some(Array(items))
            case BadAt(i) =>
              && i < |params| && EncodeValue(std, params[i]) == None && field == None
              && forall k :: 0 <= k < i ==> EncodeValue(std, params[k]).Some?
  {
    var items: seq<Json> := [];
    for i := 0 to |params|
      invariant |items| == i && forall k :: 0 <= k < i ==> EncodeValue(std, params[k]) == Some(items[k])
    {
      var encoded := EncodeValue(std, params[i]);
      if encoded.None? {
        return BadAt(i), None;
      }
      items := items + [encoded.value];
    }
    r := All(items);
    field := if params == [] then None else Some(Array(items));
  }

  ghost predicate DecodesRow<F(!new)>(std: FloatStd<F>, raw: Json, row: seq<Value<F>>)
    requires OfForm(Utf8, raw)
  {
    && raw.Array? && |row| == |raw.items|
    && forall k :: 0 <= k < |row| ==> OfForm(Utf8, raw.items[k]) && DecodeValue(std, raw.items[k]) == Some(row[k])
  }

  /** One row of `decode_rows`. */
  method DecodeRow<F(!new)>(std: FloatStd<F>, raw: Json) returns (row: Option<seq<Value<F>>>)
    requires OfForm(Utf8, raw)
    ensures match row
            case Some(vs) => DecodesRow(std, raw, vs)
            case None => forall vs :: !DecodesRow(std, raw, vs)
  {
    if !raw.Array? {
      return None;
    }
    var decoded: seq<Value<F>> := [];
    for k := 0 to |raw.items|
      invariant |decoded| == k
      invariant forall j :: 0 <= j < k ==>
                  OfForm(Utf8, raw.items[j]) && DecodeValue(std, raw.items[j]) == Some(decoded[j])
    {
      assert OfForm(Utf8, raw.items[k]);
      var v := DecodeValue(std, raw.items[k]);
      if v.None? {
        return None;
      }
      decoded := decoded + [v.value];
    }
    row := Some(decoded);
  }

  /** `decode_rows`: all the rows, or the first one that is bad. */
  method DecodeRows<F(!new)>(std: FloatStd<F>, raw: Json) returns (r: Option<Listed<seq<Value<F>>>>)
    requires OfForm(Utf8, raw)
    ensures r.None? <==> !raw.Array?
    ensures raw.Array? ==>
              match r.value
              case All(rows) =>
                && |rows| == |raw.items|
                && forall k :: 0 <= k < |rows| ==>
                     OfForm(Utf8, raw.items[k]) && DecodesRow(std, raw.items[k], rows[k])
              case BadAt(i) =>
                && i < |raw.items| && OfForm(Utf8, raw.items[i])
                && (forall row :: !DecodesRow(std, raw.items[i], row))
                && forall k :: 0 <= k < i ==>
                     OfForm(Utf8, raw.items[k]) && exists row :: DecodesRow(std, raw.items[k], row)
  {
    if !raw.Array? {
      return None;
    }
    var rows: seq<seq<Value<F>>> := [];
    for i := 0 to |raw.items|
      invariant |rows| == i
      invariant forall k :: 0 <= k < i ==>
                  OfForm(Utf8, raw.items[k]) && DecodesRow(std, raw.items[k], rows[k])
    {
      assert OfForm(Utf8, raw.items[i]);
      var row := DecodeRow(std, raw.items[i]);
      if row.None? {
        return Some(BadAt(i));
      }
      rows := rows + [row.value];
    }
    r := Some(All(rows));
  }

  /** A list that was encoded, sent and parsed decodes, as a row, to exactly the list. */
  lemma RowRoundTrip<F(!new)>(std: FloatStd<F>, vs: seq<Value<F>>, js: seq<Json>)
    requires std.Faithful() && EncodesTo(std, vs, js)
    ensures Writable(Utf8, Array(js))
    ensures var parsed := ParseRust(EncAll(Utf8, Write(Array(js))));
            && parsed.Some? && OfForm(Utf8, parsed.value) && DecodesRow(std, parsed.value, vs)
            && forall row :: DecodesRow(std, parsed.value, row) ==> row == vs
  {
    forall k | 0 <= k < |vs| ensures Writable(Utf8, js[k]) && DecodeValue(std, js[k]) == Some(vs[k]) {
      ValueRoundTrip(std, vs[k]);
    }
    RustRoundTrip(Array(js));
  }

  //
  // Responses
  //

  const OK_KEY := Ascii("ok")
  const ERROR_KEY := Ascii("error")
  const CODE_KEY := Ascii("code")
  const MESSAGE_KEY := Ascii("message")

  /** `decode_response_line`: whether it is ok, and all its fields; none for what is not an object. */
  function DecodeResponse(line: seq<int>): Option<(bool, Json)> {
    match ParseRust(line)
    case None => None
    case Some(v) =>
      if !v.Object? then None else Some((v.Get(OK_KEY) == Some(Bool(true)), v))
  }

  /** `response_error`. */
  function ResponseError(fields: Json): Option<(seq<int>, seq<int>)> {
    match fields.Get(ERROR_KEY)
    case None => None
    case Some(e) =>
      match (e.Get(CODE_KEY), e.Get(MESSAGE_KEY))
      case (Some(String(code)), Some(String(message))) => Some((code, message))
      case _ => None
  }

  /** How `Session::call` reads a response line. */
  datatype Answer = Fields(fields: Json) | Refused(code: seq<int>, message: seq<int>) | Malformed

  function ReadAnswer(line: seq<int>): Answer {
    match DecodeResponse(line)
    case None => Malformed
    case Some((ok, fields)) =>
      if ok then Fields(fields)
      else match ResponseError(fields)
        case Some((code, message)) => Refused(code, message)
        case None => Malformed
  }

  /** The object carries an error with this code and message. */
  ghost predicate CarriesError(members: seq<Member>, code: seq<int>, message: seq<int>) {
    match Lookup(members, Ascii("error"))
    case Some(Object(inner)) =>
      Lookup(inner, Ascii("code")) == Some(String(code)) && Lookup(inner, Ascii("message")) == Some(String(message))
    case _ => false
  }

  /** What a session makes of any line: only an object is an answer, `ok` as its fields, an error as
      its code and message, and nothing else as anything. The first of repeated keys counts. */
  lemma AnswerOfLine(line: seq<int>)
    ensures var answer := ReadAnswer(line);
            match ParseRust(line)
            case Some(Object(members)) =>
              var ok := Lookup(members, Ascii("ok")) == Some(Bool(true));
              && (ok <==> answer == Fields(Object(members)))
              && (forall code, message :: answer == Refused(code, message) <==> !ok && CarriesError(members, code, message))
              && (answer == Malformed <==> !ok && forall code, message :: !CarriesError(members, code, message))
            case _ => answer == Malformed
  {
    hide ParseRust, Lookup;
    var answer := ReadAnswer(line);
    if ParseRust(line).Some? && ParseRust(line).value.Object? && answer.Refused? {
      assert CarriesError(ParseRust(line).value.members, answer.code, answer.message);
    }
  }

  /** So for the object that a server writes as one line. */
  lemma AnswerOfWritten(members: seq<Member>)
    requires Writable(Utf8, Object(members))
    ensures var answer := ReadAnswer(EncAll(Utf8, Write(Object(members))));
            var ok := Lookup(members, Ascii("ok")) == Some(Bool(true));
            && (ok <==> answer == Fields(Object(members)))
            && (forall code, message :: answer == Refused(code, message) <==> !ok && CarriesError(members, code, message))
            && (answer == Malformed <==> !ok && forall code, message :: !CarriesError(members, code, message))
  {
    hide ParseRust, ReadAnswer, Lookup, CarriesError, Write;
    RustRoundTrip(Object(members));
    AnswerOfLine(EncAll(Utf8, Write(Object(members))));
  }

  //
  // Values written out
  //

  /** Decimal digits, the last one last, and a minus sign first. */
  lemma PrintedInt(n: nat, k: nat)
    requires k < 10
    ensures PrintInt(k) == [Ascii("0123456789")[k]]
    ensures n > 0 ==> PrintInt(10 * n + k) == PrintInt(n) + PrintInt(k) && PrintInt(0 - n) == Ascii("-") + PrintInt(n)
  {
    assert Ascii("0123456789")[k] == 0x30 + k && Ascii("-") == [0x2D];
    assert (10 * n + k) / 10 == n && (10 * n + k) % 10 == k;
  }

  lemma RealText(t: seq<int>)
    ensures IsReal(t) <==> exists k :: 0 <= k < |t| && t[k] in Ascii(".eE")
    ensures RealToken(t) == if IsReal(t) then t else t + Ascii(".0")
  {
    assert Ascii(".eE") == [0x2E, 0x65, 0x45] && Ascii(".0") == [0x2E, 0x30];
    assert forall k :: 0 <= k < |t| ==> (t[k] in Ascii(".eE") <==> t[k] == DOT || IsExp(t[k]));
  }

  /** No digits but these print their value. */
  lemma {:induction false} DecimalInverse(d: seq<int>)
    requires |d| > 0 && AllDigits(d) && (d[0] == ZERO ==> |d| == 1)
    ensures DecimalValue(d) >= 0 && Decimal(DecimalValue(d)) == d && (DecimalValue(d) == 0 ==> d == [ZERO])
    decreases |d|
  {
    var front, last := d[..|d| - 1], d[|d| - 1];
    assert IsDigit(last);
    if |d| == 1 {
      assert front == [] && d == [last];
    } else {
      assert front[0] == d[0];
      DecimalInverse(front);
      assert d == front + [last];
    }
  }

  /** An INTEGER token is a printed integer, or "-0"; it is read as that integer if it is within 64
      bits, and not at all otherwise. */
  lemma IntegerTokens(t: seq<int>) returns (i: int)
    requires IsNumber(t) && !IsReal(t)
    ensures t == PrintInt(i) || (i == 0 && t == Ascii("-0"))
    ensures ParseI64(t) == if -9223372036854775808 <= i <= 9223372036854775807 then Some(i) else None
  {
    hide Decimal, DecimalValue, IsReal, IsNumber;
    var n := Parts(t);
    var d := n.int_;
    DecimalInverse(d);
    assert Ascii("-0") == [MINUS, ZERO];
    if n.minus {
      i := -DecimalValue(d);
      assert t[1..] == d && t == [MINUS] + d;
    } else {
      i := DecimalValue(d);
      assert t == d && IsDigit(t[0]);
    }
  }

  lemma Parts(t: seq<int>) returns (n: NumParts)
    requires IsNumber(t) && !IsReal(t)
    ensures NumOk(n) && t == (if n.minus then [MINUS] else []) + n.int_
  {
    n :| NumOk(n) && NumText(n) == t;
    RealIff(n);
    assert n.int_ + ([] + []) == n.int_;
  }

  /** What every value is on the wire. */
  lemma WrittenValues<F(!new)>(std: FloatStd<F>, v: Value<F>)
    requires EncodeValue(std, v).Some?
    ensures var text := Write(EncodeValue(std, v).value);
            match v
            case NullValue => text == Ascii("null")
            case Integer(i) => text == PrintInt(i)
            case Real(f) => std.finite(f) && text == RealToken(std.debug(f))
            case Text(s) => text == WriteString(s)
            case Blob(b) => text == Ascii("[") + WriteString(Base64.Encode(b)) + Ascii("]")
  {
    hide WriteString, PrintInt, RealToken, Base64.Encode;
    if v.Blob? {
      var item := String(Base64.Encode(v.bytes));
      assert [item][1..] == [] && WriteItems([item]) == Write(item) + [];
    }
  }

  /** And what a value can be decoded from: nothing but null, a number, a text, or an array of one
      text in Base64. */
  lemma DecodedValues<F(!new)>(std: FloatStd<F>, raw: Json)
    requires OfForm(Utf8, raw)
    ensures var v := DecodeValue(std, raw);
            match raw
            case Null => v == Some(NullValue)
            case Number(t) =>
              if exists k :: 0 <= k < |t| && t[k] in Ascii(".eE")
              then (std.fromStr(t).None? ==> v == None) && (std.fromStr(t).Some? ==> v == Some(Real(std.fromStr(t).value)))
              else (ParseI64(t).None? ==> v == None) && (ParseI64(t).Some? ==> v == Some(Integer(ParseI64(t).value)))
            case String(s) => v == Some(Text(s))
            case Array(items) =>
              && (v.Some? <==> |items| == 1 && items[0].String? && Base64.StrictText(BytesOf(items[0])))
              && (v.Some? ==> v == Some(Blob(Base64.Decode(BytesOf(items[0])).value)))
            case _ => v == None
  {
    hide ParseI64, Base64.Decode, Base64.StrictText;
    match raw
    case Number(t) => RealText(t);
    case Array(items) =>
      if |items| == 1 && items[0].String? {
        assert OfForm(Utf8, items[0]);
        assert BytesOf(items[0]) == Bytes(items[0].s);
        Base64.DecodesIffText(Bytes(items[0].s));
      }
    case _ =>
  }

  /** The UTF-8 bytes of a text. */
  ghost function BytesOf(v: Json): seq<Byte> {
    if v.String? && IsText(Utf8, v.s) then Bytes(v.s) else []
  }
}
