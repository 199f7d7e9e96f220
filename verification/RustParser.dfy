/** `Parser` of rust/src/codec/json.rs: a cursor over validated UTF-8 bytes.

    Every method is proved against `ParserSpec`. `Boundary` is what makes the string slices, the
    `expect` and the `char::from_u32` calls of the source unable to panic. */
module RustParser {
  import opened Encoding
  import opened Json
  import opened ParserSpec
  import opened ParserSound

  class Parser {
    const b: seq<Byte>
    var pos: nat

    constructor (s: seq<Byte>)
      ensures b == s && pos == 0
    {
      b := s;
      pos := 0;
    }

    predicate Valid() reads this { pos <= |b| }

    /** `pos` is on a character boundary of well-formed text. */
    ghost predicate Boundary() reads this { pos <= |b| && ValidFrom(Utf8, b, pos) }

    function PeekByte(): Option<Byte>
      requires Valid()
      reads this
    {
      if pos < |b| then Some(b[pos]) else None
    }

    method BumpByte() returns (r: Option<Byte>)
      requires Valid()
      modifies this`pos
      ensures Valid() && r == old(PeekByte()) && pos == old(pos) + if r.Some? then 1 else 0
    {
      r := PeekByte();
      if r.Some? {
        pos := pos + 1;
      }
    }

    method ExpectByte(want: Byte) returns (ok: bool)
      requires Valid()
      modifies this`pos
      ensures Valid() && ok == (old(PeekByte()) == Some(want))
      ensures ok ==> pos == old(pos) + 1
    {
      var r := BumpByte();
      ok := r == Some(want);
    }

    method SkipWs()
      requires Boundary()
      modifies this`pos
      ensures Boundary() && pos == Ws(b, old(pos))
    {
      while pos < |b| && IsWs(b[pos])
        invariant Boundary() && Ws(b, pos) == Ws(b, old(pos))
        decreases |b| - pos
      {
        AsciiRun(Chars, Utf8, b, pos, pos + 1);
        pos := pos + 1;
      }
    }

    method SkipDigits()
      requires Valid()
      modifies this`pos
      ensures Valid() && pos == Digits(b, old(pos))
    {
      while pos < |b| && IsDigit(b[pos])
        invariant Valid() && Digits(b, pos) == Digits(b, old(pos))
        decreases |b| - pos
      {
        pos := pos + 1;
      }
    }

    method ParseLiteral(lit: seq<Byte>, val: Json) returns (r: Result<Json>)
      requires Boundary() && |lit| > 0 && forall c :: c in lit ==> c < 0x80
      modifies this`pos
      ensures Valid()
      ensures var s := LiteralAt(b, old(pos), lit, val);
              match r
              case Success(v) => s == Ok(v, pos) && Boundary()
              case Failure => s.Fail?
    {
      if pos + |lit| <= |b| && b[pos..pos + |lit|] == lit {
        LiteralSound(Chars, Utf8, b, pos, lit);
        pos := pos + |lit|;
        r := Success(val);
      } else {
        r := Failure;
      }
    }

    /** The three parts of `parse_number`, in order. */
    method ScanInteger() returns (ok: bool)
      requires Valid()
      modifies this`pos
      ensures Valid()
      ensures IntEnd(b, old(pos)) == if ok then Some(pos) else None
    {
      var c := PeekByte();
      if c == Some(ZERO) {
        pos := pos + 1;
      } else if c.Some? && 0x31 <= c.value <= 0x39 {
        SkipDigits();
      } else {
        return false;
      }
      ok := true;
    }

    method ScanFraction() returns (ok: bool)
      requires Valid()
      modifies this`pos
      ensures Valid()
      ensures FracEnd(b, old(pos)) == if ok then Some(pos) else None
    {
      if PeekByte() == Some(DOT) {
        pos := pos + 1;
        var fracStart := pos;
        SkipDigits();
        if pos == fracStart {
          return false;
        }
      }
      ok := true;
    }

    method ScanExponent() returns (ok: bool)
      requires Valid()
      modifies this`pos
      ensures Valid()
      ensures ExpEnd(b, old(pos)) == if ok then Some(pos) else None
    {
      var c := PeekByte();
      if c.Some? && IsExp(c.value) {
        pos := pos + 1;
        c := PeekByte();
        if c.Some? && IsSign(c.value) {
          pos := pos + 1;
        }
        var expStart := pos;
        SkipDigits();
        if pos == expStart {
          return false;
        }
      }
      ok := true;
    }

    method ParseNumber() returns (r: Result<seq<int>>)
      requires Boundary()
      modifies this`pos
      ensures Valid()
      ensures var s := NumberAt(b, old(pos));
              match r
              case Success(t) => s == Ok(t, pos) && Boundary()
              case Failure => s.Fail?
    {
      hide ValidFrom, NumberAt, IntEnd, FracEnd, ExpEnd;
      NumberSteps(b, pos);
      var start := pos;
      if PeekByte() == Some(MINUS) {
        pos := pos + 1;
      }
      var ok := ScanInteger();
      if ok {
        ok := ScanFraction();
      }
      if ok {
        ok := ScanExponent();
      }
      if !ok {
        return Failure;
      }
      NumberRun(b, start);
      r := Success(b[start..pos]);
    }

    /** Four digits, accumulated in a `u16` that cannot overflow. */
    method ParseHex4() returns (r: Result<Unit16>)
      requires Valid()
      modifies this`pos
      ensures Valid()
      ensures match r
              case Success(v) => Hex4(b, old(pos)) == Some(v as int) && pos == old(pos) + 4
              case Failure => Hex4(b, old(pos)).None?
    {
      hide HexValue, Hex4;
      var v: Unit16 := 0;
      for k := 0 to 4
        invariant Valid() && pos == old(pos) + k
        invariant HexPrefix(b, old(pos), k) == Some(v as int) && (k < 4 ==> v < 0x1000)
      {
        HexPrefixNone(b, old(pos), k + 1);
        var c := BumpByte();
        if c.None? {
          return Failure;
        }
        var digit := HexValue(c.value);
        if digit.None? {
          return Failure;
        }
        assert v * 16 < 0x1_0000;
        v := v * 16 + digit.value;
      }
      HexPrefixFour(b, old(pos));
      r := Success(v);
    }

    /** What follows a backslash, appended to `out`. */
    method ParseEscape(out: seq<Scalar>) returns (r: Result<seq<Scalar>>)
      requires Valid()
      modifies this`pos
      ensures Valid()
      ensures var s := Escape(Utf8, b, old(pos));
              match r
              case Success(out') => s.Ok? && out' == out + s.value && pos == s.next
              case Failure => s.Fail?
    {
      var c := BumpByte();
      if c.None? {
        return Failure;
      }
      var short := ShortEscape(c.value);
      if short.Some? {
        return Success(out + [short.value]);
      }
      if c.value != LETTER_U {
        return Failure;
      }
      var cp := ParseHex4();
      if cp.Failure? {
        return Failure;
      }
      if IsHigh(cp.value) {
        c := BumpByte();
        if c != Some(BACKSLASH) {
          return Failure;
        }
        c := BumpByte();
        if c != Some(LETTER_U) {
          return Failure;
        }
        var low := ParseHex4();
        if low.Failure? || !IsLow(low.value) {
          return Failure;
        }
        r := Success(out + [Combine(cp.value, low.value)]);
      } else if IsLow(cp.value) {
        r := Failure;
      } else {
        r := Success(out + [cp.value]);
      }
    }

    /** The character at `pos`; there is one, since `pos` is on a boundary. */
    function NextChar(): (r: (Scalar, nat))
      requires Boundary() && pos < |b|
      reads this
      ensures DecodeOne(Utf8, b, pos) == Some((r.0, r.1)) && pos + r.1 <= |b| && ValidFrom(Utf8, b, pos + r.1)
    {
      EncDecode(Utf8, b, pos);
      DecodeOne(Utf8, b, pos).value
    }

    method ParseString() returns (r: Result<seq<Scalar>>)
      requires Boundary()
      modifies this`pos
      ensures Valid()
      ensures var s := StrAt(Utf8, b, old(pos));
              match r
              case Success(out) => s == Ok(out, pos) && Boundary()
              case Failure => s.Fail?
    {
      hide ValidFrom, Escape;
      var quote := ExpectByte(QUOTE);
      if !quote {
        return Failure;
      }
      AsciiQuote(Chars, Utf8, b, old(pos));
      var out: seq<Scalar> := [];
      while true
        invariant Boundary() && StrAt(Utf8, b, old(pos)) == StrTail(Utf8, b, pos, out)
        decreases |b| - pos
      {
        ghost var here := pos;
        var c := BumpByte();
        if c.None? {
          return Failure;
        } else if c.value == QUOTE {
          AsciiQuote(Chars, Utf8, b, here);
          return Success(out);
        } else if c.value == BACKSLASH {
          var e := ParseEscape(out);
          if e.Failure? {
            return Failure;
          }
          EscapeAscii(Chars, Utf8, b, here);
          out := e.value;
        } else if c.value < 0x20 {
          return Failure;
        } else if c.value < 0x80 {
          AsciiQuote(Chars, Utf8, b, here);
          out := out + [c.value];
        } else {
          // Back up to the first byte and decode the whole character.
          pos := pos - 1;
          var (ch, width) := NextChar();
          out := out + [ch];
          pos := pos + width;
        }
      }
    }

    method ParseValue() returns (r: Result<Json>)
      requires Boundary()
      modifies this`pos
      ensures Valid()
      ensures var s := ValueAt(Utf8, b, Ws(b, old(pos)));
              match r
              case Success(v) => s == Ok(v, pos) && Boundary()
              case Failure => s.Fail?
      decreases |b| - pos, 1
    {
      SkipWs();
      var c := PeekByte();
      if c.None? {
        r := Failure;
      } else if c.value == LBRACE {
        r := ParseObject();
      } else if c.value == LBRACKET {
        r := ParseArray();
      } else if c.value == QUOTE {
        var s := ParseString();
        r := if s.Success? then Success(Json.String(s.value)) else Failure;
      } else if c.value == LETTER_T {
        r := ParseLiteral(TRUE_TEXT, Json.Bool(true));
      } else if c.value == LETTER_F {
        r := ParseLiteral(FALSE_TEXT, Json.Bool(false));
      } else if c.value == LETTER_N {
        r := ParseLiteral(NULL_TEXT, Json.Null);
      } else if c.value == MINUS || IsDigit(c.value) {
        var t := ParseNumber();
        r := if t.Success? then Success(Json.Number(t.value)) else Failure;
      } else {
        r := Failure;
      }
    }

    method ParseArray() returns (r: Result<Json>)
      requires Boundary() && PeekByte() == Some(LBRACKET)
      modifies this`pos
      ensures Valid()
      ensures var s := ValueAt(Utf8, b, old(pos));
              match r
              case Success(v) => s == Ok(v, pos) && Boundary()
              case Failure => s.Fail?
      decreases |b| - pos, 0
    {
      hide Ws, ValidFrom, ValueAt;
      ValueOpens(Utf8, b, pos);
      var open := ExpectByte(LBRACKET);
      AsciiQuote(Chars, Utf8, b, old(pos));
      SkipWs();
      var items: seq<Json> := [];
      if PeekByte() == Some(RBRACKET) {
        AsciiQuote(Chars, Utf8, b, pos);
        pos := pos + 1;
        return Success(Json.Array(items));
      }
      while true
        invariant old(pos) < pos && Boundary()
        invariant ValueAt(Utf8, b, old(pos)) == ItemsAt(Utf8, b, pos, items)
        decreases |b| - pos
      {
        var v := ParseValue();
        if v.Failure? {
          return Failure;
        }
        items := items + [v.value];
        SkipWs();
        ghost var here := pos;
        var c := BumpByte();
        if c == Some(COMMA) {
          AsciiQuote(Chars, Utf8, b, here);
          ghost var next := pos;
          SkipWs();
          WsTwice(b, next);
          ItemsSameStart(Utf8, b, next, pos, items);
        } else if c == Some(RBRACKET) {
          AsciiQuote(Chars, Utf8, b, here);
          return Success(Json.Array(items));
        } else {
          return Failure;
        }
      }
    }

    method ParseObject() returns (r: Result<Json>)
      requires Boundary() && PeekByte() == Some(LBRACE)
      modifies this`pos
      ensures Valid()
      ensures var s := ValueAt(Utf8, b, old(pos));
              match r
              case Success(v) => s == Ok(v, pos) && Boundary()
              case Failure => s.Fail?
      decreases |b| - pos, 0
    {
      hide Ws, ValidFrom, MemberAt, ValueAt;
      ValueOpens(Utf8, b, pos);
      var open := ExpectByte(LBRACE);
      AsciiQuote(Chars, Utf8, b, old(pos));
      SkipWs();
      var pairs: seq<Member> := [];
      if PeekByte() == Some(RBRACE) {
        AsciiQuote(Chars, Utf8, b, pos);
        pos := pos + 1;
        return Success(Json.Object(pairs));
      }
      while true
        invariant old(pos) < pos && Boundary()
        invariant ValueAt(Utf8, b, old(pos)) == MembersAt(Utf8, b, pos, pairs)
        decreases |b| - pos
      {
        var m := ParseMember();
        if m.Failure? {
          return Failure;
        }
        pairs := pairs + [m.value];
        SkipWs();
        ghost var here := pos;
        var c := BumpByte();
        if c == Some(COMMA) {
          AsciiQuote(Chars, Utf8, b, here);
          ghost var next := pos;
          SkipWs();
          WsTwice(b, next);
          MembersSameStart(Utf8, b, next, pos, pairs);
        } else if c == Some(RBRACE) {
          AsciiQuote(Chars, Utf8, b, here);
          return Success(Json.Object(pairs));
        } else {
          return Failure;
        }
      }
    }

    /** The first half of the object loop's body: a key, a colon and a value. */
    method ParseMember() returns (r: Result<Member>)
      requires Boundary()
      modifies this`pos
      ensures Valid()
      ensures var s := MemberAt(Utf8, b, old(pos));
              match r
              case Success(m) => s == Ok(m, pos) && Boundary()
              case Failure => s.Fail?
      decreases |b| - pos, 2
    {
      hide Ws, ValidFrom, StrTail, ValueAt;
      SkipWs();
      if PeekByte() != Some(QUOTE) {
        return Failure;
      }
      var key := ParseString();
      if key.Failure? {
        return Failure;
      }
      SkipWs();
      ghost var colonAt := pos;
      var colon := ExpectByte(COLON);
      if !colon {
        return Failure;
      }
      AsciiQuote(Chars, Utf8, b, colonAt);
      SkipWs();
      WsTwice(b, colonAt + 1);
      var val := ParseValue();
      if val.Failure? {
        return Failure;
      }
      r := Success(Member(key.value, val.value));
    }
  }

  /** A number is ASCII, so it ends on a boundary. */
  lemma NumberRun(u: seq<int>, i: nat)
    requires i <= |u| && ValidFrom(Utf8, u, i) && NumberAt(u, i).Ok?
    ensures ValidFrom(Utf8, u, NumberAt(u, i).next)
  {
    var n := NumTokenSound(Chars, Utf8, u, i);
  }

  /** `parse`: exactly one value, in text that `str::from_utf8` accepts. */
  method Parse(input: seq<Byte>) returns (r: Result<Json>)
    ensures match ParseRust(input)
            case Some(v) => r == Success(v)
            case None => r == Failure
  {
    if !WellFormed(Utf8, input) {
      return Failure;
    }
    var p := new Parser(input);
    p.SkipWs();
    WsTwice(input, 0);
    var v := p.ParseValue();
    if v.Failure? {
      return Failure;
    }
    p.SkipWs();
    if p.pos != |p.b| {
      return Failure;
    }
    r := v;
  }
}
