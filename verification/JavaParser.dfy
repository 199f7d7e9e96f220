/** `JsonParser.java`: a cursor over the 16-bit units of a Java string. Exceptions are `Failure`. */
module JavaParser {
  import opened Encoding
  import opened Json
  import opened ParserSpec

  class JsonParser {
    const s: seq<Unit16>
    var i: nat

    constructor (text: seq<Unit16>)
      ensures s == text && i == 0
    {
      s := text;
      i := 0;
    }

    predicate Valid() reads this { i <= |s| }

    predicate Looking(c: int) reads this { i < |s| && s[i] == c }

    method SkipWhitespace()
      requires Valid()
      modifies this`i
      ensures Valid() && i == Ws(s, old(i))
    {
      while i < |s|
        invariant Valid() && Ws(s, i) == Ws(s, old(i))
        decreases |s| - i
      {
        if IsWs(s[i]) {
          i := i + 1;
        } else {
          break;
        }
      }
    }

    method SkipDigits()
      requires Valid()
      modifies this`i
      ensures Valid() && i == Digits(s, old(i))
    {
      while i < |s| && IsDigit(s[i])
        invariant Valid() && Digits(s, i) == Digits(s, old(i))
        decreases |s| - i
      {
        i := i + 1;
      }
    }

    method ParseValue() returns (r: Result<Json>)
      requires Valid()
      modifies this`i
      ensures Valid()
      ensures var p := ValueAt(Utf16, s, old(i));
              match r
              case Success(v) => p == Ok(v, i)
              case Failure => p.Fail?
      decreases |s| - i, 1
    {
      if i >= |s| {
        return Failure;
      }
      var c := s[i];
      if c == LBRACE {
        r := ParseObject();
      } else if c == LBRACKET {
        r := ParseArray();
      } else if c == QUOTE {
        var t := ParseString();
        r := if t.Success? then Success(Json.String(t.value)) else Failure;
      } else if c == LETTER_T {
        r := ExpectLiteral(TRUE_TEXT, Json.Bool(true));
      } else if c == LETTER_F {
        r := ExpectLiteral(FALSE_TEXT, Json.Bool(false));
      } else if c == LETTER_N {
        r := ExpectLiteral(NULL_TEXT, Json.Null);
      } else if c == MINUS || IsDigit(c) {
        var t := ParseNumber();
        r := if t.Success? then Success(Json.Number(t.value)) else Failure;
      } else {
        r := Failure;
      }
    }

    method ExpectLiteral(literal: seq<Unit16>, v: Json) returns (r: Result<Json>)
      requires Valid() && |literal| > 0
      modifies this`i
      ensures Valid()
      ensures var p := LiteralAt(s, old(i), literal, v);
              match r
              case Success(w) => p == Ok(w, i)
              case Failure => p.Fail?
    {
      if i + |literal| > |s| || s[i..i + |literal|] != literal {
        return Failure;
      }
      i := i + |literal|;
      r := Success(v);
    }

    method ParseObject() returns (r: Result<Json>)
      requires Looking(LBRACE)
      modifies this`i
      ensures Valid()
      ensures var p := ValueAt(Utf16, s, old(i));
              match r
              case Success(v) => p == Ok(v, i)
              case Failure => p.Fail?
      decreases |s| - i, 0
    {
      hide Ws, MemberAt, ValueAt;
      ValueOpens(Utf16, s, i);
      i := i + 1;
      var members: seq<Member> := [];
      SkipWhitespace();
      if Looking(RBRACE) {
        i := i + 1;
        return Success(Json.Object(members));
      }
      while true
        invariant old(i) < i && Valid()
        invariant ValueAt(Utf16, s, old(i)) == MembersAt(Utf16, s, i, members)
        decreases |s| - i
      {
        var m := ParseMember();
        if m.Failure? {
          return Failure;
        }
        members := members + [m.value];
        SkipWhitespace();
        if i >= |s| {
          return Failure;
        }
        var c := s[i];
        if c == COMMA {
          i := i + 1;
        } else if c == RBRACE {
          i := i + 1;
          break;
        } else {
          return Failure;
        }
      }
      r := Success(Json.Object(members));
    }

    /** The first half of the object loop's body: a key, a colon and a value. */
    method ParseMember() returns (r: Result<Member>)
      requires Valid()
      modifies this`i
      ensures Valid()
      ensures var p := MemberAt(Utf16, s, old(i));
              match r
              case Success(m) => p == Ok(m, i)
              case Failure => p.Fail?
      decreases |s| - i, 2
    {
      hide Ws, StrTail, ValueAt;
      SkipWhitespace();
      if !Looking(QUOTE) {
        return Failure;
      }
      var key := ParseString();
      if key.Failure? {
        return Failure;
      }
      SkipWhitespace();
      if !Looking(COLON) {
        return Failure;
      }
      i := i + 1;
      SkipWhitespace();
      var value := ParseValue();
      r := if value.Success? then Success(Member(key.value, value.value)) else Failure;
    }

    method ParseArray() returns (r: Result<Json>)
      requires Looking(LBRACKET)
      modifies this`i
      ensures Valid()
      ensures var p := ValueAt(Utf16, s, old(i));
              match r
              case Success(v) => p == Ok(v, i)
              case Failure => p.Fail?
      decreases |s| - i, 0
    {
      hide Ws, ValueAt;
      ValueOpens(Utf16, s, i);
      i := i + 1;
      var items: seq<Json> := [];
      SkipWhitespace();
      if Looking(RBRACKET) {
        i := i + 1;
        return Success(Json.Array(items));
      }
      while true
        invariant old(i) < i && Valid()
        invariant ValueAt(Utf16, s, old(i)) == ItemsAt(Utf16, s, i, items)
        decreases |s| - i
      {
        SkipWhitespace();
        var v := ParseValue();
        if v.Failure? {
          return Failure;
        }
        items := items + [v.value];
        SkipWhitespace();
        if i >= |s| {
          return Failure;
        }
        var c := s[i];
        if c == COMMA {
          i := i + 1;
        } else if c == RBRACKET {
          i := i + 1;
          break;
        } else {
          return Failure;
        }
      }
      r := Success(Json.Array(items));
    }

    /** Unit by unit: a `\u` escape appends the unit it names, paired or not. */
    method ParseString() returns (r: Result<seq<Unit16>>)
      requires Looking(QUOTE)
      modifies this`i
      ensures Valid()
      ensures var p := StrAt(Utf16, s, old(i));
              match r
              case Success(t) => p == Ok(t, i)
              case Failure => p.Fail?
    {
      i := i + 1;
      var sb: seq<Unit16> := [];
      while true
        invariant old(i) < i && Valid() && StrAt(Utf16, s, old(i)) == StrTail(Utf16, s, i, sb)
        decreases |s| - i
      {
        if i >= |s| {
          return Failure;
        }
        var c := s[i];
        if c == QUOTE {
          i := i + 1;
          return Success(sb);
        }
        if c == BACKSLASH {
          i := i + 1;
          if i >= |s| {
            return Failure;
          }
          var short := ShortEscape(s[i]);
          if short.Some? {
            sb := sb + [short.value];
            i := i + 1;
          } else if s[i] == LETTER_U {
            i := i + 1;
            var h := ParseHex4();
            if h.Failure? {
              return Failure;
            }
            sb := sb + [h.value];
          } else {
            return Failure;
          }
        } else {
          if c < 0x20 {
            return Failure;
          }
          sb := sb + [c];
          i := i + 1;
        }
      }
    }

    method ParseHex4() returns (r: Result<Unit16>)
      requires Valid()
      modifies this`i
      ensures Valid()
      ensures match r
              case Success(v) => Hex4(s, old(i)) == Some(v as int) && i == old(i) + 4
              case Failure => Hex4(s, old(i)).None? && i == old(i)
    {
      hide HexValue, Hex4;
      HexPrefixFour(s, i);
      if i + 4 > |s| {
        HexPrefixShort(s, i);
        return Failure;
      }
      var value := 0;
      for k := 0 to 4
        invariant i == old(i) && HexPrefix(s, i, k) == Some(value) && 0 <= value
        invariant k == 0 ==> value == 0
        invariant k == 1 ==> value < 0x10
        invariant k == 2 ==> value < 0x100
        invariant k == 3 ==> value < 0x1000
        invariant k == 4 ==> value < 0x1_0000
      {
        HexPrefixNone(s, i, k + 1);
        var d := HexValue(s[i + k]);
        if d.None? {
          return Failure;
        }
        value := value * 16 + d.value;
      }
      i := i + 4;
      r := Success(value);
    }

    /** The three parts of `parseNumber`, in order. */
    method ScanInteger() returns (ok: bool)
      requires Valid()
      modifies this`i
      ensures Valid()
      ensures IntEnd(s, old(i)) == if ok then Some(i) else None
    {
      if i >= |s| || !IsDigit(s[i]) {
        return false;
      }
      if s[i] == ZERO {
        i := i + 1;
      } else {
        SkipDigits();
      }
      ok := true;
    }

    method ScanFraction() returns (ok: bool)
      requires Valid()
      modifies this`i
      ensures Valid()
      ensures FracEnd(s, old(i)) == if ok then Some(i) else None
    {
      if Looking(DOT) {
        i := i + 1;
        DigitsProgress(s, i);
        if i >= |s| || !IsDigit(s[i]) {
          return false;
        }
        SkipDigits();
      }
      ok := true;
    }

    method ScanExponent() returns (ok: bool)
      requires Valid()
      modifies this`i
      ensures Valid()
      ensures ExpEnd(s, old(i)) == if ok then Some(i) else None
    {
      if Looking(LETTER_E) || Looking(CAPITAL_E) {
        i := i + 1;
        if Looking(PLUS) || Looking(MINUS) {
          i := i + 1;
        }
        DigitsProgress(s, i);
        if i >= |s| || !IsDigit(s[i]) {
          return false;
        }
        SkipDigits();
      }
      ok := true;
    }

    method ParseNumber() returns (r: Result<seq<int>>)
      requires Valid()
      modifies this`i
      ensures Valid()
      ensures var p := NumberAt(s, old(i));
              match r
              case Success(t) => p == Ok(t, i)
              case Failure => p.Fail?
    {
      hide NumberAt, IntEnd, FracEnd, ExpEnd;
      NumberSteps(s, i);
      var start := i;
      if Looking(MINUS) {
        i := i + 1;
      }
      var ok := ScanInteger();
      if ok {
        ok := ScanFraction();
      }
      if ok {
        ok := ScanExponent();
      }
      r := if ok then Success(s[start..i]) else Failure;
    }
  }

  lemma DigitsProgress(u: seq<int>, i: nat)
    requires i <= |u|
    ensures Digits(u, i) == i <==> i == |u| || !IsDigit(u[i])
  {
  }

  lemma HexPrefixShort(u: seq<int>, i: nat)
    requires i + 4 > |u|
    ensures HexPrefix(u, i, 4).None?
  {
    HexPrefixFour(u, i);
  }

  /** `JsonParser.parse`. */
  method Parse(text: seq<Unit16>) returns (r: Result<Json>)
    ensures match ParseJava(text)
            case Some(v) => r == Success(v)
            case None => r == Failure
  {
    var p := new JsonParser(text);
    p.SkipWhitespace();
    var v := p.ParseValue();
    if v.Failure? {
      return Failure;
    }
    p.SkipWhitespace();
    if p.i != |p.s| {
      return Failure;
    }
    r := v;
  }
}
