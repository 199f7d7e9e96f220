/** The parsers and the writer on texts written out. Elsewhere characters have names and classes that
    the grammar and the parsers share; here it is said which characters these are. */
module Literals {
  import opened Encoding
  import opened Json
  import opened Grammar
  import opened ParserSpec
  import opened ParserSound
  import opened JsonWriter

  /** The value of a hexadecimal digit is its place, in either case. */
  predicate Spells(h: int, v: nat) {
    v < 16 && (h == Ascii("0123456789abcdef")[v] || h == Ascii("0123456789ABCDEF")[v])
  }

  ghost predicate SpellsCode(h: seq<int>, n: nat) {
    |h| == 4 && exists a: nat, b: nat, c: nat, d: nat ::
      && Spells(h[0], a) && Spells(h[1], b) && Spells(h[2], c) && Spells(h[3], d)
      && n == a * 4096 + b * 256 + c * 16 + d
  }

  //
  // From a text to one position in it
  //

  /** Text of ASCII units is well-formed. */
  lemma AsciiParses(u: seq<int>)
    ensures ParseRust(u) == None || ParseRust(u) == Document(Utf8, u)
    ensures (forall k :: 0 <= k < |u| ==> 0 <= u[k] < 0x80) ==> ParseRust(u) == Document(Utf8, u)
  {
    if forall k :: 0 <= k < |u| ==> 0 <= u[k] < 0x80 {
      AllAscii(u, 0);
    }
  }

  lemma {:induction false} AllAscii(u: seq<int>, i: nat)
    requires i <= |u| && forall k :: i <= k < |u| ==> 0 <= u[k] < 0x80
    ensures ValidFrom(Utf8, u, i)
    decreases |u| - i
  {
    if i < |u| {
      AllAscii(u, i + 1);
    }
  }

  lemma StringDocument(f: Form, u: seq<int>)
    requires u != [] && u[0] == 0x22
    ensures var r := StrTail(f, u, 1, []);
            Document(f, u) == if r.Ok? && Ws(u, r.next) == |u| then Some(String(r.value)) else None
  {
    hide StrTail;
  }

  //
  // Escapes
  //

  /** `\` and one of these eight characters stands for that character; no other does. */
  lemma ShortEscapes(e: int)
    ensures var u := Ascii("\"\\") + [e] + Ascii("\"");
            var names := Ascii("\"\\/bfnrt");
            var meanings := [0x22, 0x5C, 0x2F, 0x08, 0x0C, 0x0A, 0x0D, 0x09];
            && (forall k :: 0 <= k < 8 && names[k] == e ==>
                  ParseRust(u) == Some(String([meanings[k]])) && ParseJava(u) == Some(String([meanings[k]])))
            && (e !in names ==> ParseRust(u) == None && ParseJava(u) == None)
  {
    var u := Ascii("\"\\") + [e] + Ascii("\"");
    assert u == [0x22, 0x5C, e, 0x22];
    var names := Ascii("\"\\/bfnrt");
    assert names == [0x22, 0x5C, 0x2F, 0x62, 0x66, 0x6E, 0x72, 0x74];
    AsciiParses(u);
    EscapeDocument(Utf8, u, e);
    EscapeDocument(Utf16, u, e);
  }

  lemma EscapeDocument(f: Form, u: seq<int>, e: int)
    requires u == [0x22, 0x5C, e, 0x22]
    ensures Document(f, u) == if ShortEscape(e).Some? then Some(String([ShortEscape(e).value])) else None
  {
    hide ShortEscape;
    StringDocument(f, u);
    if ShortEscape(e).Some? {
      var x := ShortEscape(e).value;
      assert StrTail(f, u, 1, []) == StrTail(f, u, 3, [] + [x]);
      assert StrTail(f, u, 3, [] + [x]) == Ok([] + [x], 4);
      assert [] + [x] == [x];
    }
  }

  lemma DigitSpells(h: int, v: nat)
    ensures HexValue(h) == Some(v) <==> Spells(h, v)
  {
    var lower, upper := Ascii("0123456789abcdef"), Ascii("0123456789ABCDEF");
    assert forall k :: 0 <= k < 10 ==> lower[k] == 0x30 + k == upper[k];
    assert forall k :: 10 <= k < 16 ==> lower[k] == 0x61 + k - 10 && upper[k] == 0x41 + k - 10;
  }

  lemma CodeSpells(h: seq<int>, n: nat)
    requires |h| == 4
    ensures Hex4(h, 0) == Some(n) <==> SpellsCode(h, n)
  {
    hide Spells, HexValue;
    if SpellsCode(h, n) {
      var a: nat, b: nat, c: nat, d: nat :|
        && Spells(h[0], a) && Spells(h[1], b) && Spells(h[2], c) && Spells(h[3], d)
        && n == a * 4096 + b * 256 + c * 16 + d;
      DigitSpells(h[0], a);
      DigitSpells(h[1], b);
      DigitSpells(h[2], c);
      DigitSpells(h[3], d);
    }
    if Hex4(h, 0) == Some(n) {
      DigitSpells(h[0], HexValue(h[0]).value);
      DigitSpells(h[1], HexValue(h[1]).value);
      DigitSpells(h[2], HexValue(h[2]).value);
      DigitSpells(h[3], HexValue(h[3]).value);
    }
  }

  lemma DigitRange(h: seq<int>)
    ensures forall k :: 0 <= k < |h| && HexValue(h[k]).Some? ==> 0x30 <= h[k] < 0x80
  {
  }

  /** `\u` and four digits stand for the code they spell, and no other four characters stand for
      anything. Rust wants surrogates in pairs. */
  lemma HexEscapes(h: seq<int>)
    requires |h| == 4
    ensures var u := Ascii("\"\\u") + h + Ascii("\"");
            && (forall n: nat :: SpellsCode(h, n) ==>
                  && ParseJava(u) == Some(String([n]))
                  && ParseRust(u) == if 0xD800 <= n <= 0xDFFF then None else Some(String([n])))
            && ((forall n: nat :: !SpellsCode(h, n)) ==> ParseRust(u) == None && ParseJava(u) == None)
  {
    hide SpellsCode, HexValue;
    var u := Ascii("\"\\u") + h + Ascii("\"");
    assert u == [0x22, 0x5C, 0x75, h[0], h[1], h[2], h[3], 0x22];
    assert Hex4(u, 3) == Hex4(h, 0);
    forall n: nat ensures Hex4(h, 0) == Some(n) <==> SpellsCode(h, n) {
      CodeSpells(h, n);
    }
    DigitRange(h);
    AsciiParses(u);
    HexDocument(Utf8, u);
    HexDocument(Utf16, u);
    if Hex4(h, 0).Some? {
      assert SpellsCode(h, Hex4(h, 0).value);
    }
  }

  lemma HexDocument(f: Form, u: seq<int>)
    requires |u| == 8 && u[..3] == [0x22, 0x5C, 0x75] && u[7] == 0x22
    ensures var n := Hex4(u, 3);
            Document(f, u) == if n.Some? && (f == Utf16 || !IsSurrogate(n.value)) then Some(String([n.value])) else None
  {
    hide Hex4;
    assert u[0] == u[..3][0] && u[1] == u[..3][1] && u[2] == u[..3][2];
    StringDocument(f, u);
    var n := Hex4(u, 3);
    if n.Some? && (f == Utf16 || !IsSurrogate(n.value)) {
      assert StrTail(f, u, 1, []) == StrTail(f, u, 7, [] + [n.value]);
      assert StrTail(f, u, 7, [] + [n.value]) == Ok([] + [n.value], 8);
      assert [] + [n.value] == [n.value];
    }
  }

  /** Two escapes: in Rust a high surrogate and a low one stand for one character above U+FFFF. */
  lemma PairEscapes(h: seq<int>, l: seq<int>, n: nat, m: nat)
    requires SpellsCode(h, n) && SpellsCode(l, m) && 0xD800 <= n <= 0xDBFF
    ensures var u := Ascii("\"\\u") + h + Ascii("\\u") + l + Ascii("\"");
            && ParseJava(u) == Some(String([n, m]))
            && ParseRust(u) == if 0xDC00 <= m <= 0xDFFF then Some(String([0x10000 + (n - 0xD800) * 0x400 + (m - 0xDC00)]))
                               else None
  {
    CodeSpells(h, n);
    CodeSpells(l, m);
    hide Hex4, HexValue, SpellsCode;
    var u := Ascii("\"\\u") + h + Ascii("\\u") + l + Ascii("\"");
    PairText(u, h, l);
    AsciiParses(u);
    PairDocument(u, n, m);
  }

  lemma PairText(u: seq<int>, h: seq<int>, l: seq<int>)
    requires |h| == 4 && |l| == 4 && Hex4(h, 0).Some? && Hex4(l, 0).Some?
    requires u == Ascii("\"\\u") + h + Ascii("\\u") + l + Ascii("\"")
    ensures |u| == 14 && u[0] == 0x22 && u[1] == 0x5C && u[2] == 0x75 && u[7] == 0x5C && u[8] == 0x75 && u[13] == 0x22
    ensures Hex4(u, 3) == Hex4(h, 0) && Hex4(u, 9) == Hex4(l, 0)
    ensures forall k :: 0 <= k < 14 ==> 0 <= u[k] < 0x80
  {
    hide Hex4, HexValue;
    assert u[3..7] == h && u[9..13] == l;
    HexAt(u, 3, h);
    HexAt(u, 9, l);
  }

  lemma HexAt(u: seq<int>, i: nat, h: seq<int>)
    requires |h| == 4 && i + 4 <= |u| && u[i..i + 4] == h && Hex4(h, 0).Some?
    ensures Hex4(u, i) == Hex4(h, 0) && forall k :: i <= k < i + 4 ==> 0x30 <= u[k] < 0x80
  {
    hide HexValue;
    DigitRange(h);
    assert u[i] == h[0] && u[i + 1] == h[1] && u[i + 2] == h[2] && u[i + 3] == h[3];
  }

  lemma PairDocument(u: seq<int>, n: nat, m: nat)
    requires |u| == 14 && u[0] == 0x22 && u[1] == 0x5C && u[2] == 0x75 && u[7] == 0x5C && u[8] == 0x75 && u[13] == 0x22
    requires Hex4(u, 3) == Some(n) && Hex4(u, 9) == Some(m) && 0xD800 <= n <= 0xDBFF
    ensures Document(Utf16, u) == Some(String([n, m]))
    ensures Document(Utf8, u) == if 0xDC00 <= m <= 0xDFFF then Some(String([0x10000 + (n - 0xD800) * 0x400 + (m - 0xDC00)]))
                                 else None
  {
    hide Hex4;
    StringDocument(Utf8, u);
    StringDocument(Utf16, u);
    assert StrTail(Utf16, u, 1, []) == StrTail(Utf16, u, 7, [] + [n]);
    assert StrTail(Utf16, u, 7, [] + [n]) == StrTail(Utf16, u, 13, [] + [n] + [m]);
    assert StrTail(Utf16, u, 13, [] + [n] + [m]) == Ok([] + [n] + [m], 14);
    assert [] + [n] + [m] == [n, m];
    if 0xDC00 <= m <= 0xDFFF {
      var c := Combine(n, m);
      assert StrTail(Utf8, u, 1, []) == StrTail(Utf8, u, 13, [] + [c]);
      assert StrTail(Utf8, u, 13, [] + [c]) == Ok([] + [c], 14);
      assert [] + [c] == [c];
    }
  }

  //
  // White space
  //

  /** Four characters may stand before a value, and the same four after it. */
  lemma WhiteSpace(c: int)
    ensures var before, after := [c] + Ascii("null"), Ascii("null") + [c];
            var space := c in Ascii(" \t\n\r");
            && (ParseRust(before) == Some(Null) <==> space) && (ParseJava(before) == Some(Null) <==> space)
            && (ParseRust(after) == Some(Null) <==> space) && (ParseJava(after) == Some(Null) <==> space)
  {
    var before, after := [c] + Ascii("null"), Ascii("null") + [c];
    assert before == [c, 0x6E, 0x75, 0x6C, 0x6C] && after == [0x6E, 0x75, 0x6C, 0x6C, c];
    assert Ascii(" \t\n\r") == [0x20, 0x09, 0x0A, 0x0D];
    AsciiParses(before);
    AsciiParses(after);
    SpaceBefore(Utf8, before, c);
    SpaceBefore(Utf16, before, c);
    SpaceAfter(Utf8, after, c);
    SpaceAfter(Utf16, after, c);
  }

  lemma SpaceBefore(f: Form, u: seq<int>, c: int)
    requires u == [c, 0x6E, 0x75, 0x6C, 0x6C]
    ensures Document(f, u) == Some(Null) <==> IsWs(c)
  {
    hide MembersAt, ItemsAt, StrTail, NumberAt;
    assert Ws(u, 1) == 1 && u[1..5] == NULL_TEXT;
    if IsWs(c) {
      assert Ws(u, 0) == 1 && ValueAt(f, u, 1) == Ok(Null, 5);
    } else {
      assert Ws(u, 0) == 0;
      assert u[0..4] != NULL_TEXT by { assert u[0..4][1] == 0x6E; }
      if c != 0x6E {
        NotTheWord(f, u);
      }
    }
  }

  lemma SpaceAfter(f: Form, u: seq<int>, c: int)
    requires u == [0x6E, 0x75, 0x6C, 0x6C, c]
    ensures Document(f, u) == Some(Null) <==> IsWs(c)
  {
    assert Ws(u, 0) == 0 && u[0..4] == NULL_TEXT;
    assert ValueAt(f, u, 0) == Ok(Null, 4);
  }

  /** Only the word is null. */
  lemma NotTheWord(f: Form, u: seq<int>)
    requires u != [] && u[0] != 0x6E && !IsWs(u[0])
    ensures Document(f, u) != Some(Null)
  {
    hide StrTail, NumberAt;
    if u[0] == LBRACE {
      MembersObject(f, u, Ws(u, 1), []);
    } else if u[0] == LBRACKET {
      ItemsArray(f, u, Ws(u, 1), []);
    }
  }

  lemma {:induction false} MembersObject(f: Form, u: seq<int>, i: nat, acc: seq<Member>)
    requires i <= |u|
    ensures MembersAt(f, u, i, acc).Ok? ==> MembersAt(f, u, i, acc).value.Object?
    decreases |u| - i
  {
    hide MemberAt, Ws;
    var m := MemberAt(f, u, i);
    if m.Ok? && Ws(u, m.next) < |u| && u[Ws(u, m.next)] == COMMA {
      MembersObject(f, u, Ws(u, m.next) + 1, acc + [m.value]);
    }
  }

  lemma {:induction false} ItemsArray(f: Form, u: seq<int>, i: nat, acc: seq<Json>)
    requires i <= |u|
    ensures ItemsAt(f, u, i, acc).Ok? ==> ItemsAt(f, u, i, acc).value.Array?
    decreases |u| - i
  {
    hide ValueAt;
    var v := ValueAt(f, u, Ws(u, i));
    if v.Ok? && Ws(u, v.next) < |u| && u[Ws(u, v.next)] == COMMA {
      ItemsArray(f, u, Ws(u, v.next) + 1, acc + [v.value]);
    }
  }

  //
  // Numbers
  //

  /** What may begin a number... */
  lemma NumberBegins(c: int)
    ensures var u := [c] + Ascii("1");
            && (ParseRust(u) == Some(Number(u)) <==> c in Ascii("-123456789"))
            && (ParseJava(u) == Some(Number(u)) <==> c in Ascii("-123456789"))
  {
    hide Document;
    var u := [c] + Ascii("1");
    assert u == [c, 0x31];
    assert Ascii("-123456789") == [0x2D, 0x31, 0x32, 0x33, 0x34, 0x35, 0x36, 0x37, 0x38, 0x39];
    AsciiParses(u);
    FirstCharacter(Utf8, u, c);
    FirstCharacter(Utf16, u, c);
  }

  /** ...what may come between two digits... */
  lemma NumberGoesOn(c: int)
    ensures var u := Ascii("1") + [c] + Ascii("5");
            && (ParseRust(u) == Some(Number(u)) <==> c in Ascii(".eE0123456789"))
            && (ParseJava(u) == Some(Number(u)) <==> c in Ascii(".eE0123456789"))
  {
    hide Document;
    var u := Ascii("1") + [c] + Ascii("5");
    assert u == [0x31, c, 0x35];
    assert Ascii(".eE0123456789") == [0x2E, 0x65, 0x45, 0x30, 0x31, 0x32, 0x33, 0x34, 0x35, 0x36, 0x37, 0x38, 0x39];
    AsciiParses(u);
    MiddleCharacter(Utf8, u, c);
    MiddleCharacter(Utf16, u, c);
  }

  /** ...and what may follow an `e`. */
  lemma ExponentBegins(c: int)
    ensures var u := Ascii("1e") + [c] + Ascii("5");
            && (ParseRust(u) == Some(Number(u)) <==> c in Ascii("+-0123456789"))
            && (ParseJava(u) == Some(Number(u)) <==> c in Ascii("+-0123456789"))
  {
    hide Document;
    var u := Ascii("1e") + [c] + Ascii("5");
    assert u == [0x31, 0x65, c, 0x35];
    assert Ascii("+-0123456789") == [0x2B, 0x2D, 0x30, 0x31, 0x32, 0x33, 0x34, 0x35, 0x36, 0x37, 0x38, 0x39];
    AsciiParses(u);
    SignCharacter(Utf8, u, c);
    SignCharacter(Utf16, u, c);
  }

  /** A text is one number exactly when the number scanner takes all of it. */
  lemma NumberDocument(f: Form, u: seq<int>)
    requires u != []
    ensures Document(f, u) == Some(Number(u)) <==>
              (u[0] == 0x2D || 0x30 <= u[0] <= 0x39) && NumberAt(u, 0) == Ok(u, |u|)
  {
    hide NumberAt;
    if !IsWs(u[0]) && u[0] != 0x2D && !IsDigit(u[0]) {
      NotNumber(f, u);
    } else if IsWs(u[0]) {
      StartsLater(f, u);
    } else {
      assert Ws(u, 0) == 0;
      var r := NumberAt(u, 0);
      if r.Ok? {
        assert u[0..|u|] == u;
        if Ws(u, r.next) == |u| && r.value == u {
          assert |r.value| == r.next;
        }
      }
    }
  }

  lemma NotNumber(f: Form, u: seq<int>)
    requires u != [] && !IsWs(u[0]) && u[0] != 0x2D && !IsDigit(u[0])
    ensures Document(f, u).Some? ==> !Document(f, u).value.Number?
  {
    hide StrTail, NumberAt;
    if u[0] == LBRACE {
      MembersObject(f, u, Ws(u, 1), []);
    } else if u[0] == LBRACKET {
      ItemsArray(f, u, Ws(u, 1), []);
    }
  }

  /** A number token does not start with white space. */
  lemma StartsLater(f: Form, u: seq<int>)
    requires u != [] && IsWs(u[0])
    ensures Document(f, u) != Some(Number(u))
  {
    hide StrTail, NumberAt;
    var i := Ws(u, 0);
    assert i > 0;
    if i < |u| {
      if u[i] == LBRACE {
        MembersObject(f, u, Ws(u, i + 1), []);
      } else if u[i] == LBRACKET {
        ItemsArray(f, u, Ws(u, i + 1), []);
      } else if u[i] == MINUS || IsDigit(u[i]) {
        assert NumberAt(u, i).Ok? ==> |NumberAt(u, i).value| < |u|;
      }
    }
  }

  lemma FirstCharacter(f: Form, u: seq<int>, c: int)
    requires u == [c, 0x31]
    ensures Document(f, u) == Some(Number(u)) <==> c == 0x2D || 0x31 <= c <= 0x39
  {
    NumberDocument(f, u);
    assert u[0..2] == u && u[0..1] != u;
    assert Digits(u, 2) == 2 && Digits(u, 1) == 2 && Digits(u, 0) == if IsDigit(c) then 2 else 0;
    assert FracEnd(u, 2) == Some(2) && ExpEnd(u, 2) == Some(2);
  }

  lemma MiddleCharacter(f: Form, u: seq<int>, c: int)
    requires u == [0x31, c, 0x35]
    ensures Document(f, u) == Some(Number(u)) <==> c == 0x2E || c == 0x65 || c == 0x45 || 0x30 <= c <= 0x39
  {
    NumberDocument(f, u);
    assert u[0..3] == u;
    assert Digits(u, 3) == 3 && Digits(u, 2) == 3 && Digits(u, 1) == if IsDigit(c) then 3 else 1;
    assert IntEnd(u, 0) == Some(Digits(u, 1)) && FracEnd(u, 3) == Some(3) && ExpEnd(u, 3) == Some(3);
  }

  lemma SignCharacter(f: Form, u: seq<int>, c: int)
    requires u == [0x31, 0x65, c, 0x35]
    ensures Document(f, u) == Some(Number(u)) <==> c == 0x2B || c == 0x2D || 0x30 <= c <= 0x39
  {
    NumberDocument(f, u);
    assert u[0..4] == u;
    assert Digits(u, 4) == 4 && Digits(u, 3) == 4;
    assert Digits(u, 0) == 1;
  }

  //
  // Words and structure
  //

  lemma Words()
    ensures ParseRust(Ascii("null")) == ParseJava(Ascii("null")) == Some(Null)
    ensures ParseRust(Ascii("true")) == ParseJava(Ascii("true")) == Some(Bool(true))
    ensures ParseRust(Ascii("false")) == ParseJava(Ascii("false")) == Some(Bool(false))
  {
    hide ParseRust, ParseJava;
    Word(Null, "null");
    Word(Bool(true), "true");
    Word(Bool(false), "false");
  }

  lemma Word(v: Json, text: string)
    requires (v == Null && text == "null") || (v == Bool(true) && text == "true") || (v == Bool(false) && text == "false")
    ensures ParseRust(Ascii(text)) == ParseJava(Ascii(text)) == Some(v)
  {
    hide ParseRust, ParseJava;
    assert Ascii(text) == Write(v);
    RoundTrips(v);
  }

  /** For text that is its own encoding, both round trips. */
  lemma RoundTrips(v: Json)
    requires Writable(Utf8, v) && Writable(Utf16, v) && forall k :: 0 <= k < |Write(v)| ==> 0 <= Write(v)[k] < 0x80
    ensures ParseRust(Write(v)) == ParseJava(Write(v)) == Some(v)
  {
    EncAscii(Utf8, Write(v));
    RustRoundTrip(v);
    JavaRoundTrip(v);
  }

  /** Objects and arrays, written and read. */
  lemma Structure()
    ensures var text := Ascii("{\"a\":[1,{}],\"b\":[]}");
            var v := Object([Member([0x61], Array([Number([0x31]), Object([])])), Member([0x62], Array([]))]);
            Write(v) == text && ParseRust(text) == ParseJava(text) == Some(v)
  {
    hide IsNumber, ParseRust, ParseJava, Write, WriteMembers;
    var items := [Number([0x31]), Object([])];
    var ms := [Member([0x61], Array(items)), Member([0x62], Array([]))];
    StructureText(items, ms);
    OneIsNumber();
    assert forall f :: Writable(f, Array(items)) by { assert forall f :: OfForm(f, Array(items)); }
    assert IsText(Utf8, [0x61]) && IsText(Utf8, [0x62]) && IsText(Utf16, [0x61]) && IsText(Utf16, [0x62]);
    assert Writable(Utf8, ms[1].value) && Writable(Utf16, ms[1].value);
    RoundTrips(Object(ms));
  }

  lemma StructureText(items: seq<Json>, ms: seq<Member>)
    requires items == [Number([0x31]), Object([])] && ms == [Member([0x61], Array(items)), Member([0x62], Array([]))]
    ensures Write(Object(ms)) == Ascii("{\"a\":[1,{}],\"b\":[]}")
  {
    assert items[1..] == [Object([])] && [Object([])][1..] == [];
    assert Write(Object([])) == [0x7B] + ([] + [0x7D]) == [0x7B, 0x7D];
    assert WriteItems([Object([])]) == Write(Object([])) + [] == [0x7B, 0x7D];
    assert WriteItems(items) == [0x31] + ([0x2C] + [0x7B, 0x7D]) == [0x31, 0x2C, 0x7B, 0x7D];
    assert Write(Array(items)) == [0x5B] + ([0x31, 0x2C, 0x7B, 0x7D] + [0x5D]) == [0x5B, 0x31, 0x2C, 0x7B, 0x7D, 0x5D];
    assert Write(Array([])) == [0x5B] + ([] + [0x5D]) == [0x5B, 0x5D];
    MembersText(ms);
  }

  lemma MembersText(ms: seq<Member>)
    requires |ms| == 2 && ms[0].key == [0x61] && ms[1].key == [0x62]
    requires Write(ms[0].value) == [0x5B, 0x31, 0x2C, 0x7B, 0x7D, 0x5D] && Write(ms[1].value) == [0x5B, 0x5D]
    ensures Write(Object(ms)) == Ascii("{\"a\":[1,{}],\"b\":[]}")
  {
    hide WriteString;
    Quoted(0x61);
    Quoted(0x62);
    var a := WriteMember(ms[0]);
    var b := WriteMember(ms[1]);
    assert a == [0x22, 0x61, 0x22] + ([0x3A] + [0x5B, 0x31, 0x2C, 0x7B, 0x7D, 0x5D]);
    assert b == [0x22, 0x62, 0x22] + ([0x3A] + [0x5B, 0x5D]);
    assert WriteMembers(ms[1..]) == b;
    assert WriteMembers(ms) == a + ([0x2C] + b);
    assert Write(Object(ms)) == [0x7B] + (a + ([0x2C] + b) + [0x7D]);
  }

  lemma Quoted(c: int)
    requires 0x61 <= c <= 0x62
    ensures WriteString([c]) == [0x22, c, 0x22]
  {
    assert [c][1..] == [] && WriteChars([c]) == [c] + [] == [c];
  }

  lemma OneIsNumber()
    ensures IsNumber([0x31])
  {
    var n := NumParts(false, [0x31], None, None);
    assert NumOk(n) && NumText(n) == [0x31];
  }

  //
  // The writer
  //

  /** A string of one character: seven characters and no more are written with a letter, the other
      control characters with four digits in lower case, and all others as they are. */
  lemma WrittenCharacter(c: int)
    requires 0 <= c
    ensures var text := Write(String([c]));
            var meanings := [0x22, 0x5C, 0x08, 0x0C, 0x0A, 0x0D, 0x09];
            var digits := Ascii("0123456789abcdef");
            && (forall k :: 0 <= k < 7 && meanings[k] == c ==>
                  text == Ascii("\"\\") + [Ascii("\"\\bfnrt")[k]] + Ascii("\""))
            && (c !in meanings && c < 0x20 ==>
                  text == Ascii("\"\\u00") + [digits[c / 16], digits[c % 16]] + Ascii("\""))
            && (c !in meanings && c >= 0x20 ==> text == Ascii("\"") + [c] + Ascii("\""))
  {
    assert [c][1..] == [] && WriteChars([c]) == WriteChar(c) + [] == WriteChar(c);
    assert Ascii("\"\\bfnrt") == [0x22, 0x5C, 0x62, 0x66, 0x6E, 0x72, 0x74];
    if 0 <= c < 0x20 {
      assert c / 16 < 2 && c % 16 < 16;
      HexDigitText(c / 16);
      HexDigitText(c % 16);
    }
  }

  lemma HexDigitText(n: nat)
    requires n < 16
    ensures HexDigit(n) == Ascii("0123456789abcdef")[n]
  {
    var digits := Ascii("0123456789abcdef");
    assert forall k :: 0 <= k < 10 ==> digits[k] == 0x30 + k;
    assert forall k :: 10 <= k < 16 ==> digits[k] == 0x61 + k - 10;
  }

  //
  // Encodings
  //

  /** The examples of RFC 3629 section 7 and RFC 2781 section 3, one of each length. */
  lemma EncodedExamples()
    ensures EncAll(Utf8, [0x41, 0x2262, 0x0391, 0x233B4]) ==
              [0x41, 0xE2, 0x89, 0xA2, 0xCE, 0x91, 0xF0, 0xA3, 0x8E, 0xB4]
    ensures EncAll(Utf16, [0x12345]) == [0xD808, 0xDF45]
  {
    var cs := [0x41, 0x2262, 0x0391, 0x233B4];
    assert cs[1..] == [0x2262, 0x0391, 0x233B4] && cs[1..][1..] == [0x0391, 0x233B4];
    assert cs[1..][1..][1..] == [0x233B4] && [0x233B4][1..] == [];
    assert EncAll(Utf8, [0x233B4]) == [0xF0, 0xA3, 0x8E, 0xB4];
    assert EncAll(Utf8, [0x0391, 0x233B4]) == [0xCE, 0x91] + [0xF0, 0xA3, 0x8E, 0xB4];
    EncAllOne(Utf16, 0x12345);
  }
}
