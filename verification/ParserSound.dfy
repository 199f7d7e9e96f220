/** The parsers are sound: what they accept is derivable in the grammar, and they answer with what
    the derivation denotes. */
module ParserSound {
  import opened Encoding
  import opened Json
  import opened Grammar
  import opened ParserSpec

  /** What the text from `i` on is: well-formed, and then its characters are scalar values
      (`g` is `Chars`); or, for Java, any 16-bit units (`g` is `Utf16`). */
  predicate Sane(g: Form, f: Form, u: seq<int>, i: nat)
    requires i <= |u|
  {
    if g == Utf16 then f == Utf16 && forall k :: i <= k < |u| ==> 0 <= u[k] < 0x1_0000
    else g == Chars && ValidFrom(f, u, i)
  }

  /** The two cases of `g`. */
  predicate Cases(g: Form, f: Form) { g == Chars || (g == Utf16 && f == Utf16) }

  lemma {:induction false} AsciiRun(g: Form, f: Form, u: seq<int>, i: nat, j: nat)
    requires i <= j <= |u| && Sane(g, f, u, i)
    requires forall k :: i <= k < j ==> 0 <= u[k] < 0x80
    ensures Sane(g, f, u, j)
    decreases j - i
  {
    if i < j && g == Chars {
      assert DecodeOne(f, u, i) == Some((u[i], 1));
      AsciiRun(g, f, u, i + 1, j);
    }
  }

  lemma {:induction false} WsSound(g: Form, f: Form, u: seq<int>, i: nat) returns (w: seq<int>)
    requires i <= |u| && Sane(g, f, u, i)
    ensures IsWsText(w) && At(u, i, w) && Ws(u, i) == i + |w| && Sane(g, f, u, i + |w|)
    ensures i + |w| < |u| ==> !IsWs(u[i + |w|])
    decreases |u| - i
  {
    if i < |u| && IsWs(u[i]) {
      AsciiRun(g, f, u, i, i + 1);
      var rest := WsSound(g, f, u, i + 1);
      w := [u[i]] + rest;
      AtUnit(u, i, u[i]);
      AtCat(u, i, [u[i]], rest);
    } else {
      w := [];
    }
  }

  lemma {:induction false} DigitsSound(u: seq<int>, i: nat)
    requires i <= |u|
    ensures AllDigits(u[i..Digits(u, i)])
    ensures forall k :: i <= k < Digits(u, i) ==> IsDigit(u[k])
    decreases |u| - i
  {
    if i < |u| && IsDigit(u[i]) {
      DigitsSound(u, i + 1);
      assert u[i..Digits(u, i)] == [u[i]] + u[i + 1..Digits(u, i)];
    }
  }

  lemma IntSound(u: seq<int>, i: nat)
    requires i <= |u| && IntEnd(u, i).Some?
    ensures var d := u[i..IntEnd(u, i).value]; |d| > 0 && AllDigits(d) && (d[0] == ZERO ==> |d| == 1)
  {
    if u[i] != ZERO {
      DigitsSound(u, i);
    }
  }

  lemma FracSound(u: seq<int>, i: nat) returns (frac: Option<seq<int>>)
    requires i <= |u| && FracEnd(u, i).Some?
    ensures frac.Some? ==> |frac.value| > 0 && AllDigits(frac.value)
    ensures u[i..FracEnd(u, i).value] == FracText(frac)
  {
    if i < |u| && u[i] == DOT {
      DigitsSound(u, i + 1);
      frac := Some(u[i + 1..Digits(u, i + 1)]);
    } else {
      frac := None;
    }
  }

  lemma ExpSound(u: seq<int>, i: nat) returns (exp: Option<Exp>)
    requires i <= |u| && ExpEnd(u, i).Some?
    ensures exp.Some? ==>
              var x := exp.value;
              IsExp(x.e) && (x.sign.Some? ==> IsSign(x.sign.value)) && |x.digits| > 0 && AllDigits(x.digits)
    ensures u[i..ExpEnd(u, i).value] == ExpText(exp)
  {
    if i < |u| && IsExp(u[i]) {
      var signed := i + 1 < |u| && IsSign(u[i + 1]);
      var k := if signed then i + 2 else i + 1;
      DigitsSound(u, k);
      exp := Some(Exp(u[i], if signed then Some(u[i + 1]) else None, u[k..Digits(u, k)]));
      assert u[i..k] == [u[i]] + (if signed then [u[i + 1]] else []);
      assert u[i..ExpEnd(u, i).value] == u[i..k] + u[k..Digits(u, k)];
    } else {
      exp := None;
    }
  }

  lemma NumSound(u: seq<int>, i: nat) returns (n: NumParts)
    requires i <= |u| && NumberAt(u, i).Ok?
    ensures NumOk(n) && NumText(n) == NumberAt(u, i).value
  {
    hide IntEnd, FracEnd, ExpEnd, Digits;
    var s := if i < |u| && u[i] == MINUS then i + 1 else i;
    var j := IntEnd(u, s).value;
    var k := FracEnd(u, j).value;
    var m := ExpEnd(u, k).value;
    IntSound(u, s);
    var frac := FracSound(u, j);
    var exp := ExpSound(u, k);
    n := NumParts(s == i + 1, u[s..j], frac, exp);
    NumJoin(u, i, s, j, k, m);
  }

  lemma NumJoin(u: seq<int>, i: nat, s: nat, j: nat, k: nat, m: nat)
    requires i <= s <= j <= k <= m <= |u| && (s == i || (s == i + 1 && u[i] == MINUS))
    ensures u[i..m] == (if s == i + 1 then [MINUS] else []) + (u[s..j] + (u[j..k] + u[k..m]))
  {
    assert u[j..m] == u[j..k] + u[k..m];
    assert u[s..m] == u[s..j] + u[j..m];
    assert u[i..m] == u[i..s] + u[s..m];
  }

  ghost predicate IsAsciiText(t: seq<int>) { forall c :: c in t ==> 0x20 <= c < 0x80 }

  lemma AsciiCat(a: seq<int>, b: seq<int>)
    requires IsAsciiText(a) && IsAsciiText(b)
    ensures IsAsciiText(a + b)
  {
  }

  lemma DigitsAscii(d: seq<int>)
    requires AllDigits(d)
    ensures IsAsciiText(d)
  {
  }

  lemma NumAscii(n: NumParts)
    requires NumOk(n)
    ensures IsAsciiText(NumText(n))
  {
    DigitsAscii(n.int_);
    if n.frac.Some? {
      DigitsAscii(n.frac.value);
      AsciiCat([DOT], n.frac.value);
    }
    if n.exp.Some? {
      var x := n.exp.value;
      var sign := if x.sign.None? then [] else [x.sign.value];
      DigitsAscii(x.digits);
      AsciiCat(sign, x.digits);
      AsciiCat([x.e], sign + x.digits);
    }
    hide IsAsciiText;
    AsciiCat(FracText(n.frac), ExpText(n.exp));
    AsciiCat(n.int_, FracText(n.frac) + ExpText(n.exp));
    AsciiMinus();
    AsciiCat(if n.minus then [MINUS] else [], n.int_ + (FracText(n.frac) + ExpText(n.exp)));
  }

  lemma AsciiMinus()
    ensures IsAsciiText([MINUS]) && IsAsciiText([])
  {
  }

  lemma HexSound(u: seq<int>, i: nat)
    requires Hex4(u, i).Some?
    ensures ItemOk(Chars, Hex(u[i..i + 4])) && HexCode(u[i..i + 4]) == Hex4(u, i).value
    ensures forall k :: i <= k < i + 4 ==> 0 <= u[k] < 0x80
  {
    var d := u[i..i + 4];
    assert d[0] == u[i] && d[1] == u[i + 1] && d[2] == u[i + 2] && d[3] == u[i + 3];
  }

  /** What one item in front adds to the text and to the value. */
  lemma ConsItem(g: Form, f: Form, x: Item, xs: seq<Item>)
    requires Cases(g, f)
    requires ItemOk(g, x) && ItemsOk(g, xs) && ItemsOk(f, xs)
    ensures ItemsOk(g, [x] + xs) && ItemsOk(f, [x] + xs)
    ensures ItemsUnits(f, [x] + xs) == ItemUnits(f, x) + ItemsUnits(f, xs)
    ensures x.Raw? ==> StrValue(f, [x] + xs) == Prepend(if f == Utf16 then Enc(Utf16, x.c) else [x.c], StrValue(f, xs))
    ensures x.Short? ==> StrValue(f, [x] + xs) == Prepend([ShortEscape(x.e).value], StrValue(f, xs))
    ensures x.Hex? && (f == Utf16 || !IsSurrogate(HexCode(x.digits))) ==>
              StrValue(f, [x] + xs) == Prepend([HexCode(x.digits)], StrValue(f, xs))
  {
    hide Enc, HexValue, HexCode;
    assert ([x] + xs)[0] == x && ([x] + xs)[1..] == xs;
  }

  lemma ConsPair(g: Form, f: Form, x: Item, y: Item, xs: seq<Item>)
    requires g == Chars && f != Utf16 && IsHexWith(x, true) && IsHexWith(y, false) && ItemsOk(g, xs) && ItemsOk(f, xs)
    ensures ItemsOk(g, [x, y] + xs) && ItemsOk(f, [x, y] + xs)
    ensures ItemsUnits(f, [x, y] + xs) == ItemUnits(f, x) + (ItemUnits(f, y) + ItemsUnits(f, xs))
    ensures StrValue(f, [x, y] + xs) == Prepend([Combine(HexCode(x.digits), HexCode(y.digits))], StrValue(f, xs))
  {
    hide HexValue, HexCode, Combine;
    ConsItem(g, f, y, xs);
    ConsItem(g, f, x, [y] + xs);
    assert [x] + ([y] + xs) == [x, y] + xs;
    assert ([x, y] + xs)[0] == x && ([x, y] + xs)[1] == y && ([x, y] + xs)[2..] == xs;
  }

  ghost predicate SoundItems(g: Form, f: Form, u: seq<int>, i: nat, xs: seq<Item>) {
    Cases(g, f) && ItemsOk(g, xs) && ItemsOk(f, xs) && At(u, i, ItemsUnits(f, xs) + [QUOTE])
  }

  lemma AtPrefix(u: seq<int>, i: nat, a: seq<int>, b: seq<int>, c: seq<int>)
    requires At(u, i, a) && At(u, i + |a|, b + c)
    ensures At(u, i, (a + b) + c)
  {
    AtCat(u, i, a, b + c);
    assert a + (b + c) == (a + b) + c;
  }

  /** One item in front of the items after it. */
  lemma InFront(g: Form, f: Form, u: seq<int>, i: nat, x: Item, tail: seq<Item>)
    requires ItemOk(g, x) && At(u, i, ItemUnits(f, x)) && SoundItems(g, f, u, i + |ItemUnits(f, x)|, tail)
    ensures var xs := [x] + tail;
            && SoundItems(g, f, u, i, xs) && |ItemsUnits(f, xs)| == |ItemUnits(f, x)| + |ItemsUnits(f, tail)|
            && (x.Raw? ==> StrValue(f, xs) == Prepend(if f == Utf16 then Enc(Utf16, x.c) else [x.c], StrValue(f, tail)))
            && (x.Short? ==> StrValue(f, xs) == Prepend([ShortEscape(x.e).value], StrValue(f, tail)))
            && (x.Hex? && (f == Utf16 || !IsSurrogate(HexCode(x.digits))) ==>
                  StrValue(f, xs) == Prepend([HexCode(x.digits)], StrValue(f, tail)))
  {
    hide At, Enc, ItemUnits, ItemsUnits, StrValue, HexValue, HexCode;
    ConsItem(g, f, x, tail);
    AtPrefix(u, i, ItemUnits(f, x), ItemsUnits(f, tail), [QUOTE]);
  }

  lemma PairInFront(g: Form, f: Form, u: seq<int>, i: nat, x: Item, y: Item, tail: seq<Item>)
    requires g == Chars && f != Utf16 && IsHexWith(x, true) && IsHexWith(y, false)
    requires At(u, i, ItemUnits(f, x)) && At(u, i + 6, ItemUnits(f, y)) && SoundItems(g, f, u, i + 12, tail)
    ensures var xs := [x, y] + tail;
            && SoundItems(g, f, u, i, xs) && |ItemsUnits(f, xs)| == 12 + |ItemsUnits(f, tail)|
            && StrValue(f, xs) == Prepend([Combine(HexCode(x.digits), HexCode(y.digits))], StrValue(f, tail))
  {
    hide At, Combine, ItemsUnits, StrValue, HexCode, HexValue;
    ConsPair(g, f, x, y, tail);
    AtPrefix(u, i + 6, ItemUnits(f, y), ItemsUnits(f, tail), [QUOTE]);
    AtPrefix(u, i, ItemUnits(f, x), ItemUnits(f, y) + ItemsUnits(f, tail), [QUOTE]);
  }

  /** The items of one escape, in front of the items after it. */
  lemma EscapeSound(g: Form, f: Form, u: seq<int>, i: nat, tail: seq<Item>) returns (xs: seq<Item>)
    requires i < |u| && u[i] == BACKSLASH && Escape(f, u, i + 1).Ok?
    requires SoundItems(g, f, u, Escape(f, u, i + 1).next, tail)
    ensures var e := Escape(f, u, i + 1);
            && SoundItems(g, f, u, i, xs) && |ItemsUnits(f, xs)| == e.next - i + |ItemsUnits(f, tail)|
            && StrValue(f, xs) == Prepend(e.value, StrValue(f, tail))
  {
    hide At, Combine, ItemsUnits, StrValue, Hex4, HexCode, HexValue, SoundItems;
    var e := Escape(f, u, i + 1);
    if ShortEscape(u[i + 1]).Some? {
      TwoUnits(u, i, BACKSLASH, u[i + 1]);
      xs := [Short(u[i + 1])] + tail;
      InFront(g, f, u, i, Short(u[i + 1]), tail);
    } else {
      var x := HexItem(f, u, i);
      if f == Utf16 || !IsSurrogate(HexCode(x.digits)) {
        xs := [x] + tail;
        InFront(g, f, u, i, x, tail);
      } else {
        var y := HexItem(f, u, i + 6);
        xs := [x, y] + tail;
        assert g == Chars by { SoundCases(g, f, u, e.next, tail); }
        PairInFront(g, f, u, i, x, y, tail);
      }
    }
  }

  lemma SoundCases(g: Form, f: Form, u: seq<int>, i: nat, xs: seq<Item>)
    requires SoundItems(g, f, u, i, xs)
    ensures Cases(g, f)
  {
  }

  lemma HexItem(f: Form, u: seq<int>, i: nat) returns (x: Item)
    requires i + 2 <= |u| && u[i] == BACKSLASH && u[i + 1] == LETTER_U && Hex4(u, i + 2).Some?
    ensures x.Hex? && ItemOk(Chars, x) && At(u, i, ItemUnits(f, x)) && |ItemUnits(f, x)| == 6
    ensures HexCode(x.digits) == Hex4(u, i + 2).value
  {
    HexSound(u, i + 2);
    var d := u[i + 2..i + 6];
    x := Hex(d);
    TwoUnits(u, i, BACKSLASH, LETTER_U);
    AtCat(u, i, [BACKSLASH, LETTER_U], d);
  }

  lemma EscapeAscii(g: Form, f: Form, u: seq<int>, i: nat)
    requires i < |u| && u[i] == BACKSLASH && Sane(g, f, u, i) && Escape(f, u, i + 1).Ok?
    ensures Sane(g, f, u, Escape(f, u, i + 1).next)
  {
    hide HexCode;
    if !ShortEscape(u[i + 1]).Some? {
      HexSound(u, i + 2);
      if Escape(f, u, i + 1).next == i + 12 {
        HexSound(u, i + 8);
      }
    }
    AsciiRun(g, f, u, i, Escape(f, u, i + 1).next);
  }

  /** One unescaped character, and how the string loop passes over it. */
  lemma RawSound(g: Form, f: Form, u: seq<int>, i: nat, acc: seq<int>) returns (c: int)
    requires i < |u| && Sane(g, f, u, i) && StrTail(f, u, i, acc).Ok?
    requires u[i] != QUOTE && u[i] != BACKSLASH
    ensures ItemOk(g, Raw(c)) && At(u, i, Enc(f, c)) && |Enc(f, c)| > 0 && Sane(g, f, u, i + |Enc(f, c)|)
    ensures StrTail(f, u, i, acc) ==
              StrTail(f, u, i + |Enc(f, c)|, acc + if f == Utf16 then Enc(Utf16, c) else [c])
  {
    if g == Utf16 {
      AtUnit(u, i, u[i]);
      return u[i];
    }
    hide Enc;
    c := DecodeOne(f, u, i).value.0;
    EncDecode(f, u, i);
    if f == Utf16 {
      Utf16Tail(u, i, c, acc);
    }
  }

  /** Java's string loop passes over a character unit by unit. */
  lemma Utf16Tail(u: seq<int>, i: nat, c: int, acc: seq<int>)
    requires i < |u| && u[i] != QUOTE && u[i] != BACKSLASH && StrTail(Utf16, u, i, acc).Ok?
    requires IsScalar(c) && DecodeOne(Utf16, u, i) == Some((c, |Enc(Utf16, c)|))
    ensures StrTail(Utf16, u, i, acc) == StrTail(Utf16, u, i + |Enc(Utf16, c)|, acc + Enc(Utf16, c))
  {
    if |Enc(Utf16, c)| == 2 {
      var a := acc + [u[i]];
      SurrogatePairs(u[i], u[i + 1], c);
      assert StrTail(Utf16, u, i, acc) == StrTail(Utf16, u, i + 1, a);
      assert StrTail(Utf16, u, i + 1, a) == StrTail(Utf16, u, i + 2, a + [u[i + 1]]);
      assert a + [u[i + 1]] == acc + [u[i], u[i + 1]];
    }
  }

  lemma {:induction false} StrSound(g: Form, f: Form, u: seq<int>, i: nat, acc: seq<int>) returns (xs: seq<Item>)
    requires i <= |u| && Sane(g, f, u, i) && StrTail(f, u, i, acc).Ok?
    ensures SoundItems(g, f, u, i, xs)
    ensures var r := StrTail(f, u, i, acc);
            && r.next == i + |ItemsUnits(f, xs)| + 1 && Sane(g, f, u, r.next)
            && StrValue(f, xs).Some? && r.value == acc + StrValue(f, xs).value
    decreases |u| - i
  {
    hide At, Sane, Enc, DecodeOne, Escape, ItemsUnits, StrValue;
    if u[i] == QUOTE {
      xs := [];
      EmptyItems(f);
      assert [] + [QUOTE] == [QUOTE] && acc + [] == acc;
      AtUnit(u, i, QUOTE);
      AsciiQuote(g, f, u, i);
    } else if u[i] == BACKSLASH {
      EscapeAscii(g, f, u, i);
      var e := Escape(f, u, i + 1);
      var tail := StrSound(g, f, u, e.next, acc + e.value);
      xs := EscapeSound(g, f, u, i, tail);
      assert acc + e.value + StrValue(f, tail).value == acc + (e.value + StrValue(f, tail).value);
    } else {
      var c := RawSound(g, f, u, i, acc);
      var piece := if f == Utf16 then Enc(Utf16, c) else [c];
      var tail := StrSound(g, f, u, i + |Enc(f, c)|, acc + piece);
      xs := [Raw(c)] + tail;
      InFront(g, f, u, i, Raw(c), tail);
      assert acc + piece + StrValue(f, tail).value == acc + (piece + StrValue(f, tail).value);
    }
  }

  lemma AsciiQuote(g: Form, f: Form, u: seq<int>, i: nat)
    requires i < |u| && 0 <= u[i] < 0x80 && Sane(g, f, u, i)
    ensures Sane(g, f, u, i + 1)
  {
    AsciiRun(g, f, u, i, i + 1);
  }

  lemma EmptyItems(f: Form)
    ensures ItemsUnits(f, []) == [] && StrValue(f, []) == Some([])
  {
  }

  lemma StrSoundAt(g: Form, f: Form, u: seq<int>, i: nat) returns (xs: seq<Item>)
    requires i <= |u| && Sane(g, f, u, i) && StrAt(f, u, i).Ok?
    ensures ItemsOk(g, xs) && ItemsOk(f, xs)
    ensures var r := StrAt(f, u, i);
            && At(u, i, StrUnits(f, xs)) && r.next == i + |StrUnits(f, xs)|
            && Sane(g, f, u, r.next) && StrValue(f, xs) == Some(r.value)
  {
    hide At, StrTail, ItemsUnits, StrValue;
    AsciiQuote(g, f, u, i);
    xs := StrSound(g, f, u, i + 1, []);
    AtUnit(u, i, QUOTE);
    AtCat(u, i, [QUOTE], ItemsUnits(f, xs) + [QUOTE]);
    assert [] + StrValue(f, xs).value == StrValue(f, xs).value;
  }

  ghost predicate SoundTree(g: Form, f: Form, u: seq<int>, i: nat, r: Parsed<Json>, t: Tree) {
    && r.Ok? && TreeOk(g, t) && TreeOk(f, t) && At(u, i, Units(f, t)) && r.next == i + |Units(f, t)| <= |u|
    && Sane(g, f, u, r.next) && Denote(f, t) == Some(r.value)
  }

  lemma LiteralSound(g: Form, f: Form, u: seq<int>, i: nat, text: seq<int>)
    requires i + |text| <= |u| && Sane(g, f, u, i) && u[i..i + |text|] == text
    requires forall c :: c in text ==> 0 <= c < 0x80
    ensures At(u, i, text) && Sane(g, f, u, i + |text|)
  {
    forall k | i <= k < i + |text| ensures 0 <= u[k] < 0x80 {
      assert u[i..i + |text|][k - i] == u[k];
      assert text[k - i] in text;
    }
    AsciiRun(g, f, u, i, i + |text|);
  }

  lemma NumTokenSound(g: Form, f: Form, u: seq<int>, i: nat) returns (n: NumParts)
    requires i <= |u| && Sane(g, f, u, i) && NumberAt(u, i).Ok?
    ensures NumOk(n) && NumText(n) == NumberAt(u, i).value && At(u, i, NumText(n))
    ensures NumberAt(u, i).next == i + |NumText(n)| && Sane(g, f, u, i + |NumText(n)|)
  {
    hide At, Sane, NumOk;
    n := NumSound(u, i);
    NumAscii(n);
    LiteralSound(g, f, u, i, NumText(n));
  }

  lemma {:induction false} ValueSound(g: Form, f: Form, u: seq<int>, i: nat) returns (t: Tree)
    requires i <= |u| && Sane(g, f, u, i) && ValueAt(f, u, i).Ok?
    ensures SoundTree(g, f, u, i, ValueAt(f, u, i), t)
    decreases |u| - i, 0, 1
  {
    hide At, Sane, Ws, StrAt, NumberAt, ItemsAt, MembersAt, ItemsUnits, NumText, StrValue;
    var c := u[i];
    if c == LBRACE {
      t := ObjectSound(g, f, u, i);
    } else if c == LBRACKET {
      t := ArraySound(g, f, u, i);
    } else if c == QUOTE {
      var xs := StrSoundAt(g, f, u, i);
      t := StrTree(xs);
    } else if c == LETTER_T {
      t := BoolTree(true);
      LiteralSound(g, f, u, i, TRUE_TEXT);
    } else if c == LETTER_F {
      t := BoolTree(false);
      LiteralSound(g, f, u, i, FALSE_TEXT);
    } else if c == LETTER_N {
      t := NullTree;
      LiteralSound(g, f, u, i, NULL_TEXT);
    } else {
      var n := NumTokenSound(g, f, u, i);
      t := NumTree(n);
    }
  }

  lemma AtClosed(u: seq<int>, i: nat, open: int, w: seq<int>, close: int)
    requires At(u, i, [open]) && At(u, i + 1, w) && At(u, i + 1 + |w|, [close])
    ensures At(u, i, [open] + (w + [close]))
  {
    AtCat(u, i + 1, w, [close]);
    AtCat(u, i, [open], w + [close]);
  }

  lemma {:induction false} ArraySound(g: Form, f: Form, u: seq<int>, i: nat) returns (t: Tree)
    requires i < |u| && u[i] == LBRACKET && Sane(g, f, u, i) && ValueAt(f, u, i).Ok?
    ensures SoundTree(g, f, u, i, ValueAt(f, u, i), t)
    decreases |u| - i, 0, 0
  {
    hide At, Ws, StrAt, NumberAt, ItemsAt, MembersAt, ElemsUnits, ElemsOk, DenoteElems;
    AsciiQuote(g, f, u, i);
    AtUnit(u, i, LBRACKET);
    var pad := WsSound(g, f, u, i + 1);
    var j := i + 1 + |pad|;
    if j < |u| && u[j] == RBRACKET {
      t := EmptyArray(pad);
      AsciiQuote(g, f, u, j);
      AtUnit(u, j, RBRACKET);
      AtClosed(u, i, LBRACKET, pad, RBRACKET);
    } else {
      var es := ElemsSound(g, f, u, j, []);
      PadElems(g, f, pad, es);
      t := ArrayTree(es.(before := pad + es.before));
      AtCat(u, i + 1, pad, ElemsUnits(f, es));
      AtCat(u, i, [LBRACKET], pad + ElemsUnits(f, es));
      assert [] + DenoteElems(f, es).value == DenoteElems(f, es).value;
    }
  }

  lemma PadElems(g: Form, f: Form, pad: seq<int>, es: Elems)
    requires IsWsText(pad) && ElemsOk(g, es) && ElemsOk(f, es)
    ensures var es' := es.(before := pad + es.before);
            && ElemsOk(g, es') && ElemsOk(f, es') && DenoteElems(f, es') == DenoteElems(f, es)
            && ElemsUnits(f, es') == pad + ElemsUnits(f, es)
  {
    hide Units, TreeOk, Denote;
  }

  lemma {:induction false} ElemsSound(g: Form, f: Form, u: seq<int>, i: nat, acc: seq<Json>) returns (es: Elems)
    requires i <= |u| && Sane(g, f, u, i) && ItemsAt(f, u, i, acc).Ok?
    ensures ElemsOk(g, es) && ElemsOk(f, es)
    ensures var r := ItemsAt(f, u, i, acc);
            && At(u, i, ElemsUnits(f, es)) && r.next == i + |ElemsUnits(f, es)| && Sane(g, f, u, r.next)
            && DenoteElems(f, es).Some? && r.value == Json.Array(acc + DenoteElems(f, es).value)
    decreases |u| - i, 1
  {
    hide At, Sane, Ws, ValueAt, ItemsAt, Units, ElemsUnits, Denote, TreeOk;
    ItemsParts(f, u, i, acc);
    var before := WsSound(g, f, u, i);
    var t := ValueSound(g, f, u, i + |before|);
    var e := i + |before| + |Units(f, t)|;
    var v := ValueAt(f, u, i + |before|).value;
    var after := WsSound(g, f, u, e);
    var c := e + |after|;
    AsciiQuote(g, f, u, c);
    AtUnit(u, c, u[c]);
    if u[c] == RBRACKET {
      es := LastElem(before, t, after);
    } else {
      var rest := ElemsSound(g, f, u, c + 1, acc + [v]);
      es := MoreElems(before, t, after, rest);
      assert acc + [v] + DenoteElems(f, rest).value == acc + ([v] + DenoteElems(f, rest).value);
    }
    ElemsJoin(f, u, i, es);
  }

  lemma ElemsJoin(f: Form, u: seq<int>, i: nat, es: Elems)
    requires var e := i + |es.before| + |Units(f, es.value)|; var c := e + |es.after|;
             && At(u, i, es.before) && At(u, i + |es.before|, Units(f, es.value)) && At(u, e, es.after)
             && At(u, c, [if es.LastElem? then RBRACKET else COMMA])
             && (es.MoreElems? ==> At(u, c + 1, ElemsUnits(f, es.rest)))
    ensures At(u, i, ElemsUnits(f, es))
    ensures |ElemsUnits(f, es)| == |es.before| + |Units(f, es.value)| + |es.after| + 1
                                   + if es.LastElem? then 0 else |ElemsUnits(f, es.rest)|
  {
    hide At, Units;
    if es.LastElem? {
      JoinElem(u, i, es.before, Units(f, es.value), es.after, [RBRACKET]);
    } else {
      AtCat(u, i + |es.before| + |Units(f, es.value)| + |es.after|, [COMMA], ElemsUnits(f, es.rest));
      JoinElem(u, i, es.before, Units(f, es.value), es.after, [COMMA] + ElemsUnits(f, es.rest));
    }
  }

  lemma JoinElem(u: seq<int>, i: nat, a: seq<int>, b: seq<int>, c: seq<int>, d: seq<int>)
    requires At(u, i, a) && At(u, i + |a|, b) && At(u, i + |a| + |b|, c) && At(u, i + |a| + |b| + |c|, d)
    ensures At(u, i, a + (b + (c + d)))
  {
    AtCat(u, i + |a| + |b|, c, d);
    AtCat(u, i + |a|, b, c + d);
    AtCat(u, i, a, b + (c + d));
  }

  lemma {:induction false} ObjectSound(g: Form, f: Form, u: seq<int>, i: nat) returns (t: Tree)
    requires i < |u| && u[i] == LBRACE && Sane(g, f, u, i) && ValueAt(f, u, i).Ok?
    ensures SoundTree(g, f, u, i, ValueAt(f, u, i), t)
    decreases |u| - i, 0, 0
  {
    hide At, Ws, StrAt, NumberAt, ItemsAt, MembersAt, PairsUnits, PairsOk, DenotePairs;
    AsciiQuote(g, f, u, i);
    AtUnit(u, i, LBRACE);
    var pad := WsSound(g, f, u, i + 1);
    var j := i + 1 + |pad|;
    if j < |u| && u[j] == RBRACE {
      t := EmptyObject(pad);
      AsciiQuote(g, f, u, j);
      AtUnit(u, j, RBRACE);
      AtClosed(u, i, LBRACE, pad, RBRACE);
    } else {
      var ps := PairsSound(g, f, u, j, []);
      PadPairs(g, f, pad, ps);
      t := ObjectTree(ps.(pair := ps.pair.(before := pad + ps.pair.before)));
      AtCat(u, i + 1, pad, PairsUnits(f, ps));
      AtCat(u, i, [LBRACE], pad + PairsUnits(f, ps));
      assert [] + DenotePairs(f, ps).value == DenotePairs(f, ps).value;
    }
  }

  lemma PadPairs(g: Form, f: Form, pad: seq<int>, ps: Pairs)
    requires IsWsText(pad) && PairsOk(g, ps) && PairsOk(f, ps)
    ensures var ps' := ps.(pair := ps.pair.(before := pad + ps.pair.before));
            && PairsOk(g, ps') && PairsOk(f, ps') && DenotePairs(f, ps') == DenotePairs(f, ps)
            && PairsUnits(f, ps') == pad + PairsUnits(f, ps)
  {
    hide Units, StrUnits, TreeOk, Denote, StrValue, ItemOk;
    var p := ps.pair;
    var tail := StrUnits(f, p.key) + (p.mid + ([COLON] + (p.mid2 + (Units(f, p.value) + p.after))));
    assert PairUnits(f, p.(before := pad + p.before)) == (pad + p.before) + tail == pad + PairUnits(f, p);
    var close := if ps.LastPair? then [RBRACE] else [COMMA] + PairsUnits(f, ps.rest);
    assert (pad + PairUnits(f, p)) + close == pad + (PairUnits(f, p) + close);
  }

  /** A member up to its colon. */
  lemma PairHead(g: Form, f: Form, u: seq<int>, i: nat) returns (before: seq<int>, key: seq<Item>, mid: seq<int>)
    requires i <= |u| && Sane(g, f, u, i) && MemberAt(f, u, i).Ok?
    ensures IsWsText(before) && IsWsText(mid) && ItemsOk(g, key) && ItemsOk(f, key) && StrValue(f, key).Some?
    ensures var k := i + |before|; var m := k + |StrUnits(f, key)|; var c := m + |mid|;
            && At(u, i, before) && At(u, k, StrUnits(f, key)) && At(u, m, mid)
            && c < |u| && At(u, c, [COLON]) && Sane(g, f, u, c + 1)
            && var v := ValueAt(f, u, Ws(u, c + 1));
               v.Ok? && MemberAt(f, u, i) == Ok(Member(StrValue(f, key).value, v.value), v.next)
  {
    hide At, Sane, Ws, StrAt, ValueAt, MemberAt, StrUnits, StrValue, ItemsOk, IsWsText;
    MemberParts(f, u, i);
    before := WsSound(g, f, u, i);
    var k := i + |before|;
    key := StrSoundAt(g, f, u, k);
    var m := k + |StrUnits(f, key)|;
    mid := WsSound(g, f, u, m);
    var c := m + |mid|;
    AsciiQuote(g, f, u, c);
    AtUnit(u, c, COLON);
  }

  /** One member, up to the comma or brace after it. */
  lemma {:induction false} PairSound(g: Form, f: Form, u: seq<int>, i: nat, acc: seq<Member>) returns (p: Pair, x: nat)
    requires i <= |u| && Sane(g, f, u, i) && MembersAt(f, u, i, acc).Ok?
    ensures PairOk(g, p) && PairOk(f, p) && DenotePair(f, p).Some?
    ensures At(u, i, PairUnits(f, p)) && x == i + |PairUnits(f, p)| < |u| && i < x && Sane(g, f, u, x + 1)
    ensures var acc' := acc + [DenotePair(f, p).value];
            || (u[x] == RBRACE && MembersAt(f, u, i, acc) == Ok(Json.Object(acc'), x + 1))
            || (u[x] == COMMA && MembersAt(f, u, i, acc) == MembersAt(f, u, x + 1, acc'))
    decreases |u| - i, 1
  {
    hide At, Sane, Ws, StrAt, ValueAt, MemberAt, MembersAt, Units, StrUnits, PairUnits, Denote, StrValue, TreeOk, ItemsOk, IsWsText;
    MembersParts(f, u, i, acc);
    var before, key, mid := PairHead(g, f, u, i);
    var c := i + |before| + |StrUnits(f, key)| + |mid|;
    var mid2 := WsSound(g, f, u, c + 1);
    var s := c + 1 + |mid2|;
    var t := ValueSound(g, f, u, s);
    var e := s + |Units(f, t)|;
    var after := WsSound(g, f, u, e);
    x := e + |after|;
    AsciiQuote(g, f, u, x);
    p := Pair(before, key, mid, mid2, t, after);
    PairJoin(f, u, i, p);
  }

  lemma PairJoin(f: Form, u: seq<int>, i: nat, p: Pair)
    requires var k := i + |p.before|; var m := k + |StrUnits(f, p.key)|; var c := m + |p.mid|;
             var s := c + 1 + |p.mid2|; var e := s + |Units(f, p.value)|;
             && At(u, i, p.before) && At(u, k, StrUnits(f, p.key)) && At(u, m, p.mid) && At(u, c, [COLON])
             && At(u, c + 1, p.mid2) && At(u, s, Units(f, p.value)) && At(u, e, p.after)
    ensures At(u, i, PairUnits(f, p))
    ensures |PairUnits(f, p)| == |p.before| + |StrUnits(f, p.key)| + |p.mid| + 1 + |p.mid2|
                                 + |Units(f, p.value)| + |p.after|
  {
    hide At, Units, StrUnits;
    var k := i + |p.before|;
    var m := k + |StrUnits(f, p.key)|;
    var value := Units(f, p.value);
    AtCat(u, m + |p.mid| + 1 + |p.mid2|, value, p.after);
    JoinElem(u, m, p.mid, [COLON], p.mid2, value + p.after);
    AtCat(u, k, StrUnits(f, p.key), p.mid + ([COLON] + (p.mid2 + (value + p.after))));
    AtCat(u, i, p.before, StrUnits(f, p.key) + (p.mid + ([COLON] + (p.mid2 + (value + p.after)))));
  }

  lemma {:induction false} PairsSound(g: Form, f: Form, u: seq<int>, i: nat, acc: seq<Member>) returns (ps: Pairs)
    requires i <= |u| && Sane(g, f, u, i) && MembersAt(f, u, i, acc).Ok?
    ensures PairsOk(g, ps) && PairsOk(f, ps)
    ensures var r := MembersAt(f, u, i, acc);
            && At(u, i, PairsUnits(f, ps)) && r.next == i + |PairsUnits(f, ps)| && Sane(g, f, u, r.next)
            && DenotePairs(f, ps).Some? && r.value == Json.Object(acc + DenotePairs(f, ps).value)
    decreases |u| - i, 2
  {
    hide At, Ws, StrAt, ValueAt, MembersAt, Sane, PairUnits, DenotePair, PairOk;
    var p, x := PairSound(g, f, u, i, acc);
    var m := DenotePair(f, p).value;
    AtUnit(u, x, u[x]);
    if u[x] == RBRACE {
      ps := LastPair(p);
      AtCat(u, i, PairUnits(f, p), [RBRACE]);
    } else {
      var rest := PairsSound(g, f, u, x + 1, acc + [m]);
      ps := MorePairs(p, rest);
      AtCat(u, x, [COMMA], PairsUnits(f, rest));
      AtCat(u, i, PairUnits(f, p), [COMMA] + PairsUnits(f, rest));
      assert acc + [m] + DenotePairs(f, rest).value == acc + ([m] + DenotePairs(f, rest).value);
    }
  }

  /** Every accepted text is derivable, and the answer is what the derivation denotes. */
  lemma DocumentSound(g: Form, f: Form, u: seq<int>) returns (d: Doc)
    requires Sane(g, f, u, 0) && Document(f, u).Some?
    ensures DocOk(g, d) && DocOk(f, d) && DocUnits(f, d) == u && Denote(f, d.value) == Document(f, u)
  {
    hide At, Ws, ValueAt, Units, Denote, TreeOk;
    var before := WsSound(g, f, u, 0);
    var t := ValueSound(g, f, u, |before|);
    var after := WsSound(g, f, u, |before| + |Units(f, t)|);
    d := Doc(before, t, after);
    AtCat(u, |before|, Units(f, t), after);
    AtCat(u, 0, before, Units(f, t) + after);
    AtSlice(u, 0, DocUnits(f, d));
  }
}
