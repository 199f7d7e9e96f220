/** The two parsers against the grammar, and against each other. */
module JsonTheorems {
  import opened Encoding
  import opened Json
  import opened Grammar
  import opened ParserSpec
  import opened ParserComplete
  import opened ParserSound

  //
  // One derivation, three encodings of its text
  //

  lemma ItemEnc(f: Form, x: Item)
    requires ItemOk(Chars, x)
    ensures ItemUnits(f, x) == EncAll(f, ItemUnits(Chars, x)) && AllScalars(ItemUnits(Chars, x))
  {
    match x
    case Raw(c) => EncAllOne(f, c);
    case Short(e) => EncAscii(f, [BACKSLASH, e]);
    case Hex(d) =>
      assert forall k :: 0 <= k < 4 ==> HexValue(d[k]).Some?;
      EncAscii(f, [BACKSLASH, LETTER_U] + d);
  }

  lemma {:induction false} ItemsEnc(f: Form, xs: seq<Item>)
    requires ItemsOk(Chars, xs)
    ensures ItemsUnits(f, xs) == EncAll(f, ItemsUnits(Chars, xs)) && AllScalars(ItemsUnits(Chars, xs))
  {
    if xs != [] {
      ItemEnc(f, xs[0]);
      ItemsEnc(f, xs[1..]);
      EncAllCat(f, ItemUnits(Chars, xs[0]), ItemsUnits(Chars, xs[1..]));
    }
  }

  lemma StrEnc(f: Form, xs: seq<Item>)
    requires ItemsOk(Chars, xs)
    ensures StrUnits(f, xs) == EncAll(f, StrUnits(Chars, xs)) && AllScalars(StrUnits(Chars, xs))
  {
    ItemsEnc(f, xs);
    EncAscii(f, [QUOTE]);
    EncAllCat(f, ItemsUnits(Chars, xs), [QUOTE]);
    EncAllCat(f, [QUOTE], ItemsUnits(Chars, xs) + [QUOTE]);
  }

  lemma WsEnc(f: Form, w: seq<int>)
    requires IsWsText(w)
    ensures EncAll(f, w) == w && AllScalars(w)
  {
    EncAscii(f, w);
  }

  lemma {:induction false} TreeEnc(f: Form, t: Tree)
    requires TreeOk(Chars, t)
    ensures Units(f, t) == EncAll(f, Units(Chars, t)) && AllScalars(Units(Chars, t))
  {
    hide Enc, EncAll, AllScalars, NumText;
    match t
    case NullTree => AsciiEnc(f, NULL_TEXT);
    case BoolTree(b) => AsciiEnc(f, TRUE_TEXT); AsciiEnc(f, FALSE_TEXT);
    case NumTree(n) =>
      NumAscii(n);
      AsciiEnc(f, NumText(n));
    case StrTree(xs) => StrEnc(f, xs);
    case EmptyArray(w) => ClosedEnc(f, LBRACKET, w, RBRACKET);
    case ArrayTree(es) =>
      ElemsEnc(f, es);
      OpenEnc(f, LBRACKET, ElemsUnits(Chars, es));
    case EmptyObject(w) => ClosedEnc(f, LBRACE, w, RBRACE);
    case ObjectTree(ps) =>
      PairsEnc(f, ps);
      OpenEnc(f, LBRACE, PairsUnits(Chars, ps));
  }

  lemma AsciiEnc(f: Form, t: seq<int>)
    requires forall c :: c in t ==> 0 <= c < 0x80
    ensures EncAll(f, t) == t && AllScalars(t)
  {
    hide Enc;
    assert forall k :: 0 <= k < |t| ==> t[k] in t;
    EncAscii(f, t);
  }

  lemma OpenEnc(f: Form, open: int, rest: seq<int>)
    requires 0 <= open < 0x80 && AllScalars(rest)
    ensures EncAll(f, [open] + rest) == [open] + EncAll(f, rest) && AllScalars([open] + rest)
  {
    hide Enc;
    AsciiEnc(f, [open]);
    EncAllCat(f, [open], rest);
  }

  lemma ClosedEnc(f: Form, open: int, w: seq<int>, close: int)
    requires IsWsText(w) && 0 <= open < 0x80 && 0 <= close < 0x80
    ensures EncAll(f, [open] + (w + [close])) == [open] + (w + [close]) && AllScalars([open] + (w + [close]))
  {
    EncAscii(f, [open] + (w + [close]));
  }

  lemma {:induction false} ElemsEnc(f: Form, es: Elems)
    requires ElemsOk(Chars, es)
    ensures ElemsUnits(f, es) == EncAll(f, ElemsUnits(Chars, es)) && AllScalars(ElemsUnits(Chars, es))
  {
    hide Enc, EncAll, Units, TreeOk;
    TreeEnc(f, es.value);
    WsEnc(f, es.before);
    WsEnc(f, es.after);
    EncAscii(f, [if es.LastElem? then RBRACKET else COMMA]);
    var close := if es.LastElem? then [RBRACKET] else [COMMA] + ElemsUnits(Chars, es.rest);
    if es.MoreElems? {
      ElemsEnc(f, es.rest);
      EncAllCat(f, [COMMA], ElemsUnits(Chars, es.rest));
    }
    EncAllCat(f, es.after, close);
    EncAllCat(f, Units(Chars, es.value), es.after + close);
    EncAllCat(f, es.before, Units(Chars, es.value) + (es.after + close));
  }

  lemma {:induction false} PairEnc(f: Form, p: Pair)
    requires PairOk(Chars, p)
    ensures PairUnits(f, p) == EncAll(f, PairUnits(Chars, p)) && AllScalars(PairUnits(Chars, p))
  {
    hide Enc, EncAll, Units, StrUnits, TreeOk, ItemOk;
    TreeEnc(f, p.value);
    StrEnc(f, p.key);
    WsEnc(f, p.before);
    WsEnc(f, p.mid);
    WsEnc(f, p.mid2);
    WsEnc(f, p.after);
    EncAscii(f, [COLON]);
    var v := Units(Chars, p.value) + p.after;
    EncAllCat(f, Units(Chars, p.value), p.after);
    EncAllCat(f, p.mid2, v);
    EncAllCat(f, [COLON], p.mid2 + v);
    EncAllCat(f, p.mid, [COLON] + (p.mid2 + v));
    EncAllCat(f, StrUnits(Chars, p.key), p.mid + ([COLON] + (p.mid2 + v)));
    EncAllCat(f, p.before, StrUnits(Chars, p.key) + (p.mid + ([COLON] + (p.mid2 + v))));
  }

  lemma {:induction false} PairsEnc(f: Form, ps: Pairs)
    requires PairsOk(Chars, ps)
    ensures PairsUnits(f, ps) == EncAll(f, PairsUnits(Chars, ps)) && AllScalars(PairsUnits(Chars, ps))
  {
    hide Enc, EncAll, PairUnits, PairOk;
    PairEnc(f, ps.pair);
    EncAscii(f, [if ps.LastPair? then RBRACE else COMMA]);
    var close := if ps.LastPair? then [RBRACE] else [COMMA] + PairsUnits(Chars, ps.rest);
    if ps.MorePairs? {
      PairsEnc(f, ps.rest);
      EncAllCat(f, [COMMA], PairsUnits(Chars, ps.rest));
    }
    EncAllCat(f, PairUnits(Chars, ps.pair), close);
  }

  /** The units of a derivation's text are the encoding of its characters. */
  lemma DocEnc(f: Form, d: Doc)
    requires DocOk(Chars, d)
    ensures DocUnits(f, d) == EncAll(f, DocUnits(Chars, d)) && AllScalars(DocUnits(Chars, d))
  {
    hide Enc, EncAll, Units, TreeOk;
    TreeEnc(f, d.value);
    WsEnc(f, d.before);
    WsEnc(f, d.after);
    EncAllCat(f, Units(Chars, d.value), d.after);
    EncAllCat(f, d.before, Units(Chars, d.value) + d.after);
  }

  /** A tree of scalar values is a tree of every form. */
  lemma {:induction false} TreeOkAll(f: Form, g: Form, t: Tree)
    requires TreeOk(f, t) && f != Utf16
    ensures TreeOk(g, t)
  {
    match t
    case ArrayTree(es) => ElemsOkAll(f, g, es);
    case ObjectTree(ps) => PairsOkAll(f, g, ps);
    case _ =>
  }

  lemma {:induction false} ElemsOkAll(f: Form, g: Form, es: Elems)
    requires ElemsOk(f, es) && f != Utf16
    ensures ElemsOk(g, es)
  {
    TreeOkAll(f, g, es.value);
    if es.MoreElems? {
      ElemsOkAll(f, g, es.rest);
    }
  }

  lemma {:induction false} PairsOkAll(f: Form, g: Form, ps: Pairs)
    requires PairsOk(f, ps) && f != Utf16
    ensures PairsOk(g, ps)
  {
    TreeOkAll(f, g, ps.pair.value);
    if ps.MorePairs? {
      PairsOkAll(f, g, ps.rest);
    }
  }

  //
  // From Java's trees to Rust's
  //

  /** The same tree with each string of 16-bit units decoded; none if a string has a lone surrogate. */
  function FromUtf16(v: Json): Option<Json> {
    match v
    case String(s) => (match DecodeAll(Utf16, s, 0) case None => None case Some(t) => Some(String(t)))
    case Array(items) => (match FromUtf16Items(items) case None => None case Some(vs) => Some(Array(vs)))
    case Object(ms) => (match FromUtf16Members(ms) case None => None case Some(ns) => Some(Object(ns)))
    case _ => Some(v)
  }

  function FromUtf16Items(items: seq<Json>): Option<seq<Json>> {
    if items == [] then Some([])
    else match FromUtf16(items[0])
      case None => None
      case Some(v) => Prepend([v], FromUtf16Items(items[1..]))
  }

  function FromUtf16Members(ms: seq<Member>): Option<seq<Member>> {
    if ms == [] then Some([])
    else match DecodeAll(Utf16, ms[0].key, 0)
      case None => None
      case Some(key) =>
        match FromUtf16(ms[0].value)
        case None => None
        case Some(v) => Prepend([Member(key, v)], FromUtf16Members(ms[1..]))
  }

  lemma {:induction false} DecodeShift(a: seq<int>, b: seq<int>, i: nat)
    requires i <= |b|
    ensures DecodeAll(Utf16, a + b, |a| + i) == DecodeAll(Utf16, b, i)
    decreases |b| - i
  {
    if i < |b| {
      assert DecodeOne(Utf16, a + b, |a| + i) == DecodeOne(Utf16, b, i);
      if DecodeOne(Utf16, b, i).Some? {
        DecodeShift(a, b, i + DecodeOne(Utf16, b, i).value.1);
      }
    }
  }

  lemma DecodeCons(c: int, rest: seq<int>)
    requires IsScalar(c)
    ensures DecodeAll(Utf16, Enc(Utf16, c) + rest, 0) == Prepend([c], DecodeAll(Utf16, rest, 0))
  {
    var u := Enc(Utf16, c) + rest;
    AtSelf(u);
    AtCat(u, 0, Enc(Utf16, c), rest);
    DecodeEnc(Utf16, u, 0, c);
    DecodeShift(Enc(Utf16, c), rest, 0);
  }

  /** The first unit is a low surrogate only if the first item is an escape of one. */
  lemma FirstUnit(xs: seq<Item>)
    requires ItemsOk(Chars, xs) && ItemsOk(Utf16, xs)
    ensures StrValue(Utf16, xs).Some?
    ensures var s := StrValue(Utf16, xs).value;
            |s| > 0 && IsLow(s[0]) <==> |xs| > 0 && IsHexWith(xs[0], false)
    decreases |xs|
  {
    if xs != [] {
      FirstUnit(xs[1..]);
      var tail := StrValue(Utf16, xs[1..]).value;
      match xs[0]
      case Raw(c) => assert (Enc(Utf16, c) + tail)[0] == Enc(Utf16, c)[0];
      case Short(e) =>
      case Hex(d) => assert ItemOk(Chars, xs[0]);
    }
  }

  /** Rust's string is Java's, decoded: it exists exactly when Java's is well-formed UTF-16. */
  lemma {:induction false} StrValues(xs: seq<Item>)
    requires ItemsOk(Chars, xs) && ItemsOk(Utf16, xs) && ItemsOk(Utf8, xs)
    ensures StrValue(Utf16, xs).Some?
    ensures DecodeAll(Utf16, StrValue(Utf16, xs).value, 0) == StrValue(Utf8, xs)
    decreases |xs|
  {
    hide Enc, DecodeAll, HexValue, HexCode, ShortEscape;
    if xs == [] {
      assert DecodeAll(Utf16, [], 0) == Some([]) by { EmptyDecode(); }
    } else {
      FirstUnit(xs[1..]);
      StrValues(xs[1..]);
      var rest := StrValue(Utf16, xs[1..]).value;
      match xs[0]
      case Raw(c) => DecodeCons(c, rest);
      case Short(e) => ShortCons(e, rest);
      case Hex(d) =>
        if !IsSurrogate(HexCode(d)) {
          UnitCons(HexCode(d), rest);
          HexRange(d);
        } else if IsHexWith(xs[0], true) && |xs| > 1 && IsHexWith(xs[1], false) {
          var ys := xs[2..];
          assert xs[1..][1..] == ys && xs[1..][0] == xs[1];
          StrValues(ys);
          PairCons(HexCode(d), HexCode(xs[1].digits), StrValue(Utf16, ys).value);
        } else {
          LoneUnit(HexCode(d), rest);
          assert IsHexWith(xs[0], IsHigh(HexCode(d)));
        }
    }
  }

  lemma EmptyDecode()
    ensures DecodeAll(Utf16, [], 0) == Some([])
  {
  }

  lemma HexRange(d: seq<int>)
    requires ItemOk(Chars, Hex(d))
    ensures 0 <= HexCode(d) < 0x10000
  {
    assert HexValue(d[0]).Some? && HexValue(d[1]).Some? && HexValue(d[2]).Some? && HexValue(d[3]).Some?;
  }

  lemma ShortCons(e: int, rest: seq<int>)
    requires ShortEscape(e).Some?
    ensures var x := ShortEscape(e).value;
            DecodeAll(Utf16, [x] + rest, 0) == Prepend([x], DecodeAll(Utf16, rest, 0))
  {
    DecodeCons(ShortEscape(e).value, rest);
  }

  lemma UnitCons(x: int, rest: seq<int>)
    ensures 0 <= x < 0x10000 && !IsSurrogate(x) ==>
              DecodeAll(Utf16, [x] + rest, 0) == Prepend([x], DecodeAll(Utf16, rest, 0))
  {
    if 0 <= x < 0x10000 && !IsSurrogate(x) {
      DecodeCons(x, rest);
    }
  }

  lemma PairCons(h: int, l: int, rest: seq<int>)
    requires IsHigh(h) && IsLow(l)
    ensures DecodeAll(Utf16, [h] + ([l] + rest), 0) == Prepend([Combine(h, l)], DecodeAll(Utf16, rest, 0))
  {
    SurrogatePairs(h, l, 0);
    DecodeCons(Combine(h, l), rest);
    assert [h] + ([l] + rest) == [h, l] + rest;
  }

  lemma LoneUnit(x: int, rest: seq<int>)
    requires IsSurrogate(x) && !(IsHigh(x) && |rest| > 0 && IsLow(rest[0]))
    ensures DecodeAll(Utf16, [x] + rest, 0) == None
  {
    assert |rest| > 0 ==> ([x] + rest)[1] == rest[0];
  }

  lemma {:induction false} TreeValues(t: Tree)
    requires TreeOk(Chars, t) && TreeOk(Utf16, t) && TreeOk(Utf8, t)
    ensures Denote(Utf16, t).Some? && FromUtf16(Denote(Utf16, t).value) == Denote(Utf8, t)
  {
    hide StrValue, DecodeAll;
    match t
    case StrTree(xs) => StrValues(xs);
    case ArrayTree(es) => ElemsValues(es);
    case ObjectTree(ps) => PairsValues(ps);
    case _ =>
  }

  lemma {:induction false} ElemsValues(es: Elems)
    requires ElemsOk(Chars, es) && ElemsOk(Utf16, es) && ElemsOk(Utf8, es)
    ensures DenoteElems(Utf16, es).Some?
    ensures FromUtf16Items(DenoteElems(Utf16, es).value) == DenoteElems(Utf8, es)
  {
    hide TreeOk, Denote, FromUtf16;
    TreeValues(es.value);
    if es.MoreElems? {
      ElemsValues(es.rest);
      var v, vs := Denote(Utf16, es.value).value, DenoteElems(Utf16, es.rest).value;
      assert ([v] + vs)[0] == v && ([v] + vs)[1..] == vs;
    } else {
      var v := Denote(Utf16, es.value).value;
      assert [v][1..] == [] && FromUtf16Items([]) == Some([]);
      assert Denote(Utf8, es.value).Some? ==> [Denote(Utf8, es.value).value] + [] == [Denote(Utf8, es.value).value];
    }
  }

  lemma {:induction false} PairsValues(ps: Pairs)
    requires PairsOk(Chars, ps) && PairsOk(Utf16, ps) && PairsOk(Utf8, ps)
    ensures DenotePairs(Utf16, ps).Some?
    ensures FromUtf16Members(DenotePairs(Utf16, ps).value) == DenotePairs(Utf8, ps)
  {
    hide ItemOk, TreeOk, Denote, FromUtf16, StrValue, DecodeAll;
    StrValues(ps.pair.key);
    TreeValues(ps.pair.value);
    var m := DenotePair(Utf16, ps.pair).value;
    if ps.MorePairs? {
      PairsValues(ps.rest);
      var ms := DenotePairs(Utf16, ps.rest).value;
      assert ([m] + ms)[0] == m && ([m] + ms)[1..] == ms;
    } else {
      assert [m][1..] == [] && FromUtf16Members([]) == Some([]);
      assert DenotePair(Utf8, ps.pair).Some? ==>
        [DenotePair(Utf8, ps.pair).value] + [] == [DenotePair(Utf8, ps.pair).value];
    }
  }

  //
  // The theorems
  //

  /** On the bytes of any derivation, Rust's `parse` answers with the value denoted, and it fails
      exactly when a surrogate escape is not paired. */
  lemma RustParserComplete(d: Doc)
    requires DocOk(Utf8, d)
    ensures ParseRust(DocUnits(Utf8, d)) == Denote(Utf8, d.value)
    ensures ParseRust(DocUnits(Utf8, d)).Some? <==> TreePaired(d.value)
  {
    TreeOkAll(Utf8, Chars, d.value);
    DocEnc(Utf8, d);
    WellFormedIffEncoded(Utf8, DocUnits(Utf8, d), DocUnits(Chars, d));
    DocumentComplete(Utf8, d);
    DenoteIffPaired(Utf8, d.value);
  }

  /** Rust's `parse` accepts exactly the texts that the grammar derives with all surrogate escapes
      paired, and it returns the value of such a derivation. */
  lemma RustParserExact(input: seq<int>)
    ensures ParseRust(input).Some? <==>
              exists d :: DocOk(Utf8, d) && DocUnits(Utf8, d) == input && TreePaired(d.value)
    ensures ParseRust(input).Some? ==>
              exists d :: DocOk(Utf8, d) && DocUnits(Utf8, d) == input && Denote(Utf8, d.value) == ParseRust(input)
  {
    if ParseRust(input).Some? {
      var d := DocumentSound(Chars, Utf8, input);
      DenoteIffPaired(Utf8, d.value);
    }
    forall d | DocOk(Utf8, d) && DocUnits(Utf8, d) == input && TreePaired(d.value)
      ensures ParseRust(input).Some?
    {
      RustParserComplete(d);
    }
  }

  /** Java's `parse` accepts every derivation, lone surrogates included. */
  lemma JavaParserComplete(d: Doc)
    requires DocOk(Utf16, d)
    ensures ParseJava(DocUnits(Utf16, d)) == Denote(Utf16, d.value)
    ensures ParseJava(DocUnits(Utf16, d)).Some?
  {
    DocumentComplete(Utf16, d);
    DenotesUnits(d.value);
  }

  /** What Java accepts is derivable, with the value it answers; its strings are of any 16-bit units. */
  lemma JavaParserSound(input: seq<Unit16>)
    ensures ParseJava(input).Some? ==>
              exists d :: DocOk(Utf16, d) && DocUnits(Utf16, d) == input && Denote(Utf16, d.value) == ParseJava(input)
  {
    if ParseJava(input).Some? {
      var d := DocumentSound(Utf16, Utf16, input);
    }
  }

  /** Java's `parse` accepts exactly the strings that the grammar derives over 16-bit units, surrogate
      escapes and raw surrogates paired or not, and it returns what every such derivation denotes. */
  lemma JavaParserExact(input: seq<Unit16>)
    ensures ParseJava(input).Some? <==> exists d :: DocOk(Utf16, d) && DocUnits(Utf16, d) == input
    ensures forall d :: DocOk(Utf16, d) && DocUnits(Utf16, d) == input ==> Denote(Utf16, d.value) == ParseJava(input)
  {
    JavaParserSound(input);
    forall d | DocOk(Utf16, d) && DocUnits(Utf16, d) == input
      ensures ParseJava(input).Some? && Denote(Utf16, d.value) == ParseJava(input)
    {
      JavaParserComplete(d);
    }
  }

  /** Over 16-bit units every derivation denotes a tree. */
  lemma {:induction false} DenotesUnits(t: Tree)
    requires TreeOk(Utf16, t)
    ensures Denote(Utf16, t).Some?
  {
    match t
    case StrTree(xs) => StrUnitsValue(xs);
    case ArrayTree(es) => DenotesElems(es);
    case ObjectTree(ps) => DenotesPairs(ps);
    case _ =>
  }

  lemma {:induction false} StrUnitsValue(xs: seq<Item>)
    requires ItemsOk(Utf16, xs)
    ensures StrValue(Utf16, xs).Some?
  {
    if xs != [] {
      StrUnitsValue(xs[1..]);
    }
  }

  lemma {:induction false} DenotesElems(es: Elems)
    requires ElemsOk(Utf16, es)
    ensures DenoteElems(Utf16, es).Some?
  {
    DenotesUnits(es.value);
    if es.MoreElems? {
      DenotesElems(es.rest);
    }
  }

  lemma {:induction false} DenotesPairs(ps: Pairs)
    requires PairsOk(Utf16, ps)
    ensures DenotePairs(Utf16, ps).Some?
  {
    StrUnitsValue(ps.pair.key);
    DenotesUnits(ps.pair.value);
    if ps.MorePairs? {
      DenotesPairs(ps.rest);
    }
  }

  /** On every Unicode text: Rust answers with Java's tree, its strings decoded from UTF-16, and
      rejects exactly what Java rejects or reads as a tree with a lone surrogate. */
  lemma ParsersAgree(text: seq<int>)
    requires AllScalars(text)
    ensures ParseRust(EncAll(Utf8, text)) ==
            match ParseJava(EncAll(Utf16, text))
            case None => None
            case Some(v) => FromUtf16(v)
  {
    var r, j := EncAll(Utf8, text), EncAll(Utf16, text);
    WellFormedIffEncoded(Utf8, r, text);
    WellFormedIffEncoded(Utf16, j, text);
    if ParseRust(r).Some? || ParseJava(j).Some? {
      var d: Doc;
      if ParseRust(r).Some? {
        d := DocumentSound(Chars, Utf8, r);
        SameText(Utf8, d, text);
      } else {
        d := DocumentSound(Chars, Utf16, j);
        SameText(Utf16, d, text);
      }
      DocEnc(Utf8, d);
      DocEnc(Utf16, d);
      TreeOkAll(Chars, Utf8, d.value);
      TreeOkAll(Chars, Utf16, d.value);
      DocumentComplete(Utf8, d);
      DocumentComplete(Utf16, d);
      TreeValues(d.value);
    }
  }

  lemma SameText(f: Form, d: Doc, text: seq<int>)
    requires DocOk(Chars, d) && AllScalars(text) && DocUnits(f, d) == EncAll(f, text)
    ensures DocUnits(Chars, d) == text
  {
    DocEnc(f, d);
    EncAllInjective(f, DocUnits(Chars, d), text);
  }
}
