/** The parsers are complete: run on the text a derivation tree derives, they answer with the
    value the tree denotes, and fail when it denotes none. */
module ParserComplete {
  import opened Encoding
  import opened Json
  import opened Grammar
  import opened ParserSpec

  lemma {:induction false} WsSpan(u: seq<int>, i: nat, w: seq<int>)
    requires IsWsText(w) && At(u, i, w)
    requires i + |w| == |u| || !IsWs(u[i + |w|])
    ensures Ws(u, i) == i + |w|
    decreases |w|
  {
    AtEach(u, i, w);
    if w != [] {
      AtCat(u, i, [w[0]], w[1..]);
      assert [w[0]] + w[1..] == w;
      WsSpan(u, i + 1, w[1..]);
    }
  }

  lemma {:induction false} DigitsSpan(u: seq<int>, i: nat, d: seq<int>)
    requires AllDigits(d) && At(u, i, d)
    requires i + |d| == |u| || !IsDigit(u[i + |d|])
    ensures Digits(u, i) == i + |d|
    decreases |d|
  {
    AtEach(u, i, d);
    if d != [] {
      AtCat(u, i, [d[0]], d[1..]);
      assert [d[0]] + d[1..] == d;
      DigitsSpan(u, i + 1, d[1..]);
    }
  }

  /** Nothing at `j` could extend a number. */
  predicate Stop(u: seq<int>, j: int) {
    0 <= j <= |u| && (j < |u| ==> !IsDigit(u[j]) && u[j] != DOT && !IsExp(u[j]))
  }

  lemma IntComplete(u: seq<int>, i: nat, d: seq<int>)
    requires AllDigits(d) && |d| > 0 && (d[0] == ZERO ==> |d| == 1) && At(u, i, d)
    requires i + |d| == |u| || !IsDigit(u[i + |d|])
    ensures IntEnd(u, i) == Some(i + |d|)
  {
    AtEach(u, i, d);
    assert u[i + 0] == d[0];
    if d[0] != ZERO {
      DigitsSpan(u, i, d);
    }
  }

  lemma FracComplete(u: seq<int>, i: nat, frac: Option<seq<int>>)
    requires frac.Some? ==> |frac.value| > 0 && AllDigits(frac.value)
    requires At(u, i, FracText(frac))
    requires var j := i + |FracText(frac)|; j < |u| ==> !IsDigit(u[j]) && u[j] != DOT
    ensures FracEnd(u, i) == Some(i + |FracText(frac)|)
  {
    if frac.Some? {
      AtCat(u, i, [DOT], frac.value);
      AtUnit(u, i, DOT);
      DigitsSpan(u, i + 1, frac.value);
    }
  }

  lemma ExpComplete(u: seq<int>, i: nat, exp: Option<Exp>)
    requires exp.Some? ==>
               var x := exp.value;
               IsExp(x.e) && (x.sign.Some? ==> IsSign(x.sign.value)) && |x.digits| > 0 && AllDigits(x.digits)
    requires At(u, i, ExpText(exp)) && Stop(u, i + |ExpText(exp)|)
    ensures ExpEnd(u, i) == Some(i + |ExpText(exp)|)
  {
    hide At;
    if exp.Some? {
      var x := exp.value;
      var sign := if x.sign.None? then [] else [x.sign.value];
      AtCat(u, i, [x.e], sign + x.digits);
      AtCat(u, i + 1, sign, x.digits);
      AtUnit(u, i, x.e);
      AtEach(u, i + 1, sign);
      assert sign != [] ==> u[i + 1 + 0] == sign[0];
      AtEach(u, i + 1 + |sign|, x.digits);
      assert IsDigit(x.digits[0]) && u[i + 1 + |sign| + 0] == x.digits[0];
      DigitsSpan(u, i + 1 + |sign|, x.digits);
    }
  }

  lemma FracOpens(u: seq<int>, k: nat, frac: Option<seq<int>>)
    requires At(u, k, FracText(frac))
    ensures frac.Some? ==> k < |u| && u[k] == DOT
  {
    AtEach(u, k, FracText(frac));
    if frac.Some? {
      assert u[k + 0] == FracText(frac)[0];
    }
  }

  lemma ExpOpens(u: seq<int>, k: nat, exp: Option<Exp>)
    requires At(u, k, ExpText(exp))
    ensures exp.Some? ==> k < |u| && u[k] == exp.value.e
  {
    AtEach(u, k, ExpText(exp));
    if exp.Some? {
      assert u[k + 0] == ExpText(exp)[0];
    }
  }

  lemma NumComplete(u: seq<int>, i: nat, n: NumParts)
    requires NumOk(n) && At(u, i, NumText(n)) && Stop(u, i + |NumText(n)|)
    ensures NumberAt(u, i) == Ok(NumText(n), i + |NumText(n)|)
    ensures i < |u| && (u[i] == MINUS || IsDigit(u[i]))
  {
    hide At, IntEnd, FracEnd, ExpEnd, Digits;
    var m := if n.minus then [MINUS] else [];
    var tail := FracText(n.frac) + ExpText(n.exp);
    AtCat(u, i, m, n.int_ + tail);
    AtCat(u, i + |m|, n.int_, tail);
    var k := i + |m| + |n.int_|;
    AtCat(u, k, FracText(n.frac), ExpText(n.exp));
    AtSlice(u, i, NumText(n));
    AtEach(u, i, m);
    AtEach(u, i + |m|, n.int_);
    assert u[i + |m| + 0] == n.int_[0];
    FracOpens(u, k, n.frac);
    ExpOpens(u, k + |FracText(n.frac)|, n.exp);
    IntComplete(u, i + |m|, n.int_);
    FracComplete(u, k, n.frac);
    ExpComplete(u, k + |FracText(n.frac)|, n.exp);
  }

  lemma HexComplete(u: seq<int>, i: nat, d: seq<int>)
    requires ItemOk(Chars, Hex(d)) && At(u, i, d)
    ensures Hex4(u, i) == Some(HexCode(d))
  {
    AtEach(u, i, d);
    assert u[i] == u[i + 0];
  }

  /** The first unit of an item, and where it ends. */
  lemma ItemStart(f: Form, u: seq<int>, i: nat, x: Item)
    requires ItemOk(f, x) && At(u, i, ItemUnits(f, x))
    ensures |ItemUnits(f, x)| > 0 && i < |u| && u[i] != QUOTE && u[i] >= 0x20
    ensures x.Raw? <==> u[i] != BACKSLASH
    ensures x.Short? ==> i + 1 < |u| && u[i + 1] == x.e
    ensures x.Hex? ==> i + 6 <= |u| && u[i + 1] == LETTER_U && Hex4(u, i + 2) == Some(HexCode(x.digits))
  {
    AtEach(u, i, ItemUnits(f, x));
    assert u[i + 0] == ItemUnits(f, x)[0];
    match x
    case Raw(c) =>
    case Short(e) => assert u[i + 1] == ItemUnits(f, x)[1];
    case Hex(d) =>
      assert u[i + 1] == ItemUnits(f, x)[1];
      AtCat(u, i, [BACKSLASH, LETTER_U], d);
      HexComplete(u, i + 2, d);
  }

  lemma {:induction false} StrComplete(f: Form, u: seq<int>, i: nat, xs: seq<Item>, acc: seq<int>)
    requires ItemsOk(f, xs) && At(u, i, ItemsUnits(f, xs) + [QUOTE])
    ensures StrTail(f, u, i, acc) ==
            match StrValue(f, xs)
            case None => Fail
            case Some(s) => Ok(acc + s, i + |ItemsUnits(f, xs)| + 1)
    decreases |xs|
  {
    hide At, Enc, DecodeOne, HexValue, Hex4, Combine;
    if xs == [] {
      assert [] + [QUOTE] == [QUOTE];
      AtUnit(u, i, QUOTE);
      assert acc + [] == acc;
    } else {
      var x, n := xs[0], |ItemUnits(f, xs[0])|;
      assert ItemsUnits(f, xs) + [QUOTE] == ItemUnits(f, x) + (ItemsUnits(f, xs[1..]) + [QUOTE]);
      AtCat(u, i, ItemUnits(f, x), ItemsUnits(f, xs[1..]) + [QUOTE]);
      ItemStart(f, u, i, x);
      match x
      case Raw(c) => RawComplete(f, u, i, xs, acc);
      case Short(e) => StrComplete(f, u, i + 2, xs[1..], acc + [ShortEscape(e).value]);
        Regroup(acc, [ShortEscape(e).value], StrValue(f, xs[1..]));
      case Hex(d) =>
        if f == Utf16 || !IsSurrogate(HexCode(d)) {
          StrComplete(f, u, i + 6, xs[1..], acc + [HexCode(d)]);
          Regroup(acc, [HexCode(d)], StrValue(f, xs[1..]));
        } else {
          PairComplete(f, u, i, xs, acc);
        }
    }
  }

  lemma Regroup(acc: seq<int>, a: seq<int>, o: Option<seq<int>>)
    ensures o.Some? ==> acc + a + o.value == acc + (a + o.value)
  {
  }

  lemma {:induction false} RawComplete(f: Form, u: seq<int>, i: nat, xs: seq<Item>, acc: seq<int>)
    requires ItemsOk(f, xs) && xs != [] && xs[0].Raw?
    requires At(u, i, Enc(f, xs[0].c)) && At(u, i + |Enc(f, xs[0].c)|, ItemsUnits(f, xs[1..]) + [QUOTE])
    ensures StrTail(f, u, i, acc) ==
            match StrValue(f, xs)
            case None => Fail
            case Some(s) => Ok(acc + s, i + |ItemsUnits(f, xs)| + 1)
    decreases |xs|, 0
  {
    hide At, Enc, StrTail;
    var c := xs[0].c;
    var n := |Enc(f, c)|;
    var piece := if f == Utf16 then Enc(Utf16, c) else [c];
    RawStep(f, u, i, c, acc);
    StrComplete(f, u, i + n, xs[1..], acc + piece);
    Regroup(acc, piece, StrValue(f, xs[1..]));
  }

  /** The string loop passes over one unescaped character. */
  lemma RawStep(f: Form, u: seq<int>, i: nat, c: int, acc: seq<int>)
    requires ItemOk(f, Raw(c)) && At(u, i, Enc(f, c))
    ensures StrTail(f, u, i, acc) ==
              StrTail(f, u, i + |Enc(f, c)|, acc + if f == Utf16 then Enc(Utf16, c) else [c])
  {
    ItemStart(f, u, i, Raw(c));
    if f == Utf16 {
      AtEach(u, i, Enc(f, c));
      assert u[i + 0] == Enc(f, c)[0];
      if |Enc(f, c)| == 2 {
        assert u[i + 1] == Enc(f, c)[1];
        assert acc + [u[i]] + [u[i + 1]] == acc + Enc(f, c);
        assert StrTail(f, u, i + 1, acc + [u[i]]) == StrTail(f, u, i + 2, acc + [u[i]] + [u[i + 1]]);
      }
    } else {
      DecodeEnc(f, u, i, c);
    }
  }

  /** A high-surrogate escape, in a form that wants pairs. */
  lemma {:induction false} PairComplete(f: Form, u: seq<int>, i: nat, xs: seq<Item>, acc: seq<int>)
    requires f != Utf16 && ItemsOk(f, xs) && xs != [] && xs[0].Hex? && IsSurrogate(HexCode(xs[0].digits))
    requires At(u, i, ItemUnits(f, xs[0])) && At(u, i + 6, ItemsUnits(f, xs[1..]) + [QUOTE])
    ensures StrTail(f, u, i, acc) ==
            match StrValue(f, xs)
            case None => Fail
            case Some(s) => Ok(acc + s, i + |ItemsUnits(f, xs)| + 1)
    decreases |xs|, 0
  {
    hide At, Enc, DecodeOne, HexValue, Hex4, Combine;
    ItemStart(f, u, i, xs[0]);
    var code := HexCode(xs[0].digits);
    if |xs| == 1 {
      assert ItemsUnits(f, xs[1..]) + [QUOTE] == [QUOTE];
      AtUnit(u, i + 6, QUOTE);
    } else {
      var y, rest := xs[1], xs[2..];
      assert xs[1..][1..] == rest;
      assert ItemsUnits(f, xs[1..]) + [QUOTE] == ItemUnits(f, y) + (ItemsUnits(f, rest) + [QUOTE]);
      AtCat(u, i + 6, ItemUnits(f, y), ItemsUnits(f, rest) + [QUOTE]);
      ItemStart(f, u, i + 6, y);
      if IsHexWith(xs[0], true) && IsHexWith(y, false) {
        var c := Combine(code, HexCode(y.digits));
        StrComplete(f, u, i + 12, rest, acc + [c]);
        Regroup(acc, [c], StrValue(f, rest));
      }
    }
  }

  lemma {:induction false} StrCompleteAt(f: Form, u: seq<int>, i: nat, xs: seq<Item>)
    requires ItemsOk(f, xs) && At(u, i, StrUnits(f, xs))
    ensures i < |u| && u[i] == QUOTE
    ensures StrAt(f, u, i) ==
            match StrValue(f, xs)
            case None => Fail
            case Some(s) => Ok(s, i + |StrUnits(f, xs)|)
  {
    hide At, StrTail, ItemsUnits, ItemOk;
    AtCat(u, i, [QUOTE], ItemsUnits(f, xs) + [QUOTE]);
    AtUnit(u, i, QUOTE);
    StrComplete(f, u, i + 1, xs, []);
    assert StrValue(f, xs).Some? ==> [] + StrValue(f, xs).value == StrValue(f, xs).value;
  }

  /** A value's first unit is not white space. */
  lemma TreeStart(f: Form, t: Tree)
    requires TreeOk(f, t)
    ensures |Units(f, t)| > 0 && !IsWs(Units(f, t)[0])
    ensures Units(f, t)[0] != RBRACKET && Units(f, t)[0] != RBRACE
  {
    if t.NumTree? {
      assert IsDigit(t.n.int_[0]);
      assert NumText(t.n)[0] == if t.n.minus then MINUS else t.n.int_[0];
    }
  }

  predicate Follows(u: seq<int>, j: int, t: Tree) { t.NumTree? ==> Stop(u, j) }

  lemma {:induction false} ValueComplete(f: Form, u: seq<int>, i: nat, t: Tree)
    requires TreeOk(f, t) && At(u, i, Units(f, t)) && Follows(u, i + |Units(f, t)|, t)
    ensures ValueAt(f, u, i) ==
            match Denote(f, t)
            case None => Fail
            case Some(v) => Ok(v, i + |Units(f, t)|)
    decreases t
  {
    hide At, StrTail, StrAt, NumberAt, Enc, NumText, ItemsUnits, ItemsAt, MembersAt, ElemsUnits, PairsUnits, ElemsOk, PairsOk;
    TreeStart(f, t);
    AtEach(u, i, Units(f, t));
    assert u[i + 0] == Units(f, t)[0];
    match t
    case NullTree =>
    case BoolTree(_) =>
    case NumTree(n) => NumComplete(u, i, n);
    case StrTree(xs) => StrCompleteAt(f, u, i, xs);
    case EmptyArray(w) => EmptyComplete(u, i, LBRACKET, w, RBRACKET);
    case ArrayTree(es) =>
      AtCat(u, i, [LBRACKET], ElemsUnits(f, es));
      ElemsComplete(f, u, i + 1, es, []);
      ElemsSkip(f, u, i + 1, es, []);
      assert DenoteElems(f, es).Some? ==> [] + DenoteElems(f, es).value == DenoteElems(f, es).value;
    case EmptyObject(w) => EmptyComplete(u, i, LBRACE, w, RBRACE);
    case ObjectTree(ps) =>
      AtCat(u, i, [LBRACE], PairsUnits(f, ps));
      PairsComplete(f, u, i + 1, ps, []);
      PairsSkip(f, u, i + 1, ps, []);
      assert DenotePairs(f, ps).Some? ==> [] + DenotePairs(f, ps).value == DenotePairs(f, ps).value;
  }

  lemma EmptyComplete(u: seq<int>, i: nat, open: int, w: seq<int>, close: int)
    requires IsWsText(w) && At(u, i, [open] + (w + [close])) && !IsWs(close)
    ensures i + 1 + |w| < |u| && Ws(u, i + 1) == i + 1 + |w| && u[i + 1 + |w|] == close
  {
    AtCat(u, i, [open], w + [close]);
    AtCat(u, i + 1, w, [close]);
    AtUnit(u, i + 1 + |w|, close);
    WsSpan(u, i + 1, w);
  }

  /** Where the first value of a list starts, so that skipping white space before it changes nothing. */
  lemma ElemsSkip(f: Form, u: seq<int>, i: nat, es: Elems, acc: seq<Json>)
    requires ElemsOk(f, es) && At(u, i, ElemsUnits(f, es))
    ensures var j := Ws(u, i); j == i + |es.before| && j < |u| && u[j] != RBRACKET
    ensures ItemsAt(f, u, Ws(u, i), acc) == ItemsAt(f, u, i, acc)
  {
    hide At, ValueAt, Units, ElemsUnits, TreeOk, ElemsOk;
    ElemSplit(f, u, i, es);
    WsTwice(u, i);
  }

  lemma ElemSplit(f: Form, u: seq<int>, i: nat, es: Elems)
    requires ElemsOk(f, es) && At(u, i, ElemsUnits(f, es))
    ensures var s := i + |es.before|; var e := s + |Units(f, es.value)|; var c := e + |es.after|;
            At(u, s, Units(f, es.value)) && s < |u| && u[s] != RBRACKET && Ws(u, i) == s
            && Stop(u, e) && c < |u| && Ws(u, e) == c
            && u[c] == (if es.LastElem? then RBRACKET else COMMA)
            && (es.MoreElems? ==> At(u, c + 1, ElemsUnits(f, es.rest)))
    ensures |ElemsUnits(f, es)| == |es.before| + |Units(f, es.value)| + |es.after| + 1
                                   + if es.LastElem? then 0 else |ElemsUnits(f, es.rest)|
  {
    hide At, Units, Ws, TreeOk;
    var s := i + |es.before|;
    var e := s + |Units(f, es.value)|;
    var close := if es.LastElem? then [RBRACKET] else [COMMA] + ElemsUnits(f, es.rest);
    AtCat(u, i, es.before, Units(f, es.value) + (es.after + close));
    AtCat(u, s, Units(f, es.value), es.after + close);
    AtCat(u, e, es.after, close);
    var c := e + |es.after|;
    if es.MoreElems? {
      AtCat(u, c, [COMMA], ElemsUnits(f, es.rest));
    }
    AtUnit(u, c, if es.LastElem? then RBRACKET else COMMA);
    TreeStart(f, es.value);
    AtEach(u, s, Units(f, es.value));
    assert u[s + 0] == Units(f, es.value)[0];
    WsSpan(u, i, es.before);
    WsSpan(u, e, es.after);
    AtEach(u, e, es.after);
    assert es.after != [] ==> u[e + 0] == es.after[0] && IsWs(es.after[0]);
  }

  lemma {:induction false} ElemsComplete(f: Form, u: seq<int>, i: nat, es: Elems, acc: seq<Json>)
    requires ElemsOk(f, es) && At(u, i, ElemsUnits(f, es))
    ensures ItemsAt(f, u, i, acc) ==
            match DenoteElems(f, es)
            case None => Fail
            case Some(vs) => Ok(Json.Array(acc + vs), i + |ElemsUnits(f, es)|)
    decreases es
  {
    hide At, ValueAt, Ws, Units, TreeOk, Denote;
    ElemSplit(f, u, i, es);
    var s := i + |es.before|;
    ValueComplete(f, u, s, es.value);
    if Denote(f, es.value).Some? && es.MoreElems? {
      var v := Denote(f, es.value).value;
      ElemsComplete(f, u, s + |Units(f, es.value)| + |es.after| + 1, es.rest, acc + [v]);
      if DenoteElems(f, es.rest).Some? {
        assert acc + [v] + DenoteElems(f, es.rest).value == acc + ([v] + DenoteElems(f, es.rest).value);
      }
    }
  }

  lemma PairsSkip(f: Form, u: seq<int>, i: nat, ps: Pairs, acc: seq<Member>)
    requires PairsOk(f, ps) && At(u, i, PairsUnits(f, ps))
    ensures var j := Ws(u, i); j < |u| && u[j] != RBRACE
    ensures MembersAt(f, u, Ws(u, i), acc) == MembersAt(f, u, i, acc)
  {
    hide At, MembersAt, ValueAt, StrAt, Units, PairUnits, PairsUnits, TreeOk, PairOk, Ws;
    PairSplit(f, u, i, ps);
    WsTwice(u, i);
    MembersSameStart(f, u, i, Ws(u, i), acc);
  }

  lemma PairSplit(f: Form, u: seq<int>, i: nat, ps: Pairs)
    requires PairsOk(f, ps) && At(u, i, PairsUnits(f, ps))
    ensures var p := ps.pair;
            var k := i + |p.before|; var m := k + |StrUnits(f, p.key)|; var c := m + |p.mid|;
            var s := c + 1 + |p.mid2|; var e := s + |Units(f, p.value)|; var x := e + |p.after|;
            k < |u| && u[k] == QUOTE && Ws(u, i) == k && At(u, k, StrUnits(f, p.key))
            && c < |u| && Ws(u, m) == c && u[c] == COLON
            && Ws(u, c + 1) == s && At(u, s, Units(f, p.value)) && Stop(u, e)
            && x < |u| && Ws(u, e) == x && u[x] == (if ps.LastPair? then RBRACE else COMMA)
            && (ps.MorePairs? ==> At(u, x + 1, PairsUnits(f, ps.rest)))
            && i + |PairsUnits(f, ps)| == x + 1 + (if ps.LastPair? then 0 else |PairsUnits(f, ps.rest)|)
  {
    hide At, Units, StrUnits, Ws, TreeOk;
    var p := ps.pair;
    var k := i + |p.before|;
    var m := k + |StrUnits(f, p.key)|;
    var c := m + |p.mid|;
    var s := c + 1 + |p.mid2|;
    var e := s + |Units(f, p.value)|;
    var x := e + |p.after|;
    var close := if ps.LastPair? then [RBRACE] else [COMMA] + PairsUnits(f, ps.rest);
    AtCat(u, i, PairUnits(f, p), close);
    AtCat(u, i, p.before, StrUnits(f, p.key) + (p.mid + ([COLON] + (p.mid2 + (Units(f, p.value) + p.after)))));
    AtCat(u, k, StrUnits(f, p.key), p.mid + ([COLON] + (p.mid2 + (Units(f, p.value) + p.after))));
    AtCat(u, m, p.mid, [COLON] + (p.mid2 + (Units(f, p.value) + p.after)));
    AtCat(u, c, [COLON], p.mid2 + (Units(f, p.value) + p.after));
    AtCat(u, c + 1, p.mid2, Units(f, p.value) + p.after);
    AtCat(u, s, Units(f, p.value), p.after);
    if ps.MorePairs? {
      AtCat(u, x, [COMMA], PairsUnits(f, ps.rest));
    }
    PairSpans(f, u, i, p, k, m, c, s, e, x, if ps.LastPair? then RBRACE else COMMA);
  }

  lemma PairSpans(f: Form, u: seq<int>, i: nat, p: Pair, k: nat, m: nat, c: nat, s: nat, e: nat, x: nat, close: int)
    requires PairOk(f, p) && k == i + |p.before| && m == k + |StrUnits(f, p.key)| && c == m + |p.mid|
    requires s == c + 1 + |p.mid2| && e == s + |Units(f, p.value)| && x == e + |p.after|
    requires At(u, i, p.before) && At(u, k, StrUnits(f, p.key)) && At(u, m, p.mid) && At(u, c, [COLON])
    requires At(u, c + 1, p.mid2) && At(u, s, Units(f, p.value)) && At(u, e, p.after) && At(u, x, [close])
    requires close == COMMA || close == RBRACE
    ensures k < |u| && u[k] == QUOTE && Ws(u, i) == k
    ensures c < |u| && Ws(u, m) == c && u[c] == COLON && Ws(u, c + 1) == s
    ensures Stop(u, e) && x < |u| && Ws(u, e) == x && u[x] == close
  {
    hide At, Units, ItemsUnits, TreeOk;
    AtCat(u, k, [QUOTE], ItemsUnits(f, p.key) + [QUOTE]);
    AtUnit(u, k, QUOTE);
    AtUnit(u, c, COLON);
    AtUnit(u, x, close);
    TreeStart(f, p.value);
    AtEach(u, s, Units(f, p.value));
    assert u[s + 0] == Units(f, p.value)[0];
    WsSpan(u, i, p.before);
    WsSpan(u, m, p.mid);
    WsSpan(u, c + 1, p.mid2);
    WsSpan(u, e, p.after);
    AtEach(u, e, p.after);
    assert p.after != [] ==> u[e + 0] == p.after[0] && IsWs(p.after[0]);
  }

  lemma {:induction false} MemberComplete(f: Form, u: seq<int>, i: nat, ps: Pairs)
    requires PairsOk(f, ps) && At(u, i, PairsUnits(f, ps))
    ensures var p := ps.pair;
            var e := i + |p.before| + |StrUnits(f, p.key)| + |p.mid| + 1 + |p.mid2| + |Units(f, p.value)|;
            MemberAt(f, u, i) ==
            match DenotePair(f, p)
            case None => Fail
            case Some(m) => Ok(m, e)
    decreases ps, 0
  {
    hide At, ValueAt, StrAt, StrValue, Ws, Units, TreeOk, Denote, StrUnits, PairUnits, PairsUnits;
    var p := ps.pair;
    var k := i + |p.before|;
    PairSplit(f, u, i, ps);
    StrCompleteAt(f, u, k, p.key);
    ValueComplete(f, u, k + |StrUnits(f, p.key)| + |p.mid| + 1 + |p.mid2|, p.value);
  }

  lemma {:induction false} PairsComplete(f: Form, u: seq<int>, i: nat, ps: Pairs, acc: seq<Member>)
    requires PairsOk(f, ps) && At(u, i, PairsUnits(f, ps))
    ensures MembersAt(f, u, i, acc) ==
            match DenotePairs(f, ps)
            case None => Fail
            case Some(ms) => Ok(Json.Object(acc + ms), i + |PairsUnits(f, ps)|)
    decreases ps, 1
  {
    hide At, MemberAt, Ws, Units, TreeOk, DenotePair, StrUnits, PairUnits;
    var p := ps.pair;
    var e := i + |p.before| + |StrUnits(f, p.key)| + |p.mid| + 1 + |p.mid2| + |Units(f, p.value)|;
    PairSplit(f, u, i, ps);
    MemberComplete(f, u, i, ps);
    if DenotePair(f, p).Some? && ps.MorePairs? {
      var m := DenotePair(f, p).value;
      PairsComplete(f, u, e + |p.after| + 1, ps.rest, acc + [m]);
      if DenotePairs(f, ps.rest).Some? {
        assert acc + [m] + DenotePairs(f, ps.rest).value == acc + ([m] + DenotePairs(f, ps.rest).value);
      }
    }
  }

  lemma DocSplit(f: Form, d: Doc)
    requires DocOk(f, d)
    ensures var u := DocUnits(f, d); var s := |d.before|; var e := s + |Units(f, d.value)|;
            && Ws(u, 0) == s && At(u, s, Units(f, d.value)) && Stop(u, e) && Ws(u, e) == |u|
  {
    hide At, Ws, Units, TreeOk;
    var u := DocUnits(f, d);
    AtSelf(u);
    var s := |d.before|;
    var e := s + |Units(f, d.value)|;
    AtCat(u, 0, d.before, Units(f, d.value) + d.after);
    AtCat(u, s, Units(f, d.value), d.after);
    TreeStart(f, d.value);
    AtEach(u, s, Units(f, d.value));
    assert u[s + 0] == Units(f, d.value)[0];
    AtEach(u, e, d.after);
    assert d.after != [] ==> u[e + 0] == d.after[0] && IsWs(d.after[0]);
    WsSpan(u, 0, d.before);
    WsSpan(u, e, d.after);
  }

  /** On the text of a derivation the parser answers exactly what the derivation denotes. */
  lemma DocumentComplete(f: Form, d: Doc)
    requires DocOk(f, d)
    ensures Document(f, DocUnits(f, d)) == Denote(f, d.value)
  {
    hide At, Ws, ValueAt, Units, DocUnits, TreeOk, Denote;
    DocSplit(f, d);
    ValueComplete(f, DocUnits(f, d), |d.before|, d.value);
  }
}
