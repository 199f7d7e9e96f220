/** The grammar of RFC 8259 sections 2 to 7, as derivation trees.

    A tree knows the text it derives (`Units`, in any encoding form) and the value it denotes
    (`Denote`). Nothing here mentions parsing. */
module Grammar {
  import opened Encoding
  import opened Json

  /** char of RFC 8259 section 7: unescaped, a two-character escape, or \uXXXX. */
  datatype Item = Raw(c: int) | Short(e: int) | Hex(digits: seq<int>)

  /** number of RFC 8259 section 6. */
  datatype NumParts = NumParts(minus: bool, int_: seq<int>, frac: Option<seq<int>>, exp: Option<Exp>)
  datatype Exp = Exp(e: int, sign: Option<int>, digits: seq<int>)

  datatype Tree =
    | NullTree
    | BoolTree(b: bool)
    | NumTree(n: NumParts)
    | StrTree(items: seq<Item>)
    | EmptyArray(pad: seq<int>)
    | ArrayTree(elems: Elems)
    | EmptyObject(pad: seq<int>)
    | ObjectTree(pairs: Pairs)

  /** value *( value-separator value ), with the white space around each value. */
  datatype Elems =
    | LastElem(before: seq<int>, value: Tree, after: seq<int>)
    | MoreElems(before: seq<int>, value: Tree, after: seq<int>, rest: Elems)

  /** member *( value-separator member ). */
  datatype Pairs =
    | LastPair(pair: Pair)
    | MorePairs(pair: Pair, rest: Pairs)

  datatype Pair = Pair(before: seq<int>, key: seq<Item>, mid: seq<int>, mid2: seq<int>, value: Tree, after: seq<int>)

  /** JSON-text = ws value ws. */
  datatype Doc = Doc(before: seq<int>, value: Tree, after: seq<int>)

  predicate IsWsText(w: seq<int>) { forall k :: 0 <= k < |w| ==> IsWs(w[k]) }
  predicate AllDigits(d: seq<int>) { forall k :: 0 <= k < |d| ==> IsDigit(d[k]) }

  //
  // Well-formed trees
  //

  predicate ItemOk(f: Form, x: Item) {
    match x
    case Raw(c) => 0x20 <= c && c != QUOTE && c != BACKSLASH && (if f == Utf16 then IsCodePoint(c) else IsScalar(c))
    case Short(e) => ShortEscape(e).Some?
    case Hex(d) => |d| == 4 && forall k :: 0 <= k < 4 ==> HexValue(d[k]).Some?
  }

  predicate ItemsOk(f: Form, xs: seq<Item>) { forall k :: 0 <= k < |xs| ==> ItemOk(f, xs[k]) }

  predicate NumOk(n: NumParts) {
    && |n.int_| > 0 && AllDigits(n.int_) && (n.int_[0] == ZERO ==> |n.int_| == 1)
    && (n.frac.Some? ==> |n.frac.value| > 0 && AllDigits(n.frac.value))
    && (n.exp.Some? ==>
          var x := n.exp.value;
          IsExp(x.e) && (x.sign.Some? ==> IsSign(x.sign.value)) && |x.digits| > 0 && AllDigits(x.digits))
  }

  predicate TreeOk(f: Form, t: Tree) {
    match t
    case NullTree => true
    case BoolTree(_) => true
    case NumTree(n) => NumOk(n)
    case StrTree(xs) => ItemsOk(f, xs)
    case EmptyArray(w) => IsWsText(w)
    case ArrayTree(es) => ElemsOk(f, es)
    case EmptyObject(w) => IsWsText(w)
    case ObjectTree(ps) => PairsOk(f, ps)
  }

  predicate ElemsOk(f: Form, es: Elems) {
    IsWsText(es.before) && TreeOk(f, es.value) && IsWsText(es.after)
    && (es.MoreElems? ==> ElemsOk(f, es.rest))
  }

  predicate PairOk(f: Form, p: Pair) {
    IsWsText(p.before) && ItemsOk(f, p.key) && IsWsText(p.mid) && IsWsText(p.mid2)
    && TreeOk(f, p.value) && IsWsText(p.after)
  }

  predicate PairsOk(f: Form, ps: Pairs) {
    PairOk(f, ps.pair) && (ps.MorePairs? ==> PairsOk(f, ps.rest))
  }

  predicate DocOk(f: Form, d: Doc) { IsWsText(d.before) && TreeOk(f, d.value) && IsWsText(d.after) }

  //
  // The text a tree derives
  //

  function ItemUnits(f: Form, x: Item): seq<int> {
    match x
    case Raw(c) => Enc(f, c)
    case Short(e) => [BACKSLASH, e]
    case Hex(d) => [BACKSLASH, LETTER_U] + d
  }

  function ItemsUnits(f: Form, xs: seq<Item>): seq<int> {
    if xs == [] then [] else ItemUnits(f, xs[0]) + ItemsUnits(f, xs[1..])
  }

  function StrUnits(f: Form, xs: seq<Item>): seq<int> { [QUOTE] + (ItemsUnits(f, xs) + [QUOTE]) }

  function FracText(o: Option<seq<int>>): seq<int> { if o.None? then [] else [DOT] + o.value }

  function ExpText(o: Option<Exp>): seq<int> {
    if o.None? then []
    else [o.value.e] + ((if o.value.sign.None? then [] else [o.value.sign.value]) + o.value.digits)
  }

  function NumText(n: NumParts): seq<int> {
    (if n.minus then [MINUS] else []) + (n.int_ + (FracText(n.frac) + ExpText(n.exp)))
  }

  function Units(f: Form, t: Tree): seq<int> {
    match t
    case NullTree => NULL_TEXT
    case BoolTree(b) => if b then TRUE_TEXT else FALSE_TEXT
    case NumTree(n) => NumText(n)
    case StrTree(xs) => StrUnits(f, xs)
    case EmptyArray(w) => [LBRACKET] + (w + [RBRACKET])
    case ArrayTree(es) => [LBRACKET] + ElemsUnits(f, es)
    case EmptyObject(w) => [LBRACE] + (w + [RBRACE])
    case ObjectTree(ps) => [LBRACE] + PairsUnits(f, ps)
  }

  function ElemsUnits(f: Form, es: Elems): seq<int> {
    es.before + (Units(f, es.value)
      + (es.after + (if es.LastElem? then [RBRACKET] else [COMMA] + ElemsUnits(f, es.rest))))
  }

  function PairUnits(f: Form, p: Pair): seq<int> {
    p.before + (StrUnits(f, p.key) + (p.mid + ([COLON] + (p.mid2 + (Units(f, p.value) + p.after)))))
  }

  function PairsUnits(f: Form, ps: Pairs): seq<int> {
    PairUnits(f, ps.pair) + (if ps.LastPair? then [RBRACE] else [COMMA] + PairsUnits(f, ps.rest))
  }

  function DocUnits(f: Form, d: Doc): seq<int> { d.before + (Units(f, d.value) + d.after) }

  //
  // The value a tree denotes
  //

  function HexCode(d: seq<int>): int
    requires ItemOk(Chars, Hex(d))
  {
    HexValue(d[0]).value * 0x1000 + HexValue(d[1]).value * 0x100 + HexValue(d[2]).value * 0x10 + HexValue(d[3]).value
  }

  predicate IsHexWith(x: Item, high: bool) {
    x.Hex? && ItemOk(Chars, x) && if high then IsHigh(HexCode(x.digits)) else IsLow(HexCode(x.digits))
  }

  /** The string the items denote. In UTF-16 every escape is a unit. Elsewhere surrogate escapes
      must come as a high one followed by a low one; otherwise there is no such string. */
  function StrValue(f: Form, xs: seq<Item>): Option<seq<int>>
    requires ItemsOk(f, xs)
  {
    if xs == [] then Some([])
    else match xs[0]
      case Raw(c) => Prepend(if f == Utf16 then Enc(Utf16, c) else [c], StrValue(f, xs[1..]))
      case Short(e) => Prepend([ShortEscape(e).value], StrValue(f, xs[1..]))
      case Hex(d) =>
        if f == Utf16 || !IsSurrogate(HexCode(d)) then Prepend([HexCode(d)], StrValue(f, xs[1..]))
        else if IsHexWith(xs[0], true) && |xs| > 1 && IsHexWith(xs[1], false) then
          Prepend([Combine(HexCode(d), HexCode(xs[1].digits))], StrValue(f, xs[2..]))
        else None
  }

  function Prepend<T>(a: seq<T>, o: Option<seq<T>>): Option<seq<T>> {
    if o.None? then None else Some(a + o.value)
  }

  function Denote(f: Form, t: Tree): Option<Json>
    requires TreeOk(f, t)
  {
    match t
    case NullTree => Some(Null)
    case BoolTree(b) => Some(Bool(b))
    case NumTree(n) => Some(Number(NumText(n)))
    case StrTree(xs) => (match StrValue(f, xs) case None => None case Some(s) => Some(String(s)))
    case EmptyArray(_) => Some(Array([]))
    case ArrayTree(es) => (match DenoteElems(f, es) case None => None case Some(vs) => Some(Array(vs)))
    case EmptyObject(_) => Some(Object([]))
    case ObjectTree(ps) => (match DenotePairs(f, ps) case None => None case Some(ms) => Some(Object(ms)))
  }

  function DenoteElems(f: Form, es: Elems): Option<seq<Json>>
    requires ElemsOk(f, es)
  {
    match Denote(f, es.value)
    case None => None
    case Some(v) => if es.LastElem? then Some([v]) else Prepend([v], DenoteElems(f, es.rest))
  }

  function DenotePair(f: Form, p: Pair): Option<Member>
    requires PairOk(f, p)
  {
    match StrValue(f, p.key)
    case None => None
    case Some(key) =>
      match Denote(f, p.value)
      case None => None
      case Some(v) => Some(Member(key, v))
  }

  function DenotePairs(f: Form, ps: Pairs): Option<seq<Member>>
    requires PairsOk(f, ps)
  {
    match DenotePair(f, ps.pair)
    case None => None
    case Some(m) => if ps.LastPair? then Some([m]) else Prepend([m], DenotePairs(f, ps.rest))
  }

  /** RFC 8259 section 6, as a property of a token. */
  ghost predicate IsNumber(token: seq<int>) { exists n :: NumOk(n) && NumText(n) == token }

  //
  // When surrogate escapes are paired
  //

  /** Every high-surrogate escape has a low one right after it, and every low one a high one
      right before it. */
  ghost predicate Paired(xs: seq<Item>) {
    && (forall k :: 0 <= k < |xs| && IsHexWith(xs[k], true) ==> k + 1 < |xs| && IsHexWith(xs[k + 1], false))
    && (forall k :: 0 <= k < |xs| && IsHexWith(xs[k], false) ==> k > 0 && IsHexWith(xs[k - 1], true))
  }

  ghost predicate TreePaired(t: Tree) {
    match t
    case StrTree(xs) => Paired(xs)
    case ArrayTree(es) => ElemsPaired(es)
    case ObjectTree(ps) => PairsPaired(ps)
    case _ => true
  }

  ghost predicate ElemsPaired(es: Elems) {
    TreePaired(es.value) && (es.MoreElems? ==> ElemsPaired(es.rest))
  }

  ghost predicate PairsPaired(ps: Pairs) {
    Paired(ps.pair.key) && TreePaired(ps.pair.value) && (ps.MorePairs? ==> PairsPaired(ps.rest))
  }

  lemma {:induction false} StrValueIffPaired(f: Form, xs: seq<Item>)
    requires f != Utf16 && ItemsOk(f, xs)
    ensures StrValue(f, xs).Some? <==> Paired(xs)
  {
    if xs != [] {
      if IsHexWith(xs[0], true) && |xs| > 1 && IsHexWith(xs[1], false) {
        var ys := xs[2..];
        StrValueIffPaired(f, ys);
        assert forall k :: 0 <= k < |ys| ==> ys[k] == xs[k + 2];
        if Paired(ys) {
          assert Paired(xs) by {
            forall k | 0 <= k < |xs| && IsHexWith(xs[k], true) ensures k + 1 < |xs| && IsHexWith(xs[k + 1], false) {
              if k >= 2 { assert ys[k - 2] == xs[k]; assert k - 1 < |ys| && ys[k - 1] == xs[k + 1]; }
            }
            forall k | 0 <= k < |xs| && IsHexWith(xs[k], false) ensures k > 0 && IsHexWith(xs[k - 1], true) {
              if k >= 2 { assert ys[k - 2] == xs[k]; assert k > 2 && ys[k - 3] == xs[k - 1]; }
            }
          }
        }
        if Paired(xs) {
          PairedDrop(xs, 2);
        }
      } else if xs[0].Hex? && IsSurrogate(HexCode(xs[0].digits)) {
        assert IsHexWith(xs[0], true) || IsHexWith(xs[0], false);
      } else {
        var ys := xs[1..];
        StrValueIffPaired(f, ys);
        assert forall k :: 0 <= k < |ys| ==> ys[k] == xs[k + 1];
        if Paired(ys) {
          assert Paired(xs) by {
            forall k | 0 <= k < |xs| && IsHexWith(xs[k], true) ensures k + 1 < |xs| && IsHexWith(xs[k + 1], false) {
              assert ys[k - 1] == xs[k]; assert k < |ys| && ys[k] == xs[k + 1];
            }
            forall k | 0 <= k < |xs| && IsHexWith(xs[k], false) ensures k > 0 && IsHexWith(xs[k - 1], true) {
              assert ys[k - 1] == xs[k]; assert k > 1 && ys[k - 2] == xs[k - 1];
            }
          }
        }
        if Paired(xs) {
          PairedDrop(xs, 1);
        }
      }
    }
  }

  lemma PairedDrop(xs: seq<Item>, n: nat)
    requires Paired(xs) && 0 < n <= |xs| && !IsHexWith(xs[n - 1], true)
    ensures Paired(xs[n..])
  {
    var ys := xs[n..];
    assert forall k :: 0 <= k < |ys| ==> ys[k] == xs[k + n];
    forall k | 0 <= k < |ys| && IsHexWith(ys[k], true) ensures k + 1 < |ys| && IsHexWith(ys[k + 1], false) {
      assert xs[k + n + 1] == ys[k + 1];
    }
    forall k | 0 <= k < |ys| && IsHexWith(ys[k], false) ensures k > 0 && IsHexWith(ys[k - 1], true) {
      assert IsHexWith(xs[k + n - 1], true);
    }
  }

  /** A derivation denotes a tree of scalar strings exactly when its surrogate escapes are paired. */
  lemma {:induction false} DenoteIffPaired(f: Form, t: Tree)
    requires f != Utf16 && TreeOk(f, t)
    ensures Denote(f, t).Some? <==> TreePaired(t)
  {
    match t
    case StrTree(xs) => StrValueIffPaired(f, xs);
    case ArrayTree(es) => DenoteElemsIffPaired(f, es);
    case ObjectTree(ps) => DenotePairsIffPaired(f, ps);
    case _ =>
  }

  lemma {:induction false} DenoteElemsIffPaired(f: Form, es: Elems)
    requires f != Utf16 && ElemsOk(f, es)
    ensures DenoteElems(f, es).Some? <==> ElemsPaired(es)
  {
    DenoteIffPaired(f, es.value);
    if es.MoreElems? {
      DenoteElemsIffPaired(f, es.rest);
    }
  }

  lemma {:induction false} DenotePairsIffPaired(f: Form, ps: Pairs)
    requires f != Utf16 && PairsOk(f, ps)
    ensures DenotePairs(f, ps).Some? <==> PairsPaired(ps)
  {
    StrValueIffPaired(f, ps.pair.key);
    DenoteIffPaired(f, ps.pair.value);
    if ps.MorePairs? {
      DenotePairsIffPaired(f, ps.rest);
    }
  }
}
