/** The compact writer, and why the parsers undo it.

    `Write` is the text both writers produce: Rust's as scalar values, Java's as 16-bit units. */
module JsonWriter {
  import opened Encoding
  import opened Json
  import opened Grammar
  import opened ParserSpec
  import opened ParserSound
  import opened JsonTheorems

  function HexDigit(n: int): int
    requires 0 <= n < 16
  {
    if n < 10 then 0x30 + n else 0x61 + n - 10
  }

  /** What stands for one character inside quotes. */
  function WriteChar(c: int): seq<int> {
    if c == QUOTE then [BACKSLASH, QUOTE]
    else if c == BACKSLASH then [BACKSLASH, BACKSLASH]
    else if c == 0x08 then [BACKSLASH, 0x62]
    else if c == 0x0C then [BACKSLASH, 0x66]
    else if c == 0x0A then [BACKSLASH, 0x6E]
    else if c == 0x0D then [BACKSLASH, 0x72]
    else if c == 0x09 then [BACKSLASH, 0x74]
    else if 0 <= c < 0x20 then [BACKSLASH, LETTER_U, 0x30, 0x30, HexDigit(c / 16), HexDigit(c % 16)]
    else [c]
  }

  function WriteChars(s: seq<int>): seq<int> {
    if s == [] then [] else WriteChar(s[0]) + WriteChars(s[1..])
  }

  function WriteString(s: seq<int>): seq<int> { [QUOTE] + (WriteChars(s) + [QUOTE]) }

  function Write(v: Json): seq<int> {
    match v
    case Null => NULL_TEXT
    case Bool(b) => if b then TRUE_TEXT else FALSE_TEXT
    case Number(token) => token
    case String(s) => WriteString(s)
    case Array(items) => [LBRACKET] + (WriteItems(items) + [RBRACKET])
    case Object(members) => [LBRACE] + (WriteMembers(members) + [RBRACE])
  }

  function WriteItems(items: seq<Json>): seq<int> {
    if items == [] then []
    else Write(items[0]) + if |items| == 1 then [] else [COMMA] + WriteItems(items[1..])
  }

  function WriteMember(m: Member): seq<int> { WriteString(m.key) + ([COLON] + Write(m.value)) }

  function WriteMembers(ms: seq<Member>): seq<int> {
    if ms == [] then []
    else WriteMember(ms[0]) + if |ms| == 1 then [] else [COMMA] + WriteMembers(ms[1..])
  }

  /** Every number token is a number of RFC 8259 section 6. */
  ghost predicate NumbersOk(v: Json) {
    match v
    case Number(token) => IsNumber(token)
    case Array(items) => forall k :: 0 <= k < |items| ==> NumbersOk(items[k])
    case Object(ms) => forall k :: 0 <= k < |ms| ==> NumbersOk(ms[k].value)
    case _ => true
  }

  /** The trees a writer of the language is given. */
  ghost predicate Writable(f: Form, v: Json) { OfForm(f, v) && NumbersOk(v) }

  //
  // The written text is derivable
  //

  function CharItem(c: int): Item {
    if c == QUOTE then Short(QUOTE)
    else if c == BACKSLASH then Short(BACKSLASH)
    else if c == 0x08 then Short(0x62)
    else if c == 0x0C then Short(0x66)
    else if c == 0x0A then Short(0x6E)
    else if c == 0x0D then Short(0x72)
    else if c == 0x09 then Short(0x74)
    else if 0 <= c < 0x20 then Hex([0x30, 0x30, HexDigit(c / 16), HexDigit(c % 16)])
    else Raw(c)
  }

  function CharItems(s: seq<int>): seq<Item> {
    if s == [] then [] else [CharItem(s[0])] + CharItems(s[1..])
  }

  lemma CharItemOk(f: Form, c: int)
    requires IsChar(f, c)
    ensures ItemOk(f, CharItem(c))
    ensures f != Utf8 ==> ItemUnits(f, CharItem(c)) == WriteChar(c)
    ensures forall xs :: ItemsOk(f, [CharItem(c)] + xs) && ItemsOk(f, xs) ==>
              StrValue(f, [CharItem(c)] + xs) == Prepend([c], StrValue(f, xs))
  {
    assert HexValue(0x30) == Some(0);
    forall xs | ItemsOk(f, [CharItem(c)] + xs) && ItemsOk(f, xs)
      ensures StrValue(f, [CharItem(c)] + xs) == Prepend([c], StrValue(f, xs))
    {
      assert ([CharItem(c)] + xs)[0] == CharItem(c) && ([CharItem(c)] + xs)[1..] == xs;
    }
  }

  lemma {:induction false} CharItemsOk(f: Form, s: seq<int>)
    requires IsText(f, s)
    ensures ItemsOk(f, CharItems(s)) && StrValue(f, CharItems(s)) == Some(s)
    ensures f != Utf8 ==> ItemsUnits(f, CharItems(s)) == WriteChars(s)
  {
    hide CharItem, WriteChar, ItemUnits;
    if s == [] {
      EmptyItems(f);
    } else {
      var x, xs := CharItem(s[0]), CharItems(s[1..]);
      CharItemOk(f, s[0]);
      CharItemsOk(f, s[1..]);
      assert ([x] + xs)[0] == x && ([x] + xs)[1..] == xs;
      assert [s[0]] + s[1..] == s;
    }
  }

  ghost function Compact(f: Form, v: Json): Tree
    requires Writable(f, v)
  {
    match v
    case Null => NullTree
    case Bool(b) => BoolTree(b)
    case Number(token) => (var n :| NumOk(n) && NumText(n) == token; NumTree(n))
    case String(s) => StrTree(CharItems(s))
    case Array(items) => if items == [] then EmptyArray([]) else ArrayTree(CompactItems(f, items))
    case Object(ms) => if ms == [] then EmptyObject([]) else ObjectTree(CompactMembers(f, ms))
  }

  ghost function CompactItems(f: Form, items: seq<Json>): Elems
    requires items != [] && forall k :: 0 <= k < |items| ==> Writable(f, items[k])
  {
    if |items| == 1 then LastElem([], Compact(f, items[0]), [])
    else MoreElems([], Compact(f, items[0]), [], CompactItems(f, items[1..]))
  }

  ghost predicate MemberOk(f: Form, m: Member) { IsText(f, m.key) && Writable(f, m.value) }

  ghost function CompactPair(f: Form, m: Member): Pair
    requires MemberOk(f, m)
  {
    Pair([], CharItems(m.key), [], [], Compact(f, m.value), [])
  }

  ghost function CompactMembers(f: Form, ms: seq<Member>): Pairs
    requires ms != [] && forall k :: 0 <= k < |ms| ==> MemberOk(f, ms[k])
  {
    if |ms| == 1 then LastPair(CompactPair(f, ms[0]))
    else MorePairs(CompactPair(f, ms[0]), CompactMembers(f, ms[1..]))
  }

  /** The compact derivation of a tree denotes the tree, and derives what the writers write. */
  lemma {:induction false} CompactOk(f: Form, v: Json)
    requires Writable(f, v)
    ensures var t := Compact(f, v);
            TreeOk(f, t) && Denote(f, t) == Some(v) && (f != Utf8 ==> Units(f, t) == Write(v))
  {
    hide StrValue, ItemsUnits, ItemOk, CharItems, WriteChars, CompactItems, CompactMembers, ElemsUnits, PairsUnits, ElemsOk, PairsOk, NumOk, NumText, DenoteElems, DenotePairs;
    match v
    case Number(token) =>
    case String(s) => CharItemsOk(f, s);
    case Array(items) =>
      if items == [] {
        assert WriteItems(items) == [];
      } else {
        CompactItemsOk(f, items);
      }
    case Object(ms) =>
      if ms == [] {
        assert WriteMembers(ms) == [];
      } else {
        CompactMembersOk(f, ms);
      }
    case _ =>
  }

  lemma {:induction false} CompactItemsOk(f: Form, items: seq<Json>)
    requires items != [] && forall k :: 0 <= k < |items| ==> Writable(f, items[k])
    ensures var es := CompactItems(f, items);
            && ElemsOk(f, es) && DenoteElems(f, es) == Some(items)
            && (f != Utf8 ==> ElemsUnits(f, es) == WriteItems(items) + [RBRACKET])
  {
    hide Units, Compact, Write, TreeOk, Denote, Writable;
    CompactOk(f, items[0]);
    assert items == [items[0]] + items[1..];
    if |items| > 1 {
      CompactItemsOk(f, items[1..]);
    } else {
      assert items == [items[0]];
    }
  }

  lemma {:induction false} CompactPairOk(f: Form, m: Member)
    requires MemberOk(f, m)
    ensures var p := CompactPair(f, m);
            PairOk(f, p) && DenotePair(f, p) == Some(m) && (f != Utf8 ==> PairUnits(f, p) == WriteMember(m))
    decreases f, m, 0
  {
    hide Compact, Units, Write, TreeOk, Denote, Writable, StrValue, ItemsUnits, WriteChars, ItemOk;
    CharItemsOk(f, m.key);
    CompactOk(f, m.value);
  }

  lemma {:induction false} CompactMembersOk(f: Form, ms: seq<Member>)
    requires ms != [] && forall k :: 0 <= k < |ms| ==> MemberOk(f, ms[k])
    ensures var ps := CompactMembers(f, ms);
            && PairsOk(f, ps) && DenotePairs(f, ps) == Some(ms)
            && (f != Utf8 ==> PairsUnits(f, ps) == WriteMembers(ms) + [RBRACE])
  {
    hide CompactPair, PairUnits, WriteMember, PairOk, DenotePair, MemberOk;
    CompactPairOk(f, ms[0]);
    assert ms == [ms[0]] + ms[1..];
    if |ms| > 1 {
      CompactMembersOk(f, ms[1..]);
    } else {
      assert ms == [ms[0]];
    }
  }

  //
  // Round trips
  //

  lemma {:induction false} ScalarForm(v: Json)
    requires OfForm(Utf8, v)
    ensures OfForm(Chars, v)
  {
    match v
    case Array(items) =>
      forall k | 0 <= k < |items| ensures OfForm(Chars, items[k]) {
        ScalarForm(items[k]);
      }
    case Object(ms) =>
      forall k | 0 <= k < |ms| ensures IsText(Chars, ms[k].key) && OfForm(Chars, ms[k].value) {
        ScalarForm(ms[k].value);
      }
    case _ =>
  }

  ghost function CompactDoc(v: Json): Doc
    requires Writable(Chars, v)
  {
    Doc([], Compact(Chars, v), [])
  }

  lemma WrittenDoc(v: Json)
    requires Writable(Utf8, v)
    ensures Writable(Chars, v)
    ensures var d := CompactDoc(v);
            DocOk(Chars, d) && DocOk(Utf8, d) && DocUnits(Chars, d) == Write(v)
            && DocUnits(Utf8, d) == EncAll(Utf8, Write(v)) && AllScalars(Write(v))
  {
    hide Compact, Write, Units, TreeOk, EncAll;
    ScalarForm(v);
    CompactOk(Chars, v);
    var d := CompactDoc(v);
    TreeOkAll(Chars, Utf8, d.value);
    assert [] + (Write(v) + []) == Write(v);
    DocEnc(Utf8, d);
  }

  lemma {:induction false} DenoteScalar(t: Tree)
    requires TreeOk(Chars, t) && TreeOk(Utf8, t)
    ensures Denote(Chars, t) == Denote(Utf8, t)
  {
    match t
    case StrTree(xs) => StrScalar(xs);
    case ArrayTree(es) => DenoteElemsScalar(es);
    case ObjectTree(ps) => DenotePairsScalar(ps);
    case _ =>
  }

  lemma {:induction false} StrScalar(xs: seq<Item>)
    requires ItemsOk(Chars, xs) && ItemsOk(Utf8, xs)
    ensures StrValue(Chars, xs) == StrValue(Utf8, xs)
    decreases |xs|
  {
    if xs != [] {
      StrScalar(xs[1..]);
      if |xs| > 1 {
        StrScalar(xs[2..]);
      }
    }
  }

  lemma {:induction false} DenoteElemsScalar(es: Elems)
    requires ElemsOk(Chars, es) && ElemsOk(Utf8, es)
    ensures DenoteElems(Chars, es) == DenoteElems(Utf8, es)
  {
    DenoteScalar(es.value);
    if es.MoreElems? {
      DenoteElemsScalar(es.rest);
    }
  }

  lemma {:induction false} DenotePairsScalar(ps: Pairs)
    requires PairsOk(Chars, ps) && PairsOk(Utf8, ps)
    ensures DenotePairs(Chars, ps) == DenotePairs(Utf8, ps)
  {
    StrScalar(ps.pair.key);
    DenoteScalar(ps.pair.value);
    if ps.MorePairs? {
      DenotePairsScalar(ps.rest);
    }
  }

  /** Rust: parsing the bytes of what was written gives the tree back. */
  lemma RustRoundTrip(v: Json)
    requires Writable(Utf8, v)
    ensures ParseRust(EncAll(Utf8, Write(v))) == Some(v)
  {
    WrittenDoc(v);
    var d := CompactDoc(v);
    CompactOk(Chars, v);
    DenoteScalar(d.value);
    RustParserComplete(d);
  }

  /** Java: the same for every tree of 16-bit units, even with lone surrogates in its strings. */
  lemma JavaRoundTrip(v: Json)
    requires Writable(Utf16, v)
    ensures ParseJava(Write(v)) == Some(v)
  {
    CompactOk(Utf16, v);
    var d := Doc([], Compact(Utf16, v), []);
    assert [] + (Write(v) + []) == Write(v);
    JavaParserComplete(d);
  }

  //
  // What a parser returns can be written
  //

  lemma {:induction false} StrValueText(f: Form, xs: seq<Item>)
    requires ItemsOk(f, xs) && StrValue(f, xs).Some?
    ensures IsText(f, StrValue(f, xs).value)
    decreases |xs|
  {
    if xs != [] {
      match xs[0]
      case Raw(c) =>
        StrValueText(f, xs[1..]);
        RawUnitRange(f, c);
      case Short(e) => StrValueText(f, xs[1..]);
      case Hex(d) =>
        assert ItemOk(f, xs[0]) && ItemOk(Chars, xs[0]);
        HexRange(d);
        if f == Utf16 || !IsSurrogate(HexCode(d)) {
          StrValueText(f, xs[1..]);
        } else {
          HexRange(xs[1].digits);
          SurrogatePairs(HexCode(d), HexCode(xs[1].digits), 0);
          StrValueText(f, xs[2..]);
        }
    }
  }

  lemma RawUnitRange(f: Form, c: int)
    ensures f == Utf16 && IsCodePoint(c) ==> IsText(Utf16, Enc(Utf16, c))
  {
  }

  lemma {:induction false} DenoteWritable(f: Form, t: Tree)
    requires TreeOk(f, t) && Denote(f, t).Some?
    ensures Writable(f, Denote(f, t).value)
  {
    hide StrValue, NumText;
    match t
    case NumTree(n) => assert IsNumber(NumText(n));
    case StrTree(xs) => StrValueText(f, xs);
    case ArrayTree(es) => DenoteElemsWritable(f, es);
    case ObjectTree(ps) => DenotePairsWritable(f, ps);
    case _ =>
  }

  lemma {:induction false} DenoteElemsWritable(f: Form, es: Elems)
    requires ElemsOk(f, es) && DenoteElems(f, es).Some?
    ensures forall k :: 0 <= k < |DenoteElems(f, es).value| ==> Writable(f, DenoteElems(f, es).value[k])
  {
    hide Denote, TreeOk, Writable;
    DenoteWritable(f, es.value);
    if es.MoreElems? {
      DenoteElemsWritable(f, es.rest);
    }
  }

  lemma {:induction false} DenotePairsWritable(f: Form, ps: Pairs)
    requires PairsOk(f, ps) && DenotePairs(f, ps).Some?
    ensures forall k :: 0 <= k < |DenotePairs(f, ps).value| ==> MemberOk(f, DenotePairs(f, ps).value[k])
  {
    hide Denote, TreeOk, Writable, StrValue, ItemOk;
    StrValueText(f, ps.pair.key);
    DenoteWritable(f, ps.pair.value);
    if ps.MorePairs? {
      DenotePairsWritable(f, ps.rest);
    }
  }

  /** Every tree the Rust parser returns is one the writer can be given... */
  lemma ParsedWritable(input: seq<int>)
    requires ParseRust(input).Some?
    ensures Writable(Utf8, ParseRust(input).value)
  {
    var d := DocumentSound(Chars, Utf8, input);
    DenoteWritable(Utf8, d.value);
  }

  /** ...so writing what was parsed is stable: another round changes nothing. */
  lemma WriteAfterParse(input: seq<int>)
    requires ParseRust(input).Some?
    ensures var once := EncAll(Utf8, Write(ParseRust(input).value));
            ParseRust(once) == ParseRust(input)
            && EncAll(Utf8, Write(ParseRust(once).value)) == once
  {
    ParsedWritable(input);
    RustRoundTrip(ParseRust(input).value);
  }

  /** The written text has no line feed, so one request is one line. */
  lemma {:induction false} NoLineFeed(v: Json)
    requires NumbersOk(v)
    ensures LF !in Write(v)
  {
    match v
    case Number(token) =>
      var n :| NumOk(n) && NumText(n) == token;
      NumAscii(n);
    case String(s) => NoLineFeedString(s);
    case Array(items) => NoLineFeedItems(items);
    case Object(ms) => NoLineFeedMembers(ms);
    case _ =>
  }

  lemma {:induction false} NoLineFeedString(s: seq<int>)
    ensures LF !in WriteChars(s)
  {
    if s != [] {
      NoLineFeedString(s[1..]);
    }
  }

  lemma {:induction false} NoLineFeedItems(items: seq<Json>)
    requires forall k :: 0 <= k < |items| ==> NumbersOk(items[k])
    ensures LF !in WriteItems(items)
  {
    if items != [] {
      NoLineFeed(items[0]);
      NoLineFeedItems(items[1..]);
    }
  }

  lemma {:induction false} NoLineFeedMembers(ms: seq<Member>)
    requires forall k :: 0 <= k < |ms| ==> NumbersOk(ms[k].value)
    ensures LF !in WriteMembers(ms)
  {
    if ms != [] {
      NoLineFeedString(ms[0].key);
      NoLineFeed(ms[0].value);
      NoLineFeedMembers(ms[1..]);
    }
  }
}
