/** Code points and their UTF-8 and UTF-16 encodings.

    A Rust `String` is modelled as the sequence of its scalar values and its bytes as
    `EncAll(Utf8, s)`; a Java `String` is modelled as the sequence of its 16-bit units. */
module Encoding {

  datatype Option<+T> = None | Some(value: T)

  datatype Result<+T> = Success(value: T) | Failure

  type Byte = x: int | 0 <= x < 0x100
  type Unit16 = x: int | 0 <= x < 0x1_0000

  /** How text is cut into units. `Chars` is the identity: one unit per code point. */
  datatype Form = Utf8 | Utf16 | Chars

  predicate IsHigh(c: int) { 0xD800 <= c <= 0xDBFF }
  predicate IsLow(c: int) { 0xDC00 <= c <= 0xDFFF }
  predicate IsSurrogate(c: int) { 0xD800 <= c <= 0xDFFF }
  predicate IsCodePoint(c: int) { 0 <= c <= 0x10FFFF }
  predicate IsScalar(c: int) { IsCodePoint(c) && !IsSurrogate(c) }

  type Scalar = c: int | IsScalar(c)

  ghost predicate AllScalars(cs: seq<int>) { forall c :: c in cs ==> IsScalar(c) }

  /** The scalar value a surrogate pair stands for. */
  function Combine(high: int, low: int): int {
    0x10000 + (high - 0xD800) * 0x400 + (low - 0xDC00)
  }

  /** The units of one code point. */
  function Enc(f: Form, c: int): seq<int> {
    match f
    case Chars => [c]
    case Utf16 =>
      if c < 0x10000 then [c]
      else [0xD800 + (c - 0x10000) / 0x400, 0xDC00 + (c - 0x10000) % 0x400]
    case Utf8 =>
      if c < 0x80 then [c]
      else if c < 0x800 then [0xC0 + c / 0x40, 0x80 + c % 0x40]
      else if c < 0x10000 then [0xE0 + c / 0x1000, 0x80 + c / 0x40 % 0x40, 0x80 + c % 0x40]
      else [0xF0 + c / 0x40000, 0x80 + c / 0x1000 % 0x40, 0x80 + c / 0x40 % 0x40, 0x80 + c % 0x40]
  }

  function EncAll(f: Form, cs: seq<int>): seq<int> {
    if cs == [] then [] else Enc(f, cs[0]) + EncAll(f, cs[1..])
  }

  /** `t` is what `u` holds at position `i`. */
  ghost predicate At(u: seq<int>, i: int, t: seq<int>) {
    0 <= i && i + |t| <= |u| && u[i..i + |t|] == t
  }

  predicate IsTail(b: int) { 0x80 <= b <= 0xBF }

  /** One character of UTF-8, by the ABNF of RFC 3629 section 4; one of UTF-16, by pairing
      surrogates; and how many units it takes. */
  function DecodeOne(f: Form, u: seq<int>, i: nat): (r: Option<(int, nat)>)
    requires i < |u|
    ensures r.Some? ==> 0 < r.value.1 && i + r.value.1 <= |u|
  {
    var a := u[i];
    match f
    case Chars => if IsScalar(a) then Some((a, 1)) else None
    case Utf16 =>
      if 0 <= a < 0x10000 && !IsSurrogate(a) then Some((a, 1))
      else if IsHigh(a) && i + 1 < |u| && IsLow(u[i + 1]) then Some((Combine(a, u[i + 1]), 2))
      else None
    case Utf8 =>
      if 0 <= a < 0x80 then Some((a, 1))
      else if 0xC2 <= a <= 0xDF && i + 1 < |u| && IsTail(u[i + 1]) then
        Some(((a - 0xC0) * 0x40 + (u[i + 1] - 0x80), 2))
      else if 0xE0 <= a <= 0xEF && i + 2 < |u| && IsTail(u[i + 1]) && IsTail(u[i + 2])
              && (a == 0xE0 ==> 0xA0 <= u[i + 1]) && (a == 0xED ==> u[i + 1] <= 0x9F) then
        Some(((a - 0xE0) * 0x1000 + (u[i + 1] - 0x80) * 0x40 + (u[i + 2] - 0x80), 3))
      else if 0xF0 <= a <= 0xF4 && i + 3 < |u| && IsTail(u[i + 1]) && IsTail(u[i + 2]) && IsTail(u[i + 3])
              && (a == 0xF0 ==> 0x90 <= u[i + 1]) && (a == 0xF4 ==> u[i + 1] <= 0x8F) then
        Some(((a - 0xF0) * 0x40000 + (u[i + 1] - 0x80) * 0x1000
              + (u[i + 2] - 0x80) * 0x40 + (u[i + 3] - 0x80), 4))
      else None
  }

  /** The units from `i` on are well-formed text; in well-formed text, `i` is a character boundary. */
  predicate ValidFrom(f: Form, u: seq<int>, i: nat)
    requires i <= |u|
    decreases |u| - i
  {
    i == |u| ||
    (var d := DecodeOne(f, u, i); d.Some? && ValidFrom(f, u, i + d.value.1))
  }

  predicate WellFormed(f: Form, u: seq<int>) { ValidFrom(f, u, 0) }

  /** The characters of `u` from `i` on, if it is well-formed there. */
  function DecodeAll(f: Form, u: seq<int>, i: nat): (r: Option<seq<int>>)
    requires i <= |u|
    ensures r.Some? <==> ValidFrom(f, u, i)
    decreases |u| - i
  {
    if i == |u| then Some([])
    else match DecodeOne(f, u, i)
      case None => None
      case Some((c, n)) =>
        match DecodeAll(f, u, i + n)
        case None => None
        case Some(cs) => Some([c] + cs)
  }

  lemma AtCat(u: seq<int>, i: int, a: seq<int>, b: seq<int>)
    ensures At(u, i, a + b) <==> At(u, i, a) && At(u, i + |a|, b)
  {
    if At(u, i, a + b) {
      var w := u[i..i + |a + b|];
      assert u[i..i + |a|] == w[..|a|] == a;
      assert u[i + |a|..i + |a| + |b|] == w[|a|..] == b;
    }
    if At(u, i, a) && At(u, i + |a|, b) {
      assert u[i..i + |a + b|] == u[i..i + |a|] + u[i + |a|..i + |a| + |b|];
    }
  }

  lemma AtUnit(u: seq<int>, i: int, x: int)
    ensures At(u, i, [x]) <==> 0 <= i < |u| && u[i] == x
  {
    if 0 <= i < |u| {
      assert u[i..i + 1] == [u[i]];
    }
  }

  lemma AtEach(u: seq<int>, i: int, t: seq<int>)
    requires At(u, i, t)
    ensures 0 <= i && i + |t| <= |u|
    ensures forall k :: 0 <= k < |t| ==> u[i + k] == t[k]
  {
    forall k | 0 <= k < |t| ensures u[i + k] == t[k] {
      assert u[i..i + |t|][k] == t[k];
    }
  }

  lemma AtSlice(u: seq<int>, i: int, t: seq<int>)
    requires At(u, i, t)
    ensures 0 <= i && i + |t| <= |u| && u[i..i + |t|] == t
  {
  }

  lemma AtSelf(t: seq<int>)
    ensures At(t, 0, t)
  {
    assert t[0..|t|] == t;
  }

  /** Surrogate pairs and the code points above the BMP are in bijection. */
  lemma SurrogatePairs(high: int, low: int, c: int)
    ensures IsHigh(high) && IsLow(low) ==>
              0x10000 <= Combine(high, low) <= 0x10FFFF && Enc(Utf16, Combine(high, low)) == [high, low]
    ensures 0x10000 <= c <= 0x10FFFF ==>
              var p := Enc(Utf16, c);
              |p| == 2 && IsHigh(p[0]) && IsLow(p[1]) && Combine(p[0], p[1]) == c
  {
  }

  /** Decoding inverts encoding, whatever follows. */
  lemma DecodeEnc(f: Form, u: seq<int>, i: nat, c: int)
    requires IsScalar(c) && At(u, i, Enc(f, c))
    ensures i < |u| && DecodeOne(f, u, i) == Some((c, |Enc(f, c)|))
  {
    AtEach(u, i, Enc(f, c));
    if f == Utf8 && c >= 0x10000 {
      assert c / 0x1000 == c / 0x40000 * 0x40 + c / 0x1000 % 0x40;
      assert c / 0x40 == c / 0x1000 * 0x40 + c / 0x40 % 0x40;
    } else if f == Utf8 && c >= 0x800 {
      assert c / 0x40 == c / 0x1000 * 0x40 + c / 0x40 % 0x40;
    }
  }

  lemma Radix64(q: int, r: int)
    requires 0 <= r < 0x40
    ensures (q * 0x40 + r) / 0x40 == q && (q * 0x40 + r) % 0x40 == r
  {
  }

  lemma TwoUnits(u: seq<int>, i: int, a: int, b: int)
    requires 0 <= i && i + 2 <= |u| && u[i] == a && u[i + 1] == b
    ensures At(u, i, [a, b])
  {
    assert u[i..i + 2] == [a, b];
  }

  lemma ThreeUnits(u: seq<int>, i: int, a: int, b: int, c: int)
    requires 0 <= i && i + 3 <= |u| && u[i] == a && u[i + 1] == b && u[i + 2] == c
    ensures At(u, i, [a, b, c])
  {
    assert u[i..i + 3] == [a, b, c];
  }

  /** Only encodings are decoded: no overlong form, no surrogate. */
  lemma EncDecode(f: Form, u: seq<int>, i: nat)
    requires i < |u| && DecodeOne(f, u, i).Some?
    ensures var (c, n) := DecodeOne(f, u, i).value;
            IsScalar(c) && n == |Enc(f, c)| && At(u, i, Enc(f, c))
  {
    var (c, n) := DecodeOne(f, u, i).value;
    if n == 1 {
      AtUnit(u, i, u[i]);
    } else if n == 2 {
      TwoUnits(u, i, u[i], u[i + 1]);
    } else if n == 3 {
      var q := (u[i] - 0xE0) * 0x40 + (u[i + 1] - 0x80);
      Radix64(q, u[i + 2] - 0x80);
      Radix64(u[i] - 0xE0, u[i + 1] - 0x80);
      assert c / 0x1000 == q / 0x40;
      ThreeUnits(u, i, u[i], u[i + 1], u[i + 2]);
    } else {
      EncDecodeFour(u, i);
    }
  }

  lemma EncDecodeFour(u: seq<int>, i: nat)
    requires i < |u| && DecodeOne(Utf8, u, i).Some? && DecodeOne(Utf8, u, i).value.1 == 4
    ensures var c := DecodeOne(Utf8, u, i).value.0;
            0x10000 <= c <= 0x10FFFF && At(u, i, Enc(Utf8, c))
  {
    var c := DecodeOne(Utf8, u, i).value.0;
    var p := (u[i] - 0xF0) * 0x40 + (u[i + 1] - 0x80);
    var q := p * 0x40 + (u[i + 2] - 0x80);
    assert c == q * 0x40 + (u[i + 3] - 0x80);
    Radix64(q, u[i + 3] - 0x80);
    Radix64(p, u[i + 2] - 0x80);
    Radix64(u[i] - 0xF0, u[i + 1] - 0x80);
    assert c / 0x1000 == p && c / 0x40000 == u[i] - 0xF0;
    assert u[i..i + 4] == [u[i], u[i + 1], u[i + 2], u[i + 3]];
  }

  lemma {:induction false} EncAllCat(f: Form, a: seq<int>, b: seq<int>)
    ensures EncAll(f, a + b) == EncAll(f, a) + EncAll(f, b)
  {
    if a == [] {
      assert a + b == b;
    } else {
      assert (a + b)[1..] == a[1..] + b;
      EncAllCat(f, a[1..], b);
    }
  }

  lemma EncAllOne(f: Form, c: int)
    ensures EncAll(f, [c]) == Enc(f, c)
  {
    assert EncAll(f, [c][1..]) == [];
  }

  /** Text that only has ASCII encodes to itself. */
  lemma {:induction false} EncAscii(f: Form, cs: seq<int>)
    requires forall k :: 0 <= k < |cs| ==> 0 <= cs[k] < 0x80
    ensures EncAll(f, cs) == cs
  {
    if cs != [] {
      EncAscii(f, cs[1..]);
    }
  }

  lemma {:induction false} DecodeEncAll(f: Form, u: seq<int>, i: nat, cs: seq<int>)
    requires AllScalars(cs) && At(u, i, EncAll(f, cs)) && i + |EncAll(f, cs)| == |u|
    ensures DecodeAll(f, u, i) == Some(cs)
    decreases |cs|
  {
    hide Enc, DecodeOne;
    if cs != [] {
      AtCat(u, i, Enc(f, cs[0]), EncAll(f, cs[1..]));
      DecodeEnc(f, u, i, cs[0]);
      DecodeEncAll(f, u, i + |Enc(f, cs[0])|, cs[1..]);
      assert [cs[0]] + cs[1..] == cs;
    }
  }

  lemma {:induction false} EncDecodeAll(f: Form, u: seq<int>, i: nat)
    requires i <= |u| && ValidFrom(f, u, i)
    ensures AllScalars(DecodeAll(f, u, i).value)
    ensures EncAll(f, DecodeAll(f, u, i).value) == u[i..]
    decreases |u| - i
  {
    hide Enc, DecodeOne;
    if i < |u| {
      var (c, n) := DecodeOne(f, u, i).value;
      EncDecode(f, u, i);
      EncDecodeAll(f, u, i + n);
      assert u[i..] == u[i..i + n] + u[i + n..];
    }
  }

  /** Well-formed units are exactly the encodings of scalar sequences, each of exactly one. */
  lemma WellFormedIffEncoded(f: Form, u: seq<int>, cs: seq<int>)
    requires AllScalars(cs)
    ensures EncAll(f, cs) == u <==> DecodeAll(f, u, 0) == Some(cs)
  {
    if EncAll(f, cs) == u {
      AtSelf(u);
      DecodeEncAll(f, u, 0, cs);
    }
    if DecodeAll(f, u, 0) == Some(cs) {
      EncDecodeAll(f, u, 0);
    }
  }

  lemma EncAllInjective(f: Form, a: seq<int>, b: seq<int>)
    requires AllScalars(a) && AllScalars(b) && EncAll(f, a) == EncAll(f, b)
    ensures a == b
  {
    WellFormedIffEncoded(f, EncAll(f, a), a);
    WellFormedIffEncoded(f, EncAll(f, a), b);
  }

  lemma EncRange(f: Form, c: int)
    requires IsScalar(c)
    ensures f == Utf8 ==> forall k :: 0 <= k < |Enc(f, c)| ==> 0 <= Enc(f, c)[k] < 0x100
    ensures f == Utf16 ==> forall k :: 0 <= k < |Enc(f, c)| ==> 0 <= Enc(f, c)[k] < 0x10000
    ensures c >= 0x80 ==> forall k :: 0 <= k < |Enc(f, c)| ==> Enc(f, c)[k] >= 0x80
  {
  }

  /** The bytes of a Rust `String`. */
  function Bytes(s: seq<Scalar>): (b: seq<Byte>)
    ensures b == EncAll(Utf8, s)
  {
    if s == [] then []
    else
      EncRange(Utf8, s[0]);
      var h: seq<Byte> := Enc(Utf8, s[0]);
      h + Bytes(s[1..])
  }
}
