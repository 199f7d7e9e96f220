/** Base64 of rust/src/codec/base64.rs: RFC 4648 section 4, strict about padding.

    The shifts and masks of the source are written as division and remainder. */
module Base64 {
  import opened Encoding
  import J = Json

  type Sextet = x: int | 0 <= x < 64

  const PAD: Byte := 0x3D

  /** `ALPHABET`. */
  function Letter(v: Sextet): (c: Byte)
    ensures c < 0x80 && c != PAD && DecodeChar(c) == Some(v)
  {
    if v < 26 then 0x41 + v
    else if v < 52 then 0x61 + v - 26
    else if v < 62 then 0x30 + v - 52
    else if v == 62 then 0x2B
    else 0x2F
  }

  function DecodeChar(c: Byte): (r: Option<Sextet>)
    ensures c == PAD ==> r.None?
  {
    if 0x41 <= c <= 0x5A then Some(c - 0x41)
    else if 0x61 <= c <= 0x7A then Some(c - 0x61 + 26)
    else if 0x30 <= c <= 0x39 then Some(c - 0x30 + 52)
    else if c == 0x2B then Some(62)
    else if c == 0x2F then Some(63)
    else None
  }

  lemma LetterOfChar(c: Byte)
    requires DecodeChar(c).Some?
    ensures Letter(DecodeChar(c).value) == c
  {
  }

  predicate InAlphabet(c: Byte) { DecodeChar(c).Some? }

  //
  // Encoding
  //

  /** Three bytes, or four sextets, side by side in 24 bits. */
  function Bits3(x: int, y: int, z: int): int { x * 0x10000 + y * 0x100 + z }
  function Bits4(a: int, b: int, c: int, d: int): int { a * 0x40000 + b * 0x1000 + c * 0x40 + d }

  function EncodeGroup(d: seq<Byte>): (s: seq<Byte>)
    requires 1 <= |d| <= 3
    ensures |s| == 4
  {
    var n := Bits3(d[0], if |d| > 1 then d[1] else 0, if |d| > 2 then d[2] else 0);
    [Letter(n / 0x40000 % 0x40), Letter(n / 0x1000 % 0x40),
     if |d| > 1 then Letter(n / 0x40 % 0x40) else PAD, if |d| > 2 then Letter(n % 0x40) else PAD]
  }

  function Encode(d: seq<Byte>): seq<Byte> {
    if |d| == 0 then []
    else if |d| < 3 then EncodeGroup(d)
    else EncodeGroup(d[..3]) + Encode(d[3..])
  }

  /** `encode`: over the chunks of three of the data. */
  method EncodeChunks(data: seq<Byte>) returns (out: seq<Byte>)
    ensures out == Encode(data)
  {
    out := [];
    var i := 0;
    while i < |data|
      invariant 0 <= i <= |data| && Encode(data) == out + Encode(data[i..])
    {
      var j := if i + 3 <= |data| then i + 3 else |data|;
      var chunk := data[i..j];
      assert data[i..][..j - i] == chunk && data[i..][j - i..] == data[j..];
      out := out + EncodeGroup(chunk);
      i := j;
    }
  }

  //
  // Decoding
  //

  /** How a group of four ends: 0, 1 or 2 padding characters after two or more letters. */
  function PadCount(g: seq<Byte>): (r: Option<nat>)
    requires |g| == 4
    ensures r.Some? ==> r.value <= 2
  {
    if !InAlphabet(g[0]) || !InAlphabet(g[1]) then None
    else if InAlphabet(g[2]) && InAlphabet(g[3]) then Some(0)
    else if InAlphabet(g[2]) && g[3] == PAD then Some(1)
    else if g[2] == PAD && g[3] == PAD then Some(2)
    else None
  }

  function ValueOr0(c: Byte): Sextet { if InAlphabet(c) then DecodeChar(c).value else 0 }

  function GroupBits(g: seq<Byte>): int
    requires |g| == 4
  {
    Bits4(ValueOr0(g[0]), ValueOr0(g[1]), ValueOr0(g[2]), ValueOr0(g[3]))
  }

  function DecodeGroup(g: seq<Byte>, pad: nat): (d: seq<Byte>)
    requires |g| == 4
    ensures pad <= 2 ==> |d| == 3 - pad
  {
    var n := GroupBits(g);
    BytesOfSextets(ValueOr0(g[0]), ValueOr0(g[1]), ValueOr0(g[2]), ValueOr0(g[3]));
    [n / 0x10000] + (if pad < 2 then [n / 0x100 % 0x100] else []) + (if pad < 1 then [n % 0x100] else [])
  }

  /** The bytes of the groups of four, if every group is good and only the last one is padded. */
  function Decode(s: seq<Byte>): Option<seq<Byte>>
    decreases |s|
  {
    if s == [] then Some([])
    else if |s| < 4 then None
    else
      var pad := PadCount(s[..4]);
      if pad.None? || (pad.value > 0 && |s| > 4) then None
      else match Decode(s[4..])
        case None => None
        case Some(rest) => Some(DecodeGroup(s[..4], pad.value) + rest)
  }

  lemma {:induction false} DecodeLength(s: seq<Byte>)
    ensures Decode(s).Some? ==> |s| % 4 == 0
    decreases |s|
  {
    hide PadCount, DecodeGroup;
    if |s| >= 4 {
      DecodeLength(s[4..]);
      assert |s| == |s[4..]| + 4;
    }
  }

  /** One group, character by character, as the inner loop of `decode` takes it. */
  method ScanGroup(group: seq<Byte>, isLast: bool) returns (ok: bool, vals: array<Sextet>, pad: nat)
    requires |group| == 4
    ensures fresh(vals) && vals.Length == 4
    ensures ok <==> PadCount(group).Some? && (PadCount(group).value > 0 ==> isLast)
    ensures ok ==> Some(pad) == PadCount(group) && forall k :: 0 <= k < 4 ==> vals[k] == ValueOr0(group[k])
  {
    vals := new Sextet[4](_ => 0);
    pad := 0;
    for j := 0 to 4
      invariant pad <= j && (pad > 0 ==> isLast && j - pad >= 2)
      invariant forall k :: 0 <= k < j - pad ==> InAlphabet(group[k])
      invariant forall k :: j - pad <= k < j ==> group[k] == PAD
      invariant forall k :: 0 <= k < 4 ==> vals[k] == if k < j then ValueOr0(group[k]) else 0
    {
      var c := group[j];
      if c == PAD {
        if !isLast || j < 2 {
          ok := false;
          return;
        }
        pad := pad + 1;
      } else {
        if pad > 0 {
          ok := false;
          return;
        }
        var v := DecodeChar(c);
        if v.None? {
          ok := false;
          return;
        }
        vals[j] := v.value;
      }
    }
    ok := true;
  }

  /** The bytes of one scanned group, pushed one by one. */
  method Emit(before: seq<Byte>, ghost group: seq<Byte>, vals: array<Sextet>, pad: nat) returns (out: seq<Byte>)
    requires |group| == 4 && vals.Length == 4 && forall k :: 0 <= k < 4 ==> vals[k] == ValueOr0(group[k])
    ensures out == before + DecodeGroup(group, pad)
  {
    var n := Bits4(vals[0], vals[1], vals[2], vals[3]);
    BytesOfSextets(vals[0], vals[1], vals[2], vals[3]);
    out := before + [n / 0x10000];
    if pad < 2 {
      out := out + [n / 0x100 % 0x100];
    }
    if pad < 1 {
      out := out + [n % 0x100];
    }
  }

  lemma Regroup(a: seq<Byte>, b: seq<Byte>, c: seq<Byte>)
    ensures a + b + c == a + (b + c)
  {
  }

  /** `decode`: over the chunks of four of the text. */
  method DecodeChunks(s: seq<Byte>) returns (r: Option<seq<Byte>>)
    ensures r == Decode(s)
  {
    hide PadCount, DecodeGroup;
    DecodeLength(s);
    if |s| % 4 != 0 {
      return None;
    }
    var out: seq<Byte> := [];
    var i := 0;
    assert s[0..] == s && (Decode(s).Some? ==> [] + Decode(s).value == Decode(s).value);
    while i < |s|
      invariant 0 <= i <= |s| && i % 4 == 0
      invariant Decode(s) == if Decode(s[i..]).None? then None else Some(out + Decode(s[i..]).value)
    {
      var group := s[i..i + 4];
      assert s[i..][..4] == group && s[i..][4..] == s[i + 4..];
      var ok, vals, pad := ScanGroup(group, i + 4 == |s|);
      if !ok {
        return None;
      }
      ghost var was := out;
      out := Emit(out, group, vals, pad);
      if Decode(s[i + 4..]).Some? {
        Regroup(was, DecodeGroup(group, pad), Decode(s[i + 4..]).value);
      }
      i := i + 4;
    }
    assert s[i..] == [] && out + [] == out;
    r := Some(out);
  }

  //
  // What the two promise each other
  //

  /** RFC 4648 section 4: groups of four from the alphabet, the last one padded with at most two. */
  ghost predicate Strict(s: seq<Byte>) {
    && |s| % 4 == 0
    && exists pad: nat :: StrictWith(s, pad)
  }

  ghost predicate StrictWith(s: seq<Byte>, pad: nat) {
    && pad <= 2 && (pad > 0 ==> |s| >= 4) && pad <= |s|
    && (forall k :: 0 <= k < |s| - pad ==> InAlphabet(s[k]))
    && (forall k :: |s| - pad <= k < |s| ==> s[k] == PAD)
  }

  /** The bits of the last letter that no byte uses: two after one padding character, four after two. */
  function UnusedBits(g: seq<Byte>): nat
    requires |g| == 4 && PadCount(g).Some?
  {
    match PadCount(g).value
    case 0 => 0
    case 1 => ValueOr0(g[2]) % 4
    case _ => ValueOr0(g[1]) % 16
  }

  /** The group with its unused bits cleared. */
  function ClearedGroup(g: seq<Byte>): (h: seq<Byte>)
    requires |g| == 4 && PadCount(g).Some?
    ensures |h| == 4
  {
    match PadCount(g).value
    case 0 => g
    case 1 => [g[0], g[1], Letter(ValueOr0(g[2]) / 4 * 4), PAD]
    case _ => [g[0], Letter(ValueOr0(g[1]) / 16 * 16), PAD, PAD]
  }

  /** The text with the unused bits of its last group cleared. */
  function Cleared(s: seq<Byte>): seq<Byte>
    requires Decode(s).Some?
  {
    DecodeLastGroup(s);
    if s == [] then [] else s[..|s| - 4] + ClearedGroup(s[|s| - 4..])
  }

  lemma ClearedGroupIff(g: seq<Byte>)
    requires |g| == 4 && PadCount(g).Some?
    ensures ClearedGroup(g) == g <==> UnusedBits(g) == 0
  {
    hide Letter, DecodeChar;
    assert g == [g[0], g[1], g[2], g[3]];
    if PadCount(g).value == 1 {
      var v := ValueOr0(g[2]);
      assert v == v / 4 * 4 + v % 4;
      LetterOfChar(g[2]);
      assert DecodeChar(Letter(v / 4 * 4)) == Some(v / 4 * 4);
    } else if PadCount(g).value == 2 {
      var v := ValueOr0(g[1]);
      assert v == v / 16 * 16 + v % 16;
      LetterOfChar(g[1]);
      assert DecodeChar(Letter(v / 16 * 16)) == Some(v / 16 * 16);
    }
  }

  lemma DecodesIffStrict(s: seq<Byte>)
    ensures Decode(s).Some? <==> Strict(s)
    decreases |s|
  {
    DecodeLength(s);
    if |s| % 4 == 0 {
      if s == [] {
        assert StrictWith(s, 0);
      } else {
        DecodesIffStrict(s[4..]);
        if Decode(s).Some? {
          var pad := PadCount(s[..4]).value;
          if |s| == 4 {
            assert s[..4] == s;
            assert StrictWith(s, pad);
          } else {
            var q: nat :| StrictWith(s[4..], q);
            StrictUp(s, q);
          }
        }
        if Strict(s) {
          var q: nat :| StrictWith(s, q);
          StrictDown(s, q);
        }
      }
    }
  }

  lemma StrictUp(s: seq<Byte>, q: nat)
    requires |s| % 4 == 0 && |s| > 4 && StrictWith(s[4..], q) && PadCount(s[..4]) == Some(0)
    ensures StrictWith(s, q)
  {
    forall k | 0 <= k < |s| - q ensures InAlphabet(s[k]) {
      if k < 4 { assert s[..4][k] == s[k]; } else { assert s[4..][k - 4] == s[k]; }
    }
    forall k | |s| - q <= k < |s| ensures s[k] == PAD {
      assert s[4..][k - 4] == s[k];
    }
  }

  lemma StrictDown(s: seq<Byte>, q: nat)
    requires |s| % 4 == 0 && |s| >= 4 && StrictWith(s, q)
    ensures PadCount(s[..4]).Some? && (|s| > 4 ==> PadCount(s[..4]) == Some(0) && StrictWith(s[4..], q))
    ensures |s| == 4 ==> Strict([]) && s[4..] == []
  {
    assert StrictWith([], 0);
    assert forall k :: 0 <= k < 4 ==> s[..4][k] == s[k];
    assert forall k :: 0 <= k < |s[4..]| ==> s[4..][k] == s[k + 4];
    assert InAlphabet(s[0]) && InAlphabet(s[1]);
    assert q < 2 ==> InAlphabet(s[2]) || |s| == 4;
  }

  lemma Quotient(n: int, m: int, q: int, r: int)
    requires m == 0x40 || m == 0x100 || m == 0x1000 || m == 0x10000 || m == 0x40000
    requires 0 <= r < m && n == q * m + r
    ensures n / m == q && n % m == r
  {
    if m == 0x40 {
    } else if m == 0x100 {
    } else if m == 0x1000 {
    } else if m == 0x10000 {
    }
  }

  /** Bytes as base-256 digits, sextets as base-64 digits of the same number. */
  lemma BytesOfSextets(a: Sextet, b: Sextet, c: Sextet, d: Sextet)
    ensures var n := Bits4(a, b, c, d);
            && n / 0x10000 == a * 4 + b / 16 < 0x100
            && n / 0x100 % 0x100 == b % 16 * 16 + c / 4
            && n % 0x100 == c % 4 * 64 + d
  {
    var n := Bits4(a, b, c, d);
    var x: int, y: int, z: int := a * 4 + b / 16, b % 16 * 16 + c / 4, c % 4 * 64 + d;
    assert n == x * 0x10000 + y * 0x100 + z;
    Quotient(n, 0x10000, x, y * 0x100 + z);
    Quotient(n, 0x100, x * 0x100 + y, z);
    Quotient(x * 0x100 + y, 0x100, x, y);
  }

  lemma SextetsOfBytes(x: Byte, y: Byte, z: Byte)
    ensures var n := Bits3(x, y, z);
            && n / 0x40000 % 0x40 == x / 4 && n / 0x1000 % 0x40 == x % 4 * 16 + y / 16
            && n / 0x40 % 0x40 == y % 16 * 4 + z / 64 && n % 0x40 == z % 64
  {
    var n := Bits3(x, y, z);
    var a: int, b: int, c: int, d: int := x / 4, x % 4 * 16 + y / 16, y % 16 * 4 + z / 64, z % 64;
    assert n == a * 0x40000 + b * 0x1000 + c * 0x40 + d;
    Quotient(n, 0x40000, a, b * 0x1000 + c * 0x40 + d);
    Quotient(a, 0x40, 0, a);
    Quotient(n, 0x1000, a * 0x40 + b, c * 0x40 + d);
    Quotient(a * 0x40 + b, 0x40, a, b);
    Quotient(n, 0x40, a * 0x1000 + b * 0x40 + c, d);
    Quotient(a * 0x1000 + b * 0x40 + c, 0x40, a * 0x40 + b, c);
  }

  lemma EncodeGroupForm(d: seq<Byte>)
    requires 1 <= |d| <= 3
    ensures var x, y, z := d[0], if |d| > 1 then d[1] else 0, if |d| > 2 then d[2] else 0;
            EncodeGroup(d) == [Letter(x / 4), Letter(x % 4 * 16 + y / 16),
                               if |d| > 1 then Letter(y % 16 * 4 + z / 64) else PAD,
                               if |d| > 2 then Letter(z % 64) else PAD]
  {
    hide Bits3, Letter, DecodeChar;
    var x, y, z := d[0], if |d| > 1 then d[1] else 0, if |d| > 2 then d[2] else 0;
    SextetsOfBytes(x, y, z);
    var n := Bits3(x, y, z);
    var a: Sextet, b: Sextet, c: Sextet, e: Sextet :=
      n / 0x40000 % 0x40, n / 0x1000 % 0x40, n / 0x40 % 0x40, n % 0x40;
    assert EncodeGroup(d) == [Letter(a), Letter(b), if |d| > 1 then Letter(c) else PAD, if |d| > 2 then Letter(e) else PAD];
  }

  lemma DecodeGroupForm(g: seq<Byte>, pad: nat)
    requires |g| == 4
    ensures var a, b, c, d := ValueOr0(g[0]), ValueOr0(g[1]), ValueOr0(g[2]), ValueOr0(g[3]);
            DecodeGroup(g, pad) == [a * 4 + b / 16] + (if pad < 2 then [b % 16 * 16 + c / 4] else [])
                                   + (if pad < 1 then [c % 4 * 64 + d] else [])
  {
    hide Bits4, ValueOr0;
    BytesOfSextets(ValueOr0(g[0]), ValueOr0(g[1]), ValueOr0(g[2]), ValueOr0(g[3]));
  }

  lemma GroupRoundTrip(d: seq<Byte>)
    requires 1 <= |d| <= 3
    ensures var g := EncodeGroup(d);
            PadCount(g) == Some(3 - |d|) && DecodeGroup(g, 3 - |d|) == d
  {
    hide Letter, DecodeChar, EncodeGroup, DecodeGroup;
    EncodeGroupForm(d);
    DecodeGroupForm(EncodeGroup(d), 3 - |d|);
    GroupBytes(d[0], if |d| > 1 then d[1] else 0, if |d| > 2 then d[2] else 0);
  }

  lemma GroupBytes(x: Byte, y: Byte, z: Byte)
    ensures x / 4 * 4 + (x % 4 * 16 + y / 16) / 16 == x
    ensures (x % 4 * 16 + y / 16) % 16 * 16 + (y % 16 * 4 + z / 64) / 4 == y
    ensures (x % 4 * 16 + y / 16) % 16 * 16 + y % 16 == y
    ensures (y % 16 * 4 + z / 64) % 4 * 64 + z % 64 == z
  {
  }

  /** `decode(encode(d)) == d` for every byte sequence. */
  lemma {:induction false} DecodeEncode(d: seq<Byte>)
    ensures Decode(Encode(d)) == Some(d)
    decreases |d|
  {
    hide EncodeGroup, DecodeGroup, PadCount;
    if |d| == 0 {
    } else if |d| <= 3 {
      GroupRoundTrip(d);
      var g := EncodeGroup(d);
      if |d| == 3 {
        assert d[..3] == d && d[3..] == [];
        assert Encode(d) == g + [] == g;
      }
      assert g[..4] == g && g[4..] == [];
      assert d + [] == d;
    } else {
      GroupRoundTrip(d[..3]);
      DecodeEncode(d[3..]);
      var g := EncodeGroup(d[..3]);
      assert (g + Encode(d[3..]))[..4] == g && (g + Encode(d[3..]))[4..] == Encode(d[3..]);
      assert d[..3] + d[3..] == d;
    }
  }

  /** Encoding one decoded group clears its unused bits and changes nothing else. */
  lemma GroupCleared(g: seq<Byte>)
    requires |g| == 4 && PadCount(g).Some?
    ensures EncodeGroup(DecodeGroup(g, PadCount(g).value)) == ClearedGroup(g)
    ensures PadCount(g) == Some(0) ==> ClearedGroup(g) == g
  {
    hide Letter, DecodeChar, EncodeGroup, DecodeGroup;
    var pad := PadCount(g).value;
    DecodeGroupForm(g, pad);
    EncodeGroupForm(DecodeGroup(g, pad));
    LetterOfChar(g[0]);
    LetterOfChar(g[1]);
    if pad < 2 {
      LetterOfChar(g[2]);
    }
    if pad < 1 {
      LetterOfChar(g[3]);
    }
    GroupDigits(ValueOr0(g[0]), ValueOr0(g[1]), ValueOr0(g[2]), ValueOr0(g[3]));
  }

  lemma GroupDigits(a: Sextet, b: Sextet, c: Sextet, d: Sextet)
    ensures (a * 4 + b / 16) / 4 == a
    ensures (a * 4 + b / 16) % 4 * 16 + (b % 16 * 16 + c / 4) / 16 == b
    ensures (a * 4 + b / 16) % 4 * 16 == b / 16 * 16
    ensures (b % 16 * 16 + c / 4) % 16 * 4 + (c % 4 * 64 + d) / 64 == c
    ensures (b % 16 * 16 + c / 4) % 16 * 4 == c / 4 * 4
    ensures (c % 4 * 64 + d) % 64 == d
  {
  }

  /** What decodes encodes back to itself with its unused trailing bits cleared. */
  lemma {:induction false} EncodeDecode(s: seq<Byte>)
    requires Decode(s).Some?
    ensures Encode(Decode(s).value) == Cleared(s)
    decreases |s|
  {
    hide EncodeGroup, DecodeGroup, PadCount, ClearedGroup;
    if s != [] {
      var g := s[..4];
      var pad := PadCount(g).value;
      var d := DecodeGroup(g, pad);
      GroupCleared(g);
      if |s| == 4 {
        assert s[4..] == [] && g == s && s[0..] == s && s[..0] == [];
        assert d + [] == d && [] + ClearedGroup(g) == ClearedGroup(g);
        if pad == 0 {
          assert d[..3] == d && d[3..] == [];
          assert Encode(d) == EncodeGroup(d) + [];
        }
      } else {
        EncodeDecode(s[4..]);
        var rest := Decode(s[4..]).value;
        assert (d + rest)[..3] == d && (d + rest)[3..] == rest;
        ClearedTail(s);
        assert s[..4] + Cleared(s[4..]) == Cleared(s);
      }
    }
  }

  lemma ClearedTail(s: seq<Byte>)
    requires |s| > 4 && Decode(s).Some? && Decode(s[4..]).Some?
    ensures Cleared(s) == s[..4] + Cleared(s[4..])
  {
    hide ClearedGroup, PadCount, Decode;
    var t := s[4..];
    DecodeLastGroup(t);
    assert t[|t| - 4..] == s[|s| - 4..];
    assert s[..|s| - 4] == s[..4] + t[..|t| - 4];
  }

  /** So text survives the trip exactly when those bits were zero. */
  lemma CanonicalIff(s: seq<Byte>)
    requires Decode(s).Some?
    ensures Encode(Decode(s).value) == s <==>
              s == [] || (PadCount(s[|s| - 4..]).Some? && UnusedBits(s[|s| - 4..]) == 0)
  {
    hide ClearedGroup, PadCount, UnusedBits, Encode, Decode;
    EncodeDecode(s);
    DecodeLastGroup(s);
    if s != [] {
      var p := |s| - 4;
      ClearedGroupIff(s[p..]);
      assert s[..p] + s[p..] == s;
      assert (s[..p] + ClearedGroup(s[p..]))[p..] == ClearedGroup(s[p..]);
    }
  }

  /** "QR==" does not survive: it decodes to "A", which encodes to "QQ==". */
  lemma NotCanonical()
    ensures Ascii("QR==") != Ascii("QQ==") && Decode(Ascii("QR==")) == Some(Ascii("A"))
    ensures Encode(Ascii("A")) == Ascii("QQ==")
  {
    var s := Ascii("QR==");
    assert s == [0x51, 0x52, 0x3D, 0x3D] && Ascii("A") == [0x41] && Ascii("QQ==") == [0x51, 0x51, 0x3D, 0x3D];
    assert s[..4] == s && s[4..] == [];
    assert DecodeChar(0x51) == Some(16) && DecodeChar(0x52) == Some(17);
    assert PadCount(s) == Some(2) && ValueOr0(PAD) == 0;
    assert GroupBits(s) == 16 * 0x40000 + 17 * 0x1000;
    assert DecodeGroup(s, 2) == [0x41] == [0x41] + [];
    assert Decode(s) == Some(DecodeGroup(s, 2) + []);
    assert EncodeGroup([0x41]) == [0x51, 0x51, 0x3D, 0x3D];
  }

  lemma {:induction false} DecodeLastGroup(s: seq<Byte>)
    requires Decode(s).Some?
    ensures s != [] ==> |s| >= 4 && PadCount(s[|s| - 4..]).Some?
    decreases |s|
  {
    hide PadCount;
    if |s| > 4 {
      DecodeLastGroup(s[4..]);
      assert s[4..][|s| - 8..] == s[|s| - 4..];
    } else if s != [] {
      assert s[..4] == s[|s| - 4..];
    }
  }

  lemma EncodeAscii(d: seq<Byte>)
    ensures forall c :: c in Encode(d) ==> c < 0x80
    decreases |d|
  {
    if |d| >= 3 {
      EncodeAscii(d[3..]);
    }
  }

  //
  // The alphabet, written out
  //

  const UPPER := "ABCDEFGHIJKLMNOPQRSTUVWXYZ"
  const LOWER := "abcdefghijklmnopqrstuvwxyz"

  /** Table 1 of RFC 4648 section 4. */
  const TABLE := UPPER + LOWER + "0123456789" + "+/"

  function Ascii(s: string): (u: seq<Byte>)
    requires forall k :: 0 <= k < |s| ==> s[k] as int < 0x80
    ensures u == J.Ascii(s)
  {
    seq(|s|, k requires 0 <= k < |s| => s[k] as int)
  }

  /** `c` is the character that stands for `v`. */
  predicate StandsFor(c: int, v: int) { 0 <= v < 64 && c == TABLE[v] as int }

  lemma TablePlaces(v: Sextet)
    ensures |TABLE| == 64
    ensures TABLE[v] == if v < 26 then UPPER[v] else if v < 52 then LOWER[v - 26]
                        else if v < 62 then "0123456789"[v - 52] else "+/"[v - 62]
  {
  }

  lemma LetterText(v: Sextet)
    ensures StandsFor(Letter(v), v)
  {
    TablePlaces(v);
    if v < 26 {
      assert UPPER[v] as int == 0x41 + v;
    } else if v < 52 {
      assert LOWER[v - 26] as int == 0x61 + (v - 26);
    } else if v < 62 {
      assert "0123456789"[v - 52] as int == 0x30 + (v - 52);
    } else {
      assert "+/"[v - 62] as int == if v == 62 then 0x2B else 0x2F;
    }
  }

  lemma CharText(c: Byte, v: int)
    ensures DecodeChar(c) == Some(v) <==> StandsFor(c, v)
  {
    if DecodeChar(c) == Some(v) {
      LetterOfChar(c);
      LetterText(v);
    }
    if StandsFor(c, v) {
      LetterText(v);
    }
  }

  /** Four characters for three bytes, of which the first `n` are there. */
  ghost predicate Spelled(x: Byte, y: Byte, z: Byte, n: int, p: int, q: int, r: int, t: int) {
    && StandsFor(p, x / 4) && StandsFor(q, x % 4 * 16 + y / 16)
    && (if n > 1 then StandsFor(r, y % 16 * 4 + z / 64) else r == '=' as int)
    && (if n > 2 then StandsFor(t, z % 64) else t == '=' as int)
  }

  /** The `g`-th three bytes, or what is left of them, as four characters. */
  ghost predicate EncodesGroup(d: seq<Byte>, s: seq<Byte>, g: nat) {
    3 * g < |d| && 4 * g + 4 <= |s| &&
    var y := if 3 * g + 1 < |d| then d[3 * g + 1] else 0;
    var z := if 3 * g + 2 < |d| then d[3 * g + 2] else 0;
    Spelled(d[3 * g], y, z, |d| - 3 * g, s[4 * g], s[4 * g + 1], s[4 * g + 2], s[4 * g + 3])
  }

  /** Every encoding, character by character. */
  lemma {:induction false} EncodedText(d: seq<Byte>)
    ensures |Encode(d)| == 4 * ((|d| + 2) / 3)
    ensures forall g: nat :: 3 * g < |d| ==> EncodesGroup(d, Encode(d), g)
    decreases |d|
  {
    hide EncodeGroup, EncodesGroup;
    if d == [] {
    } else if |d| < 3 {
      OneGroup(d, Encode(d));
    } else {
      var head, rest := d[..3], d[3..];
      EncodedText(rest);
      OneGroup(head, EncodeGroup(head));
      assert |d| + 2 == (|rest| + 2) + 3;
      forall g: nat | 3 * g < |d| ensures EncodesGroup(d, Encode(d), g) {
        if g == 0 {
          FirstGroup(d, Encode(rest));
        } else {
          assert EncodesGroup(rest, Encode(rest), g - 1);
          LaterGroup(d, EncodeGroup(head), Encode(rest), g);
        }
      }
    }
  }

  lemma OneGroup(d: seq<Byte>, s: seq<Byte>)
    requires 1 <= |d| <= 3 && s == EncodeGroup(d)
    ensures EncodesGroup(d, s, 0)
  {
    hide Letter, EncodeGroup, Spelled;
    EncodeGroupForm(d);
    LettersSpell(d[0], if |d| > 1 then d[1] else 0, if |d| > 2 then d[2] else 0, |d|);
    assert 3 * 0 == 0 && 4 * 0 == 0;
  }

  lemma LettersSpell(x: Byte, y: Byte, z: Byte, n: int)
    ensures Spelled(x, y, z, n, Letter(x / 4), Letter(x % 4 * 16 + y / 16),
                    if n > 1 then Letter(y % 16 * 4 + z / 64) else PAD, if n > 2 then Letter(z % 64) else PAD)
  {
    hide Letter, StandsFor, DecodeChar;
    LetterText(x / 4);
    LetterText(x % 4 * 16 + y / 16);
    LetterText(y % 16 * 4 + z / 64);
    LetterText(z % 64);
  }

  lemma FirstGroup(d: seq<Byte>, more: seq<Byte>)
    requires |d| >= 3 && EncodesGroup(d[..3], EncodeGroup(d[..3]), 0)
    ensures EncodesGroup(d, EncodeGroup(d[..3]) + more, 0)
  {
    hide StandsFor, EncodeGroup;
    assert d[..3][0] == d[0] && d[..3][1] == d[1] && d[..3][2] == d[2];
  }

  lemma LaterGroup(d: seq<Byte>, s: seq<Byte>, more: seq<Byte>, g: nat)
    requires |d| >= 3 && |s| == 4 && g > 0 && EncodesGroup(d[3..], more, g - 1)
    ensures EncodesGroup(d, s + more, g)
  {
    hide Spelled;
    var t := s + more;
    assert forall k :: 4 <= k < |t| ==> t[k] == more[k - 4];
    assert forall k :: 3 <= k < |d| ==> d[k] == d[3..][k - 3];
  }

  //
  // Decoding, written out
  //

  /** Strictly padded text of the standard alphabet. */
  ghost predicate StrictText(s: seq<Byte>) {
    |s| % 4 == 0 && exists pad: nat :: StrictPadded(s, pad)
  }

  ghost predicate StrictPadded(s: seq<Byte>, pad: nat) {
    && pad <= 2 && pad <= |s|
    && (forall k :: 0 <= k < |s| - pad ==> IsLetter(s[k]))
    && (forall k :: |s| - pad <= k < |s| ==> s[k] == '=' as int)
  }

  ghost predicate IsLetter(c: int) { exists v :: StandsFor(c, v) }

  lemma AlphabetText(c: Byte)
    ensures InAlphabet(c) <==> IsLetter(c)
  {
    hide StandsFor, DecodeChar;
    if InAlphabet(c) {
      CharText(c, DecodeChar(c).value);
    }
    if v :| StandsFor(c, v) {
      CharText(c, v);
    }
  }

  /** `decode` accepts exactly such text. */
  lemma DecodesIffText(s: seq<Byte>)
    ensures Decode(s).Some? <==> StrictText(s)
  {
    hide InAlphabet, IsLetter, Decode;
    DecodesIffStrict(s);
    forall c: Byte ensures InAlphabet(c) <==> IsLetter(c) {
      AlphabetText(c);
    }
    assert PAD == '=' as int;
    if |s| % 4 == 0 {
      assert s == [] || |s| >= 4;
      if pad: nat :| StrictWith(s, pad) {
        assert StrictPadded(s, pad);
      }
      if pad: nat :| StrictPadded(s, pad) {
        assert StrictWith(s, pad);
      }
    }
  }

  /** The bytes from `i` on that four characters give, by what these stand for; the last group gives
      one byte less for each padding character. */
  ghost predicate Gives(p: int, q: int, r: int, t: int, d: seq<Byte>, i: nat) {
    && (forall a, b :: StandsFor(p, a) && StandsFor(q, b) ==> i < |d| && d[i] == a * 4 + b / 16)
    && (forall b, c :: StandsFor(q, b) && StandsFor(r, c) ==> i + 1 < |d| && d[i + 1] == b % 16 * 16 + c / 4)
    && (forall c, e :: StandsFor(r, c) && StandsFor(t, e) ==> i + 2 < |d| && d[i + 2] == c % 4 * 64 + e)
  }

  ghost predicate DecodesGroup(s: seq<Byte>, d: seq<Byte>, g: nat) {
    4 * g + 4 <= |s| && Gives(s[4 * g], s[4 * g + 1], s[4 * g + 2], s[4 * g + 3], d, 3 * g)
  }

  lemma {:induction false} DecodedText(s: seq<Byte>, pad: nat)
    requires |s| % 4 == 0 && StrictPadded(s, pad)
    ensures Decode(s).Some? && |Decode(s).value| == |s| / 4 * 3 - pad
    ensures forall g: nat :: 4 * g < |s| ==> DecodesGroup(s, Decode(s).value, g)
    decreases |s|
  {
    hide StandsFor, StrictText, StrictPadded, DecodeGroup, PadCount, Decode, DecodesGroup;
    assert StrictText(s) by { StrictTextFrom(s, pad); }
    DecodesIffText(s);
    var d := Decode(s).value;
    if s == [] {
      NothingDecodes(pad);
    } else {
      var head, rest := s[..4], s[4..];
      DecodeOpens(s);
      GroupText(s, pad);
      var q := PadCount(head).value;
      if |s| > 4 {
        RestStrict(s, pad);
        DecodedText(rest, pad);
        forall g: nat | 4 * g < |s| ensures DecodesGroup(s, d, g) {
          if g > 0 {
            assert DecodesGroup(rest, Decode(rest).value, g - 1);
            LaterDecodes(s, DecodeGroup(head, q), Decode(rest).value, g);
          } else {
            FirstDecodes(s, DecodeGroup(head, q), Decode(rest).value);
          }
        }
      } else {
        assert DecodeGroup(head, q) + [] == d;
        FirstDecodes(s, DecodeGroup(head, q), []);
        assert forall g: nat :: 4 * g < |s| ==> g == 0;
      }
    }
  }

  lemma StrictTextFrom(s: seq<Byte>, pad: nat)
    requires |s| % 4 == 0 && StrictPadded(s, pad)
    ensures StrictText(s)
  {
    hide StrictPadded;
  }

  lemma NothingDecodes(pad: nat)
    requires StrictPadded([], pad)
    ensures pad == 0 && Decode([]) == Some([])
  {
  }

  lemma DecodeStep(s: seq<Byte>)
    requires |s| >= 4
    ensures var pad, rest := PadCount(s[..4]), Decode(s[4..]);
            Decode(s) == if pad.None? || (pad.value > 0 && |s| > 4) || rest.None? then None
                         else Some(DecodeGroup(s[..4], pad.value) + rest.value)
  {
    hide DecodeGroup, PadCount;
  }

  lemma DecodeOpens(s: seq<Byte>)
    requires s != [] && Decode(s).Some?
    ensures |s| >= 4 && PadCount(s[..4]).Some? && Decode(s[4..]).Some?
    ensures Decode(s).value == DecodeGroup(s[..4], PadCount(s[..4]).value) + Decode(s[4..]).value
    ensures |s| > 4 ==> PadCount(s[..4]) == Some(0)
    ensures |s| == 4 ==> s[4..] == [] && Decode(s[4..]) == Some([])
  {
    DecodeLastGroup(s);
    hide DecodeGroup, PadCount, Decode;
    DecodeStep(s);
    NoBytes();
    assert |s| == 4 ==> s[4..] == [];
  }

  lemma NoBytes()
    ensures Decode([]) == Some([])
  {
  }

  lemma RestStrict(s: seq<Byte>, pad: nat)
    requires |s| % 4 == 0 && |s| > 4 && StrictPadded(s, pad)
    ensures |s[4..]| % 4 == 0 && StrictPadded(s[4..], pad) && |s| / 4 == |s[4..]| / 4 + 1
  {
    hide IsLetter;
    var t := s[4..];
    assert forall k :: 0 <= k < |t| ==> t[k] == s[k + 4];
    assert |s| == |t| + 4;
  }

  /** The first group by itself. */
  lemma GroupText(s: seq<Byte>, pad: nat)
    requires |s| >= 4 && |s| % 4 == 0 && StrictPadded(s, pad) && PadCount(s[..4]).Some?
    ensures var q := PadCount(s[..4]).value; var d := DecodeGroup(s[..4], q);
            && q == (if |s| == 4 then pad else 0) && |d| == 3 - q && DecodesGroup(s[..4], d, 0)
  {
    hide StandsFor, DecodeGroup, InAlphabet, IsLetter;
    var g := s[..4];
    forall c: Byte ensures InAlphabet(c) <==> IsLetter(c) {
      AlphabetText(c);
    }
    assert !InAlphabet(PAD) by { NoPad(); }
    assert forall k :: 0 <= k < 4 ==> g[k] == s[k];
    assert 4 * 0 == 0 && 3 * 0 == 0;
    GroupValues(g);
    DecodeGroupForm(g, PadCount(g).value);
  }

  lemma NoPad()
    ensures !InAlphabet(PAD)
  {
  }

  lemma GroupValues(g: seq<Byte>)
    requires |g| == 4
    ensures forall k, v :: 0 <= k < 4 && StandsFor(g[k], v) ==> ValueOr0(g[k]) == v && InAlphabet(g[k])
  {
    hide StandsFor, DecodeChar;
    forall k, v | 0 <= k < 4 && StandsFor(g[k], v) ensures ValueOr0(g[k]) == v && InAlphabet(g[k]) {
      CharText(g[k], v);
    }
  }

  lemma FirstDecodes(s: seq<Byte>, d: seq<Byte>, more: seq<Byte>)
    requires |s| >= 4 && DecodesGroup(s[..4], d, 0)
    ensures DecodesGroup(s, d + more, 0)
  {
    assert s[..4][0] == s[0] && s[..4][1] == s[1] && s[..4][2] == s[2] && s[..4][3] == s[3];
    Moved(s[0], s[1], s[2], s[3], [], d, more, 0);
    assert [] + d + more == d + more;
  }

  lemma LaterDecodes(s: seq<Byte>, d: seq<Byte>, more: seq<Byte>, g: nat)
    requires |s| >= 4 && |d| == 3 && g > 0 && DecodesGroup(s[4..], more, g - 1)
    ensures DecodesGroup(s, d + more, g)
  {
    hide Gives;
    var t, j := s[4..], 4 * (g - 1);
    assert 4 * g == j + 4 && 3 * g == 3 * (g - 1) + 3;
    assert t[j] == s[j + 4] && t[j + 1] == s[j + 5] && t[j + 2] == s[j + 6] && t[j + 3] == s[j + 7];
    Moved(s[j + 4], s[j + 5], s[j + 6], s[j + 7], d, more, [], 3 * (g - 1));
    assert d + more + [] == d + more;
  }

  lemma Moved(p: int, q: int, r: int, t: int, before: seq<Byte>, d: seq<Byte>, after: seq<Byte>, i: nat)
    requires Gives(p, q, r, t, d, i)
    ensures Gives(p, q, r, t, before + d + after, |before| + i)
  {
    hide StandsFor;
    var e := before + d + after;
    assert forall k :: 0 <= k < |d| ==> e[|before| + k] == d[k];
  }

  /** What is decoded encodes to the same text if and only if the unused bits of the last letter are
      zero: two before one padding character, four before two. */
  lemma CanonicalText(s: seq<Byte>, pad: nat, v: int)
    requires |s| % 4 == 0 && pad < |s| && StrictPadded(s, pad) && StandsFor(s[|s| - 1 - pad], v)
    ensures Decode(s).Some?
    ensures Encode(Decode(s).value) == s <==> v % (if pad == 0 then 1 else if pad == 1 then 4 else 16) == 0
  {
    hide StandsFor, StrictPadded, Decode, Encode, DecodeGroup, PadCount;
    DecodedText(s, pad);
    CanonicalIff(s);
    DecodeLastGroup(s);
    var g := s[|s| - 4..];
    SuffixStrict(s, pad);
    assert g[..4] == g;
    GroupText(g, pad);
    GroupValues(g);
    assert pad <= 2 by { PadAtMost(s, pad); }
    assert g[3 - pad] == s[|s| - 1 - pad];
  }

  lemma PadAtMost(s: seq<Byte>, pad: nat)
    requires StrictPadded(s, pad)
    ensures pad <= 2
  {
  }

  lemma SuffixStrict(s: seq<Byte>, pad: nat)
    requires |s| % 4 == 0 && |s| >= 4 && StrictPadded(s, pad)
    ensures StrictPadded(s[|s| - 4..], pad)
  {
    hide IsLetter;
    var g := s[|s| - 4..];
    assert forall k :: 0 <= k < 4 ==> g[k] == s[|s| - 4 + k];
  }
}
