/** The two writers as their sources run them: appending to a buffer that is passed down. */
module Writers {
  import opened Json
  import opened JsonWriter

  /** Rust's `String` under construction, and Java's `StringBuilder`. */
  class Buffer {
    var text: seq<int>

    constructor ()
      ensures text == []
    {
      text := [];
    }

    method Push(c: int)
      modifies this
      ensures text == old(text) + [c]
    {
      text := text + [c];
    }

    method PushStr(s: seq<int>)
      modifies this
      ensures text == old(text) + s
    {
      text := text + s;
    }
  }

  lemma WriteCharsStep(s: seq<int>, i: nat)
    requires i < |s|
    ensures WriteChars(s[..i + 1]) == WriteChars(s[..i]) + WriteChar(s[i])
    decreases i
  {
    if i == 0 {
      assert s[..1][1..] == [];
    } else {
      WriteCharsStep(s[1..], i - 1);
      assert s[..i + 1][1..] == s[1..][..i] && s[..i][1..] == s[1..][..i - 1];
    }
  }

  lemma Enclosed(a: seq<int>, open: int, mid: seq<int>, close: int)
    ensures a + [open] + mid + [close] == a + ([open] + (mid + [close]))
  {
  }

  /** One round of `write_string`. */
  method PutChar(c: int, out: Buffer)
    modifies out
    ensures out.text == old(out.text) + WriteChar(c)
  {
    if c == QUOTE {
      out.PushStr([BACKSLASH, QUOTE]);
    } else if c == BACKSLASH {
      out.PushStr([BACKSLASH, BACKSLASH]);
    } else if c == 0x08 {
      out.PushStr([BACKSLASH, 0x62]);
    } else if c == 0x0C {
      out.PushStr([BACKSLASH, 0x66]);
    } else if c == 0x0A {
      out.PushStr([BACKSLASH, 0x6E]);
    } else if c == 0x0D {
      out.PushStr([BACKSLASH, 0x72]);
    } else if c == 0x09 {
      out.PushStr([BACKSLASH, 0x74]);
    } else if 0 <= c < 0x20 {
      out.PushStr([BACKSLASH, LETTER_U, 0x30, 0x30, HexDigit(c / 16), HexDigit(c % 16)]);
    } else {
      out.Push(c);
    }
  }

  /** `write_string`: also what `JsonWriter.writeString` does, unit by unit. */
  method PutString(s: seq<int>, out: Buffer)
    modifies out
    ensures out.text == old(out.text) + WriteString(s)
  {
    hide WriteChar;
    out.Push(QUOTE);
    ghost var start := out.text;
    for i := 0 to |s|
      invariant out.text == start + WriteChars(s[..i])
    {
      WriteCharsStep(s, i);
      PutChar(s[i], out);
    }
    assert s[..|s|] == s;
    Enclosed(old(out.text), QUOTE, WriteChars(s), QUOTE);
    out.Push(QUOTE);
  }

  /** What the element loop has written before its `i`-th round. */
  function ItemsPrefix(items: seq<Json>, i: nat): seq<int>
    requires i <= |items|
  {
    if i == 0 then [] else ItemsPrefix(items, i - 1) + (if i > 1 then [COMMA] else []) + Write(items[i - 1])
  }

  function MembersPrefix(ms: seq<Member>, i: nat): seq<int>
    requires i <= |ms|
  {
    if i == 0 then [] else MembersPrefix(ms, i - 1) + (if i > 1 then [COMMA] else []) + WriteMember(ms[i - 1])
  }

  lemma Regroup(p: seq<int>, c: seq<int>, x: seq<int>, more: seq<int>)
    ensures p + c + (x + more) == p + c + x + more
  {
  }

  lemma {:induction false} ItemsPrefixAll(items: seq<Json>, i: nat)
    requires i <= |items|
    ensures WriteItems(items) ==
              ItemsPrefix(items, i) + (if 0 < i < |items| then [COMMA] else []) + WriteItems(items[i..])
  {
    hide Write;
    if i == 0 {
      assert items[0..] == items;
    } else {
      ItemsPrefixAll(items, i - 1);
      var rest := items[i - 1..];
      assert rest[0] == items[i - 1] && rest[1..] == items[i..];
      var last := if i == |items| then [] else [COMMA] + WriteItems(items[i..]);
      Regroup(ItemsPrefix(items, i - 1), if i > 1 then [COMMA] else [], Write(items[i - 1]), last);
    }
  }

  lemma {:induction false} MembersPrefixAll(ms: seq<Member>, i: nat)
    requires i <= |ms|
    ensures WriteMembers(ms) ==
              MembersPrefix(ms, i) + (if 0 < i < |ms| then [COMMA] else []) + WriteMembers(ms[i..])
  {
    hide WriteMember;
    if i == 0 {
      assert ms[0..] == ms;
    } else {
      MembersPrefixAll(ms, i - 1);
      var rest := ms[i - 1..];
      assert rest[0] == ms[i - 1] && rest[1..] == ms[i..];
      var last := if i == |ms| then [] else [COMMA] + WriteMembers(ms[i..]);
      Regroup(MembersPrefix(ms, i - 1), if i > 1 then [COMMA] else [], WriteMember(ms[i - 1]), last);
    }
  }

  /** One round of the element loop. */
  lemma ItemNext(start: seq<int>, items: seq<Json>, i: nat)
    requires i < |items|
    ensures var was := start + ItemsPrefix(items, i);
            start + ItemsPrefix(items, i + 1) == (if i > 0 then was + [COMMA] else was) + Write(items[i])
  {
    hide Write;
  }

  lemma MemberNext(start: seq<int>, ms: seq<Member>, i: nat)
    requires i < |ms|
    ensures var was := start + MembersPrefix(ms, i);
            start + MembersPrefix(ms, i + 1)
              == (if i > 0 then was + [COMMA] else was) + WriteString(ms[i].key) + [COLON] + Write(ms[i].value)
  {
    hide Write, WriteString;
    Appended(start, MembersPrefix(ms, i), if i > 0 then [COMMA] else [], WriteString(ms[i].key), Write(ms[i].value));
  }

  lemma Appended(a: seq<int>, p: seq<int>, c: seq<int>, k: seq<int>, v: seq<int>)
    ensures a + (p + c + (k + ([COLON] + v))) == a + p + c + k + [COLON] + v
    ensures c == [] ==> a + p + c == a + p
  {
  }

  lemma NoneLeft(items: seq<Json>, ms: seq<Member>)
    ensures WriteItems(items[|items|..]) == [] && WriteMembers(ms[|ms|..]) == []
    ensures ItemsPrefix(items, 0) == [] && MembersPrefix(ms, 0) == []
  {
  }

  /** `write_value`, with its `i > 0` separators. */
  method WriteValue(value: Json, out: Buffer)
    modifies out
    ensures out.text == old(out.text) + Write(value)
    decreases value, 1
  {
    hide WriteItems, WriteMembers, WriteString;
    match value
    case Null => out.PushStr(NULL_TEXT);
    case Bool(b) => out.PushStr(if b then TRUE_TEXT else FALSE_TEXT);
    case Number(token) => out.PushStr(token);
    case String(s) => PutString(s, out);
    case Array(items) => WriteArray(items, out);
    case Object(members) => WriteObject(members, out);
  }

  method WriteArray(items: seq<Json>, out: Buffer)
    modifies out
    ensures out.text == old(out.text) + ([LBRACKET] + (WriteItems(items) + [RBRACKET]))
    decreases items, 0
  {
    hide Write, WriteItems, ItemsPrefix;
    out.Push(LBRACKET);
    ghost var start := out.text;
    NoneLeft(items, []);
    assert start + [] == start;
    for i := 0 to |items|
      invariant out.text == start + ItemsPrefix(items, i)
    {
      ItemNext(start, items, i);
      if i > 0 {
        out.Push(COMMA);
      }
      WriteValue(items[i], out);
    }
    ItemsPrefixAll(items, |items|);
    Enclosed(old(out.text), LBRACKET, WriteItems(items), RBRACKET);
    out.Push(RBRACKET);
  }

  method WriteObject(members: seq<Member>, out: Buffer)
    modifies out
    ensures out.text == old(out.text) + ([LBRACE] + (WriteMembers(members) + [RBRACE]))
    decreases members, 0
  {
    hide Write, WriteMembers, WriteString, MembersPrefix;
    out.Push(LBRACE);
    ghost var start := out.text;
    NoneLeft([], members);
    assert start + [] == start;
    for i := 0 to |members|
      invariant out.text == start + MembersPrefix(members, i)
    {
      MemberNext(start, members, i);
      if i > 0 {
        out.Push(COMMA);
      }
      PutString(members[i].key, out);
      out.Push(COLON);
      WriteValue(members[i].value, out);
    }
    MembersPrefixAll(members, |members|);
    Enclosed(old(out.text), LBRACE, WriteMembers(members), RBRACE);
    out.Push(RBRACE);
  }

  /** `JsonWriter.writeValue`, with its `first` flag. */
  method JavaWriteValue(value: Json, sb: Buffer)
    modifies sb
    ensures sb.text == old(sb.text) + Write(value)
    decreases value, 1
  {
    hide WriteItems, WriteMembers, WriteString;
    match value
    case Null => sb.PushStr(NULL_TEXT);
    case Bool(b) => sb.PushStr(if b then TRUE_TEXT else FALSE_TEXT);
    case Number(token) => sb.PushStr(token);
    case String(s) => PutString(s, sb);
    case Array(items) => JavaWriteArray(items, sb);
    case Object(members) => JavaWriteObject(members, sb);
  }

  method JavaWriteArray(items: seq<Json>, sb: Buffer)
    modifies sb
    ensures sb.text == old(sb.text) + ([LBRACKET] + (WriteItems(items) + [RBRACKET]))
    decreases items, 0
  {
    hide Write, WriteItems, ItemsPrefix;
    sb.Push(LBRACKET);
    ghost var start := sb.text;
    NoneLeft(items, []);
    assert start + [] == start;
    var first := true;
    for i := 0 to |items|
      invariant first == (i == 0)
      invariant sb.text == start + ItemsPrefix(items, i)
    {
      ItemNext(start, items, i);
      if !first {
        sb.Push(COMMA);
      }
      first := false;
      JavaWriteValue(items[i], sb);
    }
    ItemsPrefixAll(items, |items|);
    Enclosed(old(sb.text), LBRACKET, WriteItems(items), RBRACKET);
    sb.Push(RBRACKET);
  }

  method JavaWriteObject(members: seq<Member>, sb: Buffer)
    modifies sb
    ensures sb.text == old(sb.text) + ([LBRACE] + (WriteMembers(members) + [RBRACE]))
    decreases members, 0
  {
    hide Write, WriteMembers, WriteString, MembersPrefix;
    sb.Push(LBRACE);
    ghost var start := sb.text;
    NoneLeft([], members);
    assert start + [] == start;
    var first := true;
    for i := 0 to |members|
      invariant first == (i == 0)
      invariant sb.text == start + MembersPrefix(members, i)
    {
      MemberNext(start, members, i);
      if !first {
        sb.Push(COMMA);
      }
      first := false;
      PutString(members[i].key, sb);
      sb.Push(COLON);
      JavaWriteValue(members[i].value, sb);
    }
    MembersPrefixAll(members, |members|);
    Enclosed(old(sb.text), LBRACE, WriteMembers(members), RBRACE);
    sb.Push(RBRACE);
  }
}
