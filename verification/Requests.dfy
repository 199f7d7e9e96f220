/** From request objects to lines on the other side: rust/src/codec/encode.rs, json.rs and the framer
    of rust/src/transport/mod.rs together. */
module Requests {
  import opened Encoding
  import opened Json
  import opened ParserSpec
  import opened JsonWriter
  import opened Writers
  import Framing

  /** The fields of a request; their strings are Rust strings, and their numbers are JSON numbers. */
  type Request = fields: seq<Member> | Writable(Utf8, Json.Object(fields)) witness []

  /** The text of a request, without its line feed. */
  function Text(fields: Request): (s: seq<Scalar>)
    ensures s == Write(Json.Object(fields))
  {
    WrittenDoc(Json.Object(fields));
    Write(Json.Object(fields))
  }

  function Body(fields: Request): seq<Byte> { Bytes(Text(fields)) }

  function RequestLine(fields: Request): seq<Byte> { Body(fields) + [Framing.LF] }

  /** `encode_request_line`. */
  method EncodeRequestLine(fields: Request) returns (bytes: seq<Byte>)
    ensures bytes == RequestLine(fields)
  {
    var s := new Buffer();
    WriteValue(Json.Object(fields), s);
    s.Push(Framing.LF);
    assert s.text == Text(fields) + [Framing.LF];
    LineBytes(Text(fields));
    var text: seq<Scalar> := s.text;
    bytes := Bytes(text);
  }

  lemma LineBytes(text: seq<Scalar>)
    ensures Bytes(text + [Framing.LF]) == Bytes(text) + [Framing.LF]
  {
    EncAllCat(Utf8, text, [Framing.LF]);
    EncAllOne(Utf8, Framing.LF);
  }

  lemma {:induction false} NoLfBytes(s: seq<Scalar>)
    requires Framing.LF !in s
    ensures Framing.LF !in Bytes(s)
  {
    hide Enc;
    if s != [] {
      assert forall k :: 0 <= k < |s[1..]| ==> s[1..][k] == s[k + 1];
      NoLfBytes(s[1..]);
      EncRange(Utf8, s[0]);
      assert s[0] in s;
      assert s[0] < 0x80 ==> Enc(Utf8, s[0]) == [s[0]] by { EncSmall(s[0]); }
      var h: seq<Byte> := Enc(Utf8, s[0]);
      assert Bytes(s) == h + Bytes(s[1..]);
    }
  }

  lemma EncSmall(c: Scalar)
    ensures c < 0x80 ==> Enc(Utf8, c) == [c]
  {
  }

  /** A request is one line, and whoever parses that line gets the request back. */
  lemma OneLine(fields: Request)
    ensures RequestLine(fields) == EncAll(Utf8, Write(Json.Object(fields))) + ['\n' as int]
    ensures Framing.LF !in Body(fields)
    ensures ParseRust(Body(fields)) == Some(Json.Object(fields))
  {
    NoLineFeed(Json.Object(fields));
    NoLfBytes(Text(fields));
    RustRoundTrip(Json.Object(fields));
  }

  function Bodies(requests: seq<Request>): (bs: seq<seq<Byte>>)
    ensures |bs| == |requests| && forall k :: 0 <= k < |bs| ==> bs[k] == Body(requests[k])
  {
    if requests == [] then [] else [Body(requests[0])] + Bodies(requests[1..])
  }

  /** All that was written for some requests. */
  function Wire(requests: seq<Request>): seq<Byte> {
    if requests == [] then [] else RequestLine(requests[0]) + Wire(requests[1..])
  }

  lemma {:induction false} WireJoins(requests: seq<Request>)
    ensures Wire(requests) == Framing.Join(Bodies(requests)) && Framing.NoLf(Bodies(requests))
  {
    hide Body;
    if requests != [] {
      OneLine(requests[0]);
      WireJoins(requests[1..]);
      Framing.Cons(Body(requests[0]), Bodies(requests[1..]));
    } else {
      Framing.NoLines();
    }
  }

  lemma WireLines(requests: seq<Request>)
    ensures Framing.Lines(Wire(requests)) == Bodies(requests) && Framing.Rest(Wire(requests)) == []
  {
    WireJoins(requests);
    assert Framing.Join(Bodies(requests)) + [] == Wire(requests);
    Framing.SplitUnique(Bodies(requests), []);
  }

  /** Requests whose lines fit the cap arrive one line each, in order, however the bytes are cut into
      chunks, and each line parses to its request. A request over the cap breaks this for some chunking. */
  lemma EndToEnd(requests: seq<Request>)
    ensures (forall k :: 0 <= k < |requests| ==> |Body(requests[k])| <= Framing.MAX_LINE_BYTES)
       <==> (forall chunks :: Framing.Flatten(chunks) == Wire(requests) ==>
               Framing.Pending([], Framing.ChunkReads(chunks)) == Framing.LineEvents(Bodies(requests)))
    ensures forall k :: 0 <= k < |requests| ==> ParseRust(Bodies(requests)[k]) == Some(Json.Object(requests[k]))
  {
    hide Body, Framing.Pending, Framing.Lines, Framing.Rest, Wire, ParseRust;
    WireLines(requests);
    Framing.ChunkingIff(Wire(requests));
    forall k | 0 <= k < |requests| ensures ParseRust(Bodies(requests)[k]) == Some(Json.Object(requests[k])) {
      OneLine(requests[k]);
    }
    assert Framing.Fits(Wire(requests)) <==>
           (forall k :: 0 <= k < |requests| ==> |Body(requests[k])| <= Framing.MAX_LINE_BYTES) by {
      assert forall k :: 0 <= k < |requests| ==> Bodies(requests)[k] == Body(requests[k]);
    }
  }

  /** Different request lists are different bytes. */
  lemma WireInjective(a: seq<Request>, b: seq<Request>)
    requires Wire(a) == Wire(b)
    ensures a == b
  {
    hide Body;
    WireLines(a);
    WireLines(b);
    assert |a| == |Bodies(a)| == |b|;
    forall k | 0 <= k < |a| ensures a[k] == b[k] {
      OneLine(a[k]);
      OneLine(b[k]);
      assert Bodies(a)[k] == Bodies(b)[k];
    }
  }
}
