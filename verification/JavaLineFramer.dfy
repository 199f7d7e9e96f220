/** `LineFramer.java`: the same framer over an array that doubles, shifted in place, and the read
    loop of `ReaderThread.java` around it. */
module JavaLineFramer {
  import opened Encoding
  import opened Framing

  const READ_BYTES: nat := 64 * 1024
  const INITIAL_CAPACITY: nat := 256
  const MAX_INT: nat := 0x7FFF_FFFF

  /** The capacities that doubling reaches. */
  predicate IsCapacity(c: nat) { c == INITIAL_CAPACITY || (c > INITIAL_CAPACITY && c % 2 == 0 && IsCapacity(c / 2)) }

  lemma {:induction false} CapacityGap(c: nat, p: nat)
    requires IsCapacity(c) && IsCapacity(p) && c > p
    ensures c >= 2 * p
    decreases c
  {
    if p > INITIAL_CAPACITY {
      CapacityGap(c / 2, p / 2);
    } else {
      CapacityLeast(c / 2);
    }
  }

  lemma CapacityLeast(c: nat)
    requires IsCapacity(c)
    ensures c >= INITIAL_CAPACITY
  {
  }

  lemma TwoMiB()
    ensures IsCapacity(2 * 1024 * 1024)
  {
    assert IsCapacity(256) && IsCapacity(512) && IsCapacity(1024) && IsCapacity(2048) && IsCapacity(4096);
    assert IsCapacity(8192) && IsCapacity(16384) && IsCapacity(32768) && IsCapacity(65536);
    assert IsCapacity(131072) && IsCapacity(262144) && IsCapacity(524288) && IsCapacity(1048576);
  }

  /** Doubling an `int`, which wraps around at 32 bits. */
  function Twice(c: int): int {
    var d := c * 2;
    if d > MAX_INT then d - 0x1_0000_0000 else if d < -0x8000_0000 then d + 0x1_0000_0000 else d
  }

  function Doublings(c: int, n: nat): int
    decreases n
  {
    if n == 0 then c else Doublings(Twice(c), n - 1)
  }

  /** The loop of `ensureCapacity` ends if and only if no more than 2^30 bytes are needed; beyond that
      it doubles to -2^31, then to 0, and stays there. */
  lemma DoublingEndsIff(c: nat, needed: int)
    requires IsCapacity(c) && c <= MAX_INT
    ensures (exists n: nat :: Doublings(c, n) >= needed) <==> needed <= 0x4000_0000
  {
    OneGiB(c);
    if needed <= 0x4000_0000 {
      var n := Reaches(c, needed);
    } else {
      forall n: nat ensures Doublings(c, n) < needed {
        NeverMore(c, n);
      }
    }
  }

  lemma OneGiB(c: nat)
    requires IsCapacity(c) && c <= MAX_INT
    ensures c <= 0x4000_0000 && (c < 0x4000_0000 ==> c <= 0x2000_0000)
  {
    TwoMiB();
    assert IsCapacity(0x40_0000) && IsCapacity(0x80_0000) && IsCapacity(0x100_0000) && IsCapacity(0x200_0000);
    assert IsCapacity(0x400_0000) && IsCapacity(0x800_0000) && IsCapacity(0x1000_0000) && IsCapacity(0x2000_0000);
    assert IsCapacity(0x4000_0000);
    if c > 0x4000_0000 {
      CapacityGap(c, 0x4000_0000);
    }
    if c > 0x2000_0000 {
      CapacityGap(c, 0x2000_0000);
    }
  }

  lemma {:induction false} Reaches(c: nat, needed: int) returns (n: nat)
    requires IsCapacity(c) && c <= 0x4000_0000 && needed <= 0x4000_0000
    ensures Doublings(c, n) >= needed
    decreases needed - c
  {
    if c >= needed {
      return 0;
    }
    OneGiB(c);
    CapacityLeast(c);
    var m := Reaches(c * 2, needed);
    n := m + 1;
  }

  lemma {:induction false} NeverMore(c: int, n: nat)
    requires c == 0 || c == -0x8000_0000 || (c > 0 && IsCapacity(c) && c <= 0x4000_0000)
    ensures Doublings(c, n) <= 0x4000_0000
    decreases n
  {
    if n > 0 {
      if c > 0 {
        OneGiB(c);
      }
      NeverMore(Twice(c), n - 1);
    }
  }

  class LineFramer {
    var buf: array<Byte>
    var len: nat
    var scanned: nat

    ghost predicate Valid() reads this, buf {
      && scanned <= len <= buf.Length && IsCapacity(buf.Length)
      && forall k :: 0 <= k < scanned ==> buf[k] != LF
    }

    ghost function Contents(): seq<Byte>
      requires Valid()
      reads this, buf
    {
      buf[..len]
    }

    constructor ()
      ensures Valid() && fresh(buf) && Contents() == [] && buf.Length == 256
    {
      buf := new Byte[INITIAL_CAPACITY](_ => 0);
      len, scanned := 0, 0;
    }

    /** The bound is what doubling an `int` can reach; the read loop stays far below it. */
    method Push(chunk: array<Byte>, off: nat, chunkLen: nat)
      requires Valid() && chunk != buf && off + chunkLen <= chunk.Length
      requires len + chunkLen <= 0x4000_0000
      modifies this, buf
      ensures Valid() && (buf == old(buf) || fresh(buf))
      ensures Contents() == old(Contents()) + chunk[off..off + chunkLen]
      ensures scanned == old(scanned) && len == old(len) + chunkLen
      ensures buf.Length >= old(buf.Length)
      ensures buf.Length == old(buf.Length) || (buf.Length >= len && buf.Length / 2 < len)
    {
      EnsureCapacity(len + chunkLen);
      forall k | 0 <= k < chunkLen {
        buf[len + k] := chunk[off + k];
      }
      len := len + chunkLen;
      assert buf[..len] == old(buf[..len]) + chunk[off..off + chunkLen];
    }

    /** `ensureCapacity`, for the needs its loop can meet: see `DoublingEndsIff`. */
    method EnsureCapacity(needed: nat)
      requires Valid() && needed <= 0x4000_0000
      modifies this`buf
      ensures Valid() && (buf == old(buf) || fresh(buf)) && buf.Length >= needed && buf.Length >= old(buf.Length)
      ensures buf[..len] == old(buf[..len])
      ensures buf.Length == old(buf.Length) || buf.Length / 2 < needed
    {
      if needed <= buf.Length {
        return;
      }
      var newCap := buf.Length;
      CapacityLeast(newCap);
      while newCap < needed
        invariant buf == old(buf) && IsCapacity(newCap) && buf.Length <= newCap <= MAX_INT
        invariant newCap > buf.Length ==> newCap / 2 < needed
        decreases needed - newCap
      {
        CapacityLeast(newCap);
        assert newCap * 2 <= MAX_INT;
        newCap := newCap * 2;
      }
      var copy := new Byte[newCap](_ => 0);
      forall k | 0 <= k < buf.Length {
        copy[k] := buf[k];
      }
      buf := copy;
    }

    method TakeLine() returns (r: Taken)
      requires Valid()
      modifies this`len, this`scanned, buf
      ensures Valid() && r == Take(old(Contents()))
      ensures Contents() == if r.Took? then r.rest else old(Contents())
      ensures scanned == if r.Took? then 0 else len
    {
      hide IsCapacity, IndexOfLf;
      ghost var was := buf[..len];
      for i := scanned to len
        invariant forall k :: 0 <= k < i ==> buf[k] != LF
        invariant buf[..len] == was
      {
        if buf[i] == LF {
          IndexUnique(was, i);
          var line := buf[..i];
          var remaining := len - (i + 1);
          forall k | 0 <= k < remaining {
            buf[k] := buf[i + 1 + k];
          }
          len := remaining;
          scanned := 0;
          assert buf[..len] == was[i + 1..];
          return Took(line, buf[..len]);
        }
      }
      scanned := len;
      assert LF !in was;
      TakeRest(was);
      r := if len > MAX_LINE_BYTES then Overflow else More;
    }
  }

  /** What `source.read(buf)` gives: -1 is the end, 0 is retried, an exception is terminal. */
  datatype JavaRead = Bytes(data: seq<Byte>) | Minus1 | Thrown(kind: ErrorKind)

  function Reads(input: seq<JavaRead>): seq<Read> {
    if input == [] then []
    else match input[0]
      case Bytes(d) => [Chunk(d)] + Reads(input[1..])
      case Minus1 => [AtEof] + Reads(input[1..])
      case Thrown(k) => [Failed(k)] + Reads(input[1..])
  }

  lemma EmptyChunk(buf: seq<Byte>, input: seq<Read>)
    requires Take(buf) == More && input != [] && input[0] == Chunk([])
    ensures Pending(buf, input) == Pending(buf, input[1..])
  {
    assert buf + [] == buf;
  }

  ghost predicate AllLines(es: seq<Event>) { forall k :: 0 <= k < |es| ==> es[k].Line? }

  lemma MoreLines(es: seq<Event>, line: seq<Byte>)
    ensures AllLines([]) && (AllLines(es) ==> AllLines(es + [Line(line)]))
  {
  }

  lemma LinesCat(a: seq<Event>, b: seq<Event>)
    ensures AllLines(a) && AllLines(b) ==> AllLines(a + b)
  {
  }

  lemma Regroup(a: seq<Event>, b: seq<Event>, c: seq<Event>)
    ensures a + b + c == a + (b + c)
  {
  }

  lemma PendingFails(buf: seq<Byte>, input: seq<Read>)
    requires Take(buf) == More && input != [] && !input[0].Chunk?
    ensures Pending(buf, input) == [End(if input[0].AtEof? then Eof else Io(input[0].kind))]
  {
  }

  /** The inner loop: queue lines until there is none, or until the open line is over the cap. */
  method PutLines(framer: LineFramer, ghost input: seq<Read>) returns (queued: seq<Event>, over: bool)
    requires framer.Valid()
    modifies framer, framer.buf
    ensures framer.Valid() && framer.buf == old(framer.buf) && framer.len <= old(framer.len)
    ensures over ==> queued == Pending(old(framer.Contents()), input) && queued != [] && queued[|queued| - 1].End?
    ensures !over ==> Pending(old(framer.Contents()), input) == queued + Pending(framer.Contents(), input)
    ensures !over ==> Take(framer.Contents()) == More && AllLines(queued)
  {
    hide Take, Pending, IsCapacity, AllLines;
    queued, over := [], false;
    assert queued + Pending(framer.Contents(), input) == Pending(framer.Contents(), input);
    MoreLines([], []);
    while true
      invariant framer.Valid() && framer.buf == old(framer.buf) && framer.len <= old(framer.len)
      invariant Pending(old(framer.Contents()), input) == queued + Pending(framer.Contents(), input)
      invariant AllLines(queued)
      decreases framer.len
    {
      ghost var was := framer.Contents();
      PendingStep(was, input);
      var t := framer.TakeLine();
      match t
      case Took(line, rest) =>
        assert queued + ([Line(line)] + Pending(rest, input)) == queued + [Line(line)] + Pending(rest, input);
        MoreLines(queued, line);
        queued := queued + [Line(line)];
      case More => return;
      case Overflow =>
        queued, over := queued + [End(LineTooLong)], true;
        return;
    }
  }

  /** With at most one read more than the cap in it, the array is at most 4 MiB. */
  lemma CapacityBound(capacity: nat, needed: nat)
    requires IsCapacity(capacity) && capacity / 2 < needed <= MAX_LINE_BYTES + READ_BYTES
    ensures capacity <= 4 * 1024 * 1024
  {
    TwoMiB();
    if capacity > 4 * 1024 * 1024 {
      CapacityGap(capacity / 2, 2 * 1024 * 1024);
    }
  }

  /** `ReaderThread.runLoop`: what it puts on its queue is what the specification says, and its
      buffer stays within 2 MiB and one read, in an array of at most 4 MiB: the framer's array never
      gets smaller, so what holds of it at the end held all the time. */
  method RunLoop(input: seq<JavaRead>) returns (queued: seq<Event>, done: bool, framer: LineFramer)
    requires forall k :: 0 <= k < |input| && input[k].Bytes? ==> |input[k].data| <= 65536
    ensures queued == Pending([], Reads(input))
    ensures !done ==> AllLines(queued)
    ensures fresh(framer) && framer.Valid() && framer.len <= 2097152 + 65536
    ensures framer.buf.Length <= 4 * 1024 * 1024
  {
    hide Take, Pending, IsCapacity, AllLines;
    MoreLines([], []);
    framer := new LineFramer();
    TakeRest([]);
    assert Take([]) == More && [] + Pending([], Reads(input)) == Pending([], Reads(input)) && input[0..] == input;
    var buf := new Byte[READ_BYTES](_ => 0);
    queued, done := [], false;
    var i := 0;
    while i < |input|
      invariant 0 <= i <= |input| && framer.Valid() && fresh(framer) && fresh(framer.buf) && fresh(buf)
      invariant buf.Length == READ_BYTES && framer.buf != buf
      invariant Take(framer.Contents()) == More && framer.len <= MAX_LINE_BYTES
      invariant framer.buf.Length <= 4 * 1024 * 1024
      invariant Pending([], Reads(input)) == queued + Pending(framer.Contents(), Reads(input[i..]))
      invariant AllLines(queued)
    {
      assert Reads(input[i..])[1..] == Reads(input[i + 1..]);
      match input[i]
      case Thrown(kind) =>
        PendingFails(framer.Contents(), Reads(input[i..]));
        queued, done := queued + [End(Io(kind))], true;
        return;
      case Minus1 =>
        PendingFails(framer.Contents(), Reads(input[i..]));
        queued, done := queued + [End(Eof)], true;
        return;
      case Bytes(data) =>
        ghost var was := framer.Contents();
        var n := |data|;
        if n == 0 {
          EmptyChunk(was, Reads(input[i..]));
          i := i + 1;
          continue;
        }
        forall k | 0 <= k < n {
          buf[k] := data[k];
        }
        assert buf[0..n] == data;
        PendingStep(was, Reads(input[i..]));
        framer.Push(buf, 0, n);
        if framer.buf.Length > 4 * 1024 * 1024 {
          CapacityBound(framer.buf.Length, framer.len);
        }
        assert framer.Contents() == was + data;
        var lines, over := PutLines(framer, Reads(input[i + 1..]));
        if over {
          queued, done := queued + lines, true;
          return;
        }
        LinesCat(queued, lines);
        Regroup(queued, lines, Pending(framer.Contents(), Reads(input[i + 1..])));
        queued := queued + lines;
        i := i + 1;
    }
    PendingStep(framer.Contents(), []);
    assert queued + [] == queued;
  }
}
