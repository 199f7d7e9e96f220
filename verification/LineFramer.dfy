/** `LineFramer` of rust/src/transport/mod.rs.

    The ghost fields record a whole run: the bytes pushed, the lines taken, and how many bytes were
    compared with a line feed. */
module LineFramer {
  import opened Encoding
  import opened Framing

  class LineFramer {
    var buf: seq<Byte>
    var scanned: nat
    ghost var pushed: seq<Byte>
    ghost var emitted: seq<seq<Byte>>
    ghost var examined: nat

    /** Conservation, and linear scanning: the bytes examined are the bytes gone and the bytes scanned. */
    ghost predicate Valid() reads this {
      && scanned <= |buf| && (forall k :: 0 <= k < scanned ==> buf[k] != LF)
      && pushed == Join(emitted) + buf && NoLf(emitted)
      && examined == |Join(emitted)| + scanned
    }

    constructor ()
      ensures Valid() && buf == [] && pushed == [] && emitted == [] && examined == 0
    {
      buf, scanned := [], 0;
      pushed, emitted, examined := [], [], 0;
    }

    method Push(chunk: seq<Byte>)
      requires Valid()
      modifies this
      ensures Valid() && buf == old(buf) + chunk && pushed == old(pushed) + chunk
      ensures emitted == old(emitted) && examined == old(examined) && scanned == old(scanned)
    {
      buf := buf + chunk;
      pushed := pushed + chunk;
      assert Join(emitted) + (old(buf) + chunk) == Join(emitted) + old(buf) + chunk;
    }

    method TakeLine() returns (r: Taken)
      requires Valid()
      modifies this
      ensures Valid() && r == Take(old(buf)) && pushed == old(pushed)
      ensures buf == if r.Took? then r.rest else old(buf)
      ensures emitted == if r.Took? then old(emitted) + [r.line] else old(emitted)
      ensures scanned == if r.Took? then 0 else |buf|
    {
      // The iterator's `position` over the part not scanned yet.
      var pos := scanned;
      while pos < |buf| && buf[pos] != LF
        invariant scanned <= pos <= |buf| && forall k :: 0 <= k < pos ==> buf[k] != LF
        invariant examined == old(examined) + (pos - scanned)
        invariant unchanged(`buf, `scanned, `pushed, `emitted)
      {
        examined := examined + 1;
        pos := pos + 1;
      }
      if pos < |buf| {
        examined := examined + 1;
        IndexUnique(buf, pos);
        CutAt(buf, pos);
        var line := buf[..pos];
        TakenJoins(emitted, line, buf[pos + 1..]);
        emitted := emitted + [line];
        buf := buf[pos + 1..];
        scanned := 0;
        return Took(line, buf);
      }
      scanned := |buf|;
      assert LF !in buf;
      TakeRest(buf);
      r := if |buf| > MAX_LINE_BYTES then Overflow else More;
    }
  }

  lemma TakenJoins(emitted: seq<seq<Byte>>, line: seq<Byte>, rest: seq<Byte>)
    requires LF !in line && NoLf(emitted)
    ensures Join(emitted + [line]) + rest == Join(emitted) + (line + [LF] + rest)
    ensures |Join(emitted + [line])| == |Join(emitted)| + |line| + 1
    ensures NoLf(emitted + [line])
  {
    JoinCat(emitted, [line]);
    assert [line][1..] == [] && Join([line]) == line + [LF] + [];
  }

  /** Whatever was pushed and taken, the lines taken are the first lines of the bytes pushed, and
      what is left in the buffer splits into the others. */
  lemma TakenAreLines(emitted: seq<seq<Byte>>, buf: seq<Byte>)
    requires NoLf(emitted)
    ensures Lines(Join(emitted) + buf) == emitted + Lines(buf) && Rest(Join(emitted) + buf) == Rest(buf)
  {
    hide Lines, Rest, Join;
    SplitJoins(buf);
    JoinCat(emitted, Lines(buf));
    assert Join(emitted) + (Join(Lines(buf)) + Rest(buf)) == Join(emitted + Lines(buf)) + Rest(buf);
    SplitUnique(emitted + Lines(buf), Rest(buf));
  }

  lemma LinesStep(b: seq<Byte>)
    ensures var t := Take(b);
            && (t.Took? ==>
                  Lines(b) == [t.line] + Lines(t.rest) && Rest(b) == Rest(t.rest) && |t.rest| < |b|)
            && (!t.Took? ==> Lines(b) == [] && Rest(b) == b && (t.Overflow? <==> |b| > MAX_LINE_BYTES))
  {
  }

  /** A read loop's drain: what it leaves behind is within the cap, and the next chunk adds its own size. */
  method Drain(f: LineFramer) returns (lines: seq<seq<Byte>>, overflow: bool)
    requires f.Valid()
    modifies f
    ensures f.Valid() && f.pushed == old(f.pushed)
    ensures lines == Lines(old(f.buf)) && f.buf == Rest(old(f.buf)) && f.emitted == old(f.emitted) + lines
    ensures overflow <==> |f.buf| > MAX_LINE_BYTES
  {
    hide Take, Lines, Rest, Join, IndexOfLf;
    lines, overflow := [], false;
    assert [] + Lines(f.buf) == Lines(f.buf) && f.emitted + [] == f.emitted;
    while true
      invariant f.Valid() && f.pushed == old(f.pushed) && f.emitted == old(f.emitted) + lines
      invariant Lines(old(f.buf)) == lines + Lines(f.buf) && Rest(old(f.buf)) == Rest(f.buf)
      decreases |f.buf|
    {
      LinesStep(f.buf);
      ghost var was := f.buf;
      var t := f.TakeLine();
      match t
      case Took(line, rest) =>
        assert lines + ([line] + Lines(rest)) == lines + [line] + Lines(rest);
        lines := lines + [line];
      case More =>
        assert lines + [] == lines;
        return;
      case Overflow =>
        assert lines + [] == lines;
        overflow := true;
        return;
    }
  }
}
