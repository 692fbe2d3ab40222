/** The line reader over a feed's socket: bytes arrive in arbitrary chunks, with silences between them. */
module Framing {
  newtype Byte = b: int | 0 <= b < 256
  type Bytes = seq<Byte>

  const NEWLINE: Byte := 10
  const CARRIAGE_RETURN: Byte := 13

  type Chunk = b: Bytes | b != [] witness [NEWLINE]

  /** What one `recv` gives: some bytes, or a timeout. Past the script's end it gives none: the peer has closed. */
  datatype Recv = Data(chunk: Chunk) | Timeout

  /** A Reader's answer: a line, None when time ran out, EOFError once the peer has closed. */
  datatype Answer = Line(text: Bytes) | Nothing | Eof

  function Find(b: Bytes): (at: int)
    ensures -1 <= at < |b|
    ensures at == -1 ==> NEWLINE !in b
    ensures at >= 0 ==> b[at] == NEWLINE && NEWLINE !in b[..at]
  {
    if b == [] then -1
    else
      var at := Find(b[..|b| - 1]);
      if at >= 0 then at else if b[|b| - 1] == NEWLINE then |b| - 1 else -1
  }

  /** `rstrip("\r")`. */
  function Stripped(b: Bytes): Bytes {
    if b != [] && b[|b| - 1] == CARRIAGE_RETURN then Stripped(b[..|b| - 1]) else b
  }

  /** What is stripped is every carriage return at the end, and nothing else. */
  lemma {:induction false} StrippedIs(b: Bytes)
    ensures Stripped(b) <= b && forall i :: |Stripped(b)| <= i < |b| ==> b[i] == CARRIAGE_RETURN
    ensures Stripped(b) != [] ==> Stripped(b)[|Stripped(b)| - 1] != CARRIAGE_RETURN
  {
    if b != [] && b[|b| - 1] == CARRIAGE_RETURN { StrippedIs(b[..|b| - 1]); }
  }

  /** The bytes after the last newline. */
  function Rest(b: Bytes): Bytes {
    if b == [] || b[|b| - 1] == NEWLINE then [] else Rest(b[..|b| - 1]) + [b[|b| - 1]]
  }

  /** What stands between the newlines of a byte stream, whatever chunks it comes in. */
  function RawLines(b: Bytes): seq<Bytes> {
    if b == [] then []
    else
      var front := b[..|b| - 1];
      if b[|b| - 1] == NEWLINE then RawLines(front) + [Rest(front)] else RawLines(front)
  }

  /** The complete lines of a byte stream, carriage returns removed. */
  function Lines(b: Bytes): seq<Bytes> {
    if b == [] then []
    else
      var front := b[..|b| - 1];
      if b[|b| - 1] == NEWLINE then Lines(front) + [Stripped(Rest(front))] else Lines(front)
  }

  function Joined(raws: seq<Bytes>): Bytes {
    if raws == [] then [] else Joined(raws[..|raws| - 1]) + raws[|raws| - 1] + [NEWLINE]
  }

  /** What `Lines` means: the stream is cut into newline-free pieces, each ended by a newline, and a newline-free
      rest, with no byte lost. */
  lemma {:induction false} LinesCutTheStream(b: Bytes)
    ensures Joined(RawLines(b)) + Rest(b) == b && NEWLINE !in Rest(b)
    ensures |Lines(b)| == |RawLines(b)|
    ensures forall i :: 0 <= i < |Lines(b)| ==> NEWLINE !in RawLines(b)[i] && Lines(b)[i] == Stripped(RawLines(b)[i])
  {
    hide Stripped;
    if b != [] {
      var front, last := b[..|b| - 1], b[|b| - 1];
      LinesCutTheStream(front);
      assert b == front + [last];
      if last == NEWLINE {
        assert RawLines(b)[..|RawLines(front)|] == RawLines(front);
        assert Joined(RawLines(b)) == Joined(RawLines(front)) + Rest(front) + [NEWLINE];
      } else {
        assert Joined(RawLines(front)) + (Rest(front) + [last]) == Joined(RawLines(front)) + Rest(front) + [last];
      }
    }
  }

  /** Bytes without a newline complete no line. */
  lemma {:induction false} NoLineMore(a: Bytes, b: Bytes)
    requires NEWLINE !in b
    ensures Lines(a + b) == Lines(a) && Rest(a + b) == Rest(a) + b
  {
    hide Stripped;
    if b == [] {
      assert a + b == a;
    } else {
      var front, last := b[..|b| - 1], b[|b| - 1];
      NoLineMore(a, front);
      assert (a + b)[..|a + b| - 1] == a + front;
      assert last in b;
    }
  }

  /** Taking one line's bytes off the buffer adds that line. */
  lemma OneLine(taken: Bytes, buf: Bytes, nl: int)
    requires 0 <= nl < |buf| && buf[nl] == NEWLINE && NEWLINE !in buf[..nl] && Rest(taken) == []
    ensures Lines(taken + buf[..nl + 1]) == Lines(taken) + [Stripped(buf[..nl])] && Rest(taken + buf[..nl + 1]) == []
  {
    hide Stripped;
    NoLineMore(taken, buf[..nl]);
    var all := taken + buf[..nl + 1];
    assert all[..|all| - 1] == taken + buf[..nl];
    assert [] + buf[..nl] == buf[..nl];
  }

  /** The bytes the script delivers. */
  function Received(script: seq<Recv>): Bytes {
    if script == [] then []
    else
      match script[0]
      case Data(chunk) => chunk + Received(script[1..])
      case Timeout => Received(script[1..])
  }

  class LineReader {
    var script: seq<Recv>
    var buf: Bytes
    ghost var taken: Bytes  // the bytes of the lines returned, terminators included
    ghost var lines: seq<Bytes>

    /** The lines returned are the lines of the bytes taken, which end where a line does. */
    ghost predicate Valid()
      reads this
    {
      lines == Lines(taken) && Rest(taken) == []
    }

    constructor (script: seq<Recv>)
      ensures Valid() && this.script == script && taken == [] && buf == [] && lines == []
    {
      this.script := script;
      buf, taken, lines := [], [], [];
    }

    /** The bytes taken, held and still to come are always the same bytes. A line is the next complete one; with no
        line to give, every complete line heard has been returned. It receives only while no line is complete, and
        never past a timeout, which is what answers None. */
    method Read() returns (answer: Answer)
      requires Valid()
      modifies this
      ensures Valid() && taken + buf + Received(script) == old(taken + buf + Received(script))
      ensures answer.Line? ==> lines == old(lines) + [answer.text] && |old(taken)| < |taken|
      ensures !answer.Line? ==>
                lines == old(lines) && taken == old(taken) && NEWLINE !in buf && lines == Lines(taken + buf)
      ensures answer == Eof ==> script == []
      ensures |script| <= |old(script)| && script == old(script)[|old(script)| - |script|..]
      ensures var heard := old(script)[..|old(script)| - |script|];
              && (answer == Nothing <==> heard != [] && heard[|heard| - 1] == Timeout)
              && (forall i :: 0 <= i < |heard| - 1 ==> heard[i].Data? && NEWLINE !in heard[i].chunk)
              && (heard != [] ==> NEWLINE !in old(buf))
    {
      hide Lines, Rest, Find, Stripped;
      ghost var all := taken + buf + Received(script);
      ghost var n: nat := 0;
      var nl := Find(buf);
      while nl == -1
        invariant nl == Find(buf) && |script| <= |old(script)| && taken == old(taken) && lines == old(lines)
        invariant taken + buf + Received(script) == all
        invariant n == |old(script)| - |script| && script == old(script)[n..]
        invariant forall i :: 0 <= i < n ==> old(script)[i].Data?
        invariant forall i :: 0 <= i < n - 1 ==> NEWLINE !in old(script)[i].chunk
        invariant n == 0 ==> buf == old(buf)
        invariant n > 0 ==> NEWLINE !in old(buf) && (nl == -1 ==> NEWLINE !in old(script)[n - 1].chunk)
        decreases |script|
      {
        if script == [] {
          NoLineMore(taken, buf);
          return Eof;
        }
        var got := script[0];
        script := script[1..];
        n := n + 1;
        if got == Timeout {
          NoLineMore(taken, buf);
          return Nothing;
        }
        Regroup(taken, buf, got.chunk, Received(script));
        buf := buf + got.chunk;
        nl := Find(buf);
      }
      var line := Stripped(buf[..nl]);
      OneLine(taken, buf, nl);
      Regroup(taken, buf[..nl + 1], buf[nl + 1..], Received(script));
      assert buf == buf[..nl + 1] + buf[nl + 1..];
      taken := taken + buf[..nl + 1];
      buf := buf[nl + 1..];
      lines := lines + [line];
      answer := Line(line);
    }

    /** Reads until the peer closes: the lines come out whole, in order, each once, all of them before the EOFError,
        and what is left is the incomplete end. */
    method Drain() returns (all: seq<Bytes>)
      requires Valid() && taken == [] && buf == []
      modifies this
      ensures all == Lines(Received(old(script))) && buf == Rest(Received(old(script)))
    {
      all := [];
      ghost var stream := Received(script);
      assert taken + buf + Received(script) == stream;
      var open := true;
      while open
        invariant Valid() && all == lines && taken + buf + Received(script) == stream
        invariant !open ==> script == [] && NEWLINE !in buf
        decreases open, |stream| - |taken|, |script|
      {
        var a := Read();
        match a
        case Line(text) => all := all + [text];
        case Nothing =>
        case Eof => open := false;
      }
      NoLineMore(taken, buf);
      assert stream == taken + buf;
    }
  }

  lemma Regroup(a: Bytes, b: Bytes, c: Bytes, d: Bytes)
    ensures a + b + (c + d) == a + (b + c) + d
    ensures a + (b + c) + d == a + b + c + d
  {
  }
}
