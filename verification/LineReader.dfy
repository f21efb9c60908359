/** The buffered line reader of the C client library
    (`upscli_readline_timeout_may_disconnect`), over the same kind of chunk oracle as
    the C++ reader's, and the agreement of the two. */
module LineReader {
  import opened Text
  import Cpp = SocketReader

  const NETBUF := 64

  /** What one call takes off a stream: the line and the rest, or failure. */
  datatype Taken = Taken(line: string, rest: string) | ReadFailed

  /** `room` is the caller's buffer size less the terminating NUL. */
  function TakeLine(stream: string, room: nat): Taken
  {
    var k := IndexOf(stream, '\n');
    if k < |stream| && k < room then Taken(stream[..k], stream[k + 1..])
    else if room <= |stream| then Taken(stream[..room], stream[room..])
    else ReadFailed
  }

  class Connection {
    const readbuf: array<char>
    var readidx: nat
    var readlen: nat
    var chunks: seq<string>

    ghost predicate Valid()
      reads this
    {
      && readbuf.Length == NETBUF
      && readidx <= readlen <= NETBUF
      && forall i | 0 <= i < |chunks| :: 0 < |chunks[i]| <= NETBUF
    }

    /** The bytes buffered and not yet handed out, then those still to arrive. */
    ghost function Stream(): string
      requires Valid()
      reads this, readbuf
    {
      readbuf[readidx..readlen] + Concat(chunks)
    }

    constructor (chunks: seq<string>)
      requires forall i | 0 <= i < |chunks| :: 0 < |chunks[i]| <= NETBUF
      ensures Valid() && fresh(readbuf) && Stream() == Concat(chunks)
    {
      readbuf := new char[NETBUF];
      readidx, readlen := 0, 0;
      this.chunks := chunks;
      new;
      assert readbuf[0..0] + Concat(chunks) == Concat(chunks);
    }

    /** `net_read`: the next chunk into the buffer, or nothing at the end. */
    method Refill() returns (got: nat)
      requires Valid() && readidx == readlen
      modifies this`readidx, this`readlen, this`chunks, readbuf
      ensures Valid() && Stream() == old(Stream())
      ensures got == 0 <==> old(chunks) == []
      ensures got == 0 ==> chunks == [] && Stream() == ""
      ensures got > 0 ==> readidx < readlen && |chunks| < |old(chunks)|
    {
      assert readbuf[readidx..readlen] == "";
      if chunks == [] {
        assert Stream() == "";
        return 0;
      }
      var chunk := chunks[0];
      forall i | 0 <= i < |chunk| {
        readbuf[i] := chunk[i];
      }
      readidx, readlen := 0, |chunk|;
      chunks := chunks[1..];
      assert readbuf[0..readlen] == chunk;
      return |chunk|;
    }

    /** The next buffered byte. */
    method NextByte() returns (c: char)
      requires Valid() && readidx < readlen
      modifies this`readidx
      ensures Valid() && old(Stream()) == [c] + Stream()
    {
      c := readbuf[readidx];
      assert readbuf[readidx..readlen] == [c] + readbuf[readidx + 1..readlen];
      Assoc([c], readbuf[readidx + 1..readlen], Concat(chunks));
      readidx := readidx + 1;
    }

    /** The loop: the number of bytes put in `buf`, or -1 when the peer closed. */
    method FillLine(buf: array<char>) returns (recv: int)
      requires Valid() && buf != readbuf && buf.Length > 0
      modifies this`readidx, this`readlen, this`chunks, readbuf, buf
      ensures Valid()
      ensures -1 <= recv < buf.Length
      ensures recv >= 0 ==> TakeLine(old(Stream()), buf.Length - 1) == Taken(buf[..recv], Stream())
      ensures recv == -1 ==> TakeLine(old(Stream()), buf.Length - 1) == ReadFailed && Stream() == ""
    {
      ghost var stream := Stream();
      recv := 0;
      while recv < buf.Length - 1
        invariant 0 <= recv <= buf.Length - 1
        invariant Valid()
        invariant '\n' !in buf[..recv]
        invariant stream == buf[..recv] + Stream()
        decreases buf.Length - recv
      {
        if readidx == readlen {
          var got := Refill();
          if got < 1 {
            TakenShort(buf[..recv], buf.Length - 1);
            return -1;
          }
        }
        ghost var taken := buf[..recv];
        var c := NextByte();
        buf[recv] := c;
        assert stream == taken + [c] + Stream() by {
          Assoc(taken, [c], Stream());
        }
        assert buf[..recv] == taken && buf[..recv + 1] == taken + [c];
        if c == '\n' {
          TakenAtNewline(taken, Stream(), buf.Length - 1);
          return;
        }
        recv := recv + 1;
      }
      TakenFull(buf[..recv], Stream());
    }

    /** 0 with the line and a NUL in `buf`, or -1 (no room at all, or the peer closed). */
    method ReadLine(buf: array<char>) returns (ret: int)
      requires Valid() && buf != readbuf
      modifies this`readidx, this`readlen, this`chunks, readbuf, buf
      ensures Valid()
      ensures buf.Length == 0 ==> ret == -1 && Stream() == old(Stream())
      ensures buf.Length > 0 ==>
        match TakeLine(old(Stream()), buf.Length - 1)
        case Taken(line, rest) =>
          ret == 0 && Stream() == rest &&
          |line| < buf.Length && buf[..|line|] == line && buf[|line|] == '\0'
        case ReadFailed => ret == -1 && Stream() == ""
    {
      if buf.Length < 1 {
        return -1;
      }
      var recv := FillLine(buf);
      if recv < 0 {
        return -1;
      }
      ghost var line := buf[..recv];
      buf[recv] := '\0';
      assert buf[..recv] == line;
      return 0;
    }
  }

  lemma TakenShort(stream: string, room: nat)
    requires '\n' !in stream && |stream| < room
    ensures TakeLine(stream + "", room) == ReadFailed
  {
    assert stream + "" == stream;
    IndexOfAbsent(stream, '\n');
  }

  lemma TakenAtNewline(line: string, rest: string, room: nat)
    requires '\n' !in line && |line| < room
    ensures TakeLine(line + ['\n'] + rest, room) == Taken(line, rest)
  {
    IndexOfPrefix(line, '\n', rest);
    var stream := line + ['\n'] + rest;
    assert stream[..|line|] == line;
    assert stream[|line| + 1..] == rest;
  }

  lemma TakenFull(line: string, rest: string)
    requires '\n' !in line
    ensures TakeLine(line + rest, |line|) == Taken(line, rest)
  {
    var stream := line + rest;
    IndexOfFirst(stream, '\n');
    assert forall i | 0 <= i < |line| :: stream[i] == line[i];
    assert stream[..|line|] == line && stream[|line|..] == rest;
  }

  // ----- successive calls -----

  /** What `n` successive calls give, as long as they succeed. */
  datatype Reads = Reads(lines: seq<string>, rest: string)

  function TakeLines(stream: string, room: nat, n: nat): Reads
    decreases n
  {
    if n == 0 then Reads([], stream)
    else
      match TakeLine(stream, room)
      case ReadFailed => Reads([], stream)
      case Taken(line, rest) =>
        var more := TakeLines(rest, room, n - 1);
        Reads([line] + more.lines, more.rest)
  }

  /** The bytes the returned lines account for: a line shorter than the room ended at a
      newline that was taken with it, one that fills the room was cut. */
  function BytesOf(lines: seq<string>, room: nat): string
  {
    if lines == [] then ""
    else lines[0] + (if |lines[0]| < room then "\n" else "") + BytesOf(lines[1..], room)
  }

  /** No byte is lost or made up by any number of successful calls. */
  lemma {:induction false} ReadsConserveBytes(stream: string, room: nat, n: nat)
    ensures var r := TakeLines(stream, room, n);
      stream == BytesOf(r.lines, room) + r.rest
    decreases n
  {
    var r := TakeLines(stream, room, n);
    if n == 0 || TakeLine(stream, room).ReadFailed? {
      assert BytesOf(r.lines, room) == "" && r.rest == stream;
    } else {
      var t := TakeLine(stream, room);
      var more := TakeLines(t.rest, room, n - 1);
      assert r == Reads([t.line] + more.lines, more.rest);
      ReadsConserveBytes(t.rest, room, n - 1);
      OneMoreLine(stream, t.line, t.rest, more, room);
    }
  }

  lemma OneMoreLine(stream: string, line: string, rest: string, more: Reads, room: nat)
    requires TakeLine(stream, room) == Taken(line, rest)
    requires rest == BytesOf(more.lines, room) + more.rest
    ensures stream == BytesOf([line] + more.lines, room) + more.rest
  {
    assert stream == line + (if |line| < room then "\n" else "") + rest by { TakeLineConserves(stream, room); }
    Rejoined(stream, line, rest, more, room);
  }

  lemma Rejoined(stream: string, line: string, rest: string, more: Reads, room: nat)
    requires stream == line + (if |line| < room then "\n" else "") + rest
    requires rest == BytesOf(more.lines, room) + more.rest
    ensures stream == BytesOf([line] + more.lines, room) + more.rest
  {
    BytesOfStep(line, more.lines, room, more.rest);
  }

  lemma TakeLineConserves(stream: string, room: nat)
    ensures match TakeLine(stream, room)
      case Taken(line, rest) => stream == line + (if |line| < room then "\n" else "") + rest && |line| <= room
      case ReadFailed => '\n' !in stream && |stream| < room
  {
    IndexOfAbsent(stream, '\n');
    IndexOfFirst(stream, '\n');
  }

  lemma BytesOfStep(line: string, more: seq<string>, room: nat, rest: string)
    ensures BytesOf([line] + more, room) + rest
      == line + (if |line| < room then "\n" else "") + (BytesOf(more, room) + rest)
  {
    assert ([line] + more)[1..] == more;
    Assoc(line + (if |line| < room then "\n" else ""), BytesOf(more, room), rest);
  }

  /** The two readers agree on any stream as long as its lines leave room for themselves
      and their newline, that is, have at most `buflen - 2` bytes. */
  lemma {:induction false} ReadersAgree(stream: string, room: nat, n: nat)
    requires n <= |Cpp.LinesOf(stream)|
    requires forall i | 0 <= i < n :: |Cpp.LinesOf(stream)[i]| < room
    ensures TakeLines(stream, room, n).lines == Cpp.LinesOf(stream)[..n]
    ensures Cpp.LinesOf(TakeLines(stream, room, n).rest) == Cpp.LinesOf(stream)[n..]
    decreases n
  {
    if n > 0 {
      var k := IndexOf(stream, '\n');
      var lines := Cpp.LinesOf(stream);
      assert lines[0] == stream[..k] && lines[1..] == Cpp.LinesOf(stream[k + 1..]);
      assert forall i | 0 <= i < n - 1 :: lines[1..][i] == lines[i + 1];
      assert |lines[0]| < room && TakeLine(stream, room) == Taken(stream[..k], stream[k + 1..]);
      ReadersAgree(stream[k + 1..], room, n - 1);
      assert [lines[0]] + lines[1..][..n - 1] == lines[..n];
      assert lines[1..][n - 1..] == lines[n..];
    }
  }

  /** A longer line comes in pieces: `room` bytes, and the rest on the next call. */
  lemma LongLineIsCut(line: string, rest: string, room: nat)
    requires '\n' !in line && 0 < room <= |line|
    ensures TakeLine(line + "\n" + rest, room) == Taken(line[..room], line[room..] + "\n" + rest)
  {
    var stream := line + "\n" + rest;
    IndexOfPrefix(line, '\n', rest);
    assert room <= IndexOf(stream, '\n');
    assert stream[..room] == line[..room];
    assert stream[room..] == line[room..] + "\n" + rest;
  }
}
