/** The buffered line reader of the C++ client (`Socket::read()`), over an oracle that
    hands out the chunks the operating system will deliver. */
module SocketReader {
  import opened Text

  /** The newline-terminated lines of a byte stream, without their newlines. */
  function LinesOf(stream: string): seq<string>
    decreases |stream|
  {
    var k := IndexOf(stream, '\n');
    if k == |stream| then [] else [stream[..k]] + LinesOf(stream[k + 1..])
  }

  function Terminated(lines: seq<string>): string
  {
    if lines == [] then "" else lines[0] + "\n" + Terminated(lines[1..])
  }

  lemma FirstLine(line: string, rest: string)
    requires '\n' !in line
    ensures IndexOf(line + "\n" + rest, '\n') == |line|
    ensures LinesOf(line + "\n" + rest) == [line] + LinesOf(rest)
  {
    IndexOfPrefix(line, '\n', rest);
    var stream := line + "\n" + rest;
    assert stream[..|line|] == line;
    assert stream[|line| + 1..] == rest;
  }

  lemma TerminatedStep(lines: seq<string>, rest: string)
    requires lines != []
    ensures Terminated(lines) + rest == lines[0] + "\n" + (Terminated(lines[1..]) + rest)
  {
  }

  /** Sending lines and framing them again gives the lines. */
  lemma {:induction false} LinesOfTerminated(lines: seq<string>, rest: string)
    requires forall i | 0 <= i < |lines| :: '\n' !in lines[i]
    ensures LinesOf(Terminated(lines) + rest) == lines + LinesOf(rest)
    decreases |lines|
  {
    if lines == [] {
      assert Terminated(lines) + rest == rest;
    } else {
      var tail := Terminated(lines[1..]) + rest;
      assert LinesOf(tail) == lines[1..] + LinesOf(rest) by {
        LinesOfTerminated(lines[1..], rest);
      }
      assert LinesOf(Terminated(lines) + rest) == [lines[0]] + LinesOf(tail) by {
        TerminatedStep(lines, rest);
        FirstLine(lines[0], tail);
      }
      HeadTail(lines);
      Assoc([lines[0]], lines[1..], LinesOf(rest));
    }
  }

  /** The newline found in the buffer is the stream's first. */
  lemma ReadHit(stream: string, res: string, buffer: string, idx: nat, unread: string)
    requires '\n' !in res && stream == res + (buffer + unread)
    requires idx < |buffer| && idx == IndexOf(buffer, '\n')
    ensures IndexOf(stream, '\n') == |res| + idx
    ensures stream[..|res| + idx] == res + buffer[..idx]
    ensures stream[|res| + idx + 1..] == buffer[idx + 1..] + unread
  {
    IndexOfFirst(buffer, '\n');
    assert stream[..|res| + idx] == res + buffer[..idx];
    IndexOfIs(stream, '\n', |res| + idx);
  }

  class Socket {
    var buffer: string
    var chunks: seq<string>  // what later reads deliver; after the last one the peer has closed
    var connected: bool

    /** A read delivers at least one byte and at most the 256 it asks for. */
    ghost predicate Valid()
      reads this
    {
      forall i | 0 <= i < |chunks| :: 0 < |chunks[i]| <= 256
    }

    /** Everything not yet returned: the bytes buffered and those still to arrive. */
    ghost function Stream(): string
      reads this
    {
      buffer + Concat(chunks)
    }

    ghost function Lines(): seq<string>
      reads this
    {
      LinesOf(Stream())
    }

    constructor (chunks: seq<string>)
      requires forall i | 0 <= i < |chunks| :: 0 < |chunks[i]| <= 256
      ensures Valid() && connected && Stream() == Concat(chunks)
    {
      this.buffer := "";
      this.chunks := chunks;
      this.connected := true;
      new;
      assert "" + Concat(chunks) == Concat(chunks);
    }

    /** The next chunk, appended to what `res` has collected; nothing at the end. */
    method Refill() returns (more: bool)
      requires Valid() && '\n' !in buffer
      modifies this
      ensures Valid()
      ensures connected == (old(connected) && more)
      ensures if more then old(Stream()) == old(buffer) + Stream() && |chunks| < |old(chunks)|
              else old(Stream()) == old(buffer) && Stream() == ""
    {
      if chunks == [] {
        assert Stream() == buffer;
        buffer := "";
        connected := false;
        return false;
      }
      buffer := chunks[0];
      chunks := chunks[1..];
      return true;
    }

    /** One line, or `None` for the exception thrown when the peer closes first. The
        outcome depends on the stream alone, not on how it is cut into chunks. */
    method Read() returns (line: Option<string>)
      requires Valid()
      modifies this
      ensures Valid()
      ensures var stream := old(Stream());
        var k := IndexOf(stream, '\n');
        if k < |stream|
        then line == Some(stream[..k]) && Stream() == stream[k + 1..] && connected == old(connected)
        else line == None && Stream() == "" && !connected
      ensures if old(Lines()) == [] then line == None && Lines() == []
              else line == Some(old(Lines())[0]) && Lines() == old(Lines())[1..]
    {
      ghost var stream := Stream();
      var res := "";
      while true
        invariant Valid()
        invariant '\n' !in res
        invariant stream == res + Stream()
        invariant connected == old(connected)
        decreases |chunks|
      {
        var idx := IndexOf(buffer, '\n');
        if idx < |buffer| {
          ReadHit(stream, res, buffer, idx, Concat(chunks));
          res := res + buffer[..idx];
          buffer := buffer[idx + 1..];
          return Some(res);
        }
        ghost var tail := buffer;
        IndexOfAbsent(buffer, '\n');
        res := res + buffer;
        var more := Refill();
        if !more {
          IndexOfAbsent(res, '\n');
          return None;
        }
        Assoc(res[..|res| - |tail|], tail, Stream());
        assert res[..|res| - |tail|] + tail == res;
      }
    }

    /** Reading until the peer closes yields exactly the stream's lines. */
    method ReadAll() returns (lines: seq<string>)
      requires Valid()
      modifies this
      ensures lines == old(Lines())
    {
      lines := [];
      ghost var all := Lines();
      while true
        invariant Valid()
        invariant lines + Lines() == all
        decreases |Lines()|
      {
        label before:
        var line := Read();
        if line == None {
          return;
        }
        assert lines + old@before(Lines()) == lines + [line.value] + Lines();
        lines := lines + [line.value];
      }
    }
  }
}
