/** Variable lists of several devices over one connection (`TcpClient::parseList` and
    both forms of `getDevicesVariableValues`), against a server modelled by its replies. */
module BatchQuery {
  import opened Text
  import opened Tokenizer
  import opened SocketReader

  type Variables = map<string, seq<string>>

  /** How a call ends: with a value, with a `NutException` (an `IOException` is one), or
      outside that hierarchy: `std::out_of_range`, or an element read from an empty list. */
  datatype Outcome<+T> = Ok(value: T) | Thrown | Escaped

  /** `detectError`: only the first three characters count, but the message is taken from
      the fifth, which a text of three characters does not have. */
  predicate IsError(line: string)
  {
    3 <= |line| && line[..3] == "ERR"
  }

  function ErrorOutcome<T>(line: string): Outcome<T>
  {
    if 4 <= |line| then Thrown else Escaped
  }

  /** What a reader of `lines` ends with: the outcome and the lines it left. */
  datatype Parsed<+T> = Parsed(outcome: Outcome<T>, rest: seq<string>)

  function ParseRows(lines: seq<string>, req: string, arr: seq<seq<string>>): Parsed<seq<seq<string>>>
    decreases |lines|
  {
    if lines == [] then Parsed(Thrown, [])
    else
      var res, rest := lines[0], lines[1..];
      if IsError(res) then Parsed(ErrorOutcome(res), rest)
      else if res == "END LIST " + req then Parsed(Ok(arr), rest)
      else if req <= res then ParseRows(rest, req, arr + [Explode(res, |req|)])
      else Parsed(Thrown, rest)
  }

  function ParseList(lines: seq<string>, req: string): Parsed<seq<seq<string>>>
  {
    if lines == [] then Parsed(Thrown, [])
    else
      var res, rest := lines[0], lines[1..];
      if IsError(res) then Parsed(ErrorOutcome(res), rest)
      else if res != "BEGIN LIST " + req then Parsed(Thrown, rest)
      else ParseRows(rest, req, [])
  }

  /** Rows to a map: the first word of a row names the variable; a later row wins. */
  function Collect(rows: seq<seq<string>>, into: Variables): Outcome<Variables>
  {
    if rows == [] then Ok(into)
    else if rows[0] == [] then Escaped
    else Collect(rows[1..], into[rows[0][0] := rows[0][1..]])
  }

  function ParseVariables(lines: seq<string>, dev: string): Parsed<Variables>
  {
    var p := ParseList(lines, "VAR " + dev);
    match p.outcome
    case Ok(rows) => Parsed(Collect(rows, map[]), p.rest)
    case Thrown => Parsed(Thrown, p.rest)
    case Escaped => Parsed(Escaped, p.rest)
  }

  /** The batch loop: a `NutException` skips its device, anything else ends the call. */
  function ParseBatch(lines: seq<string>, devs: seq<string>, into: map<string, Variables>)
    : Parsed<map<string, Variables>>
    decreases |devs|
  {
    if devs == [] then Parsed(Ok(into), lines)
    else
      var p := ParseVariables(lines, devs[0]);
      match p.outcome
      case Ok(vars) => ParseBatch(p.rest, devs[1..], into[devs[0] := vars])
      case Thrown => ParseBatch(p.rest, devs[1..], into)
      case Escaped => Parsed(Escaped, p.rest)
  }

  /** The pipelined call once its requests are sent. */
  function BatchOutcome(lines: seq<string>, devs: seq<string>): Parsed<map<string, Variables>>
  {
    if devs == [] then Parsed(Ok(map[]), lines)
    else
      var p := ParseBatch(lines, devs, map[]);
      if p.outcome == Ok(map[]) then Parsed(Thrown, p.rest) else p
  }

  /** The base-class form: one device at a time, and the first exception ends it. */
  function OneByOne(lines: seq<string>, devs: seq<string>, into: map<string, Variables>)
    : Parsed<map<string, Variables>>
    decreases |devs|
  {
    if devs == [] then Parsed(Ok(into), lines)
    else
      var p := ParseVariables(lines, devs[0]);
      match p.outcome
      case Ok(vars) => OneByOne(p.rest, devs[1..], into[devs[0] := vars])
      case Thrown => Parsed(Thrown, p.rest)
      case Escaped => Parsed(Escaped, p.rest)
  }

  class TcpClient {
    const socket: Socket
    var sent: seq<string>

    constructor (socket: Socket)
      ensures this.socket == socket && sent == []
    {
      this.socket := socket;
      sent := [];
    }

    method ReadList(req: string) returns (outcome: Outcome<seq<seq<string>>>)
      requires socket.Valid()
      modifies socket
      ensures socket.Valid()
      ensures Parsed(outcome, socket.Lines()) == ParseList(old(socket.Lines()), req)
    {
      var line := socket.Read();
      if line == None {
        return Thrown;
      }
      if IsError(line.value) {
        return ErrorOutcome(line.value);
      }
      if line.value != "BEGIN LIST " + req {
        return Thrown;
      }
      ghost var all := socket.Lines();
      var arr: seq<seq<string>> := [];
      while true
        invariant socket.Valid()
        invariant ParseRows(socket.Lines(), req, arr) == ParseRows(all, req, [])
        decreases |socket.Lines()|
      {
        line := socket.Read();
        if line == None {
          return Thrown;
        }
        var res := line.value;
        if IsError(res) {
          return ErrorOutcome(res);
        }
        if res == "END LIST " + req {
          return Ok(arr);
        }
        if req <= res {
          var row := ExplodeLoop(res, |req|);
          arr := arr + [row];
        } else {
          return Thrown;
        }
      }
    }

    method ReadVariables(dev: string) returns (outcome: Outcome<Variables>)
      requires socket.Valid()
      modifies socket
      ensures socket.Valid()
      ensures Parsed(outcome, socket.Lines()) == ParseVariables(old(socket.Lines()), dev)
    {
      var rows := ReadList("VAR " + dev);
      match rows
      case Thrown => return Thrown;
      case Escaped => return Escaped;
      case Ok(res) =>
        var vars: Variables := map[];
        var n := 0;
        while n < |res|
          invariant n <= |res|
          invariant Collect(res[n..], vars) == Collect(res, map[])
        {
          assert res[n..][1..] == res[n + 1..];
          if res[n] == [] {
            return Escaped;
          }
          vars := vars[res[n][0] := res[n][1..]];
          n := n + 1;
        }
        return Ok(vars);
    }

    /** All requests first, then all replies. `devs` lists the set in its order. */
    method GetDevicesVariableValues(devs: seq<string>) returns (outcome: Outcome<map<string, Variables>>)
      requires socket.Valid()
      modifies this`sent, socket
      ensures socket.Valid()
      ensures sent == old(sent) + Requests(devs)
      ensures Parsed(outcome, socket.Lines()) == BatchOutcome(old(socket.Lines()), devs)
    {
      if devs == [] {
        return Ok(map[]);
      }
      SendAsyncQueries(devs);
      ghost var lines := socket.Lines();
      var all: map<string, Variables> := map[];
      var n := 0;
      while n < |devs|
        invariant n <= |devs|
        invariant socket.Valid() && sent == old(sent) + Requests(devs)
        invariant ParseBatch(socket.Lines(), devs[n..], all) == ParseBatch(lines, devs, map[])
      {
        assert devs[n..][1..] == devs[n + 1..];
        var vars := ReadVariables(devs[n]);
        match vars {
          case Ok(value) => all := all[devs[n] := value];
          case Thrown =>
          case Escaped => return Escaped;
        }
        n := n + 1;
      }
      if all == map[] {
        return Thrown;
      }
      return Ok(all);
    }

    method SendAsyncQueries(devs: seq<string>)
      modifies this`sent
      ensures sent == old(sent) + Requests(devs)
    {
      var n := 0;
      while n < |devs|
        invariant n <= |devs|
        invariant sent + Requests(devs[n..]) == old(sent) + Requests(devs)
      {
        assert devs[n..][1..] == devs[n + 1..];
        Assoc(sent, ["LIST VAR " + devs[n]], Requests(devs[n + 1..]));
        sent := sent + ["LIST VAR " + devs[n]];
        n := n + 1;
      }
      assert sent + [] == sent;
    }
  }

  function Requests(devs: seq<string>): seq<string>
  {
    if devs == [] then [] else ["LIST VAR " + devs[0]] + Requests(devs[1..])
  }

  // ----- which lists are accepted -----

  predicate RowLine(line: string, req: string)
  {
    !IsError(line) && line != "END LIST " + req && req <= line
  }

  /** The first `n` lines are rows, and the next ends the list. */
  predicate RowsUpTo(lines: seq<string>, req: string, n: nat)
  {
    n < |lines| && lines[n] == "END LIST " + req && forall i | 0 <= i < n :: RowLine(lines[i], req)
  }

  function Exploded(lines: seq<string>, from: nat): seq<seq<string>>
  {
    if lines == [] then [] else [Explode(lines[0], from)] + Exploded(lines[1..], from)
  }

  lemma EndIsNoError(req: string)
    ensures !IsError("END LIST " + req)
  {
    var end := "END LIST " + req;
    assert end[..3][1] == 'N' && "ERR"[1] == 'R';
  }

  lemma {:induction false} RowsExact(lines: seq<string>, req: string, arr: seq<seq<string>>)
    ensures ParseRows(lines, req, arr).outcome.Ok? <==> exists n | 0 <= n < |lines| :: RowsUpTo(lines, req, n)
    ensures forall n | 0 <= n < |lines| && RowsUpTo(lines, req, n) ::
      ParseRows(lines, req, arr) == Parsed(Ok(arr + Exploded(lines[..n], |req|)), lines[n + 1..])
    decreases |lines|
  {
    EndIsNoError(req);
    if lines != [] {
      var rest := lines[1..];
      assert forall i | 1 <= i < |lines| :: lines[i] == rest[i - 1];
      if lines[0] == "END LIST " + req {
        assert RowsUpTo(lines, req, 0) && lines[..0] == [] && arr + [] == arr;
      } else if RowLine(lines[0], req) {
        RowsExact(rest, req, arr + [Explode(lines[0], |req|)]);
        MoreRows(lines, req, arr);
      }
    }
  }

  lemma MoreRows(lines: seq<string>, req: string, arr: seq<seq<string>>)
    requires lines != [] && RowLine(lines[0], req)
    ensures forall n | 0 <= n < |lines| - 1 :: RowsUpTo(lines, req, n + 1) <==> RowsUpTo(lines[1..], req, n)
    ensures forall n | 0 < n < |lines| && RowsUpTo(lines, req, n) ::
      arr + [Explode(lines[0], |req|)] + Exploded(lines[1..][..n - 1], |req|) == arr + Exploded(lines[..n], |req|)
    ensures forall n | 0 < n < |lines| :: lines[1..][n..] == lines[n + 1..]
  {
    var rest := lines[1..];
    forall n | 0 <= n < |lines| - 1
      ensures RowsUpTo(lines, req, n + 1) <==> RowsUpTo(rest, req, n)
    {
      assert forall i | 1 <= i < |lines| :: lines[i] == rest[i - 1];
      assert forall i | 0 <= i < |rest| :: rest[i] == lines[i + 1];
    }
    forall n | 0 < n < |lines|
      ensures arr + [Explode(lines[0], |req|)] + Exploded(rest[..n - 1], |req|) == arr + Exploded(lines[..n], |req|)
    {
      assert lines[..n][0] == lines[0] && lines[..n][1..] == rest[..n - 1];
      Assoc(arr, [Explode(lines[0], |req|)], Exploded(rest[..n - 1], |req|));
    }
  }

  /** Main result on the parser: a list is accepted exactly if it begins with its line, goes on with
      lines that begin with the request and are no error, and ends with its line; and then it is those
      lines, exploded, and nothing behind the end is read. */
  lemma ListExact(lines: seq<string>, req: string)
    ensures ParseList(lines, req).outcome.Ok?
      <==> lines != [] && lines[0] == "BEGIN LIST " + req &&
           exists n | 0 <= n < |lines[1..]| :: RowsUpTo(lines[1..], req, n)
    ensures forall n | lines != [] && lines[0] == "BEGIN LIST " + req && 0 <= n < |lines[1..]| &&
                       RowsUpTo(lines[1..], req, n) ::
      ParseList(lines, req) == Parsed(Ok(Exploded(lines[1..][..n], |req|)), lines[1..][n + 1..])
  {
    if lines != [] && lines[0] == "BEGIN LIST " + req {
      assert lines[0][..3][0] == 'B' && "ERR"[0] == 'E';
      RowsExact(lines[1..], req, []);
      assert forall n | 0 <= n < |lines[1..]| && RowsUpTo(lines[1..], req, n) ::
        [] + Exploded(lines[1..][..n], |req|) == Exploded(lines[1..][..n], |req|);
    }
  }

  // ----- the server -----

  /** One variable of a device, as the server holds it. */
  datatype Row = Row(name: string, values: seq<string>)

  /** An answer to one LIST VAR request: a line that begins with ERR, or the whole list. The
      protocol puts a space and a word behind the ERR; the client only needs any one byte. */
  datatype Reply = ErrorReply(code: string) | Block(rows: seq<Row>)

  predicate ValidReply(r: Reply)
  {
    r.Block? ==> forall i | 0 <= i < |r.rows| :: Plain(r.rows[i].name)
  }

  function RowLines(dev: string, rows: seq<Row>): seq<string>
  {
    if rows == [] then []
    else ["VAR " + dev + " " + rows[0].name + Quoted(rows[0].values)] + RowLines(dev, rows[1..])
  }

  function ReplyLines(dev: string, r: Reply): seq<string>
  {
    match r
    case ErrorReply(code) => ["ERR" + code]
    case Block(rows) => ["BEGIN LIST VAR " + dev] + RowLines(dev, rows) + ["END LIST VAR " + dev]
  }

  function ReplyStream(devs: seq<string>, replies: seq<Reply>): seq<string>
    requires |devs| == |replies|
  {
    if devs == [] then []
    else ReplyLines(devs[0], replies[0]) + ReplyStream(devs[1..], replies[1..])
  }

  function RowValues(rows: seq<Row>): seq<seq<string>>
  {
    if rows == [] then [] else [[rows[0].name] + rows[0].values] + RowValues(rows[1..])
  }

  /** What the server meant by its rows. */
  function Meaning(rows: seq<Row>, into: Variables): Variables
  {
    if rows == [] then into else Meaning(rows[1..], into[rows[0].name := rows[0].values])
  }

  lemma RowLineKind(dev: string, row: Row)
    requires Plain(row.name)
    ensures var line := "VAR " + dev + " " + row.name + Quoted(row.values);
      !IsError(line) && line != "END LIST VAR " + dev && "VAR " + dev <= line &&
      Explode(line, |"VAR " + dev|) == [row.name] + row.values
  {
    var req := "VAR " + dev;
    var line := req + " " + row.name + Quoted(row.values);
    assert line[..|req|] == req;
    ExplodeRow(req, row.name, row.values);
    assert line[0] == 'V' && line[..3][0] == 'V';
    assert "ERR"[0] == 'E' && ("END LIST " + req)[0] == 'E';
  }

  lemma EndOfRows(dev: string, tail: seq<string>, arr: seq<seq<string>>)
    ensures ParseRows(["END LIST VAR " + dev] + tail, "VAR " + dev, arr) == Parsed(Ok(arr), tail)
  {
    var end := ["END LIST VAR " + dev] + tail;
    assert end[0] == "END LIST " + ("VAR " + dev) && end[1..] == tail;
    assert end[0][..3][1] == 'N' && "ERR"[1] == 'R';
  }

  lemma {:induction false} ParseRowLines(dev: string, rows: seq<Row>, tail: seq<string>, arr: seq<seq<string>>)
    requires forall i | 0 <= i < |rows| :: Plain(rows[i].name)
    ensures ParseRows(RowLines(dev, rows) + (["END LIST VAR " + dev] + tail), "VAR " + dev, arr)
      == Parsed(Ok(arr + RowValues(rows)), tail)
    decreases |rows|
  {
    var end := ["END LIST VAR " + dev] + tail;
    if rows == [] {
      assert RowLines(dev, rows) + end == end;
      EndOfRows(dev, tail, arr);
      assert arr + [] == arr;
    } else {
      var line := "VAR " + dev + " " + rows[0].name + Quoted(rows[0].values);
      var lines := RowLines(dev, rows[1..]) + end;
      RowLineKind(dev, rows[0]);
      Assoc([line], RowLines(dev, rows[1..]), end);
      assert ([line] + lines)[1..] == lines;
      ParseRowLines(dev, rows[1..], tail, arr + [[rows[0].name] + rows[0].values]);
      Assoc(arr, [[rows[0].name] + rows[0].values], RowValues(rows[1..]));
    }
  }

  lemma {:induction false} CollectRows(rows: seq<Row>, into: Variables)
    ensures Collect(RowValues(rows), into) == Ok(Meaning(rows, into))
    decreases |rows|
  {
    if rows != [] {
      var first := [rows[0].name] + rows[0].values;
      assert first[1..] == rows[0].values;
      assert ([first] + RowValues(rows[1..]))[1..] == RowValues(rows[1..]);
      CollectRows(rows[1..], into[rows[0].name := rows[0].values]);
    }
  }

  /** The outcome one reply stands for. */
  function ReplyOutcome(r: Reply): Outcome<Variables>
  {
    match r
    case ErrorReply(code) => if code == "" then Escaped else Thrown
    case Block(rows) => Ok(Meaning(rows, map[]))
  }

  /** Nothing but ERR: the one reply whose exception the batch does not catch. */
  predicate Bare(r: Reply)
  {
    r.ErrorReply? && r.code == ""
  }

  /** Position of the first bare error, or the number of replies. */
  function FirstBare(replies: seq<Reply>): (k: nat)
    ensures k <= |replies|
    ensures k < |replies| ==> Bare(replies[k])
  {
    if replies == [] || Bare(replies[0]) then 0 else 1 + FirstBare(replies[1..])
  }

  lemma {:induction false} FirstBareIs(replies: seq<Reply>)
    ensures forall i | 0 <= i < FirstBare(replies) :: !Bare(replies[i])
    decreases |replies|
  {
    if replies != [] && !Bare(replies[0]) {
      FirstBareIs(replies[1..]);
      assert forall i | 1 <= i < |replies| :: replies[i] == replies[1..][i - 1];
    }
  }

  /** One reply is consumed, no more and no less, and means what the server meant. */
  lemma OneReply(dev: string, r: Reply, tail: seq<string>)
    requires ValidReply(r)
    ensures ParseVariables(ReplyLines(dev, r) + tail, dev) == Parsed(ReplyOutcome(r), tail)
  {
    var req := "VAR " + dev;
    match r
    case ErrorReply(code) =>
      var line := "ERR" + code;
      assert line[..3] == "ERR";
      assert ([line] + tail)[1..] == tail;
    case Block(rows) =>
      var begin := "BEGIN LIST VAR " + dev;
      var rest := RowLines(dev, rows) + (["END LIST VAR " + dev] + tail);
      Assoc([begin] + RowLines(dev, rows), ["END LIST VAR " + dev], tail);
      Assoc([begin], RowLines(dev, rows), ["END LIST VAR " + dev] + tail);
      assert ReplyLines(dev, r) + tail == [begin] + rest;
      assert begin[..3][0] == 'B' && "ERR"[0] == 'E';
      assert begin == "BEGIN LIST " + req;
      assert ([begin] + rest)[1..] == rest;
      ParseRowLines(dev, rows, tail, []);
      CollectRows(rows, map[]);
      assert [] + RowValues(rows) == RowValues(rows);
  }

  /** What the batch should return: the devices that did not fail, with their values. */
  function Successes(devs: seq<string>, replies: seq<Reply>, into: map<string, Variables>): map<string, Variables>
    requires |devs| == |replies|
  {
    if devs == [] then into
    else
      match replies[0]
      case ErrorReply(_) => Successes(devs[1..], replies[1..], into)
      case Block(rows) => Successes(devs[1..], replies[1..], into[devs[0] := Meaning(rows, map[])])
  }

  /** What the loop leaves of the replies: everything behind a bare error. */
  function LeftBehind(devs: seq<string>, replies: seq<Reply>): seq<string>
    requires |devs| == |replies|
  {
    var k := FirstBare(replies);
    if k == |replies| then [] else ReplyStream(devs[k + 1..], replies[k + 1..])
  }

  lemma {:induction false} BatchLoop(devs: seq<string>, replies: seq<Reply>, tail: seq<string>,
                                     into: map<string, Variables>)
    requires |devs| == |replies| && forall i | 0 <= i < |replies| :: ValidReply(replies[i])
    ensures ParseBatch(ReplyStream(devs, replies) + tail, devs, into)
      == Parsed(if FirstBare(replies) < |replies| then Escaped else Ok(Successes(devs, replies, into)),
                LeftBehind(devs, replies) + tail)
    decreases |devs|
  {
    if devs == [] {
      assert ReplyStream(devs, replies) + tail == tail == [] + tail;
    } else {
      var rest := ReplyStream(devs[1..], replies[1..]) + tail;
      Assoc(ReplyLines(devs[0], replies[0]), ReplyStream(devs[1..], replies[1..]), tail);
      OneReply(devs[0], replies[0], rest);
      if !Bare(replies[0]) {
        var k := FirstBare(replies[1..]);
        assert k < |replies| - 1 ==> devs[1..][k + 1..] == devs[k + 2..] && replies[1..][k + 1..] == replies[k + 2..];
        match replies[0]
        case ErrorReply(_) => BatchLoop(devs[1..], replies[1..], tail, into);
        case Block(rows) => BatchLoop(devs[1..], replies[1..], tail, into[devs[0] := Meaning(rows, map[])]);
      }
    }
  }

  /** The result holds, for distinct devices, exactly those with a list, each with the
      values its own reply carries. */
  lemma {:induction false} SuccessesExact(devs: seq<string>, replies: seq<Reply>, into: map<string, Variables>)
    requires |devs| == |replies| && forall i, j | 0 <= i < j < |devs| :: devs[i] != devs[j]
    ensures forall i | 0 <= i < |devs| && replies[i].Block? ::
      devs[i] in Successes(devs, replies, into) &&
      Ok(Successes(devs, replies, into)[devs[i]]) == ReplyOutcome(replies[i])
    ensures forall d | d !in devs ::
      (d in Successes(devs, replies, into) <==> d in into) &&
      (d in into ==> Successes(devs, replies, into)[d] == into[d])
    ensures forall i | 0 <= i < |devs| && replies[i].ErrorReply? ::
      (devs[i] in Successes(devs, replies, into) <==> devs[i] in into)
    decreases |devs|
  {
    if devs != [] {
      var next := if replies[0].Block? then into[devs[0] := Meaning(replies[0].rows, map[])] else into;
      SuccessesExact(devs[1..], replies[1..], next);
      assert devs[0] !in devs[1..];
      forall i | 0 <= i < |devs|
        ensures i > 0 ==> devs[i] == devs[1..][i - 1] && replies[i] == replies[1..][i - 1]
      {
      }
    }
  }

  predicate AllFailed(replies: seq<Reply>)
  {
    forall i | 0 <= i < |replies| :: replies[i].ErrorReply?
  }

  predicate NoneFailed(replies: seq<Reply>)
  {
    forall i | 0 <= i < |replies| :: replies[i].Block?
  }

  /** Against any such server: a bare error ends the call with what is behind it unread;
      without one, every reply is read and the call throws exactly when devices were asked
      for and none succeeded. */
  lemma {:induction false} BatchConsumesReplies(devs: seq<string>, replies: seq<Reply>, tail: seq<string>)
    requires |devs| == |replies| && forall i | 0 <= i < |replies| :: ValidReply(replies[i])
    requires forall i, j | 0 <= i < j < |devs| :: devs[i] != devs[j]
    ensures BatchOutcome(ReplyStream(devs, replies) + tail, devs)
      == Parsed(if FirstBare(replies) < |replies| then Escaped
                else if devs != [] && AllFailed(replies) then Thrown
                else Ok(Successes(devs, replies, map[])),
                LeftBehind(devs, replies) + tail)
  {
    BatchLoop(devs, replies, tail, map[]);
    SuccessesExact(devs, replies, map[]);
    var all := Successes(devs, replies, map[]);
    if devs == [] {
      assert ReplyStream(devs, replies) + tail == tail == [] + tail;
    } else if all == map[] {
      assert forall i | 0 <= i < |devs| :: devs[i] !in all;
    } else {
      var d :| d in all;
      assert d in devs;
      var i :| 0 <= i < |devs| && devs[i] == d;
      assert replies[i].Block?;
    }
  }

  lemma {:induction false} StreamOfSome(devs: seq<string>, replies: seq<Reply>)
    requires |devs| == |replies|
    ensures ReplyStream(devs, replies) == [] <==> devs == []
    decreases |devs|
  {
    if devs != [] {
      assert |ReplyLines(devs[0], replies[0])| > 0;
    }
  }

  /** Main result on staying in step: the call ends outside its exceptions exactly when some
      reply is a bare error, and has read exactly one reply per device exactly when none
      before the last one is. */
  lemma BatchStaysInStep(devs: seq<string>, replies: seq<Reply>, tail: seq<string>)
    requires |devs| == |replies| && forall i | 0 <= i < |replies| :: ValidReply(replies[i])
    requires forall i, j | 0 <= i < j < |devs| :: devs[i] != devs[j]
    ensures var p := BatchOutcome(ReplyStream(devs, replies) + tail, devs);
      && (p.outcome == Escaped <==> exists i | 0 <= i < |replies| :: Bare(replies[i]))
      && (p.rest == tail <==> forall i | 0 <= i < |replies| - 1 :: !Bare(replies[i]))
  {
    BatchConsumesReplies(devs, replies, tail);
    FirstBareIs(replies);
    var k, left := FirstBare(replies), LeftBehind(devs, replies);
    if k < |replies| {
      StreamOfSome(devs[k + 1..], replies[k + 1..]);
    }
    if left == [] {
      assert [] + tail == tail;
    } else {
      assert |left + tail| > |tail|;
    }
  }

  /** Asking for one device alone, against a server giving the same reply. */
  function Single(dev: string, r: Reply): Outcome<Variables>
  {
    ParseVariables(ReplyLines(dev, r), dev).outcome
  }

  lemma SingleMeans(dev: string, r: Reply)
    requires ValidReply(r)
    ensures Single(dev, r) == ReplyOutcome(r)
  {
    OneReply(dev, r, []);
    assert ReplyLines(dev, r) + [] == ReplyLines(dev, r);
  }

  /** Main result: the pipelined call returns the one-device-at-a-time results for
      precisely the devices that did not fail, unless all did or one escaped. */
  lemma {:induction false} BatchRefinesSequential(devs: seq<string>, replies: seq<Reply>, tail: seq<string>)
    requires |devs| == |replies| && forall i | 0 <= i < |replies| :: ValidReply(replies[i])
    requires forall i, j | 0 <= i < j < |devs| :: devs[i] != devs[j]
    ensures var outcome := BatchOutcome(ReplyStream(devs, replies) + tail, devs).outcome;
      && (outcome.Ok? <==> FirstBare(replies) == |replies| && (devs == [] || !AllFailed(replies)))
      && (outcome.Ok? ==>
            && (forall d | d in outcome.value :: d in devs)
            && forall i | 0 <= i < |devs| ::
                 (devs[i] in outcome.value <==> Single(devs[i], replies[i]).Ok?) &&
                 (devs[i] in outcome.value ==> Ok(outcome.value[devs[i]]) == Single(devs[i], replies[i])))
  {
    BatchConsumesReplies(devs, replies, tail);
    SuccessesExact(devs, replies, map[]);
    forall i | 0 <= i < |devs|
      ensures Single(devs[i], replies[i]) == ReplyOutcome(replies[i])
    {
      SingleMeans(devs[i], replies[i]);
    }
  }

  /** Position of the first failing device, or the number of devices. */
  function FirstFailed(replies: seq<Reply>): (k: nat)
    ensures k <= |replies|
    ensures k < |replies| ==> replies[k].ErrorReply?
  {
    if replies == [] || replies[0].ErrorReply? then 0 else 1 + FirstFailed(replies[1..])
  }

  lemma {:induction false} OneByOneExact(devs: seq<string>, replies: seq<Reply>, tail: seq<string>,
                                         into: map<string, Variables>)
    requires |devs| == |replies| && forall i | 0 <= i < |replies| :: ValidReply(replies[i])
    ensures OneByOne(ReplyStream(devs, replies) + tail, devs, into).outcome
      == var k := FirstFailed(replies);
         if k == |replies| then Ok(Successes(devs, replies, into))
         else if Bare(replies[k]) then Escaped else Thrown
    ensures FirstFailed(replies) == |replies| <==> NoneFailed(replies)
    decreases |devs|
  {
    if devs == [] {
      assert ReplyStream(devs, replies) + tail == tail;
    } else {
      var rest := ReplyStream(devs[1..], replies[1..]) + tail;
      Assoc(ReplyLines(devs[0], replies[0]), ReplyStream(devs[1..], replies[1..]), tail);
      OneReply(devs[0], replies[0], rest);
      if replies[0].Block? {
        OneByOneExact(devs[1..], replies[1..], tail, into[devs[0] := Meaning(replies[0].rows, map[])]);
        assert forall i | 0 < i < |replies| :: replies[i] == replies[1..][i - 1];
      }
    }
  }

  /** The base-class form gives up at the first failing device, so the two end alike exactly
      when no device fails, when the first failure is a bare error, or when all fail and none
      of them is. */
  lemma BatchAgainstOneByOne(devs: seq<string>, replies: seq<Reply>, tail: seq<string>)
    requires |devs| == |replies| && forall i | 0 <= i < |replies| :: ValidReply(replies[i])
    requires forall i, j | 0 <= i < j < |devs| :: devs[i] != devs[j]
    ensures OneByOne(ReplyStream(devs, replies) + tail, devs, map[]).outcome
         == BatchOutcome(ReplyStream(devs, replies) + tail, devs).outcome
      <==> var k := FirstFailed(replies);
           k == |replies| || Bare(replies[k]) || (AllFailed(replies) && FirstBare(replies) == |replies|)
  {
    OneByOneExact(devs, replies, tail, map[]);
    BatchConsumesReplies(devs, replies, tail);
    FirstBareIs(replies);
  }

  // ----- from the bytes to the result -----

  predicate OnOneLine(s: string)
  {
    '\n' !in s
  }

  /** No part of a reply contains a newline. */
  predicate ReplyOnLines(r: Reply)
  {
    match r
    case ErrorReply(code) => OnOneLine(code)
    case Block(rows) =>
      forall i | 0 <= i < |rows| ::
        OnOneLine(rows[i].name) && forall j | 0 <= j < |rows[i].values| :: OnOneLine(rows[i].values[j])
  }

  lemma {:induction false} EscapedOnOneLine(s: string)
    requires OnOneLine(s)
    ensures OnOneLine(EscapedBody(s))
    decreases |s|
  {
    if s != "" {
      EscapedOnOneLine(s[1..]);
    }
  }

  lemma {:induction false} QuotedOnOneLine(values: seq<string>)
    requires forall j | 0 <= j < |values| :: OnOneLine(values[j])
    ensures OnOneLine(Quoted(values))
    decreases |values|
  {
    if values != [] {
      EscapedOnOneLine(values[0]);
      QuotedOnOneLine(values[1..]);
    }
  }

  predicate AllOnOneLine(lines: seq<string>)
  {
    forall i | 0 <= i < |lines| :: OnOneLine(lines[i])
  }

  lemma {:induction false} RowsOnLines(dev: string, rows: seq<Row>)
    requires OnOneLine(dev) && ReplyOnLines(Block(rows))
    ensures AllOnOneLine(RowLines(dev, rows))
    decreases |rows|
  {
    if rows != [] {
      QuotedOnOneLine(rows[0].values);
      assert forall i | 1 <= i < |rows| :: rows[1..][i - 1] == rows[i];
      RowsOnLines(dev, rows[1..]);
    }
  }

  lemma {:induction false} RepliesOnLines(devs: seq<string>, replies: seq<Reply>)
    requires |devs| == |replies| && AllOnOneLine(devs) && forall i | 0 <= i < |replies| :: ReplyOnLines(replies[i])
    ensures AllOnOneLine(ReplyStream(devs, replies))
    decreases |devs|
  {
    if devs != [] {
      if replies[0].Block? {
        RowsOnLines(devs[0], replies[0].rows);
      }
      assert AllOnOneLine(ReplyLines(devs[0], replies[0]));
      RepliesOnLines(devs[1..], replies[1..]);
    }
  }

  /** A whole call, from the bytes as they arrive to the map: however the replies are cut into
      chunks and whatever follows them, the result holds the devices with a list, each with
      the values the server has, or tells that none had one or that a reply was bare. */
  method Fetch(chunks: seq<string>, devs: seq<string>, ghost replies: seq<Reply>, ghost rest: string)
    returns (outcome: Outcome<map<string, Variables>>)
    requires forall i | 0 <= i < |chunks| :: 0 < |chunks[i]| <= 256
    requires |devs| == |replies| && forall i, j | 0 <= i < j < |devs| :: devs[i] != devs[j]
    requires AllOnOneLine(devs) && forall i | 0 <= i < |replies| :: ValidReply(replies[i]) && ReplyOnLines(replies[i])
    requires Concat(chunks) == Terminated(ReplyStream(devs, replies)) + rest
    ensures outcome == if FirstBare(replies) < |replies| then Escaped
                       else if devs != [] && AllFailed(replies) then Thrown
                       else Ok(Successes(devs, replies, map[]))
  {
    var socket := new Socket(chunks);
    var client := new TcpClient(socket);
    RepliesOnLines(devs, replies);
    LinesOfTerminated(ReplyStream(devs, replies), rest);
    BatchConsumesReplies(devs, replies, LinesOf(rest));
    outcome := client.GetDevicesVariableValues(devs);
  }
}
