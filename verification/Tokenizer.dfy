/** The quoting printer and the tokenizer of the C++ client
    (`TcpClient::escape`, `TcpClient::explode`). */
module Tokenizer {
  import opened Text

  datatype State = Init | SimpleString | QuotedString | SimpleEscape | QuotedEscape

  /** The tokenizer's three variables: its state, the word being built, the words done. */
  datatype Scan = Scan(state: State, temp: string, res: seq<string>)

  /** `temp += '\\' + c` adds two integers and keeps the low byte of the sum. */
  function AddedToBackslash(c: char): char
  {
    ((92 + c as int) % 256) as char
  }

  function Step(k: Scan, c: char): Scan
  {
    match k.state
    case Init =>
      if c == ' ' then k
      else if c == '"' then k.(state := QuotedString)
      else if c == '\\' then k.(state := SimpleEscape)
      else k.(temp := k.temp + [c], state := SimpleString)
    case SimpleString =>
      if c == ' ' then Scan(Init, "", k.res + [k.temp])
      else if c == '\\' then k.(state := SimpleEscape)
      else if c == '"' then Scan(QuotedString, "", k.res + [k.temp])
      else k.(temp := k.temp + [c])
    case QuotedString =>
      if c == '\\' then k.(state := QuotedEscape)
      else if c == '"' then Scan(Init, "", k.res + [k.temp])
      else k.(temp := k.temp + [c])
    case SimpleEscape =>
      var added := if c == '\\' || c == '"' || c == ' ' then c else AddedToBackslash(c);
      k.(temp := k.temp + [added], state := SimpleString)
    case QuotedEscape =>
      var added := if c == '\\' || c == '"' then c else AddedToBackslash(c);
      k.(temp := k.temp + [added], state := QuotedString)
  }

  function ScanAll(k: Scan, s: string): Scan
    decreases |s|
  {
    if s == "" then k else ScanAll(Step(k, s[0]), s[1..])
  }

  function Finish(k: Scan): seq<string>
  {
    if k.temp != "" then k.res + [k.temp] else k.res
  }

  const START := Scan(Init, "", [])

  /** The words of `str` from offset `begin` on; an offset past the end leaves none. */
  function Explode(str: string, begin: nat): seq<string>
  {
    if begin < |str| then Finish(ScanAll(START, str[begin..])) else []
  }

  method ExplodeLoop(str: string, begin: nat) returns (res: seq<string>)
    ensures res == Explode(str, begin)
  {
    res := [];
    var temp, state := "", Init;
    var idx := begin;
    while idx < |str|
      invariant begin <= |str| ==> begin <= idx <= |str|
      invariant begin > |str| ==> idx == begin && res == [] && temp == ""
      invariant begin <= |str| ==>
        ScanAll(Scan(state, temp, res), str[idx..]) == ScanAll(START, str[begin..])
      decreases |str| - idx
    {
      var c := str[idx];
      assert str[idx..][1..] == str[idx + 1..];
      match state {
        case Init =>
          if c == ' ' {
          } else if c == '"' {
            state := QuotedString;
          } else if c == '\\' {
            state := SimpleEscape;
          } else {
            temp := temp + [c];
            state := SimpleString;
          }
        case SimpleString =>
          if c == ' ' {
            res := res + [temp];
            temp := "";
            state := Init;
          } else if c == '\\' {
            state := SimpleEscape;
          } else if c == '"' {
            res := res + [temp];
            temp := "";
            state := QuotedString;
          } else {
            temp := temp + [c];
          }
        case QuotedString =>
          if c == '\\' {
            state := QuotedEscape;
          } else if c == '"' {
            res := res + [temp];
            temp := "";
            state := Init;
          } else {
            temp := temp + [c];
          }
        case SimpleEscape =>
          if c == '\\' || c == '"' || c == ' ' {
            temp := temp + [c];
          } else {
            temp := temp + [AddedToBackslash(c)];
          }
          state := SimpleString;
        case QuotedEscape =>
          if c == '\\' || c == '"' {
            temp := temp + [c];
          } else {
            temp := temp + [AddedToBackslash(c)];
          }
          state := QuotedString;
      }
      idx := idx + 1;
    }
    if temp != "" {
      res := res + [temp];
    }
  }

  // ----- the printer -----

  function EscapedChar(c: char): string
  {
    if c == '"' then "\\\"" else if c == '\\' then "\\\\" else [c]
  }

  function EscapedBody(s: string): string
  {
    if s == "" then "" else EscapedChar(s[0]) + EscapedBody(s[1..])
  }

  function Escape(s: string): string
  {
    "\"" + EscapedBody(s) + "\""
  }

  lemma {:induction false} EscapedBodyAppend(s: string, c: char)
    ensures EscapedBody(s + [c]) == EscapedBody(s) + EscapedChar(c)
    decreases |s|
  {
    if s != "" {
      assert (s + [c])[1..] == s[1..] + [c];
      EscapedBodyAppend(s[1..], c);
    }
  }

  method EscapeLoop(str: string) returns (res: string)
    ensures res == Escape(str)
  {
    res := "\"";
    var n := 0;
    while n < |str|
      invariant n <= |str|
      invariant res == "\"" + EscapedBody(str[..n])
    {
      var c := str[n];
      EscapedBodyAppend(str[..n], c);
      assert str[..n + 1] == str[..n] + [c];
      if c == '"' {
        res := res + "\\\"";
      } else if c == '\\' {
        res := res + "\\\\";
      } else {
        res := res + [c];
      }
      n := n + 1;
    }
    assert str[..n] == str;
    res := res + "\"";
  }

  function EscapeEach(values: seq<string>): seq<string>
  {
    if values == [] then [] else [Escape(values[0])] + EscapeEach(values[1..])
  }

  /** Every value quoted, each after one space: the tail of a SET VAR request and of a
      row of a variable list. */
  function Quoted(values: seq<string>): string
  {
    if values == [] then "" else " " + Escape(values[0]) + Quoted(values[1..])
  }

  lemma QueryHead(dev: string, name: string)
    ensures "SET VAR " + dev + " " + name == Join(["SET", "VAR", dev, name], ' ')
  {
    assert ["SET", "VAR", dev, name][1..] == ["VAR", dev, name];
    assert ["VAR", dev, name][1..] == [dev, name];
    assert [dev, name][1..] == [name];
    assert Join([dev, name], ' ') == dev + " " + name;
    assert "SET" + [' '] + ("VAR" + [' '] + (dev + " " + name)) == "SET VAR " + dev + " " + name;
  }

  lemma QuotedStep(query: string, values: seq<string>, n: nat)
    requires n < |values|
    ensures query + Quoted(values[n..]) == query + " " + Escape(values[n]) + Quoted(values[n + 1..])
  {
    assert values[n..][1..] == values[n + 1..];
    Assoc(query, " " + Escape(values[n]), Quoted(values[n + 1..]));
  }

  /** `SET VAR <dev> <name> <values>`. */
  method SetVarQuery(dev: string, name: string, values: seq<string>) returns (query: string)
    ensures query == Join(["SET", "VAR", dev, name], ' ') + Quoted(values)
  {
    query := "SET VAR " + dev + " " + name;
    QueryHead(dev, name);
    ghost var all := query + Quoted(values);
    var n := 0;
    assert values[0..] == values;
    while n < |values|
      invariant n <= |values|
      invariant query + Quoted(values[n..]) == all
    {
      QuotedStep(query, values, n);
      var e := EscapeLoop(values[n]);
      query := query + " " + e;
      n := n + 1;
    }
    assert query + "" == query;
  }

  // ----- the tokenizer inverts the printer -----

  lemma {:induction false} ScanConcat(k: Scan, a: string, b: string)
    ensures ScanAll(k, a + b) == ScanAll(ScanAll(k, a), b)
    decreases |a|
  {
    if a == "" {
      assert a + b == b;
    } else {
      assert (a + b)[1..] == a[1..] + b;
      ScanConcat(Step(k, a[0]), a[1..], b);
    }
  }

  lemma ScanOne(k: Scan, c: char)
    ensures ScanAll(k, [c]) == Step(k, c)
  {
    assert [c][1..] == "";
  }

  lemma {:induction false} ScanEscapedBody(s: string, k: Scan)
    requires k.state == QuotedString
    ensures ScanAll(k, EscapedBody(s)) == k.(temp := k.temp + s)
    decreases |s|
  {
    if s == "" {
      assert k.temp + s == k.temp;
    } else {
      var c := s[0];
      var next := k.(temp := k.temp + [c]);
      ScanConcat(k, EscapedChar(c), EscapedBody(s[1..]));
      assert ScanAll(k, EscapedChar(c)) == next by {
        if c == '"' || c == '\\' {
          assert EscapedChar(c)[1..] == [c];
          ScanOne(Step(k, '\\'), c);
        } else {
          ScanOne(k, c);
        }
      }
      ScanEscapedBody(s[1..], next);
      assert next.temp + s[1..] == k.temp + s;
    }
  }

  /** One printed value is read back as exactly one word, from a word boundary. */
  lemma ScanEscape(s: string, res: seq<string>)
    ensures ScanAll(Scan(Init, "", res), Escape(s)) == Scan(Init, "", res + [s])
  {
    var k := Scan(QuotedString, "", res);
    ScanOne(Scan(Init, "", res), '"');
    ScanConcat(Scan(Init, "", res), "\"", EscapedBody(s) + "\"");
    ScanConcat(k, EscapedBody(s), "\"");
    ScanEscapedBody(s, k);
    ScanOne(k.(temp := s), '"');
    assert "" + s == s;
    assert Escape(s) == "\"" + (EscapedBody(s) + "\"");
  }

  lemma {:induction false} ScanQuoted(values: seq<string>, res: seq<string>)
    ensures ScanAll(Scan(Init, "", res), Quoted(values)) == Scan(Init, "", res + values)
    decreases |values|
  {
    if values == [] {
      assert res + values == res;
    } else {
      var k := Scan(Init, "", res);
      ScanOne(k, ' ');
      ScanConcat(k, " " + Escape(values[0]), Quoted(values[1..]));
      ScanConcat(k, " ", Escape(values[0]));
      ScanEscape(values[0], res);
      ScanQuoted(values[1..], res + [values[0]]);
      assert res + [values[0]] + values[1..] == res + values;
    }
  }

  lemma {:induction false} QuotedIsJoined(values: seq<string>)
    requires values != []
    ensures Quoted(values) == " " + Join(EscapeEach(values), ' ')
    decreases |values|
  {
    var each := EscapeEach(values);
    assert each[0] == Escape(values[0]) && each[1..] == EscapeEach(values[1..]);
    if |values| > 1 {
      QuotedIsJoined(values[1..]);
      assert EscapeEach(values[1..]) != [];
    } else {
      assert values[1..] == [] && each[1..] == [];
    }
  }

  /** Main result: tokenizing the space-joined quoted values gives the values back,
      whatever characters they hold, the empty string included. */
  lemma ExplodeInvertsEscape(values: seq<string>)
    ensures Explode(Join(EscapeEach(values), ' '), 0) == values
  {
    var text := Join(EscapeEach(values), ' ');
    if values == [] {
    } else {
      QuotedIsJoined(values);
      ScanQuoted(values, []);
      ScanOne(START, ' ');
      ScanConcat(START, " ", text);
      assert ScanAll(START, text).res == values;
      assert text != "";
      assert text[0..] == text;
    }
  }

  /** A word the tokenizer takes literally. */
  predicate Plain(w: string)
  {
    w != "" && forall i | 0 <= i < |w| :: w[i] != ' ' && w[i] != '"' && w[i] != '\\'
  }

  lemma {:induction false} ScanPlain(w: string, k: Scan)
    requires k.state == SimpleString
    requires forall i | 0 <= i < |w| :: w[i] != ' ' && w[i] != '"' && w[i] != '\\'
    ensures ScanAll(k, w) == k.(temp := k.temp + w)
    decreases |w|
  {
    if w == "" {
      assert k.temp + w == k.temp;
    } else {
      ScanPlain(w[1..], Step(k, w[0]));
      assert k.temp + [w[0]] + w[1..] == k.temp + w;
    }
  }

  lemma ScanPlainWord(w: string, res: seq<string>)
    requires Plain(w)
    ensures ScanAll(Scan(Init, "", res), w) == Scan(SimpleString, w, res)
  {
    assert "" + [w[0]] == [w[0]];
    ScanPlain(w[1..], Scan(SimpleString, [w[0]], res));
    assert [w[0]] + w[1..] == w;
  }

  /** A plain word with quoted values after it. */
  lemma ScanPlainThenQuoted(w: string, values: seq<string>, res: seq<string>)
    requires Plain(w)
    ensures Finish(ScanAll(Scan(Init, "", res), w + Quoted(values))) == res + [w] + values
  {
    ScanPlainWord(w, res);
    ScanConcat(Scan(Init, "", res), w, Quoted(values));
    if values == [] {
      assert res + [w] + values == res + [w];
    } else {
      // the space before the first value ends the word: from there it is as from a boundary
      var rest := Escape(values[0]) + Quoted(values[1..]);
      assert Quoted(values) == " " + rest && (" " + rest)[1..] == rest;
      assert ScanAll(Scan(SimpleString, w, res), " " + rest) == ScanAll(Scan(Init, "", res + [w]), rest);
      assert ScanAll(Scan(Init, "", res + [w]), " " + rest) == ScanAll(Scan(Init, "", res + [w]), rest);
      ScanQuoted(values, res + [w]);
    }
  }

  /** A plain word and a space are read as that word. */
  lemma ScanWordAndSpace(w: string, rest: string, res: seq<string>)
    requires Plain(w)
    ensures ScanAll(Scan(Init, "", res), w + (" " + rest)) == ScanAll(Scan(Init, "", res + [w]), rest)
  {
    var k := Scan(SimpleString, w, res);
    ScanPlainWord(w, res);
    ScanConcat(Scan(Init, "", res), w, " " + rest);
    ScanConcat(k, " ", rest);
    ScanOne(k, ' ');
  }

  lemma {:induction false} ScanWordsThenQuoted(words: seq<string>, values: seq<string>, res: seq<string>)
    requires words != [] && forall i | 0 <= i < |words| :: Plain(words[i])
    ensures Finish(ScanAll(Scan(Init, "", res), Join(words, ' ') + Quoted(values))) == res + words + values
    decreases |words|
  {
    if |words| == 1 {
      ScanPlainThenQuoted(words[0], values, res);
      assert words == [words[0]];
    } else {
      var rest := Join(words[1..], ' ') + Quoted(values);
      assert Join(words, ' ') + Quoted(values) == words[0] + (" " + rest);
      ScanWordAndSpace(words[0], rest, res);
      ScanWordsThenQuoted(words[1..], values, res + [words[0]]);
      assert res + [words[0]] + words[1..] == res + words;
    }
  }

  /** The same after any plain non-empty words, as in a SET VAR request. */
  lemma {:induction false} ExplodeInvertsQuery(words: seq<string>, values: seq<string>)
    requires words != [] && forall i | 0 <= i < |words| :: Plain(words[i])
    ensures Explode(Join(words, ' ') + Quoted(values), 0) == words + values
  {
    var text := Join(words, ' ') + Quoted(values);
    ScanWordsThenQuoted(words, values, []);
    assert text[0..] == text;
    assert [] + words + values == words + values;
    assert words[0] != "";
  }

  /** A list row is read from the offset where the request it answers ends. */
  lemma ExplodeRow(req: string, name: string, values: seq<string>)
    requires Plain(name)
    ensures Explode(req + " " + name + Quoted(values), |req|) == [name] + values
  {
    var text := req + " " + name + Quoted(values);
    assert text[|req|..] == " " + (name + Quoted(values));
    ScanOne(START, ' ');
    ScanConcat(START, " ", name + Quoted(values));
    ScanPlainThenQuoted(name, values, []);
    assert [] + [name] + values == [name] + values;
  }

  /** A quote ends a word as a space does, and a quoted word ends with its quote. */
  lemma NoSpaceNeeded(w: string, v: string)
    requires Plain(w)
    ensures Explode(w + Escape(v), 0) == [w, v]
    ensures Explode(Escape(v) + w, 0) == [v, w]
    ensures Explode(Escape(v) + Escape(w), 0) == [v, w]
  {
    var k := Scan(SimpleString, w, []);
    assert (w + Escape(v))[0..] == w + Escape(v) && (Escape(v) + w)[0..] == Escape(v) + w;
    assert (Escape(v) + Escape(w))[0..] == Escape(v) + Escape(w);
    ScanPlainWord(w, []);
    ScanConcat(START, w, Escape(v));
    QuoteEnds(w, v);
    ScanEscape(v, []);
    ScanConcat(START, Escape(v), w);
    ScanPlainWord(w, [v]);
    ScanConcat(START, Escape(v), Escape(w));
    ScanEscape(w, [v]);
    assert [] + [v] == [v] && [v] + [w] == [v, w] && [w] + [v] == [w, v];
  }

  lemma QuoteEnds(w: string, v: string)
    ensures ScanAll(Scan(SimpleString, w, []), Escape(v)) == Scan(Init, "", [w] + [v])
  {
    assert Escape(v)[1..] == EscapedBody(v) + "\"" && Escape(v)[0] == '"';
    assert [] + [w] == [w];
    assert ScanAll(Scan(SimpleString, w, []), Escape(v)) == ScanAll(Scan(Init, "", [w]), Escape(v));
    ScanEscape(v, [w]);
  }

  /** A quoted text that is not closed is a word if there is any of it. */
  lemma UnclosedQuote(v: string)
    ensures Explode("\"" + EscapedBody(v), 0) == if v == "" then [] else [v]
  {
    var k := Scan(QuotedString, "", []);
    assert ("\"" + EscapedBody(v))[0..] == "\"" + EscapedBody(v);
    ScanConcat(START, "\"", EscapedBody(v));
    ScanOne(START, '"');
    ScanEscapedBody(v, k);
    assert "" + v == v;
  }

  // ----- any word with backslashes in it -----

  /** The bytes a backslash keeps; outside quotes the space is one. */
  predicate KeptBehind(c: char, quoted: bool)
  {
    c == '"' || c == '\\' || (c == ' ' && !quoted)
  }

  /** One word as it may be written, in quotes or without: every backslash has a byte behind it,
      and nothing else ends the word. */
  predicate Written(body: string, quoted: bool)
    decreases |body|
  {
    if body == "" then true
    else if body[0] == '\\' then |body| > 1 && body[1] as int < 256 && Written(body[2..], quoted)
    else body[0] != '"' && (body[0] == ' ' ==> quoted) && Written(body[1..], quoted)
  }

  /** The word with its escaping backslashes removed. */
  function Unescaped(body: string, quoted: bool): string
    requires Written(body, quoted)
    decreases |body|
  {
    if body == "" then ""
    else if body[0] == '\\' then [body[1]] + Unescaped(body[2..], quoted)
    else [body[0]] + Unescaped(body[1..], quoted)
  }

  /** Every byte behind such a backslash is one it keeps. */
  predicate KeepsAll(body: string, quoted: bool)
    requires Written(body, quoted)
    decreases |body|
  {
    if body == "" then true
    else if body[0] == '\\' then KeptBehind(body[1], quoted) && KeepsAll(body[2..], quoted)
    else KeepsAll(body[1..], quoted)
  }

  function InWord(quoted: bool): State
  {
    if quoted then QuotedString else SimpleString
  }

  /** What is read of it. */
  function ReadBody(body: string, quoted: bool): string
    requires Written(body, quoted)
    decreases |body|
  {
    if body == "" then ""
    else if body[0] == '\\' then
      [if KeptBehind(body[1], quoted) then body[1] else AddedToBackslash(body[1])] + ReadBody(body[2..], quoted)
    else [body[0]] + ReadBody(body[1..], quoted)
  }

  lemma {:induction false} ScanBody(body: string, quoted: bool, k: Scan)
    requires Written(body, quoted) && k.state == InWord(quoted)
    ensures ScanAll(k, body) == k.(temp := k.temp + ReadBody(body, quoted))
    decreases |body|
  {
    if body == "" {
      assert k.temp + "" == k.temp;
    } else if body[0] == '\\' {
      var next := Step(Step(k, body[0]), body[1]);
      assert body[1..][0] == body[1] && body[1..][1..] == body[2..];
      assert ScanAll(Step(k, body[0]), body[1..]) == ScanAll(next, body[2..]);
      ScanBody(body[2..], quoted, next);
      Assoc(k.temp, [ReadBody(body, quoted)[0]], ReadBody(body[2..], quoted));
    } else {
      ScanBody(body[1..], quoted, Step(k, body[0]));
      Assoc(k.temp, [body[0]], ReadBody(body[1..], quoted));
    }
  }

  lemma {:induction false} ReadExact(body: string, quoted: bool)
    requires Written(body, quoted)
    ensures |ReadBody(body, quoted)| == |Unescaped(body, quoted)|
    ensures ReadBody(body, quoted) == Unescaped(body, quoted) <==> KeepsAll(body, quoted)
    decreases |body|
  {
    if body != "" {
      var rest := if body[0] == '\\' then body[2..] else body[1..];
      ReadExact(rest, quoted);
      var r, u := ReadBody(body, quoted), Unescaped(body, quoted);
      assert r[1..] == ReadBody(rest, quoted) && u[1..] == Unescaped(rest, quoted);
      assert r == u <==> r[0] == u[0] && r[1..] == u[1..] by {
        HeadTail(r);
        HeadTail(u);
      }
    }
  }

  function Spelt(body: string, quoted: bool): string
  {
    if quoted then "\"" + body + "\"" else body
  }

  lemma SpeltIsRead(body: string, quoted: bool)
    requires Written(body, quoted) && (body == "" ==> quoted)
    ensures Explode(Spelt(body, quoted), 0) == [ReadBody(body, quoted)]
  {
    var text, k := Spelt(body, quoted), Scan(InWord(quoted), "", []);
    assert text[0..] == text;
    ScanBody(body, quoted, k);
    assert "" + ReadBody(body, quoted) == ReadBody(body, quoted);
    if quoted {
      ScanOne(START, '"');
      assert text == "\"" + (body + "\"");
      ScanConcat(START, "\"", body + "\"");
      ScanConcat(k, body, "\"");
      ScanOne(k.(temp := ReadBody(body, quoted)), '"');
    } else {
      assert Step(START, body[0]) == Step(k, body[0]);
      assert ScanAll(START, body) == ScanAll(k, body);
    }
  }

  /** Why the round trips stop at what the printer emits: any word, in quotes or without, is
      read as it is meant exactly if every byte behind a backslash is one that is kept there. */
  lemma EscapesReadExactly(body: string, quoted: bool)
    requires Written(body, quoted) && (body == "" ==> quoted)
    ensures Explode(Spelt(body, quoted), 0) == [Unescaped(body, quoted)] <==> KeepsAll(body, quoted)
  {
    SpeltIsRead(body, quoted);
    ReadExact(body, quoted);
    assert [ReadBody(body, quoted)][0] == ReadBody(body, quoted);
    assert [Unescaped(body, quoted)][0] == Unescaped(body, quoted);
  }

  /** Any other byte behind one is shifted by the code of the backslash, as 'n' is to 202. */
  lemma EscapedLetterIsShifted()
    ensures Explode("\"\\n\"", 0) == [[202 as char]]
  {
    var body := "\\n";
    assert body[0] == '\\' && body[1] == 'n' && body[2..] == "";
    assert 'n' as int == 110 && AddedToBackslash('n') == 202 as char;
    assert ReadBody(body, true) == [202 as char];
    SpeltIsRead(body, true);
    assert Spelt(body, true) == "\"\\n\"";
  }
}
