/** The log format of upslog: compiled once into a list of calls (`compile_format`,
    `add_call`), run for every line (`run_flist`). */
module LogFormat {
  import opened Text

  datatype Cmd = Host | UpsHost | Pid | Time | Var | Etime

  datatype Named = Named(name: string, cmd: Cmd)

  const LOGCMDS: seq<Named> :=
    [Named("HOST", Host), Named("UPSHOST", UpsHost), Named("PID", Pid),
     Named("TIME", Time), Named("VAR", Var), Named("ETIME", Etime)]

  /** One node of the list: a text to print, or a command with its argument if it has one. */
  datatype Call = Literal(text: string) | Command(cmd: Cmd, arg: Option<string>)

  const INVALID := Literal("INVALID")

  /** `strncasecmp(cmd, name, strlen(name)) == 0`. */
  predicate StartsNoCase(cmd: string, name: string)
  {
    |name| <= |cmd| && SameNoCase(cmd[..|name|], name)
  }

  function Lookup(cmd: string, table: seq<Named>): Option<Cmd>
  {
    if table == [] then None
    else if StartsNoCase(cmd, table[0].name) then Some(table[0].cmd)
    else Lookup(cmd, table[1..])
  }

  // ----- the format language -----

  /** What a format is made of. `Stray` is a `%` nothing closes. */
  datatype Item = Char(c: char) | Percent | Tab | Directive(body: string) | Stray

  function ItemText(it: Item): string
  {
    match it
    case Char(c) => [c]
    case Percent => "%%"
    case Tab => "%t"
    case Directive(body) => "%" + body + "%"
    case Stray => "%"
  }

  function TextOf(items: seq<Item>): string
  {
    if items == [] then "" else ItemText(items[0]) + TextOf(items[1..])
  }

  /** The call an item stands for. */
  function ItemCall(it: Item): Call
  {
    match it
    case Char(c) => Literal([c])
    case Percent => Literal("%")
    case Tab => Literal("\t")
    case Stray => INVALID
    case Directive(body) =>
      var sp := IndexOf(body, ' ');
      match Lookup(body[..sp], LOGCMDS)
      case None => INVALID
      case Some(cmd) => Command(cmd, if sp < |body| then Some(body[sp + 1..]) else None)
  }

  function Calls(items: seq<Item>): seq<Call>
  {
    if items == [] then [] else [ItemCall(items[0])] + Calls(items[1..])
  }

  /** A list of items no other list shares its text with. */
  predicate Clear(items: seq<Item>)
  {
    items == [] ||
    (Clear(items[1..]) &&
     match items[0]
     case Char(c) => c != '%'
     case Percent => true
     case Tab => true
     case Directive(body) => body != "" && body[0] != 't' && '%' !in body
     case Stray =>
       '%' !in TextOf(items[1..]) && (TextOf(items[1..]) == "" || TextOf(items[1..])[0] != 't'))
  }

  function FirstItem(f: string): (it: Item)
    requires f != ""
  {
    if f[0] != '%' then Char(f[0])
    else if 1 < |f| && f[1] == '%' then Percent
    else if 1 < |f| && f[1] == 't' then Tab
    else
      var k := IndexOf(f[1..], '%');
      if k == |f| - 1 then Stray else Directive(f[1..][..k])
  }

  lemma FirstItemText(f: string)
    requires f != ""
    ensures var t := ItemText(FirstItem(f)); |t| <= |f| && f == t + f[|t|..]
  {
    match FirstItem(f)
    case Char(c) =>
      assert f[..1] == [c];
    case Percent =>
      assert f[..2] == "%%";
    case Tab =>
      assert f[..2] == "%t";
    case Directive(body) =>
      CutAt(f[1..], '%');
      assert f == "%" + f[1..];
    case Stray =>
      assert f[..1] == "%";
  }

  /** The reading of a format. */
  function Items(f: string): seq<Item>
    decreases |f|
  {
    if f == "" then []
    else
      FirstItemText(f);
      [FirstItem(f)] + Items(f[|ItemText(FirstItem(f))|..])
  }

  /** Every character of a format belongs to exactly one item, in order. */
  lemma {:induction false} ItemsCoverFormat(f: string)
    ensures TextOf(Items(f)) == f
    decreases |f|
  {
    if f != "" {
      FirstItemText(f);
      var rest := f[|ItemText(FirstItem(f))|..];
      ItemsCoverFormat(rest);
      assert ([FirstItem(f)] + Items(rest))[1..] == Items(rest);
    }
  }

  lemma {:induction false} ItemsAreClear(f: string)
    ensures Clear(Items(f))
    decreases |f|
  {
    if f != "" {
      FirstItemText(f);
      var it, rest := FirstItem(f), f[|ItemText(FirstItem(f))|..];
      ItemsAreClear(rest);
      ItemsCoverFormat(rest);
      assert ([it] + Items(rest))[1..] == Items(rest);
      if it.Stray? {
        IndexOfAbsent(f[1..], '%');
      } else if it.Directive? {
        IndexOfFirst(f[1..], '%');
      }
    }
  }

  lemma FirstItemOf(it: Item, rest: string)
    requires match it
      case Char(c) => c != '%'
      case Percent => true
      case Tab => true
      case Directive(body) => body != "" && body[0] != 't' && '%' !in body
      case Stray => '%' !in rest && (rest == "" || rest[0] != 't')
    ensures FirstItem(ItemText(it) + rest) == it
  {
    var f := ItemText(it) + rest;
    match it
    case Directive(body) =>
      assert f[1..] == body + ['%'] + rest && f[1] == body[0];
      IndexOfPrefix(body, '%', rest);
      assert (body + ['%'] + rest)[..|body|] == body;
    case Stray =>
      assert f[1..] == rest;
      IndexOfAbsent(rest, '%');
    case _ =>
  }

  /** A clear list of items is read back from its text. */
  lemma {:induction false} ReadingIsUnique(items: seq<Item>)
    requires Clear(items)
    ensures Items(TextOf(items)) == items
    decreases |items|
  {
    if items != [] {
      var rest := TextOf(items[1..]);
      FirstItemOf(items[0], rest);
      ReadingIsUnique(items[1..]);
      var f := ItemText(items[0]) + rest;
      assert f[|ItemText(items[0])|..] == rest;
    }
  }

  /** Main result on reading: among all lists of items with its text, a format's reading is
      exactly the clear one. */
  lemma FormatReadsOnce(f: string, items: seq<Item>)
    ensures TextOf(items) == f && Clear(items) <==> items == Items(f)
  {
    ItemsCoverFormat(f);
    ItemsAreClear(f);
    if TextOf(items) == f && Clear(items) {
      ReadingIsUnique(items);
    }
  }

  // ----- running -----

  /** What the commands print, for one device at one moment. */
  type Env = (Cmd, Option<string>) -> string

  function CallOutput(call: Call, env: Env): string
  {
    match call
    case Literal(text) => text
    case Command(cmd, arg) => env(cmd, arg)
  }

  function Output(calls: seq<Call>, env: Env): string
  {
    if calls == [] then "" else CallOutput(calls[0], env) + Output(calls[1..], env)
  }

  /** Interpreting the format directly, item by item, without a list of calls. */
  function Interpret(f: string, env: Env): string
    decreases |f|
  {
    if f == "" then ""
    else
      FirstItemText(f);
      var it := FirstItem(f);
      CallOutput(ItemCall(it), env) + Interpret(f[|ItemText(it)|..], env)
  }

  /** Main result on compiling: running the compiled list is interpreting the format. */
  lemma {:induction false} CompiledMeansFormat(f: string, env: Env)
    ensures Output(Calls(Items(f)), env) == Interpret(f, env)
    decreases |f|
  {
    if f != "" {
      FirstItemText(f);
      var it, rest := FirstItem(f), f[|ItemText(FirstItem(f))|..];
      CompiledMeansFormat(rest, env);
      assert ([it] + Items(rest))[1..] == Items(rest);
      assert ([ItemCall(it)] + Calls(Items(rest)))[1..] == Calls(Items(rest));
    }
  }

  function DoubledItems(text: string): seq<Item>
  {
    if text == "" then [] else [if text[0] == '%' then Percent else Char(text[0])] + DoubledItems(text[1..])
  }

  /** The text with every `%` written twice. */
  function Doubled(text: string): string
  {
    if text == "" then "" else (if text[0] == '%' then "%%" else [text[0]]) + Doubled(text[1..])
  }

  lemma {:induction false} DoubledReads(text: string, env: Env)
    ensures Clear(DoubledItems(text)) && TextOf(DoubledItems(text)) == Doubled(text)
    ensures Output(Calls(DoubledItems(text)), env) == text
    decreases |text|
  {
    if text != "" {
      DoubledReads(text[1..], env);
      var items := DoubledItems(text);
      assert items[1..] == DoubledItems(text[1..]);
      assert Calls(items)[1..] == Calls(items[1..]);
      assert text == [text[0]] + text[1..];
    }
  }

  /** So any text can be logged as it is: double its `%`, compile, run. */
  lemma {:induction false} DoublingPrintsBack(text: string, env: Env)
    ensures Interpret(Doubled(text), env) == text
  {
    DoubledReads(text, env);
    ReadingIsUnique(DoubledItems(text));
    CompiledMeansFormat(Doubled(text), env);
  }

  /** The `-N` prefix adds the device's host and a tab to whatever format follows. */
  lemma {:induction false} UpsHostPrefix(f: string, env: Env)
    ensures Interpret("%UPSHOST%%t" + f, env) == env(UpsHost, None) + "\t" + Interpret(f, env)
  {
    var body := "UPSHOST";
    var g := "%UPSHOST%%t" + f;
    var rest := "%t" + f;
    assert g == ItemText(Directive(body)) + rest;
    FirstItemOf(Directive(body), rest);
    FirstItemOf(Tab, f);
    assert g[|ItemText(Directive(body))|..] == rest && rest[|ItemText(Tab)|..] == f;
    UpsHostCall();
    Assoc(env(UpsHost, None), "\t", Interpret(f, env));
  }

  lemma UpsHostCall()
    ensures ItemCall(Directive("UPSHOST")) == Command(UpsHost, None)
  {
    var body := "UPSHOST";
    IndexOfAbsent(body, ' ');
    assert body[..|body|] == body;
    assert body[..4][0] == 'U' && Lower('U') == 'u' && Lower('H') == 'h';
    assert !StartsNoCase(body, "HOST");
    assert body[..7] == body;
    assert LOGCMDS[1..][0] == Named("UPSHOST", UpsHost);
  }

  /** A percent sign nothing closes is told as INVALID, and the text behind it is printed. */
  lemma {:induction false} StrayIsInvalid(text: string, env: Env)
    requires '%' !in text && (text == "" || text[0] != 't')
    ensures Interpret("%" + text, env) == "INVALID" + text
  {
    FirstItemOf(Stray, text);
    assert ("%" + text)[1..] == text;
    PlainText(text, env);
  }

  lemma {:induction false} PlainText(text: string, env: Env)
    requires '%' !in text
    ensures Interpret(text, env) == text
    decreases |text|
  {
    if text != "" {
      PlainText(text[1..], env);
      assert text == [text[0]] + text[1..];
    }
  }

  // ----- the directives -----

  function NameOf(cmd: Cmd): string
  {
    match cmd
    case Host => "HOST"
    case UpsHost => "UPSHOST"
    case Pid => "PID"
    case Time => "TIME"
    case Var => "VAR"
    case Etime => "ETIME"
  }

  /** The word begins with the name, each letter in either case. */
  predicate BeginsLike(word: string, name: string)
  {
    |name| <= |word| && forall i | 0 <= i < |name| :: word[i] == name[i] || CapitalOf(name[i], word[i])
  }

  predicate IsUpper(s: string)
  {
    forall i | 0 <= i < |s| :: 'A' <= s[i] <= 'Z'
  }

  lemma StartsMeans(word: string, name: string)
    requires IsUpper(name)
    ensures StartsNoCase(word, name) <==> BeginsLike(word, name)
  {
    if |name| <= |word| {
      SameNoCaseMeans(word[..|name|], name);
      assert forall i | 0 <= i < |name| :: word[..|name|][i] == word[i] && 'A' <= name[i] <= 'Z';
    }
  }

  lemma NamesAreUpper(cmd: Cmd)
    ensures IsUpper(NameOf(cmd)) && NameOf(cmd) != ""
  {
  }

  /** No word begins like two of the names. */
  lemma NamesTellApart(word: string, a: Cmd, b: Cmd)
    requires BeginsLike(word, NameOf(a)) && BeginsLike(word, NameOf(b))
    ensures a == b
  {
    assert word[0] == NameOf(a)[0] || CapitalOf(NameOf(a)[0], word[0]);
    assert word[0] == NameOf(b)[0] || CapitalOf(NameOf(b)[0], word[0]);
  }

  lemma LookupStep(word: string, table: seq<Named>)
    requires table != []
    ensures Lookup(word, table) == if StartsNoCase(word, table[0].name) then Some(table[0].cmd)
                                   else Lookup(word, table[1..])
  {
  }

  lemma TableIs(word: string)
    ensures Lookup(word, LOGCMDS) ==
      if StartsNoCase(word, NameOf(Host)) then Some(Host)
      else if StartsNoCase(word, NameOf(UpsHost)) then Some(UpsHost)
      else if StartsNoCase(word, NameOf(Pid)) then Some(Pid)
      else if StartsNoCase(word, NameOf(Time)) then Some(Time)
      else if StartsNoCase(word, NameOf(Var)) then Some(Var)
      else if StartsNoCase(word, NameOf(Etime)) then Some(Etime)
      else None
  {
    LookupStep(word, LOGCMDS);
    LookupStep(word, LOGCMDS[1..]);
    LookupStep(word, LOGCMDS[2..]);
    LookupStep(word, LOGCMDS[3..]);
    LookupStep(word, LOGCMDS[4..]);
    LookupStep(word, LOGCMDS[5..]);
    assert LOGCMDS[1..][1..] == LOGCMDS[2..] && LOGCMDS[2..][1..] == LOGCMDS[3..];
    assert LOGCMDS[3..][1..] == LOGCMDS[4..] && LOGCMDS[4..][1..] == LOGCMDS[5..] && LOGCMDS[5..][1..] == [];
  }

  lemma LookupMeans(word: string, cmd: Cmd)
    ensures Lookup(word, LOGCMDS) == Some(cmd) <==> BeginsLike(word, NameOf(cmd))
  {
    TableIs(word);
    AllStartMean(word);
    if BeginsLike(word, NameOf(cmd)) {
      NamesApart(word, cmd);
    }
  }

  lemma AllStartMean(word: string)
    ensures forall c :: StartsNoCase(word, NameOf(c)) <==> BeginsLike(word, NameOf(c))
  {
    forall c
      ensures StartsNoCase(word, NameOf(c)) <==> BeginsLike(word, NameOf(c))
    {
      NamesAreUpper(c);
      StartsMeans(word, NameOf(c));
    }
  }

  lemma NamesApart(word: string, cmd: Cmd)
    requires BeginsLike(word, NameOf(cmd))
    ensures forall c :: BeginsLike(word, NameOf(c)) ==> c == cmd
  {
    forall c | BeginsLike(word, NameOf(c))
      ensures c == cmd
    {
      NamesTellApart(word, c, cmd);
    }
  }

  /** Main result on directives: one word, with or without an argument behind a space, is the command
      it begins like, in either case, with exactly that argument; and INVALID if it is none. */
  lemma DirectiveMeans(word: string, arg: string, cmd: Cmd)
    requires ' ' !in word
    ensures ItemCall(Directive(word)) == Command(cmd, None) <==> BeginsLike(word, NameOf(cmd))
    ensures ItemCall(Directive(word + " " + arg)) == Command(cmd, Some(arg)) <==> BeginsLike(word, NameOf(cmd))
    ensures (forall c :: !BeginsLike(word, NameOf(c))) ==>
      ItemCall(Directive(word)) == ItemCall(Directive(word + " " + arg)) == Literal("INVALID")
  {
    IndexOfAbsent(word, ' ');
    IndexOfPrefix(word, ' ', arg);
    assert word[..|word|] == word;
    var body := word + " " + arg;
    assert body[..|word|] == word && body[|word| + 1..] == arg;
    LookupMeans(word, cmd);
    if Lookup(word, LOGCMDS).Some? {
      LookupMeans(word, Lookup(word, LOGCMDS).value);
    }
  }

  // ----- the compiler and the runner -----

  class Logger {
    var flist: seq<Call>     // the list behind `fhead`, in order
    var logbuffer: string
    var logfile: string

    constructor ()
      ensures flist == [] && logbuffer == "" && logfile == ""
    {
      flist, logbuffer, logfile := [], "", "";
    }

    method AddCall(call: Call)
      modifies this`flist
      ensures flist == old(flist) + [call]
    {
      flist := flist + [call];
    }

    method AddDirective(body: string)
      modifies this`flist
      ensures flist == old(flist) + [ItemCall(Directive(body))]
    {
      var sp := IndexOf(body, ' ');
      var cmd := body[..sp];
      var arg := if sp < |body| then Some(body[sp + 1..]) else None;
      var j := 0;
      assert LOGCMDS[0..] == LOGCMDS;
      while j < |LOGCMDS|
        invariant j <= |LOGCMDS|
        invariant Lookup(cmd, LOGCMDS[j..]) == Lookup(cmd, LOGCMDS)
        invariant flist == old(flist)
      {
        assert LOGCMDS[j..][1..] == LOGCMDS[j + 1..];
        if StartsNoCase(cmd, LOGCMDS[j].name) {
          AddCall(Command(LOGCMDS[j].cmd, arg));
          return;
        }
        j := j + 1;
      }
      AddCall(INVALID);
    }

    /** One round of the loop: the item at `i`, and the position behind it. */
    method CompileOne(logformat: string, i: nat) returns (next: nat)
      requires i < |logformat|
      modifies this`flist
      ensures i < next <= |logformat|
      ensures flist + Calls(Items(logformat[next..])) == old(flist) + Calls(Items(logformat[i..]))
    {
      ghost var f, before := logformat[i..], flist;
      OneItem(f, before);
      next := i;
      if logformat[i] != '%' {
        AddCall(Literal([logformat[i]]));
      } else if i + 1 < |logformat| && logformat[i + 1] == '%' {
        AddCall(Literal("%"));
        next := next + 1;
      } else if i + 1 < |logformat| && logformat[i + 1] == 't' {
        AddCall(Literal("\t"));
        next := next + 1;
      } else {
        var cmd := logformat[i + 1..];
        assert cmd == f[1..];
        var ptr := IndexOf(cmd, '%');
        if ptr == |cmd| {
          AddCall(INVALID);
        } else {
          var ofs := ptr + 1;
          AddDirective(cmd[..ptr]);
          next := next + ofs;
        }
      }
      next := next + 1;
      assert flist == before + [ItemCall(FirstItem(f))];
      assert next == i + |ItemText(FirstItem(f))|;
      assert logformat[next..] == f[|ItemText(FirstItem(f))|..];
    }

    method CompileFormat(logformat: string)
      modifies this`flist
      ensures flist == old(flist) + Calls(Items(logformat))
    {
      ghost var goal := flist + Calls(Items(logformat));
      var i := 0;
      assert logformat[0..] == logformat;
      while i < |logformat|
        invariant i <= |logformat|
        invariant flist + Calls(Items(logformat[i..])) == goal
      {
        i := CompileOne(logformat, i);
      }
      assert flist + [] == flist;
    }

    method RunFlist(env: Env)
      modifies this`logbuffer, this`logfile
      ensures logbuffer == Output(flist, env)
      ensures logfile == old(logfile) + Output(flist, env) + "\n"
    {
      logbuffer := "";
      var n := 0;
      while n < |flist|
        invariant n <= |flist|
        invariant logfile == old(logfile)
        invariant logbuffer + Output(flist[n..], env) == Output(flist, env)
      {
        assert flist[n..][1..] == flist[n + 1..];
        Assoc(logbuffer, CallOutput(flist[n], env), Output(flist[n + 1..], env));
        logbuffer := logbuffer + CallOutput(flist[n], env);
        n := n + 1;
      }
      assert logbuffer + "" == logbuffer;
      logfile := logfile + logbuffer + "\n";
    }
  }

  lemma OneItem(f: string, before: seq<Call>)
    requires f != ""
    ensures var it := FirstItem(f);
      |ItemText(it)| <= |f| &&
      before + Calls(Items(f)) == before + [ItemCall(it)] + Calls(Items(f[|ItemText(it)|..]))
  {
    FirstItemText(f);
    var it, rest := FirstItem(f), f[|ItemText(FirstItem(f))|..];
    assert ([it] + Items(rest))[1..] == Items(rest);
    Assoc(before, [ItemCall(it)], Calls(Items(rest)));
  }

  /** Compiling once and running once logs the format's meaning and a newline. */
  method LogLine(logformat: string, env: Env) returns (line: string)
    ensures line == Interpret(logformat, env) + "\n"
  {
    var log := new Logger();
    log.CompileFormat(logformat);
    assert [] + Calls(Items(logformat)) == Calls(Items(logformat));
    CompiledMeansFormat(logformat, env);
    log.RunFlist(env);
    line := log.logfile;
    assert "" + Output(log.flist, env) == Output(log.flist, env);
  }
}
