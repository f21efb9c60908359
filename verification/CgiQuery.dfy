/** Query strings of the CGI programs: the percent-encoding printer `url_print_esc`, its
    inverse `unescape`, and the in-place parser `extractcgiargs`. Percent-encoding and the
    unreserved characters are those of sections 2.1 and 2.3 of RFC 3986. */
module CgiQuery {
  import opened CString
  import opened Text

  // ----- specification -----

  predicate IsHex(c: char)
  {
    IsDigit(c) || 'A' <= c <= 'F' || 'a' <= c <= 'f'
  }

  function HexValue(c: char): (v: nat)
    requires IsHex(c)
    ensures v < 16
  {
    if IsDigit(c) then c as int - '0' as int
    else if 'A' <= c <= 'F' then c as int - 'A' as int + 10
    else c as int - 'a' as int + 10
  }

  /** A decoded byte as `snprintfcat("%c")` appends it: line ends become spaces, and a NUL
      leaves the string as it was. */
  function Appended(v: nat): string
    requires v < 256
  {
    if v == 0 then "" else if v == 10 || v == 13 then " " else [v as char]
  }

  function Prepend(p: string, o: Option<string>): Option<string>
  {
    match o
    case None => None
    case Some(s) => Some(p + s)
  }

  lemma PrependTwice(p: string, q: string, o: Option<string>)
    ensures Prepend(p, Prepend(q, o)) == Prepend(p + q, o)
  {
    if o.Some? {
      Assoc(p, q, o.value);
    }
  }

  lemma PrependNothing(o: Option<string>)
    ensures Prepend("", o) == o
  {
    if o.Some? {
      assert "" + o.value == o.value;
    }
  }

  /** `None` is the program ending on a bad escape. */
  function Unescape(s: string): Option<string>
    decreases |s|
  {
    if s == "" then Some("")
    else if s[0] == '%' then
      if |s| < 3 || !IsHex(s[1]) || !IsHex(s[2]) then None
      else Prepend(Appended(16 * HexValue(s[1]) + HexValue(s[2])), Unescape(s[3..]))
    else Prepend([if s[0] == '+' then ' ' else s[0]], Unescape(s[1..]))
  }

  datatype Arg = Arg(name: string, value: string)

  /** The arguments handed on, and whether the program then ended on a bad escape. */
  datatype Args = Args(args: seq<Arg>, fatal: bool)

  /** One piece between ampersands: cut at its first `=`, or a flag without value. */
  function ArgOf(piece: string): Option<Arg>
  {
    var k := IndexOf(piece, '=');
    var name := Unescape(piece[..k]);
    var value := if k == |piece| then Some("") else Unescape(piece[k + 1..]);
    if name == None || value == None then None else Some(Arg(name.value, value.value))
  }

  function ArgsOf(pieces: seq<string>): Args
  {
    if pieces == [] then Args([], false)
    else
      match ArgOf(pieces[0])
      case None => Args([], true)
      case Some(a) =>
        var more := ArgsOf(pieces[1..]);
        Args([a] + more.args, more.fatal)
  }

  function QueryArgs(query: string): Args
  {
    if query == "" then Args([], false) else ArgsOf(Split(query, '&'))
  }

  // ----- the printer and the round trip -----

  predicate Unreserved(c: char)
  {
    'A' <= c <= 'Z' || 'a' <= c <= 'z' || IsDigit(c) || c == '-' || c == '.' || c == '_' || c == '~'
  }

  function HexDigit(v: nat): char
    requires v < 16
  {
    if v < 10 then '0' + v as char else 'A' + (v - 10) as char
  }

  /** A C string: bytes, none of them the terminator. */
  predicate CText(s: string)
  {
    forall i | 0 <= i < |s| :: 0 < s[i] as int < 256
  }

  function EncodedByte(c: char): string
    requires 0 < c as int < 256
  {
    if Unreserved(c) then [c] else ['%', HexDigit(c as int / 16), HexDigit(c as int % 16)]
  }

  function Encoded(s: string): string
    requires CText(s)
  {
    if s == "" then "" else EncodedByte(s[0]) + Encoded(s[1..])
  }

  lemma {:induction false} EncodedAppend(s: string, c: char)
    requires CText(s) && 0 < c as int < 256
    ensures CText(s + [c]) && Encoded(s + [c]) == Encoded(s) + EncodedByte(c)
    decreases |s|
  {
    if s == "" {
      assert s + [c] == [c] && [c][1..] == "";
      assert EncodedByte(c) + "" == EncodedByte(c);
    } else {
      EncodedAppend(s[1..], c);
      assert (s + [c])[1..] == s[1..] + [c];
      Assoc(EncodedByte(s[0]), Encoded(s[1..]), EncodedByte(c));
    }
  }

  const HEX := "0123456789ABCDEF"

  lemma HexTable(v: nat)
    requires v < 16
    ensures |HEX| == 16 && HEX[v] == HexDigit(v)
  {
  }

  method UrlPrintEsc(s: string) returns (out: string)
    requires CText(s)
    ensures out == Encoded(s)
  {
    out := "";
    var n := 0;
    while n < |s|
      invariant n <= |s|
      invariant out == Encoded(s[..n])
    {
      var ch := s[n];
      EncodedAppend(s[..n], ch);
      assert s[..n + 1] == s[..n] + [ch];
      if Unreserved(ch) {
        out := out + [ch];
      } else {
        HexTable(ch as int / 16);
        HexTable(ch as int % 16);
        out := out + ['%', HEX[ch as int / 16], HEX[ch as int % 16]];
      }
      n := n + 1;
    }
    assert s[..n] == s;
  }

  /** What survives the query string: everything, with line ends as spaces. */
  function Cleaned(s: string): string
  {
    if s == "" then "" else [if s[0] == '\n' || s[0] == '\r' then ' ' else s[0]] + Cleaned(s[1..])
  }

  lemma HexDigitBack(v: nat)
    requires v < 16
    ensures IsHex(HexDigit(v)) && HexValue(HexDigit(v)) == v
  {
  }

  lemma {:induction false} UnescapeEncoded(s: string)
    requires CText(s)
    ensures Unescape(Encoded(s)) == Some(Cleaned(s))
    decreases |s|
  {
    if s != "" {
      UnescapeEncoded(s[1..]);
      var c, rest := s[0], Encoded(s[1..]);
      var text := EncodedByte(c) + rest;
      if Unreserved(c) {
        assert text[1..] == rest;
      } else {
        HexDigitBack(c as int / 16);
        HexDigitBack(c as int % 16);
        assert text[3..] == rest;
        assert 16 * (c as int / 16) + c as int % 16 == c as int;
      }
    }
  }

  lemma {:induction false} EncodedIsSafe(s: string)
    requires CText(s)
    ensures '&' !in Encoded(s) && '=' !in Encoded(s)
    decreases |s|
  {
    if s != "" {
      EncodedIsSafe(s[1..]);
      HexDigitBack(s[0] as int / 16);
      HexDigitBack(s[0] as int % 16);
    }
  }

  predicate CArg(a: Arg) { CText(a.name) && CText(a.value) }

  function EncodedArg(a: Arg): string
    requires CArg(a)
  {
    Encoded(a.name) + "=" + Encoded(a.value)
  }

  function EncodedArgs(args: seq<Arg>): (pieces: seq<string>)
    requires forall i | 0 <= i < |args| :: CArg(args[i])
    ensures |pieces| == |args|
  {
    if args == [] then [] else [EncodedArg(args[0])] + EncodedArgs(args[1..])
  }

  function CleanedArgs(args: seq<Arg>): seq<Arg>
  {
    if args == [] then [] else [Arg(Cleaned(args[0].name), Cleaned(args[0].value))] + CleanedArgs(args[1..])
  }

  lemma ArgOfEncoded(a: Arg)
    requires CArg(a)
    ensures '&' !in EncodedArg(a)
    ensures ArgOf(EncodedArg(a)) == Some(Arg(Cleaned(a.name), Cleaned(a.value)))
  {
    var piece := EncodedArg(a);
    EncodedIsSafe(a.name);
    EncodedIsSafe(a.value);
    IndexOfPrefix(Encoded(a.name), '=', Encoded(a.value));
    assert piece[..|Encoded(a.name)|] == Encoded(a.name);
    assert piece[|Encoded(a.name)| + 1..] == Encoded(a.value);
    UnescapeEncoded(a.name);
    UnescapeEncoded(a.value);
  }

  lemma {:induction false} ArgsOfEncoded(args: seq<Arg>)
    requires forall i | 0 <= i < |args| :: CArg(args[i])
    ensures forall i | 0 <= i < |args| :: '&' !in EncodedArgs(args)[i]
    ensures ArgsOf(EncodedArgs(args)) == Args(CleanedArgs(args), false)
    decreases |args|
  {
    if args != [] {
      var pieces := EncodedArgs(args);
      ArgOfEncoded(args[0]);
      ArgsOfEncoded(args[1..]);
      assert pieces[1..] == EncodedArgs(args[1..]);
      assert forall i | 1 <= i < |args| :: pieces[i] == pieces[1..][i - 1];
    }
  }

  /** Main result: every list of key and value texts comes through a query string as it
      was, except that line ends have become spaces. */
  lemma {:induction false} QueryRoundTrip(args: seq<Arg>)
    requires forall i | 0 <= i < |args| :: CArg(args[i])
    ensures QueryArgs(Join(EncodedArgs(args), '&')) == Args(CleanedArgs(args), false)
  {
    ArgsOfEncoded(args);
    if args != [] {
      var pieces := EncodedArgs(args);
      SplitJoin(pieces, '&');
      assert pieces[0] != "";
    }
  }

  const HEX_LOWER := "0123456789abcdef"

  /** A digit in either case has its value. */
  lemma HexEitherCase(v: nat)
    requires v < 16
    ensures IsHex(HEX[v]) && HexValue(HEX[v]) == v && IsHex(HEX_LOWER[v]) && HexValue(HEX_LOWER[v]) == v
  {
    HexTable(v);
    HexDigitBack(v);
  }

  /** Two digits, each in either case, are one byte, and a plus sign is a space. */
  lemma EscapesMean(hi: nat, lo: nat, x: char, y: char, rest: string)
    requires hi < 16 && lo < 16 && x in {HEX[hi], HEX_LOWER[hi]} && y in {HEX[lo], HEX_LOWER[lo]}
    ensures Unescape(['%', x, y] + rest) == Prepend(Appended(16 * hi + lo), Unescape(rest))
    ensures Unescape("+" + rest) == Prepend(" ", Unescape(rest))
  {
    HexEitherCase(hi);
    HexEitherCase(lo);
    var s := ['%', x, y] + rest;
    assert s[0] == '%' && s[1] == x && s[2] == y && s[3..] == rest;
    assert ("+" + rest)[1..] == rest;
  }

  /** A percent sign with anything else behind it ends the program. */
  lemma BadEscapeEnds(tail: string)
    requires |tail| < 2 || tail[0] !in HEX + HEX_LOWER || tail[1] !in HEX + HEX_LOWER
    ensures Unescape("%" + tail) == None
  {
    var s := "%" + tail;
    if |s| >= 3 {
      assert s[1] == tail[0] && s[2] == tail[1];
      HexIsListed(s[1]);
      HexIsListed(s[2]);
    }
  }

  lemma HexIsListed(c: char)
    ensures IsHex(c) ==> c in HEX + HEX_LOWER
  {
    if IsHex(c) {
      var v := HexValue(c);
      assert HEX[v] == c || HEX_LOWER[v] == c;
      assert HEX[v] in HEX && HEX_LOWER[v] in HEX_LOWER;
    }
  }

  // ----- the in-place parser -----

  /** What one round of the loop hands on: the piece up to the first ampersand. */
  function FirstArg(rest: string): Option<Arg>
  {
    ArgOf(rest[..IndexOf(rest, '&')])
  }

  lemma ArgsOfRest(rest: string)
    ensures ArgsOf(Split(rest, '&'))
      == var amp := IndexOf(rest, '&');
         match FirstArg(rest)
         case None => Args([], true)
         case Some(a) =>
           var more := if amp < |rest| then ArgsOf(Split(rest[amp + 1..], '&')) else Args([], false);
           Args([a] + more.args, more.fatal)
  {
    var amp := IndexOf(rest, '&');
    if amp < |rest| {
      var tail := Split(rest[amp + 1..], '&');
      assert ([rest[..amp]] + tail)[1..] == tail;
    } else {
      assert rest[..amp] == rest;
      assert [rest][1..] == [];
    }
  }

  /** The first `=` of the piece, from the first `=` of everything left. */
  lemma EqOfPiece(rest: string)
    ensures var amp, eq := IndexOf(rest, '&'), IndexOf(rest, '=');
      IndexOf(rest[..amp], '=') == if eq < amp then eq else amp
  {
    var amp, eq := IndexOf(rest, '&'), IndexOf(rest, '=');
    IndexOfFirst(rest, '=');
    var piece, k := rest[..amp], if eq < amp then eq else amp;
    assert piece[..k] == rest[..eq][..k];
    IndexOfIs(piece, '=', k);
  }

  /** Behind an `=`, the next ampersand is the first of everything left, or there is none. */
  lemma AmpAfterEq(rest: string)
    requires IndexOf(rest, '=') < IndexOf(rest, '&')
    ensures IndexOf(rest, '&') == IndexOf(rest, '=') + 1 + IndexOf(rest[IndexOf(rest, '=') + 1..], '&')
  {
    var eq, amp := IndexOf(rest, '='), IndexOf(rest, '&');
    IndexOfFirst(rest, '&');
    var value := rest[eq + 1..];
    assert value[..amp - eq - 1] == rest[..amp][eq + 1..];
    IndexOfIs(value, '&', amp - eq - 1);
  }

  lemma FlagArg(rest: string)
    requires !(IndexOf(rest, '=') < IndexOf(rest, '&'))
    ensures var name := Unescape(rest[..IndexOf(rest, '&')]);
      FirstArg(rest) == if name == None then None else Some(Arg(name.value, ""))
  {
    EqOfPiece(rest);
    var piece := rest[..IndexOf(rest, '&')];
    assert piece[..|piece|] == piece;
  }

  lemma PairArg(rest: string)
    requires IndexOf(rest, '=') < IndexOf(rest, '&')
    ensures var eq := IndexOf(rest, '=');
      var behind := rest[eq + 1..];
      var len := IndexOf(behind, '&');
      var name, value := Unescape(rest[..eq]), Unescape(behind[..len]);
      && IndexOf(rest, '&') == eq + 1 + len
      && FirstArg(rest) == if name == None || value == None then None else Some(Arg(name.value, value.value))
  {
    EqOfPiece(rest);
    AmpAfterEq(rest);
    var eq, piece := IndexOf(rest, '='), rest[..IndexOf(rest, '&')];
    assert piece[..eq] == rest[..eq];
    assert piece[eq + 1..] == rest[eq + 1..][..IndexOf(rest[eq + 1..], '&')];
  }

  method UnescapeAt(a: array<char>, from: nat, ghost end: nat) returns (r: Option<string>)
    requires TextAt(a, from, end)
    ensures r == Unescape(a[from..end])
  {
    ghost var text := a[from..end];
    var i := from;
    var newbuf := "";
    PrependNothing(Unescape(text));
    while a[i] != '\0'
      invariant from <= i <= end
      invariant Unescape(text) == Prepend(newbuf, Unescape(a[i..end]))
      decreases end - i
    {
      ghost var tail := a[i..end];
      var ch := a[i];
      if ch == '%' {
        // the terminator is no hex digit, so nothing past it is looked at
        if !IsHex(a[i + 1]) || !IsHex(a[i + 2]) {
          return None;
        }
        assert tail[1] == a[i + 1] && tail[2] == a[i + 2] && tail[3..] == a[i + 3..end];
        var v := 16 * HexValue(a[i + 1]) + HexValue(a[i + 2]);
        PrependTwice(newbuf, Appended(v), Unescape(tail[3..]));
        newbuf := newbuf + Appended(v);
        i := i + 3;
      } else {
        assert tail[1..] == a[i + 1..end];
        if ch == '+' {
          ch := ' ';
        }
        PrependTwice(newbuf, [ch], Unescape(tail[1..]));
        newbuf := newbuf + [ch];
        i := i + 1;
      }
    }
    assert a[i..end] == "" && newbuf + "" == newbuf;
    return Some(newbuf);
  }

  /** One round of the loop at `ptr`: the argument, and where the next one starts (-1 after
      the last). The separators passed are overwritten; nothing beyond them is. */
  method TakeArg(query: array<char>, ptr: nat, n: nat) returns (arg: Option<Arg>, next: int)
    requires TextAt(query, ptr, n)
    modifies query
    ensures arg == FirstArg(old(query[ptr..n]))
    ensures var amp := IndexOf(old(query[ptr..n]), '&');
      next == if amp < n - ptr then ptr + amp + 1 else -1
    ensures next != -1 ==> forall i | next <= i < query.Length :: query[i] == old(query[i])
  {
    ghost var rest := query[ptr..n];
    EqIsNotAmp(rest);
    var eq := StrChr(query, ptr, '=', n);
    var amp := StrChr(query, ptr, '&', n);
    if eq == -1 || (amp != -1 && amp < eq) {
      FlagArg(rest);
      assert rest[..IndexOf(rest, '&')] == query[ptr..if amp == -1 then n else amp];
      arg := TakeFlag(query, ptr, amp, n);
      return arg, if amp == -1 then -1 else amp + 1;
    }
    PairArg(rest);
    assert rest[..eq - ptr] == query[ptr..eq] && rest[eq - ptr + 1..] == query[eq + 1..n];
    arg, next := TakePair(query, ptr, eq, n);
  }

  lemma EqIsNotAmp(rest: string)
    ensures IndexOf(rest, '=') == IndexOf(rest, '&') ==> IndexOf(rest, '=') == |rest|
  {
    IndexOfFirst(rest, '=');
    IndexOfFirst(rest, '&');
  }

  /** A name with nothing assigned, up to the ampersand or the end. */
  method TakeFlag(query: array<char>, ptr: nat, amp: int, ghost n: nat) returns (arg: Option<Arg>)
    requires TextAt(query, ptr, n) && (amp == -1 || ptr <= amp < n)
    modifies query
    ensures var name := Unescape(old(query[ptr..if amp == -1 then n else amp]));
      arg == if name == None then None else Some(Arg(name.value, ""))
    ensures forall i | amp < i < query.Length && amp != -1 :: query[i] == old(query[i])
  {
    ghost var end := if amp == -1 then n else amp;
    ghost var name := query[ptr..end];
    if amp != -1 {
      query[amp] := '\0';
    }
    assert query[ptr..end] == name;
    var cleanvar := UnescapeAt(query, ptr, end);
    return if cleanvar == None then None else Some(Arg(cleanvar.value, ""));
  }

  /** A name, its `=` at `eq`, and a value up to the next ampersand or the end. */
  method TakePair(query: array<char>, ptr: nat, eq: nat, n: nat) returns (arg: Option<Arg>, next: int)
    requires TextAt(query, ptr, n) && ptr <= eq < n
    modifies query
    ensures var behind := old(query[eq + 1..n]);
      var len := IndexOf(behind, '&');
      var name, value := Unescape(old(query[ptr..eq])), Unescape(behind[..len]);
      && arg == (if name == None || value == None then None else Some(Arg(name.value, value.value)))
      && next == if len < |behind| then eq + 1 + len + 1 else -1
    ensures next != -1 ==> forall i | next <= i < query.Length :: query[i] == old(query[i])
  {
    ghost var name, behind := query[ptr..eq], query[eq + 1..n];
    var value := eq + 1;
    query[eq] := '\0';
    assert query[value..n] == behind;
    var amp := StrChr(query, value, '&', n);
    ghost var end := if amp == -1 then n else amp;
    next := -1;
    if amp != -1 {
      next := amp + 1;
      query[amp] := '\0';
    }
    assert query[ptr..eq] == name && query[value..end] == behind[..end - value];
    var cleanvar := UnescapeAt(query, ptr, eq);
    if cleanvar == None {
      return None, next;
    }
    var cleanval := UnescapeAt(query, value, end);
    return if cleanval == None then None else Some(Arg(cleanvar.value, cleanval.value)), next;
  }

  /** What is left to extract at `ptr`. */
  function Left(orig: string, ptr: int, n: nat): Args
    requires -1 <= ptr <= n <= |orig|
  {
    if ptr == -1 then Args([], false) else ArgsOf(Split(orig[ptr..n], '&'))
  }

  function Before(args: seq<Arg>, more: Args): Args
  {
    Args(args + more.args, more.fatal)
  }

  lemma LeftStep(orig: string, ptr: nat, n: nat, args: seq<Arg>)
    requires ptr <= n <= |orig|
    ensures var rest := orig[ptr..n];
      var amp, arg := IndexOf(rest, '&'), FirstArg(rest);
      var next := if amp < |rest| then ptr + amp + 1 else -1;
      Before(args, Left(orig, ptr, n))
        == if arg == None then Args(args, true) else Before(args + [arg.value], Left(orig, next, n))
  {
    var rest := orig[ptr..n];
    ArgsOfRest(rest);
    var amp := IndexOf(rest, '&');
    if amp < |rest| {
      assert rest[amp + 1..] == orig[ptr + amp + 1..n];
    }
    if FirstArg(rest) == None {
      assert args + [] == args;
    } else {
      var next := if amp < |rest| then ptr + amp + 1 else -1;
      Assoc(args, [FirstArg(rest).value], Left(orig, next, n).args);
    }
  }

  /** `query` holds the query string, NUL-terminated at `n`. */
  method ExtractCgiArgs(query: array<char>, n: nat) returns (args: seq<Arg>, fatal: bool)
    requires TextAt(query, 0, n)
    modifies query
    ensures Args(args, fatal) == QueryArgs(old(query[..n]))
  {
    args := [];
    if n == 0 {
      return args, false;
    }
    ghost var orig := query[..];
    ghost var all := Left(orig, 0, n);
    assert orig[0..n] == query[..n];
    var ptr: int := 0;
    while ptr != -1
      invariant -1 <= ptr <= n
      invariant ptr != -1 ==> forall i | ptr <= i < query.Length :: query[i] == orig[i]
      invariant all == Before(args, Left(orig, ptr, n))
      decreases if ptr == -1 then 0 else 1, n - ptr
    {
      assert query[ptr..n] == orig[ptr..n];
      LeftStep(orig, ptr, n, args);
      var arg, next := TakeArg(query, ptr, n);
      if arg == None {
        return args, true;
      }
      args := args + [arg.value];
      ptr := next;
    }
    return args, false;
  }
}
