/** The `upsname@host:port` parser of the client library (`upscli_splitname`,
    `upscli_splitaddr`) and the printer in upslog. */
module Address {
  import opened CString
  import opened Text

  const SMALLBUF := 512

  /** What the parsers work on: as much as their buffer holds. */
  function Copied(buf: string): string
  {
    CutTo(buf, SMALLBUF)
  }

  datatype HostPort = HostPort(host: string, port: int)
  datatype Address = Address(upsname: string, host: string, port: int)

  /** The port text behind the separating colon. */
  function PortOf(s: string): Option<int>
  {
    if s == "" || Strtol(s) < 1 || Strtol(s) > 65535 then None else Some(Strtol(s))
  }

  /** A literal in brackets, and what follows the closing one. */
  function Bracketed(tmp: string): Option<HostPort>
    requires tmp != ""
  {
    if IndexOf(tmp, ']') == |tmp| then None
    else
      match Strtok(tmp[1..], ']')
      case NoToken => None
      case Token(host, rest) =>
        if rest == "" || rest[0] != ':' then Some(HostPort(host, NUT_PORT))
        else
          match PortOf(rest[1..])
          case None => None
          case Some(port) => Some(HostPort(host, port))
  }

  function Plainly(tmp: string): Option<HostPort>
  {
    match Strtok(tmp, ':')
    case NoToken => None
    case Token(host, _) =>
      var s := IndexOf(tmp, ':');
      if s == |tmp| then Some(HostPort(host, NUT_PORT))
      else
        match PortOf(tmp[s + 1..])
        case None => None
        case Some(port) => Some(HostPort(host, port))
  }

  /** `upscli_splitaddr`. The C code hands a missing token to `xstrdup` unchecked; the model
      takes that as a rejection. */
  function SplitAddr(buf: string): Option<HostPort>
  {
    var tmp := Copied(buf);
    if tmp == "" then None else if tmp[0] == '[' then Bracketed(tmp) else Plainly(tmp)
  }

  function NamedAddress(tmp: string): Option<Address>
  {
    var sat := IndexOf(tmp, '@');
    if tmp == "" || sat == 0 then None
    else
      match Strtok(tmp, '@')
      case NoToken => None
      case Token(upsname, _) =>
        if sat == |tmp| then
          if IndexOf(tmp, ':') < |tmp| then None else Some(Address(upsname, "localhost", NUT_PORT))
        else if sat + 1 == |tmp| then None
        else
          match SplitAddr(tmp[sat + 1..])
          case None => None
          case Some(hp) => Some(Address(upsname, hp.host, hp.port))
  }

  /** `upscli_splitname`. */
  function SplitName(buf: string): Option<Address>
  {
    NamedAddress(Copied(buf))
  }

  /** `snprintf(buf, ..., "%s@%s:%u", ...)`, the name upslog gives each device it finds. */
  function Print(a: Address): string
    requires a.port >= 0
  {
    a.upsname + "@" + a.host + ":" + Decimal(a.port)
  }

  lemma PortRoundTrip(port: nat)
    requires 1 <= port <= 65535
    ensures PortOf(Decimal(port)) == Some(port)
  {
    StrtolDecimal(port);
  }

  /** A host name, not bracketed, without a colon, and its port. */
  lemma SplitPlainAddr(host: string, port: nat)
    requires host != "" && ':' !in host && host[0] != '[' && 1 <= port <= 65535
    requires |host + ":" + Decimal(port)| < SMALLBUF
    ensures SplitAddr(host + ":" + Decimal(port)) == Some(HostPort(host, port))
  {
    var tmp := host + ":" + Decimal(port);
    StrtokPlain(host, ':', Decimal(port));
    IndexOfPrefix(host, ':', Decimal(port));
    assert tmp[0] == host[0] && tmp[|host| + 1..] == Decimal(port);
    PortRoundTrip(port);
  }

  /** A literal in brackets: the brackets are not part of the host that comes back. */
  lemma SplitBracketAddr(host: string, port: nat)
    requires host != "" && ']' !in host && 1 <= port <= 65535
    requires |"[" + host + "]:" + Decimal(port)| < SMALLBUF
    ensures SplitAddr("[" + host + "]:" + Decimal(port)) == Some(HostPort(host, port))
  {
    var rest := ":" + Decimal(port);
    var tmp := "[" + host + "]:" + Decimal(port);
    assert tmp[1..] == host + "]" + rest;
    StrtokPlain(host, ']', rest);
    assert tmp[|host| + 1] == ']';
    IndexOfAbsent(tmp, ']');
    assert rest[1..] == Decimal(port);
    PortRoundTrip(port);
  }

  /** Whatever stands behind the first `@` is the address. */
  lemma {:induction false} SplitNameAt(upsname: string, addr: string)
    requires upsname != "" && '@' !in upsname && addr != ""
    requires |upsname + "@" + addr| < SMALLBUF
    ensures SplitName(upsname + "@" + addr)
      == match SplitAddr(addr)
         case None => None
         case Some(hp) => Some(Address(upsname, hp.host, hp.port))
  {
    var tmp := upsname + "@" + addr;
    IndexOfPrefix(upsname, '@', addr);
    StrtokPlain(upsname, '@', addr);
    assert tmp[|upsname| + 1..] == addr;
  }

  lemma PrintIsAt(a: Address)
    requires a.port >= 0
    ensures Print(a) == a.upsname + "@" + (a.host + ":" + Decimal(a.port))
  {
  }

  /** No printed address comes back with a colon in its host, or from an unclosed bracket. */
  lemma SplitOddAddr(host: string, port: nat)
    requires |host + ":" + Decimal(port)| < SMALLBUF
    requires host == "" || ':' in host || host[0] == '['
    ensures SplitAddr(host + ":" + Decimal(port)) != Some(HostPort(host, port))
  {
    var tmp := host + ":" + Decimal(port);
    if host == "" {
      assert tmp[0] == ':';
      StrtokWord(tmp, ':');
      assert tmp[1] != ':';
      var word := Strtok(tmp, ':');
      assert tmp[1..] == Decimal(port);
    } else if host[0] == '[' {
      assert tmp[0] == '[';
      StrtokWord(tmp[1..], ']');
      if ']' !in host {
        forall i | 0 <= i < |tmp|
          ensures tmp[i] != ']'
        {
          if i > |host| {
            assert tmp[i] == Decimal(port)[i - |host| - 1];
          }
        }
        IndexOfAbsent(tmp, ']');
      }
    } else {
      assert tmp[0] == host[0];
      StrtokWord(tmp, ':');
    }
  }

  /** Main result: what upslog prints is parsed back to the same three values exactly when
      the host is a name the colon cannot split and does not open a bracket. */
  lemma PrintParseRoundTrip(a: Address)
    requires a.upsname != "" && '@' !in a.upsname && 1 <= a.port <= 65535 && |Print(a)| < SMALLBUF
    ensures SplitName(Print(a)) == Some(a) <==> a.host != "" && ':' !in a.host && a.host[0] != '['
  {
    PrintIsAt(a);
    var addr := a.host + ":" + Decimal(a.port);
    SplitNameAt(a.upsname, addr);
    if a.host != "" && ':' !in a.host && a.host[0] != '[' {
      SplitPlainAddr(a.host, a.port);
    } else {
      SplitOddAddr(a.host, a.port);
    }
  }

  /** Brackets make any host without `]` safe on the way in. */
  lemma BracketedRoundTrip(a: Address)
    requires a.upsname != "" && '@' !in a.upsname && 1 <= a.port <= 65535
    requires a.host != "" && ']' !in a.host
    requires |Print(a.(host := "[" + a.host + "]"))| < SMALLBUF
    ensures SplitName(Print(a.(host := "[" + a.host + "]"))) == Some(a)
  {
    var b := a.(host := "[" + a.host + "]");
    PrintIsAt(b);
    var addr := "[" + a.host + "]:" + Decimal(a.port);
    assert b.host + ":" + Decimal(a.port) == addr;
    SplitNameAt(a.upsname, addr);
    SplitBracketAddr(a.host, a.port);
  }

  /** So parsing, printing and parsing once more loses every bracketed host with a colon:
      the printer does not put the brackets back. */
  lemma ReprintedLiteralIsLost(a: Address)
    requires a.upsname != "" && '@' !in a.upsname && 1 <= a.port <= 65535
    requires a.host != "" && ']' !in a.host && ':' in a.host
    requires |Print(a.(host := "[" + a.host + "]"))| < SMALLBUF
    ensures SplitName(Print(a.(host := "[" + a.host + "]"))) == Some(a)
    ensures SplitName(Print(a)) != Some(a)
  {
    BracketedRoundTrip(a);
    assert |Print(a)| < |Print(a.(host := "[" + a.host + "]"))|;
    PrintParseRoundTrip(a);
  }

  /** A host without a port, and with any text for one. */
  lemma SplitHostOnly(host: string)
    requires host != "" && ':' !in host && host[0] != '[' && |host| < SMALLBUF
    ensures SplitAddr(host) == Some(HostPort(host, 3493))
  {
    IndexOfAbsent(host, ':');
    assert host[..|host|] == host;
  }

  lemma SplitHostAndText(host: string, text: string)
    requires host != "" && ':' !in host && host[0] != '[' && |host + ":" + text| < SMALLBUF
    ensures SplitAddr(host + ":" + text)
      == if text != "" && 1 <= Strtol(text) <= 65535 then Some(HostPort(host, Strtol(text))) else None
  {
    var tmp := host + ":" + text;
    StrtokPlain(host, ':', text);
    IndexOfPrefix(host, ':', text);
    assert tmp[0] == host[0] && tmp[|host| + 1..] == text;
  }

  /** Main result on what may be left out: the device alone is at the local host's default port, the
      host alone at its default port, a port has to be a number from 1 to 65535. */
  lemma DefaultsFilledIn(upsname: string, host: string, text: string)
    requires upsname != "" && '@' !in upsname && host != "" && ':' !in host && host[0] != '['
    requires |upsname + "@" + (host + ":" + text)| < SMALLBUF
    ensures SplitName(upsname) == if ':' in upsname then None else Some(Address(upsname, "localhost", 3493))
    ensures SplitName(upsname + "@" + host) == Some(Address(upsname, host, 3493))
    ensures SplitName(upsname + "@" + (host + ":" + text))
      == if text != "" && 1 <= Strtol(text) <= 65535 then Some(Address(upsname, host, Strtol(text))) else None
  {
    IndexOfAbsent(upsname, '@');
    IndexOfAbsent(upsname, ':');
    assert upsname[..|upsname|] == upsname;
    SplitHostOnly(host);
    SplitNameAt(upsname, host);
    SplitHostAndText(host, text);
    SplitNameAt(upsname, host + ":" + text);
  }

  /** A literal in brackets: what follows is its port behind a colon, or the default port, and a
      bracket that is never closed is no address. */
  lemma BracketedDefaults(host: string, tail: string)
    requires host != "" && ']' !in host && |"[" + host + ("]" + tail)| < SMALLBUF
    ensures SplitAddr("[" + host + ("]" + tail)) ==
      if tail == "" || tail[0] != ':' then Some(HostPort(host, 3493))
      else if tail[1..] != "" && 1 <= Strtol(tail[1..]) <= 65535 then Some(HostPort(host, Strtol(tail[1..])))
      else None
    ensures SplitAddr("[" + host) == None
  {
    var tmp := "[" + host + ("]" + tail);
    assert tmp[1..] == host + "]" + tail;
    StrtokPlain(host, ']', tail);
    assert tmp[|host| + 1] == ']';
    IndexOfAbsent(tmp, ']');
    IndexOfAbsent("[" + host, ']');
  }

  /** Nothing before the `@`, or nothing behind it, is no address. */
  lemma NothingMissing(upsname: string, rest: string)
    requires |upsname + "@"| < SMALLBUF && '@' !in upsname
    ensures SplitName("@" + rest) == None && SplitName(upsname + "@") == None && SplitName("") == None
  {
    var tmp := Copied("@" + rest);
    assert tmp[0] == '@';
    IndexOfIs(tmp, '@', 0);
    IndexOfPrefix(upsname, '@', "");
    assert upsname + "@" + "" == upsname + "@";
  }

  // ----- the parsers in their buffers -----

  lemma {:induction false} DigitsCut(s: string, k: nat)
    requires k < |s| && !IsDigit(s[k])
    ensures Digits(s[..k]) == Digits(s)
    decreases k
  {
    if k > 0 {
      assert s[..k][0] == s[0] && s[..k][1..] == s[1..][..k - 1];
      DigitsCut(s[1..], k - 1);
    }
  }

  /** `strtol` stops at a colon, so a NUL written over one does not change the number. */
  lemma {:induction false} StrtolCut(s: string, k: nat)
    requires k < |s| && s[k] == ':'
    ensures Strtol(s[..k]) == Strtol(s)
    decreases |s|
  {
    if k == 0 {
      assert s[..0] == "" && Digits(s) == "";
    } else {
      assert s[..k][0] == s[0] && s[..k][1..] == s[1..][..k - 1];
      if IsSpace(s[0]) {
        StrtolCut(s[1..], k - 1);
      } else if s[0] == '-' || s[0] == '+' {
        DigitsCut(s[1..], k - 1);
      } else {
        DigitsCut(s, k);
      }
    }
  }

  /** The port at `++s`, with the separator at `s`. */
  method ReadPort(tmp: array<char>, s: nat, ghost end: nat) returns (port: Option<int>)
    requires TextAt(tmp, s, end)
    ensures port == PortOf(tmp[s..end])
  {
    if tmp[s] == '\0' {
      assert tmp[s..end] == "";
      return None;
    }
    var text := TextFrom(tmp, s, end);
    var l := Strtol(text);
    if l < 1 || l > 65535 {
      return None;
    }
    return Some(l);
  }

  /** The text behind the first colon, once `strtok_r` has cut the host off. With leading
      colons it ends at the cut, and is still the same number. */
  lemma PortBehindCut(tmp: string, word: nat, end: nat)
    requires word < end <= |tmp| && (forall i | 0 <= i < word :: tmp[i] == ':')
    requires (forall i | word <= i < end :: tmp[i] != ':') && (end < |tmp| ==> tmp[end] == ':')
    ensures var s := IndexOf(tmp, ':');
      && (word == 0 ==> s == end)
      && (word > 0 ==> s == 0 && PortOf(tmp[1..end]) == PortOf(tmp[1..]))
  {
    if word == 0 {
      IndexOfIs(tmp, ':', end);
    } else {
      IndexOfIs(tmp, ':', 0);
      var rest := tmp[1..];
      if end < |tmp| {
        StrtolCut(rest, end - 1);
        assert rest[..end - 1] == tmp[1..end];
      } else {
        assert tmp[1..end] == rest;
      }
    }
  }

  /** The bracketed form, in the copied buffer. */
  method TakeLiteral(tmp: array<char>, ghost n: nat) returns (r: Option<HostPort>)
    requires TextAt(tmp, 0, n) && n > 0 && tmp[0] == '['
    modifies tmp
    ensures r == Bracketed(old(tmp[..n]))
  {
    ghost var was := tmp[..n];
    assert tmp[0..n] == was && tmp[1..n] == was[1..];
    var close := StrChr(tmp, 0, ']', n);
    if close == -1 {
      return None;
    }
    var word, end, last := StrTok(tmp, 1, ']', n);
    if word == -1 {
      return None;
    }
    var host := TextFrom(tmp, word, end);
    var s := last;
    ghost var rest := tmp[s..n];
    assert rest != "" ==> rest[0] == tmp[s];
    if tmp[s] != ':' {
      return Some(HostPort(host, NUT_PORT));
    }
    assert rest[0] == ':' && rest[1..] == tmp[s + 1..n];
    var port := ReadPort(tmp, s + 1, n);
    return if port == None then None else Some(HostPort(host, port.value));
  }

  /** Cuts the host off after the first colon `s` was looked up: the number behind that colon
      is still the same, though the text there may now be shorter. */
  method CutHost(tmp: array<char>, s: int, ghost n: nat) returns (host: Option<string>, ghost stop: nat)
    requires TextAt(tmp, 0, n)
    requires s == if IndexOf(tmp[..n], ':') < n then IndexOf(tmp[..n], ':') else -1
    modifies tmp
    ensures match Strtok(old(tmp[..n]), ':')
      case NoToken => host == None
      case Token(word, _) => host == Some(word)
    ensures host != None && s != -1 ==>
      TextAt(tmp, s + 1, stop) && PortOf(tmp[s + 1..stop]) == PortOf(old(tmp[s + 1..n]))
  {
    ghost var was := tmp[..n];
    assert tmp[0..n] == was;
    var word, end, last := StrTok(tmp, 0, ':', n);
    if word == -1 {
      return None, 0;
    }
    var text := TextFrom(tmp, word, end);
    host := Some(text);
    PortBehindCut(was, word, end);
    stop := if word == 0 then n else end;
    if s != -1 {
      assert tmp[s + 1..stop] == was[s + 1..stop];
      assert was[s + 1..] == old(tmp[s + 1..n]) && (word == 0 ==> was[s + 1..stop] == was[s + 1..]);
    }
  }

  /** A name, in the copied buffer: the colon is looked up before the host is cut off. */
  method TakeHost(tmp: array<char>, ghost n: nat) returns (r: Option<HostPort>)
    requires TextAt(tmp, 0, n) && n > 0 && tmp[0] != '['
    modifies tmp
    ensures r == Plainly(old(tmp[..n]))
  {
    ghost var was := tmp[..n];
    assert tmp[0..n] == was;
    var s := StrChr(tmp, 0, ':', n);
    assert s != -1 ==> tmp[s + 1..n] == was[s + 1..];
    var host, stop := CutHost(tmp, s, n);
    if host == None {
      return None;
    }
    if s == -1 {
      return Some(HostPort(host.value, NUT_PORT));
    }
    var port := ReadPort(tmp, s + 1, stop);
    return if port == None then None else Some(HostPort(host.value, port.value));
  }

  /** `upscli_splitaddr` on the text at `buf[from]`. */
  method SplitAddrInPlace(buf: array<char>, from: nat, ghost end: nat) returns (r: Option<HostPort>)
    requires TextAt(buf, from, end)
    ensures r == SplitAddr(buf[from..end])
  {
    var tmp, n := Copy(buf, from, SMALLBUF, end);
    if n < 1 {
      return None;
    }
    assert tmp[..n][0] == tmp[0];
    if tmp[0] == '[' {
      r := TakeLiteral(tmp, n);
    } else {
      r := TakeHost(tmp, n);
    }
  }

  /** `upscli_splitname` on the text at `buf[from]`. */
  method SplitNameInPlace(buf: array<char>, from: nat, ghost end: nat) returns (r: Option<Address>)
    requires TextAt(buf, from, end)
    ensures r == SplitName(buf[from..end])
  {
    var tmp, n := Copy(buf, from, SMALLBUF, end);
    if n < 1 {
      return None;
    }
    assert tmp[0..n] == tmp[..n];
    r := TakeName(tmp, n);
  }

  /** The name cut off at its `@`, in the copied buffer. */
  method CutName(tmp: array<char>, sat: int, ghost n: nat) returns (upsname: Option<string>)
    requires TextAt(tmp, 0, n) && n > 0 && sat != 0
    requires sat == if IndexOf(tmp[..n], '@') < n then IndexOf(tmp[..n], '@') else -1
    modifies tmp
    ensures match Strtok(old(tmp[..n]), '@')
      case NoToken => upsname == None
      case Token(word, _) => upsname == Some(word)
    ensures sat != -1 ==> TextAt(tmp, sat + 1, n) && tmp[sat + 1..n] == old(tmp[sat + 1..n])
  {
    ghost var was := tmp[..n];
    assert tmp[0..n] == was;
    IndexOfFirst(was, '@');
    assert was[0] == tmp[0] && was[0] != '@';
    var word, end, last := StrTok(tmp, 0, '@', n);
    if word == -1 {
      return None;
    }
    assert word == 0;
    IndexOfIs(was, '@', end);
    var text := TextFrom(tmp, word, end);
    return Some(text);
  }

  /** What follows the `@` is handed on as a pointer into the buffer that was cut there. */
  method TakeName(tmp: array<char>, ghost n: nat) returns (r: Option<Address>)
    requires TextAt(tmp, 0, n) && n > 0
    modifies tmp
    ensures r == NamedAddress(old(tmp[..n]))
  {
    ghost var was := tmp[..n];
    assert tmp[0..n] == was;
    var sat := StrChr(tmp, 0, '@', n);
    var ssc := StrChr(tmp, 0, ':', n);
    if sat == 0 {
      return None;
    }
    assert sat != -1 ==> tmp[sat + 1..n] == was[sat + 1..];
    var upsname := CutName(tmp, sat, n);
    if upsname == None {
      return None;
    }
    if sat == -1 {
      if ssc != -1 {
        return None;
      }
      return Some(Address(upsname.value, "localhost", NUT_PORT));
    }
    if tmp[sat + 1] == '\0' {
      return None;
    }
    var hp := SplitAddrInPlace(tmp, sat + 1, n);
    return if hp == None then None else Some(Address(upsname.value, hp.value.host, hp.value.port));
  }
}
