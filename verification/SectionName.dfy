/** Section names of nutauth.conf: `upscli_split_authconf_section` and
    `upscli_normalize_authconf_section_parts`. */
module SectionName {
  import opened Text

  /** The services database: port numbers by name. */
  type Services = map<string, nat>

  /** The normalised parts; a section without a fixed user has no user part. */
  datatype Section = Section(user: Option<string>, host: string, port: string)

  /** The normalised name, `user@host:port`. */
  function Name(p: Section): string
  {
    (if p.user == None then "" else p.user.value) + "@" + p.host + ":" + p.port
  }

  function NormalPort(port: Option<string>, sv: Services): string
  {
    if port == None || port.value == "" then Decimal(NUT_PORT)
    else if AllDigits(port.value) then port.value
    else if port.value in sv then Decimal(sv[port.value])
    else port.value
  }

  function NormalHost(host: Option<string>): string
  {
    if host == None || host.value == "" then "localhost" else host.value
  }

  function Normalize(user: Option<string>, host: Option<string>, port: Option<string>, sv: Services): Section
  {
    Section(user, NormalHost(host), NormalPort(port, sv))
  }

  /** The position of `c` behind position `i`, which itself may be missing. */
  function Next(s: string, c: char, i: nat): (k: nat)
    ensures k <= |s|
  {
    if i < |s| then IndexFrom(s, c, i + 1) else |s|
  }

  /** The positions the sanity checks look at; the length stands for a null pointer. */
  datatype Marks = Marks(
    n: nat, at: nat, colon: nat, second: nat, open: nat, nextOpen: nat, close: nat, nextClose: nat,
    sep: nat, nextSep: nat)

  function MarksOf(s: string): Marks
  {
    var colon, open, close := IndexOf(s, ':'), IndexOf(s, '['), IndexOf(s, ']');
    var sep := if close < |s| then Next(s, ':', close) else colon;
    Marks(|s|, IndexOf(s, '@'), colon, Next(s, ':', colon), open, Next(s, '[', open), close, Next(s, ']', close),
          sep, Next(s, ':', sep))
  }

  predicate Rejected(m: Marks)
  {
    || (m.at < m.n && m.colon < m.n && m.colon < m.at)
    || (m.open < m.n && m.colon < m.n && m.colon < m.open)
    || ((m.open < m.n) != (m.close < m.n))
    || (m.close < m.n && m.colon < m.n && m.colon > m.close)
    || (m.close < m.n && m.colon == m.n)
    || (m.open < m.n && m.close < m.n && m.colon < m.n && m.colon > m.open && m.colon < m.close
        && (m.second == m.n || m.second > m.close))
    || (m.sep < m.n && m.nextSep < m.n)
    || (m.open < m.n && m.nextOpen < m.n)
    || (m.close < m.n && m.nextClose < m.n)
  }

  /** The sanity checks: the position of the colon before the port, the length of the text
      when there is none, or a rejection. */
  function Checked(s: string): Option<nat>
  {
    var m := MarksOf(s);
    if Rejected(m) then None else Some(m.sep)
  }

  function UserOf(s: string): Option<string>
  {
    var at := IndexOf(s, '@');
    if at < |s| && at > 0 then Some(s[..at]) else None
  }

  /** The host is what stands between the first `@`, or the start, and the colon; a single
      character before the colon of a name without `@` is dropped. */
  function HostOf(s: string, sep: nat): Option<string>
    requires sep <= |s|
  {
    var at := IndexOf(s, '@');
    if at < |s| then if at >= sep || (sep < |s| && at + 1 == sep) then None else Some(s[at + 1..sep])
    else if sep == 1 && sep < |s| then None
    else Some(s[..sep])
  }

  function PortOf(s: string, sep: nat): Option<string>
  {
    if sep + 1 < |s| then Some(s[sep + 1..]) else None
  }

  function Split(s: string, sv: Services): Option<Section>
  {
    if s == "" then None
    else
      match Checked(s)
      case None => None
      case Some(sep) => Some(Normalize(UserOf(s), HostOf(s, sep), PortOf(s, sep), sv))
  }

  // ----- positions -----

  lemma IndexFromIs(s: string, c: char, from: nat, k: nat)
    requires from <= k <= |s|
    requires k < |s| ==> s[k] == c
    requires forall i | from <= i < k :: s[i] != c
    ensures IndexFrom(s, c, from) == k
  {
    IndexFromFirst(s, c, from);
  }

  /** The same positions in the text cut at `k`, as far as they lie before it. */
  lemma IndexInPrefix(s: string, c: char, from: nat, k: nat)
    requires from <= k <= |s|
    ensures var i := IndexFrom(s, c, from);
      IndexFrom(s[..k], c, from) == if i < k then i else k
  {
    IndexFromFirst(s, c, from);
    var i := IndexFrom(s, c, from);
    IndexFromIs(s[..k], c, from, if i < k then i else k);
  }

  /** Appending a text without `c` does not make one appear. */
  lemma IndexAppended(t: string, c: char, from: nat, u: string)
    requires from <= |t| && (c !in u || IndexFrom(t, c, from) < |t|)
    ensures var i := IndexFrom(t, c, from);
      IndexFrom(t + u, c, from) == if i < |t| then i else |t + u|
  {
    IndexFromFirst(t, c, from);
    var i := IndexFrom(t, c, from);
    IndexFromIs(t + u, c, from, if i < |t| then i else |t + u|);
  }

  lemma IndexBehindAt(s: string, c: char, from: nat)
    requires from <= |s| && c != '@'
    ensures IndexFrom("@" + s, c, from + 1) == IndexFrom(s, c, from) + 1
    ensures from == 0 ==> IndexOf("@" + s, c) == IndexOf(s, c) + 1
  {
    IndexFromFirst(s, c, from);
    var k, u := IndexFrom(s, c, from) + 1, "@" + s;
    assert forall i | 0 < i <= |s| :: u[i] == s[i - 1];
    IndexFromIs(u, c, from + 1, k);
    if from == 0 {
      IndexFromIs(u, c, 0, k);
    }
  }

  // ----- normalising is idempotent -----

  /** The text before the colon of the port passes the checks on its own. */
  predicate Portless(t: string)
  {
    Checked(t) == Some(|t|)
  }

  lemma FirstMarks(s: string)
    ensures var m := MarksOf(s);
      && (m.colon < m.n ==> s[m.colon] == ':') && (m.close < m.n ==> s[m.close] == ']')
      && (m.at < m.n ==> s[m.at] == '@') && (m.open < m.n ==> s[m.open] == '[')
      && (m.close < m.n ==> m.close < m.sep)
  {
    IndexFromFirst(s, ':', 0);
    IndexFromFirst(s, ']', 0);
    IndexFromFirst(s, '@', 0);
    IndexFromFirst(s, '[', 0);
  }

  lemma CheckedOrder(s: string)
    requires Checked(s).Some?
    ensures var m := MarksOf(s);
      && (m.close < m.n <==> m.open < m.n)
      && (m.close < m.n ==> m.open < m.colon < m.second < m.close < m.sep && m.second < m.n)
      && (m.close == m.n ==> m.sep == m.colon)
      && (m.at < m.n ==> m.at < m.sep)
      && m.sep <= m.n
  {
    FirstMarks(s);
    var m := MarksOf(s);
    if m.close < m.n {
      IndexFromFirst(s, ':', m.colon + 1);
      assert m.second != m.close;
    }
  }

  lemma PrefixWithBrackets(s: string)
    requires Checked(s).Some? && MarksOf(s).close < |s|
    ensures var m, sep := MarksOf(s), Checked(s).value;
      MarksOf(s[..sep]) == Marks(sep, if m.at < m.n then m.at else sep, m.colon, m.second,
        m.open, sep, m.close, sep, sep, sep)
  {
    var m, sep := MarksOf(s), Checked(s).value;
    var t := s[..sep];
    CheckedOrder(s);
    assert IndexOf(t, '@') == if m.at < m.n then m.at else sep by { IndexInPrefix(s, '@', 0, sep); }
    assert IndexOf(t, ':') == m.colon by { IndexInPrefix(s, ':', 0, sep); }
    assert IndexOf(t, '[') == m.open by { IndexInPrefix(s, '[', 0, sep); }
    assert IndexOf(t, ']') == m.close by { IndexInPrefix(s, ']', 0, sep); }
    assert Next(t, ':', m.colon) == m.second by { IndexInPrefix(s, ':', m.colon + 1, sep); }
    assert Next(t, ':', m.close) == sep by { IndexInPrefix(s, ':', m.close + 1, sep); }
    assert Next(t, '[', m.open) == sep by { IndexInPrefix(s, '[', m.open + 1, sep); }
    assert Next(t, ']', m.close) == sep by { IndexInPrefix(s, ']', m.close + 1, sep); }
  }

  lemma PrefixIsPortless(s: string)
    requires Checked(s).Some?
    ensures Portless(s[..Checked(s).value])
  {
    var m, sep := MarksOf(s), Checked(s).value;
    CheckedOrder(s);
    if m.close < |s| {
      PrefixWithBrackets(s);
    } else {
      assert IndexOf(s[..sep], ':') == sep by { IndexInPrefix(s, ':', 0, sep); }
      assert IndexOf(s[..sep], '[') == sep by { IndexInPrefix(s, '[', 0, sep); }
      assert IndexOf(s[..sep], ']') == sep by { IndexInPrefix(s, ']', 0, sep); }
    }
  }

  /** A text fit to follow the separating colon. */
  predicate PortText(q: string)
  {
    ':' !in q && '[' !in q && ']' !in q
  }

  lemma AppendedWithBrackets(t: string, q: string)
    requires Portless(t) && PortText(q) && '@' in t && MarksOf(t).close < |t|
    ensures var m, n := MarksOf(t), |t + ":" + q|;
      MarksOf(t + ":" + q) == Marks(n, m.at, m.colon, m.second, m.open, n, m.close, n, |t|, n)
  {
    var m, u, s := MarksOf(t), ":" + q, t + ":" + q;
    CheckedOrder(t);
    IndexOfAbsent(t, '@');
    assert s == t + u;
    assert IndexOf(s, '@') == m.at by { IndexAppended(t, '@', 0, u); }
    assert IndexOf(s, ':') == m.colon by { IndexAppended(t, ':', 0, u); }
    assert IndexOf(s, '[') == m.open by { IndexAppended(t, '[', 0, u); }
    assert IndexOf(s, ']') == m.close by { IndexAppended(t, ']', 0, u); }
    assert Next(s, ':', m.colon) == m.second by { IndexAppended(t, ':', m.colon + 1, u); }
    assert Next(s, ':', m.close) == |t| by { ColonAfter(t, m.close + 1, q); }
    assert Next(s, ':', |t|) == |s| by { NoMoreColons(t, q); }
    assert Next(s, '[', m.open) == |s| by { IndexAppended(t, '[', m.open + 1, u); }
    assert Next(s, ']', m.close) == |s| by { IndexAppended(t, ']', m.close + 1, u); }
  }

  lemma PortAppended(t: string, q: string)
    requires Portless(t) && PortText(q) && '@' in t
    ensures Checked(t + ":" + q) == Some(|t|)
  {
    var m, u, s := MarksOf(t), ":" + q, t + ":" + q;
    CheckedOrder(t);
    if m.close < |t| {
      AppendedWithBrackets(t, q);
      IndexOfAbsent(t, '@');
      assert !Rejected(MarksOf(s));
    } else {
      IndexOfAbsent(t, '@');
      assert s == t + u;
      assert IndexOf(s, '@') == m.at by { IndexAppended(t, '@', 0, u); }
      assert IndexOf(s, ':') == |t| by { ColonAfter(t, 0, q); }
      assert IndexOf(s, '[') == |s| by { IndexAppended(t, '[', 0, u); }
      assert IndexOf(s, ']') == |s| by { IndexAppended(t, ']', 0, u); }
      assert Next(s, ':', |t|) == |s| by { NoMoreColons(t, q); }
    }
  }

  lemma ColonAfter(t: string, from: nat, q: string)
    requires from <= |t| && IndexFrom(t, ':', from) == |t|
    ensures IndexFrom(t + ":" + q, ':', from) == |t|
  {
    IndexFromFirst(t, ':', from);
    IndexFromIs(t + ":" + q, ':', from, |t|);
  }

  lemma NoMoreColons(t: string, q: string)
    requires ':' !in q
    ensures IndexFrom(t + ":" + q, ':', |t| + 1) == |t + ":" + q|
  {
    var s := t + ":" + q;
    assert forall i | |t| < i < |s| :: s[i] == q[i - |t| - 1];
    IndexFromIs(s, ':', |t| + 1, |s|);
  }

  lemma NextBehindAt(t: string, c: char, i: nat)
    requires c != '@'
    ensures i <= |t| ==> Next("@" + t, c, i + 1) == Next(t, c, i) + 1
  {
    if i < |t| {
      IndexBehindAt(t, c, i + 1);
    }
  }

  lemma AtPrependedMarks(t: string)
    ensures var m := MarksOf(t);
      MarksOf("@" + t) == Marks(m.n + 1, 0, m.colon + 1, m.second + 1, m.open + 1, m.nextOpen + 1,
        m.close + 1, m.nextClose + 1, m.sep + 1, m.nextSep + 1)
  {
    var m, u := MarksOf(t), "@" + t;
    assert IndexOf(u, '@') == 0 by { IndexFromIs(u, '@', 0, 0); }
    assert IndexOf(u, ':') == m.colon + 1 by { IndexBehindAt(t, ':', 0); }
    assert IndexOf(u, '[') == m.open + 1 by { IndexBehindAt(t, '[', 0); }
    assert IndexOf(u, ']') == m.close + 1 by { IndexBehindAt(t, ']', 0); }
    NextBehindAt(t, ':', m.colon);
    NextBehindAt(t, '[', m.open);
    NextBehindAt(t, ']', m.close);
    NextBehindAt(t, ':', m.close);
    NextBehindAt(t, ':', m.sep);
  }

  lemma AtPrepended(t: string)
    requires Portless(t) && '@' !in t
    ensures Portless("@" + t)
  {
    AtPrependedMarks(t);
    IndexOfAbsent(t, '@');
  }

  lemma PlainIsPortless(t: string)
    requires ':' !in t && '[' !in t && ']' !in t
    ensures Portless(t)
  {
    IndexOfAbsent(t, ':');
    IndexOfAbsent(t, '[');
    IndexOfAbsent(t, ']');
  }

  lemma PortIsPortText(s: string, sv: Services)
    requires Checked(s).Some?
    ensures PortText(NormalPort(PortOf(s, Checked(s).value), sv))
  {
    var sep := Checked(s).value;
    var q := NormalPort(PortOf(s, sep), sv);
    if !AllDigits(q) {
      assert q == s[sep + 1..];
      CheckedOrder(s);
      IndexFromFirst(s, ':', sep + 1);
      if IndexOf(s, ']') < |s| {
        IndexFromFirst(s, '[', IndexOf(s, '[') + 1);
        IndexFromFirst(s, ']', IndexOf(s, ']') + 1);
      } else {
        IndexFromFirst(s, '[', 0);
        IndexFromFirst(s, ']', 0);
      }
    }
  }

  /** `user@host` of the normalised name. */
  function Before(p: Section): string
  {
    (if p.user == None then "" else p.user.value) + "@" + p.host
  }

  /** A host given in the name: then `user@host` is what stood before the port. */
  lemma BeforeIsPrefix(s: string, sv: Services)
    requires Checked(s).Some? && s != ""
    requires var host := HostOf(s, Checked(s).value); host != None && host.value != ""
    ensures var prefix := s[..Checked(s).value];
      Before(Split(s, sv).value) == if IndexOf(s, '@') < |s| then prefix else "@" + prefix
  {
    CheckedOrder(s);
    var sep := Checked(s).value;
    if IndexOf(s, '@') < |s| {
      UserAndHostRejoin(s, sep);
    } else {
      assert UserOf(s) == None && HostOf(s, sep) == Some(s[..sep]);
      assert Split(s, sv).value.user == None && Split(s, sv).value.host == s[..sep];
    }
  }

  lemma BeforeIsPortless(s: string, sv: Services)
    requires Split(s, sv).Some?
    ensures Portless(Before(Split(s, sv).value))
  {
    var p, sep := Split(s, sv).value, Checked(s).value;
    var host := HostOf(s, sep);
    if host == None || host.value == "" {
      DefaultedHostIsPlain(s);
      PlainIsPortless(Before(p));
    } else {
      BeforeIsPrefix(s, sv);
      PrefixIsPortless(s);
      if IndexOf(s, '@') == |s| {
        assert '@' !in s[..sep] by { IndexOfAbsent(s, '@'); }
        AtPrepended(s[..sep]);
      }
    }
  }

  lemma UserAndHostRejoin(s: string, sep: nat)
    requires IndexOf(s, '@') < sep <= |s| && HostOf(s, sep).Some?
    ensures Before(Section(UserOf(s), HostOf(s, sep).value, "")) == s[..sep]
  {
    IndexOfFirst(s, '@');
  }

  /** Where the host is defaulted there are no brackets, and no colon in the user. */
  lemma DefaultedHostIsPlain(s: string)
    requires Checked(s).Some?
    requires var host := HostOf(s, Checked(s).value); host == None || host.value == ""
    ensures var user := UserOf(s); user == None || PortText(user.value)
  {
    CheckedOrder(s);
    IndexOfFirst(s, '@');
    IndexOfFirst(s, ':');
    IndexOfAbsent(s, '[');
    IndexOfAbsent(s, ']');
    var at, sep := IndexOf(s, '@'), Checked(s).value;
    if 0 < at < |s| {
      assert s[..at] == s[..sep][..at];
    }
  }

  /** Main result: an accepted name has a normalised name that is accepted and splits into
      the same parts, hence normalises to itself. */
  lemma NormalizingIsIdempotent(s: string, sv: Services)
    requires Split(s, sv).Some?
    ensures Split(Name(Split(s, sv).value), sv) == Split(s, sv)
  {
    var p := Split(s, sv).value;
    var t, name := Before(p), Name(p);
    BeforeIsPortless(s, sv);
    PortIsPortText(s, sv);
    assert t[if p.user == None then 0 else |p.user.value|] == '@';
    PortAppended(t, p.port);
    assert name == t + ":" + p.port;
    UserHasNoAt(s);
    PortStaysNormal(s, sv);
    SplitsIntoParts(p, sv);
  }

  lemma UserHasNoAt(s: string)
    ensures UserOf(s) == None || (UserOf(s).value != "" && '@' !in UserOf(s).value)
  {
    IndexOfFirst(s, '@');
  }

  lemma PortStaysNormal(s: string, sv: Services)
    requires Checked(s).Some?
    ensures var q := NormalPort(PortOf(s, Checked(s).value), sv); q != "" && NormalPort(Some(q), sv) == q
  {
  }

  /** A name put together from parts is taken apart at the same places. */
  lemma SplitsIntoParts(p: Section, sv: Services)
    requires p.user == None || (p.user.value != "" && '@' !in p.user.value)
    requires p.host != "" && p.port != ""
    ensures var name, sep := Name(p), |Before(p)|;
      && UserOf(name) == p.user
      && HostOf(name, sep) == Some(p.host)
      && PortOf(name, sep) == Some(p.port)
  {
    var user := if p.user == None then "" else p.user.value;
    var name, rest := Name(p), p.host + ":" + p.port;
    assert name == user + ['@'] + rest;
    IndexOfPrefix(user, '@', rest);
    assert name[..|user|] == user;
    assert name[|user| + 1..|Before(p)|] == p.host;
    assert name[|Before(p)| + 1..] == p.port;
  }

  /** Every plain `user@host:port` is accepted as written. */
  lemma PlainNameAccepted(p: Section, sv: Services)
    requires p.user == None || (p.user.value != "" && '@' !in p.user.value && PortText(p.user.value))
    requires p.host != "" && PortText(p.host) && p.port != "" && PortText(p.port)
    requires AllDigits(p.port) || p.port !in sv
    ensures Split(Name(p), sv) == Some(p)
  {
    var t := Before(p);
    assert t[if p.user == None then 0 else |p.user.value|] == '@';
    PlainIsPortless(t);
    PortAppended(t, p.port);
    assert Name(p) == t + ":" + p.port;
    SplitsIntoParts(p, sv);
  }

  // ----- what may be left out, and what is looked up -----

  /** A plain port name in the services database becomes its number. */
  lemma ServiceIsNumbered(p: Section, sv: Services)
    requires p.user == None || (p.user.value != "" && '@' !in p.user.value && PortText(p.user.value))
    requires p.host != "" && PortText(p.host) && p.port != "" && PortText(p.port)
    requires !AllDigits(p.port) && p.port in sv
    ensures Split(Name(p), sv) == Some(p.(port := Decimal(sv[p.port])))
  {
    var t := Before(p);
    assert t[if p.user == None then 0 else |p.user.value|] == '@';
    PlainIsPortless(t);
    PortAppended(t, p.port);
    assert Name(p) == t + ":" + p.port;
    SplitsIntoParts(p, sv);
  }

  /** Without host and port it is the local host's default port. */
  lemma PartsDefaulted(user: string, sv: Services)
    requires user != "" && '@' !in user && PortText(user)
    ensures Split(user + "@", sv) == Some(Section(Some(user), "localhost", "3493"))
    ensures Split("@", sv) == Some(Section(None, "localhost", "3493"))
  {
    var s := user + "@";
    PortIsPrinted();
    PlainIsPortless(s);
    PlainIsPortless("@");
    IndexOfPrefix(user, '@', "");
    assert user + "@" + "" == s && s[..|user|] == user && s[|user| + 1..] == "";
    IndexOfIs("@", '@', 0);
  }

  /** How many colons a text has before its last. */
  predicate TwoColons(s: string)
  {
    exists i, j | 0 <= i < j < |s| :: s[i] == ':' && s[j] == ':'
  }

  predicate Literal(s: string)
  {
    s != "" && '@' !in s && '[' !in s && ']' !in s
  }

  /** Where the marks are in `@[literal]`. */
  lemma LiteralMarks(lit: string)
    requires Literal(lit)
    ensures var t, n := "@[" + lit + "]", |lit| + 3;
      && |t| == n
      && IndexOf(t, '@') == 0 && IndexOf(t, '[') == 1 && IndexOf(t, ']') == n - 1
      && Next(t, '[', 1) == n && Next(t, ']', n - 1) == n && Next(t, ':', n - 1) == n
      && IndexOf(t, ':') == (if IndexOf(lit, ':') < |lit| then IndexOf(lit, ':') + 2 else n)
  {
    var t, n := "@[" + lit + "]", |lit| + 3;
    assert forall i | 2 <= i < n - 1 :: t[i] == lit[i - 2];
    IndexFromIs(t, '@', 0, 0);
    IndexFromIs(t, '[', 0, 1);
    IndexFromIs(t, ']', 0, n - 1);
    IndexFromIs(t, '[', 2, n);
    IndexFromIs(t, ']', n, n);
    IndexFromIs(t, ':', n, n);
    IndexFromFirst(lit, ':', 0);
    IndexFromIs(t, ':', 0, if IndexOf(lit, ':') < |lit| then IndexOf(lit, ':') + 2 else n);
  }

  /** Main result on literals: a bracketed one without `@` or brackets in it passes exactly if it
      has two colons at least, as those of IPv6 have. */
  lemma LiteralPassesExactly(lit: string)
    requires Literal(lit)
    ensures Portless("@[" + lit + "]") <==> TwoColons(lit)
    ensures Checked("@[" + lit + "]").Some? <==> TwoColons(lit)
  {
    var t, n, c := "@[" + lit + "]", |lit| + 3, IndexOf(lit, ':');
    LiteralMarks(lit);
    IndexFromFirst(lit, ':', 0);
    assert forall i | 2 <= i < n - 1 :: t[i] == lit[i - 2];
    if c < |lit| {
      SecondColon(lit, c);
      var d := IndexFrom(lit, ':', c + 1);
      IndexFromFirst(lit, ':', c + 1);
      IndexFromIs(t, ':', c + 3, if d < |lit| then d + 2 else n);
    }
  }

  lemma SecondColon(lit: string, c: nat)
    requires c < |lit| && c == IndexOf(lit, ':')
    ensures IndexFrom(lit, ':', c + 1) < |lit| <==> TwoColons(lit)
  {
    IndexFromFirst(lit, ':', 0);
    IndexFromFirst(lit, ':', c + 1);
    var d := IndexFrom(lit, ':', c + 1);
    if d < |lit| {
      assert lit[c] == ':' && lit[d] == ':';
    }
  }

  /** Such a literal comes back as it is written, with its brackets. */
  lemma LiteralNameAccepted(lit: string, port: string, sv: Services)
    requires Literal(lit) && TwoColons(lit)
    requires port != "" && PortText(port) && (AllDigits(port) || port !in sv)
    ensures var p := Section(None, "[" + lit + "]", port); Split(Name(p), sv) == Some(p)
  {
    var p, t := Section(None, "[" + lit + "]", port), "@[" + lit + "]";
    LiteralPassesExactly(lit);
    assert t == Before(p) && t[0] == '@';
    PortAppended(t, port);
    assert Name(p) == t + ":" + port;
    SplitsIntoParts(p, sv);
  }

  /** Without `@`, `host:port` keeps its host exactly when it is longer than one character. */
  lemma ShortHostIsLost(host: string, port: string, sv: Services)
    requires host != "" && PortText(host) && '@' !in host && PortText(port) && '@' !in port
    ensures Split(host + ":" + port, sv).Some?
    ensures Split(host + ":" + port, sv).value.host == host <==> |host| > 1
  {
    var s := host + ":" + port;
    IndexOfAbsent(s, '@');
    IndexOfAbsent(s, '[');
    IndexOfAbsent(s, ']');
    IndexOfPrefix(host, ':', port);
    NoMoreColons(host, port);
    assert s[..|host|] == host;
  }

  // ----- the splitter -----

  method IsNumeric(port: string) returns (numeric: bool)
    ensures numeric == AllDigits(port)
  {
    var p := 0;
    while p < |port|
      invariant p <= |port|
      invariant forall i | 0 <= i < p :: IsDigit(port[i])
    {
      if !IsDigit(port[p]) {
        return false;
      }
      p := p + 1;
    }
    return true;
  }

  method NormalizeParts(user: Option<string>, host: Option<string>, port: Option<string>, sv: Services)
    returns (section: Section)
    ensures section == Normalize(user, host, port, sv)
  {
    var sectHost := if host.Some? && host.value != "" then host.value else "localhost";
    var sectPort: string;
    if port.Some? && port.value != "" {
      sectPort := port.value;
      var numeric := IsNumeric(sectPort);
      if !numeric && sectPort in sv {
        sectPort := Decimal(sv[sectPort]);
      }
    } else {
      sectPort := Decimal(NUT_PORT);
    }
    return Section(user, sectHost, sectPort);
  }

  /** The sanity checks with their one `colon` pointer moved along; a position equal to
      the length stands for a null pointer. */
  method FindPortColon(s: string) returns (sep: Option<nat>)
    ensures sep == Checked(s)
  {
    var n := |s|;
    var at, colon, open, close := IndexOf(s, '@'), IndexOf(s, ':'), IndexOf(s, '['), IndexOf(s, ']');
    if at < n && colon < n && colon < at {
      return None;
    }
    if open < n && colon < n && colon < open {
      return None;
    }
    if (open < n && close == n) || (open == n && close < n) {
      return None;
    }
    if close < n && colon < n && colon > close {
      return None;
    }
    if close < n && colon == n {
      return None;
    }
    if open < n && close < n && colon < n && colon > open && colon < close {
      colon := Next(s, ':', colon);
      if colon == n || colon > close {
        return None;
      }
    }
    if close < n {
      colon := Next(s, ':', close);
    }
    if Next(s, ':', colon) < n || Next(s, '[', open) < n || Next(s, ']', close) < n {
      return None;
    }
    return Some(colon);
  }

  /** The host and user parts, given the colon before the port. */
  method CutParts(s: string, colon: nat) returns (user: Option<string>, host: Option<string>, port: Option<string>)
    requires colon <= |s| && (IndexOf(s, '@') < |s| ==> IndexOf(s, '@') < colon)
    ensures user == UserOf(s) && host == HostOf(s, colon) && port == PortOf(s, colon)
  {
    var n, at := |s|, IndexOf(s, '@');
    user := if at < n && at > 0 then Some(s[..at]) else None;
    host := None;
    if at < n {
      if colon == n || at + 1 != colon {
        host := Some(s[at + 1..colon]);
      }
    } else if colon == n || colon != 1 {
      host := Some(s[..colon]);
    }
    port := if colon + 1 < n then Some(s[colon + 1..]) else None;
  }

  method SplitSection(s: string, sv: Services) returns (r: Option<Section>)
    ensures r == Split(s, sv)
  {
    if s == "" {
      return None;
    }
    var found := FindPortColon(s);
    if found == None {
      return None;
    }
    CheckedOrder(s);
    var user, host, port := CutParts(s, found.value);
    var section := NormalizeParts(user, host, port, sv);
    return Some(section);
  }
}
