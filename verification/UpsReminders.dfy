/** The notices that can come again: exactly when FSD, REPLBATT and NOCOMM are told. */
module UpsReminders {
  import opened Text
  import opened UpsState
  import opened UpsStatus
  import opened UpsRuns
  import opened Stretches

  /** How often each was told, and the times that hold them back. */
  datatype Remind = Remind(
    fsd: nat, battery: nat, nocomm: nat, lastfsdnotify: int, lastrbwarn: int, lastncwarn: int)

  function RemindOf(u: Ups): Remind
  {
    Remind(TimesTold(u.notices, NotifyFsd), TimesTold(u.notices, NotifyReplBatt),
           TimesTold(u.notices, NotifyNoComm), u.lastfsdnotify, u.lastrbwarn, u.lastncwarn)
  }

  predicate Reminder(n: Notice) { n == NotifyFsd || n == NotifyReplBatt || n == NotifyNoComm }

  predicate TimesKept(u: Ups, v: Ups)
  {
    v.lastfsdnotify == u.lastfsdnotify && v.lastrbwarn == u.lastrbwarn && v.lastncwarn == u.lastncwarn
  }

  /** The device is as before but for one other notice at most. */
  predicate TellsOther(u: Ups, v: Ups)
  {
    TimesKept(u, v) && (v.notices == u.notices || exists n :: v.notices == u.notices + [n] && !Reminder(n))
  }

  lemma OtherNotice(u: Ups, v: Ups)
    requires TellsOther(u, v)
    ensures RemindOf(v) == RemindOf(u)
  {
    if v.notices != u.notices {
      var n :| v.notices == u.notices + [n] && !Reminder(n);
      AllTold(u.notices, n);
    }
  }

  lemma AllTold(log: seq<Notice>, m: Notice)
    ensures forall n :: TimesTold(log + [m], n) == TimesTold(log, n) + if m == n then 1 else 0
  {
    forall n
      ensures TimesTold(log + [m], n) == TimesTold(log, n) + if m == n then 1 else 0
    {
      ToldMore(log, m, n);
    }
  }

  // ----- a status -----

  /** What one word does to them: FSD is told unless it was, and the battery if it is due. */
  function AfterToken(r: Remind, on: bool, tok: Token, c: Config, now: int): Remind
  {
    if tok == TokFSD && !on && r.lastfsdnotify == 0 then r.(fsd := r.fsd + 1, lastfsdnotify := now)
    else if tok == TokRB && now - r.lastrbwarn > c.rbwarntime then r.(battery := r.battery + 1, lastrbwarn := now)
    else r
  }

  lemma TokenReminds(c: Config, s: St, tok: Token, now: int)
    ensures RemindOf(HandleToken(c, s, tok, now).u) == AfterToken(RemindOf(s.u), FSD in s.u.status, tok, c, now)
  {
    match tok
    case TokFSD => AllTold(s.u.notices, NotifyFsd);
    case TokRB => AllTold(s.u.notices, NotifyReplBatt);
    case _ => OtherToken(c, s, tok, now);
  }

  lemma OtherToken(c: Config, s: St, tok: Token, now: int)
    requires tok != TokFSD && tok != TokRB
    ensures RemindOf(HandleToken(c, s, tok, now).u) == RemindOf(s.u)
  {
    TokenTellsOther(c, s, tok, now);
    OtherNotice(s.u, HandleToken(c, s, tok, now).u);
  }

  lemma TokenTellsOther(c: Config, s: St, tok: Token, now: int)
    requires tok != TokFSD && tok != TokRB
    ensures TellsOther(s.u, HandleToken(c, s, tok, now).u)
  {
  }

  /** The words of a status at one moment: each is told once at most. */
  function AfterWords(r: Remind, on: bool, fsd: bool, rb: bool, c: Config, now: int): Remind
  {
    var r1 := if fsd && !on && r.lastfsdnotify == 0 then r.(fsd := r.fsd + 1, lastfsdnotify := now) else r;
    if rb && now - r.lastrbwarn > c.rbwarntime then r1.(battery := r.battery + 1, lastrbwarn := now) else r1
  }

  lemma WordMore(r: Remind, on: bool, tok: Token, fsd: bool, rb: bool, c: Config, now: int)
    requires c.rbwarntime >= 0 && now != 0
    ensures AfterWords(AfterToken(r, on, tok, c, now), on || tok == TokFSD, fsd, rb, c, now)
      == AfterWords(r, on, tok == TokFSD || fsd, tok == TokRB || rb, c, now)
  {
  }

  lemma {:induction false} WordsRemind(c: Config, s: St, words: seq<string>, now: int)
    requires c.rbwarntime >= 0 && now != 0
    ensures RemindOf(HandleWords(c, s, words, now).u)
      == AfterWords(RemindOf(s.u), FSD in s.u.status, HasToken(words, TokFSD), HasToken(words, TokRB), c, now)
    decreases |words|
  {
    if words != [] {
      var tok, rest := Classify(words[0]), words[1..];
      var next := HandleToken(c, s, tok, now);
      var timed := next.(u := UpdateCritTimer(next.u, now));
      TokenReminds(c, s, tok, now);
      FsdAfterToken(c, s, tok, now);
      WordMore(RemindOf(s.u), FSD in s.u.status, tok, HasToken(rest, TokFSD), HasToken(rest, TokRB), c, now);
      SameReminds(next.u, timed.u);
      WordsRemind(c, timed, rest, now);
    }
  }

  lemma FsdAfterToken(c: Config, s: St, tok: Token, now: int)
    ensures FSD in HandleToken(c, s, tok, now).u.status <==> FSD in s.u.status || tok == TokFSD
  {
    TokenFlags(c, s, tok, now, FSD);
  }

  lemma ClearedReminds(c: Config, s: St, f: Flag)
    requires f in CLEARED
    ensures RemindOf(Cleared(c, s, f).u) == RemindOf(s.u)
  {
    ClearedTellsOther(c, s, f);
    OtherNotice(s.u, Cleared(c, s, f).u);
  }

  lemma ClearedTellsOther(c: Config, s: St, f: Flag)
    requires f in CLEARED
    ensures TellsOther(s.u, Cleared(c, s, f).u)
  {
  }

  lemma {:induction false} ClearAllReminds(c: Config, s: St, order: seq<Flag>, status: string)
    requires forall i | 0 <= i < |order| :: order[i] in CLEARED
    ensures RemindOf(ClearAll(c, s, order, status).u) == RemindOf(s.u)
    decreases |order|
  {
    if order != [] {
      ClearedReminds(c, s, order[0]);
      ClearAllReminds(c, ClearedUnlessNamed(c, s, order[0], status), order[1..], status);
    }
  }

  lemma EcoReminds(c: Config, s: St, status: string, eco: bool)
    ensures RemindOf(UpdateEco(c, s, status, eco).u) == RemindOf(s.u)
  {
    var v := UpdateEco(c, s, status, eco).u;
    assert TellsOther(s.u, v);
    OtherNotice(s.u, v);
  }

  /** A text without FSD makes way for the next FSD notice. */
  lemma ClearingReminds(c: Config, s: St, status: string, eco: bool)
    ensures RemindOf(ClearMissing(c, s, status, eco).u)
      == if Contains(status, "FSD") then RemindOf(s.u) else RemindOf(s.u).(lastfsdnotify := 0)
  {
    var s0 := s.(u := ClearedSilently(s.u, status));
    ClearAllReminds(c, s0, CLEAR_ORDER, status);
    EcoReminds(c, ClearAll(c, s0, CLEAR_ORDER, status), status, eco);
  }

  lemma AliveReminds(s: St, now: int)
    ensures RemindOf(IsAlive(s, now).u) == RemindOf(s.u)
  {
    assert TellsOther(s.u, IsAlive(s, now).u.(lastpoll := s.u.lastpoll, commstate := s.u.commstate));
    OtherNotice(s.u, IsAlive(s, now).u.(lastpoll := s.u.lastpoll, commstate := s.u.commstate));
  }

  /** What an event says of FSD: a status names it or the server confirms the command; or a status
      no longer contains its name. */
  function FsdSaid(e: Timed): Said
  {
    Said((Answers(e.ev) && HasToken(Split(e.ev.status, ' '), TokFSD)) || (e.ev.SettingFsd? && e.ev.confirmed),
         Answers(e.ev) && !Contains(e.ev.status, "FSD"), e.ev.Waking?, e.now, 0)
  }

  predicate NamesBattery(ev: Event)
  {
    Answers(ev) && HasToken(Split(ev.status, ' '), TokRB)
  }

  /** The poll, or the attempt to connect, finds the device gone. */
  predicate FindsGone(ev: Event)
  {
    ev.Failing? || (ev.Polled? && ev.status == "") || (ev.Connecting? && (ev.how.Misconfigured? || ev.how.Unreached?))
  }

  lemma StatusReminds(s: St, e: Timed)
    requires Answers(e.ev) && e.c.rbwarntime >= 0 && e.now != 0
    ensures var held := if FsdSaid(e).ended then RemindOf(s.u).(lastfsdnotify := 0) else RemindOf(s.u);
      RemindOf(Step(s, e).u)
        == AfterWords(held, FSD in s.u.status && !FsdSaid(e).ended, FsdSaid(e).named, NamesBattery(e.ev), e.c, e.now)
  {
    var s0 := s.(u := s.u.(throttleState := ERR_NONE, throttleCount := -1));
    var alive := IsAlive(s0, e.now);
    var w := ClearMissing(e.c, alive, e.ev.status, e.ev.eco);
    assert RemindOf(s0.u) == RemindOf(s.u);
    AliveReminds(s0, e.now);
    ClearingReminds(e.c, alive, e.ev.status, e.ev.eco);
    ClearingFlags(e.c, alive, e.ev.status, e.ev.eco, FSD);
    assert Step(s, e) == HandleWords(e.c, w, Split(e.ev.status, ' '), e.now);
    WordsRemind(e.c, w, Split(e.ev.status, ' '), e.now);
  }

  // ----- the other events -----

  /** A device found gone for some time is told, once in a while. */
  predicate GoneIsDue(u: Ups, c: Config, now: int)
  {
    u.commstate == 0 && now - u.lastpoll >= c.nocommwarntime && now - u.lastncwarn > c.nocommwarntime
  }

  function AfterGone(r: Remind, due: bool, now: int): Remind
  {
    if due then r.(nocomm := r.nocomm + 1, lastncwarn := now) else r
  }

  lemma GoneReminds(c: Config, u: Ups, now: int)
    ensures RemindOf(IsGone(c, u, now)) == AfterGone(RemindOf(u), GoneIsDue(u, c, now), now)
  {
    AllTold(u.notices, NotifyCommBad);
    AllTold(u.notices, NotifyNoComm);
  }

  lemma SameReminds(u: Ups, v: Ups)
    requires TimesKept(u, v) && v.notices == u.notices
    ensures RemindOf(u) == RemindOf(v)
  {
  }

  lemma GoneEventReminds(s: St, e: Timed)
    requires FindsGone(e.ev)
    ensures RemindOf(Step(s, e).u) == AfterGone(RemindOf(s.u), GoneIsDue(s.u, e.c, e.now), e.now)
  {
    match e.ev
    case Connecting(how) =>
      var u := s.u.(status := s.u.status - {CLICONNECTED});
      GoneReminds(e.c, u, e.now);
      SameReminds(s.u, u);
      SameReminds(IsGone(e.c, u, e.now), Step(s, e).u);
    case Polled(status, eco) =>
      var u := s.u.(throttleState := ERR_NONE, throttleCount := -1);
      GoneReminds(e.c, u, e.now);
      SameReminds(s.u, u);
    case Failing(err, lost) =>
      var t := Throttled(e.c.throttleMax, s.u.throttleState, s.u.throttleCount, err);
      var u := s.u.(throttleState := t.state, throttleCount := t.count);
      GoneReminds(e.c, u, e.now);
      SameReminds(s.u, u);
      SameReminds(IsGone(e.c, u, e.now), Step(s, e).u);
  }

  lemma OtherReminds(s: St, e: Timed)
    requires !FindsGone(e.ev) && !Answers(e.ev)
    ensures RemindOf(Step(s, e).u)
      == if FsdSaid(e).named && s.u.lastfsdnotify == 0 then
           RemindOf(s.u).(fsd := RemindOf(s.u).fsd + 1, lastfsdnotify := e.now)
         else RemindOf(s.u)
  {
    if e.ev.SettingFsd? {
      AllTold(s.u.notices, NotifyFsd);
    } else {
      SilentEvent(s, e);
      SameReminds(s.u, Step(s, e).u);
    }
  }

  lemma SilentEvent(s: St, e: Timed)
    requires !FindsGone(e.ev) && !e.ev.Polled? && !e.ev.SettingFsd?
    ensures TimesKept(s.u, Step(s, e).u) && Step(s, e).u.notices == s.u.notices
  {
    match e.ev
    case Reloading(forget, line) => ReloadSilent(if forget then ThrottleForgotten(s.u) else s.u, line);
    case _ =>
  }

  lemma ReloadSilent(u: Ups, l: Line)
    ensures TimesKept(u, Redefined(u, l)) && Redefined(u, l).notices == u.notices
  {
  }

  // ----- the runs -----

  /** Event `j` tells the notice. */
  predicate TellsAt(s: St, es: seq<Timed>, n: Notice, j: nat)
    requires j < |es|
  {
    TimesTold(Run(s, es[..j + 1]).u.notices, n) > TimesTold(Run(s, es[..j]).u.notices, n)
  }

  function ToldAt(s: St, es: seq<Timed>, n: Notice): (counts: seq<bool>)
    ensures |counts| == |es|
  {
    seq(|es|, j requires 0 <= j < |es| => TellsAt(s, es, n, j))
  }

  function FsdSays(es: seq<Timed>): (ss: seq<Said>)
    ensures |ss| == |es|
  {
    seq(|es|, i requires 0 <= i < |es| => FsdSaid(es[i]))
  }

  predicate Sane(es: seq<Timed>)
  {
    Ordered(es) && forall i | 0 <= i < |es| :: es[i].now >= 1 && es[i].c.rbwarntime >= 0
  }

  /** What holds the reminders back is what was told. */
  ghost predicate Reminded(s: St, es: seq<Timed>, n: nat)
    requires n <= |es|
  {
    var u := Run(s, es[..n]).u;
    && (u.lastfsdnotify != 0 <==> IsLeft(FsdSays(es), n))
    && (FSD in u.status ==> u.lastfsdnotify != 0)
    && Latest(u.lastrbwarn, ToldAt(s, es, NotifyReplBatt), es, n)
    && Latest(u.lastncwarn, ToldAt(s, es, NotifyNoComm), es, n)
  }

  /** What event `j` does, from what was told before it. */
  predicate TellsRightly(s: St, es: seq<Timed>, j: nat)
    requires j < |es|
  {
    var e, u := es[j], Run(s, es[..j]).u;
    && (TellsAt(s, es, NotifyFsd, j) <==> FsdSaid(e).named && (FsdSaid(e).ended || !IsLeft(FsdSays(es), j)))
    && (TellsAt(s, es, NotifyReplBatt, j) <==> NamesBattery(e.ev) && e.now - u.lastrbwarn > e.c.rbwarntime)
    && (TellsAt(s, es, NotifyNoComm, j) <==> FindsGone(e.ev) && GoneIsDue(u, e.c, e.now))
  }

  lemma FlagStays(s: St, e: Timed)
    requires !Answers(e.ev)
    ensures FSD in Step(s, e).u.status ==> FSD in s.u.status
  {
    match e.ev
    case Reloading(forget, line) => ReloadFsd(if forget then ThrottleForgotten(s.u) else s.u, line);
    case _ =>
  }

  lemma ReloadFsd(u: Ups, l: Line)
    ensures FSD in Redefined(u, l).status <==> FSD in u.status
  {
  }

  lemma StatusFlag(s: St, e: Timed)
    requires Answers(e.ev)
    ensures FSD in Step(s, e).u.status <==> FsdSaid(e).named || (FSD in s.u.status && !FsdSaid(e).ended)
  {
    var s0 := s.(u := s.u.(throttleState := ERR_NONE, throttleCount := -1));
    ParsedFlagsExact(e.c, s0, e.ev.status, e.ev.eco, e.now, FSD);
  }

  /** The fields of the reminders after an event, from those before it. */
  predicate Moves(u: Ups, v: Ups, e: Timed)
  {
    var said, r, t := FsdSaid(e), RemindOf(u), RemindOf(v);
    var tells := said.named && (said.ended || r.lastfsdnotify == 0);
    var battery := NamesBattery(e.ev) && e.now - r.lastrbwarn > e.c.rbwarntime;
    var gone := FindsGone(e.ev) && GoneIsDue(u, e.c, e.now);
    && t.fsd == r.fsd + (if tells then 1 else 0)
    && t.lastfsdnotify == (if tells then e.now else if said.ended then 0 else r.lastfsdnotify)
    && t.battery == r.battery + (if battery then 1 else 0) && t.lastrbwarn == (if battery then e.now else r.lastrbwarn)
    && t.nocomm == r.nocomm + (if gone then 1 else 0) && t.lastncwarn == (if gone then e.now else r.lastncwarn)
    && (FSD in v.status ==> v.lastfsdnotify != 0)
  }

  lemma EventMoves(s: St, e: Timed)
    requires e.now >= 1 && e.c.rbwarntime >= 0 && (FSD in s.u.status ==> s.u.lastfsdnotify != 0)
    ensures Moves(s.u, Step(s, e).u, e)
  {
    var v := Step(s, e).u;
    assert RemindOf(v).lastfsdnotify == v.lastfsdnotify;
    if Answers(e.ev) {
      StatusReminds(s, e);
      StatusFlag(s, e);
    } else {
      FlagStays(s, e);
      if FindsGone(e.ev) {
        GoneEventReminds(s, e);
      } else {
        OtherReminds(s, e);
      }
    }
  }

  lemma ToldRightly(s: St, es: seq<Timed>, n: nat)
    requires n < |es| && Sane(es) && Reminded(s, es, n)
    ensures TellsRightly(s, es, n)
    ensures Moves(Run(s, es[..n]).u, Run(s, es[..n + 1]).u, es[n])
  {
    var before := Run(s, es[..n]);
    PrefixStep(s, es, n);
    EventMoves(before, es[n]);
    var r, t := RemindOf(before.u), RemindOf(Step(before, es[n]).u);
    assert r.fsd == TimesTold(before.u.notices, NotifyFsd);
  }

  lemma RemindedStep(s: St, es: seq<Timed>, n: nat)
    requires n < |es| && Sane(es) && Reminded(s, es, n)
    ensures Reminded(s, es, n + 1)
  {
    var u, v := Run(s, es[..n]).u, Run(s, es[..n + 1]).u;
    ToldRightly(s, es, n);
    assert RemindOf(u).lastrbwarn == u.lastrbwarn && RemindOf(v).lastrbwarn == v.lastrbwarn;
    assert RemindOf(u).lastncwarn == u.lastncwarn && RemindOf(v).lastncwarn == v.lastncwarn;
    assert RemindOf(u).lastfsdnotify == u.lastfsdnotify && RemindOf(v).lastfsdnotify == v.lastfsdnotify;
    LeftStep(FsdSays(es), n);
    LatestStep(u.lastrbwarn, v.lastrbwarn, ToldAt(s, es, NotifyReplBatt), es, n);
    LatestStep(u.lastncwarn, v.lastncwarn, ToldAt(s, es, NotifyNoComm), es, n);
  }

  /** Nothing was told yet. */
  predicate Untold(u: Ups)
  {
    u.lastfsdnotify == 0 && u.lastrbwarn == 0 && u.lastncwarn == 0 && FSD !in u.status
  }

  lemma NothingReminded(s: St, es: seq<Timed>)
    requires Untold(s.u)
    ensures Reminded(s, es, 0)
  {
    assert es[..0] == [] && Run(s, []) == s;
  }

  lemma {:induction false} RunReminds(s: St, es: seq<Timed>, n: nat)
    requires Untold(s.u) && Sane(es) && n <= |es|
    ensures Reminded(s, es, n)
    decreases n
  {
    if n > 0 {
      RunReminds(s, es, n - 1);
      RemindedStep(s, es, n - 1);
    } else {
      NothingReminded(s, es);
    }
  }

  /** More than `d` has passed since the notice was told, by the events before `j`. */
  predicate DueAfter(s: St, es: seq<Timed>, n: Notice, j: nat, d: int)
    requires j < |es|
  {
    es[j].now > d && forall i | 0 <= i < j && ToldAt(s, es, n)[i] :: es[j].now - es[i].now > d
  }

  /** Main result: in every run from its MONITOR line on, FSD is told exactly when a status names it
      or the server confirms the command, unless that happened already since the last status
      without it; a battery to be replaced exactly when a status says so and none was told within
      RBWARNTIME; a lasting loss exactly when a poll finds the device gone that was gone before,
      not heard from for NOCOMMWARNTIME, and none was told within that time. */
  lemma RemindersExact(s: St, from: int, es: seq<Timed>, j: nat)
    requires IsNew(s.u) && 0 < from && Clocked(from, es) && j < |es|
    requires forall i | 0 <= i < |es| :: es[i].c.rbwarntime >= 0
    ensures var e, u := es[j], Run(s, es[..j]).u;
      && (TellsAt(s, es, NotifyFsd, j) <==> FsdSaid(e).named && (FsdSaid(e).ended || !IsLeft(FsdSays(es), j)))
      && (TellsAt(s, es, NotifyReplBatt, j)
          <==> NamesBattery(e.ev) && DueAfter(s, es, NotifyReplBatt, j, e.c.rbwarntime))
      && (TellsAt(s, es, NotifyNoComm, j)
          <==> FindsGone(e.ev) && u.commstate == 0 && e.now - u.lastpoll >= e.c.nocommwarntime
               && DueAfter(s, es, NotifyNoComm, j, e.c.nocommwarntime))
  {
    ClockOrders(from, es);
    RunReminds(s, es, j);
    ToldRightly(s, es, j);
    var u := Run(s, es[..j]).u;
    DueIs(s, es, NotifyReplBatt, j, u.lastrbwarn, es[j].c.rbwarntime);
    DueIs(s, es, NotifyNoComm, j, u.lastncwarn, es[j].c.nocommwarntime);
  }

  lemma DueIs(s: St, es: seq<Timed>, n: Notice, j: nat, t: int, d: int)
    requires j < |es| && Latest(t, ToldAt(s, es, n), es, j)
    ensures es[j].now - t > d <==> DueAfter(s, es, n, j, d)
  {
  }
}
