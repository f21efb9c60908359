/** Runs of one device through everything upsmon does to it, and what every run keeps. */
module UpsRuns {
  import opened Text
  import opened UpsState
  import opened UpsStatus

  datatype Event =
    | Connecting(how: Connection)
    | Polled(status: string, eco: bool)
    | Failing(err: int, lost: bool)
    | Recalc
    | SettingFsd(confirmed: bool)
    | Reloading(forget: bool, line: Line)
    | Waking

  /** An event at its clock reading, under the configuration of that moment. */
  datatype Timed = Timed(now: int, c: Config, ev: Event)

  function Step(s: St, e: Timed): St
  {
    match e.ev
    case Connecting(how) => s.(u := Connected(e.c, s.u, how, e.now))
    case Polled(status, eco) => PollSucceeded(e.c, s, status, eco, e.now)
    case Failing(err, lost) => s.(u := PollFailed(e.c, s.u, err, lost, e.now))
    case Recalc => Recalculated(e.c, s, e.now)
    case SettingFsd(confirmed) => s.(u := FsdSet(s.u, confirmed, e.now))
    case Reloading(forget, line) =>
      s.(u := Redefined(if forget then ThrottleForgotten(s.u) else s.u, line))
    case Waking => s.(u := Woken(s.u, e.now))
  }

  function Run(s: St, es: seq<Timed>): St
    decreases |es|
  {
    if es == [] then s else Run(Step(s, es[0]), es[1..])
  }

  /** The clock never runs backwards. */
  predicate Clocked(from: int, es: seq<Timed>)
    decreases |es|
  {
    es == [] || (from <= es[0].now && Clocked(es[0].now, es[1..]))
  }

  function LastTime(from: int, es: seq<Timed>): int
  {
    if es == [] then from else es[|es| - 1].now
  }

  predicate NoWakeUp(es: seq<Timed>)
  {
    forall i | 0 <= i < |es| :: !es[i].ev.Waking?
  }

  /** A device as its MONITOR line makes it. */
  predicate IsNew(u: Ups)
  {
    u == NewUps(u.sys, u.pv, u.un, u.pw, PRIMARY in u.status)
  }

  /** A status comes in. */
  predicate Answers(ev: Event)
  {
    ev.Polled? && ev.status != ""
  }

  lemma {:induction false} RunAppend(s: St, es: seq<Timed>, e: Timed)
    ensures Run(s, es + [e]) == Step(Run(s, es), e)
    decreases |es|
  {
    if es == [] {
      assert es + [e] == [e] && [e][1..] == [];
    } else {
      assert (es + [e])[1..] == es[1..] + [e];
      RunAppend(Step(s, es[0]), es[1..], e);
    }
  }

  lemma PrefixStep(s: St, es: seq<Timed>, n: nat)
    requires n < |es|
    ensures Run(s, es[..n + 1]) == Step(Run(s, es[..n]), es[n])
  {
    assert es[..n + 1] == es[..n] + [es[n]];
    RunAppend(s, es[..n], es[n]);
  }

  // ----- what handling a status does not touch -----

  datatype Kept = Kept(
    sys: string, pv: nat, retain: bool, commstate: int, throttleState: int, throttleCount: int,
    lastpoll: int, lastncwarn: int, oblbsince: int, roles: set<Flag>)

  function KeptOf(u: Ups): Kept
  {
    Kept(u.sys, u.pv, u.retain, u.commstate, u.throttleState, u.throttleCount,
         u.lastpoll, u.lastncwarn, u.oblbsince, u.status * {PRIMARY, LOGIN, CLICONNECTED})
  }

  lemma TokenKeeps(c: Config, s: St, tok: Token, now: int)
    ensures var u := HandleToken(c, s, tok, now).u;
      KeptOf(u) == KeptOf(s.u) && u.lastnoncrit == s.u.lastnoncrit
  {
  }

  lemma {:induction false} WordsKeep(c: Config, s: St, words: seq<string>, now: int)
    ensures var u := HandleWords(c, s, words, now).u;
      KeptOf(u) == KeptOf(s.u) && (u.lastnoncrit == s.u.lastnoncrit || u.lastnoncrit == now)
    decreases |words|
  {
    if words != [] {
      var next := HandleToken(c, s, Classify(words[0]), now);
      TokenKeeps(c, s, Classify(words[0]), now);
      WordsKeep(c, next.(u := UpdateCritTimer(next.u, now)), words[1..], now);
    }
  }

  lemma ClearedKeeps(c: Config, s: St, f: Flag)
    requires f in CLEARED
    ensures var u := Cleared(c, s, f).u;
      KeptOf(u) == KeptOf(s.u) && u.lastnoncrit == s.u.lastnoncrit
  {
  }

  lemma {:induction false} ClearAllKeeps(c: Config, s: St, order: seq<Flag>, status: string)
    requires forall i | 0 <= i < |order| :: order[i] in CLEARED
    ensures var u := ClearAll(c, s, order, status).u;
      KeptOf(u) == KeptOf(s.u) && u.lastnoncrit == s.u.lastnoncrit
    decreases |order|
  {
    if order != [] {
      ClearedKeeps(c, s, order[0]);
      ClearAllKeeps(c, ClearedUnlessNamed(c, s, order[0], status), order[1..], status);
    }
  }

  lemma ClearingKeeps(c: Config, s: St, status: string, eco: bool)
    ensures var u := ClearMissing(c, s, status, eco).u;
      KeptOf(u) == KeptOf(s.u) && u.lastnoncrit == s.u.lastnoncrit
  {
    var s0 := s.(u := ClearedSilently(s.u, status));
    assert KeptOf(s0.u) == KeptOf(s.u) && s0.u.lastnoncrit == s.u.lastnoncrit;
    ClearAllKeeps(c, s0, CLEAR_ORDER, status);
    EcoKeeps(c, ClearAll(c, s0, CLEAR_ORDER, status), status, eco);
  }

  lemma EcoKeeps(c: Config, s: St, status: string, eco: bool)
    ensures var u := UpdateEco(c, s, status, eco).u;
      KeptOf(u) == KeptOf(s.u) && u.lastnoncrit == s.u.lastnoncrit
  {
  }

  /** A successful poll: the device communicates, was last polled now, and was last not
      critical either now or when it was before. */
  lemma PollKeeps(c: Config, s: St, status: string, eco: bool, now: int)
    requires status != ""
    ensures var u := PollSucceeded(c, s, status, eco, now).u;
      && KeptOf(u) == KeptOf(s.u).(lastpoll := now, commstate := 1, throttleState := ERR_NONE, throttleCount := -1)
      && (u.lastnoncrit == s.u.lastnoncrit || u.lastnoncrit == now)
  {
    var s0 := s.(u := s.u.(throttleState := ERR_NONE, throttleCount := -1));
    var alive := IsAlive(s0, now);
    assert KeptOf(alive.u) == KeptOf(s0.u).(lastpoll := now, commstate := 1);
    ClearingKeeps(c, alive, status, eco);
    WordsKeep(c, ClearMissing(c, alive, status, eco), Split(status, ' '), now);
  }

  // ----- the line flags exclude each other -----

  lemma RedefinedLine(u: Ups, l: Line, f: Flag)
    requires f in {ONLINE, ONBATT}
    ensures f in Redefined(u, l).status <==> f in u.status
  {
  }

  lemma LineUntouched(s: St, e: Timed, f: Flag)
    requires !e.ev.Polled? && f in {ONLINE, ONBATT}
    ensures f in Step(s, e).u.status ==> f in s.u.status
  {
    match e.ev
    case Reloading(forget, line) =>
      RedefinedLine(if forget then ThrottleForgotten(s.u) else s.u, line, f);
    case _ =>
  }

  /** Over every run, wake-ups included, ONLINE and ONBATT are never both set. */
  lemma {:induction false} RunKeepsOneLine(s: St, es: seq<Timed>)
    requires OneLine(s.u)
    ensures OneLine(Run(s, es).u)
    decreases |es|
  {
    if es != [] {
      StepKeepsOneLine(s, es[0]);
      RunKeepsOneLine(Step(s, es[0]), es[1..]);
    }
  }

  lemma StepKeepsOneLine(s: St, e: Timed)
    requires OneLine(s.u)
    ensures OneLine(Step(s, e).u)
  {
    match e.ev
    case Polled(status, eco) =>
      if status != "" {
        ParsedLineExact(e.c, s.(u := s.u.(throttleState := ERR_NONE, throttleCount := -1)), status, eco, e.now);
      }
    case _ =>
      LineUntouched(s, e, ONLINE);
      LineUntouched(s, e, ONBATT);
  }

  /** So whatever happened to a device before, after a status of standard words its flags
      are what the words say. */
  lemma {:induction false} StatusTellsAfterAnyRun(s: St, es: seq<Timed>, c: Config, words: seq<string>, eco: bool,
                                                  now: int, f: Flag)
    requires OneLine(s.u) && AllStandard(words) && words != [] && f in CLEARED
    ensures var before, u := Run(s, es).u, Step(Run(s, es), Timed(now, c, Polled(Join(words, ' '), eco))).u;
      var last := LastLine(words);
      && (f in u.status <==> NameOf(f) in words)
      && (ONLINE in u.status <==> if last == None then ONLINE in before.status else last == Some(TokOL))
      && (ONBATT in u.status <==> if last == None then ONBATT in before.status else last == Some(TokOB))
  {
    RunKeepsOneLine(s, es);
    var r := Run(s, es);
    var s0 := r.(u := r.u.(throttleState := ERR_NONE, throttleCount := -1));
    StandardFlags(c, s0, words, eco, now, f);
    StandardLine(c, s0, words, eco, now);
  }

  // ----- the flags only a status touches -----

  lemma RedefinedFlags(u: Ups, line: Line)
    ensures var v := Redefined(u, line);
      v.status - {PRIMARY, LOGIN, CLICONNECTED} == u.status - {PRIMARY, LOGIN, CLICONNECTED} &&
      v.notices == u.notices && v.linestate == u.linestate
  {
  }

  const OWN := {PRIMARY, LOGIN, CLICONNECTED, LOWBATT}

  lemma ReloadKeepsFlags(u: Ups, l: Line)
    ensures Redefined(u, l).status - OWN == u.status - OWN
  {
    RedefinedFlags(u, l);
    var v := Redefined(u, l);
    assert v.status - OWN == (v.status - {PRIMARY, LOGIN, CLICONNECTED}) - {LOWBATT};
    assert u.status - OWN == (u.status - {PRIMARY, LOGIN, CLICONNECTED}) - {LOWBATT};
  }

  lemma ConnectingKeepsFlags(c: Config, u: Ups, how: Connection, now: int)
    ensures Connected(c, u, how, now).status - OWN == u.status - OWN
  {
  }

  /** Nothing but a status, or a wake-up, does. */
  lemma OthersKeepFlags(s: St, e: Timed)
    requires !Answers(e.ev) && !e.ev.Waking?
    ensures Step(s, e).u.status - OWN == s.u.status - OWN
  {
    match e.ev
    case Connecting(how) => ConnectingKeepsFlags(e.c, s.u, how, e.now);
    case Reloading(forget, line) => ReloadKeepsFlags(if forget then ThrottleForgotten(s.u) else s.u, line);
    case _ =>
  }

  // ----- a dead device is found -----

  /** The timers never get ahead of each other or of the clock. */
  predicate TimersInOrder(u: Ups, clock: int)
  {
    u.lastnoncrit <= u.lastpoll <= clock
  }

  lemma StepKeepsTimers(s: St, e: Timed)
    requires TimersInOrder(s.u, e.now)
    ensures TimersInOrder(Step(s, e).u, e.now)
  {
    match e.ev
    case Polled(status, eco) =>
      if status != "" {
        PollKeeps(e.c, s, status, eco, e.now);
        assert KeptOf(Step(s, e).u).lastpoll == e.now;
      }
    case _ =>
  }

  lemma {:induction false} RunKeepsTimers(s: St, from: int, es: seq<Timed>)
    requires TimersInOrder(s.u, from) && Clocked(from, es)
    ensures TimersInOrder(Run(s, es).u, LastTime(from, es)) && from <= LastTime(from, es)
    decreases |es|
  {
    if es != [] {
      StepKeepsTimers(s, es[0]);
      RunKeepsTimers(Step(s, es[0]), es[0].now, es[1..]);
    }
  }

  /** What the verdict comes to for a primary past DEADTIME, with no OB+LB delay: a device last
      seen on battery is critical unless it communicates, calibrates, and nothing else
      condemns it. */
  lemma DeadPrimaryExact(c: Config, u: Ups, now: int)
    requires c.oblbduration <= 0 && now - u.lastpoll > c.deadtime
    requires ONBATT in u.status && PRIMARY in u.status
    ensures JudgedCritical(c, u, now)
      <==> FSD in u.status || OffTooLong(c, u) || CAL !in u.status || u.commstate == 0
  {
  }

  /** Main result: over any run, a device last seen on battery, and not both communicating and calibrating,
      is judged critical once it has been silent for longer than DEADTIME, where this host is
      its primary, and for longer than HOSTSYNC too, where it is a secondary. */
  lemma DeadDeviceIsFound(s: St, from: int, es: seq<Timed>, c: Config, now: int)
    requires TimersInOrder(s.u, from) && Clocked(from, es) && LastTime(from, es) <= now
    requires c.oblbduration <= 0
    requires var u := Run(s, es).u;
      && ONBATT in u.status && !(u.commstate != 0 && CAL in u.status)
      && now - u.lastpoll > c.deadtime && (PRIMARY in u.status || now - u.lastpoll > c.hostsync)
    ensures JudgedCritical(c, Run(s, es).u, now)
  {
    RunKeepsTimers(s, from, es);
  }

  /** A new device's timers are in order from any clock reading on. */
  lemma NewUpsTimers(sys: string, pv: nat, un: string, pw: string, primary: bool, from: int)
    requires from >= 0
    ensures TimersInOrder(NewUps(sys, pv, un, pw, primary), from)
  {
  }

  /** So from its MONITOR line on, whatever happens to a device, its silence on battery is found. */
  lemma DeadFromTheStart(l: Line, sleepval: nat, from: int, es: seq<Timed>, c: Config, now: int)
    requires 0 <= from && Clocked(from, es) && LastTime(from, es) <= now && c.oblbduration <= 0
    requires var u := Run(St(NewUps(l.sys, l.pv, l.un, l.pw, l.role == Primary), sleepval), es).u;
      && ONBATT in u.status && !(u.commstate != 0 && CAL in u.status)
      && now - u.lastpoll > c.deadtime && (PRIMARY in u.status || now - u.lastpoll > c.hostsync)
    ensures JudgedCritical(c, Run(St(NewUps(l.sys, l.pv, l.un, l.pw, l.role == Primary), sleepval), es).u, now)
  {
    NewUpsTimers(l.sys, l.pv, l.un, l.pw, l.role == Primary, from);
    DeadDeviceIsFound(St(NewUps(l.sys, l.pv, l.un, l.pw, l.role == Primary), sleepval), from, es, c, now);
  }

  // ----- the latest of some events -----

  /** More than `d` has passed since every event that counts. */
  predicate LongSince(counts: seq<bool>, es: seq<Timed>, d: int, now: int)
    requires |counts| == |es|
  {
    now > d && forall j | 0 <= j < |es| && counts[j] :: now - es[j].now > d
  }

  /** The field holds the time of the last event that counts, or none. */
  predicate Latest(t: int, counts: seq<bool>, es: seq<Timed>, n: nat)
    requires n <= |es| == |counts|
  {
    && t >= 0
    && (forall j | 0 <= j < n && counts[j] :: es[j].now <= t)
    && (t == 0 || exists j | 0 <= j < n :: counts[j] && es[j].now == t)
  }

  lemma NoneYet(counts: seq<bool>, es: seq<Timed>)
    requires |counts| == |es|
    ensures Latest(0, counts, es, 0)
  {
  }

  lemma NothingRun(s: St, es: seq<Timed>)
    ensures Run(s, es[..0]) == s
  {
    assert es[..0] == [];
  }

  lemma LatestStep(t: int, v: int, counts: seq<bool>, es: seq<Timed>, n: nat)
    requires n < |es| == |counts| && Latest(t, counts, es, n) && Ordered(es) && es[n].now >= 1
    requires v == if counts[n] then es[n].now else t
    ensures Latest(v, counts, es, n + 1)
  {
    if !counts[n] && t != 0 {
      var j :| 0 <= j < n && counts[j] && es[j].now == t;
      assert counts[j] && es[j].now == v;
    }
  }

  lemma LatestIsLongAgo(t: int, counts: seq<bool>, es: seq<Timed>, d: int, now: int)
    requires |es| == |counts| && Latest(t, counts, es, |es|)
    ensures now - t > d <==> LongSince(counts, es, d, now)
  {
  }

  predicate Ordered(es: seq<Timed>)
  {
    forall i, j | 0 <= i < j < |es| :: es[i].now <= es[j].now
  }

  lemma {:induction false} ClockOrders(from: int, es: seq<Timed>)
    requires Clocked(from, es)
    ensures Ordered(es) && forall i | 0 <= i < |es| :: from <= es[i].now <= LastTime(from, es)
    decreases |es|
  {
    if es != [] {
      var rest := es[1..];
      ClockOrders(es[0].now, rest);
      assert forall i | 1 <= i < |es| :: es[i] == rest[i - 1];
      assert LastTime(from, es) == LastTime(es[0].now, rest);
    }
  }
}
