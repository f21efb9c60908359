/** The verdict on a device, read off the events of its run. */
module UpsVerdict {
  import opened Text
  import opened UpsState
  import opened UpsStatus
  import opened UpsRuns
  import opened Stretches

  // ----- what the statuses say of a flag -----

  function SaidOf(e: Timed, f: Flag): Said
    requires f in CLEARED
  {
    Said(Answers(e.ev) && HasToken(Split(e.ev.status, ' '), TokenOf(f)),
         Answers(e.ev) && !Contains(e.ev.status, NameOf(f)),
         e.ev.Waking?, e.now, e.c.offduration)
  }

  function Says(es: seq<Timed>, f: Flag): (ss: seq<Said>)
    requires f in CLEARED
    ensures |ss| == |es|
  {
    seq(|es|, i requires 0 <= i < |es| => SaidOf(es[i], f))
  }

  // ----- the fields behind the verdict -----

  /** What the verdict reads besides the flags. */
  datatype Traces = Traces(
    offsince: int, offstate: int, oversince: int, overstate: int, alarmstate: int, bypassstate: int)

  function TracesOf(u: Ups): Traces
  {
    Traces(u.offsince, u.offstate, u.oversince, u.overstate, u.alarmstate, u.bypassstate)
  }

  lemma ReloadTraces(u: Ups, l: Line)
    ensures TracesOf(Redefined(u, l)) == TracesOf(u)
  {
  }

  lemma OtherEventsTrace(s: St, e: Timed)
    requires !Answers(e.ev)
    ensures TracesOf(Step(s, e).u) == TracesOf(s.u)
  {
    match e.ev
    case Reloading(forget, line) => ReloadTraces(if forget then ThrottleForgotten(s.u) else s.u, line);
    case _ =>
  }

  function TracesWithout(t: Traces, f: Flag): Traces
  {
    match f
    case OFF => t.(offsince := 0, offstate := 0)
    case OVER => t.(oversince := 0, overstate := 0)
    case ALARM => t.(alarmstate := 0)
    case BYPASS => t.(bypassstate := 0)
    case _ => t
  }

  lemma ClearedTraces(c: Config, s: St, f: Flag, status: string)
    requires f in CLEARED
    ensures TracesOf(ClearedUnlessNamed(c, s, f, status).u)
      == if Contains(status, NameOf(f)) then TracesOf(s.u) else TracesWithout(TracesOf(s.u), f)
  {
  }

  function TracesCleared(t: Traces, order: seq<Flag>, status: string): Traces
    requires forall i | 0 <= i < |order| :: order[i] in CLEARED
    decreases |order|
  {
    if order == [] then t
    else TracesCleared(if Contains(status, NameOf(order[0])) then t else TracesWithout(t, order[0]), order[1..], status)
  }

  lemma {:induction false} ClearAllTraces(c: Config, s: St, order: seq<Flag>, status: string)
    requires forall i | 0 <= i < |order| :: order[i] in CLEARED
    ensures TracesOf(ClearAll(c, s, order, status).u) == TracesCleared(TracesOf(s.u), order, status)
    decreases |order|
  {
    if order != [] {
      ClearedTraces(c, s, order[0], status);
      ClearAllTraces(c, ClearedUnlessNamed(c, s, order[0], status), order[1..], status);
    }
  }

  /** Of each flag, nothing is left that the text does not name. */
  function Unended(t: Traces, off: bool, over: bool, alarm: bool, bypass: bool): Traces
  {
    Traces(if off then t.offsince else 0, if off then t.offstate else 0, if over then t.oversince else 0,
           if over then t.overstate else 0, if alarm then t.alarmstate else 0, if bypass then t.bypassstate else 0)
  }

  function UnendedIn(t: Traces, status: string): Traces
  {
    Unended(t, Contains(status, NameOf(OFF)), Contains(status, NameOf(OVER)),
            Contains(status, NameOf(ALARM)), Contains(status, NameOf(BYPASS)))
  }

  lemma ClearingTraces(c: Config, s: St, status: string, eco: bool)
    ensures TracesOf(ClearMissing(c, s, status, eco).u) == UnendedIn(TracesOf(s.u), status)
  {
    var s0 := s.(u := ClearedSilently(s.u, status));
    ClearAllTraces(c, s0, CLEAR_ORDER, status);
    OrderTraces(TracesOf(s0.u), status);
    assert TracesOf(s0.u) == TracesOf(s.u);
    EcoTraces(c, ClearAll(c, s0, CLEAR_ORDER, status), status, eco);
  }

  lemma InOrder()
    ensures OFF in CLEAR_ORDER && OVER in CLEAR_ORDER && ALARM in CLEAR_ORDER && BYPASS in CLEAR_ORDER
  {
    assert CLEAR_ORDER[1] == OFF && CLEAR_ORDER[2] == BYPASS && CLEAR_ORDER[3] == ALARM && CLEAR_ORDER[4] == OVER;
  }

  lemma OrderTraces(t: Traces, status: string)
    ensures TracesCleared(t, CLEAR_ORDER, status) == UnendedIn(t, status)
  {
    ClearedIsUnended(t, CLEAR_ORDER, status);
    InOrder();
  }

  lemma EcoTraces(c: Config, s: St, status: string, eco: bool)
    ensures TracesOf(UpdateEco(c, s, status, eco).u) == TracesOf(s.u)
  {
  }

  predicate Unmissed(f: Flag, order: seq<Flag>, status: string)
    requires f in CLEARED
  {
    f !in order || Contains(status, NameOf(f))
  }

  lemma {:induction false} ClearedIsUnended(t: Traces, order: seq<Flag>, status: string)
    requires forall i | 0 <= i < |order| :: order[i] in CLEARED
    ensures TracesCleared(t, order, status)
      == Unended(t, Unmissed(OFF, order, status), Unmissed(OVER, order, status),
                 Unmissed(ALARM, order, status), Unmissed(BYPASS, order, status))
    decreases |order|
  {
    if order != [] {
      HeadTail(order);
      var next := if Contains(status, NameOf(order[0])) then t else TracesWithout(t, order[0]);
      ClearedIsUnended(next, order[1..], status);
    }
  }

  /** What the words add: a flag not set starts a stretch now, and one that is set may turn out
      to be off for too long. */
  function TracesNamed(c: Config, u: Ups, off: bool, over: bool, alarm: bool, bypass: bool, now: int): Traces
  {
    Traces(
      if off && OFF !in u.status then now else u.offsince,
      if !off then u.offstate
      else if OFF !in u.status then (if c.offduration == 0 then 1 else u.offstate)
      else if c.offduration > 0 && now - u.offsince > c.offduration then 1
      else u.offstate,
      if over && OVER !in u.status then now else u.oversince,
      if over && OVER !in u.status then 1 else u.overstate,
      if alarm && ALARM !in u.status then 1 else u.alarmstate,
      if bypass && BYPASS !in u.status then 1 else u.bypassstate)
  }

  /** The times kept are times. */
  predicate Dated(u: Ups)
  {
    (OFF in u.status ==> u.offsince >= 1) && (OVER in u.status ==> u.oversince >= 1)
  }

  lemma TokenTraces(c: Config, s: St, tok: Token, now: int)
    requires Dated(s.u) && now >= 1
    ensures var u := HandleToken(c, s, tok, now).u;
      Dated(u) &&
      TracesOf(u) == TracesNamed(c, s.u, tok == TokOFF, tok == TokOVER, tok == TokALARM, tok == TokBYPASS, now)
  {
    match tok
    case TokOFF =>
    case TokOVER =>
    case TokOL =>
    case TokOB =>
    case _ =>
  }

  /** The four flags as a token leaves them. */
  predicate TokenSets(u: Ups, v: Ups, tok: Token)
  {
    && (OFF in v.status <==> OFF in u.status || tok == TokOFF)
    && (OVER in v.status <==> OVER in u.status || tok == TokOVER)
    && (ALARM in v.status <==> ALARM in u.status || tok == TokALARM)
    && (BYPASS in v.status <==> BYPASS in u.status || tok == TokBYPASS)
  }

  lemma TracesTwice(c: Config, u: Ups, v: Ups, tok: Token, off: bool, over: bool, alarm: bool, bypass: bool, now: int)
    requires Dated(u) && now >= 1 && TokenSets(u, v, tok)
    requires TracesOf(v) == TracesNamed(c, u, tok == TokOFF, tok == TokOVER, tok == TokALARM, tok == TokBYPASS, now)
    ensures TracesNamed(c, v, off, over, alarm, bypass, now)
      == TracesNamed(c, u, tok == TokOFF || off, tok == TokOVER || over, tok == TokALARM || alarm,
                     tok == TokBYPASS || bypass, now)
  {
    assert v.offsince == TracesOf(v).offsince && v.offstate == TracesOf(v).offstate;
    assert v.oversince == TracesOf(v).oversince && v.overstate == TracesOf(v).overstate;
    assert v.alarmstate == TracesOf(v).alarmstate && v.bypassstate == TracesOf(v).bypassstate;
  }

  lemma {:induction false} WordsTrace(c: Config, s: St, words: seq<string>, now: int)
    requires Dated(s.u) && now >= 1
    ensures var u := HandleWords(c, s, words, now).u;
      Dated(u) &&
      TracesOf(u) == TracesNamed(c, s.u, HasToken(words, TokOFF), HasToken(words, TokOVER),
                                 HasToken(words, TokALARM), HasToken(words, TokBYPASS), now)
    decreases |words|
  {
    if words != [] {
      var tok, rest := Classify(words[0]), words[1..];
      var next := HandleToken(c, s, tok, now);
      TokenTraces(c, s, tok, now);
      TokenSetsThem(c, s, tok, now);
      var timed := next.(u := UpdateCritTimer(next.u, now));
      TracesTwice(c, s.u, timed.u, tok, HasToken(rest, TokOFF), HasToken(rest, TokOVER),
                  HasToken(rest, TokALARM), HasToken(rest, TokBYPASS), now);
      WordsTrace(c, timed, rest, now);
    }
  }

  lemma TokenSetsThem(c: Config, s: St, tok: Token, now: int)
    ensures TokenSets(s.u, HandleToken(c, s, tok, now).u, tok)
  {
    TokenFlags(c, s, tok, now, OFF);
    TokenFlags(c, s, tok, now, OVER);
    TokenFlags(c, s, tok, now, ALARM);
    TokenFlags(c, s, tok, now, BYPASS);
  }

  // ----- one status -----

  /** What an event makes of a mark that is left while its flag is set. */
  predicate MarkMoves(before: int, after: int, kept: bool, said: Said)
  {
    after == if said.named && !kept then 1 else if said.ended then 0 else before
  }

  predicate SinceMoves(before: int, after: int, kept: bool, said: Said)
  {
    after == if said.named && !kept then said.now else if said.ended then 0 else before
  }

  predicate OffMoves(u: Ups, v: Ups, kept: bool, said: Said)
  {
    v.offstate == if said.named && kept then
                    (if said.duration > 0 && said.now - u.offsince > said.duration then 1 else u.offstate)
                  else if said.named && said.duration == 0 then 1
                  else if said.ended then 0
                  else u.offstate
  }

  predicate Kept(u: Ups, f: Flag, said: Said)
  {
    f in u.status && !said.ended
  }

  predicate AllMove(u: Ups, v: Ups, off: Said, over: Said, alarm: Said, bypass: Said)
  {
    && SinceMoves(u.offsince, v.offsince, Kept(u, OFF, off), off) && OffMoves(u, v, Kept(u, OFF, off), off)
    && SinceMoves(u.oversince, v.oversince, Kept(u, OVER, over), over)
    && MarkMoves(u.overstate, v.overstate, Kept(u, OVER, over), over)
    && MarkMoves(u.alarmstate, v.alarmstate, Kept(u, ALARM, alarm), alarm)
    && MarkMoves(u.bypassstate, v.bypassstate, Kept(u, BYPASS, bypass), bypass)
  }

  predicate TracesMove(u: Ups, v: Ups, e: Timed)
  {
    AllMove(u, v, SaidOf(e, OFF), SaidOf(e, OVER), SaidOf(e, ALARM), SaidOf(e, BYPASS))
  }

  /** The device when a status is taken, and when what it does not name is cleared. */
  function Taken(s: St, e: Timed): St
  {
    IsAlive(s.(u := s.u.(throttleState := ERR_NONE, throttleCount := -1)), e.now)
  }

  function ClearedBy(s: St, e: Timed): St
    requires Answers(e.ev)
  {
    ClearMissing(e.c, Taken(s, e), e.ev.status, e.ev.eco)
  }

  lemma StatusIs(s: St, e: Timed)
    requires Answers(e.ev)
    ensures Step(s, e) == HandleWords(e.c, ClearedBy(s, e), Split(e.ev.status, ' '), e.now)
    ensures TracesOf(Taken(s, e).u) == TracesOf(s.u) && Taken(s, e).u.status == s.u.status
    ensures Dated(s.u) ==> Dated(Taken(s, e).u)
  {
  }

  lemma StatusClears(s: St, e: Timed)
    requires Answers(e.ev) && Dated(s.u)
    ensures var w := ClearedBy(s, e).u;
      && Dated(w) && ClearedOf(s.u, w, e.ev.status) && TracesOf(w) == UnendedIn(TracesOf(s.u), e.ev.status)
  {
    StatusIs(s, e);
    ClearingTraces(e.c, Taken(s, e), e.ev.status, e.ev.eco);
    ClearedFlagsAre(e.c, Taken(s, e), e.ev.status, e.ev.eco);
  }

  lemma NamedIn(e: Timed, f: Flag, tok: Token)
    requires Answers(e.ev) && f in CLEARED && TokenOf(f) == tok
    ensures SaidOf(e, f).named == HasToken(Split(e.ev.status, ' '), tok)
  {
  }

  lemma TokensOfFour()
    ensures TokenOf(OFF) == TokOFF && TokenOf(OVER) == TokOVER
    ensures TokenOf(ALARM) == TokALARM && TokenOf(BYPASS) == TokBYPASS
  {
  }

  lemma StatusNames(w: St, e: Timed)
    requires Answers(e.ev) && Dated(w.u) && e.now >= 1
    ensures var v := HandleWords(e.c, w, Split(e.ev.status, ' '), e.now).u;
      && Dated(v)
      && TracesOf(v) == TracesNamed(e.c, w.u, SaidOf(e, OFF).named, SaidOf(e, OVER).named,
                                    SaidOf(e, ALARM).named, SaidOf(e, BYPASS).named, e.now)
  {
    TokensOfFour();
    NamedIn(e, OFF, TokOFF);
    NamedIn(e, OVER, TokOVER);
    NamedIn(e, ALARM, TokALARM);
    NamedIn(e, BYPASS, TokBYPASS);
    WordsTrace(e.c, w, Split(e.ev.status, ' '), e.now);
  }

  lemma ClearedIsKept(u: Ups, w: Ups, e: Timed)
    requires Answers(e.ev) && ClearedOf(u, w, e.ev.status) && TracesOf(w) == UnendedIn(TracesOf(u), e.ev.status)
    ensures OFF in w.status <==> Kept(u, OFF, SaidOf(e, OFF))
    ensures OVER in w.status <==> Kept(u, OVER, SaidOf(e, OVER))
    ensures ALARM in w.status <==> Kept(u, ALARM, SaidOf(e, ALARM))
    ensures BYPASS in w.status <==> Kept(u, BYPASS, SaidOf(e, BYPASS))
    ensures TracesOf(w) == Unended(TracesOf(u), !SaidOf(e, OFF).ended, !SaidOf(e, OVER).ended,
                                   !SaidOf(e, ALARM).ended, !SaidOf(e, BYPASS).ended)
  {
  }

  lemma StatusMoves(s: St, e: Timed)
    requires Answers(e.ev) && Dated(s.u) && e.now >= 1
    ensures Dated(Step(s, e).u) && TracesMove(s.u, Step(s, e).u, e)
  {
    var w := ClearedBy(s, e);
    StatusIs(s, e);
    StatusClears(s, e);
    StatusNames(w, e);
    ClearedIsKept(s.u, w.u, e);
    MovesFrom(s.u, w.u, Step(s, e).u, e.c, SaidOf(e, OFF), SaidOf(e, OVER), SaidOf(e, ALARM), SaidOf(e, BYPASS));
  }

  predicate ClearedOf(u: Ups, v: Ups, status: string)
  {
    && (OFF in v.status <==> OFF in u.status && Contains(status, NameOf(OFF)))
    && (OVER in v.status <==> OVER in u.status && Contains(status, NameOf(OVER)))
    && (ALARM in v.status <==> ALARM in u.status && Contains(status, NameOf(ALARM)))
    && (BYPASS in v.status <==> BYPASS in u.status && Contains(status, NameOf(BYPASS)))
  }

  lemma ClearedFlagsAre(c: Config, s: St, status: string, eco: bool)
    requires Dated(s.u)
    ensures ClearedOf(s.u, ClearMissing(c, s, status, eco).u, status)
    ensures Dated(ClearMissing(c, s, status, eco).u)
  {
    ClearingFlags(c, s, status, eco, OFF);
    ClearingFlags(c, s, status, eco, OVER);
    ClearingFlags(c, s, status, eco, ALARM);
    ClearingFlags(c, s, status, eco, BYPASS);
    ClearingTraces(c, s, status, eco);
    var v := ClearMissing(c, s, status, eco).u;
    assert TracesOf(v).offsince == v.offsince && TracesOf(v).oversince == v.oversince;
  }

  lemma MovesFrom(u: Ups, w: Ups, v: Ups, c: Config, off: Said, over: Said, alarm: Said, bypass: Said)
    requires off.duration == c.offduration && off.now == over.now
    requires (OFF in w.status <==> Kept(u, OFF, off)) && (OVER in w.status <==> Kept(u, OVER, over))
    requires (ALARM in w.status <==> Kept(u, ALARM, alarm)) && (BYPASS in w.status <==> Kept(u, BYPASS, bypass))
    requires TracesOf(w) == Unended(TracesOf(u), !off.ended, !over.ended, !alarm.ended, !bypass.ended)
    requires TracesOf(v) == TracesNamed(c, w, off.named, over.named, alarm.named, bypass.named, off.now)
    ensures AllMove(u, v, off, over, alarm, bypass)
  {
    assert TracesOf(w).offsince == w.offsince && TracesOf(w).offstate == w.offstate;
    assert TracesOf(w).oversince == w.oversince && TracesOf(w).overstate == w.overstate;
    assert TracesOf(w).alarmstate == w.alarmstate && TracesOf(w).bypassstate == w.bypassstate;
    assert TracesOf(v).offsince == v.offsince && TracesOf(v).offstate == v.offstate;
    assert TracesOf(v).oversince == v.oversince && TracesOf(v).overstate == v.overstate;
    assert TracesOf(v).alarmstate == v.alarmstate && TracesOf(v).bypassstate == v.bypassstate;
  }

  // ----- one event -----

  /** The flags a decision does not promote. */
  const TOLD := {FSD, CAL, OFF, BYPASS, ALARM, OVER, TRIM, BOOST}

  lemma FlagStep(s: St, e: Timed, f: Flag)
    requires f in TOLD
    ensures var said := SaidOf(e, f);
      f in Step(s, e).u.status <==> said.named || (f in s.u.status && !said.ended && !said.woken)
  {
    if Answers(e.ev) {
      var s0 := s.(u := s.u.(throttleState := ERR_NONE, throttleCount := -1));
      ParsedFlagsExact(e.c, s0, e.ev.status, e.ev.eco, e.now, f);
    } else {
      OtherFlag(s, e, f);
    }
  }

  lemma OtherFlag(s: St, e: Timed, f: Flag)
    requires f in TOLD && !Answers(e.ev)
    ensures f in Step(s, e).u.status <==> f in s.u.status && !e.ev.Waking?
  {
    if !e.ev.Waking? {
      OthersKeepFlags(s, e);
      NotOwn(f);
      assert f in Step(s, e).u.status <==> f in Step(s, e).u.status - OWN;
      assert f in s.u.status <==> f in s.u.status - OWN;
    }
  }

  lemma NotOwn(f: Flag)
    requires f in TOLD
    ensures f !in OWN
  {
  }

  lemma EventMoves(s: St, e: Timed)
    requires Dated(s.u) && e.now >= 1
    ensures Dated(Step(s, e).u) && TracesMove(s.u, Step(s, e).u, e)
  {
    if Answers(e.ev) {
      StatusMoves(s, e);
    } else {
      var v := Step(s, e).u;
      OtherEventsTrace(s, e);
      FlagStep(s, e, OFF);
      FlagStep(s, e, OVER);
      assert TracesOf(v).offsince == v.offsince && TracesOf(v).offstate == v.offstate;
      assert TracesOf(v).oversince == v.oversince && TracesOf(v).overstate == v.overstate;
      assert TracesOf(v).alarmstate == v.alarmstate && TracesOf(v).bypassstate == v.bypassstate;
    }
  }

  // ----- the run -----

  /** The field says when the current stretch began. */
  predicate SinceSays(since: int, ss: seq<Said>, n: nat)
    requires n <= |ss|
  {
    forall i | 0 <= i < n && IsStart(ss, i, n) :: since == ss[i].now
  }

  lemma SinceStep(before: int, after: int, kept: bool, ss: seq<Said>, n: nat)
    requires n < |ss| && SinceSays(before, ss, n) && SinceMoves(before, after, kept, ss[n])
    requires kept <==> IsSet(ss, n) && !ss[n].ended
    ensures SinceSays(after, ss, n + 1)
  {
    forall i | 0 <= i < n + 1 && IsStart(ss, i, n + 1)
      ensures after == ss[i].now
    {
      if i < n {
        StartStep(ss, i, n);
      }
    }
  }

  lemma MarkStep(before: int, after: int, kept: bool, ss: seq<Said>, n: nat)
    requires n < |ss| && (before == 1 <==> IsLeft(ss, n)) && MarkMoves(before, after, kept, ss[n])
    requires kept <==> IsSet(ss, n) && !ss[n].ended
    ensures after == 1 <==> IsLeft(ss, n + 1)
  {
    LeftStep(ss, n);
    if kept {
      SetIsLeft(ss, n);
    }
  }

  lemma OffStep(u: Ups, v: Ups, kept: bool, ss: seq<Said>, n: nat)
    requires n < |ss| && SinceSays(u.offsince, ss, n) && (u.offstate == 1 <==> OffTooLongIn(ss, n))
    requires OffMoves(u, v, kept, ss[n]) && (kept <==> IsSet(ss, n) && !ss[n].ended)
    ensures v.offstate == 1 <==> OffTooLongIn(ss, n + 1)
  {
    OffTooLongStep(ss, n);
    if kept {
      SetIsLeft(ss, n);
      LeftHasStart(ss, n);
      var i :| 0 <= i < n && IsStart(ss, i, n);
      assert u.offsince == ss[i].now;
    }
  }

  /** The device after `n` events is as the statuses say. */
  ghost predicate AsSaid(u: Ups, es: seq<Timed>, n: nat)
    requires n <= |es|
  {
    && Dated(u)
    && (forall f | f in TOLD :: f in u.status <==> IsSet(Says(es, f), n))
    && SinceSays(u.offsince, Says(es, OFF), n) && (u.offstate == 1 <==> OffTooLongIn(Says(es, OFF), n))
    && SinceSays(u.oversince, Says(es, OVER), n) && (u.overstate == 1 <==> IsLeft(Says(es, OVER), n))
    && (u.alarmstate == 1 <==> IsLeft(Says(es, ALARM), n))
    && (u.bypassstate == 1 <==> IsLeft(Says(es, BYPASS), n))
  }

  lemma AsSaidStep(s: St, es: seq<Timed>, n: nat)
    requires n < |es| && AsSaid(s.u, es, n) && es[n].now >= 1
    ensures AsSaid(Step(s, es[n]).u, es, n + 1)
  {
    var e, u, v := es[n], s.u, Step(s, es[n]).u;
    EventMoves(s, e);
    forall f | f in TOLD
      ensures f in v.status <==> IsSet(Says(es, f), n + 1)
    {
      assert f in u.status <==> IsSet(Says(es, f), n);
      FlagStep(s, e, f);
      SetStep(Says(es, f), n);
    }
    MarksStep(u, v, es, n);
  }

  lemma MarksStep(u: Ups, v: Ups, es: seq<Timed>, n: nat)
    requires n < |es| && AsSaid(u, es, n) && TracesMove(u, v, es[n])
    ensures SinceSays(v.offsince, Says(es, OFF), n + 1) && (v.offstate == 1 <==> OffTooLongIn(Says(es, OFF), n + 1))
    ensures SinceSays(v.oversince, Says(es, OVER), n + 1) && (v.overstate == 1 <==> IsLeft(Says(es, OVER), n + 1))
    ensures v.alarmstate == 1 <==> IsLeft(Says(es, ALARM), n + 1)
    ensures v.bypassstate == 1 <==> IsLeft(Says(es, BYPASS), n + 1)
  {
    var off, over, alarm, bypass := Says(es, OFF), Says(es, OVER), Says(es, ALARM), Says(es, BYPASS);
    SinceStep(u.offsince, v.offsince, Kept(u, OFF, off[n]), off, n);
    OffStep(u, v, Kept(u, OFF, off[n]), off, n);
    SinceStep(u.oversince, v.oversince, Kept(u, OVER, over[n]), over, n);
    MarkStep(u.overstate, v.overstate, Kept(u, OVER, over[n]), over, n);
    MarkStep(u.alarmstate, v.alarmstate, Kept(u, ALARM, alarm[n]), alarm, n);
    MarkStep(u.bypassstate, v.bypassstate, Kept(u, BYPASS, bypass[n]), bypass, n);
  }

  lemma {:induction false} RunsAsSaid(s: St, es: seq<Timed>, n: nat)
    requires IsNew(s.u) && n <= |es| && forall i | 0 <= i < n :: es[i].now >= 1
    ensures AsSaid(Run(s, es[..n]).u, es, n)
    decreases n
  {
    if n > 0 {
      RunsAsSaid(s, es, n - 1);
      PrefixStep(s, es, n - 1);
      AsSaidStep(Run(s, es[..n - 1]), es, n - 1);
    } else {
      assert es[..0] == [];
    }
  }

  // ----- when it was last heard from, and last well -----

  /** A status, or a wake-up, counts as having heard from the device. */
  predicate Hears(ev: Event)
  {
    Answers(ev) || ev.Waking?
  }

  function HeardAt(es: seq<Timed>): (counts: seq<bool>)
    ensures |counts| == |es|
  {
    seq(|es|, j requires 0 <= j < |es| => Hears(es[j].ev))
  }

  lemma HearingStep(s: St, e: Timed)
    ensures Step(s, e).u.lastpoll == if Hears(e.ev) then e.now else s.u.lastpoll
  {
    if Answers(e.ev) {
      PollKeeps(e.c, s, e.ev.status, e.ev.eco, e.now);
      assert KeptOf(Step(s, e).u).lastpoll == e.now;
    }
  }

  lemma {:induction false} LastHeard(s: St, es: seq<Timed>, n: nat)
    requires s.u.lastpoll == 0 && n <= |es| && Ordered(es) && forall i | 0 <= i < |es| :: es[i].now >= 1
    ensures Latest(Run(s, es[..n]).u.lastpoll, HeardAt(es), es, n)
    decreases n
  {
    if n > 0 {
      LastHeard(s, es, n - 1);
      PrefixStep(s, es, n - 1);
      HearingStep(Run(s, es[..n - 1]), es[n - 1]);
      LatestStep(Run(s, es[..n - 1]).u.lastpoll, Run(s, es[..n]).u.lastpoll, HeardAt(es), es, n - 1);
    } else {
      NothingRun(s, es);
      NoneYet(HeardAt(es), es);
    }
  }

  /** On battery and on a low battery, and not calibrating, once the first words of a status
      are read: a flag is set by its word, or was and the text contains its name; the line is
      the last one named. */
  predicate Failing(u: Ups, status: string, first: seq<string>)
  {
    && (HasToken(first, TokLB) || (LOWBATT in u.status && Contains(status, "LB")))
    && (if LastLine(first) == None then ONBATT in u.status else LastLine(first) == Some(TokOB))
    && !(HasToken(first, TokCAL) || (CAL in u.status && Contains(status, "CAL")))
  }

  /** After some word of the status the device was not failing. */
  predicate SeenWell(u: Ups, ev: Event)
  {
    Answers(ev) &&
    var words := Split(ev.status, ' ');
    exists m | 1 <= m <= |words| :: !Failing(u, ev.status, words[..m])
  }

  /** The same from the flags as the clearing leaves them. */
  predicate FailingFrom(u: Ups, first: seq<string>)
  {
    && (HasToken(first, TokLB) || LOWBATT in u.status)
    && (if LastLine(first) == None then ONBATT in u.status else LastLine(first) == Some(TokOB))
    && !(HasToken(first, TokCAL) || CAL in u.status)
  }

  lemma FirstWord(c: Config, s: St, word: string, rest: seq<string>, now: int)
    requires OneLine(s.u)
    ensures var v := HandleToken(c, s, Classify(word), now).u;
      OneLine(v) && (FailingFrom(v, rest) <==> FailingFrom(s.u, [word] + rest))
  {
    TokenLine(c, s, Classify(word), now);
    TokenFlags(c, s, Classify(word), now, LOWBATT);
    TokenFlags(c, s, Classify(word), now, CAL);
    assert ([word] + rest)[1..] == rest;
  }

  predicate WellAfterSome(u: Ups, words: seq<string>)
  {
    exists m | 1 <= m <= |words| :: !FailingFrom(u, words[..m])
  }

  lemma WellStep(c: Config, s: St, words: seq<string>, now: int)
    requires OneLine(s.u) && words != []
    ensures var v := HandleToken(c, s, Classify(words[0]), now).u;
      WellAfterSome(s.u, words) <==> !FailingFrom(v, []) || WellAfterSome(v, words[1..])
  {
    var v, rest := HandleToken(c, s, Classify(words[0]), now).u, words[1..];
    forall m | 1 <= m <= |words|
      ensures FailingFrom(s.u, words[..m]) <==> FailingFrom(v, rest[..m - 1])
    {
      FirstWord(c, s, words[0], rest[..m - 1], now);
      assert words[..m] == [words[0]] + rest[..m - 1];
    }
    assert rest[..0] == [];
    if m :| 1 <= m <= |rest| && !FailingFrom(v, rest[..m]) {
      assert !FailingFrom(s.u, words[..m + 1]);
    }
    if !FailingFrom(v, []) {
      assert !FailingFrom(s.u, words[..1]);
    }
  }

  lemma {:induction false} WordsWell(c: Config, s: St, words: seq<string>, now: int)
    requires OneLine(s.u)
    ensures HandleWords(c, s, words, now).u.lastnoncrit
      == if WellAfterSome(s.u, words) then now else s.u.lastnoncrit
    decreases |words|
  {
    if words != [] {
      var next := HandleToken(c, s, Classify(words[0]), now);
      TokenLine(c, s, Classify(words[0]), now);
      TokenKeeps(c, s, Classify(words[0]), now);
      WellStep(c, s, words, now);
      WordsWell(c, next.(u := UpdateCritTimer(next.u, now)), words[1..], now);
      SameFlagsSameWell(next.u, UpdateCritTimer(next.u, now), words[1..]);
    }
  }

  lemma SameFlagsSameWell(u: Ups, v: Ups, words: seq<string>)
    requires u.status == v.status
    ensures WellAfterSome(u, words) <==> WellAfterSome(v, words)
  {
    assert forall m | 1 <= m <= |words| :: FailingFrom(u, words[..m]) <==> FailingFrom(v, words[..m]);
  }

  lemma StatusWell(s: St, e: Timed)
    requires Answers(e.ev) && OneLine(s.u)
    ensures Step(s, e).u.lastnoncrit == if SeenWell(s.u, e.ev) then e.now else s.u.lastnoncrit
  {
    var w, words := ClearedBy(s, e), Split(e.ev.status, ' ');
    StatusIs(s, e);
    ClearedBattery(s, e);
    WordsWell(e.c, w, words, e.now);
    assert forall m | 1 <= m <= |words| :: FailingFrom(w.u, words[..m]) <==> Failing(s.u, e.ev.status, words[..m]);
  }

  lemma ClearedBattery(s: St, e: Timed)
    requires Answers(e.ev) && OneLine(s.u)
    ensures var w := ClearedBy(s, e).u;
      && OneLine(w) && w.lastnoncrit == s.u.lastnoncrit
      && (ONBATT in w.status <==> ONBATT in s.u.status)
      && (LOWBATT in w.status <==> LOWBATT in s.u.status && Contains(e.ev.status, "LB"))
      && (CAL in w.status <==> CAL in s.u.status && Contains(e.ev.status, "CAL"))
  {
    var t := Taken(s, e);
    StatusIs(s, e);
    assert t.u.lastnoncrit == s.u.lastnoncrit;
    ClearingKeeps(e.c, t, e.ev.status, e.ev.eco);
    ClearingFlags(e.c, t, e.ev.status, e.ev.eco, ONLINE);
    ClearingFlags(e.c, t, e.ev.status, e.ev.eco, ONBATT);
    ClearingFlags(e.c, t, e.ev.status, e.ev.eco, LOWBATT);
    ClearingFlags(e.c, t, e.ev.status, e.ev.eco, CAL);
  }

  lemma OtherWell(s: St, e: Timed)
    requires !Answers(e.ev)
    ensures Step(s, e).u.lastnoncrit == s.u.lastnoncrit
  {
  }

  lemma EventWell(s: St, e: Timed)
    requires OneLine(s.u)
    ensures Step(s, e).u.lastnoncrit == if SeenWell(s.u, e.ev) then e.now else s.u.lastnoncrit
  {
    if Answers(e.ev) {
      StatusWell(s, e);
    } else {
      OtherWell(s, e);
    }
  }

  /** The events after some word of which the device was not failing. */
  function WellAt(s: St, es: seq<Timed>): (counts: seq<bool>)
    ensures |counts| == |es|
  {
    seq(|es|, j requires 0 <= j < |es| => SeenWell(Run(s, es[..j]).u, es[j].ev))
  }

  lemma LastWellStep(s: St, es: seq<Timed>, n: nat)
    requires n < |es| && OneLine(s.u) && Ordered(es) && es[n].now >= 1
    requires Latest(Run(s, es[..n]).u.lastnoncrit, WellAt(s, es), es, n)
    ensures Latest(Run(s, es[..n + 1]).u.lastnoncrit, WellAt(s, es), es, n + 1)
  {
    var before, counts := Run(s, es[..n]), WellAt(s, es);
    PrefixStep(s, es, n);
    RunKeepsOneLine(s, es[..n]);
    EventWell(before, es[n]);
    assert counts[n] == SeenWell(before.u, es[n].ev);
    LatestStep(before.u.lastnoncrit, Step(before, es[n]).u.lastnoncrit, counts, es, n);
  }

  lemma {:induction false} LastWell(s: St, es: seq<Timed>, n: nat)
    requires s.u.lastnoncrit == 0 && OneLine(s.u) && n <= |es| && Ordered(es)
    requires forall i | 0 <= i < |es| :: es[i].now >= 1
    ensures Latest(Run(s, es[..n]).u.lastnoncrit, WellAt(s, es), es, n)
    decreases n
  {
    if n > 0 {
      LastWell(s, es, n - 1);
      LastWellStep(s, es, n - 1);
    } else {
      NothingRun(s, es);
      NoneYet(WellAt(s, es), es);
    }
  }

  // ----- the verdict -----

  /** A device that does not communicate is lost for one of these reasons: it was calibrating,
      bypassed, off or off for too long, had an alarm that is critical, or was overloaded
      OVERDURATION ago. */
  predicate LostFor(es: seq<Timed>, c: Config, now: int)
  {
    var n, over := |es|, Says(es, OVER);
    || IsSet(Says(es, CAL), n)
    || IsLeft(Says(es, BYPASS), n)
    || (IsSet(Says(es, OFF), n) && c.offduration >= 0) || OffTooLongIn(Says(es, OFF), n)
    || (IsLeft(Says(es, ALARM), n) && c.alarmcritical == 1)
    || (c.overduration >= 0 && exists i | 0 <= i < n :: IsStart(over, i, n) && now - over[i].now >= c.overduration)
  }

  /** On battery with low battery, or silent past DEADTIME. */
  predicate RunningOut(u: Ups, es: seq<Timed>, c: Config, now: int)
  {
    ONBATT in u.status && (LOWBATT in u.status || LongSince(HeardAt(es), es, c.deadtime, now))
  }

  /** The delay OBLBDURATION sets, if any, is over. */
  predicate DelayOver(c: Config, u: Ups, now: int)
  {
    c.oblbduration <= 0 || (u.oblbsince >= 1 && now - u.oblbsince >= c.oblbduration)
  }

  lemma OverIsLost(es: seq<Timed>, c: Config, u: Ups, now: int)
    requires AsSaid(u, es, |es|) && now > 0
    ensures (u.overstate == 1 || OVER in u.status) && c.overduration >= 0
            && !(now > 0 && now - u.oversince < c.overduration)
        <==> c.overduration >= 0 &&
             exists i | 0 <= i < |es| ::
               IsStart(Says(es, OVER), i, |es|) && now - Says(es, OVER)[i].now >= c.overduration
  {
    var over, n := Says(es, OVER), |es|;
    assert OVER in u.status <==> IsSet(over, n);
    if u.overstate == 1 || OVER in u.status {
      if OVER in u.status {
        SetIsLeft(over, n);
      }
      LeftHasStart(over, n);
    }
    if i :| 0 <= i < n && IsStart(over, i, n) {
      assert over[i].named && NotEnded(over, i, n);
    }
  }

  lemma LostExact(es: seq<Timed>, c: Config, u: Ups, now: int)
    requires AsSaid(u, es, |es|) && now > 0
    ensures AssumedDead(c, u, now) <==> LostFor(es, c, now)
  {
    var n := |es|;
    OverIsLost(es, c, u, now);
    assert CAL in u.status <==> IsSet(Says(es, CAL), n);
    assert OFF in u.status <==> IsSet(Says(es, OFF), n);
    assert ALARM in u.status <==> IsSet(Says(es, ALARM), n);
    assert BYPASS in u.status <==> IsSet(Says(es, BYPASS), n);
    if BYPASS in u.status { SetIsLeft(Says(es, BYPASS), n); }
    if ALARM in u.status { SetIsLeft(Says(es, ALARM), n); }
  }

  /** What a new device's run says of it. */
  lemma RunSays(s: St, from: int, es: seq<Timed>)
    requires IsNew(s.u) && 0 < from && Clocked(from, es)
    ensures var u := Run(s, es).u;
      && AsSaid(u, es, |es|) && Latest(u.lastpoll, HeardAt(es), es, |es|)
      && Latest(u.lastnoncrit, WellAt(s, es), es, |es|)
  {
    assert es[..|es|] == es;
    ClockOrders(from, es);
    RunsAsSaid(s, es, |es|);
    LastHeard(s, es, |es|);
    LastWell(s, es, |es|);
  }

  lemma TimesSay(c: Config, s: St, es: seq<Timed>, now: int)
    requires var u := Run(s, es).u;
      Latest(u.lastpoll, HeardAt(es), es, |es|) && Latest(u.lastnoncrit, WellAt(s, es), es, |es|)
    ensures var u := Run(s, es).u;
      && (now - u.lastpoll > c.deadtime <==> LongSince(HeardAt(es), es, c.deadtime, now))
      && (now - u.lastnoncrit > c.hostsync <==> LongSince(WellAt(s, es), es, c.hostsync, now))
  {
    var u := Run(s, es).u;
    LatestIsLongAgo(u.lastpoll, HeardAt(es), es, c.deadtime, now);
    LatestIsLongAgo(u.lastnoncrit, WellAt(s, es), es, c.hostsync, now);
  }

  /** Main result: after any run from its MONITOR line on, a device is judged critical exactly if
      it is told to shut down; or does not communicate and is lost; or is off for too long where
      OFFDURATION counts; or runs out, not calibrating, past any delay, and this host is its
      primary, or has not seen it well for longer than HOSTSYNC. */
  lemma VerdictExact(s: St, from: int, es: seq<Timed>, c: Config, now: int)
    requires IsNew(s.u) && 0 < from && Clocked(from, es) && now > 0
    ensures var u, n := Run(s, es).u, |es|;
      JudgedCritical(c, u, now) <==>
      || IsSet(Says(es, FSD), n)
      || (u.commstate == 0 && LostFor(es, c, now))
      || (c.offduration >= 0 && IsSet(Says(es, OFF), n) && OffTooLongIn(Says(es, OFF), n))
      || (RunningOut(u, es, c, now) && !IsSet(Says(es, CAL), n) && DelayOver(c, u, now)
          && (PRIMARY in u.status || LongSince(WellAt(s, es), es, c.hostsync, now)))
  {
    var u := Run(s, es).u;
    RunSays(s, from, es);
    TimesSay(c, s, es, now);
    LostExact(es, c, u, now);
    PromotedVerdict(c, u, now);
    assert FSD in u.status <==> IsSet(Says(es, FSD), |es|);
    assert CAL in u.status <==> IsSet(Says(es, CAL), |es|);
    assert OFF in u.status <==> IsSet(Says(es, OFF), |es|);
  }

  /** The promotion only matters for the low battery. */
  lemma PromotedVerdict(c: Config, u: Ups, now: int)
    requires now > 0
    ensures JudgedCritical(c, u, now) <==>
      || FSD in u.status
      || (u.commstate == 0 && AssumedDead(c, u, now))
      || (OFF in u.status && c.offduration >= 0 && u.offstate == 1)
      || (ONBATT in u.status && (LOWBATT in u.status || now - u.lastpoll > c.deadtime) && CAL !in u.status
          && DelayOver(c, u, now) && (PRIMARY in u.status || now - u.lastnoncrit > c.hostsync))
  {
    assert AssumedDead(c, Promoted(c, u, now), now) <==> AssumedDead(c, u, now);
  }

  /** For a secondary's device that communicates, and is not told to shut down, off or
      calibrating: HOSTSYNC has to pass since it was last seen well. */
  lemma SecondaryVerdictExact(s: St, from: int, es: seq<Timed>, c: Config, now: int)
    requires IsNew(s.u) && 0 < from && Clocked(from, es) && now > 0 && c.oblbduration <= 0
    requires var u := Run(s, es).u; u.commstate != 0 && PRIMARY !in u.status && {FSD, OFF, CAL} !! u.status
    ensures var u := Run(s, es).u;
      JudgedCritical(c, u, now) <==>
      RunningOut(u, es, c, now) && LongSince(WellAt(s, es), es, c.hostsync, now)
  {
    var u := Run(s, es).u;
    VerdictExact(s, from, es, c, now);
    RunSays(s, from, es);
    assert FSD !in u.status && OFF !in u.status && CAL !in u.status;
    assert FSD in u.status <==> IsSet(Says(es, FSD), |es|);
    assert CAL in u.status <==> IsSet(Says(es, CAL), |es|);
    assert OFF in u.status <==> IsSet(Says(es, OFF), |es|);
  }

  /** For one that communicates, is not told to shut down and does not run out: OFFDURATION
      decides, on the stretch of its OFF statuses. */
  lemma OffVerdictExact(s: St, from: int, es: seq<Timed>, c: Config, now: int)
    requires IsNew(s.u) && 0 < from && Clocked(from, es) && now > 0
    requires var u := Run(s, es).u; u.commstate != 0 && FSD !in u.status && !RunningOut(u, es, c, now)
    ensures JudgedCritical(c, Run(s, es).u, now)
      <==> c.offduration >= 0 && IsSet(Says(es, OFF), |es|) && OffTooLongIn(Says(es, OFF), |es|)
  {
    VerdictExact(s, from, es, c, now);
    RunSays(s, from, es);
    assert FSD in Run(s, es).u.status <==> IsSet(Says(es, FSD), |es|);
  }
}
