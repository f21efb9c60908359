/** The notices of one device alternate in every run without a wake-up, and its FSD notices
    are separated by a status without FSD. */
module UpsNotices {
  import opened Text
  import opened UpsState
  import opened UpsRuns

  /** The flags whose setting and clearing are both notified. */
  const PAIRED := {ONBATT, CAL, OFF, BYPASS, ECO, OVER, TRIM, BOOST}

  function Rise(f: Flag): Notice
    requires f in PAIRED
  {
    match f
    case ONBATT => NotifyOnBatt
    case CAL => NotifyCal
    case OFF => NotifyOff
    case BYPASS => NotifyBypass
    case ECO => NotifyEco
    case OVER => NotifyOver
    case TRIM => NotifyTrim
    case _ => NotifyBoost
  }

  function Fall(f: Flag): Notice
    requires f in PAIRED
  {
    match f
    case ONBATT => NotifyOnline
    case CAL => NotifyNotCal
    case OFF => NotifyNotOff
    case BYPASS => NotifyNotBypass
    case ECO => NotifyNotEco
    case OVER => NotifyNotOver
    case TRIM => NotifyNotTrim
    case _ => NotifyNotBoost
  }

  datatype Phase = Low | High | Broken

  function Next(p: Phase, f: Flag, n: Notice): Phase
    requires f in PAIRED
  {
    if n == Rise(f) then (if p == Low then High else Broken)
    else if n == Fall(f) then (if p == High then Low else Broken)
    else p
  }

  /** Where the notices of one pair stand after a log: `Broken` once they fail to alternate. */
  function PhaseOf(log: seq<Notice>, f: Flag): Phase
    requires f in PAIRED
  {
    if log == [] then Low
    else
      var p := PhaseOf(log[..|log| - 1], f);
      if p == Broken then Broken else Next(p, f, log[|log| - 1])
  }

  lemma PhaseTold(log: seq<Notice>, n: Notice, f: Flag)
    requires f in PAIRED
    ensures PhaseOf(log + [n], f) == if PhaseOf(log, f) == Broken then Broken else Next(PhaseOf(log, f), f, n)
  {
    assert (log + [n])[..|log|] == log;
  }

  /** What not being broken means: from the first on, the notices of the pair that follow
      each other differ, and the first is the rising one. */
  lemma {:induction false} UnbrokenAlternates(log: seq<Notice>, f: Flag, i: nat, j: nat)
    requires f in PAIRED && PhaseOf(log, f) != Broken
    requires i < j < |log| && log[i] in {Rise(f), Fall(f)} && log[j] in {Rise(f), Fall(f)}
    requires forall k | i < k < j :: log[k] != Rise(f) && log[k] != Fall(f)
    ensures log[i] != log[j]
    decreases |log|
  {
    var front := log[..|log| - 1];
    if j < |log| - 1 {
      assert forall k | 0 <= k < |front| :: front[k] == log[k];
      UnbrokenAlternates(front, f, i, j);
    } else {
      QuietTail(front, f, i);
    }
  }

  /** The phase is that of the last notice of the pair. */
  lemma {:induction false} QuietTail(log: seq<Notice>, f: Flag, i: nat)
    requires f in PAIRED && PhaseOf(log, f) != Broken && i < |log| && log[i] in {Rise(f), Fall(f)}
    requires forall k | i < k < |log| :: log[k] != Rise(f) && log[k] != Fall(f)
    ensures PhaseOf(log, f) == if log[i] == Rise(f) then High else Low
    decreases |log|
  {
    if i < |log| - 1 {
      var front := log[..|log| - 1];
      assert forall k | 0 <= k < |front| :: front[k] == log[k];
      QuietTail(front, f, i);
    }
  }

  lemma {:induction false} UnbrokenStartsRising(log: seq<Notice>, f: Flag, i: nat)
    requires f in PAIRED && PhaseOf(log, f) != Broken && i < |log| && log[i] in {Rise(f), Fall(f)}
    requires forall k | 0 <= k < i :: log[k] != Rise(f) && log[k] != Fall(f)
    ensures log[i] == Rise(f)
    decreases |log|
  {
    var front := log[..|log| - 1];
    assert forall k | 0 <= k < |front| :: front[k] == log[k];
    if i < |log| - 1 {
      UnbrokenStartsRising(front, f, i);
    } else {
      NothingYet(front, f);
    }
  }

  lemma {:induction false} NothingYet(log: seq<Notice>, f: Flag)
    requires f in PAIRED && forall k | 0 <= k < |log| :: log[k] != Rise(f) && log[k] != Fall(f)
    ensures PhaseOf(log, f) == Low
    decreases |log|
  {
    if log != [] {
      var front := log[..|log| - 1];
      assert forall k | 0 <= k < |front| :: front[k] == log[k];
      NothingYet(front, f);
    }
  }

  // ----- what the steps do to the log and the flags it speaks of -----

  /** The part of a device the alternation is about. */
  datatype View = View(log: seq<Notice>, flags: set<Flag>, linestate: int)

  const VIEWED := {ONLINE, ONBATT, CAL, OFF, BYPASS, ECO, OVER, TRIM, BOOST}

  function ViewOf(u: Ups): View
  {
    View(u.notices, u.status * VIEWED, u.linestate)
  }

  /** The log tells of a paired flag what the flag says. */
  predicate PairTold(v: View, f: Flag)
    requires f in PAIRED
  {
    PhaseOf(v.log, f) == if f in v.flags then High else Low
  }

  /** The line state goes with the line flags. */
  predicate LineAgrees(v: View)
  {
    && (ONBATT in v.flags <==> v.linestate == 0)
    && (ONLINE in v.flags <==> v.linestate == 1)
    && (v.linestate == -1 || v.linestate == 0 || v.linestate == 1)
  }

  predicate AllTold(v: View)
  {
    LineAgrees(v) && forall f | f in PAIRED :: PairTold(v, f)
  }

  datatype Move = Same | Tell(n: Notice) | Raise(f: Flag) | Lower(f: Flag) | ToBatt | ToLine

  /** A notice outside the pairs. */
  predicate Neutral(n: Notice)
  {
    n in {NotifyLowBatt, NotifyFsd, NotifyCommOk, NotifyCommBad, NotifyReplBatt, NotifyNoComm,
          NotifyAlarm, NotifyNotAlarm}
  }

  predicate Legal(v: View, m: Move)
  {
    match m
    case Same => true
    case Tell(n) => Neutral(n)
    case Raise(f) => f in PAIRED && f != ONBATT && f !in v.flags
    case Lower(f) => f in PAIRED && f != ONBATT && f in v.flags
    case ToBatt => ONBATT !in v.flags
    case ToLine => ONLINE !in v.flags
  }

  function Apply(v: View, m: Move): View
    requires Legal(v, m)
  {
    match m
    case Same => v
    case Tell(n) => v.(log := v.log + [n])
    case Raise(f) => v.(log := v.log + [Rise(f)], flags := v.flags + {f})
    case Lower(f) => v.(log := v.log + [Fall(f)], flags := v.flags - {f})
    case ToBatt => View(v.log + [NotifyOnBatt], v.flags + {ONBATT} - {ONLINE}, 0)
    case ToLine =>
      View(if v.linestate == -1 then v.log else v.log + [NotifyOnline], v.flags + {ONLINE} - {ONBATT}, 1)
  }

  lemma RiseFallDistinct(f: Flag, g: Flag)
    requires f in PAIRED && g in PAIRED
    ensures Rise(f) != Fall(g)
    ensures Rise(f) == Rise(g) <==> f == g
    ensures Fall(f) == Fall(g) <==> f == g
  {
  }

  /** Every legal move keeps the log and the flags in agreement. */
  lemma {:induction false} MoveKeeps(v: View, m: Move)
    requires AllTold(v) && Legal(v, m)
    ensures AllTold(Apply(v, m))
  {
    var w := Apply(v, m);
    forall g | g in PAIRED
      ensures PairTold(w, g)
    {
      assert PairTold(v, g);
      MoveTells(v, m, g);
    }
  }

  lemma NextOnRise(p: Phase, f: Flag, g: Flag)
    requires f in PAIRED && g in PAIRED
    ensures Next(p, g, Rise(f)) == if f != g then p else if p == Low then High else Broken
  {
    RiseFallDistinct(f, g);
  }

  lemma NextOnFall(p: Phase, f: Flag, g: Flag)
    requires f in PAIRED && g in PAIRED
    ensures Next(p, g, Fall(f)) == if f != g then p else if p == High then Low else Broken
  {
    RiseFallDistinct(g, f);
    RiseFallDistinct(f, g);
  }

  lemma NextOnNeutral(p: Phase, n: Notice, g: Flag)
    requires Neutral(n) && g in PAIRED
    ensures Next(p, g, n) == p
  {
  }

  lemma RiseTells(v: View, w: View, f: Flag, g: Flag)
    requires f in PAIRED && g in PAIRED && PairTold(v, g) && f !in v.flags
    requires w.log == v.log + [Rise(f)] && (g in w.flags <==> g == f || g in v.flags)
    ensures PairTold(w, g)
  {
    PhaseTold(v.log, Rise(f), g);
    NextOnRise(PhaseOf(v.log, g), f, g);
  }

  lemma FallTells(v: View, w: View, f: Flag, g: Flag)
    requires f in PAIRED && g in PAIRED && PairTold(v, g) && f in v.flags
    requires w.log == v.log + [Fall(f)] && (g in w.flags <==> g != f && g in v.flags)
    ensures PairTold(w, g)
  {
    PhaseTold(v.log, Fall(f), g);
    NextOnFall(PhaseOf(v.log, g), f, g);
  }

  lemma NeutralTells(v: View, w: View, n: Notice, g: Flag)
    requires Neutral(n) && g in PAIRED && PairTold(v, g)
    requires w.log == v.log + [n] && (g in w.flags <==> g in v.flags)
    ensures PairTold(w, g)
  {
    PhaseTold(v.log, n, g);
    NextOnNeutral(PhaseOf(v.log, g), n, g);
  }

  lemma MoveTells(v: View, m: Move, g: Flag)
    requires Legal(v, m) && g in PAIRED && PairTold(v, g) && (g == ONBATT ==> LineAgrees(v))
    ensures PairTold(Apply(v, m), g)
  {
    var w := Apply(v, m);
    match m
    case Same =>
    case Tell(n) => NeutralTells(v, w, n, g);
    case Raise(f) => RiseTells(v, w, f, g);
    case Lower(f) => FallTells(v, w, f, g);
    case ToBatt => BatteryTells(v, g);
    case ToLine => LineTells(v, g);
  }

  lemma BatteryTells(v: View, g: Flag)
    requires Legal(v, ToBatt) && g in PAIRED && PairTold(v, g) && (g == ONBATT ==> LineAgrees(v))
    ensures PairTold(Apply(v, ToBatt), g)
  {
    RiseTells(v, Apply(v, ToBatt), ONBATT, g);
  }

  lemma LineTells(v: View, g: Flag)
    requires Legal(v, ToLine) && g in PAIRED && PairTold(v, g) && (g == ONBATT ==> LineAgrees(v))
    ensures PairTold(Apply(v, ToLine), g)
  {
    var w := Apply(v, ToLine);
    FlagsOnLine(v, g);
    if v.linestate == -1 {
      assert w.log == v.log;
    } else if g == ONBATT {
      FallTells(v, w, ONBATT, g);
    } else {
      OtherFallTells(v, w, g);
    }
  }

  lemma FlagsOnLine(v: View, g: Flag)
    requires Legal(v, ToLine) && g in PAIRED
    ensures g in Apply(v, ToLine).flags <==> g != ONBATT && g in v.flags
  {
  }

  lemma OtherFallTells(v: View, w: View, g: Flag)
    requires g in PAIRED && g != ONBATT && PairTold(v, g)
    requires w.log == v.log + [NotifyOnline] && (g in w.flags <==> g in v.flags)
    ensures PairTold(w, g)
  {
    PhaseTold(v.log, NotifyOnline, g);
    NextOnFall(PhaseOf(v.log, g), ONBATT, g);
  }

  /** `v` comes from `u` by a legal move. */
  ghost predicate Moved(u: Ups, v: Ups)
  {
    exists m :: Legal(ViewOf(u), m) && ViewOf(v) == Apply(ViewOf(u), m)
  }

  lemma MovedBy(u: Ups, v: Ups, m: Move)
    requires Legal(ViewOf(u), m) && ViewOf(v) == Apply(ViewOf(u), m)
    ensures Moved(u, v)
  {
  }

  lemma MovedKeeps(u: Ups, v: Ups)
    requires AllTold(ViewOf(u)) && Moved(u, v)
    ensures AllTold(ViewOf(v))
  {
    var m :| Legal(ViewOf(u), m) && ViewOf(v) == Apply(ViewOf(u), m);
    MoveKeeps(ViewOf(u), m);
  }

  /** The paired flag a token raises. */
  function RaisedBy(tok: Token): Option<Flag>
  {
    match tok
    case TokCAL => Some(CAL)
    case TokOFF => Some(OFF)
    case TokBYPASS => Some(BYPASS)
    case TokECO => Some(ECO)
    case TokOVER => Some(OVER)
    case TokTRIM => Some(TRIM)
    case TokBOOST => Some(BOOST)
    case _ => None
  }

  lemma RaisingTokenMoves(c: Config, s: St, tok: Token, now: int)
    requires RaisedBy(tok).Some?
    ensures Moved(s.u, HandleToken(c, s, tok, now).u)
  {
    var v, f := HandleToken(c, s, tok, now).u, RaisedBy(tok).value;
    var m := if f in s.u.status then Same else Raise(f);
    assert v.status == s.u.status + {f};
    assert ViewOf(v).flags == Apply(ViewOf(s.u), m).flags;
    MovedBy(s.u, v, m);
  }

  lemma LineTokenMoves(c: Config, s: St, tok: Token, now: int)
    requires tok.TokOL? || tok.TokOB?
    ensures Moved(s.u, HandleToken(c, s, tok, now).u)
  {
    var v := HandleToken(c, s, tok, now).u;
    var m := if tok.TokOL? then (if ONLINE in s.u.status then Same else ToLine)
             else if ONBATT in s.u.status then Same else ToBatt;
    assert ViewOf(v).flags == Apply(ViewOf(s.u), m).flags;
    MovedBy(s.u, v, m);
  }

  /** Tokens that speak of no pair tell at most a neutral notice. */
  lemma OtherTokenMoves(c: Config, s: St, tok: Token, now: int)
    requires RaisedBy(tok) == None && !tok.TokOL? && !tok.TokOB?
    ensures Moved(s.u, HandleToken(c, s, tok, now).u)
  {
    var v := HandleToken(c, s, tok, now).u;
    var n := match tok
      case TokLB => NotifyLowBatt
      case TokRB => NotifyReplBatt
      case TokALARM => NotifyAlarm
      case _ => NotifyFsd;
    assert v.status * VIEWED == s.u.status * VIEWED;
    assert |v.notices| == |s.u.notices| ==> v.notices == s.u.notices;
    MovedBy(s.u, v, if |v.notices| == |s.u.notices| then Same else Tell(n));
  }

  lemma TokenMoves(c: Config, s: St, tok: Token, now: int)
    ensures Moved(s.u, HandleToken(c, s, tok, now).u)
  {
    if RaisedBy(tok).Some? {
      RaisingTokenMoves(c, s, tok, now);
    } else if tok.TokOL? || tok.TokOB? {
      LineTokenMoves(c, s, tok, now);
    } else {
      OtherTokenMoves(c, s, tok, now);
    }
  }

  lemma ClearedMoves(c: Config, s: St, f: Flag)
    requires f in CLEARED
    ensures Moved(s.u, Cleared(c, s, f).u)
  {
    var v := Cleared(c, s, f).u;
    var m := if f !in s.u.status || f == LOWBATT || f == FSD then Same
             else if f == ALARM then Tell(NotifyNotAlarm) else Lower(f);
    assert ViewOf(v).flags == Apply(ViewOf(s.u), m).flags;
    MovedBy(s.u, v, m);
  }

  lemma EcoMoves(c: Config, s: St, status: string, eco: bool)
    ensures Moved(s.u, UpdateEco(c, s, status, eco).u)
  {
    var v := UpdateEco(c, s, status, eco).u;
    var m := if !Contains(status, "ECO") && !eco then (if ECO in s.u.status then Lower(ECO) else Same)
             else if eco && ECO !in s.u.status then Raise(ECO) else Same;
    assert ViewOf(v).flags == Apply(ViewOf(s.u), m).flags;
    MovedBy(s.u, v, m);
  }

  lemma SilentMoves(u: Ups, v: Ups)
    requires v.notices == u.notices && v.linestate == u.linestate && v.status * VIEWED == u.status * VIEWED
    ensures Moved(u, v)
  {
    MovedBy(u, v, Same);
  }

  lemma {:induction false} WordsTold(c: Config, s: St, words: seq<string>, now: int)
    requires AllTold(ViewOf(s.u))
    ensures AllTold(ViewOf(HandleWords(c, s, words, now).u))
    decreases |words|
  {
    if words != [] {
      var next := HandleToken(c, s, Classify(words[0]), now);
      TokenMoves(c, s, Classify(words[0]), now);
      MovedKeeps(s.u, next.u);
      var timed := next.(u := UpdateCritTimer(next.u, now));
      assert ViewOf(timed.u) == ViewOf(next.u);
      WordsTold(c, timed, words[1..], now);
    }
  }

  lemma {:induction false} ClearAllTold(c: Config, s: St, order: seq<Flag>, status: string)
    requires AllTold(ViewOf(s.u)) && forall i | 0 <= i < |order| :: order[i] in CLEARED
    ensures AllTold(ViewOf(ClearAll(c, s, order, status).u))
    decreases |order|
  {
    if order != [] {
      ClearedMoves(c, s, order[0]);
      MovedKeeps(s.u, Cleared(c, s, order[0]).u);
      ClearAllTold(c, ClearedUnlessNamed(c, s, order[0], status), order[1..], status);
    }
  }

  lemma AliveMoves(s: St, now: int)
    ensures Moved(s.u, IsAlive(s, now).u)
  {
    MovedBy(s.u, IsAlive(s, now).u, if s.u.commstate == 0 then Tell(NotifyCommOk) else Same);
  }

  lemma GoneMoves(c: Config, u: Ups, now: int)
    ensures Moved(u, IsGone(c, u, now))
  {
    var v := IsGone(c, u, now);
    MovedBy(u, v, if u.commstate != 0 then Tell(NotifyCommBad) else if v != u then Tell(NotifyNoComm) else Same);
  }

  lemma SilentlyClearedMoves(u: Ups, status: string)
    ensures Moved(u, ClearedSilently(u, status))
  {
    var v := ClearedSilently(u, status);
    assert v.status * VIEWED == u.status * VIEWED;
    SilentMoves(u, v);
  }

  lemma ParseTold(c: Config, s: St, status: string, eco: bool, now: int)
    requires AllTold(ViewOf(s.u))
    ensures AllTold(ViewOf(ParseStatus(c, s, status, eco, now).u))
  {
    if status == "" {
      GoneMoves(c, s.u, now);
      MovedKeeps(s.u, IsGone(c, s.u, now));
    } else {
      var alive := IsAlive(s, now);
      AliveMoves(s, now);
      MovedKeeps(s.u, alive.u);
      ClearingTold(c, alive, status, eco);
      WordsTold(c, ClearMissing(c, alive, status, eco), Split(status, ' '), now);
    }
  }

  lemma ClearingTold(c: Config, s: St, status: string, eco: bool)
    requires AllTold(ViewOf(s.u))
    ensures AllTold(ViewOf(ClearMissing(c, s, status, eco).u))
  {
    var s0 := s.(u := ClearedSilently(s.u, status));
    SilentlyClearedMoves(s.u, status);
    MovedKeeps(s.u, s0.u);
    ClearAllTold(c, s0, CLEAR_ORDER, status);
    var s1 := ClearAll(c, s0, CLEAR_ORDER, status);
    EcoMoves(c, s1, status, eco);
    MovedKeeps(s1.u, UpdateEco(c, s1, status, eco).u);
  }

  lemma ConnectedMoves(c: Config, u: Ups, how: Connection, now: int)
    ensures Moved(u, Connected(c, u, how, now))
  {
    var v := u.(status := u.status - {CLICONNECTED});
    var w := Connected(c, u, how, now);
    assert w.status * VIEWED == u.status * VIEWED;
    if how.NotAuthorised? || how.Up? {
      MovedBy(u, w, Same);
    } else {
      MovedBy(u, w, if v.commstate != 0 then Tell(NotifyCommBad)
                    else if IsGone(c, v, now) != v then Tell(NotifyNoComm) else Same);
    }
  }

  lemma FailingMoves(c: Config, u: Ups, err: int, lost: bool, now: int)
    ensures Moved(u, PollFailed(c, u, err, lost, now))
  {
    var t := Throttled(c.throttleMax, u.throttleState, u.throttleCount, err);
    var v := u.(throttleState := t.state, throttleCount := t.count);
    var w := PollFailed(c, u, err, lost, now);
    assert w.status * VIEWED == u.status * VIEWED;
    MovedBy(u, w, if v.commstate != 0 then Tell(NotifyCommBad)
                  else if IsGone(c, v, now) != v then Tell(NotifyNoComm) else Same);
  }

  lemma RecalcMoves(c: Config, s: St, now: int)
    ensures Moved(s.u, Recalculated(c, s, now).u)
  {
    assert Promoted(c, s.u, now).status * VIEWED == s.u.status * VIEWED;
    SilentMoves(s.u, Recalculated(c, s, now).u);
  }

  lemma ReloadMoves(u: Ups, forget: bool, line: Line)
    ensures Moved(u, Redefined(if forget then ThrottleForgotten(u) else u, line))
  {
    var v := Redefined(if forget then ThrottleForgotten(u) else u, line);
    RedefinedFlags(if forget then ThrottleForgotten(u) else u, line);
    assert v.status * VIEWED == u.status * VIEWED;
    SilentMoves(u, v);
  }

  /** Every step but the wake-up keeps the log and the flags in agreement. */
  lemma StepTold(s: St, e: Timed)
    requires AllTold(ViewOf(s.u)) && !e.ev.Waking?
    ensures AllTold(ViewOf(Step(s, e).u))
  {
    if e.ev.Polled? && e.ev.status != "" {
      var s0 := s.(u := s.u.(throttleState := ERR_NONE, throttleCount := -1));
      assert ViewOf(s0.u) == ViewOf(s.u);
      ParseTold(e.c, s0, e.ev.status, e.ev.eco, e.now);
    } else {
      OtherMoves(s, e);
      MovedKeeps(s.u, Step(s, e).u);
    }
  }

  /** Main result: in every run without a wake-up the notices of each pair strictly
      alternate, starting with the rising one (ONBATT before ONLINE, CAL before NOTCAL, ...). */
  lemma {:induction false} NoticesAlternate(s: St, es: seq<Timed>, f: Flag)
    requires AllTold(ViewOf(s.u)) && NoWakeUp(es) && f in PAIRED
    ensures AllTold(ViewOf(Run(s, es).u))
    ensures PhaseOf(Run(s, es).u.notices, f) != Broken
    decreases |es|
  {
    if es != [] {
      StepTold(s, es[0]);
      NoticesAlternate(Step(s, es[0]), es[1..], f);
    } else {
      assert PairTold(ViewOf(s.u), f);
    }
  }

  /** A new device starts that way. */
  lemma NewUpsTold(sys: string, pv: nat, un: string, pw: string, primary: bool)
    ensures AllTold(ViewOf(NewUps(sys, pv, un, pw, primary)))
  {
  }

  // ----- with wake-ups: exactly when the alternation fails -----

  /** Where a pair stands: the log tells of the flag, a wake-up has voided the flag `g` that
      the log still tells of, or the alternation has failed. For ONBATT, `g` is the line flag
      that was set. */
  datatype Standing = InStep | Behind(g: Flag) | Failed

  ghost predicate Stands(u: Ups, f: Flag, st: Standing)
    requires f in PAIRED
  {
    match st
    case InStep => PairTold(ViewOf(u), f) && (f == ONBATT ==> LineAgrees(ViewOf(u)))
    case Behind(g) =>
      && PhaseOf(u.notices, f) == (if g == ONLINE then Low else High)
      && NotSet(u, f)
      && if f == ONBATT then g in {ONLINE, ONBATT} && u.linestate == (if g == ONBATT then 0 else 1) else g == f
    case Failed => PhaseOf(u.notices, f) == Broken
  }

  /** The flags the pair is about are not set. */
  predicate NotSet(u: Ups, f: Flag)
  {
    f !in u.status && (f == ONBATT ==> ONLINE !in u.status)
  }

  predicate IsLine(tok: Token)
  {
    tok.TokOL? || tok.TokOB?
  }

  /** The token names the line flag. */
  predicate NamesLine(tok: Token, g: Flag)
  {
    (g == ONBATT && tok.TokOB?) || (g == ONLINE && tok.TokOL?)
  }

  function AfterWord(st: Standing, f: Flag, tok: Token): Standing
  {
    if !st.Behind? then st
    else if f == ONBATT then if !IsLine(tok) then st else if NamesLine(tok, st.g) then Failed else InStep
    else if RaisedBy(tok) == Some(f) then Failed
    else st
  }

  function AfterWords(st: Standing, f: Flag, words: seq<string>): Standing
    decreases |words|
  {
    if words == [] then st else AfterWords(AfterWord(st, f, Classify(words[0])), f, words[1..])
  }

  function AfterEco(st: Standing, f: Flag, eco: bool): Standing
  {
    if st.Behind? && f == ECO && eco then Failed else st
  }

  function AfterEvent(st: Standing, f: Flag, u: Ups, ev: Event): Standing
  {
    match ev
    case Waking =>
      if st != InStep then st
      else if f in u.status then Behind(f)
      else if f == ONBATT && ONLINE in u.status then Behind(ONLINE)
      else InStep
    case Polled(status, eco) =>
      if status == "" then st else AfterWords(AfterEco(st, f, eco), f, Split(status, ' '))
    case _ => st
  }

  function AfterEvents(st: Standing, f: Flag, s: St, es: seq<Timed>): Standing
    decreases |es|
  {
    if es == [] then st else AfterEvents(AfterEvent(st, f, s.u, es[0].ev), f, Step(s, es[0]), es[1..])
  }

  lemma LineKept(v: View, m: Move)
    requires LineAgrees(v) && Legal(v, m)
    ensures LineAgrees(Apply(v, m))
  {
  }

  lemma BrokenStays(log: seq<Notice>, n: Notice, f: Flag)
    requires f in PAIRED && PhaseOf(log, f) == Broken
    ensures PhaseOf(log + [n], f) == Broken
  {
    PhaseTold(log, n, f);
  }

  /** A move that does not set the pair's flags leaves its phase alone. */
  lemma NotSetMove(v: View, m: Move, f: Flag)
    requires f in PAIRED && Legal(v, m) && f !in v.flags && f !in Apply(v, m).flags
    requires f == ONBATT ==> ONLINE !in v.flags && ONLINE !in Apply(v, m).flags
    ensures PhaseOf(Apply(v, m).log, f) == PhaseOf(v.log, f)
    ensures f == ONBATT ==> Apply(v, m).linestate == v.linestate
  {
    var p := PhaseOf(v.log, f);
    match m
    case Same =>
    case Tell(n) =>
      PhaseTold(v.log, n, f);
      NextOnNeutral(p, n, f);
    case Raise(h) =>
      PhaseTold(v.log, Rise(h), f);
      NextOnRise(p, h, f);
    case Lower(h) =>
      PhaseTold(v.log, Fall(h), f);
      NextOnFall(p, h, f);
    case ToBatt =>
      PhaseTold(v.log, NotifyOnBatt, f);
      NextOnRise(p, ONBATT, f);
    case ToLine =>
      PhaseTold(v.log, NotifyOnline, f);
      NextOnFall(p, ONBATT, f);
  }

  lemma MoveStands(u: Ups, v: Ups, f: Flag, st: Standing)
    requires f in PAIRED && Stands(u, f, st) && Moved(u, v)
    requires st.Behind? ==> NotSet(v, f)
    ensures Stands(v, f, st)
  {
    var m :| Legal(ViewOf(u), m) && ViewOf(v) == Apply(ViewOf(u), m);
    match st
    case InStep =>
      MoveTells(ViewOf(u), m, f);
      if f == ONBATT { LineKept(ViewOf(u), m); }
    case Behind(g) =>
      NotSetMove(ViewOf(u), m, f);
    case Failed =>
      if v.notices != u.notices {
        assert v.notices == u.notices + [v.notices[|u.notices|]];
        BrokenStays(u.notices, v.notices[|u.notices|], f);
      }
  }

  lemma TokenGains(c: Config, s: St, tok: Token, now: int, f: Flag)
    requires f in PAIRED && NotSet(s.u, f)
    ensures f != ONBATT ==> (f in HandleToken(c, s, tok, now).u.status <==> RaisedBy(tok) == Some(f))
    ensures f == ONBATT && !IsLine(tok) ==> NotSet(HandleToken(c, s, tok, now).u, f)
  {
  }

  /** The word that sets a voided flag again tells its notice again. */
  lemma RaisedAgain(c: Config, s: St, tok: Token, now: int, f: Flag)
    requires f in PAIRED && RaisedBy(tok) == Some(f) && Stands(s.u, f, Behind(f)) && f != ONBATT
    ensures Stands(HandleToken(c, s, tok, now).u, f, Failed)
  {
    assert HandleToken(c, s, tok, now).u.notices == s.u.notices + [Rise(f)];
    PhaseTold(s.u.notices, Rise(f), f);
    NextOnRise(High, f, f);
  }

  lemma LineAgain(c: Config, s: St, tok: Token, now: int, g: Flag)
    requires IsLine(tok) && Stands(s.u, ONBATT, Behind(g))
    ensures Stands(HandleToken(c, s, tok, now).u, ONBATT, if NamesLine(tok, g) then Failed else InStep)
  {
    var v, n := HandleToken(c, s, tok, now).u, if tok.TokOB? then Rise(ONBATT) else Fall(ONBATT);
    assert v.notices == s.u.notices + [n];
    PhaseTold(s.u.notices, n, ONBATT);
    NextOnRise(PhaseOf(s.u.notices, ONBATT), ONBATT, ONBATT);
    NextOnFall(PhaseOf(s.u.notices, ONBATT), ONBATT, ONBATT);
  }

  lemma TokenStands(c: Config, s: St, tok: Token, now: int, f: Flag, st: Standing)
    requires f in PAIRED && Stands(s.u, f, st)
    ensures Stands(HandleToken(c, s, tok, now).u, f, AfterWord(st, f, tok))
  {
    if st.Behind? {
      TokenGains(c, s, tok, now, f);
    }
    if st.Behind? && f == ONBATT && IsLine(tok) {
      LineAgain(c, s, tok, now, st.g);
    } else if st.Behind? && f != ONBATT && RaisedBy(tok) == Some(f) {
      RaisedAgain(c, s, tok, now, f);
    } else {
      TokenMoves(c, s, tok, now);
      MoveStands(s.u, HandleToken(c, s, tok, now).u, f, st);
    }
  }

  lemma SameView(u: Ups, v: Ups, f: Flag, st: Standing)
    requires f in PAIRED && Stands(u, f, st) && ViewOf(u) == ViewOf(v)
    ensures Stands(v, f, st)
  {
    MovedBy(u, v, Same);
    assert f in v.status <==> f in ViewOf(v).flags;
    assert ONLINE in v.status <==> ONLINE in ViewOf(v).flags;
    MoveStands(u, v, f, st);
  }

  lemma {:induction false} WordsStand(c: Config, s: St, words: seq<string>, now: int, f: Flag, st: Standing)
    requires f in PAIRED && Stands(s.u, f, st)
    ensures Stands(HandleWords(c, s, words, now).u, f, AfterWords(st, f, words))
    decreases |words|
  {
    if words != [] {
      var tok := Classify(words[0]);
      var next := HandleToken(c, s, tok, now);
      TokenStands(c, s, tok, now, f, st);
      var timed := next.(u := UpdateCritTimer(next.u, now));
      SameView(next.u, timed.u, f, AfterWord(st, f, tok));
      WordsStand(c, timed, words[1..], now, f, AfterWord(st, f, tok));
    }
  }

  lemma ClearedShrinks(c: Config, s: St, f: Flag)
    requires f in CLEARED
    ensures Cleared(c, s, f).u.status <= s.u.status
  {
  }

  lemma {:induction false} ClearAllStand(c: Config, s: St, order: seq<Flag>, status: string, f: Flag, st: Standing)
    requires f in PAIRED && Stands(s.u, f, st) && forall i | 0 <= i < |order| :: order[i] in CLEARED
    ensures Stands(ClearAll(c, s, order, status).u, f, st)
    decreases |order|
  {
    if order != [] {
      ClearedMoves(c, s, order[0]);
      ClearedShrinks(c, s, order[0]);
      MoveStands(s.u, Cleared(c, s, order[0]).u, f, st);
      ClearAllStand(c, ClearedUnlessNamed(c, s, order[0], status), order[1..], status, f, st);
    }
  }

  lemma EcoGains(c: Config, s: St, status: string, eco: bool, f: Flag)
    requires f in PAIRED && NotSet(s.u, f)
    ensures f != ECO || !eco ==> NotSet(UpdateEco(c, s, status, eco).u, f)
    ensures f == ECO && eco ==> UpdateEco(c, s, status, eco).u.notices == s.u.notices + [Rise(ECO)]
  {
  }

  lemma EcoStands(c: Config, s: St, status: string, eco: bool, f: Flag, st: Standing)
    requires f in PAIRED && Stands(s.u, f, st)
    ensures Stands(UpdateEco(c, s, status, eco).u, f, AfterEco(st, f, eco))
  {
    if st.Behind? {
      EcoGains(c, s, status, eco, f);
    }
    if st.Behind? && f == ECO && eco {
      PhaseTold(s.u.notices, Rise(ECO), ECO);
      NextOnRise(High, ECO, ECO);
    } else {
      EcoMoves(c, s, status, eco);
      MoveStands(s.u, UpdateEco(c, s, status, eco).u, f, st);
    }
  }

  lemma ParseStands(c: Config, s: St, status: string, eco: bool, now: int, f: Flag, st: Standing)
    requires f in PAIRED && Stands(s.u, f, st) && status != ""
    ensures Stands(ParseStatus(c, s, status, eco, now).u, f, AfterWords(AfterEco(st, f, eco), f, Split(status, ' ')))
  {
    var alive := IsAlive(s, now);
    AliveMoves(s, now);
    MoveStands(s.u, alive.u, f, st);
    var s0 := alive.(u := ClearedSilently(alive.u, status));
    SilentlyClearedMoves(alive.u, status);
    assert s0.u.status <= alive.u.status;
    MoveStands(alive.u, s0.u, f, st);
    ClearAllStand(c, s0, CLEAR_ORDER, status, f, st);
    EcoStands(c, ClearAll(c, s0, CLEAR_ORDER, status), status, eco, f, st);
    WordsStand(c, ClearMissing(c, alive, status, eco), Split(status, ' '), now, f, AfterEco(st, f, eco));
  }

  lemma WakeStands(s: St, now: int, f: Flag, st: Standing)
    requires f in PAIRED && Stands(s.u, f, st)
    ensures Stands(Woken(s.u, now), f, AfterEvent(st, f, s.u, Waking))
  {
    var v := Woken(s.u, now);
    assert v.status == {} && ViewOf(v).flags == {};
    assert f in s.u.status <==> f in ViewOf(s.u).flags;
    assert ONLINE in s.u.status <==> ONLINE in ViewOf(s.u).flags;
  }

  lemma EmptyPollMoves(c: Config, s: St, eco: bool, now: int)
    ensures var v := PollSucceeded(c, s, "", eco, now).u;
      Moved(s.u, v) && v.status == s.u.status
  {
    var u := s.u.(throttleState := ERR_NONE, throttleCount := -1);
    var v := IsGone(c, u, now);
    MovedBy(s.u, v, if u.commstate != 0 then Tell(NotifyCommBad) else if v != u then Tell(NotifyNoComm) else Same);
  }

  /** The other events move the view by a notice at most. */
  lemma OtherMoves(s: St, e: Timed)
    requires !e.ev.Waking? && (e.ev.Polled? ==> e.ev.status == "")
    ensures Moved(s.u, Step(s, e).u)
  {
    match e.ev
    case Polled(status, eco) => EmptyPollMoves(e.c, s, eco, e.now);
    case Connecting(how) => ConnectedMoves(e.c, s.u, how, e.now);
    case Failing(err, lost) => FailingMoves(e.c, s.u, err, lost, e.now);
    case Recalc => RecalcMoves(e.c, s, e.now);
    case SettingFsd(confirmed) =>
      MovedBy(s.u, Step(s, e).u, if confirmed && s.u.lastfsdnotify == 0 then Tell(NotifyFsd) else Same);
    case Reloading(forget, line) => ReloadMoves(s.u, forget, line);
  }

  lemma OtherKeepsFlags(s: St, e: Timed)
    requires !e.ev.Waking? && (e.ev.Polled? ==> e.ev.status == "")
    ensures Step(s, e).u.status * VIEWED == s.u.status * VIEWED
  {
    match e.ev
    case Polled(status, eco) => EmptyPollMoves(e.c, s, eco, e.now);
    case Failing(err, lost) => FailingKeepsFlags(e.c, s.u, err, lost, e.now);
    case Reloading(forget, line) => RedefinedViewed(if forget then ThrottleForgotten(s.u) else s.u, line);
    case _ =>
  }

  lemma FailingKeepsFlags(c: Config, u: Ups, err: int, lost: bool, now: int)
    ensures PollFailed(c, u, err, lost, now).status * VIEWED == u.status * VIEWED
  {
  }

  lemma RedefinedViewed(u: Ups, line: Line)
    ensures Redefined(u, line).status * VIEWED == u.status * VIEWED
  {
    var v := Redefined(u, line);
    RedefinedFlags(u, line);
    assert forall f | f in VIEWED :: f in v.status <==> f in v.status - {PRIMARY, LOGIN, CLICONNECTED};
    assert forall f | f in VIEWED :: f in u.status <==> f in u.status - {PRIMARY, LOGIN, CLICONNECTED};
  }

  lemma StepStands(s: St, e: Timed, f: Flag, st: Standing)
    requires f in PAIRED && Stands(s.u, f, st)
    ensures Stands(Step(s, e).u, f, AfterEvent(st, f, s.u, e.ev))
  {
    if e.ev.Waking? {
      WakeStands(s, e.now, f, st);
    } else if e.ev.Polled? && e.ev.status != "" {
      var s0 := s.(u := s.u.(throttleState := ERR_NONE, throttleCount := -1));
      SameView(s.u, s0.u, f, st);
      ParseStands(e.c, s0, e.ev.status, e.ev.eco, e.now, f, st);
    } else {
      OtherMoves(s, e);
      OtherKeepsFlags(s, e);
      var v := Step(s, e).u;
      assert f in v.status <==> f in v.status * VIEWED;
      assert ONLINE in v.status <==> ONLINE in v.status * VIEWED;
      MoveStands(s.u, v, f, st);
    }
  }

  lemma {:induction false} RunStands(s: St, es: seq<Timed>, f: Flag, st: Standing)
    requires f in PAIRED && Stands(s.u, f, st)
    ensures Stands(Run(s, es).u, f, AfterEvents(st, f, s, es))
    decreases |es|
  {
    if es != [] {
      StepStands(s, es[0], f, st);
      RunStands(Step(s, es[0]), es[1..], f, AfterEvent(st, f, s.u, es[0].ev));
    }
  }

  // ----- the condition -----

  predicate RaisingWord(words: seq<string>, f: Flag)
  {
    exists i | 0 <= i < |words| :: RaisedBy(Classify(words[i])) == Some(f)
  }

  /** A status comes in that raises the flag, or a buzzword that raises ECO. */
  predicate RaisesIn(ev: Event, f: Flag)
  {
    ev.Polled? && ev.status != "" && ((f == ECO && ev.eco) || RaisingWord(Split(ev.status, ' '), f))
  }

  function FirstLineWord(words: seq<string>): Option<Token>
  {
    if words == [] then None
    else if IsLine(Classify(words[0])) then Some(Classify(words[0]))
    else FirstLineWord(words[1..])
  }

  function FirstLineIn(ev: Event): Option<Token>
  {
    if ev.Polled? && ev.status != "" then FirstLineWord(Split(ev.status, ' ')) else None
  }

  /** The first OL or OB that any of these polls brings. */
  function FirstLine(es: seq<Timed>): Option<Token>
  {
    if es == [] then None
    else if FirstLineIn(es[0].ev).Some? then FirstLineIn(es[0].ev)
    else FirstLine(es[1..])
  }

  /** The polls tell once more what the log has told already: the flag is raised, or, for the
      line, the first word about it names the flag that was set before. */
  predicate TellsAgain(es: seq<Timed>, f: Flag, g: Flag)
  {
    if f == ONBATT then FirstLine(es).Some? && NamesLine(FirstLine(es).value, g)
    else RaisesLater(es, f)
  }

  /** Event `i` is a wake-up that finds the flag set, and the polls after it tell it again. */
  predicate LostAt(s: St, es: seq<Timed>, f: Flag, i: nat)
    requires i < |es|
  {
    var u, rest := Run(s, es[..i]).u, es[i + 1..];
    && es[i].ev.Waking?
    && ((f in u.status && TellsAgain(rest, f, f)) || (f == ONBATT && ONLINE in u.status && TellsAgain(rest, f, ONLINE)))
  }

  lemma {:induction false} WordsCondition(f: Flag, g: Flag, words: seq<string>)
    requires f in PAIRED && (if f == ONBATT then g in {ONLINE, ONBATT} else g == f)
    ensures f != ONBATT ==> AfterWords(Behind(g), f, words) == if RaisingWord(words, f) then Failed else Behind(g)
    ensures f == ONBATT ==> AfterWords(Behind(g), f, words) == AfterLine(g, FirstLineWord(words))
    decreases |words|
  {
    if words != [] {
      var tok := Classify(words[0]);
      WordsSettled(InStep, f, words[1..]);
      WordsSettled(Failed, f, words[1..]);
      WordsCondition(f, g, words[1..]);
      if f != ONBATT {
        RaisingStep(words, f);
      }
    }
  }

  function AfterLine(g: Flag, first: Option<Token>): Standing
  {
    if first == None then Behind(g) else if NamesLine(first.value, g) then Failed else InStep
  }

  lemma {:induction false} WordsSettled(st: Standing, f: Flag, words: seq<string>)
    requires !st.Behind?
    ensures AfterWords(st, f, words) == st
    decreases |words|
  {
    if words != [] {
      WordsSettled(st, f, words[1..]);
    }
  }

  lemma RaisingStep(words: seq<string>, f: Flag)
    requires words != []
    ensures RaisingWord(words, f) <==> RaisedBy(Classify(words[0])) == Some(f) || RaisingWord(words[1..], f)
  {
    if i :| 0 <= i < |words| && RaisedBy(Classify(words[i])) == Some(f) {
      if i > 0 { assert words[1..][i - 1] == words[i]; }
    }
    if i :| 0 <= i < |words[1..]| && RaisedBy(Classify(words[1..][i])) == Some(f) {
      assert words[i + 1] == words[1..][i];
    }
  }

  lemma EventCondition(f: Flag, g: Flag, u: Ups, ev: Event)
    requires f in PAIRED && (if f == ONBATT then g in {ONLINE, ONBATT} else g == f)
    ensures f != ONBATT ==> AfterEvent(Behind(g), f, u, ev) == if RaisesIn(ev, f) then Failed else Behind(g)
    ensures f == ONBATT ==> AfterEvent(Behind(g), f, u, ev) == AfterLine(g, FirstLineIn(ev))
  {
    if ev.Polled? && ev.status != "" {
      WordsCondition(f, g, Split(ev.status, ' '));
      WordsSettled(Failed, f, Split(ev.status, ' '));
    }
  }

  lemma TellsAgainStep(es: seq<Timed>, f: Flag, g: Flag)
    requires es != []
    ensures TellsAgain(es, f, g)
      <==> if f == ONBATT then
             (if FirstLineIn(es[0].ev).Some? then NamesLine(FirstLineIn(es[0].ev).value, g)
              else TellsAgain(es[1..], f, g))
           else RaisesIn(es[0].ev, f) || TellsAgain(es[1..], f, g)
  {
    if f != ONBATT {
      RaisesStep(es, f);
    }
  }

  predicate RaisesLater(es: seq<Timed>, f: Flag)
  {
    exists j | 0 <= j < |es| :: RaisesIn(es[j].ev, f)
  }

  lemma RaisesStep(es: seq<Timed>, f: Flag)
    requires es != []
    ensures RaisesLater(es, f) <==> RaisesIn(es[0].ev, f) || RaisesLater(es[1..], f)
  {
    if j :| 0 <= j < |es| && RaisesIn(es[j].ev, f) {
      if j > 0 { assert es[1..][j - 1] == es[j]; }
    }
    if j :| 0 <= j < |es[1..]| && RaisesIn(es[1..][j].ev, f) {
      assert es[j + 1] == es[1..][j];
    }
  }

  lemma LostStep(s: St, es: seq<Timed>, f: Flag)
    requires es != []
    ensures (exists i | 0 <= i < |es| :: LostAt(s, es, f, i))
      <==> LostAt(s, es, f, 0) || exists i | 0 <= i < |es[1..]| :: LostAt(Step(s, es[0]), es[1..], f, i)
  {
    forall i | 0 < i < |es|
      ensures LostAt(s, es, f, i) <==> LostAt(Step(s, es[0]), es[1..], f, i - 1)
    {
      assert es[1..][..i - 1] == es[..i][1..] && es[..i][0] == es[0];
      assert es[1..][i - 1 + 1..] == es[i + 1..];
    }
    if i :| 0 <= i < |es[1..]| && LostAt(Step(s, es[0]), es[1..], f, i) {
      assert LostAt(s, es, f, i + 1);
    }
    if i :| 0 <= i < |es| && LostAt(s, es, f, i) {
      if i > 0 { assert LostAt(Step(s, es[0]), es[1..], f, i - 1); }
    }
  }

  lemma {:induction false} FailedSettled(f: Flag, s: St, es: seq<Timed>)
    ensures AfterEvents(Failed, f, s, es) == Failed
    decreases |es|
  {
    if es != [] {
      if es[0].ev.Polled? && es[0].ev.status != "" {
        WordsSettled(Failed, f, Split(es[0].ev.status, ' '));
      }
      FailedSettled(f, Step(s, es[0]), es[1..]);
    }
  }

  lemma FirstLost(s: St, es: seq<Timed>, f: Flag)
    requires es != []
    ensures LostAt(s, es, f, 0)
      <==> es[0].ev.Waking? &&
           ((f in s.u.status && TellsAgain(es[1..], f, f)) ||
            (f == ONBATT && ONLINE in s.u.status && TellsAgain(es[1..], f, ONLINE)))
  {
    assert es[..0] == [] && es[0 + 1..] == es[1..];
  }

  lemma LineInView(u: Ups)
    ensures ONLINE in u.status <==> ONLINE in ViewOf(u).flags
    ensures ONBATT in u.status <==> ONBATT in ViewOf(u).flags
  {
  }

  lemma {:induction false} FailsExactly(s: St, es: seq<Timed>, f: Flag, st: Standing)
    requires f in PAIRED && Stands(s.u, f, st) && st != Failed
    ensures AfterEvents(st, f, s, es) == Failed
      <==> (st.Behind? && TellsAgain(es, f, st.g)) || exists i | 0 <= i < |es| :: LostAt(s, es, f, i)
    decreases |es|
  {
    if es != [] {
      var next, st1 := Step(s, es[0]), AfterEvent(st, f, s.u, es[0].ev);
      StepStands(s, es[0], f, st);
      LostStep(s, es, f);
      FirstLost(s, es, f);
      if st.Behind? {
        EventCondition(f, st.g, s.u, es[0].ev);
        TellsAgainStep(es, f, st.g);
      } else if es[0].ev.Polled? && es[0].ev.status != "" {
        WordsSettled(InStep, f, Split(es[0].ev.status, ' '));
      }
      LineInView(s.u);
      if st1 == Failed {
        FailedSettled(f, next, es[1..]);
      } else {
        FailsExactly(next, es[1..], f, st1);
      }
    }
  }

  /** Main result: in every run, the notices of a pair fail to alternate exactly when some
      wake-up finds its flag set and the polls after that wake-up raise the flag again; for the
      line, when the first OL or OB after some wake-up names the line flag that was set before
      it, which is what happens to a device that was on line all along. */
  lemma AlternationExact(s: St, es: seq<Timed>, f: Flag)
    requires AllTold(ViewOf(s.u)) && f in PAIRED
    ensures PhaseOf(Run(s, es).u.notices, f) == Broken <==> exists i | 0 <= i < |es| :: LostAt(s, es, f, i)
  {
    assert PairTold(ViewOf(s.u), f);
    RunStands(s, es, f, InStep);
    FailsExactly(s, es, f, InStep);
    StandingIsPhase(Run(s, es).u, f, AfterEvents(InStep, f, s, es));
  }

  lemma StandingIsPhase(u: Ups, f: Flag, st: Standing)
    requires f in PAIRED && Stands(u, f, st)
    ensures PhaseOf(u.notices, f) == Broken <==> st == Failed
  {
  }

  /** The same for a single wake-up, from the state it finds. */
  lemma WakeUpExact(s: St, t: int, c: Config, es: seq<Timed>, f: Flag)
    requires AllTold(ViewOf(s.u)) && f in PAIRED && NoWakeUp(es)
    ensures PhaseOf(Run(s, [Timed(t, c, Waking)] + es).u.notices, f) == Broken
      <==> (f in s.u.status && TellsAgain(es, f, f))
           || (f == ONBATT && ONLINE in s.u.status && TellsAgain(es, f, ONLINE))
  {
    var all := [Timed(t, c, Waking)] + es;
    AlternationExact(s, all, f);
    FirstLost(s, all, f);
    assert all[1..] == es;
    assert forall i | 1 <= i < |all| :: all[i] == es[i - 1] && !LostAt(s, all, f, i);
  }

  // ----- FSD -----

  function FsdNotices(log: seq<Notice>): nat
  {
    if log == [] then 0
    else FsdNotices(log[..|log| - 1]) + if log[|log| - 1] == NotifyFsd then 1 else 0
  }

  lemma FsdTold(log: seq<Notice>, n: Notice)
    ensures FsdNotices(log + [n]) == FsdNotices(log) + if n == NotifyFsd then 1 else 0
  {
    assert (log + [n])[..|log|] == log;
  }

  /** The FSD notices sent, and the one that may still come before a status without FSD. */
  function FsdBudget(u: Ups): nat
  {
    FsdNotices(u.notices) + if u.lastfsdnotify == 0 then 1 else 0
  }

  /** Tells at most one notice, and an FSD notice only when none was noted, noting it. */
  predicate Frugal(u: Ups, v: Ups)
  {
    || (v.notices == u.notices && v.lastfsdnotify == u.lastfsdnotify)
    || (v.notices != [] && v.notices == u.notices + [v.notices[|v.notices| - 1]]
        && if v.notices[|v.notices| - 1] == NotifyFsd then u.lastfsdnotify == 0 && v.lastfsdnotify != 0
           else v.lastfsdnotify == u.lastfsdnotify)
  }

  lemma FrugalBudget(u: Ups, v: Ups)
    requires Frugal(u, v)
    ensures FsdBudget(v) == FsdBudget(u)
  {
    if v.notices != u.notices {
      FsdTold(u.notices, v.notices[|v.notices| - 1]);
    }
  }

  lemma TokenBudget(c: Config, s: St, tok: Token, now: int)
    requires now != 0
    ensures FsdBudget(HandleToken(c, s, tok, now).u) == FsdBudget(s.u)
  {
    var v := HandleToken(c, s, tok, now).u;
    assert Frugal(s.u, v);
    FrugalBudget(s.u, v);
  }

  lemma {:induction false} WordsBudget(c: Config, s: St, words: seq<string>, now: int)
    requires now != 0
    ensures FsdBudget(HandleWords(c, s, words, now).u) == FsdBudget(s.u)
    decreases |words|
  {
    if words != [] {
      var next := HandleToken(c, s, Classify(words[0]), now);
      TokenBudget(c, s, Classify(words[0]), now);
      WordsBudget(c, next.(u := UpdateCritTimer(next.u, now)), words[1..], now);
    }
  }

  lemma ClearedBudget(c: Config, s: St, f: Flag)
    requires f in CLEARED
    ensures FsdBudget(Cleared(c, s, f).u) == FsdBudget(s.u)
  {
    var v := Cleared(c, s, f).u;
    assert Frugal(s.u, v);
    FrugalBudget(s.u, v);
  }

  lemma {:induction false} ClearAllBudget(c: Config, s: St, order: seq<Flag>, status: string)
    requires forall i | 0 <= i < |order| :: order[i] in CLEARED
    ensures FsdBudget(ClearAll(c, s, order, status).u) == FsdBudget(s.u)
    decreases |order|
  {
    if order != [] {
      ClearedBudget(c, s, order[0]);
      ClearAllBudget(c, ClearedUnlessNamed(c, s, order[0], status), order[1..], status);
    }
  }

  lemma ClearMissingBudget(c: Config, s: St, status: string, eco: bool)
    requires Contains(status, "FSD")
    ensures FsdBudget(ClearMissing(c, s, status, eco).u) == FsdBudget(s.u)
  {
    var s0 := s.(u := ClearedSilently(s.u, status));
    ClearAllBudget(c, s0, CLEAR_ORDER, status);
    var s1 := ClearAll(c, s0, CLEAR_ORDER, status);
    EcoBudget(c, s1, status, eco);
  }

  lemma EcoBudget(c: Config, s: St, status: string, eco: bool)
    ensures FsdBudget(UpdateEco(c, s, status, eco).u) == FsdBudget(s.u)
  {
    assert Frugal(s.u, UpdateEco(c, s, status, eco).u);
    FrugalBudget(s.u, UpdateEco(c, s, status, eco).u);
  }

  /** A status is parsed that does not contain FSD. */
  predicate ClearsFsd(ev: Event)
  {
    ev.Polled? && ev.status != "" && !Contains(ev.status, "FSD")
  }

  lemma PolledBudget(c: Config, s: St, status: string, eco: bool, now: int)
    requires now != 0 && (status == "" || Contains(status, "FSD"))
    ensures FsdBudget(PollSucceeded(c, s, status, eco, now).u) == FsdBudget(s.u)
  {
    var s0 := s.(u := s.u.(throttleState := ERR_NONE, throttleCount := -1));
    if status == "" {
      assert Frugal(s0.u, IsGone(c, s0.u, now));
      FrugalBudget(s0.u, IsGone(c, s0.u, now));
    } else {
      var alive := IsAlive(s0, now);
      assert Frugal(s0.u, alive.u);
      FrugalBudget(s0.u, alive.u);
      ClearMissingBudget(c, alive, status, eco);
      WordsBudget(c, ClearMissing(c, alive, status, eco), Split(status, ' '), now);
    }
  }

  lemma RedefinedKeepsNotices(u: Ups, l: Line)
    ensures var v := Redefined(u, l);
      v.notices == u.notices && v.lastfsdnotify == u.lastfsdnotify
  {
  }

  lemma EvaluatedKeepsNotices(c: Config, s: St, now: int)
    ensures var v := Recalculated(c, s, now).u;
      v.notices == s.u.notices && v.lastfsdnotify == s.u.lastfsdnotify
  {
  }

  lemma GoneIsFrugal(c: Config, u: Ups, now: int)
    ensures Frugal(u, IsGone(c, u, now))
  {
  }

  lemma StepBudget(s: St, e: Timed)
    requires e.now != 0 && !ClearsFsd(e.ev)
    ensures FsdBudget(Step(s, e).u) == FsdBudget(s.u)
  {
    match e.ev
    case Polled(status, eco) => PolledBudget(e.c, s, status, eco, e.now);
    case Recalc => EvaluatedKeepsNotices(e.c, s, e.now);
    case Reloading(forget, line) =>
      RedefinedKeepsNotices(if forget then ThrottleForgotten(s.u) else s.u, line);
    case Failing(err, lost) =>
      var t := Throttled(e.c.throttleMax, s.u.throttleState, s.u.throttleCount, err);
      var u := s.u.(throttleState := t.state, throttleCount := t.count);
      GoneIsFrugal(e.c, u, e.now);
      FrugalBudget(u, IsGone(e.c, u, e.now));
    case Connecting(how) =>
      var u := s.u.(status := s.u.status - {CLICONNECTED});
      GoneIsFrugal(e.c, u, e.now);
      FrugalBudget(u, IsGone(e.c, u, e.now));
    case SettingFsd(confirmed) =>
      FrugalBudget(s.u, FsdSet(s.u, confirmed, e.now));
    case Waking =>
  }

  /** Main result: from a status without FSD to the next, however the flag is raised and
      whatever else happens, at most one FSD notice is sent; none if one is noted already. */
  lemma {:induction false} FsdNoticesAreSeparated(s: St, es: seq<Timed>)
    requires forall i | 0 <= i < |es| :: es[i].now > 0 && !ClearsFsd(es[i].ev)
    ensures FsdBudget(Run(s, es).u) == FsdBudget(s.u)
    ensures FsdNotices(Run(s, es).u.notices) - FsdNotices(s.u.notices) <= if s.u.lastfsdnotify == 0 then 1 else 0
    decreases |es|
  {
    if es != [] {
      StepBudget(s, es[0]);
      FsdNoticesAreSeparated(Step(s, es[0]), es[1..]);
    }
  }
}
