/** The notices that communication is lost and is back: exactly which runs repeat one. */
module UpsComm {
  import opened Text
  import opened UpsState
  import opened UpsRuns

  /** What the log has told of the communication last. */
  datatype Heard = Nothing | Bad | Ok | BadAgain | OkUnasked

  function Next(p: Heard, n: Notice): Heard
  {
    if p == BadAgain || p == OkUnasked then p
    else if n == NotifyCommBad then (if p == Bad then BadAgain else Bad)
    else if n == NotifyCommOk then (if p == Bad then Ok else OkUnasked)
    else p
  }

  /** The notices should alternate, COMMBAD first: `BadAgain` is a COMMBAD straight after another,
      `OkUnasked` a COMMOK without a COMMBAD before it, whichever came first. */
  function HeardIn(log: seq<Notice>): Heard
  {
    if log == [] then Nothing else Next(HeardIn(log[..|log| - 1]), log[|log| - 1])
  }

  lemma HeardTold(log: seq<Notice>, n: Notice)
    ensures HeardIn(log + [n]) == Next(HeardIn(log), n)
  {
    assert (log + [n])[..|log|] == log;
  }

  /** What the alternation is about. */
  datatype Comm = Comm(heard: Heard, state: int)

  function CommOf(u: Ups): Comm
  {
    Comm(HeardIn(u.notices), u.commstate)
  }

  /** The log says what commstate does. */
  predicate InStep(m: Comm)
  {
    || (m.state == -1 && m.heard == Nothing)
    || (m.state == 0 && m.heard == Bad)
    || (m.state == 1 && m.heard in {Nothing, Ok})
  }

  /** commstate was zeroed without a notice: the next status will be told as if there had
      been one. */
  predicate Silenced(m: Comm)
  {
    m.state == 0 && m.heard in {Nothing, Ok}
  }

  // ----- handling a status tells nothing of the communication -----

  predicate SameComm(u: Ups, v: Ups)
  {
    CommOf(v) == CommOf(u)
  }

  predicate TellsAtMost(u: Ups, v: Ups)
  {
    && v.commstate == u.commstate
    && (v.notices == u.notices ||
        exists n :: v.notices == u.notices + [n] && n != NotifyCommBad && n != NotifyCommOk)
  }

  lemma OtherNotice(u: Ups, v: Ups)
    requires TellsAtMost(u, v)
    ensures SameComm(u, v)
  {
    if v.notices != u.notices {
      var n :| v.notices == u.notices + [n] && n != NotifyCommBad && n != NotifyCommOk;
      HeardTold(u.notices, n);
    }
  }

  lemma TokenTells(c: Config, s: St, tok: Token, now: int)
    ensures TellsAtMost(s.u, HandleToken(c, s, tok, now).u)
  {
  }

  lemma {:induction false} WordsTell(c: Config, s: St, words: seq<string>, now: int)
    ensures SameComm(s.u, HandleWords(c, s, words, now).u)
    decreases |words|
  {
    if words != [] {
      var next := HandleToken(c, s, Classify(words[0]), now);
      TokenTells(c, s, Classify(words[0]), now);
      OtherNotice(s.u, next.u);
      WordsTell(c, next.(u := UpdateCritTimer(next.u, now)), words[1..], now);
    }
  }

  lemma ClearedTells(c: Config, s: St, f: Flag)
    requires f in CLEARED
    ensures TellsAtMost(s.u, Cleared(c, s, f).u)
  {
  }

  lemma {:induction false} ClearAllTells(c: Config, s: St, order: seq<Flag>, status: string)
    requires forall i | 0 <= i < |order| :: order[i] in CLEARED
    ensures SameComm(s.u, ClearAll(c, s, order, status).u)
    decreases |order|
  {
    if order != [] {
      var next := ClearedUnlessNamed(c, s, order[0], status);
      ClearedTells(c, s, order[0]);
      OtherNotice(s.u, next.u);
      ClearAllTells(c, next, order[1..], status);
    }
  }

  lemma EcoTells(c: Config, s: St, status: string, eco: bool)
    ensures TellsAtMost(s.u, UpdateEco(c, s, status, eco).u)
  {
  }

  lemma ClearingTells(c: Config, s: St, status: string, eco: bool)
    ensures SameComm(s.u, ClearMissing(c, s, status, eco).u)
  {
    var s0 := s.(u := ClearedSilently(s.u, status));
    var s1 := ClearAll(c, s0, CLEAR_ORDER, status);
    assert SameComm(s.u, s0.u);
    ClearAllTells(c, s0, CLEAR_ORDER, status);
    EcoTells(c, s1, status, eco);
    OtherNotice(s1.u, UpdateEco(c, s1, status, eco).u);
  }

  // ----- the events -----

  function Alive(m: Comm): Comm
  {
    if m.state == 0 then Comm(Next(m.heard, NotifyCommOk), 1) else m.(state := 1)
  }

  function Gone(m: Comm): Comm
  {
    if m.state != 0 then Comm(Next(m.heard, NotifyCommBad), 0) else m
  }

  lemma AliveTells(s: St, now: int)
    ensures CommOf(IsAlive(s, now).u) == Alive(CommOf(s.u))
  {
    HeardTold(s.u.notices, NotifyCommOk);
  }

  lemma GoneTells(c: Config, u: Ups, now: int)
    ensures CommOf(IsGone(c, u, now)) == Gone(CommOf(u))
  {
    HeardTold(u.notices, NotifyCommBad);
    HeardTold(u.notices, NotifyNoComm);
  }

  /** A line makes upsmon reconnect: it changes how to log in before the login, or makes this
      host the primary. */
  predicate Reconnects(u: Ups, l: Line)
  {
    || (LOGIN !in u.status && (l.un != u.un || l.pw != u.pw))
    || (l.role == Primary && PRIMARY !in u.status)
  }

  lemma LineTells(u: Ups, l: Line)
    ensures CommOf(Redefined(u, l)) == if Reconnects(u, l) then CommOf(u).(state := 0) else CommOf(u)
  {
  }

  function AfterEvent(m: Comm, u: Ups, ev: Event): Comm
  {
    match ev
    case Connecting(how) => if how.Misconfigured? || how.Unreached? then Gone(m) else m
    case Polled(status, _) => if status == "" then Gone(m) else Alive(m)
    case Failing(_, _) => Gone(m)
    case Reloading(_, l) => if Reconnects(u, l) then m.(state := 0) else m
    case _ => m
  }

  lemma StatusTells(c: Config, s: St, status: string, eco: bool, now: int)
    requires status != ""
    ensures CommOf(PollSucceeded(c, s, status, eco, now).u) == Alive(CommOf(s.u))
  {
    var s0 := s.(u := s.u.(throttleState := ERR_NONE, throttleCount := -1));
    var alive := IsAlive(s0, now);
    AliveTells(s0, now);
    ClearingTells(c, alive, status, eco);
    WordsTell(c, ClearMissing(c, alive, status, eco), Split(status, ' '), now);
  }

  lemma FailureTells(c: Config, u: Ups, err: int, lost: bool, now: int)
    ensures CommOf(PollFailed(c, u, err, lost, now)) == Gone(CommOf(u))
  {
    var t := Throttled(c.throttleMax, u.throttleState, u.throttleCount, err);
    GoneTells(c, u.(throttleState := t.state, throttleCount := t.count), now);
  }

  lemma StepTells(s: St, e: Timed)
    ensures CommOf(Step(s, e).u) == AfterEvent(CommOf(s.u), s.u, e.ev)
  {
    match e.ev
    case Connecting(how) => GoneTells(e.c, s.u.(status := s.u.status - {CLICONNECTED}), e.now);
    case Polled(status, eco) =>
      if status == "" {
        GoneTells(e.c, s.u.(throttleState := ERR_NONE, throttleCount := -1), e.now);
      } else {
        StatusTells(e.c, s, status, eco, e.now);
      }
    case Failing(err, lost) => FailureTells(e.c, s.u, err, lost, e.now);
    case Reloading(forget, line) => LineTells(if forget then ThrottleForgotten(s.u) else s.u, line);
    case SettingFsd(confirmed) => OtherNotice(s.u, Step(s, e).u);
    case _ =>
  }

  // ----- the runs -----

  /** Event `i` is a line that zeroes commstate without a notice. */
  predicate SilencedAt(s: St, es: seq<Timed>, i: nat)
    requires i < |es|
  {
    var u := Run(s, es[..i]).u;
    es[i].ev.Reloading? && u.commstate != 0 && Reconnects(u, es[i].ev.line)
  }

  predicate AnswersIn(es: seq<Timed>)
  {
    exists j | 0 <= j < |es| :: Answers(es[j].ev)
  }

  /** And a status follows. */
  predicate RepeatsAt(s: St, es: seq<Timed>, i: nat)
    requires i < |es|
  {
    SilencedAt(s, es, i) && AnswersIn(es[i + 1..])
  }

  lemma AnswersStep(es: seq<Timed>)
    requires es != []
    ensures AnswersIn(es) <==> Answers(es[0].ev) || AnswersIn(es[1..])
  {
    assert forall j | 0 < j < |es| :: es[j] == es[1..][j - 1];
    if j :| 0 <= j < |es[1..]| && Answers(es[1..][j].ev) {
      assert Answers(es[j + 1].ev);
    }
  }

  lemma RepeatsStep(s: St, es: seq<Timed>)
    requires es != []
    ensures (exists i | 0 <= i < |es| :: RepeatsAt(s, es, i))
      <==> RepeatsAt(s, es, 0) || exists i | 0 <= i < |es[1..]| :: RepeatsAt(Step(s, es[0]), es[1..], i)
  {
    var next := Step(s, es[0]);
    forall i | 0 < i < |es|
      ensures RepeatsAt(s, es, i) <==> RepeatsAt(next, es[1..], i - 1)
    {
      assert es[1..][..i - 1] == es[..i][1..] && es[..i][0] == es[0];
      assert es[1..][i - 1 + 1..] == es[i + 1..];
    }
    if i :| 0 <= i < |es[1..]| && RepeatsAt(next, es[1..], i) {
      assert RepeatsAt(s, es, i + 1);
    }
    if i :| 0 <= i < |es| && RepeatsAt(s, es, i) {
      if i > 0 { assert RepeatsAt(next, es[1..], i - 1); }
    }
  }

  lemma {:induction false} UnaskedStays(s: St, es: seq<Timed>)
    requires CommOf(s.u).heard == OkUnasked
    ensures CommOf(Run(s, es).u).heard == OkUnasked
    decreases |es|
  {
    if es != [] {
      StepTells(s, es[0]);
      UnaskedStays(Step(s, es[0]), es[1..]);
    }
  }

  /** Once silenced, the next status is told by a COMMOK too many. */
  lemma {:induction false} SilencedRepeats(s: St, es: seq<Timed>)
    requires Silenced(CommOf(s.u))
    ensures CommOf(Run(s, es).u).heard == OkUnasked <==> AnswersIn(es)
    ensures CommOf(Run(s, es).u).heard != BadAgain
    decreases |es|
  {
    if es != [] {
      AnswersStep(es);
      StepTells(s, es[0]);
      if Answers(es[0].ev) {
        UnaskedStays(Step(s, es[0]), es[1..]);
      } else {
        SilencedRepeats(Step(s, es[0]), es[1..]);
      }
    }
  }

  lemma NoAnswerLater(es: seq<Timed>, k: nat)
    requires !AnswersIn(es) && k <= |es|
    ensures !AnswersIn(es[k..])
  {
    assert forall j | 0 <= j < |es[k..]| :: es[k..][j] == es[k + j];
  }

  lemma NoAnswerNoRepeat(s: St, es: seq<Timed>)
    requires !AnswersIn(es)
    ensures forall i | 0 <= i < |es| :: !RepeatsAt(s, es, i)
  {
    forall i | 0 <= i < |es|
      ensures !RepeatsAt(s, es, i)
    {
      NoAnswerLater(es, i + 1);
    }
  }

  /** Main result: no run repeats a COMMBAD, and one sends a COMMOK without a COMMBAD before it
      exactly if some line makes upsmon reconnect while the device communicates, or was never
      tried, and a status comes in after it. */
  lemma {:induction false} CommNoticesExact(s: St, es: seq<Timed>)
    requires InStep(CommOf(s.u))
    ensures CommOf(Run(s, es).u).heard != BadAgain
    ensures CommOf(Run(s, es).u).heard == OkUnasked <==> exists i | 0 <= i < |es| :: RepeatsAt(s, es, i)
    decreases |es|
  {
    if es != [] {
      var next, rest := Step(s, es[0]), es[1..];
      StepTells(s, es[0]);
      RepeatsStep(s, es);
      assert es[..0] == [] && Run(s, []) == s;
      if SilencedAt(s, es, 0) {
        SilencedRepeats(next, rest);
        if !AnswersIn(rest) {
          NoAnswerNoRepeat(next, rest);
        }
      } else {
        CommNoticesExact(next, rest);
      }
    }
  }

  /** A new device starts that way. */
  lemma NewUpsInStep(sys: string, pv: nat, un: string, pw: string, primary: bool)
    ensures InStep(CommOf(NewUps(sys, pv, un, pw, primary)))
  {
  }

  /** A wake-up with a readable file does it to every device this host is the primary of: if it
      communicated before, its next status is told as the return of a communication never lost. */
  lemma WokenPrimaryRepeats(s: St, woken: Timed, line: Timed, status: Timed)
    requires InStep(CommOf(s.u)) && s.u.commstate != 0
    requires woken.ev.Waking? && line.ev.Reloading? && line.ev.line.role == Primary && Answers(status.ev)
    ensures CommOf(Run(s, [woken, line, status]).u).heard == OkUnasked
  {
    var es := [woken, line, status];
    CommNoticesExact(s, es);
    assert es[..1] == [woken] && [woken][1..] == [];
    assert Run(s, [woken]) == Run(Step(s, woken), []);
    assert SilencedAt(s, es, 1);
    assert es[2..][0] == status;
    assert RepeatsAt(s, es, 1);
  }
}
