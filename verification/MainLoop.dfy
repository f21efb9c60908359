/** The turns of upsmon's main loop over all its devices, with the reloads and wake-ups between
    them, and each device's part in them. */
module MainLoop {
  import opened Text
  import opened UpsState
  import opened UpsRuns
  import UpsComm
  import UpsNotices
  import Reload
  import Shutdown

  // ----- a poll -----

  /** A device's answer to one poll. */
  datatype Answer = Got(status: string, eco: bool) | Refused(err: int, lost: bool)

  function Answered(c: Config, s: St, answer: Answer, now: int): St
  {
    match answer
    case Got(status, eco) => PollSucceeded(c, s, status, eco, now)
    case Refused(err, lost) => s.(u := PollFailed(c, s.u, err, lost, now))
  }

  /** One device's part of a polling loop: how a connection attempt would end, and the answer. */
  datatype Exchange = Exchange(how: Connection, answer: Answer)

  /** What `pollups` does: a connection attempt if there is none, and then the poll. */
  function PolledUps(c: Config, s: St, x: Exchange, now: int): St
  {
    var connected := CLICONNECTED in s.u.status;
    var r := if connected then s else s.(u := Connected(c, s.u, x.how, now));
    if !connected && x.how != Up then r else Answered(c, r, x.answer, now)
  }

  function AnswerEvent(answer: Answer): Event
  {
    match answer
    case Got(status, eco) => Polled(status, eco)
    case Refused(err, lost) => Failing(err, lost)
  }

  function PollEvents(c: Config, u: Ups, x: Exchange, now: int): seq<Timed>
  {
    var poll := Timed(now, c, AnswerEvent(x.answer));
    if CLICONNECTED in u.status then [poll]
    else if x.how != Up then [Timed(now, c, Connecting(x.how))]
    else [Timed(now, c, Connecting(x.how)), poll]
  }

  /** A poll is one or two events of a device's run. */
  lemma {:induction false} PollIsRun(c: Config, s: St, x: Exchange, now: int)
    ensures PolledUps(c, s, x, now) == Run(s, PollEvents(c, s.u, x, now))
  {
    var es := PollEvents(c, s.u, x, now);
    if |es| == 2 {
      var next := Step(s, es[0]);
      assert es[1..] == [es[1]] && es[1..][1..] == [];
      assert Run(next, es[1..]) == Step(next, es[1]);
    } else {
      assert es[1..] == [];
    }
  }

  /** A device is asked only over a connection: an attempt is made exactly if there is none, and the
      poll follows exactly if there was one or the attempt got through. */
  lemma PollAsksConnected(c: Config, s: St, x: Exchange, now: int)
    ensures var es := PollEvents(c, s.u, x, now);
      && es != [] && (es[0].ev.Connecting? <==> CLICONNECTED !in s.u.status)
      && (es[|es| - 1].ev == AnswerEvent(x.answer)
          <==> CLICONNECTED in Run(s, es[..|es| - 1]).u.status && (|es| == 2 ==> x.how.Up?))
      && |es| == if CLICONNECTED !in s.u.status && x.how.Up? then 2 else 1
  {
    var es := PollEvents(c, s.u, x, now);
    assert es[..|es| - 1] == if |es| == 2 then [es[0]] else [];
    assert [es[0]][1..] == [];
    if |es| == 2 {
      assert Run(s, [es[0]]) == Step(s, es[0]);
    }
  }

  datatype Polls = Polls(upses: seq<Ups>, interval: nat)

  /** The devices one after another share the interval; those after the last exchange are
      not polled in this turn. */
  function PolledAll(c: Config, us: seq<Ups>, interval: nat, xs: seq<Exchange>, now: int): Polls
    decreases |us|
  {
    if us == [] || xs == [] then Polls(us, interval)
    else
      var s := PolledUps(c, St(us[0], interval), xs[0], now);
      var rest := PolledAll(c, us[1..], s.sleepval, xs[1..], now);
      rest.(upses := [s.u] + rest.upses)
  }

  // ----- before the polls -----

  /** A configuration as it is read: its MONITOR lines, and the rest of it. */
  datatype File = File(raws: seq<Reload.RawLine>, c: Config)

  /** A reload, or a wake-up, which reloads too; there is no file if it cannot be read. */
  datatype Change = Change(woken: bool, file: Option<File>)

  function Awake(us: seq<Ups>, now: int): seq<Ups>
  {
    if us == [] then [] else [Woken(us[0], now)] + Awake(us[1..], now)
  }

  /** The devices, the configuration they are under, and whether it can work. */
  datatype Prepared = Prepared(upses: seq<Ups>, c: Config, ok: bool)

  function AfterChange(c: Config, us: seq<Ups>, ch: Change, now: int): Prepared
  {
    var vs := if ch.woken then Awake(us, now) else us;
    match ch.file
    case None => Prepared(vs, c, true)
    case Some(f) =>
      var t := Reload.Reloaded(vs, Reload.ParseLines(f.raws), c.throttleMax >= 0);
      Prepared(t.upses, f.c, t.totalpv >= f.c.minsupplies)
  }

  /** upsmon ends with the first configuration that cannot work. */
  function AfterChanges(c: Config, us: seq<Ups>, chs: seq<Change>, now: int): Prepared
    decreases |chs|
  {
    if chs == [] then Prepared(us, c, true)
    else
      var p := AfterChange(c, us, chs[0], now);
      if p.ok then AfterChanges(p.c, p.upses, chs[1..], now) else p
  }

  // ----- a turn -----

  /** The system, and the configuration it is under. */
  datatype Host = Host(sys: Shutdown.Sys, c: Config)

  /** What one turn meets. */
  datatype Input = Input(
    now: int, usePipe: bool, userfsd: bool, changes: seq<Change>, exchanges: seq<Exchange>,
    confirmed: set<string>, rounds: seq<Shutdown.Round>)

  function PreparedFor(h: Host, x: Input): Prepared
  {
    AfterChanges(h.c, h.sys.upses, x.changes, x.now)
  }

  /** The cycle a turn makes: a user's request comes first, then reloads and wake-ups, and the
      polls if upsmon goes on. */
  function CycleOf(h: Host, x: Input): Shutdown.Cycle
  {
    var p := PreparedFor(h, x);
    var polls := if p.ok then PolledAll(p.c, p.upses, h.sys.sleepval, x.exchanges, x.now)
                 else Polls(p.upses, h.sys.sleepval);
    Shutdown.Cycle(x.now, if x.userfsd then h.c else p.c, x.usePipe, x.userfsd, polls.upses, polls.interval,
                   |x.exchanges| < |p.upses|, !p.ok, x.confirmed, x.rounds)
  }

  function Turn(h: Host, x: Input): Host
  {
    Host(Shutdown.RunCycle(h.sys, CycleOf(h, x)),
         if h.sys.phase != Shutdown.Running || x.userfsd then h.c else PreparedFor(h, x).c)
  }

  function Turns(h: Host, xs: seq<Input>): Host
    decreases |xs|
  {
    if xs == [] then h else Turns(Turn(h, xs[0]), xs[1..])
  }

  /** The cycles the turns make. */
  function Cycles(h: Host, xs: seq<Input>): seq<Shutdown.Cycle>
    decreases |xs|
  {
    if xs == [] then [] else [CycleOf(h, xs[0])] + Cycles(Turn(h, xs[0]), xs[1..])
  }

  /** So what `Shutdown` proves of every run holds of these. */
  lemma {:induction false} TurnsAreCycles(h: Host, xs: seq<Input>)
    ensures Turns(h, xs).sys == Shutdown.RunCycles(h.sys, Cycles(h, xs))
    decreases |xs|
  {
    if xs != [] {
      TurnsAreCycles(Turn(h, xs[0]), xs[1..]);
      assert Cycles(h, xs)[1..] == Cycles(Turn(h, xs[0]), xs[1..]);
    }
  }

  // ----- the interval does not matter to the devices -----

  lemma TokenIgnoresInterval(c: Config, u: Ups, a: nat, b: nat, tok: Token, now: int)
    ensures HandleToken(c, St(u, a), tok, now).u == HandleToken(c, St(u, b), tok, now).u
  {
  }

  lemma {:induction false} WordsIgnoreInterval(c: Config, u: Ups, a: nat, b: nat, words: seq<string>, now: int)
    ensures HandleWords(c, St(u, a), words, now).u == HandleWords(c, St(u, b), words, now).u
    decreases |words|
  {
    if words != [] {
      var tok := Classify(words[0]);
      TokenIgnoresInterval(c, u, a, b, tok, now);
      var s, t := HandleToken(c, St(u, a), tok, now), HandleToken(c, St(u, b), tok, now);
      WordsIgnoreInterval(c, UpdateCritTimer(s.u, now), s.sleepval, t.sleepval, words[1..], now);
    }
  }

  lemma ClearedIgnoresInterval(c: Config, u: Ups, a: nat, b: nat, f: Flag)
    requires f in CLEARED
    ensures Cleared(c, St(u, a), f).u == Cleared(c, St(u, b), f).u
  {
  }

  lemma {:induction false} ClearAllIgnoresInterval(c: Config, u: Ups, a: nat, b: nat, order: seq<Flag>, status: string)
    requires forall i | 0 <= i < |order| :: order[i] in CLEARED
    ensures ClearAll(c, St(u, a), order, status).u == ClearAll(c, St(u, b), order, status).u
    decreases |order|
  {
    if order != [] {
      ClearedIgnoresInterval(c, u, a, b, order[0]);
      var s := ClearedUnlessNamed(c, St(u, a), order[0], status);
      var t := ClearedUnlessNamed(c, St(u, b), order[0], status);
      ClearAllIgnoresInterval(c, s.u, s.sleepval, t.sleepval, order[1..], status);
    }
  }

  lemma EcoIgnoresInterval(c: Config, u: Ups, a: nat, b: nat, status: string, eco: bool)
    ensures UpdateEco(c, St(u, a), status, eco).u == UpdateEco(c, St(u, b), status, eco).u
  {
  }

  lemma ParseIgnoresInterval(c: Config, u: Ups, a: nat, b: nat, status: string, eco: bool, now: int)
    ensures ParseStatus(c, St(u, a), status, eco, now).u == ParseStatus(c, St(u, b), status, eco, now).u
  {
    if status != "" {
      var v := IsAlive(St(u, a), now).u;
      assert IsAlive(St(u, a), now) == St(v, a) && IsAlive(St(u, b), now) == St(v, b);
      var w := ClearedSilently(v, status);
      ClearAllIgnoresInterval(c, w, a, b, CLEAR_ORDER, status);
      var s, t := ClearAll(c, St(w, a), CLEAR_ORDER, status), ClearAll(c, St(w, b), CLEAR_ORDER, status);
      EcoIgnoresInterval(c, s.u, s.sleepval, t.sleepval, status, eco);
      var s1, t1 := UpdateEco(c, s, status, eco), UpdateEco(c, t, status, eco);
      WordsIgnoreInterval(c, s1.u, s1.sleepval, t1.sleepval, Split(status, ' '), now);
    }
  }

  lemma StepIgnoresInterval(u: Ups, a: nat, b: nat, e: Timed)
    ensures Step(St(u, a), e).u == Step(St(u, b), e).u
  {
    match e.ev
    case Polled(status, eco) =>
      ParseIgnoresInterval(e.c, u.(throttleState := ERR_NONE, throttleCount := -1), a, b, status, eco, e.now);
    case _ =>
  }

  lemma {:induction false} RunIgnoresInterval(u: Ups, a: nat, b: nat, es: seq<Timed>)
    ensures Run(St(u, a), es).u == Run(St(u, b), es).u
    decreases |es|
  {
    if es != [] {
      StepIgnoresInterval(u, a, b, es[0]);
      var s, t := Step(St(u, a), es[0]), Step(St(u, b), es[0]);
      RunIgnoresInterval(s.u, s.sleepval, t.sleepval, es[1..]);
    }
  }

  lemma {:induction false} RunConcat(s: St, a: seq<Timed>, b: seq<Timed>)
    ensures Run(s, a + b) == Run(Run(s, a), b)
    decreases |a|
  {
    if a == [] {
      assert a + b == b;
    } else {
      assert (a + b)[1..] == a[1..] + b;
      RunConcat(Step(s, a[0]), a[1..], b);
    }
  }

  // ----- one device among the others -----

  /** The device a run leads to. */
  function Led(u: Ups, es: seq<Timed>): Ups
  {
    Run(St(u, 0), es).u
  }

  lemma LedFurther(u: Ups, a: seq<Timed>, b: seq<Timed>)
    ensures Led(u, a + b) == Led(Led(u, a), b)
  {
    RunConcat(St(u, 0), a, b);
    var s := Run(St(u, 0), a);
    RunIgnoresInterval(s.u, s.sleepval, 0, b);
  }

  lemma LedOnce(u: Ups, e: Timed, interval: nat)
    ensures Led(u, [e]) == Step(St(u, interval), e).u
  {
    assert [e][1..] == [];
    assert Run(St(u, 0), [e]) == Run(Step(St(u, 0), e), []);
    StepIgnoresInterval(u, interval, 0, e);
  }

  lemma {:induction false} PolledAt(c: Config, us: seq<Ups>, interval: nat, xs: seq<Exchange>, now: int)
    ensures var r := PolledAll(c, us, interval, xs, now).upses;
      && |r| == |us|
      && forall i | 0 <= i < |us| :: r[i] == if i < |xs| then Led(us[i], PollEvents(c, us[i], xs[i], now)) else us[i]
    decreases |us|
  {
    if us != [] && xs != [] {
      var s := PolledUps(c, St(us[0], interval), xs[0], now);
      PolledAt(c, us[1..], s.sleepval, xs[1..], now);
      PollIsRun(c, St(us[0], interval), xs[0], now);
      RunIgnoresInterval(us[0], interval, 0, PollEvents(c, us[0], xs[0], now));
    }
  }

  lemma {:induction false} RecalculatedAt(c: Config, us: seq<Ups>, sleepval: nat, sum: nat, now: int)
    ensures var r := Shutdown.RecalcFrom(c, us, sleepval, sum, now).upses;
      && |r| == |us|
      && forall i | 0 <= i < |us| :: r[i] == Led(us[i], [Timed(now, c, Recalc)])
    decreases |us|
  {
    if us != [] {
      var s := Recalculated(c, St(us[0], sleepval), now);
      LedOnce(us[0], Timed(now, c, Recalc), sleepval);
      RecalculatedAt(c, us[1..], s.sleepval,
                     if JudgedCritical(c, us[0], now) then sum else Reload.Added(sum, us[0].pv), now);
    }
  }

  function FsdEvents(u: Ups, c: Config, x: Input): seq<Timed>
  {
    if Shutdown.IsPrimary(u) then [Timed(x.now, c, SettingFsd(u.sys in x.confirmed))] else []
  }

  lemma {:induction false} CommandedAt(us: seq<Ups>, c: Config, x: Input)
    ensures var r := Shutdown.AfterFsd(us, x.confirmed, x.now);
      && |r| == |us|
      && forall i | 0 <= i < |us| :: r[i] == Led(us[i], FsdEvents(us[i], c, x))
    decreases |us|
  {
    if us != [] {
      CommandedAt(us[1..], c, x);
      if Shutdown.IsPrimary(us[0]) {
        LedOnce(us[0], Timed(x.now, c, SettingFsd(us[0].sys in x.confirmed)), 0);
      }
    }
  }

  /** What happens to the device at position `i` once the turn is prepared. */
  function Events(h: Host, x: Input, i: nat): seq<Timed>
  {
    var p := PreparedFor(h, x);
    if i >= |p.upses| then []
    else
      var polled := if i < |x.exchanges| then PollEvents(p.c, p.upses[i], x.exchanges[i], x.now) else [];
      if |x.exchanges| < |p.upses| then polled
      else
        var seen := polled + [Timed(x.now, p.c, Recalc)];
        seen + if Shutdown.Decided(h.sys, CycleOf(h, x)).Force? then FsdEvents(Led(p.upses[i], seen), p.c, x) else []
  }

  /** The turn goes on to its polls. */
  predicate Polling(h: Host, x: Input)
  {
    h.sys.phase == Shutdown.Running && !x.userfsd && PreparedFor(h, x).ok
  }

  lemma TurnsApart(h: Host, x: Input, i: nat)
    requires Polling(h, x) && i < |PreparedFor(h, x).upses|
    ensures var us := PreparedFor(h, x).upses;
      |Turn(h, x).sys.upses| == |us| && Turn(h, x).sys.upses[i] == Led(us[i], Events(h, x, i))
  {
    var p, k := PreparedFor(h, x), CycleOf(h, x);
    PolledAt(p.c, p.upses, h.sys.sleepval, x.exchanges, x.now);
    var polled := if i < |x.exchanges| then PollEvents(p.c, p.upses[i], x.exchanges[i], x.now) else [];
    assert k.polled[i] == Led(p.upses[i], polled);
    if !k.abandoned {
      DecidedApart(h, x, k, p, polled, i);
    }
  }

  lemma DecidedApart(h: Host, x: Input, k: Shutdown.Cycle, p: Prepared, polled: seq<Timed>, i: nat)
    requires Polling(h, x) && k == CycleOf(h, x) && !k.abandoned && p == PreparedFor(h, x)
    requires i < |p.upses| == |k.polled| && k.polled[i] == Led(p.upses[i], polled)
    ensures var seen := polled + [Timed(x.now, p.c, Recalc)];
      && |Turn(h, x).sys.upses| == |p.upses|
      && Turn(h, x).sys.upses[i] == Led(p.upses[i],
           seen + if Shutdown.Decided(h.sys, k).Force? then FsdEvents(Led(p.upses[i], seen), p.c, x) else [])
  {
    var seen := polled + [Timed(x.now, p.c, Recalc)];
    var r := Shutdown.RecalcFrom(p.c, k.polled, k.interval, 0, x.now);
    assert |r.upses| == |p.upses| && r.upses[i] == Led(p.upses[i], seen) by {
      RecalculatedAt(p.c, k.polled, k.interval, 0, x.now);
      LedFurther(p.upses[i], polled, [Timed(x.now, p.c, Recalc)]);
    }
    DecidedUpses(h, x, k);
    if Shutdown.Decided(h.sys, k).Force? {
      CommandedAt(r.upses, p.c, x);
      LedFurther(p.upses[i], seen, FsdEvents(r.upses[i], p.c, x));
    } else {
      assert seen + [] == seen;
    }
  }

  lemma DecidedUpses(h: Host, x: Input, k: Shutdown.Cycle)
    requires Polling(h, x) && k == CycleOf(h, x) && !k.abandoned
    ensures var us := Shutdown.RecalcFrom(k.c, k.polled, k.interval, 0, x.now).upses;
      Turn(h, x).sys.upses
        == if Shutdown.Decided(h.sys, k).Force? then Shutdown.AfterFsd(us, x.confirmed, x.now) else us
  {
    Shutdown.RecalcCounts(k.c, k.polled, k.interval, 0, x.now);
  }

  // ----- a device followed by its name -----

  /** A device as it began, and everything that has happened to it since. */
  datatype Story = Story(start: Ups, es: seq<Timed>)

  function Going(o: Option<Story>, es: seq<Timed>): Option<Story>
  {
    match o case None => None case Some(st) => Some(Story(st.start, st.es + es))
  }

  /** The lines of a name: the first begins the device if it is not there. */
  function LinesStory(o: Option<Story>, lines: seq<Line>, forget: bool, c: Config, now: int, sys: string): Option<Story>
    decreases |lines|
  {
    if lines == [] then o
    else
      var next := if lines[0].sys != sys then o
                  else if o == None then Some(Story(Reload.NewFrom(lines[0]), []))
                  else Going(o, [Timed(now, c, Reloading(forget, lines[0]))]);
      LinesStory(next, lines[1..], forget, c, now, sys)
  }

  /** A device no line names is gone. */
  function ChangeStory(o: Option<Story>, c: Config, ch: Change, now: int, sys: string): Option<Story>
  {
    var woken := if ch.woken then Going(o, [Timed(now, c, Waking)]) else o;
    match ch.file
    case None => woken
    case Some(f) =>
      var lines := Reload.ParseLines(f.raws);
      if Reload.Named(lines, sys) then LinesStory(woken, lines, c.throttleMax >= 0, c, now, sys) else None
  }

  function ChangesStory(o: Option<Story>, c: Config, us: seq<Ups>, chs: seq<Change>, now: int, sys: string)
    : Option<Story>
    decreases |chs|
  {
    if chs == [] then o
    else
      var p, next := AfterChange(c, us, chs[0], now), ChangeStory(o, c, chs[0], now, sys);
      if p.ok then ChangesStory(next, p.c, p.upses, chs[1..], now, sys) else next
  }

  function TurnStory(o: Option<Story>, h: Host, x: Input, sys: string): Option<Story>
  {
    if h.sys.phase != Shutdown.Running then o
    else if x.userfsd then
      match Reload.FindDevice(h.sys.upses, sys)
      case None => o
      case Some(u) => Going(o, FsdEvents(u, h.c, x))
    else
      var ready := ChangesStory(o, h.c, h.sys.upses, x.changes, x.now, sys);
      var p := PreparedFor(h, x);
      if p.ok then Going(ready, Events(h, x, Reload.FindUps(p.upses, sys))) else ready
  }

  function StoryFrom(o: Option<Story>, h: Host, xs: seq<Input>, sys: string): Option<Story>
    decreases |xs|
  {
    if xs == [] then o else StoryFrom(TurnStory(o, h, xs[0], sys), Turn(h, xs[0]), xs[1..], sys)
  }

  function Beginning(us: seq<Ups>, sys: string): Option<Story>
  {
    match Reload.FindDevice(us, sys) case None => None case Some(u) => Some(Story(u, []))
  }

  /** What happens to the device of that name over the turns. */
  function StoryOf(h: Host, xs: seq<Input>, sys: string): Option<Story>
  {
    StoryFrom(Beginning(h.sys.upses, sys), h, xs, sys)
  }

  function Outcome(o: Option<Story>): Option<Ups>
  {
    match o case None => None case Some(st) => Some(Led(st.start, st.es))
  }

  /** The story tells what the list has. */
  predicate Tells(us: seq<Ups>, o: Option<Story>, sys: string)
  {
    Reload.FindDevice(us, sys) == Outcome(o)
  }

  lemma GoingLeads(st: Story, es: seq<Timed>)
    ensures Outcome(Going(Some(st), es)) == Some(Led(Led(st.start, st.es), es))
  {
    LedFurther(st.start, st.es, es);
  }

  // ----- names stay -----

  lemma StepKeepsName(s: St, e: Timed)
    ensures Step(s, e).u.sys == s.u.sys
  {
    match e.ev
    case Polled(status, eco) =>
      if status != "" {
        PollKeeps(e.c, s, status, eco, e.now);
        assert KeptOf(Step(s, e).u).sys == KeptOf(s.u).sys;
      }
    case Reloading(forget, line) =>
      Reload.RedefinedName(if forget then ThrottleForgotten(s.u) else s.u, line);
    case _ =>
  }

  lemma {:induction false} RunKeepsName(s: St, es: seq<Timed>)
    ensures Run(s, es).u.sys == s.u.sys
    decreases |es|
  {
    if es != [] {
      StepKeepsName(s, es[0]);
      RunKeepsName(Step(s, es[0]), es[1..]);
    }
  }

  lemma {:induction false} SameFind(us: seq<Ups>, vs: seq<Ups>, sys: string)
    requires |us| == |vs| && forall i | 0 <= i < |us| :: us[i].sys == vs[i].sys
    ensures Reload.FindUps(us, sys) == Reload.FindUps(vs, sys)
    decreases |us|
  {
    if us != [] {
      SameFind(us[1..], vs[1..], sys);
    }
  }

  lemma {:induction false} AwakeDevice(us: seq<Ups>, now: int, sys: string)
    requires Reload.DistinctNames(us)
    ensures Reload.DistinctNames(Awake(us, now))
    ensures Reload.FindDevice(Awake(us, now), sys)
      == match Reload.FindDevice(us, sys) case None => None case Some(u) => Some(Woken(u, now))
  {
    AwakeAt(us, now);
    SameFind(us, Awake(us, now), sys);
  }

  lemma {:induction false} AwakeAt(us: seq<Ups>, now: int)
    ensures |Awake(us, now)| == |us|
    ensures forall i | 0 <= i < |us| :: Awake(us, now)[i] == Woken(us[i], now)
    decreases |us|
  {
    if us != [] {
      AwakeAt(us[1..], now);
    }
  }

  // ----- a reload as events -----

  predicate Reset(u: Ups)
  {
    u.throttleState == ERR_NONE && u.throttleCount == -1
  }

  lemma RedefinedReset(u: Ups, l: Line)
    ensures Reset(u) ==> Reset(Redefined(u, l))
  {
  }

  lemma RetainIsSet(u: Ups, l: Line)
    ensures Redefined(u.(retain := false), l) == Redefined(u, l)
  {
  }

  lemma NewIsReset(l: Line)
    ensures Reset(Reload.NewFrom(l)) && Reload.NewFrom(l).sys == l.sys
  {
  }

  lemma ResetForgets(u: Ups)
    requires Reset(u)
    ensures ThrottleForgotten(u) == u
  {
  }

  /** The lines of one name, applied one after another, are that many events. */
  lemma {:induction false} LinesLead(u: Ups, st: Story, lines: seq<Line>, forget: bool, c: Config, now: int)
    requires Led(st.start, st.es) == u && (forget ==> Reset(u))
    ensures var o := LinesStory(Some(st), lines, forget, c, now, u.sys);
      Outcome(o) == Some(Reload.Settled(u, lines))
    decreases |lines|
  {
    if lines != [] {
      var l := lines[0];
      if l.sys == u.sys {
        var e := Timed(now, c, Reloading(forget, l));
        if forget { ResetForgets(u); }
        GoingLeads(st, [e]);
        LedOnce(u, e, 0);
        var v := Redefined(u, l);
        Reload.RedefinedName(u, l);
        RedefinedReset(u, l);
        LinesLead(v, Going(Some(st), [e]).value, lines[1..], forget, c, now);
      } else {
        LinesLead(u, st, lines[1..], forget, c, now);
      }
    }
  }

  /** For a device that is there, forgetting the throttle comes with its first line. */
  lemma {:induction false} KnownLinesLead(u: Ups, st: Story, lines: seq<Line>, forget: bool, c: Config, now: int)
    requires Led(st.start, st.es) == u && Reload.Named(lines, u.sys)
    ensures var o := LinesStory(Some(st), lines, forget, c, now, u.sys);
      Outcome(o) == Some(Reload.Settled(Reload.UnmarkedOne(u, forget), lines))
    decreases |lines|
  {
    var l, marked := lines[0], Reload.UnmarkedOne(u, forget);
    Reload.NamedStep(lines, u.sys);
    if l.sys == u.sys {
      var e := Timed(now, c, Reloading(forget, l));
      var w := if forget then ThrottleForgotten(u) else u;
      var v := Redefined(w, l);
      GoingLeads(st, [e]);
      LedOnce(u, e, 0);
      RetainIsSet(w, l);
      assert marked == w.(retain := false) && Redefined(marked, l) == v;
      Reload.RedefinedName(w, l);
      RedefinedReset(w, l);
      LinesLead(v, Going(Some(st), [e]).value, lines[1..], forget, c, now);
    } else {
      KnownLinesLead(u, st, lines[1..], forget, c, now);
    }
  }

  lemma {:induction false} NewLinesLead(lines: seq<Line>, forget: bool, c: Config, now: int, sys: string)
    ensures Outcome(LinesStory(None, lines, forget, c, now, sys)) == Reload.Applied(None, lines, sys)
    decreases |lines|
  {
    if lines != [] {
      if lines[0].sys == sys {
        var u := Reload.NewFrom(lines[0]);
        NewIsReset(lines[0]);
        LinesLead(u, Story(u, []), lines[1..], forget, c, now);
      } else {
        NewLinesLead(lines[1..], forget, c, now, sys);
      }
    }
  }

  lemma WakingTells(us: seq<Ups>, o: Option<Story>, c: Config, now: int, sys: string)
    requires Reload.DistinctNames(us) && Tells(us, o, sys)
    ensures Reload.DistinctNames(Awake(us, now)) && Tells(Awake(us, now), Going(o, [Timed(now, c, Waking)]), sys)
  {
    AwakeDevice(us, now, sys);
    if o.Some? {
      var e := Timed(now, c, Waking);
      GoingLeads(o.value, [e]);
      LedOnce(Led(o.value.start, o.value.es), e, 0);
    }
  }

  lemma ReadingTells(us: seq<Ups>, o: Option<Story>, lines: seq<Line>, forget: bool, c: Config, now: int, sys: string)
    requires Reload.DistinctNames(us) && Tells(us, o, sys)
    ensures var vs := Reload.Reloaded(us, lines, forget).upses;
      && Reload.DistinctNames(vs)
      && Tells(vs, if Reload.Named(lines, sys) then LinesStory(o, lines, forget, c, now, sys) else None, sys)
  {
    Reload.ReloadedDevice(us, lines, forget, sys);
    if Reload.Named(lines, sys) {
      if o == None {
        NewLinesLead(lines, forget, c, now, sys);
      } else {
        var u := Led(o.value.start, o.value.es);
        assert u.sys == sys;
        KnownLinesLead(u, o.value, lines, forget, c, now);
      }
    }
  }

  lemma ChangeTells(us: seq<Ups>, o: Option<Story>, c: Config, ch: Change, now: int, sys: string)
    requires Reload.DistinctNames(us) && Tells(us, o, sys)
    ensures var vs := AfterChange(c, us, ch, now).upses;
      Reload.DistinctNames(vs) && Tells(vs, ChangeStory(o, c, ch, now, sys), sys)
  {
    var vs := if ch.woken then Awake(us, now) else us;
    var woken := if ch.woken then Going(o, [Timed(now, c, Waking)]) else o;
    if ch.woken {
      WakingTells(us, o, c, now, sys);
    }
    if ch.file.Some? {
      ReadingTells(vs, woken, Reload.ParseLines(ch.file.value.raws), c.throttleMax >= 0, c, now, sys);
    }
  }

  lemma {:induction false} ChangesTell(us: seq<Ups>, o: Option<Story>, c: Config, chs: seq<Change>, now: int,
                                       sys: string)
    requires Reload.DistinctNames(us) && Tells(us, o, sys)
    ensures var vs := AfterChanges(c, us, chs, now).upses;
      Reload.DistinctNames(vs) && Tells(vs, ChangesStory(o, c, us, chs, now, sys), sys)
    decreases |chs|
  {
    if chs != [] {
      var p := AfterChange(c, us, chs[0], now);
      ChangeTells(us, o, c, chs[0], now, sys);
      if p.ok {
        ChangesTell(p.upses, ChangeStory(o, c, chs[0], now, sys), p.c, chs[1..], now, sys);
      }
    }
  }

  /** Where every device is led on by its own events, so are the stories. */
  lemma LedTells(us: seq<Ups>, vs: seq<Ups>, o: Option<Story>, es: seq<Timed>, sys: string)
    requires Reload.DistinctNames(us) && Tells(us, o, sys) && |us| == |vs|
    requires forall i | 0 <= i < |us| :: vs[i].sys == us[i].sys
    requires var k := Reload.FindUps(us, sys); k < |us| ==> vs[k] == Led(us[k], es)
    ensures Reload.DistinctNames(vs) && Tells(vs, Going(o, es), sys)
  {
    SameFind(us, vs, sys);
    if o.Some? {
      GoingLeads(o.value, es);
    }
  }

  lemma ForcedTells(h: Host, x: Input, o: Option<Story>, sys: string)
    requires h.sys.phase == Shutdown.Running && x.userfsd
    requires Reload.DistinctNames(h.sys.upses) && Tells(h.sys.upses, o, sys)
    ensures Reload.DistinctNames(Turn(h, x).sys.upses) && Tells(Turn(h, x).sys.upses, TurnStory(o, h, x, sys), sys)
  {
    var us, k := h.sys.upses, Reload.FindUps(h.sys.upses, sys);
    var vs := Turn(h, x).sys.upses;
    CommandedAt(us, h.c, x);
    assert vs == Shutdown.AfterFsd(us, x.confirmed, x.now);
    forall i | 0 <= i < |us|
      ensures vs[i].sys == us[i].sys
    {
      RunKeepsName(St(us[i], 0), FsdEvents(us[i], h.c, x));
    }
    if k < |us| {
      LedTells(us, vs, o, FsdEvents(us[k], h.c, x), sys);
    } else {
      LedTells(us, vs, o, [], sys);
    }
  }

  lemma PolledTells(h: Host, x: Input, ready: Option<Story>, sys: string)
    requires Polling(h, x)
    requires var us := PreparedFor(h, x).upses; Reload.DistinctNames(us) && Tells(us, ready, sys)
    ensures var next := Turn(h, x).sys.upses;
      && Reload.DistinctNames(next)
      && Tells(next, Going(ready, Events(h, x, Reload.FindUps(PreparedFor(h, x).upses, sys))), sys)
  {
    var us, vs := PreparedFor(h, x).upses, Turn(h, x).sys.upses;
    var k := Reload.FindUps(us, sys);
    if us == [] {
      TurnOfNone(h, x);
    } else {
      TurnsApart(h, x, 0);
    }
    forall i | 0 <= i < |us|
      ensures vs[i] == Led(us[i], Events(h, x, i)) && vs[i].sys == us[i].sys
    {
      TurnsApart(h, x, i);
      RunKeepsName(St(us[i], 0), Events(h, x, i));
    }
    LedTells(us, vs, ready, Events(h, x, k), sys);
  }

  lemma TurnOfNone(h: Host, x: Input)
    requires Polling(h, x) && PreparedFor(h, x).upses == []
    ensures Turn(h, x).sys.upses == []
  {
    var k := CycleOf(h, x);
    assert k.polled == [];
    if !k.abandoned {
      DecidedUpses(h, x, k);
    }
  }

  lemma TurnTells(h: Host, x: Input, o: Option<Story>, sys: string)
    requires Reload.DistinctNames(h.sys.upses) && Tells(h.sys.upses, o, sys)
    ensures Reload.DistinctNames(Turn(h, x).sys.upses) && Tells(Turn(h, x).sys.upses, TurnStory(o, h, x, sys), sys)
  {
    if h.sys.phase == Shutdown.Running {
      if x.userfsd {
        ForcedTells(h, x, o, sys);
      } else {
        ChangesTell(h.sys.upses, o, h.c, x.changes, x.now, sys);
        if PreparedFor(h, x).ok {
          PolledTells(h, x, ChangesStory(o, h.c, h.sys.upses, x.changes, x.now, sys), sys);
        }
      }
    }
  }

  lemma {:induction false} StoryTells(h: Host, xs: seq<Input>, o: Option<Story>, sys: string)
    requires Reload.DistinctNames(h.sys.upses) && Tells(h.sys.upses, o, sys)
    ensures Reload.DistinctNames(Turns(h, xs).sys.upses)
    ensures Tells(Turns(h, xs).sys.upses, StoryFrom(o, h, xs, sys), sys)
    decreases |xs|
  {
    if xs != [] {
      TurnTells(h, xs[0], o, sys);
      StoryTells(Turn(h, xs[0]), xs[1..], TurnStory(o, h, xs[0], sys), sys);
    }
  }

  /** Main result: over any turns, with whatever reloads and wake-ups between them and whatever
      the other devices do, the device of a name is there exactly if its story says so, and is
      where the run of its own events leads from where it began. */
  lemma EachDeviceRuns(h: Host, xs: seq<Input>, sys: string)
    requires Reload.DistinctNames(h.sys.upses)
    ensures Reload.FindDevice(Turns(h, xs).sys.upses, sys) == Outcome(StoryOf(h, xs, sys))
  {
    StoryTells(h, xs, Beginning(h.sys.upses, sys), sys);
  }

  // ----- the clock of a story -----

  predicate InputsClocked(from: int, xs: seq<Input>)
    decreases |xs|
  {
    xs == [] || (from <= xs[0].now && InputsClocked(xs[0].now, xs[1..]))
  }

  function LastInput(from: int, xs: seq<Input>): int
  {
    if xs == [] then from else xs[|xs| - 1].now
  }

  /** Nothing wakes the system. */
  predicate NoWaking(chs: seq<Change>)
  {
    forall i | 0 <= i < |chs| :: !chs[i].woken
  }

  predicate NoWakingIn(xs: seq<Input>)
  {
    forall i | 0 <= i < |xs| :: NoWaking(xs[i].changes)
  }

  predicate AllAt(es: seq<Timed>, now: int)
  {
    forall j | 0 <= j < |es| :: es[j].now == now
  }

  /** A story told up to `now`: its clock does not go backwards, it began as a new device, and
      `calm` ones have no wake-up in them. */
  predicate Sound(o: Option<Story>, now: int, calm: bool)
  {
    o.Some? ==>
      && Clocked(0, o.value.es) && LastTime(0, o.value.es) <= now
      && IsNew(o.value.start)
      && (calm ==> NoWakeUp(o.value.es))
  }

  lemma {:induction false} ClockedOn(from: int, a: seq<Timed>, now: int, b: seq<Timed>)
    requires Clocked(from, a) && LastTime(from, a) <= now && AllAt(b, now)
    ensures Clocked(from, a + b) && LastTime(from, a + b) <= now
    decreases |a| + |b|
  {
    if b == [] {
      assert a + b == a;
    } else if a == [] {
      assert a + b == b && LastTime(from, b) == now;
      ClockedOn(now, [], now, b[1..]);
      assert [] + b[1..] == b[1..];
    } else {
      assert (a + b)[1..] == a[1..] + b;
      assert LastTime(a[0].now, a[1..]) == LastTime(from, a);
      ClockedOn(a[0].now, a[1..], now, b);
      assert LastTime(a[0].now, (a + b)[1..]) == LastTime(from, a + b);
    }
  }

  lemma GoingSound(o: Option<Story>, es: seq<Timed>, before: int, now: int, calm: bool)
    requires Sound(o, before, calm) && before <= now && AllAt(es, now) && (calm ==> NoWakeUp(es))
    ensures Sound(Going(o, es), now, calm)
  {
    if o.Some? {
      ClockedOn(0, o.value.es, now, es);
    }
  }

  lemma {:induction false} LinesSound(o: Option<Story>, lines: seq<Line>, forget: bool, c: Config, now: int,
                                      sys: string, calm: bool)
    requires Sound(o, now, calm) && 0 <= now
    ensures Sound(LinesStory(o, lines, forget, c, now, sys), now, calm)
    decreases |lines|
  {
    if lines != [] {
      var e := Timed(now, c, Reloading(forget, lines[0]));
      GoingSound(o, [e], now, now, calm);
      var next := if lines[0].sys != sys then o
                  else if o == None then Some(Story(Reload.NewFrom(lines[0]), []))
                  else Going(o, [e]);
      NewFromIsNew(lines[0]);
      LinesSound(next, lines[1..], forget, c, now, sys, calm);
    }
  }

  lemma NewFromIsNew(l: Line)
    ensures IsNew(Reload.NewFrom(l))
  {
  }

  lemma {:induction false} ChangesSound(o: Option<Story>, c: Config, us: seq<Ups>, chs: seq<Change>, now: int,
                                        sys: string, calm: bool)
    requires Sound(o, now, calm) && 0 <= now && (calm ==> NoWaking(chs))
    ensures Sound(ChangesStory(o, c, us, chs, now, sys), now, calm)
    decreases |chs|
  {
    if chs != [] {
      var ch, p := chs[0], AfterChange(c, us, chs[0], now);
      var woken := if ch.woken then Going(o, [Timed(now, c, Waking)]) else o;
      if ch.woken {
        GoingSound(o, [Timed(now, c, Waking)], now, now, calm);
      }
      if ch.file.Some? {
        LinesSound(woken, Reload.ParseLines(ch.file.value.raws), c.throttleMax >= 0, c, now, sys, calm);
      }
      if p.ok {
        ChangesSound(ChangeStory(o, c, ch, now, sys), p.c, p.upses, chs[1..], now, sys, calm);
      }
    }
  }

  lemma EventsAtOnce(h: Host, x: Input, i: nat)
    ensures AllAt(Events(h, x, i), x.now) && NoWakeUp(Events(h, x, i))
  {
  }

  lemma TurnSound(o: Option<Story>, h: Host, x: Input, sys: string, before: int, calm: bool)
    requires Sound(o, before, calm) && 0 <= before <= x.now && (calm ==> NoWaking(x.changes))
    ensures Sound(TurnStory(o, h, x, sys), x.now, calm)
  {
    assert Sound(o, x.now, calm);
    if h.sys.phase == Shutdown.Running {
      if x.userfsd {
        var d := Reload.FindDevice(h.sys.upses, sys);
        if d.Some? { GoingSound(o, FsdEvents(d.value, h.c, x), before, x.now, calm); }
      } else {
        ChangesSound(o, h.c, h.sys.upses, x.changes, x.now, sys, calm);
        var k := Reload.FindUps(PreparedFor(h, x).upses, sys);
        EventsAtOnce(h, x, k);
        GoingSound(ChangesStory(o, h.c, h.sys.upses, x.changes, x.now, sys), Events(h, x, k), x.now, x.now, calm);
      }
    }
  }

  lemma {:induction false} StorySound(o: Option<Story>, h: Host, xs: seq<Input>, sys: string, from: int, calm: bool)
    requires Sound(o, from, calm) && 0 <= from && InputsClocked(from, xs) && (calm ==> NoWakingIn(xs))
    ensures Sound(StoryFrom(o, h, xs, sys), LastInput(from, xs), calm) && from <= LastInput(from, xs)
    decreases |xs|
  {
    if xs != [] {
      TurnSound(o, h, xs[0], sys, from, calm);
      StorySound(TurnStory(o, h, xs[0], sys), Turn(h, xs[0]), xs[1..], sys, xs[0].now, calm);
      assert LastInput(from, xs) == LastInput(xs[0].now, xs[1..]);
    }
  }

  // ----- what follows for the system -----

  /** At the start every device is as its line makes it. */
  predicate Fresh(us: seq<Ups>)
  {
    Reload.DistinctNames(us) && forall i | 0 <= i < |us| :: IsNew(us[i])
  }

  lemma BeginsSound(us: seq<Ups>, sys: string, calm: bool)
    requires Fresh(us)
    ensures Sound(Beginning(us, sys), 0, calm)
  {
  }

  /** A poll that brings no status. */
  predicate SilentPoll(x: Exchange)
  {
    x.answer.Got? ==> x.answer.status == ""
  }

  /** What the verdict on a silent device rests on. */
  predicate StillDark(u: Ups, v: Ups)
  {
    && (ONBATT in v.status <==> ONBATT in u.status) && (CAL in v.status <==> CAL in u.status)
    && (PRIMARY in v.status <==> PRIMARY in u.status)
    && v.lastpoll == u.lastpoll && v.lastnoncrit == u.lastnoncrit
    && (v.commstate == u.commstate || v.commstate == 0)
  }

  lemma SilentStep(s: St, e: Timed)
    requires e.ev.Connecting? || e.ev.Failing? || (e.ev.Polled? && e.ev.status == "")
    ensures StillDark(s.u, Step(s, e).u)
  {
  }

  lemma SilentPollKeeps(c: Config, u: Ups, x: Exchange, now: int)
    requires SilentPoll(x)
    ensures StillDark(u, Led(u, PollEvents(c, u, x, now)))
  {
    var es := PollEvents(c, u, x, now);
    SilentStep(St(u, 0), es[0]);
    if |es| == 2 {
      assert es[1..] == [es[1]] && es[1..][1..] == [];
      SilentStep(Step(St(u, 0), es[0]), es[1]);
      var next := Step(St(u, 0), es[0]);
      assert Run(next, es[1..]) == Run(Step(next, es[1]), es[1..][1..]);
    } else {
      assert es == [es[0]];
      LedOnce(u, es[0], 0);
    }
  }

  /** A critical device does not count. */
  lemma {:induction false} CriticalIsNotCounted(c: Config, us: seq<Ups>, k: nat, now: int)
    requires k < |us| && JudgedCritical(c, us[k], now)
    ensures Shutdown.HealthyPv(c, us, now) == Shutdown.HealthyPv(c, us[..k] + us[k + 1..], now)
    decreases |us|
  {
    var others := us[..k] + us[k + 1..];
    if k == 0 {
      assert others == us[1..];
    } else {
      assert others[1..] == us[1..][..k - 1] + us[1..][k..] && others[0] == us[0];
      CriticalIsNotCounted(c, us[1..], k - 1, now);
    }
  }

  lemma SoundTimers(o: Option<Story>, us: seq<Ups>, now: int, sys: string)
    requires Sound(o, now, false) && Tells(us, o, sys) && Reload.FindUps(us, sys) < |us|
    ensures var u := us[Reload.FindUps(us, sys)]; u.lastnoncrit <= u.lastpoll
  {
    var st := o.value;
    NewUpsTimers(st.start.sys, st.start.pv, st.start.un, st.start.pw, PRIMARY in st.start.status, 0);
    RunKeepsTimers(St(st.start, 0), 0, st.es);
  }

  /** Before the polls of a turn a device's timers are in order. */
  lemma PreparedTimers(h: Host, xs: seq<Input>, x: Input, sys: string)
    requires Fresh(h.sys.upses) && InputsClocked(0, xs) && LastInput(0, xs) <= x.now
    requires var us := PreparedFor(Turns(h, xs), x).upses; Reload.FindUps(us, sys) < |us|
    ensures var us := PreparedFor(Turns(h, xs), x).upses;
      var u := us[Reload.FindUps(us, sys)];
      u.lastnoncrit <= u.lastpoll
  {
    var at, begun := Turns(h, xs), Beginning(h.sys.upses, sys);
    var o := StoryOf(h, xs, sys);
    BeginsSound(h.sys.upses, sys, false);
    StorySound(begun, h, xs, sys, 0, false);
    StoryTells(h, xs, begun, sys);
    assert Sound(o, x.now, false);
    ChangesSound(o, at.c, at.sys.upses, x.changes, x.now, sys, false);
    ChangesTell(at.sys.upses, o, at.c, x.changes, x.now, sys);
    SoundTimers(ChangesStory(o, at.c, at.sys.upses, x.changes, x.now, sys), PreparedFor(at, x).upses, x.now, sys);
  }

  /** The device is on battery, has been silent for longer than DEADTIME, and longer than
      HOSTSYNC too where this host is a secondary. */
  predicate Dark(c: Config, u: Ups, now: int)
  {
    && ONBATT in u.status && !(u.commstate != 0 && CAL in u.status)
    && now - u.lastpoll > c.deadtime && (PRIMARY in u.status || now - u.lastpoll > c.hostsync)
  }

  /** Main result on a device that falls silent: through whatever reloads and wake-ups and
      whatever its neighbours do, a turn that finds it so and hears nothing from it again does
      not count its power, and shuts down exactly if the others have too little. */
  lemma SilentDeviceIsFound(h: Host, xs: seq<Input>, x: Input, sys: string)
    requires Fresh(h.sys.upses) && InputsClocked(0, xs) && LastInput(0, xs) <= x.now
    requires Polling(Turns(h, xs), x)
    requires var p := PreparedFor(Turns(h, xs), x);
      var k := Reload.FindUps(p.upses, sys);
      && k < |p.upses| <= |x.exchanges| && SilentPoll(x.exchanges[k])
      && p.c.oblbduration <= 0 && Dark(p.c, p.upses[k], x.now)
    ensures var at, p := Turns(h, xs), PreparedFor(Turns(h, xs), x);
      var k, polled := Reload.FindUps(p.upses, sys), CycleOf(at, x).polled;
      && |polled| == |p.upses| && JudgedCritical(p.c, polled[k], x.now)
      && (Turn(at, x).sys.phase != Shutdown.Running
          <==> Shutdown.HealthyPower(p.c, polled[..k] + polled[k + 1..], x.now) < p.c.minsupplies)
  {
    var at, p := Turns(h, xs), PreparedFor(Turns(h, xs), x);
    var k, cycle := Reload.FindUps(p.upses, sys), CycleOf(at, x);
    PreparedTimers(h, xs, x, sys);
    PolledAt(p.c, p.upses, at.sys.sleepval, x.exchanges, x.now);
    SilentPollKeeps(p.c, p.upses[k], x.exchanges[k], x.now);
    DarkIsCritical(p.c, cycle.polled[k], x.now);
    CriticalIsNotCounted(p.c, cycle.polled, k, x.now);
    Shutdown.CycleDecides(at.sys, cycle);
  }

  lemma DarkIsCritical(c: Config, u: Ups, now: int)
    requires c.oblbduration <= 0 && Dark(c, u, now) && u.lastnoncrit <= u.lastpoll
    ensures JudgedCritical(c, u, now)
  {
  }

  /** The notices of a device alternate exactly unless its story has a wake-up that finds the
      flag set, and polls after it that tell it again. */
  lemma SystemNoticesExact(h: Host, xs: seq<Input>, sys: string, f: Flag)
    requires Fresh(h.sys.upses) && InputsClocked(0, xs) && f in UpsNotices.PAIRED
    requires Reload.FindDevice(Turns(h, xs).sys.upses, sys).Some?
    ensures StoryOf(h, xs, sys).Some?
    ensures var st, u := StoryOf(h, xs, sys).value, Reload.FindDevice(Turns(h, xs).sys.upses, sys).value;
      UpsNotices.PhaseOf(u.notices, f) == UpsNotices.Broken <==>
      exists i | 0 <= i < |st.es| :: UpsNotices.LostAt(St(st.start, 0), st.es, f, i)
  {
    EachDeviceRuns(h, xs, sys);
    BeginsSound(h.sys.upses, sys, false);
    StorySound(Beginning(h.sys.upses, sys), h, xs, sys, 0, false);
    var st := StoryOf(h, xs, sys).value;
    var u := st.start;
    UpsNotices.NewUpsTold(u.sys, u.pv, u.un, u.pw, PRIMARY in u.status);
    UpsNotices.AlternationExact(St(u, 0), st.es, f);
  }

  /** In particular they always do where nothing wakes the system. */
  lemma SystemNoticesAlternate(h: Host, xs: seq<Input>, sys: string, f: Flag)
    requires Fresh(h.sys.upses) && InputsClocked(0, xs) && f in UpsNotices.PAIRED && NoWakingIn(xs)
    requires Reload.FindDevice(Turns(h, xs).sys.upses, sys).Some?
    ensures UpsNotices.PhaseOf(Reload.FindDevice(Turns(h, xs).sys.upses, sys).value.notices, f) != UpsNotices.Broken
  {
    SystemNoticesExact(h, xs, sys, f);
    BeginsSound(h.sys.upses, sys, true);
    StorySound(Beginning(h.sys.upses, sys), h, xs, sys, 0, true);
    var st := StoryOf(h, xs, sys).value;
    assert forall i | 0 <= i < |st.es| :: !UpsNotices.LostAt(St(st.start, 0), st.es, f, i);
  }

  /** And its notices of a lost and a restored communication alternate exactly unless its story
      has a line that makes upsmon reconnect unannounced, and a status after it. */
  lemma SystemCommExact(h: Host, xs: seq<Input>, sys: string)
    requires Fresh(h.sys.upses) && InputsClocked(0, xs)
    requires Reload.FindDevice(Turns(h, xs).sys.upses, sys).Some?
    ensures StoryOf(h, xs, sys).Some?
    ensures var st, u := StoryOf(h, xs, sys).value, Reload.FindDevice(Turns(h, xs).sys.upses, sys).value;
      && UpsComm.HeardIn(u.notices) != UpsComm.BadAgain
      && (UpsComm.HeardIn(u.notices) == UpsComm.OkUnasked <==>
          exists i | 0 <= i < |st.es| :: UpsComm.RepeatsAt(St(st.start, 0), st.es, i))
  {
    EachDeviceRuns(h, xs, sys);
    BeginsSound(h.sys.upses, sys, false);
    StorySound(Beginning(h.sys.upses, sys), h, xs, sys, 0, false);
    var st := StoryOf(h, xs, sys).value;
    var u := st.start;
    UpsComm.NewUpsInStep(u.sys, u.pv, u.un, u.pw, PRIMARY in u.status);
    UpsComm.CommNoticesExact(St(u, 0), st.es);
  }
}
