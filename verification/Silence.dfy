/** A host that hears nothing from its devices: exactly when it shuts down all the same. */
module Silence {
  import opened Text
  import opened UpsState
  import opened UpsRuns
  import opened MainLoop
  import Reload
  import Shutdown

  /** A turn in which no server delivers a status to anybody. */
  predicate NobodyHeard(x: Input)
  {
    forall j | 0 <= j < |x.exchanges| :: x.exchanges[j].answer.Got? ==> x.exchanges[j].answer.status == ""
  }

  predicate AllUnheard(us: seq<Ups>)
  {
    forall i | 0 <= i < |us| :: Shutdown.Unheard(us[i])
  }

  /** The power of the devices suffices. */
  predicate Enough(us: seq<Ups>, c: Config)
  {
    Reload.SumPv(us) % Reload.UINT_RANGE >= c.minsupplies
  }

  lemma {:induction false} AllHealthy(c: Config, us: seq<Ups>, now: int)
    requires forall i | 0 <= i < |us| :: !JudgedCritical(c, us[i], now)
    ensures Shutdown.HealthyPv(c, us, now) == Reload.SumPv(us)
    decreases |us|
  {
    if us != [] {
      AllHealthy(c, us[1..], now);
    }
  }

  /** The devices as they are after silence: nothing heard, the same power. */
  ghost predicate StillUnheard(us: seq<Ups>, vs: seq<Ups>)
  {
    |us| == |vs| && forall i | 0 <= i < |us| ::
      Shutdown.Unheard(vs[i]) && vs[i].pv == us[i].pv && vs[i].sys == us[i].sys
  }

  lemma {:induction false} SamePower(us: seq<Ups>, vs: seq<Ups>)
    requires StillUnheard(us, vs)
    ensures Reload.SumPv(us) == Reload.SumPv(vs)
    decreases |us|
  {
    if us != [] {
      SamePower(us[1..], vs[1..]);
    }
  }

  predicate NoNews(e: Event)
  {
    Shutdown.Silent(e) && !e.Reloading?
  }

  lemma NoNewsStep(s: St, e: Timed)
    requires Shutdown.Unheard(s.u) && NoNews(e.ev)
    ensures Shutdown.Unheard(Step(s, e).u) && Step(s, e).u.pv == s.u.pv && Step(s, e).u.sys == s.u.sys
  {
    Shutdown.UnheardStep(s, e);
  }

  lemma {:induction false} NoNewsRun(s: St, es: seq<Timed>)
    requires Shutdown.Unheard(s.u) && forall i | 0 <= i < |es| :: NoNews(es[i].ev)
    ensures Shutdown.Unheard(Run(s, es).u) && Run(s, es).u.pv == s.u.pv && Run(s, es).u.sys == s.u.sys
    decreases |es|
  {
    if es != [] {
      NoNewsStep(s, es[0]);
      NoNewsRun(Step(s, es[0]), es[1..]);
    }
  }

  lemma PolledInSilence(x: Input, c: Config, us: seq<Ups>, interval: nat)
    requires NobodyHeard(x) && AllUnheard(us)
    ensures StillUnheard(us, PolledAll(c, us, interval, x.exchanges, x.now).upses)
  {
    PolledAt(c, us, interval, x.exchanges, x.now);
    forall i | 0 <= i < |us| && i < |x.exchanges|
      ensures var v := Led(us[i], PollEvents(c, us[i], x.exchanges[i], x.now));
        Shutdown.Unheard(v) && v.pv == us[i].pv && v.sys == us[i].sys
    {
      assert NoNews(AnswerEvent(x.exchanges[i].answer));
      NoNewsRun(St(us[i], 0), PollEvents(c, us[i], x.exchanges[i], x.now));
    }
  }

  lemma DecidedInSilence(now: int, c: Config, us: seq<Ups>, interval: nat)
    requires AllUnheard(us)
    ensures StillUnheard(us, Shutdown.RecalcFrom(c, us, interval, 0, now).upses)
    ensures Shutdown.HealthyPv(c, us, now) == Reload.SumPv(us)
  {
    RecalculatedAt(c, us, interval, 0, now);
    forall i | 0 <= i < |us|
      ensures var v := Led(us[i], [Timed(now, c, Recalc)]);
        Shutdown.Unheard(v) && v.pv == us[i].pv && v.sys == us[i].sys
      ensures !JudgedCritical(c, us[i], now)
    {
      NoNewsRun(St(us[i], 0), [Timed(now, c, Recalc)]);
      Shutdown.UnheardIsHealthy(c, us[i], now);
    }
    AllHealthy(c, us, now);
  }

  lemma {:induction false} SettledUnheard(u: Ups, lines: seq<Line>)
    requires Shutdown.Unheard(u)
    ensures Shutdown.Unheard(Reload.Settled(u, lines))
    decreases |lines|
  {
    if lines != [] {
      if lines[0].sys == u.sys {
        Reload.RedefinedName(u, lines[0]);
        Shutdown.RedefinedUnheard(u, lines[0]);
        SettledUnheard(Redefined(u, lines[0]), lines[1..]);
      } else {
        SettledUnheard(u, lines[1..]);
      }
    }
  }

  lemma {:induction false} NewUnheard(lines: seq<Line>, sys: string)
    ensures Reload.Applied(None, lines, sys).Some? ==> Shutdown.Unheard(Reload.Applied(None, lines, sys).value)
    decreases |lines|
  {
    if lines != [] {
      if lines[0].sys == sys {
        NewIsReset(lines[0]);
        assert Shutdown.Unheard(Reload.NewFrom(lines[0]));
        SettledUnheard(Reload.NewFrom(lines[0]), lines[1..]);
      } else {
        NewUnheard(lines[1..], sys);
      }
    }
  }

  lemma ReloadedUnheard(us: seq<Ups>, lines: seq<Line>, forget: bool)
    requires Reload.DistinctNames(us) && AllUnheard(us)
    ensures AllUnheard(Reload.Reloaded(us, lines, forget).upses)
  {
    var vs := Reload.Reloaded(us, lines, forget).upses;
    forall i | 0 <= i < |vs|
      ensures Shutdown.Unheard(vs[i])
    {
      var sys := vs[i].sys;
      Reload.ReloadedDevice(us, lines, forget, sys);
      Reload.FindUpsUnique(vs, i);
      var d := Reload.FindDevice(us, sys);
      if d == None {
        NewUnheard(lines, sys);
      } else {
        assert Shutdown.Unheard(Reload.UnmarkedOne(d.value, forget));
        SettledUnheard(Reload.UnmarkedOne(d.value, forget), lines);
      }
    }
  }

  // ----- the files -----

  /** upsmon goes on with a file if all its lines together carry enough power. */
  predicate Accepted(f: File)
  {
    Reload.Wrapped(Reload.LinePower(Reload.ParseLines(f.raws))) >= f.c.minsupplies
  }

  /** What its decisions are made on is the power of the last line of each name. */
  predicate Sufficient(f: File)
  {
    Reload.Wrapped(Reload.LastPower(Reload.ParseLines(f.raws))) >= f.c.minsupplies
  }

  /** A file that is accepted and then found to give too little power. */
  predicate Trap(f: File)
  {
    Accepted(f) && !Sufficient(f)
  }

  /** Is there enough power after the changes, going by the last file read? */
  function StillEnough(enough: bool, chs: seq<Change>): bool
    decreases |chs|
  {
    if chs == [] then enough
    else StillEnough(if chs[0].file.Some? then Sufficient(chs[0].file.value) else enough, chs[1..])
  }

  function EnoughAfter(enough: bool, xs: seq<Input>): bool
    decreases |xs|
  {
    if xs == [] then enough else EnoughAfter(StillEnough(enough, xs[0].changes), xs[1..])
  }

  predicate AllAccepted(chs: seq<Change>)
  {
    forall j | 0 <= j < |chs| && chs[j].file.Some? :: Accepted(chs[j].file.value)
  }

  lemma AwakeInSilence(us: seq<Ups>, now: int)
    requires Reload.DistinctNames(us) && AllUnheard(us)
    ensures Reload.DistinctNames(Awake(us, now)) && AllUnheard(Awake(us, now))
    ensures Reload.SumPv(Awake(us, now)) == Reload.SumPv(us)
  {
    AwakeAt(us, now);
    assert StillUnheard(us, Awake(us, now));
    SamePower(us, Awake(us, now));
  }

  lemma ChangeInSilence(c: Config, us: seq<Ups>, ch: Change, now: int)
    requires Reload.DistinctNames(us) && AllUnheard(us)
    ensures var p := AfterChange(c, us, ch, now);
      && Reload.DistinctNames(p.upses) && AllUnheard(p.upses)
      && (p.ok <==> (ch.file.Some? ==> Accepted(ch.file.value)))
      && (Enough(p.upses, p.c) <==> if ch.file.Some? then Sufficient(ch.file.value) else Enough(us, c))
  {
    var vs := if ch.woken then Awake(us, now) else us;
    if ch.woken {
      AwakeInSilence(us, now);
    }
    if ch.file.Some? {
      var lines, forget := Reload.ParseLines(ch.file.value.raws), c.throttleMax >= 0;
      ReloadedUnheard(vs, lines, forget);
      Reload.ReloadedDevice(vs, lines, forget, "");
      Reload.ReloadedPower(vs, lines, forget);
    }
  }

  lemma {:induction false} ChangesInSilence(c: Config, us: seq<Ups>, chs: seq<Change>, now: int)
    requires Reload.DistinctNames(us) && AllUnheard(us)
    ensures var p := AfterChanges(c, us, chs, now);
      && Reload.DistinctNames(p.upses) && AllUnheard(p.upses)
      && (p.ok <==> AllAccepted(chs))
      && (p.ok ==> (Enough(p.upses, p.c) <==> StillEnough(Enough(us, c), chs)))
    decreases |chs|
  {
    if chs != [] {
      var p := AfterChange(c, us, chs[0], now);
      ChangeInSilence(c, us, chs[0], now);
      assert AllAccepted(chs) <==> p.ok && AllAccepted(chs[1..]) by {
        assert forall j | 1 <= j < |chs| :: chs[j] == chs[1..][j - 1];
      }
      if p.ok {
        ChangesInSilence(p.c, p.upses, chs[1..], now);
      }
    }
  }

  // ----- the turns -----

  /** The turn comes to its decision. */
  predicate Decides(h: Host, x: Input)
  {
    Polling(h, x) && |x.exchanges| >= |PreparedFor(h, x).upses|
  }

  /** And decides on devices that have too little power even if all are well. */
  predicate FallsShort(h: Host, x: Input)
  {
    Decides(h, x) && !Enough(PreparedFor(h, x).upses, PreparedFor(h, x).c)
  }

  /** Nothing done yet, nothing heard. */
  predicate Quiet(h: Host)
  {
    && h.sys.phase == Shutdown.Running && h.sys.trace == []
    && Reload.DistinctNames(h.sys.upses) && AllUnheard(h.sys.upses)
  }

  lemma PollsInSilence(h: Host, x: Input)
    requires Quiet(h) && NobodyHeard(x) && Polling(h, x)
    ensures var p, k := PreparedFor(h, x), CycleOf(h, x);
      && StillUnheard(p.upses, k.polled) && Reload.SumPv(k.polled) == Reload.SumPv(p.upses)
      && Shutdown.HealthyPower(k.c, k.polled, k.now) == Reload.Wrapped(Reload.SumPv(p.upses))
  {
    var p, k := PreparedFor(h, x), CycleOf(h, x);
    ChangesInSilence(h.c, h.sys.upses, x.changes, x.now);
    PolledInSilence(x, p.c, p.upses, h.sys.sleepval);
    SamePower(p.upses, k.polled);
    DecidedInSilence(x.now, p.c, k.polled, k.interval);
  }

  lemma TurnInSilence(h: Host, x: Input)
    requires Quiet(h) && NobodyHeard(x) && !x.userfsd
    ensures var p, next := PreparedFor(h, x), Turn(h, x);
      if FallsShort(h, x) then next.sys.phase != Shutdown.Running && next.sys.trace != []
      else if !p.ok then next.sys.phase == Shutdown.GaveUp && next.sys.trace == []
      else Quiet(next) && (Enough(next.sys.upses, next.c) <==> Enough(p.upses, p.c))
  {
    var p, k := PreparedFor(h, x), CycleOf(h, x);
    Shutdown.CycleDecides(h.sys, k);
    if p.ok {
      ChangesInSilence(h.c, h.sys.upses, x.changes, x.now);
      PollsInSilence(h, x);
      if !FallsShort(h, x) {
        QuietTurn(h, x);
      }
    }
  }

  lemma QuietTurn(h: Host, x: Input)
    requires Quiet(h) && NobodyHeard(x) && Polling(h, x) && !FallsShort(h, x)
    ensures var p, next := PreparedFor(h, x), Turn(h, x);
      Quiet(next) && (Enough(next.sys.upses, next.c) <==> Enough(p.upses, p.c))
  {
    var p, k := PreparedFor(h, x), CycleOf(h, x);
    Shutdown.CycleDecides(h.sys, k);
    ChangesInSilence(h.c, h.sys.upses, x.changes, x.now);
    PollsInSilence(h, x);
    DecidedInSilence(x.now, p.c, k.polled, k.interval);
    assert StillUnheard(p.upses, Turn(h, x).sys.upses) by {
      if !k.abandoned { DecidedUpses(h, x, k); }
    }
    SamePower(p.upses, Turn(h, x).sys.upses);
  }

  // ----- the runs -----

  predicate AllQuiet(xs: seq<Input>)
  {
    forall j | 0 <= j < |xs| :: NobodyHeard(xs[j]) && !xs[j].userfsd
  }

  predicate ShortAt(h: Host, xs: seq<Input>, i: nat)
    requires i < |xs|
  {
    FallsShort(Turns(h, xs[..i]), xs[i])
  }

  lemma ShortStep(h: Host, xs: seq<Input>)
    requires xs != []
    ensures (exists i | 0 <= i < |xs| :: ShortAt(h, xs, i))
      <==> FallsShort(h, xs[0]) || exists i | 0 <= i < |xs[1..]| :: ShortAt(Turn(h, xs[0]), xs[1..], i)
  {
    var next := Turn(h, xs[0]);
    assert ShortAt(h, xs, 0) == FallsShort(h, xs[0]);
    forall i | 0 < i < |xs|
      ensures ShortAt(h, xs, i) <==> ShortAt(next, xs[1..], i - 1)
    {
      assert xs[..i][1..] == xs[1..][..i - 1] && xs[..i][0] == xs[0];
    }
    if i :| 0 <= i < |xs[1..]| && ShortAt(next, xs[1..], i) {
      assert ShortAt(h, xs, i + 1);
    }
    if i :| 0 <= i < |xs| && ShortAt(h, xs, i) {
      if i > 0 { assert ShortAt(next, xs[1..], i - 1); }
    }
  }

  /** Main result: a host that hears nothing and is not asked by its user sets something in
      motion exactly when some turn comes to its decision with too little power for
      MINSUPPLIES. Otherwise it goes on, or gives up over a file it does not accept. */
  lemma {:induction false} SilenceExact(h: Host, xs: seq<Input>)
    requires Quiet(h) && AllQuiet(xs)
    ensures Turns(h, xs).sys.trace != [] <==> exists i | 0 <= i < |xs| :: ShortAt(h, xs, i)
    ensures Turns(h, xs).sys.trace == [] ==>
      Turns(h, xs).sys.phase == Shutdown.Running || Turns(h, xs).sys.phase == Shutdown.GaveUp
    decreases |xs|
  {
    if xs != [] {
      var next := Turn(h, xs[0]);
      TurnInSilence(h, xs[0]);
      ShortStep(h, xs);
      if next.sys.phase == Shutdown.Running {
        SilenceExact(next, xs[1..]);
      } else {
        StoppedTurns(next, xs[1..]);
        forall i | 0 <= i < |xs[1..]|
          ensures !ShortAt(next, xs[1..], i)
        {
          StoppedTurns(next, xs[1..][..i]);
        }
      }
    }
  }

  lemma {:induction false} StoppedTurns(h: Host, xs: seq<Input>)
    requires h.sys.phase != Shutdown.Running
    ensures Turns(h, xs) == h
    decreases |xs|
  {
    if xs != [] {
      StoppedTurns(h, xs[1..]);
    }
  }

  /** The power a running host has is read off the files: it is that of the last one. */
  lemma {:induction false} EnoughIsOnFile(h: Host, xs: seq<Input>)
    requires Quiet(h) && AllQuiet(xs) && Turns(h, xs).sys.phase == Shutdown.Running
    ensures var end := Turns(h, xs);
      && Quiet(end)
      && (Enough(end.sys.upses, end.c) <==> EnoughAfter(Enough(h.sys.upses, h.c), xs))
    decreases |xs|
  {
    if xs != [] {
      var next := Turn(h, xs[0]);
      TurnInSilence(h, xs[0]);
      if next.sys.phase != Shutdown.Running {
        StoppedTurns(next, xs[1..]);
      }
      ChangesInSilence(h.c, h.sys.upses, xs[0].changes, xs[0].now);
      EnoughIsOnFile(next, xs[1..]);
    }
  }

  /** So the power that decides turn `i` is that of the last file read by then, overridden
      lines not counted, or the power at the start if there was no file. */
  lemma ShortIsOnFile(h: Host, xs: seq<Input>, i: nat)
    requires Quiet(h) && AllQuiet(xs) && i < |xs|
    ensures ShortAt(h, xs, i) <==>
            Decides(Turns(h, xs[..i]), xs[i])
            && !StillEnough(EnoughAfter(Enough(h.sys.upses, h.c), xs[..i]), xs[i].changes)
  {
    var at := Turns(h, xs[..i]);
    if Decides(at, xs[i]) {
      EnoughIsOnFile(h, xs[..i]);
      ChangesInSilence(at.c, at.sys.upses, xs[i].changes, xs[i].now);
    }
  }

  // ----- what this means for files -----

  predicate NoTrap(chs: seq<Change>)
  {
    forall j | 0 <= j < |chs| && chs[j].file.Some? :: !Trap(chs[j].file.value)
  }

  lemma {:induction false} StaysEnough(chs: seq<Change>)
    requires NoTrap(chs) && AllAccepted(chs)
    ensures StillEnough(true, chs)
    decreases |chs|
  {
    if chs != [] {
      assert forall j | 1 <= j < |chs| :: chs[j] == chs[1..][j - 1];
      StaysEnough(chs[1..]);
    }
  }

  /** A host with enough power that hears nothing sets nothing in motion as long as no file
      it reads is accepted for the power of lines it overrides. */
  lemma {:induction false} NothingHeardNothingDone(h: Host, xs: seq<Input>)
    requires Quiet(h) && AllQuiet(xs) && Enough(h.sys.upses, h.c)
    requires forall j | 0 <= j < |xs| :: NoTrap(xs[j].changes)
    ensures Turns(h, xs).sys.trace == []
    ensures Turns(h, xs).sys.phase == Shutdown.Running || Turns(h, xs).sys.phase == Shutdown.GaveUp
    decreases |xs|
  {
    if xs != [] {
      var next := Turn(h, xs[0]);
      TurnInSilence(h, xs[0]);
      ChangesInSilence(h.c, h.sys.upses, xs[0].changes, xs[0].now);
      if PreparedFor(h, xs[0]).ok {
        StaysEnough(xs[0].changes);
        NothingHeardNothingDone(next, xs[1..]);
      } else {
        StoppedTurns(next, xs[1..]);
      }
    }
  }

  /** Such a file does set it in motion, in the very turn that reads it and polls to the end. */
  lemma TrapShutsDown(h: Host, x: Input, f: File)
    requires Quiet(h) && NobodyHeard(x) && !x.userfsd && Accepted(f)
    requires |x.changes| == 1 && x.changes[0].file == Some(f)
    requires |x.exchanges| >= |PreparedFor(h, x).upses|
    ensures Turn(h, x).sys.trace != [] <==> Trap(f)
  {
    var p := AfterChange(h.c, h.sys.upses, x.changes[0], x.now);
    TurnInSilence(h, x);
    ChangeInSilence(h.c, h.sys.upses, x.changes[0], x.now);
    assert x.changes[1..] == [];
    assert AfterChanges(p.c, p.upses, [], x.now) == Prepared(p.upses, p.c, true);
  }

  const TWICE := [Reload.RawLine("a", "1", "u", "p", "secondary"), Reload.RawLine("a", "0", "u", "p", "secondary")]

  lemma LinesOfTwice()
    ensures Reload.ParseLines(TWICE)
      == [Line("a", 1, "u", "p", Secondary), Line("a", 0, "u", "p", Secondary)]
  {
    NumbersOfTwice();
    assert TWICE[1..] == [TWICE[1]] && TWICE[1..][1..] == [];
  }

  /** Two lines of one name count together and leave the power of the second. */
  lemma PowerOfTwo(l: Line, m: Line)
    requires l.sys == m.sys
    ensures Reload.LinePower([l, m]) == l.pv + m.pv && Reload.LastPower([l, m]) == m.pv
  {
    assert [l, m][1..] == [m] && [m][1..] == [];
    assert [m][0].sys == l.sys;
    assert Reload.Named([m], l.sys) && !Reload.Named([], m.sys);
    assert Reload.LinePower([]) == 0 && Reload.LastPower([]) == 0;
    assert Reload.LinePower([m]) == m.pv && Reload.LastPower([m]) == m.pv;
  }

  lemma TwiceIsTrap(c: Config)
    requires c.minsupplies == 1
    ensures Trap(File(TWICE, c))
  {
    LinesOfTwice();
    PowerOfTwo(Line("a", 1, "u", "p", Secondary), Line("a", 0, "u", "p", Secondary));
  }

  /** Whatever the devices were, such a file leaves one. */
  lemma OneAfterTwice(us: seq<Ups>, forget: bool)
    requires Reload.DistinctNames(us)
    ensures |Reload.Reloaded(us, Reload.ParseLines(TWICE), forget).upses| <= 1
  {
    var lines := Reload.ParseLines(TWICE);
    var after := Reload.Reloaded(us, lines, forget).upses;
    LinesOfTwice();
    forall i | 0 <= i < |after|
      ensures after[i].sys == "a"
    {
      assert Reload.Names(after, after[i].sys);
      Reload.ReloadedNames(us, lines, forget, after[i].sys);
    }
    Reload.ReloadedNames(us, lines, forget, "a");
    if after != [] {
      Reload.FindUpsUnique(after, 0);
      Reload.FindUpsUnique(after, |after| - 1);
    }
  }

  lemma NumbersOfTwice()
    ensures Strtol("1") == 1 && Strtol("0") == 0
    ensures Reload.RoleOf("secondary") == Secondary
  {
    StrtolDecimal(1);
    StrtolDecimal(0);
    assert Decimal(1) == "1" && Decimal(0) == "0";
    assert |"secondary"| == 9 && |"primary"| == 7 && |"master"| == 6;
  }

  /** An input that shows it: with MINSUPPLIES 1, a reload of a file that gives the only device
      first a power value of 1 and then of 0, before anything was heard from it. */
  lemma RepeatedLineShutsDown(c: Config, sleepval: nat, now: int, usePipe: bool)
    requires c.minsupplies == 1
    ensures var a := NewUps("a", 1, "u", "p", false);
      var h := Host(Shutdown.Sys([a], sleepval, Shutdown.Running, []), c);
      var x := Input(now, usePipe, false, [Change(false, Some(File(TWICE, c)))],
                     [Exchange(Unreached, Refused(0, false))], {}, []);
      Turn(h, x).sys.trace != []
  {
    var a := NewUps("a", 1, "u", "p", false);
    var h := Host(Shutdown.Sys([a], sleepval, Shutdown.Running, []), c);
    var f := File(TWICE, c);
    var x := Input(now, usePipe, false, [Change(false, Some(f))], [Exchange(Unreached, Refused(0, false))], {}, []);
    TwiceIsTrap(c);
    OneAfterTwice([a], c.throttleMax >= 0);
    var p := AfterChange(c, [a], x.changes[0], now);
    assert x.changes[1..] == [] && AfterChanges(p.c, p.upses, [], now).upses == p.upses;
    assert |PreparedFor(h, x).upses| <= 1;
    TrapShutsDown(h, x, f);
  }
}
