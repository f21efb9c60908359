/** The decision to shut down and what it sets in motion (`recalc`, `forceshutdown`,
    `setfsd`, `sync_secondaries`, `doshutdown`, the main loop). */
module Shutdown {
  import opened UpsState
  import opened UpsRuns
  import Reload

  /** What upsmon does to the world outside once it has decided. */
  datatype Action =
    | UserAskedFsd
    | TooFewSupplies(healthy: nat)
    | SetFsd(sys: string)
    | LoginCheck(logins: int, waited: int)
    | NotifyHostsync
    | NotifyShutdown
    | AskParent
    | SetPowerDownFlag
    | RunShutdownCommand

  // ----- the power that is left -----

  /** `val_ol`: the power values of the devices that are not critical, as an unsigned int
      adds them up; with the devices and the interval as the evaluation leaves them. */
  datatype Recalculation = Recalculation(upses: seq<Ups>, sleepval: nat, healthy: nat)

  function RecalcFrom(c: Config, us: seq<Ups>, sleepval: nat, healthy: nat, now: int): Recalculation
    decreases |us|
  {
    if us == [] then Recalculation([], sleepval, healthy)
    else
      var s := Recalculated(c, St(us[0], sleepval), now);
      var sum := if JudgedCritical(c, us[0], now) then healthy else Reload.Added(healthy, us[0].pv);
      var rest := RecalcFrom(c, us[1..], s.sleepval, sum, now);
      rest.(upses := [s.u] + rest.upses)
  }

  /** The devices not judged critical. */
  function HealthyPv(c: Config, us: seq<Ups>, now: int): nat
  {
    if us == [] then 0
    else (if JudgedCritical(c, us[0], now) then 0 else us[0].pv) + HealthyPv(c, us[1..], now)
  }

  lemma {:induction false} RecalcCounts(c: Config, us: seq<Ups>, sleepval: nat, sum: nat, now: int)
    ensures RecalcFrom(c, us, sleepval, sum % Reload.UINT_RANGE, now).healthy
      == (sum + HealthyPv(c, us, now)) % Reload.UINT_RANGE
    decreases |us|
  {
    if us != [] {
      var s := Recalculated(c, St(us[0], sleepval), now);
      if JudgedCritical(c, us[0], now) {
        RecalcCounts(c, us[1..], s.sleepval, sum, now);
      } else {
        Reload.AddedSum(sum, us[0].pv);
        RecalcCounts(c, us[1..], s.sleepval, sum + us[0].pv, now);
      }
    }
  }

  /** The power the decision is made on. */
  function HealthyPower(c: Config, us: seq<Ups>, now: int): nat
  {
    HealthyPv(c, us, now) % Reload.UINT_RANGE
  }

  // ----- the forced shutdown -----

  predicate IsPrimary(u: Ups) { PRIMARY in u.status }

  function Primaries(us: seq<Ups>): seq<Ups>
  {
    if us == [] then []
    else if IsPrimary(us[0]) then [us[0]] + Primaries(us[1..])
    else Primaries(us[1..])
  }

  function FsdCommands(us: seq<Ups>): seq<Action>
  {
    if us == [] then []
    else if IsPrimary(us[0]) then [SetFsd(us[0].sys)] + FsdCommands(us[1..])
    else FsdCommands(us[1..])
  }

  /** The primaries' devices after their FSD commands; the server confirmed those named. */
  function AfterFsd(us: seq<Ups>, confirmed: set<string>, now: int): seq<Ups>
  {
    if us == [] then []
    else
      [if IsPrimary(us[0]) then FsdSet(us[0], us[0].sys in confirmed, now) else us[0]]
      + AfterFsd(us[1..], confirmed, now)
  }

  /** One look at the login counts: those that could be read, by device, and the time. */
  datatype Round = Round(logins: map<string, int>, now: int)

  function MaxLogins(us: seq<Ups>, logins: map<string, int>, max: int): int
    decreases |us|
  {
    if us == [] then max
    else if IsPrimary(us[0]) && us[0].sys in logins && logins[us[0].sys] > max
    then MaxLogins(us[1..], logins, logins[us[0].sys])
    else MaxLogins(us[1..], logins, max)
  }

  /** Nobody but this host is logged in to a device it is the primary of, as far as known. */
  predicate SecondariesGone(us: seq<Ups>, logins: map<string, int>)
  {
    forall i | 0 <= i < |us| && IsPrimary(us[i]) && us[i].sys in logins :: logins[us[i].sys] <= 1
  }

  lemma {:induction false} MaxLoginsMeans(us: seq<Ups>, logins: map<string, int>, max: int)
    ensures MaxLogins(us, logins, max) <= 1 <==> max <= 1 && SecondariesGone(us, logins)
    decreases |us|
  {
    if us != [] {
      var top := if IsPrimary(us[0]) && us[0].sys in logins && logins[us[0].sys] > max
                 then logins[us[0].sys] else max;
      MaxLoginsMeans(us[1..], logins, top);
      assert SecondariesGone(us, logins) <==>
        SecondariesGone(us[1..], logins) && (IsPrimary(us[0]) && us[0].sys in logins ==> logins[us[0].sys] <= 1) by {
        assert forall i | 1 <= i < |us| :: us[i] == us[1..][i - 1];
      }
    }
  }

  /** The waiting ends with this round. */
  predicate Ends(us: seq<Ups>, r: Round, start: int, hostsync: int)
  {
    SecondariesGone(us, r.logins) || r.now - start > hostsync
  }

  /** What the waiting did, how many rounds it looked at, and whether it is over. */
  datatype Waiting = Waiting(steps: seq<Action>, looked: nat, over: bool)

  const NO_WAIT := Waiting([], 0, true)

  /** The rounds come from outside; when they run out the wait is still going on. The notice
      is sent once, after the `first` round if that does not end the wait. */
  function Wait(us: seq<Ups>, rounds: seq<Round>, start: int, hostsync: int, first: bool): Waiting
    decreases |rounds|
  {
    if rounds == [] then Waiting([], 0, false)
    else
      var max := MaxLogins(us, rounds[0].logins, 0);
      var check := LoginCheck(max, rounds[0].now - start);
      if max <= 1 || rounds[0].now - start > hostsync then Waiting([check], 1, true)
      else
        var more := Wait(us, rounds[1..], start, hostsync, false);
        Waiting([check] + (if first then [NotifyHostsync] else []) + more.steps, 1 + more.looked, more.over)
  }

  /** Main result on the wait: it is over exactly when some round ends it, and the first such
      round is the last one looked at. */
  lemma {:induction false} WaitEndsExactly(us: seq<Ups>, rounds: seq<Round>, start: int, hostsync: int, first: bool)
    ensures var w := Wait(us, rounds, start, hostsync, first);
      && w.looked <= |rounds|
      && (w.over <==> exists i | 0 <= i < |rounds| :: Ends(us, rounds[i], start, hostsync))
      && (w.over ==> w.looked > 0 && Ends(us, rounds[w.looked - 1], start, hostsync))
      && (forall i | 0 <= i < w.looked - 1 :: !Ends(us, rounds[i], start, hostsync))
      && (!w.over ==> w.looked == |rounds|)
    decreases |rounds|
  {
    if rounds != [] {
      MaxLoginsMeans(us, rounds[0].logins, 0);
      if !Ends(us, rounds[0], start, hostsync) {
        WaitEndsExactly(us, rounds[1..], start, hostsync, false);
        assert forall i | 1 <= i < |rounds| :: rounds[i] == rounds[1..][i - 1];
        var more := Wait(us, rounds[1..], start, hostsync, false);
        if more.over {
          var i :| 0 <= i < |rounds[1..]| && Ends(us, rounds[1..][i], start, hostsync);
          assert Ends(us, rounds[i + 1], start, hostsync);
        }
      }
    }
  }

  /** The steps are the checks, with at most the one notice among them. */
  lemma {:induction false} WaitSteps(us: seq<Ups>, rounds: seq<Round>, start: int, hostsync: int, first: bool)
    ensures var w := Wait(us, rounds, start, hostsync, first);
      && (forall i | 0 <= i < |w.steps| :: w.steps[i].LoginCheck? || w.steps[i] == NotifyHostsync)
      && Count(w.steps, NotifyHostsync) == if first && (w.looked > 1 || (w.looked == 1 && !w.over)) then 1 else 0
    decreases |rounds|
  {
    if rounds != [] {
      var max := MaxLogins(us, rounds[0].logins, 0);
      var check := LoginCheck(max, rounds[0].now - start);
      assert [check][1..] == [];
      if max > 1 && rounds[0].now - start <= hostsync {
        WaitSteps(us, rounds[1..], start, hostsync, false);
        var notice, more := if first then [NotifyHostsync] else [], Wait(us, rounds[1..], start, hostsync, false);
        CountConcat([check] + notice, more.steps, NotifyHostsync);
        CountConcat([check], notice, NotifyHostsync);
        assert [NotifyHostsync][1..] == [];
      }
    }
  }

  /** The number it goes by is the greatest of those that could be read, or `max`. */
  lemma {:induction false} MaxLoginsIsGreatest(us: seq<Ups>, logins: map<string, int>, max: int)
    ensures var r := MaxLogins(us, logins, max);
      && max <= r
      && (forall i | 0 <= i < |us| && IsPrimary(us[i]) && us[i].sys in logins :: logins[us[i].sys] <= r)
      && (r == max || exists i | 0 <= i < |us| && IsPrimary(us[i]) && us[i].sys in logins :: logins[us[i].sys] == r)
    decreases |us|
  {
    if us != [] {
      var top := if IsPrimary(us[0]) && us[0].sys in logins && logins[us[0].sys] > max
                 then logins[us[0].sys] else max;
      MaxLoginsIsGreatest(us[1..], logins, top);
      assert forall i | 1 <= i < |us| :: us[i] == us[1..][i - 1];
      var r := MaxLogins(us, logins, max);
      if r != top {
        var i :| 0 <= i < |us[1..]| && IsPrimary(us[1..][i]) && us[1..][i].sys in logins && logins[us[1..][i].sys] == r;
        assert us[i + 1].sys in logins && logins[us[i + 1].sys] == r;
      }
    }
  }

  /** What a round's check reports. */
  function CheckOf(us: seq<Ups>, r: Round, start: int): Action
  {
    LoginCheck(MaxLogins(us, r.logins, 0), r.now - start)
  }

  function ChecksOf(us: seq<Ups>, rounds: seq<Round>, start: int): seq<Action>
  {
    if rounds == [] then [] else [CheckOf(us, rounds[0], start)] + ChecksOf(us, rounds[1..], start)
  }

  /** The steps are one check for each round looked at, in order, the notice after the first. */
  lemma {:induction false} WaitReports(us: seq<Ups>, rounds: seq<Round>, start: int, hostsync: int, first: bool)
    ensures var w := Wait(us, rounds, start, hostsync, first);
      && w.looked <= |rounds|
      && w.steps == if !first || w.looked == 0 || (w.looked == 1 && w.over) then ChecksOf(us, rounds[..w.looked], start)
                    else [CheckOf(us, rounds[0], start), NotifyHostsync] + ChecksOf(us, rounds[1..w.looked], start)
    decreases |rounds|
  {
    var w := Wait(us, rounds, start, hostsync, first);
    if rounds != [] {
      var more := Wait(us, rounds[1..], start, hostsync, false);
      WaitReports(us, rounds[1..], start, hostsync, false);
      assert rounds[..w.looked][0] == rounds[0] && rounds[..w.looked][1..] == rounds[1..w.looked];
      if w.looked == 1 + more.looked {
        assert rounds[1..][..more.looked] == rounds[1..w.looked];
      }
      assert w.looked == 1 ==> rounds[1..w.looked] == [];
    }
  }

  /** The end, with a privileged parent process or without. */
  function ShutdownSteps(usePipe: bool): seq<Action>
  {
    [NotifyShutdown] + (if usePipe then [AskParent] else []) + [SetPowerDownFlag, RunShutdownCommand]
  }

  // ----- the main loop -----

  /** `GaveUp`: upsmon has ended because its configuration cannot work. */
  datatype Phase = Running | WaitingForSecondaries | GoneDown | GaveUp

  datatype Sys = Sys(upses: seq<Ups>, sleepval: nat, phase: Phase, trace: seq<Action>)

  /** One cycle's input: whether the user asked for a shutdown, the devices and the interval
      as this cycle's reload, wake-up and polls leave them, whether the polls were given up
      because the system goes to sleep or wakes, whether a configuration was read that cannot
      work, and what the servers answer if it comes to a shutdown. */
  datatype Cycle = Cycle(
    now: int, c: Config, usePipe: bool, userfsd: bool, polled: seq<Ups>, interval: nat, abandoned: bool,
    impossible: bool, confirmed: set<string>, rounds: seq<Round>)

  /** Only the primary of some device has to wait. */
  function Waited(k: Cycle, us: seq<Ups>): Waiting
  {
    if Primaries(us) == [] then NO_WAIT else Wait(us, k.rounds, k.now, k.c.hostsync, true)
  }

  /** `forceshutdown`, which never returns. */
  function Forced(k: Cycle, us: seq<Ups>, sleepval: nat, why: Action): Sys
  {
    var wait := Waited(k, us);
    Sys(AfterFsd(us, k.confirmed, k.now), sleepval,
        if wait.over then GoneDown else WaitingForSecondaries,
        [why] + FsdCommands(us) + wait.steps + (if wait.over then ShutdownSteps(k.usePipe) else []))
  }

  function RunCycle(s: Sys, k: Cycle): Sys
  {
    if s.phase != Running then s
    else if k.userfsd then Forced(k, s.upses, s.sleepval, UserAskedFsd)
    else if k.impossible then Sys(k.polled, k.interval, GaveUp, [])
    else if k.abandoned then Sys(k.polled, k.interval, Running, [])
    else
      var r := RecalcFrom(k.c, k.polled, k.interval, 0, k.now);
      if r.healthy < k.c.minsupplies then Forced(k, r.upses, r.sleepval, TooFewSupplies(r.healthy))
      else Sys(r.upses, r.sleepval, Running, [])
  }

  function RunCycles(s: Sys, ks: seq<Cycle>): Sys
    decreases |ks|
  {
    if ks == [] then s else RunCycles(RunCycle(s, ks[0]), ks[1..])
  }

  function Count(trace: seq<Action>, a: Action): nat
  {
    if trace == [] then 0 else (if trace[0] == a then 1 else 0) + Count(trace[1..], a)
  }

  lemma {:induction false} CountConcat(a: seq<Action>, b: seq<Action>, x: Action)
    ensures Count(a + b, x) == Count(a, x) + Count(b, x)
    decreases |a|
  {
    if a == [] {
      assert a + b == b;
    } else {
      assert (a + b)[1..] == a[1..] + b;
      CountConcat(a[1..], b, x);
    }
  }

  lemma {:induction false} CountAbsent(trace: seq<Action>, x: Action)
    requires forall i | 0 <= i < |trace| :: trace[i] != x
    ensures Count(trace, x) == 0
    decreases |trace|
  {
    if trace != [] {
      CountAbsent(trace[1..], x);
    }
  }

  lemma {:induction false} FsdCommandsAre(us: seq<Ups>)
    ensures |FsdCommands(us)| == |Primaries(us)|
    ensures forall i | 0 <= i < |Primaries(us)| :: FsdCommands(us)[i] == SetFsd(Primaries(us)[i].sys)
    decreases |us|
  {
    if us != [] {
      FsdCommandsAre(us[1..]);
    }
  }

  /** What a forced shutdown leaves in the trace: the reason, an FSD command for every
      primary's device in order, the checks of the wait (none without a primary), and, once
      the wait is over, the closing steps, of which the command is the last. */
  ghost predicate ForcedTrace(trace: seq<Action>, why: Action, us: seq<Ups>, wait: Waiting, usePipe: bool)
  {
    trace == [why] + FsdCommands(us) + wait.steps + (if wait.over then ShutdownSteps(usePipe) else [])
  }

  lemma ShutdownOnce(why: Action, us: seq<Ups>, wait: Waiting, usePipe: bool, trace: seq<Action>)
    requires ForcedTrace(trace, why, us, wait, usePipe)
    requires why.UserAskedFsd? || why.TooFewSupplies?
    requires forall i | 0 <= i < |wait.steps| :: wait.steps[i].LoginCheck? || wait.steps[i] == NotifyHostsync
    ensures Count(trace, RunShutdownCommand) == if wait.over then 1 else 0
    ensures wait.over ==> trace[|trace| - 1] == RunShutdownCommand && trace[|trace| - 2] == SetPowerDownFlag
  {
    var x := RunShutdownCommand;
    var tail := if wait.over then ShutdownSteps(usePipe) else [];
    CountConcat([why] + FsdCommands(us) + wait.steps, tail, x);
    CountConcat([why] + FsdCommands(us), wait.steps, x);
    CountConcat([why], FsdCommands(us), x);
    FsdCommandsAre(us);
    CountAbsent(FsdCommands(us), x);
    CountAbsent(wait.steps, x);
    CountAbsent([why], x);
    if wait.over {
      ClosingStepsCount(usePipe);
    }
  }

  lemma ClosingStepsCount(usePipe: bool)
    ensures Count(ShutdownSteps(usePipe), RunShutdownCommand) == 1
  {
    var front := [NotifyShutdown] + (if usePipe then [AskParent] else []) + [SetPowerDownFlag];
    assert ShutdownSteps(usePipe) == front + [RunShutdownCommand];
    CountConcat(front, [RunShutdownCommand], RunShutdownCommand);
    CountAbsent(front, RunShutdownCommand);
    assert [RunShutdownCommand][1..] == [];
  }

  /** Why cycle `k` forces a shutdown from state `s`, and on which devices; if it does. */
  datatype Decision = Continue | GiveUp | Force(why: Action, upses: seq<Ups>)

  function Decided(s: Sys, k: Cycle): Decision
  {
    if k.userfsd then Force(UserAskedFsd, s.upses)
    else if k.impossible then GiveUp
    else if k.abandoned then Continue
    else if HealthyPower(k.c, k.polled, k.now) < k.c.minsupplies
    then
      Force(TooFewSupplies(HealthyPower(k.c, k.polled, k.now)),
            RecalcFrom(k.c, k.polled, k.interval, 0, k.now).upses)
    else Continue
  }

  lemma CycleDecides(s: Sys, k: Cycle)
    requires s.phase == Running
    ensures var next := RunCycle(s, k);
      match Decided(s, k)
      case Continue => next.phase == Running && next.trace == []
      case GiveUp => next.phase == GaveUp && next.trace == []
      case Force(why, us) => exists sleepval :: next == Forced(k, us, sleepval, why)
  {
    RecalcCounts(k.c, k.polled, k.interval, 0, k.now);
    var r := RecalcFrom(k.c, k.polled, k.interval, 0, k.now);
    if k.userfsd {
      assert RunCycle(s, k) == Forced(k, s.upses, s.sleepval, UserAskedFsd);
    } else if k.impossible || k.abandoned {
    } else if r.healthy < k.c.minsupplies {
      assert RunCycle(s, k) == Forced(k, r.upses, r.sleepval, TooFewSupplies(r.healthy));
    }
  }

  lemma {:induction false} StoppedStays(s: Sys, ks: seq<Cycle>)
    requires s.phase != Running
    ensures RunCycles(s, ks) == s
    decreases |ks|
  {
    if ks != [] {
      StoppedStays(s, ks[1..]);
    }
  }

  /** Cycle `i` is the first one to decide on a shutdown. */
  ghost predicate FirstForced(s: Sys, ks: seq<Cycle>, i: nat)
    requires i < |ks|
  {
    var before := RunCycles(s, ks[..i]);
    before.phase == Running && Decided(before, ks[i]).Force? &&
    var d := Decided(before, ks[i]);
    exists sleepval :: RunCycles(s, ks) == Forced(ks[i], d.upses, sleepval, d.why)
  }

  /** Main result: over every run, either nothing is set in motion, also if upsmon gives up, or
      there is one first cycle whose user request or lack of power started it, and the whole
      trace is that cycle's forced shutdown. */
  lemma {:induction false} ShutdownHasOneCause(s: Sys, ks: seq<Cycle>)
    requires s.phase == Running && s.trace == []
    ensures var last := RunCycles(s, ks);
      if last.phase == Running || last.phase == GaveUp then last.trace == []
      else exists i | 0 <= i < |ks| :: FirstForced(s, ks, i)
    decreases |ks|
  {
    if ks != [] {
      var next := RunCycle(s, ks[0]);
      CycleDecides(s, ks[0]);
      if Decided(s, ks[0]).Force? {
        var d := Decided(s, ks[0]);
        var sleepval :| next == Forced(ks[0], d.upses, sleepval, d.why);
        StoppedStays(next, ks[1..]);
        assert ks[..0] == [];
        assert FirstForced(s, ks, 0);
      } else if Decided(s, ks[0]).GiveUp? {
        StoppedStays(next, ks[1..]);
      } else {
        ShutdownHasOneCause(next, ks[1..]);
        var last := RunCycles(next, ks[1..]);
        if last.phase != Running && last.phase != GaveUp {
          var i :| 0 <= i < |ks[1..]| && FirstForced(next, ks[1..], i);
          assert ks[..i + 1][1..] == ks[1..][..i] && ks[..i + 1][0] == ks[0];
          assert RunCycles(s, ks[..i + 1]) == RunCycles(next, ks[1..][..i]);
          assert FirstForced(s, ks, i + 1);
        }
      }
    }
  }

  /** And a forced shutdown asks for FSD on every primary's device first, waits, and runs the
      shutdown command once at most, when the wait is over. */
  lemma ForcedShutdownOrder(k: Cycle, us: seq<Ups>, sleepval: nat, why: Action)
    requires why.UserAskedFsd? || why.TooFewSupplies?
    ensures var s := Forced(k, us, sleepval, why);
      var wait := Waited(k, us);
      && ForcedTrace(s.trace, why, us, wait, k.usePipe)
      && (s.phase == GoneDown <==> wait.over)
      && (wait.over <==> Primaries(us) == [] ||
                         exists i | 0 <= i < |k.rounds| :: Ends(us, k.rounds[i], k.now, k.c.hostsync))
      && Count(s.trace, RunShutdownCommand) == (if s.phase == GoneDown then 1 else 0)
  {
    var wait := Waited(k, us);
    WaitEndsExactly(us, k.rounds, k.now, k.c.hostsync, true);
    WaitSteps(us, k.rounds, k.now, k.c.hostsync, true);
    ShutdownOnce(why, us, wait, k.usePipe, Forced(k, us, sleepval, why).trace);
  }

  /** So no run asks for a shutdown twice, and none does before the wait is over. */
  lemma ShutdownRequestedAtMostOnce(s: Sys, ks: seq<Cycle>)
    requires s.phase == Running && s.trace == []
    ensures var last := RunCycles(s, ks);
      Count(last.trace, RunShutdownCommand) == if last.phase == GoneDown then 1 else 0
  {
    ShutdownHasOneCause(s, ks);
    if RunCycles(s, ks).phase != Running && RunCycles(s, ks).phase != GaveUp {
      var i :| 0 <= i < |ks| && FirstForced(s, ks, i);
      var d := Decided(RunCycles(s, ks[..i]), ks[i]);
      var sleepval :| RunCycles(s, ks) == Forced(ks[i], d.upses, sleepval, d.why);
      ForcedShutdownOrder(ks[i], d.upses, sleepval, d.why);
    }
  }

  lemma {:induction false} FsdCommandFor(us: seq<Ups>, j: nat)
    requires j < |us| && IsPrimary(us[j])
    ensures exists m | 0 <= m < |FsdCommands(us)| :: FsdCommands(us)[m] == SetFsd(us[j].sys)
    decreases |us|
  {
    if j == 0 {
      assert FsdCommands(us)[0] == SetFsd(us[0].sys);
    } else {
      FsdCommandFor(us[1..], j - 1);
      var m :| 0 <= m < |FsdCommands(us[1..])| && FsdCommands(us[1..])[m] == SetFsd(us[j].sys);
      assert FsdCommands(us)[if IsPrimary(us[0]) then m + 1 else m] == SetFsd(us[j].sys);
    }
  }

  lemma {:induction false} FsdCommandsExact(us: seq<Ups>, sys: string)
    ensures SetFsd(sys) in FsdCommands(us) <==> HasPrimary(us, sys)
    decreases |us|
  {
    if us != [] {
      FsdCommandsExact(us[1..], sys);
      assert HasPrimary(us, sys) <==> (IsPrimary(us[0]) && us[0].sys == sys) || HasPrimary(us[1..], sys) by {
        assert forall j | 1 <= j < |us| :: us[j] == us[1..][j - 1];
        assert forall j | 0 <= j < |us[1..]| :: us[1..][j] == us[j + 1];
      }
    }
  }

  predicate HasPrimary(us: seq<Ups>, sys: string)
  {
    exists j | 0 <= j < |us| :: IsPrimary(us[j]) && us[j].sys == sys
  }

  /** Once anything is set in motion, the FSD commands are those of the primaries' devices. */
  lemma FsdIsForPrimaries(s: Sys, ks: seq<Cycle>, sys: string)
    requires s.phase == Running && s.trace == [] && RunCycles(s, ks).trace != []
    ensures SetFsd(sys) in RunCycles(s, ks).trace <==> HasPrimary(RunCycles(s, ks).upses, sys)
  {
    ShutdownHasOneCause(s, ks);
    var n :| 0 <= n < |ks| && FirstForced(s, ks, n);
    var d := Decided(RunCycles(s, ks[..n]), ks[n]);
    var sleepval :| RunCycles(s, ks) == Forced(ks[n], d.upses, sleepval, d.why);
    ForcedFsd(ks[n], d.upses, sleepval, d.why, sys);
  }

  lemma ForcedFsd(k: Cycle, us: seq<Ups>, sleepval: nat, why: Action, sys: string)
    requires why.UserAskedFsd? || why.TooFewSupplies?
    ensures var last := Forced(k, us, sleepval, why);
      SetFsd(sys) in last.trace <==> HasPrimary(last.upses, sys)
  {
    var wait := Waited(k, us);
    WaitSteps(us, k.rounds, k.now, k.c.hostsync, true);
    assert SetFsd(sys) !in wait.steps && SetFsd(sys) !in ShutdownSteps(k.usePipe) && SetFsd(sys) !in [why];
    FsdCommandsExact(us, sys);
    AfterFsdSame(us, k.confirmed, k.now);
    var vs := AfterFsd(us, k.confirmed, k.now);
    if j :| 0 <= j < |us| && IsPrimary(us[j]) && us[j].sys == sys {
      assert IsPrimary(vs[j]) && vs[j].sys == sys;
    }
    if j :| 0 <= j < |vs| && IsPrimary(vs[j]) && vs[j].sys == sys {
      assert IsPrimary(us[j]) && us[j].sys == sys;
    }
  }

  lemma {:induction false} AfterFsdSame(us: seq<Ups>, confirmed: set<string>, now: int)
    ensures var vs := AfterFsd(us, confirmed, now);
      && |vs| == |us|
      && forall j | 0 <= j < |us| :: vs[j].sys == us[j].sys && (IsPrimary(vs[j]) <==> IsPrimary(us[j]))
    decreases |us|
  {
    if us != [] {
      AfterFsdSame(us[1..], confirmed, now);
    }
  }

  /** In every run, by the time a login count is looked at or the shutdown command is given,
      every primary's device has had its FSD command, and the trace began with a cause. */
  lemma FsdComesFirst(s: Sys, ks: seq<Cycle>, i: nat, j: nat)
    requires s.phase == Running && s.trace == []
    requires var last := RunCycles(s, ks);
      && i < |last.trace| && (last.trace[i] == RunShutdownCommand || last.trace[i].LoginCheck?)
      && j < |last.upses| && IsPrimary(last.upses[j])
    ensures var last := RunCycles(s, ks);
      && (last.trace[0].UserAskedFsd? || last.trace[0].TooFewSupplies?)
      && exists m | 0 <= m < i :: last.trace[m] == SetFsd(last.upses[j].sys)
  {
    var last := RunCycles(s, ks);
    ShutdownHasOneCause(s, ks);
    var n :| 0 <= n < |ks| && FirstForced(s, ks, n);
    var d := Decided(RunCycles(s, ks[..n]), ks[n]);
    var sleepval :| last == Forced(ks[n], d.upses, sleepval, d.why);
    FsdFirst(ks[n], d.upses, sleepval, d.why, i, j);
  }

  lemma FsdFirst(k: Cycle, us: seq<Ups>, sleepval: nat, why: Action, i: nat, j: nat)
    requires why.UserAskedFsd? || why.TooFewSupplies?
    requires var last := Forced(k, us, sleepval, why);
      && i < |last.trace| && (last.trace[i] == RunShutdownCommand || last.trace[i].LoginCheck?)
      && j < |last.upses| && IsPrimary(last.upses[j])
    ensures var last := Forced(k, us, sleepval, why);
      last.trace[0] == why && exists m | 0 <= m < i :: last.trace[m] == SetFsd(last.upses[j].sys)
  {
    var fsds, wait := FsdCommands(us), Waited(k, us);
    var front, rest := [why] + fsds, wait.steps + if wait.over then ShutdownSteps(k.usePipe) else [];
    var trace := front + rest;
    assert Forced(k, us, sleepval, why).trace == trace;
    FsdCommandsAre(us);
    assert forall m | 0 <= m < |front| :: trace[m] != RunShutdownCommand && !trace[m].LoginCheck? by {
      assert forall m | 1 <= m < |front| :: front[m] == fsds[m - 1];
    }
    assert i >= |front|;
    AfterFsdSame(us, k.confirmed, k.now);
    FsdCommandFor(us, j);
    var m :| 0 <= m < |fsds| && fsds[m] == SetFsd(us[j].sys);
    assert trace[m + 1] == SetFsd(us[j].sys);
  }

  // ----- the end -----

  predicate Closing(a: Action)
  {
    a == NotifyShutdown || a == AskParent || a == SetPowerDownFlag || a == RunShutdownCommand
  }

  /** The trace ends with these and has none of them before. */
  predicate EndsWith(trace: seq<Action>, end: seq<Action>)
  {
    && |end| <= |trace| && trace[|trace| - |end|..] == end
    && forall j | 0 <= j < |trace| - |end| :: !Closing(trace[j])
  }

  /** Main result on the end: in every run upsmon notifies the shutdown, asks its parent exactly if
      it runs with a pipe, sets the flag and gives the command, once each and in this order,
      behind everything else, exactly if the shutdown was forced and the wait is over. */
  lemma ClosingStepsExact(s: Sys, ks: seq<Cycle>)
    requires s.phase == Running && s.trace == []
    ensures var last := RunCycles(s, ks);
      if last.phase == GoneDown then
        exists i | 0 <= i < |ks| :: FirstForced(s, ks, i) &&
          EndsWith(last.trace, if ks[i].usePipe then [NotifyShutdown, AskParent, SetPowerDownFlag, RunShutdownCommand]
                               else [NotifyShutdown, SetPowerDownFlag, RunShutdownCommand])
      else forall j | 0 <= j < |last.trace| :: !Closing(last.trace[j])
  {
    ShutdownHasOneCause(s, ks);
    if RunCycles(s, ks).phase != Running && RunCycles(s, ks).phase != GaveUp {
      var i :| 0 <= i < |ks| && FirstForced(s, ks, i);
      var d := Decided(RunCycles(s, ks[..i]), ks[i]);
      var sleepval :| RunCycles(s, ks) == Forced(ks[i], d.upses, sleepval, d.why);
      ForcedCloses(ks[i], d.upses, sleepval, d.why);
    }
  }

  lemma ForcedCloses(k: Cycle, us: seq<Ups>, sleepval: nat, why: Action)
    requires why.UserAskedFsd? || why.TooFewSupplies?
    ensures var s := Forced(k, us, sleepval, why);
      if s.phase == GoneDown then
        EndsWith(s.trace, if k.usePipe then [NotifyShutdown, AskParent, SetPowerDownFlag, RunShutdownCommand]
                          else [NotifyShutdown, SetPowerDownFlag, RunShutdownCommand])
      else forall j | 0 <= j < |s.trace| :: !Closing(s.trace[j])
  {
    var wait := Waited(k, us);
    var front := [why] + FsdCommands(us) + wait.steps;
    WaitSteps(us, k.rounds, k.now, k.c.hostsync, true);
    FsdCommandsAre(us);
    forall j | 0 <= j < |front|
      ensures !Closing(front[j])
    {
      if 0 < j <= |FsdCommands(us)| {
        assert front[j] == FsdCommands(us)[j - 1];
      } else if j > |FsdCommands(us)| {
        assert front[j] == wait.steps[j - 1 - |FsdCommands(us)|];
      }
    }
    var trace := Forced(k, us, sleepval, why).trace;
    if wait.over {
      assert trace == front + ShutdownSteps(k.usePipe);
      assert trace[|front|..] == ShutdownSteps(k.usePipe);
    } else {
      assert trace == front;
    }
  }

  // ----- a device never heard from -----

  /** Nothing in its state comes from a status. */
  predicate Unheard(u: Ups)
  {
    && u.status <= {PRIMARY, LOGIN, CLICONNECTED}
    && u.overstate != 1 && u.alarmstate != 1 && u.bypassstate != 1 && u.offstate != 1
  }

  /** The event brings no status. */
  predicate Silent(e: Event)
  {
    e.Polled? ==> e.status == ""
  }

  lemma RedefinedUnheard(u: Ups, l: Line)
    requires Unheard(u)
    ensures Unheard(Redefined(u, l))
  {
  }

  lemma UnheardIsHealthy(c: Config, u: Ups, now: int)
    requires Unheard(u)
    ensures Promoted(c, u, now) == u && !Critical(c, u, now) && Unheard(Evaluated(c, St(u, 0), now).u)
  {
    assert FSD !in u.status && ONBATT !in u.status && OFF !in u.status && CAL !in u.status;
    assert OVER !in u.status && ALARM !in u.status && BYPASS !in u.status;
  }

  lemma UnheardStep(s: St, e: Timed)
    requires Unheard(s.u) && Silent(e.ev)
    ensures Unheard(Step(s, e).u)
  {
    match e.ev
    case Recalc =>
      UnheardIsHealthy(e.c, s.u, e.now);
      assert ONBATT !in s.u.status;
    case Reloading(forget, line) =>
      RedefinedUnheard(if forget then ThrottleForgotten(s.u) else s.u, line);
    case Polled(status, eco) =>
      assert status == "";
    case _ =>
  }

  lemma {:induction false} UnheardStays(s: St, es: seq<Timed>)
    requires Unheard(s.u)
    requires forall i | 0 <= i < |es| :: Silent(es[i].ev)
    ensures Unheard(Run(s, es).u)
    decreases |es|
  {
    if es != [] {
      UnheardStep(s, es[0]);
      UnheardStays(Step(s, es[0]), es[1..]);
    }
  }

  /** Main result: a device that never delivered a status counts as healthy, whatever else
      happened to it, at any time and under any configuration. */
  lemma {:induction false} NeverHeardIsHealthy(sys: string, pv: nat, un: string, pw: string, primary: bool,
                                               sleepval: nat, es: seq<Timed>, c: Config, now: int)
    requires forall i | 0 <= i < |es| :: Silent(es[i].ev)
    ensures !JudgedCritical(c, Run(St(NewUps(sys, pv, un, pw, primary), sleepval), es).u, now)
  {
    var s := St(NewUps(sys, pv, un, pw, primary), sleepval);
    UnheardStays(s, es);
    UnheardIsHealthy(c, Run(s, es).u, now);
  }
}
