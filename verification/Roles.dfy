/** Which devices this host is the primary of: the PRIMARY bit against the configured role. */
module Roles {
  import opened Text
  import opened UpsState
  import opened UpsRuns
  import opened MainLoop
  import Reload
  import Shutdown

  /** The role a MONITOR line gives, if this is one that gives any. */
  function RoleIn(ev: Event): Option<bool>
  {
    if ev.Reloading? && ev.line.role != OtherRole then Some(ev.line.role == Primary) else None
  }

  /** Is this host configured as the primary, going by the last line with a role? */
  function Configured(primary: bool, es: seq<Timed>): bool
    decreases |es|
  {
    if es == [] then primary
    else Configured(if RoleIn(es[0].ev).Some? then RoleIn(es[0].ev).value else primary, es[1..])
  }

  /** A wake-up came after the last line with a role. */
  predicate Forgotten(es: seq<Timed>)
  {
    exists i | 0 <= i < |es| :: WokenLast(es, i)
  }

  predicate WokenLast(es: seq<Timed>, i: nat)
    requires i < |es|
  {
    es[i].ev.Waking? && forall j | i < j < |es| :: RoleIn(es[j].ev) == None
  }

  predicate NoRole(es: seq<Timed>)
  {
    forall j | 0 <= j < |es| :: RoleIn(es[j].ev) == None
  }

  lemma ForgottenStep(es: seq<Timed>)
    requires es != []
    ensures Forgotten(es) <==> (es[0].ev.Waking? && NoRole(es[1..])) || Forgotten(es[1..])
  {
    var rest := es[1..];
    assert forall j | 0 < j < |es| :: es[j] == rest[j - 1];
    if es[0].ev.Waking? && NoRole(rest) {
      assert WokenLast(es, 0);
    }
    if i :| 0 <= i < |rest| && WokenLast(rest, i) {
      assert WokenLast(es, i + 1);
    }
    if i :| 0 <= i < |es| && WokenLast(es, i) {
      if i > 0 {
        assert WokenLast(rest, i - 1);
      } else {
        assert forall j | 0 <= j < |rest| :: rest[j] == es[j + 1];
      }
    }
  }

  // ----- the bit over a run -----

  /** What one event does to the bit. */
  lemma StepBit(s: St, e: Timed)
    ensures PRIMARY in Step(s, e).u.status <==>
            if e.ev.Waking? then false
            else if RoleIn(e.ev).Some? then RoleIn(e.ev).value
            else PRIMARY in s.u.status
  {
    match e.ev
    case Polled(status, eco) =>
      if status != "" {
        PollKeeps(e.c, s, status, eco, e.now);
        assert PRIMARY in KeptOf(Step(s, e).u).roles <==> PRIMARY in KeptOf(s.u).roles;
      }
    case Reloading(forget, line) =>
      Reload.RedefinedRole(if forget then ThrottleForgotten(s.u) else s.u, line);
    case _ =>
  }

  /** The bit as a run without wake-ups would leave it, or none if one is not made good yet. */
  lemma {:induction false} BitFrom(s: St, es: seq<Timed>, primary: bool, lost: bool)
    requires PRIMARY in s.u.status <==> primary && !lost
    ensures PRIMARY in Run(s, es).u.status
      <==> Configured(primary, es) && !Forgotten(es) && !(lost && NoRole(es))
    decreases |es|
  {
    if es != [] {
      var ev := es[0].ev;
      StepBit(s, es[0]);
      ForgottenStep(es);
      assert NoRole(es) <==> RoleIn(ev) == None && NoRole(es[1..]) by {
        assert forall j | 0 < j < |es| :: es[j] == es[1..][j - 1];
      }
      BitFrom(Step(s, es[0]), es[1..],
              if RoleIn(ev).Some? then RoleIn(ev).value else primary, ev.Waking? || (lost && RoleIn(ev) == None));
    }
  }

  /** Main result on the bit: over any run it says primary exactly if the last line with a role
      does and no wake-up came after it. */
  lemma RoleExact(s: St, es: seq<Timed>)
    ensures PRIMARY in Run(s, es).u.status
      <==> Configured(PRIMARY in s.u.status, es) && !Forgotten(es)
  {
    BitFrom(s, es, PRIMARY in s.u.status, false);
  }

  // ----- in the system -----

  /** This host is configured as the primary of the device, and has not forgotten it. */
  predicate ServesAsPrimary(st: Story)
  {
    Configured(PRIMARY in st.start.status, st.es) && !Forgotten(st.es)
  }

  lemma SystemRoleExact(h: Host, xs: seq<Input>, sys: string)
    requires Reload.DistinctNames(h.sys.upses) && Reload.FindDevice(Turns(h, xs).sys.upses, sys).Some?
    ensures StoryOf(h, xs, sys).Some?
    ensures PRIMARY in Reload.FindDevice(Turns(h, xs).sys.upses, sys).value.status
      <==> ServesAsPrimary(StoryOf(h, xs, sys).value)
  {
    EachDeviceRuns(h, xs, sys);
    var st := StoryOf(h, xs, sys).value;
    RoleExact(St(st.start, 0), st.es);
  }

  /** Main result: a system that is shutting down has sent a device its FSD command exactly if
      this host is configured as its primary and has not woken up since the line that says so. */
  lemma ConfiguredPrimariesGetFsd(h: Host, xs: seq<Input>, sys: string)
    requires h.sys.phase == Shutdown.Running && h.sys.trace == [] && Reload.DistinctNames(h.sys.upses)
    requires Turns(h, xs).sys.trace != [] && Reload.FindDevice(Turns(h, xs).sys.upses, sys).Some?
    ensures StoryOf(h, xs, sys).Some?
    ensures Shutdown.SetFsd(sys) in Turns(h, xs).sys.trace <==> ServesAsPrimary(StoryOf(h, xs, sys).value)
  {
    SystemRoleExact(h, xs, sys);
    TurnsAreCycles(h, xs);
    StoryTells(h, xs, Beginning(h.sys.upses, sys), sys);
    Shutdown.FsdIsForPrimaries(h.sys, Cycles(h, xs), sys);
    var us := Turns(h, xs).sys.upses;
    var k := Reload.FindUps(us, sys);
    if j :| 0 <= j < |us| && Shutdown.IsPrimary(us[j]) && us[j].sys == sys {
      Reload.FindUpsUnique(us, j);
    }
    assert us[k].sys == sys;
  }

  /** And it comes before any login count is looked at and before the shutdown command. */
  lemma ConfiguredFsdComesFirst(h: Host, xs: seq<Input>, sys: string, i: nat)
    requires h.sys.phase == Shutdown.Running && h.sys.trace == [] && Reload.DistinctNames(h.sys.upses)
    requires StoryOf(h, xs, sys).Some? && ServesAsPrimary(StoryOf(h, xs, sys).value)
    requires var trace := Turns(h, xs).sys.trace;
      i < |trace| && (trace[i] == Shutdown.RunShutdownCommand || trace[i].LoginCheck?)
    ensures exists m | 0 <= m < i :: Turns(h, xs).sys.trace[m] == Shutdown.SetFsd(sys)
  {
    EachDeviceRuns(h, xs, sys);
    SystemRoleExact(h, xs, sys);
    TurnsAreCycles(h, xs);
    Shutdown.FsdComesFirst(h.sys, Cycles(h, xs), i, Reload.FindUps(Turns(h, xs).sys.upses, sys));
  }

  // ----- a host that has forgotten -----

  lemma {:induction false} WithoutPrimaries(us: seq<Ups>)
    requires forall i | 0 <= i < |us| :: !Shutdown.IsPrimary(us[i])
    ensures Shutdown.Primaries(us) == [] && Shutdown.FsdCommands(us) == []
    decreases |us|
  {
    if us != [] {
      WithoutPrimaries(us[1..]);
    }
  }

  lemma {:induction false} NoRoleStays(es: seq<Timed>)
    requires NoRole(es)
    ensures !Configured(false, es)
    decreases |es|
  {
    if es != [] {
      assert forall j | 0 <= j < |es[1..]| :: es[1..][j] == es[j + 1];
      NoRoleStays(es[1..]);
    }
  }

  lemma EventsGiveNoRole(h: Host, x: Input, i: nat)
    ensures NoRole(Events(h, x, i))
  {
  }

  /** A turn whose only change is a wake-up without a readable file leaves no primary. */
  lemma WakeUpLeavesNoPrimary(h: Host, x: Input)
    requires h.sys.phase == Shutdown.Running && !x.userfsd && x.changes == [Change(true, None)]
    ensures forall i | 0 <= i < |Turn(h, x).sys.upses| :: !Shutdown.IsPrimary(Turn(h, x).sys.upses[i])
  {
    var us := h.sys.upses;
    assert x.changes[1..] == [];
    assert AfterChanges(h.c, Awake(us, x.now), [], x.now) == Prepared(Awake(us, x.now), h.c, true);
    AwakeAt(us, x.now);
    if us == [] {
      TurnOfNone(h, x);
    } else {
      TurnsApart(h, x, 0);
    }
    forall i | 0 <= i < |Turn(h, x).sys.upses|
      ensures !Shutdown.IsPrimary(Turn(h, x).sys.upses[i])
    {
      TurnsApart(h, x, i);
      EventsGiveNoRole(h, x, i);
      NoRoleStays(Events(h, x, i));
      RoleExact(St(Awake(us, x.now)[i], 0), Events(h, x, i));
    }
  }

  /** So a shutdown the user asks for after it sends no FSD command and waits for nobody,
      whatever the MONITOR lines say. */
  lemma WokenHostWaitsForNobody(h: Host, x: Input, y: Input)
    requires h.sys.phase == Shutdown.Running && !x.userfsd && x.changes == [Change(true, None)]
    requires Turn(h, x).sys.phase == Shutdown.Running && y.userfsd
    ensures var end := Turn(Turn(h, x), y).sys;
      && end.phase == Shutdown.GoneDown
      && end.trace == [Shutdown.UserAskedFsd] + Shutdown.ShutdownSteps(y.usePipe)
  {
    WakeUpLeavesNoPrimary(h, x);
    WithoutPrimaries(Turn(h, x).sys.upses);
    assert [Shutdown.UserAskedFsd] + [] + [] == [Shutdown.UserAskedFsd];
  }
}
