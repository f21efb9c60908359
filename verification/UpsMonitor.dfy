/** upsmon as it runs: the linked list of devices, edited in place, and the globals. Each
    method is proved to do what the functions of `UpsState`, `Reload` and `Shutdown` say. */
module UpsMonitor {
  import opened Text
  import opened UpsState
  import opened MainLoop
  import Reload
  import Shutdown

  /** One `utype_t`. */
  class UpsNode {
    const sys: string
    var pv: nat
    var un: string
    var pw: string
    var retain: bool
    var status: set<Flag>
    var commstate: int
    var linestate: int
    var offstate: int
    var bypassstate: int
    var ecostate: int
    var alarmstate: int
    var overstate: int
    var throttleState: int
    var throttleCount: int
    var lastpoll: int
    var lastnoncrit: int
    var lastrbwarn: int
    var lastncwarn: int
    var lastfsdnotify: int
    var offsince: int
    var oblbsince: int
    var oversince: int
    var notices: seq<Notice>
    var next: UpsNode?

    function State(): Ups
      reads this
    {
      Ups(sys, pv, un, pw, retain, status, commstate, linestate, offstate, bypassstate, ecostate,
          alarmstate, overstate, throttleState, throttleCount, lastpoll, lastnoncrit, lastrbwarn,
          lastncwarn, lastfsdnotify, offsince, oblbsince, oversince, notices)
    }

    constructor (l: Line)
      ensures State() == Reload.NewFrom(l) && next == null
    {
      sys, pv, un, pw, retain := l.sys, l.pv, l.un, l.pw, true;
      commstate, linestate, offstate, bypassstate, ecostate, alarmstate, overstate := -1, -1, -1, -1, -1, -1, -1;
      throttleState, throttleCount := ERR_NONE, -1;
      lastpoll, lastnoncrit, lastrbwarn, lastncwarn, lastfsdnotify := 0, 0, 0, 0, 0;
      offsince, oblbsince, oversince := 0, 0, 0;
      notices, next := [], null;
      status := if l.role == Primary then {PRIMARY} else {};
    }

    method Notify(n: Notice)
      modifies this`notices
      ensures notices == old(notices) + [n]
    {
      notices := notices + [n];
    }

    /** A flag set or cleared, with its notice. */
    method Mark(f: Flag, n: Notice)
      modifies this
      ensures next == old(next) && State() == Told(old(State()), n).(status := old(status) + {f})
    {
      Notify(n);
      status := status + {f};
    }

    method Unmark(f: Flag, n: Notice)
      modifies this
      ensures next == old(next) && State() == Unset(old(State()), f, n)
    {
      Notify(n);
      status := status - {f};
    }

    /** `drop_connection`; the socket itself is not part of this. */
    method DropConnection()
      modifies `commstate, `throttleCount, `throttleState, `status
      ensures State() == Dropped(old(State()))
    {
      commstate := 0;
      throttleCount := -1;
      throttleState := ERR_NONE;
      status := status - {LOGIN, CLICONNECTED};
      assert throttleState == ERR_NONE && status == old(status) - {LOGIN, CLICONNECTED};
    }

    method Gone(c: Config, now: int)
      modifies this
      ensures next == old(next) && State() == IsGone(c, old(State()), now)
    {
      if commstate != 0 {
        commstate := 0;
        Notify(NotifyCommBad);
        return;
      }
      if now - lastpoll < c.nocommwarntime { return; }
      if now - lastncwarn > c.nocommwarntime {
        Notify(NotifyNoComm);
        lastncwarn := now;
      }
    }

    method Alive(now: int)
      modifies this
      ensures next == old(next) && State() == IsAlive(St(old(State()), 0), now).u
    {
      lastpoll := now;
      if commstate == 1 { return; }
      if commstate == 0 {
        Notify(NotifyCommOk);
      }
      commstate := 1;
    }

    /** The flags that only have a notice: `ups_low_batt`, `ups_is_cal`, `ups_is_trim`, `ups_is_boost`. */
    method Raise(f: Flag, n: Notice)
      modifies this
      ensures next == old(next) && State() == Raised(old(State()), f, n)
    {
      if f in status { return; }
      Mark(f, n);
    }

    method ReplaceBattery(c: Config, now: int)
      modifies this
      ensures next == old(next) && State() == ReplBatt(c, old(State()), now)
    {
      if now - lastrbwarn > c.rbwarntime {
        Notify(NotifyReplBatt);
        lastrbwarn := now;
      }
    }

    method Fsd(now: int)
      modifies this
      ensures next == old(next) && State() == UpsFsd(old(State()), now)
    {
      ghost var r := UpsFsd(State(), now);
      if FSD in status { return; }
      if lastfsdnotify == 0 {
        lastfsdnotify := now;
        Notify(NotifyFsd);
      }
      status := status + {FSD};
      assert State() == r;
    }

    method CritTimer(now: int)
      modifies this
      ensures next == old(next) && State() == UpdateCritTimer(old(State()), now)
    {
      if ONBATT !in status || LOWBATT !in status || CAL in status {
        lastnoncrit := now;
        return;
      }
    }

    /** `setfsd`, with what the server answered. */
    method SetFsd(confirmed: bool, now: int)
      modifies `lastfsdnotify, `notices
      ensures State() == FsdSet(old(State()), confirmed, now)
    {
      if confirmed && lastfsdnotify == 0 {
        lastfsdnotify := now;
        Notify(NotifyFsd);
      }
    }

    method TryConnect(c: Config, how: Connection, now: int)
      modifies this
      ensures next == old(next) && State() == Connected(c, old(State()), how, now)
    {
      status := status - {CLICONNECTED};
      match how {
        case Misconfigured =>
          Gone(c, now);
          DropConnection();
        case Unreached =>
          Gone(c, now);
        case NotAuthorised(loggedIn) =>
          status := status + {CLICONNECTED};
          if loggedIn {
            status := status + {LOGIN};
          }
          assert status == old(status) - {CLICONNECTED} + {CLICONNECTED} + if loggedIn then {LOGIN} else {};
        case Up =>
          status := status + {CLICONNECTED};
          status := status + {LOGIN};
          assert status == old(status) - {CLICONNECTED} + {CLICONNECTED, LOGIN};
      }
    }

    /** The part of `pollups` that follows a failed poll; `full` tells whether it is logged in full. */
    method Failed(c: Config, err: int, lost: bool, now: int) returns (full: bool)
      modifies this
      ensures next == old(next) && State() == PollFailed(c, old(State()), err, lost, now)
      ensures full == Throttled(c.throttleMax, old(throttleState), old(throttleCount), err).logged
    {
      full := false;
      if c.throttleMax < 0 {
        full := true;
      } else if throttleState == err {
        if c.throttleMax != 0 {
          throttleCount := throttleCount + 1;
          if throttleCount - 1 >= c.throttleMax - 1 {
            full := true;
            throttleCount := 0;
          }
        }
      } else {
        throttleState := err;
        throttleCount := 0;
        full := true;
      }
      Gone(c, now);
      if lost {
        DropConnection();
      }
    }

    method ForgetRetain()
      modifies `retain
      ensures State() == old(State()).(retain := false)
    {
      retain := false;
    }

    method ForgetThrottle()
      modifies `throttleCount, `throttleState
      ensures State() == ThrottleForgotten(old(State()))
    {
      throttleCount := -1;
      throttleState := ERR_NONE;
    }

    method Wake(now: int)
      modifies `status, `lastpoll
      ensures State() == Woken(old(State()), now)
    {
      status := {};
      lastpoll := now;
    }

    method ChangeUser(un: string)
      modifies this
      ensures next == old(next) && State() == WithUser(old(State()), un)
    {
      if this.un != un {
        this.un := un;
        if LOGIN !in status { DropConnection(); }
      }
    }

    method ChangePassword(pw: string)
      modifies this
      ensures next == old(next) && State() == WithPassword(old(State()), pw)
    {
      if this.pw != pw {
        this.pw := pw;
        if LOGIN !in status { DropConnection(); }
      }
    }

    method ChangeRole(role: Role)
      modifies this
      ensures next == old(next) && State() == WithRole(old(State()), role)
    {
      if role == Primary && PRIMARY !in status {
        status := status + {PRIMARY};
        DropConnection();
        return;
      }
      if role == Secondary && PRIMARY in status {
        status := status - {PRIMARY};
        return;
      }
    }

    /** `redefine_ups`; the caller adds the power value to the sum. */
    method Redefine(l: Line)
      modifies this
      ensures next == old(next) && State() == Redefined(old(State()), l) && pv == l.pv
    {
      Reload.RedefinedName(State(), l);
      retain := true;
      if pv != l.pv {
        pv := l.pv;
      }
      ChangeUser(l.un);
      ChangePassword(l.pw);
      ChangeRole(l.role);
      assert pv == State().pv;
    }
  }

  /** The chain of clearing tests, spelt out. */
  lemma ClearChain(c: Config, s: St, status: string)
    ensures var s1 := ClearedUnlessNamed(c, s, CAL, status);
      var s2 := ClearedUnlessNamed(c, s1, OFF, status);
      var s3 := ClearedUnlessNamed(c, s2, BYPASS, status);
      var s4 := ClearedUnlessNamed(c, s3, ALARM, status);
      var s5 := ClearedUnlessNamed(c, s4, OVER, status);
      var s6 := ClearedUnlessNamed(c, s5, TRIM, status);
      ClearAll(c, s, CLEAR_ORDER, status) == ClearedUnlessNamed(c, s6, BOOST, status)
  {
    ClearStep(c, s, CAL, [OFF, BYPASS, ALARM, OVER, TRIM, BOOST], status);
    var s1 := ClearedUnlessNamed(c, s, CAL, status);
    ClearStep(c, s1, OFF, [BYPASS, ALARM, OVER, TRIM, BOOST], status);
    var s2 := ClearedUnlessNamed(c, s1, OFF, status);
    ClearStep(c, s2, BYPASS, [ALARM, OVER, TRIM, BOOST], status);
    var s3 := ClearedUnlessNamed(c, s2, BYPASS, status);
    ClearStep(c, s3, ALARM, [OVER, TRIM, BOOST], status);
    var s4 := ClearedUnlessNamed(c, s3, ALARM, status);
    ClearStep(c, s4, OVER, [TRIM, BOOST], status);
    var s5 := ClearedUnlessNamed(c, s4, OVER, status);
    ClearStep(c, s5, TRIM, [BOOST], status);
    ClearStep(c, ClearedUnlessNamed(c, s5, TRIM, status), BOOST, [], status);
  }

  lemma ClearStep(c: Config, s: St, f: Flag, rest: seq<Flag>, status: string)
    requires f in CLEARED && forall i | 0 <= i < |rest| :: rest[i] in CLEARED
    ensures ClearAll(c, s, [f] + rest, status) == ClearAll(c, ClearedUnlessNamed(c, s, f, status), rest, status)
  {
    assert ([f] + rest)[1..] == rest;
  }

  ghost function States(ns: seq<UpsNode>): seq<Ups>
    reads ns
  {
    if ns == [] then [] else [ns[0].State()] + States(ns[1..])
  }

  lemma {:induction false} StatesAt(ns: seq<UpsNode>)
    ensures |States(ns)| == |ns|
    ensures forall i | 0 <= i < |ns| :: States(ns)[i] == ns[i].State()
    decreases |ns|
  {
    if ns != [] {
      StatesAt(ns[1..]);
    }
  }

  /** The nodes from `lo` to `hi` are as in `us`. */
  ghost predicate Are(ns: seq<UpsNode>, us: seq<Ups>, lo: nat, hi: nat)
    requires lo <= hi <= |ns| && hi <= |us|
    reads ns
  {
    forall j | lo <= j < hi :: ns[j].State() == us[j]
  }

  lemma StatesLength(ns: seq<UpsNode>)
    ensures |States(ns)| == |ns|
  {
    StatesAt(ns);
  }

  lemma AreToTheEnd(ns: seq<UpsNode>, us: seq<Ups>, vs: seq<Ups>, i: nat)
    requires i <= |us| == |vs| == |ns| && us[i..] == vs[i..] && Are(ns, vs, 0, i) && Are(ns, us, i, |us|)
    ensures Are(ns, vs, 0, |us|)
  {
    assert forall j | i <= j < |us| :: us[j] == us[i..][j - i] && vs[j] == vs[i..][j - i];
  }

  lemma StatesAre(ns: seq<UpsNode>, us: seq<Ups>)
    requires |us| == |ns| && forall i | 0 <= i < |ns| :: ns[i].State() == us[i]
    ensures States(ns) == us
  {
    StatesAt(ns);
  }

  /** The globals, and the list that begins at `firstups`. */
  class Monitor {
    var cfg: Config
    var usePipe: bool
    var sleepval: nat
    var totalpv: nat
    var firstups: UpsNode?
    var trace: seq<Shutdown.Action>  // what was done to the world outside
    ghost var nodes: seq<UpsNode>    // the list

    constructor (cfg: Config, usePipe: bool)
      ensures Valid() && Table() == Reload.Table([], 0) && sleepval == 5 && trace == []
      ensures this.cfg == cfg && this.usePipe == usePipe
    {
      this.cfg, this.usePipe := cfg, usePipe;
      sleepval, totalpv, firstups, trace := 5, 0, null, [];
      nodes := [];
    }

    ghost predicate Valid()
      reads this`firstups, this`nodes, nodes`next
    {
      && (firstups == if nodes == [] then null else nodes[0])
      && (forall i {:trigger nodes[i].next} | 0 <= i < |nodes| ::
            nodes[i].next == if i + 1 < |nodes| then nodes[i + 1] else null)
      && (forall i, j | 0 <= i < j < |nodes| :: nodes[i] != nodes[j])
    }

    function View(ups: UpsNode): St
      reads this`sleepval, ups
    {
      St(ups.State(), sleepval)
    }

    // ----- the handlers -----

    method RestorePollfreq(ups: UpsNode)
      modifies this`sleepval
      ensures View(ups) == TryRestorePollfreq(cfg, old(View(ups)))
    {
      if !(RELAXED_MASK <= ups.status) {
        sleepval := cfg.pollfreq;
      }
    }

    /** The shape of every `ups_is_not...`. */
    method Lower(ups: UpsNode, f: Flag, n: Notice)
      modifies this`sleepval, ups
      ensures View(ups) == Lowered(cfg, old(View(ups)), f, n)
      ensures ups.next == old(ups.next)
    {
      ghost var r := Lowered(cfg, View(ups), f, n);
      if f in ups.status {
        ups.Unmark(f, n);
        RestorePollfreq(ups);
        assert View(ups) == r;
      }
      assert View(ups) == r;
    }

    method UpsIsOff(ups: UpsNode, now: int)
      modifies this`sleepval, ups
      ensures ups.next == old(ups.next) && View(ups) == IsOff(cfg, old(View(ups)), now)
    {
      if OFF in ups.status {
        if ups.offsince < 1 {
          ups.offsince := now;
        } else if cfg.offduration > 0 && now - ups.offsince > cfg.offduration {
          ups.offstate := 1;
        }
        return;
      }
      sleepval := cfg.pollfreqalert;
      ups.offsince := now;
      if cfg.offduration == 0 {
        ups.offstate := 1;
      }
      ups.Mark(OFF, NotifyOff);
    }

    method UpsIsNotOff(ups: UpsNode)
      modifies this`sleepval, ups
      ensures ups.next == old(ups.next) && View(ups) == IsNotOff(cfg, old(View(ups)))
    {
      ups.offsince := 0;
      ups.offstate := 0;
      Lower(ups, OFF, NotifyNotOff);
    }

    method UpsIsBypass(ups: UpsNode)
      modifies this`sleepval, ups
      ensures ups.next == old(ups.next) && View(ups) == IsBypass(cfg, old(View(ups)))
    {
      if BYPASS in ups.status { return; }
      sleepval := cfg.pollfreqalert;
      ups.bypassstate := 1;
      ups.Mark(BYPASS, NotifyBypass);
    }

    method UpsIsNotBypass(ups: UpsNode)
      modifies this`sleepval, ups
      ensures ups.next == old(ups.next) && View(ups) == IsNotBypass(cfg, old(View(ups)))
    {
      ups.bypassstate := 0;
      Lower(ups, BYPASS, NotifyNotBypass);
    }

    method UpsIsEco(ups: UpsNode)
      modifies ups
      ensures ups.next == old(ups.next) && View(ups) == IsEco(old(View(ups)))
    {
      if ECO in ups.status { return; }
      ups.ecostate := 1;
      ups.Mark(ECO, NotifyEco);
    }

    method UpsIsNotEco(ups: UpsNode)
      modifies this`sleepval, ups
      ensures ups.next == old(ups.next) && View(ups) == IsNotEco(cfg, old(View(ups)))
    {
      ups.ecostate := 0;
      Lower(ups, ECO, NotifyNotEco);
    }

    method UpsIsAlarm(ups: UpsNode)
      modifies this`sleepval, ups
      ensures ups.next == old(ups.next) && View(ups) == IsAlarm(cfg, old(View(ups)))
    {
      if ALARM in ups.status { return; }
      sleepval := cfg.pollfreqalert;
      ups.alarmstate := 1;
      ups.Mark(ALARM, NotifyAlarm);
    }

    method UpsIsNotAlarm(ups: UpsNode)
      modifies this`sleepval, ups
      ensures ups.next == old(ups.next) && View(ups) == IsNotAlarm(cfg, old(View(ups)))
    {
      ups.alarmstate := 0;
      Lower(ups, ALARM, NotifyNotAlarm);
    }

    method UpsOnBatt(ups: UpsNode)
      modifies this`sleepval, ups
      ensures ups.next == old(ups.next) && View(ups) == OnBatt(cfg, old(View(ups)))
    {
      if ONBATT in ups.status { return; }
      sleepval := cfg.pollfreqalert;
      ups.linestate := 0;
      ups.Notify(NotifyOnBatt);
      ups.status := ups.status + {ONBATT};
      ups.status := ups.status - {ONLINE};
    }

    method UpsOnLine(ups: UpsNode)
      modifies this`sleepval, ups
      ensures ups.next == old(ups.next) && View(ups) == OnLine(cfg, old(View(ups)))
    {
      ghost var r := OnLine(cfg, View(ups));
      RestorePollfreq(ups);
      if ONLINE in ups.status { return; }
      if ups.linestate != -1 {
        ups.Notify(NotifyOnline);
      }
      ups.linestate := 1;
      ups.status := ups.status + {ONLINE};
      ups.status := ups.status - {ONBATT};
      assert View(ups) == r;
    }

    method UpsIsOver(ups: UpsNode, now: int)
      modifies this`sleepval, ups
      ensures ups.next == old(ups.next) && View(ups) == IsOver(cfg, old(View(ups)), now)
    {
      if OVER in ups.status {
        if ups.oversince < 1 {
          ups.oversince := now;
        }
        return;
      }
      if cfg.overduration >= 0 {
        sleepval := cfg.pollfreqalert;
      }
      ups.oversince := now;
      ups.overstate := 1;
      ups.Mark(OVER, NotifyOver);
    }

    method UpsIsNotOver(ups: UpsNode)
      modifies this`sleepval, ups
      ensures ups.next == old(ups.next) && View(ups) == IsNotOver(cfg, old(View(ups)))
    {
      ups.oversince := 0;
      ups.overstate := 0;
      Lower(ups, OVER, NotifyNotOver);
    }

    // ----- a status -----

    method ClearSilently(ups: UpsNode, status: string)
      modifies ups
      ensures ups.next == old(ups.next) && ups.State() == ClearedSilently(old(ups.State()), status)
    {
      if !Contains(status, "LB") {
        ups.status := ups.status - {LOWBATT};
      }
      if !Contains(status, "FSD") {
        ups.status := ups.status - {FSD};
        ups.lastfsdnotify := 0;
      }
    }

    method ClearOne(ups: UpsNode, f: Flag, status: string)
      requires f in CLEARED
      modifies this`sleepval, ups
      ensures ups.next == old(ups.next) && View(ups) == ClearedUnlessNamed(cfg, old(View(ups)), f, status)
    {
      if Contains(status, NameOf(f)) { return; }
      match f {
        case CAL => Lower(ups, CAL, NotifyNotCal);
        case OFF => UpsIsNotOff(ups);
        case BYPASS => UpsIsNotBypass(ups);
        case ALARM => UpsIsNotAlarm(ups);
        case OVER => UpsIsNotOver(ups);
        case TRIM => Lower(ups, TRIM, NotifyNotTrim);
        case BOOST => Lower(ups, BOOST, NotifyNotBoost);
        case _ =>
      }
    }

    method ClearWithNotices(ups: UpsNode, status: string)
      modifies this`sleepval, ups
      ensures ups.next == old(ups.next) && View(ups) == ClearAll(cfg, old(View(ups)), CLEAR_ORDER, status)
    {
      ClearChain(cfg, View(ups), status);
      ClearOne(ups, CAL, status);
      ClearOne(ups, OFF, status);
      ClearOne(ups, BYPASS, status);
      ClearOne(ups, ALARM, status);
      ClearOne(ups, OVER, status);
      ClearOne(ups, TRIM, status);
      ClearOne(ups, BOOST, status);
    }

    method ChangeEco(ups: UpsNode, status: string, eco: bool)
      modifies this`sleepval, ups
      ensures ups.next == old(ups.next) && View(ups) == UpdateEco(cfg, old(View(ups)), status, eco)
    {
      if !Contains(status, "ECO") && !eco {
        UpsIsNotEco(ups);
      } else if eco {
        UpsIsEco(ups);
      }
    }

    /** The chain of `strcasecmp` tests on one word. */
    method ParseWord(ups: UpsNode, word: string, now: int)
      modifies this`sleepval, ups
      ensures ups.next == old(ups.next) && View(ups) == HandleToken(cfg, old(View(ups)), Classify(word), now)
    {
      if SameNoCase(word, "OL") { UpsOnLine(ups); }
      else if SameNoCase(word, "OB") { UpsOnBatt(ups); }
      else if SameNoCase(word, "LB") { ups.Raise(LOWBATT, NotifyLowBatt); }
      else if SameNoCase(word, "RB") { ups.ReplaceBattery(cfg, now); }
      else if SameNoCase(word, "CAL") { ups.Raise(CAL, NotifyCal); }
      else if SameNoCase(word, "OFF") { UpsIsOff(ups, now); }
      else { ParseRareWord(ups, word, now); }
    }

    method ParseRareWord(ups: UpsNode, word: string, now: int)
      requires Classify(word) !in {TokOL, TokOB, TokLB, TokRB, TokCAL, TokOFF}
      modifies this`sleepval, ups
      ensures ups.next == old(ups.next) && View(ups) == HandleToken(cfg, old(View(ups)), Classify(word), now)
    {
      if SameNoCase(word, "BYPASS") { UpsIsBypass(ups); }
      else if SameNoCase(word, "ECO") { UpsIsEco(ups); }
      else if SameNoCase(word, "ALARM") { UpsIsAlarm(ups); }
      else if SameNoCase(word, "OVER") { UpsIsOver(ups, now); }
      else if SameNoCase(word, "TRIM") { ups.Raise(TRIM, NotifyTrim); }
      else if SameNoCase(word, "BOOST") { ups.Raise(BOOST, NotifyBoost); }
      else if SameNoCase(word, "FSD") { ups.Fsd(now); }
    }

    /** The words are cut off one by one at the next space. */
    method ParseWords(ups: UpsNode, status: string, now: int)
      modifies this`sleepval, ups
      ensures ups.next == old(ups.next) && View(ups) == HandleWords(cfg, old(View(ups)), Split(status, ' '), now)
    {
      var statword, more := status, true;
      while more
        invariant ups.next == old(ups.next)
        invariant HandleWords(cfg, View(ups), if more then Split(statword, ' ') else [], now)
               == HandleWords(cfg, old(View(ups)), Split(status, ' '), now)
        decreases more, |statword|
      {
        var i := IndexOf(statword, ' ');
        ghost var words := Split(statword, ' ');
        var word := statword[..i];
        ParseWord(ups, word, now);
        ups.CritTimer(now);
        if i < |statword| {
          statword := statword[i + 1..];
        } else {
          more := false;
        }
        assert words[0] == word && words[1..] == if more then Split(statword, ' ') else [];
      }
    }

    method Parse(ups: UpsNode, status: string, eco: bool, now: int)
      modifies this`sleepval, ups
      ensures ups.next == old(ups.next) && View(ups) == ParseStatus(cfg, old(View(ups)), status, eco, now)
    {
      if status == "" {
        ups.Gone(cfg, now);
        return;
      }
      ups.Alive(now);
      assert View(ups) == IsAlive(old(View(ups)), now);
      ClearSilently(ups, status);
      ClearWithNotices(ups, status);
      ChangeEco(ups, status, eco);
      ParseWords(ups, status, now);
    }

    method Poll(ups: UpsNode, answer: Answer, now: int)
      modifies this`sleepval, ups
      ensures ups.next == old(ups.next) && View(ups) == Answered(cfg, old(View(ups)), answer, now)
    {
      match answer {
        case Got(status, eco) =>
          ups.throttleState := ERR_NONE;
          ups.throttleCount := -1;
          Parse(ups, status, eco, now);
        case Refused(err, lost) =>
          var full := ups.Failed(cfg, err, lost, now);
      }
    }

    /** `pollups`, with how a connection attempt would end and what the server answers. */
    method PollUps(ups: UpsNode, x: Exchange, now: int)
      modifies this`sleepval, ups
      ensures ups.next == old(ups.next) && View(ups) == PolledUps(cfg, old(View(ups)), x, now)
    {
      if CLICONNECTED !in ups.status {
        ups.TryConnect(cfg, x.how, now);
        if x.how != Up { return; }
      }
      Poll(ups, x.answer, now);
    }

    // ----- is it critical -----

    /** The chain of tests on a device that does not communicate. */
    method LooksDead(ups: UpsNode, now: int) returns (dead: bool)
      ensures dead == AssumedDead(cfg, ups.State(), now)
    {
      if ups.overstate == 1 || OVER in ups.status {
        if cfg.overduration >= 0 {
          if !(now > 0 && now - ups.oversince < cfg.overduration) {
            return true;
          }
        }
      }
      if ups.alarmstate == 1 || ALARM in ups.status {
        if cfg.alarmcritical == 1 { return true; }
      }
      if CAL in ups.status { return true; }
      if ups.bypassstate == 1 || BYPASS in ups.status { return true; }
      if ups.offstate == 1 || (cfg.offduration >= 0 && OFF in ups.status) { return true; }
      return false;
    }

    method FindInterval(pollfreq: nat, duration: nat) returns (n1: nat)
      requires pollfreq > 0 && duration > 0
      ensures n1 == Gcd(pollfreq, duration)
    {
      n1 := pollfreq;
      var n2 := duration;
      while n1 != n2
        invariant n1 > 0 && n2 > 0 && Gcd(n1, n2) == Gcd(pollfreq, duration)
        decreases n1 + n2
      {
        if n1 > n2 {
          n1 := n1 - n2;
        } else {
          n2 := n2 - n1;
        }
      }
    }

    /** The delay OBLBDURATION gives: begin it, or see whether it still runs. */
    method HeldBack(ups: UpsNode, now: int) returns (held: bool)
      requires OnLowBattery(ups.State()) && CAL !in ups.status && FSD !in ups.status
      requires !OffTooLong(cfg, ups.State()) && !(ups.commstate == 0 && AssumedDead(cfg, ups.State(), now))
      modifies this`sleepval, ups`oblbsince
      ensures held == Delayed(cfg, old(ups.State()), now)
      ensures View(ups) == Evaluated(cfg, old(View(ups)), now)
    {
      if cfg.oblbduration <= 0 { return false; }
      if ups.oblbsince < 1 && now > 0 {
        sleepval := FindInterval(if cfg.pollfreqalert > 0 then cfg.pollfreqalert else 1, cfg.oblbduration);
        ups.oblbsince := now;
        return true;
      }
      return now > 0 && now - ups.oblbsince < cfg.oblbduration;
    }

    method IsUpsCritical(ups: UpsNode, now: int) returns (critical: bool)
      modifies this`sleepval, ups`oblbsince
      ensures critical == Critical(cfg, old(ups.State()), now)
      ensures View(ups) == Evaluated(cfg, old(View(ups)), now)
    {
      if FSD in ups.status { return true; }
      if ups.commstate == 0 {
        var dead := LooksDead(ups, now);
        if dead { return true; }
      }
      if OFF in ups.status && cfg.offduration >= 0 && ups.offstate == 1 { return true; }
      if ONBATT !in ups.status || LOWBATT !in ups.status {
        if ups.oblbsince > 0 {
          ups.oblbsince := 0;
          sleepval := if ONBATT in ups.status then cfg.pollfreqalert else cfg.pollfreq;
        }
        return false;
      }
      if CAL in ups.status { return false; }
      var held := HeldBack(ups, now);
      if held { return false; }
      if PRIMARY in ups.status { return true; }
      return now - ups.lastnoncrit > cfg.hostsync;
    }

    method RecalcOne(ups: UpsNode, now: int) returns (critical: bool)
      modifies this`sleepval, ups`status, ups`oblbsince
      ensures critical == JudgedCritical(cfg, old(ups.State()), now)
      ensures View(ups) == Recalculated(cfg, old(View(ups)), now)
    {
      ghost var s := View(ups);
      if now - ups.lastpoll > cfg.deadtime {
        if ONBATT in ups.status {
          ups.status := ups.status + {LOWBATT};
        }
      }
      assert ups.State() == Promoted(cfg, s.u, now);
      critical := IsUpsCritical(ups, now);
    }

    // ----- the list -----

    ghost function Upses(): seq<Ups>
      reads this`nodes, nodes
    {
      States(nodes)
    }

    ghost function Table(): Reload.Table
      reads this`nodes, this`totalpv, nodes
    {
      Reload.Table(Upses(), totalpv)
    }

    /** The body of the loop over the devices in `recalc`. */
    method RecalcNext(ups: UpsNode, sum: nat, now: int, ghost us: seq<Ups>, ghost i: nat,
                      ghost r: Shutdown.Recalculation)
      returns (val_ol: nat)
      requires i < |us| == |r.upses| && ups.State() == us[i]
      requires Comes(cfg, us, i, sleepval, sum, now, r)
      modifies this`sleepval, ups`status, ups`oblbsince
      ensures ups.State() == r.upses[i]
      ensures Comes(cfg, us, i + 1, sleepval, val_ol, now, r)
    {
      RecalcStep(cfg, us, i, sleepval, sum, now, r);
      var critical := RecalcOne(ups, now);
      val_ol := sum;
      if !critical {
        val_ol := (sum + ups.pv) % Reload.UINT_RANGE;
      }
    }

    /** The first `i` devices are as `r` has them, the others as in `us`, and the rest of the
        loop leads to `r`. */
    ghost predicate Recalculating(us: seq<Ups>, i: nat, sum: nat, now: int, r: Shutdown.Recalculation)
      reads this`nodes, this`cfg, this`sleepval, nodes
    {
      && i <= |nodes| == |us| == |r.upses|
      && Are(nodes, r.upses, 0, i) && Are(nodes, us, i, |us|)
      && Comes(cfg, us, i, sleepval, sum, now, r)
    }

    /** The same within the list. */
    method RecalcAt(ups: UpsNode, sum: nat, now: int, ghost us: seq<Ups>, ghost i: nat,
                    ghost r: Shutdown.Recalculation)
      returns (val_ol: nat)
      requires Valid() && i < |nodes| && ups == nodes[i] && Recalculating(us, i, sum, now, r)
      modifies this`sleepval, ups`status, ups`oblbsince
      ensures Recalculating(us, i + 1, val_ol, now, r)
    {
      assert forall j | 0 <= j < |nodes| && j != i :: nodes[j] != ups;
      val_ol := RecalcNext(ups, sum, now, us, i, r);
    }

    /** The loop over the devices in `recalc`. */
    method AddUpHealthy(now: int, ghost us: seq<Ups>, ghost r: Shutdown.Recalculation) returns (val_ol: nat)
      requires Valid() && Recalculating(us, 0, 0, now, r)
      modifies this`sleepval, nodes`status, nodes`oblbsince
      ensures Recalculating(us, |nodes|, val_ol, now, r)
    {
      var ups := firstups;
      ghost var i := 0;
      val_ol := 0;
      while ups != null
        invariant i <= |nodes| && ups == if i < |nodes| then nodes[i] else null
        invariant Recalculating(us, i, val_ol, now, r)
        decreases |nodes| - i
      {
        val_ol := RecalcAt(ups, val_ol, now, us, i, r);
        ups := ups.next;
        i := i + 1;
      }
    }

    /** What `recalc` computes before it decides. */
    method Recalculate(now: int) returns (val_ol: nat)
      requires Valid()
      modifies this`sleepval, nodes
      ensures Valid()
      ensures Shutdown.Recalculation(Upses(), sleepval, val_ol)
        == Shutdown.RecalcFrom(cfg, old(Upses()), old(sleepval), 0, now)
    {
      ghost var us := Upses();
      ghost var r := Shutdown.RecalcFrom(cfg, us, sleepval, 0, now);
      StatesAt(nodes);
      RecalcComes(cfg, us, sleepval, now, r);
      val_ol := AddUpHealthy(now, us, r);
      StatesAre(nodes, r.upses);
      RecalcDone(cfg, us, sleepval, val_ol, now, r);
    }

    // ----- the MONITOR lines -----

    /** The search in `addups`: the device of that name, or the last one. */
    method FindSys(sys: string) returns (tmp: UpsNode?, last: UpsNode?, ghost k: nat)
      requires Valid()
      ensures k == Reload.FindUps(Upses(), sys) && k <= |nodes|
      ensures tmp == if k < |nodes| then nodes[k] else null
      ensures k == |nodes| ==> last == if nodes == [] then null else nodes[|nodes| - 1]
    {
      ghost var us := Upses();
      StatesAt(nodes);
      tmp, last, k := firstups, firstups, 0;
      assert us[0..] == us;
      while tmp != null
        invariant k <= |nodes| == |us|
        invariant tmp == if k < |nodes| then nodes[k] else null
        invariant last == if nodes == [] then null else nodes[if k > 0 then k - 1 else 0]
        invariant Reload.FindUps(us, sys) == k + Reload.FindUps(us[k..], sys)
        decreases |nodes| - k
      {
        last := tmp;
        assert us[k..][0] == us[k] && us[k..][1..] == us[k + 1..];
        if tmp.sys == sys { return; }
        tmp := tmp.next;
        k := k + 1;
      }
    }

    method RedefineAt(ups: UpsNode, l: Line, ghost k: nat)
      requires Valid() && k < |nodes| && ups == nodes[k]
      modifies ups
      ensures Valid() && ups.pv == l.pv && ups.State() == Redefined(old(ups.State()), l)
      ensures |old(Upses())| == |nodes| && Upses() == old(Upses())[k := ups.State()]
    {
      ghost var us := Upses();
      StatesAt(nodes);
      assert forall j | 0 <= j < |nodes| && j != k :: nodes[j] != ups;
      ups.Redefine(l);
      StatesAre(nodes, us[k := ups.State()]);
    }

    method RedefineUps(ups: UpsNode, l: Line, ghost k: nat)
      requires Valid() && k < |nodes| && ups == nodes[k] && k == Reload.FindUps(Upses(), l.sys)
      modifies this`totalpv, ups
      ensures Valid()
      ensures Table() == Reload.AddLine(old(Table()), l)
    {
      assert |Upses()| == |nodes| && Upses()[k] == ups.State() by { StatesAt(nodes); }
      RedefineAt(ups, l, k);
      totalpv := (totalpv + ups.pv) % Reload.UINT_RANGE;
    }

    /** Hangs a device behind the last one. */
    method Link(last: UpsNode?, tmp: UpsNode)
      requires Valid() && last == if nodes == [] then null else nodes[|nodes| - 1]
      requires tmp !in nodes && tmp.next == null
      modifies this`firstups, this`nodes, nodes`next
      ensures Valid() && nodes == old(nodes) + [tmp]
      ensures Upses() == old(Upses()) + [tmp.State()]
    {
      ghost var us := Upses();
      StatesAt(nodes);
      if last != null {
        last.next := tmp;
      } else {
        firstups := tmp;
      }
      nodes := nodes + [tmp];
      StatesAre(nodes, us + [tmp.State()]);
    }

    method Append(last: UpsNode?, l: Line)
      requires Valid() && last == if nodes == [] then null else nodes[|nodes| - 1]
      modifies this`firstups, this`totalpv, this`nodes, nodes`next
      ensures Valid()
      ensures forall j | 0 <= j < |nodes| :: nodes[j] in old(nodes) || fresh(nodes[j])
      ensures Table() == Reload.Table(old(Upses()) + [Reload.NewFrom(l)], Reload.Added(old(totalpv), l.pv))
    {
      var tmp := new UpsNode(l);
      ghost var u := Reload.NewFrom(l);
      assert tmp.pv == u.pv == l.pv by { assert tmp.State() == u; }
      totalpv := (totalpv + tmp.pv) % Reload.UINT_RANGE;
      Link(last, tmp);
    }

    /** `addups`: a name in the list is redefined on a reload and ignored otherwise, a new one
        goes to the end. */
    method AddUps(reloading: bool, raw: Reload.RawLine)
      requires Valid()
      modifies this`firstups, this`totalpv, this`nodes, nodes
      ensures Valid()
      ensures forall j | 0 <= j < |nodes| :: nodes[j] in old(nodes) || fresh(nodes[j])
      ensures Table() == AfterLine(old(Table()), reloading, raw)
    {
      var parsed := Reload.ParseLine(raw);
      if parsed == None { return; }
      var l := parsed.value;
      StatesLength(nodes);
      var tmp, last, k := FindSys(raw.sys);
      if tmp == null {
        Append(last, l);
      } else if reloading {
        RedefineUps(tmp, l, k);
      }
    }

    /** Reading the file: its MONITOR lines one after another. */
    method LoadConfig(reloading: bool, raws: seq<Reload.RawLine>)
      requires Valid()
      modifies this`firstups, this`totalpv, this`nodes, nodes
      ensures Valid()
      ensures forall j | 0 <= j < |nodes| :: nodes[j] in old(nodes) || fresh(nodes[j])
      ensures Table() == AfterLines(old(Table()), reloading, Reload.ParseLines(raws))
    {
      ghost var end := AfterLines(Table(), reloading, Reload.ParseLines(raws));
      var i := 0;
      assert raws[0..] == raws;
      while i < |raws|
        invariant i <= |raws| && Valid()
        invariant forall j | 0 <= j < |nodes| :: nodes[j] in old(nodes) || fresh(nodes[j])
        invariant AfterLines(Table(), reloading, Reload.ParseLines(raws[i..])) == end
      {
        LineStep(Table(), reloading, raws[i..]);
        assert raws[i..][1..] == raws[i + 1..];
        AddUps(reloading, raws[i]);
        i := i + 1;
      }
    }

    method Unlink(ptr: UpsNode, last: UpsNode, ghost k: nat)
      requires Valid() && k < |nodes| && ptr == nodes[k] && last == nodes[if k == 0 then 0 else k - 1]
      modifies this`firstups, this`nodes, nodes`next
      ensures Valid() && nodes == old(nodes)[..k] + old(nodes)[k + 1..]
    {
      if ptr == last {
        firstups := ptr.next;
      } else {
        last.next := ptr.next;
      }
      nodes := nodes[..k] + nodes[k + 1..];
    }

    method UnlinkAt(ptr: UpsNode, last: UpsNode, ghost k: nat)
      requires Valid() && k < |nodes| && ptr == nodes[k] && last == nodes[if k == 0 then 0 else k - 1]
      modifies this`firstups, this`nodes, nodes`next
      ensures Valid() && nodes == old(nodes)[..k] + old(nodes)[k + 1..]
      ensures |old(Upses())| == |old(nodes)| && Upses() == old(Upses())[..k] + old(Upses())[k + 1..]
    {
      ghost var us := Upses();
      StatesAt(nodes);
      Unlink(ptr, last, k);
      StatesAre(nodes, us[..k] + us[k + 1..]);
    }

    method DropAt(ptr: UpsNode, ghost k: nat)
      requires Valid() && k < |nodes| && ptr == nodes[k]
      modifies ptr`commstate, ptr`throttleCount, ptr`throttleState, ptr`status
      ensures |old(Upses())| == |nodes| && Upses() == old(Upses())[k := ptr.State()]
    {
      ghost var us := Upses();
      StatesAt(nodes);
      assert forall j | 0 <= j < |nodes| && j != k :: nodes[j] != ptr;
      ptr.DropConnection();
      StatesAre(nodes, us[k := ptr.State()]);
    }

    /** `delete_ups`: find the device, drop its connection, unlink it. */
    method DeleteUps(target: UpsNode, ghost k: nat)
      requires Valid() && k < |nodes| == |Upses()| && target == nodes[k]
      modifies this`firstups, this`nodes, nodes
      ensures Valid() && nodes == old(nodes)[..k] + old(nodes)[k + 1..]
      ensures Upses() == old(Upses())[..k] + old(Upses())[k + 1..]
    {
      var ptr, last := firstups, firstups;
      ghost var i := 0;
      while ptr != target
        invariant i <= k && ptr == nodes[i] && last == nodes[if i == 0 then 0 else i - 1]
        decreases k - i
      {
        last := ptr;
        ptr := ptr.next;
        i := i + 1;
      }
      assert i == k;
      DropAt(ptr, k);
      UnlinkAt(ptr, last, k);
    }

    method ClearRetain(ghost us: seq<Ups>, ghost vs: seq<Ups>)
      requires Valid() && |us| == |vs| == |nodes| && Are(nodes, us, 0, |us|)
      requires forall i | 0 <= i < |us| :: vs[i] == us[i].(retain := false)
      modifies nodes`retain
      ensures Valid() && Upses() == vs
    {
      var ups := firstups;
      ghost var i := 0;
      while ups != null
        invariant i <= |nodes| && ups == if i < |nodes| then nodes[i] else null
        invariant Are(nodes, vs, 0, i) && Are(nodes, us, i, |us|)
        decreases |nodes| - i
      {
        assert forall j | 0 <= j < |nodes| && j != i :: nodes[j] != ups;
        ups.ForgetRetain();
        ups := ups.next;
        i := i + 1;
      }
      StatesAre(nodes, vs);
    }

    method ForgetThrottles(ghost us: seq<Ups>, ghost vs: seq<Ups>)
      requires Valid() && |us| == |vs| == |nodes| && Are(nodes, us, 0, |us|)
      requires forall i | 0 <= i < |us| :: vs[i] == ThrottleForgotten(us[i])
      modifies nodes`throttleCount, nodes`throttleState
      ensures Valid() && Upses() == vs
    {
      var ups := firstups;
      ghost var i := 0;
      while ups != null
        invariant i <= |nodes| && ups == if i < |nodes| then nodes[i] else null
        invariant Are(nodes, vs, 0, i) && Are(nodes, us, i, |us|)
        decreases |nodes| - i
      {
        assert forall j | 0 <= j < |nodes| && j != i :: nodes[j] != ups;
        ups.ForgetThrottle();
        ups := ups.next;
        i := i + 1;
      }
      StatesAre(nodes, vs);
    }

    /** The loop of the wake-up step. */
    method WakeAll(now: int, ghost us: seq<Ups>, ghost vs: seq<Ups>)
      requires Valid() && |us| == |vs| == |nodes| && Are(nodes, us, 0, |us|)
      requires forall i | 0 <= i < |us| :: vs[i] == Woken(us[i], now)
      modifies nodes`status, nodes`lastpoll
      ensures Valid() && Upses() == vs
    {
      var ups := firstups;
      ghost var i := 0;
      while ups != null
        invariant i <= |nodes| && ups == if i < |nodes| then nodes[i] else null
        invariant Are(nodes, vs, 0, i) && Are(nodes, us, i, |us|)
        decreases |nodes| - i
      {
        assert forall j | 0 <= j < |nodes| && j != i :: nodes[j] != ups;
        ups.Wake(now);
        ups := ups.next;
        i := i + 1;
      }
      StatesAre(nodes, vs);
    }

    /** Deleting a device without a line is no loss to the sweep. */
    method DropOne(tmp: UpsNode, ghost i: nat)
      requires Valid() && i < |nodes| && tmp == nodes[i] && !tmp.retain
      modifies this`firstups, this`nodes, nodes
      ensures Valid() && nodes == old(nodes)[..i] + old(nodes)[i + 1..]
      ensures Reload.Swept(Upses()) == Reload.Swept(old(Upses()))
      ensures |old(Upses())| == |old(nodes)| && Upses() == old(Upses())[..i] + old(Upses())[i + 1..]
    {
      StatesAt(nodes);
      SweptWithout(Upses(), i);
      DeleteUps(tmp, i);
    }

    /** The marks of the first `n` devices. */
    ghost predicate Retained(n: nat)
      requires n <= |nodes|
      reads this`nodes, nodes
    {
      forall j | 0 <= j < n :: nodes[j].retain
    }

    lemma RetainedUpses(n: nat)
      requires n <= |nodes|
      ensures |Upses()| == |nodes| && (Retained(n) <==> forall j | 0 <= j < n :: Upses()[j].retain)
    {
      StatesAt(nodes);
    }

    /** One device of the sweep; `ok` is how many of those up to it stay. */
    method SweepOne(tmp: UpsNode, ghost i: nat) returns (ghost ok: nat)
      requires Valid() && i < |nodes| && tmp == nodes[i] && Retained(i)
      modifies this`firstups, this`nodes, nodes
      ensures Valid() && Reload.Swept(Upses()) == Reload.Swept(old(Upses()))
      ensures ok == (if old(tmp.retain) then i + 1 else i) <= |nodes| && nodes[ok..] == old(nodes)[i + 1..]
      ensures Retained(ok)
      ensures forall j | 0 <= j < |nodes| :: nodes[j] in old(nodes)
    {
      if tmp.retain { return i + 1; }
      DropNext(tmp, i);
      return i;
    }

    method DropNext(tmp: UpsNode, ghost i: nat)
      requires Valid() && i < |nodes| && tmp == nodes[i] && !tmp.retain && Retained(i)
      modifies this`firstups, this`nodes, nodes
      ensures Valid() && nodes == old(nodes)[..i] + old(nodes)[i + 1..]
      ensures Reload.Swept(Upses()) == Reload.Swept(old(Upses())) && Retained(i)
    {
      RetainedUpses(i);
      ghost var us := Upses();
      DropOne(tmp, i);
      assert forall j | 0 <= j < i :: Upses()[j] == us[j];
      RetainedUpses(i);
    }

    /** The devices no line was found for are deleted. */
    method Sweep()
      requires Valid()
      modifies this`firstups, this`nodes, nodes
      ensures Valid() && Upses() == Reload.Swept(old(Upses()))
      ensures forall j | 0 <= j < |nodes| :: nodes[j] in old(nodes)
    {
      var tmp := firstups;
      ghost var i, all := 0, nodes;
      while tmp != null
        invariant Valid() && i <= |nodes| && tmp == if i < |nodes| then nodes[i] else null
        invariant forall j | 0 <= j < |nodes| :: nodes[j] in all
        invariant Retained(i)
        invariant Reload.Swept(Upses()) == Reload.Swept(old(Upses()))
        decreases |nodes| - i
      {
        var next := tmp.next;
        ghost var rest := nodes[i + 1..];
        i := SweepOne(tmp, i);
        assert next == if rest == [] then null else rest[0];
        tmp := next;
      }
      RetainedUpses(i);
      SweptAll(Upses());
    }

    /** `reload_conf`; false means that the configuration cannot work and upsmon gives up. */
    method ReloadConf(readable: bool, raws: seq<Reload.RawLine>, newCfg: Config) returns (possible: bool)
      requires Valid()
      modifies this`cfg, this`firstups, this`totalpv, this`nodes, nodes
      ensures Valid()
      ensures forall j | 0 <= j < |nodes| :: nodes[j] in old(nodes) || fresh(nodes[j])
      ensures !readable ==> possible && cfg == old(cfg) && Table() == old(Table())
      ensures readable ==>
        && cfg == newCfg
        && Table() == Reload.Reloaded(old(Upses()), Reload.ParseLines(raws), old(cfg).throttleMax >= 0)
        && (possible <==> totalpv >= newCfg.minsupplies)
    {
      if !readable { return true; }
      Reread(raws, newCfg);
      possible := totalpv >= cfg.minsupplies;
    }

    /** A file that can be read: mark, load, sweep. */
    method Reread(raws: seq<Reload.RawLine>, newCfg: Config)
      requires Valid()
      modifies this`cfg, this`firstups, this`totalpv, this`nodes, nodes
      ensures Valid() && cfg == newCfg
      ensures forall j | 0 <= j < |nodes| :: nodes[j] in old(nodes) || fresh(nodes[j])
      ensures Table() == Reload.Reloaded(old(Upses()), Reload.ParseLines(raws), old(cfg).throttleMax >= 0)
    {
      MarkAndLoad(raws);
      cfg := newCfg;
      Sweep();
    }

    method MarkAndLoad(raws: seq<Reload.RawLine>)
      requires Valid()
      modifies this`firstups, this`totalpv, this`nodes, nodes
      ensures Valid()
      ensures forall j | 0 <= j < |nodes| :: nodes[j] in old(nodes) || fresh(nodes[j])
      ensures Table() == Reload.AddLines(Reload.Table(Reload.Unmarked(old(Upses()), cfg.throttleMax >= 0), 0),
                                         Reload.ParseLines(raws))
    {
      ghost var us := Upses();
      ResetMarks(us);
      LoadConfig(true, raws);
    }

    /** What happens before the file is read. */
    method ResetMarks(ghost us: seq<Ups>)
      requires Valid() && us == Upses()
      modifies this`totalpv, nodes`retain, nodes`throttleCount, nodes`throttleState
      ensures Valid() && totalpv == 0
      ensures Upses() == Reload.Unmarked(us, cfg.throttleMax >= 0)
    {
      UnmarkedIs(us, cfg.throttleMax >= 0);
      ResetRetains(us);
      totalpv := 0;
      if cfg.throttleMax >= 0 {
        ResetThrottles(Unretained(us));
      }
    }

    method ResetRetains(ghost us: seq<Ups>)
      requires Valid() && us == Upses()
      modifies nodes`retain
      ensures Valid() && Upses() == Unretained(us)
    {
      assert |us| == |nodes| && Are(nodes, us, 0, |us|) by { StatesAt(nodes); }
      UnretainedAt(us);
      ClearRetain(us, Unretained(us));
    }

    method ResetThrottles(ghost us: seq<Ups>)
      requires Valid() && us == Upses()
      modifies nodes`throttleCount, nodes`throttleState
      ensures Valid() && Upses() == Forgotten(us)
    {
      assert |us| == |nodes| && Are(nodes, us, 0, |us|) by { StatesAt(nodes); }
      ForgottenAt(us);
      ForgetThrottles(us, Forgotten(us));
    }

    /** After an OS sleep: every reading is void, and the configuration is read again. */
    method WakeUp(now: int, readable: bool, raws: seq<Reload.RawLine>, newCfg: Config) returns (possible: bool)
      requires Valid()
      modifies this`cfg, this`firstups, this`totalpv, this`nodes, nodes
      ensures Valid()
      ensures forall j | 0 <= j < |nodes| :: nodes[j] in old(nodes) || fresh(nodes[j])
      ensures !readable ==>
        possible && cfg == old(cfg) && Table() == Reload.Table(Awake(old(Upses()), now), old(totalpv))
      ensures readable ==>
        && cfg == newCfg
        && Table() == Reload.Reloaded(Awake(old(Upses()), now), Reload.ParseLines(raws), old(cfg).throttleMax >= 0)
        && (possible <==> totalpv >= newCfg.minsupplies)
    {
      ghost var us := Upses();
      StatesAt(nodes);
      AwakeAt(us, now);
      WakeAll(now, us, Awake(us, now));
      possible := ReloadConf(readable, raws, newCfg);
    }

    // ----- the shutdown -----

    method Act(a: Shutdown.Action)
      modifies this`trace
      ensures trace == old(trace) + [a]
    {
      trace := trace + [a];
    }

    method SetFsdIfPrimary(ups: UpsNode, confirmed: set<string>, now: int, before: bool,
                           ghost us: seq<Ups>, ghost i: nat)
      returns (isaprimary: bool)
      requires i < |us| && ups.State() == us[i]
      modifies this`trace, ups`lastfsdnotify, ups`notices
      ensures |Shutdown.AfterFsd(us, confirmed, now)| == |us|
      ensures ups.State() == Shutdown.AfterFsd(us, confirmed, now)[i]
      ensures trace + Shutdown.FsdCommands(us[i + 1..]) == old(trace) + Shutdown.FsdCommands(us[i..])
      ensures isaprimary || Shutdown.Primaries(us[i + 1..]) != [] <==> before || Shutdown.Primaries(us[i..]) != []
    {
      FsdStep(us, i);
      AfterFsdAt(us, confirmed, now);
      isaprimary := before;
      if PRIMARY in ups.status {
        isaprimary := true;
        Act(Shutdown.SetFsd(ups.sys));
        ups.SetFsd(ups.sys in confirmed, now);
      }
    }

    /** The same within the list. */
    method SetFsdAt(ups: UpsNode, confirmed: set<string>, now: int, before: bool,
                    ghost us: seq<Ups>, ghost vs: seq<Ups>, ghost i: nat)
      returns (isaprimary: bool)
      requires Valid() && i < |nodes| == |us| == |vs| && ups == nodes[i]
      requires vs == Shutdown.AfterFsd(us, confirmed, now) && Are(nodes, vs, 0, i) && Are(nodes, us, i, |us|)
      modifies this`trace, ups`lastfsdnotify, ups`notices
      ensures Are(nodes, vs, 0, i + 1) && Are(nodes, us, i + 1, |us|)
      ensures trace + Shutdown.FsdCommands(us[i + 1..]) == old(trace) + Shutdown.FsdCommands(us[i..])
      ensures isaprimary || Shutdown.Primaries(us[i + 1..]) != [] <==> before || Shutdown.Primaries(us[i..]) != []
    {
      assert forall j | 0 <= j < |nodes| && j != i :: nodes[j] != ups;
      isaprimary := SetFsdIfPrimary(ups, confirmed, now, before, us, i);
    }

    /** The loop of `forceshutdown`: an FSD command for every primary's device. */
    method SetAllFsd(confirmed: set<string>, now: int, ghost us: seq<Ups>, ghost vs: seq<Ups>)
      returns (isaprimary: bool)
      requires Valid() && |us| == |vs| == |nodes| && Are(nodes, us, 0, |us|)
      requires vs == Shutdown.AfterFsd(us, confirmed, now)
      modifies this`trace, nodes`lastfsdnotify, nodes`notices
      ensures Are(nodes, vs, 0, |us|)
      ensures trace == old(trace) + Shutdown.FsdCommands(us)
      ensures isaprimary <==> Shutdown.Primaries(us) != []
    {
      isaprimary := false;
      var ups := firstups;
      ghost var i := 0;
      assert us[0..] == us;
      while ups != null
        invariant i <= |nodes| && ups == if i < |nodes| then nodes[i] else null
        invariant Are(nodes, vs, 0, i) && Are(nodes, us, i, |us|)
        invariant trace + Shutdown.FsdCommands(us[i..]) == old(trace) + Shutdown.FsdCommands(us)
        invariant isaprimary || Shutdown.Primaries(us[i..]) != [] <==> Shutdown.Primaries(us) != []
        decreases |nodes| - i
      {
        isaprimary := SetFsdAt(ups, confirmed, now, isaprimary, us, vs, i);
        ups := ups.next;
        i := i + 1;
      }
      assert us[i..] == [] && trace + [] == trace;
    }

    /** One round of `sync_secondaries`: the highest login count that can be read. */
    method CountLogins(logins: map<string, int>, ghost us: seq<Ups>) returns (maxlogins: int)
      requires Valid() && |us| == |nodes| && Are(nodes, us, 0, |us|)
      ensures maxlogins == Shutdown.MaxLogins(us, logins, 0)
    {
      maxlogins := 0;
      var ups := firstups;
      ghost var i := 0;
      assert us[0..] == us;
      while ups != null
        invariant i <= |nodes| && ups == if i < |nodes| then nodes[i] else null
        invariant Shutdown.MaxLogins(us[i..], logins, maxlogins) == Shutdown.MaxLogins(us, logins, 0)
        decreases |nodes| - i
      {
        assert us[i..][0] == us[i] == ups.State() && us[i..][1..] == us[i + 1..];
        if PRIMARY in ups.status && ups.sys in logins {
          if logins[ups.sys] > maxlogins {
            maxlogins := logins[ups.sys];
          }
        }
        ups := ups.next;
        i := i + 1;
      }
    }

    method SyncRound(rounds: seq<Shutdown.Round>, i: nat, start: int, ghost us: seq<Ups>) returns (over: bool)
      requires Valid() && |us| == |nodes| && Are(nodes, us, 0, |us|) && i < |rounds|
      modifies this`trace
      ensures var w := Shutdown.Wait(us, rounds[i..], start, cfg.hostsync, i == 0);
        var more := Shutdown.Wait(us, rounds[i + 1..], start, cfg.hostsync, false);
        if over then w.over && trace == old(trace) + w.steps
        else w.over == more.over && trace + more.steps == old(trace) + w.steps
    {
      var max := CountLogins(rounds[i].logins, us);
      assert rounds[i..][0] == rounds[i] && rounds[i..][1..] == rounds[i + 1..];
      var waited := rounds[i].now - start;
      Act(Shutdown.LoginCheck(max, waited));
      if max <= 1 { return true; }
      if waited > cfg.hostsync { return true; }
      if max > 1 && i == 0 {
        Act(Shutdown.NotifyHostsync);
      }
      return false;
    }

    /** `sync_secondaries`; it has not returned yet when the rounds run out. */
    method SyncSecondaries(rounds: seq<Shutdown.Round>, start: int, ghost us: seq<Ups>) returns (over: bool)
      requires Valid() && |us| == |nodes| && Are(nodes, us, 0, |us|)
      modifies this`trace
      ensures var w := Shutdown.Wait(us, rounds, start, cfg.hostsync, true);
        trace == old(trace) + w.steps && over == w.over
    {
      ghost var w := Shutdown.Wait(us, rounds, start, cfg.hostsync, true);
      var i := 0;
      assert rounds[0..] == rounds;
      while i < |rounds|
        invariant i <= |rounds|
        invariant var rest := Shutdown.Wait(us, rounds[i..], start, cfg.hostsync, i == 0);
          trace + rest.steps == old(trace) + w.steps && rest.over == w.over
      {
        over := SyncRound(rounds, i, start, us);
        if over { return; }
        i := i + 1;
      }
      return false;
    }

    method DoShutdown()
      modifies this`trace
      ensures trace == old(trace) + Shutdown.ShutdownSteps(usePipe)
    {
      Act(Shutdown.NotifyShutdown);
      if usePipe {
        Act(Shutdown.AskParent);
      }
      Act(Shutdown.SetPowerDownFlag);
      Act(Shutdown.RunShutdownCommand);
    }

    method SetFsds(confirmed: set<string>, now: int) returns (isaprimary: bool)
      requires Valid()
      modifies this`trace, nodes`lastfsdnotify, nodes`notices
      ensures Valid() && Upses() == Shutdown.AfterFsd(old(Upses()), confirmed, now)
      ensures trace == old(trace) + Shutdown.FsdCommands(old(Upses()))
      ensures isaprimary <==> Shutdown.Primaries(old(Upses())) != []
    {
      ghost var us := Upses();
      assert |us| == |nodes| && Are(nodes, us, 0, |us|) by { StatesAt(nodes); }
      ghost var vs := Shutdown.AfterFsd(us, confirmed, now);
      AfterFsdLength(us, confirmed, now);
      isaprimary := SetAllFsd(confirmed, now, us, vs);
      StatesAre(nodes, vs);
    }

    /** What follows the FSD commands; `us` are the devices before them. */
    method WaitAndShutDown(isaprimary: bool, now: int, rounds: seq<Shutdown.Round>,
                           ghost us: seq<Ups>, ghost k: Shutdown.Cycle)
      returns (over: bool)
      requires Valid() && Gives(k, now, k.confirmed, rounds)
      requires Upses() == Shutdown.AfterFsd(us, k.confirmed, now)
      requires isaprimary <==> Shutdown.Primaries(us) != []
      modifies this`trace
      ensures var w := Shutdown.Waited(k, us);
        over == w.over && trace == old(trace) + w.steps + if w.over then Shutdown.ShutdownSteps(usePipe) else []
    {
      ghost var vs := Upses();
      over := true;
      if isaprimary {
        assert |vs| == |nodes| && Are(nodes, vs, 0, |vs|) by { StatesAt(nodes); }
        SamePrimaries(us, k.confirmed, now, rounds, cfg.hostsync, true);
        over := SyncSecondaries(rounds, now, vs);
        if !over { return; }
      }
      DoShutdown();
    }

    /** `forceshutdown`, with what the servers answer. */
    method ForceShutdown(now: int, confirmed: set<string>, rounds: seq<Shutdown.Round>, ghost k: Shutdown.Cycle)
      returns (phase: Shutdown.Phase)
      requires Valid() && Gives(k, now, confirmed, rounds)
      modifies this`trace, nodes`lastfsdnotify, nodes`notices
      ensures Valid() && Upses() == Shutdown.AfterFsd(old(Upses()), confirmed, now)
      ensures var w := Shutdown.Waited(k, old(Upses()));
        && phase == (if w.over then Shutdown.GoneDown else Shutdown.WaitingForSecondaries)
        && trace == old(trace) + Shutdown.FsdCommands(old(Upses())) + w.steps
                    + if w.over then Shutdown.ShutdownSteps(usePipe) else []
    {
      ghost var us := Upses();
      var isaprimary := SetFsds(confirmed, now);
      var over := WaitAndShutDown(isaprimary, now, rounds, us, k);
      phase := if over then Shutdown.GoneDown else Shutdown.WaitingForSecondaries;
    }

    /** The inputs of a cycle, and this host's configuration. */
    ghost predicate Gives(k: Shutdown.Cycle, now: int, confirmed: set<string>, rounds: seq<Shutdown.Round>)
      reads this`cfg, this`usePipe
    {
      k.c == cfg && k.usePipe == usePipe && k.now == now && k.confirmed == confirmed && k.rounds == rounds
    }

    /** The state is `next`, and its trace was appended to `before`. */
    ghost predicate Went(before: seq<Shutdown.Action>, phase: Shutdown.Phase, next: Shutdown.Sys)
      reads this`nodes, this`sleepval, this`trace, nodes
    {
      Upses() == next.upses && sleepval == next.sleepval && phase == next.phase && trace == before + next.trace
    }

    method ForceBecause(why: Shutdown.Action, now: int, confirmed: set<string>, rounds: seq<Shutdown.Round>,
                        ghost k: Shutdown.Cycle)
      returns (phase: Shutdown.Phase)
      requires Valid() && Gives(k, now, confirmed, rounds)
      modifies this`trace, nodes`lastfsdnotify, nodes`notices
      ensures Valid() && Went(old(trace), phase, Shutdown.Forced(k, old(Upses()), sleepval, why))
    {
      ghost var us, before := Upses(), trace;
      Act(why);
      phase := ForceShutdown(now, confirmed, rounds, k);
      ghost var w := Shutdown.Waited(k, us);
      ghost var end := if w.over then Shutdown.ShutdownSteps(usePipe) else [];
      Regrouped(before, why, Shutdown.FsdCommands(us), w.steps, end);
    }

    /** `recalc` and what follows from it. */
    method Recalc(now: int, confirmed: set<string>, rounds: seq<Shutdown.Round>, ghost k: Shutdown.Cycle)
      returns (phase: Shutdown.Phase)
      requires Valid() && Gives(k, now, confirmed, rounds)
      requires k.polled == Upses() && k.interval == sleepval && !k.userfsd && !k.impossible && !k.abandoned
      modifies this`trace, this`sleepval, nodes
      ensures Valid()
      ensures forall s: Shutdown.Sys | s.phase == Shutdown.Running ::
        Went(old(trace), phase, Shutdown.RunCycle(s, k))
    {
      var val_ol := Recalculate(now);
      if val_ol < cfg.minsupplies {
        phase := ForceBecause(Shutdown.TooFewSupplies(val_ol), now, confirmed, rounds, k);
      } else {
        phase := Shutdown.Running;
        assert trace == old(trace) + [];
      }
    }

    // ----- the main loop -----

    /** The first `i` devices are as `r` has them, the others as in `us`, and the rest of the
        polling loop leads to `r`. */
    ghost predicate PollsLeft(us: seq<Ups>, i: nat, exchanges: seq<Exchange>, now: int, r: Polls)
      reads this`nodes, this`cfg, this`sleepval, nodes
    {
      && i <= |nodes| == |us| == |r.upses|
      && Are(nodes, r.upses, 0, i) && Are(nodes, us, i, |us|)
      && PollsCome(cfg, us, i, sleepval, exchanges, now, r)
    }

    /** One device of the polling loop. */
    method PollAt(ups: UpsNode, exchanges: seq<Exchange>, k: nat, now: int, ghost us: seq<Ups>, ghost r: Polls)
      requires Valid() && k < |nodes| && ups == nodes[k] && k < |exchanges|
      requires PollsLeft(us, k, exchanges[k..], now, r)
      modifies this`sleepval, ups
      ensures Valid() && PollsLeft(us, k + 1, exchanges[k + 1..], now, r)
    {
      assert forall j | 0 <= j < |nodes| && j != k :: nodes[j] != ups;
      assert exchanges[k..] == [exchanges[k]] + exchanges[k + 1..];
      PollStep(cfg, us, k, sleepval, exchanges[k], exchanges[k + 1..], now, r);
      PollUps(ups, exchanges[k], now);
    }

    /** The polling loop, given up where the exchanges end. */
    method PollEach(exchanges: seq<Exchange>, now: int, ghost us: seq<Ups>, ghost r: Polls) returns (abandoned: bool)
      requires Valid() && PollsLeft(us, 0, exchanges, now, r)
      modifies this`sleepval, nodes
      ensures Valid() && |nodes| == |us| && PollsLeft(us, |us|, [], now, r)
      ensures abandoned <==> |exchanges| < |us|
    {
      var ups := firstups;
      var i := 0;
      assert exchanges[0..] == exchanges;
      while ups != null && i < |exchanges|
        invariant i <= |exchanges| && i <= |nodes| && Valid()
        invariant ups == if i < |nodes| then nodes[i] else null
        invariant PollsLeft(us, i, exchanges[i..], now, r)
        decreases |nodes| - i
      {
        PollAt(ups, exchanges, i, now, us, r);
        ups := ups.next;
        i := i + 1;
      }
      PollsEnd(us, i, exchanges[i..], now, r);
      abandoned := ups != null;
    }

    lemma PollsEnd(us: seq<Ups>, i: nat, exchanges: seq<Exchange>, now: int, r: Polls)
      requires PollsLeft(us, i, exchanges, now, r) && (i == |us| || exchanges == [])
      ensures PollsLeft(us, |us|, [], now, r)
    {
      PollsDone(cfg, us, i, sleepval, exchanges, now, r);
      AreToTheEnd(nodes, us, r.upses, i);
    }

    method PollAll(exchanges: seq<Exchange>, now: int) returns (abandoned: bool)
      requires Valid()
      modifies this`sleepval, nodes
      ensures Valid() && Polls(Upses(), sleepval) == PolledAll(cfg, old(Upses()), old(sleepval), exchanges, now)
      ensures abandoned <==> |exchanges| < |old(Upses())|
    {
      ghost var us := Upses();
      ghost var r := PolledAll(cfg, us, sleepval, exchanges, now);
      assert |us| == |nodes| && Are(nodes, us, 0, |us|) by { StatesAt(nodes); }
      PolledAt(cfg, us, sleepval, exchanges, now);
      assert us[0..] == us && r.upses[0..] == r.upses;
      abandoned := PollEach(exchanges, now, us, r);
      StatesAre(nodes, r.upses);
    }

    method PollAndDecide(exchanges: seq<Exchange>, now: int,
                         confirmed: set<string>, rounds: seq<Shutdown.Round>, ghost k: Shutdown.Cycle)
      returns (phase: Shutdown.Phase)
      requires Valid() && Gives(k, now, confirmed, rounds) && !k.userfsd && !k.impossible
      requires Polls(k.polled, k.interval) == PolledAll(cfg, Upses(), sleepval, exchanges, now)
      requires k.abandoned <==> |exchanges| < |Upses()|
      modifies this`trace, this`sleepval, nodes
      ensures Valid()
      ensures forall s: Shutdown.Sys | s.phase == Shutdown.Running ::
        Went(old(trace), phase, Shutdown.RunCycle(s, k))
    {
      var abandoned := PollAll(exchanges, now);
      if abandoned {
        phase := Shutdown.Running;
        assert trace == old(trace) + [];
        return;
      }
      phase := Recalc(now, confirmed, rounds, k);
    }

    /** One reload or wake-up. */
    method OneChange(ch: Change, now: int) returns (possible: bool)
      requires Valid()
      modifies this`cfg, this`firstups, this`totalpv, this`nodes, nodes
      ensures Valid()
      ensures forall j | 0 <= j < |nodes| :: nodes[j] in old(nodes) || fresh(nodes[j])
      ensures Prepared(Upses(), cfg, possible) == AfterChange(old(cfg), old(Upses()), ch, now)
    {
      var readable, raws, newCfg := false, [], cfg;
      if ch.file.Some? {
        readable, raws, newCfg := true, ch.file.value.raws, ch.file.value.c;
      }
      if ch.woken {
        possible := WakeUp(now, readable, raws, newCfg);
      } else {
        possible := ReloadConf(readable, raws, newCfg);
      }
    }

    /** The reloads and wake-ups before the polls, up to the first configuration that cannot work. */
    method ApplyChanges(changes: seq<Change>, now: int) returns (possible: bool)
      requires Valid()
      modifies this`cfg, this`firstups, this`totalpv, this`nodes, nodes
      ensures Valid()
      ensures forall j | 0 <= j < |nodes| :: nodes[j] in old(nodes) || fresh(nodes[j])
      ensures Prepared(Upses(), cfg, possible) == AfterChanges(old(cfg), old(Upses()), changes, now)
    {
      var i := 0;
      assert changes[0..] == changes;
      while i < |changes|
        invariant i <= |changes| && Valid()
        invariant forall j | 0 <= j < |nodes| :: nodes[j] in old(nodes) || fresh(nodes[j])
        invariant AfterChanges(cfg, Upses(), changes[i..], now)
               == AfterChanges(old(cfg), old(Upses()), changes, now)
      {
        assert changes[i..][0] == changes[i] && changes[i..][1..] == changes[i + 1..];
        possible := OneChange(changes[i], now);
        if !possible { return; }
        i := i + 1;
      }
      return true;
    }

    method ChangePollAndDecide(changes: seq<Change>, exchanges: seq<Exchange>, now: int,
                               confirmed: set<string>, rounds: seq<Shutdown.Round>, ghost k: Shutdown.Cycle)
      returns (phase: Shutdown.Phase)
      requires Valid()
      requires var h := Host(Shutdown.Sys(Upses(), sleepval, Shutdown.Running, []), cfg);
        k == CycleOf(h, Input(now, usePipe, false, changes, exchanges, confirmed, rounds))
      modifies this`cfg, this`firstups, this`totalpv, this`nodes, this`trace, this`sleepval, nodes
      ensures Valid() && cfg == AfterChanges(old(cfg), old(Upses()), changes, now).c
      ensures forall s: Shutdown.Sys | s.phase == Shutdown.Running ::
        Went(old(trace), phase, Shutdown.RunCycle(s, k))
    {
      var possible := ApplyChanges(changes, now);
      if !possible {
        phase := Shutdown.GaveUp;
        assert trace == old(trace) + [];
        return;
      }
      phase := PollAndDecide(exchanges, now, confirmed, rounds, k);
    }

    /** One turn of the main loop: a user's request, or else the reloads and wake-ups, the polls,
        the decision. */
    method OneTurn(userfsd: bool, changes: seq<Change>, exchanges: seq<Exchange>, now: int,
                   confirmed: set<string>, rounds: seq<Shutdown.Round>)
      returns (phase: Shutdown.Phase)
      requires Valid()
      modifies this`cfg, this`firstups, this`totalpv, this`nodes, this`trace, this`sleepval, nodes
      ensures Valid()
      ensures var h := Host(Shutdown.Sys(old(Upses()), old(sleepval), Shutdown.Running, []), old(cfg));
        var x := Input(now, usePipe, userfsd, changes, exchanges, confirmed, rounds);
        Went(old(trace), phase, Turn(h, x).sys) && cfg == Turn(h, x).c
    {
      ghost var h := Host(Shutdown.Sys(Upses(), sleepval, Shutdown.Running, []), cfg);
      ghost var k := CycleOf(h, Input(now, usePipe, userfsd, changes, exchanges, confirmed, rounds));
      if userfsd {
        phase := ForceBecause(Shutdown.UserAskedFsd, now, confirmed, rounds, k);
        return;
      }
      phase := ChangePollAndDecide(changes, exchanges, now, confirmed, rounds, k);
    }
  }

  ghost predicate PollsCome(c: Config, us: seq<Ups>, i: nat, interval: nat, exchanges: seq<Exchange>, now: int,
                            r: Polls)
    requires i <= |us| == |r.upses|
  {
    PolledAll(c, us[i..], interval, exchanges, now) == Polls(r.upses[i..], r.interval)
  }

  lemma PollStep(c: Config, us: seq<Ups>, i: nat, interval: nat, exchange: Exchange, rest: seq<Exchange>, now: int,
                 r: Polls)
    requires i < |us| == |r.upses| && PollsCome(c, us, i, interval, [exchange] + rest, now, r)
    ensures var s := PolledUps(c, St(us[i], interval), exchange, now);
      s.u == r.upses[i] && PollsCome(c, us, i + 1, s.sleepval, rest, now, r)
  {
    var s := PolledUps(c, St(us[i], interval), exchange, now);
    var after := PolledAll(c, us[i + 1..], s.sleepval, rest, now);
    assert us[i..][0] == us[i] && us[i..][1..] == us[i + 1..] && ([exchange] + rest)[1..] == rest;
    assert r.upses[i..] == [s.u] + after.upses;
    assert r.upses[i] == r.upses[i..][0] && r.upses[i + 1..] == r.upses[i..][1..] == after.upses;
  }

  lemma PollsDone(c: Config, us: seq<Ups>, i: nat, interval: nat, exchanges: seq<Exchange>, now: int, r: Polls)
    requires i <= |us| == |r.upses| && PollsCome(c, us, i, interval, exchanges, now, r)
    requires i == |us| || exchanges == []
    ensures us[i..] == r.upses[i..] && interval == r.interval
  {
  }

  lemma Regrouped(before: seq<Shutdown.Action>, why: Shutdown.Action, a: seq<Shutdown.Action>,
                  b: seq<Shutdown.Action>, c: seq<Shutdown.Action>)
    ensures before + [why] + a + b + c == before + ([why] + a + b + c)
  {
  }

  /** The FSD commands change nothing the wait looks at. */
  lemma {:induction false} SameLogins(us: seq<Ups>, confirmed: set<string>, now: int,
                                      logins: map<string, int>, max: int)
    ensures Shutdown.MaxLogins(Shutdown.AfterFsd(us, confirmed, now), logins, max)
      == Shutdown.MaxLogins(us, logins, max)
    decreases |us|
  {
    if us != [] {
      var top := if Shutdown.IsPrimary(us[0]) && us[0].sys in logins && logins[us[0].sys] > max
                 then logins[us[0].sys] else max;
      SameLogins(us[1..], confirmed, now, logins, top);
      var vs := Shutdown.AfterFsd(us, confirmed, now);
      assert vs[1..] == Shutdown.AfterFsd(us[1..], confirmed, now);
    }
  }

  lemma {:induction false} SamePrimaries(us: seq<Ups>, confirmed: set<string>, now: int,
                                         rounds: seq<Shutdown.Round>, hostsync: int, first: bool)
    ensures Shutdown.Wait(Shutdown.AfterFsd(us, confirmed, now), rounds, now, hostsync, first)
      == Shutdown.Wait(us, rounds, now, hostsync, first)
    decreases |rounds|
  {
    if rounds != [] {
      SameLogins(us, confirmed, now, rounds[0].logins, 0);
      SamePrimaries(us, confirmed, now, rounds[1..], hostsync, false);
    }
  }

  function Commanded(u: Ups, confirmed: set<string>, now: int): Ups
  {
    if Shutdown.IsPrimary(u) then FsdSet(u, u.sys in confirmed, now) else u
  }

  lemma {:induction false} AfterFsdAt(us: seq<Ups>, confirmed: set<string>, now: int)
    ensures |Shutdown.AfterFsd(us, confirmed, now)| == |us|
    ensures forall i | 0 <= i < |us| ::
      Shutdown.AfterFsd(us, confirmed, now)[i] == Commanded(us[i], confirmed, now)
    decreases |us|
  {
    if us != [] {
      AfterFsdAt(us[1..], confirmed, now);
    }
  }

  lemma AfterFsdLength(us: seq<Ups>, confirmed: set<string>, now: int)
    ensures |Shutdown.AfterFsd(us, confirmed, now)| == |us|
  {
    AfterFsdAt(us, confirmed, now);
  }

  lemma FsdStep(us: seq<Ups>, i: nat)
    requires i < |us|
    ensures Shutdown.FsdCommands(us[i..])
      == (if Shutdown.IsPrimary(us[i]) then [Shutdown.SetFsd(us[i].sys)] else []) + Shutdown.FsdCommands(us[i + 1..])
    ensures Shutdown.Primaries(us[i..]) != []
      <==> Shutdown.IsPrimary(us[i]) || Shutdown.Primaries(us[i + 1..]) != []
  {
    assert us[i..][0] == us[i] && us[i..][1..] == us[i + 1..];
  }

  ghost function Unretained(us: seq<Ups>): seq<Ups>
  {
    if us == [] then [] else [us[0].(retain := false)] + Unretained(us[1..])
  }

  ghost function Forgotten(us: seq<Ups>): seq<Ups>
  {
    if us == [] then [] else [ThrottleForgotten(us[0])] + Forgotten(us[1..])
  }

  lemma {:induction false} UnretainedAt(us: seq<Ups>)
    ensures |Unretained(us)| == |us|
    ensures forall i | 0 <= i < |us| :: Unretained(us)[i] == us[i].(retain := false)
    decreases |us|
  {
    if us != [] {
      UnretainedAt(us[1..]);
    }
  }

  lemma {:induction false} ForgottenAt(us: seq<Ups>)
    ensures |Forgotten(us)| == |us|
    ensures forall i | 0 <= i < |us| :: Forgotten(us)[i] == ThrottleForgotten(us[i])
    decreases |us|
  {
    if us != [] {
      ForgottenAt(us[1..]);
    }
  }

  lemma {:induction false} UnmarkedIs(us: seq<Ups>, forget: bool)
    ensures Reload.Unmarked(us, forget) == if forget then Forgotten(Unretained(us)) else Unretained(us)
    decreases |us|
  {
    if us != [] {
      UnmarkedIs(us[1..], forget);
      var first := us[0].(retain := false);
      assert ([first] + Unretained(us[1..]))[1..] == Unretained(us[1..]);
    }
  }

  lemma SweptWithout(us: seq<Ups>, k: nat)
    requires k < |us| && !us[k].retain
    ensures Reload.Swept(us[..k] + us[k + 1..]) == Reload.Swept(us)
  {
    Reload.SweptConcat(us[..k], us[k + 1..]);
    Reload.SweptConcat(us[..k], us[k..]);
    assert us == us[..k] + us[k..] && us[k..][1..] == us[k + 1..];
  }

  lemma {:induction false} SweptAll(us: seq<Ups>)
    requires forall i | 0 <= i < |us| :: us[i].retain
    ensures Reload.Swept(us) == us
    decreases |us|
  {
    if us != [] {
      SweptAll(us[1..]);
    }
  }

  function AfterLines(t: Reload.Table, reloading: bool, lines: seq<Line>): Reload.Table
  {
    if reloading then Reload.AddLines(t, lines) else Reload.Loaded(t, lines)
  }

  lemma LineStep(t: Reload.Table, reloading: bool, raws: seq<Reload.RawLine>)
    requires raws != []
    ensures AfterLines(AfterLine(t, reloading, raws[0]), reloading, Reload.ParseLines(raws[1..]))
      == AfterLines(t, reloading, Reload.ParseLines(raws))
  {
    match Reload.ParseLine(raws[0])
    case None =>
    case Some(l) =>
      assert ([l] + Reload.ParseLines(raws[1..]))[1..] == Reload.ParseLines(raws[1..]);
  }

  function AfterLine(t: Reload.Table, reloading: bool, raw: Reload.RawLine): Reload.Table
  {
    match Reload.ParseLine(raw)
    case None => t
    case Some(l) => if reloading then Reload.AddLine(t, l) else Reload.LoadLine(t, l)
  }

  /** Going on from the `i`-th device leads to the rest of `r`. */
  ghost predicate Comes(c: Config, us: seq<Ups>, i: nat, sleepval: nat, sum: nat, now: int, r: Shutdown.Recalculation)
    requires i <= |us| == |r.upses|
  {
    Shutdown.RecalcFrom(c, us[i..], sleepval, sum, now)
      == Shutdown.Recalculation(r.upses[i..], r.sleepval, r.healthy)
  }

  lemma RecalcComes(c: Config, us: seq<Ups>, sleepval: nat, now: int, r: Shutdown.Recalculation)
    requires r == Shutdown.RecalcFrom(c, us, sleepval, 0, now)
    ensures |us| == |r.upses| && Comes(c, us, 0, sleepval, 0, now, r)
  {
    RecalcLength(c, us, sleepval, 0, now);
    assert us[0..] == us && r.upses[0..] == r.upses;
  }

  lemma RecalcDone(c: Config, us: seq<Ups>, sleepval: nat, sum: nat, now: int, r: Shutdown.Recalculation)
    requires |us| == |r.upses| && Comes(c, us, |us|, sleepval, sum, now, r)
    ensures sleepval == r.sleepval && sum == r.healthy
  {
    assert us[|us|..] == [];
  }

  lemma {:induction false} RecalcLength(c: Config, us: seq<Ups>, sleepval: nat, sum: nat, now: int)
    ensures |Shutdown.RecalcFrom(c, us, sleepval, sum, now).upses| == |us|
    decreases |us|
  {
    if us != [] {
      var s := Recalculated(c, St(us[0], sleepval), now);
      RecalcLength(c, us[1..], s.sleepval,
                   if JudgedCritical(c, us[0], now) then sum else Reload.Added(sum, us[0].pv), now);
    }
  }

  /** The loop's next device. */
  lemma RecalcStep(c: Config, us: seq<Ups>, i: nat, sleepval: nat, sum: nat, now: int, r: Shutdown.Recalculation)
    requires i < |us| == |r.upses|
    requires Comes(c, us, i, sleepval, sum, now, r)
    ensures var s := Recalculated(c, St(us[i], sleepval), now);
      var next := if JudgedCritical(c, us[i], now) then sum else Reload.Added(sum, us[i].pv);
      && s.u == r.upses[i] && s.u.pv == us[i].pv
      && Comes(c, us, i + 1, s.sleepval, next, now, r)
  {
    var s := Recalculated(c, St(us[i], sleepval), now);
    var next := if JudgedCritical(c, us[i], now) then sum else Reload.Added(sum, us[i].pv);
    var rest := Shutdown.RecalcFrom(c, us[i + 1..], s.sleepval, next, now);
    assert us[i..][0] == us[i] && us[i..][1..] == us[i + 1..];
    assert r.upses[i..] == [s.u] + rest.upses;
    assert r.upses[i] == r.upses[i..][0] && r.upses[i + 1..] == r.upses[i..][1..] == rest.upses;
  }
}
