/** The state upsmon keeps for each device, and what each of its handlers does to it.
    Times are seconds; every function is given the clock reading its code takes. */
module UpsState {
  import opened Text

  /** The bits of `ups->status`. A mask is set when all its bits are. */
  datatype Flag =
    | ONLINE | ONBATT | LOWBATT | FSD | PRIMARY | LOGIN | CLICONNECTED
    | CAL | OFF | BYPASS | ECO | ALARM | OVER | TRIM | BOOST

  datatype Notice =
    | NotifyOnline | NotifyOnBatt | NotifyLowBatt | NotifyFsd | NotifyCommOk | NotifyCommBad
    | NotifyReplBatt | NotifyNoComm | NotifyCal | NotifyNotCal | NotifyOff | NotifyNotOff
    | NotifyBypass | NotifyNotBypass | NotifyEco | NotifyNotEco | NotifyAlarm | NotifyNotAlarm
    | NotifyOver | NotifyNotOver | NotifyTrim | NotifyNotTrim | NotifyBoost | NotifyNotBoost

  datatype Config = Config(
    minsupplies: nat, pollfreq: nat, pollfreqalert: nat, deadtime: int, hostsync: int,
    offduration: int, oblbduration: int, overduration: int, alarmcritical: int,
    rbwarntime: int, nocommwarntime: int, throttleMax: int)

  const ERR_NONE := -1

  datatype Ups = Ups(
    sys: string, pv: nat, un: string, pw: string, retain: bool,
    status: set<Flag>,
    commstate: int, linestate: int, offstate: int, bypassstate: int, ecostate: int,
    alarmstate: int, overstate: int,
    throttleState: int, throttleCount: int,
    lastpoll: int, lastnoncrit: int, lastrbwarn: int, lastncwarn: int, lastfsdnotify: int,
    offsince: int, oblbsince: int, oversince: int,
    notices: seq<Notice>)  // what has been notified about it so far

  /** One device together with the polling interval all devices share. */
  datatype St = St(u: Ups, sleepval: nat)

  /** A device as `addups` creates it. */
  function NewUps(sys: string, pv: nat, un: string, pw: string, primary: bool): Ups
  {
    Ups(sys, pv, un, pw, true, if primary then {PRIMARY} else {},
        -1, -1, -1, -1, -1, -1, -1, ERR_NONE, -1, 0, 0, 0, 0, 0, 0, 0, 0, [])
  }

  function Told(u: Ups, n: Notice): Ups
  {
    u.(notices := u.notices + [n])
  }

  const RELAXED_MASK := {ONBATT, OFF, BYPASS, ALARM, CAL, OVER, TRIM, BOOST}

  /** The interval is relaxed unless every flag of the mask is set at once. */
  function TryRestorePollfreq(c: Config, s: St): St
  {
    if RELAXED_MASK <= s.u.status then s else s.(sleepval := c.pollfreq)
  }

  // ----- communication -----

  function IsAlive(s: St, now: int): St
  {
    var u := s.u.(lastpoll := now);
    if u.commstate == 1 then s.(u := u)
    else
      var told := if u.commstate == 0 then Told(u, NotifyCommOk) else u;
      s.(u := told.(commstate := 1))
  }

  function IsGone(c: Config, u: Ups, now: int): Ups
  {
    if u.commstate != 0 then Told(u.(commstate := 0), NotifyCommBad)
    else if now - u.lastpoll < c.nocommwarntime then u
    else if now - u.lastncwarn > c.nocommwarntime then Told(u, NotifyNoComm).(lastncwarn := now)
    else u
  }

  function Dropped(u: Ups): Ups
  {
    u.(commstate := 0, throttleCount := -1, throttleState := ERR_NONE,
       status := u.status - {LOGIN, CLICONNECTED})
  }

  // ----- the status tokens -----

  /** A flag set with its notice, once. */
  function Raised(u: Ups, f: Flag, n: Notice): Ups
  {
    if f in u.status then u else Told(u, n).(status := u.status + {f})
  }

  function Unset(u: Ups, f: Flag, n: Notice): Ups
  {
    Told(u, n).(status := u.status - {f})
  }

  /** A flag cleared with its notice, once; the interval may relax then. */
  function Lowered(c: Config, s: St, f: Flag, n: Notice): St
  {
    if f in s.u.status then TryRestorePollfreq(c, s.(u := Unset(s.u, f, n))) else s
  }

  function IsOff(c: Config, s: St, now: int): St
  {
    if OFF in s.u.status then
      if s.u.offsince < 1 then s.(u := s.u.(offsince := now))
      else if c.offduration > 0 && now - s.u.offsince > c.offduration then s.(u := s.u.(offstate := 1))
      else s
    else
      var u := s.u.(offsince := now, offstate := if c.offduration == 0 then 1 else s.u.offstate);
      St(Raised(u, OFF, NotifyOff), c.pollfreqalert)
  }

  function IsNotOff(c: Config, s: St): St
  {
    Lowered(c, s.(u := s.u.(offsince := 0, offstate := 0)), OFF, NotifyNotOff)
  }

  function IsBypass(c: Config, s: St): St
  {
    if BYPASS in s.u.status then s
    else St(Raised(s.u.(bypassstate := 1), BYPASS, NotifyBypass), c.pollfreqalert)
  }

  function IsNotBypass(c: Config, s: St): St
  {
    Lowered(c, s.(u := s.u.(bypassstate := 0)), BYPASS, NotifyNotBypass)
  }

  function IsEco(s: St): St
  {
    if ECO in s.u.status then s else s.(u := Raised(s.u.(ecostate := 1), ECO, NotifyEco))
  }

  function IsNotEco(c: Config, s: St): St
  {
    Lowered(c, s.(u := s.u.(ecostate := 0)), ECO, NotifyNotEco)
  }

  function IsAlarm(c: Config, s: St): St
  {
    if ALARM in s.u.status then s
    else St(Raised(s.u.(alarmstate := 1), ALARM, NotifyAlarm), c.pollfreqalert)
  }

  function IsNotAlarm(c: Config, s: St): St
  {
    Lowered(c, s.(u := s.u.(alarmstate := 0)), ALARM, NotifyNotAlarm)
  }

  function OnBatt(c: Config, s: St): St
  {
    if ONBATT in s.u.status then s
    else
      var u := Told(s.u.(linestate := 0), NotifyOnBatt);
      St(u.(status := u.status + {ONBATT} - {ONLINE}), c.pollfreqalert)
  }

  function OnLine(c: Config, s: St): St
  {
    var r := TryRestorePollfreq(c, s);
    if ONLINE in r.u.status then r
    else
      var u := if r.u.linestate != -1 then Told(r.u, NotifyOnline) else r.u;
      r.(u := u.(linestate := 1, status := u.status + {ONLINE} - {ONBATT}))
  }

  function IsOver(c: Config, s: St, now: int): St
  {
    if OVER in s.u.status then
      if s.u.oversince < 1 then s.(u := s.u.(oversince := now)) else s
    else
      St(Raised(s.u.(oversince := now, overstate := 1), OVER, NotifyOver),
         if c.overduration >= 0 then c.pollfreqalert else s.sleepval)
  }

  function IsNotOver(c: Config, s: St): St
  {
    Lowered(c, s.(u := s.u.(oversince := 0, overstate := 0)), OVER, NotifyNotOver)
  }

  function ReplBatt(c: Config, u: Ups, now: int): Ups
  {
    if now - u.lastrbwarn > c.rbwarntime then Told(u, NotifyReplBatt).(lastrbwarn := now) else u
  }

  function UpsFsd(u: Ups, now: int): Ups
  {
    if FSD in u.status then u
    else
      var told := if u.lastfsdnotify == 0 then Told(u, NotifyFsd).(lastfsdnotify := now) else u;
      told.(status := u.status + {FSD})
  }

  datatype Token =
    | TokOL | TokOB | TokLB | TokRB | TokCAL | TokOFF | TokBYPASS | TokECO | TokALARM
    | TokOVER | TokTRIM | TokBOOST | TokFSD | TokOther

  /** The chain of `strcasecmp` tests; everything else changes no flag. */
  function Classify(word: string): Token
  {
    if SameNoCase(word, "OL") then TokOL
    else if SameNoCase(word, "OB") then TokOB
    else if SameNoCase(word, "LB") then TokLB
    else if SameNoCase(word, "RB") then TokRB
    else if SameNoCase(word, "CAL") then TokCAL
    else if SameNoCase(word, "OFF") then TokOFF
    else if SameNoCase(word, "BYPASS") then TokBYPASS
    else if SameNoCase(word, "ECO") then TokECO
    else if SameNoCase(word, "ALARM") then TokALARM
    else if SameNoCase(word, "OVER") then TokOVER
    else if SameNoCase(word, "TRIM") then TokTRIM
    else if SameNoCase(word, "BOOST") then TokBOOST
    else if SameNoCase(word, "FSD") then TokFSD
    else TokOther
  }

  function HandleToken(c: Config, s: St, tok: Token, now: int): St
  {
    match tok
    case TokOL => OnLine(c, s)
    case TokOB => OnBatt(c, s)
    case TokLB => s.(u := Raised(s.u, LOWBATT, NotifyLowBatt))
    case TokRB => s.(u := ReplBatt(c, s.u, now))
    case TokCAL => s.(u := Raised(s.u, CAL, NotifyCal))
    case TokOFF => IsOff(c, s, now)
    case TokBYPASS => IsBypass(c, s)
    case TokECO => IsEco(s)
    case TokALARM => IsAlarm(c, s)
    case TokOVER => IsOver(c, s, now)
    case TokTRIM => s.(u := Raised(s.u, TRIM, NotifyTrim))
    case TokBOOST => s.(u := Raised(s.u, BOOST, NotifyBoost))
    case TokFSD => s.(u := UpsFsd(s.u, now))
    case TokOther => s
  }

  /** When the device was last seen not critical. */
  function UpdateCritTimer(u: Ups, now: int): Ups
  {
    if ONBATT !in u.status || LOWBATT !in u.status || CAL in u.status then u.(lastnoncrit := now) else u
  }

  function HandleWords(c: Config, s: St, words: seq<string>, now: int): St
    decreases |words|
  {
    if words == [] then s
    else
      var next := HandleToken(c, s, Classify(words[0]), now);
      HandleWords(c, next.(u := UpdateCritTimer(next.u, now)), words[1..], now)
  }

  /** `strstr(s, p)` for a non-empty `p`. */
  predicate Contains(s: string, p: string)
  {
    p <= s || (s != "" && Contains(s[1..], p))
  }

  /** The upper-case name a flag is kept for. */
  function NameOf(f: Flag): (p: string)
    requires f in CLEARED
  {
    match f
    case LOWBATT => "LB"
    case FSD => "FSD"
    case CAL => "CAL"
    case OFF => "OFF"
    case BYPASS => "BYPASS"
    case ALARM => "ALARM"
    case OVER => "OVER"
    case TRIM => "TRIM"
    case _ => "BOOST"
  }

  /** The flags cleared when the text no longer contains their name. */
  const CLEARED := {LOWBATT, FSD, CAL, OFF, BYPASS, ALARM, OVER, TRIM, BOOST}

  /** Those cleared with a notice, in the order the code goes through them. */
  const CLEAR_ORDER := [CAL, OFF, BYPASS, ALARM, OVER, TRIM, BOOST]

  function ClearedSilently(u: Ups, status: string): Ups
  {
    var v := if Contains(status, "LB") then u else u.(status := u.status - {LOWBATT});
    if Contains(status, "FSD") then v else v.(status := v.status - {FSD}, lastfsdnotify := 0)
  }

  function Cleared(c: Config, s: St, f: Flag): St
    requires f in CLEARED
  {
    match f
    case CAL => Lowered(c, s, CAL, NotifyNotCal)
    case OFF => IsNotOff(c, s)
    case BYPASS => IsNotBypass(c, s)
    case ALARM => IsNotAlarm(c, s)
    case OVER => IsNotOver(c, s)
    case TRIM => Lowered(c, s, TRIM, NotifyNotTrim)
    case BOOST => Lowered(c, s, BOOST, NotifyNotBoost)
    case _ => s
  }

  function ClearedUnlessNamed(c: Config, s: St, f: Flag, status: string): St
    requires f in CLEARED
  {
    if Contains(status, NameOf(f)) then s else Cleared(c, s, f)
  }

  function ClearAll(c: Config, s: St, order: seq<Flag>, status: string): St
    requires forall i | 0 <= i < |order| :: order[i] in CLEARED
    decreases |order|, status
  {
    if order == [] then s
    else ClearAll(c, ClearedUnlessNamed(c, s, order[0], status), order[1..], status)
  }

  /** `eco` tells whether a buzzword of the device says it is in an economy mode. */
  function UpdateEco(c: Config, s: St, status: string, eco: bool): St
  {
    if !Contains(status, "ECO") && !eco then IsNotEco(c, s) else if eco then IsEco(s) else s
  }

  /** What the text does not name is cleared before its words are looked at. */
  function ClearMissing(c: Config, s: St, status: string, eco: bool): St
  {
    UpdateEco(c, ClearAll(c, s.(u := ClearedSilently(s.u, status)), CLEAR_ORDER, status), status, eco)
  }

  function ParseStatus(c: Config, s: St, status: string, eco: bool, now: int): St
  {
    if status == "" then s.(u := IsGone(c, s.u, now))
    else HandleWords(c, ClearMissing(c, IsAlive(s, now), status, eco), Split(status, ' '), now)
  }

  // ----- is it critical -----

  /** Why a device that does not communicate is assumed dead before DEADTIME. */
  predicate AssumedDead(c: Config, u: Ups, now: int)
  {
    || ((u.overstate == 1 || OVER in u.status) && c.overduration >= 0
        && !(now > 0 && now - u.oversince < c.overduration))
    || ((u.alarmstate == 1 || ALARM in u.status) && c.alarmcritical == 1)
    || CAL in u.status
    || u.bypassstate == 1 || BYPASS in u.status
    || u.offstate == 1 || (c.offduration >= 0 && OFF in u.status)
  }

  predicate OffTooLong(c: Config, u: Ups)
  {
    OFF in u.status && c.offduration >= 0 && u.offstate == 1
  }

  predicate OnLowBattery(u: Ups)
  {
    ONBATT in u.status && LOWBATT in u.status
  }

  function Max(a: nat, b: nat): nat { if a > b then a else b }

  /** The loop of repeated subtraction that finds the polling interval. */
  function Gcd(a: nat, b: nat): (g: nat)
    requires a > 0 && b > 0
    ensures 0 < g <= a && g <= b
    decreases a + b
  {
    if a == b then a else if a > b then Gcd(a - b, b) else Gcd(a, b - a)
  }

  /** Does the delay set by OBLBDURATION, begun or running, hold the verdict back? */
  predicate Delayed(c: Config, u: Ups, now: int)
  {
    c.oblbduration > 0 &&
    ((u.oblbsince < 1 && now > 0) || (now > 0 && now - u.oblbsince < c.oblbduration))
  }

  predicate GiveUpTime(c: Config, u: Ups, now: int)
  {
    PRIMARY in u.status || now - u.lastnoncrit > c.hostsync
  }

  /** The verdict of `is_ups_critical`. */
  predicate Critical(c: Config, u: Ups, now: int)
  {
    || FSD in u.status
    || (u.commstate == 0 && AssumedDead(c, u, now))
    || OffTooLong(c, u)
    || (OnLowBattery(u) && CAL !in u.status && !Delayed(c, u, now) && GiveUpTime(c, u, now))
  }

  /** What asking for the verdict changes: the start of the OB+LB delay, and the interval. */
  function Evaluated(c: Config, s: St, now: int): St
  {
    var u := s.u;
    if FSD in u.status || (u.commstate == 0 && AssumedDead(c, u, now)) || OffTooLong(c, u) then s
    else if !OnLowBattery(u) then
      if u.oblbsince > 0
      then St(u.(oblbsince := 0), if ONBATT in u.status then c.pollfreqalert else c.pollfreq)
      else s
    else if CAL !in u.status && c.oblbduration > 0 && u.oblbsince < 1 && now > 0
    then St(u.(oblbsince := now), Gcd(Max(c.pollfreqalert, 1), c.oblbduration))
    else s
  }

  /** A device not heard from for DEADTIME that was on battery is promoted to low battery. */
  function Promoted(c: Config, u: Ups, now: int): Ups
  {
    if now - u.lastpoll > c.deadtime && ONBATT in u.status then u.(status := u.status + {LOWBATT}) else u
  }

  /** One device's part of `recalc`. */
  function Recalculated(c: Config, s: St, now: int): St
  {
    Evaluated(c, s.(u := Promoted(c, s.u, now)), now)
  }

  predicate JudgedCritical(c: Config, u: Ups, now: int)
  {
    Critical(c, Promoted(c, u, now), now)
  }

  // ----- the forced shutdown flag, set by this host -----

  /** `confirmed`: the server answered OK. */
  function FsdSet(u: Ups, confirmed: bool, now: int): Ups
  {
    if confirmed && u.lastfsdnotify == 0 then Told(u, NotifyFsd).(lastfsdnotify := now) else u
  }

  // ----- a failed poll -----

  /** The throttle's two fields, and whether this failure is logged in full. */
  datatype Throttle = Throttle(state: int, count: int, logged: bool)

  function Throttled(max: int, state: int, count: int, err: int): Throttle
  {
    if max < 0 then Throttle(state, count, true)
    else if state == err then
      if max == 0 then Throttle(state, count, false)
      else if count >= max - 1 then Throttle(state, 0, true)
      else Throttle(state, count + 1, false)
    else Throttle(err, 0, true)
  }

  function PollFailed(c: Config, u: Ups, err: int, lost: bool, now: int): Ups
  {
    var t := Throttled(c.throttleMax, u.throttleState, u.throttleCount, err);
    var gone := IsGone(c, u.(throttleState := t.state, throttleCount := t.count), now);
    if lost then Dropped(gone) else gone
  }

  function PollSucceeded(c: Config, s: St, status: string, eco: bool, now: int): St
  {
    ParseStatus(c, s.(u := s.u.(throttleState := ERR_NONE, throttleCount := -1)), status, eco, now)
  }

  /** How a connection attempt ends: refused by the configuration (a certificate check with
      no certificates), not reached, reached but not authorised, or up. */
  datatype Connection = Misconfigured | Unreached | NotAuthorised(loggedIn: bool) | Up

  function Connected(c: Config, u: Ups, how: Connection, now: int): Ups
  {
    var v := u.(status := u.status - {CLICONNECTED});
    match how
    case Misconfigured => Dropped(IsGone(c, v, now))
    case Unreached => IsGone(c, v, now)
    case NotAuthorised(loggedIn) =>
      v.(status := v.status + {CLICONNECTED} + if loggedIn then {LOGIN} else {})
    case Up => v.(status := v.status + {CLICONNECTED, LOGIN})
  }

  // ----- reload and wake-up -----

  datatype Role = Primary | Secondary | OtherRole

  /** One MONITOR line. */
  datatype Line = Line(sys: string, pv: nat, un: string, pw: string, role: Role)

  /** A device that is not logged in is reconnected with the new user name. */
  function WithUser(u: Ups, un: string): Ups
  {
    if u.un == un then u
    else if LOGIN in u.status then u.(un := un) else Dropped(u.(un := un))
  }

  function WithPassword(u: Ups, pw: string): Ups
  {
    if u.pw == pw then u
    else if LOGIN in u.status then u.(pw := pw) else Dropped(u.(pw := pw))
  }

  function WithRole(u: Ups, role: Role): Ups
  {
    if role == Primary && PRIMARY !in u.status then Dropped(u.(status := u.status + {PRIMARY}))
    else if role == Secondary && PRIMARY in u.status then u.(status := u.status - {PRIMARY})
    else u
  }

  function Redefined(u: Ups, l: Line): Ups
  {
    WithRole(WithPassword(WithUser(u.(retain := true, pv := l.pv), l.un), l.pw), l.role)
  }

  function ThrottleForgotten(u: Ups): Ups
  {
    u.(throttleCount := -1, throttleState := ERR_NONE)
  }

  /** After the system slept the readings are void; nothing else is forgotten. */
  function Woken(u: Ups, now: int): Ups
  {
    u.(status := {}, lastpoll := now)
  }
}
