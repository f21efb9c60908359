/** How often a lasting poll failure is logged in full (`pollups`). */
module PollThrottle {
  import opened UpsState
  import opened UpsRuns
  import UpsComm

  /** A run in which every poll fails with the same error and the connection stays; the main
      loop's other steps may lie in between. */
  predicate OnlyFailures(es: seq<Timed>, err: int, max: int)
  {
    forall i | 0 <= i < |es| ::
      match es[i].ev
      case Failing(e, lost) => e == err && !lost && es[i].c.throttleMax == max
      case Recalc => true
      case SettingFsd(_) => true
      case _ => false
  }

  function Failures(es: seq<Timed>): nat
  {
    if es == [] then 0 else Failures(es[..|es| - 1]) + if es[|es| - 1].ev.Failing? then 1 else 0
  }

  /** Is a failure at this state logged in full? */
  predicate LoggedInFull(u: Ups, err: int, max: int)
  {
    Throttled(max, u.throttleState, u.throttleCount, err).logged
  }

  function FullLines(s: St, es: seq<Timed>): nat
    decreases |es|
  {
    if es == [] then 0
    else
      var e := es[|es| - 1];
      FullLines(s, es[..|es| - 1]) +
      if e.ev.Failing? && LoggedInFull(Run(s, es[..|es| - 1]).u, e.ev.err, e.c.throttleMax) then 1 else 0
  }

  /** The throttle's fields after `n` failures with a newly seen error. */
  predicate After(u: Ups, start: Ups, err: int, max: int, n: nat)
  {
    if n == 0 || max < 0 then u.throttleState == start.throttleState && u.throttleCount == start.throttleCount
    else u.throttleState == err && (max > 0 ==> u.throttleCount == (n - 1) % max)
  }

  lemma FailureStep(u: Ups, start: Ups, err: int, max: int, n: nat, c: Config, now: int)
    requires After(u, start, err, max, n) && start.throttleState != err && c.throttleMax == max
    ensures After(PollFailed(c, u, err, false, now), start, err, max, n + 1)
    ensures LoggedInFull(u, err, max) <==> max < 0 || n == 0 || (max > 0 && n % max == 0)
  {
    var v := PollFailed(c, u, err, false, now);
    var t := Throttled(max, u.throttleState, u.throttleCount, err);
    assert v.throttleState == t.state && v.throttleCount == t.count;
    if max > 0 && n > 0 {
      NextRemainder(n - 1, max);
    } else if max > 0 {
      assert 0 % max == 0;
    }
  }

  lemma NextRemainder(n: nat, m: nat)
    requires m > 0
    ensures (n + 1) % m == if n % m >= m - 1 then 0 else n % m + 1
  {
    var q, r := n / m, n % m;
    assert n == q * m + r;
    if r >= m - 1 {
      assert n + 1 == (q + 1) * m;
      Remainder(q + 1, 0, m);
    } else {
      Remainder(q, r + 1, m);
    }
  }

  lemma Remainder(q: nat, r: nat, m: nat)
    requires r < m
    ensures (q * m + r) % m == r && (q * m + r) / m == q
  {
    var n := q * m + r;
    var q', r' := n / m, n % m;
    assert n == q' * m + r' && 0 <= r' < m;
    assert q' > q ==> q' * m >= (q + 1) * m;
    assert q' < q ==> q * m >= (q' + 1) * m;
  }

  /** Which failures are logged in full: the `n+1`-st one is when `n` failures came before. */
  lemma {:induction false} ThrottleFollowsCount(s: St, es: seq<Timed>, err: int, max: int)
    requires OnlyFailures(es, err, max) && s.u.throttleState != err
    ensures After(Run(s, es).u, s.u, err, max, Failures(es))
    decreases |es|
  {
    if es != [] {
      var front, e := es[..|es| - 1], es[|es| - 1];
      assert es == front + [e];
      RunAppend(s, front, e);
      ThrottleFollowsCount(s, front, err, max);
      if e.ev.Failing? {
        FailureStep(Run(s, front).u, s.u, err, max, Failures(front), e.c, e.now);
      } else {
        OthersKeepThrottle(Run(s, front), e);
      }
    }
  }

  /** Exactly the failures 1, 1+max, 1+2*max, ... of a run are logged in full. */
  lemma WhichFailuresAreLogged(s: St, es: seq<Timed>, err: int, max: int)
    requires OnlyFailures(es, err, max) && s.u.throttleState != err
    ensures LoggedInFull(Run(s, es).u, err, max)
      <==> max < 0 || Failures(es) == 0 || (max > 0 && Failures(es) % max == 0)
  {
    ThrottleFollowsCount(s, es, err, max);
    var u, n := Run(s, es).u, Failures(es);
    if max > 0 && n > 0 {
      NextRemainder(n - 1, max);
    }
  }

  /** The number of full lines `n` failures make. */
  function ExpectedLines(max: int, n: nat): nat
  {
    if max < 0 || n == 0 then n else if max == 0 then 1 else 1 + (n - 1) / max
  }

  lemma ExpectedStep(max: int, n: nat)
    ensures ExpectedLines(max, n + 1)
      == ExpectedLines(max, n) + if max < 0 || n == 0 || (max > 0 && n % max == 0) then 1 else 0
  {
    if max > 0 && n > 0 {
      var q, r := (n - 1) / max, (n - 1) % max;
      assert n - 1 == q * max + r;
      if r == max - 1 {
        assert n == (q + 1) * max + 0;
        Remainder(q + 1, 0, max);
      } else {
        assert n == q * max + (r + 1);
        Remainder(q, r + 1, max);
      }
    }
  }

  /** Main result: `n` failures with one newly seen error make `n` full lines if the maximum
      is negative, one if it is zero, and 1 + (n-1)/max otherwise. */
  lemma {:induction false} FullLinesExact(s: St, es: seq<Timed>, err: int, max: int)
    requires OnlyFailures(es, err, max) && s.u.throttleState != err
    ensures FullLines(s, es) == ExpectedLines(max, Failures(es))
    decreases |es|
  {
    if es != [] {
      var front, e := es[..|es| - 1], es[|es| - 1];
      assert OnlyFailures(front, err, max);
      FullLinesExact(s, front, err, max);
      WhichFailuresAreLogged(s, front, err, max);
      ExpectedStep(max, Failures(front));
    }
  }

  // ----- starting anew -----

  /** What ends a series of failures: a poll that succeeds, the loss of the connection, or a reload
      that forgets the throttle or makes upsmon reconnect. */
  predicate EndsSeries(u: Ups, ev: Event)
  {
    || ev.Polled? || (ev.Failing? && ev.lost) || (ev.Connecting? && ev.how.Misconfigured?)
    || (ev.Reloading? && (ev.forget || UpsComm.Reconnects(u, ev.line)))
  }

  lemma ReloadThrottle(u: Ups, l: Line)
    ensures var v := Redefined(u, l);
      if UpsComm.Reconnects(u, l) then v.throttleState == ERR_NONE && v.throttleCount == -1
      else v.throttleState == u.throttleState && v.throttleCount == u.throttleCount
  {
  }

  /** After it the throttle is as for a new device, and the next failure is logged in full. */
  lemma SeriesStartsAnew(s: St, e: Timed, err: int, max: int)
    requires EndsSeries(s.u, e.ev) && err != ERR_NONE
    ensures var u := Step(s, e).u;
      u.throttleState == ERR_NONE && u.throttleCount == -1 && LoggedInFull(u, err, max)
  {
    match e.ev
    case Polled(status, eco) =>
      if status != "" {
        PollKeeps(e.c, s, status, eco, e.now);
        assert KeptOf(Step(s, e).u).throttleState == ERR_NONE && KeptOf(Step(s, e).u).throttleCount == -1;
      }
    case Reloading(forget, line) => ReloadThrottle(if forget then ThrottleForgotten(s.u) else s.u, line);
    case _ =>
  }

  /** Nothing else but a failure touches it. */
  lemma OthersKeepThrottle(s: St, e: Timed)
    requires !EndsSeries(s.u, e.ev) && !e.ev.Failing?
    ensures var u := Step(s, e).u;
      u.throttleState == s.u.throttleState && u.throttleCount == s.u.throttleCount
  {
    match e.ev
    case Reloading(forget, line) => ReloadThrottle(s.u, line);
    case _ =>
  }
}
