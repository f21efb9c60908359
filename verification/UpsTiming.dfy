/** OBLBDURATION: when the delayed verdict falls, and the polling interval while it waits. */
module UpsTiming {
  import opened Text
  import opened UpsState
  import opened UpsStatus
  import opened UpsRuns

  // ----- the interval -----

  ghost predicate Divides(d: nat, n: nat)
  {
    exists k: nat :: n == d * k
  }

  lemma DividesDifference(d: nat, a: nat, b: nat)
    requires Divides(d, a) && Divides(d, b) && a >= b
    ensures Divides(d, a - b)
  {
    var j: nat :| a == d * j;
    var k: nat :| b == d * k;
    if j >= k {
      assert a - b == d * (j - k);
    } else {
      assert d * k == d * j + d * (k - j);
      assert a - b == d * 0;
    }
  }

  lemma DividesSum(d: nat, a: nat, b: nat)
    requires Divides(d, a) && Divides(d, b)
    ensures Divides(d, a + b)
  {
    var j: nat :| a == d * j;
    var k: nat :| b == d * k;
    assert a + b == d * (j + k);
  }

  /** Main result on the interval: repeated subtraction ends with the greatest common
      divisor, the one common divisor that every other divides. */
  lemma {:induction false} GcdIsGreatest(a: nat, b: nat, d: nat)
    requires a > 0 && b > 0
    ensures Divides(Gcd(a, b), a) && Divides(Gcd(a, b), b)
    ensures Divides(d, a) && Divides(d, b) ==> Divides(d, Gcd(a, b))
    decreases a + b
  {
    var g := Gcd(a, b);
    if a == b {
      assert a == a * 1;
    } else if a > b {
      GcdIsGreatest(a - b, b, d);
      DividesSum(g, a - b, b);
      if Divides(d, a) && Divides(d, b) {
        DividesDifference(d, a, b);
      }
    } else {
      GcdIsGreatest(a, b - a, d);
      DividesSum(g, b - a, a);
      if Divides(d, a) && Divides(d, b) {
        DividesDifference(d, b, a);
      }
    }
  }

  /** So on entering the delay both POLLFREQALERT and OBLBDURATION are multiples of the new
      interval, and some poll falls on the moment the delay ends. */
  lemma IntervalOnEntry(c: Config, s: St, now: int)
    requires OnLowBattery(s.u) && s.u.commstate != 0 && {FSD, OFF, CAL} !! s.u.status
    requires c.oblbduration > 0 && s.u.oblbsince < 1 && now > 0
    ensures var interval := Evaluated(c, s, now).sleepval;
      && 0 < interval && Divides(interval, Max(c.pollfreqalert, 1)) && Divides(interval, c.oblbduration)
      && forall d | Divides(d, Max(c.pollfreqalert, 1)) && Divides(d, c.oblbduration) :: Divides(d, interval)
  {
    var a, b := Max(c.pollfreqalert, 1), c.oblbduration;
    GcdIsGreatest(a, b, 1);
    assert Evaluated(c, s, now).sleepval == Gcd(a, b);
    forall d | Divides(d, a) && Divides(d, b)
      ensures Divides(d, Gcd(a, b))
    {
      GcdIsGreatest(a, b, d);
    }
  }

  /** The words for trouble that shorten the interval; an overload does unless OVERDURATION is off. */
  predicate Shortens(c: Config, tok: Token)
  {
    tok == TokOB || tok == TokOFF || tok == TokBYPASS || tok == TokALARM || (tok == TokOVER && c.overduration >= 0)
  }

  function TroubleOf(c: Config, tok: Token): Flag
    requires Shortens(c, tok)
  {
    match tok
    case TokOB => ONBATT
    case TokOFF => OFF
    case TokBYPASS => BYPASS
    case TokALARM => ALARM
    case _ => OVER
  }

  lemma OtherTokenKeepsTrouble(c: Config, s: St, tok: Token, trouble: Token, now: int)
    requires Shortens(c, trouble) && tok != trouble && tok != TokOL
    ensures TroubleOf(c, trouble) in HandleToken(c, s, tok, now).u.status <==> TroubleOf(c, trouble) in s.u.status
  {
  }

  /** What one word does to the interval. */
  lemma TokenInterval(c: Config, s: St, tok: Token, now: int)
    requires tok != TokOL
    ensures HandleToken(c, s, tok, now).sleepval
      == if Shortens(c, tok) && TroubleOf(c, tok) !in s.u.status then c.pollfreqalert else s.sleepval
  {
  }

  lemma {:induction false} WordsAlert(c: Config, s: St, words: seq<string>, trouble: Token, now: int)
    requires Shortens(c, trouble) && !HasToken(words, TokOL)
    requires s.sleepval == c.pollfreqalert || (HasToken(words, trouble) && TroubleOf(c, trouble) !in s.u.status)
    ensures HandleWords(c, s, words, now).sleepval == c.pollfreqalert
    decreases |words|
  {
    if words != [] {
      var tok := Classify(words[0]);
      var next := HandleToken(c, s, tok, now);
      TokenInterval(c, s, tok, now);
      if tok != trouble {
        OtherTokenKeepsTrouble(c, s, tok, trouble, now);
      }
      WordsAlert(c, next.(u := UpdateCritTimer(next.u, now)), words[1..], trouble, now);
    }
  }

  /** Main result on trouble: a status that names one the device was not in, and not OL, leaves
      POLLFREQALERT. */
  lemma TroubleAlerts(c: Config, s: St, status: string, eco: bool, trouble: Token, now: int)
    requires status != "" && Shortens(c, trouble) && TroubleOf(c, trouble) !in s.u.status
    requires HasToken(Split(status, ' '), trouble) && !HasToken(Split(status, ' '), TokOL)
    ensures ParseStatus(c, s, status, eco, now).sleepval == c.pollfreqalert
  {
    var alive := IsAlive(s, now);
    ClearingFlags(c, alive, status, eco, TroubleOf(c, trouble));
    WordsAlert(c, ClearMissing(c, alive, status, eco), Split(status, ' '), trouble, now);
  }

  /** No word of trouble. */
  predicate Calm(c: Config, words: seq<string>)
  {
    && !HasToken(words, TokOB) && !HasToken(words, TokOFF) && !HasToken(words, TokBYPASS)
    && !HasToken(words, TokALARM) && (c.overduration >= 0 ==> !HasToken(words, TokOVER))
  }

  lemma {:induction false} WordsRelax(c: Config, s: St, words: seq<string>, now: int)
    requires Calm(c, words) && OFF !in s.u.status
    requires s.sleepval == c.pollfreq || HasToken(words, TokOL)
    ensures HandleWords(c, s, words, now).sleepval == c.pollfreq
    decreases |words|
  {
    if words != [] {
      var tok := Classify(words[0]);
      var next := HandleToken(c, s, tok, now);
      TokenFlags(c, s, tok, now, OFF);
      if tok == TokOL {
        OnLineRelaxes(c, s);
      } else {
        TokenInterval(c, s, tok, now);
      }
      WordsRelax(c, next.(u := UpdateCritTimer(next.u, now)), words[1..], now);
    }
  }

  lemma OnLineRelaxes(c: Config, s: St)
    requires OFF !in s.u.status
    ensures OnLine(c, s).sleepval == c.pollfreq
  {
    assert OFF in RELAXED_MASK;
  }

  /** And on coming back on line: a status that says OL and names no trouble leaves POLLFREQ, even if
      the device still trims, boosts or calibrates. */
  lemma LineRelaxes(c: Config, s: St, status: string, eco: bool, now: int)
    requires status != "" && !Contains(status, "OFF")
    requires HasToken(Split(status, ' '), TokOL) && Calm(c, Split(status, ' '))
    ensures ParseStatus(c, s, status, eco, now).sleepval == c.pollfreq
  {
    var alive := IsAlive(s, now);
    ClearingFlags(c, alive, status, eco, OFF);
    WordsRelax(c, ClearMissing(c, alive, status, eco), Split(status, ' '), now);
  }

  /** A status without any of these words leaves what the clearing did. */
  lemma {:induction false} WordsKeepInterval(c: Config, s: St, words: seq<string>, now: int)
    requires Calm(c, words) && !HasToken(words, TokOL)
    ensures HandleWords(c, s, words, now).sleepval == s.sleepval
    decreases |words|
  {
    if words != [] {
      var next := HandleToken(c, s, Classify(words[0]), now);
      TokenInterval(c, s, Classify(words[0]), now);
      WordsKeepInterval(c, next.(u := UpdateCritTimer(next.u, now)), words[1..], now);
    }
  }

  /** The flags whose end relaxes the interval. */
  const ENDING := {CAL, OFF, BYPASS, ALARM, OVER, TRIM, BOOST}

  lemma ClearedInterval(c: Config, s: St, f: Flag)
    requires f in ENDING
    ensures Cleared(c, s, f).sleepval == if f in s.u.status then c.pollfreq else s.sleepval
    ensures forall g | g != f :: g in Cleared(c, s, f).u.status <==> g in s.u.status
  {
    assert f in RELAXED_MASK;
  }

  lemma {:induction false} ClearAllInterval(c: Config, s: St, order: seq<Flag>, status: string, f: Flag)
    requires f in ENDING && forall i | 0 <= i < |order| :: order[i] in CLEARED && order[i] in ENDING
    requires s.sleepval == c.pollfreq || (f in order && f in s.u.status && !Contains(status, NameOf(f)))
    ensures ClearAll(c, s, order, status).sleepval == c.pollfreq
    decreases |order|
  {
    if order != [] {
      ClearedInterval(c, s, order[0]);
      HeadTail(order);
      ClearAllInterval(c, ClearedUnlessNamed(c, s, order[0], status), order[1..], status, f);
    }
  }

  lemma EndingsInOrder(f: Flag)
    requires f in ENDING
    ensures f in CLEAR_ORDER && forall i | 0 <= i < |CLEAR_ORDER| :: CLEAR_ORDER[i] in ENDING
  {
    ClearOrderIs(f);
  }

  lemma EcoInterval(c: Config, s: St, status: string, eco: bool)
    requires s.sleepval == c.pollfreq
    ensures UpdateEco(c, s, status, eco).sleepval == c.pollfreq
  {
  }

  /** Main result on the end of a trouble: a status that no longer names one the device was in, and
      none that shortens the interval, leaves POLLFREQ. */
  lemma EndRelaxes(c: Config, s: St, status: string, eco: bool, f: Flag, now: int)
    requires status != "" && f in ENDING && f in s.u.status && !Contains(status, NameOf(f))
    requires Calm(c, Split(status, ' ')) && !HasToken(Split(status, ' '), TokOL)
    ensures ParseStatus(c, s, status, eco, now).sleepval == c.pollfreq
  {
    var alive := IsAlive(s, now);
    var s0 := alive.(u := ClearedSilently(alive.u, status));
    SilentFlags(alive.u, status, f);
    EndingsInOrder(f);
    ClearAllInterval(c, s0, CLEAR_ORDER, status, f);
    EcoInterval(c, ClearAll(c, s0, CLEAR_ORDER, status), status, eco);
    WordsKeepInterval(c, ClearMissing(c, alive, status, eco), Split(status, ' '), now);
  }

  /** No evaluation begins or ends a delay for a device that is told to shut down, off for too long,
      or calibrating on a low battery. */
  lemma NoDelayThen(c: Config, s: St, now: int)
    requires FSD in s.u.status || OffTooLong(c, s.u) || (OnLowBattery(s.u) && CAL in s.u.status)
    ensures Evaluated(c, s, now) == s
  {
  }

  /** When the delay ends because the device is no longer on a low battery, the interval is that of
      its power state again. */
  lemma IntervalOnExit(c: Config, s: St, now: int)
    requires !OnLowBattery(s.u) && s.u.commstate != 0 && FSD !in s.u.status && OFF !in s.u.status && s.u.oblbsince > 0
    ensures var r := Evaluated(c, s, now);
      && r.u == s.u.(oblbsince := 0)
      && r.sleepval == if ONBATT in s.u.status then c.pollfreqalert else c.pollfreq
  {
  }

  // ----- the verdict -----

  /** What one evaluation sees: its time, and whether the device is on a low battery. */
  datatype Sample = Sample(t: int, oblb: bool)

  function SampleAt(c: Config, u: Ups, now: int): Sample
  {
    Sample(now, OnLowBattery(Promoted(c, u, now)))
  }

  /** The evaluations of a run, in order. */
  function Samples(s: St, es: seq<Timed>): seq<Sample>
    decreases |es|
  {
    if es == [] then []
    else
      var here := if es[0].ev.Recalc? then [SampleAt(es[0].c, s.u, es[0].now)] else [];
      here + Samples(Step(s, es[0]), es[1..])
  }

  /** A primary's device that communicates and is neither shutting down, off nor
      calibrating: nothing but the delay decides. */
  predicate Quiet(u: Ups)
  {
    PRIMARY in u.status && u.commstate != 0 && {FSD, OFF, CAL} !! u.status
  }

  /** Quiet at every evaluation, all of them under one configuration. */
  predicate QuietRun(s: St, es: seq<Timed>, c: Config)
    decreases |es|
  {
    es == [] ||
    (es[0].c == c && es[0].now > 0 && (es[0].ev.Recalc? ==> Quiet(s.u)) && QuietRun(Step(s, es[0]), es[1..], c))
  }

  /** When the current stretch of OB+LB evaluations began, given when the one before them
      did; 0 outside one. */
  function Since(from: int, samples: seq<Sample>): int
    decreases |samples|
  {
    if samples == [] then from
    else Since(if !samples[0].oblb then 0 else if from > 0 then from else samples[0].t, samples[1..])
  }

  lemma StepKeepsDelay(s: St, e: Timed)
    requires !e.ev.Recalc?
    ensures Step(s, e).u.oblbsince == s.u.oblbsince
  {
    match e.ev
    case Polled(status, eco) =>
      if status != "" {
        PollKeeps(e.c, s, status, eco, e.now);
        assert KeptOf(Step(s, e).u).oblbsince == KeptOf(s.u).oblbsince;
      }
    case _ =>
  }

  lemma EvaluationMovesDelay(c: Config, s: St, now: int)
    requires Quiet(s.u) && c.oblbduration > 0 && now > 0 && s.u.oblbsince >= 0
    ensures Recalculated(c, s, now).u.oblbsince == Since(s.u.oblbsince, [SampleAt(c, s.u, now)])
  {
    var u := Promoted(c, s.u, now);
    assert {FSD, OFF, CAL} !! u.status;
  }

  lemma {:induction false} SinceAppend(from: int, a: seq<Sample>, b: seq<Sample>)
    ensures Since(from, a + b) == Since(Since(from, a), b)
    decreases |a|
  {
    if a == [] {
      assert a + b == b;
    } else {
      assert (a + b)[1..] == a[1..] + b;
      SinceAppend(if !a[0].oblb then 0 else if from > 0 then from else a[0].t, a[1..], b);
    }
  }

  lemma {:induction false} DelayFollowsSamples(s: St, es: seq<Timed>, c: Config)
    requires QuietRun(s, es, c) && c.oblbduration > 0 && s.u.oblbsince >= 0
    ensures Run(s, es).u.oblbsince == Since(s.u.oblbsince, Samples(s, es))
    decreases |es|
  {
    if es != [] {
      var next := Step(s, es[0]);
      if es[0].ev.Recalc? {
        EvaluationMovesDelay(c, s, es[0].now);
        SinceAppend(s.u.oblbsince, [SampleAt(c, s.u, es[0].now)], Samples(next, es[1..]));
        assert [SampleAt(c, s.u, es[0].now)][1..] == [];
      } else {
        StepKeepsDelay(s, es[0]);
        assert [] + Samples(next, es[1..]) == Samples(next, es[1..]);
      }
      DelayFollowsSamples(next, es[1..], c);
    }
  }

  predicate Ordered(samples: seq<Sample>)
  {
    && (forall i | 0 <= i < |samples| :: samples[i].t > 0)
    && (forall i, j | 0 <= i < j < |samples| :: samples[i].t <= samples[j].t)
  }

  lemma {:induction false} SamplesOrdered(s: St, es: seq<Timed>, from: int)
    requires Clocked(from, es) && from > 0
    ensures Ordered(Samples(s, es))
    ensures forall i | 0 <= i < |Samples(s, es)| :: from <= Samples(s, es)[i].t <= LastTime(from, es)
    ensures from <= LastTime(from, es)
    decreases |es|
  {
    if es != [] {
      SamplesOrdered(Step(s, es[0]), es[1..], es[0].now);
      assert LastTime(from, es) == LastTime(es[0].now, es[1..]);
    }
  }

  /** OB+LB at every evaluation from the `k`-th on. */
  predicate Stretch(samples: seq<Sample>, k: nat)
    requires k <= |samples|
  {
    forall j | k <= j < |samples| :: samples[j].oblb
  }

  lemma SinceLast(samples: seq<Sample>)
    requires samples != []
    ensures var front, last := samples[..|samples| - 1], samples[|samples| - 1];
      Since(0, samples) == if !last.oblb then 0 else if Since(0, front) > 0 then Since(0, front) else last.t
  {
    var front, last := samples[..|samples| - 1], samples[|samples| - 1];
    assert samples == front + [last];
    SinceAppend(0, front, [last]);
    assert [last][1..] == [];
  }

  lemma {:induction false} SinceWithin(samples: seq<Sample>)
    requires Ordered(samples) && Since(0, samples) != 0
    ensures exists k | 0 <= k < |samples| :: Stretch(samples, k) && samples[k].t == Since(0, samples)
    decreases |samples|
  {
    var n := |samples| - 1;
    var front := samples[..n];
    SinceLast(samples);
    if Since(0, front) > 0 {
      SinceWithin(front);
      var k :| 0 <= k < n && Stretch(front, k) && front[k].t == Since(0, front);
      assert forall j | 0 <= j < n :: front[j] == samples[j];
      assert Stretch(samples, k) && samples[k].t == Since(0, samples);
    } else {
      assert Stretch(samples, n) && samples[n].t == Since(0, samples);
    }
  }

  lemma {:induction false} SinceBefore(samples: seq<Sample>, k: nat)
    requires Ordered(samples) && k < |samples| && Stretch(samples, k)
    ensures 0 < Since(0, samples) <= samples[k].t
    decreases |samples|
  {
    var n := |samples| - 1;
    var front := samples[..n];
    SinceLast(samples);
    assert samples[n].oblb;
    assert forall j | 0 <= j < n :: front[j] == samples[j];
    if k < n {
      SinceBefore(front, k);
    } else if Since(0, front) > 0 {
      SinceWithin(front);
      var j :| 0 <= j < n && Stretch(front, j) && front[j].t == Since(0, front);
      assert samples[j].t <= samples[n].t;
    }
  }

  /** The stretch began at the earliest evaluation all later ones of which agree. */
  lemma SinceIsEarliest(samples: seq<Sample>, t: int)
    requires Ordered(samples)
    ensures 0 < Since(0, samples) <= t
      <==> exists k | 0 <= k < |samples| :: Stretch(samples, k) && samples[k].t <= t
  {
    if 0 < Since(0, samples) <= t {
      SinceWithin(samples);
    }
    if k :| 0 <= k < |samples| && Stretch(samples, k) && samples[k].t <= t {
      SinceBefore(samples, k);
    }
  }

  /** With nothing but the delay deciding, the verdict depends on when OB+LB began. */
  lemma QuietVerdict(c: Config, u: Ups, now: int)
    requires Quiet(u) && c.oblbduration > 0 && now > 0
    ensures JudgedCritical(c, u, now)
      <==> SampleAt(c, u, now).oblb && 0 < u.oblbsince <= now - c.oblbduration
  {
    var v := Promoted(c, u, now);
    assert {FSD, OFF, CAL} !! v.status && PRIMARY in v.status && v.oblbsince == u.oblbsince;
    assert FSD !in v.status && OFF !in v.status && CAL !in v.status;
  }

  /** Main result: the verdict at time `now` is critical exactly when OB+LB holds and has
      held at every evaluation since one that lies OBLBDURATION back. */
  lemma {:induction false} OblbVerdictExact(s: St, es: seq<Timed>, c: Config, from: int, now: int)
    requires QuietRun(s, es, c) && c.oblbduration > 0 && s.u.oblbsince == 0
    requires Clocked(from, es) && 0 < from && LastTime(from, es) <= now && Quiet(Run(s, es).u)
    ensures JudgedCritical(c, Run(s, es).u, now)
      <==> SampleAt(c, Run(s, es).u, now).oblb &&
           exists k | 0 <= k < |Samples(s, es)| ::
             Stretch(Samples(s, es), k) && now - Samples(s, es)[k].t >= c.oblbduration
  {
    var u, samples := Run(s, es).u, Samples(s, es);
    DelayFollowsSamples(s, es, c);
    SamplesOrdered(s, es, from);
    SinceIsEarliest(samples, now - c.oblbduration);
    QuietVerdict(c, u, now);
  }
}
