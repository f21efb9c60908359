/** Whether upsmon is connected to a device, and logged in: read off the events of its run. */
module UpsLink {
  import opened Text
  import opened UpsState
  import opened UpsRuns
  import opened Stretches
  import UpsComm

  /** A poll is lost with its connection, a line makes upsmon reconnect, or it wakes up. */
  predicate Cuts(u: Ups, ev: Event)
  {
    || (ev.Failing? && ev.lost)
    || (ev.Reloading? && UpsComm.Reconnects(u, ev.line))
    || ev.Waking?
  }

  /** What an event says of the connection: an attempt makes or ends it. */
  function LinkSaid(u: Ups, e: Timed): Said
  {
    Said(e.ev.Connecting? && (e.ev.how.Up? || e.ev.how.NotAuthorised?),
         Cuts(u, e.ev) || e.ev.Connecting?, e.ev.Waking?, e.now, 0)
  }

  /** And of the login: an attempt that gets as far makes it, and only one that the configuration
      refuses ends it. */
  function LoginSaid(u: Ups, e: Timed): Said
  {
    Said(e.ev.Connecting? && (e.ev.how.Up? || (e.ev.how.NotAuthorised? && e.ev.how.loggedIn)),
         Cuts(u, e.ev) || (e.ev.Connecting? && e.ev.how.Misconfigured?), e.ev.Waking?, e.now, 0)
  }

  function LinkSays(s: St, es: seq<Timed>): (ss: seq<Said>)
    ensures |ss| == |es|
  {
    seq(|es|, i requires 0 <= i < |es| => LinkSaid(Run(s, es[..i]).u, es[i]))
  }

  function LoginSays(s: St, es: seq<Timed>): (ss: seq<Said>)
    ensures |ss| == |es|
  {
    seq(|es|, i requires 0 <= i < |es| => LoginSaid(Run(s, es[..i]).u, es[i]))
  }

  lemma ReloadLinks(u: Ups, l: Line, f: Flag)
    requires f in {LOGIN, CLICONNECTED}
    ensures f in Redefined(u, l).status <==> f in u.status && !UpsComm.Reconnects(u, l)
  {
  }

  lemma StatusLinks(s: St, e: Timed, f: Flag)
    requires Answers(e.ev) && f in {LOGIN, CLICONNECTED}
    ensures f in Step(s, e).u.status <==> f in s.u.status
  {
    PollKeeps(e.c, s, e.ev.status, e.ev.eco, e.now);
    assert f in KeptOf(Step(s, e).u).roles <==> f in KeptOf(s.u).roles;
  }

  lemma LinkStep(s: St, e: Timed)
    ensures var said := LinkSaid(s.u, e);
      CLICONNECTED in Step(s, e).u.status <==> said.named || (CLICONNECTED in s.u.status && !said.ended)
    ensures var said := LoginSaid(s.u, e);
      LOGIN in Step(s, e).u.status <==> said.named || (LOGIN in s.u.status && !said.ended)
  {
    if Answers(e.ev) {
      StatusLinks(s, e, LOGIN);
      StatusLinks(s, e, CLICONNECTED);
    } else {
      OtherLinks(s, e);
    }
  }

  lemma OtherLinks(s: St, e: Timed)
    requires !Answers(e.ev)
    ensures var said := LinkSaid(s.u, e);
      CLICONNECTED in Step(s, e).u.status <==> said.named || (CLICONNECTED in s.u.status && !said.ended)
    ensures var said := LoginSaid(s.u, e);
      LOGIN in Step(s, e).u.status <==> said.named || (LOGIN in s.u.status && !said.ended)
  {
    match e.ev
    case Reloading(forget, line) =>
      var u := if forget then ThrottleForgotten(s.u) else s.u;
      ReloadLinks(u, line, LOGIN);
      ReloadLinks(u, line, CLICONNECTED);
    case _ =>
  }

  lemma {:induction false} LinksAre(s: St, es: seq<Timed>, n: nat)
    requires s.u.status !! {LOGIN, CLICONNECTED} && n <= |es|
    ensures var u := Run(s, es[..n]).u;
      && (CLICONNECTED in u.status <==> IsLeft(LinkSays(s, es), n))
      && (LOGIN in u.status <==> IsLeft(LoginSays(s, es), n))
    decreases n
  {
    if n > 0 {
      LinksAre(s, es, n - 1);
      PrefixStep(s, es, n - 1);
      LinkStep(Run(s, es[..n - 1]), es[n - 1]);
      LeftStep(LinkSays(s, es), n - 1);
      LeftStep(LoginSays(s, es), n - 1);
    } else {
      assert es[..0] == [];
      assert CLICONNECTED !in s.u.status && LOGIN !in s.u.status;
    }
  }

  /** Main result: over any run upsmon counts as connected to a device exactly if some attempt got
      through and no later one, no lost poll, no line that makes it reconnect and no wake-up came
      after it; and as logged in likewise, but that a later attempt which does not get through
      leaves the login, unless the configuration refuses it. */
  lemma ConnectionExact(s: St, es: seq<Timed>)
    requires IsNew(s.u)
    ensures var u := Run(s, es).u;
      && (CLICONNECTED in u.status <==> IsLeft(LinkSays(s, es), |es|))
      && (LOGIN in u.status <==> IsLeft(LoginSays(s, es), |es|))
  {
    assert es[..|es|] == es;
    LinksAre(s, es, |es|);
  }
}
