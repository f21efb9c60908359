/** Rereading the MONITOR lines (`reload_conf`, `addups`, `redefine_ups`, `delete_ups`) as a
    transformation of the list of devices. */
module Reload {
  import opened Text
  import opened UpsState

  const UINT_RANGE := 0x1_0000_0000

  /** A MONITOR line as written. */
  datatype RawLine = RawLine(sys: string, pvs: string, un: string, pw: string, role: string)

  function RoleOf(word: string): Role
  {
    if SameNoCase(word, "primary") || SameNoCase(word, "master") then Primary
    else if SameNoCase(word, "secondary") || SameNoCase(word, "slave") then Secondary
    else OtherRole
  }

  /** A line whose power value does not fit is ignored. */
  function ParseLine(raw: RawLine): Option<Line>
  {
    var pv := Strtol(raw.pvs);
    if pv < 0 || pv >= UINT_RANGE then None
    else Some(Line(raw.sys, pv, raw.un, raw.pw, RoleOf(raw.role)))
  }

  function ParseLines(raws: seq<RawLine>): seq<Line>
  {
    if raws == [] then []
    else
      match ParseLine(raws[0])
      case None => ParseLines(raws[1..])
      case Some(l) => [l] + ParseLines(raws[1..])
  }

  /** The devices and the sum of power values, which is an unsigned int. */
  datatype Table = Table(upses: seq<Ups>, totalpv: nat)

  /** Position of the device named, or the length of the list. */
  function FindUps(us: seq<Ups>, sys: string): (k: nat)
    ensures k <= |us|
    ensures k < |us| ==> us[k].sys == sys
  {
    if us == [] || us[0].sys == sys then 0 else 1 + FindUps(us[1..], sys)
  }

  function Added(total: nat, pv: nat): nat
  {
    (total + pv) % UINT_RANGE
  }

  function NewFrom(l: Line): Ups
  {
    NewUps(l.sys, l.pv, l.un, l.pw, l.role == Primary)
  }

  /** One line while reloading: a known device is redefined, a new one goes to the end. */
  function AddLine(t: Table, l: Line): Table
  {
    var k := FindUps(t.upses, l.sys);
    if k < |t.upses| then Table(t.upses[k := Redefined(t.upses[k], l)], Added(t.totalpv, l.pv))
    else Table(t.upses + [NewFrom(l)], Added(t.totalpv, l.pv))
  }

  function AddLines(t: Table, lines: seq<Line>): Table
    decreases |lines|
  {
    if lines == [] then t else AddLines(AddLine(t, lines[0]), lines[1..])
  }

  function Unmarked(us: seq<Ups>, forget: bool): seq<Ups>
  {
    if us == [] then []
    else
      var u := us[0].(retain := false);
      [if forget then ThrottleForgotten(u) else u] + Unmarked(us[1..], forget)
  }

  function Swept(us: seq<Ups>): seq<Ups>
  {
    if us == [] then []
    else if us[0].retain then [us[0]] + Swept(us[1..])
    else Swept(us[1..])
  }

  /** `forget`: the poll-failure throttle was on, and is reset before the file is read. */
  function Reloaded(us: seq<Ups>, lines: seq<Line>, forget: bool): Table
  {
    var loaded := AddLines(Table(Unmarked(us, forget), 0), lines);
    Table(Swept(loaded.upses), loaded.totalpv)
  }

  // ----- what it should be -----

  function FindDevice(us: seq<Ups>, sys: string): Option<Ups>
  {
    var k := FindUps(us, sys);
    if k < |us| then Some(us[k]) else None
  }

  predicate Named(lines: seq<Line>, sys: string)
  {
    exists i | 0 <= i < |lines| :: lines[i].sys == sys
  }

  /** One device as the lines of its name leave it, one after another: the first makes it if
      it is not there, the others redefine it. */
  function Applied(o: Option<Ups>, lines: seq<Line>, sys: string): (r: Option<Ups>)
    ensures o.Some? ==> r.Some?
    decreases |lines|
  {
    if lines == [] then o
    else if lines[0].sys != sys then Applied(o, lines[1..], sys)
    else
      Applied(Some(match o case None => NewFrom(lines[0]) case Some(u) => Redefined(u, lines[0])), lines[1..], sys)
  }

  function Settled(u: Ups, lines: seq<Line>): Ups
  {
    Applied(Some(u), lines, u.sys).value
  }

  function AllSettled(us: seq<Ups>, lines: seq<Line>): seq<Ups>
  {
    if us == [] then [] else [Settled(us[0], lines)] + AllSettled(us[1..], lines)
  }

  /** The devices that stay, in their order, each as its lines leave it. */
  function Survivors(us: seq<Ups>, lines: seq<Line>): seq<Ups>
  {
    if us == [] then []
    else if Named(lines, us[0].sys) then [Settled(us[0], lines)] + Survivors(us[1..], lines)
    else Survivors(us[1..], lines)
  }

  predicate Names(us: seq<Ups>, sys: string)
  {
    exists i | 0 <= i < |us| :: us[i].sys == sys
  }

  /** The devices that are new, in the order of their first lines. */
  function Newcomers(us: seq<Ups>, lines: seq<Line>): seq<Ups>
    decreases |lines|
  {
    if lines == [] then []
    else if Names(us, lines[0].sys) then Newcomers(us, lines[1..])
    else
      var u := NewFrom(lines[0]);
      [Settled(u, lines[1..])] + Newcomers(us + [u], lines[1..])
  }

  function SumPv(us: seq<Ups>): nat
  {
    if us == [] then 0 else us[0].pv + SumPv(us[1..])
  }

  /** The power of the lines whose name a later line repeats. */
  function Overridden(lines: seq<Line>): nat
  {
    if lines == [] then 0
    else (if Named(lines[1..], lines[0].sys) then lines[0].pv else 0) + Overridden(lines[1..])
  }

  predicate DistinctNames(us: seq<Ups>)
  {
    forall i, j | 0 <= i < j < |us| :: us[i].sys != us[j].sys
  }

  // ----- names -----

  lemma NamedStep(lines: seq<Line>, sys: string)
    requires lines != []
    ensures Named(lines, sys) <==> lines[0].sys == sys || Named(lines[1..], sys)
  {
    if i :| 0 <= i < |lines| && lines[i].sys == sys {
      if i > 0 { assert lines[1..][i - 1].sys == sys; }
    }
    if i :| 0 <= i < |lines[1..]| && lines[1..][i].sys == sys { assert lines[i + 1].sys == sys; }
  }

  lemma NamesStep(us: seq<Ups>, sys: string)
    requires us != []
    ensures Names(us, sys) <==> us[0].sys == sys || Names(us[1..], sys)
  {
    if i :| 0 <= i < |us| && us[i].sys == sys {
      if i > 0 { assert us[1..][i - 1].sys == sys; }
    }
    if i :| 0 <= i < |us[1..]| && us[1..][i].sys == sys { assert us[i + 1].sys == sys; }
  }

  lemma {:induction false} FindUpsNames(us: seq<Ups>, sys: string)
    ensures FindUps(us, sys) < |us| <==> Names(us, sys)
    decreases |us|
  {
    if us != [] {
      FindUpsNames(us[1..], sys);
      if us[0].sys != sys && Names(us, sys) {
        var i :| 0 <= i < |us| && us[i].sys == sys;
        assert us[1..][i - 1].sys == sys;
      }
    }
  }

  lemma RedefinedName(u: Ups, l: Line)
    ensures Redefined(u, l).sys == u.sys && Redefined(u, l).retain && Redefined(u, l).pv == l.pv
  {
  }

  lemma SameNames(us: seq<Ups>, vs: seq<Ups>)
    requires |us| == |vs| && forall i | 0 <= i < |us| :: us[i].sys == vs[i].sys
    ensures forall sys :: Names(us, sys) <==> Names(vs, sys)
  {
    forall sys
      ensures Names(us, sys) <==> Names(vs, sys)
    {
      if i :| 0 <= i < |us| && us[i].sys == sys { assert vs[i].sys == sys; }
      if i :| 0 <= i < |vs| && vs[i].sys == sys { assert us[i].sys == sys; }
    }
  }

  lemma ConcatNames(a: seq<Ups>, b: seq<Ups>, sys: string)
    ensures Names(a + b, sys) <==> Names(a, sys) || Names(b, sys)
  {
    if i :| 0 <= i < |a| && a[i].sys == sys { assert (a + b)[i].sys == sys; }
    if i :| 0 <= i < |b| && b[i].sys == sys { assert (a + b)[|a| + i].sys == sys; }
    if i :| 0 <= i < |a + b| && (a + b)[i].sys == sys {
      assert if i < |a| then a[i].sys == sys else b[i - |a|].sys == sys;
    }
  }

  lemma ConsDistinct(us: seq<Ups>)
    requires us != [] && DistinctNames(us[1..]) && !Names(us[1..], us[0].sys)
    ensures DistinctNames(us)
  {
    forall i, j | 0 <= i < j < |us|
      ensures us[i].sys != us[j].sys
    {
      assert us[1..][j - 1] == us[j];
      if i > 0 { assert us[1..][i - 1] == us[i]; }
    }
  }

  lemma FindUpsUnique(us: seq<Ups>, k: nat)
    requires DistinctNames(us) && k < |us|
    ensures FindUps(us, us[k].sys) == k
  {
    FindUpsNames(us, us[k].sys);
    assert Names(us, us[k].sys);
  }

  lemma {:induction false} AppliedKeeps(u: Ups, lines: seq<Line>)
    ensures Settled(u, lines).sys == u.sys
    ensures Named(lines, u.sys) ==> Settled(u, lines).retain
    ensures !Named(lines, u.sys) ==> Settled(u, lines) == u
    ensures u.retain ==> Settled(u, lines).retain
    decreases |lines|
  {
    if lines != [] {
      NamedStep(lines, u.sys);
      if lines[0].sys == u.sys {
        RedefinedName(u, lines[0]);
        AppliedKeeps(Redefined(u, lines[0]), lines[1..]);
      } else {
        AppliedKeeps(u, lines[1..]);
      }
    }
  }

  // ----- the list while the lines are read -----

  lemma {:induction false} AllSettledAt(us: seq<Ups>, lines: seq<Line>)
    ensures |AllSettled(us, lines)| == |us|
    ensures forall i | 0 <= i < |us| :: AllSettled(us, lines)[i] == Settled(us[i], lines)
    decreases |us|
  {
    if us != [] {
      AllSettledAt(us[1..], lines);
    }
  }

  /** The first line changes the one device of its name, in place. */
  lemma FirstSettles(us: seq<Ups>, lines: seq<Line>, k: nat)
    requires DistinctNames(us) && lines != [] && k < |us| && us[k].sys == lines[0].sys
    ensures AllSettled(us[k := Redefined(us[k], lines[0])], lines[1..]) == AllSettled(us, lines)
  {
    var vs := us[k := Redefined(us[k], lines[0])];
    RedefinedName(us[k], lines[0]);
    AllSettledAt(us, lines);
    AllSettledAt(vs, lines[1..]);
    forall i | 0 <= i < |us|
      ensures Settled(vs[i], lines[1..]) == Settled(us[i], lines)
    {
      assert i != k ==> us[i].sys != us[k].sys;
    }
  }

  lemma {:induction false} OthersSettle(us: seq<Ups>, lines: seq<Line>)
    requires lines != [] && forall i | 0 <= i < |us| :: us[i].sys != lines[0].sys
    ensures AllSettled(us, lines[1..]) == AllSettled(us, lines)
    decreases |us|
  {
    if us != [] {
      OthersSettle(us[1..], lines);
    }
  }

  lemma {:induction false} SettledAppend(us: seq<Ups>, u: Ups, lines: seq<Line>)
    ensures AllSettled(us + [u], lines) == AllSettled(us, lines) + [Settled(u, lines)]
    decreases |us|
  {
    if us == [] {
      assert us + [u] == [u] && [u][1..] == [];
    } else {
      assert (us + [u])[1..] == us[1..] + [u];
      SettledAppend(us[1..], u, lines);
    }
  }

  lemma {:induction false} NewcomersOf(us: seq<Ups>, vs: seq<Ups>, lines: seq<Line>)
    requires forall sys :: Names(us, sys) <==> Names(vs, sys)
    ensures Newcomers(us, lines) == Newcomers(vs, lines)
    decreases |lines|
  {
    if lines != [] {
      if Names(us, lines[0].sys) {
        NewcomersOf(us, vs, lines[1..]);
      } else {
        var u := NewFrom(lines[0]);
        forall sys
          ensures Names(us + [u], sys) <==> Names(vs + [u], sys)
        {
          ConcatNames(us, [u], sys);
          ConcatNames(vs, [u], sys);
        }
        NewcomersOf(us + [u], vs + [u], lines[1..]);
      }
    }
  }

  lemma AppendedDistinct(us: seq<Ups>, u: Ups)
    requires DistinctNames(us) && !Names(us, u.sys)
    ensures DistinctNames(us + [u])
  {
  }

  lemma ReplacedDistinct(us: seq<Ups>, k: nat, v: Ups)
    requires DistinctNames(us) && k < |us| && v.sys == us[k].sys
    ensures DistinctNames(us[k := v])
  {
  }

  /** Going through any lines one by one changes the known devices where they are and appends
      the others. */
  lemma {:induction false} LinesUpdate(t: Table, lines: seq<Line>)
    requires DistinctNames(t.upses)
    ensures AddLines(t, lines).upses == AllSettled(t.upses, lines) + Newcomers(t.upses, lines)
    decreases |lines|
  {
    var us := t.upses;
    if lines == [] {
      AllSettledAt(us, lines);
      assert AllSettled(us, lines) == us && us + [] == us;
    } else {
      var l, rest, next := lines[0], lines[1..], AddLine(t, lines[0]);
      var k := FindUps(us, l.sys);
      FindUpsNames(us, l.sys);
      if k < |us| {
        RedefinedName(us[k], l);
        ReplacedDistinct(us, k, Redefined(us[k], l));
        LinesUpdate(next, rest);
        FirstSettles(us, lines, k);
        SameNames(us, next.upses);
        NewcomersOf(next.upses, us, rest);
      } else {
        var u := NewFrom(l);
        AppendedDistinct(us, u);
        LinesUpdate(next, rest);
        SettledAppend(us, u, rest);
        OthersSettle(us, lines);
        Assoc(AllSettled(us, rest), [Settled(u, rest)], Newcomers(us + [u], rest));
      }
    }
  }

  // ----- the sweep -----

  lemma {:induction false} SweptConcat(a: seq<Ups>, b: seq<Ups>)
    ensures Swept(a + b) == Swept(a) + Swept(b)
    decreases |a|
  {
    if a == [] {
      assert a + b == b;
    } else {
      assert (a + b)[1..] == a[1..] + b;
      SweptConcat(a[1..], b);
      if a[0].retain {
        Assoc([a[0]], Swept(a[1..]), Swept(b));
      }
    }
  }

  lemma {:induction false} SweptSettled(us: seq<Ups>, lines: seq<Line>)
    requires forall i | 0 <= i < |us| :: !us[i].retain
    ensures Swept(AllSettled(us, lines)) == Survivors(us, lines)
    decreases |us|
  {
    if us != [] {
      SweptSettled(us[1..], lines);
      AppliedKeeps(us[0], lines);
      assert ([Settled(us[0], lines)] + AllSettled(us[1..], lines))[1..] == AllSettled(us[1..], lines);
    }
  }

  lemma {:induction false} SweptNewcomers(us: seq<Ups>, lines: seq<Line>)
    ensures Swept(Newcomers(us, lines)) == Newcomers(us, lines)
    decreases |lines|
  {
    if lines != [] {
      if Names(us, lines[0].sys) {
        SweptNewcomers(us, lines[1..]);
      } else {
        var u := NewFrom(lines[0]);
        SweptNewcomers(us + [u], lines[1..]);
        AppliedKeeps(u, lines[1..]);
        var rest := Newcomers(us + [u], lines[1..]);
        assert ([Settled(u, lines[1..])] + rest)[1..] == rest;
      }
    }
  }

  lemma {:induction false} UnmarkedFacts(us: seq<Ups>, forget: bool)
    ensures |Unmarked(us, forget)| == |us|
    ensures forall i | 0 <= i < |us| ::
      !Unmarked(us, forget)[i].retain && Unmarked(us, forget)[i].sys == us[i].sys
    decreases |us|
  {
    if us != [] {
      UnmarkedFacts(us[1..], forget);
    }
  }

  /** Main result: for any file, reloading leaves the devices it names in their old order, each
      as its lines leave it, then the new ones in the order of their first lines. */
  lemma ReloadIsMarkAndSweep(us: seq<Ups>, lines: seq<Line>, forget: bool)
    requires DistinctNames(us)
    ensures Reloaded(us, lines, forget).upses == Survivors(Unmarked(us, forget), lines) + Newcomers(us, lines)
  {
    var marked := Unmarked(us, forget);
    UnmarkedFacts(us, forget);
    LinesUpdate(Table(marked, 0), lines);
    SameNames(us, marked);
    NewcomersOf(us, marked, lines);
    SweptConcat(AllSettled(marked, lines), Newcomers(us, lines));
    SweptSettled(marked, lines);
    SweptNewcomers(us, lines);
  }

  // ----- the sum -----

  /** The power of the devices marked as found in the file so far. */
  function FoundPv(us: seq<Ups>): nat
  {
    if us == [] then 0 else (if us[0].retain then us[0].pv else 0) + FoundPv(us[1..])
  }

  lemma {:induction false} FoundPvSwept(us: seq<Ups>)
    ensures SumPv(Swept(us)) == FoundPv(us)
    decreases |us|
  {
    if us != [] {
      FoundPvSwept(us[1..]);
      if us[0].retain {
        assert ([us[0]] + Swept(us[1..]))[1..] == Swept(us[1..]);
      }
    }
  }

  lemma AddedSum(sum: nat, pv: nat)
    ensures Added(sum % UINT_RANGE, pv) == (sum + pv) % UINT_RANGE
  {
  }

  /** The power of the devices found that no line is still to change. */
  function Counted(us: seq<Ups>, lines: seq<Line>): nat
  {
    if us == [] then 0
    else (if us[0].retain && !Named(lines, us[0].sys) then us[0].pv else 0) + Counted(us[1..], lines)
  }

  lemma {:induction false} CountedNone(us: seq<Ups>)
    ensures Counted(us, []) == FoundPv(us)
    decreases |us|
  {
    if us != [] {
      CountedNone(us[1..]);
    }
  }

  lemma {:induction false} CountedMarked(us: seq<Ups>, lines: seq<Line>)
    requires forall i | 0 <= i < |us| :: !us[i].retain
    ensures Counted(us, lines) == 0
    decreases |us|
  {
    if us != [] {
      CountedMarked(us[1..], lines);
    }
  }

  lemma {:induction false} CountedOthers(us: seq<Ups>, lines: seq<Line>)
    requires lines != [] && forall i | 0 <= i < |us| :: us[i].sys != lines[0].sys
    ensures Counted(us, lines[1..]) == Counted(us, lines)
    decreases |us|
  {
    if us != [] {
      NamedStep(lines, us[0].sys);
      CountedOthers(us[1..], lines);
    }
  }

  lemma {:induction false} CountedReplaced(us: seq<Ups>, lines: seq<Line>, k: nat, v: Ups)
    requires DistinctNames(us) && lines != [] && k < |us| && us[k].sys == lines[0].sys == v.sys && v.retain
    ensures Counted(us[k := v], lines[1..])
      == Counted(us, lines) + if Named(lines[1..], v.sys) then 0 else v.pv
    decreases |us|
  {
    NamedStep(lines, us[0].sys);
    if k == 0 {
      assert us[0 := v][1..] == us[1..];
      CountedOthers(us[1..], lines);
    } else {
      assert us[k := v][1..] == us[1..][k - 1 := v];
      assert us[0].sys != us[k].sys;
      CountedReplaced(us[1..], lines, k - 1, v);
    }
  }

  lemma {:induction false} CountedAppended(us: seq<Ups>, lines: seq<Line>, v: Ups)
    requires v.retain
    ensures Counted(us + [v], lines) == Counted(us, lines) + if Named(lines, v.sys) then 0 else v.pv
    decreases |us|
  {
    if us == [] {
      assert us + [v] == [v] && [v][1..] == [];
    } else {
      assert (us + [v])[1..] == us[1..] + [v];
      CountedAppended(us[1..], lines, v);
    }
  }

  lemma CountedStep(t: Table, lines: seq<Line>)
    requires DistinctNames(t.upses) && lines != []
    ensures var l, rest, next := lines[0], lines[1..], AddLine(t, lines[0]).upses;
      && DistinctNames(next)
      && Counted(next, rest) + (if Named(rest, l.sys) then l.pv else 0) == Counted(t.upses, lines) + l.pv
  {
    var us, l, rest := t.upses, lines[0], lines[1..];
    var k := FindUps(us, l.sys);
    FindUpsNames(us, l.sys);
    if k < |us| {
      RedefinedName(us[k], l);
      CountedReplaced(us, lines, k, Redefined(us[k], l));
      ReplacedDistinct(us, k, Redefined(us[k], l));
    } else {
      CountedAppended(us, rest, NewFrom(l));
      CountedOthers(us, lines);
      AppendedDistinct(us, NewFrom(l));
    }
  }

  lemma AddedTotal(t: Table, l: Line, sum: nat)
    requires t.totalpv == Wrapped(sum)
    ensures AddLine(t, l).totalpv == Wrapped(sum + l.pv)
  {
    AddedSum(sum, l.pv);
  }

  /** The power of all lines, and of those that no later line of their name overrides. */
  function LinePower(lines: seq<Line>): nat
  {
    if lines == [] then 0 else lines[0].pv + LinePower(lines[1..])
  }

  function LastPower(lines: seq<Line>): nat
  {
    if lines == [] then 0
    else (if Named(lines[1..], lines[0].sys) then 0 else lines[0].pv) + LastPower(lines[1..])
  }

  lemma {:induction false} PowerSplits(lines: seq<Line>)
    ensures LinePower(lines) == LastPower(lines) + Overridden(lines)
    decreases |lines|
  {
    if lines != [] {
      PowerSplits(lines[1..]);
    }
  }

  /** The sum counts every line, the devices found have the power of their last lines. */
  lemma {:induction false} LinesTotal(t: Table, lines: seq<Line>, sum: nat)
    requires t.totalpv == Wrapped(sum)
    ensures AddLines(t, lines).totalpv == Wrapped(sum + LinePower(lines))
    decreases |lines|
  {
    if lines != [] {
      AddedTotal(t, lines[0], sum);
      LinesTotal(AddLine(t, lines[0]), lines[1..], sum + lines[0].pv);
    }
  }

  lemma {:induction false} LinesFind(t: Table, lines: seq<Line>)
    requires DistinctNames(t.upses)
    ensures FoundPv(AddLines(t, lines).upses) == Counted(t.upses, lines) + LastPower(lines)
    decreases |lines|
  {
    if lines == [] {
      CountedNone(t.upses);
    } else {
      CountedStep(t, lines);
      LinesFind(AddLine(t, lines[0]), lines[1..]);
    }
  }

  /** As an unsigned int holds it. */
  function Wrapped(n: nat): nat
  {
    n % UINT_RANGE
  }

  lemma StartsAtNothing(us: seq<Ups>, lines: seq<Line>, forget: bool)
    requires DistinctNames(us)
    ensures DistinctNames(Unmarked(us, forget)) && Counted(Unmarked(us, forget), lines) == 0
  {
    UnmarkedFacts(us, forget);
    CountedMarked(Unmarked(us, forget), lines);
  }

  /** The devices have the power of the last line of each name, the sum that of all lines. */
  lemma ReloadedPower(us: seq<Ups>, lines: seq<Line>, forget: bool)
    requires DistinctNames(us)
    ensures var after := Reloaded(us, lines, forget);
      SumPv(after.upses) == LastPower(lines) && after.totalpv == Wrapped(LinePower(lines))
  {
    var start := Table(Unmarked(us, forget), 0);
    StartsAtNothing(us, lines, forget);
    LinesTotal(start, lines, 0);
    LinesFind(start, lines);
    FoundPvSwept(AddLines(start, lines).upses);
  }

  lemma ReloadedTotal(us: seq<Ups>, lines: seq<Line>, forget: bool)
    requires DistinctNames(us)
    ensures var after := Reloaded(us, lines, forget);
      after.totalpv == Wrapped(SumPv(after.upses) + Overridden(lines))
  {
    ReloadedPower(us, lines, forget);
    PowerSplits(lines);
  }

  /** Main result on the sum: `totalpv` is that of the list, as an unsigned int holds it,
      exactly when the lines whose name comes again later carry no power together. */
  lemma TotalIsSumExactly(us: seq<Ups>, lines: seq<Line>, forget: bool)
    requires DistinctNames(us)
    ensures var after := Reloaded(us, lines, forget);
      after.totalpv == SumPv(after.upses) % UINT_RANGE <==> Overridden(lines) % UINT_RANGE == 0
  {
    ReloadedTotal(us, lines, forget);
    SameRemainder(SumPv(Reloaded(us, lines, forget).upses), Overridden(lines));
  }

  lemma SameRemainder(a: nat, b: nat)
    ensures (a + b) % UINT_RANGE == a % UINT_RANGE <==> b % UINT_RANGE == 0
  {
  }

  lemma {:induction false} DistinctLinesOverrideNothing(lines: seq<Line>)
    requires forall i, j | 0 <= i < j < |lines| :: lines[i].sys != lines[j].sys
    ensures Overridden(lines) == 0
    decreases |lines|
  {
    if lines != [] {
      DistinctLinesOverrideNothing(lines[1..]);
    }
  }

  /** In particular where no name comes twice. */
  lemma DistinctFileSumsRight(us: seq<Ups>, lines: seq<Line>, forget: bool)
    requires DistinctNames(us) && forall i, j | 0 <= i < j < |lines| :: lines[i].sys != lines[j].sys
    ensures var after := Reloaded(us, lines, forget); after.totalpv == SumPv(after.upses) % UINT_RANGE
  {
    DistinctLinesOverrideNothing(lines);
    TotalIsSumExactly(us, lines, forget);
  }

  // ----- one device -----

  lemma AddedDevice(t: Table, l: Line, sys: string)
    requires DistinctNames(t.upses)
    ensures DistinctNames(AddLine(t, l).upses)
    ensures FindDevice(AddLine(t, l).upses, sys) == Applied(FindDevice(t.upses, sys), [l], sys)
  {
    var us, k, j := t.upses, FindUps(t.upses, l.sys), FindUps(t.upses, sys);
    var vs := AddLine(t, l).upses;
    FindUpsNames(us, l.sys);
    FindUpsNames(us, sys);
    assert [l][1..] == [];
    if k < |us| {
      RedefinedName(us[k], l);
      ReplacedDistinct(us, k, vs[k]);
    } else {
      AppendedDistinct(us, NewFrom(l));
    }
    if j < |us| {
      FindUpsUnique(us, j);
      FindUpsUnique(vs, j);
    } else if l.sys == sys {
      FindUpsUnique(vs, |us|);
    } else {
      FindUpsNames(vs, sys);
    }
  }

  lemma {:induction false} LinesDevice(t: Table, lines: seq<Line>, sys: string)
    requires DistinctNames(t.upses)
    ensures DistinctNames(AddLines(t, lines).upses)
    ensures FindDevice(AddLines(t, lines).upses, sys) == Applied(FindDevice(t.upses, sys), lines, sys)
    decreases |lines|
  {
    if lines != [] {
      AddedDevice(t, lines[0], sys);
      LinesDevice(AddLine(t, lines[0]), lines[1..], sys);
      assert [lines[0]][1..] == [];
    }
  }

  lemma {:induction false} SweptDevice(us: seq<Ups>, sys: string)
    requires DistinctNames(us)
    ensures DistinctNames(Swept(us)) && forall n :: Names(Swept(us), n) ==> Names(us, n)
    ensures FindDevice(Swept(us), sys)
      == match FindDevice(us, sys) case None => None case Some(u) => if u.retain then Some(u) else None
    decreases |us|
  {
    if us != [] {
      var rest := us[1..];
      SweptDevice(rest, sys);
      assert !Names(rest, us[0].sys);
      FindUpsNames(rest, sys);
      FindUpsNames(Swept(rest), sys);
      assert us[0].retain ==> Swept(us)[1..] == Swept(rest);
      if us[0].retain {
        ConsDistinct(Swept(us));
      }
      forall n | Names(Swept(us), n)
        ensures Names(us, n)
      {
        NamesStep(us, n);
        if us[0].retain { NamesStep(Swept(us), n); }
      }
    }
  }

  lemma {:induction false} UnmarkedDevice(us: seq<Ups>, forget: bool, sys: string)
    ensures FindDevice(Unmarked(us, forget), sys)
      == match FindDevice(us, sys)
         case None => None
         case Some(u) => Some(UnmarkedOne(u, forget))
    decreases |us|
  {
    if us != [] {
      UnmarkedDevice(us[1..], forget, sys);
    }
  }

  function UnmarkedOne(u: Ups, forget: bool): Ups
  {
    if forget then ThrottleForgotten(u.(retain := false)) else u.(retain := false)
  }

  /** Main result by name: after reloading any file a device is there exactly if a line names
      it, and is what the lines of its name make of what it was before. */
  lemma ReloadedDevice(us: seq<Ups>, lines: seq<Line>, forget: bool, sys: string)
    requires DistinctNames(us)
    ensures var after := Reloaded(us, lines, forget).upses;
      && DistinctNames(after)
      && FindDevice(after, sys)
         == if !Named(lines, sys) then None
            else match FindDevice(us, sys)
                 case None => Applied(None, lines, sys)
                 case Some(u) => Some(Settled(UnmarkedOne(u, forget), lines))
  {
    var marked := Unmarked(us, forget);
    var t := Table(marked, 0);
    UnmarkedFacts(us, forget);
    UnmarkedDevice(us, forget, sys);
    LinesDevice(t, lines, sys);
    SweptDevice(AddLines(t, lines).upses, sys);
    if FindDevice(us, sys).Some? {
      AppliedKeeps(UnmarkedOne(FindDevice(us, sys).value, forget), lines);
    } else {
      AppliedNew(lines, sys);
    }
  }

  lemma {:induction false} AppliedNew(lines: seq<Line>, sys: string)
    ensures Applied(None, lines, sys).Some? <==> Named(lines, sys)
    ensures Applied(None, lines, sys).Some? ==>
      Applied(None, lines, sys).value.retain && Applied(None, lines, sys).value.sys == sys
    decreases |lines|
  {
    if lines != [] {
      NamedStep(lines, sys);
      if lines[0].sys == sys {
        AppliedKeeps(NewFrom(lines[0]), lines[1..]);
      } else {
        AppliedNew(lines[1..], sys);
      }
    }
  }

  /** The devices after a reload are exactly the configured ones, each once. */
  lemma ReloadedNames(us: seq<Ups>, lines: seq<Line>, forget: bool, sys: string)
    requires DistinctNames(us)
    ensures DistinctNames(Reloaded(us, lines, forget).upses)
    ensures Names(Reloaded(us, lines, forget).upses, sys) <==> Named(lines, sys)
  {
    ReloadedDevice(us, lines, forget, sys);
    FindUpsNames(Reloaded(us, lines, forget).upses, sys);
    if FindDevice(us, sys) == None {
      AppliedNew(lines, sys);
    }
  }

  /** What no line touches: a device's timers, its notices and what it last said. */
  predicate SameReadings(u: Ups, v: Ups)
  {
    && v.sys == u.sys
    && v.lastpoll == u.lastpoll && v.lastnoncrit == u.lastnoncrit && v.lastrbwarn == u.lastrbwarn
    && v.lastncwarn == u.lastncwarn && v.lastfsdnotify == u.lastfsdnotify
    && v.offsince == u.offsince && v.oblbsince == u.oblbsince && v.oversince == u.oversince
    && v.linestate == u.linestate && v.offstate == u.offstate && v.overstate == u.overstate
    && v.notices == u.notices
    && v.status - {PRIMARY, LOGIN, CLICONNECTED} == u.status - {PRIMARY, LOGIN, CLICONNECTED}
  }

  /** Is this host the primary after the lines, given whether it was before? */
  function RoleAfter(primary: bool, lines: seq<Line>, sys: string): bool
    decreases |lines|
  {
    if lines == [] then primary
    else
      RoleAfter(if lines[0].sys != sys || lines[0].role == OtherRole then primary else lines[0].role == Primary,
                lines[1..], sys)
  }

  /** The last line of a name. */
  function LastLine(lines: seq<Line>, sys: string): Option<Line>
  {
    if lines == [] then None
    else if LastLine(lines[1..], sys).Some? then LastLine(lines[1..], sys)
    else if lines[0].sys == sys then Some(lines[0])
    else None
  }

  lemma RedefinedReadings(u: Ups, l: Line)
    ensures SameReadings(u, Redefined(u, l))
  {
  }

  lemma RedefinedRole(u: Ups, l: Line)
    ensures PRIMARY in Redefined(u, l).status <==>
            if l.role == OtherRole then PRIMARY in u.status else l.role == Primary
  {
  }

  lemma RedefinedMeans(u: Ups, l: Line)
    ensures var v := Redefined(u, l);
      && SameReadings(u, v) && v.pv == l.pv && v.un == l.un && v.pw == l.pw
      && (PRIMARY in v.status <==> if l.role == OtherRole then PRIMARY in u.status else l.role == Primary)
  {
    RedefinedReadings(u, l);
    RedefinedRole(u, l);
  }

  lemma {:induction false} SettledMeans(u: Ups, lines: seq<Line>)
    ensures var v, last := Settled(u, lines), LastLine(lines, u.sys);
      && SameReadings(u, v)
      && (PRIMARY in v.status <==> RoleAfter(PRIMARY in u.status, lines, u.sys))
      && (last == None ==> v.pv == u.pv && v.un == u.un && v.pw == u.pw)
      && (last != None ==> v.pv == last.value.pv && v.un == last.value.un && v.pw == last.value.pw)
    decreases |lines|
  {
    if lines != [] {
      if lines[0].sys == u.sys {
        RedefinedName(u, lines[0]);
        RedefinedMeans(u, lines[0]);
        SettledMeans(Redefined(u, lines[0]), lines[1..]);
      } else {
        SettledMeans(u, lines[1..]);
      }
    }
  }

  lemma {:induction false} LastLineNamed(lines: seq<Line>, sys: string)
    ensures LastLine(lines, sys).Some? <==> Named(lines, sys)
    decreases |lines|
  {
    if lines != [] {
      NamedStep(lines, sys);
      LastLineNamed(lines[1..], sys);
    }
  }

  /** A device that a file keeps is in the reloaded list with the power value, user name and
      password of its last line, the role its lines give it, and its timers and readings. */
  lemma SurvivorKeepsTimers(us: seq<Ups>, lines: seq<Line>, forget: bool, sys: string)
    requires DistinctNames(us) && FindDevice(us, sys).Some? && Named(lines, sys)
    ensures LastLine(lines, sys).Some?
    ensures var u, found, l := FindDevice(us, sys).value,
                               FindDevice(Reloaded(us, lines, forget).upses, sys), LastLine(lines, sys).value;
      && found.Some?
      && SameReadings(u, found.value)
      && found.value.pv == l.pv && found.value.un == l.un && found.value.pw == l.pw
      && (PRIMARY in found.value.status <==> RoleAfter(PRIMARY in u.status, lines, sys))
  {
    ReloadedDevice(us, lines, forget, sys);
    LastLineNamed(lines, sys);
    SettledMeans(UnmarkedOne(FindDevice(us, sys).value, forget), lines);
  }

  // ----- the first load -----

  /** At the start a name that is already known is ignored, its power value too. */
  function LoadLine(t: Table, l: Line): Table
  {
    if FindUps(t.upses, l.sys) < |t.upses| then t
    else Table(t.upses + [NewFrom(l)], Added(t.totalpv, l.pv))
  }

  function Loaded(t: Table, lines: seq<Line>): Table
    decreases |lines|
  {
    if lines == [] then t else Loaded(LoadLine(t, lines[0]), lines[1..])
  }

  lemma {:induction false} SumPvAppend(us: seq<Ups>, u: Ups)
    ensures SumPv(us + [u]) == SumPv(us) + u.pv
    decreases |us|
  {
    if us == [] {
      assert us + [u] == [u] && [u][1..] == [];
    } else {
      assert (us + [u])[1..] == us[1..] + [u];
      SumPvAppend(us[1..], u);
    }
  }

  lemma {:induction false} LoadingCountsOnce(t: Table, lines: seq<Line>)
    requires DistinctNames(t.upses) && t.totalpv == SumPv(t.upses) % UINT_RANGE
    ensures var after := Loaded(t, lines);
      DistinctNames(after.upses) && after.totalpv == SumPv(after.upses) % UINT_RANGE
    decreases |lines|
  {
    if lines != [] {
      FindUpsNames(t.upses, lines[0].sys);
      SumPvAppend(t.upses, NewFrom(lines[0]));
      AddedSum(SumPv(t.upses), lines[0].pv);
      LoadingCountsOnce(LoadLine(t, lines[0]), lines[1..]);
    }
  }
}
