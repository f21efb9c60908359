/** MONITOR lines as they are written: what they make of the devices. */
module MonitorLines {
  import opened Text
  import opened UpsState
  import opened Reload

  // ----- the words of a line -----

  /** The word, each letter in either case. */
  predicate Spells(word: string, lower: string)
  {
    |word| == |lower| &&
    forall i | 0 <= i < |word| :: word[i] == lower[i] || word[i] as int + 32 == lower[i] as int
  }

  predicate IsLower(s: string)
  {
    forall i | 0 <= i < |s| :: 'a' <= s[i] <= 'z'
  }

  lemma SpellsIsNoCase(word: string, lower: string)
    requires IsLower(lower)
    ensures SameNoCase(word, lower) <==> Spells(word, lower)
  {
    SameNoCaseMeans(word, lower);
    if |word| == |lower| {
      forall i | 0 <= i < |word|
        ensures word[i] as int + 32 == lower[i] as int <==> CapitalOf(word[i], lower[i])
      {
        assert 'a' <= lower[i] <= 'z';
      }
    }
  }

  predicate SaysPrimary(word: string) { Spells(word, "primary") || Spells(word, "master") }

  predicate SaysSecondary(word: string) { Spells(word, "secondary") || Spells(word, "slave") }

  lemma RoleMeans(word: string)
    ensures RoleOf(word) == Primary <==> SaysPrimary(word)
    ensures RoleOf(word) == Secondary <==> SaysSecondary(word)
  {
    SpellsIsNoCase(word, "primary");
    SpellsIsNoCase(word, "master");
    SpellsIsNoCase(word, "secondary");
    SpellsIsNoCase(word, "slave");
    assert |"primary"| == 7 && |"master"| == 6 && |"secondary"| == 9 && |"slave"| == 5;
  }

  /** The power value is a number an unsigned int holds; other lines are ignored. */
  predicate Accepted(raw: RawLine)
  {
    0 <= Strtol(raw.pvs) < UINT_RANGE
  }

  /** Such as any number below 2^32 as it is printed. */
  lemma PrintedPowerIsAccepted(raw: RawLine, n: nat)
    requires raw.pvs == Decimal(n)
    ensures Strtol(raw.pvs) == n && (Accepted(raw) <==> n < UINT_RANGE)
  {
    StrtolDecimal(n);
  }

  predicate Counts(raw: RawLine, sys: string)
  {
    Accepted(raw) && raw.sys == sys
  }

  // ----- the lines of one name -----

  function FirstOf(raws: seq<RawLine>, sys: string): Option<RawLine>
  {
    if raws == [] then None else if Counts(raws[0], sys) then Some(raws[0]) else FirstOf(raws[1..], sys)
  }

  function LastOf(raws: seq<RawLine>, sys: string): Option<RawLine>
  {
    if raws == [] then None
    else if LastOf(raws[1..], sys).Some? then LastOf(raws[1..], sys)
    else if Counts(raws[0], sys) then Some(raws[0])
    else None
  }

  /** Whether the last line of the name with one of the four role words says primary. */
  function LastRole(raws: seq<RawLine>, sys: string): Option<bool>
  {
    if raws == [] then None
    else if LastRole(raws[1..], sys).Some? then LastRole(raws[1..], sys)
    else if Counts(raws[0], sys) && SaysPrimary(raws[0].role) then Some(true)
    else if Counts(raws[0], sys) && SaysSecondary(raws[0].role) then Some(false)
    else None
  }

  lemma ParsedStep(raws: seq<RawLine>)
    requires raws != []
    ensures ParseLines(raws) == if Accepted(raws[0]) then [ParseLine(raws[0]).value] + ParseLines(raws[1..])
                                else ParseLines(raws[1..])
    ensures Accepted(raws[0]) ==> ParseLines(raws)[1..] == ParseLines(raws[1..])
  {
  }

  lemma {:induction false} LastLineIs(raws: seq<RawLine>, sys: string)
    ensures var l, raw := LastLine(ParseLines(raws), sys), LastOf(raws, sys);
      && (l.Some? <==> raw.Some?)
      && (raw.Some? ==> l.value.pv == Strtol(raw.value.pvs) && l.value.un == raw.value.un && l.value.pw == raw.value.pw)
    decreases |raws|
  {
    if raws != [] {
      ParsedStep(raws);
      LastLineIs(raws[1..], sys);
    }
  }

  lemma {:induction false} RolesAre(primary: bool, raws: seq<RawLine>, sys: string)
    ensures RoleAfter(primary, ParseLines(raws), sys)
      == match LastRole(raws, sys) case None => primary case Some(says) => says
    decreases |raws|
  {
    if raws != [] {
      RoleMeans(raws[0].role);
      SpellsOne(raws[0].role);
      ParsedStep(raws);
      var next := if Counts(raws[0], sys) && (SaysPrimary(raws[0].role) || SaysSecondary(raws[0].role))
                  then SaysPrimary(raws[0].role) else primary;
      assert RoleAfter(primary, ParseLines(raws), sys) == RoleAfter(next, ParseLines(raws[1..]), sys);
      RolesAre(next, raws[1..], sys);
    }
  }

  lemma SpellsOne(word: string)
    ensures !(SaysPrimary(word) && SaysSecondary(word))
  {
    RoleMeans(word);
  }

  // ----- a reload -----

  /** A new device as its lines leave it. */
  lemma {:induction false} NewcomerMeans(lines: seq<Line>, sys: string)
    requires Named(lines, sys)
    ensures var v, l := Applied(None, lines, sys), LastLine(lines, sys);
      && v.Some? && l.Some?
      && (PRIMARY in v.value.status <==> RoleAfter(false, lines, sys))
      && v.value.pv == l.value.pv && v.value.un == l.value.un && v.value.pw == l.value.pw
      && SameReadings(NewUps(sys, 0, "", "", false), v.value)
    decreases |lines|
  {
    NamedStep(lines, sys);
    if lines[0].sys == sys {
      var u := NewFrom(lines[0]);
      SettledMeans(u, lines[1..]);
      assert SameReadings(NewUps(sys, 0, "", "", false), u);
      assert RoleAfter(false, lines, sys) == RoleAfter(lines[0].role == Primary, lines[1..], sys);
    } else {
      NewcomerMeans(lines[1..], sys);
    }
  }

  /** Did this host have the device as its primary before? A newcomer it did not. */
  predicate WasPrimary(us: seq<Ups>, sys: string)
  {
    var d := FindDevice(us, sys);
    d.Some? && PRIMARY in d.value.status
  }

  lemma DeviceMeans(us: seq<Ups>, lines: seq<Line>, forget: bool, sys: string)
    requires DistinctNames(us) && Named(lines, sys)
    ensures var v, l := FindDevice(Reloaded(us, lines, forget).upses, sys), LastLine(lines, sys);
      && v.Some? && l.Some?
      && (PRIMARY in v.value.status <==> RoleAfter(WasPrimary(us, sys), lines, sys))
      && v.value.pv == l.value.pv && v.value.un == l.value.un && v.value.pw == l.value.pw
  {
    if FindDevice(us, sys) == None {
      ReloadedDevice(us, lines, forget, sys);
      NewcomerMeans(lines, sys);
    } else {
      SurvivorKeepsTimers(us, lines, forget, sys);
    }
  }

  /** Main result: after a reload a device is there exactly if a line that counts names it. It has
      the power value, user and password of the last such line, and this host is its primary
      exactly if the last one with a role word says primary or master in any case, or there is
      none and it was before. */
  lemma ReloadedFromText(us: seq<Ups>, raws: seq<RawLine>, forget: bool, sys: string)
    requires DistinctNames(us)
    ensures var v, raw := FindDevice(Reloaded(us, ParseLines(raws), forget).upses, sys), LastOf(raws, sys);
      && (v.Some? <==> raw.Some?)
      && (v.Some? ==>
            && v.value.pv == Strtol(raw.value.pvs) && v.value.un == raw.value.un && v.value.pw == raw.value.pw
            && (PRIMARY in v.value.status <==>
                match LastRole(raws, sys) case None => WasPrimary(us, sys) case Some(says) => says))
  {
    var lines := ParseLines(raws);
    LastLineIs(raws, sys);
    LastLineNamed(lines, sys);
    ReloadedDevice(us, lines, forget, sys);
    AppliedNew(lines, sys);
    if Named(lines, sys) {
      DeviceMeans(us, lines, forget, sys);
      RolesAre(WasPrimary(us, sys), raws, sys);
    }
  }

  /** And a newcomer's readings are those of a new device. */
  lemma NewcomerIsFresh(us: seq<Ups>, raws: seq<RawLine>, forget: bool, sys: string)
    requires DistinctNames(us) && FindDevice(us, sys) == None && LastOf(raws, sys).Some?
    ensures var v := FindDevice(Reloaded(us, ParseLines(raws), forget).upses, sys);
      v.Some? && SameReadings(NewUps(sys, 0, "", "", false), v.value)
  {
    var lines := ParseLines(raws);
    LastLineIs(raws, sys);
    LastLineNamed(lines, sys);
    ReloadedDevice(us, lines, forget, sys);
    NewcomerMeans(lines, sys);
  }

  // ----- the first load -----

  /** A device just as the line gives it. */
  function MadeFrom(raw: RawLine): Ups
    requires Accepted(raw)
  {
    NewUps(raw.sys, Strtol(raw.pvs), raw.un, raw.pw, SaysPrimary(raw.role))
  }

  lemma {:induction false} FirstCounts(raws: seq<RawLine>, sys: string)
    ensures FirstOf(raws, sys).Some? ==> Counts(FirstOf(raws, sys).value, sys)
    decreases |raws|
  {
    if raws != [] {
      FirstCounts(raws[1..], sys);
    }
  }

  /** The first line of a name makes the device, and no other changes it. */
  lemma {:induction false} LoadedIs(t: Table, raws: seq<RawLine>, sys: string)
    requires DistinctNames(t.upses)
    ensures FirstOf(raws, sys).Some? ==> Accepted(FirstOf(raws, sys).value)
    ensures var u, raw := FindDevice(t.upses, sys), FirstOf(raws, sys);
      FindDevice(Loaded(t, ParseLines(raws)).upses, sys)
        == if u.Some? || raw == None then u else Some(MadeFrom(raw.value))
    decreases |raws|
  {
    FirstCounts(raws, sys);
    if raws != [] {
      ParsedStep(raws);
      if Accepted(raws[0]) {
        LoadedOne(t, raws[0], sys);
        LoadedIs(LoadLine(t, ParseLine(raws[0]).value), raws[1..], sys);
      } else {
        LoadedIs(t, raws[1..], sys);
      }
    }
  }

  lemma LoadedOne(t: Table, raw: RawLine, sys: string)
    requires DistinctNames(t.upses) && Accepted(raw)
    ensures var next := LoadLine(t, ParseLine(raw).value).upses;
      && DistinctNames(next)
      && FindDevice(next, sys) == if FindDevice(t.upses, sys).Some? || raw.sys != sys then FindDevice(t.upses, sys)
                                  else Some(MadeFrom(raw))
  {
    var l := ParseLine(raw).value;
    RoleMeans(raw.role);
    FindUpsNames(t.upses, raw.sys);
    if FindUps(t.upses, raw.sys) == |t.upses| {
      AppendedDistinct(t.upses, NewFrom(l));
      AddedDevice(t, l, sys);
      assert [l][1..] == [];
    }
  }

  /** Main result on the first load: it makes exactly the devices named, each from the first line
      of its name that counts. */
  lemma LoadedFromText(raws: seq<RawLine>, sys: string)
    ensures FirstOf(raws, sys).Some? ==> Accepted(FirstOf(raws, sys).value)
    ensures FindDevice(Loaded(Table([], 0), ParseLines(raws)).upses, sys)
      == match FirstOf(raws, sys) case None => None case Some(raw) => Some(MadeFrom(raw))
  {
    LoadedIs(Table([], 0), raws, sys);
  }
}
