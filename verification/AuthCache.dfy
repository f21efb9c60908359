/** The lookup of authentication settings for a connection, with its cache
    (`upscli_get_authconf_item`, `upscli_clone_authconf_item`, `upscli_merge_authconf_item`). */
module AuthCache {
  import opened Text
  import opened SectionName

  /** The settings of one section; an absent text and a negative number are unset. */
  datatype Fields = Fields(
    user: Option<string>, pass: Option<string>, certpath: Option<string>, certfile: Option<string>,
    certident: Option<string>, certpasswd: Option<string>, sslBackend: Option<string>,
    certhost: Option<string>, certverify: int, forcessl: int)

  const UNSET := Fields(None, None, None, None, None, None, None, None, -1, -1)

  /** A node of the list; the global defaults have no section name. */
  datatype Node = Node(section: Option<string>, fields: Fields)

  datatype Conf = Conf(list: seq<Node>, globals: Option<nat>)

  function OrElse(a: Option<string>, b: Option<string>): Option<string>
  {
    if a == None then b else a
  }

  function OrElseInt(a: int, b: int): int
  {
    if a < 0 && b >= 0 then b else a
  }

  /** What is unset in `t` is taken from `s`. */
  function Fill(t: Fields, s: Fields): Fields
  {
    Fields(OrElse(t.user, s.user), OrElse(t.pass, s.pass), OrElse(t.certpath, s.certpath),
           OrElse(t.certfile, s.certfile), OrElse(t.certident, s.certident), OrElse(t.certpasswd, s.certpasswd),
           OrElse(t.sslBackend, s.sslBackend), OrElse(t.certhost, s.certhost),
           OrElseInt(t.certverify, s.certverify), OrElseInt(t.forcessl, s.forcessl))
  }

  /** The user a section name fixes: what stands before its first `@`, if anything does. */
  function FixedUser(section: string): Option<string>
  {
    UserOf(section)
  }

  function WithFixedUser(f: Fields, section: string): Fields
  {
    if FixedUser(section) == None then f else f.(user := FixedUser(section))
  }

  function Clone(source: Fields, section: string): Node
  {
    Node(Some(section), WithFixedUser(source, section))
  }

  /** `target` already has a name here, so the source's is never taken. */
  function Merge(source: Fields, target: Node): Node
  {
    var section := if target.section == None then "" else target.section.value;
    target.(fields := WithFixedUser(Fill(target.fields, source), section))
  }

  /** What is asked for: each part may be left out. */
  datatype Query = Query(user: Option<string>, host: Option<string>, port: Option<string>)

  predicate AllNull(q: Query)
  {
    q.user == None && q.host == None && q.port == None
  }

  predicate HasUser(q: Query)
  {
    q.user.Some? && q.user.value != ""
  }

  function QueryName(q: Query, sv: Services): string
  {
    Name(Normalize(q.user, q.host, q.port, sv))
  }

  /** The same name without the user: the host defaults. */
  function HostName(name: string): string
  {
    name[IndexOf(name, '@')..]
  }

  // ----- the lookup as the code does it -----

  /** The nodes hit: the one with the exact name of a query with a user, and the one with
      the host defaults. */
  datatype Hits = Hits(user: Option<nat>, host: Option<nat>)

  function Search(list: seq<Node>, i: nat, name: string, fixed: bool, hits: Hits): Hits
    requires i <= |list|
    decreases |list| - i
  {
    if i == |list| then hits
    else if list[i].section == Some(name) then
      if !fixed then hits.(host := Some(i))
      else if hits.host.Some? then hits.(user := Some(i))
      else Search(list, i + 1, name, fixed, hits.(user := Some(i)))
    else if fixed && list[i].section == Some(HostName(name)) then
      Search(list, i + 1, name, fixed, hits.(host := Some(i)))
    else Search(list, i + 1, name, fixed, hits)
  }

  lemma {:induction false} SearchInRange(list: seq<Node>, i: nat, name: string, fixed: bool, hits: Hits)
    requires i <= |list|
    requires (hits.user.Some? ==> hits.user.value < |list|) && (hits.host.Some? ==> hits.host.value < |list|)
    ensures var h := Search(list, i, name, fixed, hits);
      (h.user.Some? ==> h.user.value < |list|) && (h.host.Some? ==> h.host.value < |list|)
    decreases |list| - i
  {
    if i < |list| {
      SearchInRange(list, i + 1, name, fixed, hits);
      SearchInRange(list, i + 1, name, fixed, hits.(user := Some(i)));
      SearchInRange(list, i + 1, name, fixed, hits.(host := Some(i)));
    }
  }

  predicate ValidGlobals(c: Conf)
  {
    c.globals.Some? ==> c.globals.value < |c.list| && c.list[c.globals.value].section == None
  }

  function Globals(c: Conf): Option<Fields>
    requires ValidGlobals(c)
  {
    if c.globals == None then None else Some(c.list[c.globals.value].fields)
  }

  /** The nodes hit by a query. */
  function HitsOf(c: Conf, q: Query, sv: Services): (h: Hits)
    ensures (h.user.Some? ==> h.user.value < |c.list|) && (h.host.Some? ==> h.host.value < |c.list|)
  {
    if AllNull(q) then Hits(None, None)
    else
      SearchInRange(c.list, 0, QueryName(q, sv), HasUser(q), Hits(None, None));
      Search(c.list, 0, QueryName(q, sv), HasUser(q), Hits(None, None))
  }

  /** The item before merging: a node of the list, or a new one. */
  function BaseItem(c: Conf, q: Query, h: Hits, add: bool, sv: Services): Node
    requires ValidGlobals(c)
    requires (h.user.Some? ==> h.user.value < |c.list|) && (h.host.Some? ==> h.host.value < |c.list|)
  {
    var name := QueryName(q, sv);
    if h.user == None && h.host == None then
      if c.globals == None then Node(Some(name), UNSET) else Clone(Globals(c).value, name)
    else
      var hit := c.list[if h.user.Some? then h.user.value else h.host.value];
      if !add || (h.user == None && HasUser(q)) then Clone(hit.fields, name) else hit
  }

  function Filled(c: Conf, h: Hits, item: Node): Node
    requires ValidGlobals(c)
    requires (h.user.Some? ==> h.user.value < |c.list|) && (h.host.Some? ==> h.host.value < |c.list|)
  {
    var item1 := if h.user.Some? && h.host.Some? then Merge(c.list[h.host.value].fields, item) else item;
    if (h.user.Some? || h.host.Some?) && c.globals.Some? then Merge(Globals(c).value, item1) else item1
  }

  /** Whether the result is a node the list has already. */
  predicate EditsInPlace(q: Query, h: Hits, add: bool)
  {
    add && (h.user.Some? || (h.host.Some? && !HasUser(q)))
  }

  /** The item returned and the configuration left behind. */
  function Get(c: Conf, q: Query, add: bool, sv: Services): (Node, Conf)
    requires ValidGlobals(c)
  {
    var h := HitsOf(c, q, sv);
    var base := BaseItem(c, q, h, add, sv);
    var item := Filled(c, h, if HasUser(q) then base.(fields := base.fields.(user := q.user)) else base);
    if EditsInPlace(q, h, add) then
      (item, c.(list := c.list[(if h.user.Some? then h.user.value else h.host.value) := item]))
    else if add then (item, c.(list := c.list + [item]))
    else (item, c)
  }

  // ----- what it means -----

  function Find(list: seq<Node>, name: string): Option<Fields>
  {
    if list == [] then None
    else if list[0].section == Some(name) then Some(list[0].fields)
    else Find(list[1..], name)
  }

  function Layer(upper: Option<Fields>, lower: Option<Fields>): Option<Fields>
  {
    if upper == None then lower
    else if lower == None then upper
    else Some(Fill(upper.value, lower.value))
  }

  function OrUnset(f: Option<Fields>): Fields
  {
    if f == None then UNSET else f.value
  }

  /** First set of: the exact section, the host defaults, the global defaults. A user in
      the query is the user. */
  function Effective(c: Conf, q: Query, sv: Services): Fields
    requires ValidGlobals(c)
  {
    var name := QueryName(q, sv);
    var exact := if HasUser(q) then Find(c.list, name) else None;
    var found := OrUnset(Layer(Layer(exact, Find(c.list, HostName(name))), Globals(c)));
    if HasUser(q) then found.(user := q.user) else found
  }

  /** Section names are distinct. */
  predicate Distinct(list: seq<Node>)
  {
    forall i, j | 0 <= i < j < |list| && list[i].section.Some? :: list[i].section != list[j].section
  }

  predicate Valid(c: Conf)
  {
    ValidGlobals(c) && Distinct(c.list)
  }

  /** The queries the claims are about. */
  predicate Proper(q: Query)
  {
    !AllNull(q) && (q.user == None || '@' !in q.user.value)
  }

  // ----- names -----

  lemma QueryNameParts(q: Query, sv: Services)
    requires Proper(q)
    ensures var name := QueryName(q, sv);
      && IndexOf(name, '@') < |name|
      && (HasUser(q) ==> IndexOf(name, '@') == |q.user.value| && FixedUser(name) == q.user
                         && HostName(name) != name && name[0] != '@')
      && (!HasUser(q) ==> IndexOf(name, '@') == 0 && FixedUser(name) == None && HostName(name) == name)
      && HostName(name)[0] == '@'
  {
    var user := if q.user == None then "" else q.user.value;
    var p := Normalize(q.user, q.host, q.port, sv);
    var rest := p.host + ":" + p.port;
    assert QueryName(q, sv) == user + ['@'] + rest;
    IndexOfPrefix(user, '@', rest);
    var name := QueryName(q, sv);
    assert name[..|user|] == user;
    if HasUser(q) {
      assert name[0] == user[0];
    } else {
      assert name[0..] == name;
    }
  }

  // ----- the search finds the layers -----

  lemma {:induction false} FindAt(list: seq<Node>, name: string, k: nat)
    requires Distinct(list) && k < |list| && list[k].section == Some(name)
    ensures Find(list, name) == Some(list[k].fields)
    decreases |list|
  {
    if k > 0 {
      assert list[1..][k - 1] == list[k];
      FindAt(list[1..], name, k - 1);
    }
  }

  lemma {:induction false} FindNone(list: seq<Node>, name: string)
    requires forall i | 0 <= i < |list| :: list[i].section != Some(name)
    ensures Find(list, name) == None
    decreases |list|
  {
    if list != [] {
      FindNone(list[1..], name);
    }
  }

  predicate IsHit(list: seq<Node>, name: string, hit: Option<nat>)
  {
    match hit
    case Some(k) => k < |list| && list[k].section == Some(name)
    case None => forall i | 0 <= i < |list| :: list[i].section != Some(name)
  }

  lemma HitFinds(list: seq<Node>, name: string, hit: Option<nat>)
    requires Distinct(list) && IsHit(list, name, hit)
    ensures Find(list, name) == if hit == None then None else Some(list[hit.value].fields)
  {
    if hit == None {
      FindNone(list, name);
    } else {
      FindAt(list, name, hit.value);
    }
  }

  predicate SoFar(list: seq<Node>, i: nat, name: string, hit: Option<nat>)
    requires i <= |list|
  {
    match hit
    case Some(k) => k < i && list[k].section == Some(name)
    case None => forall j | 0 <= j < i :: list[j].section != Some(name)
  }

  lemma {:induction false} SearchWithUser(list: seq<Node>, i: nat, name: string, hits: Hits)
    requires Distinct(list) && i <= |list| && HostName(name) != name
    requires SoFar(list, i, name, hits.user) && SoFar(list, i, HostName(name), hits.host)
    requires hits.user == None || hits.host == None
    ensures var h := Search(list, i, name, true, hits);
      IsHit(list, name, h.user) && IsHit(list, HostName(name), h.host)
    decreases |list| - i
  {
    if i < |list| {
      if list[i].section == Some(name) {
        if hits.host == None {
          SearchWithUser(list, i + 1, name, hits.(user := Some(i)));
        }
      } else if list[i].section == Some(HostName(name)) {
        if hits.user == None {
          SearchWithUser(list, i + 1, name, hits.(host := Some(i)));
        } else {
          SearchAfterBoth(list, i + 1, name, hits.(host := Some(i)));
        }
      } else {
        SearchWithUser(list, i + 1, name, hits);
      }
    }
  }

  /** The loop goes on when the host comes after the user, and finds nothing more. */
  lemma {:induction false} SearchAfterBoth(list: seq<Node>, i: nat, name: string, hits: Hits)
    requires Distinct(list) && i <= |list|
    requires hits.user.Some? && hits.host.Some?
    requires SoFar(list, i, name, hits.user) && SoFar(list, i, HostName(name), hits.host)
    ensures Search(list, i, name, true, hits) == hits
    decreases |list| - i
  {
    if i < |list| {
      assert list[hits.user.value].section != list[i].section;
      assert list[hits.host.value].section != list[i].section;
      SearchAfterBoth(list, i + 1, name, hits);
    }
  }

  lemma {:induction false} SearchWithoutUser(list: seq<Node>, i: nat, name: string)
    requires i <= |list| && SoFar(list, i, name, None)
    ensures var h := Search(list, i, name, false, Hits(None, None));
      h.user == None && IsHit(list, name, h.host)
    decreases |list| - i
  {
    if i < |list| && list[i].section != Some(name) {
      SearchWithoutUser(list, i + 1, name);
    }
  }

  lemma HitsAreLayers(c: Conf, q: Query, sv: Services)
    requires Valid(c) && Proper(q)
    ensures var h, name := HitsOf(c, q, sv), QueryName(q, sv);
      && (if HasUser(q) then IsHit(c.list, name, h.user) else h.user == None)
      && IsHit(c.list, HostName(name), h.host)
  {
    QueryNameParts(q, sv);
    if HasUser(q) {
      SearchWithUser(c.list, 0, QueryName(q, sv), Hits(None, None));
    } else {
      SearchWithoutUser(c.list, 0, QueryName(q, sv));
    }
  }

  // ----- the answer -----

  function HitFields(c: Conf, hit: Option<nat>): Option<Fields>
    requires hit.Some? ==> hit.value < |c.list|
  {
    if hit == None then None else Some(c.list[hit.value].fields)
  }

  lemma EffectiveOfHits(c: Conf, q: Query, sv: Services)
    requires Valid(c) && Proper(q)
    ensures var h := HitsOf(c, q, sv);
      var found := OrUnset(Layer(Layer(HitFields(c, h.user), HitFields(c, h.host)), Globals(c)));
      Effective(c, q, sv) == if HasUser(q) then found.(user := q.user) else found
  {
    var h, name := HitsOf(c, q, sv), QueryName(q, sv);
    HitsAreLayers(c, q, sv);
    HitFinds(c.list, HostName(name), h.host);
    if HasUser(q) {
      HitFinds(c.list, name, h.user);
    }
  }

  /** Main result on the answer: cached or not, it is first set of exact, host, global. */
  lemma GetIsEffective(c: Conf, q: Query, add: bool, sv: Services)
    requires Valid(c) && Proper(q)
    ensures Get(c, q, add, sv).0 == Node(Some(QueryName(q, sv)), Effective(c, q, sv))
  {
    var h, name := HitsOf(c, q, sv), QueryName(q, sv);
    HitsAreLayers(c, q, sv);
    EffectiveOfHits(c, q, sv);
    QueryNameParts(q, sv);
    var base := BaseItem(c, q, h, add, sv);
    assert base.section == Some(name);
  }

  // ----- the cache changes no answer -----

  lemma LayerTwice(e: Option<Fields>, h: Option<Fields>, g: Option<Fields>)
    ensures var found := OrUnset(Layer(Layer(e, h), g));
      OrUnset(Layer(Layer(Some(found), h), g)) == found
  {
  }

  lemma LayerHostTwice(e: Option<Fields>, h: Option<Fields>, g: Option<Fields>)
    ensures OrUnset(Layer(Layer(e, Some(OrUnset(Layer(h, g)))), g)) == OrUnset(Layer(Layer(e, h), g))
  {
  }

  /** The user of the upper layer is overridden anyway. */
  lemma LayerIgnoresUser(e: Fields, u: Option<string>, h: Option<Fields>, g: Option<Fields>)
    ensures OrUnset(Layer(Layer(Some(e.(user := u)), h), g)).(user := None)
      == OrUnset(Layer(Layer(Some(e), h), g)).(user := None)
  {
  }

  /** What caching does to the list: one node appended under a new name, or one replaced. */
  lemma CachedList(c: Conf, q: Query, sv: Services)
    requires Valid(c) && Proper(q)
    ensures var next, name := Get(c, q, true, sv).1, QueryName(q, sv);
      && Valid(next) && Globals(next) == Globals(c)
      && Find(next.list, name) == Some(Effective(c, q, sv))
      && forall n | n != name :: Find(next.list, n) == Find(c.list, n)
  {
    var (item, next) := Get(c, q, true, sv);
    var h, name := HitsOf(c, q, sv), QueryName(q, sv);
    HitsAreLayers(c, q, sv);
    QueryNameParts(q, sv);
    GetIsEffective(c, q, true, sv);
    if EditsInPlace(q, h, true) {
      var k := if h.user.Some? then h.user.value else h.host.value;
      FindReplaced(c.list, k, item);
      FindAt(next.list, name, k);
    } else {
      assert IsHit(c.list, name, None);
      FindAppended(c.list, item);
      FindAt(next.list, name, |c.list|);
    }
  }

  lemma {:induction false} FindReplaced(list: seq<Node>, k: nat, item: Node)
    requires k < |list| && list[k].section == item.section
    ensures forall n | Some(n) != item.section :: Find(list[k := item], n) == Find(list, n)
    decreases |list|
  {
    if k > 0 {
      assert list[k := item][1..] == list[1..][k - 1 := item];
      FindReplaced(list[1..], k - 1, item);
    } else {
      assert list[k := item][1..] == list[1..];
    }
  }

  lemma {:induction false} FindAppended(list: seq<Node>, item: Node)
    ensures forall n | Some(n) != item.section :: Find(list + [item], n) == Find(list, n)
    decreases |list|
  {
    if list == [] {
      assert list + [item] == [item] && [item][1..] == [];
    } else {
      assert (list + [item])[1..] == list[1..] + [item];
      FindAppended(list[1..], item);
    }
  }

  /** Main result on the cache: one caching lookup changes what no later lookup returns. */
  lemma CachingIsTransparent(c: Conf, q: Query, later: Query, sv: Services)
    requires Valid(c) && Proper(q) && Proper(later)
    ensures Valid(Get(c, q, true, sv).1)
    ensures Effective(Get(c, q, true, sv).1, later, sv) == Effective(c, later, sv)
  {
    var next := Get(c, q, true, sv).1;
    var name, name2 := QueryName(q, sv), QueryName(later, sv);
    CachedList(c, q, sv);
    QueryNameParts(q, sv);
    QueryNameParts(later, sv);
    var g := Globals(c);
    var h2 := Find(c.list, HostName(name2));
    if HasUser(q) {
      // the new node has a user in its name: it is nobody's host default
      assert HostName(name2) != name;
      if HasUser(later) && name2 == name {
        var found := OrUnset(Layer(Layer(Find(c.list, name), h2), g));
        LayerTwice(Find(c.list, name), h2, g);
        LayerIgnoresUser(found, q.user, h2, g);
      }
    } else if HostName(name2) == name {
      var e := if HasUser(later) then Find(c.list, name2) else None;
      LayerHostTwice(e, h2, g);
    }
  }

  /** Any interleaving of caching lookups. */
  function AfterAll(c: Conf, qs: seq<Query>, sv: Services): Conf
    requires Valid(c) && forall i | 0 <= i < |qs| :: Proper(qs[i])
    decreases |qs|
  {
    if qs == [] then c
    else
      CachingIsTransparent(c, qs[0], qs[0], sv);
      AfterAll(Get(c, qs[0], true, sv).1, qs[1..], sv)
  }

  /** So after any of them every lookup, caching or not, returns what it did at first. */
  lemma {:induction false} CacheNeverChangesAnswers(c: Conf, qs: seq<Query>, later: Query, add: bool, sv: Services)
    requires Valid(c) && Proper(later) && forall i | 0 <= i < |qs| :: Proper(qs[i])
    ensures Valid(AfterAll(c, qs, sv))
    ensures Get(AfterAll(c, qs, sv), later, add, sv).0 == Get(c, later, false, sv).0
    decreases |qs|
  {
    if qs == [] {
      GetIsEffective(c, later, add, sv);
      GetIsEffective(c, later, false, sv);
    } else {
      var next := Get(c, qs[0], true, sv).1;
      CachingIsTransparent(c, qs[0], later, sv);
      CacheNeverChangesAnswers(next, qs[1..], later, add, sv);
      GetIsEffective(next, later, false, sv);
      GetIsEffective(c, later, false, sv);
    }
  }

  // ----- where the claim stops -----

  /** A user with an `@` behind its first character is kept by the first lookup and cut at
      the `@` by the second, which merges the global defaults into the cached node. */
  lemma UserWithAtDrifts(user: string, host: string, sv: Services)
    requires 0 < IndexOf(user, '@') < |user|
    ensures var c := Conf([Node(None, UNSET)], Some(0));
      var q := Query(Some(user), Some(host), None);
      var (first, next) := Get(c, q, true, sv);
      first.fields.user == Some(user) &&
      Get(next, q, true, sv).0.fields.user == Some(user[..IndexOf(user, '@')])
  {
    var c, q := Conf([Node(None, UNSET)], Some(0)), Query(Some(user), Some(host), None);
    var name := QueryName(q, sv);
    var at := IndexOf(user, '@');
    IndexOfFirst(user, '@');
    assert name[..at] == user[..at] && name[at] == '@';
    IndexOfIs(name, '@', at);
    var (first, next) := Get(c, q, true, sv);
    assert Search(c.list, 1, name, true, Hits(None, None)) == Hits(None, None);
    assert next.list == [Node(None, UNSET), first];
    assert Search(next.list, 2, name, true, Hits(Some(1), None)) == Hits(Some(1), None);
    assert Search(next.list, 1, name, true, Hits(None, None)) == Hits(Some(1), None);
    assert HitsOf(next, q, sv) == Hits(Some(1), None);
  }

  /** A user that starts with an `@` never sees the host defaults: the code takes the whole
      name for the host's. */
  lemma UserStartingWithAtMissesHost(user: string, host: string, pass: string, sv: Services)
    requires user != "" && user[0] == '@'
    ensures var defaults := Query(None, Some(host), None);
      var c := Conf([Node(Some(QueryName(defaults, sv)), UNSET.(pass := Some(pass)))], None);
      && Valid(c)
      && Get(c, defaults, false, sv).0.fields.pass == Some(pass)
      && Get(c, Query(Some(user), Some(host), None), false, sv).0.fields.pass == None
  {
    var defaults, q := Query(None, Some(host), None), Query(Some(user), Some(host), None);
    var c := Conf([Node(Some(QueryName(defaults, sv)), UNSET.(pass := Some(pass)))], None);
    GetIsEffective(c, defaults, false, sv);
    QueryNameParts(defaults, sv);
    var name := QueryName(q, sv);
    assert name[0] == '@' && name[0..] == name;
    assert |name| > |QueryName(defaults, sv)|;
    assert Search(c.list, 1, name, true, Hits(None, None)) == Hits(None, None);
  }

  /** A lookup that asks for nothing appends a node for the default address each time, so
      the second one leaves two nodes of one name. */
  lemma AskingForNothingDuplicates(c: Conf, sv: Services)
    requires ValidGlobals(c)
    ensures var q := Query(None, None, None);
      var next := Get(Get(c, q, true, sv).1, q, true, sv).1;
      !Distinct(next.list)
  {
    var q := Query(None, None, None);
    var next := Get(c, q, true, sv).1;
    var last := Get(next, q, true, sv).1;
    assert last.list[|c.list|].section == last.list[|c.list| + 1].section == Some(QueryName(q, sv));
  }

  /** And where the default address has a section of its own, such a lookup hides it from
      the users at that address. */
  lemma AskingForNothingHidesDefaults(user: string, pass: string, sv: Services)
    requires user != "" && '@' !in user
    ensures var nothing := Query(None, None, None);
      var q := Query(Some(user), Some("localhost"), None);
      var c := Conf([Node(None, UNSET), Node(Some(QueryName(nothing, sv)), UNSET.(pass := Some(pass)))], Some(0));
      && Valid(c)
      && Get(c, q, false, sv).0.fields.pass == Some(pass)
      && Get(Get(c, nothing, true, sv).1, q, false, sv).0.fields.pass == None
  {
    var nothing, q := Query(None, None, None), Query(Some(user), Some("localhost"), None);
    var name, host := QueryName(q, sv), QueryName(nothing, sv);
    QueryNameParts(q, sv);
    assert name == user + host;
    assert HostName(name) == host;
    var c := Conf([Node(None, UNSET), Node(Some(host), UNSET.(pass := Some(pass)))], Some(0));
    assert Search(c.list, 2, name, true, Hits(None, Some(1))) == Hits(None, Some(1));
    assert Search(c.list, 1, name, true, Hits(None, None)) == Hits(None, Some(1));
    assert HitsOf(c, q, sv) == Hits(None, Some(1));
    var next := Get(c, nothing, true, sv).1;
    assert next.list == c.list + [Node(Some(host), UNSET)];
    assert Search(next.list, 3, name, true, Hits(None, Some(2))) == Hits(None, Some(2));
    assert Search(next.list, 2, name, true, Hits(None, Some(1))) == Hits(None, Some(2));
    assert Search(next.list, 1, name, true, Hits(None, None)) == Hits(None, Some(2));
    assert HitsOf(next, q, sv) == Hits(None, Some(2));
  }

  // ----- the answer, field by field -----

  /** The section that holds the defaults of the query's host. */
  function HostSection(q: Query, sv: Services): string
  {
    Name(Normalize(None, q.host, q.port, sv))
  }

  /** What a query should be answered: the defaults where it asks for nothing, and otherwise the
      first set of its own section, its host's and the defaults, under its own user. */
  function Expected(c: Conf, q: Query, sv: Services): Fields
    requires ValidGlobals(c)
  {
    if AllNull(q) then OrUnset(Globals(c))
    else
      var exact := if HasUser(q) then Find(c.list, QueryName(q, sv)) else None;
      var found := OrUnset(Layer(Layer(exact, Find(c.list, HostSection(q, sv))), Globals(c)));
      if HasUser(q) then found.(user := q.user) else found
  }

  lemma EffectiveIsExpected(c: Conf, q: Query, sv: Services)
    requires ValidGlobals(c) && Proper(q)
    ensures Effective(c, q, sv) == Expected(c, q, sv)
  {
    var name, host := QueryName(q, sv), HostSection(q, sv);
    QueryNameParts(q, sv);
    assert name[IndexOf(name, '@')..] == host;
  }

  datatype TextField =
    | User | Pass | CertPath | CertFile | CertIdent | CertPasswd | SslBackend | CertHost

  datatype NumberField = CertVerify | ForceSsl

  function TextOf(f: Fields, t: TextField): Option<string>
  {
    match t
    case User => f.user
    case Pass => f.pass
    case CertPath => f.certpath
    case CertFile => f.certfile
    case CertIdent => f.certident
    case CertPasswd => f.certpasswd
    case SslBackend => f.sslBackend
    case CertHost => f.certhost
  }

  function NumberOf(f: Fields, n: NumberField): int
  {
    match n
    case CertVerify => f.certverify
    case ForceSsl => f.forcessl
  }

  function Present(f: Option<Fields>): seq<Fields>
  {
    if f == None then [] else [f.value]
  }

  /** Where a query looks, in this order: the section of exactly its user and host, if it has a
      user, that of its host, and the global defaults; those that are there. */
  function Sources(c: Conf, q: Query, sv: Services): seq<Fields>
    requires ValidGlobals(c)
  {
    Present(if HasUser(q) then Find(c.list, QueryName(q, sv)) else None)
    + Present(Find(c.list, HostSection(q, sv))) + Present(Globals(c))
  }

  function FirstText(sources: seq<Fields>, t: TextField): Option<string>
  {
    if sources == [] then None
    else if TextOf(sources[0], t).Some? then TextOf(sources[0], t)
    else FirstText(sources[1..], t)
  }

  /** The first number that is not negative, if any. */
  function FirstNumber(sources: seq<Fields>, n: NumberField): Option<int>
  {
    if sources == [] then None
    else if NumberOf(sources[0], n) >= 0 then Some(NumberOf(sources[0], n))
    else FirstNumber(sources[1..], n)
  }

  lemma LayeredText(e: Option<Fields>, h: Option<Fields>, g: Option<Fields>, t: TextField)
    ensures TextOf(OrUnset(Layer(Layer(e, h), g)), t) == FirstText(Present(e) + Present(h) + Present(g), t)
  {
    FirstTextOf(e, h, g, t);
  }

  function OneText(f: Option<Fields>, t: TextField): Option<string>
  {
    if f == None then None else TextOf(f.value, t)
  }

  lemma FirstTextOf(e: Option<Fields>, h: Option<Fields>, g: Option<Fields>, t: TextField)
    ensures FirstText(Present(e) + Present(h) + Present(g), t)
      == if OneText(e, t).Some? then OneText(e, t)
         else if OneText(h, t).Some? then OneText(h, t)
         else OneText(g, t)
  {
    FirstTextStep(e, Present(h) + Present(g), t);
    FirstTextStep(h, Present(g), t);
    FirstTextStep(g, [], t);
    Assoc(Present(e), Present(h), Present(g));
    assert Present(g) + [] == Present(g);
  }

  lemma FirstTextStep(f: Option<Fields>, rest: seq<Fields>, t: TextField)
    ensures FirstText(Present(f) + rest, t) == if OneText(f, t).Some? then OneText(f, t) else FirstText(rest, t)
  {
    if f.Some? {
      assert ([f.value] + rest)[1..] == rest;
    } else {
      assert [] + rest == rest;
    }
  }

  lemma LayeredNumber(e: Option<Fields>, h: Option<Fields>, g: Option<Fields>, n: NumberField)
    ensures var first, number := FirstNumber(Present(e) + Present(h) + Present(g), n),
                                 NumberOf(OrUnset(Layer(Layer(e, h), g)), n);
      if first.Some? then number == first.value else number < 0
  {
    FirstNumberStep(e, Present(h) + Present(g), n);
    FirstNumberStep(h, Present(g), n);
    FirstNumberStep(g, [], n);
    Assoc(Present(e), Present(h), Present(g));
    assert Present(g) + [] == Present(g);
  }

  lemma FirstNumberStep(f: Option<Fields>, rest: seq<Fields>, n: NumberField)
    ensures FirstNumber(Present(f) + rest, n)
      == if f.Some? && NumberOf(f.value, n) >= 0 then Some(NumberOf(f.value, n)) else FirstNumber(rest, n)
  {
    if f.Some? {
      assert ([f.value] + rest)[1..] == rest;
    } else {
      assert [] + rest == rest;
    }
  }

  /** Main result on the answer: every text and every number of it is the first one set where the
      query looks, and unset if there is none; but the user is the query's if it has one. */
  lemma AnswerIsFirstSet(c: Conf, q: Query, add: bool, sv: Services, t: TextField, n: NumberField)
    requires Valid(c) && Proper(q)
    ensures var answer, sources := Get(c, q, add, sv).0.fields, Sources(c, q, sv);
      && TextOf(answer, t) == (if t == User && HasUser(q) then q.user else FirstText(sources, t))
      && (match FirstNumber(sources, n)
          case Some(number) => NumberOf(answer, n) == number
          case None => NumberOf(answer, n) < 0)
  {
    var exact := if HasUser(q) then Find(c.list, QueryName(q, sv)) else None;
    GetIsEffective(c, q, add, sv);
    EffectiveIsExpected(c, q, sv);
    LayeredText(exact, Find(c.list, HostSection(q, sv)), Globals(c), t);
    LayeredNumber(exact, Find(c.list, HostSection(q, sv)), Globals(c), n);
  }

  // ----- exactly which queries are safe -----

  /** Asked of `c`, the query is answered as it should be, and caching it changes no answer to
      any proper query and leaves the names distinct. */
  ghost predicate Harmless(c: Conf, q: Query, add: bool, sv: Services)
    requires Valid(c)
  {
    var next := Get(c, q, true, sv).1;
    && Get(c, q, add, sv).0 == Node(Some(QueryName(q, sv)), Expected(c, q, sv))
    && Valid(next)
    && forall later | Proper(later) :: Expected(next, later, sv) == Expected(c, later, sv)
  }

  /** Main result on the limits: a query is harmless in every configuration exactly if it asks
      for something and its user has no `@`. */
  lemma HarmlessExactly(q: Query, sv: Services)
    ensures (forall c, add | Valid(c) :: Harmless(c, q, add, sv)) <==> Proper(q)
  {
    if Proper(q) {
      forall c, add | Valid(c)
        ensures Harmless(c, q, add, sv)
      {
        ProperIsHarmless(c, q, add, sv);
      }
    } else if AllNull(q) {
      NothingIsHarmful(q, sv);
    } else if q.user.value[0] == '@' {
      LeadingAtIsHarmful(q, sv);
    } else {
      LaterAtIsHarmful(q, sv);
    }
  }

  lemma ProperIsHarmless(c: Conf, q: Query, add: bool, sv: Services)
    requires Valid(c) && Proper(q)
    ensures Harmless(c, q, add, sv)
  {
    GetIsEffective(c, q, add, sv);
    EffectiveIsExpected(c, q, sv);
    CachingIsTransparent(c, q, q, sv);
    var next := Get(c, q, true, sv).1;
    forall later | Proper(later)
      ensures Expected(next, later, sv) == Expected(c, later, sv)
    {
      CachingIsTransparent(c, q, later, sv);
      EffectiveIsExpected(c, later, sv);
      EffectiveIsExpected(next, later, sv);
    }
  }

  lemma NothingIsHarmful(q: Query, sv: Services)
    requires AllNull(q)
    ensures exists c, add | Valid(c) :: !Harmless(c, q, add, sv)
  {
    var name := QueryName(q, sv);
    var c := Conf([Node(None, UNSET), Node(Some(name), UNSET)], Some(0));
    var next := Get(c, q, true, sv).1;
    assert next.list[1].section == next.list[2].section == Some(name);
    assert !Valid(next);
    assert Valid(c) && !Harmless(c, q, true, sv);
  }

  lemma LaterAtIsHarmful(q: Query, sv: Services)
    requires HasUser(q) && '@' in q.user.value && q.user.value[0] != '@'
    ensures exists c, add | Valid(c) :: !Harmless(c, q, add, sv)
  {
    var name, user := QueryName(q, sv), q.user.value;
    var at := IndexOf(user, '@');
    IndexOfFirst(user, '@');
    IndexOfAbsent(user, '@');
    assert name[..at] == user[..at] && name[at] == '@';
    IndexOfIs(name, '@', at);
    var c := Conf([Node(None, UNSET), Node(Some(name), UNSET)], Some(0));
    assert Search(c.list, 2, name, true, Hits(Some(1), None)) == Hits(Some(1), None);
    assert Search(c.list, 1, name, true, Hits(None, None)) == Hits(Some(1), None);
    assert HitsOf(c, q, sv) == Hits(Some(1), None);
    assert Get(c, q, false, sv).0.fields.user == Some(user[..at]);
    assert Expected(c, q, sv).user == q.user;
    assert Valid(c) && !Harmless(c, q, false, sv);
  }

  lemma LeadingAtIsHarmful(q: Query, sv: Services)
    requires HasUser(q) && q.user.value[0] == '@'
    ensures exists c, add | Valid(c) :: !Harmless(c, q, add, sv)
  {
    var name, host := QueryName(q, sv), HostSection(q, sv);
    assert |name| > |host|;
    assert name[0] == '@' && name[0..] == name;
    var f := UNSET.(pass := Some(""));
    var c := Conf([Node(Some(host), f)], None);
    assert Search(c.list, 1, name, true, Hits(None, None)) == Hits(None, None);
    assert HitsOf(c, q, sv) == Hits(None, None);
    assert Get(c, q, false, sv).0.fields.pass == None;
    assert Find(c.list, host) == Some(f);
    assert Find(c.list[1..], name) == None && Find(c.list, name) == None;
    assert Expected(c, q, sv).pass == Some("");
    assert Valid(c) && !Harmless(c, q, false, sv);
  }

  // ----- the list and the loop -----

  class AuthConf {
    var list: seq<Node>
    var globals: Option<nat>

    ghost function State(): Conf
      reads this
    {
      Conf(list, globals)
    }

    constructor (list: seq<Node>, globals: Option<nat>)
      ensures State() == Conf(list, globals)
    {
      this.list, this.globals := list, globals;
    }

    method SearchList(name: string, fixed: bool) returns (hits: Hits)
      ensures hits == Search(list, 0, name, fixed, Hits(None, None))
    {
      hits := Hits(None, None);
      var at := IndexOf(name, '@');
      var tmp := 0;
      while tmp < |list|
        invariant tmp <= |list|
        invariant Search(list, tmp, name, fixed, hits) == Search(list, 0, name, fixed, Hits(None, None))
      {
        if list[tmp].section == Some(name) {
          if fixed {
            if hits.host.Some? {
              return hits.(user := Some(tmp));
            }
            hits := hits.(user := Some(tmp));
          } else {
            return hits.(host := Some(tmp));
          }
        } else if fixed && list[tmp].section == Some(name[at..]) {
          hits := hits.(host := Some(tmp));
        }
        tmp := tmp + 1;
      }
    }

    method GetItem(q: Query, add: bool, sv: Services) returns (item: Node)
      requires ValidGlobals(State())
      modifies this`list
      ensures (item, State()) == Get(old(State()), q, add, sv)
    {
      var parts := NormalizeParts(q.user, q.host, q.port, sv);
      var name := Name(parts);
      var hits := Hits(None, None);
      if !AllNull(q) {
        hits := SearchList(name, HasUser(q));
      }
      assert hits == HitsOf(State(), q, sv);
      var found := if hits.user.Some? then hits.user else hits.host;
      var created := true;
      if found == None {
        if globals == None {
          item := Node(Some(name), UNSET);
        } else {
          item := Clone(list[globals.value].fields, name);
        }
      } else if !add || (hits.user == None && HasUser(q)) {
        item := Clone(list[found.value].fields, name);
      } else {
        item := list[found.value];
        created := false;
      }
      if HasUser(q) {
        item := item.(fields := item.fields.(user := q.user));
      }
      if hits.user.Some? && hits.host.Some? {
        item := Merge(list[hits.host.value].fields, item);
      }
      if found.Some? && globals.Some? {
        item := Merge(list[globals.value].fields, item);
      }
      if add {
        if created {
          list := list + [item];
        } else {
          list := list[found.value := item];
        }
      }
    }
  }
}
