/** The registry of SSL contexts (`upscli_ssl_context_config_find`, the caching part of
    `upscli_get_or_create_ssl_context`, `upscli_init2_finish`, `upscli_cleanup`). */
module SslRegistry {
  import opened Text

  /** The five arguments a context is cached under; a missing text differs from an empty one. */
  datatype Key = Key(
    certverify: int, certpath: Option<string>, certname: Option<string>,
    certpasswd: Option<string>, certfile: Option<string>)

  // ----- the specification: entries in order of creation, a handle is a position -----

  datatype Entry = Entry(key: Key, refcount: nat)

  datatype Reg = Reg(entries: seq<Entry>, ambient: Option<nat>)

  const EMPTY := Reg([], None)

  /** Position of the entry with this key, or the number of entries. */
  function Find(entries: seq<Entry>, key: Key): (h: nat)
    ensures h <= |entries|
    ensures h < |entries| ==> entries[h].key == key
  {
    if entries == [] || entries[0].key == key then 0 else 1 + Find(entries[1..], key)
  }

  /** `builds` is the SSL library's verdict on a new context. */
  datatype Call = Acquire(key: Key, builds: bool) | Init(key: Key, builds: bool) | Cleanup

  /** What a call gives its caller: the handle it obtained, and the return code of an init. */
  datatype Given = Given(handle: Option<nat>, code: int)

  function Acquired(r: Reg, key: Key, builds: bool): (Reg, Option<nat>)
  {
    var h := Find(r.entries, key);
    if h < |r.entries| then
      (r.(entries := r.entries[h := Entry(key, r.entries[h].refcount + 1)]), Some(h))
    else if builds then (r.(entries := r.entries + [Entry(key, 1)]), Some(h))
    else (r, None)
  }

  /** The tail of every init: the ambient default afterwards, and the return code. */
  function Finish(ambient: Option<nat>, h: Option<nat>): (Option<nat>, int)
  {
    if h == None then (ambient, -1)
    else if ambient == None then (h, 1)
    else (ambient, if ambient == h then 1 else 0)
  }

  function After(r: Reg, call: Call): (Reg, Given)
  {
    match call
    case Acquire(key, builds) =>
      var (next, h) := Acquired(r, key, builds);
      (next, Given(h, 0))
    case Init(key, builds) =>
      var (next, h) := Acquired(r, key, builds);
      (next.(ambient := Finish(next.ambient, h).0), Given(h, Finish(next.ambient, h).1))
    case Cleanup => (EMPTY, Given(None, 0))
  }

  function Run(r: Reg, calls: seq<Call>): (Reg, seq<Given>)
    decreases |calls|
  {
    if calls == [] then (r, [])
    else
      var (before, given) := Run(r, calls[..|calls| - 1]);
      var (next, g) := After(before, calls[|calls| - 1]);
      (next, given + [g])
  }

  predicate DistinctKeys(entries: seq<Entry>)
  {
    forall i, j | 0 <= i < j < |entries| :: entries[i].key != entries[j].key
  }

  lemma {:induction false} FindExact(entries: seq<Entry>, key: Key, h: nat)
    requires DistinctKeys(entries) && h < |entries| && entries[h].key == key
    ensures Find(entries, key) == h
    decreases |entries|
  {
    if entries[0].key != key {
      FindExact(entries[1..], key, h - 1);
    }
  }

  lemma {:induction false} FindMissing(entries: seq<Entry>, key: Key)
    requires Find(entries, key) == |entries|
    ensures forall i | 0 <= i < |entries| :: entries[i].key != key
    decreases |entries|
  {
    if entries != [] {
      FindMissing(entries[1..], key);
      forall i | 0 <= i < |entries|
        ensures entries[i].key != key
      {
        assert i > 0 ==> entries[i] == entries[1..][i - 1];
      }
    }
  }

  /** How often a handle was given out. */
  function TimesGiven(given: seq<Given>, h: nat): nat
  {
    if given == [] then 0
    else TimesGiven(given[..|given| - 1], h) + if given[|given| - 1].handle == Some(h) then 1 else 0
  }

  /** The handle of the first init that obtained one. */
  function FirstInit(calls: seq<Call>, given: seq<Given>): Option<nat>
    requires |calls| == |given|
  {
    if calls == [] then None
    else
      var before := FirstInit(calls[..|calls| - 1], given[..|given| - 1]);
      if before.Some? then before
      else if calls[|calls| - 1].Init? then given[|given| - 1].handle
      else None
  }

  predicate NoCleanup(calls: seq<Call>)
  {
    forall i | 0 <= i < |calls| :: !calls[i].Cleanup?
  }

  function KeyOf(call: Call): Key
    requires !call.Cleanup?
  {
    call.key
  }

  /** Every handle given out is still there, under the arguments it was asked for with. */
  ghost predicate HandlesKnown(calls: seq<Call>, entries: seq<Entry>, given: seq<Given>)
    requires NoCleanup(calls) && |given| == |calls|
  {
    forall i | 0 <= i < |calls| && given[i].handle.Some? ::
      given[i].handle.value < |entries| && entries[given[i].handle.value].key == KeyOf(calls[i])
  }

  /** Each reference count is the number of times its handle was given out. */
  ghost predicate Counted(entries: seq<Entry>, given: seq<Given>)
  {
    && (forall h: nat | h < |entries| :: entries[h].refcount == TimesGiven(given, h))
    && (forall h: nat | h >= |entries| :: TimesGiven(given, h) == 0)
  }

  /** What holds after every call sequence between two cleanups. */
  ghost predicate Faithful(calls: seq<Call>, r: Reg, given: seq<Given>)
    requires NoCleanup(calls)
  {
    && |given| == |calls|
    && DistinctKeys(r.entries)
    && HandlesKnown(calls, r.entries, given)
    && Counted(r.entries, given)
    && r.ambient == FirstInit(calls, given)
  }

  lemma AcquiredKeys(r: Reg, key: Key, builds: bool)
    requires DistinctKeys(r.entries)
    ensures var (next, h) := Acquired(r, key, builds);
      && DistinctKeys(next.entries)
      && |r.entries| <= |next.entries| && next.ambient == r.ambient
      && (forall i | 0 <= i < |r.entries| :: next.entries[i].key == r.entries[i].key)
      && (h.Some? ==> h.value < |next.entries| && next.entries[h.value].key == key)
      && (h == None ==> next == r)
  {
    if Find(r.entries, key) == |r.entries| {
      FindMissing(r.entries, key);
    }
  }

  lemma AcquiredCounts(r: Reg, key: Key, builds: bool, given: seq<Given>, g: Given)
    requires g.handle == Acquired(r, key, builds).1
    requires Counted(r.entries, given)
    ensures Counted(Acquired(r, key, builds).0.entries, given + [g])
  {
    var more := given + [g];
    assert more[..|more| - 1] == given && more[|more| - 1] == g;
  }

  lemma AcquiredHandles(calls: seq<Call>, last: Call, r: Reg, given: seq<Given>, g: Given)
    requires NoCleanup(calls + [last]) && NoCleanup(calls) && |given| == |calls| && !last.Cleanup?
    requires DistinctKeys(r.entries) && HandlesKnown(calls, r.entries, given)
    requires g.handle == Acquired(r, last.key, last.builds).1
    ensures HandlesKnown(calls + [last], Acquired(r, last.key, last.builds).0.entries, given + [g])
  {
    AcquiredKeys(r, last.key, last.builds);
  }

  /** Main result: every call sequence keeps the registry faithful. */
  lemma {:induction false} RegistryFaithful(calls: seq<Call>)
    requires NoCleanup(calls)
    ensures Faithful(calls, Run(EMPTY, calls).0, Run(EMPTY, calls).1)
    decreases |calls|
  {
    if calls != [] {
      var front, last := calls[..|calls| - 1], calls[|calls| - 1];
      assert calls == front + [last];
      RegistryFaithful(front);
      var (r, given) := Run(EMPTY, front);
      var (next, g) := After(r, last);
      AcquiredKeys(r, last.key, last.builds);
      AcquiredCounts(r, last.key, last.builds, given, g);
      AcquiredHandles(front, last, r, given, g);
      assert (given + [g])[..|front|] == given;
    }
  }

  predicate HasKey(entries: seq<Entry>, key: Key)
  {
    exists h | 0 <= h < |entries| :: entries[h].key == key
  }

  /** Some call asked for the key and the library built a context. */
  predicate Built(calls: seq<Call>, key: Key)
  {
    exists j | 0 <= j < |calls| :: !calls[j].Cleanup? && calls[j].key == key && calls[j].builds
  }

  lemma BuiltStep(front: seq<Call>, last: Call, key: Key)
    ensures Built(front + [last], key)
      <==> Built(front, key) || (!last.Cleanup? && last.key == key && last.builds)
  {
    var calls := front + [last];
    assert forall j | 0 <= j < |front| :: calls[j] == front[j];
    assert calls[|front|] == last;
  }

  lemma AcquiredHas(r: Reg, key: Key, builds: bool, other: Key)
    ensures var (next, h) := Acquired(r, key, builds);
      && (h.Some? <==> HasKey(r.entries, key) || builds)
      && (HasKey(next.entries, other) <==> HasKey(r.entries, other) || (other == key && builds))
  {
    var (next, h) := Acquired(r, key, builds);
    var at := Find(r.entries, key);
    if at == |r.entries| {
      FindMissing(r.entries, key);
    }
    assert forall i | 0 <= i < |r.entries| :: next.entries[i].key == r.entries[i].key;
    if builds && at == |r.entries| {
      assert next.entries[at].key == key;
    }
  }

  lemma {:induction false} KeysAreBuilt(calls: seq<Call>, key: Key)
    requires NoCleanup(calls)
    ensures HasKey(Run(EMPTY, calls).0.entries, key) <==> Built(calls, key)
    decreases |calls|
  {
    if calls != [] {
      var front, last := calls[..|calls| - 1], calls[|calls| - 1];
      assert calls == front + [last];
      KeysAreBuilt(front, key);
      BuiltStep(front, last, key);
      AcquiredHas(Run(EMPTY, front).0, last.key, last.builds, key);
    }
  }

  /** Main result on success: a call of a run obtains a context exactly if the library builds one
      for it, or has built one for the same five arguments before. */
  lemma CallSucceedsExactly(calls: seq<Call>, i: nat)
    requires NoCleanup(calls) && i < |calls|
    ensures |Run(EMPTY, calls).1| == |calls|
    ensures Run(EMPTY, calls).1[i].handle.Some? <==> Built(calls[..i + 1], KeyOf(calls[i]))
  {
    var upTo, before := calls[..i + 1], calls[..i];
    GivenPrefix(calls, i + 1);
    GivenLength(before);
    assert upTo == before + [calls[i]] && upTo[..|upTo| - 1] == before;
    KeysAreBuilt(before, KeyOf(calls[i]));
    BuiltStep(before, calls[i], KeyOf(calls[i]));
    AcquiredHas(Run(EMPTY, before).0, calls[i].key, calls[i].builds, calls[i].key);
    assert Run(EMPTY, upTo).1[i] == After(Run(EMPTY, before).0, calls[i]).1;
  }

  /** Two calls that succeeded got the same handle exactly when all five arguments agree. */
  lemma SameHandleIffSameKey(calls: seq<Call>, i: nat, j: nat)
    requires NoCleanup(calls) && i < |calls| && j < |calls|
    requires |Run(EMPTY, calls).1| == |calls|
    requires Run(EMPTY, calls).1[i].handle.Some? && Run(EMPTY, calls).1[j].handle.Some?
    ensures Run(EMPTY, calls).1[i].handle == Run(EMPTY, calls).1[j].handle
      <==> KeyOf(calls[i]) == KeyOf(calls[j])
  {
    RegistryFaithful(calls);
    var (r, given) := Run(EMPTY, calls);
    var hi, hj := given[i].handle.value, given[j].handle.value;
    if KeyOf(calls[i]) == KeyOf(calls[j]) {
      FindExact(r.entries, KeyOf(calls[i]), hi);
      FindExact(r.entries, KeyOf(calls[j]), hj);
    }
  }

  lemma {:induction false} GivenLength(calls: seq<Call>)
    ensures |Run(EMPTY, calls).1| == |calls|
    decreases |calls|
  {
    if calls != [] {
      GivenLength(calls[..|calls| - 1]);
    }
  }

  /** Later calls do not change what earlier ones were given. */
  lemma {:induction false} GivenPrefix(calls: seq<Call>, n: nat)
    requires n <= |calls|
    ensures |Run(EMPTY, calls).1| == |calls|
    ensures Run(EMPTY, calls[..n]).1 == Run(EMPTY, calls).1[..n]
    decreases |calls|
  {
    GivenLength(calls);
    if n == |calls| {
      assert calls[..n] == calls;
      assert Run(EMPTY, calls).1[..n] == Run(EMPTY, calls).1;
    } else {
      var front := calls[..|calls| - 1];
      assert front[..n] == calls[..n];
      GivenPrefix(front, n);
      assert Run(EMPTY, calls).1[..n] == Run(EMPTY, front).1[..n];
    }
  }

  lemma InitGives(r: Reg, key: Key, builds: bool)
    ensures var (next, g) := After(r, Init(key, builds));
      && next.ambient == (if r.ambient.Some? then r.ambient else g.handle)
      && g.code == if g.handle == None then -1 else if g.handle == next.ambient then 1 else 0
  {
  }

  /** The code every init of a run returns: -1 if it obtained nothing, 1 exactly if it obtained
      what the first successful init up to it did, and 0 for any other context. */
  lemma InitCodes(calls: seq<Call>, i: nat)
    requires NoCleanup(calls) && i < |calls| && calls[i].Init?
    ensures var given := Run(EMPTY, calls).1;
      && |given| == |calls|
      && given[i].code == if given[i].handle == None then -1
                          else if given[i].handle == FirstInit(calls[..i + 1], given[..i + 1]) then 1
                          else 0
  {
    var upTo, before := calls[..i + 1], calls[..i];
    GivenPrefix(calls, i + 1);
    assert upTo[..i] == before && upTo[i] == calls[i];
    RegistryFaithful(upTo);
    InitGives(Run(EMPTY, before).0, calls[i].key, calls[i].builds);
    assert Run(EMPTY, upTo).1[i] == After(Run(EMPTY, before).0, calls[i]).1 by {
      GivenLength(before);
    }
  }

  /** Until a cleanup the ambient default is the first successful init's handle. */
  lemma {:induction false} AmbientIsFirstInit(calls: seq<Call>)
    requires NoCleanup(calls)
    ensures |Run(EMPTY, calls).1| == |calls|
    ensures Run(EMPTY, calls).0.ambient == FirstInit(calls, Run(EMPTY, calls).1)
  {
    RegistryFaithful(calls);
  }

  /** A cleanup forgets everything: the calls behind it leave the registry as they would from
      the start, and are given the same handles and codes. */
  lemma {:induction false} CleanupStartsOver(before: seq<Call>, after: seq<Call>)
    ensures var all := Run(EMPTY, before + [Cleanup] + after);
      && all.0 == Run(EMPTY, after).0
      && |all.1| == |before| + 1 + |after|
      && all.1[|before| + 1..] == Run(EMPTY, after).1
    decreases |after|
  {
    var calls := before + [Cleanup] + after;
    GivenLength(calls);
    GivenLength(after);
    if after == [] {
      assert calls[|calls| - 1] == Cleanup;
    } else {
      var front := calls[..|calls| - 1];
      GivenLength(front);
      CleanupStartsOver(before, after[..|after| - 1]);
      assert front == before + [Cleanup] + after[..|after| - 1];
      assert calls[|calls| - 1] == after[|after| - 1];
      OneMoreGiven(Run(EMPTY, front).1, |before| + 1, After(Run(EMPTY, front).0, calls[|calls| - 1]).1);
    }
  }

  lemma OneMoreGiven(given: seq<Given>, n: nat, g: Given)
    requires n <= |given|
    ensures (given + [g])[n..] == given[n..] + [g]
  {
  }

  // ----- the linked list -----

  class Context {
    const key: Key
    ghost const id: nat  // how many contexts were there before this one
    var refcount: nat
    var next: Context?

    constructor (key: Key, ghost id: nat)
      ensures this.key == key && this.id == id && refcount == 1 && next == null
    {
      this.key := key;
      this.id := id;
      refcount := 1;
      next := null;
    }
  }

  /** A handle as the specification counts them. */
  ghost function Handle(c: Context?): Option<nat>
  {
    if c == null then None else Some(c.id)
  }

  ghost function EntriesOf(nodes: seq<Context>): (es: seq<Entry>)
    reads nodes
    ensures |es| == |nodes|
    ensures forall i | 0 <= i < |nodes| :: es[i] == Entry(nodes[i].key, nodes[i].refcount)
  {
    seq(|nodes|, i requires 0 <= i < |nodes| reads nodes => Entry(nodes[i].key, nodes[i].refcount))
  }

  class Registry {
    var head: Context?
    var ambient: Context?
    ghost var nodes: seq<Context>  // in order of creation: the list runs from the last one down

    /** The context created before position `i`. */
    ghost function Below(i: nat): Context?
      requires i <= |nodes|
      reads this
    {
      if i == 0 then null else nodes[i - 1]
    }

    ghost predicate Valid()
      reads this, nodes
    {
      && (forall i | 0 <= i < |nodes| :: nodes[i].id == i)
      && head == Below(|nodes|)
      && (forall i {:trigger nodes[i].next} | 0 <= i < |nodes| :: nodes[i].next == Below(i))
      && (ambient != null ==> ambient in nodes)
      && (forall i, j | 0 <= i < j < |nodes| :: nodes[i].key != nodes[j].key)
    }

    ghost function Entries(): (es: seq<Entry>)
      reads this`nodes, nodes
    {
      EntriesOf(nodes)
    }

    ghost function State(): Reg
      requires Valid()
      reads this, nodes
    {
      Reg(Entries(), Handle(ambient))
    }

    constructor ()
      ensures Valid() && State() == EMPTY
    {
      head, ambient, nodes := null, null, [];
    }

    method FindContext(key: Key) returns (cfg: Context?)
      requires Valid()
      ensures var h := Find(Entries(), key);
        if h < |nodes| then cfg == nodes[h] else cfg == null
    {
      cfg := head;
      ghost var n := |nodes|;
      while cfg != null
        invariant 0 <= n <= |nodes|
        invariant cfg == Below(n)
        invariant forall i | n <= i < |nodes| :: nodes[i].key != key
        decreases n
      {
        assert cfg == nodes[n - 1] && cfg.next == Below(n - 1);
        if cfg.key == key {
          FindExact(Entries(), key, n - 1);
          return;
        }
        cfg := cfg.next;
        n := n - 1;
      }
    }

    /** One more reference to a context already there. */
    method AddReference(cfg: Context, ghost h: nat)
      requires Valid() && h < |nodes| && nodes[h] == cfg
      modifies cfg`refcount
      ensures Valid()
      ensures Entries() == old(Entries())[h := Entry(cfg.key, old(Entries())[h].refcount + 1)]
    {
      cfg.refcount := cfg.refcount + 1;
    }

    method Prepend(key: Key) returns (cfg: Context)
      requires Valid() && forall i | 0 <= i < |nodes| :: nodes[i].key != key
      modifies this`head, this`nodes
      ensures Valid() && fresh(cfg) && nodes == old(nodes) + [cfg]
      ensures cfg.key == key && cfg.refcount == 1 && cfg.id == |old(nodes)|
    {
      ghost var ns := nodes;
      cfg := new Context(key, |ns|);
      cfg.next := head;
      assert cfg.next == Below(|ns|);
      head := cfg;
      nodes := ns + [cfg];
      assert nodes[|ns|] == cfg && nodes[..|ns|] == ns;
      assert forall i | 0 <= i < |ns| :: nodes[i] == ns[i];
    }

    /** A context the library built, put first. */
    method AddBuilt(key: Key) returns (cfg: Context)
      requires Valid() && Find(Entries(), key) == |nodes|
      modifies this`head, this`nodes
      ensures Valid() && nodes == old(nodes) + [cfg] && cfg.id == |old(nodes)|
      ensures Entries() == old(Entries()) + [Entry(key, 1)]
    {
      FindMissing(Entries(), key);
      forall i | 0 <= i < |nodes|
        ensures nodes[i].key != key
      {
        assert Entries()[i].key != key;
      }
      ghost var es := Entries();
      cfg := Prepend(key);
      assert Entries() == es + [Entry(key, 1)];
    }

    /** The cached context with one more reference, or a new one if the library builds it. */
    method GetOrCreate(key: Key, builds: bool) returns (cfg: Context?)
      requires Valid()
      modifies this`head, this`nodes, nodes`refcount
      ensures Valid()
      ensures cfg != null ==> cfg in nodes
      ensures Entries() == Acquired(old(State()), key, builds).0.entries
      ensures Handle(cfg) == Acquired(old(State()), key, builds).1
    {
      cfg := FindContext(key);
      ghost var h := Find(Entries(), key);
      if cfg != null {
        AddReference(cfg, h);
        return;
      }
      if !builds {
        return;
      }
      cfg := AddBuilt(key);
      assert nodes[|nodes| - 1] == cfg;
    }

    method InitFinish(cfg: Context?) returns (code: int)
      requires Valid() && (cfg != null ==> cfg in nodes)
      modifies this`ambient
      ensures Valid()
      ensures (Handle(ambient), code) == Finish(old(Handle(ambient)), Handle(cfg))
    {
      if cfg == null {
        return -1;
      }
      if ambient == null {
        ambient := cfg;
        return 1;
      }
      if cfg == ambient {
        return 1;
      }
      return 0;
    }

    method Init(key: Key, builds: bool) returns (code: int, cfg: Context?)
      requires Valid()
      modifies this, nodes
      ensures Valid()
      ensures After(old(State()), Call.Init(key, builds)) == (State(), Given(Handle(cfg), code))
    {
      cfg := GetOrCreate(key, builds);
      code := InitFinish(cfg);
    }

    method CleanupAll()
      requires Valid()
      modifies this
      ensures Valid()
      ensures State() == EMPTY
    {
      head, ambient, nodes := null, null, [];
    }
  }
}
