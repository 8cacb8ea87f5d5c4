/** The map from thread control structures to their events: created on first use
    under a spin lock, searched and extended under a mutex, by any number of threads
    in any interleaving. */
module TcsCache {
  import opened Wrappers
  import opened Ring

  /** The null event. */
  const NULL: nat := 0

  /** An entry of the ring. */
  datatype Info = Info(tcs: nat, event: nat)

  /** A cache; `order` is a history, the newest entry first. */
  datatype Cache = Cache(owner: Owner, links: Links, infos: map<nat, Info>, order: seq<nat>)
  datatype Owner = Free | Owned(thread: nat)

  /** Where a call of `get_tcs_event` is. `at` counts the places passed in the scan. */
  datatype Pc =
    | Out
    | Try(tcs: nat)
    | Spin(tcs: nat)
    | Check(tcs: nat)
    | Unlock(tcs: nat)
    | Read(tcs: nat)
    | Lock(tcs: nat, cache: nat)
    | Scan(tcs: nat, cache: nat, node: nat, at: nat)
    | Add(tcs: nat, cache: nat)
    | Leave(tcs: nat, cache: nat, event: nat)

  /** `spin` is the lock word together with who set it. `unused` is an address not
      used yet. `results` are the calls that have returned, in order. */
  datatype State = State(threads: seq<Pc>, spin: Owner, global: Option<nat>, caches: seq<Cache>,
                         unused: nat, results: seq<(nat, nat)>)

  /** What may happen next in a thread; memory may run out. */
  datatype Step =
    | Call(tcs: nat)
    | Exchange
    | Look
    | Create(memory: bool)
    | Release
    | ReadGlobal
    | Acquire
    | Visit
    | Append(entryMemory: bool, eventMemory: bool)
    | Return

  // ----- steps

  predicate Enabled(s: State, t: nat, step: Step) {
    t < |s.threads| &&
    var pc := s.threads[t];
    match step
    case Call(_) => pc.Out?
    case Exchange => pc.Try?
    case Look => pc.Spin?
    case Create(_) => pc.Check?
    case Release => pc.Unlock?
    case ReadGlobal => pc.Read?
    case Acquire => pc.Lock? && pc.cache < |s.caches| && s.caches[pc.cache].owner.Free?
    case Visit => pc.Scan? && pc.cache < |s.caches| && InRing(s.caches[pc.cache], pc.node)
    case Append(_, _) => pc.Add? && pc.cache < |s.caches| && HEAD in s.caches[pc.cache].links.next
    case Return => pc.Leave? && pc.cache < |s.caches|
  }

  predicate InRing(c: Cache, node: nat) {
    HEAD in c.links.next && (node == HEAD || (node in c.links.next && node in c.infos))
  }

  function Goto(s: State, t: nat, pc: Pc): State
    requires t < |s.threads|
  {
    s.(threads := s.threads[t := pc])
  }

  function SetCache(s: State, c: nat, cache: Cache): State
    requires c < |s.caches|
  {
    s.(caches := s.caches[c := cache])
  }

  function NewCache(): Cache { Cache(Free, InitHead(), map[], []) }

  function Next(s: State, t: nat, step: Step): State
    requires Enabled(s, t, step)
  {
    var pc := s.threads[t];
    match step
    case Call(tcs) => Goto(s, t, Try(tcs))
    case Exchange =>
      if s.spin.Free? then Goto(s.(spin := Owned(t)), t, Check(pc.tcs)) else Goto(s, t, Spin(pc.tcs))
    case Look => if s.spin.Free? then Goto(s, t, Try(pc.tcs)) else s
    case Create(memory) =>
      if s.global.None? && memory then
        Goto(s.(global := Some(|s.caches|), caches := s.caches + [NewCache()]), t, Unlock(pc.tcs))
      else Goto(s, t, Unlock(pc.tcs))
    case Release => Goto(s.(spin := Free), t, Read(pc.tcs))
    case ReadGlobal =>
      if s.global.None? then Goto(s.(results := s.results + [(pc.tcs, NULL)]), t, Out)
      else Goto(s, t, Lock(pc.tcs, s.global.value))
    case Acquire =>
      var c := s.caches[pc.cache];
      var first := if HEAD in c.links.next then c.links.next[HEAD] else HEAD;
      Goto(SetCache(s, pc.cache, c.(owner := Owned(t))), t, Scan(pc.tcs, pc.cache, first, 1))
    case Visit =>
      var c := s.caches[pc.cache];
      if pc.node == HEAD then Goto(s, t, Add(pc.tcs, pc.cache))
      else if c.infos[pc.node].tcs == pc.tcs then Goto(s, t, Leave(pc.tcs, pc.cache, c.infos[pc.node].event))
      else Goto(s, t, Scan(pc.tcs, pc.cache, c.links.next[pc.node], pc.at + 1))
    case Append(entryMemory, eventMemory) =>
      if !entryMemory then Goto(s, t, Leave(pc.tcs, pc.cache, NULL))
      else
        var c := s.caches[pc.cache];
        var node := s.unused;
        var event := if eventMemory then s.unused + 1 else NULL;
        Goto(SetCache(s.(unused := s.unused + 2), pc.cache, Appended(c, node, Info(pc.tcs, event))), t,
             Leave(pc.tcs, pc.cache, event))
    case Return =>
      var c := s.caches[pc.cache];
      Goto(SetCache(s.(results := s.results + [(pc.tcs, pc.event)]), pc.cache, c.(owner := Free)), t, Out)
  }

  function Appended(c: Cache, node: nat, info: Info): Cache
    requires HEAD in c.links.next
  {
    c.(links := ListAdd(c.links, node), infos := c.infos[node := info], order := [node] + c.order)
  }

  function Init(n: nat): State { State(seq(n, _ => Out), Free, None, [], 1, []) }

  // ----- runs

  predicate Legal(s: State, run: seq<(nat, Step)>)
    decreases |run|
  {
    run == [] || (Enabled(s, run[0].0, run[0].1) && Legal(Next(s, run[0].0, run[0].1), run[1..]))
  }

  function Run(s: State, run: seq<(nat, Step)>): State
    requires Legal(s, run)
    decreases |run|
  {
    if run == [] then s else Run(Next(s, run[0].0, run[0].1), run[1..])
  }

  // ----- the invariant

  /** The entry for `tcs` has the event `event`. */
  ghost predicate Maps(c: Cache, tcs: nat, event: nat) {
    exists k :: 0 <= k < |c.order| && c.order[k] in c.infos && c.infos[c.order[k]] == Info(tcs, event)
  }

  /** A well formed ring of addresses in use, with one entry for each thread and one
      thread for each event. */
  ghost predicate GoodCache(c: Cache, unused: nat) {
    WellFormed(c.links, c.order)
    && (forall k :: 0 <= k < |c.order| ==>
          c.order[k] in c.infos && c.order[k] < unused && c.infos[c.order[k]].event < unused)
    && (forall i, j :: 0 <= i < j < |c.order| ==> Differ(c.infos[c.order[i]], c.infos[c.order[j]]))
  }

  predicate Differ(a: Info, b: Info) { a.tcs != b.tcs && (a.event == b.event ==> a.event == NULL) }

  predicate InSpin(pc: Pc) { pc.Check? || pc.Unlock? }

  predicate InMutex(pc: Pc) { pc.Scan? || pc.Add? || pc.Leave? }

  /** No entry before place `n` is for `tcs`. */
  ghost predicate NotBefore(c: Cache, tcs: nat, n: nat) {
    forall k :: 0 <= k < |c.order| && k + 1 < n && c.order[k] in c.infos ==> c.infos[c.order[k]].tcs != tcs
  }

  /** What a thread inside the mutex knows of the cache. */
  ghost predicate Knows(pc: Pc, c: Cache) {
    match pc
    case Scan(tcs, _, node, at) => 1 <= at <= |c.order| + 1 && node == At(c.order, at) && NotBefore(c, tcs, at)
    case Add(tcs, _) => NotBefore(c, tcs, |c.order| + 1)
    case Leave(tcs, _, event) => Maps(c, tcs, event) || (event == NULL && NotBefore(c, tcs, |c.order| + 1))
    case _ => true
  }

  /** What holds of one thread. */
  ghost predicate Local(t: nat, pc: Pc, spin: Owner, caches: seq<Cache>) {
    && (InSpin(pc) <==> spin == Owned(t))
    && (InMutex(pc) <==> caches != [] && caches[0].owner == Owned(t))
    && (pc.Lock? || InMutex(pc) ==> pc.cache == 0 && caches != [])
    && (InMutex(pc) ==> Knows(pc, caches[0]))
  }

  /** At most one cache, which the global names; every event returned is mapped. */
  ghost predicate Shared(s: State) {
    && s.unused > 0 && |s.caches| <= 1 && s.global == (if s.caches == [] then None else Some(0))
    && (s.caches != [] ==> GoodCache(s.caches[0], s.unused))
    && (forall r :: r in s.results && r.1 != NULL ==> s.caches != [] && Maps(s.caches[0], r.0, r.1))
    && Steady(s.results)
  }

  /** Once a call has returned an event, later calls for the same TCS return it too. */
  ghost predicate Steady(results: seq<(nat, nat)>) {
    forall i, j :: 0 <= i < j < |results| && results[i].0 == results[j].0 && results[i].1 != NULL ==>
      results[j].1 == results[i].1
  }

  lemma SteadySnoc(results: seq<(nat, nat)>, r: (nat, nat))
    requires Steady(results) && forall p :: p in results && p.0 == r.0 && p.1 != NULL ==> p.1 == r.1
    ensures Steady(results + [r])
  {
    var all := results + [r];
    forall i, j | 0 <= i < j < |all| && all[i].0 == all[j].0 && all[i].1 != NULL ensures all[j].1 == all[i].1 {
      if j == |results| { assert all[i] in results; }
    }
  }

  ghost predicate Inv(s: State) {
    Shared(s) && forall t :: 0 <= t < |s.threads| ==> Local(t, s.threads[t], s.spin, s.caches)
  }

  // ----- every step keeps it

  /** A step of `t` that leaves the locks of the others alone. */
  ghost predicate Touches(t: nat, s: State, s': State) {
    && (s'.spin == s.spin || (s.spin != s'.spin && Mine(t, s.spin) && Mine(t, s'.spin)))
    && (|| s'.caches == s.caches
        || (s.caches == [] && |s'.caches| == 1 && s'.caches[0].owner.Free?)
        || (|s.caches| == 1 && |s'.caches| == 1 && Mine(t, s.caches[0].owner) && Mine(t, s'.caches[0].owner)))
  }

  predicate Mine(t: nat, owner: Owner) { owner == Free || owner == Owned(t) }

  lemma Others(t: nat, u: nat, pc: Pc, s: State, s': State)
    requires u != t && Local(u, pc, s.spin, s.caches) && Touches(t, s, s')
    ensures Local(u, pc, s'.spin, s'.caches)
  {
    hide Knows;
  }

  lemma Conclude(t: nat, s: State, s': State)
    requires Inv(s) && t < |s.threads| == |s'.threads| && Touches(t, s, s') && Shared(s')
    requires Local(t, s'.threads[t], s'.spin, s'.caches)
    requires forall u :: 0 <= u < |s.threads| && u != t ==> s'.threads[u] == s.threads[u]
    ensures Inv(s')
  {
    hide Local, Touches, Shared;
    forall u | 0 <= u < |s'.threads| ensures Local(u, s'.threads[u], s'.spin, s'.caches) {
      if u != t { Others(t, u, s.threads[u], s, s'); }
    }
  }

  lemma Start(n: nat)
    ensures Inv(Init(n))
  {}

  /** Steps outside the mutex. */
  lemma OuterStep(s: State, t: nat, step: Step)
    requires Inv(s) && Enabled(s, t, step)
    requires step.Call? || step.Exchange? || step.Look? || step.Release? || step.ReadGlobal?
    ensures Inv(Next(s, t, step))
  {
    hide GoodCache, Knows, Maps, Steady;
    assert Local(t, s.threads[t], s.spin, s.caches);
    if step.ReadGlobal? && s.global.None? { SteadySnoc(s.results, (s.threads[t].tcs, NULL)); }
    Conclude(t, s, Next(s, t, step));
  }

  lemma CreateStep(s: State, t: nat, step: Step)
    requires Inv(s) && Enabled(s, t, step) && step.Create?
    ensures Inv(Next(s, t, step))
  {
    hide Knows, Maps, Steady;
    assert Local(t, s.threads[t], s.spin, s.caches);
    InitWellFormed();
    Conclude(t, s, Next(s, t, step));
  }

  lemma AcquireStep(s: State, t: nat, step: Step)
    requires Inv(s) && Enabled(s, t, step) && step.Acquire?
    ensures Inv(Next(s, t, step))
  {
    assert Local(t, s.threads[t], s.spin, s.caches);
    NextAt(s.caches[0].links, s.caches[0].order, 0);
    SameEntries(s.caches[0], Owned(t), s.unused);
    hide GoodCache, Maps, Steady;
    Conclude(t, s, Next(s, t, step));
  }

  /** The owner of the mutex is no part of the map. */
  lemma SameEntries(c: Cache, owner: Owner, unused: nat)
    requires GoodCache(c, unused)
    ensures GoodCache(c.(owner := owner), unused)
    ensures forall tcs, event :: Maps(c, tcs, event) <==> Maps(c.(owner := owner), tcs, event)
  {
    forall tcs, event ensures Maps(c, tcs, event) <==> Maps(c.(owner := owner), tcs, event) {}
  }

  lemma VisitKnows(pc: Pc, c: Cache, unused: nat)
    requires GoodCache(c, unused) && pc.Scan? && Knows(pc, c) && InRing(c, pc.node)
    ensures pc.node == HEAD ==> Knows(Add(pc.tcs, pc.cache), c)
    ensures pc.node != HEAD && c.infos[pc.node].tcs == pc.tcs ==>
      Knows(Leave(pc.tcs, pc.cache, c.infos[pc.node].event), c)
    ensures pc.node != HEAD && c.infos[pc.node].tcs != pc.tcs ==>
      Knows(Scan(pc.tcs, pc.cache, c.links.next[pc.node], pc.at + 1), c)
  {
    EndIsHead(c.order, pc.at);
    if pc.node != HEAD {
      NextAt(c.links, c.order, pc.at);
      var k := pc.at - 1;
      assert c.order[k] == pc.node;
    }
  }

  lemma VisitStep(s: State, t: nat, step: Step)
    requires Inv(s) && Enabled(s, t, step) && step.Visit?
    ensures Inv(Next(s, t, step))
  {
    assert Local(t, s.threads[t], s.spin, s.caches);
    hide GoodCache, Knows, Maps, Steady;
    VisitKnows(s.threads[t], s.caches[0], s.unused);
    Conclude(t, s, Next(s, t, step));
  }

  lemma AppendGood(c: Cache, unused: nat, tcs: nat, event: nat)
    requires GoodCache(c, unused) && unused > 0 && HEAD in c.links.next && NotBefore(c, tcs, |c.order| + 1)
    requires event == NULL || event == unused + 1
    ensures var c' := Appended(c, unused, Info(tcs, event));
      GoodCache(c', unused + 2) && Maps(c', tcs, event)
  {
    var c' := Appended(c, unused, Info(tcs, event));
    AddWellFormed(c.links, c.order, unused);
    assert c'.order[0] == unused;
    forall i, j | 0 <= i < j < |c'.order| ensures Differ(c'.infos[c'.order[i]], c'.infos[c'.order[j]]) {
      assert c'.order[j] == c.order[j - 1];
      if i > 0 { assert c'.order[i] == c.order[i - 1]; }
    }
  }

  lemma AppendMaps(c: Cache, unused: nat, info: Info, tcs: nat, event: nat)
    requires GoodCache(c, unused) && HEAD in c.links.next && Maps(c, tcs, event)
    ensures Maps(Appended(c, unused, info), tcs, event)
  {
    var k :| 0 <= k < |c.order| && c.order[k] in c.infos && c.infos[c.order[k]] == Info(tcs, event);
    assert Appended(c, unused, info).order[k + 1] == c.order[k];
  }

  lemma AppendNothing(s: State, t: nat, step: Step)
    requires Inv(s) && Enabled(s, t, step) && step.Append? && !step.entryMemory
    ensures Inv(Next(s, t, step))
  {
    hide GoodCache, Maps, NotBefore, Steady;
    assert Local(t, s.threads[t], s.spin, s.caches);
    Conclude(t, s, Next(s, t, step));
  }

  lemma AppendStep(s: State, t: nat, step: Step)
    requires Inv(s) && Enabled(s, t, step) && step.Append? && step.entryMemory
    ensures Inv(Next(s, t, step))
  {
    var pc, c := s.threads[t], s.caches[0];
    assert Local(t, pc, s.spin, s.caches);
    var event := if step.eventMemory then s.unused + 1 else NULL;
    AppendGood(c, s.unused, pc.tcs, event);
    hide GoodCache, Maps, Appended, NotBefore, Steady, Inv;
    AppendShared(s, pc.tcs, event);
    AppendOwner(c, s.unused, Info(pc.tcs, event));
    Conclude(t, s, Next(s, t, step));
  }

  lemma AppendOwner(c: Cache, node: nat, info: Info)
    requires HEAD in c.links.next
    ensures Appended(c, node, info).owner == c.owner
  {}

  /** Events that were mapped stay mapped. */
  lemma AppendShared(s: State, tcs: nat, event: nat)
    requires Shared(s) && s.caches != [] && HEAD in s.caches[0].links.next
    requires GoodCache(Appended(s.caches[0], s.unused, Info(tcs, event)), s.unused + 2)
    ensures Shared(SetCache(s.(unused := s.unused + 2), 0, Appended(s.caches[0], s.unused, Info(tcs, event))))
  {
    hide GoodCache, Maps, Appended, Steady;
    forall r | r in s.results && r.1 != NULL ensures Maps(Appended(s.caches[0], s.unused, Info(tcs, event)), r.0, r.1) {
      AppendMaps(s.caches[0], s.unused, Info(tcs, event), r.0, r.1);
    }
  }

  lemma ReturnStep(s: State, t: nat, step: Step)
    requires Inv(s) && Enabled(s, t, step) && step.Return?
    ensures Inv(Next(s, t, step))
  {
    var pc, c := s.threads[t], s.caches[0];
    assert Local(t, pc, s.spin, s.caches);
    SameEntries(c, Free, s.unused);
    forall p | p in s.results && p.0 == pc.tcs && p.1 != NULL ensures p.1 == pc.event {
      MappedLeave(pc, c, s.unused, p.1);
    }
    SteadySnoc(s.results, (pc.tcs, pc.event));
    hide GoodCache, Maps, Steady;
    Conclude(t, s, Next(s, t, step));
  }

  /** A thread that leaves has the event its TCS is mapped to. */
  lemma MappedLeave(pc: Pc, c: Cache, unused: nat, event: nat)
    requires GoodCache(c, unused) && pc.Leave? && Knows(pc, c) && Maps(c, pc.tcs, event)
    ensures pc.event == event
  {
    if Maps(c, pc.tcs, pc.event) { MapsSame(c, unused, pc.tcs, pc.event, event); }
  }

  lemma StepKeeps(s: State, t: nat, step: Step)
    requires Inv(s) && Enabled(s, t, step)
    ensures Inv(Next(s, t, step))
  {
    hide Inv, Enabled, Next;
    match step
    case Create(_) => CreateStep(s, t, step);
    case Acquire => AcquireStep(s, t, step);
    case Visit => VisitStep(s, t, step);
    case Append(entryMemory, _) => if entryMemory { AppendStep(s, t, step); } else { AppendNothing(s, t, step); }
    case Return => ReturnStep(s, t, step);
    case _ => OuterStep(s, t, step);
  }

  lemma {:induction false} RunKeeps(s: State, run: seq<(nat, Step)>)
    requires Inv(s) && Legal(s, run)
    ensures Inv(Run(s, run))
    decreases |run|
  {
    hide Inv, Enabled, Next;
    if run != [] {
      StepKeeps(s, run[0].0, run[0].1);
      RunKeeps(Next(s, run[0].0, run[0].1), run[1..]);
    }
  }

  // ----- what follows for every run

  /** The cache of a reachable state is unique and its ring is well formed. */
  lemma OneCache(n: nat, run: seq<(nat, Step)>)
    requires Legal(Init(n), run)
    ensures var s := Run(Init(n), run);
      && |s.caches| <= 1 && (s.global.Some? <==> s.caches != [])
      && forall c :: 0 <= c < |s.caches| ==> GoodCache(s.caches[c], s.unused)
  {
    hide Legal, Run, GoodCache;
    Start(n);
    RunKeeps(Init(n), run);
  }

  /** All calls for a thread that return an event return the same one. */
  lemma SameEvent(n: nat, run: seq<(nat, Step)>, tcs: nat, a: nat, b: nat)
    requires Legal(Init(n), run)
    requires var s := Run(Init(n), run);
      (tcs, a) in s.results && (tcs, b) in s.results && a != NULL && b != NULL
    ensures a == b
  {
    hide Legal, Run;
    Start(n);
    RunKeeps(Init(n), run);
    var s := Run(Init(n), run);
    MapsSame(s.caches[0], s.unused, tcs, a, b);
  }

  /** Once a call for a thread has returned an event, every later one returns it as well. */
  lemma LaterSame(n: nat, run: seq<(nat, Step)>, i: nat, j: nat)
    requires Legal(Init(n), run) && i < j < |Run(Init(n), run).results|
    requires var r := Run(Init(n), run).results; r[i].0 == r[j].0 && r[i].1 != NULL
    ensures var r := Run(Init(n), run).results; r[j] == r[i]
  {
    hide Legal, Run;
    Start(n);
    RunKeeps(Init(n), run);
  }

  /** Results are never taken back. */
  lemma {:induction false} ResultsStay(s: State, run: seq<(nat, Step)>)
    requires Legal(s, run)
    ensures s.results <= Run(s, run).results
    decreases |run|
  {
    if run != [] { ResultsStay(Next(s, run[0].0, run[0].1), run[1..]); }
  }

  /** Calls for different threads never return the same event. */
  lemma OwnEvent(n: nat, run: seq<(nat, Step)>, tcs: nat, other: nat, event: nat)
    requires Legal(Init(n), run)
    requires var s := Run(Init(n), run);
      (tcs, event) in s.results && (other, event) in s.results && event != NULL
    ensures tcs == other
  {
    hide Legal, Run;
    Start(n);
    RunKeeps(Init(n), run);
    var s := Run(Init(n), run);
    MapsOwn(s.caches[0], s.unused, tcs, other, event);
  }

  lemma EntriesDiffer(c: Cache, unused: nat, i: nat, j: nat)
    requires GoodCache(c, unused) && i < |c.order| && j < |c.order|
    ensures i != j ==> Differ(c.infos[c.order[i]], c.infos[c.order[j]])
  {
    if i > j { assert Differ(c.infos[c.order[j]], c.infos[c.order[i]]); }
  }

  lemma MapsSame(c: Cache, unused: nat, tcs: nat, a: nat, b: nat)
    requires GoodCache(c, unused) && Maps(c, tcs, a) && Maps(c, tcs, b)
    ensures a == b
  {
    var i :| 0 <= i < |c.order| && c.order[i] in c.infos && c.infos[c.order[i]] == Info(tcs, a);
    var j :| 0 <= j < |c.order| && c.order[j] in c.infos && c.infos[c.order[j]] == Info(tcs, b);
    EntriesDiffer(c, unused, i, j);
  }

  lemma MapsOwn(c: Cache, unused: nat, tcs: nat, other: nat, event: nat)
    requires GoodCache(c, unused) && Maps(c, tcs, event) && Maps(c, other, event) && event != NULL
    ensures tcs == other
  {
    var i :| 0 <= i < |c.order| && c.order[i] in c.infos && c.infos[c.order[i]] == Info(tcs, event);
    var j :| 0 <= j < |c.order| && c.order[j] in c.infos && c.infos[c.order[j]] == Info(other, event);
    EntriesDiffer(c, unused, i, j);
  }

  // ----- calls that return no event

  /** The memory the step asks for is there. */
  predicate Lucky(step: Step) { step != Create(false) && (step.Append? ==> step == Append(true, true)) }

  /** No thread has come away without a cache or an event. */
  predicate Provided(pc: Pc, global: Option<nat>) {
    (pc.Unlock? || pc.Read? ==> global.Some?) && (pc.Leave? ==> pc.event != NULL)
  }

  ghost predicate Events(c: Cache) {
    forall k :: 0 <= k < |c.order| && c.order[k] in c.infos ==> c.infos[c.order[k]].event != NULL
  }

  ghost predicate Served(s: State) {
    && (forall i :: 0 <= i < |s.results| ==> s.results[i].1 != NULL)
    && (forall t :: 0 <= t < |s.threads| ==> Provided(s.threads[t], s.global))
    && (s.caches != [] ==> Events(s.caches[0]))
  }

  lemma AppendEvents(c: Cache, node: nat, info: Info)
    requires HEAD in c.links.next && Events(c) && info.event != NULL
    ensures Events(Appended(c, node, info))
  {
    var c' := Appended(c, node, info);
    forall k | 0 <= k < |c'.order| && c'.order[k] in c'.infos ensures c'.infos[c'.order[k]].event != NULL {
      if k > 0 { assert c'.order[k] == c.order[k - 1]; }
    }
  }

  lemma VisitServed(s: State, t: nat)
    requires Inv(s) && Served(s) && Enabled(s, t, Visit)
    ensures Served(Next(s, t, Visit))
  {
    var pc := s.threads[t];
    assert Local(t, pc, s.spin, s.caches);
    EndIsHead(s.caches[0].order, pc.at);
    if pc.node != HEAD { assert s.caches[0].order[pc.at - 1] == pc.node; }
  }

  lemma AppendServed(s: State, t: nat)
    requires Inv(s) && Served(s) && Enabled(s, t, Append(true, true))
    ensures Served(Next(s, t, Append(true, true)))
  {
    hide Events, Appended;
    var pc := s.threads[t];
    assert Local(t, pc, s.spin, s.caches);
    AppendEvents(s.caches[0], s.unused, Info(pc.tcs, s.unused + 1));
  }

  lemma OtherServed(s: State, t: nat, step: Step)
    requires Inv(s) && Served(s) && Enabled(s, t, step) && Lucky(step) && !step.Visit? && !step.Append?
    ensures Served(Next(s, t, step))
  {
    hide Knows, Maps, GoodCache, Steady;
    assert Local(t, s.threads[t], s.spin, s.caches);
    assert Provided(s.threads[t], s.global);
  }

  lemma {:induction false} ServedRun(s: State, run: seq<(nat, Step)>)
    requires Inv(s) && Served(s) && Legal(s, run) && forall i :: 0 <= i < |run| ==> Lucky(run[i].1)
    ensures Served(Run(s, run))
    decreases |run|
  {
    hide Inv, Served, Enabled, Next;
    if run != [] {
      var t, step := run[0].0, run[0].1;
      StepKeeps(s, t, step);
      if step.Visit? {
        VisitServed(s, t);
      } else if step.Append? {
        AppendServed(s, t);
      } else {
        OtherServed(s, t, step);
      }
      ServedRun(Next(s, t, step), run[1..]);
    }
  }

  /** A call returns no event only if some memory was not there. */
  lemma NullNeedsFailure(n: nat, run: seq<(nat, Step)>, tcs: nat)
    requires Legal(Init(n), run) && (tcs, NULL) in Run(Init(n), run).results
    ensures exists i :: 0 <= i < |run| && !Lucky(run[i].1)
  {
    hide Legal, Run, Lucky;
    Start(n);
    if forall i :: 0 <= i < |run| ==> Lucky(run[i].1) { ServedRun(Init(n), run); }
  }

  /** No thread follows a bad link or is stuck inside a lock it holds. */
  lemma NeverStuck(n: nat, run: seq<(nat, Step)>, t: nat)
    requires Legal(Init(n), run) && t < |Run(Init(n), run).threads|
    ensures var s := Run(Init(n), run);
      var pc := s.threads[t];
      && (pc.Check? ==> Enabled(s, t, Create(true)))
      && (pc.Unlock? ==> Enabled(s, t, Release))
      && (pc.Lock? ==> s.caches != [] && (Enabled(s, t, Acquire) || s.caches[0].owner.Owned?))
      && (pc.Scan? ==> Enabled(s, t, Visit))
      && (pc.Add? ==> Enabled(s, t, Append(true, true)))
      && (pc.Leave? ==> Enabled(s, t, Return))
  {
    hide Legal, Run;
    Start(n);
    RunKeeps(Init(n), run);
    var s := Run(Init(n), run);
    var pc := s.threads[t];
    assert Local(t, pc, s.spin, s.caches);
    if InMutex(pc) { NextAt(s.caches[0].links, s.caches[0].order, 0); }
    if pc.Scan? {
      EndIsHead(s.caches[0].order, pc.at);
      if pc.node != HEAD { NextAt(s.caches[0].links, s.caches[0].order, pc.at); }
    }
  }
}
