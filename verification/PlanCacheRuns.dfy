/** Compilations, catalog changes and clears in any interleaving: which catalog an entry a caller
    receives can have been compiled from. */
module PlanCacheRuns {

  type Key = string
  type Caller = nat
  type BuildId = nat

  datatype Option<T> = None | Some(value: T)

  /** A compiled plan, with every catalog version its compilation read. */
  datatype Entry = Entry(key: Key, versions: seq<nat>)

  datatype Result = Pending | Done(entry: Entry) | Failed | Panicked

  /** One in-flight compilation; `gen` is the generation its leader's caller read. */
  datatype Build = Build(key: Key, gen: nat, result: Result)

  /** How far a caller has come. `gen` is the generation it read before asking the build group; a
      compilation reads the generation again, before it reads the catalog. */
  datatype Stage =
    | Asking(key: Key)
    | Missed(key: Key)
    | Grouping(key: Key, gen: nat)
    | Waiting(key: Key, gen: nat, build: BuildId)
    | Starting(key: Key, gen: nat, leads: Option<BuildId>)
    | Compiling(key: Key, gen: nat, leads: Option<BuildId>, own: nat, versions: seq<nat>)
    | Finished(key: Key, gen: nat, entry: Option<Entry>)

  /** A clear holds every shard while it empties them and advances the generation. */
  datatype Clear = Unlocked | Locked | Emptied | Advanced

  /** `floors[g]` is the catalog version at the clear that began generation g. */
  datatype Sys = Sys(cache: map<Key, Entry>, floors: seq<nat>, catalog: nat, clear: Clear,
                     callers: map<Caller, Stage>, builds: map<BuildId, Build>, inflight: map<Key, BuildId>)
  {
    function Gen(): nat
      requires floors != []
    {
      |floors| - 1
    }
  }

  const Start := Sys(map[], [0], 0, Unlocked, map[], map[], map[])

  datatype Op =
    | Ask(t: Caller, key: Key)
    | Get(t: Caller)                      // cache lookup
    | ReadGeneration(t: Caller)           // for the build group
    | Join(t: Caller, b: BuildId)         // find the group's build, or start one
    | Begin(t: Caller)                    // the compilation reads the generation
    | ReadCatalog(t: Caller)
    | Store(t: Caller)                    // loadOrStoreAt
    | Fail(t: Caller, panics: bool)
    | Collect(t: Caller)                  // a waiter takes the leader's result
    | Evict(key: Key)
    | ChangeCatalog
    | LockShards
    | EmptyShards
    | AdvanceGeneration
    | UnlockShards

  predicate At(s: Sys, t: Caller) { t in s.callers }

  ghost predicate Enabled(s: Sys, op: Op) {
    match op
    case Ask(t, key) => t !in s.callers
    case Get(t) => At(s, t) && s.callers[t].Asking? && s.clear.Unlocked?
    case ReadGeneration(t) => At(s, t) && s.callers[t].Missed?
    case Join(t, b) => At(s, t) && s.callers[t].Grouping? && (s.callers[t].key !in s.inflight ==> b !in s.builds)
    case Begin(t) => At(s, t) && s.callers[t].Starting?
    case ReadCatalog(t) => At(s, t) && s.callers[t].Compiling?
    case Store(t) => At(s, t) && s.callers[t].Compiling? && s.clear.Unlocked?
    case Fail(t, _) => At(s, t) && s.callers[t].Compiling?
    case Collect(t) => At(s, t) && s.callers[t].Waiting? && s.callers[t].build in s.builds && !s.builds[s.callers[t].build].result.Pending?
    case Evict(key) => s.clear.Unlocked?
    case ChangeCatalog => true
    case LockShards => s.clear.Unlocked?
    case EmptyShards => s.clear.Locked?
    case AdvanceGeneration => s.clear.Emptied?
    case UnlockShards => s.clear.Advanced?
  }

  function Put(s: Sys, t: Caller, st: Stage): Sys { s.(callers := s.callers[t := st]) }

  /** A leader's build ends: the record leaves the group, and its waiters may take the result. */
  function Close(s: Sys, leads: Option<BuildId>, r: Result): Sys {
    if leads.None? || leads.value !in s.builds then s
    else
      var b := s.builds[leads.value];
      s.(builds := s.builds[leads.value := b.(result := r)],
         inflight := map k | k in s.inflight && k != b.key :: s.inflight[k])
  }

  ghost function Next(s: Sys, op: Op): Sys
    requires Enabled(s, op) && s.floors != []
  {
    match op
    case Ask(t, key) => Put(s, t, Asking(key))
    case Get(t) =>
      var key := s.callers[t].key;
      Put(s, t, if key in s.cache then Finished(key, s.Gen(), Some(s.cache[key])) else Missed(key))
    case ReadGeneration(t) => Put(s, t, Grouping(s.callers[t].key, s.Gen()))
    case Join(t, b) =>
      var key, gen := s.callers[t].key, s.callers[t].gen;
      if key in s.inflight then
        var running := s.inflight[key];
        if running in s.builds && s.builds[running].gen == gen then Put(s, t, Waiting(key, gen, running))
        else Put(s, t, Starting(key, gen, None))
      else Put(s, t, Starting(key, gen, Some(b))).(builds := s.builds[b := Build(key, gen, Pending)], inflight := s.inflight[key := b])
    case Begin(t) =>
      var c := s.callers[t];
      Put(s, t, Compiling(c.key, c.gen, c.leads, s.Gen(), []))
    case ReadCatalog(t) =>
      var c := s.callers[t];
      Put(s, t, c.(versions := c.versions + [s.catalog]))
    case Store(t) =>
      var c := s.callers[t];
      var made := Entry(c.key, c.versions);
      var actual := if c.key in s.cache then s.cache[c.key] else made;
      var cache := if c.key !in s.cache && s.Gen() == c.own then s.cache[c.key := made] else s.cache;
      Put(Close(s, c.leads, Done(actual)), t, Finished(c.key, c.gen, Some(actual))).(cache := cache)
    case Fail(t, panics) =>
      var c := s.callers[t];
      Put(Close(s, c.leads, if panics then Panicked else Failed), t, Finished(c.key, c.gen, None))
    case Collect(t) =>
      var c := s.callers[t];
      (match s.builds[c.build].result
       case Done(e) => Put(s, t, Finished(c.key, c.gen, Some(e)))
       case Panicked => Put(s, t, Starting(c.key, c.gen, None))
       case _ => Put(s, t, Finished(c.key, c.gen, None)))
    case Evict(key) => s.(cache := map k | k in s.cache && k != key :: s.cache[k])
    case ChangeCatalog => s.(catalog := s.catalog + 1)
    case LockShards => s.(clear := Locked)
    case EmptyShards => s.(clear := Emptied, cache := map[])
    case AdvanceGeneration => s.(clear := Advanced, floors := s.floors + [s.catalog])
    case UnlockShards => s.(clear := Unlocked)
  }

  ghost function Exec(ops: seq<Op>): (s: Sys)
    ensures s.floors != []
  {
    if ops == [] then Start
    else
      var s, op := Exec(ops[..|ops| - 1]), ops[|ops| - 1];
      if Enabled(s, op) then Next(s, op) else s
  }

  // ------------------------------------------------------------------ what every step keeps

  /** Everything the entry's compilation read is at least as new as the catalog at that clear. */
  predicate Newer(e: Entry, floor: nat) { forall i :: 0 <= i < |e.versions| ==> e.versions[i] >= floor }

  /** A leader's build is on record, of the key its caller asked for and under the generation it read. */
  predicate Leads(s: Sys, leads: Option<BuildId>, key: Key, gen: nat) {
    leads.Some? ==> leads.value in s.builds && s.builds[leads.value].key == key && s.builds[leads.value].gen == gen
  }

  ghost predicate StageInv(s: Sys, c: Stage)
    requires s.floors != []
  {
    match c
    case Asking(_) => true
    case Missed(_) => true
    case Grouping(_, gen) => gen <= s.Gen()
    case Waiting(key, gen, b) => gen <= s.Gen() && Leads(s, Some(b), key, gen)
    case Starting(key, gen, leads) => gen <= s.Gen() && Leads(s, leads, key, gen)
    case Compiling(key, gen, leads, own, versions) =>
      gen <= own <= s.Gen() && Leads(s, leads, key, gen) && Newer(Entry(key, versions), s.floors[own])
    case Finished(key, gen, e) => gen <= s.Gen() && (e.Some? ==> e.value.key == key && Newer(e.value, s.floors[gen]))
  }

  ghost predicate FloorsInv(s: Sys) {
    && s.floors != [] && s.floors[s.Gen()] <= s.catalog
    && forall i, j :: 0 <= i <= j < |s.floors| ==> s.floors[i] <= s.floors[j]
  }

  ghost predicate CacheInv(s: Sys)
    requires s.floors != []
  {
    && (s.clear.Emptied? || s.clear.Advanced? ==> s.cache == map[])
    && forall k :: k in s.cache ==> s.cache[k].key == k && Newer(s.cache[k], s.floors[s.Gen()])
  }

  ghost predicate BuildInv(s: Sys, b: Build)
    requires s.floors != []
  {
    b.gen <= s.Gen() && (b.result.Done? ==> b.result.entry.key == b.key && Newer(b.result.entry, s.floors[b.gen]))
  }

  /** What is in flight under a key is of that key. */
  ghost predicate FlightInv(s: Sys) {
    forall k :: k in s.inflight ==> s.inflight[k] in s.builds && s.builds[s.inflight[k]].key == k
  }

  ghost predicate Inv(s: Sys) {
    && FloorsInv(s) && CacheInv(s) && FlightInv(s)
    && (forall b :: b in s.builds ==> BuildInv(s, s.builds[b]))
    && (forall t :: t in s.callers ==> StageInv(s, s.callers[t]))
  }

  /** What held of a caller or a build still does once the floors have grown and the builds have only
      gained records and results. */
  ghost predicate Grows(s: Sys, s': Sys) {
    && s.floors <= s'.floors
    && forall b :: b in s.builds ==> b in s'.builds && s'.builds[b].key == s.builds[b].key && s'.builds[b].gen == s.builds[b].gen
  }

  lemma StageStays(s: Sys, s': Sys, c: Stage)
    requires s.floors != [] && Grows(s, s') && StageInv(s, c)
    ensures StageInv(s', c)
  {
  }

  /** One caller moves on; the builds gain a record or a result. */
  lemma CallerMoves(s: Sys, s': Sys, t: Caller)
    requires Inv(s) && Grows(s, s') && FloorsInv(s') && CacheInv(s') && FlightInv(s')
    requires forall b :: b in s'.builds ==> (b in s.builds && s'.builds[b] == s.builds[b]) || BuildInv(s', s'.builds[b])
    requires forall u :: u in s'.callers ==> (u in s.callers && s'.callers[u] == s.callers[u]) || (u == t && StageInv(s', s'.callers[t]))
    ensures Inv(s')
  {
    forall u | u in s'.callers ensures StageInv(s', s'.callers[u]) {
      if u in s.callers && s'.callers[u] == s.callers[u] { StageStays(s, s', s.callers[u]); }
    }
  }

  /** What a caller stores or finds there is of its key, and new enough for the generation it read. */
  lemma StoredIsFresh(s: Sys, t: Caller)
    requires Inv(s) && Enabled(s, Store(t))
    ensures var c := s.callers[t]; var actual := if c.key in s.cache then s.cache[c.key] else Entry(c.key, c.versions);
      actual.key == c.key && c.gen < |s.floors| && Newer(actual, s.floors[c.gen])
  {
    assert StageInv(s, s.callers[t]);
  }

  lemma StoreKeeps(s: Sys, t: Caller)
    requires Inv(s) && Enabled(s, Store(t))
    ensures Inv(Next(s, Store(t)))
  {
    hide Newer;
    assert StageInv(s, s.callers[t]);
    StoredIsFresh(s, t);
    CallerMoves(s, Next(s, Store(t)), t);
  }

  lemma PutKeeps(s: Sys, t: Caller, c: Stage)
    requires Inv(s) && StageInv(s, c)
    ensures Inv(Put(s, t, c))
  {
    StageStays(s, Put(s, t, c), c);
    CallerMoves(s, Put(s, t, c), t);
  }

  lemma JoinKeeps(s: Sys, t: Caller, b: BuildId)
    requires Inv(s) && Enabled(s, Join(t, b))
    ensures Inv(Next(s, Join(t, b)))
  {
    hide Newer;
    assert StageInv(s, s.callers[t]);
    if s.callers[t].key in s.inflight {
      var c := Next(s, Join(t, b)).callers[t];
      assert Next(s, Join(t, b)) == Put(s, t, c) && StageInv(s, c);
      PutKeeps(s, t, c);
    } else {
      NewBuildKeeps(s, t, b);
    }
  }

  lemma NewBuildKeeps(s: Sys, t: Caller, b: BuildId)
    requires Inv(s) && t in s.callers && s.callers[t].Grouping? && b !in s.builds
    ensures var key, gen := s.callers[t].key, s.callers[t].gen;
      Inv(Put(s, t, Starting(key, gen, Some(b))).(builds := s.builds[b := Build(key, gen, Pending)], inflight := s.inflight[key := b]))
  {
    hide Newer;
    assert StageInv(s, s.callers[t]);
    var key, gen := s.callers[t].key, s.callers[t].gen;
    CallerMoves(s, Put(s, t, Starting(key, gen, Some(b))).(builds := s.builds[b := Build(key, gen, Pending)], inflight := s.inflight[key := b]), t);
  }

  lemma EarlyStepKeeps(s: Sys, op: Op, t: Caller)
    requires Inv(s) && Enabled(s, op) && (op == Get(t) || op == ReadGeneration(t) || (op.Ask? && op.t == t))
    ensures Inv(Next(s, op))
  {
    CallerMoves(s, Next(s, op), t);
  }

  lemma CompileStepKeeps(s: Sys, op: Op, t: Caller)
    requires Inv(s) && Enabled(s, op) && (op == Begin(t) || op == ReadCatalog(t) || op == Collect(t))
    ensures Inv(Next(s, op))
  {
    assert StageInv(s, s.callers[t]);
    var c' := Next(s, op).callers[t];
    assert op.Collect? ==> BuildInv(s, s.builds[s.callers[t].build]);
    assert Next(s, op) == Put(s, t, c') && StageInv(s, c');
    PutKeeps(s, t, c');
  }

  lemma FailKeeps(s: Sys, t: Caller, panics: bool)
    requires Inv(s) && Enabled(s, Fail(t, panics))
    ensures Inv(Next(s, Fail(t, panics)))
  {
    hide Newer;
    assert StageInv(s, s.callers[t]);
    CallerMoves(s, Next(s, Fail(t, panics)), t);
  }

  predicate OfCaller(op: Op) {
    op.Ask? || op.Get? || op.ReadGeneration? || op.Join? || op.Begin? || op.ReadCatalog? || op.Store? || op.Fail? || op.Collect?
  }

  lemma CacheStepKeeps(s: Sys, op: Op)
    requires Inv(s) && Enabled(s, op) && !OfCaller(op)
    ensures Inv(Next(s, op))
  {
    CallerMoves(s, Next(s, op), 0);
  }

  lemma StepKeeps(s: Sys, op: Op)
    requires Inv(s) && Enabled(s, op)
    ensures Inv(Next(s, op))
  {
    match op
    case Store(t) => StoreKeeps(s, t);
    case Join(t, b) => JoinKeeps(s, t, b);
    case Fail(t, panics) => FailKeeps(s, t, panics);
    case Ask(t, _) => EarlyStepKeeps(s, op, t);
    case Get(t) => EarlyStepKeeps(s, op, t);
    case ReadGeneration(t) => EarlyStepKeeps(s, op, t);
    case Begin(t) => CompileStepKeeps(s, op, t);
    case ReadCatalog(t) => CompileStepKeeps(s, op, t);
    case Collect(t) => CompileStepKeeps(s, op, t);
    case _ => CacheStepKeeps(s, op);
  }

  lemma {:induction false} RunKeeps(ops: seq<Op>)
    ensures Inv(Exec(ops))
  {
    if ops != [] {
      RunKeeps(ops[..|ops| - 1]);
      var s, op := Exec(ops[..|ops| - 1]), ops[|ops| - 1];
      if Enabled(s, op) { StepKeeps(s, op); }
    }
  }

  /** In every interleaving, no cached entry was compiled from a catalog older than the last clear. */
  lemma CachedIsFresh(ops: seq<Op>, key: Key)
    requires key in Exec(ops).cache
    ensures var s := Exec(ops); Newer(s.cache[key], s.floors[s.Gen()])
  {
    RunKeeps(ops);
  }

  /** And no caller receives, from the cache, from another's in-flight build or from its own, an entry
      compiled from a catalog older than the last clear before it read its generation. */
  lemma ReceivedIsFresh(ops: seq<Op>, t: Caller)
    requires var s := Exec(ops); t in s.callers && s.callers[t].Finished? && s.callers[t].entry.Some?
    ensures var s := Exec(ops);
      && s.callers[t].gen <= s.Gen() && Newer(s.callers[t].entry.value, s.floors[s.callers[t].gen])
  {
    RunKeeps(ops);
    assert StageInv(Exec(ops), Exec(ops).callers[t]);
  }

  // ------------------------------------------------------------------ whose entry is whose

  /** The key a caller asked for, once and for all. */
  function Asked(ops: seq<Op>, t: Caller): Option<Key> {
    if ops == [] then None
    else
      var before := Asked(ops[..|ops| - 1], t);
      var op := ops[|ops| - 1];
      if before.Some? then before else if op.Ask? && op.t == t then Some(op.key) else None
  }

  lemma StepAsks(s: Sys, op: Op, t: Caller)
    requires Enabled(s, op) && s.floors != []
    ensures t in s.callers ==> t in Next(s, op).callers && Next(s, op).callers[t].key == s.callers[t].key
    ensures t !in s.callers ==> (t in Next(s, op).callers <==> op.Ask? && op.t == t)
    ensures t !in s.callers && op.Ask? && op.t == t ==> Next(s, op).callers[t].key == op.key
  {
  }

  /** However a caller's request goes, it remains the one it made. */
  lemma {:induction false} AskedKey(ops: seq<Op>, t: Caller)
    ensures t in Exec(ops).callers <==> Asked(ops, t).Some?
    ensures t in Exec(ops).callers ==> Some(Exec(ops).callers[t].key) == Asked(ops, t)
  {
    if ops != [] {
      hide Next, Enabled;
      var front, op := ops[..|ops| - 1], ops[|ops| - 1];
      AskedKey(front, t);
      var s := Exec(front);
      if Enabled(s, op) { StepAsks(s, op, t); } else if op.Ask? && op.t == t { AskOnce(s, t, op.key); }
    }
  }

  lemma AskOnce(s: Sys, t: Caller, key: Key)
    ensures Enabled(s, Ask(t, key)) <==> t !in s.callers
  {
  }

  /** In every interleaving the entry cached under a key is of that key; so is a build in flight under it, and
      what that build results in. */
  lemma KeptApart(ops: seq<Op>, key: Key)
    ensures var s := Exec(ops);
      && (key in s.cache ==> s.cache[key].key == key)
      && (key in s.inflight ==> s.inflight[key] in s.builds && s.builds[s.inflight[key]].key == key)
      && (forall b :: b in s.builds && s.builds[b].result.Done? ==> s.builds[b].result.entry.key == s.builds[b].key)
  {
    RunKeeps(ops);
    var s := Exec(ops);
    forall b | b in s.builds && s.builds[b].result.Done? ensures s.builds[b].result.entry.key == s.builds[b].key {
      assert BuildInv(s, s.builds[b]);
    }
  }

  /** And a caller that is answered with an entry is answered with one of the key it asked for. */
  lemma ReceivedIsOwn(ops: seq<Op>, t: Caller)
    requires var s := Exec(ops); t in s.callers && s.callers[t].Finished? && s.callers[t].entry.Some?
    ensures Asked(ops, t) == Some(Exec(ops).callers[t].entry.value.key)
  {
    RunKeeps(ops);
    AskedKey(ops, t);
    assert StageInv(Exec(ops), Exec(ops).callers[t]);
  }

  // ------------------------------------------------------------------ what a compilation is good for

  /** The step takes nothing out of the cache under the key. */
  predicate Spares(op: Op, key: Key) { op != Evict(key) && !op.EmptyShards? }

  lemma StepSpares(s: Sys, op: Op, key: Key)
    requires Enabled(s, op) && s.floors != [] && Spares(op, key) && key in s.cache
    ensures key in Next(s, op).cache && Next(s, op).cache[key] == s.cache[key]
  {
  }

  lemma Pushed(ops: seq<Op>, op: Op)
    ensures Exec(ops + [op]) == if Enabled(Exec(ops), op) then Next(Exec(ops), op) else Exec(ops)
  {
    hide Next, Enabled;
    assert (ops + [op])[..|ops|] == ops;
  }

  lemma {:induction false} CachedStays(ops: seq<Op>, more: seq<Op>, key: Key)
    requires key in Exec(ops).cache && forall i :: 0 <= i < |more| ==> Spares(more[i], key)
    ensures key in Exec(ops + more).cache && Exec(ops + more).cache[key] == Exec(ops).cache[key]
    decreases |more|
  {
    if more == [] {
      assert ops + more == ops;
    } else {
      hide Next, Enabled, Exec;
      var front, op := more[..|more| - 1], more[|more| - 1];
      CachedStays(ops, front, key);
      assert ops + more == ops + front + [op];
      Pushed(ops + front, op);
      if Enabled(Exec(ops + front), op) { StepSpares(Exec(ops + front), op, key); }
    }
  }

  lemma StoreCaches(s: Sys, t: Caller)
    requires s.floors != [] && Enabled(s, Store(t)) && s.callers[t].own == s.Gen()
    ensures var s', key := Next(s, Store(t)), s.callers[t].key;
      key in s'.cache && t in s'.callers && s'.callers[t].Finished? && s'.callers[t].entry == Some(s'.cache[key])
  {
  }

  lemma GetHits(s: Sys, u: Caller)
    requires s.floors != [] && Enabled(s, Get(u)) && s.callers[u].key in s.cache
    ensures var got := Next(s, Get(u)).callers; u in got && got[u].Finished? && got[u].entry == Some(s.cache[s.callers[u].key])
  {
  }

  /** An entry stored with no clear since its compilation began serves every later caller of its key, until the
      key is evicted or the cache cleared. */
  lemma StoredIsServed(ops: seq<Op>, t: Caller, more: seq<Op>, u: Caller)
    requires var s := Exec(ops); Enabled(s, Store(t)) && s.callers[t].own == s.Gen()
    requires forall i :: 0 <= i < |more| ==> Spares(more[i], Exec(ops).callers[t].key)
    requires Enabled(Exec(ops + [Store(t)] + more), Get(u))
    requires Exec(ops + [Store(t)] + more).callers[u].key == Exec(ops).callers[t].key
    ensures var got := Next(Exec(ops + [Store(t)] + more), Get(u)).callers[u];
            got.Finished? && got.entry.Some? && got.entry == Exec(ops + [Store(t)]).callers[t].entry
  {
    hide Exec, Next;
    Pushed(ops, Store(t));
    StoreCaches(Exec(ops), t);
    CachedStays(ops + [Store(t)], more, Exec(ops).callers[t].key);
    GetHits(Exec(ops + [Store(t)] + more), u);
  }

  function LeadsOf(c: Stage): Option<BuildId> {
    match c
    case Starting(_, _, leads) => leads
    case Compiling(_, _, leads, _, _) => leads
    case _ => None
  }

  predicate LeadsBuild(s: Sys, t: Caller, b: BuildId) { t in s.callers && LeadsOf(s.callers[t]) == Some(b) }

  /** A build on record has at most one leader. */
  ghost predicate LeadInv(s: Sys) {
    && (forall t, b :: LeadsBuild(s, t, b) ==> b in s.builds)
    && (forall t, u, b :: LeadsBuild(s, t, b) && LeadsBuild(s, u, b) ==> t == u)
  }

  /** A caller comes to lead a build only by starting it. */
  lemma StepLeads(s: Sys, op: Op, t: Caller, b: BuildId)
    requires Enabled(s, op) && s.floors != []
    ensures LeadsBuild(Next(s, op), t, b) ==>
              LeadsBuild(s, t, b) || (op == Join(t, b) && b !in s.builds && b in Next(s, op).builds)
    ensures b in s.builds ==> b in Next(s, op).builds
  {
  }

  lemma StepKeepsLeads(s: Sys, op: Op)
    requires LeadInv(s) && Enabled(s, op) && s.floors != []
    ensures LeadInv(Next(s, op))
  {
    hide Next, Enabled, LeadsBuild;
    forall t, b ensures LeadsBuild(Next(s, op), t, b) ==>
      LeadsBuild(s, t, b) || (op == Join(t, b) && b !in s.builds && b in Next(s, op).builds)
    {
      StepLeads(s, op, t, b);
    }
    forall b | b in s.builds ensures b in Next(s, op).builds { StepLeads(s, op, 0, b); }
  }

  lemma {:induction false} RunLeads(ops: seq<Op>)
    ensures LeadInv(Exec(ops))
  {
    if ops != [] {
      hide Next, Enabled, LeadInv;
      RunLeads(ops[..|ops| - 1]);
      var s, op := Exec(ops[..|ops| - 1]), ops[|ops| - 1];
      if Enabled(s, op) { StepKeepsLeads(s, op); }
    }
  }

  /** A build no one leads any more keeps the result it has. */
  lemma StepSettled(s: Sys, op: Op, b: BuildId)
    requires Enabled(s, op) && s.floors != [] && b in s.builds && forall t :: !LeadsBuild(s, t, b)
    ensures b in Next(s, op).builds && Next(s, op).builds[b] == s.builds[b] && forall t :: !LeadsBuild(Next(s, op), t, b)
  {
    forall t ensures !LeadsBuild(Next(s, op), t, b) { StepLeads(s, op, t, b); }
    if (op.Store? || op.Fail?) && s.callers[op.t].leads.Some? { assert !LeadsBuild(s, op.t, b); }
  }

  lemma {:induction false} ResultStays(ops: seq<Op>, more: seq<Op>, b: BuildId)
    requires b in Exec(ops).builds && forall t :: !LeadsBuild(Exec(ops), t, b)
    ensures var s := Exec(ops + more); b in s.builds && s.builds[b] == Exec(ops).builds[b] && forall t :: !LeadsBuild(s, t, b)
    decreases |more|
  {
    if more == [] {
      assert ops + more == ops;
    } else {
      hide Next, Enabled, Exec, LeadsBuild;
      var front, op := more[..|more| - 1], more[|more| - 1];
      ResultStays(ops, front, b);
      assert ops + more == ops + front + [op];
      Pushed(ops + front, op);
      if Enabled(Exec(ops + front), op) { StepSettled(Exec(ops + front), op, b); }
    }
  }

  lemma StoreCloses(s: Sys, t: Caller, b: BuildId)
    requires LeadInv(s) && s.floors != [] && Enabled(s, Store(t)) && s.callers[t].leads == Some(b)
    ensures var s' := Next(s, Store(t));
      && t in s'.callers && s'.callers[t].Finished? && s'.callers[t].entry.Some?
      && b in s'.builds && s'.builds[b].result == Done(s'.callers[t].entry.value)
      && forall u :: !LeadsBuild(s', u, b)
  {
    assert LeadsBuild(s, t, b);
    forall u ensures !LeadsBuild(Next(s, Store(t)), u, b) { StepLeads(s, Store(t), u, b); }
  }

  /** Whoever waits for a build gets, whenever it asks for the result, the very entry its leader stored. */
  lemma WaiterGetsLeaders(ops: seq<Op>, t: Caller, b: BuildId, more: seq<Op>, u: Caller)
    requires Enabled(Exec(ops), Store(t)) && Exec(ops).callers[t].leads == Some(b)
    requires var s := Exec(ops + [Store(t)] + more); u in s.callers && s.callers[u].Waiting? && s.callers[u].build == b
    ensures var s := Exec(ops + [Store(t)] + more);
      Enabled(s, Collect(u)) && Next(s, Collect(u)).callers[u].Finished?
      && Next(s, Collect(u)).callers[u].entry == Exec(ops + [Store(t)]).callers[t].entry
  {
    hide Exec, LeadsBuild;
    RunLeads(ops);
    Pushed(ops, Store(t));
    StoreCloses(Exec(ops), t, b);
    ResultStays(ops + [Store(t)], more, b);
  }

  lemma FailCloses(s: Sys, t: Caller, b: BuildId, panics: bool)
    requires LeadInv(s) && s.floors != [] && Enabled(s, Fail(t, panics)) && s.callers[t].leads == Some(b)
    ensures var s' := Next(s, Fail(t, panics));
      && b in s'.builds && (if panics then s'.builds[b].result.Panicked? else s'.builds[b].result.Failed?)
      && forall u :: !LeadsBuild(s', u, b)
  {
    assert LeadsBuild(s, t, b);
    forall u ensures !LeadsBuild(Next(s, Fail(t, panics)), u, b) { StepLeads(s, Fail(t, panics), u, b); }
  }

  /** When the leader's compilation fails, whoever waits for it fails with it; when it panics, whoever waits
      compiles alone. */
  lemma WaiterAfterFailure(ops: seq<Op>, t: Caller, b: BuildId, panics: bool, more: seq<Op>, u: Caller)
    requires Enabled(Exec(ops), Fail(t, panics)) && Exec(ops).callers[t].leads == Some(b)
    requires var s := Exec(ops + [Fail(t, panics)] + more); u in s.callers && s.callers[u].Waiting? && s.callers[u].build == b
    ensures var s := Exec(ops + [Fail(t, panics)] + more);
      && Enabled(s, Collect(u))
      && var after := Next(s, Collect(u)).callers[u];
        if panics then after == Starting(s.callers[u].key, s.callers[u].gen, None)
        else after.Finished? && after.entry.None?
  {
    hide Exec, LeadsBuild;
    RunLeads(ops);
    Pushed(ops, Fail(t, panics));
    FailCloses(Exec(ops), t, b, panics);
    ResultStays(ops + [Fail(t, panics)], more, b);
  }
}
