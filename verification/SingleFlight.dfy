/**
 Single flight over query embeddings (`backend/app/embedding/cached.py`). Any number of callers, the
 load tasks they share and the deferred clean-ups run interleaved; a step here is what the event
 loop runs between two awaits. A critical section of the lock holds no await, so it is one step.
 */
module SingleFlight {
  import opened Wrappers

  type Vector = seq<real>

  datatype Failure = ProviderFailed

  /** The cache key, the embedding the provider answers with, and the check on cached vectors. */
  datatype Provider = Provider(key: string -> string, embed: string -> Vector, valid: Vector -> bool)

  datatype Phase =
    | Reading
    | Embedding
    | Writing(vector: Vector)
    | Done(result: Result<Vector, Failure>)

  /** A load task. `scheduled`: its clean-up task exists; `cleared`: that clean-up has run. */
  datatype Load = Load(text: string, key: string, phase: Phase, calls: nat, scheduled: bool, cleared: bool)

  datatype Wait = Waiting | Answered(answer: Result<Vector, Failure>) | Cancelled

  datatype Caller = Caller(text: string, task: nat, wait: Wait)

  /** Tasks and callers are known by their position, in the order in which they were created. */
  datatype State = State(
    tasks: seq<Load>, inflight: map<string, nat>, cleanups: set<nat>,
    cache: map<string, Vector>, callers: seq<Caller>)

  datatype Event =
    | Call(text: string)
    | ReadCache(task: nat, failed: bool)
    | ProviderReturns(task: nat)
    | ProviderFails(task: nat)
    | WriteCache(task: nat, stored: bool)
    | ScheduleClear(task: nat)
    | ClearInflight(task: nat)
    | Discard(task: nat)
    | Answer(caller: nat)
    | Cancel(caller: nat)
    | Evicted(key: string)
    | WrittenElsewhere(key: string, vector: Vector)

  // ---------------------------------------------------------------- the steps

  /** What the event loop can run next. */
  predicate Enabled(s: State, e: Event) {
    match e
    case Call(_) => true
    case ReadCache(t, _) => t < |s.tasks| && s.tasks[t].phase.Reading?
    case ProviderReturns(t) => t < |s.tasks| && s.tasks[t].phase.Embedding?
    case ProviderFails(t) => t < |s.tasks| && s.tasks[t].phase.Embedding?
    case WriteCache(t, _) => t < |s.tasks| && s.tasks[t].phase.Writing?
    case ScheduleClear(t) => t < |s.tasks| && s.tasks[t].phase.Done? && !s.tasks[t].scheduled
    case ClearInflight(t) => t < |s.tasks| && s.tasks[t].scheduled && !s.tasks[t].cleared
    case Discard(t) => t in s.cleanups && t < |s.tasks| && s.tasks[t].cleared
    case Answer(c) =>
      c < |s.callers| && s.callers[c].wait.Waiting?
      && s.callers[c].task < |s.tasks| && s.tasks[s.callers[c].task].phase.Done?
    case Cancel(c) => c < |s.callers| && s.callers[c].wait.Waiting?
    case Evicted(_) => true
    case WrittenElsewhere(_, _) => true
  }

  function SetTask(s: State, task: nat, load: Load): State
    requires task < |s.tasks|
  {
    s.(tasks := s.tasks[task := load])
  }

  function SetWait(s: State, caller: nat, wait: Wait): State
    requires caller < |s.callers|
  {
    s.(callers := s.callers[caller := s.callers[caller].(wait := wait)])
  }

  function Without(m: map<string, nat>, key: string): map<string, nat> {
    map k | k in m && k != key :: m[k]
  }

  /** The step of one event; one that is not enabled does nothing. */
  function Step(p: Provider, s: State, e: Event): State {
    if !Enabled(s, e) then s
    else match e
      case Call(text) =>
        var key := p.key(text);
        if key in s.inflight then s.(callers := s.callers + [Caller(text, s.inflight[key], Waiting)])
        else
          s.(tasks := s.tasks + [Load(text, key, Reading, 0, false, false)],
             inflight := s.inflight[key := |s.tasks|],
             callers := s.callers + [Caller(text, |s.tasks|, Waiting)])
      case ReadCache(t, failed) =>
        var load := s.tasks[t];
        if !failed && load.key in s.cache && p.valid(s.cache[load.key])
        then SetTask(s, t, load.(phase := Done(Ok(s.cache[load.key]))))
        else SetTask(s, t, load.(phase := Embedding, calls := load.calls + 1))
      case ProviderReturns(t) => SetTask(s, t, s.tasks[t].(phase := Writing(p.embed(s.tasks[t].text))))
      case ProviderFails(t) => SetTask(s, t, s.tasks[t].(phase := Done(Err(ProviderFailed))))
      case WriteCache(t, stored) =>
        var load := s.tasks[t];
        var cache := if stored then s.cache[load.key := load.phase.vector] else s.cache;
        SetTask(s.(cache := cache), t, load.(phase := Done(Ok(load.phase.vector))))
      case ScheduleClear(t) =>
        SetTask(s.(cleanups := s.cleanups + {t}), t, s.tasks[t].(scheduled := true))
      case ClearInflight(t) =>
        var load := s.tasks[t];
        var inflight :=
          if load.key in s.inflight && s.inflight[load.key] == t then Without(s.inflight, load.key) else s.inflight;
        SetTask(s.(inflight := inflight), t, load.(cleared := true))
      case Discard(t) => s.(cleanups := s.cleanups - {t})
      case Answer(c) => SetWait(s, c, Answered(s.tasks[s.callers[c].task].phase.result))
      case Cancel(c) => SetWait(s, c, Cancelled)
      case Evicted(key) => s.(cache := map k | k in s.cache && k != key :: s.cache[k])
      case WrittenElsewhere(key, vector) => s.(cache := s.cache[key := vector])
  }

  function Run(p: Provider, s: State, events: seq<Event>): State {
    if events == [] then s
    else Step(p, Run(p, s, events[..|events| - 1]), events[|events| - 1])
  }

  /** No load and no caller yet; the shared cache may hold anything. */
  function Start(cache: map<string, Vector>): State {
    State([], map[], {}, cache, [])
  }

  // ---------------------------------------------------------------- what every step keeps

  /** A key is in flight exactly while it has a load that is not cleaned up, and it maps to that load. */
  ghost predicate OneLoadPerKey(s: State) {
    && (forall k | k in s.inflight ::
      s.inflight[k] < |s.tasks| && s.tasks[s.inflight[k]].key == k && !s.tasks[s.inflight[k]].cleared)
    && (forall t: nat | t < |s.tasks| && !s.tasks[t].cleared ::
      s.tasks[t].key in s.inflight && s.inflight[s.tasks[t].key] == t)
  }

  /** A load keeps its key, asks the provider at most once, and is cleaned up last. */
  predicate GoodLoad(p: Provider, load: Load) {
    && load.key == p.key(load.text)
    && (load.phase.Reading? ==> load.calls == 0)
    && (load.phase.Embedding? || load.phase.Writing? ==> load.calls == 1)
    && load.calls <= 1
    && (load.cleared ==> load.scheduled)
    && (load.scheduled ==> load.phase.Done?)
  }

  predicate GoodCaller(p: Provider, s: State, caller: Caller) {
    && caller.task < |s.tasks|
    && s.tasks[caller.task].key == p.key(caller.text)
    && (caller.wait.Answered? ==> s.tasks[caller.task].phase == Done(caller.wait.answer))
  }

  /** A clean-up that has not run is still referenced, so that the event loop cannot lose it. */
  ghost predicate CleanupsHeld(s: State) {
    && (forall t | t in s.cleanups :: t < |s.tasks| && s.tasks[t].scheduled)
    && (forall t: nat | t < |s.tasks| && s.tasks[t].scheduled && !s.tasks[t].cleared :: t in s.cleanups)
  }

  ghost predicate Inv(p: Provider, s: State) {
    && OneLoadPerKey(s)
    && CleanupsHeld(s)
    && (forall t | 0 <= t < |s.tasks| :: GoodLoad(p, s.tasks[t]))
    && (forall c | 0 <= c < |s.callers| :: GoodCaller(p, s, s.callers[c]))
  }

  /** Only a call and a clean-up touch the in-flight table or the marks it depends on. */
  lemma OthersLeaveTable(p: Provider, s: State, e: Event)
    requires !e.Call? && !e.ClearInflight?
    ensures Step(p, s, e).inflight == s.inflight && |Step(p, s, e).tasks| == |s.tasks|
    ensures forall t | 0 <= t < |s.tasks| ::
      Step(p, s, e).tasks[t].key == s.tasks[t].key && Step(p, s, e).tasks[t].cleared == s.tasks[t].cleared
  {
  }

  lemma ClearKeepsOneLoadPerKey(p: Provider, s: State, e: Event)
    requires OneLoadPerKey(s) && e.ClearInflight?
    ensures OneLoadPerKey(Step(p, s, e))
  {
  }

  lemma StepKeepsOneLoadPerKey(p: Provider, s: State, e: Event)
    requires OneLoadPerKey(s)
    ensures OneLoadPerKey(Step(p, s, e))
  {
    if e.ClearInflight? {
      hide Step;
      ClearKeepsOneLoadPerKey(p, s, e);
    } else if !e.Call? {
      hide Step;
      OthersLeaveTable(p, s, e);
    }
  }

  lemma StepKeepsCleanups(p: Provider, s: State, e: Event)
    requires Inv(p, s)
    ensures CleanupsHeld(Step(p, s, e))
  {
    hide OneLoadPerKey, GoodCaller;
    if !e.ScheduleClear? && !e.ClearInflight? && !e.Discard? {
      hide Step, GoodLoad;
      OthersLeaveCleanups(p, s, e);
    }
  }

  /** Only scheduling, running and discarding clean-ups touch them; a new load has none. */
  lemma OthersLeaveCleanups(p: Provider, s: State, e: Event)
    requires !e.ScheduleClear? && !e.ClearInflight? && !e.Discard?
    ensures Step(p, s, e).cleanups == s.cleanups && |Step(p, s, e).tasks| >= |s.tasks|
    ensures forall t | 0 <= t < |s.tasks| ::
      Step(p, s, e).tasks[t].scheduled == s.tasks[t].scheduled && Step(p, s, e).tasks[t].cleared == s.tasks[t].cleared
    ensures forall t | |s.tasks| <= t < |Step(p, s, e).tasks| :: !Step(p, s, e).tasks[t].scheduled
  {
  }

  lemma StepKeepsLoads(p: Provider, s: State, e: Event)
    requires Inv(p, s)
    ensures forall t | 0 <= t < |Step(p, s, e).tasks| :: GoodLoad(p, Step(p, s, e).tasks[t])
  {
    hide OneLoadPerKey, GoodCaller, CleanupsHeld;
  }

  lemma StepKeepsCallers(p: Provider, s: State, e: Event)
    requires Inv(p, s)
    ensures forall c | 0 <= c < |Step(p, s, e).callers| :: GoodCaller(p, Step(p, s, e), Step(p, s, e).callers[c])
  {
    hide CleanupsHeld, GoodLoad;
    if !e.Call? {
      hide OneLoadPerKey;
      OldCallersStay(p, s, e);
    }
  }

  lemma OldCallersStay(p: Provider, s: State, e: Event)
    requires !e.Call? && forall c | 0 <= c < |s.callers| :: GoodCaller(p, s, s.callers[c])
    ensures forall c | 0 <= c < |Step(p, s, e).callers| :: GoodCaller(p, Step(p, s, e), Step(p, s, e).callers[c])
  {
  }

  lemma StepKeepsInv(p: Provider, s: State, e: Event)
    requires Inv(p, s)
    ensures Inv(p, Step(p, s, e))
  {
    hide Step, OneLoadPerKey, CleanupsHeld, GoodLoad, GoodCaller;
    StepKeepsOneLoadPerKey(p, s, e);
    StepKeepsCleanups(p, s, e);
    StepKeepsLoads(p, s, e);
    StepKeepsCallers(p, s, e);
  }

  lemma {:induction false} RunKeepsInv(p: Provider, cache: map<string, Vector>, events: seq<Event>)
    ensures Inv(p, Run(p, Start(cache), events))
  {
    hide Step, Inv;
    if events == [] {
      assert Inv(p, Start(cache)) by { StartsGood(p, cache); }
    } else {
      RunKeepsInv(p, cache, events[..|events| - 1]);
      StepKeepsInv(p, Run(p, Start(cache), events[..|events| - 1]), events[|events| - 1]);
    }
  }

  lemma StartsGood(p: Provider, cache: map<string, Vector>)
    ensures Inv(p, Start(cache))
  {
  }

  // ---------------------------------------------------------------- one load, one provider call

  /** Two loads of one key that are both waiting for the provider, or both not cleaned up, are the same load. */
  lemma NoParallelLoads(p: Provider, cache: map<string, Vector>, events: seq<Event>, t: nat, u: nat)
    requires var s := Run(p, Start(cache), events);
      t < |s.tasks| && u < |s.tasks| && s.tasks[t].key == s.tasks[u].key
    ensures var s := Run(p, Start(cache), events);
      && (s.tasks[t].phase.Embedding? && s.tasks[u].phase.Embedding? ==> t == u)
      && (!s.tasks[t].cleared && !s.tasks[u].cleared ==> t == u)
  {
    hide Run, Start, Step;
    RunKeepsInv(p, cache, events);
  }

  /** A clean-up always finds its own load in the table, so it never removes another. */
  lemma ClearsItsOwnLoad(p: Provider, cache: map<string, Vector>, events: seq<Event>, t: nat)
    requires Enabled(Run(p, Start(cache), events), ClearInflight(t))
    ensures var s := Run(p, Start(cache), events);
      && s.tasks[t].key in s.inflight && s.inflight[s.tasks[t].key] == t
      && Step(p, s, ClearInflight(t)).inflight == Without(s.inflight, s.tasks[t].key)
  {
    hide Run, Start;
    RunKeepsInv(p, cache, events);
  }

  function Loads(tasks: seq<Load>, key: string): nat {
    if tasks == [] then 0
    else Loads(tasks[..|tasks| - 1], key) + (if tasks[|tasks| - 1].key == key then 1 else 0)
  }

  function ClearedLoads(tasks: seq<Load>, key: string): nat {
    if tasks == [] then 0
    else
      var last := tasks[|tasks| - 1];
      ClearedLoads(tasks[..|tasks| - 1], key) + (if last.key == key && last.cleared then 1 else 0)
  }

  /** How often the provider was asked for a key. */
  function ProviderCalls(tasks: seq<Load>, key: string): nat {
    if tasks == [] then 0
    else
      var last := tasks[|tasks| - 1];
      ProviderCalls(tasks[..|tasks| - 1], key) + (if last.key == key then last.calls else 0)
  }

  lemma {:induction false} CountLoads(p: Provider, s: State, key: string, n: nat)
    requires Inv(p, s) && n <= |s.tasks|
    ensures Loads(s.tasks[..n], key) ==
      ClearedLoads(s.tasks[..n], key) + (if key in s.inflight && s.inflight[key] < n then 1 else 0)
    ensures ProviderCalls(s.tasks[..n], key) <= Loads(s.tasks[..n], key)
  {
    if n > 0 {
      CountLoads(p, s, key, n - 1);
      assert s.tasks[..n][..n - 1] == s.tasks[..n - 1];
    }
  }

  /**
   However many callers ask, the loads of a key are the cleaned-up ones and at most one more, and
   the provider is asked at most once for each.
   */
  lemma LoadsAreConserved(p: Provider, cache: map<string, Vector>, events: seq<Event>, key: string)
    ensures var s := Run(p, Start(cache), events);
      && Loads(s.tasks, key) == ClearedLoads(s.tasks, key) + (if key in s.inflight then 1 else 0)
      && ProviderCalls(s.tasks, key) <= 1 + ClearedLoads(s.tasks, key)
  {
    hide Start, Step;
    var s := Run(p, Start(cache), events);
    RunKeepsInv(p, cache, events);
    CountLoads(p, s, key, |s.tasks|);
    assert s.tasks[..|s.tasks|] == s.tasks;
  }

  // ---------------------------------------------------------------- what the cache saves

  /** The cache holds a vector under the key that passes the check. */
  predicate Usable(p: Provider, cache: map<string, Vector>, key: string) {
    key in cache && p.valid(cache[key])
  }

  /** The read of a load of that key fails or finds no usable vector. */
  predicate Misses(p: Provider, s: State, e: Event, key: string) {
    && e.ReadCache? && Enabled(s, e) && s.tasks[e.task].key == key
    && (e.failed || !Usable(p, s.cache, key))
  }

  /** A read asks the provider exactly when it misses; otherwise the cached vector is the result. */
  lemma AsksProviderExactly(p: Provider, s: State, e: Event)
    requires e.ReadCache? && Enabled(s, e)
    ensures var before, after := s.tasks[e.task], Step(p, s, e).tasks[e.task];
      && (after.phase.Embedding? <==> Misses(p, s, e, before.key))
      && after.calls == before.calls + (if Misses(p, s, e, before.key) then 1 else 0)
      && (!after.phase.Embedding? ==> after.phase == Done(Ok(s.cache[before.key])))
  {
  }

  /** How many reads of a run miss, from a state on. */
  function MissCount(p: Provider, s: State, events: seq<Event>, key: string): nat {
    if events == [] then 0
    else
      var n := |events| - 1;
      MissCount(p, s, events[..n], key) + (if Misses(p, Run(p, s, events[..n]), events[n], key) then 1 else 0)
  }

  lemma {:induction false} CallsOfTasks(tasks: seq<Load>, others: seq<Load>, key: string, t: nat)
    requires |tasks| == |others| && t < |tasks|
    requires forall u | 0 <= u < |tasks| && u != t :: tasks[u].key == others[u].key && tasks[u].calls == others[u].calls
    requires tasks[t].key == others[t].key
    ensures ProviderCalls(others, key) - ProviderCalls(tasks, key)
      == if tasks[t].key == key then others[t].calls - tasks[t].calls else 0
  {
    var n := |tasks| - 1;
    if t < n {
      CallsOfTasks(tasks[..n], others[..n], key, t);
    } else {
      SameCalls(tasks[..n], others[..n], key);
    }
  }

  lemma {:induction false} SameCalls(tasks: seq<Load>, others: seq<Load>, key: string)
    requires |tasks| == |others|
    requires forall u | 0 <= u < |tasks| :: tasks[u].key == others[u].key && tasks[u].calls == others[u].calls
    ensures ProviderCalls(tasks, key) == ProviderCalls(others, key)
  {
    if tasks != [] { SameCalls(tasks[..|tasks| - 1], others[..|tasks| - 1], key); }
  }

  lemma StepCalls(p: Provider, s: State, e: Event, key: string)
    ensures ProviderCalls(Step(p, s, e).tasks, key)
      == ProviderCalls(s.tasks, key) + (if Misses(p, s, e, key) then 1 else 0)
  {
    hide ProviderCalls;
    var next := Step(p, s, e).tasks;
    if e.ReadCache? && Enabled(s, e) {
      CallsOfTasks(s.tasks, next, key, e.task);
    } else if |next| == |s.tasks| {
      SameCalls(s.tasks, next, key);
    } else {
      NewLoadCalls(s.tasks, next[|s.tasks|], key);
    }
  }

  lemma NewLoadCalls(tasks: seq<Load>, load: Load, key: string)
    requires load.calls == 0
    ensures ProviderCalls(tasks + [load], key) == ProviderCalls(tasks, key)
  {
    assert (tasks + [load])[..|tasks|] == tasks;
  }

  /** Over every run the provider is asked for a key exactly as often as a read of the key misses. */
  lemma {:induction false} CallsAreMisses(p: Provider, s: State, events: seq<Event>, key: string)
    ensures ProviderCalls(Run(p, s, events).tasks, key)
      == ProviderCalls(s.tasks, key) + MissCount(p, s, events, key)
  {
    hide Step, Misses, ProviderCalls;
    if events != [] {
      var n := |events| - 1;
      CallsAreMisses(p, s, events[..n], key);
      StepCalls(p, Run(p, s, events[..n]), events[n], key);
    }
  }

  /** The key is left alone: no read fails, nothing of the key is evicted or written elsewhere. */
  predicate LeavesKey(e: Event, key: string) {
    && (e.ReadCache? ==> !e.failed)
    && (e.Evicted? ==> e.key != key)
    && (e.WrittenElsewhere? ==> e.key != key)
  }

  /** No load of the key is on its way to the provider or back. */
  predicate Settled(s: State, key: string) {
    forall t | 0 <= t < |s.tasks| && s.tasks[t].key == key :: s.tasks[t].phase.Reading? || s.tasks[t].phase.Done?
  }

  lemma SettledStep(p: Provider, s: State, e: Event, key: string)
    requires Settled(s, key) && Usable(p, s.cache, key) && LeavesKey(e, key)
    ensures var next := Step(p, s, e);
      Settled(next, key) && Usable(p, next.cache, key) && next.cache[key] == s.cache[key]
    ensures !Misses(p, s, e, key)
  {
  }

  /** A usable vector is used: while its key is left alone the provider is not asked for it and it stays. */
  lemma {:induction false} UsableVectorIsUsed(p: Provider, s: State, events: seq<Event>, key: string)
    requires Settled(s, key) && Usable(p, s.cache, key)
    requires forall e | e in events :: LeavesKey(e, key)
    ensures var after := Run(p, s, events);
      && Settled(after, key) && Usable(p, after.cache, key) && after.cache[key] == s.cache[key]
      && ProviderCalls(after.tasks, key) == ProviderCalls(s.tasks, key)
  {
    hide Step, Misses, Settled, Usable, LeavesKey, ProviderCalls;
    if events != [] {
      var n := |events| - 1;
      var before := Run(p, s, events[..n]);
      assert forall e | e in events[..n] :: e in events;
      assert events[n] in events;
      UsableVectorIsUsed(p, s, events[..n], key);
      SettledStep(p, before, events[n], key);
      StepCalls(p, before, events[n], key);
    }
  }

  /** So with a usable vector in the cache at the start the provider is never asked for its key. */
  lemma CachedKeyNeedsNoProvider(p: Provider, cache: map<string, Vector>, events: seq<Event>, key: string)
    requires Usable(p, cache, key) && forall e | e in events :: LeavesKey(e, key)
    ensures ProviderCalls(Run(p, Start(cache), events).tasks, key) == 0
  {
    hide Run, Step;
    UsableVectorIsUsed(p, Start(cache), events, key);
  }

  /**
   A vector that was stored serves the later loads: after the write, while the key is left alone, the
   cache holds it and the provider is not asked for the key again.
   */
  lemma StoredVectorIsReused(
    p: Provider, cache: map<string, Vector>, events: seq<Event>, t: nat, later: seq<Event>)
    requires var s := Run(p, Start(cache), events);
      && Enabled(s, WriteCache(t, true)) && p.valid(s.tasks[t].phase.vector)
      && forall e | e in later :: LeavesKey(e, s.tasks[t].key)
    ensures var s := Run(p, Start(cache), events);
      var written := Step(p, s, WriteCache(t, true));
      var after, key := Run(p, written, later), s.tasks[t].key;
      && key in after.cache && after.cache[key] == s.tasks[t].phase.vector
      && ProviderCalls(after.tasks, key) == ProviderCalls(s.tasks, key)
  {
    hide Run, Start, ProviderCalls;
    var s := Run(p, Start(cache), events);
    RunKeepsInv(p, cache, events);
    OnlyLoadUnderWay(p, s, t);
    var written := Step(p, s, WriteCache(t, true));
    StepCalls(p, s, WriteCache(t, true), s.tasks[t].key);
    UsableVectorIsUsed(p, written, later, s.tasks[t].key);
  }

  lemma OnlyLoadUnderWay(p: Provider, s: State, t: nat)
    requires Inv(p, s) && t < |s.tasks| && s.tasks[t].phase.Writing?
    ensures forall u | 0 <= u < |s.tasks| && u != t && s.tasks[u].key == s.tasks[t].key :: s.tasks[u].phase.Done?
  {
    hide GoodCaller, CleanupsHeld;
    assert GoodLoad(p, s.tasks[t]);
    forall u | 0 <= u < |s.tasks| && u != t && s.tasks[u].key == s.tasks[t].key
      ensures s.tasks[u].phase.Done?
    {
      assert GoodLoad(p, s.tasks[u]);
    }
  }

  // ---------------------------------------------------------------- progress

  /** How many steps a load is away from being cleaned up, at most. */
  function Rank(load: Load): nat {
    if load.cleared then 0
    else if load.scheduled then 1
    else match load.phase
      case Done(_) => 2
      case Writing(_) => 3
      case Embedding => 4
      case Reading => 5
  }

  /** The event is a step of that load. */
  predicate Moves(e: Event, t: nat) {
    && (e.ReadCache? || e.ProviderReturns? || e.ProviderFails? || e.WriteCache? || e.ScheduleClear? || e.ClearInflight?)
    && e.task == t
  }

  /** A load's own step brings it closer to its end and no other step takes it away from there. */
  lemma RankFalls(p: Provider, s: State, e: Event, t: nat)
    requires Inv(p, s) && Enabled(s, e) && t < |s.tasks|
    ensures t < |Step(p, s, e).tasks| && Rank(Step(p, s, e).tasks[t]) <= Rank(s.tasks[t])
    ensures Moves(e, t) ==> Rank(Step(p, s, e).tasks[t]) < Rank(s.tasks[t])
  {
    hide OneLoadPerKey, CleanupsHeld, GoodCaller;
    assert GoodLoad(p, s.tasks[t]);
  }

  /** A load that is not cleaned up can always take its next step; a waiting caller has an answer or such a load. */
  lemma NeverStuck(p: Provider, cache: map<string, Vector>, events: seq<Event>)
    ensures var s := Run(p, Start(cache), events);
      && (forall t: nat | t < |s.tasks| && !s.tasks[t].cleared :: exists e :: Enabled(s, e) && Moves(e, t))
      && (forall c: nat | c < |s.callers| && s.callers[c].wait.Waiting? ::
            Enabled(s, Answer(c)) || exists e :: Enabled(s, e) && Moves(e, s.callers[c].task))
  {
    hide Run, Start, Step;
    var s := Run(p, Start(cache), events);
    RunKeepsInv(p, cache, events);
    forall t: nat | t < |s.tasks| && !s.tasks[t].cleared ensures exists e :: Enabled(s, e) && Moves(e, t) {
      var e := if s.tasks[t].scheduled then ClearInflight(t)
        else match s.tasks[t].phase
          case Done(_) => ScheduleClear(t)
          case Writing(_) => WriteCache(t, false)
          case Embedding => ProviderFails(t)
          case Reading => ReadCache(t, true);
      assert Enabled(s, e) && Moves(e, t);
    }
    forall c: nat | c < |s.callers| && s.callers[c].wait.Waiting?
      ensures Enabled(s, Answer(c)) || exists e :: Enabled(s, e) && Moves(e, s.callers[c].task)
    {
      assert GoodCaller(p, s, s.callers[c]);
      assert GoodLoad(p, s.tasks[s.callers[c].task]);
    }
  }

  /** A clean-up that is held can run, or has run and can be let go of; once that is done it is not held. */
  lemma CleanupsAreReleased(p: Provider, cache: map<string, Vector>, events: seq<Event>, t: nat)
    requires t in Run(p, Start(cache), events).cleanups
    ensures var s := Run(p, Start(cache), events);
      Enabled(s, ClearInflight(t)) || (Enabled(s, Discard(t)) && t !in Step(p, s, Discard(t)).cleanups)
  {
    hide Run, Start;
    RunKeepsInv(p, cache, events);
  }

  // ---------------------------------------------------------------- callers and their loads

  /**
   A call registers a caller that waits for a load of its key that is not cleaned up: the one in flight,
   or else a new one for its text.
   */
  lemma CallJoinsLoad(p: Provider, s: State, text: string)
    requires Inv(p, s)
    ensures var next, key, c := Step(p, s, Call(text)), p.key(text), |s.callers|;
      && |next.callers| == c + 1 && next.callers[..c] == s.callers
      && next.callers[c].text == text && next.callers[c].wait.Waiting?
      && (var t := next.callers[c].task;
          && t < |next.tasks| && next.tasks[t].key == key && !next.tasks[t].cleared
          && (if key in s.inflight then next.tasks == s.tasks
              else t == |s.tasks| && next.tasks == s.tasks + [Load(text, key, Reading, 0, false, false)]))
  {
    hide GoodLoad, GoodCaller, CleanupsHeld;
  }

  /** The vector of the provider is the result whether or not it is stored; a failure is the result as it is. */
  lemma LoadEnds(p: Provider, s: State, t: nat, stored: bool)
    requires t < |s.tasks|
    ensures s.tasks[t].phase.Embedding? ==>
      && Step(p, s, ProviderFails(t)).tasks[t].phase == Done(Err(ProviderFailed))
      && Step(p, s, ProviderFails(t)).cache == s.cache
      && Step(p, Step(p, s, ProviderReturns(t)), WriteCache(t, stored)).tasks[t].phase
          == Done(Ok(p.embed(s.tasks[t].text)))
  {
  }

  /** A caller that gives up takes no load with it and no other caller; an answer is the result of its load. */
  lemma CallersPart(p: Provider, s: State, c: nat)
    requires c < |s.callers| && s.callers[c].wait.Waiting?
    ensures var next := Step(p, s, Cancel(c));
      && next == s.(callers := next.callers) && next.callers == s.callers[c := s.callers[c].(wait := Cancelled)]
    ensures Enabled(s, Answer(c)) ==>
      var next := Step(p, s, Answer(c));
      && next == s.(callers := next.callers)
      && next.callers == s.callers[c := s.callers[c].(wait := Answered(s.tasks[s.callers[c].task].phase.result))]
  {
  }

  // ---------------------------------------------------------------- what callers get

  /** Every usable vector under a text's key is the text's embedding. */
  ghost predicate Coherent(p: Provider, cache: map<string, Vector>) {
    forall text :: p.key(text) in cache && p.valid(cache[p.key(text)]) ==> cache[p.key(text)] == p.embed(text)
  }

  /** Writers elsewhere keep the cache coherent; what they write may also be unusable. */
  ghost predicate Honest(p: Provider, e: Event) {
    e.WrittenElsewhere? && p.valid(e.vector) ==> forall text :: p.key(text) == e.key ==> e.vector == p.embed(text)
  }

  ghost predicate AllHonest(p: Provider, events: seq<Event>) {
    forall e | e in events :: Honest(p, e)
  }

  /** Texts that share a key share their embedding, as they do when keys are distinct. */
  ghost predicate KeysAgree(p: Provider) {
    forall a, b :: p.key(a) == p.key(b) ==> p.embed(a) == p.embed(b)
  }

  predicate Right(p: Provider, load: Load) {
    match load.phase
    case Writing(v) => v == p.embed(load.text)
    case Done(Ok(v)) => v == p.embed(load.text)
    case _ => true
  }

  ghost predicate AllRight(p: Provider, s: State) {
    && Coherent(p, s.cache)
    && forall t | 0 <= t < |s.tasks| :: Right(p, s.tasks[t])
  }

  /** Whoever was answered with a vector has the embedding of their own text. */
  predicate AnswersRight(p: Provider, s: State) {
    forall c | 0 <= c < |s.callers| ::
      s.callers[c].wait.Answered? && s.callers[c].wait.answer.Ok? ==>
        s.callers[c].wait.answer.value == p.embed(s.callers[c].text)
  }

  lemma StepKeepsCoherent(p: Provider, s: State, e: Event)
    requires Inv(p, s) && AllRight(p, s) && Honest(p, e) && KeysAgree(p)
    ensures Coherent(p, Step(p, s, e).cache)
  {
    hide OneLoadPerKey, CleanupsHeld, GoodCaller;
    if e.WriteCache? && Enabled(s, e) {
      assert GoodLoad(p, s.tasks[e.task]) && Right(p, s.tasks[e.task]);
    }
  }

  lemma StepKeepsRight(p: Provider, s: State, e: Event)
    requires Inv(p, s) && AllRight(p, s)
    ensures forall t | 0 <= t < |Step(p, s, e).tasks| :: Right(p, Step(p, s, e).tasks[t])
  {
    hide OneLoadPerKey, CleanupsHeld, GoodCaller;
    if e.ReadCache? && Enabled(s, e) {
      assert GoodLoad(p, s.tasks[e.task]);
    }
  }

  lemma {:induction false} RunKeepsRight(p: Provider, cache: map<string, Vector>, events: seq<Event>)
    requires KeysAgree(p) && Coherent(p, cache) && AllHonest(p, events)
    ensures AllRight(p, Run(p, Start(cache), events))
  {
    hide Step, Inv, Coherent, Right, KeysAgree;
    if events != [] {
      var before := events[..|events| - 1];
      assert AllHonest(p, before) && events[|events| - 1] in events;
      RunKeepsRight(p, cache, before);
      RunKeepsInv(p, cache, before);
      StepKeepsCoherent(p, Run(p, Start(cache), before), events[|events| - 1]);
      StepKeepsRight(p, Run(p, Start(cache), before), events[|events| - 1]);
    }
  }

  lemma CallersGetTheirVector(p: Provider, cache: map<string, Vector>, events: seq<Event>)
    requires KeysAgree(p) && Coherent(p, cache) && AllHonest(p, events)
    ensures AnswersRight(p, Run(p, Start(cache), events))
  {
    hide Run, Start, Step, OneLoadPerKey, CleanupsHeld, Coherent;
    var s := Run(p, Start(cache), events);
    RunKeepsRight(p, cache, events);
    RunKeepsInv(p, cache, events);
    forall c | 0 <= c < |s.callers| && s.callers[c].wait.Answered? && s.callers[c].wait.answer.Ok?
      ensures s.callers[c].wait.answer.value == p.embed(s.callers[c].text)
    {
      var load := s.tasks[s.callers[c].task];
      assert GoodCaller(p, s, s.callers[c]) && GoodLoad(p, load) && Right(p, load);
      assert p.key(load.text) == p.key(s.callers[c].text);
    }
  }

  lemma RunLast(p: Provider, s: State, events: seq<Event>, e: Event)
    ensures Run(p, s, events + [e]) == Step(p, Run(p, s, events), e)
  {
    assert (events + [e])[..|events|] == events;
  }

  /** Two texts of one key: the second caller shares the first one's load and is answered with its vector. */
  lemma SharedKeyMixesUp(p: Provider, a: string, b: string) returns (events: seq<Event>)
    requires p.key(a) == p.key(b) && p.embed(a) != p.embed(b)
    ensures AllHonest(p, events) && !AnswersRight(p, Run(p, Start(map[]), events))
  {
    hide Run;
    var key := p.key(a);
    events := [Call(a), Call(b)];
    RunTwo(p, Start(map[]), Call(a), Call(b));
    var s := Run(p, Start(map[]), events);
    var callers := [Caller(a, 0, Waiting), Caller(b, 0, Waiting)];
    assert s == State([Load(a, key, Reading, 0, false, false)], map[key := 0], {}, map[], callers);
    RunLast(p, Start(map[]), events, ReadCache(0, true));
    events := events + [ReadCache(0, true)];
    RunLast(p, Start(map[]), events, ProviderReturns(0));
    events := events + [ProviderReturns(0)];
    RunLast(p, Start(map[]), events, WriteCache(0, false));
    events := events + [WriteCache(0, false)];
    assert Run(p, Start(map[]), events).tasks[0].phase == Done(Ok(p.embed(a)));
    RunLast(p, Start(map[]), events, Answer(1));
    events := events + [Answer(1)];
    assert Run(p, Start(map[]), events).callers[1] == Caller(b, 0, Answered(Ok(p.embed(a))));
  }

  lemma RunTwo(p: Provider, s: State, e: Event, f: Event)
    ensures Run(p, s, [e, f]) == Step(p, Step(p, s, e), f)
  {
    assert [e, f][..1] == [e] && [e][..0] == [];
    assert Run(p, s, []) == s;
  }

  /**
   Over every run on a coherent cache, whatever fails, each caller gets the embedding of their own
   text exactly when texts with equal keys have equal embeddings.
   */
  lemma CallersGetTheirVectorExactly(p: Provider)
    ensures KeysAgree(p) <==>
      forall cache, events :: Coherent(p, cache) && AllHonest(p, events) ==>
        AnswersRight(p, Run(p, Start(cache), events))
  {
    hide Run, Start, AnswersRight, AllHonest;
    if KeysAgree(p) {
      forall cache, events | Coherent(p, cache) && AllHonest(p, events)
        ensures AnswersRight(p, Run(p, Start(cache), events))
      {
        CallersGetTheirVector(p, cache, events);
      }
    } else {
      var a, b :| p.key(a) == p.key(b) && p.embed(a) != p.embed(b);
      var events := SharedKeyMixesUp(p, a, b);
      assert Coherent(p, map[]);
    }
  }

  predicate NoneFailed(s: State) {
    && (forall t | 0 <= t < |s.tasks| :: s.tasks[t].phase.Done? ==> s.tasks[t].phase.result.Ok?)
    && (forall c | 0 <= c < |s.callers| :: s.callers[c].wait.Answered? ==> s.callers[c].wait.answer.Ok?)
  }

  /** Cache reads and writes may fail at will: a caller sees an error only when the provider failed. */
  lemma {:induction false} CacheNeverFailsCallers(p: Provider, cache: map<string, Vector>, events: seq<Event>)
    requires forall e | e in events :: !e.ProviderFails?
    ensures NoneFailed(Run(p, Start(cache), events))
  {
    if events != [] {
      var before, e := events[..|events| - 1], events[|events| - 1];
      CacheNeverFailsCallers(p, cache, before);
      assert e in events;
      StepFailsNobody(p, Run(p, Start(cache), before), e);
    }
  }

  lemma StepFailsNobody(p: Provider, s: State, e: Event)
    requires NoneFailed(s) && !e.ProviderFails?
    ensures NoneFailed(Step(p, s, e))
  {
  }

  // ---------------------------------------------------------------- the provider object

  /**
   The object whose dictionary and set the steps change, with the loads and callers it has created.
   One method per stretch of code between two awaits.
   */
  class CachedQueryEmbeddingProvider {
    const provider: Provider
    var inflight: map<string, nat>
    var cleanups: set<nat>
    var tasks: seq<Load>
    var callers: seq<Caller>
    var cache: map<string, Vector>

    function Now(): State
      reads this
    {
      State(tasks, inflight, cleanups, cache, callers)
    }

    constructor (provider: Provider, cache: map<string, Vector>)
      ensures this.provider == provider && Now() == Start(cache)
    {
      this.provider := provider;
      this.cache := cache;
      inflight, cleanups, tasks, callers := map[], {}, [], [];
    }

    /** The locked part of `embed_query`: the load that the caller will wait for. */
    method EmbedQuery(text: string) returns (task: nat)
      requires Inv(provider, Now())
      modifies this
      ensures Now() == Step(provider, old(Now()), Call(text)) && Inv(provider, Now())
      ensures task < |tasks| && tasks[task].key == provider.key(text) && !tasks[task].cleared
    {
      hide Inv;
      StepKeepsInv(provider, Now(), Call(text));
      var key := provider.key(text);
      if key in inflight {
        task := inflight[key];
      } else {
        task := |tasks|;
        tasks := tasks + [Load(text, key, Reading, 0, false, false)];
        inflight := inflight[key := task];
      }
      callers := callers + [Caller(text, task, Waiting)];
      TableHoldsLoads(provider, Now());
    }

    /** The start of `_load_or_embed`, up to its return of the cached vector or its provider call. */
    method Lookup(task: nat, failed: bool) returns (found: bool)
      requires Inv(provider, Now()) && Enabled(Now(), ReadCache(task, failed))
      modifies this`tasks
      ensures Now() == Step(provider, old(Now()), ReadCache(task, failed)) && Inv(provider, Now())
      ensures found <==> tasks[task].phase.Done?
      ensures found <==> !failed && Usable(provider, cache, old(tasks[task].key))
    {
      hide Inv;
      StepKeepsInv(provider, Now(), ReadCache(task, failed));
      var load := tasks[task];
      var cached := if !failed && load.key in cache then Some(cache[load.key]) else None;
      found := cached.Some? && provider.valid(cached.value);
      if found {
        tasks := tasks[task := load.(phase := Done(Ok(cached.value)))];
      } else {
        tasks := tasks[task := load.(phase := Embedding, calls := load.calls + 1)];
      }
    }

    /** The end of `_load_or_embed`: the provider's vector is stored if the cache lets it. */
    method Store(task: nat, stored: bool)
      requires Inv(provider, Now()) && Enabled(Now(), WriteCache(task, stored))
      modifies this`tasks, this`cache
      ensures Now() == Step(provider, old(Now()), WriteCache(task, stored)) && Inv(provider, Now())
    {
      hide Inv;
      StepKeepsInv(provider, Now(), WriteCache(task, stored));
      var load := tasks[task];
      if stored {
        cache := cache[load.key := load.phase.vector];
      }
      tasks := tasks[task := load.(phase := Done(Ok(load.phase.vector)))];
    }

    method Schedule(task: nat)
      requires Inv(provider, Now()) && Enabled(Now(), ScheduleClear(task))
      modifies this`tasks, this`cleanups
      ensures Now() == Step(provider, old(Now()), ScheduleClear(task)) && Inv(provider, Now())
    {
      hide Inv;
      StepKeepsInv(provider, Now(), ScheduleClear(task));
      cleanups := cleanups + {task};
      tasks := tasks[task := tasks[task].(scheduled := true)];
    }

    /** The locked part of `_clear_inflight`: exactly the load's own key leaves the table. */
    method Clear(task: nat)
      requires Inv(provider, Now()) && Enabled(Now(), ClearInflight(task))
      modifies this`tasks, this`inflight
      ensures Now() == Step(provider, old(Now()), ClearInflight(task)) && Inv(provider, Now())
      ensures old(tasks[task].key in inflight) && inflight.Keys == old(inflight.Keys) - {old(tasks[task].key)}
    {
      hide Inv;
      StepKeepsInv(provider, Now(), ClearInflight(task));
      TableHoldsLoads(provider, Now());
      var load := tasks[task];
      if load.key in inflight && inflight[load.key] == task {
        inflight := Without(inflight, load.key);
      }
      tasks := tasks[task := load.(cleared := true)];
    }
  }

  lemma TableHoldsLoads(p: Provider, s: State)
    requires Inv(p, s)
    ensures OneLoadPerKey(s)
  {
  }
}
