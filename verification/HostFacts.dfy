/**
 The facts a Magisk host publishes about itself, refreshed again and again: which capabilities are registered
 as available, at which source generation, and which helper the executor may use.
 */
module HostFacts {
  import opened Wrappers

  const U64_MAX: nat := 0xFFFF_FFFF_FFFF_FFFF

  datatype Family = Launch | Clipboard | Notifications
  datatype Key = Module | Root | RootGuard | WakeAlarm | Framework | Of(family: Family)

  datatype Reason =
    | CleanupUnverified | ModuleUnavailable | ModuleOrGuardUnavailable
    | WakeAlarmUnavailable | HelperUnavailable | ProbeFailed(family: Family)

  /** A capability is available, or unavailable for a reason. A key owns an executor when it is available, except `Module`. */
  type Status = Option<Reason>

  datatype Fact = Fact(status: Status, generation: nat)

  /** Whether each family's last probe succeeded. */
  datatype Probes = Probes(launch: bool, clipboard: bool, notifications: bool) {
    function Of(f: Family): bool {
      match f
      case Launch => launch
      case Clipboard => clipboard
      case Notifications => notifications
    }
  }

  datatype Executor = Executor(source: nat, helper: Option<nat>)

  /**
   `lost` records that a registration was dropped: the registry ignores a generation that is not larger than
   the one it holds, and says so only in a result that is thrown away.
   */
  datatype State = State(
    guardReady: bool, moduleReady: bool, wakeReady: bool,
    capability: nat, helperGeneration: nat,
    helper: Option<nat>, port: bool, probes: Probes,
    executor: Executor, registry: map<Key, Fact>, condition: Option<Reason>, lost: bool)

  /** What one refresh observes. `probed` are the answers a family's probe would give. */
  datatype Env = Env(
    schedulerFaulted: bool, flagged: bool, watchActive: bool, moduleObserved: bool,
    alive: bool, retry: bool, denied: Probes, probed: Probes, booted: bool, starts: bool,
    conditionLock: bool, registryLock: bool)

  function Available(available: bool, reason: Reason): Status {
    if available then None else Some(reason)
  }

  // ---- registrations ----

  /** What a registry holds after some keys were registered, each once, at one generation. */
  function Merge(registry: map<Key, Fact>, batch: map<Key, Status>, generation: nat): map<Key, Fact> {
    map k | k in registry :: if k in batch && generation > registry[k].generation then Fact(batch[k], generation) else registry[k]
  }

  predicate Taken(registry: map<Key, Fact>, batch: map<Key, Status>, generation: nat) {
    forall k :: k in batch ==> k in registry && generation > registry[k].generation
  }

  function RegisterAll(s: State, batch: map<Key, Status>, e: Env): (State, bool) {
    if !e.registryLock then (s, false)
    else (s.(registry := Merge(s.registry, batch, s.capability), lost := s.lost || !Taken(s.registry, batch, s.capability)), true)
  }

  /** A new generation, and registrations under it. */
  function Publish(s: State, batch: map<Key, Status>, e: Env): (State, bool) {
    if s.capability == U64_MAX then (s, false) else RegisterAll(s.(capability := s.capability + 1), batch, e)
  }

  function RefreshExecutor(s: State): (State, bool) {
    var helper := if s.helper.Some? then Some(s.helperGeneration) else None;
    if s.capability == 0 || helper == Some(0) then (s, false)
    else (s.(executor := Executor(s.capability, helper)), true)
  }

  function PublishAndRefresh(s: State, batch: map<Key, Status>, e: Env): (State, bool) {
    var (t, ok) := Publish(s, batch, e);
    if ok then RefreshExecutor(t) else (t, false)
  }

  // ---- the parts of a refresh ----

  function AlarmPart(s: State, e: Env): (State, bool) {
    if e.schedulerFaulted && s.wakeReady then
      Publish(s.(wakeReady := false), map[WakeAlarm := Some(WakeAlarmUnavailable)], e)
    else (s, true)
  }

  function RootBatch(available: bool, reason: Reason): map<Key, Status> {
    map[Root := Available(available, reason), RootGuard := Available(available, reason)]
  }

  function QuarantinePart(s: State, e: Env): (State, bool) {
    if !(s.guardReady && e.flagged) then (s, true)
    else if !e.watchActive && !e.conditionLock then (s.(guardReady := false), false)
    else
      var closed := s.(guardReady := false, condition := if e.watchActive then s.condition else Some(CleanupUnverified));
      PublishAndRefresh(closed, RootBatch(false, CleanupUnverified), e)
  }

  function ModulePart(s: State, e: Env): (State, bool) {
    if s.moduleReady == e.moduleObserved then (s, true)
    else if !e.moduleObserved && !e.conditionLock then (s.(moduleReady := false, guardReady := false), false)
    else
      var seen :=
        if e.moduleObserved then s.(moduleReady := true)
        else s.(moduleReady := false, guardReady := false, condition := Some(ModuleUnavailable));
      PublishAndRefresh(seen, ModuleBatch(e.moduleObserved, seen.guardReady), e)
  }

  function ModuleBatch(observed: bool, guardReady: bool): map<Key, Status> {
    RootBatch(observed && guardReady, ModuleOrGuardUnavailable)[Module := Available(observed, ModuleUnavailable)]
  }

  /** A denied or, when it is time, a failed family is probed again; the others stay as they are. */
  function Reprobe(current: Probes, e: Env): Probes {
    Probes(ReprobeOne(current, e, Launch), ReprobeOne(current, e, Clipboard), ReprobeOne(current, e, Notifications))
  }

  function ReprobeOne(current: Probes, e: Env, f: Family): bool {
    if e.denied.Of(f) || (e.retry && !current.Of(f)) then e.probed.Of(f) else current.Of(f)
  }

  function FamilyStatus(helper: bool, probes: Probes, f: Family): Status {
    if !helper then Some(HelperUnavailable) else if probes.Of(f) then None else Some(ProbeFailed(f))
  }

  function HelperBatch(helper: bool, probes: Probes): map<Key, Status> {
    map[Framework := Available(helper, HelperUnavailable),
        Of(Launch) := FamilyStatus(helper, probes, Launch),
        Of(Clipboard) := FamilyStatus(helper, probes, Clipboard),
        Of(Notifications) := FamilyStatus(helper, probes, Notifications)]
  }

  function HelperPart(s: State, e: Env): (State, bool) {
    if s.helper.Some? && e.alive then
      var probes := Reprobe(s.probes, e);
      if probes == s.probes then (s, true)
      else PublishAndRefresh(s.(probes := probes), HelperBatch(true, probes), e)
    else if s.helper.Some? then
      PublishAndRefresh(s.(helper := None, port := false, executor := s.executor.(helper := None)), HelperBatch(false, s.probes), e)
    else if !s.moduleReady || !s.guardReady || !e.booted then (s, true)
    else if s.helperGeneration == U64_MAX then (s, false)
    else if !e.starts then (s.(helperGeneration := s.helperGeneration + 1), true)
    else
      var generation := s.helperGeneration + 1;
      PublishAndRefresh(s.(helperGeneration := generation, helper := Some(generation), port := true, probes := e.probed),
                        HelperBatch(true, e.probed), e)
  }

  function Refresh(s: State, e: Env): (State, bool) {
    var (a, alarm) := AlarmPart(s, e);
    if !alarm then (a, false) else
    var (q, quarantine) := QuarantinePart(a, e);
    if !quarantine then (q, false) else
    var (m, module_) := ModulePart(q, e);
    if !module_ then (m, false) else
    HelperPart(m, e)
  }

  // ---- the first facts ----

  const AllKeys: set<Key> := {Module, Root, RootGuard, WakeAlarm, Framework, Of(Launch), Of(Clipboard), Of(Notifications)}

  const NothingKnown: map<Key, Fact> := map k | k in AllKeys :: Fact(Some(HelperUnavailable), 0)

  function FirstStatus(guardReady: bool, wakeReady: bool, helper: bool, probes: Probes, k: Key): Status {
    match k
    case Module => None
    case Root | RootGuard => Available(guardReady, CleanupUnverified)
    case WakeAlarm => Available(wakeReady, WakeAlarmUnavailable)
    case Framework => Available(helper, HelperUnavailable)
    case Of(f) => FamilyStatus(helper, probes, f)
  }

  function FirstBatch(guardReady: bool, wakeReady: bool, helper: bool, probes: Probes): map<Key, Status> {
    map k | k in AllKeys :: FirstStatus(guardReady, wakeReady, helper, probes, k)
  }

  function First(guardReady: bool, wakeReady: bool, helper: bool, probes: Probes): State {
    var generation := if helper then Some(1) else None;
    State(guardReady, true, wakeReady, 1, 1, generation, helper, probes, Executor(1, generation),
          Merge(NothingKnown, FirstBatch(guardReady, wakeReady, helper, probes), 1),
          if guardReady then None else Some(CleanupUnverified), false)
  }

  /** Recovery that could not be carried out closes what was just registered, at the next generation. */
  function Unrecovered(s: State): State {
    s.(guardReady := false, condition := Some(CleanupUnverified), capability := s.capability + 1,
       registry := Merge(s.registry, RootBatch(false, CleanupUnverified), s.capability + 1),
       executor := Executor(s.capability + 1, s.executor.helper))
  }

  /** The state a host starts in: guards verified or not, alarms usable or not, a helper or none, recovery carried out or not. */
  function Activate(guardReady: bool, wakeReady: bool, helper: bool, probed: Probes, recovered: bool): State {
    var first := First(guardReady, wakeReady, helper, if helper then probed else Probes(false, false, false));
    if recovered then first else Unrecovered(first)
  }

  // ---- the object ----

  class MagiskHost {
    var guardReady: bool
    var moduleReady: bool
    var wakeReady: bool
    var capability: nat
    var helperGeneration: nat
    var helper: Option<nat>
    var port: bool
    var probes: Probes
    var executor: Executor
    var registry: map<Key, Fact>
    var condition: Option<Reason>
    var lost: bool

    function Now(): State
      reads this
    {
      State(guardReady, moduleReady, wakeReady, capability, helperGeneration, helper, port, probes, executor, registry, condition, lost)
    }

    constructor (s: State)
      ensures Now() == s
    {
      guardReady, moduleReady, wakeReady := s.guardReady, s.moduleReady, s.wakeReady;
      capability, helperGeneration, helper := s.capability, s.helperGeneration, s.helper;
      port, probes, executor := s.port, s.probes, s.executor;
      registry, condition, lost := s.registry, s.condition, s.lost;
    }

    /** One registration; a generation that is not larger is ignored. */
    method Register(key: Key, status: Status)
      modifies `registry, `lost
      ensures registry == Merge(old(registry), map[key := status], capability)
      ensures lost == (old(lost) || !Taken(old(registry), map[key := status], capability))
    {
      if key in registry && capability > registry[key].generation {
        registry := registry[key := Fact(status, capability)];
      } else {
        lost := true;
      }
      assert registry == Merge(old(registry), map[key := status], capability);
    }

    method Advance() returns (ok: bool)
      modifies `capability
      ensures ok <==> old(capability) != U64_MAX
      ensures capability == if ok then old(capability) + 1 else old(capability)
    {
      ok := capability != U64_MAX;
      if ok {
        capability := capability + 1;
      }
    }

    /** Registrations in some order, each key once. */
    method RegisterEach(keys: seq<Key>, batch: map<Key, Status>)
      requires forall i, j :: 0 <= i < j < |keys| ==> keys[i] != keys[j]
      requires forall k :: k in keys <==> k in batch
      modifies `registry, `lost
      ensures registry == Merge(old(registry), batch, capability)
      ensures lost == (old(lost) || !Taken(old(registry), batch, capability))
    {
      ghost var before := registry;
      for i := 0 to |keys|
        invariant registry.Keys == before.Keys
        invariant forall k :: k in before ==>
            registry[k] == if k in keys[..i] && capability > before[k].generation then Fact(batch[k], capability) else before[k]
        invariant lost == (old(lost) || exists k :: k in keys[..i] && !(k in before && capability > before[k].generation))
      {
        assert keys[..i + 1] == keys[..i] + [keys[i]];
        Register(keys[i], batch[keys[i]]);
      }
      assert keys[..|keys|] == keys;
      assert registry == Merge(before, batch, capability);
    }

    method PublishFacts(keys: seq<Key>, batch: map<Key, Status>, e: Env) returns (ok: bool)
      requires forall i, j :: 0 <= i < j < |keys| ==> keys[i] != keys[j]
      requires forall k :: k in keys <==> k in batch
      modifies `capability, `registry, `lost
      ensures (Now(), ok) == Publish(old(Now()), batch, e)
    {
      ok := Advance();
      if !ok || !e.registryLock {
        return false;
      }
      RegisterEach(keys, batch);
    }

    method RefreshTheExecutor() returns (ok: bool)
      modifies `executor
      ensures (Now(), ok) == RefreshExecutor(old(Now()))
    {
      var held := if helper.Some? then Some(helperGeneration) else None;
      if capability == 0 || held == Some(0) {
        return false;
      }
      executor := Executor(capability, held);
      return true;
    }

    method PublishThenRefresh(keys: seq<Key>, batch: map<Key, Status>, e: Env) returns (ok: bool)
      requires forall i, j :: 0 <= i < j < |keys| ==> keys[i] != keys[j]
      requires forall k :: k in keys <==> k in batch
      modifies `capability, `registry, `lost, `executor
      ensures (Now(), ok) == PublishAndRefresh(old(Now()), batch, e)
    {
      ok := PublishFacts(keys, batch, e);
      if ok {
        ok := RefreshTheExecutor();
      }
    }

    method CheckScheduler(e: Env) returns (ok: bool)
      modifies this
      ensures (Now(), ok) == AlarmPart(old(Now()), e)
    {
      ok := true;
      if e.schedulerFaulted && wakeReady {
        wakeReady := false;
        ok := PublishFacts([WakeAlarm], map[WakeAlarm := Some(WakeAlarmUnavailable)], e);
      }
    }

    method CheckQuarantine(e: Env) returns (ok: bool)
      modifies this
      ensures (Now(), ok) == QuarantinePart(old(Now()), e)
    {
      ok := true;
      if guardReady && e.flagged {
        guardReady := false;
        if !e.watchActive {
          if !e.conditionLock {
            return false;
          }
          condition := Some(CleanupUnverified);
        }
        ok := PublishThenRefresh([Root, RootGuard], RootBatch(false, CleanupUnverified), e);
      }
    }

    method CheckModule(e: Env) returns (ok: bool)
      modifies this
      ensures (Now(), ok) == ModulePart(old(Now()), e)
    {
      ok := true;
      if moduleReady != e.moduleObserved {
        moduleReady := e.moduleObserved;
        if !e.moduleObserved {
          guardReady := false;
          if !e.conditionLock {
            return false;
          }
          condition := Some(ModuleUnavailable);
        }
        ok := PublishThenRefresh([Module, Root, RootGuard], ModuleBatch(e.moduleObserved, guardReady), e);
      }
    }

    method PublishHelperState(available: bool, e: Env) returns (ok: bool)
      modifies this
      ensures (Now(), ok) == PublishAndRefresh(old(Now()), HelperBatch(available, old(probes)), e)
    {
      ok := PublishThenRefresh([Framework, Of(Launch), Of(Clipboard), Of(Notifications)], HelperBatch(available, probes), e);
    }

    method CheckHelper(e: Env) returns (ok: bool)
      modifies this
      ensures (Now(), ok) == HelperPart(old(Now()), e)
    {
      ok := true;
      if helper.Some? && e.alive {
        var answers := Reprobe(probes, e);
        if answers != probes {
          probes := answers;
          ok := PublishHelperState(true, e);
        }
        return;
      }
      if helper.Some? {
        helper, port := None, false;
        executor := executor.(helper := None);
        ok := PublishHelperState(false, e);
        return;
      }
      if !moduleReady || !guardReady || !e.booted {
        return;
      }
      if helperGeneration == U64_MAX {
        return false;
      }
      helperGeneration := helperGeneration + 1;
      if e.starts {
        port, probes, helper := true, e.probed, Some(helperGeneration);
        ok := PublishHelperState(true, e);
      }
    }

    method RefreshRuntimeFacts(e: Env) returns (ok: bool)
      modifies this
      ensures (Now(), ok) == Refresh(old(Now()), e)
    {
      ok := CheckScheduler(e);
      if ok {
        ok := CheckQuarantine(e);
      }
      if ok {
        ok := CheckModule(e);
      }
      if ok {
        ok := CheckHelper(e);
      }
    }
  }

  // ---- what every refresh keeps ----

  predicate Shows(s: State, key: Key, available: bool) {
    key in s.registry && (s.registry[key].status.None? <==> available)
  }

  /** Every key is registered, no later than at the current generation. */
  ghost predicate Dated(s: State) {
    s.capability >= 1 && s.helperGeneration >= 1 && forall k: Key :: k in s.registry && s.registry[k].generation <= s.capability
  }

  /** The registered availability of every key is what the host knows. */
  ghost predicate Truthful(s: State) {
    OwnTruthful(s) && HelperTruthful(s)
  }

  ghost predicate OwnTruthful(s: State) {
    && Shows(s, Module, s.moduleReady)
    && Shows(s, Root, s.guardReady && s.moduleReady) && Shows(s, RootGuard, s.guardReady && s.moduleReady)
    && Shows(s, WakeAlarm, s.wakeReady)
  }

  ghost predicate HelperTruthful(s: State) {
    Shows(s, Framework, s.helper.Some?) && forall f: Family :: Shows(s, Of(f), s.helper.Some? && s.probes.Of(f))
  }

  /** The executor holds the live helper's generation, and no other. */
  ghost predicate HelperHeld(s: State) {
    && s.executor.helper == s.helper
    && (s.helper.Some? ==> s.helper.value == s.helperGeneration)
    && (s.port <==> s.helper.Some?)
  }

  /** The executor's fence is the current generation, or, once the alarm is lost, at most one behind it. */
  ghost predicate Fenced(s: State) {
    s.executor.source == s.capability || (!s.wakeReady && s.executor.source + 1 == s.capability)
  }

  predicate GuardsNeedModule(s: State) {
    s.guardReady ==> s.moduleReady
  }

  ghost predicate Inv(s: State) {
    Dated(s) && Truthful(s) && HelperHeld(s) && Fenced(s) && GuardsNeedModule(s) && !s.lost
  }

  lemma PublishTakes(s: State, batch: map<Key, Status>, e: Env)
    requires Dated(s) && !s.lost
    ensures var (t, ok) := Publish(s, batch, e);
            ok ==>
              && Dated(t) && t == s.(capability := s.capability + 1, registry := t.registry)
              && forall k: Key :: t.registry[k] == if k in batch then Fact(batch[k], t.capability) else s.registry[k]
  {
  }

  lemma AlarmKeeps(s: State, e: Env)
    requires Inv(s) && AlarmPart(s, e).1
    ensures Inv(AlarmPart(s, e).0)
  {
    if e.schedulerFaulted && s.wakeReady {
      PublishTakes(s.(wakeReady := false), map[WakeAlarm := Some(WakeAlarmUnavailable)], e);
    }
  }

  /** Publishing what root's availability has become makes the registrations true again. */
  lemma RootPublished(s: State, batch: map<Key, Status>, e: Env)
    requires Dated(s) && HelperTruthful(s) && HelperHeld(s) && Shows(s, WakeAlarm, s.wakeReady) && GuardsNeedModule(s) && !s.lost
    requires batch.Keys <= {Module, Root, RootGuard} && Root in batch && RootGuard in batch
    requires (batch[Root].None? <==> s.guardReady && s.moduleReady) && batch[RootGuard] == batch[Root]
    requires if Module in batch then batch[Module].None? <==> s.moduleReady else Shows(s, Module, s.moduleReady)
    ensures var (t, ok) := PublishAndRefresh(s, batch, e); ok ==> Inv(t)
  {
    PublishTakes(s, batch, e);
  }

  lemma QuarantineKeeps(s: State, e: Env)
    requires Inv(s) && QuarantinePart(s, e).1
    ensures Inv(QuarantinePart(s, e).0)
  {
    if s.guardReady && e.flagged {
      var closed := s.(guardReady := false, condition := if e.watchActive then s.condition else Some(CleanupUnverified));
      RootPublished(closed, RootBatch(false, CleanupUnverified), e);
    }
  }

  lemma ModuleKeeps(s: State, e: Env)
    requires Inv(s) && ModulePart(s, e).1
    ensures Inv(ModulePart(s, e).0)
  {
    if s.moduleReady != e.moduleObserved {
      var seen :=
        if e.moduleObserved then s.(moduleReady := true)
        else s.(moduleReady := false, guardReady := false, condition := Some(ModuleUnavailable));
      RootPublished(seen, ModuleBatch(e.moduleObserved, seen.guardReady), e);
    }
  }

  lemma HelperBatchOf(helper: bool, probes: Probes, f: Family)
    ensures Of(f) in HelperBatch(helper, probes) && HelperBatch(helper, probes)[Of(f)] == FamilyStatus(helper, probes, f)
  {
    match f { case Launch => case Clipboard => case Notifications => }
  }

  lemma HelperPublished(s: State, e: Env)
    requires Dated(s) && OwnTruthful(s) && GuardsNeedModule(s) && !s.lost
    requires (s.helper.Some? ==> s.helper.value == s.helperGeneration) && (s.port <==> s.helper.Some?)
    ensures var (t, ok) := PublishAndRefresh(s, HelperBatch(s.helper.Some?, s.probes), e);
            ok ==> Inv(t)
  {
    var batch := HelperBatch(s.helper.Some?, s.probes);
    PublishTakes(s, batch, e);
    forall f: Family
      ensures Of(f) in batch && batch[Of(f)] == FamilyStatus(s.helper.Some?, s.probes, f)
    {
      HelperBatchOf(s.helper.Some?, s.probes, f);
    }
  }

  lemma HelperKeeps(s: State, e: Env)
    requires Inv(s) && HelperPart(s, e).1
    ensures Inv(HelperPart(s, e).0)
  {
    if s.helper.Some? && e.alive {
      HelperPublished(s.(probes := Reprobe(s.probes, e)), e);
    } else if s.helper.Some? {
      HelperPublished(s.(helper := None, port := false, executor := s.executor.(helper := None)), e);
    } else if s.moduleReady && s.guardReady && e.booted && e.starts {
      var generation := s.helperGeneration + 1;
      HelperPublished(s.(helperGeneration := generation, helper := Some(generation), port := true, probes := e.probed), e);
    }
  }

  /** A refresh that succeeds leaves every registration, the executor and its fence true of the host. */
  lemma RefreshKeepsInv(s: State, e: Env)
    requires Inv(s) && Refresh(s, e).1
    ensures Inv(Refresh(s, e).0)
  {
    AlarmKeeps(s, e);
    var a := AlarmPart(s, e).0;
    QuarantineKeeps(a, e);
    var q := QuarantinePart(a, e).0;
    ModuleKeeps(q, e);
    HelperKeeps(ModulePart(q, e).0, e);
  }

  lemma EveryKeyIsKnown(k: Key)
    ensures k in AllKeys
  {
    match k {
      case Of(f) => match f { case Launch => case Clipboard => case Notifications => }
      case _ =>
    }
  }

  lemma FirstIsTrue(guardReady: bool, wakeReady: bool, helper: bool, probes: Probes)
    ensures Inv(First(guardReady, wakeReady, helper, probes))
  {
    var s := First(guardReady, wakeReady, helper, probes);
    forall k: Key
      ensures k in s.registry && s.registry[k] == Fact(FirstStatus(guardReady, wakeReady, helper, probes, k), 1)
    {
      EveryKeyIsKnown(k);
    }
  }

  lemma UnrecoveredIsTrue(s: State)
    requires Inv(s)
    ensures Inv(Unrecovered(s))
  {
    assert Dated(Unrecovered(s)) && OwnTruthful(Unrecovered(s)) && HelperTruthful(Unrecovered(s));
  }

  /** A host starts true, and with its guards ready only when recovery was carried out. */
  lemma ActivateEstablishes(guardReady: bool, wakeReady: bool, helper: bool, probed: Probes, recovered: bool)
    ensures Inv(Activate(guardReady, wakeReady, helper, probed, recovered))
    ensures Activate(guardReady, wakeReady, helper, probed, recovered).guardReady == (guardReady && recovered)
  {
    var first := First(guardReady, wakeReady, helper, if helper then probed else Probes(false, false, false));
    FirstIsTrue(guardReady, wakeReady, helper, first.probes);
    UnrecoveredIsTrue(first);
  }

  datatype Refusal = StaleAuthority | CapabilityUnavailable

  /** An operation names the source generation it was admitted under; the privileged family needs a live helper. */
  function Authorize(executor: Executor, expected: nat, privileged: bool): Option<Refusal> {
    if executor.source != expected then Some(StaleAuthority)
    else if privileged && executor.helper.None? then Some(CapabilityUnavailable)
    else None
  }

  // ---- runs ----

  ghost predicate StepAt(run: seq<State>, envs: seq<Env>, n: nat)
    requires n + 1 < |run| && n < |envs|
  {
    run[n + 1] == Refresh(run[n], envs[n]).0
  }

  /** A host's states under a sequence of refreshes, succeeding or not. */
  ghost predicate IsRun(run: seq<State>, envs: seq<Env>) {
    && |run| == |envs| + 1
    && (exists guard, wake, helper, probed, recovered :: run[0] == Activate(guard, wake, helper, probed, recovered))
    && forall n {:trigger StepAt(run, envs, n)} :: 0 <= n < |envs| ==> StepAt(run, envs, n)
  }

  ghost predicate Succeeds(run: seq<State>, envs: seq<Env>, n: nat)
    requires n < |run| && n < |envs|
  {
    Refresh(run[n], envs[n]).1
  }

  lemma StartIsTrue(run: seq<State>, envs: seq<Env>)
    requires IsRun(run, envs)
    ensures Inv(run[0])
  {
    var guard, wake, helper, probed, recovered :| run[0] == Activate(guard, wake, helper, probed, recovered);
    ActivateEstablishes(guard, wake, helper, probed, recovered);
  }

  /** In every run of refreshes that succeed; and under the current fence the privileged family is authorized exactly while a helper is held. */
  lemma {:induction false} RunIsTrue(run: seq<State>, envs: seq<Env>, n: nat)
    requires IsRun(run, envs) && n <= |envs|
    requires forall i :: 0 <= i < n ==> Succeeds(run, envs, i)
    ensures Inv(run[n])
    ensures Authorize(run[n].executor, run[n].executor.source, true).None? <==> run[n].helper.Some?
  {
    if n == 0 {
      StartIsTrue(run, envs);
    } else {
      RunIsTrue(run, envs, n - 1);
      assert StepAt(run, envs, n - 1) && Succeeds(run, envs, n - 1);
      RefreshKeepsInv(run[n - 1], envs[n - 1]);
    }
  }

  /** Every key is as it was or was registered again at a strictly larger generation. */
  ghost predicate Newer(before: map<Key, Fact>, after: map<Key, Fact>) {
    forall k :: k in before ==> k in after && (after[k] == before[k] || after[k].generation > before[k].generation)
  }

  /** What any part of a refresh, succeeding or not, can only move one way. */
  ghost predicate Onward(s: State, t: State) {
    && (t.guardReady ==> s.guardReady) && (GuardsNeedModule(s) ==> GuardsNeedModule(t))
    && s.capability <= t.capability && s.helperGeneration <= t.helperGeneration
    && Newer(s.registry, t.registry)
    && (s.condition.Some? ==> t.condition.Some?)
  }

  lemma OnwardThrough(s: State, t: State, u: State)
    requires Onward(s, t) && Onward(t, u)
    ensures Onward(s, u)
  {
  }

  lemma MergeIsNewer(registry: map<Key, Fact>, batch: map<Key, Status>, generation: nat)
    ensures Newer(registry, Merge(registry, batch, generation))
  {
  }

  lemma OnwardByRegistry(s: State, t: State)
    requires t == s.(capability := t.capability, registry := t.registry, lost := t.lost, executor := t.executor)
    requires s.capability <= t.capability && Newer(s.registry, t.registry)
    ensures Onward(s, t)
  {
  }

  /** Publishing changes the generation, the registrations and the executor only, and these follow from the batch. */
  lemma PublishShape(s: State, batch: map<Key, Status>, e: Env)
    ensures var (t, ok) := Publish(s, batch, e);
            && t == s.(capability := t.capability, registry := t.registry, lost := t.lost) && s.capability <= t.capability
            && (t.registry == s.registry || t.registry == Merge(s.registry, batch, s.capability + 1))
            && (ok ==> t.capability == s.capability + 1)
  {
  }

  lemma PublishAndRefreshShape(s: State, batch: map<Key, Status>, e: Env)
    ensures var (t, ok) := PublishAndRefresh(s, batch, e);
            && t == s.(capability := t.capability, registry := t.registry, lost := t.lost, executor := t.executor) && s.capability <= t.capability
            && (t.registry == s.registry || t.registry == Merge(s.registry, batch, s.capability + 1))
            && (ok ==> t.executor.source == t.capability == s.capability + 1)
  {
    PublishShape(s, batch, e);
  }

  lemma PublishGoesOnward(s: State, t: State, batch: map<Key, Status>, e: Env)
    requires Onward(s, t)
    ensures Onward(s, Publish(t, batch, e).0)
    ensures Onward(s, PublishAndRefresh(t, batch, e).0)
  {
    var p, u := Publish(t, batch, e).0, PublishAndRefresh(t, batch, e).0;
    PublishShape(t, batch, e);
    PublishAndRefreshShape(t, batch, e);
    MergeIsNewer(t.registry, batch, t.capability + 1);
    assert Newer(t.registry, t.registry);
    OnwardByRegistry(t, p);
    OnwardByRegistry(t, u);
    OnwardThrough(s, t, p);
    OnwardThrough(s, t, u);
  }

  lemma AlarmGoesOnward(s: State, e: Env)
    ensures Onward(s, AlarmPart(s, e).0)
  {
    PublishGoesOnward(s, s.(wakeReady := false), map[WakeAlarm := Some(WakeAlarmUnavailable)], e);
  }

  lemma QuarantineGoesOnward(s: State, e: Env)
    ensures Onward(s, QuarantinePart(s, e).0)
  {
    var closed := s.(guardReady := false, condition := if e.watchActive then s.condition else Some(CleanupUnverified));
    PublishGoesOnward(s, closed, RootBatch(false, CleanupUnverified), e);
  }

  lemma ModuleGoesOnward(s: State, e: Env)
    ensures Onward(s, ModulePart(s, e).0)
  {
    if s.moduleReady != e.moduleObserved {
      var seen :=
        if e.moduleObserved then s.(moduleReady := true)
        else s.(moduleReady := false, guardReady := false, condition := Some(ModuleUnavailable));
      PublishGoesOnward(s, seen, ModuleBatch(e.moduleObserved, seen.guardReady), e);
    }
  }

  lemma HelperGoesOnward(s: State, e: Env)
    ensures Onward(s, HelperPart(s, e).0)
  {
    if s.helper.Some? && e.alive {
      var probes := Reprobe(s.probes, e);
      PublishGoesOnward(s, s.(probes := probes), HelperBatch(true, probes), e);
    } else if s.helper.Some? {
      PublishGoesOnward(s, s.(helper := None, port := false, executor := s.executor.(helper := None)), HelperBatch(false, s.probes), e);
    } else {
      var generation := s.helperGeneration + 1;
      var started := s.(helperGeneration := generation, helper := Some(generation), port := true, probes := e.probed);
      PublishGoesOnward(s, started, HelperBatch(true, e.probed), e);
    }
  }

  /** Guards once lost stay lost, and whatever is registered again is registered at a strictly larger generation. */
  lemma RefreshGoesOnward(s: State, e: Env)
    ensures Onward(s, Refresh(s, e).0)
  {
    var a, q := AlarmPart(s, e).0, QuarantinePart(AlarmPart(s, e).0, e).0;
    var m := ModulePart(q, e).0;
    AlarmGoesOnward(s, e);
    QuarantineGoesOnward(a, e);
    ModuleGoesOnward(q, e);
    HelperGoesOnward(m, e);
    OnwardThrough(s, a, q);
    OnwardThrough(s, q, m);
    OnwardThrough(s, m, HelperPart(m, e).0);
  }

  lemma {:induction false} RunGoesOnward(run: seq<State>, envs: seq<Env>, m: nat, n: nat)
    requires IsRun(run, envs) && m <= n <= |envs|
    ensures Onward(run[m], run[n])
  {
    if m < n {
      RunGoesOnward(run, envs, m, n - 1);
      assert StepAt(run, envs, n - 1);
      RefreshGoesOnward(run[n - 1], envs[n - 1]);
      OnwardThrough(run[m], run[n - 1], run[n]);
    }
  }

  // ---- every refresh, succeeding or not ----

  predicate Withdrawn(s: State) {
    Root in s.registry && RootGuard in s.registry && s.registry[Root].status.Some? && s.registry[RootGuard].status.Some?
  }

  /** No registration was dropped, and root is withdrawn with its guard, and only when the guards are closed. */
  ghost predicate Sound(s: State) {
    && Dated(s) && !s.lost && GuardsNeedModule(s)
    && (s.registry[Root].status.Some? <==> s.registry[RootGuard].status.Some?)
    && (Withdrawn(s) ==> !s.guardReady)
  }

  /** Publishing either registers the whole batch or leaves the registrations alone, and it never drops one. */
  lemma PublishKeepsDated(s: State, batch: map<Key, Status>, e: Env)
    requires Dated(s) && !s.lost
    ensures var (t, ok) := Publish(s, batch, e);
            && Dated(t) && t == s.(capability := t.capability, registry := t.registry) && (ok <==> CanPublish(s.capability, e))
            && forall k: Key :: t.registry[k] == if ok && k in batch then Fact(batch[k], t.capability) else s.registry[k]
  {
    if CanPublish(s.capability, e) {
      PublishTakes(s, batch, e);
    }
  }

  /** A generation is left, and the registry can be written. */
  predicate CanPublish(generation: nat, e: Env) {
    generation != U64_MAX && e.registryLock
  }

  lemma RootSound(s: State, t: State, batch: map<Key, Status>, e: Env)
    requires Sound(s) && Dated(t) && !t.lost && GuardsNeedModule(t) && t.registry == s.registry && (t.guardReady ==> s.guardReady)
    requires Root in batch <==> RootGuard in batch
    requires Root in batch ==> batch[Root] == batch[RootGuard] && (batch[Root].Some? <==> !t.guardReady)
    ensures var (u, ok) := PublishAndRefresh(t, batch, e);
            && Sound(u) && u.guardReady == t.guardReady && u.moduleReady == t.moduleReady && (ok <==> CanPublish(t.capability, e))
            && (Withdrawn(u) <==> if CanPublish(t.capability, e) && Root in batch then !t.guardReady else Withdrawn(s))
    ensures Sound(Publish(t, batch, e).0) && (Root !in batch ==> (Withdrawn(Publish(t, batch, e).0) <==> Withdrawn(s)))
  {
    PublishKeepsDated(t, batch, e);
  }

  lemma AlarmIsSound(s: State, e: Env)
    requires Sound(s)
    ensures var (t, ok) := AlarmPart(s, e);
            && Sound(t) && (Withdrawn(t) <==> Withdrawn(s)) && t.guardReady == s.guardReady && t.moduleReady == s.moduleReady
            && (ok <==> (AlarmFires(s, e) ==> CanPublish(s.capability, e)))
            && (ok ==> t.capability == AlarmGeneration(s, e))
  {
    var quiet, batch := s.(wakeReady := false), map[WakeAlarm := Some(WakeAlarmUnavailable)];
    RootSound(s, quiet, batch, e);
    PublishKeepsDated(quiet, batch, e);
  }

  lemma QuarantineIsSound(s: State, e: Env)
    requires Sound(s)
    ensures var (t, ok) := QuarantinePart(s, e);
            && Sound(t) && (Withdrawn(t) <==> Withdrawn(s) || (s.guardReady && e.flagged && ok))
            && t.guardReady == (s.guardReady && !e.flagged) && t.moduleReady == s.moduleReady
            && (ok <==> (s.guardReady && e.flagged ==> (e.watchActive || e.conditionLock) && CanPublish(s.capability, e)))
            && (ok && !(s.guardReady && e.flagged) ==> t == s)
  {
    var closed := s.(guardReady := false, condition := if e.watchActive then s.condition else Some(CleanupUnverified));
    RootSound(s, closed, RootBatch(false, CleanupUnverified), e);
  }

  lemma ModuleIsSound(s: State, e: Env)
    requires Sound(s)
    ensures var (t, ok) := ModulePart(s, e);
            && Sound(t)
            && (Withdrawn(t) <==> Withdrawn(s) || (s.moduleReady != e.moduleObserved && ok))
            && t.guardReady == (s.guardReady && (s.moduleReady == e.moduleObserved || e.moduleObserved))
            && t.moduleReady == e.moduleObserved
            && (ok <==> (s.moduleReady != e.moduleObserved ==> (e.moduleObserved || e.conditionLock) && CanPublish(s.capability, e)))
  {
    if s.moduleReady != e.moduleObserved {
      var seen :=
        if e.moduleObserved then s.(moduleReady := true)
        else s.(moduleReady := false, guardReady := false, condition := Some(ModuleUnavailable));
      var batch := ModuleBatch(e.moduleObserved, seen.guardReady);
      assert batch[Root] == batch[RootGuard] && (batch[Root].Some? <==> !seen.guardReady);
      RootSound(s, seen, batch, e);
    }
  }

  lemma HelperIsSound(s: State, e: Env)
    requires Sound(s)
    ensures var t := HelperPart(s, e).0;
            Sound(t) && (Withdrawn(t) <==> Withdrawn(s)) && t.guardReady == s.guardReady && t.moduleReady == s.moduleReady
  {
    if s.helper.Some? && e.alive {
      RootSound(s, s.(probes := Reprobe(s.probes, e)), HelperBatch(true, Reprobe(s.probes, e)), e);
    } else if s.helper.Some? {
      RootSound(s, s.(helper := None, port := false, executor := s.executor.(helper := None)), HelperBatch(false, s.probes), e);
    } else {
      var generation := s.helperGeneration + 1;
      var started := s.(helperGeneration := generation, helper := Some(generation), port := true, probes := e.probed);
      RootSound(s, started, HelperBatch(true, e.probed), e);
    }
  }

  predicate AlarmFires(s: State, e: Env) {
    e.schedulerFaulted && s.wakeReady
  }

  /** The generation once the alarm was dealt with. */
  function AlarmGeneration(s: State, e: Env): nat {
    if AlarmFires(s, e) then s.capability + 1 else s.capability
  }

  /** The refresh gets past the alarm. */
  predicate AlarmPasses(s: State, e: Env) {
    AlarmFires(s, e) ==> CanPublish(s.capability, e)
  }

  /** The refresh withdraws root: it gets as far as registering closed guards, or a change of the module. */
  predicate Withdraws(s: State, e: Env) {
    && AlarmPasses(s, e) && CanPublish(AlarmGeneration(s, e), e)
    && if s.guardReady && e.flagged then e.watchActive || e.conditionLock
       else s.moduleReady != e.moduleObserved && (e.moduleObserved || e.conditionLock)
  }

  /** No refresh drops a registration, and root is withdrawn afterwards exactly if it was or this refresh withdraws it. */
  lemma RefreshIsSound(s: State, e: Env)
    requires Sound(s)
    ensures Sound(Refresh(s, e).0)
    ensures Withdrawn(Refresh(s, e).0) <==> Withdrawn(s) || Withdraws(s, e)
    ensures Refresh(s, e).0.guardReady <==> s.guardReady && !(AlarmPasses(s, e) && (e.flagged || !e.moduleObserved))
  {
    AlarmIsSound(s, e);
    var a, q := AlarmPart(s, e).0, QuarantinePart(AlarmPart(s, e).0, e).0;
    QuarantineIsSound(a, e);
    ModuleIsSound(q, e);
    HelperIsSound(ModulePart(q, e).0, e);
  }

  lemma {:induction false} RunIsSound(run: seq<State>, envs: seq<Env>, n: nat)
    requires IsRun(run, envs) && n <= |envs|
    ensures Sound(run[n])
  {
    if n == 0 {
      StartIsTrue(run, envs);
      SoundWhenTrue(run[0]);
    } else {
      RunIsSound(run, envs, n - 1);
      assert StepAt(run, envs, n - 1);
      RefreshIsSound(run[n - 1], envs[n - 1]);
    }
  }

  /** Root, once withdrawn, is never available again, whatever fails and even when the module returns. */
  lemma {:induction false} RootNeverReturns(run: seq<State>, envs: seq<Env>, m: nat, n: nat)
    requires IsRun(run, envs) && m <= n <= |envs|
    requires Shows(run[m], Root, false)
    ensures Shows(run[n], Root, false) && Shows(run[n], RootGuard, false)
  {
    RunIsSound(run, envs, m);
    if m < n {
      RootNeverReturns(run, envs, m, n - 1);
      RunIsSound(run, envs, n - 1);
      assert StepAt(run, envs, n - 1);
      RefreshIsSound(run[n - 1], envs[n - 1]);
    }
  }

  // ---- a refresh that fails ----

  /**
   Closing the guards does not reach the registry: a generation or a lock is missing on the way, past the
   alarm and before the registration.
   */
  predicate RootStuck(s: State, e: Env) {
    && s.guardReady && AlarmPasses(s, e)
    && if e.flagged then (!e.watchActive && !e.conditionLock) || !CanPublish(AlarmGeneration(s, e), e)
       else !e.moduleObserved && (!e.conditionLock || !CanPublish(AlarmGeneration(s, e), e))
  }

  /** After a refresh, succeeding or not, root is registered as it is, except exactly when the closing got stuck. */
  lemma RootFollowsTheGuards(s: State, e: Env)
    requires Inv(s)
    ensures var t := Refresh(s, e).0;
            && (Shows(t, Root, t.guardReady && t.moduleReady) <==> !RootStuck(s, e))
            && (RootStuck(s, e) ==> !t.guardReady && Shows(t, Root, true) && Shows(t, RootGuard, true))
  {
    SoundWhenTrue(s);
    RefreshIsSound(s, e);
    RootOfSound(Refresh(s, e).0);
  }

  lemma SoundWhenTrue(s: State)
    requires Inv(s)
    ensures Sound(s) && (Withdrawn(s) <==> !s.guardReady)
  {
  }

  lemma RootOfSound(s: State)
    requires Sound(s)
    ensures Shows(s, Root, !Withdrawn(s)) && Shows(s, RootGuard, !Withdrawn(s)) && (s.guardReady ==> s.moduleReady)
  {
  }

  lemma OthersAreUntouched(s: State, batch: map<Key, Status>, e: Env, key: Key)
    requires key in s.registry && key !in batch
    ensures var t := Publish(s, batch, e).0; key in t.registry && t.registry[key] == s.registry[key]
    ensures var t := PublishAndRefresh(s, batch, e).0; key in t.registry && t.registry[key] == s.registry[key]
  {
    PublishShape(s, batch, e);
    PublishAndRefreshShape(s, batch, e);
  }

  lemma AlarmTouchesOnlyItself(s: State, e: Env, key: Key)
    requires key in s.registry && key != WakeAlarm
    ensures var t := AlarmPart(s, e).0;
            key in t.registry && t.registry[key] == s.registry[key] && t.executor == s.executor && t.capability >= s.capability
  {
    OthersAreUntouched(s.(wakeReady := false), map[WakeAlarm := Some(WakeAlarmUnavailable)], e, key);
    PublishShape(s.(wakeReady := false), map[WakeAlarm := Some(WakeAlarmUnavailable)], e);
  }

  lemma HelperLeavesRoot(s: State, e: Env)
    requires Root in s.registry
    ensures var t := HelperPart(s, e).0; Root in t.registry && t.registry[Root] == s.registry[Root]
  {
    if s.helper.Some? && e.alive {
      OthersAreUntouched(s.(probes := Reprobe(s.probes, e)), HelperBatch(true, Reprobe(s.probes, e)), e, Root);
    } else if s.helper.Some? {
      OthersAreUntouched(s.(helper := None, port := false, executor := s.executor.(helper := None)), HelperBatch(false, s.probes), e, Root);
    } else {
      var generation := s.helperGeneration + 1;
      var started := s.(helperGeneration := generation, helper := Some(generation), port := true, probes := e.probed);
      OthersAreUntouched(started, HelperBatch(true, e.probed), e, Root);
    }
  }

  /** Without guards, only a change of the module touches root again, so nothing makes up for it. */
  lemma RootIsNotRevisited(s: State, e: Env)
    requires !s.guardReady && s.moduleReady == e.moduleObserved && Root in s.registry
    ensures var t := Refresh(s, e).0; Root in t.registry && t.registry[Root] == s.registry[Root]
  {
    AlarmTouchesOnlyItself(s, e, Root);
    var a := AlarmPart(s, e).0;
    assert QuarantinePart(a, e) == (a, true) && ModulePart(a, e) == (a, true) by {
      PublishShape(s.(wakeReady := false), map[WakeAlarm := Some(WakeAlarmUnavailable)], e);
    }
    HelperLeavesRoot(a, e);
  }

  // ---- the executor's fence ----

  /** Something other than the alarm is published, and the executor's fence with it. */
  predicate Republishes(s: State, e: Env) {
    || (s.guardReady && e.flagged)
    || s.moduleReady != e.moduleObserved
    || (s.helper.Some? && (e.alive ==> Reprobe(s.probes, e) != s.probes))
    || (s.helper.None? && s.guardReady && !e.flagged && e.moduleObserved && e.booted && e.starts)
  }

  /** The fence is renewed by a part, or neither it nor the generation changes. */
  ghost predicate Renews(s: State, t: State, renewed: bool) {
    && s.capability <= t.capability
    && if renewed then t.executor.source == t.capability
       else t.executor.source == s.executor.source && t.capability == s.capability
  }

  lemma RootPartsRenew(s: State, e: Env)
    ensures QuarantinePart(s, e).1 ==> Renews(s, QuarantinePart(s, e).0, s.guardReady && e.flagged)
    ensures ModulePart(s, e).1 ==> Renews(s, ModulePart(s, e).0, s.moduleReady != e.moduleObserved)
  {
    var closed := s.(guardReady := false, condition := if e.watchActive then s.condition else Some(CleanupUnverified));
    PublishAndRefreshShape(closed, RootBatch(false, CleanupUnverified), e);
    var seen :=
      if e.moduleObserved then s.(moduleReady := true)
      else s.(moduleReady := false, guardReady := false, condition := Some(ModuleUnavailable));
    PublishAndRefreshShape(seen, ModuleBatch(e.moduleObserved, seen.guardReady), e);
  }

  lemma HelperPartRenews(s: State, e: Env)
    ensures HelperPart(s, e).1 ==>
              Renews(s, HelperPart(s, e).0,
                     if s.helper.Some? then e.alive ==> Reprobe(s.probes, e) != s.probes
                     else s.moduleReady && s.guardReady && e.booted && e.starts)
  {
    if s.helper.Some? && e.alive {
      PublishAndRefreshShape(s.(probes := Reprobe(s.probes, e)), HelperBatch(true, Reprobe(s.probes, e)), e);
    } else if s.helper.Some? {
      PublishAndRefreshShape(s.(helper := None, port := false, executor := s.executor.(helper := None)), HelperBatch(false, s.probes), e);
    } else {
      var generation := s.helperGeneration + 1;
      var started := s.(helperGeneration := generation, helper := Some(generation), port := true, probes := e.probed);
      PublishAndRefreshShape(started, HelperBatch(true, e.probed), e);
    }
  }

  lemma AlarmOnlyAdvances(s: State, e: Env)
    requires AlarmPart(s, e).1
    ensures var t := AlarmPart(s, e).0;
            && t.capability == AlarmGeneration(s, e) && t.executor == s.executor && t.helper == s.helper && t.probes == s.probes
            && t.guardReady == s.guardReady && t.moduleReady == s.moduleReady
  {
    PublishShape(s.(wakeReady := false), map[WakeAlarm := Some(WakeAlarmUnavailable)], e);
  }

  lemma RootPartsLeaveHelper(s: State, e: Env)
    ensures var t := QuarantinePart(s, e).0;
            t.helper == s.helper && t.probes == s.probes && t.guardReady == (s.guardReady && !e.flagged) && t.moduleReady == s.moduleReady
    ensures var t := ModulePart(s, e).0;
            && t.helper == s.helper && t.probes == s.probes && t.moduleReady == e.moduleObserved
            && t.guardReady == (s.guardReady && (s.moduleReady == e.moduleObserved || e.moduleObserved))
  {
    var closed := s.(guardReady := false, condition := if e.watchActive then s.condition else Some(CleanupUnverified));
    PublishAndRefreshShape(closed, RootBatch(false, CleanupUnverified), e);
    var seen :=
      if e.moduleObserved then s.(moduleReady := true)
      else s.(moduleReady := false, guardReady := false, condition := Some(ModuleUnavailable));
    PublishAndRefreshShape(seen, ModuleBatch(e.moduleObserved, seen.guardReady), e);
  }

  /**
   After a refresh that succeeds the executor's fence is the current generation exactly if something other
   than the alarm was published, or it was current and the alarm was not lost; otherwise it lags by one.
   */
  lemma FenceIsCurrent(s: State, e: Env)
    requires Inv(s) && Refresh(s, e).1
    ensures var t := Refresh(s, e).0;
            && (t.executor.source == t.capability <==>
                 Republishes(s, e) || (s.executor.source == s.capability && !AlarmFires(s, e)))
            && (t.executor.source != t.capability ==> t.executor.source + 1 == t.capability)
  {
    RefreshKeepsInv(s, e);
    AlarmOnlyAdvances(s, e);
    var a, q := AlarmPart(s, e).0, QuarantinePart(AlarmPart(s, e).0, e).0;
    RootPartsRenew(a, e);
    RootPartsRenew(q, e);
    RootPartsLeaveHelper(a, e);
    RootPartsLeaveHelper(q, e);
    HelperPartRenews(ModulePart(q, e).0, e);
  }

  /** The lag happens: on a new host whose guards, module and helper are as they were, losing the alarm is enough. */
  lemma LosingTheAlarmLags(guardReady: bool, recovered: bool, probed: Probes, e: Env)
    requires e.schedulerFaulted && !e.flagged && e.moduleObserved && !e.booted && e.registryLock
    ensures var s := Activate(guardReady, true, false, probed, recovered);
            var (t, ok) := Refresh(s, e);
            ok && t.executor.source + 1 == t.capability && t.executor.source == s.executor.source
  {
    ActivateEstablishes(guardReady, true, false, probed, recovered);
    var s := Activate(guardReady, true, false, probed, recovered);
    AlarmKeeps(s, e);
    AlarmOnlyAdvances(s, e);
    var a := AlarmPart(s, e).0;
    assert Refresh(s, e) == (a, true);
  }

  /** Either nothing is known of the key that was not, under the fence that was, or the fence is newer than all there was. */
  ghost predicate Fences(s: State, t: State, key: Key) {
    && key in s.registry && key in t.registry && s.capability <= t.capability
    && (t.executor.source > s.capability || (t.executor.source == s.executor.source && t.registry[key] == s.registry[key]))
  }

  lemma PublishFences(s: State, t: State, batch: map<Key, Status>, e: Env, key: Key)
    requires key in s.registry && t.registry == s.registry && t.capability == s.capability
    ensures var (u, ok) := PublishAndRefresh(t, batch, e); ok ==> Fences(s, u, key)
  {
    PublishAndRefreshShape(t, batch, e);
  }

  lemma RootPartsFence(s: State, e: Env, key: Key)
    requires key in s.registry
    ensures QuarantinePart(s, e).1 ==> Fences(s, QuarantinePart(s, e).0, key)
    ensures ModulePart(s, e).1 ==> Fences(s, ModulePart(s, e).0, key)
  {
    var closed := s.(guardReady := false, condition := if e.watchActive then s.condition else Some(CleanupUnverified));
    PublishFences(s, closed, RootBatch(false, CleanupUnverified), e, key);
    var seen :=
      if e.moduleObserved then s.(moduleReady := true)
      else s.(moduleReady := false, guardReady := false, condition := Some(ModuleUnavailable));
    PublishFences(s, seen, ModuleBatch(e.moduleObserved, seen.guardReady), e, key);
  }

  lemma HelperPartFences(s: State, e: Env, key: Key)
    requires key in s.registry
    ensures HelperPart(s, e).1 ==> Fences(s, HelperPart(s, e).0, key)
  {
    if s.helper.Some? && e.alive {
      PublishFences(s, s.(probes := Reprobe(s.probes, e)), HelperBatch(true, Reprobe(s.probes, e)), e, key);
    } else if s.helper.Some? {
      PublishFences(s, s.(helper := None, port := false, executor := s.executor.(helper := None)), HelperBatch(false, s.probes), e, key);
    } else {
      var generation := s.helperGeneration + 1;
      var started := s.(helperGeneration := generation, helper := Some(generation), port := true, probes := e.probed);
      PublishFences(s, started, HelperBatch(true, e.probed), e, key);
    }
  }

  /** Any change of what is registered, but for the alarm, makes every operation admitted before it stale. */
  lemma ChangeMakesAuthorityStale(s: State, e: Env, key: Key, privileged: bool)
    requires Inv(s) && Refresh(s, e).1 && key != WakeAlarm
    ensures var t := Refresh(s, e).0;
            && key in s.registry && key in t.registry
            && (t.registry[key] != s.registry[key] ==> Authorize(t.executor, s.executor.source, privileged) == Some(StaleAuthority))
  {
    var a, q := AlarmPart(s, e).0, QuarantinePart(AlarmPart(s, e).0, e).0;
    var m := ModulePart(q, e).0;
    AlarmTouchesOnlyItself(s, e, key);
    RootPartsFence(a, e, key);
    RootPartsFence(q, e, key);
    HelperPartFences(m, e, key);
    FencesThrough(a, q, m, key);
    FencesThrough(a, m, HelperPart(m, e).0, key);
  }

  lemma FencesThrough(s: State, t: State, u: State, key: Key)
    requires Fences(s, t, key) && Fences(t, u, key)
    ensures Fences(s, u, key)
  {
  }

  /** A family's probe fact depends on no other family. */
  lemma SiblingsAreIndependent(a: Probes, b: Probes, e: Env, f: Env, family: Family)
    requires a.Of(family) == b.Of(family) && e.retry == f.retry
    requires e.denied.Of(family) == f.denied.Of(family) && e.probed.Of(family) == f.probed.Of(family)
    ensures Reprobe(a, e).Of(family) == Reprobe(b, f).Of(family)
  {
  }

  // ---- what a refresh leaves behind ----

  predicate Guarded(s: State, e: Env) {
    s.guardReady && !e.flagged && !(s.moduleReady && !e.moduleObserved)
  }

  lemma QuarantineObserves(s: State, e: Env)
    requires QuarantinePart(s, e).1
    ensures var t := QuarantinePart(s, e).0;
            && t.guardReady == (s.guardReady && !e.flagged) && t.moduleReady == s.moduleReady && t.wakeReady == s.wakeReady
            && t.helper == s.helper && t.helperGeneration == s.helperGeneration && t.probes == s.probes
  {
    var closed := s.(guardReady := false, condition := if e.watchActive then s.condition else Some(CleanupUnverified));
    PublishAndRefreshShape(closed, RootBatch(false, CleanupUnverified), e);
  }

  lemma ModuleObserves(s: State, e: Env)
    requires ModulePart(s, e).1
    ensures var t := ModulePart(s, e).0;
            && t.guardReady == (s.guardReady && !(s.moduleReady && !e.moduleObserved))
            && t.moduleReady == e.moduleObserved && t.wakeReady == s.wakeReady
            && t.helper == s.helper && t.helperGeneration == s.helperGeneration && t.probes == s.probes
  {
    var seen :=
      if e.moduleObserved then s.(moduleReady := true)
      else s.(moduleReady := false, guardReady := false, condition := Some(ModuleUnavailable));
    PublishAndRefreshShape(seen, ModuleBatch(e.moduleObserved, seen.guardReady), e);
  }

  lemma BeforeTheHelper(s: State, e: Env)
    requires Refresh(s, e).1
    ensures var m := ModulePart(QuarantinePart(AlarmPart(s, e).0, e).0, e).0;
            && Refresh(s, e) == HelperPart(m, e)
            && m.wakeReady == (s.wakeReady && !e.schedulerFaulted) && m.moduleReady == e.moduleObserved
            && m.guardReady == Guarded(s, e)
            && m.helper == s.helper && m.helperGeneration == s.helperGeneration && m.probes == s.probes
  {
    var a := AlarmPart(s, e).0;
    PublishShape(s.(wakeReady := false), map[WakeAlarm := Some(WakeAlarmUnavailable)], e);
    QuarantineObserves(a, e);
    ModuleObserves(QuarantinePart(a, e).0, e);
  }

  /** A refresh that succeeds sees the module, and keeps guards and alarms that were good and met no fault. */
  lemma RefreshObserves(s: State, e: Env)
    requires Refresh(s, e).1
    ensures var t := Refresh(s, e).0;
            && t.moduleReady == e.moduleObserved && t.guardReady == Guarded(s, e)
            && t.wakeReady == (s.wakeReady && !e.schedulerFaulted)
  {
    BeforeTheHelper(s, e);
    HelperPartKeeps(ModulePart(QuarantinePart(AlarmPart(s, e).0, e).0, e).0, e);
  }

  lemma LivingHelper(s: State, e: Env)
    requires s.helper.Some? && e.alive
    ensures var t := HelperPart(s, e).0;
            && t.moduleReady == s.moduleReady && t.guardReady == s.guardReady && t.wakeReady == s.wakeReady
            && t.helper == s.helper && t.probes == Reprobe(s.probes, e)
  {
    var probes := Reprobe(s.probes, e);
    PublishAndRefreshShape(s.(probes := probes), HelperBatch(true, probes), e);
  }

  lemma LostHelper(s: State, e: Env)
    requires s.helper.Some? && !e.alive
    ensures var t := HelperPart(s, e).0;
            && t.moduleReady == s.moduleReady && t.guardReady == s.guardReady && t.wakeReady == s.wakeReady
            && t.helper == None && t.probes == s.probes
  {
    PublishAndRefreshShape(s.(helper := None, port := false, executor := s.executor.(helper := None)), HelperBatch(false, s.probes), e);
  }

  lemma MissingHelper(s: State, e: Env)
    requires s.helper.None?
    ensures var (t, ok) := HelperPart(s, e);
            && t.moduleReady == s.moduleReady && t.guardReady == s.guardReady && t.wakeReady == s.wakeReady
            && (ok && s.moduleReady && s.guardReady && e.booted && e.starts ==>
                  t.helper == Some(s.helperGeneration + 1) && t.probes == e.probed)
            && (!(s.moduleReady && s.guardReady && e.booted && e.starts) ==> t.helper == None && t.probes == s.probes)
  {
    var generation := s.helperGeneration + 1;
    PublishAndRefreshShape(s.(helperGeneration := generation, helper := Some(generation), port := true, probes := e.probed),
                           HelperBatch(true, e.probed), e);
  }

  lemma HelperPartKeeps(s: State, e: Env)
    ensures var t := HelperPart(s, e).0;
            t.moduleReady == s.moduleReady && t.guardReady == s.guardReady && t.wakeReady == s.wakeReady
  {
    if s.helper.None? {
      MissingHelper(s, e);
    } else if e.alive {
      LivingHelper(s, e);
    } else {
      LostHelper(s, e);
    }
  }

  /** A helper that lives is kept; one that died is let go; and one is started exactly on a guarded, booted device with its module. */
  lemma HelperIsKeptOrStarted(s: State, e: Env)
    requires Refresh(s, e).1
    ensures var t := Refresh(s, e).0;
            if s.helper.Some? then t.helper == (if e.alive then s.helper else None)
            else if e.moduleObserved && Guarded(s, e) && e.booted && e.starts then t.helper == Some(s.helperGeneration + 1)
            else t.helper == None
  {
    var m := ModulePart(QuarantinePart(AlarmPart(s, e).0, e).0, e).0;
    BeforeTheHelper(s, e);
    if s.helper.None? {
      MissingHelper(m, e);
    } else if e.alive {
      LivingHelper(m, e);
    } else {
      LostHelper(m, e);
    }
  }

  /**
   While the helper lives, a family is probed again if it was denied, or if it had failed and it is time; what
   the probe finds is what is registered. Every other family stays as it was.
   */
  lemma FamiliesAreProbedAgain(s: State, e: Env, f: Family)
    requires Inv(s) && Refresh(s, e).1 && s.helper.Some? && e.alive
    ensures var t := Refresh(s, e).0;
            && ((e.denied.Of(f) || (e.retry && !s.probes.Of(f))) ==> t.probes.Of(f) == e.probed.Of(f))
            && (!e.denied.Of(f) && !(e.retry && !s.probes.Of(f)) ==> t.probes.Of(f) == s.probes.Of(f))
            && Shows(t, Of(f), t.probes.Of(f))
  {
    BeforeTheHelper(s, e);
    LivingHelper(ModulePart(QuarantinePart(AlarmPart(s, e).0, e).0, e).0, e);
    RefreshKeepsInv(s, e);
  }

  /** A new helper's families are what their first probes found. */
  lemma FirstProbesAreRegistered(s: State, e: Env, f: Family)
    requires Inv(s) && Refresh(s, e).1 && s.helper.None? && Refresh(s, e).0.helper.Some?
    ensures Refresh(s, e).0.probes == e.probed && Shows(Refresh(s, e).0, Of(f), e.probed.Of(f))
  {
    BeforeTheHelper(s, e);
    MissingHelper(ModulePart(QuarantinePart(AlarmPart(s, e).0, e).0, e).0, e);
    RefreshKeepsInv(s, e);
  }

  // ---- the reasons that are registered ----

  /** The reasons a key may be unavailable for. */
  predicate Fits(k: Key, status: Status) {
    status.Some? ==>
      match k
      case Module => status == Some(ModuleUnavailable)
      case Root | RootGuard => status == Some(CleanupUnverified) || status == Some(ModuleOrGuardUnavailable)
      case WakeAlarm => status == Some(WakeAlarmUnavailable)
      case Framework => status == Some(HelperUnavailable)
      case Of(f) => status == Some(HelperUnavailable) || status == Some(ProbeFailed(f))
  }

  ghost predicate AllFit(s: State) {
    forall k: Key :: k in s.registry ==> Fits(k, s.registry[k].status)
  }

  ghost predicate BatchFits(batch: map<Key, Status>) {
    forall k: Key :: k in batch ==> Fits(k, batch[k])
  }

  lemma PublishingFits(s: State, batch: map<Key, Status>, e: Env)
    requires AllFit(s) && BatchFits(batch)
    ensures AllFit(Publish(s, batch, e).0) && AllFit(PublishAndRefresh(s, batch, e).0)
  {
    PublishShape(s, batch, e);
    PublishAndRefreshShape(s, batch, e);
  }

  lemma AlarmFits(s: State, e: Env)
    requires AllFit(s)
    ensures AllFit(AlarmPart(s, e).0)
  {
    PublishingFits(s.(wakeReady := false), map[WakeAlarm := Some(WakeAlarmUnavailable)], e);
  }

  lemma QuarantineFits(s: State, e: Env)
    requires AllFit(s)
    ensures AllFit(QuarantinePart(s, e).0)
  {
    var closed := s.(guardReady := false, condition := if e.watchActive then s.condition else Some(CleanupUnverified));
    PublishingFits(closed, RootBatch(false, CleanupUnverified), e);
  }

  lemma ModuleFits(s: State, e: Env)
    requires AllFit(s)
    ensures AllFit(ModulePart(s, e).0)
  {
    var seen :=
      if e.moduleObserved then s.(moduleReady := true)
      else s.(moduleReady := false, guardReady := false, condition := Some(ModuleUnavailable));
    PublishingFits(seen, ModuleBatch(e.moduleObserved, seen.guardReady), e);
  }

  lemma HelperFits(s: State, e: Env)
    requires AllFit(s)
    ensures AllFit(HelperPart(s, e).0)
  {
    if s.helper.Some? && e.alive {
      var probes := Reprobe(s.probes, e);
      PublishingFits(s.(probes := probes), HelperBatch(true, probes), e);
    } else if s.helper.Some? {
      PublishingFits(s.(helper := None, port := false, executor := s.executor.(helper := None)), HelperBatch(false, s.probes), e);
    } else {
      var generation := s.helperGeneration + 1;
      PublishingFits(s.(helperGeneration := generation, helper := Some(generation), port := true, probes := e.probed),
                     HelperBatch(true, e.probed), e);
    }
  }

  /** From its first facts on, whatever fails, a host names the cause of every key it withdraws. */
  lemma ReasonsFit(s: State, e: Env)
    requires AllFit(s)
    ensures AllFit(Refresh(s, e).0)
  {
    AlarmFits(s, e);
    var a := AlarmPart(s, e).0;
    QuarantineFits(a, e);
    var q := QuarantinePart(a, e).0;
    ModuleFits(q, e);
    HelperFits(ModulePart(q, e).0, e);
  }

  lemma FirstReasonsFit(guardReady: bool, wakeReady: bool, helper: bool, probed: Probes, recovered: bool)
    ensures AllFit(Activate(guardReady, wakeReady, helper, probed, recovered))
  {
  }

  /** The condition shown names the newest cause: a lost module, or guards that this refresh was the first to close. */
  lemma ConditionNamesTheCause(s: State, e: Env)
    requires Refresh(s, e).1
    ensures Refresh(s, e).0.condition ==
            if s.moduleReady && !e.moduleObserved then Some(ModuleUnavailable)
            else if s.guardReady && e.flagged && !e.watchActive then Some(CleanupUnverified)
            else s.condition
  {
    var a := AlarmPart(s, e).0;
    PublishShape(s.(wakeReady := false), map[WakeAlarm := Some(WakeAlarmUnavailable)], e);
    QuarantineCondition(a, e);
    var q := QuarantinePart(a, e).0;
    QuarantineObserves(a, e);
    ModuleCondition(q, e);
    HelperCondition(ModulePart(q, e).0, e);
  }

  lemma QuarantineCondition(s: State, e: Env)
    requires QuarantinePart(s, e).1
    ensures QuarantinePart(s, e).0.condition == if s.guardReady && e.flagged && !e.watchActive then Some(CleanupUnverified) else s.condition
  {
    var closed := s.(guardReady := false, condition := if e.watchActive then s.condition else Some(CleanupUnverified));
    PublishAndRefreshShape(closed, RootBatch(false, CleanupUnverified), e);
  }

  lemma ModuleCondition(s: State, e: Env)
    requires ModulePart(s, e).1
    ensures ModulePart(s, e).0.condition == if s.moduleReady && !e.moduleObserved then Some(ModuleUnavailable) else s.condition
  {
    var seen :=
      if e.moduleObserved then s.(moduleReady := true)
      else s.(moduleReady := false, guardReady := false, condition := Some(ModuleUnavailable));
    PublishAndRefreshShape(seen, ModuleBatch(e.moduleObserved, seen.guardReady), e);
  }

  lemma HelperCondition(s: State, e: Env)
    ensures HelperPart(s, e).0.condition == s.condition
  {
    if s.helper.Some? && e.alive {
      var probes := Reprobe(s.probes, e);
      PublishAndRefreshShape(s.(probes := probes), HelperBatch(true, probes), e);
    } else if s.helper.Some? {
      PublishAndRefreshShape(s.(helper := None, port := false, executor := s.executor.(helper := None)), HelperBatch(false, s.probes), e);
    } else {
      var generation := s.helperGeneration + 1;
      PublishAndRefreshShape(s.(helperGeneration := generation, helper := Some(generation), port := true, probes := e.probed),
                             HelperBatch(true, e.probed), e);
    }
  }
}
