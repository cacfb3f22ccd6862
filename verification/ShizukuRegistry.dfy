/**
 The registry of guards started through Shizuku. A guard is awaited in two steps, since the registry is
 not locked while its child runs: a waiter takes the child, and later reports how it ended.
 */
module ShizukuRegistry {
  import opened Wrappers

  const MAX_SHIZUKU_GUARD_HANDLES: nat := 64
  const I64_MAX: nat := 0x7FFF_FFFF_FFFF_FFFF

  type Owner = (string, string)

  /** `serial` tells one allocation from another; `child` and `writer` are what is still there to take. */
  datatype Guard = Guard(owner: Owner, pid: nat, serial: nat, child: bool, writer: bool)

  /** `held` are the guards whose child a waiter has taken and not yet reported on. */
  datatype State = State(nextHandle: nat, entries: map<nat, Guard>, owners: map<Owner, nat>, spawned: nat, held: map<nat, nat>)

  datatype RegistryError = InvalidLaunch | Rejected | HandlesExhausted | SpawnFailed | Stale | AlreadyAwaited | WaitFailed

  datatype ExitStatus = Exited(code: int) | Killed(signal: nat) | Unknown

  function ExitCode(status: ExitStatus): int {
    match status
    case Exited(code) => code
    case Killed(signal) => 128 + signal
    case Unknown => 255
  }

  const Fresh := State(1, map[], map[], 0, map[])

  // ---- steps ----

  function StartStep(s: State, owner: Owner, arguments: bool, launcher: bool, spawned: Option<nat>): (State, Result<nat, RegistryError>) {
    if !arguments then (s, Err(InvalidLaunch))
    else if !launcher || |s.entries| >= MAX_SHIZUKU_GUARD_HANDLES || owner in s.owners then (s, Err(Rejected))
    else if s.nextHandle + 1 > I64_MAX then (s, Err(HandlesExhausted))
    else if spawned.None? then (s, Err(SpawnFailed))
    else
      (s.(nextHandle := s.nextHandle + 1,
          entries := s.entries[s.nextHandle := Guard(owner, spawned.value, s.spawned, true, true)],
          owners := s.owners[owner := s.nextHandle],
          spawned := s.spawned + 1),
       Ok(s.nextHandle))
  }

  predicate Owns(s: State, owner: Owner, handle: nat) {
    handle in s.entries && s.entries[handle].owner == owner
  }

  /** The first half of a wait. */
  function TakeStep(s: State, owner: Owner, handle: nat): (State, Result<nat, RegistryError>) {
    if !Owns(s, owner, handle) then (s, Err(Stale))
    else if !s.entries[handle].child then (s, Err(AlreadyAwaited))
    else
      (s.(entries := s.entries[handle := s.entries[handle].(child := false)],
          held := s.held[handle := s.entries[handle].serial]),
       Ok(s.entries[handle].serial))
  }

  /** The second half, for a waiter that holds the child: the child's status, or none when waiting failed. */
  function ReportStep(s: State, handle: nat, status: Option<ExitStatus>): (State, Result<int, RegistryError>)
    requires handle in s.held
  {
    var left := s.(held := s.held - {handle});
    if status.None? then (left, Err(WaitFailed))
    else if handle in s.entries && s.entries[handle].serial == s.held[handle] then
      (left.(entries := s.entries - {handle}, owners := s.owners - {s.entries[handle].owner}), Ok(ExitCode(status.value)))
    else (left, Ok(ExitCode(status.value)))
  }

  /** Closing and signalling both take the lifetime writer. */
  function TakeWriter(s: State, owner: Owner, handle: nat): (State, bool) {
    if Owns(s, owner, handle) then
      (s.(entries := s.entries[handle := s.entries[handle].(writer := false)]), s.entries[handle].writer)
    else (s, false)
  }

  function CloseClientStep(s: State, client: string): State {
    s.(entries := map h | h in s.entries ::
         if s.entries[h].owner.0 == client then s.entries[h].(writer := false) else s.entries[h])
  }

  class Registry {
    var nextHandle: nat
    var entries: map<nat, Guard>
    var owners: map<Owner, nat>
    var spawned: nat
    var held: map<nat, nat>

    ghost function Now(): State
      reads this
    {
      State(nextHandle, entries, owners, spawned, held)
    }

    constructor ()
      ensures Now() == Fresh
    {
      nextHandle, entries, owners := 1, map[], map[];
      spawned, held := 0, map[];
    }

    method Start(owner: Owner, arguments: bool, launcher: bool, pid: Option<nat>) returns (handle: Result<nat, RegistryError>)
      modifies this
      ensures (Now(), handle) == StartStep(old(Now()), owner, arguments, launcher, pid)
    {
      if !arguments {
        return Err(InvalidLaunch);
      }
      if !(launcher && |entries| < MAX_SHIZUKU_GUARD_HANDLES) || owner in owners {
        return Err(Rejected);
      }
      var taken := nextHandle;
      var next := taken + 1;
      if next > I64_MAX {
        return Err(HandlesExhausted);
      }
      if pid.None? {
        return Err(SpawnFailed);
      }
      nextHandle := next;
      var entry := Guard(owner, pid.value, spawned, true, true);
      spawned := spawned + 1;
      owners := owners[owner := taken];
      entries := entries[taken := entry];
      return Ok(taken);
    }

    /** The entry of a handle, for its owner only. */
    method Entry(owner: Owner, handle: nat) returns (entry: Option<Guard>)
      ensures entry.Some? <==> Owns(Now(), owner, handle)
      ensures entry.Some? ==> entry.value == entries[handle]
    {
      if handle !in entries {
        return None;
      }
      return if entries[handle].owner == owner then Some(entries[handle]) else None;
    }

    method Take(owner: Owner, handle: nat) returns (serial: Result<nat, RegistryError>)
      modifies this
      ensures (Now(), serial) == TakeStep(old(Now()), owner, handle)
    {
      var entry := Entry(owner, handle);
      if entry.None? {
        return Err(Stale);
      }
      if !entry.value.child {
        return Err(AlreadyAwaited);
      }
      entries := entries[handle := entry.value.(child := false)];
      held := held[handle := entry.value.serial];
      return Ok(entry.value.serial);
    }

    method Report(handle: nat, status: Option<ExitStatus>) returns (code: Result<int, RegistryError>)
      requires handle in held
      modifies this
      ensures (Now(), code) == ReportStep(old(Now()), handle, status)
    {
      var serial := held[handle];
      held := held - {handle};
      if status.None? {
        return Err(WaitFailed);
      }
      if handle in entries {
        var current := entries[handle];
        if current.serial == serial {
          entries := entries - {handle};
          owners := owners - {current.owner};
        }
      }
      return Ok(ExitCode(status.value));
    }

    method Signal(owner: Owner, handle: nat, killed: bool) returns (signalled: bool)
      modifies this
      ensures Now() == TakeWriter(old(Now()), owner, handle).0
      ensures signalled == (killed && Owns(old(Now()), owner, handle))
    {
      var entry := Entry(owner, handle);
      if entry.None? {
        return false;
      }
      entries := entries[handle := entry.value.(writer := false)];
      return killed;
    }

    method CloseLifetime(owner: Owner, handle: nat) returns (closed: bool)
      modifies this
      ensures (Now(), closed) == TakeWriter(old(Now()), owner, handle)
    {
      var entry := Entry(owner, handle);
      if entry.None? {
        return false;
      }
      entries := entries[handle := entry.value.(writer := false)];
      return entry.value.writer;
    }

    method CloseClient(client: string)
      modifies this
      ensures Now() == CloseClientStep(old(Now()), client)
    {
      ghost var before := entries;
      var left := entries.Keys;
      while left != {}
        invariant left <= before.Keys && entries.Keys == before.Keys
        invariant Now() == old(Now()).(entries := entries)
        invariant forall h :: h in before ==>
            entries[h] == if h !in left && before[h].owner.0 == client then before[h].(writer := false) else before[h]
        decreases left
      {
        var handle :| handle in left;
        left := left - {handle};
        if entries[handle].owner.0 == client {
          entries := entries[handle := entries[handle].(writer := false)];
        }
      }
    }
  }

  // ---- runs ----

  /**
   What callers and waiters do; signalling a guard and closing a client take lifetime writers one at a time,
   as `Closing` does. A report by no waiter is no step.
   */
  datatype Op =
    | Starting(owner: Owner, arguments: bool, launcher: bool, pid: Option<nat>)
    | Taking(owner: Owner, handle: nat)
    | Reporting(handle: nat, status: Option<ExitStatus>)
    | Closing(owner: Owner, handle: nat)

  function Step(s: State, op: Op): State {
    match op
    case Starting(owner, arguments, launcher, pid) => StartStep(s, owner, arguments, launcher, pid).0
    case Taking(owner, handle) => TakeStep(s, owner, handle).0
    case Reporting(handle, status) => if handle in s.held then ReportStep(s, handle, status).0 else s
    case Closing(owner, handle) => TakeWriter(s, owner, handle).0
  }

  /** The handle a step gave out. */
  function Started(s: State, op: Op): Option<nat> {
    if op.Starting? then
      match StartStep(s, op.owner, op.arguments, op.launcher, op.pid).1 case Ok(h) => Some(h) case Err(_) => None
    else None
  }

  predicate TookChild(s: State, op: Op) {
    op.Taking? && TakeStep(s, op.owner, op.handle).1.Ok?
  }

  predicate TookWriter(s: State, op: Op) {
    op.Closing? && TakeWriter(s, op.owner, op.handle).1
  }

  predicate Ended(s: State, op: Op) {
    op.Reporting? && op.handle in s.held && op.status.Some?
  }

  ghost predicate StepAt(run: seq<State>, ops: seq<Op>, n: nat)
    requires n + 1 < |run| && n < |ops|
  {
    run[n + 1] == Step(run[n], ops[n])
  }

  /** The states a new registry goes through under some operations. */
  ghost predicate IsRun(run: seq<State>, ops: seq<Op>) {
    && |run| == |ops| + 1 && run[0] == Fresh
    && forall n {:trigger StepAt(run, ops, n)} :: 0 <= n < |ops| ==> StepAt(run, ops, n)
  }

  /** `owners` and `entries` are inverse to each other. */
  ghost predicate Inverse(s: State) {
    && (forall h :: h in s.entries ==> s.entries[h].owner in s.owners && s.owners[s.entries[h].owner] == h)
    && (forall o :: o in s.owners ==> s.owners[o] in s.entries && s.entries[s.owners[o]].owner == o)
  }

  ghost predicate Bounded(s: State) {
    && |s.entries| <= MAX_SHIZUKU_GUARD_HANDLES
    && 1 <= s.nextHandle <= I64_MAX
    && forall h :: h in s.entries ==> 1 <= h < s.nextHandle && s.entries[h].serial < s.spawned
  }

  /** A waiter holds the child of the very guard that is registered. */
  ghost predicate HeldAreLive(s: State) {
    forall h :: h in s.held ==> h in s.entries && !s.entries[h].child && s.entries[h].serial == s.held[h]
  }

  ghost predicate Inv(s: State) {
    Inverse(s) && Bounded(s) && HeldAreLive(s)
  }

  lemma SmallerWithout(entries: map<nat, Guard>, handle: nat)
    requires handle in entries
    ensures |entries - {handle}| == |entries| - 1
  {
    assert (entries - {handle}).Keys == entries.Keys - {handle};
    assert |entries.Keys - {handle}| == |entries.Keys| - 1;
  }

  lemma SameSize(a: map<nat, Guard>, b: map<nat, Guard>)
    requires a.Keys == b.Keys
    ensures |a| == |b|
  {
    assert |a.Keys| == |a| && |b.Keys| == |b|;
  }

  lemma StartKeepsInv(s: State, owner: Owner, arguments: bool, launcher: bool, pid: Option<nat>)
    requires Inv(s)
    ensures Inv(StartStep(s, owner, arguments, launcher, pid).0)
  {
    var t := StartStep(s, owner, arguments, launcher, pid).0;
    if t != s {
      assert s.nextHandle !in s.entries;
      assert Inverse(t);
    }
  }

  lemma ReportKeepsInv(s: State, handle: nat, status: Option<ExitStatus>)
    requires Inv(s) && handle in s.held
    ensures Inv(ReportStep(s, handle, status).0)
    ensures status.Some? ==>
              var t := ReportStep(s, handle, status).0;
              && t.entries == s.entries - {handle} && |t.entries| == |s.entries| - 1
              && t.owners == s.owners - {s.entries[handle].owner}
  {
    var t := ReportStep(s, handle, status).0;
    if status.Some? {
      SmallerWithout(s.entries, handle);
      assert Inverse(t);
    }
  }

  /** The guards are the ones there were; only what can be taken from them has shrunk. */
  ghost predicate OnlyTakes(s: State, t: State) {
    && t.entries.Keys == s.entries.Keys && t.owners == s.owners && t.nextHandle == s.nextHandle && t.spawned == s.spawned
    && forall h :: h in s.entries ==>
         && t.entries[h].owner == s.entries[h].owner && t.entries[h].serial == s.entries[h].serial
         && (t.entries[h].child ==> s.entries[h].child) && (t.entries[h].writer ==> s.entries[h].writer)
  }

  lemma TakesKeepInv(s: State, t: State)
    requires Inv(s) && OnlyTakes(s, t) && HeldAreLive(t)
    ensures Inv(t)
  {
    SameSize(s.entries, t.entries);
    assert Inverse(t);
  }

  lemma TakeKeepsInv(s: State, owner: Owner, handle: nat)
    requires Inv(s)
    ensures Inv(TakeStep(s, owner, handle).0)
  {
    TakesKeepInv(s, TakeStep(s, owner, handle).0);
  }

  lemma WriterKeepsInv(s: State, owner: Owner, handle: nat)
    requires Inv(s)
    ensures Inv(TakeWriter(s, owner, handle).0)
  {
    TakesKeepInv(s, TakeWriter(s, owner, handle).0);
  }

  lemma StepKeepsInv(s: State, op: Op)
    requires Inv(s)
    ensures Inv(Step(s, op))
  {
    match op {
      case Starting(owner, arguments, launcher, pid) => StartKeepsInv(s, owner, arguments, launcher, pid);
      case Reporting(handle, status) =>
        if handle in s.held {
          ReportKeepsInv(s, handle, status);
        }
      case Taking(owner, handle) => TakeKeepsInv(s, owner, handle);
      case Closing(owner, handle) => WriterKeepsInv(s, owner, handle);
    }
  }

  /** In every interleaving the two maps are inverse, at most 64 guards are live, and every live handle is below the next. */
  lemma {:induction false} RunKeepsInv(run: seq<State>, ops: seq<Op>, n: nat)
    requires IsRun(run, ops) && n <= |ops|
    ensures Inv(run[n])
  {
    if n > 0 {
      RunKeepsInv(run, ops, n - 1);
      assert StepAt(run, ops, n - 1);
      StepKeepsInv(run[n - 1], ops[n - 1]);
    }
  }

  // ---- nothing is taken or given out twice ----

  /** A handle from the past whose child, or writer, is no longer there to take. */
  ghost predicate ChildSpent(s: State, h: nat) {
    h < s.nextHandle && (h in s.entries ==> !s.entries[h].child)
  }

  ghost predicate WriterSpent(s: State, h: nat) {
    h < s.nextHandle && (h in s.entries ==> !s.entries[h].writer)
  }

  /** Handles are not given out again, and nothing that was taken comes back. */
  ghost predicate Spends(s: State, t: State) {
    && s.nextHandle <= t.nextHandle
    && forall h :: h in t.entries && h < s.nextHandle ==>
         && h in s.entries && (t.entries[h].child ==> s.entries[h].child) && (t.entries[h].writer ==> s.entries[h].writer)
  }

  lemma StartSpends(s: State, owner: Owner, arguments: bool, launcher: bool, pid: Option<nat>)
    ensures Spends(s, StartStep(s, owner, arguments, launcher, pid).0)
  {
  }

  lemma TakesSpend(s: State, owner: Owner, handle: nat)
    ensures Spends(s, TakeStep(s, owner, handle).0)
    ensures Spends(s, TakeWriter(s, owner, handle).0)
  {
  }

  lemma ReportSpends(s: State, handle: nat, status: Option<ExitStatus>)
    requires handle in s.held
    ensures Spends(s, ReportStep(s, handle, status).0)
  {
  }

  lemma StepSpends(s: State, op: Op)
    ensures Spends(s, Step(s, op))
  {
    match op {
      case Starting(owner, arguments, launcher, pid) => StartSpends(s, owner, arguments, launcher, pid);
      case Taking(owner, handle) => TakesSpend(s, owner, handle);
      case Closing(owner, handle) => TakesSpend(s, owner, handle);
      case Reporting(handle, status) =>
        if handle in s.held {
          ReportSpends(s, handle, status);
        }
    }
  }

  lemma {:induction false} RunKeepsSpent(run: seq<State>, ops: seq<Op>, m: nat, n: nat, h: nat)
    requires IsRun(run, ops) && m <= n <= |ops|
    ensures run[m].nextHandle <= run[n].nextHandle
    ensures ChildSpent(run[m], h) ==> ChildSpent(run[n], h)
    ensures WriterSpent(run[m], h) ==> WriterSpent(run[n], h)
  {
    if m < n {
      RunKeepsSpent(run, ops, m, n - 1, h);
      assert StepAt(run, ops, n - 1);
      StepSpends(run[n - 1], ops[n - 1]);
    }
  }

  lemma TakingSpends(s: State, op: Op)
    requires Inv(s)
    ensures TookChild(s, op) ==> !ChildSpent(s, op.handle) && ChildSpent(Step(s, op), op.handle)
    ensures TookWriter(s, op) ==> !WriterSpent(s, op.handle) && WriterSpent(Step(s, op), op.handle)
  {
  }

  lemma StartingAdvances(s: State, op: Op)
    requires Started(s, op).Some?
    ensures Started(s, op).value == s.nextHandle && Step(s, op).nextHandle == s.nextHandle + 1
  {
  }

  /** No two starts of a run give out one handle. */
  lemma HandlesAreNeverReused(run: seq<State>, ops: seq<Op>, i: nat, j: nat)
    requires IsRun(run, ops) && i < j < |ops|
    requires Started(run[i], ops[i]).Some? && Started(run[j], ops[j]).Some?
    ensures Started(run[i], ops[i]).value < Started(run[j], ops[j]).value
  {
    StartingAdvances(run[i], ops[i]);
    StartingAdvances(run[j], ops[j]);
    assert StepAt(run, ops, i);
    RunKeepsSpent(run, ops, i + 1, j, 0);
  }

  /** A child is taken at most once, so it is waited for at most once. */
  lemma ChildIsAwaitedOnce(run: seq<State>, ops: seq<Op>, i: nat, j: nat)
    requires IsRun(run, ops) && i < j < |ops|
    requires TookChild(run[i], ops[i]) && TookChild(run[j], ops[j])
    ensures ops[i].handle != ops[j].handle
  {
    RunKeepsInv(run, ops, i);
    RunKeepsInv(run, ops, j);
    TakingSpends(run[i], ops[i]);
    TakingSpends(run[j], ops[j]);
    assert StepAt(run, ops, i);
    RunKeepsSpent(run, ops, i + 1, j, ops[i].handle);
  }

  /** Closing a guard's lifetime reports success at most once. */
  lemma LifetimeIsClosedOnce(run: seq<State>, ops: seq<Op>, i: nat, j: nat)
    requires IsRun(run, ops) && i < j < |ops|
    requires TookWriter(run[i], ops[i]) && TookWriter(run[j], ops[j])
    ensures ops[i].handle != ops[j].handle
  {
    RunKeepsInv(run, ops, i);
    RunKeepsInv(run, ops, j);
    TakingSpends(run[i], ops[i]);
    TakingSpends(run[j], ops[j]);
    assert StepAt(run, ops, i);
    RunKeepsSpent(run, ops, i + 1, j, ops[i].handle);
  }

  // ---- every slot is accounted for ----

  ghost function Starts(run: seq<State>, ops: seq<Op>, n: nat): nat
    requires n <= |ops| && n < |run|
  {
    if n == 0 then 0 else Starts(run, ops, n - 1) + (if Started(run[n - 1], ops[n - 1]).Some? then 1 else 0)
  }

  ghost function Ends(run: seq<State>, ops: seq<Op>, n: nat): nat
    requires n <= |ops| && n < |run|
  {
    if n == 0 then 0 else Ends(run, ops, n - 1) + (if Ended(run[n - 1], ops[n - 1]) then 1 else 0)
  }

  lemma StartSize(s: State, owner: Owner, arguments: bool, launcher: bool, pid: Option<nat>)
    requires Inv(s)
    ensures var (t, handle) := StartStep(s, owner, arguments, launcher, pid);
            |t.entries| == |s.entries| + (if handle.Ok? then 1 else 0)
  {
    assert s.nextHandle !in s.entries;
  }

  lemma TakesSize(s: State, owner: Owner, handle: nat)
    ensures |TakeStep(s, owner, handle).0.entries| == |s.entries|
    ensures |TakeWriter(s, owner, handle).0.entries| == |s.entries|
  {
    if Owns(s, owner, handle) {
      SameSize(s.entries, TakeStep(s, owner, handle).0.entries);
      SameSize(s.entries, TakeWriter(s, owner, handle).0.entries);
    }
  }

  lemma ReportSize(s: State, handle: nat, status: Option<ExitStatus>)
    requires Inv(s) && handle in s.held
    ensures |ReportStep(s, handle, status).0.entries| == |s.entries| - (if status.Some? then 1 else 0)
  {
    ReportKeepsInv(s, handle, status);
  }

  lemma StepSize(s: State, op: Op)
    requires Inv(s)
    ensures |Step(s, op).entries| ==
              |s.entries| + (if Started(s, op).Some? then 1 else 0) - (if Ended(s, op) then 1 else 0)
  {
    match op {
      case Starting(owner, arguments, launcher, pid) => StartSize(s, owner, arguments, launcher, pid);
      case Taking(owner, handle) => TakesSize(s, owner, handle);
      case Closing(owner, handle) => TakesSize(s, owner, handle);
      case Reporting(handle, status) =>
        if handle in s.held {
          ReportSize(s, handle, status);
        }
    }
  }

  /** The live guards are those started and not yet reported as ended: a report always finds its own entry. */
  lemma {:induction false} SlotsAreConserved(run: seq<State>, ops: seq<Op>, n: nat)
    requires IsRun(run, ops) && n <= |ops|
    ensures |run[n].entries| == Starts(run, ops, n) - Ends(run, ops, n)
  {
    if n > 0 {
      SlotsAreConserved(run, ops, n - 1);
      RunKeepsInv(run, ops, n - 1);
      assert StepAt(run, ops, n - 1);
      StepSize(run[n - 1], ops[n - 1]);
    }
  }

  /** A guard whose child was taken and that no waiter holds any more. */
  ghost predicate Lost(s: State, h: nat, guard: Guard) {
    h in s.entries && s.entries[h].owner == guard.owner && !s.entries[h].child && h !in s.held
  }

  lemma StepKeepsLost(s: State, op: Op, h: nat, guard: Guard)
    requires Inv(s) && Lost(s, h, guard)
    ensures Lost(Step(s, op), h, guard)
  {
  }

  lemma {:induction false} RunKeepsLost(run: seq<State>, ops: seq<Op>, m: nat, n: nat, h: nat, guard: Guard)
    requires IsRun(run, ops) && m <= n <= |ops| && Lost(run[m], h, guard)
    ensures Lost(run[n], h, guard)
  {
    if m < n {
      RunKeepsLost(run, ops, m, n - 1, h, guard);
      RunKeepsInv(run, ops, n - 1);
      assert StepAt(run, ops, n - 1);
      StepKeepsLost(run[n - 1], ops[n - 1], h, guard);
    }
  }

  /**
   When waiting itself fails, the guard keeps its slot for the rest of the run: no one can take its child
   again, and its owner can start no other guard.
   */
  lemma FailedWaitKeepsTheSlot(run: seq<State>, ops: seq<Op>, m: nat, n: nat)
    requires IsRun(run, ops) && m < n < |ops|
    requires ops[m].Reporting? && ops[m].handle in run[m].held && ops[m].status.None?
    ensures ops[m].handle in run[m].entries && ops[m].handle in run[n].entries
    ensures ops[n].Starting? && ops[n].owner == run[m].entries[ops[m].handle].owner ==>
              Started(run[n], ops[n]).None?
    ensures ops[n].Taking? && ops[n].handle == ops[m].handle ==> !TookChild(run[n], ops[n])
  {
    var h := ops[m].handle;
    RunKeepsInv(run, ops, m);
    var guard := run[m].entries[h];
    assert StepAt(run, ops, m);
    assert Lost(run[m + 1], h, guard);
    RunKeepsLost(run, ops, m + 1, n, h, guard);
    RunKeepsInv(run, ops, n);
  }

  /** A handle given out and no longer registered. */
  ghost predicate Gone(s: State, h: nat) {
    h < s.nextHandle && h !in s.entries && h !in s.held
  }

  lemma StepKeepsGone(s: State, op: Op, h: nat)
    requires Gone(s, h)
    ensures Gone(Step(s, op), h)
  {
  }

  lemma {:induction false} RunKeepsGone(run: seq<State>, ops: seq<Op>, m: nat, n: nat, h: nat)
    requires IsRun(run, ops) && m <= n <= |ops| && Gone(run[m], h)
    ensures Gone(run[n], h)
  {
    if m < n {
      RunKeepsGone(run, ops, m, n - 1, h);
      assert StepAt(run, ops, n - 1);
      StepKeepsGone(run[n - 1], ops[n - 1], h);
    }
  }

  lemma ReportedIsGone(s: State, op: Op)
    requires Inv(s) && Ended(s, op)
    ensures Gone(Step(s, op), op.handle) && op.handle in s.entries && s.entries[op.handle].owner !in Step(s, op).owners
  {
    ReportKeepsInv(s, op.handle, op.status);
  }

  /**
   A report frees the handle exactly if the status is known: then the handle is gone for the rest of the run
   and its owner may start again at once, else it stays registered for the rest of the run.
   */
  lemma ReportFreesExactly(run: seq<State>, ops: seq<Op>, m: nat, n: nat)
    requires IsRun(run, ops) && m < n <= |ops|
    requires ops[m].Reporting? && ops[m].handle in run[m].held
    ensures ops[m].handle in run[m].entries
    ensures ops[m].handle in run[n].entries <==> ops[m].status.None?
    ensures run[m].entries[ops[m].handle].owner in run[m + 1].owners <==> ops[m].status.None?
  {
    var h := ops[m].handle;
    RunKeepsInv(run, ops, m);
    assert StepAt(run, ops, m);
    if ops[m].status.Some? {
      ReportedIsGone(run[m], ops[m]);
      RunKeepsGone(run, ops, m + 1, n, h);
    } else {
      var guard := run[m].entries[h];
      assert Lost(run[m + 1], h, guard);
      RunKeepsLost(run, ops, m + 1, n, h, guard);
    }
  }
}
