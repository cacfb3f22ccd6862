/** What a caller of the Shizuku registry is answered, told from the calls before it. */
module ShizukuOutcomes {
  import opened Wrappers
  import opened ShizukuRegistry

  // ---- closing a client ----

  /** The state after some operations, one after the other. */
  ghost function Through(s: State, ops: seq<Op>): State
    decreases |ops|
  {
    if ops == [] then s else Step(Through(s, ops[..|ops| - 1]), ops[|ops| - 1])
  }

  /** `op` closes the lifetime of a guard of `client`, as its owner. */
  predicate ClosesFor(s: State, client: string, op: Op) {
    op.Closing? && op.handle in s.entries && op.owner == s.entries[op.handle].owner && op.owner.0 == client
  }

  ghost predicate Closes(ops: seq<Op>, h: nat) {
    exists i :: 0 <= i < |ops| && ops[i].Closing? && ops[i].handle == h
  }

  lemma {:induction false} ThroughClosings(s: State, client: string, ops: seq<Op>)
    requires forall i :: 0 <= i < |ops| ==> ClosesFor(s, client, ops[i])
    ensures var t := Through(s, ops);
            && t == s.(entries := t.entries) && t.entries.Keys == s.entries.Keys
            && forall h :: h in s.entries ==> t.entries[h] == if Closes(ops, h) then s.entries[h].(writer := false) else s.entries[h]
    decreases |ops|
  {
    if ops != [] {
      var before, last := ops[..|ops| - 1], ops[|ops| - 1];
      ThroughClosings(s, client, before);
      forall h | h in s.entries
        ensures Closes(ops, h) <==> Closes(before, h) || h == last.handle
      {
        OneMoreClosing(ops, h);
      }
    }
  }

  lemma OneMoreClosing(ops: seq<Op>, h: nat)
    requires ops != []
    ensures Closes(ops, h) <==> Closes(ops[..|ops| - 1], h) || (ops[|ops| - 1].Closing? && ops[|ops| - 1].handle == h)
  {
    var before := ops[..|ops| - 1];
    if Closes(before, h) {
      var i :| 0 <= i < |before| && before[i].Closing? && before[i].handle == h;
      assert ops[i] == before[i];
    }
    if Closes(ops, h) {
      var i :| 0 <= i < |ops| && ops[i].Closing? && ops[i].handle == h;
      assert i < |before| ==> before[i] == ops[i];
    }
  }

  /** Closing a client is closing the lifetime of each of its guards, in any order and however often. */
  lemma ClientClosesEachGuard(s: State, client: string, ops: seq<Op>)
    requires forall i :: 0 <= i < |ops| ==> ClosesFor(s, client, ops[i])
    requires forall h :: h in s.entries && s.entries[h].owner.0 == client ==> Closes(ops, h)
    ensures CloseClientStep(s, client) == Through(s, ops)
  {
    ThroughClosings(s, client, ops);
    forall h | h in s.entries && Closes(ops, h)
      ensures s.entries[h].owner.0 == client
    {
      var i :| 0 <= i < |ops| && ops[i].Closing? && ops[i].handle == h;
      assert ClosesFor(s, client, ops[i]);
    }
    assert CloseClientStep(s, client).entries == Through(s, ops).entries;
  }

  // ---- what became of a guard ----

  ghost predicate StartedAt(run: seq<State>, ops: seq<Op>, i: nat, h: nat)
    requires i < |ops| && i < |run|
  {
    Started(run[i], ops[i]) == Some(h)
  }

  ghost predicate TookAt(run: seq<State>, ops: seq<Op>, j: nat, h: nat)
    requires j < |ops| && j < |run|
  {
    TookChild(run[j], ops[j]) && ops[j].handle == h
  }

  ghost predicate ClosedAt(run: seq<State>, ops: seq<Op>, j: nat, h: nat)
    requires j < |ops| && j < |run|
  {
    TookWriter(run[j], ops[j]) && ops[j].handle == h
  }

  ghost predicate EndedAt(run: seq<State>, ops: seq<Op>, j: nat, h: nat)
    requires j < |ops| && j < |run|
  {
    Ended(run[j], ops[j]) && ops[j].handle == h
  }

  ghost predicate Took(run: seq<State>, ops: seq<Op>, i: nat, n: nat, h: nat)
    requires n <= |ops| && n < |run|
  {
    exists j :: i < j < n && TookAt(run, ops, j, h)
  }

  ghost predicate Closed(run: seq<State>, ops: seq<Op>, i: nat, n: nat, h: nat)
    requires n <= |ops| && n < |run|
  {
    exists j :: i < j < n && ClosedAt(run, ops, j, h)
  }

  ghost predicate Over(run: seq<State>, ops: seq<Op>, i: nat, n: nat, h: nat)
    requires n <= |ops| && n < |run|
  {
    exists j :: i < j < n && EndedAt(run, ops, j, h)
  }

  lemma OneStepLater(run: seq<State>, ops: seq<Op>, i: nat, n: nat, h: nat)
    requires i < n < |ops| && n + 1 < |run|
    ensures Took(run, ops, i, n + 1, h) <==> Took(run, ops, i, n, h) || TookAt(run, ops, n, h)
    ensures Closed(run, ops, i, n + 1, h) <==> Closed(run, ops, i, n, h) || ClosedAt(run, ops, n, h)
    ensures Over(run, ops, i, n + 1, h) <==> Over(run, ops, i, n, h) || EndedAt(run, ops, n, h)
  {
  }

  /** How one step changes a registered guard. */
  lemma GuardThroughStep(s: State, op: Op, h: nat)
    requires Inv(s) && h in s.entries
    ensures var t := Step(s, op);
            && (h in t.entries <==> !(Ended(s, op) && op.handle == h))
            && (h in t.entries ==>
                 && t.entries[h].owner == s.entries[h].owner
                 && (t.entries[h].child <==> s.entries[h].child && !(TookChild(s, op) && op.handle == h))
                 && (t.entries[h].writer <==> s.entries[h].writer && !(TookWriter(s, op) && op.handle == h)))
  {
  }

  lemma GoneThroughStep(s: State, op: Op, h: nat)
    requires Inv(s) && Gone(s, h)
    ensures Gone(Step(s, op), h)
    ensures !(Ended(s, op) && op.handle == h) && !(TookChild(s, op) && op.handle == h) && !(TookWriter(s, op) && op.handle == h)
  {
    StepKeepsGone(s, op, h);
  }

  lemma StartRegisters(s: State, op: Op, h: nat)
    requires Inv(s) && Started(s, op) == Some(h)
    ensures var t := Step(s, op); h in t.entries && t.entries[h].owner == op.owner && t.entries[h].child && t.entries[h].writer
  {
  }

  /** What is left of a guard, by what happened to it. */
  ghost predicate Left(s: State, h: nat, owner: Owner, over: bool, took: bool, closed: bool) {
    if over then Gone(s, h)
    else
      && h in s.entries && s.entries[h].owner == owner
      && (s.entries[h].child <==> !took) && (s.entries[h].writer <==> !closed)
  }

  lemma LeftThroughStep(s: State, op: Op, h: nat, owner: Owner, over: bool, took: bool, closed: bool)
    requires Inv(s) && Left(s, h, owner, over, took, closed)
    ensures Left(Step(s, op), h, owner, over || (Ended(s, op) && op.handle == h),
                 took || (TookChild(s, op) && op.handle == h), closed || (TookWriter(s, op) && op.handle == h))
  {
    if over {
      GoneThroughStep(s, op, h);
    } else {
      GuardThroughStep(s, op, h);
      if Ended(s, op) && op.handle == h {
        ReportedIsGone(s, op);
      }
    }
  }

  /** A started guard is registered until it ended, with its child until one took it and its writer until one closed it. */
  lemma {:induction false} GuardInRun(run: seq<State>, ops: seq<Op>, i: nat, n: nat, h: nat)
    requires IsRun(run, ops) && i < n <= |ops| && StartedAt(run, ops, i, h)
    ensures Left(run[n], h, ops[i].owner, Over(run, ops, i, n, h), Took(run, ops, i, n, h), Closed(run, ops, i, n, h))
    decreases n
  {
    var m := n - 1;
    RunKeepsInv(run, ops, m);
    assert StepAt(run, ops, m);
    if m == i {
      StartRegisters(run[i], ops[i], h);
    } else {
      GuardInRun(run, ops, i, m, h);
      OneStepLater(run, ops, i, m, h);
      LeftThroughStep(run[m], ops[m], h, ops[i].owner, Over(run, ops, i, m, h), Took(run, ops, i, m, h), Closed(run, ops, i, m, h));
    }
  }

  lemma NewlyRegistered(s: State, op: Op, h: nat)
    requires Inv(s) && h !in s.entries && h in Step(s, op).entries
    ensures Started(s, op) == Some(h) && op.owner == Step(s, op).entries[h].owner
  {
  }

  /** Every registered guard was started by its owner. */
  lemma {:induction false} RegisteredWasStarted(run: seq<State>, ops: seq<Op>, n: nat, h: nat) returns (i: nat)
    requires IsRun(run, ops) && n <= |ops| && h in run[n].entries
    ensures i < n && StartedAt(run, ops, i, h) && ops[i].owner == run[n].entries[h].owner
    decreases n
  {
    assert StepAt(run, ops, n - 1);
    RunKeepsInv(run, ops, n - 1);
    if h in run[n - 1].entries {
      i := RegisteredWasStarted(run, ops, n - 1, h);
      GuardThroughStep(run[n - 1], ops[n - 1], h);
    } else {
      NewlyRegistered(run[n - 1], ops[n - 1], h);
      i := n - 1;
    }
  }

  ghost predicate StartedBy(run: seq<State>, ops: seq<Op>, i: nat, n: nat, owner: Owner, h: nat)
    requires n <= |ops| && n < |run|
  {
    i < n && StartedAt(run, ops, i, h) && ops[i].owner == owner
  }

  /** A child is taken exactly if its guard was started by the caller, is not over, and no one took it before. */
  lemma TakenExactly(run: seq<State>, ops: seq<Op>, n: nat)
    requires IsRun(run, ops) && n < |ops| && ops[n].Taking?
    ensures var op := ops[n];
            TookChild(run[n], op) <==>
              exists i: nat :: StartedBy(run, ops, i, n, op.owner, op.handle)
                               && !Over(run, ops, i, n, op.handle) && !Took(run, ops, i, n, op.handle)
  {
    var h := ops[n].handle;
    if TookChild(run[n], ops[n]) {
      var i := RegisteredWasStarted(run, ops, n, h);
      GuardInRun(run, ops, i, n, h);
      assert StartedBy(run, ops, i, n, ops[n].owner, h);
    }
    forall i: nat | StartedBy(run, ops, i, n, ops[n].owner, h) && !Over(run, ops, i, n, h) && !Took(run, ops, i, n, h)
      ensures TookChild(run[n], ops[n])
    {
      GuardInRun(run, ops, i, n, h);
    }
  }

  /** A lifetime is closed with success exactly if its guard was started by the caller, is not over, and was not closed before. */
  lemma ClosedExactly(run: seq<State>, ops: seq<Op>, n: nat)
    requires IsRun(run, ops) && n < |ops| && ops[n].Closing?
    ensures var op := ops[n];
            TookWriter(run[n], op) <==>
              exists i: nat :: StartedBy(run, ops, i, n, op.owner, op.handle)
                               && !Over(run, ops, i, n, op.handle) && !Closed(run, ops, i, n, op.handle)
  {
    var h := ops[n].handle;
    if TookWriter(run[n], ops[n]) {
      var i := RegisteredWasStarted(run, ops, n, h);
      GuardInRun(run, ops, i, n, h);
      assert StartedBy(run, ops, i, n, ops[n].owner, h);
    }
    forall i: nat | StartedBy(run, ops, i, n, ops[n].owner, h) && !Over(run, ops, i, n, h) && !Closed(run, ops, i, n, h)
      ensures TookWriter(run[n], ops[n])
    {
      GuardInRun(run, ops, i, n, h);
    }
  }

  // ---- starting ----

  lemma {:induction false} HandlesAreCounted(run: seq<State>, ops: seq<Op>, n: nat)
    requires IsRun(run, ops) && n <= |ops|
    ensures run[n].nextHandle == 1 + Starts(run, ops, n)
  {
    if n > 0 {
      HandlesAreCounted(run, ops, n - 1);
      assert StepAt(run, ops, n - 1);
      StartCounts(run[n - 1], ops[n - 1]);
    }
  }

  lemma StartCounts(s: State, op: Op)
    ensures Step(s, op).nextHandle == s.nextHandle + (if Started(s, op).Some? then 1 else 0)
  {
  }

  /** The owner has a guard that was started before `n` and is not over. */
  ghost predicate Busy(run: seq<State>, ops: seq<Op>, n: nat, owner: Owner)
    requires n <= |ops| && n < |run|
  {
    exists i: nat, h: nat :: StartedBy(run, ops, i, n, owner, h) && !Over(run, ops, i, n, h)
  }

  lemma BusyIsRegistered(run: seq<State>, ops: seq<Op>, n: nat, owner: Owner)
    requires IsRun(run, ops) && n <= |ops|
    ensures Busy(run, ops, n, owner) <==> owner in run[n].owners
  {
    RunKeepsInv(run, ops, n);
    if owner in run[n].owners {
      var h := run[n].owners[owner];
      var i := RegisteredWasStarted(run, ops, n, h);
      GuardInRun(run, ops, i, n, h);
      assert StartedBy(run, ops, i, n, owner, h);
    }
    forall i: nat, h: nat | StartedBy(run, ops, i, n, owner, h) && !Over(run, ops, i, n, h)
      ensures owner in run[n].owners
    {
      GuardInRun(run, ops, i, n, h);
    }
  }

  /**
   A guard is started exactly if the launch is well formed, a launcher is there, fewer than 64 guards are live, its
   owner has none, a handle is left and the process can be spawned; its handle is the number of the start.
   */
  lemma StartedExactly(run: seq<State>, ops: seq<Op>, n: nat)
    requires IsRun(run, ops) && n < |ops| && ops[n].Starting?
    ensures var op := ops[n];
            && Starts(run, ops, n) >= Ends(run, ops, n)
            && (Started(run[n], op).Some? <==>
                 && op.arguments && op.launcher && Starts(run, ops, n) - Ends(run, ops, n) < MAX_SHIZUKU_GUARD_HANDLES
                 && !Busy(run, ops, n, op.owner) && Starts(run, ops, n) + 2 <= I64_MAX && op.pid.Some?)
            && (Started(run[n], op).Some? ==> Started(run[n], op).value == 1 + Starts(run, ops, n))
  {
    SlotsAreConserved(run, ops, n);
    HandlesAreCounted(run, ops, n);
    BusyIsRegistered(run, ops, n, ops[n].owner);
  }

  // ---- reporting ----

  /** A waiter is told the code of a child that exited, 128 more than the signal of one that was killed, or 255. */
  lemma ReportAnswers(s: State, handle: nat, status: Option<ExitStatus>)
    requires handle in s.held
    ensures var answer := ReportStep(s, handle, status).1;
            && (answer == Err(WaitFailed) <==> status.None?) && (answer.Ok? <==> status.Some?)
            && (forall code :: status == Some(Exited(code)) ==> answer == Ok(code))
            && (forall signal :: status == Some(Killed(signal)) ==> answer == Ok(128 + signal))
            && (status == Some(ExitStatus.Unknown) ==> answer == Ok(255))
  {
  }
}
