/** The slots for Kotlin host calls: each call runs on its own thread and keeps its slot until it finishes, whether or not its client stays. */
module HostCalls {
  import opened Wrappers

  const MAX_HOST_CALLS: nat := 16

  datatype Reply = Answered(result: int) | Busy | ThreadFailed | NoResult

  /** `running` says of each call that has a slot whether its client is still there. */
  datatype State = State(available: nat, waiting: set<nat>, running: map<nat, bool>, replies: map<nat, Reply>)

  const Idle := State(MAX_HOST_CALLS, {}, map[], map[])

  /** A call enters, gets a slot and a thread or none, runs out of patience, loses its client, or finishes with a result or by panicking. */
  datatype Op = Enter(call: nat) | Acquire(call: nat, spawned: bool) | TimeOut(call: nat) | Depart(call: nat) | Finish(call: nat, result: Option<int>)

  predicate Unknown(s: State, call: nat) {
    call !in s.waiting && call !in s.running && call !in s.replies
  }

  function Step(s: State, op: Op): State {
    match op
    case Enter(call) => if Unknown(s, call) then s.(waiting := s.waiting + {call}) else s
    case Acquire(call, spawned) =>
      if call !in s.waiting || s.available == 0 then s
      else if spawned then s.(available := s.available - 1, waiting := s.waiting - {call}, running := s.running[call := true])
      else s.(waiting := s.waiting - {call}, replies := s.replies[call := ThreadFailed])
    case TimeOut(call) =>
      if call in s.waiting then s.(waiting := s.waiting - {call}, replies := s.replies[call := Busy]) else s
    case Depart(call) =>
      if call in s.waiting then s.(waiting := s.waiting - {call})
      else if call in s.running then s.(running := s.running[call := false])
      else s
    case Finish(call, result) =>
      if call !in s.running then s
      else
        s.(available := s.available + 1, running := s.running - {call},
           replies := if s.running[call] then s.replies[call := if result.Some? then Answered(result.value) else NoResult] else s.replies)
  }

  class KotlinMcpHost {
    var available: nat
    var waiting: set<nat>
    var running: map<nat, bool>
    var replies: map<nat, Reply>

    function Now(): State
      reads this
    {
      State(available, waiting, running, replies)
    }

    constructor ()
      ensures Now() == Idle
    {
      available, waiting, running, replies := MAX_HOST_CALLS, {}, map[], map[];
    }

    /** A slot, if there is one; it goes back at once when no thread can be started. */
    method Admit(call: nat, spawned: bool) returns (admitted: bool)
      modifies this
      ensures Now() == Step(old(Now()), Acquire(call, spawned))
      ensures admitted <==> old(call in waiting && available > 0) && spawned
    {
      if call !in waiting || available == 0 {
        return false;
      }
      available, waiting := available - 1, waiting - {call};
      if !spawned {
        available := available + 1;
        replies := replies[call := ThreadFailed];
        return false;
      }
      running := running[call := true];
      return true;
    }

    /** The thread ends: the reply goes to a client that is still there, and the slot is free again. */
    method End(call: nat, result: Option<int>)
      requires call in running
      modifies this
      ensures Now() == Step(old(Now()), Finish(call, result))
    {
      if running[call] {
        replies := replies[call := if result.Some? then Answered(result.value) else NoResult];
      }
      running := running - {call};
      available := available + 1;
    }
  }

  /** Every slot is free or held by a running call, and a call that was answered is over, but for one whose client left. */
  ghost predicate Inv(s: State) {
    && s.available + |s.running| == MAX_HOST_CALLS
    && (forall call :: call in s.waiting ==> call !in s.running && call !in s.replies)
    && (forall call :: call in s.running ==> call !in s.replies)
  }

  lemma SizeWithout(m: map<nat, bool>, call: nat)
    requires call in m
    ensures |m - {call}| == |m| - 1
  {
    assert (m - {call}).Keys == m.Keys - {call};
    assert |m.Keys - {call}| == |m.Keys| - 1;
  }

  lemma StepKeepsInv(s: State, op: Op)
    requires Inv(s)
    ensures Inv(Step(s, op))
    ensures forall call :: call in s.replies ==> call in Step(s, op).replies && Step(s, op).replies[call] == s.replies[call]
  {
    if op.Finish? && op.call in s.running {
      SizeWithout(s.running, op.call);
    }
    if op.Depart? && op.call in s.running {
      assert s.running[op.call := false].Keys == s.running.Keys;
      assert |s.running.Keys| == |s.running[op.call := false].Keys|;
    }
  }

  ghost predicate StepAt(run: seq<State>, ops: seq<Op>, n: nat)
    requires n + 1 < |run| && n < |ops|
  {
    run[n + 1] == Step(run[n], ops[n])
  }

  ghost predicate IsRun(run: seq<State>, ops: seq<Op>) {
    && |run| == |ops| + 1 && run[0] == Idle
    && forall n {:trigger StepAt(run, ops, n)} :: 0 <= n < |ops| ==> StepAt(run, ops, n)
  }

  /** No interleaving of clients, threads and panics loses or invents a slot. */
  lemma {:induction false} SlotsAreConserved(run: seq<State>, ops: seq<Op>, n: nat)
    requires IsRun(run, ops) && n <= |ops|
    ensures Inv(run[n])
  {
    if n > 0 {
      SlotsAreConserved(run, ops, n - 1);
      assert StepAt(run, ops, n - 1);
      StepKeepsInv(run[n - 1], ops[n - 1]);
    }
  }

  /** An answer, once given, is the only one. */
  lemma {:induction false} AnswersAreFinal(run: seq<State>, ops: seq<Op>, m: nat, n: nat, call: nat)
    requires IsRun(run, ops) && m <= n <= |ops| && call in run[m].replies
    ensures call in run[n].replies && run[n].replies[call] == run[m].replies[call]
  {
    if m < n {
      AnswersAreFinal(run, ops, m, n - 1, call);
      SlotsAreConserved(run, ops, n - 1);
      assert StepAt(run, ops, n - 1);
      StepKeepsInv(run[n - 1], ops[n - 1]);
    }
  }

  /** A call whose client left keeps its slot until it finishes. */
  lemma {:induction false} DepartedCallsKeepTheirSlot(run: seq<State>, ops: seq<Op>, m: nat, n: nat, call: nat)
    requires IsRun(run, ops) && m <= n <= |ops| && call in run[m].running
    requires forall i :: m <= i < n ==> !(ops[i].Finish? && ops[i].call == call)
    ensures call in run[n].running && run[n].available < MAX_HOST_CALLS
  {
    if m < n {
      DepartedCallsKeepTheirSlot(run, ops, m, n - 1, call);
      assert StepAt(run, ops, n - 1);
    }
    SlotsAreConserved(run, ops, n);
    assert run[n].running != map[];
  }

  // ---- which answer a call gets ----

  ghost predicate DepartedIn(ops: seq<Op>, i: nat, n: nat, call: nat)
    requires n <= |ops|
  {
    exists j :: i < j < n && ops[j] == Depart(call)
  }

  ghost predicate FinishedIn(ops: seq<Op>, i: nat, n: nat, call: nat)
    requires n <= |ops|
  {
    exists j :: i < j < n && ops[j].Finish? && ops[j].call == call
  }

  /** A call is given a thread exactly if it waits, fewer than 16 run, and the thread can be started. */
  lemma AdmittedExactly(run: seq<State>, ops: seq<Op>, n: nat)
    requires IsRun(run, ops) && n < |ops| && ops[n].Acquire? && ops[n].call !in run[n].running
    ensures ops[n].call in run[n + 1].running <==>
              ops[n].call in run[n].waiting && |run[n].running| < MAX_HOST_CALLS && ops[n].spawned
  {
    SlotsAreConserved(run, ops, n);
    assert StepAt(run, ops, n);
  }

  /** From its admission until it finishes a call runs, and knows whether its client left. */
  lemma {:induction false} RunningKnowsItsClient(run: seq<State>, ops: seq<Op>, i: nat, n: nat, call: nat)
    requires IsRun(run, ops) && i < n <= |ops| && ops[i].Acquire? && ops[i].call == call
    requires call !in run[i].running && call in run[i + 1].running && !FinishedIn(ops, i, n, call)
    ensures call in run[n].running && (run[n].running[call] <==> !DepartedIn(ops, i, n, call))
    decreases n
  {
    assert StepAt(run, ops, n - 1);
    SlotsAreConserved(run, ops, n - 1);
    if n > i + 1 {
      RunningKnowsItsClient(run, ops, i, n - 1, call);
    }
  }

  /** When it finishes, a client that stayed gets the result of its own call, and one that left gets no answer. */
  lemma FinishAnswersWhoStayed(run: seq<State>, ops: seq<Op>, i: nat, n: nat)
    requires IsRun(run, ops) && i < n < |ops| && ops[n].Finish? && ops[i] == Acquire(ops[n].call, true)
    requires ops[n].call !in run[i].running && ops[n].call in run[i + 1].running && !FinishedIn(ops, i, n, ops[n].call)
    ensures var call := ops[n].call;
            if DepartedIn(ops, i, n, call) then run[n + 1].replies == run[n].replies && call !in run[n].replies
            else run[n + 1].replies == run[n].replies[call := if ops[n].result.Some? then Answered(ops[n].result.value) else NoResult]
  {
    RunningKnowsItsClient(run, ops, i, n, ops[n].call);
    SlotsAreConserved(run, ops, n);
    assert StepAt(run, ops, n);
  }

  /** An answer is only given to the call of the step: busy for one that ran out of patience, failed for want of a thread. */
  lemma AnswersHaveTheirCause(run: seq<State>, ops: seq<Op>, n: nat, call: nat)
    requires IsRun(run, ops) && n < |ops| && call !in run[n].replies && call in run[n + 1].replies
    ensures match run[n + 1].replies[call]
            case Busy => ops[n] == TimeOut(call) && call in run[n].waiting
            case ThreadFailed => ops[n] == Acquire(call, false) && call in run[n].waiting && |run[n].running| < MAX_HOST_CALLS
            case Answered(result) => ops[n] == Finish(call, Some(result)) && call in run[n].running
            case NoResult => ops[n] == Finish(call, None) && call in run[n].running
  {
    SlotsAreConserved(run, ops, n);
    assert StepAt(run, ops, n);
  }

  /** A waiting call goes on waiting until it is given up, its client leaves, or there is a slot for it. */
  lemma WaitingEndsExactly(run: seq<State>, ops: seq<Op>, n: nat, call: nat)
    requires IsRun(run, ops) && n < |ops| && call in run[n].waiting
    ensures var s, t, op := run[n], run[n + 1], ops[n];
            var slot := op.Acquire? && op.call == call && |s.running| < MAX_HOST_CALLS;
            && (call in t.waiting <==> op != TimeOut(call) && op != Depart(call) && !slot)
            && (call in t.running <==> slot && op.spawned) && (call in t.running ==> t.running[call])
            && (call in t.replies <==> op == TimeOut(call) || (slot && !op.spawned))
            && (call in t.replies ==> t.replies[call] == if op.TimeOut? then Busy else ThreadFailed)
  {
    SlotsAreConserved(run, ops, n);
    assert StepAt(run, ops, n);
  }
}
