/**
 What the owner's verified answers say about every guard of an execution. A proof path can be prepared again
 once its proof is gone, so an execution may have had several guards; only the last of them holds the proof.
 */
module GuardExecutions {
  import opened Wrappers
  import opened GuardFrames
  import opened GuardCapacity
  import opened GuardScope
  import opened GuardRuns

  // ---- which guards can still run a process ----

  /** The guard runs its process group, or lives and has room to record its start and spawn it. */
  ghost predicate MayRun(o: Owner, g: Guard)
    requires Faithful(o.codec)
  {
    g.phase.Running? || (g.phase.Starting? && !g.dead && FrameEnd(o, g) <= PROOF_LIMIT)
  }

  ghost predicate SomeMayRun(o: Owner, w: World, k: Key)
    requires Faithful(o.codec)
  {
    exists i :: 0 <= i < |w.guards| && w.guards[i].key == k && MayRun(o, w.guards[i])
  }

  ghost predicate SomeRuns(w: World, k: Key) {
    exists i :: 0 <= i < |w.guards| && w.guards[i].key == k && w.guards[i].phase.Running?
  }

  predicate NotPrepared(ops: seq<Op>, id: Uuid) {
    forall i :: 0 <= i < |ops| ==> !(ops[i].Prepare? && ops[i].id == id)
  }

  /** Some guard of the execution runs its process group in some later run without another prepare of it. */
  ghost predicate WillRun(o: Owner, w: World, id: Uuid)
    requires Faithful(o.codec)
  {
    exists later :: NotPrepared(later, id) && ValidRun(o, w, later) && SomeRuns(Run(o, w, later), o.KeyOf(id))
  }

  /** The guard has cleaned up, or will never spawn. */
  ghost predicate Sealed(o: Owner, g: Guard)
    requires Faithful(o.codec)
  {
    g.phase.Cleaned? || (g.phase.Starting? && g.cut <= PROOF_LIMIT && (g.dead || FrameEnd(o, g) > PROOF_LIMIT))
  }

  ghost predicate AllSealed(o: Owner, w: World, k: Key)
    requires Faithful(o.codec)
  {
    && k !in w.scope.proofs && k !in w.owner
    && forall i :: 0 <= i < |w.guards| && w.guards[i].key == k ==> Sealed(o, w.guards[i])
  }

  lemma StepKeepsSealed(o: Owner, w: World, op: Op, id: Uuid)
    requires Faithful(o.codec) && AllSealed(o, w, o.KeyOf(id)) && !(op.Prepare? && op.id == id)
    ensures AllSealed(o, Step(o, w, op).0, o.KeyOf(id))
  {
  }

  lemma {:induction false} RunKeepsSealed(o: Owner, w: World, later: seq<Op>, id: Uuid)
    requires Faithful(o.codec) && AllSealed(o, w, o.KeyOf(id)) && NotPrepared(later, id)
    ensures AllSealed(o, Run(o, w, later), o.KeyOf(id))
    decreases |later|
  {
    if later != [] {
      StepKeepsSealed(o, w, later[0], id);
      assert forall i :: 0 <= i < |later[1..]| ==> later[1..][i] == later[i + 1];
      RunKeepsSealed(o, Step(o, w, later[0]).0, later[1..], id);
    }
  }

  lemma SpawningRun(o: Owner, w: World, i: nat, id: Uuid)
    requires Faithful(o.codec) && i < |w.guards| && w.guards[i].key == o.KeyOf(id)
    requires var g := w.guards[i]; g.phase.Starting? && !g.dead && g.cut <= FrameEnd(o, g) <= PROOF_LIMIT
    ensures WillRun(o, w, id)
  {
    var g := w.guards[i];
    var later := [GuardWrites(i, FrameEnd(o, g) - g.cut), GuardSpawns(i)];
    var w1 := Step(o, w, later[0]).0;
    assert w1.guards[i] == g.(cut := FrameEnd(o, g));
    var w2 := Step(o, w1, later[1]).0;
    assert w2.guards[i].phase.Running? && w2.guards[i].key == g.key;
    assert later[1..] == [GuardSpawns(i)] && later[1..][1..] == [];
    assert Run(o, w1, later[1..]) == Run(o, w2, []) == w2;
    assert Run(o, w, later) == w2;
    assert ValidRun(o, w1, later[1..]) && ValidRun(o, w, later);
    assert NotPrepared(later, id) && SomeRuns(w2, o.KeyOf(id));
  }

  lemma RunsIfItMay(o: Owner, w: World, id: Uuid)
    requires Faithful(o.codec) && Inv(o, w) && SomeMayRun(o, w, o.KeyOf(id))
    ensures WillRun(o, w, id)
  {
    var i :| 0 <= i < |w.guards| && w.guards[i].key == o.KeyOf(id) && MayRun(o, w.guards[i]);
    assert GuardOk(o, w.guards[i]);
    if w.guards[i].phase.Running? {
      assert Run(o, w, []) == w && ValidRun(o, w, []);
      assert NotPrepared([], id) && SomeRuns(Run(o, w, []), o.KeyOf(id));
    } else {
      SpawningRun(o, w, i, id);
    }
  }

  /** Without a proof on its path an execution runs again exactly if one of its guards still may. */
  lemma WithoutAProof(o: Owner, w: World, id: Uuid)
    requires Faithful(o.codec) && Inv(o, w) && o.KeyOf(id) !in w.scope.proofs
    ensures WillRun(o, w, id) <==> SomeMayRun(o, w, o.KeyOf(id))
  {
    var k := o.KeyOf(id);
    if SomeMayRun(o, w, k) {
      RunsIfItMay(o, w, id);
    } else {
      forall i | 0 <= i < |w.guards| && w.guards[i].key == k
        ensures Sealed(o, w.guards[i])
      {
        assert GuardOk(o, w.guards[i]) && !MayRun(o, w.guards[i]);
      }
      forall later | NotPrepared(later, id)
        ensures !SomeRuns(Run(o, w, later), k)
      {
        RunKeepsSealed(o, w, later, id);
      }
    }
  }

  // ---- every verified answer, exactly ----

  /**
   A verified abort is safe exactly if no guard of the execution may run: one that had been launched on the
   proof before the abort, or on an earlier one, is not stopped by it.
   */
  lemma AbortIsSafeExactly(o: Owner, w: World, id: Uuid, io: AbortIo)
    requires Faithful(o.codec) && Inv(o, w) && Step(o, w, Abort(id, io)).1 == Aborts(Ok(true))
    ensures WillRun(o, Step(o, w, Abort(id, io)).0, id) <==> SomeMayRun(o, w, o.KeyOf(id))
  {
    var w' := Step(o, w, Abort(id, io)).0;
    AbortPreserves(o, w, id, io);
    assert o.KeyOf(id) !in w'.scope.proofs && w'.guards == w.guards;
    WithoutAProof(o, w', id);
  }

  lemma SettlementIsSafeExactly(o: Owner, w: World, id: Uuid, readable: bool, same: Option<bool>, io: RemoveIo)
    requires Faithful(o.codec) && Inv(o, w)
    requires var r := Step(o, w, Settle(id, readable, same, io)).1.settled; r.Ok? && r.value.cleanupVerified
    ensures WillRun(o, Step(o, w, Settle(id, readable, same, io)).0, id) <==> SomeMayRun(o, w, o.KeyOf(id))
  {
    var w' := Step(o, w, Settle(id, readable, same, io)).0;
    SettlingIsExact(o, w, id, readable, same, io);
    SettlePreserves(o, w, id, readable, same, io);
    assert o.KeyOf(id) !in w'.scope.proofs && w'.guards == w.guards;
    WithoutAProof(o, w', id);
  }

  // ---- executions that are prepared once ----

  predicate PreparedOnce(ops: seq<Op>, id: Uuid) {
    forall i, j :: 0 <= i < j < |ops| && ops[i].Prepare? && ops[i].id == id ==> !(ops[j].Prepare? && ops[j].id == id)
  }

  ghost predicate Untouched(w: World, k: Key) {
    k !in w.scope.proofs && k !in w.owner && forall i :: 0 <= i < |w.guards| ==> w.guards[i].key != k
  }

  /** There is one guard of the execution at most, and it holds the proof while there is a proof. */
  ghost predicate OneGuard(w: World, k: Key) {
    && (forall i, j :: 0 <= i < |w.guards| && 0 <= j < |w.guards| && w.guards[i].key == k && w.guards[j].key == k ==> i == j)
    && (k in w.owner ==> k in w.scope.proofs && w.owner[k] < |w.guards| && w.guards[w.owner[k]].key == k)
    && (k in w.scope.proofs && k !in w.owner ==> forall i :: 0 <= i < |w.guards| ==> w.guards[i].key != k)
  }

  lemma StepKeepsUntouched(o: Owner, w: World, op: Op, id: Uuid)
    requires Faithful(o.codec) && Untouched(w, o.KeyOf(id)) && !(op.Prepare? && op.id == id)
    ensures Untouched(Step(o, w, op).0, o.KeyOf(id))
  {
  }

  lemma GuardStepShape(o: Owner, w: World, op: Op)
    requires Faithful(o.codec) && (op.GuardWrites? || op.GuardSpawns? || op.GuardCleans? || op.GuardDies?)
    ensures var w' := Step(o, w, op).0;
            && w'.owner == w.owner && |w'.guards| == |w.guards| && w'.scope.proofs.Keys == w.scope.proofs.Keys
            && forall i :: 0 <= i < |w.guards| ==> w'.guards[i].key == w.guards[i].key
  {
  }

  lemma OwnerStepShape(o: Owner, w: World, op: Op, id: Uuid)
    requires Faithful(o.codec) && (op.Prepare? || op.Settle? || op.Abort?) && !(op.Prepare? && op.id == id)
    ensures var w' := Step(o, w, op).0;
            var k := o.KeyOf(id);
            && w'.guards == w.guards && (k in w'.scope.proofs ==> k in w.scope.proofs)
            && (k in w'.owner ==> k in w.owner && w'.owner[k] == w.owner[k])
            && (k in w.owner ==> (k in w'.owner <==> k in w'.scope.proofs || op.Prepare?))
            && (op.Prepare? ==> (k in w'.scope.proofs <==> k in w.scope.proofs))
  {
    var k := o.KeyOf(id);
    match op {
      case Prepare(other, io) => assert o.KeyOf(other) != k;
      case Settle(other, readable, same, io) => SettleRemovesOne(o, w.scope, other, readable, same, io);
      case Abort(other, io) => AbortRemovesOne(o, w.scope, other, io);
    }
  }

  lemma StepKeepsOneGuard(o: Owner, w: World, op: Op, id: Uuid)
    requires Faithful(o.codec) && OneGuard(w, o.KeyOf(id)) && !(op.Prepare? && op.id == id)
    ensures OneGuard(Step(o, w, op).0, o.KeyOf(id))
  {
    match op {
      case Launch(_, _) => LaunchKeepsOneGuard(o, w, op, id);
      case Prepare(_, _) => OwnerStepShape(o, w, op, id);
      case Settle(_, _, _, _) => OwnerStepShape(o, w, op, id);
      case Abort(_, _) => OwnerStepShape(o, w, op, id);
      case _ => GuardStepShape(o, w, op);
    }
  }

  lemma LaunchKeepsOneGuard(o: Owner, w: World, op: Op, id: Uuid)
    requires Faithful(o.codec) && OneGuard(w, o.KeyOf(id)) && op.Launch?
    ensures OneGuard(Step(o, w, op).0, o.KeyOf(id))
  {
    assert op.id != id ==> o.KeyOf(op.id) != o.KeyOf(id);
  }

  lemma {:induction false} RunKeepsOneGuard(o: Owner, w: World, ops: seq<Op>, id: Uuid)
    requires Faithful(o.codec) && OneGuard(w, o.KeyOf(id)) && NotPrepared(ops, id)
    ensures OneGuard(Run(o, w, ops), o.KeyOf(id))
    decreases |ops|
  {
    if ops != [] {
      StepKeepsOneGuard(o, w, ops[0], id);
      assert forall i :: 0 <= i < |ops[1..]| ==> ops[1..][i] == ops[i + 1];
      RunKeepsOneGuard(o, Step(o, w, ops[0]).0, ops[1..], id);
    }
  }

  lemma {:induction false} PreparedOnceHasOneGuard(o: Owner, w: World, ops: seq<Op>, id: Uuid)
    requires Faithful(o.codec) && Untouched(w, o.KeyOf(id)) && PreparedOnce(ops, id)
    ensures OneGuard(Run(o, w, ops), o.KeyOf(id))
    decreases |ops|
  {
    if ops != [] {
      var w' := Step(o, w, ops[0]).0;
      assert forall i :: 0 <= i < |ops[1..]| ==> ops[1..][i] == ops[i + 1];
      if ops[0].Prepare? && ops[0].id == id {
        assert OneGuard(w', o.KeyOf(id));
        RunKeepsOneGuard(o, w', ops[1..], id);
      } else {
        StepKeepsUntouched(o, w, ops[0], id);
        PreparedOnceHasOneGuard(o, w', ops[1..], id);
      }
    }
  }

  /**
   Safety over whole runs: when the execution was prepared once, a verified settlement means that its process
   group is gone, in that state and in every later one without another prepare of it.
   */
  lemma VerifiedMeansGone(o: Owner, start: World, ops: seq<Op>, id: Uuid, readable: bool, same: Option<bool>,
                          io: RemoveIo, later: seq<Op>)
    requires Faithful(o.codec) && Initial(o, start) && ValidRun(o, start, ops)
    requires PreparedOnce(ops, id) && NotPrepared(later, id)
    requires var r := Step(o, Run(o, start, ops), Settle(id, readable, same, io)).1.settled;
             r.Ok? && r.value.cleanupVerified
    ensures !SomeRuns(Run(o, start, ops), o.KeyOf(id))
    ensures !SomeRuns(Run(o, Step(o, Run(o, start, ops), Settle(id, readable, same, io)).0, later), o.KeyOf(id))
  {
    var w, k := Run(o, start, ops), o.KeyOf(id);
    InitialIsOk(o, start);
    RunPreserves(o, start, ops);
    PreparedOnceHasOneGuard(o, start, ops, id);
    SettledGuardsAreSealed(o, w, id, readable, same, io);
    RunKeepsSealed(o, Step(o, w, Settle(id, readable, same, io)).0, later, id);
  }

  lemma SettledGuardsAreSealed(o: Owner, w: World, id: Uuid, readable: bool, same: Option<bool>, io: RemoveIo)
    requires Faithful(o.codec) && Inv(o, w) && OneGuard(w, o.KeyOf(id))
    requires var r := Step(o, w, Settle(id, readable, same, io)).1.settled; r.Ok? && r.value.cleanupVerified
    ensures !SomeRuns(w, o.KeyOf(id)) && AllSealed(o, Step(o, w, Settle(id, readable, same, io)).0, o.KeyOf(id))
  {
    SettlingIsExact(o, w, id, readable, same, io);
    assert Finished(o, w, o.KeyOf(id));
  }

  /**
   When the execution was prepared once, a verified abort finds none of its processes running, removes the
   proof, and is followed by a process exactly if a guard had been launched, lives and has room to start it.
   */
  lemma AbortFindsNoProcess(o: Owner, start: World, ops: seq<Op>, id: Uuid, io: AbortIo)
    requires Faithful(o.codec) && Initial(o, start) && ValidRun(o, start, ops) && PreparedOnce(ops, id)
    requires Step(o, Run(o, start, ops), Abort(id, io)).1 == Aborts(Ok(true))
    ensures var w := Run(o, start, ops);
            var k := o.KeyOf(id);
            && k in w.scope.proofs && w.scope.proofs[k] == o.Header(id)
            && k !in Step(o, w, Abort(id, io)).0.scope.proofs
            && !SomeRuns(w, k)
            && (WillRun(o, Step(o, w, Abort(id, io)).0, id) <==>
                 k in w.owner && w.owner[k] < |w.guards| && !w.guards[w.owner[k]].dead && FrameEnd(o, w.guards[w.owner[k]]) <= PROOF_LIMIT)
  {
    var w, k := Run(o, start, ops), o.KeyOf(id);
    InitialIsOk(o, start);
    RunPreserves(o, start, ops);
    PreparedOnceHasOneGuard(o, start, ops, id);
    AbortedGuardWasStarting(o, w, id, io);
    AbortIsSafeExactly(o, w, id, io);
    if k in w.owner {
      assert w.guards[w.owner[k]].key == k;
    }
  }

  lemma AbortedGuardWasStarting(o: Owner, w: World, id: Uuid, io: AbortIo)
    requires Faithful(o.codec) && Inv(o, w) && OneGuard(w, o.KeyOf(id))
    requires Step(o, w, Abort(id, io)).1 == Aborts(Ok(true))
    ensures var k := o.KeyOf(id);
            && k in w.scope.proofs && w.scope.proofs[k] == o.Header(id) && k !in Step(o, w, Abort(id, io)).0.scope.proofs
            && forall i :: 0 <= i < |w.guards| && w.guards[i].key == k ==> k in w.owner && i == w.owner[k] && w.guards[i].phase.Starting?
  {
    var k := o.KeyOf(id);
    assert ProofOk(o, w, k);
    if k in w.owner {
      var g := w.guards[w.owner[k]];
      ScriptParts(o, g);
      assert |ScriptOf(o, g)[..g.cut]| == |o.Header(id)|;
    }
  }

  // ---- an execution prepared twice ----

  ghost function EmptyWorld(): World {
    World(State(false, map[]), map[], [])
  }

  function Fine(): PrepareIo {
    PrepareIo(Missing, true, true, None, true)
  }

  ghost function LaunchedAndPrepared(o: Owner, id: Uuid, started: Started): World
    requires Faithful(o.codec)
  {
    var g := Guard(o.KeyOf(id), started, Clean(None, Exited), Starting, |o.Header(id)|, false);
    World(State(false, map[]), map[], [g.(cut := FrameEnd(o, g), phase := Running)])
  }

  lemma FirstGuardSurvivesItsAbort(o: Owner, id: Uuid, started: Started)
    requires Faithful(o.codec) && |o.Header(id)| + |Frame(o.codec.started(started))| <= PROOF_LIMIT
    ensures var written := |Frame(o.codec.started(started))|;
            var ops := [Prepare(id, Fine()), Launch(id, started), Abort(id, AbortIo(true, RemoveIo(true, true))), GuardWrites(0, written), GuardSpawns(0)];
            ValidRun(o, EmptyWorld(), ops) && Run(o, EmptyWorld(), ops) == LaunchedAndPrepared(o, id, started)
  {
    var k, w0 := o.KeyOf(id), EmptyWorld();
    var g := Guard(k, started, Clean(None, Exited), Starting, |o.Header(id)|, false);
    var written := |Frame(o.codec.started(started))|;
    var o1, o2, o3 := Prepare(id, Fine()), Launch(id, started), Abort(id, AbortIo(true, RemoveIo(true, true)));
    var o4, o5 := GuardWrites(0, written), GuardSpawns(0);
    var w1 := World(State(false, map[k := o.Header(id)]), map[], []);
    var w2 := World(State(false, map[k := o.Header(id)]), map[k := 0], [g]);
    var w3 := World(State(false, map[]), map[], [g]);
    var w4 := World(State(false, map[]), map[], [g.(cut := FrameEnd(o, g))]);
    assert Step(o, w0, o1).0 == w1;
    assert Step(o, w1, o2).0 == w2;
    assert Step(o, w2, o3).0 == w3 by {
      assert map[k := o.Header(id)] - {k} == map[];
      assert Keep(State(false, map[]), w2).owner == map[];
    }
    assert Step(o, w3, o4).0 == w4;
    assert Step(o, w4, o5).0 == LaunchedAndPrepared(o, id, started);
    RunOfFive(o, w0, o1, o2, o3, o4, o5);
  }

  lemma RunOfOne(o: Owner, w: World, op: Op, rest: seq<Op>)
    requires Faithful(o.codec)
    ensures Run(o, w, [op] + rest) == Run(o, Step(o, w, op).0, rest)
    ensures ValidRun(o, w, [op] + rest) <==> Allowed(w, op) && ValidRun(o, Step(o, w, op).0, rest)
  {
    assert ([op] + rest)[1..] == rest;
  }

  lemma RunOfFive(o: Owner, w: World, o1: Op, o2: Op, o3: Op, o4: Op, o5: Op)
    requires Faithful(o.codec)
    ensures var w1 := Step(o, w, o1).0;
            var w2 := Step(o, w1, o2).0;
            var w3 := Step(o, w2, o3).0;
            var w4 := Step(o, w3, o4).0;
            && Run(o, w, [o1, o2, o3, o4, o5]) == Step(o, w4, o5).0
            && (ValidRun(o, w, [o1, o2, o3, o4, o5]) <==>
                 Allowed(w, o1) && Allowed(w1, o2) && Allowed(w2, o3) && Allowed(w3, o4) && Allowed(w4, o5))
  {
    var w1 := Step(o, w, o1).0;
    var w2 := Step(o, w1, o2).0;
    var w3 := Step(o, w2, o3).0;
    var w4 := Step(o, w3, o4).0;
    RunOfOne(o, w, o1, [o2, o3, o4, o5]);
    RunOfOne(o, w1, o2, [o3, o4, o5]);
    RunOfOne(o, w2, o3, [o4, o5]);
    RunOfOne(o, w3, o4, [o5]);
    RunOfOne(o, w4, o5, []);
    assert [o1] + [o2, o3, o4, o5] == [o1, o2, o3, o4, o5] && [o2] + [o3, o4, o5] == [o2, o3, o4, o5];
    assert [o3] + [o4, o5] == [o3, o4, o5] && [o4] + [o5] == [o4, o5] && [o5] + [] == [o5];
  }

  /**
   Why one prepare: an abort overtakes a launched guard, the guard starts its process after all, and after a
   second prepare of the execution a second abort is answered as verified while that process runs.
   */
  lemma SecondPrepareIsNotCovered(o: Owner, id: Uuid, started: Started)
    requires Faithful(o.codec) && |o.Header(id)| + |Frame(o.codec.started(started))| <= PROOF_LIMIT
    ensures exists ops :: Initial(o, EmptyWorld()) && ValidRun(o, EmptyWorld(), ops)
              && Step(o, Run(o, EmptyWorld(), ops), Abort(id, AbortIo(true, RemoveIo(true, true)))).1 == Aborts(Ok(true))
              && SomeRuns(Run(o, EmptyWorld(), ops), o.KeyOf(id))
  {
    FirstGuardSurvivesItsAbort(o, id, started);
    var first := [Prepare(id, Fine()), Launch(id, started), Abort(id, AbortIo(true, RemoveIo(true, true))),
                  GuardWrites(0, |Frame(o.codec.started(started))|), GuardSpawns(0)];
    var again := Prepare(id, Fine());
    RunAndOneMore(o, EmptyWorld(), first, again);
    var w := LaunchedAndPrepared(o, id, started);
    var w' := Step(o, w, again).0;
    assert w' == w.(scope := State(false, map[o.KeyOf(id) := o.Header(id)]));
    assert w'.guards[0].phase.Running? && w'.guards[0].key == o.KeyOf(id);
    assert Run(o, EmptyWorld(), first + [again]) == w';
  }

  lemma {:induction false} RunAndOneMore(o: Owner, w: World, ops: seq<Op>, op: Op)
    requires Faithful(o.codec)
    ensures Run(o, w, ops + [op]) == Step(o, Run(o, w, ops), op).0
    ensures ValidRun(o, w, ops + [op]) <==> ValidRun(o, w, ops) && Allowed(Run(o, w, ops), op)
    decreases |ops|
  {
    if ops == [] {
      RunOfOne(o, w, op, []);
      assert [] + [op] == [op] + [];
    } else {
      RunAndOneMore(o, Step(o, w, ops[0]).0, ops[1..], op);
      RunOfOne(o, w, ops[0], ops[1..] + [op]);
      assert [ops[0]] + (ops[1..] + [op]) == ops + [op];
    }
  }

  // ---- a settlement that fails ----

  /** A listing of one proof. */
  function OneProof(length: nat): GuardRoot {
    Listed([BootEntry(true, Some([DirectoryEntry(Some("a.proof"), Regular(length))]))])
  }

  lemma OneProofIsHonest(k: Key, bytes: Bytes)
    requires |bytes| <= PROOF_LIMIT
    ensures Honest(OneProof(|bytes|), map[k := bytes]) && Admits(OneProof(|bytes|))
  {
    var entries := [DirectoryEntry(Some("a.proof"), Regular(|bytes|))];
    var boots := [BootEntry(true, Some(entries))];
    assert "a.proof"[1..] == ".proof";
    assert IsProof(entries[0]);
    assert EntryLengths(entries[..0]) == [];
    assert EntryLengths(entries) == [|bytes|];
    assert ProofLengths(boots[..0]) == [];
    assert ProofLengths(boots) == [|bytes|];
    assert Sum([|bytes|][..0]) == 0;
    assert Reports([k], [|bytes|], map[k := bytes]);
  }

  ghost function Launched(o: Owner, id: Uuid, started: Started): World
    requires Faithful(o.codec)
  {
    World(State(false, map[o.KeyOf(id) := o.Header(id)]), map[o.KeyOf(id) := 0],
          [Guard(o.KeyOf(id), started, Clean(None, Exited), Starting, |o.Header(id)|, false)])
  }

  lemma LaunchedIsReached(o: Owner, id: Uuid, started: Started)
    requires Faithful(o.codec)
    ensures var ops := [Prepare(id, Fine()), Launch(id, started)];
            ValidRun(o, EmptyWorld(), ops) && Run(o, EmptyWorld(), ops) == Launched(o, id, started)
  {
    var one, two := Prepare(id, Fine()), Launch(id, started);
    assert Step(o, EmptyWorld(), one).0 == World(State(false, map[o.KeyOf(id) := o.Header(id)]), map[], []);
    RunOfOne(o, EmptyWorld(), one, [two]);
    RunOfOne(o, Step(o, EmptyWorld(), one).0, two, []);
    assert [one] + [two] == [one, two] && [two] + [] == [two];
  }

  lemma UnreadProofOfLaunched(o: Owner, id: Uuid, next: Uuid, started: Started)
    requires Faithful(o.codec) && id != next
    ensures var w := Launched(o, id, started);
            var (w', settles) := Step(o, w, Settle(id, false, None, RemoveIo(true, true)));
            var prepare := Prepare(next, Fine().(root := OneProof(|o.Header(id)|)));
            settles.settled.Err? && Allowed(w', prepare) && Step(o, w', prepare).1 == Prepared(Ok(()))
  {
    var w := Launched(o, id, started);
    assert Keep(w.scope, w) == w;
    assert o.KeyOf(next) != o.KeyOf(id);
    HeaderIsShort(o, id);
    OneProofIsHonest(o.KeyOf(id), o.Header(id));
  }

  /** It happens: an execution is prepared and launched, its proof cannot be read, and the next prepare succeeds. */
  lemma UnreadProofLeavesAdmissionOpen(o: Owner, id: Uuid, next: Uuid, started: Started)
    requires Faithful(o.codec) && id != next
    ensures var ops := [Prepare(id, Fine()), Launch(id, started)];
            var w := Run(o, EmptyWorld(), ops);
            var (w', settles) := Step(o, w, Settle(id, false, None, RemoveIo(true, true)));
            var prepare := Prepare(next, Fine().(root := OneProof(|o.Header(id)|)));
            && Initial(o, EmptyWorld()) && ValidRun(o, EmptyWorld(), ops) && o.KeyOf(id) in w.owner
            && settles.settled.Err? && Allowed(w', prepare) && Step(o, w', prepare).1 == Prepared(Ok(()))
  {
    LaunchedIsReached(o, id, started);
    UnreadProofOfLaunched(o, id, next, started);
  }
}
