/**
 Every run of the proof owner together with the guard processes it launches. A guard writes its start
 frame, spawns the command, cleans the whole process group up and only then writes its clean frame; its
 writes may be cut anywhere and it may die at any point.
 */
module GuardRuns {
  import opened Wrappers
  import opened GuardFrames
  import opened GuardCapacity
  import opened GuardScope

  /** `Running` is the only phase in which the guarded process group may be alive. */
  datatype Phase = Starting | Running | Cleaned

  /** `cut` is how much of its script the guard has written; `clean` has no meaning before `Cleaned`. */
  datatype Guard = Guard(key: Key, started: Started, clean: Clean, phase: Phase, cut: nat, dead: bool)

  /** `owner` names the guard that holds the file a proof path leads to. */
  datatype World = World(scope: State, owner: map<Key, nat>, guards: seq<Guard>)

  datatype Op =
    | Prepare(id: Uuid, prepare: PrepareIo)
    | Launch(id: Uuid, started: Started)
    | GuardWrites(guard: nat, count: nat)
    | GuardSpawns(guard: nat)
    | GuardCleans(guard: nat, clean: Clean)
    | GuardDies(guard: nat)
    | Settle(id: Uuid, readable: bool, same: Option<bool>, remove: RemoveIo)
    | Abort(id: Uuid, abort: AbortIo)

  datatype Outcome =
    | Nothing
    | Prepared(prepared: Result<(), GuardError>)
    | Settles(settled: Result<Settlement, GuardError>)
    | Aborts(aborted: Result<bool, GuardError>)

  ghost function HeaderOf(o: Owner, k: Key): Bytes
    requires Faithful(o.codec)
  {
    o.Header(k.execution)
  }

  ghost function ScriptOf(o: Owner, g: Guard): Bytes
    requires Faithful(o.codec)
  {
    Script(o.codec, o.Identity(g.key.execution), g.started, g.clean)
  }

  /** Where the frame the guard is writing ends. */
  ghost function FrameEnd(o: Owner, g: Guard): nat
    requires Faithful(o.codec)
  {
    if g.phase.Cleaned? then |ScriptOf(o, g)| else |HeaderOf(o, g.key)| + |Frame(o.codec.started(g.started))|
  }

  ghost predicate Holds(w: World, i: nat) {
    i < |w.guards| && w.guards[i].key in w.owner && w.owner[w.guards[i].key] == i
  }

  ghost function Keep(scope: State, w: World): World {
    World(scope, map k | k in w.owner && k in scope.proofs :: w.owner[k], w.guards)
  }

  ghost predicate CanWrite(o: Owner, g: Guard, count: nat)
    requires Faithful(o.codec)
  {
    !g.dead && !g.phase.Running? && g.cut + count <= FrameEnd(o, g) <= PROOF_LIMIT
  }

  ghost function Written(o: Owner, w: World, i: nat, count: nat): World
    requires Faithful(o.codec) && i < |w.guards| && CanWrite(o, w.guards[i], count)
  {
    var g := w.guards[i];
    World(if Holds(w, i) then Arrive(w.scope, g.key, ScriptOf(o, g)[g.cut..g.cut + count]) else w.scope,
          w.owner, w.guards[i := g.(cut := g.cut + count)])
  }

  ghost function Step(o: Owner, w: World, op: Op): (World, Outcome)
    requires Faithful(o.codec)
  {
    match op
    case Prepare(id, io) =>
      var (s, r) := PrepareStep(o, w.scope, id, io);
      (w.(scope := s), Prepared(r))
    case Launch(id, started) =>
      var k := o.KeyOf(id);
      if k in w.scope.proofs && k !in w.owner && w.scope.proofs[k] == o.Header(id) then
        (w.(owner := w.owner[k := |w.guards|],
            guards := w.guards + [Guard(k, started, Clean(None, Exited), Starting, |o.Header(id)|, false)]), Nothing)
      else (w, Nothing)
    case GuardWrites(i, count) =>
      if i < |w.guards| && CanWrite(o, w.guards[i], count) then (Written(o, w, i, count), Nothing)
      else (w, Nothing)
    case GuardSpawns(i) =>
      if i < |w.guards| && !w.guards[i].dead && w.guards[i].phase.Starting? && w.guards[i].cut == FrameEnd(o, w.guards[i])
      then (w.(guards := w.guards[i := w.guards[i].(phase := Running)]), Nothing)
      else (w, Nothing)
    case GuardCleans(i, clean) =>
      if i < |w.guards| && !w.guards[i].dead && w.guards[i].phase.Running?
      then (w.(guards := w.guards[i := w.guards[i].(phase := Cleaned, clean := clean)]), Nothing)
      else (w, Nothing)
    case GuardDies(i) =>
      if i < |w.guards| then (w.(guards := w.guards[i := w.guards[i].(dead := true)]), Nothing) else (w, Nothing)
    case Settle(id, readable, same, io) =>
      var (s, r) := SettleStep(o, w.scope, id, readable, same, io);
      (Keep(s, w), Settles(r))
    case Abort(id, io) =>
      var (s, r) := AbortStep(o, w.scope, id, io);
      (Keep(s, w), Aborts(r))
  }

  /** The one assumption on the environment: a look at the proof tree reports what is there. */
  ghost predicate Allowed(w: World, op: Op) {
    op.Prepare? ==> Honest(op.prepare.root, w.scope.proofs)
  }

  ghost predicate ValidRun(o: Owner, w: World, ops: seq<Op>)
    requires Faithful(o.codec)
    decreases |ops|
  {
    ops != [] ==> Allowed(w, ops[0]) && ValidRun(o, Step(o, w, ops[0]).0, ops[1..])
  }

  ghost function Run(o: Owner, w: World, ops: seq<Op>): World
    requires Faithful(o.codec)
    decreases |ops|
  {
    if ops == [] then w else Run(o, Step(o, w, ops[0]).0, ops[1..])
  }

  /** A fresh owner: no guard yet and no proof of this boot; proofs of earlier boots are within bounds. */
  ghost predicate Initial(o: Owner, w: World) {
    && !w.scope.quarantined && w.owner == map[] && w.guards == []
    && (forall k :: k in w.scope.proofs ==> k.boot != o.boot && |w.scope.proofs[k]| <= PROOF_LIMIT)
    && |w.scope.proofs| <= MAX_PROOF_FILES
  }

  // ---- the invariant ----

  ghost predicate GuardOk(o: Owner, g: Guard)
    requires Faithful(o.codec)
  {
    && g.key.boot == o.boot
    && |HeaderOf(o, g.key)| <= g.cut <= FrameEnd(o, g)
    && g.cut <= PROOF_LIMIT
    && (!g.phase.Starting? ==> g.cut >= |HeaderOf(o, g.key)| + |Frame(o.codec.started(g.started))|)
  }

  ghost predicate ProofOk(o: Owner, w: World, k: Key)
    requires Faithful(o.codec) && k in w.scope.proofs
  {
    && |w.scope.proofs[k]| <= PROOF_LIMIT
    && (k in w.owner ==>
          && w.owner[k] < |w.guards|
          && var g := w.guards[w.owner[k]];
             g.key == k && g.cut <= |ScriptOf(o, g)| && w.scope.proofs[k] == ScriptOf(o, g)[..g.cut])
    && (k.boot == o.boot && k !in w.owner ==> w.scope.proofs[k] <= HeaderOf(o, k))
  }

  ghost predicate Inv(o: Owner, w: World)
    requires Faithful(o.codec)
  {
    && (forall i :: 0 <= i < |w.guards| ==> GuardOk(o, w.guards[i]))
    && (forall k :: k in w.owner ==> k in w.scope.proofs && k.boot == o.boot)
    && (forall k :: k in w.scope.proofs ==> ProofOk(o, w, k))
    && |w.scope.proofs| <= MAX_PROOF_FILES
  }

  lemma HeaderIsShort(o: Owner, id: Uuid)
    requires Faithful(o.codec)
    ensures 4 < |o.Header(id)| <= FRAME_LIMIT + 4 <= PROOF_LIMIT
  {
    assert Payload(o.codec, o.codec.identity(o.Identity(id)));
  }

  lemma ScriptParts(o: Owner, g: Guard)
    requires Faithful(o.codec)
    ensures var start := |HeaderOf(o, g.key)| + |Frame(o.codec.started(g.started))|;
            && start < |ScriptOf(o, g)|
            && |HeaderOf(o, g.key)| < start
            && ScriptOf(o, g)[..|HeaderOf(o, g.key)|] == HeaderOf(o, g.key)
            && forall clean :: ScriptOf(o, g.(clean := clean))[..start] == ScriptOf(o, g)[..start]
  {
    var start := |HeaderOf(o, g.key)| + |Frame(o.codec.started(g.started))|;
    forall clean
      ensures ScriptOf(o, g.(clean := clean))[..start] == HeaderOf(o, g.key) + Frame(o.codec.started(g.started))
    {
    }
    assert g.(clean := g.clean) == g;
  }

  lemma PreparePreserves(o: Owner, w: World, id: Uuid, io: PrepareIo)
    requires Faithful(o.codec) && Inv(o, w) && Honest(io.root, w.scope.proofs)
    ensures Inv(o, Step(o, w, Prepare(id, io)).0)
  {
    HonestGate(io.root, w.scope.proofs);
    HeaderIsShort(o, id);
    var w' := Step(o, w, Prepare(id, io)).0;
    forall k | k in w'.scope.proofs
      ensures ProofOk(o, w', k)
    {
      if k in w.scope.proofs {
        assert ProofOk(o, w, k);
      }
    }
  }

  lemma LaunchPreserves(o: Owner, w: World, id: Uuid, started: Started)
    requires Faithful(o.codec) && Inv(o, w)
    ensures Inv(o, Step(o, w, Launch(id, started)).0)
  {
    var w' := Step(o, w, Launch(id, started)).0;
    HeaderIsShort(o, id);
    if |w'.guards| > |w.guards| {
      ScriptParts(o, w'.guards[|w.guards|]);
      forall k | k in w'.scope.proofs
        ensures ProofOk(o, w', k)
      {
        assert ProofOk(o, w, k);
      }
    }
  }

  /** The proof at `k` after guard `i` became `g` and, if it holds its file, the file followed. */
  lemma ProofFollows(o: Owner, w: World, i: nat, g: Guard, w': World, k: Key)
    requires Faithful(o.codec) && Inv(o, w) && i < |w.guards| && GuardOk(o, g) && g.key == w.guards[i].key
    requires w'.owner == w.owner && w'.guards == w.guards[i := g]
    requires if Holds(w, i) then w'.scope.proofs == w.scope.proofs[g.key := ScriptOf(o, g)[..g.cut]] else w'.scope.proofs == w.scope.proofs
    requires g.cut <= |ScriptOf(o, g)| && k in w'.scope.proofs
    ensures ProofOk(o, w', k)
  {
    assert Holds(w, i) ==> g.key in w.scope.proofs;
    assert ProofOk(o, w, k);
    if k in w.owner && w.owner[k] != i {
      assert w.guards[i := g][w.owner[k]] == w.guards[w.owner[k]];
      assert w'.scope.proofs[k] == w.scope.proofs[k];
    }
  }

  lemma GuardPreserves(o: Owner, w: World, i: nat, g: Guard, w': World)
    requires Faithful(o.codec) && Inv(o, w) && i < |w.guards| && GuardOk(o, g) && g.key == w.guards[i].key
    requires w'.owner == w.owner && w'.guards == w.guards[i := g]
    requires if Holds(w, i) then w'.scope.proofs == w.scope.proofs[g.key := ScriptOf(o, g)[..g.cut]] else w'.scope.proofs == w.scope.proofs
    requires g.cut <= |ScriptOf(o, g)|
    ensures Inv(o, w')
  {
    assert Holds(w, i) ==> g.key in w.scope.proofs;
    assert w'.scope.proofs.Keys == w.scope.proofs.Keys;
    assert |w'.scope.proofs| == |w.scope.proofs| by {
      assert |w'.scope.proofs.Keys| == |w'.scope.proofs| && |w.scope.proofs.Keys| == |w.scope.proofs|;
    }
    forall k | k in w'.scope.proofs
      ensures ProofOk(o, w', k)
    {
      ProofFollows(o, w, i, g, w', k);
    }
  }

  /** What a guard appends to a prefix of its script is the longer prefix. */
  lemma WriteExtends(script: Bytes, cut: nat, count: nat)
    requires cut + count <= |script|
    ensures script[..cut] + script[cut..cut + count] == script[..cut + count]
  {
  }

  lemma WriterIsOk(o: Owner, g: Guard, count: nat)
    requires Faithful(o.codec) && GuardOk(o, g) && CanWrite(o, g, count)
    ensures var g' := g.(cut := g.cut + count);
            GuardOk(o, g') && ScriptOf(o, g') == ScriptOf(o, g) && g'.cut <= |ScriptOf(o, g)|
  {
    ScriptParts(o, g);
  }

  lemma WriteFollows(o: Owner, w: World, i: nat, count: nat)
    requires Faithful(o.codec) && Inv(o, w) && Holds(w, i) && w.guards[i].cut + count <= |ScriptOf(o, w.guards[i])|
    ensures var g := w.guards[i];
            Arrive(w.scope, g.key, ScriptOf(o, g)[g.cut..g.cut + count]).proofs
            == w.scope.proofs[g.key := ScriptOf(o, g)[..g.cut + count]]
  {
    var g := w.guards[i];
    assert ProofOk(o, w, g.key);
    WriteExtends(ScriptOf(o, g), g.cut, count);
  }

  lemma WrittenFollows(o: Owner, w: World, i: nat, count: nat)
    requires Faithful(o.codec) && Inv(o, w) && i < |w.guards| && CanWrite(o, w.guards[i], count)
    ensures var g := w.guards[i].(cut := w.guards[i].cut + count);
            var scope := Written(o, w, i, count).scope;
            && GuardOk(o, g) && g.cut <= |ScriptOf(o, g)|
            && if Holds(w, i) then scope.proofs == w.scope.proofs[g.key := ScriptOf(o, g)[..g.cut]] else scope.proofs == w.scope.proofs
  {
    WriterIsOk(o, w.guards[i], count);
    if Holds(w, i) {
      WriteFollows(o, w, i, count);
    }
  }

  lemma WrittenIsOk(o: Owner, w: World, i: nat, count: nat)
    requires Faithful(o.codec) && Inv(o, w) && i < |w.guards| && CanWrite(o, w.guards[i], count)
    ensures Inv(o, Written(o, w, i, count))
  {
    WrittenFollows(o, w, i, count);
    GuardPreserves(o, w, i, w.guards[i].(cut := w.guards[i].cut + count), Written(o, w, i, count));
  }

  lemma PhasePreserves(o: Owner, w: World, i: nat, g: Guard)
    requires Faithful(o.codec) && Inv(o, w) && i < |w.guards|
    requires g.key == w.guards[i].key && g.started == w.guards[i].started && g.cut == w.guards[i].cut && GuardOk(o, g)
    requires g.clean == w.guards[i].clean || g.cut <= |HeaderOf(o, g.key)| + |Frame(o.codec.started(g.started))|
    ensures Inv(o, w.(guards := w.guards[i := g]))
  {
    ScriptParts(o, w.guards[i]);
    ScriptParts(o, g);
    var before := w.guards[i];
    var start := |HeaderOf(o, g.key)| + |Frame(o.codec.started(g.started))|;
    if g.clean != before.clean {
      assert ScriptOf(o, g) == ScriptOf(o, before.(clean := g.clean));
      assert ScriptOf(o, g)[..g.cut] == ScriptOf(o, g)[..start][..g.cut] == ScriptOf(o, before)[..g.cut];
    } else {
      assert ScriptOf(o, g) == ScriptOf(o, before);
    }
    if Holds(w, i) {
      assert ProofOk(o, w, g.key);
      assert w.scope.proofs[g.key := ScriptOf(o, g)[..g.cut]] == w.scope.proofs;
    }
    GuardPreserves(o, w, i, g, w.(guards := w.guards[i := g]));
  }

  lemma RemovalPreserves(o: Owner, w: World, scope: State, k: Key)
    requires Faithful(o.codec) && Inv(o, w)
    requires scope.proofs == w.scope.proofs || scope.proofs == w.scope.proofs - {k}
    ensures Inv(o, Keep(scope, w))
  {
    var w' := Keep(scope, w);
    forall x | x in scope.proofs
      ensures ProofOk(o, w', x)
    {
      assert ProofOk(o, w, x);
    }
  }

  lemma PhaseStepPreserves(o: Owner, w: World, i: nat, clean: Clean)
    requires Faithful(o.codec) && Inv(o, w) && i < |w.guards|
    ensures Inv(o, Step(o, w, GuardSpawns(i)).0)
    ensures Inv(o, Step(o, w, GuardCleans(i, clean)).0)
    ensures Inv(o, Step(o, w, GuardDies(i)).0)
  {
    var g := w.guards[i];
    PhasePreserves(o, w, i, g.(dead := true));
    if !g.dead && g.phase.Starting? && g.cut == FrameEnd(o, g) {
      PhasePreserves(o, w, i, g.(phase := Running));
    }
    if !g.dead && g.phase.Running? {
      ScriptParts(o, g.(phase := Cleaned, clean := clean));
      PhasePreserves(o, w, i, g.(phase := Cleaned, clean := clean));
    }
  }

  lemma SettleRemovesOne(o: Owner, s: State, id: Uuid, readable: bool, same: Option<bool>, io: RemoveIo)
    requires Faithful(o.codec)
    ensures var t := SettleStep(o, s, id, readable, same, io).0;
            t.proofs == s.proofs || t.proofs == s.proofs - {o.KeyOf(id)}
  {
  }

  lemma AbortRemovesOne(o: Owner, s: State, id: Uuid, io: AbortIo)
    requires Faithful(o.codec)
    ensures var t := AbortStep(o, s, id, io).0;
            t.proofs == s.proofs || t.proofs == s.proofs - {o.KeyOf(id)}
  {
  }

  lemma SettlePreserves(o: Owner, w: World, id: Uuid, readable: bool, same: Option<bool>, io: RemoveIo)
    requires Faithful(o.codec) && Inv(o, w)
    ensures Inv(o, Step(o, w, Settle(id, readable, same, io)).0)
  {
    SettleRemovesOne(o, w.scope, id, readable, same, io);
    RemovalPreserves(o, w, SettleStep(o, w.scope, id, readable, same, io).0, o.KeyOf(id));
  }

  lemma AbortPreserves(o: Owner, w: World, id: Uuid, io: AbortIo)
    requires Faithful(o.codec) && Inv(o, w)
    ensures Inv(o, Step(o, w, Abort(id, io)).0)
  {
    AbortRemovesOne(o, w.scope, id, io);
    RemovalPreserves(o, w, AbortStep(o, w.scope, id, io).0, o.KeyOf(id));
  }

  lemma StepPreserves(o: Owner, w: World, op: Op)
    requires Faithful(o.codec) && Inv(o, w) && Allowed(w, op)
    ensures Inv(o, Step(o, w, op).0)
  {
    match op {
      case Prepare(id, io) => PreparePreserves(o, w, id, io);
      case Launch(id, started) => LaunchPreserves(o, w, id, started);
      case GuardWrites(i, count) =>
        if i < |w.guards| && CanWrite(o, w.guards[i], count) {
          WrittenIsOk(o, w, i, count);
        }
      case GuardSpawns(i) =>
        if i < |w.guards| {
          PhaseStepPreserves(o, w, i, Clean(None, Exited));
        }
      case GuardCleans(i, clean) =>
        if i < |w.guards| {
          PhaseStepPreserves(o, w, i, clean);
        }
      case GuardDies(i) =>
        if i < |w.guards| {
          PhaseStepPreserves(o, w, i, Clean(None, Exited));
        }
      case Settle(id, readable, same, io) => SettlePreserves(o, w, id, readable, same, io);
      case Abort(id, io) => AbortPreserves(o, w, id, io);
    }
  }

  lemma {:induction false} RunPreserves(o: Owner, w: World, ops: seq<Op>)
    requires Faithful(o.codec) && Inv(o, w) && ValidRun(o, w, ops)
    ensures Inv(o, Run(o, w, ops))
    decreases |ops|
  {
    if ops != [] {
      StepPreserves(o, w, ops[0]);
      RunPreserves(o, Step(o, w, ops[0]).0, ops[1..]);
    }
  }

  lemma InitialIsOk(o: Owner, w: World)
    requires Faithful(o.codec) && Initial(o, w)
    ensures Inv(o, w)
  {
  }

  // ---- capacity ----

  /** In every run the proofs stay within both bounds, although admitted proofs keep growing. */
  lemma CapacityHolds(o: Owner, start: World, ops: seq<Op>)
    requires Faithful(o.codec) && Initial(o, start) && ValidRun(o, start, ops)
    ensures var proofs := Run(o, start, ops).scope.proofs;
            && |proofs| <= 384
            && Total(proofs) <= 1_572_864
            && forall k :: k in proofs ==> |proofs[k]| <= 4_096
  {
    InitialIsOk(o, start);
    RunPreserves(o, start, ops);
    var w := Run(o, start, ops);
    forall k | k in w.scope.proofs
      ensures |w.scope.proofs[k]| <= PROOF_LIMIT
    {
      assert ProofOk(o, w, k);
    }
    TotalBound(w.scope.proofs, PROOF_LIMIT);
  }

  // ---- settlement ----

  /** The guard of this proof has cleaned its process group up and said so in full. */
  ghost predicate Finished(o: Owner, w: World, k: Key)
    requires Faithful(o.codec)
  {
    && k in w.owner && w.owner[k] < |w.guards|
    && var g := w.guards[w.owner[k]];
       g.phase.Cleaned? && g.cut == |ScriptOf(o, g)|
  }

  lemma VerdictIsTrue(o: Owner, w: World, id: Uuid, same: Option<bool>)
    requires Faithful(o.codec) && Inv(o, w)
    ensures var k := o.KeyOf(id);
            var verdict := Verdict(o, w.scope, id, same);
            && (Finished(o, w, k) ==> verdict == Ok(Settled(Some(w.guards[w.owner[k]].clean))))
            && (!Finished(o, w, k) ==> verdict.Ok? ==> !verdict.value.Settled?)
  {
    var k := o.KeyOf(id);
    if k !in w.scope.proofs {
      assert Content(w.scope, k) == [];
    } else {
      assert ProofOk(o, w, k);
      if k in w.owner {
        var g := w.guards[w.owner[k]];
        ScriptParts(o, g);
        OnlyTheWholeScriptIsClean(o.codec, o.Identity(id), g.started, g.clean, g.cut, same);
      } else {
        var g := Guard(k, Started(0, 0), Clean(None, Exited), Starting, 0, false);
        ScriptParts(o, g);
        var bytes := w.scope.proofs[k];
        assert ScriptOf(o, g)[..|bytes|] == HeaderOf(o, k)[..|bytes|] == bytes;
        OnlyTheWholeScriptIsClean(o.codec, o.Identity(id), g.started, g.clean, |bytes|, same);
      }
    }
  }

  lemma SettlingIsExact(o: Owner, w: World, id: Uuid, readable: bool, same: Option<bool>, io: RemoveIo)
    requires Faithful(o.codec) && Inv(o, w)
    ensures var k := o.KeyOf(id);
            var (s, settled) := SettleStep(o, w.scope, id, readable, same, io);
            && ((settled.Ok? && settled.value.cleanupVerified) <==> readable && io.removed && io.synced && Finished(o, w, k))
            && (settled.Ok? && settled.value.cleanupVerified ==>
                  && w.guards[w.owner[k]].key == k && k !in s.proofs
                  && settled.value == Settlement(true, w.guards[w.owner[k]].clean.shellExitCode, Some(w.guards[w.owner[k]].clean.cause)))
  {
    VerdictIsTrue(o, w, id, same);
    if Finished(o, w, o.KeyOf(id)) {
      assert ProofOk(o, w, o.KeyOf(id));
    }
  }

  /**
   Settlement is exact: with the proof readable and removable it reports verified cleanup if and only if
   the guard finished, with the exit code and cause that guard recorded, and it never does otherwise.
   */
  lemma SettlementIsExact(o: Owner, start: World, ops: seq<Op>, id: Uuid, readable: bool, same: Option<bool>, io: RemoveIo)
    requires Faithful(o.codec) && Initial(o, start) && ValidRun(o, start, ops)
    ensures var w := Run(o, start, ops);
            var k := o.KeyOf(id);
            var (w', outcome) := Step(o, w, Settle(id, readable, same, io));
            && ((outcome.settled.Ok? && outcome.settled.value.cleanupVerified)
                <==> readable && io.removed && io.synced && Finished(o, w, k))
            && (outcome.settled.Ok? && outcome.settled.value.cleanupVerified ==>
                  var g := w.guards[w.owner[k]];
                  g.key == k && k !in w'.scope.proofs
                  && outcome.settled.value == Settlement(true, g.clean.shellExitCode, Some(g.clean.cause)))
  {
    InitialIsOk(o, start);
    RunPreserves(o, start, ops);
    SettlingIsExact(o, Run(o, start, ops), id, readable, same, io);
  }

  lemma {:induction false} CleanedStays(o: Owner, w: World, ops: seq<Op>, i: nat)
    requires Faithful(o.codec) && i < |w.guards| && w.guards[i].phase.Cleaned?
    ensures var w' := Run(o, w, ops); i < |w'.guards| && w'.guards[i].phase.Cleaned? && w'.guards[i].key == w.guards[i].key
    decreases |ops|
  {
    if ops != [] {
      CleanedStays(o, Step(o, w, ops[0]).0, ops[1..], i);
    }
  }

  /** After a verified settlement the guard that held the proof has cleaned its process group up, then and ever after. */
  lemma SettledGuardIsGone(o: Owner, start: World, ops: seq<Op>, id: Uuid, readable: bool, same: Option<bool>,
                           io: RemoveIo, later: seq<Op>)
    requires Faithful(o.codec) && Initial(o, start) && ValidRun(o, start, ops)
    requires var r := Step(o, Run(o, start, ops), Settle(id, readable, same, io)).1.settled;
             r.Ok? && r.value.cleanupVerified
    ensures var w := Run(o, start, ops);
            o.KeyOf(id) in w.owner &&
            var i := w.owner[o.KeyOf(id)];
            var after := Run(o, Step(o, w, Settle(id, readable, same, io)).0, later);
            i < |after.guards| && after.guards[i].key == o.KeyOf(id) && !after.guards[i].phase.Running?
  {
    SettlementIsExact(o, start, ops, id, readable, same, io);
    var w := Run(o, start, ops);
    CleanedStays(o, Step(o, w, Settle(id, readable, same, io)).0, later, w.owner[o.KeyOf(id)]);
  }

  // ---- quarantine ----

  lemma {:induction false} QuarantineStays(o: Owner, w: World, ops: seq<Op>)
    requires Faithful(o.codec) && w.scope.quarantined
    ensures Run(o, w, ops).scope.quarantined
    decreases |ops|
  {
    if ops != [] {
      QuarantineStays(o, Step(o, w, ops[0]).0, ops[1..]);
    }
  }

  /** An unverified settlement closes admission for good: every later prepare is rejected. */
  lemma UnverifiedClosesAdmission(o: Owner, w: World, id: Uuid, readable: bool, same: Option<bool>, io: RemoveIo,
                                  later: seq<Op>, next: Uuid, prepare: PrepareIo)
    requires Faithful(o.codec)
    requires var r := Step(o, w, Settle(id, readable, same, io)).1.settled; r.Ok? && !r.value.cleanupVerified
    ensures var after := Run(o, Step(o, w, Settle(id, readable, same, io)).0, later);
            Step(o, after, Prepare(next, prepare)) == (after, Prepared(Err(ResourceLimit)))
  {
    QuarantineStays(o, Step(o, w, Settle(id, readable, same, io)).0, later);
  }

  /** The guard of this proof has recorded its start, and nothing after it. */
  ghost predicate StartedOnly(o: Owner, w: World, k: Key)
    requires Faithful(o.codec)
  {
    && k in w.owner && w.owner[k] < |w.guards|
    && var g := w.guards[w.owner[k]];
       g.cut == |HeaderOf(o, g.key)| + |Frame(o.codec.started(g.started))|
  }

  lemma VerdictErrsExactly(o: Owner, w: World, id: Uuid, same: Option<bool>)
    requires Faithful(o.codec) && Inv(o, w)
    ensures Verdict(o, w.scope, id, same).Err? <==> StartedOnly(o, w, o.KeyOf(id)) && same.None?
  {
    var k := o.KeyOf(id);
    if k !in w.scope.proofs {
      assert Content(w.scope, k) == [];
    } else {
      assert ProofOk(o, w, k);
      if k in w.owner {
        var g := w.guards[w.owner[k]];
        ScriptParts(o, g);
        OnlyTheStartAsksTheProcessTable(o.codec, o.Identity(id), g.started, g.clean, g.cut, same);
      } else {
        var g := Guard(k, Started(0, 0), Clean(None, Exited), Starting, 0, false);
        ScriptParts(o, g);
        var bytes := w.scope.proofs[k];
        assert ScriptOf(o, g)[..|bytes|] == HeaderOf(o, k)[..|bytes|] == bytes;
        OnlyTheStartAsksTheProcessTable(o.codec, o.Identity(id), g.started, g.clean, |bytes|, same);
      }
    }
  }

  /** What makes a settlement end in an error: the proof, the process table or the removal. */
  ghost predicate SettleFails(o: Owner, w: World, k: Key, readable: bool, same: Option<bool>, io: RemoveIo)
    requires Faithful(o.codec)
  {
    || !readable
    || (StartedOnly(o, w, k) && same.None?)
    || (Finished(o, w, k) && !(io.removed && io.synced))
  }

  /**
   A settlement quarantines exactly when the proof and, if it is asked, the process table could be read and
   the guard had not finished. When it ends in an error, exactly as `SettleFails` says, it does not.
   */
  lemma SettlementQuarantinesExactly(o: Owner, w: World, id: Uuid, readable: bool, same: Option<bool>, io: RemoveIo)
    requires Faithful(o.codec) && Inv(o, w)
    ensures var k := o.KeyOf(id);
            var (w', outcome) := Step(o, w, Settle(id, readable, same, io));
            && (w'.scope.quarantined <==>
                 w.scope.quarantined || (readable && !Finished(o, w, k) && !(StartedOnly(o, w, k) && same.None?)))
            && (outcome.settled.Err? <==> SettleFails(o, w, k, readable, same, io))
  {
    var k := o.KeyOf(id);
    VerdictIsTrue(o, w, id, same);
    VerdictErrsExactly(o, w, id, same);
    QuarantineExactly(o, w.scope, id, readable, same, io);
    if Finished(o, w, k) {
      assert ProofOk(o, w, k);
      ScriptParts(o, w.guards[w.owner[k]]);
    }
  }

  /**
   A failed settlement tells its caller that cleanup is unverified, and the next prepare is still decided by
   the capacity gate alone.
   */
  lemma ErrorLeavesAdmissionOpen(o: Owner, w: World, id: Uuid, readable: bool, same: Option<bool>, io: RemoveIo,
                                 next: Uuid, prepare: PrepareIo)
    requires Faithful(o.codec) && Inv(o, w) && !w.scope.quarantined
    requires SettleFails(o, w, o.KeyOf(id), readable, same, io)
    ensures var (w', outcome) := Step(o, w, Settle(id, readable, same, io));
            && outcome.settled.Err?
            && (Step(o, w', Prepare(next, prepare)).1 == Prepared(Err(ResourceLimit)) <==> !Admits(prepare.root))
  {
    SettlementQuarantinesExactly(o, w, id, readable, same, io);
  }

  // ---- abort ----

  ghost predicate NoGuardFrom(w: World, n: nat, k: Key) {
    forall i :: n <= i < |w.guards| ==> w.guards[i].key != k
  }

  lemma {:induction false} NoLaunchWithoutPrepare(o: Owner, w: World, later: seq<Op>, id: Uuid, n: nat)
    requires Faithful(o.codec) && o.KeyOf(id) !in w.scope.proofs && NoGuardFrom(w, n, o.KeyOf(id))
    requires o.KeyOf(id) !in w.owner
    requires forall i :: 0 <= i < |later| ==> !(later[i].Prepare? && later[i].id == id)
    ensures NoGuardFrom(Run(o, w, later), n, o.KeyOf(id))
    decreases |later|
  {
    if later != [] {
      var w' := Step(o, w, later[0]).0;
      assert o.KeyOf(id) !in w'.scope.proofs;
      assert forall i :: 0 <= i < |later[1..]| ==> later[1..][i] == later[i + 1];
      NoLaunchWithoutPrepare(o, w', later[1..], id, n);
    }
  }

  /** After a verified abort no new guard of that execution appears until it is prepared again. */
  lemma AbortEndsTheProof(o: Owner, w: World, id: Uuid, io: AbortIo, later: seq<Op>)
    requires Faithful(o.codec)
    requires Step(o, w, Abort(id, io)).1 == Aborts(Ok(true))
    requires forall i :: 0 <= i < |later| ==> !(later[i].Prepare? && later[i].id == id)
    ensures NoGuardFrom(Run(o, Step(o, w, Abort(id, io)).0, later), |w.guards|, o.KeyOf(id))
  {
    NoLaunchWithoutPrepare(o, Step(o, w, Abort(id, io)).0, later, id, |w.guards|);
  }
}
