/**
 The owner of the guard proofs of one Runtime instance: it prepares a proof before a guard starts and
 settles or aborts it afterwards. Outcomes of the file system, the clock and the process table are
 arguments of each operation.
 */
module GuardScope {
  import opened Wrappers
  import opened GuardFrames
  import opened GuardCapacity

  const SETTLE_MS: nat := 5_000

  /** The App host and the root daemon run the same protocol; they differ in `Abort` on a missing proof. */
  datatype Edition = App | Root

  datatype Owner = Owner(edition: Edition, codec: Codec, epoch: Uuid, instance: Uuid, boot: Uuid) {
    function Identity(id: Uuid): Identity {
      GuardFrames.Identity.Identity(epoch, instance, id, boot)
    }

    function KeyOf(id: Uuid): Key {
      Key(boot, id)
    }

    ghost function Header(id: Uuid): Bytes
      requires Faithful(codec)
    {
      Frame(codec.identity(Identity(id)))
    }
  }

  datatype State = State(quarantined: bool, proofs: map<Key, Bytes>)

  datatype Settlement = Settlement(cleanupVerified: bool, shellExitCode: Option<int>, cause: Option<Cause>)

  /** `headerCut` is `None` when the header reached the disk, else the bytes written before the failure. */
  datatype PrepareIo = PrepareIo(root: GuardRoot, directoryReady: bool, created: bool,
                                 headerCut: Option<nat>, removed: bool)
  datatype RemoveIo = RemoveIo(removed: bool, synced: bool)
  datatype Poll = Poll(arrived: Bytes, readable: bool, same: Option<bool>, now: nat)
  datatype AbortIo = AbortIo(readable: bool, remove: RemoveIo)

  // ---- what each operation does to the state ----

  ghost function PrepareStep(o: Owner, s: State, id: Uuid, io: PrepareIo): (State, Result<(), GuardError>)
    requires Faithful(o.codec)
  {
    if s.quarantined || !Admits(io.root) then (s, Err(ResourceLimit))
    else if !io.directoryReady || !io.created || o.KeyOf(id) in s.proofs then (s, Err(IoError))
    else
      match io.headerCut
      case None => (s.(proofs := s.proofs[o.KeyOf(id) := o.Header(id)]), Ok(()))
      case Some(cut) =>
        var partial := if cut <= |o.Header(id)| then o.Header(id)[..cut] else o.Header(id);
        (if io.removed then s else s.(proofs := s.proofs[o.KeyOf(id) := partial]), Err(IoError))
  }

  /** `read_proof`: an oversized proof is reported as unreadable zeros, a missing one as nothing. */
  function Content(s: State, k: Key): Bytes {
    if k !in s.proofs then []
    else if |s.proofs[k]| > PROOF_LIMIT then seq(PROOF_LIMIT + 1, _ => 0)
    else s.proofs[k]
  }

  function Verdict(o: Owner, s: State, id: Uuid, same: Option<bool>): Result<Recovery, GuardError> {
    Classify(o.codec, o.boot, o.boot, o.Identity(id), Content(s, o.KeyOf(id)), same)
  }

  function Without(s: State, k: Key): State {
    s.(proofs := s.proofs - {k})
  }

  /** The end of one settlement: the poll whose verdict is taken, and the removal that may follow. */
  function SettleStep(o: Owner, s: State, id: Uuid, readable: bool, same: Option<bool>, io: RemoveIo)
    : (State, Result<Settlement, GuardError>)
  {
    if !readable || Verdict(o, s, id, same).Err? then (s, Err(IoError))
    else
      match Verdict(o, s, id, same).value
      case Settled(Some(clean)) =>
        if !io.removed then (s, Err(IoError))
        else if !io.synced then (Without(s, o.KeyOf(id)), Err(IoError))
        else (Without(s, o.KeyOf(id)), Ok(Settlement(true, clean.shellExitCode, Some(clean.cause))))
      case _ => (s.(quarantined := true), Ok(Settlement(false, None, None)))
  }

  ghost function AbortStep(o: Owner, s: State, id: Uuid, io: AbortIo): (State, Result<bool, GuardError>)
    requires Faithful(o.codec)
  {
    if o.KeyOf(id) !in s.proofs then (s, if o.edition.Root? then Ok(false) else Err(IoError))
    else if !io.readable then (s, Err(IoError))
    else if s.proofs[o.KeyOf(id)] != o.Header(id) then (s, Ok(false))
    else if !io.remove.removed then (s, Err(IoError))
    else if !io.remove.synced then (Without(s, o.KeyOf(id)), Err(IoError))
    else (Without(s, o.KeyOf(id)), Ok(true))
  }

  /** What the guard appended to the proof during `polls`. */
  function Arrived(polls: seq<Poll>): Bytes {
    if polls == [] then [] else Arrived(polls[..|polls| - 1]) + polls[|polls| - 1].arrived
  }

  function Arrive(s: State, k: Key, bytes: Bytes): State {
    if k in s.proofs then s.(proofs := s.proofs[k := s.proofs[k] + bytes]) else s
  }

  /** The settle loop goes on: the proof was read, is not clean yet, and the deadline has not passed. */
  predicate KeepsPolling(o: Owner, s: State, id: Uuid, poll: Poll, deadline: nat) {
    && poll.readable
    && Verdict(o, s, id, poll.same).Ok?
    && !Verdict(o, s, id, poll.same).value.Settled?
    && poll.now < deadline
  }

  ghost predicate WaitedThrough(o: Owner, s: State, id: Uuid, polls: seq<Poll>, n: nat, deadline: nat)
    requires n <= |polls|
  {
    forall i :: 0 <= i < n ==>
      KeepsPolling(o, Arrive(s, o.KeyOf(id), Arrived(polls[..i + 1])), id, polls[i], deadline)
  }

  class GuardScope {
    const owner: Owner
    var quarantined: bool
    var proofs: map<Key, Bytes>

    ghost function Now(): State
      reads this
    {
      State(quarantined, proofs)
    }

    constructor (owner: Owner, proofs: map<Key, Bytes>)
      ensures this.owner == owner && Now() == State(false, proofs)
    {
      this.owner := owner;
      this.proofs := proofs;
      quarantined := false;
    }

    method Prepare(id: Uuid, io: PrepareIo) returns (result: Result<(), GuardError>)
      requires Faithful(owner.codec)
      modifies this
      ensures (Now(), result) == PrepareStep(owner, old(Now()), id, io)
    {
      var available := CapacityAvailable(io.root);
      if quarantined || !available {
        return Err(ResourceLimit);
      }
      if !io.directoryReady {
        return Err(IoError);
      }
      var encoded := EncodeGuardFrame(owner.codec.identity(owner.Identity(id)));
      var header := encoded.value;
      var key := owner.KeyOf(id);
      if !io.created || key in proofs {
        return Err(IoError);
      }
      if io.headerCut.Some? {
        var cut := io.headerCut.value;
        var partial := if cut <= |header| then header[..cut] else header;
        if !io.removed {
          proofs := proofs[key := partial];
        }
        return Err(IoError);
      }
      proofs := proofs[key := header];
      return Ok(());
    }

    /** `polled` is the poll whose verdict was taken; the guard keeps writing until then. */
    method Settle(id: Uuid, start: nat, polls: seq<Poll>, io: RemoveIo)
      returns (result: Result<Settlement, GuardError>, polled: nat)
      requires exists i :: 0 <= i < |polls| && polls[i].now >= start + SETTLE_MS
      modifies this
      ensures polled < |polls|
      ensures WaitedThrough(owner, old(Now()), id, polls, polled, start + SETTLE_MS)
      ensures var s := Arrive(old(Now()), owner.KeyOf(id), Arrived(polls[..polled + 1]));
              && (Now(), result) == SettleStep(owner, s, id, polls[polled].readable, polls[polled].same, io)
              && !KeepsPolling(owner, s, id, polls[polled], start + SETTLE_MS)
    {
      ghost var before := Now();
      var key := owner.KeyOf(id);
      var deadline := start + SETTLE_MS;
      var recovery := Unverified;
      polled := 0;
      assert Arrive(before, key, Arrived(polls[..0])) == before by {
        if key in before.proofs {
          assert before.proofs[key] + [] == before.proofs[key];
        }
      }
      while true
        invariant polled < |polls|
        invariant exists i :: polled <= i < |polls| && polls[i].now >= deadline
        invariant Now() == Arrive(before, key, Arrived(polls[..polled]))
        invariant WaitedThrough(owner, before, id, polls, polled, deadline)
        decreases |polls| - polled
      {
        var observed, again := Observe(id, polls[polled], deadline);
        ArriveAgain(before, key, polls, polled);
        if observed.Err? {
          return Err(IoError), polled;
        }
        recovery := observed.value;
        if !again {
          break;
        }
        WaitLonger(owner, before, id, polls, polled, deadline);
        polled := polled + 1;
      }
      result := Conclude(id, polls[polled].same, recovery, io);
    }

    /** One look at the proof, after whatever the guard appended since the last one. */
    method Observe(id: Uuid, poll: Poll, deadline: nat)
      returns (observed: Result<Recovery, GuardError>, again: bool)
      modifies this`proofs
      ensures Now() == Arrive(old(Now()), owner.KeyOf(id), poll.arrived)
      ensures observed.Err? ==>
                forall io :: SettleStep(owner, Now(), id, poll.readable, poll.same, io) == (Now(), Err(IoError))
      ensures observed.Ok? ==> poll.readable && observed == Verdict(owner, Now(), id, poll.same)
      ensures again == KeepsPolling(owner, Now(), id, poll, deadline)
      ensures again ==> observed.Ok?
    {
      var key := owner.KeyOf(id);
      if key in proofs {
        proofs := proofs[key := proofs[key] + poll.arrived];
      }
      if !poll.readable {
        return Err(IoError), false;
      }
      observed := Verdict(owner, State(quarantined, proofs), id, poll.same);
      again := observed.Ok? && !observed.value.Settled? && poll.now < deadline;
    }

    /** The settlement once its verdict is known. */
    method Conclude(id: Uuid, ghost same: Option<bool>, recovery: Recovery, io: RemoveIo)
      returns (result: Result<Settlement, GuardError>)
      requires Verdict(owner, Now(), id, same) == Ok(recovery)
      modifies this
      ensures (Now(), result) == SettleStep(owner, old(Now()), id, true, same, io)
    {
      if recovery.Settled? && recovery.clean.Some? {
        var clean := recovery.clean.value;
        if !io.removed {
          return Err(IoError);
        }
        proofs := proofs - {owner.KeyOf(id)};
        if !io.synced {
          return Err(IoError);
        }
        return Ok(Settlement(true, clean.shellExitCode, Some(clean.cause)));
      }
      quarantined := true;
      return Ok(Settlement(false, None, None));
    }

    method Abort(id: Uuid, io: AbortIo) returns (result: Result<bool, GuardError>)
      requires Faithful(owner.codec)
      modifies this
      ensures (Now(), result) == AbortStep(owner, old(Now()), id, io)
    {
      var key := owner.KeyOf(id);
      if key !in proofs {
        return if owner.edition.Root? then Ok(false) else Err(IoError);
      }
      if !io.readable {
        return Err(IoError);
      }
      var encoded := EncodeGuardFrame(owner.codec.identity(owner.Identity(id)));
      var header := encoded.value;
      if proofs[key] != header {
        return Ok(false);
      }
      if !io.remove.removed {
        return Err(IoError);
      }
      proofs := proofs - {key};
      if !io.remove.synced {
        return Err(IoError);
      }
      return Ok(true);
    }

    /** Whether a failure before the start is reported with verified cleanup. */
    method Unstarted(id: Uuid, abort: AbortIo, start: nat, polls: seq<Poll>, io: RemoveIo) returns (verified: bool)
      requires Faithful(owner.codec)
      requires exists i :: 0 <= i < |polls| && polls[i].now >= start + SETTLE_MS
      modifies this
      ensures var (s, aborted) := AbortStep(owner, old(Now()), id, abort);
              if aborted == Ok(true) then verified && Now() == s
              else exists n: nat | n < |polls| && WaitedThrough(owner, s, id, polls, n, start + SETTLE_MS) ::
                var seen := Arrive(s, owner.KeyOf(id), Arrived(polls[..n + 1]));
                var (t, settled) := SettleStep(owner, seen, id, polls[n].readable, polls[n].same, io);
                && !KeepsPolling(owner, seen, id, polls[n], start + SETTLE_MS)
                && Now() == t && verified == (settled.Ok? && settled.value.cleanupVerified)
    {
      var aborted := Abort(id, abort);
      if aborted == Ok(true) {
        return true;
      }
      var settled, polled := Settle(id, start, polls, io);
      verified := settled.Ok? && settled.value.cleanupVerified;
    }
  }

  lemma ArriveAgain(s: State, k: Key, polls: seq<Poll>, n: nat)
    requires n < |polls|
    ensures Arrive(Arrive(s, k, Arrived(polls[..n])), k, polls[n].arrived) == Arrive(s, k, Arrived(polls[..n + 1]))
  {
    assert polls[..n + 1][..n] == polls[..n];
    if k in s.proofs {
      assert s.proofs[k] + Arrived(polls[..n]) + polls[n].arrived == s.proofs[k] + Arrived(polls[..n + 1]);
    }
  }

  lemma WaitLonger(o: Owner, s: State, id: Uuid, polls: seq<Poll>, n: nat, deadline: nat)
    requires n < |polls| && WaitedThrough(o, s, id, polls, n, deadline)
    requires KeepsPolling(o, Arrive(s, o.KeyOf(id), Arrived(polls[..n + 1])), id, polls[n], deadline)
    ensures WaitedThrough(o, s, id, polls, n + 1, deadline)
  {
  }

  // ---- one settlement or abort ----

  /**
   A verified result leaves no proof of that execution and comes from bytes that decode to exactly the
   identity of this instance, a start, and the clean frame whose facts are reported.
   */
  lemma VerifiedSettlement(o: Owner, s: State, id: Uuid, readable: bool, same: Option<bool>, io: RemoveIo)
    ensures var (t, result) := SettleStep(o, s, id, readable, same, io);
            result.Ok? && result.value.cleanupVerified ==>
              && o.KeyOf(id) in s.proofs && o.KeyOf(id) !in t.proofs
              && t.quarantined == s.quarantined
              && (forall k :: k != o.KeyOf(id) ==> (k in t.proofs <==> k in s.proofs) && (k in t.proofs ==> t.proofs[k] == s.proofs[k]))
              && exists frames :: Decode(o.codec, s.proofs[o.KeyOf(id)]) == Some(frames) && |frames| == 3
                                  && o.codec.readIdentity(frames[0]) == Some(o.Identity(id))
                                  && o.codec.readStarted(frames[1]).Some?
                                  && o.codec.readClean(frames[2]) == Some(Clean(result.value.shellExitCode, result.value.cause.value))
                                  && result.value.cause.Some?
  {
    var (t, result) := SettleStep(o, s, id, readable, same, io);
    if result.Ok? && result.value.cleanupVerified {
      assert Content(s, o.KeyOf(id)) != [];
      assert Content(s, o.KeyOf(id)) == s.proofs[o.KeyOf(id)];
      var frames := Decode(o.codec, s.proofs[o.KeyOf(id)]).value;
      assert |frames| == 3;
    }
  }

  /**
   Quarantine is set by exactly the settlements that answer with unverified cleanup. A settlement that
   ends in an error reports unverified cleanup to its caller too, and does not quarantine.
   */
  lemma QuarantineExactly(o: Owner, s: State, id: Uuid, readable: bool, same: Option<bool>, io: RemoveIo)
    ensures var (t, result) := SettleStep(o, s, id, readable, same, io);
            t.quarantined <==> s.quarantined || (result.Ok? && !result.value.cleanupVerified)
  {
  }

  /**
   A proof is prepared exactly if there is room and no quarantine, and its file can be made and written; then it is
   the bare header. Otherwise nothing changes, but for a part of a header that could neither be written nor removed.
   */
  lemma PreparedExactly(o: Owner, s: State, id: Uuid, io: PrepareIo)
    requires Faithful(o.codec)
    ensures var (t, result) := PrepareStep(o, s, id, io);
            var writes := !s.quarantined && Admits(io.root) && io.directoryReady && io.created && o.KeyOf(id) !in s.proofs;
            && (result == Ok(()) <==> writes && io.headerCut.None?)
            && (result == Err(ResourceLimit) <==> s.quarantined || !Admits(io.root))
            && (result.Ok? || result == Err(ResourceLimit) || result == Err(IoError))
            && t.quarantined == s.quarantined
            && (result.Ok? ==> t.proofs == s.proofs[o.KeyOf(id) := o.Header(id)])
            && (result.Err? ==> if writes && !io.removed then PartOfHeader(o, s, t, id, io) else t == s)
  {
  }

  /** What is left is the part of the header that was written before the failure. */
  ghost predicate PartOfHeader(o: Owner, s: State, t: State, id: Uuid, io: PrepareIo)
    requires Faithful(o.codec)
  {
    && o.KeyOf(id) in t.proofs && t.proofs[o.KeyOf(id)] <= o.Header(id)
    && (io.headerCut.Some? ==>
          |t.proofs[o.KeyOf(id)]| == if io.headerCut.value <= |o.Header(id)| then io.headerCut.value else |o.Header(id)|)
    && t.proofs - {o.KeyOf(id)} == s.proofs - {o.KeyOf(id)}
  }

  /** A settlement removes the proof exactly if it was read as clean and the removal went through, synced or not. */
  lemma SettlementRemovesExactly(o: Owner, s: State, id: Uuid, readable: bool, same: Option<bool>, io: RemoveIo)
    ensures var (t, result) := SettleStep(o, s, id, readable, same, io);
            var clean := readable && Verdict(o, s, id, same).Ok? && Verdict(o, s, id, same).value.Settled?
                         && Verdict(o, s, id, same).value.clean.Some?;
            && t.proofs == (if clean && io.removed then s.proofs - {o.KeyOf(id)} else s.proofs)
            && (result.Ok? && result.value.cleanupVerified <==> clean && io.removed && io.synced)
            && (result.Err? ==> result == Err(IoError) && t.quarantined == s.quarantined)
            && (result.Ok? && !result.value.cleanupVerified ==> result.value == Settlement(false, None, None) && t.quarantined)
  {
  }

  /** An abort is verified exactly if the proof is still the bare header and is removed for good. */
  lemma AbortedExactly(o: Owner, s: State, id: Uuid, io: AbortIo)
    requires Faithful(o.codec)
    ensures var (t, result) := AbortStep(o, s, id, io);
            var bare := o.KeyOf(id) in s.proofs && io.readable && s.proofs[o.KeyOf(id)] == o.Header(id);
            && (result == Ok(true) <==> bare && io.remove.removed && io.remove.synced)
            && (result == Ok(false) <==>
                 if o.KeyOf(id) in s.proofs then io.readable && !bare else o.edition.Root?)
            && (result.Err? ==> result == Err(IoError))
            && t == if bare && io.remove.removed then Without(s, o.KeyOf(id)) else s
  {
  }
}
