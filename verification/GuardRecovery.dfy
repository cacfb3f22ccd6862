/**
 Carrying out a recovery plan: the proofs of guards that ended cleanly are removed, one record after the other.
 Boots, executions and tasks are known by numbers. Which file operations succeed is a parameter.
 */
module GuardRecovery {
  import opened Wrappers

  datatype Verdict = Clean | Live | Unverified
  datatype Finalization = Blocked | RemoveProof | CleanupTaskAndRemoveProof

  datatype Record = Record(task: Option<nat>, execution: nat, boot: Option<nat>, recovery: Verdict, finalization: Finalization)

  datatype File = Proof(execution: nat) | Other(name: string)

  /** Which operations succeed: by record for its task, its proof and its directory's sync; by boot for the rest. */
  datatype Io = Io(cleans: nat -> bool, removes: nat -> bool, syncs: nat -> bool, lists: nat -> bool, clears: nat -> bool, rootSyncs: bool)

  type Directories = map<nat, set<File>>

  predicate AllClean(plan: seq<Record>) {
    forall k :: 0 <= k < |plan| ==> plan[k].recovery.Clean?
  }

  predicate Present(dirs: Directories, boot: nat, file: File) {
    boot in dirs && file in dirs[boot]
  }

  /** The record allows its proof to be removed, and its task's leftovers, if it has to clear them, are cleared. */
  predicate Entitled(record: Record, boot: nat, file: File, cleaned: set<nat>) {
    && record.boot == Some(boot) && file == Proof(record.execution) && !record.finalization.Blocked?
    && (record.finalization.CleanupTaskAndRemoveProof? ==> record.task.Some? && record.task.value in cleaned)
  }

  /** Nothing has appeared, and nothing has gone but proofs that some record was entitled to remove. */
  predicate OnlyEntitled(before: Directories, after: Directories, plan: seq<Record>, cleaned: set<nat>) {
    && (forall boot, file | boot in after && file in after[boot] :: Present(before, boot, file))
    && forall boot, file | boot in before && file in before[boot] ::
         Present(after, boot, file) || exists k :: 0 <= k < |plan| && Entitled(plan[k], boot, file, cleaned)
  }

  /** The record was finalized: its proof is gone and its directory is noted. */
  predicate Finalized(record: Record, dirs: Directories, touched: seq<nat>, cleaned: set<nat>) {
    && record.boot.Some? && Entitled(record, record.boot.value, Proof(record.execution), cleaned)
    && !Present(dirs, record.boot.value, Proof(record.execution)) && record.boot.value in touched
  }

  /** The record is finalized exactly when every operation it needs succeeds. */
  predicate CanFinalize(record: Record, k: nat, dirs: Directories, io: Io) {
    && !record.finalization.Blocked?
    && (record.finalization.CleanupTaskAndRemoveProof? ==> record.task.Some? && io.cleans(k))
    && record.boot.Some? && record.boot.value in dirs && io.syncs(k)
    && (Present(dirs, record.boot.value, Proof(record.execution)) ==> io.removes(k))
  }

  /** Carrying out the record clears its task's leftovers. */
  predicate Clears(record: Record, k: nat, io: Io) {
    record.finalization.CleanupTaskAndRemoveProof? && record.task.Some? && io.cleans(k)
  }

  /** Carrying out the record removes the file, if it is there: it allows it, and the removal succeeds. */
  predicate Takes(record: Record, k: nat, boot: nat, file: File, io: Io) {
    && record.boot == Some(boot) && file == Proof(record.execution) && !record.finalization.Blocked? && io.removes(k)
    && (record.finalization.CleanupTaskAndRemoveProof? ==> record.task.Some? && io.cleans(k))
  }

  /** Exactly the files that one of the first `n` records takes are gone. */
  ghost predicate Carried(before: Directories, after: Directories, plan: seq<Record>, n: nat, io: Io)
    requires n <= |plan|
  {
    forall boot, file | boot in before && file in before[boot] ::
      Present(after, boot, file) <==> forall k :: 0 <= k < n ==> !Takes(plan[k], k, boot, file, io)
  }

  ghost predicate ClearedBy(plan: seq<Record>, n: nat, task: nat, io: Io)
    requires n <= |plan|
  {
    exists k :: 0 <= k < n && Clears(plan[k], k, io) && plan[k].task.value == task
  }

  lemma CarriedOn(before: Directories, mid: Directories, after: Directories, plan: seq<Record>, n: nat, io: Io)
    requires n < |plan| && Carried(before, mid, plan, n, io) && before.Keys == mid.Keys
    requires forall boot, file | boot in after && file in after[boot] :: Present(mid, boot, file)
    requires forall boot, file | boot in mid && file in mid[boot] :: Present(after, boot, file) <==> !Takes(plan[n], n, boot, file, io)
    ensures Carried(before, after, plan, n + 1, io)
  {
  }

  lemma EntitledThrough(before: Directories, mid: Directories, after: Directories, plan: seq<Record>, k: nat, early: set<nat>, late: set<nat>)
    requires k < |plan| && early <= late
    requires OnlyEntitled(before, mid, plan, early) && OnlyEntitled(mid, after, [plan[k]], late)
    ensures OnlyEntitled(before, after, plan, late)
  {
    forall boot, file | boot in before && file in before[boot] && !Present(after, boot, file)
      ensures exists i :: 0 <= i < |plan| && Entitled(plan[i], boot, file, late)
    {
      if Present(mid, boot, file) {
        assert Entitled(plan[k], boot, file, late);
      } else {
        var i :| 0 <= i < |plan| && Entitled(plan[i], boot, file, early);
        assert Entitled(plan[i], boot, file, late);
      }
    }
  }

  class Mechanics {
    var dirs: Directories
    var cleaned: set<nat>
    var touched: seq<nat>

    /** A directory is noted once, and only while it exists. */
    predicate Valid()
      reads this
    {
      && (forall i, j :: 0 <= i < j < |touched| ==> touched[i] != touched[j])
      && forall b :: b in touched ==> b in dirs
    }

    constructor (dirs: Directories)
      ensures Valid() && this.dirs == dirs && cleaned == {} && touched == []
    {
      this.dirs, cleaned, touched := dirs, {}, [];
    }

    method Finalize(record: Record, k: nat, io: Io) returns (ok: bool)
      requires Valid()
      modifies this
      ensures Valid()
      ensures ok <==> CanFinalize(record, k, old(dirs), io)
      ensures old(cleaned) <= cleaned && OnlyEntitled(old(dirs), dirs, [record], cleaned)
      ensures dirs.Keys == old(dirs).Keys
      ensures forall boot, file | boot in old(dirs) && file in old(dirs)[boot] ::
                Present(dirs, boot, file) <==> !Takes(record, k, boot, file, io)
      ensures cleaned == old(cleaned) + if Clears(record, k, io) then {record.task.value} else {}
      ensures ok ==> Finalized(record, dirs, touched, cleaned)
      ensures forall b :: b in old(touched) ==> b in touched
      ensures forall b :: b in touched ==> b in old(touched) || record.boot == Some(b)
    {
      match record.finalization {
        case Blocked => return false;
        case CleanupTaskAndRemoveProof =>
          if record.task.None? || !io.cleans(k) {
            return false;
          }
          cleaned := cleaned + {record.task.value};
        case RemoveProof =>
      }
      if record.boot.None? {
        return false;
      }
      var boot := record.boot.value;
      if Present(dirs, boot, Proof(record.execution)) {
        if !io.removes(k) {
          return false;
        }
        assert Entitled([record][0], boot, Proof(record.execution), cleaned);
        dirs := dirs[boot := dirs[boot] - {Proof(record.execution)}];
      }
      if boot !in dirs || !io.syncs(k) {
        return false;
      }
      if boot !in touched {
        touched := touched + [boot];
      }
      return true;
    }

    /** Directories that became empty are removed. */
    method Finish(hadRecords: bool, io: Io) returns (ok: bool)
      requires Valid()
      modifies this
      ensures Valid() && cleaned == old(cleaned) && touched == []
      ensures forall b :: b in dirs <==> b in old(dirs) && !(b in old(touched) && old(dirs)[b] == {} && io.lists(b) && io.clears(b))
      ensures forall b :: b in dirs ==> dirs[b] == old(dirs)[b]
      ensures ok <==>
                && (hadRecords ==> io.rootSyncs)
                && forall b :: b in old(touched) ==> io.lists(b) && (old(dirs)[b] == {} ==> io.clears(b))
    {
      var failed := false;
      ghost var done: set<nat> := {};
      while touched != []
        invariant forall i, j :: 0 <= i < j < |touched| ==> touched[i] != touched[j]
        invariant forall b :: b in old(touched) <==> b in touched || b in done
        invariant forall b :: b in touched ==> b !in done && b in dirs
        invariant forall b :: b in dirs <==> b in old(dirs) && !(b in done && old(dirs)[b] == {} && io.lists(b) && io.clears(b))
        invariant forall b :: b in dirs ==> dirs[b] == old(dirs)[b]
        invariant cleaned == old(cleaned)
        invariant failed <==> exists b :: b in done && !(io.lists(b) && (old(dirs)[b] == {} ==> io.clears(b)))
        decreases |touched|
      {
        assert touched == [touched[0]] + touched[1..];
        var boot := touched[0];
        touched := touched[1..];
        done := done + {boot};
        if io.lists(boot) {
          if dirs[boot] == {} {
            if io.clears(boot) {
              dirs := dirs - {boot};
            } else {
              failed := true;
            }
          }
        } else {
          failed := true;
        }
      }
      if hadRecords && !io.rootSyncs {
        failed := true;
      }
      return !failed;
    }

    /**
     Nothing is done unless every guard of the plan ended cleanly. Whatever fails after that, nothing but the
     proofs of records that allow it is removed, and a task's leftovers are cleared before its proof goes.
     Every record is carried out, whatever failed before it. Verification means that every proof of the plan is
     gone and no directory of theirs was left empty.
     */
    method Execute(plan: seq<Record>, io: Io) returns (verified: bool)
      requires Valid() && touched == []
      modifies this
      ensures !AllClean(plan) ==> !verified && dirs == old(dirs) && cleaned == old(cleaned)
      ensures OnlyEntitled(old(dirs), dirs, plan, cleaned)
      ensures verified ==> AllClean(plan) && forall k {:trigger plan[k]} :: 0 <= k < |plan| ==> Retired(plan[k], dirs, cleaned)
      ensures AllClean(plan) && Unhindered(plan, old(dirs), io) ==> verified
      ensures AllClean(plan) ==> Carried(old(dirs), dirs, plan, |plan|, io)
      ensures AllClean(plan) ==> forall t :: t in cleaned <==> t in old(cleaned) || ClearedBy(plan, |plan|, t, io)
    {
      if exists k :: 0 <= k < |plan| && !plan[k].recovery.Clean? {
        return false;
      }
      ghost var before := dirs;
      var failed := false;
      for k := 0 to |plan|
        invariant Valid() && dirs.Keys == before.Keys
        invariant OnlyEntitled(before, dirs, plan, cleaned)
        invariant !failed ==> forall i :: 0 <= i < k ==> Finalized(plan[i], dirs, touched, cleaned)
        invariant failed ==> !Unhindered(plan, before, io)
        invariant Carried(before, dirs, plan, k, io)
        invariant forall t :: t in cleaned <==> t in old(cleaned) || ClearedBy(plan, k, t, io)
        invariant forall b :: b in touched ==> exists i :: 0 <= i < k && plan[i].boot == Some(b)
      {
        ghost var mid, early, held := dirs, cleaned, touched;
        if plan[k].finalization.Blocked? {
          failed := true;
        } else {
          var ok := Finalize(plan[k], k, io);
          if !ok {
            failed := true;
          }
          EntitledThrough(before, mid, dirs, plan, k, early, cleaned);
          CarriedOn(before, mid, dirs, plan, k, io);
          forall i | 0 <= i < k && Finalized(plan[i], mid, held, early)
            ensures Finalized(plan[i], dirs, touched, cleaned)
          {
            StillFinalized(plan[i], plan[k], mid, held, early, dirs, touched, cleaned);
          }
        }
      }
      ghost var mid, held := dirs, touched;
      var finished := Finish(plan != [], io);
      assert OnlyEntitled(before, dirs, plan, cleaned);
      return !failed && finished;
    }
  }

  /** Every operation the plan needs succeeds, whatever the order. */
  predicate Unhindered(plan: seq<Record>, dirs: Directories, io: Io) {
    && (plan != [] ==> io.rootSyncs)
    && forall k :: 0 <= k < |plan| ==>
         && !plan[k].finalization.Blocked?
         && (plan[k].finalization.CleanupTaskAndRemoveProof? ==> plan[k].task.Some? && io.cleans(k))
         && plan[k].boot.Some? && plan[k].boot.value in dirs && io.syncs(k) && io.removes(k)
         && io.lists(plan[k].boot.value) && io.clears(plan[k].boot.value)
  }

  /** The record's proof is gone, its task's leftovers are cleared if they had to be, and no empty directory is left. */
  predicate Retired(record: Record, dirs: Directories, cleaned: set<nat>) {
    && record.boot.Some? && Entitled(record, record.boot.value, Proof(record.execution), cleaned)
    && !Present(dirs, record.boot.value, Proof(record.execution))
    && (record.boot.value in dirs ==> dirs[record.boot.value] != {})
  }

  lemma StillFinalized(record: Record, other: Record, mid: Directories, held: seq<nat>, early: set<nat>,
                       dirs: Directories, touched: seq<nat>, cleaned: set<nat>)
    requires Finalized(record, mid, held, early) && early <= cleaned && (forall b :: b in held ==> b in touched)
    requires OnlyEntitled(mid, dirs, [other], cleaned)
    ensures Finalized(record, dirs, touched, cleaned)
  {
  }
}
