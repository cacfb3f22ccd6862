/** The admission gate over every guard proof on disk, of this boot and of earlier ones. */
module GuardCapacity {
  import opened Wrappers
  import opened GuardFrames

  const MAX_PROOF_FILES: nat := 384
  const MAX_PROOF_BYTES: nat := 1_572_864
  const USIZE_MAX: nat := 0xFFFF_FFFF_FFFF_FFFF

  datatype Key = Key(boot: Uuid, execution: Uuid)

  // ---- one observation of the directory tree; `None` and `Unreadable` are I/O failures ----

  datatype FileKind = Regular(length: nat) | NotRegular | Unstattable
  datatype DirectoryEntry = DirectoryEntry(name: Option<string>, kind: FileKind)
  datatype BootEntry = BootEntry(isDirectory: bool, entries: Option<seq<DirectoryEntry>>)
  datatype GuardRoot = Missing | Unreadable | Listed(boots: seq<BootEntry>)

  predicate IsProof(entry: DirectoryEntry) {
    entry.name.Some? && |entry.name.value| >= 6 && entry.name.value[|entry.name.value| - 6..] == ".proof"
  }

  predicate EntryReadable(entry: DirectoryEntry) {
    entry.name.Some? && (IsProof(entry) ==> entry.kind.Regular?)
  }

  predicate BootReadable(boot: BootEntry) {
    boot.isDirectory && boot.entries.Some? &&
    forall i :: 0 <= i < |boot.entries.value| ==> EntryReadable(boot.entries.value[i])
  }

  predicate Readable(boots: seq<BootEntry>) {
    forall i :: 0 <= i < |boots| ==> BootReadable(boots[i])
  }

  /** The lengths of the proofs among `entries`, in directory order. */
  ghost function EntryLengths(entries: seq<DirectoryEntry>): seq<nat>
    requires forall i :: 0 <= i < |entries| ==> EntryReadable(entries[i])
  {
    if entries == [] then []
    else
      var last := entries[|entries| - 1];
      assert EntryReadable(last);
      EntryLengths(entries[..|entries| - 1]) + if IsProof(last) then [last.kind.length] else []
  }

  ghost function ProofLengths(boots: seq<BootEntry>): seq<nat>
    requires Readable(boots)
  {
    if boots == [] then []
    else ProofLengths(boots[..|boots| - 1]) + EntryLengths(boots[|boots| - 1].entries.value)
  }

  ghost function Sum(lengths: seq<nat>): nat {
    if lengths == [] then 0 else Sum(lengths[..|lengths| - 1]) + lengths[|lengths| - 1]
  }

  lemma SumAppend(a: seq<nat>, b: seq<nat>)
    ensures Sum(a + b) == Sum(a) + Sum(b)
  {
    if b == [] {
      assert a + b == a;
    } else {
      assert (a + b)[..|a + b| - 1] == a + b[..|b| - 1];
      SumAppend(a, b[..|b| - 1]);
    }
  }

  /** The gate: another proof of the full size still fits. */
  ghost predicate Admits(root: GuardRoot) {
    match root
    case Missing => true
    case Unreadable => false
    case Listed(boots) =>
      Readable(boots) &&
      |ProofLengths(boots)| < MAX_PROOF_FILES &&
      Sum(ProofLengths(boots)) + PROOF_LIMIT <= MAX_PROOF_BYTES
  }

  /** Adds the proofs of one boot directory to the running totals; `None` rejects the whole tree. */
  method CountBoot(boot: BootEntry, startCount: nat, startBytes: nat) returns (totals: Option<(nat, nat)>)
    requires startCount <= USIZE_MAX && startBytes <= USIZE_MAX
    ensures totals.Some? <==>
              BootReadable(boot) &&
              startCount + |EntryLengths(boot.entries.value)| <= USIZE_MAX &&
              startBytes + Sum(EntryLengths(boot.entries.value)) <= USIZE_MAX
    ensures totals.Some? ==>
              totals.value == (startCount + |EntryLengths(boot.entries.value)|, startBytes + Sum(EntryLengths(boot.entries.value)))
  {
    if !boot.isDirectory || boot.entries.None? {
      return None;
    }
    var entries := boot.entries.value;
    var count, bytes := startCount, startBytes;
    for e := 0 to |entries|
      invariant forall i :: 0 <= i < e ==> EntryReadable(entries[i])
      invariant count == startCount + |EntryLengths(entries[..e])| <= USIZE_MAX
      invariant bytes == startBytes + Sum(EntryLengths(entries[..e])) <= USIZE_MAX
    {
      assert entries[..e + 1][..e] == entries[..e];
      if entries[e].name.None? {
        assert !EntryReadable(entries[e]);
        return None;
      }
      if !IsProof(entries[e]) {
        assert EntryLengths(entries[..e + 1]) == EntryLengths(entries[..e]);
        continue;
      }
      if !entries[e].kind.Regular? {
        assert !EntryReadable(entries[e]);
        return None;
      }
      SumAppend(EntryLengths(entries[..e]), [entries[e].kind.length]);
      count := count + 1;
      bytes := bytes + entries[e].kind.length;
      if count > USIZE_MAX || bytes > USIZE_MAX {
        if BootReadable(boot) {
          PartOfEntries(entries, e + 1);
        }
        return None;
      }
    }
    assert entries[..|entries|] == entries;
    return Some((count, bytes));
  }

  method CapacityAvailable(root: GuardRoot) returns (available: bool)
    ensures available == Admits(root)
  {
    if root.Missing? {
      return true;
    }
    if root.Unreadable? {
      return false;
    }
    var boots := root.boots;
    var count, bytes := 0, 0;
    for b := 0 to |boots|
      invariant Readable(boots[..b])
      invariant count == |ProofLengths(boots[..b])| <= USIZE_MAX
      invariant bytes == Sum(ProofLengths(boots[..b])) <= USIZE_MAX
    {
      assert boots[..b + 1][..b] == boots[..b];
      var totals := CountBoot(boots[b], count, bytes);
      if BootReadable(boots[b]) {
        SumAppend(ProofLengths(boots[..b]), EntryLengths(boots[b].entries.value));
      }
      if totals.None? {
        if Readable(boots) {
          PartOfBoots(boots, b + 1);
        }
        return false;
      }
      count, bytes := totals.value.0, totals.value.1;
    }
    assert boots[..|boots|] == boots;
    available := count < MAX_PROOF_FILES && bytes + PROOF_LIMIT <= MAX_PROOF_BYTES;
  }

  /** A partial count is a lower bound of the whole one, so an overflowing tree is never admitted. */
  lemma PartOfEntries(entries: seq<DirectoryEntry>, e: nat)
    requires e <= |entries| && forall i :: 0 <= i < |entries| ==> EntryReadable(entries[i])
    ensures |EntryLengths(entries)| >= |EntryLengths(entries[..e])|
    ensures Sum(EntryLengths(entries)) >= Sum(EntryLengths(entries[..e]))
    decreases |entries|
  {
    if e == |entries| {
      assert entries[..e] == entries;
    } else {
      var last := |entries| - 1;
      assert EntryReadable(entries[last]);
      SumAppend(EntryLengths(entries[..last]), if IsProof(entries[last]) then [entries[last].kind.length] else []);
      assert entries[..last][..e] == entries[..e];
      PartOfEntries(entries[..last], e);
    }
  }

  lemma PartOfBoots(boots: seq<BootEntry>, b: nat)
    requires b <= |boots| && Readable(boots)
    ensures |ProofLengths(boots)| >= |ProofLengths(boots[..b])|
    ensures Sum(ProofLengths(boots)) >= Sum(ProofLengths(boots[..b]))
    decreases |boots|
  {
    if b == |boots| {
      assert boots[..b] == boots;
    } else {
      var last := |boots| - 1;
      SumAppend(ProofLengths(boots[..last]), EntryLengths(boots[last].entries.value));
      assert boots[..last][..b] == boots[..b];
      PartOfBoots(boots[..last], b);
    }
  }

  // ---- the tree as a map from proof to bytes ----

  ghost function Total(proofs: map<Key, Bytes>): nat
    decreases |proofs|
  {
    if proofs == map[] then 0
    else
      var k :| k in proofs;
      |proofs[k]| + Total(proofs - {k})
  }

  lemma {:induction false} TotalOf(proofs: map<Key, Bytes>, k: Key)
    requires k in proofs
    ensures Total(proofs) == |proofs[k]| + Total(proofs - {k})
    decreases |proofs|
  {
    var picked :| picked in proofs && Total(proofs) == |proofs[picked]| + Total(proofs - {picked});
    if picked != k {
      TotalOf(proofs - {picked}, k);
      TotalOf(proofs - {k}, picked);
      assert proofs - {picked} - {k} == proofs - {k} - {picked};
    }
  }

  lemma {:induction false} TotalBound(proofs: map<Key, Bytes>, each: nat)
    requires forall k :: k in proofs ==> |proofs[k]| <= each
    ensures Total(proofs) <= |proofs| * each
    decreases |proofs|
  {
    if proofs != map[] {
      var k :| k in proofs && Total(proofs) == |proofs[k]| + Total(proofs - {k});
      TotalBound(proofs - {k}, each);
      assert |proofs| * each == (|proofs| - 1) * each + each;
    }
  }

  /** What a successful look at the tree reports: every proof once, with its length. */
  ghost predicate Reports(keys: seq<Key>, lengths: seq<nat>, proofs: map<Key, Bytes>) {
    && |keys| == |lengths|
    && (forall i, j :: 0 <= i < j < |keys| ==> keys[i] != keys[j])
    && (forall k :: k in keys <==> k in proofs)
    && (forall i :: 0 <= i < |keys| ==> keys[i] in proofs && lengths[i] == |proofs[keys[i]]|)
  }

  ghost predicate Honest(root: GuardRoot, proofs: map<Key, Bytes>) {
    match root
    case Missing => proofs == map[]
    case Unreadable => true
    case Listed(boots) => Readable(boots) ==> exists keys :: Reports(keys, ProofLengths(boots), proofs)
  }

  lemma ReportsDropLast(keys: seq<Key>, lengths: seq<nat>, proofs: map<Key, Bytes>)
    requires keys != [] && Reports(keys, lengths, proofs)
    ensures var n := |keys| - 1; Reports(keys[..n], lengths[..n], proofs - {keys[n]})
  {
    var n := |keys| - 1;
    forall x
      ensures x in keys[..n] <==> x in proofs - {keys[n]}
    {
      if x in keys && x != keys[n] {
        var i :| 0 <= i < |keys| && keys[i] == x;
        assert keys[..n][i] == x;
      }
    }
  }

  lemma {:induction false} ReportsTotal(keys: seq<Key>, lengths: seq<nat>, proofs: map<Key, Bytes>)
    requires Reports(keys, lengths, proofs)
    ensures |lengths| == |proofs| && Sum(lengths) == Total(proofs)
    decreases |keys|
  {
    if keys == [] {
      assert forall k :: k in proofs ==> k in keys;
      assert proofs == map[];
    } else {
      var n := |keys| - 1;
      ReportsDropLast(keys, lengths, proofs);
      ReportsTotal(keys[..n], lengths[..n], proofs - {keys[n]});
      assert keys[n] in proofs;
      TotalOf(proofs, keys[n]);
    }
  }

  /** On an honest look the gate admits exactly when the proofs themselves leave room. */
  lemma HonestGate(root: GuardRoot, proofs: map<Key, Bytes>)
    requires Honest(root, proofs)
    ensures Admits(root) ==> |proofs| < 384 && Total(proofs) + 4_096 <= 1_572_864
    ensures root.Missing? || (root.Listed? && Readable(root.boots)) ==>
              (Admits(root) <==> |proofs| < 384 && Total(proofs) + 4_096 <= 1_572_864)
  {
    if root.Listed? && Readable(root.boots) {
      var keys :| Reports(keys, ProofLengths(root.boots), proofs);
      ReportsTotal(keys, ProofLengths(root.boots), proofs);
    }
  }
}
