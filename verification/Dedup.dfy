/** The retained-request index: at most one admission per request id within the retention window. */
module Dedup {
  import opened Wrappers

  const MAX_RETAINED_REQUESTS: nat := 4096
  const REQUEST_RETENTION_MS: nat := 86_400_000
  const U64_MAX: nat := 0xFFFF_FFFF_FFFF_FFFF

  type U64 = n: int | 0 <= n <= U64_MAX

  datatype Retained = Retained(requestId: nat, payload: string, expiresAt: Option<U64>)
  datatype Decision = Admit | Replay | BypassForTaskCancel
  datatype DedupError = InvalidHash | DifferentContent | CapacityFull | NotRetained | TimeExhausted

  predicate ValidHash(payload: string) {
    |payload| == 64 && forall i :: 0 <= i < |payload| ==> '0' <= payload[i] <= '9' || 'a' <= payload[i] <= 'f'
  }

  /** Bytes in lower-case hexadecimal. */
  function HexText(bytes: seq<nat>): string
    requires forall i :: 0 <= i < |bytes| ==> bytes[i] < 256
  {
    if bytes == [] then "" else [HexDigit(bytes[0] / 16), HexDigit(bytes[0] % 16)] + HexText(bytes[1..])
  }

  function HexDigit(d: nat): char
    requires d < 16
  {
    "0123456789abcdef"[d]
  }

  function HexValue(c: char): (d: nat)
    requires '0' <= c <= '9' || 'a' <= c <= 'f'
    ensures d < 16 && HexDigit(d) == c
  {
    if c <= '9' then (c - '0') as nat else (c - 'a') as nat + 10
  }

  predicate LowerHex(text: string) {
    forall i :: 0 <= i < |text| ==> '0' <= text[i] <= '9' || 'a' <= text[i] <= 'f'
  }

  lemma {:induction false} HexTextIsHex(bytes: seq<nat>)
    requires forall i :: 0 <= i < |bytes| ==> bytes[i] < 256
    ensures |HexText(bytes)| == 2 * |bytes| && LowerHex(HexText(bytes))
    decreases |bytes|
  {
    if bytes != [] {
      HexTextIsHex(bytes[1..]);
    }
  }

  lemma {:induction false} HexIsHexText(text: string) returns (bytes: seq<nat>)
    requires |text| % 2 == 0 && LowerHex(text)
    ensures 2 * |bytes| == |text| && (forall i :: 0 <= i < |bytes| ==> bytes[i] < 256) && HexText(bytes) == text
    decreases |text|
  {
    if text == "" {
      bytes := [];
    } else {
      var rest := HexIsHexText(text[2..]);
      var high, low := HexValue(text[0]), HexValue(text[1]);
      bytes := [high * 16 + low] + rest;
      assert bytes[1..] == rest;
      assert bytes[0] / 16 == high && bytes[0] % 16 == low;
      assert text == [text[0], text[1]] + text[2..];
    }
  }

  /** A hash is valid exactly if it spells the 32 bytes of a SHA-256 digest in lower-case hexadecimal. */
  lemma HashSpellsADigest(payload: string)
    ensures ValidHash(payload) <==>
              exists bytes: seq<nat> :: |bytes| == 32 && (forall i :: 0 <= i < 32 ==> bytes[i] < 256) && HexText(bytes) == payload
  {
    if ValidHash(payload) {
      var bytes := HexIsHexText(payload);
    }
    forall bytes: seq<nat> | |bytes| == 32 && (forall i :: 0 <= i < 32 ==> bytes[i] < 256) && HexText(bytes) == payload
      ensures ValidHash(payload)
    {
      HexTextIsHex(bytes);
    }
  }

  predicate Unexpired(entry: Retained, now: U64) {
    entry.expiresAt.None? || entry.expiresAt.value > now
  }

  function Purge(entries: seq<Retained>, now: U64): seq<Retained> {
    if entries == [] then []
    else (if Unexpired(entries[0], now) then [entries[0]] else []) + Purge(entries[1..], now)
  }

  function Find(entries: seq<Retained>, id: nat): (r: Option<nat>)
    ensures r.Some? ==> r.value < |entries| && entries[r.value].requestId == id
    ensures r.None? <==> forall i :: 0 <= i < |entries| ==> entries[i].requestId != id
  {
    if entries == [] then None
    else if entries[0].requestId == id then Some(0)
    else match Find(entries[1..], id) case None => None case Some(i) => Some(i + 1)
  }

  function DecideStep(entries: seq<Retained>, id: nat, payload: string, now: U64, cancel: bool)
    : (seq<Retained>, Result<Decision, DedupError>)
  {
    if cancel then (entries, Ok(BypassForTaskCancel))
    else if !ValidHash(payload) then (entries, Err(InvalidHash))
    else
      var kept := Purge(entries, now);
      match Find(kept, id)
      case Some(i) => (kept, if kept[i].payload == payload then Ok(Replay) else Err(DifferentContent))
      case None =>
        if |kept| == MAX_RETAINED_REQUESTS then (kept, Err(CapacityFull))
        else (kept + [Retained(id, payload, None)], Ok(Admit))
  }

  function SettleStep(entries: seq<Retained>, id: nat, terminal: U64): (seq<Retained>, Result<U64, DedupError>) {
    match Find(entries, id)
    case None => (entries, Err(NotRetained))
    case Some(i) =>
      if entries[i].expiresAt.Some? then (entries, Ok(entries[i].expiresAt.value))
      else if terminal + REQUEST_RETENTION_MS > U64_MAX then (entries, Err(TimeExhausted))
      else
        (entries[i := entries[i].(expiresAt := Some(terminal + REQUEST_RETENTION_MS))], Ok(terminal + REQUEST_RETENTION_MS))
  }

  class DedupIndex {
    var entries: seq<Retained>

    constructor ()
      ensures entries == []
    {
      entries := [];
    }

    method DecideAndReserve(id: nat, payload: string, now: U64, cancel: bool) returns (result: Result<Decision, DedupError>)
      modifies this
      ensures (entries, result) == DecideStep(old(entries), id, payload, now, cancel)
    {
      if cancel {
        return Ok(BypassForTaskCancel);
      }
      if !ValidHash(payload) {
        return Err(InvalidHash);
      }
      entries := Purge(entries, now);
      var existing := Find(entries, id);
      if existing.Some? {
        return if entries[existing.value].payload == payload then Ok(Replay) else Err(DifferentContent);
      }
      if |entries| == MAX_RETAINED_REQUESTS {
        return Err(CapacityFull);
      }
      entries := entries + [Retained(id, payload, None)];
      return Ok(Admit);
    }

    method Settle(id: nat, terminal: U64) returns (result: Result<U64, DedupError>)
      modifies this
      ensures (entries, result) == SettleStep(old(entries), id, terminal)
    {
      var found := Find(entries, id);
      if found.None? {
        return Err(NotRetained);
      }
      var entry := entries[found.value];
      if entry.expiresAt.Some? {
        return Ok(entry.expiresAt.value);
      }
      if terminal + REQUEST_RETENTION_MS > U64_MAX {
        return Err(TimeExhausted);
      }
      entries := entries[found.value := entry.(expiresAt := Some(terminal + REQUEST_RETENTION_MS))];
      return Ok(terminal + REQUEST_RETENTION_MS);
    }
  }

  // ---- runs ----

  datatype Op = Decide(id: nat, payload: string, now: U64, cancel: bool) | SettleAt(id: nat, terminal: U64)

  function Step(entries: seq<Retained>, op: Op): seq<Retained> {
    match op
    case Decide(id, payload, now, cancel) => DecideStep(entries, id, payload, now, cancel).0
    case SettleAt(id, terminal) => SettleStep(entries, id, terminal).0
  }

  /** The entries after the first `n` operations of a fresh index. */
  ghost function After(ops: seq<Op>, n: nat): seq<Retained>
    requires n <= |ops|
  {
    if n == 0 then [] else Step(After(ops, n - 1), ops[n - 1])
  }

  ghost function Decided(ops: seq<Op>, n: nat): Result<Decision, DedupError>
    requires n < |ops| && ops[n].Decide?
  {
    DecideStep(After(ops, n), ops[n].id, ops[n].payload, ops[n].now, ops[n].cancel).1
  }

  ghost predicate Inv(entries: seq<Retained>) {
    && (forall i, j :: 0 <= i < j < |entries| ==> entries[i].requestId != entries[j].requestId)
    && |entries| <= MAX_RETAINED_REQUESTS
  }

  lemma {:induction false} PurgeKeeps(entries: seq<Retained>, now: U64)
    ensures |Purge(entries, now)| <= |entries|
    ensures forall e :: e in Purge(entries, now) <==> e in entries && Unexpired(e, now)
    ensures Inv(entries) ==> Inv(Purge(entries, now))
    decreases |entries|
  {
    if entries != [] {
      var rest := Purge(entries[1..], now);
      PurgeKeeps(entries[1..], now);
      assert entries == [entries[0]] + entries[1..];
      if Inv(entries) {
        assert Inv(entries[1..]);
        forall i | 0 <= i < |rest|
          ensures rest[i].requestId != entries[0].requestId
        {
          assert rest[i] in entries[1..];
        }
      }
    }
  }

  lemma StepKeepsInv(entries: seq<Retained>, op: Op)
    requires Inv(entries)
    ensures Inv(Step(entries, op))
  {
    if op.Decide? {
      PurgeKeeps(entries, op.now);
    }
  }

  /** At every point of every run the retained ids are distinct and within capacity. */
  lemma {:induction false} RunKeepsInv(ops: seq<Op>, n: nat)
    requires n <= |ops|
    ensures Inv(After(ops, n))
    decreases n
  {
    if n > 0 {
      RunKeepsInv(ops, n - 1);
      StepKeepsInv(After(ops, n - 1), ops[n - 1]);
    }
  }

  // ---- which requests are retained, told from the operations and the admissions among them ----

  ghost predicate Admitted(ops: seq<Op>, i: nat) {
    i < |ops| && ops[i].Decide? && Decided(ops, i) == Ok(Admit)
  }

  predicate Deciding(op: Op) {
    op.Decide? && !op.cancel && ValidHash(op.payload)
  }

  predicate Settles(op: Op, id: nat) {
    op.SettleAt? && op.id == id && op.terminal + REQUEST_RETENTION_MS <= U64_MAX
  }

  /** The end of the retention window of request `i`: the first settlement of its id that does not overflow starts it. */
  ghost function Expiry(ops: seq<Op>, i: nat, n: nat): Option<U64>
    requires i < |ops| && n <= |ops|
  {
    if n <= i + 1 then None
    else if Expiry(ops, i, n - 1).Some? then Expiry(ops, i, n - 1)
    else if Settles(ops[n - 1], ops[i].id) then Some(ops[n - 1].terminal + REQUEST_RETENTION_MS)
    else None
  }

  /** Before operation `n` the window of request `i` began, and then a deciding call reached its end. */
  ghost predicate Released(ops: seq<Op>, i: nat, n: nat)
    requires i < |ops| && n <= |ops|
  {
    n > i + 1
    && (Released(ops, i, n - 1)
        || (Deciding(ops[n - 1]) && Expiry(ops, i, n - 1).Some? && ops[n - 1].now >= Expiry(ops, i, n - 1).value))
  }

  /** The calls of a run that were admitted. */
  ghost function Admissions(ops: seq<Op>): set<nat> {
    set i: nat | i < |ops| && Admitted(ops, i)
  }

  /** Of some admissions `admitted`, those before `k` that are not released before operation `n`. */
  ghost function Holding(ops: seq<Op>, admitted: set<nat>, n: nat, k: nat): set<nat>
    requires k <= n <= |ops|
  {
    set i: nat | i < k && i in admitted && !Released(ops, i, n)
  }

  ghost function EntryOf(ops: seq<Op>, i: nat, n: nat): Retained
    requires i < n <= |ops|
  {
    if ops[i].Decide? then Retained(ops[i].id, ops[i].payload, Expiry(ops, i, n)) else Retained(ops[i].id, "", None)
  }

  /** Their entries, in the order of admission. */
  ghost function HeldEntries(ops: seq<Op>, admitted: set<nat>, n: nat, k: nat): seq<Retained>
    requires k <= n <= |ops|
  {
    if k == 0 then []
    else
      HeldEntries(ops, admitted, n, k - 1) +
      if k - 1 in admitted && !Released(ops, k - 1, n) then [EntryOf(ops, k - 1, n)] else []
  }

  lemma Associative(a: seq<Retained>, b: seq<Retained>, c: seq<Retained>)
    ensures a + (b + c) == a + b + c
  {
  }

  lemma {:induction false} PurgeSnoc(entries: seq<Retained>, e: Retained, now: U64)
    ensures Purge(entries + [e], now) == Purge(entries, now) + if Unexpired(e, now) then [e] else []
    decreases |entries|
  {
    if entries == [] {
      assert entries + [e] == [e] && [e][1..] == [];
      assert Purge([e], now) == (if Unexpired(e, now) then [e] else []) + Purge([], now);
    } else {
      assert (entries + [e])[0] == entries[0] && (entries + [e])[1..] == entries[1..] + [e];
      PurgeSnoc(entries[1..], e, now);
      Associative(if Unexpired(entries[0], now) then [entries[0]] else [], Purge(entries[1..], now),
                  if Unexpired(e, now) then [e] else []);
    }
  }

  predicate OnlyDecides(ops: seq<Op>, admitted: set<nat>) {
    forall i :: i in admitted ==> i < |ops| && ops[i].Decide?
  }

  lemma DecidingReleases(ops: seq<Op>, i: nat, n: nat)
    requires i < n < |ops| && ops[i].Decide? && Deciding(ops[n])
    ensures Released(ops, i, n + 1) <==> Released(ops, i, n) || !Unexpired(EntryOf(ops, i, n), ops[n].now)
    ensures EntryOf(ops, i, n + 1) == EntryOf(ops, i, n)
  {
  }

  /** A call that decides keeps just the requests whose window goes on. */
  lemma {:induction false} PurgeReleases(ops: seq<Op>, admitted: set<nat>, n: nat, k: nat)
    requires k <= n < |ops| && Deciding(ops[n]) && OnlyDecides(ops, admitted)
    ensures HeldEntries(ops, admitted, n + 1, k) == Purge(HeldEntries(ops, admitted, n, k), ops[n].now)
    decreases k
  {
    if k > 0 {
      PurgeReleases(ops, admitted, n, k - 1);
      assert HeldEntries(ops, admitted, n, k - 1) + [] == HeldEntries(ops, admitted, n, k - 1);
      if k - 1 in admitted {
        DecidingReleases(ops, k - 1, n);
        PurgeSnoc(HeldEntries(ops, admitted, n, k - 1), EntryOf(ops, k - 1, n), ops[n].now);
      }
    }
  }

  lemma {:induction false} OthersKeep(ops: seq<Op>, admitted: set<nat>, n: nat, k: nat)
    requires k <= n < |ops| && ops[n].Decide? && !Deciding(ops[n])
    ensures HeldEntries(ops, admitted, n + 1, k) == HeldEntries(ops, admitted, n, k)
    decreases k
  {
    if k > 0 {
      OthersKeep(ops, admitted, n, k - 1);
    }
  }

  function Settled(e: Retained, op: Op): Retained {
    if e.expiresAt.None? && Settles(op, e.requestId) then e.(expiresAt := Some(op.terminal + REQUEST_RETENTION_MS)) else e
  }

  function SettledAll(entries: seq<Retained>, op: Op): seq<Retained> {
    seq(|entries|, i requires 0 <= i < |entries| => Settled(entries[i], op))
  }

  lemma SettlingSettles(ops: seq<Op>, i: nat, n: nat)
    requires i < n < |ops| && ops[i].Decide? && ops[n].SettleAt?
    ensures Released(ops, i, n + 1) <==> Released(ops, i, n)
    ensures EntryOf(ops, i, n + 1) == Settled(EntryOf(ops, i, n), ops[n])
  {
  }

  lemma SettledAllSnoc(entries: seq<Retained>, e: Retained, op: Op)
    ensures SettledAll(entries + [e], op) == SettledAll(entries, op) + [Settled(e, op)]
  {
  }

  lemma {:induction false} SettlementSettles(ops: seq<Op>, admitted: set<nat>, n: nat, k: nat)
    requires k <= n < |ops| && ops[n].SettleAt? && OnlyDecides(ops, admitted)
    ensures HeldEntries(ops, admitted, n + 1, k) == SettledAll(HeldEntries(ops, admitted, n, k), ops[n])
    decreases k
  {
    if k > 0 {
      SettlementSettles(ops, admitted, n, k - 1);
      assert HeldEntries(ops, admitted, n, k - 1) + [] == HeldEntries(ops, admitted, n, k - 1);
      if k - 1 in admitted {
        SettlingSettles(ops, k - 1, n);
        SettledAllSnoc(HeldEntries(ops, admitted, n, k - 1), EntryOf(ops, k - 1, n), ops[n]);
      }
    }
  }

  lemma SettleStepSettles(entries: seq<Retained>, op: Op)
    requires Inv(entries) && op.SettleAt?
    ensures SettleStep(entries, op.id, op.terminal).0 == SettledAll(entries, op)
  {
    forall i | 0 <= i < |entries| && entries[i].requestId == op.id
      ensures Find(entries, op.id) == Some(i)
    {
    }
  }

  /** One operation on the entries of the admissions before it, whichever they are. */
  lemma HeldThroughOneStep(ops: seq<Op>, admitted: set<nat>, n: nat, entries: seq<Retained>)
    requires n < |ops| && OnlyDecides(ops, admitted) && Inv(entries) && entries == HeldEntries(ops, admitted, n, n)
    requires n in admitted <==> ops[n].Decide? && DecideStep(entries, ops[n].id, ops[n].payload, ops[n].now, ops[n].cancel).1 == Ok(Admit)
    ensures Step(entries, ops[n]) == HeldEntries(ops, admitted, n + 1, n + 1)
  {
    if ops[n].SettleAt? {
      SettlementSettles(ops, admitted, n, n);
      SettleStepSettles(entries, ops[n]);
    } else if Deciding(ops[n]) {
      PurgeReleases(ops, admitted, n, n);
    } else {
      OthersKeep(ops, admitted, n, n);
    }
  }

  /** At every point of every run the index holds the admitted requests that were not released, and their windows. */
  lemma {:induction false} HeldUntilReleased(ops: seq<Op>, n: nat)
    requires n <= |ops|
    ensures After(ops, n) == HeldEntries(ops, Admissions(ops), n, n)
    decreases n
  {
    if n > 0 {
      HeldUntilReleased(ops, n - 1);
      RunKeepsInv(ops, n - 1);
      HeldThroughOneStep(ops, Admissions(ops), n - 1, After(ops, n - 1));
    }
  }

  lemma {:induction false} HeldMembers(ops: seq<Op>, admitted: set<nat>, n: nat, k: nat, e: Retained)
    requires k <= n <= |ops|
    ensures e in HeldEntries(ops, admitted, n, k) <==> exists i :: i in Holding(ops, admitted, n, k) && e == EntryOf(ops, i, n)
    decreases k
  {
    if k > 0 {
      HeldMembers(ops, admitted, n, k - 1, e);
    }
  }

  lemma {:induction false} HeldCount(ops: seq<Op>, admitted: set<nat>, n: nat, k: nat)
    requires k <= n <= |ops|
    ensures |HeldEntries(ops, admitted, n, k)| == |Holding(ops, admitted, n, k)|
    decreases k
  {
    if k > 0 {
      HeldCount(ops, admitted, n, k - 1);
      var before := Holding(ops, admitted, n, k - 1);
      if k - 1 in admitted && !Released(ops, k - 1, n) {
        assert Holding(ops, admitted, n, k) == before + {k - 1};
      } else {
        assert Holding(ops, admitted, n, k) == before;
      }
    }
  }

  /** A cancel passes by and a bad hash is refused; neither changes what is held. */
  lemma OthersPassBy(ops: seq<Op>, n: nat)
    requires n < |ops| && ops[n].Decide?
    ensures ops[n].cancel <==> Decided(ops, n) == Ok(BypassForTaskCancel)
    ensures !ops[n].cancel && !ValidHash(ops[n].payload) <==> Decided(ops, n) == Err(InvalidHash)
    ensures !Deciding(ops[n]) ==> After(ops, n + 1) == After(ops, n)
  {
  }

  lemma Kept(ops: seq<Op>, n: nat, kept: seq<Retained>)
    requires n < |ops| && Deciding(ops[n]) && kept == Purge(After(ops, n), ops[n].now)
    ensures kept == HeldEntries(ops, Admissions(ops), n + 1, n) && Inv(kept)
  {
    HeldUntilReleased(ops, n);
    RunKeepsInv(ops, n);
    KeptOf(ops, Admissions(ops), n, After(ops, n));
  }

  lemma KeptOf(ops: seq<Op>, admitted: set<nat>, n: nat, entries: seq<Retained>)
    requires n < |ops| && Deciding(ops[n]) && OnlyDecides(ops, admitted)
    requires Inv(entries) && entries == HeldEntries(ops, admitted, n, n)
    ensures Purge(entries, ops[n].now) == HeldEntries(ops, admitted, n + 1, n) && Inv(Purge(entries, ops[n].now))
  {
    PurgeReleases(ops, admitted, n, n);
    PurgeKeeps(entries, ops[n].now);
  }

  /** An id is found exactly if an admission of it is still held, and then it is the entry of that admission. */
  lemma FoundIsHeld(ops: seq<Op>, admitted: set<nat>, n: nat, k: nat, kept: seq<Retained>, id: nat)
    requires k <= n <= |ops| && kept == HeldEntries(ops, admitted, n, k) && Inv(kept)
    ensures Find(kept, id).Some? ==> exists i :: i in Holding(ops, admitted, n, k) && ops[i].id == id
    ensures forall i :: i in Holding(ops, admitted, n, k) && ops[i].id == id ==>
              Find(kept, id).Some? && kept[Find(kept, id).value] == EntryOf(ops, i, n)
  {
    forall i | i in Holding(ops, admitted, n, k) && ops[i].id == id
      ensures Find(kept, id).Some? && kept[Find(kept, id).value] == EntryOf(ops, i, n)
    {
      HeldMembers(ops, admitted, n, k, EntryOf(ops, i, n));
      FindTheOne(kept, EntryOf(ops, i, n));
    }
    if Find(kept, id).Some? {
      HeldMembers(ops, admitted, n, k, kept[Find(kept, id).value]);
    }
  }

  lemma HeldIsFound(ops: seq<Op>, admitted: set<nat>, n: nat, k: nat, kept: seq<Retained>, i: nat)
    requires k <= n <= |ops| && kept == HeldEntries(ops, admitted, n, k) && Inv(kept)
    requires i < k && i in admitted && !Released(ops, i, n)
    ensures Find(kept, ops[i].id).Some? && kept[Find(kept, ops[i].id).value] == EntryOf(ops, i, n)
  {
    assert i in Holding(ops, admitted, n, k);
    FoundIsHeld(ops, admitted, n, k, kept, ops[i].id);
  }

  lemma FindTheOne(entries: seq<Retained>, e: Retained)
    requires Inv(entries) && e in entries
    ensures Find(entries, e.requestId).Some? && entries[Find(entries, e.requestId).value] == e
  {
    var i :| 0 <= i < |entries| && entries[i] == e;
  }

  /** Every admission before `k` of the id of operation `n` was released by then, this call's own purge included. */
  ghost predicate AllReleased(ops: seq<Op>, id: nat, n: nat, k: nat)
    requires k <= n <= |ops|
  {
    forall i: nat :: i < k && Admitted(ops, i) && ops[i].id == id ==> Released(ops, i, n)
  }

  lemma NothingHeld(ops: seq<Op>, id: nat, n: nat, k: nat)
    requires k <= n <= |ops|
    ensures AllReleased(ops, id, n, k) <==> forall i :: i in Holding(ops, Admissions(ops), n, k) ==> ops[i].id != id
  {
    assert forall i: nat :: i < k ==> (i in Admissions(ops) <==> Admitted(ops, i));
  }

  lemma DecidedOnKept(ops: seq<Op>, n: nat, kept: seq<Retained>)
    requires n < |ops| && Deciding(ops[n]) && kept == Purge(After(ops, n), ops[n].now)
    ensures Decided(ops, n) ==
            match Find(kept, ops[n].id)
            case Some(i) => if kept[i].payload == ops[n].payload then Ok(Replay) else Err(DifferentContent)
            case None => if |kept| == MAX_RETAINED_REQUESTS then Err(CapacityFull) else Ok(Admit)
  {
  }

  /**
   A deciding call is admitted exactly if every earlier admission of its id was released, by this call's own
   purge at the latest, and there is room for one more; it is refused for capacity exactly if only the room is
   missing.
   */
  lemma AdmittedExactly(ops: seq<Op>, n: nat)
    requires n < |ops| && Deciding(ops[n])
    ensures var held := Holding(ops, Admissions(ops), n + 1, n);
            && |held| <= 4_096
            && (Decided(ops, n) == Ok(Admit) <==> AllReleased(ops, ops[n].id, n + 1, n) && |held| < 4_096)
            && (Decided(ops, n) == Err(CapacityFull) <==> AllReleased(ops, ops[n].id, n + 1, n) && |held| == 4_096)
  {
    var kept := Purge(After(ops, n), ops[n].now);
    Kept(ops, n, kept);
    RunKeepsInv(ops, n);
    HeldCount(ops, Admissions(ops), n + 1, n);
    FoundIsHeld(ops, Admissions(ops), n + 1, n, kept, ops[n].id);
    NothingHeld(ops, ops[n].id, n + 1, n);
    DecidedOnKept(ops, n, kept);
  }

  /**
   After an admission, a repeat of the request is answered as a replay when its content is equal and
   refused when it differs, exactly until it is released, possibly by this very call.
   */
  lemma RepeatIsReplayOrRefused(ops: seq<Op>, i: nat, n: nat)
    requires i < n < |ops| && Admitted(ops, i) && Deciding(ops[n]) && ops[n].id == ops[i].id
    requires !Released(ops, i, n + 1)
    ensures Decided(ops, n) == if ops[n].payload == ops[i].payload then Ok(Replay) else Err(DifferentContent)
  {
    var kept := Purge(After(ops, n), ops[n].now);
    Kept(ops, n, kept);
    RepeatOnKept(ops, Admissions(ops), i, n, kept);
    DecidedOnKept(ops, n, kept);
  }

  lemma RepeatOnKept(ops: seq<Op>, admitted: set<nat>, i: nat, n: nat, kept: seq<Retained>)
    requires i < n < |ops| && i in admitted && ops[i].Decide? && !Released(ops, i, n + 1)
    requires kept == HeldEntries(ops, admitted, n + 1, n) && Inv(kept)
    ensures Find(kept, ops[i].id).Some? && kept[Find(kept, ops[i].id).value].payload == ops[i].payload
  {
    HeldIsFound(ops, admitted, n + 1, n, kept, i);
  }

  /** A release comes from a settlement and, after it, a deciding call no earlier than the end of the window. */
  lemma {:induction false} WindowBegins(ops: seq<Op>, i: nat, n: nat)
    requires i < |ops| && n <= |ops| && Expiry(ops, i, n).Some?
    ensures exists s: nat :: i < s < n && Settles(ops[s], ops[i].id)
              && Expiry(ops, i, n) == Some(ops[s].terminal + REQUEST_RETENTION_MS)
              && forall t: nat :: i < t < s ==> !Settles(ops[t], ops[i].id)
    decreases n
  {
    if Expiry(ops, i, n - 1).Some? {
      WindowBegins(ops, i, n - 1);
    } else {
      NoWindowYet(ops, i, n - 1);
    }
  }

  lemma {:induction false} NoWindowYet(ops: seq<Op>, i: nat, n: nat)
    requires i < |ops| && n <= |ops| && Expiry(ops, i, n).None?
    ensures forall t: nat :: i < t < n ==> !Settles(ops[t], ops[i].id)
    decreases n
  {
    if n > i + 1 {
      NoWindowYet(ops, i, n - 1);
    }
  }

  lemma {:induction false} ReleaseHasItsCall(ops: seq<Op>, i: nat, n: nat)
    requires i < |ops| && n <= |ops| && Released(ops, i, n)
    ensures exists d: nat :: i < d < n && Deciding(ops[d]) && Expiry(ops, i, d).Some? && ops[d].now >= Expiry(ops, i, d).value
    decreases n
  {
    if Released(ops, i, n - 1) {
      ReleaseHasItsCall(ops, i, n - 1);
    }
  }

  lemma AdmittedAfterRelease(ops: seq<Op>, i: nat, j: nat)
    requires i < j < |ops| && Admitted(ops, i) && Admitted(ops, j) && ops[i].id == ops[j].id
    ensures Released(ops, i, j + 1)
  {
    OthersPassBy(ops, j);
    AdmittedExactly(ops, j);
  }

  /**
   At most one admission per window: between two admissions of one request id there is a settlement at
   some time t and, after it, a deciding call no earlier than t plus the retention period.
   */
  lemma AdmissionsAreSeparated(ops: seq<Op>, i: nat, j: nat)
    requires i < j < |ops| && Admitted(ops, i) && Admitted(ops, j) && ops[i].id == ops[j].id
    ensures exists s: nat, d: nat :: i < s < d <= j && ops[s].SettleAt? && ops[s].id == ops[i].id
              && ops[d].Decide? && ops[d].now >= ops[s].terminal + 86_400_000
  {
    AdmittedAfterRelease(ops, i, j);
    ReleaseHasItsCall(ops, i, j + 1);
    var d: nat :| i < d < j + 1 && Deciding(ops[d]) && Expiry(ops, i, d).Some? && ops[d].now >= Expiry(ops, i, d).value;
    WindowBegins(ops, i, d);
  }

  ghost function Settlement(ops: seq<Op>, n: nat): Result<U64, DedupError>
    requires n < |ops| && ops[n].SettleAt?
  {
    SettleStep(After(ops, n), ops[n].id, ops[n].terminal).1
  }

  lemma SettlementOnHeld(ops: seq<Op>, n: nat, entries: seq<Retained>)
    requires n < |ops| && ops[n].SettleAt? && entries == After(ops, n)
    ensures Find(entries, ops[n].id).None? <==> Settlement(ops, n) == Err(NotRetained)
    ensures Find(entries, ops[n].id).Some? ==>
              var e := Settled(entries[Find(entries, ops[n].id).value], ops[n]);
              Settlement(ops, n) == if e.expiresAt.Some? then Ok(e.expiresAt.value) else Err(TimeExhausted)
  {
  }

  /** There is nothing to settle exactly if every admission of the id was released. */
  lemma NothingToSettle(ops: seq<Op>, n: nat)
    requires n < |ops| && ops[n].SettleAt?
    ensures Settlement(ops, n) == Err(NotRetained) <==> AllReleased(ops, ops[n].id, n, n)
  {
    HeldUntilReleased(ops, n);
    RunKeepsInv(ops, n);
    FoundIsHeld(ops, Admissions(ops), n, n, After(ops, n), ops[n].id);
    NothingHeld(ops, ops[n].id, n, n);
    SettlementOnHeld(ops, n, After(ops, n));
  }

  lemma SettledOnce(ops: seq<Op>, i: nat, n: nat)
    requires i < n < |ops| && ops[n].SettleAt? && ops[i].Decide?
    ensures EntryOf(ops, i, n).payload == ops[i].payload && Settled(EntryOf(ops, i, n), ops[n]).expiresAt == Expiry(ops, i, n + 1)
  {
  }

  /** The answer for a held request is the end of its window, and fails only if no window could begin. */
  lemma SettledExactly(ops: seq<Op>, i: nat, n: nat)
    requires i < n < |ops| && ops[n].SettleAt? && Admitted(ops, i) && ops[i].id == ops[n].id && !Released(ops, i, n)
    ensures Settlement(ops, n) == if Expiry(ops, i, n + 1).Some? then Ok(Expiry(ops, i, n + 1).value) else Err(TimeExhausted)
  {
    HeldUntilReleased(ops, n);
    RunKeepsInv(ops, n);
    HeldIsFound(ops, Admissions(ops), n, n, After(ops, n), i);
    SettledOnce(ops, i, n);
    SettlementOnHeld(ops, n, After(ops, n));
  }

  /** An expiry, once set, stays as it is for as long as the entry is retained. */
  lemma ExpiryNeverChanges(entries: seq<Retained>, op: Op, e: Retained)
    requires Inv(entries) && e in entries && e.expiresAt.Some?
    ensures forall f :: f in Step(entries, op) && f.requestId == e.requestId ==>
              f == e || (op.Decide? && op.now >= e.expiresAt.value && f.expiresAt.None?)
  {
    FindTheOne(entries, e);
    var after := Step(entries, op);
    match op
    case Decide(id, payload, now, cancel) =>
      PurgeKeeps(entries, now);
      forall f | f in after && f.requestId == e.requestId
        ensures f == e || (now >= e.expiresAt.value && f.expiresAt.None?)
      {
        if f in entries {
          FindTheOne(entries, f);
        } else if e in Purge(entries, now) {
          FindTheOne(Purge(entries, now), e);
        }
      }
    case SettleAt(id, terminal) =>
      forall f | f in after && f.requestId == e.requestId
        ensures f == e
      {
        var k :| 0 <= k < |after| && after[k] == f;
        assert entries[k].requestId == e.requestId;
        FindTheOne(entries, entries[k]);
      }
  }
}
