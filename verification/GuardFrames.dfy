/**
 The byte form of one execution-guard proof: length-prefixed frames, their decoder, and the
 classifier that turns the bytes on disk into a recovery fact.

 Payloads are JSON written by serde, which is not part of this model: a `Codec` stands for it, and
 `Faithful` is everything the proofs assume about it.
 */
module GuardFrames {
  import opened Wrappers

  const FRAME_LIMIT: nat := 2048
  const PROOF_LIMIT: nat := 4096

  type Byte = b: int | 0 <= b < 256
  type Bytes = seq<Byte>
  type Uuid = nat

  datatype Identity = Identity(runtimeEpoch: Uuid, runtimeInstance: Uuid, executionId: Uuid, bootId: Uuid)
  datatype Started = Started(pid: nat, startTicks: nat)
  datatype Cause = Exited | Cancelled | Timeout | OwnerLost
  datatype Clean = Clean(shellExitCode: Option<int>, cause: Cause)
  datatype Recovery = Settled(clean: Option<Clean>) | Live(pid: nat, startTicks: nat) | Unverified
  datatype GuardError = ResourceLimit | IoError

  datatype Codec = Codec(
    identity: Identity -> Bytes,
    started: Started -> Bytes,
    clean: Clean -> Bytes,
    readIdentity: Bytes -> Option<Identity>,
    readStarted: Bytes -> Option<Started>,
    readClean: Bytes -> Option<Clean>,
    isText: Bytes -> bool)

  /** A payload `encode_guard_frame` accepts and `decode_frames` reads back. */
  predicate Payload(codec: Codec, p: Bytes) {
    0 < |p| <= FRAME_LIMIT && codec.isText(p)
  }

  ghost predicate Faithful(codec: Codec) {
    && (forall x: Identity :: Payload(codec, codec.identity(x)) && codec.readIdentity(codec.identity(x)) == Some(x))
    && (forall x: Started :: Payload(codec, codec.started(x)) && codec.readStarted(codec.started(x)) == Some(x))
    && (forall x: Clean :: Payload(codec, codec.clean(x)) && codec.readClean(codec.clean(x)) == Some(x))
  }

  // ---- framing ----

  function BigEndian(n: nat): (r: Bytes)
    requires n < 0x1_0000_0000
    ensures |r| == 4 && FromBigEndian(r) == n
  {
    [n / 0x100_0000, n / 0x1_0000 % 256, n / 256 % 256, n % 256]
  }

  function FromBigEndian(b: Bytes): nat
    requires |b| == 4
  {
    (b[0] as int) * 0x100_0000 + (b[1] as int) * 0x1_0000 + (b[2] as int) * 256 + (b[3] as int)
  }

  lemma BigEndianUnique(b: Bytes)
    requires |b| == 4
    ensures FromBigEndian(b) < 0x1_0000_0000 && BigEndian(FromBigEndian(b)) == b
  {
    var n := FromBigEndian(b);
    assert n / 0x100_0000 == b[0];
    assert n / 0x1_0000 == (b[0] as int) * 256 + b[1];
    assert n / 256 == (b[0] as int) * 0x1_0000 + (b[1] as int) * 256 + b[2];
  }

  /** The most significant byte comes first: lengths are ordered as their bytes are. */
  lemma LengthsAreOrderedAsBytes(m: nat, n: nat)
    requires m < 0x1_0000_0000 && n < 0x1_0000_0000
    ensures m < n <==> exists i :: 0 <= i < 4 && BigEndian(m)[..i] == BigEndian(n)[..i] && BigEndian(m)[i] < BigEndian(n)[i]
  {
    var a, b := BigEndian(m), BigEndian(n);
    if a[0] != b[0] {
      assert a[..0] == b[..0];
    } else if a[1] != b[1] {
      assert a[..1] == b[..1];
    } else if a[2] != b[2] {
      assert a[..2] == b[..2];
    } else {
      assert a[..3] == b[..3];
    }
    forall i | 0 <= i < 4 && a[..i] == b[..i] && a[i] < b[i]
      ensures m < n
    {
      assert forall j :: 0 <= j < i ==> a[j] == a[..i][j] && b[j] == b[..i][j];
      assert FromBigEndian(a) < FromBigEndian(b);
    }
  }

  /** The bytes `encode_guard_frame` produces for an accepted payload. */
  function Frame(p: Bytes): Bytes
    requires 0 < |p| <= FRAME_LIMIT
  {
    BigEndian(|p|) + p
  }

  function EncodeGuardFrame(p: Bytes): Result<Bytes, GuardError> {
    if |p| == 0 || |p| > FRAME_LIMIT then Err(ResourceLimit) else Ok(Frame(p))
  }

  ghost predicate Payloads(codec: Codec, ps: seq<Bytes>) {
    forall i :: 0 <= i < |ps| ==> Payload(codec, ps[i])
  }

  ghost function Concatenated(codec: Codec, ps: seq<Bytes>): Bytes
    requires Payloads(codec, ps)
  {
    if ps == [] then [] else Frame(ps[0]) + Concatenated(codec, ps[1..])
  }

  function Decode(codec: Codec, bytes: Bytes): Option<seq<Bytes>> {
    if bytes == [] then Some([])
    else if |bytes| < 4 then None
    else
      var length := FromBigEndian(bytes[..4]);
      if length == 0 || length > FRAME_LIMIT || 4 + length > |bytes| || !codec.isText(bytes[4..4 + length]) then None
      else
        match Decode(codec, bytes[4 + length..])
        case None => None
        case Some(rest) => Some([bytes[4..4 + length]] + rest)
  }

  function After(found: seq<Bytes>, rest: Option<seq<Bytes>>): Option<seq<Bytes>> {
    if rest.None? then None else Some(found + rest.value)
  }

  lemma AfterOne(found: seq<Bytes>, frame: Bytes, rest: Option<seq<Bytes>>)
    ensures After(found, After([frame], rest)) == After(found + [frame], rest)
    ensures After([], rest) == rest
  {
    if rest.Some? {
      assert found + ([frame] + rest.value) == (found + [frame]) + rest.value;
      assert [] + rest.value == rest.value;
    }
  }

  /** One frame taken off the text at the cursor. */
  lemma DecodeAt(codec: Codec, bytes: Bytes, cursor: nat)
    requires cursor + 4 <= |bytes|
    ensures var length := FromBigEndian(bytes[cursor..cursor + 4]);
            var end := cursor + 4 + length;
            Decode(codec, bytes[cursor..]) ==
              if length == 0 || length > FRAME_LIMIT || end > |bytes| || !codec.isText(bytes[cursor + 4..end]) then None
              else After([bytes[cursor + 4..end]], Decode(codec, bytes[end..]))
  {
    var tail := bytes[cursor..];
    assert tail[..4] == bytes[cursor..cursor + 4];
    var length := FromBigEndian(tail[..4]);
    if cursor + 4 + length <= |bytes| {
      assert tail[4..4 + length] == bytes[cursor + 4..cursor + 4 + length];
      assert tail[4 + length..] == bytes[cursor + 4 + length..];
    }
  }

  method DecodeFrames(codec: Codec, bytes: Bytes) returns (frames: Option<seq<Bytes>>)
    ensures frames == Decode(codec, bytes)
  {
    var cursor := 0;
    var found: seq<Bytes> := [];
    assert bytes[0..] == bytes;
    AfterOne([], [], Decode(codec, bytes));
    while cursor < |bytes|
      invariant 0 <= cursor <= |bytes|
      invariant Decode(codec, bytes) == After(found, Decode(codec, bytes[cursor..]))
      decreases |bytes| - cursor
    {
      if cursor + 4 > |bytes| {
        return None;
      }
      DecodeAt(codec, bytes, cursor);
      var length := FromBigEndian(bytes[cursor..cursor + 4]);
      if length == 0 || length > FRAME_LIMIT {
        return None;
      }
      cursor := cursor + 4;
      var end := cursor + length;
      if end > |bytes| {
        return None;
      }
      var frame := bytes[cursor..end];
      if !codec.isText(frame) {
        return None;
      }
      AfterOne(found, frame, Decode(codec, bytes[end..]));
      found := found + [frame];
      cursor := end;
    }
    assert bytes[cursor..] == [];
    assert found + [] == found;
    return Some(found);
  }

  /** Whatever decodes is exactly the concatenation of its frames: nothing is skipped or invented. */
  lemma {:induction false} DecodeIsExact(codec: Codec, bytes: Bytes, ps: seq<Bytes>)
    requires Decode(codec, bytes) == Some(ps)
    ensures Payloads(codec, ps) && Concatenated(codec, ps) == bytes
    decreases |bytes|
  {
    if bytes != [] {
      var length := FromBigEndian(bytes[..4]);
      var rest := Decode(codec, bytes[4 + length..]).value;
      DecodeIsExact(codec, bytes[4 + length..], rest);
      assert ps[1..] == rest;
      BigEndianUnique(bytes[..4]);
      assert bytes == bytes[..4] + bytes[4..4 + length] + bytes[4 + length..];
    }
  }

  /** A whole frame is split off the front, whatever follows it. */
  lemma DecodeFrame(codec: Codec, p: Bytes, rest: Bytes)
    requires Payload(codec, p)
    ensures Decode(codec, Frame(p) + rest) ==
            match Decode(codec, rest) case None => None case Some(ps) => Some([p] + ps)
  {
    var bytes := Frame(p) + rest;
    assert bytes[..4] == BigEndian(|p|);
    assert bytes[4..4 + |p|] == p;
    assert bytes[4 + |p|..] == rest;
  }

  /** A frame cut short is refused. */
  lemma DecodeCutFrame(codec: Codec, p: Bytes, cut: nat)
    requires Payload(codec, p) && 0 < cut < |Frame(p)|
    ensures Decode(codec, Frame(p)[..cut]) == None
  {
    var bytes := Frame(p)[..cut];
    if cut >= 4 {
      assert bytes[..4] == BigEndian(|p|);
    }
  }

  lemma OneMoreFrame(codec: Codec, ps: seq<Bytes>, frames: seq<Bytes>)
    requires ps != [] && Payload(codec, ps[0]) && Payloads(codec, frames) && frames <= ps[1..]
    ensures [ps[0]] + frames <= ps && Payloads(codec, [ps[0]] + frames)
    ensures Concatenated(codec, [ps[0]] + frames) == Frame(ps[0]) + Concatenated(codec, frames)
  {
    assert ([ps[0]] + frames)[1..] == frames;
    assert ps == [ps[0]] + ps[1..];
  }

  /**
   A proof cut anywhere decodes only to the frames that were finished before the cut: a torn write is
   never mistaken for a finished frame.
   */
  lemma {:induction false} TornWrite(codec: Codec, ps: seq<Bytes>, cut: nat)
    requires Payloads(codec, ps) && cut <= |Concatenated(codec, ps)|
    ensures match Decode(codec, Concatenated(codec, ps)[..cut])
            case None => true
            case Some(frames) =>
              && frames <= ps
              && Payloads(codec, frames)
              && Concatenated(codec, ps)[..cut] == Concatenated(codec, frames)
    decreases |ps|
  {
    var torn := Concatenated(codec, ps)[..cut];
    if ps != [] && cut > 0 {
      var head := Frame(ps[0]);
      var tail := Concatenated(codec, ps[1..]);
      if cut < |head| {
        assert torn == head[..cut];
        DecodeCutFrame(codec, ps[0], cut);
      } else {
        var rest := tail[..cut - |head|];
        assert torn == head + rest;
        DecodeFrame(codec, ps[0], rest);
        TornWrite(codec, ps[1..], cut - |head|);
        if Decode(codec, rest).Some? {
          OneMoreFrame(codec, ps, Decode(codec, rest).value);
        }
      }
    }
  }

  lemma {:induction false} DecodeUndoesConcatenated(codec: Codec, ps: seq<Bytes>)
    requires Payloads(codec, ps)
    ensures Decode(codec, Concatenated(codec, ps)) == Some(ps)
    decreases |ps|
  {
    if ps != [] {
      DecodeUndoesConcatenated(codec, ps[1..]);
      DecodeFrame(codec, ps[0], Concatenated(codec, ps[1..]));
      assert [ps[0]] + ps[1..] == ps;
    }
  }

  // ---- classification ----

  /**
   The recovery fact for the bytes of one proof. `same` is the answer of the process table for the
   recorded guard, `None` when it could not be read.
   */
  function Classify(codec: Codec, containing: Uuid, current: Uuid, expected: Identity, bytes: Bytes,
                    same: Option<bool>): Result<Recovery, GuardError>
  {
    if containing != current then Ok(Settled(None))
    else if |bytes| > PROOF_LIMIT then Ok(Unverified)
    else
      match Decode(codec, bytes)
      case None => Ok(Unverified)
      case Some(frames) =>
        if |frames| < 2 || |frames| > 3 then Ok(Unverified)
        else
          match codec.readIdentity(frames[0])
          case None => Ok(Unverified)
          case Some(identity) =>
            if identity != expected || identity.bootId != containing then Ok(Unverified)
            else
              match codec.readStarted(frames[1])
              case None => Ok(Unverified)
              case Some(started) =>
                if |frames| == 3 then
                  match codec.readClean(frames[2])
                  case None => Ok(Unverified)
                  case Some(clean) => Ok(Settled(Some(clean)))
                else
                  match same
                  case None => Err(IoError)
                  case Some(true) => Ok(Live(started.pid, started.startTicks))
                  case Some(false) => Ok(Unverified)
  }

  /** What a proof must hold for a guard that is over, and for one that runs. */
  lemma ClassifiedExactly(codec: Codec, boot: Uuid, expected: Identity, bytes: Bytes, same: Option<bool>)
    ensures var verdict := Classify(codec, boot, boot, expected, bytes, same);
            var frames := Decode(codec, bytes);
            var starts := |bytes| <= 4096 && frames.Some? && |frames.value| >= 2 && expected.bootId == boot
                          && codec.readIdentity(frames.value[0]) == Some(expected) && codec.readStarted(frames.value[1]).Some?;
            && (forall clean :: verdict == Ok(Settled(Some(clean))) <==>
                  starts && |frames.value| == 3 && codec.readClean(frames.value[2]) == Some(clean))
            && (forall pid, ticks :: verdict == Ok(Live(pid, ticks)) <==>
                  starts && |frames.value| == 2 && codec.readStarted(frames.value[1]) == Some(Started(pid, ticks)) && same == Some(true))
            && (verdict.Err? <==> starts && |frames.value| == 2 && same == None)
            && verdict != Ok(Settled(None))
  {
  }

  /** The bytes one guard leaves behind: its identity, its start, then `clean`, cut after `cut` bytes. */
  ghost function Script(codec: Codec, identity: Identity, started: Started, clean: Clean): Bytes
    requires Faithful(codec)
  {
    Frame(codec.identity(identity)) + Frame(codec.started(started)) + Frame(codec.clean(clean))
  }

  /** The script is its three frames, and its first two are what is there before the clean record. */
  lemma ScriptFrames(codec: Codec, identity: Identity, started: Started, clean: Clean)
    requires Faithful(codec)
    ensures var ps := [codec.identity(identity), codec.started(started), codec.clean(clean)];
            && Payloads(codec, ps) && Payloads(codec, ps[..2])
            && Concatenated(codec, ps) == Script(codec, identity, started, clean)
            && Concatenated(codec, ps[..2]) == Frame(codec.identity(identity)) + Frame(codec.started(started))
            && Concatenated(codec, ps[..2]) == Script(codec, identity, started, clean)[..|Frame(codec.identity(identity))| + |Frame(codec.started(started))|]
  {
    var ps := [codec.identity(identity), codec.started(started), codec.clean(clean)];
    assert Concatenated(codec, ps[1..][1..][1..]) == [];
    assert Concatenated(codec, ps[1..][1..]) == Frame(ps[2]);
    assert Concatenated(codec, ps[1..]) == Frame(ps[1]) + Frame(ps[2]);
    var two := ps[..2];
    assert Concatenated(codec, two[1..][1..]) == [];
    assert Concatenated(codec, two[1..]) == Frame(ps[1]);
  }

  /**
   Of everything a guard may have written when it is looked at, or killed, only the complete script
   classifies as clean, and then with the record the guard wrote.
   */
  lemma OnlyTheWholeScriptIsClean(codec: Codec, expected: Identity, started: Started, clean: Clean,
                                  cut: nat, same: Option<bool>)
    requires Faithful(codec)
    requires cut <= |Script(codec, expected, started, clean)| && cut <= PROOF_LIMIT
    ensures var bytes := Script(codec, expected, started, clean)[..cut];
            var verdict := Classify(codec, expected.bootId, expected.bootId, expected, bytes, same);
            && (cut == |Script(codec, expected, started, clean)| ==> verdict == Ok(Settled(Some(clean))))
            && (cut < |Script(codec, expected, started, clean)| ==> verdict.Ok? ==> !verdict.value.Settled?)
  {
    var ps := [codec.identity(expected), codec.started(started), codec.clean(clean)];
    var script := Script(codec, expected, started, clean);
    ScriptFrames(codec, expected, started, clean);
    TornWrite(codec, ps, cut);
    DecodeUndoesConcatenated(codec, ps);
    var bytes := script[..cut];
    if cut == |script| {
      assert bytes == script;
    } else if Decode(codec, bytes).Some? {
      var frames := Decode(codec, bytes).value;
      assert |frames| == 3 ==> frames == ps;
    }
  }

  /**
   The process table decides only when a guard is looked at between its start and its clean record: then, and
   only then, an unreadable process table makes the classification fail.
   */
  lemma OnlyTheStartAsksTheProcessTable(codec: Codec, expected: Identity, started: Started, clean: Clean,
                                        cut: nat, same: Option<bool>)
    requires Faithful(codec)
    requires cut <= |Script(codec, expected, started, clean)| && cut <= PROOF_LIMIT
    ensures var bytes := Script(codec, expected, started, clean)[..cut];
            Classify(codec, expected.bootId, expected.bootId, expected, bytes, same).Err? <==>
              cut == |Frame(codec.identity(expected))| + |Frame(codec.started(started))| && same.None?
  {
    var ps := [codec.identity(expected), codec.started(started), codec.clean(clean)];
    var two, bytes := ps[..2], Script(codec, expected, started, clean)[..cut];
    ScriptFrames(codec, expected, started, clean);
    TornWrite(codec, ps, cut);
    DecodeUndoesConcatenated(codec, two);
    if Decode(codec, bytes).Some? && |Decode(codec, bytes).value| == 2 {
      assert Decode(codec, bytes).value == two;
    }
    if cut == |Concatenated(codec, two)| {
      assert bytes == Concatenated(codec, two);
    }
  }
}
