/**
 The loops beside a guarded process: draining its bounded streams and reaping the guard. What `poll`,
 `read`, the clock, the claim and the child answer is a script; a loop stops at its first ending turn.
 */
module GuardStreams {
  import opened Wrappers
  import opened GuardFrames

  const GUARD_SETTLE_MS: nat := 6_000

  /** One turn of a drain: the stop flag as loaded, then what `poll` and `read` gave. */
  datatype Event = Interrupted | NotReady | Failed | EndOfFile | Chunk(bytes: Bytes)
  datatype Turn = Turn(stopped: bool, event: Event)

  datatype BoundedStream = BoundedStream(bytes: Bytes, truncated: bool)

  predicate Ends(turn: Turn) {
    turn.event.Failed? || turn.event.EndOfFile? || (turn.event.NotReady? && turn.stopped)
  }

  /** Everything the stream delivered during `turns`, however it was cut. */
  function Delivered(turns: seq<Turn>): Bytes {
    if turns == [] then []
    else
      var last := turns[|turns| - 1];
      Delivered(turns[..|turns| - 1]) + if last.event.Chunk? then last.event.bytes else []
  }

  function Prefix(s: Bytes, limit: nat): Bytes {
    if |s| <= limit then s else s[..limit]
  }

  lemma DeliveredNext(turns: seq<Turn>, used: nat)
    requires used < |turns|
    ensures Delivered(turns[..used + 1]) ==
              Delivered(turns[..used]) + if turns[used].event.Chunk? then turns[used].event.bytes else []
  {
    assert turns[..used + 1][..used] == turns[..used];
  }

  lemma Appended(a: Bytes, b: Bytes, c: Bytes)
    ensures a + b + c == a + (b + c)
  {
  }

  /** Keeping what fits of one chunk after what fitted of the stream before it keeps what fits of both. */
  lemma PrefixNext(stream: Bytes, buffer: Bytes, limit: nat)
    ensures var room := limit - |Prefix(stream, limit)|;
            && Prefix(stream + buffer, limit) == Prefix(stream, limit) + buffer[..if room < |buffer| then room else |buffer|]
            && (|stream + buffer| > limit <==> |stream| > limit || |buffer| > room)
  {
  }

  /** A drain retains exactly the bounded prefix of what was delivered before its ending turn. */
  method Drain(turns: seq<Turn>, limit: nat) returns (result: Result<BoundedStream, GuardError>, used: nat)
    requires exists i :: 0 <= i < |turns| && Ends(turns[i])
    ensures used < |turns| && Ends(turns[used]) && forall i :: 0 <= i < used ==> !Ends(turns[i])
    ensures var stream := Delivered(turns[..used]);
            result == if turns[used].event.Failed? then Err(IoError)
                      else Ok(BoundedStream(Prefix(stream, limit), |stream| > limit))
  {
    var bytes: Bytes := [];
    var truncated := false;
    used := 0;
    while true
      invariant used < |turns|
      invariant exists i :: used <= i < |turns| && Ends(turns[i])
      invariant forall i :: 0 <= i < used ==> !Ends(turns[i])
      invariant bytes == Prefix(Delivered(turns[..used]), limit)
      invariant truncated == (|Delivered(turns[..used])| > limit)
      decreases |turns| - used
    {
      DeliveredNext(turns, used);
      match turns[used].event {
      case Interrupted => {}
      case Failed => return Err(IoError), used;
      case NotReady =>
        if turns[used].stopped {
          return Ok(BoundedStream(bytes, truncated)), used;
        }
      case EndOfFile => return Ok(BoundedStream(bytes, truncated)), used;
      case Chunk(buffer) =>
        PrefixNext(Delivered(turns[..used]), buffer, limit);
        var remaining := if limit > |bytes| then limit - |bytes| else 0;
        if remaining > 0 {
          var take := if remaining < |buffer| then remaining else |buffer|;
          bytes := bytes + buffer[..take];
        }
        if |buffer| > remaining {
          truncated := true;
        }
      }
      used := used + 1;
    }
  }

  class OutputFile {
    var content: Bytes

    constructor ()
      ensures content == []
    {
      content := [];
    }
  }

  /** What is left of a chunk when writing its first `take` bytes fails after `cut` of them. */
  function Part(buffer: Bytes, take: nat, cut: nat): (part: Bytes)
    requires take <= |buffer|
    ensures part <= buffer && |part| <= take
  {
    if cut <= take then buffer[..cut] else buffer[..take]
  }

  /**
   `writes[i]` is `None` when the write of turn `i` succeeds, else how much it wrote before it failed; `closed`
   says whether flush and sync succeed.
   */
  method DrainToFile(turns: seq<Turn>, writes: seq<Option<nat>>, closed: bool, limit: nat, output: OutputFile)
    returns (result: Result<BoundedStream, GuardError>, used: nat)
    requires |writes| == |turns|
    requires exists i :: 0 <= i < |turns| && Ends(turns[i])
    modifies output
    ensures used < |turns| && forall i :: 0 <= i < used ==> !Ends(turns[i])
    ensures var stream := Delivered(turns[..used]);
            && (result.Ok? ==> Ends(turns[used]) && result.value == BoundedStream([], |stream| > limit))
            && (Ends(turns[used]) ==>
                 && (result.Ok? <==> !turns[used].event.Failed? && closed)
                 && output.content == old(output.content) + Prefix(stream, limit))
            && (!Ends(turns[used]) ==>
                 && writes[used].Some? && turns[used].event.Chunk? && |stream| < limit
                 && var buffer := turns[used].event.bytes;
                    var room := limit - |stream|;
                    output.content == old(output.content) + stream + Part(buffer, if room < |buffer| then room else |buffer|, writes[used].value))
  {
    var written := 0;
    var truncated := false;
    ghost var kept: Bytes := [];
    used := 0;
    while true
      invariant used < |turns|
      invariant exists i :: used <= i < |turns| && Ends(turns[i])
      invariant forall i :: 0 <= i < used ==> !Ends(turns[i])
      invariant kept == Prefix(Delivered(turns[..used]), limit) && written == |kept|
      invariant output.content == old(output.content) + kept
      invariant truncated == (|Delivered(turns[..used])| > limit)
      decreases |turns| - used
    {
      DeliveredNext(turns, used);
      match turns[used].event {
      case Interrupted => {}
      case Failed => return Err(IoError), used;
      case NotReady =>
        if turns[used].stopped {
          return if closed then Ok(BoundedStream([], truncated)) else Err(IoError), used;
        }
      case EndOfFile =>
        return if closed then Ok(BoundedStream([], truncated)) else Err(IoError), used;
      case Chunk(buffer) =>
        PrefixNext(Delivered(turns[..used]), buffer, limit);
        var remaining := if limit > written then limit - written else 0;
        if remaining > 0 {
          var take := if remaining < |buffer| then remaining else |buffer|;
          if writes[used].Some? {
            output.content := output.content + Part(buffer, take, writes[used].value);
            return Err(IoError), used;
          }
          Appended(old(output.content), kept, buffer[..take]);
          output.content := output.content + buffer[..take];
          written := written + take;
          kept := kept + buffer[..take];
        }
        if |buffer| > remaining {
          truncated := true;
        }
      }
      used := used + 1;
    }
  }

  // ---- reaping ----

  /** What one poll of the guard sees: the child, whether the claim is cancelled, and the time. */
  datatype Child = Ended(code: Option<int>) | Alive | Unobservable
  datatype Look = Look(child: Child, cancelled: bool, now: nat)
  datatype Signal = Cancel | Timeout | Kill
  datatype Reaped = Reaped(exitCode: Option<int>, timedOut: bool)

  predicate Due(look: Look, deadline: nat) {
    look.cancelled || look.now >= deadline
  }

  /** `first` is the first look at which the guard had to be told to stop. */
  predicate FirstDue(looks: seq<Look>, deadline: nat, first: nat) {
    first < |looks| && Due(looks[first], deadline) && forall i :: 0 <= i < first ==> !Due(looks[i], deadline)
  }

  lemma FirstDueUnique(looks: seq<Look>, deadline: nat, first: nat)
    requires FirstDue(looks, deadline, first)
    ensures forall other: nat :: FirstDue(looks, deadline, other) ==> other == first
  {
  }

  function SignalAt(look: Look): Signal {
    if look.cancelled then Signal.Cancel else Signal.Timeout
  }

  /**
   The guard gets at most one stop signal, at the first look that is due, and is killed only when it is
   still alive a full settle budget later; `timedOut` says that the deadline, not the claim, stopped it.
   */
  method Reap(looks: seq<Look>, deadline: nat)
    returns (result: Result<Reaped, GuardError>, signals: seq<Signal>, used: nat)
    requires forall i, j :: 0 <= i <= j < |looks| ==> looks[i].now <= looks[j].now
    requires exists i :: 0 <= i < |looks| && !looks[i].child.Alive?
    ensures used < |looks| && forall i :: 0 <= i < used ==> looks[i].child.Alive?
    ensures (forall i :: 0 <= i < used ==> !Due(looks[i], deadline)) && !looks[used].child.Alive? ==>
              signals == [] && (result.Ok? ==> !result.value.timedOut)
    ensures forall first: nat :: FirstDue(looks, deadline, first) && (first < used || (first == used && looks[used].child.Alive?)) ==>
              && signals == [SignalAt(looks[first])] + (if looks[used].child.Alive? then [Kill] else [])
              && (result.Ok? ==> result.value.timedOut == !looks[first].cancelled)
              && (looks[used].child.Alive? ==> looks[used].now >= looks[first].now + GUARD_SETTLE_MS)
              && (forall i :: first <= i < used ==> looks[i].now < looks[first].now + GUARD_SETTLE_MS)
    ensures looks[used].child.Alive? ==>
              result.Ok? && result.value.exitCode == None && exists first: nat :: FirstDue(looks, deadline, first) && first <= used
    ensures looks[used].child.Ended? ==> result.Ok? && result.value.exitCode == looks[used].child.code
    ensures looks[used].child.Unobservable? ==> result == Err(IoError)
  {
    var signalled: Option<nat> := None;
    var timedOut := false;
    ghost var at := 0;
    signals := [];
    used := 0;
    while true
      invariant used < |looks|
      invariant exists i :: used <= i < |looks| && !looks[i].child.Alive?
      invariant forall i :: 0 <= i < used ==> looks[i].child.Alive?
      invariant signalled.None? ==> signals == [] && !timedOut && forall i :: 0 <= i < used ==> !Due(looks[i], deadline)
      invariant signalled.Some? ==>
                  && at < used && FirstDue(looks, deadline, at)
                  && (forall first: nat :: FirstDue(looks, deadline, first) ==> first == at)
                  && signalled.value == looks[at].now
                  && signals == [SignalAt(looks[at])]
                  && timedOut == !looks[at].cancelled
                  && forall i :: at <= i < used ==> looks[i].now < looks[at].now + GUARD_SETTLE_MS
      decreases |looks| - used
    {
      match looks[used].child {
      case Ended(code) => return Ok(Reaped(code, timedOut)), signals, used;
      case Unobservable => return Err(IoError), signals, used;
      case Alive => {}
      }
      var now := looks[used].now;
      if signalled.None? && Due(looks[used], deadline) {
        timedOut := !looks[used].cancelled;
        signals := signals + [SignalAt(looks[used])];
        signalled := Some(now);
        at := used;
        FirstDueUnique(looks, deadline, at);
      }
      if signalled.Some? && now - signalled.value >= GUARD_SETTLE_MS {
        signals := signals + [Kill];
        return Ok(Reaped(None, timedOut)), signals, used;
      }
      used := used + 1;
    }
  }
}
