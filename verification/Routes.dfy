/**
 Routes as `/proc/net/route` prints them and longest-prefix matching over them (section 5.1 of RFC 4632).
 A machine word is the sequence of its bits, most significant first. An address text and the address it
 spells are one value here, and so are the hexadecimal columns and the words they spell.
 */
module Routes {
  import opened Wrappers

  type Word = bits: seq<bool> | |bits| == 32 witness seq(32, _ => false)
  type Wide = bits: seq<bool> | |bits| == 128 witness seq(128, _ => false)

  datatype Ip = V4(word: Word) | V6(wide: Wide)
  datatype Cidr = Cidr(network: Ip, prefix: nat)

  /** `destination` is `None` when its text does not spell an address, a slash and a number. */
  datatype RouteEntry = RouteEntry(destination: Option<Cidr>, gateway: Option<Ip>, interface: Option<string>, metric: Option<nat>)

  /** One row of the IPv4 table with at least eight columns. */
  datatype RawRoute = RawRoute(interface: string, destination: Word, gateway: Option<Word>, mask: Word, metric: Option<nat>)

  // ---- words ----

  function And(x: seq<bool>, y: seq<bool>): (z: seq<bool>)
    requires |x| == |y|
    ensures |z| == |x|
  {
    seq(|x|, i requires 0 <= i < |x| => x[i] && y[i])
  }

  function ShiftLeft(x: seq<bool>, k: nat): (z: seq<bool>)
    requires k <= |x|
    ensures |z| == |x|
  {
    x[k..] + seq(k, _ => false)
  }

  function CountOnes(x: seq<bool>): nat {
    if x == [] then 0 else (if x[0] then 1 else 0) + CountOnes(x[1..])
  }

  function LeadingOnes(x: seq<bool>): nat {
    if x == [] || !x[0] then 0 else 1 + LeadingOnes(x[1..])
  }

  /** The bytes of a word in the opposite order. */
  function Swap(x: Word): Word {
    x[24..] + x[16..24] + x[8..16] + x[..8]
  }

  /** The first byte becomes the last, and no byte is changed. */
  lemma SwapReversesBytes(x: Word, byte: nat, bit: nat)
    requires byte < 4 && bit < 8
    ensures Swap(x)[8 * byte + bit] == x[8 * (3 - byte) + bit]
  {
  }

  lemma SwapTwice(x: Word)
    ensures Swap(Swap(x)) == x
  {
    assert x == x[..8] + x[8..16] + x[16..24] + x[24..];
  }

  lemma SwapAnd(x: Word, y: Word)
    ensures Swap(And(x, y)) == And(Swap(x), Swap(y))
  {
  }

  // ---- masks ----

  /** The mask of a prefix length. */
  function Mask(width: nat, prefix: nat): (m: seq<bool>)
    requires prefix <= width
    ensures |m| == width && forall i :: 0 <= i < width ==> m[i] == (i < prefix)
  {
    if prefix == 0 then seq(width, _ => false) else ShiftLeft(seq(width, _ => true), width - prefix)
  }

  function ContiguousPrefix(mask: seq<bool>): Option<nat> {
    if CountOnes(mask) == LeadingOnes(mask) then Some(LeadingOnes(mask)) else None
  }

  lemma {:induction false} NoOnes(x: seq<bool>)
    ensures CountOnes(x) == 0 <==> forall i :: 0 <= i < |x| ==> !x[i]
  {
    if x != [] {
      NoOnes(x[1..]);
      assert forall i :: 0 < i < |x| ==> x[i] == x[1..][i - 1];
    }
  }

  lemma {:induction false} OnesAfterTheRun(x: seq<bool>)
    ensures LeadingOnes(x) <= CountOnes(x) && LeadingOnes(x) <= |x|
    ensures forall i :: 0 <= i < LeadingOnes(x) ==> x[i]
    ensures LeadingOnes(x) < |x| ==> !x[LeadingOnes(x)]
    ensures CountOnes(x) == LeadingOnes(x) <==> forall i :: LeadingOnes(x) <= i < |x| ==> !x[i]
  {
    if x != [] {
      if x[0] {
        OnesAfterTheRun(x[1..]);
        assert forall i :: 0 < i < |x| ==> x[i] == x[1..][i - 1];
        assert forall i :: 0 <= i < |x[1..]| ==> x[1..][i] == x[i + 1];
      } else {
        NoOnes(x);
      }
    }
  }

  /** A word has a prefix length exactly when it is the mask of that length, and the mask of no other. */
  lemma ContiguousIsExact(mask: seq<bool>, prefix: nat)
    requires prefix <= |mask|
    ensures ContiguousPrefix(mask) == Some(prefix) <==> mask == Mask(|mask|, prefix)
    ensures ContiguousPrefix(mask).Some? ==> ContiguousPrefix(mask).value <= |mask|
  {
    OnesAfterTheRun(mask);
    if mask == Mask(|mask|, prefix) {
      var run := LeadingOnes(mask);
      assert run < |mask| ==> mask[run] == (run < prefix);
      assert run > 0 ==> mask[run - 1] == (run - 1 < prefix);
    }
  }

  // ---- matching ----

  function Width(address: Ip): nat {
    if address.V4? then 32 else 128
  }

  predicate Contains(network: Ip, prefix: nat, destination: Ip)
    requires prefix <= Width(network)
  {
    match (network, destination)
    case (V4(n), V4(d)) => prefix == 0 || And(n, Mask(32, prefix)) == And(d, Mask(32, prefix))
    case (V6(n), V6(d)) => prefix == 0 || And(n, Mask(128, prefix)) == And(d, Mask(128, prefix))
    case _ => false
  }

  /** Masking two words and comparing them compares their first bits. */
  lemma MaskingComparesPrefixes(x: seq<bool>, y: seq<bool>, prefix: nat)
    requires |x| == |y| && prefix <= |x|
    ensures And(x, Mask(|x|, prefix)) == And(y, Mask(|y|, prefix)) <==> x[..prefix] == y[..prefix]
  {
    var mask := Mask(|x|, prefix);
    if And(x, mask) == And(y, mask) {
      forall i | 0 <= i < prefix
        ensures x[i] == y[i]
      {
        assert And(x, mask)[i] == And(y, mask)[i];
      }
    }
    if x[..prefix] == y[..prefix] {
      assert forall i :: 0 <= i < prefix ==> x[i] == x[..prefix][i] && y[i] == y[..prefix][i];
      assert And(x, mask) == And(y, mask);
    }
  }

  function Bits(address: Ip): seq<bool> {
    match address
    case V4(word) => word
    case V6(wide) => wide
  }

  /** Containment is agreement on the first `prefix` bits of two addresses of one family. */
  lemma ContainsIsAPrefixMatch(network: Ip, prefix: nat, destination: Ip)
    requires prefix <= Width(network)
    ensures Contains(network, prefix, destination) <==>
              network.V4? == destination.V4? && Bits(network)[..prefix] == Bits(destination)[..prefix]
  {
    if network.V4? == destination.V4? {
      MaskingComparesPrefixes(Bits(network), Bits(destination), prefix);
    }
  }

  /** A row is refused when its mask is not contiguous. An all-zero gateway is no gateway. */
  function ReadRoute(row: RawRoute): Option<RouteEntry> {
    match ContiguousPrefix(Swap(row.mask))
    case None => None
    case Some(prefix) =>
      Some(RouteEntry(
        Some(Cidr(V4(Swap(row.destination)), prefix)),
        if row.gateway.Some? && Swap(row.gateway.value) != Mask(32, 0) then Some(V4(Swap(row.gateway.value))) else None,
        Some(row.interface),
        row.metric))
  }

  lemma SwapKeepsAgreement(x: Word, y: Word, mask: Word)
    ensures And(x, mask) == And(y, mask) <==> And(Swap(x), Swap(mask)) == And(Swap(y), Swap(mask))
  {
    SwapAnd(x, mask);
    SwapAnd(y, mask);
    SwapTwice(And(x, mask));
    SwapTwice(And(y, mask));
  }

  /** A row is accepted exactly when its mask, read in network order, is one run of leading ones. */
  lemma ReadRouteAcceptsMasks(row: RawRoute)
    ensures ReadRoute(row).Some? <==> exists p: nat :: p <= 32 && row.mask == Swap(Mask(32, p))
  {
    SwapTwice(row.mask);
    ContiguousIsExact(Swap(row.mask), 0);
    if ReadRoute(row).Some? {
      var p := ContiguousPrefix(Swap(row.mask)).value;
      ContiguousIsExact(Swap(row.mask), p);
      assert row.mask == Swap(Mask(32, p));
    } else {
      forall p: nat | p <= 32
        ensures row.mask != Swap(Mask(32, p))
      {
        SwapTwice(Mask(32, p));
        ContiguousIsExact(Swap(row.mask), p);
      }
    }
  }

  /** An accepted row's CIDR contains an address exactly when the raw words agree under the raw mask. */
  lemma ReadRouteKeepsMatching(row: RawRoute, destination: Word)
    requires ReadRoute(row).Some?
    ensures var cidr := ReadRoute(row).value.destination.value;
            && cidr.prefix <= Width(cidr.network)
            && (Contains(cidr.network, cidr.prefix, V4(Swap(destination))) <==>
                 And(destination, row.mask) == And(row.destination, row.mask))
  {
    var p := ContiguousPrefix(Swap(row.mask)).value;
    ContiguousIsExact(Swap(row.mask), 0);
    ContiguousIsExact(Swap(row.mask), p);
    SwapKeepsAgreement(row.destination, destination, row.mask);
    if p == 0 {
      MaskingComparesPrefixes(Swap(row.destination), Swap(destination), 0);
    }
  }

  /** The entry's destination is a CIDR that contains the address. */
  predicate Matches(entry: RouteEntry, destination: Ip) {
    && entry.destination.Some?
    && entry.destination.value.prefix <= Width(entry.destination.value.network)
    && Contains(entry.destination.value.network, entry.destination.value.prefix, destination)
  }

  /** Among the first `n` entries, the `i`-th is the earliest match of the greatest prefix length. */
  predicate IsBest(entries: seq<RouteEntry>, n: nat, destination: Ip, i: nat)
    requires n <= |entries|
  {
    && i < n && Matches(entries[i], destination)
    && forall j :: 0 <= j < n && Matches(entries[j], destination) ==>
         if j < i then entries[j].destination.value.prefix < entries[i].destination.value.prefix
         else entries[j].destination.value.prefix <= entries[i].destination.value.prefix
  }

  method LongestPrefixMatch(entries: seq<RouteEntry>, destination: Ip) returns (best: Option<RouteEntry>)
    ensures best.None? <==> forall i :: 0 <= i < |entries| ==> !Matches(entries[i], destination)
    ensures best.Some? ==> exists i: nat :: IsBest(entries, |entries|, destination, i) && entries[i] == best.value
  {
    var held: Option<(nat, RouteEntry)> := None;
    ghost var at: nat := 0;
    for k := 0 to |entries|
      invariant held.None? ==> forall i :: 0 <= i < k ==> !Matches(entries[i], destination)
      invariant held.Some? ==> IsBest(entries, k, destination, at)
                               && held.value == (entries[at].destination.value.prefix, entries[at])
    {
      var entry := entries[k];
      if entry.destination.None? {
        continue;
      }
      var Cidr(network, prefix) := entry.destination.value;
      if prefix > Width(network) || !Contains(network, prefix, destination) {
        continue;
      }
      if held.None? || prefix > held.value.0 {
        held := Some((prefix, entry));
        at := k;
      }
    }
    best := if held.Some? then Some(held.value.1) else None;
  }

  /** There is only one such entry. */
  lemma BestIsUnique(entries: seq<RouteEntry>, destination: Ip, i: nat, j: nat)
    requires IsBest(entries, |entries|, destination, i) && IsBest(entries, |entries|, destination, j)
    ensures i == j
  {
  }

  /** A longer matching prefix pins the destination to fewer addresses: it lies inside every shorter match. */
  lemma BestIsNested(entries: seq<RouteEntry>, destination: Ip, i: nat, j: nat, other: Ip)
    requires IsBest(entries, |entries|, destination, i)
    requires j < |entries| && Matches(entries[j], destination) && Matches(entries[i], other)
    ensures Matches(entries[j], other)
  {
    var best, shorter := entries[i].destination.value, entries[j].destination.value;
    ContainsIsAPrefixMatch(best.network, best.prefix, destination);
    ContainsIsAPrefixMatch(best.network, best.prefix, other);
    ContainsIsAPrefixMatch(shorter.network, shorter.prefix, destination);
    ContainsIsAPrefixMatch(shorter.network, shorter.prefix, other);
    var k := shorter.prefix;
    assert Bits(other)[..k] == Bits(other)[..best.prefix][..k];
    assert Bits(destination)[..k] == Bits(destination)[..best.prefix][..k];
  }
}
