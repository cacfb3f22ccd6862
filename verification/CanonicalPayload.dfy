/** The canonical form of a public payload, over which its request hash is computed: object keys are sorted at every depth. */
module CanonicalPayload {
  /** What a number is written with. */
  predicate IsNumber(text: string) {
    text != "" && forall i :: 0 <= i < |text| ==> NumberChar(text[i])
  }

  predicate NumberChar(c: char) {
    '0' <= c <= '9' || c == '-' || c == '+' || c == '.' || c == 'e' || c == 'E'
  }

  /** A number begins with a digit or a minus sign. */
  type Numeral = text: string | IsNumber(text) && (text[0] == '-' || '0' <= text[0] <= '9') witness "0"

  datatype Scalar = Null | Bool(b: bool) | Number(numeral: Numeral) | Text(text: string)

  datatype Value = Leaf(scalar: Scalar) | Array(items: Items) | Object(members: Members)
  datatype Items = NoItems | Item(first: Value, others: Items)
  datatype Members = NoMembers | Member(key: string, value: Value, rest: Members)

  /** The order of keys: by their first difference, a prefix first. */
  predicate Less(a: string, b: string) {
    if b == "" then false
    else if a == "" then true
    else a[0] < b[0] || (a[0] == b[0] && Less(a[1..], b[1..]))
  }

  /** Collecting into an ordered map keeps the last of equal keys, so an earlier one goes in only when its key is absent. */
  function InsertAbsent(key: string, value: Value, sorted: Members): Members {
    match sorted
    case NoMembers => Member(key, value, NoMembers)
    case Member(k, v, rest) =>
      if k == key then sorted
      else if Less(key, k) then Member(key, value, sorted)
      else Member(k, v, InsertAbsent(key, value, rest))
  }

  function Canonicalize(v: Value): Value {
    match v
    case Leaf(_) => v
    case Array(items) => Array(CanonicalItems(items))
    case Object(members) => Object(CanonicalMembers(members))
  }

  function CanonicalItems(items: Items): Items {
    match items
    case NoItems => NoItems
    case Item(first, others) => Item(Canonicalize(first), CanonicalItems(others))
  }

  function CanonicalMembers(members: Members): Members {
    match members
    case NoMembers => NoMembers
    case Member(key, value, rest) => InsertAbsent(key, Canonicalize(value), CanonicalMembers(rest))
  }

  // ---- what a value means ----

  /** A value with the order of object keys forgotten at every depth. */
  datatype Meaning = Simple(scalar: Scalar) | List(items: seq<Meaning>) | Record(members: map<string, Meaning>)

  ghost function MeaningOf(v: Value): Meaning {
    match v
    case Leaf(scalar) => Simple(scalar)
    case Array(items) => List(MeaningOfItems(items))
    case Object(members) => Record(MeaningOfMembers(members))
  }

  ghost function MeaningOfItems(items: Items): seq<Meaning> {
    match items
    case NoItems => []
    case Item(first, others) => [MeaningOf(first)] + MeaningOfItems(others)
  }

  /** Of equal keys the last one counts. */
  ghost function MeaningOfMembers(members: Members): map<string, Meaning> {
    match members
    case NoMembers => map[]
    case Member(key, value, rest) => map[key := MeaningOf(value)] + MeaningOfMembers(rest)
  }

  predicate IsCanonical(v: Value) {
    match v
    case Leaf(_) => true
    case Array(items) => AreCanonical(items)
    case Object(members) => InOrder(members)
  }

  predicate AreCanonical(items: Items) {
    match items
    case NoItems => true
    case Item(first, others) => IsCanonical(first) && AreCanonical(others)
  }

  predicate InOrder(members: Members) {
    match members
    case NoMembers => true
    case Member(key, value, rest) => IsCanonical(value) && InOrder(rest) && (rest.Member? ==> Less(key, rest.key))
  }

  // ---- the order ----

  lemma {:induction false} LessIsTotal(a: string, b: string)
    ensures Less(a, b) || a == b || Less(b, a)
    ensures !(Less(a, b) && Less(b, a)) && !Less(a, a)
  {
    if a != "" {
      LessIsTotal(a[1..], a[1..]);
    }
    if a != "" && b != "" {
      LessIsTotal(a[1..], b[1..]);
      if a[0] == b[0] && a[1..] == b[1..] {
        assert a == [a[0]] + a[1..] && b == [b[0]] + b[1..];
      }
    }
  }

  /** A smaller key has the smaller character where the two first differ, or is cut short of the other. */
  lemma {:induction false} LessExactly(a: string, b: string)
    ensures Less(a, b) <==> exists i :: 0 <= i <= |a| && i < |b| && a[..i] == b[..i] && (i < |a| ==> a[i] < b[i])
    decreases |a|
  {
    if a != "" && b != "" {
      LessExactly(a[1..], b[1..]);
      if a[0] == b[0] {
        if i :| 0 <= i <= |a[1..]| && i < |b[1..]| && a[1..][..i] == b[1..][..i] && (i < |a[1..]| ==> a[1..][i] < b[1..][i]) {
          assert a[..i + 1] == [a[0]] + a[1..][..i] && b[..i + 1] == [b[0]] + b[1..][..i];
        }
        if i :| 0 <= i <= |a| && i < |b| && a[..i] == b[..i] && (i < |a| ==> a[i] < b[i]) {
          assert i > 0;
          assert a[1..][..i - 1] == a[..i][1..] == b[..i][1..] == b[1..][..i - 1];
        }
      } else {
        assert a[..0] == b[..0];
        assert forall i :: 0 < i <= |a| && i < |b| ==> a[..i][0] == a[0] && b[..i][0] == b[0];
      }
    } else if b != "" {
      assert a[..0] == b[..0];
    }
  }

  lemma {:induction false} LessThrough(a: string, b: string, c: string)
    requires Less(a, b) && Less(b, c)
    ensures Less(a, c)
  {
    if a != "" && a[0] == b[0] == c[0] {
      LessThrough(a[1..], b[1..], c[1..]);
    }
  }

  /** A sorted object holds no key below its first. */
  lemma {:induction false} FirstKeyIsLeast(members: Members, key: string)
    requires members.Member? && InOrder(members) && key in MeaningOfMembers(members)
    ensures key == members.key || Less(members.key, key)
  {
    if key != members.key && members.rest.Member? {
      FirstKeyIsLeast(members.rest, key);
      if Less(members.rest.key, key) {
        LessThrough(members.key, members.rest.key, key);
      }
    }
  }

  // ---- the canonical form ----

  lemma {:induction false} InsertKeepsOrder(key: string, value: Value, sorted: Members)
    requires InOrder(sorted) && IsCanonical(value)
    ensures InOrder(InsertAbsent(key, value, sorted))
  {
    if sorted.Member? {
      LessIsTotal(key, sorted.key);
      if sorted.key != key && !Less(key, sorted.key) {
        InsertKeepsOrder(key, value, sorted.rest);
      }
    }
  }

  lemma Overriding<T>(k: string, v: T, key: string, value: T, rest: map<string, T>)
    ensures k != key ==> map[k := v] + (map[key := value] + rest) == map[key := value] + (map[k := v] + rest)
    ensures map[key := value] + (map[key := v] + rest) == map[key := v] + rest
  {
  }

  lemma {:induction false} InsertKeepsMeaning(key: string, value: Value, sorted: Members)
    ensures MeaningOfMembers(InsertAbsent(key, value, sorted)) == map[key := MeaningOf(value)] + MeaningOfMembers(sorted)
  {
    if sorted.Member? {
      Overriding(sorted.key, MeaningOf(sorted.value), key, MeaningOf(value), MeaningOfMembers(sorted.rest));
      if sorted.key != key && !Less(key, sorted.key) {
        InsertKeepsMeaning(key, value, sorted.rest);
      }
    }
  }

  /** The canonical form is sorted at every depth and means the same. */
  lemma {:induction false} CanonicalizeIsFaithful(v: Value)
    ensures IsCanonical(Canonicalize(v)) && MeaningOf(Canonicalize(v)) == MeaningOf(v)
  {
    match v {
      case Leaf(_) =>
      case Array(items) => ItemsAreFaithful(items);
      case Object(members) => MembersAreFaithful(members);
    }
  }

  lemma {:induction false} ItemsAreFaithful(items: Items)
    ensures AreCanonical(CanonicalItems(items)) && MeaningOfItems(CanonicalItems(items)) == MeaningOfItems(items)
  {
    if items.Item? {
      CanonicalizeIsFaithful(items.first);
      ItemsAreFaithful(items.others);
    }
  }

  lemma {:induction false} MembersAreFaithful(members: Members)
    ensures InOrder(CanonicalMembers(members)) && MeaningOfMembers(CanonicalMembers(members)) == MeaningOfMembers(members)
  {
    if members.Member? {
      CanonicalizeIsFaithful(members.value);
      MembersAreFaithful(members.rest);
      InsertKeepsOrder(members.key, Canonicalize(members.value), CanonicalMembers(members.rest));
      InsertKeepsMeaning(members.key, Canonicalize(members.value), CanonicalMembers(members.rest));
    }
  }

  /** There is only one canonical value of each meaning. */
  lemma {:induction false} CanonicalIsDetermined(a: Value, b: Value)
    requires IsCanonical(a) && IsCanonical(b) && MeaningOf(a) == MeaningOf(b)
    ensures a == b
  {
    match a {
      case Leaf(_) =>
      case Array(items) => ItemsAreDetermined(items, b.items);
      case Object(members) => MembersAreDetermined(members, b.members);
    }
  }

  lemma {:induction false} ItemsAreDetermined(a: Items, b: Items)
    requires AreCanonical(a) && AreCanonical(b) && MeaningOfItems(a) == MeaningOfItems(b)
    ensures a == b
  {
    if a.Item? && b.Item? {
      assert MeaningOfItems(a)[0] == MeaningOf(a.first) && MeaningOfItems(b)[0] == MeaningOf(b.first);
      assert MeaningOfItems(a)[1..] == MeaningOfItems(a.others) && MeaningOfItems(b)[1..] == MeaningOfItems(b.others);
      CanonicalIsDetermined(a.first, b.first);
      ItemsAreDetermined(a.others, b.others);
    }
  }

  lemma {:induction false} MembersAreDetermined(a: Members, b: Members)
    requires InOrder(a) && InOrder(b) && MeaningOfMembers(a) == MeaningOfMembers(b)
    ensures a == b
  {
    OnlyNoneIsEmpty(a);
    OnlyNoneIsEmpty(b);
    if a.Member? && b.Member? {
      FirstKeyIsLeast(a, b.key);
      FirstKeyIsLeast(b, a.key);
      LessIsTotal(a.key, b.key);
      FirstIsNew(a);
      FirstIsNew(b);
      CanonicalIsDetermined(a.value, b.value);
      MembersAreDetermined(a.rest, b.rest);
    }
  }

  lemma OnlyNoneIsEmpty(members: Members)
    ensures MeaningOfMembers(members) == map[] <==> members.NoMembers?
  {
    if members.Member? {
      assert members.key in MeaningOfMembers(members);
    }
  }

  lemma FirstIsNew(members: Members)
    requires members.Member? && InOrder(members)
    ensures members.key !in MeaningOfMembers(members.rest)
    ensures MeaningOfMembers(members)[members.key] == MeaningOf(members.value)
    ensures MeaningOfMembers(members) - {members.key} == MeaningOfMembers(members.rest)
  {
    if members.key in MeaningOfMembers(members.rest) {
      FirstKeyIsLeast(members.rest, members.key);
      LessIsTotal(members.key, members.rest.key);
    }
  }

  /** Two payloads have one canonical form exactly when they differ at most in the order of object keys. */
  lemma CanonicalFormsAgree(a: Value, b: Value)
    ensures Canonicalize(a) == Canonicalize(b) <==> MeaningOf(a) == MeaningOf(b)
  {
    CanonicalizeIsFaithful(a);
    CanonicalizeIsFaithful(b);
    if MeaningOf(a) == MeaningOf(b) {
      CanonicalIsDetermined(Canonicalize(a), Canonicalize(b));
    }
  }

  lemma CanonicalizeIsIdempotent(v: Value)
    ensures Canonicalize(Canonicalize(v)) == Canonicalize(v)
    ensures Canonicalize(v) == v <==> IsCanonical(v)
  {
    CanonicalizeIsFaithful(v);
    CanonicalFormsAgree(Canonicalize(v), v);
    if IsCanonical(v) {
      CanonicalIsDetermined(Canonicalize(v), v);
    }
  }

  /** Swapping two members of different keys changes nothing that is hashed. */
  lemma SwappedMembersAgree(k: string, v: Value, key: string, value: Value, rest: Members)
    requires k != key
    ensures Canonicalize(Object(Member(k, v, Member(key, value, rest)))) == Canonicalize(Object(Member(key, value, Member(k, v, rest))))
  {
    var a, b := Object(Member(k, v, Member(key, value, rest))), Object(Member(key, value, Member(k, v, rest)));
    Overriding(k, MeaningOf(v), key, MeaningOf(value), MeaningOfMembers(rest));
    assert MeaningOfMembers(a.members) == map[k := MeaningOf(v)] + (map[key := MeaningOf(value)] + MeaningOfMembers(rest));
    assert MeaningOfMembers(b.members) == map[key := MeaningOf(value)] + (map[k := MeaningOf(v)] + MeaningOfMembers(rest));
    CanonicalFormsAgree(a, b);
  }
}
