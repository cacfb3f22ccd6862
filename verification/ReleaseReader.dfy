/** The cursor the release tool reads manifests with, and its check that a manifest is canonical. */
module ReleaseReader {
  import opened Wrappers
  import opened ReleaseJson
  import opened ReleaseParser

  /** What a reading method must do to the cursor: take exactly what the grammar takes from the unread text. */
  ghost predicate Reads<T(!new)>(before: Text, spec: Parsed<T>, result: Result<T, JsonError>, after: Text) {
    match spec
    case Err(e) => result == Err(e)
    case Ok((value, rest)) => result == Ok(value) && after == rest
  }

  class JsonParser {
    const text: Text
    var position: nat

    ghost function Unread(): Text
      reads this
    {
      if position <= |text| then text[position..] else []
    }

    constructor (text: Text)
      ensures this.text == text && position == 0 && Unread() == text
    {
      this.text := text;
      position := 0;
    }

    method ParseString() returns (result: Result<Text, JsonError>)
      requires position < |text|
      modifies this
      ensures Reads(old(Unread()), StringBody(old(Unread())[1..]), result, Unread())
      ensures result.Ok? ==> old(position) < position <= |text|
    {
      position := position + 1;
      ghost var start := Unread();
      assert start == old(Unread())[1..];
      var out: Text := [];
      while position < |text|
        invariant old(position) < position <= |text|
        invariant StringBody(start) == Joined(out, StringBody(Unread()))
        decreases |text| - position
      {
        ghost var here := Unread();
        var c := text[position];
        position := position + 1;
        assert here[0] == c && Unread() == here[1..];
        if c == QUOTE {
          assert out + [] == out;
          return Ok(out);
        }
        if c < 0x20 {
          return Err(ControlCharacter);
        }
        var unit := c;
        if c == BACKSLASH {
          var escaped := ParseEscape();
          if escaped.Err? {
            return Err(escaped.error);
          }
          unit := escaped.value;
        }
        JoinOne(out, unit, StringBody(Unread()));
        out := out + [unit];
      }
      return Err(Unterminated);
    }

    /** The escape case of `ParseString`. */
    method ParseEscape() returns (result: Result<Char16, JsonError>)
      requires position <= |text|
      modifies this
      ensures Reads(old(Unread()), Unescape(old(Unread())), result, Unread())
      ensures result.Ok? ==> old(position) < position <= |text|
    {
      ghost var here := Unread();
      if position >= |text| {
        return Err(OutOfBounds);
      }
      var escaped := text[position];
      position := position + 1;
      assert here[0] == escaped && Unread() == here[1..];
      if escaped == QUOTE || escaped == BACKSLASH || escaped == 0x2F {
        return Ok(escaped);
      }
      if escaped != 0x75 {
        return Err(UnsupportedEscape);
      }
      if position + 4 > |text| {
        return Err(OutOfBounds);
      }
      var unit := HexUnit(text[position..position + 4]);
      assert here[1..5] == text[position..position + 4];
      if unit.None? {
        return Err(NumberFormat);
      }
      position := position + 4;
      assert Unread() == here[5..];
      return Ok(unit.value);
    }

    method SkipDigits()
      requires position <= |text|
      modifies this
      ensures position == old(position) + DigitRun(old(Unread())) && position <= |text|
    {
      ghost var start, input := position, Unread();
      while position < |text| && DecimalDigit(text[position]).Some?
        invariant start <= position <= |text|
        invariant DigitRun(input) == position - start + DigitRun(text[position..])
        decreases |text| - position
      {
        assert text[position..][1..] == text[position + 1..];
        position := position + 1;
      }
    }

    method ParseInteger() returns (result: Result<Long, JsonError>)
      requires position < |text|
      modifies this
      ensures Reads(old(Unread()), ReleaseParser.ParseInteger(old(Unread())), result, Unread())
      ensures result.Ok? ==> old(position) < position <= |text|
    {
      var start := position;
      ghost var input := Unread();
      SkipDigits();
      var digits := text[start..position];
      assert digits == input[..position - start] && Unread() == input[position - start..];
      if |digits| > 1 && digits[0] == 0x30 {
        return Err(LeadingZero);
      }
      if position < |text| && (text[position] == 0x2E || text[position] == 0x65 || text[position] == 0x45) {
        return Err(NonInteger);
      }
      assert forall i :: 0 <= i < |digits| ==> digits[i] == input[i];
      if digits == [] || LongValue(digits) > LONG_MAX {
        return Err(NumberFormat);
      }
      return Ok(LongValue(digits));
    }

    method ParseValue() returns (result: Result<Json, JsonError>)
      requires position <= |text|
      modifies this
      ensures Reads(old(Unread()), ReleaseParser.ParseValue(old(Unread())), result, Unread())
      ensures result.Ok? ==> old(position) < position <= |text|
      decreases |text| - position, 2
    {
      if position >= |text| {
        return Err(UnexpectedEnd);
      }
      var c := text[position];
      assert Unread()[0] == c;
      if c == OPEN {
        var ms := ParseObject();
        return if ms.Ok? then Ok(Object(ms.value)) else Err(ms.error);
      }
      if c == QUOTE {
        var s := ParseString();
        return if s.Ok? then Ok(Str(s.value)) else Err(s.error);
      }
      if 0x30 <= c <= 0x39 {
        var n := ParseInteger();
        return if n.Ok? then Ok(Num(n.value)) else Err(n.error);
      }
      return Err(UnsupportedValue);
    }

    method ParseObject() returns (result: Result<Members, JsonError>)
      requires position < |text| && text[position] == OPEN
      modifies this
      ensures Reads(old(Unread()), ObjectBody(old(Unread())[1..]), result, Unread())
      ensures result.Ok? ==> old(position) < position <= |text|
      decreases |text| - position, 1
    {
      position := position + 1;
      assert Unread() == old(Unread())[1..];
      if position >= |text| {
        return Err(UnexpectedEnd);
      }
      if text[position] == CLOSE {
        position := position + 1;
        return Ok(Nil);
      }
      result := ParseMembers();
    }

    /** The loop of `ParseObject` over the entries of a non-empty object. */
    method ParseMembers() returns (result: Result<Members, JsonError>)
      requires position <= |text|
      modifies this
      ensures Reads(old(Unread()), ReleaseParser.ParseMembers(old(Unread()), {}), result, Unread())
      ensures result.Ok? ==> old(position) < position <= |text|
      decreases |text| - position, 3
    {
      ghost var start := Unread();
      var entries := Nil;
      while true
        invariant old(position) <= position <= |text|
        invariant ReleaseParser.ParseMembers(start, {}) == Chained(entries, ReleaseParser.ParseMembers(Unread(), Keys(entries)))
        decreases |text| - position
      {
        ghost var here := Unread();
        ghost var at := position;
        var entry := ParseEntry();
        MembersStep(here, entries);
        if entry.Err? {
          return Err(entry.error);
        }
        var (key, value) := entry.value;
        if key in Keys(entries) {
          return Err(DuplicateKey);
        }
        ghost var rest := Unread();
        entries := Append(entries, More(key, value, Nil));
        if position >= |text| {
          return Err(UnexpectedEnd);
        }
        var next := text[position];
        assert rest[0] == next;
        position := position + 1;
        assert Unread() == rest[1..];
        if next == CLOSE {
          return Ok(entries);
        }
        if next != COMMA {
          return Err(ExpectedCommaOrClose);
        }
      }
    }

    /** The key, colon and value at the head of the loop in `ParseObject`. */
    method ParseEntry() returns (result: Result<(Text, Json), JsonError>)
      requires position <= |text|
      modifies this
      ensures Reads(old(Unread()), ReleaseParser.ParseEntry(old(Unread())), result, Unread())
      ensures result.Ok? ==> old(position) < position <= |text|
      decreases |text| - position, 0
    {
      if position >= |text| {
        return Err(UnexpectedEnd);
      }
      assert Unread()[0] == text[position];
      if text[position] != QUOTE {
        return Err(ExpectedKey);
      }
      var key := ParseString();
      if key.Err? {
        return Err(key.error);
      }
      if position >= |text| {
        return Err(UnexpectedEnd);
      }
      assert Unread()[0] == text[position];
      if text[position] != COLON {
        return Err(ExpectedColon);
      }
      ghost var atColon := Unread();
      position := position + 1;
      assert Unread() == atColon[1..];
      var value := ParseValue();
      return if value.Ok? then Ok((key.value, value.value)) else Err(value.error);
    }

    method ParseDocument() returns (result: Result<Json, JsonError>)
      requires position == 0
      modifies this
      ensures result == ReleaseParser.ParseDocument(text)
    {
      assert Unread() == text;
      result := ParseValue();
      if result.Err? {
        return;
      }
      ghost var rest := Unread();
      if position < |text| && text[position] == LF {
        position := position + 1;
        assert rest == [LF] + text[position..];
      }
      if position != |text| {
        return Err(TrailingContent);
      }
    }
  }

  /** An object after its opening brace. */
  function ObjectBody(input: Text): Parsed<Members> {
    if input == [] then Err(UnexpectedEnd)
    else if input[0] == CLOSE then Ok((Nil, input[1..]))
    else ParseMembers(input, {})
  }

  ghost function Joined(s: Text, r: Parsed<Text>): (j: Parsed<Text>)
    ensures s == [] ==> j == r
  {
    if r.Err? then r
    else
      assert s == [] ==> s + r.value.0 == r.value.0;
      Ok((s + r.value.0, r.value.1))
  }

  lemma JoinOne(s: Text, c: Char16, r: Parsed<Text>)
    ensures Joined(s, Prefixed(c, r)) == Joined(s + [c], r)
  {
    if r.Ok? {
      assert s + ([c] + r.value.0) == s + [c] + r.value.0;
    }
  }

  ghost function Chained(ms: Members, r: Parsed<Members>): (j: Parsed<Members>)
    ensures ms.Nil? ==> j == r
  {
    if r.Err? then r else Ok((Append(ms, r.value.0), r.value.1))
  }

  lemma {:induction false} AppendKeys(a: Members, b: Members)
    ensures Keys(Append(a, b)) == Keys(a) + Keys(b)
  {
    if a.More? {
      AppendKeys(a.rest, b);
    }
  }

  lemma {:induction false} AppendAssoc(a: Members, b: Members, c: Members)
    ensures Append(Append(a, b), c) == Append(a, Append(b, c))
  {
    if a.More? {
      AppendAssoc(a.rest, b, c);
    }
  }

  /** One turn of the loop: what the rest of the object means once one more entry is in the map. */
  lemma MembersStep(input: Text, entries: Members)
    ensures var entry := ParseEntry(input);
            Chained(entries, ParseMembers(input, Keys(entries))) ==
              if entry.Err? then Err(entry.error)
              else
                var more := Append(entries, More(entry.value.0.0, entry.value.0.1, Nil));
                var rest := entry.value.1;
                if entry.value.0.0 in Keys(entries) then Err(DuplicateKey)
                else if rest == [] then Err(UnexpectedEnd)
                else if rest[0] == CLOSE then Ok((more, rest[1..]))
                else if rest[0] != COMMA then Err(ExpectedCommaOrClose)
                else Chained(more, ParseMembers(rest[1..], Keys(more)))
  {
    var entry := ParseEntry(input);
    if entry.Ok? {
      var key, value, rest := entry.value.0.0, entry.value.0.1, entry.value.1;
      AppendKeys(entries, More(key, value, Nil));
      assert Keys(Append(entries, More(key, value, Nil))) == Keys(entries) + {key};
      if key !in Keys(entries) && rest != [] && rest[0] == COMMA {
        ChainOne(entries, key, value, ParseMembers(rest[1..], Keys(entries) + {key}));
      }
    }
  }

  lemma ChainOne(ms: Members, key: Text, value: Json, r: Parsed<Members>)
    ensures Chained(Append(ms, More(key, value, Nil)), r) ==
            if r.Err? then r else Ok((Append(ms, More(key, value, r.value.0)), r.value.1))
  {
    if r.Ok? {
      AppendAssoc(ms, More(key, value, Nil), r.value.0);
      assert Append(More(key, value, Nil), r.value.0) == More(key, value, r.value.0);
    }
  }

  // ---- the canonical-bytes check of a release manifest ----

  function Lookup(ms: Members, key: Text): Json
    requires key in Keys(ms)
  {
    if ms.key == key then ms.value else Lookup(ms.rest, key)
  }

  /** The members of `ms` in the order of `keys`. */
  function Ordered(ms: Members, keys: seq<Text>): Members
    requires forall i :: 0 <= i < |keys| ==> keys[i] in Keys(ms)
  {
    if keys == [] then Nil else More(keys[0], Lookup(ms, keys[0]), Ordered(ms, keys[1..]))
  }

  ghost predicate Distinct(keys: seq<Text>) {
    forall i, j :: 0 <= i < j < |keys| ==> keys[i] != keys[j]
  }

  /** An object with exactly these keys, in their order; any other value is refused. Nested objects keep their order. */
  method ObjectOf(value: Json, keys: seq<Text>) returns (result: Option<Members>)
    requires Distinct(keys)
    ensures result.Some? <==> value.Object? && Keys(value.members) == set key | key in keys
    ensures result.Some? ==> (forall i :: 0 <= i < |keys| ==> keys[i] in Keys(value.members)) && result.value == Ordered(value.members, keys)
  {
    if !value.Object? {
      return None;
    }
    var map' := value.members;
    if Keys(map') != set key | key in keys {
      return None;
    }
    var ordered := Nil;
    assert keys[0..] == keys;
    assert forall i :: 0 <= i < |keys| ==> keys[i] in (set key | key in keys);
    for i := 0 to |keys|
      invariant Append(ordered, Ordered(map', keys[i..])) == Ordered(map', keys)
    {
      assert keys[i..][1..] == keys[i + 1..];
      AppendAssoc(ordered, More(keys[i], Lookup(map', keys[i]), Nil), Ordered(map', keys[i + 1..]));
      ordered := Append(ordered, More(keys[i], Lookup(map', keys[i]), Nil));
    }
    AppendNil(ordered);
    return Some(ordered);
  }

  lemma {:induction false} AppendNil(ms: Members)
    ensures Append(ms, Nil) == ms
  {
    if ms.More? {
      AppendNil(ms.rest);
    }
  }

  lemma {:induction false} LookupIsWellFormed(ms: Members, key: Text)
    requires WellFormedMembers(ms) && key in Keys(ms)
    ensures WellFormed(Lookup(ms, key))
  {
    if ms.key != key {
      LookupIsWellFormed(ms.rest, key);
    }
  }

  lemma {:induction false} OrderedIsWellFormed(ms: Members, keys: seq<Text>)
    requires WellFormedMembers(ms) && Distinct(keys) && forall i :: 0 <= i < |keys| ==> keys[i] in Keys(ms)
    ensures var o := Ordered(ms, keys); WellFormedMembers(o) && KeyList(o) == keys && Keys(o) == set key | key in keys
    decreases |keys|
  {
    if keys != [] {
      OrderedIsWellFormed(ms, keys[1..]);
      LookupIsWellFormed(ms, keys[0]);
      assert keys == [keys[0]] + keys[1..];
    }
  }

  lemma {:induction false} KeyListKeys(ms: Members)
    ensures Keys(ms) == set key | key in KeyList(ms)
  {
    if ms.More? {
      KeyListKeys(ms.rest);
    }
  }

  /** Members already in the order of `keys` are left alone. */
  lemma {:induction false} OrderedIsIdentity(whole: Members, ms: Members)
    requires WellFormedMembers(ms)
    requires forall key :: key in Keys(ms) ==> key in Keys(whole) && Lookup(whole, key) == Lookup(ms, key)
    ensures forall i :: 0 <= i < |KeyList(ms)| ==> KeyList(ms)[i] in Keys(whole)
    ensures Ordered(whole, KeyList(ms)) == ms
  {
    KeyListKeys(ms);
    if ms.More? {
      OrderedIsIdentity(whole, ms.rest);
      assert KeyList(ms)[1..] == KeyList(ms.rest);
    }
  }

  method VerifyCanonical(text: Text, keys: seq<Text>) returns (ok: bool)
    requires Distinct(keys)
    ensures ok <==> IsCanonical(text, keys)
  {
    CanonicalEnding(text, keys);
    if |text| == 0 || text[|text| - 1] != LF || (|text| >= 2 && text[|text| - 2] == LF) {
      return false;
    }
    var parser := new JsonParser(text);
    var parsed := parser.ParseDocument();
    CanonicalIsRead(text, keys);
    if parsed.Err? {
      return false;
    }
    var ordered := ObjectOf(parsed.value, keys);
    if ordered.None? {
      return false;
    }
    var writer := new JsonWriter();
    var written := writer.WriteJson(Object(ordered.value));
    ReadIsWellFormed(text);
    OrderedIsWellFormed(parsed.value.members, keys);
    WellFormedIsSupported(Object(ordered.value));
    assert [] + Print(Object(ordered.value)) == Print(Object(ordered.value));
    ok := writer.out + [LF] == text;
    if ok {
      assert CanonicalAs(text, keys, ordered.value);
    }
  }

  ghost predicate CanonicalAs(text: Text, keys: seq<Text>, ms: Members) {
    WellFormedMembers(ms) && KeyList(ms) == keys && text == Print(Object(ms)) + [LF]
  }

  /** The texts a release may carry: one well-formed object with these keys in this order, and one line break. */
  ghost predicate IsCanonical(text: Text, keys: seq<Text>) {
    exists ms :: CanonicalAs(text, keys, ms)
  }

  lemma CanonicalEnding(text: Text, keys: seq<Text>)
    ensures IsCanonical(text, keys) ==> |text| >= 2 && text[|text| - 1] == LF && text[|text| - 2] != LF
  {
    if IsCanonical(text, keys) {
      var ms :| CanonicalAs(text, keys, ms);
      assert text == [OPEN] + PrintMembers(ms) + [CLOSE] + [LF];
    }
  }

  /** A canonical text is read as the object it prints, and reordering its top level changes nothing. */
  lemma CanonicalIsRead(text: Text, keys: seq<Text>)
    ensures forall ms :: CanonicalAs(text, keys, ms) ==>
              && ParseDocument(text) == Ok(Object(ms))
              && Keys(ms) == (set key | key in keys)
              && (forall i :: 0 <= i < |keys| ==> keys[i] in Keys(ms))
              && Ordered(ms, keys) == ms
  {
    forall ms | CanonicalAs(text, keys, ms)
      ensures ParseDocument(text) == Ok(Object(ms)) && Keys(ms) == (set key | key in keys)
      ensures (forall i :: 0 <= i < |keys| ==> keys[i] in Keys(ms)) && Ordered(ms, keys) == ms
    {
      DocumentRoundTrip(Object(ms), [LF]);
      KeyListKeys(ms);
      OrderedIsIdentity(ms, ms);
    }
  }

  lemma {:induction false} WellFormedIsSupported(v: Json)
    requires WellFormed(v)
    ensures Supported(v)
  {
    if v.Object? {
      MembersAreSupported(v.members);
    }
  }

  lemma {:induction false} MembersAreSupported(ms: Members)
    requires WellFormedMembers(ms)
    ensures SupportedMembers(ms)
  {
    if ms.More? {
      WellFormedIsSupported(ms.value);
      MembersAreSupported(ms.rest);
    }
  }

  // ---- which order the check fixes ----

  /** The same members, in any order. */
  ghost predicate Reordered(a: Members, b: Members) {
    Keys(a) == Keys(b) && forall key :: key in Keys(a) ==> Lookup(a, key) == Lookup(b, key)
  }

  /** The member of one key with another value. */
  function With(ms: Members, key: Text, value: Json): Members {
    if ms.Nil? then Nil
    else if ms.key == key then More(key, value, ms.rest)
    else More(ms.key, ms.value, With(ms.rest, key, value))
  }

  lemma {:induction false} WithKeeps(ms: Members, key: Text, value: Json)
    requires WellFormedMembers(ms) && key in Keys(ms) && WellFormed(value)
    ensures var t := With(ms, key, value);
            WellFormedMembers(t) && KeyList(t) == KeyList(ms) && Keys(t) == Keys(ms) && Lookup(t, key) == value
  {
    if ms.key != key {
      WithKeeps(ms.rest, key, value);
    }
  }

  /** A canonical text stays canonical, and becomes another one, when the members of a nested object are reordered. */
  lemma NestedOrderIsFree(text: Text, keys: seq<Text>, ms: Members, key: Text, inner: Members, other: Members)
    requires CanonicalAs(text, keys, ms) && key in Keys(ms) && Lookup(ms, key) == Object(inner)
    requires WellFormedMembers(other) && Reordered(inner, other) && inner != other
    ensures var again := Print(Object(With(ms, key, Object(other)))) + [LF];
            IsCanonical(again, keys) && again != text
  {
    var t := With(ms, key, Object(other));
    WithKeeps(ms, key, Object(other));
    assert CanonicalAs(Print(Object(t)) + [LF], keys, t);
    DifferentPrints(Object(ms), Object(t));
  }

  lemma DifferentPrints(v: Json, w: Json)
    requires WellFormed(v) && WellFormed(w) && v != w
    ensures Print(v) + [LF] != Print(w) + [LF]
  {
    if Print(v) + [LF] == Print(w) + [LF] {
      assert Print(v) == (Print(v) + [LF])[..|Print(v) + [LF]| - 1] == Print(w);
      PrintIsInjective(v, w);
    }
  }

  /** Reordering the top level of a canonical text never gives another one. */
  lemma TopOrderIsFixed(text: Text, other: Text, keys: seq<Text>, ms: Members, ns: Members)
    requires CanonicalAs(text, keys, ms) && CanonicalAs(other, keys, ns) && Reordered(ms, ns)
    ensures text == other
  {
    SameListSameMembers(ms, ns);
  }

  lemma {:induction false} SameListSameMembers(ms: Members, ns: Members)
    requires WellFormedMembers(ms) && WellFormedMembers(ns) && KeyList(ms) == KeyList(ns)
    requires forall key :: key in Keys(ms) && key in Keys(ns) ==> Lookup(ms, key) == Lookup(ns, key)
    ensures ms == ns
  {
    assert ms.More? ==> KeyList(ms) != [];
    assert ns.More? ==> KeyList(ns) != [];
    if ms.More? {
      assert KeyList(ms)[0] == ms.key && KeyList(ns)[0] == ns.key;
      assert KeyList(ms)[1..] == KeyList(ms.rest) && KeyList(ns)[1..] == KeyList(ns.rest);
      assert ms.value == Lookup(ms, ms.key) == Lookup(ns, ns.key) == ns.value;
      forall key | key in Keys(ms.rest) && key in Keys(ns.rest)
        ensures Lookup(ms.rest, key) == Lookup(ns.rest, key)
      {
        assert Lookup(ms, key) == Lookup(ns, key);
      }
      SameListSameMembers(ms.rest, ns.rest);
    }
  }
}
