/** The release tool's strict reader: objects, strings and non-negative integers, duplicate keys rejected. */
module ReleaseParser {
  import opened Wrappers
  import opened ReleaseJson

  datatype JsonError =
    | UnexpectedEnd | UnsupportedValue | ExpectedKey | ExpectedColon | ExpectedCommaOrClose | DuplicateKey
    | ControlCharacter | UnsupportedEscape | Unterminated | LeadingZero | NonInteger | TrailingContent
    | OutOfBounds | NumberFormat

  /** The first digit of every block of decimal digits (general category Nd) a 16-bit char can hold. */
  const DIGIT_ZEROS: seq<int> := [
    0x30, 0x660, 0x6F0, 0x7C0, 0x966, 0x9E6, 0xA66, 0xAE6, 0xB66, 0xBE6, 0xC66, 0xCE6, 0xD66, 0xDE6,
    0xE50, 0xED0, 0xF20, 0x1040, 0x1090, 0x17E0, 0x1810, 0x1946, 0x19D0, 0x1A80, 0x1A90, 0x1B50, 0x1BB0,
    0x1C40, 0x1C50, 0xA620, 0xA8D0, 0xA900, 0xA9D0, 0xA9F0, 0xAA50, 0xABF0, 0xFF10]

  function DigitIn(c: Char16, zeros: seq<int>): (r: Option<nat>)
    ensures r.Some? ==> r.value < 10
  {
    if zeros == [] then None
    else if zeros[0] <= c < zeros[0] + 10 then Some(c - zeros[0])
    else DigitIn(c, zeros[1..])
  }

  /** `Character.isDigit` and its value; the ASCII digits come first. */
  function DecimalDigit(c: Char16): (r: Option<nat>)
    ensures r.Some? ==> r.value < 10
    ensures 0x30 <= c <= 0x39 ==> r == Some(c - 0x30)
    ensures c < 0x30 || 0x3A <= c < 0x660 ==> r == None
  {
    if c < 0x660 then (if 0x30 <= c <= 0x39 then Some(c - 0x30) else None) else DigitIn(c, DIGIT_ZEROS[1..])
  }

  /** `Character.digit(c, 16)`: decimal digits, Latin letters and full-width Latin letters. */
  function HexDigit(c: Char16): (r: Option<nat>)
    ensures r.Some? ==> r.value < 16
  {
    if DecimalDigit(c).Some? then DecimalDigit(c)
    else if 0x41 <= c <= 0x46 then Some(c - 0x41 + 10)
    else if 0x61 <= c <= 0x66 then Some(c - 0x61 + 10)
    else if 0xFF21 <= c <= 0xFF26 then Some(c - 0xFF21 + 10)
    else if 0xFF41 <= c <= 0xFF46 then Some(c - 0xFF41 + 10)
    else None
  }

  /** `(char) Integer.parseInt(four, 16)`, which takes a leading sign and wraps into 16 bits. */
  function HexUnit(four: Text): Option<Char16>
    requires |four| == 4
  {
    if HexDigit(four[1]).None? || HexDigit(four[2]).None? || HexDigit(four[3]).None? then None
    else
      var low := HexDigit(four[1]).value * 256 + HexDigit(four[2]).value * 16 + HexDigit(four[3]).value;
      if four[0] == 0x2B then Some(low)
      else if four[0] == 0x2D then Some(if low == 0 then 0 else 0x1_0000 - low)
      else if HexDigit(four[0]).None? then None
      else Some(HexDigit(four[0]).value * 4096 + low)
  }

  // ---- the grammar as a function of the unread text ----

  type Parsed<T> = Result<(T, Text), JsonError>

  /** A string after its opening quote. */
  function StringBody(input: Text): (r: Parsed<Text>)
    ensures r.Ok? ==> |r.value.1| < |input|
  {
    if input == [] then Err(Unterminated)
    else if input[0] == QUOTE then Ok(([], input[1..]))
    else if input[0] < 0x20 then Err(ControlCharacter)
    else if input[0] != BACKSLASH then Prefixed(input[0], StringBody(input[1..]))
    else
      match Unescape(input[1..])
      case Err(e) => Err(e)
      case Ok((unit, rest)) => Prefixed(unit, StringBody(rest))
  }

  /** An escape after its backslash. */
  function Unescape(input: Text): (r: Parsed<Char16>)
    ensures r.Ok? ==> |r.value.1| < |input|
  {
    if input == [] then Err(OutOfBounds)
    else if input[0] == QUOTE || input[0] == BACKSLASH || input[0] == 0x2F then Ok((input[0], input[1..]))
    else if input[0] != 0x75 then Err(UnsupportedEscape)
    else if |input| < 5 then Err(OutOfBounds)
    else
      match HexUnit(input[1..5])
      case None => Err(NumberFormat)
      case Some(unit) => Ok((unit, input[5..]))
  }

  function Prefixed(c: Char16, r: Parsed<Text>): Parsed<Text> {
    match r
    case Err(e) => Err(e)
    case Ok((s, rest)) => Ok(([c] + s, rest))
  }

  function DigitRun(input: Text): (n: nat)
    ensures n <= |input| && forall i :: 0 <= i < n ==> DecimalDigit(input[i]).Some?
    ensures n < |input| ==> DecimalDigit(input[n]).None?
  {
    if input == [] || DecimalDigit(input[0]).None? then 0 else 1 + DigitRun(input[1..])
  }

  function LongValue(digits: Text): nat
    requires forall i :: 0 <= i < |digits| ==> DecimalDigit(digits[i]).Some?
  {
    if digits == [] then 0
    else LongValue(digits[..|digits| - 1]) * 10 + DecimalDigit(digits[|digits| - 1]).value
  }

  function ParseInteger(input: Text): Parsed<Long> {
    var n := DigitRun(input);
    var digits := input[..n];
    if n > 1 && digits[0] == 0x30 then Err(LeadingZero)
    else if n < |input| && (input[n] == 0x2E || input[n] == 0x65 || input[n] == 0x45) then Err(NonInteger)
    else if n == 0 || LongValue(digits) > LONG_MAX then Err(NumberFormat)
    else Ok((LongValue(digits), input[n..]))
  }

  function ParseValue(input: Text): (r: Parsed<Json>)
    ensures r.Ok? ==> |r.value.1| < |input|
    decreases |input|, 1
  {
    if input == [] then Err(UnexpectedEnd)
    else if input[0] == OPEN then
      if |input| == 1 then Err(UnexpectedEnd)
      else if input[1] == CLOSE then Ok((Object(Nil), input[2..]))
      else
        match ParseMembers(input[1..], {})
        case Err(e) => Err(e)
        case Ok((ms, rest)) => Ok((Object(ms), rest))
    else if input[0] == QUOTE then
      match StringBody(input[1..]) case Err(e) => Err(e) case Ok((s, rest)) => Ok((Str(s), rest))
    else if 0x30 <= input[0] <= 0x39 then
      match ParseInteger(input) case Err(e) => Err(e) case Ok((n, rest)) => Ok((Num(n), rest))
    else Err(UnsupportedValue)
  }

  /** One key, its colon and its value. */
  function ParseEntry(input: Text): (r: Parsed<(Text, Json)>)
    ensures r.Ok? ==> |r.value.1| < |input|
    decreases |input|, 0
  {
    if input == [] then Err(UnexpectedEnd)
    else if input[0] != QUOTE then Err(ExpectedKey)
    else
      match StringBody(input[1..])
      case Err(e) => Err(e)
      case Ok((key, r1)) =>
        if r1 == [] then Err(UnexpectedEnd)
        else if r1[0] != COLON then Err(ExpectedColon)
        else
          match ParseValue(r1[1..])
          case Err(e) => Err(e)
          case Ok((value, rest)) => Ok(((key, value), rest))
  }

  /** The entries of an object up to and with its closing brace; `seen` are the keys before them. */
  function ParseMembers(input: Text, seen: set<Text>): (r: Parsed<Members>)
    ensures r.Ok? ==> |r.value.1| < |input| && r.value.0.More?
    decreases |input|, 1
  {
    match ParseEntry(input)
    case Err(e) => Err(e)
    case Ok(((key, value), rest)) =>
      if key in seen then Err(DuplicateKey)
      else if rest == [] then Err(UnexpectedEnd)
      else if rest[0] == CLOSE then Ok((More(key, value, Nil), rest[1..]))
      else if rest[0] != COMMA then Err(ExpectedCommaOrClose)
      else
        match ParseMembers(rest[1..], seen + {key})
        case Err(e) => Err(e)
        case Ok((ms, r)) => Ok((More(key, value, ms), r))
  }

  function ParseDocument(text: Text): Result<Json, JsonError> {
    match ParseValue(text)
    case Err(e) => Err(e)
    case Ok((value, rest)) => if rest == [] || rest == [LF] then Ok(value) else Err(TrailingContent)
  }

  // ---- reading undoes printing ----

  lemma HexOfControl(c: Char16)
    requires c < 0x20
    ensures HexUnit([0x30, 0x30, LowerHex(c / 16), LowerHex(c % 16)]) == Some(c)
  {
  }

  lemma StringBodyUnit(c: Char16, more: Text)
    ensures StringBody(EscapeUnit(c) + more) == Prefixed(c, StringBody(more))
  {
    var input := EscapeUnit(c) + more;
    if c == QUOTE || c == BACKSLASH {
      assert input[1..] == [c] + more;
      assert ([c] + more)[1..] == more;
    } else if c < 0x20 {
      HexOfControl(c);
      var four := [0x30, 0x30, LowerHex(c / 16), LowerHex(c % 16)];
      assert input[1..] == [0x75] + four + more;
      assert ([0x75] + four + more)[1..5] == four;
      assert ([0x75] + four + more)[5..] == more;
    } else {
      assert input[1..] == more;
    }
  }

  lemma {:induction false} StringRoundTrip(s: Text, rest: Text)
    ensures StringBody(Escape(s) + [QUOTE] + rest) == Ok((s, rest))
    decreases |s|
  {
    var more := Escape(if s == [] then [] else s[1..]) + [QUOTE] + rest;
    if s == [] {
      assert Escape(s) + [QUOTE] + rest == [QUOTE] + rest;
    } else {
      assert Escape(s) + [QUOTE] + rest == EscapeUnit(s[0]) + more;
      StringBodyUnit(s[0], more);
      StringRoundTrip(s[1..], rest);
      assert [s[0]] + s[1..] == s;
    }
  }

  /** Text on which a number before it would go on. */
  predicate ContinuesNumber(rest: Text) {
    rest != [] && (DecimalDigit(rest[0]).Some? || rest[0] == 0x2E || rest[0] == 0x65 || rest[0] == 0x45)
  }

  lemma {:induction false} DecimalRun(digits: Text, rest: Text)
    requires forall i :: 0 <= i < |digits| ==> 0x30 <= digits[i] <= 0x39
    requires !ContinuesNumber(rest)
    ensures DigitRun(digits + rest) == |digits|
    decreases |digits|
  {
    if digits == [] {
      assert digits + rest == rest;
    } else {
      assert (digits + rest)[1..] == digits[1..] + rest;
      DecimalRun(digits[1..], rest);
    }
  }

  lemma {:induction false} DecimalValue(n: nat)
    ensures LongValue(Decimal(n)) == n
    decreases n
  {
    if n < 10 {
      assert Decimal(n)[..0] == [];
    } else {
      DecimalValue(n / 10);
      assert Decimal(n)[..|Decimal(n)| - 1] == Decimal(n / 10);
    }
  }

  lemma LeadingDigit(n: nat)
    ensures |Decimal(n)| > 1 ==> Decimal(n)[0] != 0x30
  {
  }

  lemma IntegerRoundTrip(n: nat, rest: Text)
    requires n <= LONG_MAX && !ContinuesNumber(rest)
    ensures ParseInteger(Decimal(n) + rest) == Ok((n, rest))
  {
    var input := Decimal(n) + rest;
    DecimalRun(Decimal(n), rest);
    DecimalValue(n);
    LeadingDigit(n);
    assert input[..|Decimal(n)|] == Decimal(n) && input[|Decimal(n)|..] == rest;
  }

  lemma KeyRoundTrip(key: Text, rest: Text)
    ensures var input := PrintString(key) + rest; input[0] == QUOTE && StringBody(input[1..]) == Ok((key, rest))
  {
    assert (PrintString(key) + rest)[1..] == Escape(key) + [QUOTE] + rest;
    StringRoundTrip(key, rest);
  }

  /** `parseValue` consumes exactly the printed value, whatever follows it; a number must end there. */
  lemma {:induction false} ValueRoundTrip(v: Json, rest: Text)
    requires WellFormed(v) && (v.Num? ==> !ContinuesNumber(rest))
    ensures ParseValue(Print(v) + rest) == Ok((v, rest))
    decreases v, 1
  {
    match v {
      case Object(ms) =>
        if ms.Nil? {
          EmptyObject(rest);
        } else {
          MembersRoundTrip(ms, {}, rest);
          ObjectRoundTrip(ms, rest);
        }
      case Str(s) =>
        KeyRoundTrip(s, rest);
      case Num(n) =>
        IntegerRoundTrip(n, rest);
    }
  }

  lemma EmptyObject(rest: Text)
    ensures ParseValue(Print(Object(Nil)) + rest) == Ok((Object(Nil), rest))
  {
    assert Print(Object(Nil)) + rest == [OPEN, CLOSE] + rest;
    assert ([OPEN, CLOSE] + rest)[2..] == rest;
  }

  lemma OpenedObject(printed: Text, rest: Text)
    requires printed != [] && printed[0] == QUOTE
    ensures var input := [OPEN] + printed + [CLOSE] + rest;
            |input| > 1 && input[0] == OPEN && input[1] != CLOSE && input[1..] == printed + [CLOSE] + rest
  {
  }

  lemma ReadObject(input: Text)
    requires |input| > 1 && input[0] == OPEN && input[1] != CLOSE
    ensures ParseValue(input) ==
            match ParseMembers(input[1..], {}) case Err(e) => Err(e) case Ok((ms, rest)) => Ok((Object(ms), rest))
  {
  }

  lemma ObjectRoundTrip(ms: Members, rest: Text)
    requires ms.More? && ParseMembers(PrintMembers(ms) + [CLOSE] + rest, {}) == Ok((ms, rest))
    ensures ParseValue(Print(Object(ms)) + rest) == Ok((Object(ms), rest))
  {
    FirstIsQuote(ms, []);
    assert PrintMembers(ms) + [] == PrintMembers(ms);
    OpenedObject(PrintMembers(ms), rest);
    ReadObject(Print(Object(ms)) + rest);
  }

  lemma FirstIsQuote(ms: Members, rest: Text)
    requires ms.More?
    ensures var s := PrintMembers(ms) + rest; |s| > 0 && s[0] == QUOTE
  {
  }

  lemma EntryRoundTrip(key: Text, value: Json, rest: Text)
    requires WellFormed(value) && (value.Num? ==> !ContinuesNumber(rest))
    ensures ParseEntry(PrintString(key) + [COLON] + Print(value) + rest) == Ok(((key, value), rest))
    decreases value, 2
  {
    var printed := Print(value);
    var afterKey := [COLON] + printed + rest;
    ValueRoundTrip(value, rest);
    KeyRoundTrip(key, afterKey);
    EntryAfterKey(PrintString(key) + afterKey, key, afterKey);
    DropFirst(COLON, printed, rest);
    GroupKey(PrintString(key), [COLON], printed, rest);
  }

  lemma DropFirst(c: Char16, a: Text, b: Text)
    ensures ([c] + a + b)[1..] == a + b
  {
  }

  lemma GroupKey(a: Text, b: Text, c: Text, d: Text)
    ensures a + b + c + d == a + (b + c + d)
  {
  }

  lemma EntryAfterKey(input: Text, key: Text, afterKey: Text)
    requires input != [] && input[0] == QUOTE && StringBody(input[1..]) == Ok((key, afterKey))
    requires afterKey != [] && afterKey[0] == COLON
    ensures ParseEntry(input) ==
            match ParseValue(afterKey[1..]) case Err(e) => Err(e) case Ok((value, rest)) => Ok(((key, value), rest))
  {
  }

  lemma {:induction false} MembersRoundTrip(ms: Members, seen: set<Text>, rest: Text)
    requires ms.More? && WellFormedMembers(ms) && Keys(ms) !! seen
    ensures ParseMembers(PrintMembers(ms) + [CLOSE] + rest, seen) == Ok((ms, rest))
    decreases ms, 0
  {
    var entry := PrintString(ms.key) + [COLON] + Print(ms.value);
    if ms.rest.Nil? {
      var after := [CLOSE] + rest;
      assert PrintMembers(ms) + [CLOSE] + rest == entry + after;
      EntryRoundTrip(ms.key, ms.value, after);
      assert after[1..] == rest;
    } else {
      var inside := PrintMembers(ms.rest) + [CLOSE] + rest;
      var after := [COMMA] + inside;
      assert PrintMembers(ms) + [CLOSE] + rest == entry + after;
      EntryRoundTrip(ms.key, ms.value, after);
      assert after[1..] == inside;
      MembersRoundTrip(ms.rest, seen + {ms.key}, rest);
    }
  }

  // ---- what the reader accepts ----

  /** Whatever is read is well formed: distinct keys at every level and only non-negative longs. */
  lemma {:induction false} ReadIsWellFormed(input: Text)
    requires ParseValue(input).Ok?
    ensures WellFormed(ParseValue(input).value.0)
    decreases |input|, 1
  {
    if input[0] == OPEN && input[1] != CLOSE {
      MembersReadAreWellFormed(input[1..], {});
    }
  }

  lemma {:induction false} MembersReadAreWellFormed(input: Text, seen: set<Text>)
    requires ParseMembers(input, seen).Ok?
    ensures var ms := ParseMembers(input, seen).value.0; WellFormedMembers(ms) && Keys(ms) !! seen
    decreases |input|, 0
  {
    var afterKey := StringBody(input[1..]).value.1;
    ReadIsWellFormed(afterKey[1..]);
    var ((key, value), rest) := ParseEntry(input).value;
    if rest[0] != CLOSE {
      MembersReadAreWellFormed(rest[1..], seen + {key});
    }
  }

  /** A tree is read back from its own print exactly when it is well formed; one line break may follow. */
  lemma DocumentRoundTrip(v: Json, end: Text)
    requires end == [] || end == [LF]
    ensures ParseDocument(Print(v) + end) == Ok(v) <==> WellFormed(v)
  {
    if WellFormed(v) {
      ValueRoundTrip(v, end);
    } else if ParseDocument(Print(v) + end) == Ok(v) {
      ReadIsWellFormed(Print(v) + end);
    }
  }

  /** Printing is injective on well-formed trees. */
  lemma PrintIsInjective(v: Json, w: Json)
    requires WellFormed(v) && WellFormed(w) && Print(v) == Print(w)
    ensures v == w
  {
    DocumentRoundTrip(v, []);
    DocumentRoundTrip(w, []);
  }

  /** Re-printing any accepted text gives a text that is accepted as the same tree: a fixed point. */
  lemma ReprintIsFixedPoint(text: Text)
    requires ParseDocument(text).Ok?
    ensures var again := Print(ParseDocument(text).value);
            ParseDocument(again) == ParseDocument(text) && Print(ParseDocument(again).value) == again
  {
    ReadIsWellFormed(text);
    var v := ParseDocument(text).value;
    DocumentRoundTrip(v, []);
    assert Print(v) + [] == Print(v);
  }
}
