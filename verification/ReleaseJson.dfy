/** The release tool's JSON values and their canonical text. A Java `char` is a 16-bit code unit. */
module ReleaseJson {
  import opened Wrappers

  const LONG_MAX: int := 0x7FFF_FFFF_FFFF_FFFF

  type Char16 = c: int | 0 <= c < 0x1_0000
  type Text = seq<Char16>
  type Long = n: int | -LONG_MAX - 1 <= n <= LONG_MAX

  /** `Members` is a LinkedHashMap in insertion order; `Opaque` is any value the writer does not support. */
  datatype Json = Object(members: Members) | Str(text: Text) | Num(value: Long) | Opaque
  datatype Members = Nil | More(key: Text, value: Json, rest: Members)

  const LF: Char16 := 0x0A
  const QUOTE: Char16 := 0x22
  const COMMA: Char16 := 0x2C
  const COLON: Char16 := 0x3A
  const BACKSLASH: Char16 := 0x5C
  const OPEN: Char16 := 0x7B
  const CLOSE: Char16 := 0x7D

  function Keys(ms: Members): set<Text> {
    if ms.Nil? then {} else {ms.key} + Keys(ms.rest)
  }

  function KeyList(ms: Members): seq<Text> {
    if ms.Nil? then [] else [ms.key] + KeyList(ms.rest)
  }

  function Append(a: Members, b: Members): Members {
    if a.Nil? then b else More(a.key, a.value, Append(a.rest, b))
  }

  /** Keys are distinct at every level and every number is a non-negative long. */
  predicate WellFormed(v: Json) {
    match v
    case Object(ms) => WellFormedMembers(ms)
    case Str(_) => true
    case Num(n) => n >= 0
    case Opaque => false
  }

  predicate WellFormedMembers(ms: Members) {
    ms.More? ==> ms.key !in Keys(ms.rest) && WellFormed(ms.value) && WellFormedMembers(ms.rest)
  }

  predicate Supported(v: Json) {
    match v
    case Object(ms) => SupportedMembers(ms)
    case Opaque => false
    case _ => true
  }

  predicate SupportedMembers(ms: Members) {
    ms.More? ==> Supported(ms.value) && SupportedMembers(ms.rest)
  }

  // ---- printing ----

  function Decimal(n: nat): (s: Text)
    ensures |s| > 0 && forall i :: 0 <= i < |s| ==> 0x30 <= s[i] <= 0x39
    ensures n > 0 ==> s[0] != 0x30
    ensures n == 0 ==> s == [0x30]
  {
    if n < 10 then [0x30 + n] else Decimal(n / 10) + [0x30 + n % 10]
  }

  function PrintLong(n: int): Text {
    if n < 0 then [0x2D] + Decimal(-n) else Decimal(n)
  }

  function LowerHex(d: nat): Char16
    requires d < 16
  {
    if d < 10 then 0x30 + d else 0x61 + (d - 10)
  }

  function EscapeUnit(c: Char16): Text {
    if c == QUOTE then [BACKSLASH, QUOTE]
    else if c == BACKSLASH then [BACKSLASH, BACKSLASH]
    else if c < 0x20 then [BACKSLASH, 0x75, 0x30, 0x30, LowerHex(c / 16), LowerHex(c % 16)]
    else [c]
  }

  function Escape(s: Text): Text {
    if s == [] then [] else EscapeUnit(s[0]) + Escape(s[1..])
  }

  function PrintString(s: Text): Text {
    [QUOTE] + Escape(s) + [QUOTE]
  }

  function Print(v: Json): Text {
    match v
    case Object(ms) => [OPEN] + PrintMembers(ms) + [CLOSE]
    case Str(s) => PrintString(s)
    case Num(n) => PrintLong(n)
    case Opaque => []
  }

  function PrintMembers(ms: Members): Text {
    if ms.Nil? then []
    else PrintString(ms.key) + [COLON] + Print(ms.value) + (if ms.rest.Nil? then [] else [COMMA] + PrintMembers(ms.rest))
  }

  /** What is left to write once some entries are out. */
  ghost function Continued(ms: Members, first: bool): Text {
    if ms.Nil? then [] else (if first then [] else [COMMA]) + PrintMembers(ms)
  }

  lemma GroupEntry(a: Text, b: Text, c: Text, d: Text, e: Text)
    ensures a + b + c + d + e == a + (b + (c + d + e))
    ensures b == [] ==> a + b == a
  {
  }

  lemma Regroup(a: Text, b: Text, c: Text, d: Text)
    ensures a + (b + (c + d)) == a + (b + c) + d
  {
  }

  lemma EscapedNext(out: Text, value: Text, i: nat)
    requires i < |value|
    ensures out + Escape(value[i..]) == out + EscapeUnit(value[i]) + Escape(value[i + 1..])
  {
    assert value[i..][0] == value[i] && value[i..][1..] == value[i + 1..];
    Append3(out, EscapeUnit(value[i]), Escape(value[i + 1..]));
  }

  lemma Append3(a: Text, b: Text, c: Text)
    ensures a + b + c == a + (b + c)
  {
  }

  /** The writer over a growing StringBuilder; it throws on the first value it does not support. */
  class JsonWriter {
    var out: Text

    constructor ()
      ensures out == []
    {
      out := [];
    }

    method WriteUnit(c: Char16)
      modifies this
      ensures out == old(out) + EscapeUnit(c)
    {
      if c == QUOTE {
        out := out + [BACKSLASH, QUOTE];
      } else if c == BACKSLASH {
        out := out + [BACKSLASH, BACKSLASH];
      } else if c < 0x20 {
        out := out + [BACKSLASH, 0x75, 0x30, 0x30, LowerHex(c / 16), LowerHex(c % 16)];
      } else {
        out := out + [c];
      }
    }

    method WriteString(value: Text)
      modifies this
      ensures out == old(out) + PrintString(value)
    {
      out := out + [QUOTE];
      ghost var start := out;
      assert value[0..] == value;
      for i := 0 to |value|
        invariant out + Escape(value[i..]) == start + Escape(value)
      {
        EscapedNext(out, value, i);
        WriteUnit(value[i]);
      }
      assert Escape(value[|value|..]) == [] && out == start + Escape(value);
      out := out + [QUOTE];
    }

    method WriteJson(value: Json) returns (ok: bool)
      modifies this
      ensures ok == Supported(value)
      ensures ok ==> out == old(out) + Print(value)
      decreases value, 1
    {
      match value {
        case Object(members) =>
          out := out + [OPEN];
          ok := WriteMembers(members);
          out := out + [CLOSE];
        case Str(text) =>
          WriteString(text);
          ok := true;
        case Num(number) =>
          out := out + PrintLong(number);
          ok := true;
        case Opaque =>
          ok := false;
      }
    }

    /** The loop over the entries of one map. */
    method WriteMembers(members: Members) returns (ok: bool)
      modifies this
      ensures ok == SupportedMembers(members)
      ensures ok ==> out == old(out) + PrintMembers(members)
      decreases members, 0
    {
      var cursor := members;
      var first := true;
      ghost var goal := out + PrintMembers(members);
      ok := true;
      while cursor.More?
        invariant cursor == members || cursor < members
        invariant out + Continued(cursor, first) == goal
        invariant SupportedMembers(members) == SupportedMembers(cursor)
        decreases cursor
      {
        Continuing(out, cursor, first);
        var written := WriteEntry(cursor.key, cursor.value, first);
        if !written {
          return false;
        }
        first := false;
        cursor := cursor.rest;
      }
    }

    method WriteEntry(key: Text, value: Json, first: bool) returns (ok: bool)
      modifies this
      ensures ok == Supported(value)
      ensures ok ==> out == old(out) + Entry(key, value, first)
      decreases value, 2
    {
      ghost var start := out;
      if !first {
        out := out + [COMMA];
      }
      WriteString(key);
      out := out + [COLON];
      ok := WriteJson(value);
      GroupEntry(start, if first then [] else [COMMA], PrintString(key), [COLON], Print(value));
    }
  }

  ghost function Entry(key: Text, value: Json, first: bool): Text {
    (if first then [] else [COMMA]) + (PrintString(key) + [COLON] + Print(value))
  }

  lemma Continuing(out: Text, cursor: Members, first: bool)
    requires cursor.More?
    ensures out + Continued(cursor, first) == out + Entry(cursor.key, cursor.value, first) + Continued(cursor.rest, false)
  {
    var separator := if first then [] else [COMMA];
    var entry := PrintString(cursor.key) + [COLON] + Print(cursor.value);
    assert PrintMembers(cursor) == entry + Continued(cursor.rest, false);
    Regroup(out, separator, entry, Continued(cursor.rest, false));
  }
}
