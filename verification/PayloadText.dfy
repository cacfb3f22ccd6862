/**
 The text a payload is hashed as: the compact JSON of its canonical form (RFC 8259). Two values never have one
 text, because a text can be read from its front in one way only.
 */
module PayloadText {
  import opened CanonicalPayload

  // ---- the writer ----

  function LowerHex(d: nat): char
    requires d < 16
  {
    if d < 10 then '0' + d as char else 'a' + (d - 10) as char
  }

  function Escaped(c: char): string {
    if c == '"' then ['\\', '"']
    else if c == '\\' then ['\\', '\\']
    else if c == '\U{08}' then ['\\', 'b']
    else if c == '\U{0C}' then ['\\', 'f']
    else if c == '\n' then ['\\', 'n']
    else if c == '\r' then ['\\', 'r']
    else if c == '\t' then ['\\', 't']
    else if c < ' ' then ['\\', 'u', '0', '0', LowerHex(c as nat / 16), LowerHex(c as nat % 16)]
    else [c]
  }

  function Body(s: string): string {
    if s == "" then "" else Escaped(s[0]) + Body(s[1..])
  }

  function Quoted(s: string): string {
    ['"'] + (Body(s) + ['"'])
  }

  function WriteScalar(scalar: Scalar): string {
    match scalar
    case Null => "null"
    case Bool(b) => if b then "true" else "false"
    case Number(numeral) => numeral
    case Text(text) => Quoted(text)
  }

  function Write(v: Value): string {
    match v
    case Leaf(scalar) => WriteScalar(scalar)
    case Array(items) => ['['] + (WriteItems(items) + [']'])
    case Object(members) => ['{'] + (WriteMembers(members) + ['}'])
  }

  function WriteItems(items: Items): string {
    match items
    case NoItems => ""
    case Item(first, others) => Write(first) + (if others.NoItems? then "" else [','] + WriteItems(others))
  }

  function WriteMembers(members: Members): string {
    match members
    case NoMembers => ""
    case Member(key, value, rest) =>
      Quoted(key) + ([':'] + (Write(value) + (if rest.NoMembers? then "" else [','] + WriteMembers(rest))))
  }

  // ---- texts are read from the front in one way ----

  lemma Cancel(a: string, x: string, y: string)
    requires a + x == a + y
    ensures x == y
  {
    assert (a + x)[|a|..] == x && (a + y)[|a|..] == y;
  }

  lemma Regroup(a: string, b: string, c: string)
    ensures (a + b) + c == a + (b + c)
  {
  }

  lemma HexDigits(c: char, d: char)
    requires c < ' ' && d < ' '
    requires LowerHex(c as nat / 16) == LowerHex(d as nat / 16) && LowerHex(c as nat % 16) == LowerHex(d as nat % 16)
    ensures c == d
  {
    assert c as nat == c as nat / 16 * 16 + c as nat % 16 && d as nat == d as nat / 16 * 16 + d as nat % 16;
  }

  lemma EscapedIsRead(c: char, d: char, x: string, y: string)
    requires Escaped(c) + x == Escaped(d) + y
    ensures c == d && x == y
  {
    var s := Escaped(c) + x;
    assert s[0] == Escaped(c)[0] == Escaped(d)[0];
    if s[0] == '\\' {
      assert s[1] == Escaped(c)[1] == Escaped(d)[1];
      if s[1] == 'u' {
        assert s[4] == Escaped(c)[4] == Escaped(d)[4] && s[5] == Escaped(c)[5] == Escaped(d)[5];
        HexDigits(c, d);
      }
    }
    Cancel(Escaped(c), x, y);
  }

  lemma NotAQuote(c: char)
    ensures Escaped(c)[0] != '"'
  {
  }

  lemma {:induction false} BodyIsRead(s: string, t: string, x: string, y: string)
    requires Body(s) + (['"'] + x) == Body(t) + (['"'] + y)
    ensures s == t && x == y
    decreases |s|
  {
    if s == "" || t == "" {
      FirstOfBody(s, x);
      FirstOfBody(t, y);
      Cancel(['"'], x, y);
    } else {
      Regroup(Escaped(s[0]), Body(s[1..]), ['"'] + x);
      Regroup(Escaped(t[0]), Body(t[1..]), ['"'] + y);
      EscapedIsRead(s[0], t[0], Body(s[1..]) + (['"'] + x), Body(t[1..]) + (['"'] + y));
      BodyIsRead(s[1..], t[1..], x, y);
      assert s == [s[0]] + s[1..] && t == [t[0]] + t[1..];
    }
  }

  /** A closing quote stands first only after the empty string. */
  lemma FirstOfBody(s: string, x: string)
    ensures s == "" ==> Body(s) + (['"'] + x) == ['"'] + x
    ensures (Body(s) + (['"'] + x))[0] == '"' <==> s == ""
  {
    if s != "" {
      NotAQuote(s[0]);
      assert (Body(s) + (['"'] + x))[0] == Escaped(s[0])[0];
    }
  }

  lemma QuotedIsRead(s: string, t: string, x: string, y: string)
    requires Quoted(s) + x == Quoted(t) + y
    ensures s == t && x == y
  {
    QuotedSpelled(s, x);
    QuotedSpelled(t, y);
    Cancel(['"'], Body(s) + (['"'] + x), Body(t) + (['"'] + y));
    BodyIsRead(s, t, x, y);
  }

  lemma QuotedSpelled(s: string, x: string)
    ensures Quoted(s) + x == ['"'] + (Body(s) + (['"'] + x))
  {
    Regroup(['"'], Body(s) + ['"'], x);
    Regroup(Body(s), ['"'], x);
  }

  /** What may follow a value: nothing, a comma or a closing bracket. */
  predicate Stops(x: string) {
    x == "" || x[0] == ',' || x[0] == ']' || x[0] == '}'
  }

  lemma NumeralIsRead(s: Numeral, t: Numeral, x: string, y: string)
    requires s + x == t + y && Stops(x) && Stops(y)
    ensures s == t && x == y
  {
    if |s| < |t| {
      NumeralGoesOn(s, t, x, y);
    } else if |t| < |s| {
      NumeralGoesOn(t, s, y, x);
    } else {
      assert s == (s + x)[..|s|] == (t + y)[..|t|] == t;
      Cancel(s, x, y);
    }
  }

  lemma NumeralGoesOn(s: Numeral, t: Numeral, x: string, y: string)
    requires s + x == t + y && |s| < |t|
    ensures !Stops(x)
  {
    assert x[0] == (s + x)[|s|] == (t + y)[|s|] == t[|s|];
    assert NumberChar(t[|s|]);
  }

  /** The kind of a value shows in its first character. */
  function Kind(c: char): nat {
    if c == 'n' then 0 else if c == 't' then 1 else if c == 'f' then 2 else if c == '"' then 3
    else if c == '[' then 4 else if c == '{' then 5 else if c == '-' || '0' <= c <= '9' then 6 else 7
  }

  function KindOf(v: Value): nat {
    match v
    case Leaf(Null) => 0
    case Leaf(Bool(b)) => if b then 1 else 2
    case Leaf(Number(_)) => 6
    case Leaf(Text(_)) => 3
    case Array(_) => 4
    case Object(_) => 5
  }

  lemma FirstShowsKind(v: Value, x: string)
    ensures Write(v) + x != "" && Kind((Write(v) + x)[0]) == KindOf(v)
  {
    assert Write(v) != "" && (Write(v) + x)[0] == Write(v)[0];
  }

  lemma ScalarIsRead(a: Scalar, b: Scalar, x: string, y: string)
    requires WriteScalar(a) + x == WriteScalar(b) + y && Stops(x) && Stops(y)
    requires KindOf(Leaf(a)) == KindOf(Leaf(b))
    ensures a == b && x == y
  {
    match a {
      case Number(numeral) => NumeralIsRead(numeral, b.numeral, x, y);
      case Text(text) => QuotedIsRead(text, b.text, x, y);
      case _ => Cancel(WriteScalar(a), x, y);
    }
  }

  lemma Bracketed(open: char, inside: string, close: char, x: string)
    ensures ([open] + (inside + [close])) + x == [open] + (inside + ([close] + x))
  {
    Regroup([open], inside + [close], x);
    Regroup(inside, [close], x);
  }

  /** A written value is read off the front of a text in one way. */
  lemma {:induction false} ValueIsRead(v: Value, w: Value, x: string, y: string)
    requires Write(v) + x == Write(w) + y && Stops(x) && Stops(y)
    ensures v == w && x == y
    decreases v, 1
  {
    FirstShowsKind(v, x);
    FirstShowsKind(w, y);
    match v {
      case Leaf(scalar) => ScalarIsRead(scalar, w.scalar, x, y);
      case Array(items) =>
        Bracketed('[', WriteItems(items), ']', x);
        Bracketed('[', WriteItems(w.items), ']', y);
        Cancel(['['], WriteItems(items) + ([']'] + x), WriteItems(w.items) + ([']'] + y));
        ItemsAreRead(items, w.items, x, y);
      case Object(members) =>
        Bracketed('{', WriteMembers(members), '}', x);
        Bracketed('{', WriteMembers(w.members), '}', y);
        Cancel(['{'], WriteMembers(members) + (['}'] + x), WriteMembers(w.members) + (['}'] + y));
        MembersAreRead(members, w.members, x, y);
    }
  }

  /** What stands behind the first item of a list, up to its end. */
  function AfterItem(others: Items, x: string): string {
    (if others.NoItems? then "" else [','] + WriteItems(others)) + ([']'] + x)
  }

  lemma AfterItemSpelled(others: Items, x: string)
    ensures Stops(AfterItem(others, x))
    ensures others.NoItems? ==> AfterItem(others, x) == [']'] + x
    ensures others.Item? ==> AfterItem(others, x) == [','] + (WriteItems(others) + ([']'] + x))
  {
    if others.Item? {
      Regroup([','], WriteItems(others), [']'] + x);
    }
  }

  lemma {:induction false} ItemsAreRead(a: Items, b: Items, x: string, y: string)
    requires WriteItems(a) + ([']'] + x) == WriteItems(b) + ([']'] + y)
    ensures a == b && x == y
    decreases a, 0
  {
    FirstOfItems(a, x);
    FirstOfItems(b, y);
    if a.Item? && b.Item? {
      AfterItemSpelled(a.others, x);
      AfterItemSpelled(b.others, y);
      ValueIsRead(a.first, b.first, AfterItem(a.others, x), AfterItem(b.others, y));
      OthersAreRead(a, b, x, y);
    } else if a.NoItems? && b.NoItems? {
      Cancel([']'], x, y);
    }
  }

  lemma {:induction false} OthersAreRead(a: Items, b: Items, x: string, y: string)
    requires a.Item? && b.Item? && AfterItem(a.others, x) == AfterItem(b.others, y)
    ensures a.others == b.others && x == y
    decreases a.others, 1
  {
    AfterItemSpelled(a.others, x);
    AfterItemSpelled(b.others, y);
    if a.others.Item? && b.others.Item? {
      Cancel([','], WriteItems(a.others) + ([']'] + x), WriteItems(b.others) + ([']'] + y));
      ItemsAreRead(a.others, b.others, x, y);
    } else if a.others.NoItems? && b.others.NoItems? {
      Cancel([']'], x, y);
    }
  }

  lemma FirstOfItems(items: Items, x: string)
    ensures items.NoItems? ==> WriteItems(items) + ([']'] + x) == [']'] + x
    ensures items.Item? ==> WriteItems(items) + ([']'] + x) == Write(items.first) + AfterItem(items.others, x)
    ensures var text := WriteItems(items) + ([']'] + x); text != "" && (text[0] == ']' <==> items.NoItems?)
  {
    if items.Item? {
      FirstShowsKind(items.first, AfterItem(items.others, x));
      Regroup(Write(items.first), if items.others.NoItems? then "" else [','] + WriteItems(items.others), [']'] + x);
    }
  }

  /** What stands behind the value of the first member of an object, up to its end. */
  function AfterMember(rest: Members, x: string): string {
    (if rest.NoMembers? then "" else [','] + WriteMembers(rest)) + (['}'] + x)
  }

  lemma AfterMemberSpelled(rest: Members, x: string)
    ensures Stops(AfterMember(rest, x))
    ensures rest.NoMembers? ==> AfterMember(rest, x) == ['}'] + x
    ensures rest.Member? ==> AfterMember(rest, x) == [','] + (WriteMembers(rest) + (['}'] + x))
  {
    if rest.Member? {
      Regroup([','], WriteMembers(rest), ['}'] + x);
    }
  }

  lemma {:induction false} MembersAreRead(a: Members, b: Members, x: string, y: string)
    requires WriteMembers(a) + (['}'] + x) == WriteMembers(b) + (['}'] + y)
    ensures a == b && x == y
    decreases a, 0
  {
    FirstOfMembers(a, x);
    FirstOfMembers(b, y);
    if a.Member? && b.Member? {
      AfterMemberSpelled(a.rest, x);
      AfterMemberSpelled(b.rest, y);
      var v, w := Write(a.value) + AfterMember(a.rest, x), Write(b.value) + AfterMember(b.rest, y);
      QuotedIsRead(a.key, b.key, [':'] + v, [':'] + w);
      Cancel([':'], v, w);
      ValueIsRead(a.value, b.value, AfterMember(a.rest, x), AfterMember(b.rest, y));
      RestIsRead(a, b, x, y);
    } else if a.NoMembers? && b.NoMembers? {
      Cancel(['}'], x, y);
    }
  }

  lemma {:induction false} RestIsRead(a: Members, b: Members, x: string, y: string)
    requires a.Member? && b.Member? && AfterMember(a.rest, x) == AfterMember(b.rest, y)
    ensures a.rest == b.rest && x == y
    decreases a.rest, 1
  {
    AfterMemberSpelled(a.rest, x);
    AfterMemberSpelled(b.rest, y);
    if a.rest.Member? && b.rest.Member? {
      Cancel([','], WriteMembers(a.rest) + (['}'] + x), WriteMembers(b.rest) + (['}'] + y));
      MembersAreRead(a.rest, b.rest, x, y);
    } else if a.rest.NoMembers? && b.rest.NoMembers? {
      Cancel(['}'], x, y);
    }
  }

  lemma FirstOfMembers(members: Members, x: string)
    ensures members.NoMembers? ==> WriteMembers(members) + (['}'] + x) == ['}'] + x
    ensures members.Member? ==>
              WriteMembers(members) + (['}'] + x) == Quoted(members.key) + ([':'] + (Write(members.value) + AfterMember(members.rest, x)))
    ensures var text := WriteMembers(members) + (['}'] + x); text != "" && (text[0] == '}' <==> members.NoMembers?)
  {
    if members.Member? {
      var key, value := Quoted(members.key), Write(members.value);
      var more := if members.rest.NoMembers? then "" else [','] + WriteMembers(members.rest);
      Regroup(key, [':'] + (value + more), ['}'] + x);
      Regroup([':'], value + more, ['}'] + x);
      Regroup(value, more, ['}'] + x);
      assert (key + ([':'] + (value + AfterMember(members.rest, x))))[0] == key[0] == '"';
    }
  }

  /** Two values with one text are one value. */
  lemma WriteIsInjective(v: Value, w: Value)
    requires Write(v) == Write(w)
    ensures v == w
  {
    assert Write(v) + "" == Write(v) && Write(w) + "" == Write(w);
    ValueIsRead(v, w, "", "");
  }

  /** The text that is hashed agrees for two payloads exactly if they differ at most in key order at any depth. */
  lemma PayloadTextsAgree(a: Value, b: Value)
    ensures Write(Canonicalize(a)) == Write(Canonicalize(b)) <==> MeaningOf(a) == MeaningOf(b)
  {
    CanonicalFormsAgree(a, b);
    if Write(Canonicalize(a)) == Write(Canonicalize(b)) {
      WriteIsInjective(Canonicalize(a), Canonicalize(b));
    }
  }

  // ---- the writer's choice of spelling ----

  function HexValue(c: char): (n: nat)
    requires '0' <= c <= '9' || 'a' <= c <= 'f' || 'A' <= c <= 'F'
    ensures n < 16
  {
    if c <= '9' then (c - '0') as nat else if c <= 'F' then (c - 'A') as nat + 10 else (c - 'a') as nat + 10
  }

  predicate HexDigit(c: char) {
    '0' <= c <= '9' || 'a' <= c <= 'f' || 'A' <= c <= 'F'
  }

  /** The short escapes of section 7 of RFC 8259. */
  predicate ShortEscape(letter: char, c: char) {
    match letter
    case '"' => c == '"'
    case '\\' => c == '\\'
    case '/' => c == '/'
    case 'b' => c as nat == 8
    case 'f' => c as nat == 12
    case 'n' => c as nat == 10
    case 'r' => c as nat == 13
    case 't' => c as nat == 9
    case _ => false
  }

  /** The texts that section 7 of RFC 8259 has for one character below 65536. */
  predicate Spells(t: string, c: char) {
    || (t == [c] && c as nat >= 32 && c != '"' && c != '\\')
    || (|t| == 2 && t[0] == '\\' && ShortEscape(t[1], c))
    || (|t| == 6 && t[0] == '\\' && t[1] == 'u' && HexDigit(t[2]) && HexDigit(t[3]) && HexDigit(t[4]) && HexDigit(t[5])
        && HexValue(t[2]) * 4096 + HexValue(t[3]) * 256 + HexValue(t[4]) * 16 + HexValue(t[5]) == c as nat)
  }

  /** A character is written as its shortest spelling, with lower-case digits where they are needed. */
  lemma EscapedIsShortest(c: char, t: string)
    requires Spells(t, c)
    ensures |Escaped(c)| <= |t|
    ensures |t| == |Escaped(c)| && (forall i :: 2 <= i < |t| ==> !('A' <= t[i] <= 'F')) ==> t == Escaped(c)
  {
    if |t| == 6 && |Escaped(c)| == 6 && forall i :: 2 <= i < |t| ==> !('A' <= t[i] <= 'F') {
      SixUnits(c, t);
    }
  }

  lemma SixUnits(c: char, t: string)
    requires |t| == 6 && Spells(t, c) && c < ' ' && forall i :: 2 <= i < |t| ==> !('A' <= t[i] <= 'F')
    ensures t == ['\\', 'u', '0', '0', LowerHex(c as nat / 16), LowerHex(c as nat % 16)]
  {
    var n := c as nat;
    var high, low := HexValue(t[4]), HexValue(t[5]);
    assert HexValue(t[2]) == 0 && HexValue(t[3]) == 0;
    assert n == high * 16 + low;
    assert n / 16 == high && n % 16 == low;
    assert LowerHex(high) == t[4] && LowerHex(low) == t[5];
  }

  lemma EscapedSpells(c: char)
    ensures Spells(Escaped(c), c)
  {
    if |Escaped(c)| == 6 {
      var n := c as nat;
      assert HexValue(LowerHex(n / 16)) == n / 16 && HexValue(LowerHex(n % 16)) == n % 16;
      assert n == n / 16 * 16 + n % 16;
    }
  }

  // ---- the text is compact ----

  predicate Blank(c: char) {
    c == ' ' || c == '\t' || c == '\n' || c == '\r'
  }

  predicate NoBlanks(s: string) {
    forall i :: 0 <= i < |s| ==> !Blank(s[i])
  }

  predicate BlankFree(v: Value) {
    match v
    case Leaf(scalar) => scalar.Text? ==> NoBlanks(scalar.text)
    case Array(items) => BlankFreeItems(items)
    case Object(members) => BlankFreeMembers(members)
  }

  predicate BlankFreeItems(items: Items) {
    items.Item? ==> BlankFree(items.first) && BlankFreeItems(items.others)
  }

  predicate BlankFreeMembers(members: Members) {
    members.Member? ==> NoBlanks(members.key) && BlankFree(members.value) && BlankFreeMembers(members.rest)
  }

  lemma {:induction false} BodyHasNoBlanks(s: string)
    requires NoBlanks(s)
    ensures NoBlanks(Quoted(s)) && NoBlanks(Body(s))
    decreases |s|
  {
    if s != "" {
      BodyHasNoBlanks(s[1..]);
      assert NoBlanks(Escaped(s[0]));
    }
  }

  /** Between the parts of a value nothing is written that section 2 of RFC 8259 would skip. */
  lemma {:induction false} TextIsCompact(v: Value)
    requires BlankFree(v)
    ensures NoBlanks(Write(v))
    decreases v
  {
    match v {
      case Leaf(scalar) =>
        if scalar.Text? {
          BodyHasNoBlanks(scalar.text);
        }
      case Array(items) => ItemsAreCompact(items);
      case Object(members) => MembersAreCompact(members);
    }
  }

  lemma {:induction false} ItemsAreCompact(items: Items)
    requires BlankFreeItems(items)
    ensures NoBlanks(WriteItems(items))
    decreases items
  {
    if items.Item? {
      TextIsCompact(items.first);
      ItemsAreCompact(items.others);
    }
  }

  lemma {:induction false} MembersAreCompact(members: Members)
    requires BlankFreeMembers(members)
    ensures NoBlanks(WriteMembers(members))
    decreases members
  {
    if members.Member? {
      BodyHasNoBlanks(members.key);
      TextIsCompact(members.value);
      MembersAreCompact(members.rest);
    }
  }
}
