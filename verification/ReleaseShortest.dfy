/** Of all the texts the strict reader takes for a value, the release tool writes the shortest one. */
module ReleaseShortest {
  import opened Wrappers
  import opened ReleaseJson
  import opened ReleaseParser

  /** What is left over once an escape or a unit is read, by the length of what was read. */
  lemma UnescapeReads(input: Text)
    requires Unescape(input).Ok?
    ensures var (unit, rest) := Unescape(input).value;
            && |EscapeUnit(unit)| + |rest| <= 1 + |input|
            && (|EscapeUnit(unit)| == 6 ==> |rest| + 5 == |input|)
  {
    if |input| >= 5 && input[0] == 0x75 {
      assert input[1..][4..] == input[5..];
    }
  }

  lemma {:induction false} BodyIsShortest(input: Text)
    requires StringBody(input).Ok?
    ensures var (s, rest) := StringBody(input).value; |Escape(s)| + 1 + |rest| <= |input|
    decreases |input|
  {
    if input[0] == QUOTE {
    } else if input[0] != BACKSLASH {
      BodyIsShortest(input[1..]);
      EscapeCons(input[0], StringBody(input[1..]).value.0);
    } else {
      UnescapeReads(input[1..]);
      var (unit, rest) := Unescape(input[1..]).value;
      BodyIsShortest(rest);
      EscapeCons(unit, StringBody(rest).value.0);
    }
  }

  lemma EscapeCons(c: Char16, s: Text)
    ensures Escape([c] + s) == EscapeUnit(c) + Escape(s)
  {
    assert ([c] + s)[1..] == s;
  }

  // ---- one unit: the shortest text, and lower-case hexadecimal where there is a choice ----

  predicate LowerCaseHex(u: Char16) {
    0x30 <= u <= 0x39 || 0x61 <= u <= 0x66
  }

  /** The four units after a backslash and a `u`, if there are any, are lower-case hexadecimal digits. */
  predicate LowerCaseEscape(t: Text) {
    forall i :: 2 <= i < |t| ==> LowerCaseHex(t[i])
  }

  lemma EmptyBody(t: Text)
    ensures t != [] ==> StringBody(t + [QUOTE]) != Ok(([], []))
  {
    if t != [] {
      assert (t + [QUOTE])[0] == t[0];
      assert (t + [QUOTE])[1..] == t[1..] + [QUOTE];
    }
  }

  lemma FourDigits(four: Text, c: Char16)
    requires |four| == 4 && HexUnit(four) == Some(c) && c < 0x20
    requires forall i :: 0 <= i < 4 ==> LowerCaseHex(four[i])
    ensures four == [0x30, 0x30, LowerHex(c / 16), LowerHex(c % 16)]
  {
    var d0, d1 := HexDigit(four[0]).value, HexDigit(four[1]).value;
    var d2, d3 := HexDigit(four[2]).value, HexDigit(four[3]).value;
    assert c == d0 * 4096 + d1 * 256 + d2 * 16 + d3;
    assert d0 == 0 && d1 == 0;
    assert c / 16 == d2 && c % 16 == d3;
  }

  /** The texts that are read as one unit. */
  ghost predicate Spells(t: Text, c: Char16) {
    || (t == [c] && c >= 0x20 && c != QUOTE && c != BACKSLASH)
    || (t == [BACKSLASH, c] && (c == QUOTE || c == BACKSLASH || c == 0x2F))
    || (|t| == 6 && t[0] == BACKSLASH && t[1] == 0x75 && HexUnit(t[2..6]) == Some(c))
  }

  lemma RawUnit(c: Char16, t: Text)
    requires t != [] && t[0] != BACKSLASH && StringBody(t + [QUOTE]) == Ok(([c], []))
    ensures Spells(t, c)
  {
    assert (t + [QUOTE])[1..] == t[1..] + [QUOTE];
    EmptyBody(t[1..]);
    assert t == [t[0]] + t[1..];
  }

  lemma UnescapeReadsShort(after: Text)
    requires Unescape(after).Ok? && after[0] != 0x75
    ensures var (unit, rest) := Unescape(after).value;
            after[0] == unit && rest == after[1..] && (unit == QUOTE || unit == BACKSLASH || unit == 0x2F)
  {
  }

  lemma UnescapeReadsLong(after: Text)
    requires Unescape(after).Ok? && after[0] == 0x75
    ensures var (unit, rest) := Unescape(after).value;
            |after| >= 5 && HexUnit(after[1..5]) == Some(unit) && rest == after[5..]
  {
  }

  lemma AfterEscape(t: Text, n: nat, c: Char16, unit: Char16)
    requires n <= |t| + 1 && Prefixed(unit, StringBody((t + [QUOTE])[n..])) == Ok(([c], []))
    ensures n == |t| && unit == c
  {
    var rest := (t + [QUOTE])[n..];
    assert n == |t| + 1 ==> rest == [];
    assert StringBody(rest) == Ok(([], []));
    assert ([unit] + StringBody(rest).value.0)[0] == unit;
    if n <= |t| {
      assert rest == t[n..] + [QUOTE];
      EmptyBody(t[n..]);
    }
  }

  lemma LongEscape(c: Char16, t: Text, input: Text, after: Text)
    requires t != [] && t[0] == BACKSLASH && input == t + [QUOTE] && after == input[1..]
    requires Unescape(after).Ok? && after[0] == 0x75
    requires Prefixed(Unescape(after).value.0, StringBody(Unescape(after).value.1)) == Ok(([c], []))
    ensures |t| == 6 && t[1] == 0x75 && HexUnit(t[2..6]) == Some(c)
  {
    UnescapeReadsLong(after);
    assert after[5..] == input[6..] && after[1..5] == input[2..6];
    AfterEscape(t, 6, c, Unescape(after).value.0);
    assert input[2..6] == t[2..6];
  }

  lemma ShortEscape(c: Char16, t: Text, input: Text, after: Text)
    requires t != [] && t[0] == BACKSLASH && input == t + [QUOTE] && after == input[1..]
    requires Unescape(after).Ok? && after[0] != 0x75
    requires Prefixed(Unescape(after).value.0, StringBody(Unescape(after).value.1)) == Ok(([c], []))
    ensures t == [BACKSLASH, c] && (c == QUOTE || c == BACKSLASH || c == 0x2F)
  {
    UnescapeReadsShort(after);
    assert after[1..] == input[2..];
    AfterEscape(t, 2, c, Unescape(after).value.0);
  }

  lemma BodyOfEscape(input: Text)
    requires StringBody(input).Ok? && input[0] == BACKSLASH
    ensures Unescape(input[1..]).Ok?
    ensures StringBody(input) == Prefixed(Unescape(input[1..]).value.0, StringBody(Unescape(input[1..]).value.1))
  {
  }

  lemma EscapedUnit(c: Char16, t: Text)
    requires t != [] && t[0] == BACKSLASH && StringBody(t + [QUOTE]) == Ok(([c], []))
    ensures Spells(t, c)
  {
    var input := t + [QUOTE];
    BodyOfEscape(input);
    if input[1] == 0x75 {
      LongEscape(c, t, input, input[1..]);
    } else {
      ShortEscape(c, t, input, input[1..]);
    }
  }

  lemma NothingSpelled(t: Text)
    ensures t == [] ==> StringBody(t + [QUOTE]) == Ok(([], []))
  {
    if t == [] {
      assert t + [QUOTE] == [QUOTE];
    }
  }

  /** A text that is read as one unit is one of its spellings. */
  lemma ReadUnitsAreSpelled(c: Char16, t: Text)
    requires StringBody(t + [QUOTE]) == Ok(([c], []))
    ensures t != [] && Spells(t, c)
  {
    NothingSpelled(t);
    if t[0] == BACKSLASH {
      EscapedUnit(c, t);
    } else {
      RawUnit(c, t);
    }
  }

  /** What is written for a unit is no longer than any text read as it, and it is the only one so short in lower case. */
  lemma UnitIsShortest(c: Char16, t: Text)
    requires StringBody(t + [QUOTE]) == Ok(([c], []))
    ensures |EscapeUnit(c)| <= |t|
    ensures |t| == |EscapeUnit(c)| && LowerCaseEscape(t) ==> t == EscapeUnit(c)
    ensures LowerCaseEscape(EscapeUnit(c))
  {
    ReadUnitsAreSpelled(c, t);
    WrittenInLowerCase(c);
    SpelledShortest(c, t);
  }

  lemma SpelledShortest(c: Char16, t: Text)
    requires Spells(t, c)
    ensures |EscapeUnit(c)| <= |t|
    ensures |t| == |EscapeUnit(c)| && LowerCaseEscape(t) ==> t == EscapeUnit(c)
  {
    if |t| == 6 && LowerCaseEscape(t) && c < 0x20 {
      FourDigits(t[2..6], c);
      assert t == t[..2] + t[2..6];
    }
  }

  lemma WrittenInLowerCase(c: Char16)
    ensures LowerCaseEscape(EscapeUnit(c))
  {
  }

  /** So a string of plain units is written as itself. */
  lemma {:induction false} PlainIsWrittenAsItself(s: Text)
    requires forall i :: 0 <= i < |s| ==> s[i] >= 0x20 && s[i] != QUOTE && s[i] != BACKSLASH
    ensures PrintString(s) == [QUOTE] + s + [QUOTE]
    decreases |s|
  {
    if s != [] {
      PlainIsWrittenAsItself(s[1..]);
      var rest := Escape(s[1..]);
      assert [QUOTE] + rest + [QUOTE] == [QUOTE] + s[1..] + [QUOTE];
      assert ([QUOTE] + rest + [QUOTE])[1..|rest| + 1] == rest;
      assert ([QUOTE] + s[1..] + [QUOTE])[1..|s|] == s[1..];
      assert Escape(s) == [s[0]] + s[1..] == s;
    }
  }

  // ---- whole values ----

  lemma {:induction false} DecimalIsShortest(digits: Text)
    requires digits != [] && forall i :: 0 <= i < |digits| ==> DecimalDigit(digits[i]).Some?
    ensures |Decimal(LongValue(digits))| <= |digits|
    decreases |digits|
  {
    var front, d := digits[..|digits| - 1], DecimalDigit(digits[|digits| - 1]).value;
    var n := LongValue(digits);
    assert n == LongValue(front) * 10 + d;
    if front != [] {
      DecimalIsShortest(front);
      assert n / 10 == LongValue(front);
    } else {
      assert LongValue(front) == 0;
    }
  }

  lemma IntegerIsShortest(input: Text)
    requires ParseInteger(input).Ok?
    ensures var (n, rest) := ParseInteger(input).value; n >= 0 && |PrintLong(n)| + |rest| <= |input|
  {
    DecimalIsShortest(input[..DigitRun(input)]);
  }

  lemma {:induction false} DigitsAreDecimal(digits: Text)
    requires digits != [] && forall i :: 0 <= i < |digits| ==> 0x30 <= digits[i] <= 0x39
    requires |digits| > 1 ==> digits[0] != 0x30
    ensures Decimal(LongValue(digits)) == digits && (|digits| > 1 || digits[0] != 0x30 ==> LongValue(digits) > 0)
    decreases |digits|
  {
    var front, last := digits[..|digits| - 1], digits[|digits| - 1];
    var d := DecimalDigit(last).value;
    var n := LongValue(digits);
    assert n == LongValue(front) * 10 + d && digits == front + [last];
    if front != [] {
      DigitsAreDecimal(front);
      assert n / 10 == LongValue(front) && n % 10 == d;
    } else {
      assert LongValue(front) == 0;
    }
  }

  /** An integer in ASCII digits is accepted in one spelling only, the one that is written. */
  lemma AcceptedIntegerIsWritten(input: Text)
    requires ParseInteger(input).Ok?
    requires forall i :: 0 <= i < DigitRun(input) ==> 0x30 <= input[i] <= 0x39
    ensures var (n, rest) := ParseInteger(input).value; input == PrintLong(n) + rest
  {
    var k := DigitRun(input);
    DigitsAreDecimal(input[..k]);
    assert input == input[..k] + input[k..];
  }

  /** No text that is read as a value is shorter than the text written for it. */
  lemma {:induction false} PrintIsShortest(input: Text)
    requires ParseValue(input).Ok?
    ensures var (v, rest) := ParseValue(input).value; |Print(v)| + |rest| <= |input|
    decreases |input|, 1
  {
    if input[0] == OPEN {
      if input[1] != CLOSE {
        MembersAreShortest(input[1..], {});
      }
    } else if input[0] == QUOTE {
      BodyIsShortest(input[1..]);
    } else {
      IntegerIsShortest(input);
    }
  }

  lemma {:induction false} EntryIsShortest(input: Text)
    requires ParseEntry(input).Ok?
    ensures var (entry, rest) := ParseEntry(input).value;
            |PrintString(entry.0)| + 1 + |Print(entry.1)| + |rest| <= |input|
    decreases |input|, 0
  {
    BodyIsShortest(input[1..]);
    var (key, r1) := StringBody(input[1..]).value;
    PrintIsShortest(r1[1..]);
  }

  lemma {:induction false} MembersAreShortest(input: Text, seen: set<Text>)
    requires ParseMembers(input, seen).Ok?
    ensures var (ms, rest) := ParseMembers(input, seen).value; |PrintMembers(ms)| + 1 + |rest| <= |input|
    decreases |input|, 1
  {
    EntryIsShortest(input);
    var (entry, rest) := ParseEntry(input).value;
    if rest[0] == COMMA {
      MembersAreShortest(rest[1..], seen + {entry.0});
    }
  }
}
