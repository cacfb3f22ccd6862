/**
 Splitting the output of the `content query` command into rows and columns. The command prints a row as
 `Row: n column=value, column=value`; values are free text and may hold line breaks.
 */
module ContentRows {
  import opened Wrappers

  datatype RowError = NotUtf8 | NoRow | Mismatch | Ambiguous

  // ---- matching ----

  predicate At(s: string, pattern: string, i: nat) {
    i + |pattern| <= |s| && s[i..i + |pattern|] == pattern
  }

  /** The first match at or after `from`. */
  function FirstMatch(s: string, pattern: string, from: nat): (r: Option<nat>)
    ensures r.Some? ==> from <= r.value && At(s, pattern, r.value) && forall j: nat :: from <= j < r.value ==> !At(s, pattern, j)
    ensures r.None? ==> forall j: nat :: from <= j ==> !At(s, pattern, j)
    decreases |s| + 1 - from
  {
    if from + |pattern| > |s| then None
    else if At(s, pattern, from) then Some(from)
    else FirstMatch(s, pattern, from + 1)
  }

  function Boundary(column: string): string {
    ", " + column + "="
  }

  /** The text can occur twice in such a way that the occurrences overlap. */
  predicate Overlaps(pattern: string) {
    exists shift :: 0 < shift < |pattern| && pattern[shift..] == pattern[..|pattern| - shift]
  }

  /** No boundary overlaps itself. */
  predicate Separable(columns: seq<string>) {
    forall i :: 0 < i < |columns| ==> !Overlaps(Boundary(columns[i]))
  }

  // ---- printing ----

  /** The part of a printed row after the name of its first column. */
  function PrintRest(columns: seq<string>, values: seq<string>): string
    requires |columns| == |values| > 0
  {
    if |columns| == 1 then values[0]
    else values[0] + Boundary(columns[1]) + PrintRest(columns[1..], values[1..])
  }

  function PrintRow(columns: seq<string>, values: seq<string>): string
    requires |columns| == |values| > 0
  {
    columns[0] + "=" + PrintRest(columns, values)
  }

  // ---- splitting ----

  /** The text before the one match of `boundary`, and what follows it. */
  function Column(rest: string, boundary: string): Result<(string, string), RowError> {
    match FirstMatch(rest, boundary, 0)
    case None => Err(Mismatch)
    case Some(index) =>
      if FirstMatch(rest, boundary, index + |boundary|).Some? then Err(Ambiguous)
      else Ok((rest[..index], rest[index + |boundary|..]))
  }

  function Split(columns: seq<string>, rest: string): Result<seq<string>, RowError>
    requires |columns| > 0
  {
    if |columns| == 1 then Ok([rest])
    else
      match Column(rest, Boundary(columns[1]))
      case Err(e) => Err(e)
      case Ok((text, tail)) => Prepended([text], Split(columns[1..], tail))
  }

  function Prepended(texts: seq<string>, r: Result<seq<string>, RowError>): Result<seq<string>, RowError> {
    match r
    case Err(e) => Err(e)
    case Ok(t) => Ok(texts + t)
  }

  function SplitTexts(columns: seq<string>, row: string): Result<seq<string>, RowError>
    requires |columns| > 0
  {
    if columns[0] + "=" <= row then Split(columns, row[|columns[0]| + 1..]) else Err(Mismatch)
  }

  /** The literal text NULL stands for a null value. */
  function Value(text: string): Option<string> {
    if text == "NULL" then None else Some(text)
  }

  function Values(texts: seq<string>): seq<Option<string>> {
    seq(|texts|, i requires 0 <= i < |texts| => Value(texts[i]))
  }

  lemma ValuesAppend(texts: seq<string>, text: string)
    ensures Values(texts + [text]) == Values(texts) + [Value(text)]
  {
  }

  function Cells(texts: Result<seq<string>, RowError>): Result<seq<Option<string>>, RowError> {
    match texts
    case Err(e) => Err(e)
    case Ok(t) => Ok(Values(t))
  }

  method SplitRow(row: string, columns: seq<string>) returns (result: Result<seq<Option<string>>, RowError>)
    requires |columns| > 0
    ensures result == Cells(SplitTexts(columns, row))
  {
    if !(columns[0] + "=" <= row) {
      return Err(Mismatch);
    }
    var rest := row[|columns[0]| + 1..];
    ghost var texts: seq<string> := [];
    var values: seq<Option<string>> := [];
    assert columns[0..] == columns;
    assert Split(columns, rest).Ok? ==> texts + Split(columns, rest).value == Split(columns, rest).value;
    for k := 1 to |columns|
      invariant values == Values(texts)
      invariant SplitTexts(columns, row) == Prepended(texts, Split(columns[k - 1..], rest))
    {
      SplitOneColumn(columns, k, rest);
      var column := Column(rest, Boundary(columns[k]));
      if column.Err? {
        return Err(column.error);
      }
      var text := column.value.0;
      PrependedOnce(texts, text, Split(columns[k..], column.value.1));
      ValuesAppend(texts, text);
      values := values + [Value(text)];
      texts := texts + [text];
      rest := column.value.1;
    }
    assert Split(columns[|columns| - 1..], rest) == Ok([rest]);
    ValuesAppend(texts, rest);
    return Ok(values + [Value(rest)]);
  }

  lemma SplitOneColumn(columns: seq<string>, k: nat, rest: string)
    requires 0 < k < |columns|
    ensures Split(columns[k - 1..], rest) ==
            match Column(rest, Boundary(columns[k]))
            case Err(e) => Err(e)
            case Ok((text, tail)) => Prepended([text], Split(columns[k..], tail))
  {
    assert columns[k - 1..][1] == columns[k] && columns[k - 1..][1..] == columns[k..];
  }

  lemma PrependedOnce(texts: seq<string>, text: string, r: Result<seq<string>, RowError>)
    ensures Prepended(texts, Prepended([text], r)) == Prepended(texts + [text], r)
  {
    if r.Ok? {
      assert texts + ([text] + r.value) == (texts + [text]) + r.value;
    }
  }

  // ---- the splitter accepts exactly the unambiguous rows ----

  ghost predicate OccursOnce(s: string, pattern: string, i: nat) {
    At(s, pattern, i) && forall j: nat :: At(s, pattern, j) ==> j == i
  }

  /** Every boundary occurs once in the text that follows the column before it. */
  ghost predicate Unambiguous(columns: seq<string>, values: seq<string>)
    requires |columns| == |values| > 0
  {
    |columns| > 1 ==>
      OccursOnce(PrintRest(columns, values), Boundary(columns[1]), |values[0]|) && Unambiguous(columns[1..], values[1..])
  }

  lemma OneComma(column: string)
    requires ',' !in column
    ensures forall k :: 0 < k < |Boundary(column)| ==> Boundary(column)[k] != ','
  {
    forall k | 0 < k < |Boundary(column)|
      ensures Boundary(column)[k] != ','
    {
      assert Boundary(column)[k] == if k == 1 then ' ' else if k == |column| + 2 then '=' else column[k - 2];
    }
  }

  /** So the boundary of a comma-free column cannot overlap itself. */
  lemma CommaFreeIsSeparable(columns: seq<string>)
    requires forall i :: 0 < i < |columns| ==> ',' !in columns[i]
    ensures Separable(columns)
  {
    forall i | 0 < i < |columns|
      ensures !Overlaps(Boundary(columns[i]))
    {
      var b := Boundary(columns[i]);
      OneComma(columns[i]);
      forall shift | 0 < shift < |b|
        ensures b[shift..] != b[..|b| - shift]
      {
        assert b[shift..][0] != b[..|b| - shift][0];
      }
    }
  }

  /** Where a boundary does not overlap itself, a scan by non-overlapping matches misses none. */
  lemma NoOverlap(s: string, pattern: string, i: nat, j: nat)
    requires !Overlaps(pattern) && At(s, pattern, i) && At(s, pattern, j) && i < j
    ensures j >= i + |pattern|
  {
    if j < i + |pattern| {
      ShiftedMatch(s, pattern, i, j);
    }
  }

  lemma ShiftedMatch(s: string, pattern: string, i: nat, j: nat)
    requires At(s, pattern, i) && At(s, pattern, j) && i < j < i + |pattern|
    ensures Overlaps(pattern)
  {
    var shift := j - i;
    assert pattern[shift..] == s[j..i + |pattern|] == pattern[..|pattern| - shift];
  }

  lemma CharOf(s: string, pattern: string, i: nat, k: nat)
    requires At(s, pattern, i) && k < |pattern|
    ensures s[i + k] == pattern[k]
  {
    assert s[i..i + |pattern|][k] == pattern[k];
  }

  /** One column is split off exactly at a boundary that occurs once. */
  lemma ColumnIsExact(rest: string, column: string, text: string, tail: string)
    requires !Overlaps(Boundary(column))
    ensures Column(rest, Boundary(column)) == Ok((text, tail)) <==>
              rest == text + Boundary(column) + tail && OccursOnce(rest, Boundary(column), |text|)
  {
    var boundary := Boundary(column);
    if rest == text + boundary + tail && OccursOnce(rest, boundary, |text|) {
      assert rest[..|text|] == text && rest[|text| + |boundary|..] == tail;
    }
    if Column(rest, boundary) == Ok((text, tail)) {
      OnlyMatch(rest, boundary);
      assert rest == rest[..|text|] + rest[|text|..|text| + |boundary|] + rest[|text| + |boundary|..];
    }
  }

  lemma OnlyMatch(rest: string, pattern: string)
    requires !Overlaps(pattern) && Column(rest, pattern).Ok?
    ensures OccursOnce(rest, pattern, FirstMatch(rest, pattern, 0).value)
  {
    var index := FirstMatch(rest, pattern, 0).value;
    forall j: nat | At(rest, pattern, j)
      ensures j == index
    {
      if index < j {
        NoOverlap(rest, pattern, index, j);
      }
    }
  }

  lemma HeadAndTail(values: seq<string>, text: string, t: seq<string>)
    requires values != []
    ensures values == [text] + t <==> values[0] == text && values[1..] == t
  {
    assert values == [values[0]] + values[1..];
    if values == [text] + t {
      assert values[1..] == t;
    }
  }

  /**
   When no boundary overlaps itself the splitter succeeds with `values` exactly when the row is their print and no
   boundary is ambiguous.
   */
  lemma {:induction false} SplitIsExact(columns: seq<string>, rest: string, values: seq<string>)
    requires |columns| == |values| > 0 && Separable(columns)
    ensures Split(columns, rest) == Ok(values) <==> rest == PrintRest(columns, values) && Unambiguous(columns, values)
    decreases |columns|
  {
    if |columns| > 1 {
      ColumnIsExact(rest, columns[1], values[0], PrintRest(columns[1..], values[1..]));
      var column := Column(rest, Boundary(columns[1]));
      if column.Ok? {
        var text, tail := column.value.0, column.value.1;
        SplitIsExact(columns[1..], tail, values[1..]);
        ColumnIsExact(rest, columns[1], text, tail);
        if Split(columns[1..], tail).Ok? {
          HeadAndTail(values, text, Split(columns[1..], tail).value);
        }
      }
    } else {
      assert values == [values[0]];
    }
  }

  lemma PrintedBoundary(columns: seq<string>, values: seq<string>)
    requires |columns| == |values| > 1
    ensures At(PrintRest(columns, values), Boundary(columns[1]), |values[0]|)
  {
    var boundary := Boundary(columns[1]);
    var tail := PrintRest(columns[1..], values[1..]);
    assert PrintRest(columns, values)[|values[0]|..|values[0]| + |boundary|] == boundary;
  }

  lemma {:induction false} SplitWidth(columns: seq<string>, rest: string)
    requires |columns| > 0 && Split(columns, rest).Ok?
    ensures |Split(columns, rest).value| == |columns|
    decreases |columns|
  {
    if |columns| > 1 {
      var boundary := Boundary(columns[1]);
      var index := FirstMatch(rest, boundary, 0).value;
      SplitWidth(columns[1..], rest[index + |boundary|..]);
    }
  }

  lemma {:induction false} OneDecomposition(columns: seq<string>, values: seq<string>, others: seq<string>)
    requires |columns| == |values| == |others| > 0
    requires Unambiguous(columns, values) && PrintRest(columns, values) == PrintRest(columns, others)
    ensures values == others
    decreases |columns|
  {
    if |columns| > 1 {
      PrintedBoundary(columns, others);
      var n := |values[0]|;
      assert |others[0]| == n;
      var boundary := Boundary(columns[1]);
      var printed := PrintRest(columns, values);
      assert printed[..n] == values[0] && printed[..n] == others[0];
      assert printed[n + |boundary|..] == PrintRest(columns[1..], values[1..]);
      assert printed[n + |boundary|..] == PrintRest(columns[1..], others[1..]);
      OneDecomposition(columns[1..], values[1..], others[1..]);
      assert values == [values[0]] + values[1..] && others == [others[0]] + others[1..];
    } else {
      assert values == [values[0]] && others == [others[0]];
    }
  }

  /**
   What a successful split means: the values re-join to exactly the row, and no other tuple of values
   prints as that row.
   */
  lemma SplitIsTheOnlyReading(columns: seq<string>, row: string)
    requires |columns| > 0 && Separable(columns) && SplitTexts(columns, row).Ok?
    ensures var values := SplitTexts(columns, row).value;
            && |values| == |columns|
            && PrintRow(columns, values) == row
            && forall others | |others| == |columns| && PrintRow(columns, others) == row :: others == values
  {
    var rest := row[|columns[0]| + 1..];
    var values := SplitTexts(columns, row).value;
    SplitWidth(columns, rest);
    SplitIsExact(columns, rest, values);
    assert row == columns[0] + "=" + rest;
    forall others | |others| == |columns| && PrintRow(columns, others) == row
      ensures others == values
    {
      assert PrintRest(columns, others) == PrintRow(columns, others)[|columns[0]| + 1..] == rest;
      OneDecomposition(columns, values, others);
    }
  }

  // ---- the projections in use ----

  const DOCUMENT_COLUMNS: seq<string> := ["mime_type", "_size", "last_modified", "document_id", "_display_name"]

  predicate Plain(name: string) {
    ',' !in name && '=' !in name
  }

  predicate Named(columns: seq<string>) {
    && (forall i :: 0 <= i < |columns| ==> Plain(columns[i]))
    && forall i, j :: 0 <= i < j < |columns| ==> columns[i] != columns[j]
  }

  lemma DocumentColumnsAreNamed()
    ensures Named(DOCUMENT_COLUMNS)
  {
    assert DOCUMENT_COLUMNS[2][0] == 'l' && DOCUMENT_COLUMNS[4][0] == '_';
  }

  /** Boundaries of different plain names do not match in one place. */
  lemma SameBoundary(s: string, a: string, b: string, j: nat)
    requires Plain(a) && Plain(b) && At(s, Boundary(a), j) && At(s, Boundary(b), j)
    ensures a == b
  {
    BoundarySpelled(s, a, j);
    BoundarySpelled(s, b, j);
    if |a| < |b| {
      CutShort(s, a, b, j);
    } else if |b| < |a| {
      CutShort(s, b, a, j);
    }
  }

  lemma CutShort(s: string, a: string, b: string, j: nat)
    requires At(s, Boundary(a), j) && At(s, Boundary(b), j) && |a| < |b|
    ensures '=' in b
  {
    BoundarySpelled(s, a, j);
    BoundarySpelled(s, b, j);
    assert b[|a|] == s[j + 2 + |a|];
  }

  lemma BoundarySpelled(s: string, name: string, j: nat)
    requires At(s, Boundary(name), j)
    ensures |Boundary(name)| == |name| + 3 && s[j] == ',' && s[j + 2..j + 2 + |name|] == name && s[j + 2 + |name|] == '='
    ensures forall k :: 0 <= k < |name| ==> s[j + 2 + k] == name[k]
  {
    var b := Boundary(name);
    assert |b| == |name| + 3 && b[0] == ',' && b[2 + |name|] == '=';
    assert forall k :: 0 <= k < |name| ==> b[2 + k] == name[k];
    forall k | 0 <= k < |b|
      ensures s[j + k] == b[k]
    {
      CharOf(s, b, j, k);
    }
    forall k | 0 <= k < |name|
      ensures s[j + 2 + k] == name[k]
    {
      assert s[j + (2 + k)] == b[2 + k];
    }
    assert s[j + (2 + |name|)] == b[2 + |name|];
  }

  lemma HeadOfPrint(columns: seq<string>, v: seq<string>)
    requires |columns| == |v| > 1
    ensures var rest, first := PrintRest(columns, v), Boundary(columns[1]);
            && |rest| == |v[0]| + |first| + |PrintRest(columns[1..], v[1..])|
            && rest[|v[0]| + |first|..] == PrintRest(columns[1..], v[1..])
            && (forall k :: 0 <= k < |v[0]| ==> rest[k] == v[0][k])
            && forall k :: 0 <= k < |first| ==> rest[|v[0]| + k] == first[k]
  {
  }

  /** A boundary in a printed text is the first one, or lies behind it, when the first value has no comma. */
  lemma WhereBoundariesAre(columns: seq<string>, v: seq<string>, name: string, j: nat)
    requires |columns| == |v| > 1 && Plain(columns[1]) && Plain(name) && ',' !in v[0]
    requires At(PrintRest(columns, v), Boundary(name), j)
    ensures var behind := |v[0]| + |Boundary(columns[1])|;
            || (j == |v[0]| && name == columns[1])
            || (j >= behind && At(PrintRest(columns[1..], v[1..]), Boundary(name), j - behind))
  {
    var first, tail := Boundary(columns[1]), PrintRest(columns[1..], v[1..]);
    var rest, behind := PrintRest(columns, v), |v[0]| + |first|;
    HeadOfPrint(columns, v);
    PrintedBoundary(columns, v);
    BoundarySpelled(rest, name, j);
    OneComma(columns[1]);
    assert forall k :: |v[0]| <= k < behind ==> rest[k] == first[k - |v[0]|];
    if j == |v[0]| {
      SameBoundary(rest, name, columns[1], j);
    }
    if j >= behind {
      assert tail[j - behind..j - behind + |Boundary(name)|] == rest[j..j + |Boundary(name)|];
    }
  }

  /** All values but the last are free of commas, and the last one ends in the boundary of `name`. */
  predicate EndsInBoundary(v: seq<string>, d: string, name: string) {
    && v != [] && (forall i :: 0 <= i < |v| - 1 ==> ',' !in v[i])
    && ',' !in d && v[|v| - 1] == d + Boundary(name)
  }

  lemma {:induction false} PrintEndsInLast(columns: seq<string>, v: seq<string>)
    requires |columns| == |v| > 0
    ensures var rest, last := PrintRest(columns, v), v[|v| - 1];
            |last| <= |rest| && rest[|rest| - |last|..] == last
    decreases |columns|
  {
    if |columns| > 1 {
      PrintEndsInLast(columns[1..], v[1..]);
      var rest, tail := PrintRest(columns, v), PrintRest(columns[1..], v[1..]);
      assert rest[|rest| - |tail|..] == tail;
    }
  }

  /** The boundary of a name no other column has matches once in such a text: at its end. */
  lemma {:induction false} OnlyAtTheEnd(columns: seq<string>, v: seq<string>, d: string, name: string, c: string, j: nat)
    requires |columns| == |v| > 0 && Plain(name) && Plain(c) && EndsInBoundary(v, d, name)
    requires forall i :: 1 <= i < |columns| ==> Plain(columns[i]) && columns[i] != c
    requires At(PrintRest(columns, v), Boundary(c), j)
    ensures c == name && j == |PrintRest(columns, v)| - |Boundary(name)|
    decreases |columns|
  {
    if |columns| > 1 {
      WhereBoundariesAre(columns, v, c, j);
      OnlyAtTheEnd(columns[1..], v[1..], d, name, c, j - |v[0]| - |Boundary(columns[1])|);
    } else {
      var last := v[0];
      assert forall k :: 0 <= k < |d| ==> last[k] == d[k];
      assert forall k :: |d| <= k < |last| ==> last[k] == Boundary(name)[k - |d|];
      assert last[|d|..|d| + |Boundary(name)|] == Boundary(name);
      OneComma(name);
      BoundarySpelled(last, c, j);
      SameBoundary(last, c, name, |d|);
    }
  }

  lemma {:induction false} OthersOccurOnce(columns: seq<string>, v: seq<string>, d: string, name: string)
    requires |columns| == |v| > 0 && Named(columns) && Plain(name) && EndsInBoundary(v, d, name)
    requires forall i :: 1 <= i < |columns| ==> columns[i] != name
    ensures Unambiguous(columns, v)
    decreases |columns|
  {
    if |columns| > 1 {
      OthersOccurOnce(columns[1..], v[1..], d, name);
      PrintedBoundary(columns, v);
      forall j: nat | At(PrintRest(columns, v), Boundary(columns[1]), j)
        ensures j == |v[0]|
      {
        WhereBoundariesAre(columns, v, columns[1], j);
        if j != |v[0]| {
          OnlyAtTheEnd(columns[1..], v[1..], d, name, columns[1], j - |v[0]| - |Boundary(columns[1])|);
        }
      }
    }
  }

  lemma TrailingBoundarySplit(columns: seq<string>, v: seq<string>, d: string)
    requires |columns| == |v| >= 3 && Named(columns) && EndsInBoundary(v, d, columns[1])
    ensures Split(columns, PrintRest(columns, v)) == Err(Ambiguous)
  {
    var rest, first := PrintRest(columns, v), Boundary(columns[1]);
    var behind := |v[0]| + |first|;
    PrintedBoundary(columns, v);
    PrintEndsInLast(columns[1..], v[1..]);
    var tail, last := PrintRest(columns[1..], v[1..]), v[|v| - 1];
    assert rest[behind..] == tail && |tail| >= |last|;
    var end := |rest| - |first|;
    assert rest[end..] == tail[|tail| - |last|..][|d|..] == first;
    assert At(rest, first, end) && end >= behind;
    if FirstMatch(rest, first, 0).value < |v[0]| {
      WhereBoundariesAre(columns, v, columns[1], FirstMatch(rest, first, 0).value);
    }
  }

  lemma TrailingBoundaryReading(columns: seq<string>, v: seq<string>, d: string, others: seq<string>)
    requires |columns| == |v| == |others| >= 3 && Named(columns) && EndsInBoundary(v, d, columns[1])
    requires PrintRest(columns, others) == PrintRest(columns, v)
    ensures others == v
  {
    var rest, first := PrintRest(columns, v), Boundary(columns[1]);
    var n := |others[0]|;
    PrintedBoundary(columns, others);
    PrintedBoundary(columns[1..], others[1..]);
    WhereBoundariesAre(columns, v, columns[1], n);
    if n != |v[0]| {
      OnlyAtTheEnd(columns[1..], v[1..], d, columns[1], columns[1], n - |v[0]| - |first|);
    } else {
      assert rest[..n] == v[0] && rest[..n] == others[0];
      assert rest[n + |first|..] == PrintRest(columns[1..], v[1..]);
      assert rest[n + |first|..] == PrintRest(columns[1..], others[1..]);
      OthersOccurOnce(columns[1..], v[1..], d, columns[1]);
      OneDecomposition(columns[1..], v[1..], others[1..]);
      HeadAndTail(others, v[0], v[1..]);
      HeadAndTail(v, v[0], v[1..]);
    }
  }

  /**
   The converse of uniqueness fails where it is used: a document whose display name ends in `, _size=` has one
   reading, and its row is refused as ambiguous.
   */
  lemma OneReadingMayBeRefused(v: seq<string>, d: string)
    requires |v| == |DOCUMENT_COLUMNS| && EndsInBoundary(v, d, "_size")
    ensures SplitTexts(DOCUMENT_COLUMNS, PrintRow(DOCUMENT_COLUMNS, v)) == Err(Ambiguous)
    ensures forall others | |others| == |v| && PrintRow(DOCUMENT_COLUMNS, others) == PrintRow(DOCUMENT_COLUMNS, v) :: others == v
  {
    DocumentColumnsAreNamed();
    TrailingBoundaryIsRefused(DOCUMENT_COLUMNS, v, d);
  }

  lemma TrailingBoundaryIsRefused(columns: seq<string>, v: seq<string>, d: string)
    requires |columns| == |v| >= 3 && Named(columns) && EndsInBoundary(v, d, columns[1])
    ensures SplitTexts(columns, PrintRow(columns, v)) == Err(Ambiguous)
    ensures forall others | |others| == |v| && PrintRow(columns, others) == PrintRow(columns, v) :: others == v
  {
    TrailingBoundarySplit(columns, v, d);
    var prefix := columns[0] + "=";
    assert PrintRow(columns, v)[|prefix|..] == PrintRest(columns, v);
    forall others | |others| == |v| && PrintRow(columns, others) == PrintRow(columns, v)
      ensures others == v
    {
      assert PrintRow(columns, others)[|prefix|..] == PrintRest(columns, others);
      TrailingBoundaryReading(columns, v, d, others);
    }
  }

  // ---- when the reading is the only one ----

  /** Cutting a text at the one match the scan finds gives the only way to cut it. */
  ghost predicate CutsOnce(pattern: string) {
    forall rest: string, text: string, tail: string :: Column(rest, pattern) == Ok((text, tail)) ==> OccursOnce(rest, pattern, |text|)
  }

  lemma FirstMatchIs(rest: string, pattern: string, from: nat)
    requires At(rest, pattern, from)
    ensures FirstMatch(rest, pattern, from) == Some(from)
  {
  }

  /** The scan cuts only where there is one way to cut, exactly if the boundary does not overlap itself. */
  lemma CutsOnceExactly(pattern: string)
    requires pattern != ""
    ensures CutsOnce(pattern) <==> !Overlaps(pattern)
  {
    if Overlaps(pattern) {
      var shift :| 0 < shift < |pattern| && pattern[shift..] == pattern[..|pattern| - shift];
      var rest := pattern[..shift] + pattern;
      assert rest[..|pattern|] == pattern by {
        assert pattern == pattern[..shift] + pattern[shift..];
      }
      assert At(rest, pattern, 0) && At(rest, pattern, shift);
      FirstMatchIs(rest, pattern, 0);
      assert FirstMatch(rest, pattern, |pattern|).None?;
      assert Column(rest, pattern) == Ok((rest[..0], rest[|pattern|..]));
      assert !OccursOnce(rest, pattern, 0);
    } else {
      forall rest: string, text: string, tail: string | Column(rest, pattern) == Ok((text, tail))
        ensures OccursOnce(rest, pattern, |text|)
      {
        OnlyMatch(rest, pattern);
      }
    }
  }
}
