/** From the whole standard output of `content query` to its rows. */
module ContentOutput {
  import opened Wrappers
  import opened ContentRows

  function Decimal(n: nat): (s: string)
    ensures |s| > 0 && forall i :: 0 <= i < |s| ==> '0' <= s[i] <= '9'
  {
    if n < 10 then ['0' + n as char] else Decimal(n / 10) + ['0' + (n % 10) as char]
  }

  function Header(n: nat): string {
    "Row: " + Decimal(n) + " "
  }

  /** `split('\n')`: always at least one line. */
  function Lines(text: string): (lines: seq<string>)
    ensures |lines| > 0
  {
    if text == "" then [""]
    else if text[0] == '\n' then [""] + Lines(text[1..])
    else
      var rest := Lines(text[1..]);
      [[text[0]] + rest[0]] + rest[1..]
  }

  predicate IsWhitespace(c: char) {
    '\t' <= c <= '\r' || c == ' ' || c == '\U{85}' || c == '\U{A0}' || c == '\U{1680}' ||
    '\U{2000}' <= c <= '\U{200A}' || c == '\U{2028}' || c == '\U{2029}' || c == '\U{202F}' ||
    c == '\U{205F}' || c == '\U{3000}'
  }

  function Trim(text: string): string
    decreases |text|
  {
    if text == "" then ""
    else if IsWhitespace(text[0]) then Trim(text[1..])
    else if IsWhitespace(text[|text| - 1]) then Trim(text[..|text| - 1])
    else text
  }

  const NO_RESULT := "No result found."

  function StripNewline(text: string): string {
    if text != "" && text[|text| - 1] == '\n' then text[..|text| - 1] else text
  }

  /** One line either starts the next row or continues the last one. */
  function AddLine(rows: seq<string>, line: string): Option<seq<string>> {
    if Header(|rows|) <= line then Some(rows + [line[|Header(|rows|)|..]])
    else if rows == [] then None
    else Some(rows[..|rows| - 1] + [rows[|rows| - 1] + "\n" + line])
  }

  function AddLines(rows: seq<string>, lines: seq<string>): Option<seq<string>>
    decreases |lines|
  {
    if lines == [] then Some(rows)
    else
      match AddLine(rows, lines[0])
      case None => None
      case Some(more) => AddLines(more, lines[1..])
  }

  function Rows(text: string): Option<seq<string>> {
    var body := StripNewline(text);
    if Trim(body) == NO_RESULT || body == "" then Some([]) else AddLines([], Lines(body))
  }

  function SplitAll(columns: seq<string>, rows: seq<string>): Result<seq<seq<string>>, RowError>
    requires |columns| > 0
    decreases |rows|
  {
    if rows == [] then Ok([])
    else
      match SplitTexts(columns, rows[0])
      case Err(e) => Err(e)
      case Ok(first) =>
        match SplitAll(columns, rows[1..])
        case Err(e) => Err(e)
        case Ok(rest) => Ok([first] + rest)
  }

  function ParseTexts(columns: seq<string>, text: string): Result<seq<seq<string>>, RowError>
    requires |columns| > 0
  {
    match Rows(text)
    case None => Err(NoRow)
    case Some(rows) => SplitAll(columns, rows)
  }

  /** `stdout` is `None` when the bytes are not UTF-8. */
  method ParseRows(stdout: Option<string>, columns: seq<string>)
    returns (result: Result<seq<seq<Option<string>>>, RowError>)
    requires |columns| > 0
    ensures stdout.None? ==> result == Err(NotUtf8)
    ensures stdout.Some? ==>
              match ParseTexts(columns, stdout.value)
              case Err(e) => result == Err(e)
              case Ok(texts) => result.Ok? && |result.value| == |texts| &&
                                forall i :: 0 <= i < |texts| ==> result.value[i] == Values(texts[i])
  {
    if stdout.None? {
      return Err(NotUtf8);
    }
    var text := StripNewline(stdout.value);
    if Trim(text) == NO_RESULT || text == "" {
      return Ok([]);
    }
    var lines := Lines(text);
    var rows: seq<string> := [];
    assert lines[0..] == lines;
    for i := 0 to |lines|
      invariant AddLines([], lines) == AddLines(rows, lines[i..])
    {
      assert lines[i..][1..] == lines[i + 1..];
      var prefix := Header(|rows|);
      if prefix <= lines[i] {
        rows := rows + [lines[i][|prefix|..]];
      } else if rows == [] {
        return Err(NoRow);
      } else {
        rows := rows[..|rows| - 1] + [rows[|rows| - 1] + "\n" + lines[i]];
      }
    }
    result := SplitRows(rows, columns);
  }

  method SplitRows(rows: seq<string>, columns: seq<string>)
    returns (result: Result<seq<seq<Option<string>>>, RowError>)
    requires |columns| > 0
    ensures match SplitAll(columns, rows)
            case Err(e) => result == Err(e)
            case Ok(texts) => result.Ok? && |result.value| == |texts| &&
                              forall i :: 0 <= i < |texts| ==> result.value[i] == Values(texts[i])
  {
    var values: seq<seq<Option<string>>> := [];
    ghost var texts: seq<seq<string>> := [];
    assert rows[0..] == rows;
    assert SplitAll(columns, rows) == After(texts, SplitAll(columns, rows));
    for i := 0 to |rows|
      invariant |values| == |texts| && forall k :: 0 <= k < |texts| ==> values[k] == Values(texts[k])
      invariant SplitAll(columns, rows) == After(texts, SplitAll(columns, rows[i..]))
    {
      assert rows[i..][0] == rows[i] && rows[i..][1..] == rows[i + 1..];
      var row := SplitRow(rows[i], columns);
      if row.Err? {
        return Err(row.error);
      }
      ghost var text := SplitTexts(columns, rows[i]).value;
      AfterOne(texts, text, SplitAll(columns, rows[i + 1..]));
      values := values + [row.value];
      texts := texts + [text];
    }
    assert texts + [] == texts;
    return Ok(values);
  }

  ghost function After(texts: seq<seq<string>>, r: Result<seq<seq<string>>, RowError>): (s: Result<seq<seq<string>>, RowError>)
    ensures texts == [] ==> s == r
  {
    match r
    case Err(e) => Err(e)
    case Ok(t) => assert texts == [] ==> texts + t == t; Ok(texts + t)
  }

  lemma AfterOne(texts: seq<seq<string>>, text: seq<string>, r: Result<seq<seq<string>>, RowError>)
    ensures After(texts, After([text], r)) == After(texts + [text], r)
  {
    if r.Ok? {
      assert texts + ([text] + r.value) == (texts + [text]) + r.value;
    }
  }

  // ---- the command's own printer ----

  /** Rows `from`, `from + 1`, ... as the command prints them. */
  function PrintRows(rows: seq<string>, from: nat): string {
    if rows == [] then "" else Header(from) + rows[0] + "\n" + PrintRows(rows[1..], from + 1)
  }

  /** No continuation line of a row looks like the start of the next one. */
  ghost predicate NoFalseHeader(row: string, next: nat) {
    forall j :: 1 <= j < |Lines(row)| ==> !(Header(next) <= Lines(row)[j])
  }

  ghost predicate NoFalseHeaders(rows: seq<string>, from: nat) {
    forall i :: 0 <= i < |rows| ==> NoFalseHeader(rows[i], from + i + 1)
  }

  // ---- lines ----

  function JoinLines(lines: seq<string>): string {
    if lines == [] then "" else "\n" + lines[0] + JoinLines(lines[1..])
  }

  lemma {:induction false} LinesOfAppend(a: string, b: string)
    ensures Lines(a + "\n" + b) == Lines(a) + Lines(b)
    decreases |a|
  {
    var whole := a + "\n" + b;
    if a == "" {
      assert whole[0] == '\n' && whole[1..] == b;
    } else {
      assert whole[0] == a[0] && whole[1..] == a[1..] + "\n" + b;
      LinesOfAppend(a[1..], b);
    }
  }

  lemma {:induction false} LinesOfPrefix(head: string, s: string)
    requires '\n' !in head
    ensures Lines(head + s) == [head + Lines(s)[0]] + Lines(s)[1..]
    decreases |head|
  {
    if head == "" {
      assert head + s == s;
      assert head + Lines(s)[0] == Lines(s)[0];
      assert [Lines(s)[0]] + Lines(s)[1..] == Lines(s);
    } else {
      assert (head + s)[0] == head[0] && (head + s)[1..] == head[1..] + s;
      assert head[0] in head;
      LinesOfPrefix(head[1..], s);
      assert [head[0]] + (head[1..] + Lines(s)[0]) == head + Lines(s)[0];
    }
  }

  lemma {:induction false} JoinUndoesLines(s: string)
    ensures Lines(s)[0] + JoinLines(Lines(s)[1..]) == s
    decreases |s|
  {
    if s != "" {
      JoinUndoesLines(s[1..]);
      var rest := Lines(s[1..]);
      if s[0] == '\n' {
        assert Lines(s)[1..] == rest;
      } else {
        assert Lines(s)[1..] == rest[1..];
      }
    }
  }

  lemma {:induction false} AddLinesSplits(rows: seq<string>, a: seq<string>, b: seq<string>)
    ensures AddLines(rows, a + b) ==
            match AddLines(rows, a) case None => None case Some(more) => AddLines(more, b)
    decreases |a|
  {
    if a == [] {
      assert a + b == b;
    } else {
      assert (a + b)[1..] == a[1..] + b;
      var first := AddLine(rows, a[0]);
      if first.Some? {
        AddLinesSplits(first.value, a[1..], b);
      }
    }
  }

  /** Continuation lines grow the last row back to its value as long as none looks like a header. */
  lemma {:induction false} Continue(rows: seq<string>, last: string, lines: seq<string>)
    requires forall j :: 0 <= j < |lines| ==> !(Header(|rows| + 1) <= lines[j])
    ensures AddLines(rows + [last], lines) == Some(rows + [last + JoinLines(lines)])
    decreases |lines|
  {
    if lines == [] {
      assert last + JoinLines(lines) == last;
    } else {
      var more := last + "\n" + lines[0];
      assert (rows + [last])[..|rows|] == rows;
      Continue(rows, more, lines[1..]);
      assert more + JoinLines(lines[1..]) == last + JoinLines(lines);
    }
  }

  lemma {:induction false} NoNewlineInHeader(n: nat)
    ensures '\n' !in Header(n)
  {
    forall i | 0 <= i < |Header(n)|
      ensures Header(n)[i] != '\n'
    {
      assert Header(n)[i] == if i < 5 then "Row: "[i] else if i < 5 + |Decimal(n)| then Decimal(n)[i - 5] else ' ';
    }
  }

  lemma FirstLine(rows: seq<string>, row: string)
    ensures var n := |rows|;
            AddLines(rows, Lines(Header(n) + row)) == AddLines(rows + [Lines(row)[0]], Lines(row)[1..])
  {
    var n := |rows|;
    NoNewlineInHeader(n);
    LinesOfPrefix(Header(n), row);
    var lines := Lines(Header(n) + row);
    assert lines[1..] == Lines(row)[1..];
    assert lines[0][|Header(n)|..] == Lines(row)[0];
  }

  lemma ContinueRow(rows: seq<string>, row: string, lines: seq<string>)
    requires lines == Lines(row) && NoFalseHeader(row, |rows| + 1)
    ensures AddLines(rows + [lines[0]], lines[1..]) == Some(rows + [row])
  {
    assert forall j :: 0 <= j < |lines[1..]| ==> lines[1..][j] == lines[j + 1];
    Continue(rows, lines[0], lines[1..]);
    JoinUndoesLines(row);
  }

  /** One printed row is read back when none of its continuation lines looks like a header. */
  lemma OneRow(rows: seq<string>, row: string)
    requires NoFalseHeader(row, |rows| + 1)
    ensures AddLines(rows, Lines(Header(|rows|) + row)) == Some(rows + [row])
  {
    FirstLine(rows, row);
    ContinueRow(rows, row, Lines(row));
  }

  lemma {:induction false} EndsInNewline(rows: seq<string>, from: nat)
    requires rows != []
    ensures var text := PrintRows(rows, from); |text| > 0 && text[|text| - 1] == '\n'
    decreases |rows|
  {
    if |rows| > 1 {
      EndsInNewline(rows[1..], from + 1);
    }
  }

  /** The lines of the printed rows, without the empty one after the last line break. */
  function PrintedLines(rows: seq<string>, from: nat): seq<string> {
    if rows == [] then [] else Lines(Header(from) + rows[0]) + PrintedLines(rows[1..], from + 1)
  }

  lemma WithoutTheLast(head: string, tail: string)
    ensures var text := head + "\n" + tail;
            |text| > 0 && text[..|text| - 1] == if tail == "" then head else head + "\n" + tail[..|tail| - 1]
  {
  }

  lemma LinesOfFirst(head: string, tail: string, rest: seq<string>)
    requires if tail == "" then rest == [] else Lines(tail[..|tail| - 1]) == rest
    ensures var text := head + "\n" + tail; |text| > 0 && Lines(text[..|text| - 1]) == Lines(head) + rest
  {
    WithoutTheLast(head, tail);
    if tail != "" {
      LinesOfAppend(head, tail[..|tail| - 1]);
    }
  }

  lemma {:induction false} LinesOfPrint(rows: seq<string>, from: nat)
    requires rows != []
    ensures var text := PrintRows(rows, from); |text| > 0 && Lines(text[..|text| - 1]) == PrintedLines(rows, from)
    decreases |rows|
  {
    if |rows| > 1 {
      LinesOfPrint(rows[1..], from + 1);
    }
    LinesOfFirst(Header(from) + rows[0], PrintRows(rows[1..], from + 1), PrintedLines(rows[1..], from + 1));
  }

  lemma LaterHeaders(rows: seq<string>, from: nat)
    requires rows != []
    ensures NoFalseHeaders(rows, from) <==> NoFalseHeader(rows[0], from + 1) && NoFalseHeaders(rows[1..], from + 1)
  {
    if NoFalseHeaders(rows, from) {
      assert NoFalseHeader(rows[0], from + 0 + 1);
      forall i | 0 <= i < |rows[1..]|
        ensures NoFalseHeader(rows[1..][i], from + 1 + i + 1)
      {
        assert NoFalseHeader(rows[i + 1], from + (i + 1) + 1);
      }
    } else {
      var i :| 0 <= i < |rows| && !NoFalseHeader(rows[i], from + i + 1);
      if i > 0 {
        assert !NoFalseHeader(rows[1..][i - 1], from + 1 + (i - 1) + 1);
      }
    }
  }

  lemma {:induction false} ManyRows(done: seq<string>, rows: seq<string>)
    requires NoFalseHeaders(rows, |done|)
    ensures AddLines(done, PrintedLines(rows, |done|)) == Some(done + rows)
    decreases |rows|
  {
    if rows == [] {
      assert done + rows == done;
    } else {
      LaterHeaders(rows, |done|);
      OneRow(done, rows[0]);
      AddLinesSplits(done, Lines(Header(|done|) + rows[0]), PrintedLines(rows[1..], |done| + 1));
      ManyRows(done + [rows[0]], rows[1..]);
      assert done + [rows[0]] + rows[1..] == done + rows;
    }
  }

  /** Rows once passed are never touched again. */
  lemma {:induction false} RowsArePersistent(rows: seq<string>, lines: seq<string>)
    requires AddLines(rows, lines).Some?
    ensures var more := AddLines(rows, lines).value;
            |more| >= |rows| && forall i :: 0 <= i < |rows| - 1 ==> more[i] == rows[i]
    decreases |lines|
  {
    if lines != [] {
      RowsArePersistent(AddLine(rows, lines[0]).value, lines[1..]);
    }
  }

  /** A row only grows while it is the last one. */
  lemma {:induction false} LastRowGrows(rows: seq<string>, lines: seq<string>)
    requires rows != [] && AddLines(rows, lines).Some?
    ensures var more := AddLines(rows, lines).value;
            |more| >= |rows| && |more[|rows| - 1]| <= |rows[|rows| - 1]| + |JoinLines(lines)|
    ensures (exists j :: 0 <= j < |lines| && Header(|rows|) <= lines[j]) ==>
              |AddLines(rows, lines).value[|rows| - 1]| < |rows[|rows| - 1]| + |JoinLines(lines)|
    decreases |lines|
  {
    if lines != [] {
      var next := AddLine(rows, lines[0]).value;
      if Header(|rows|) <= lines[0] {
        RowsArePersistent(next, lines[1..]);
      } else {
        LastRowGrows(next, lines[1..]);
        if exists j :: 0 <= j < |lines| && Header(|rows|) <= lines[j] {
          var j :| 0 <= j < |lines| && Header(|rows|) <= lines[j];
          assert lines[1..][j - 1] == lines[j];
        }
      }
    }
  }

  lemma AddLinesNeverFails(rows: seq<string>, lines: seq<string>)
    requires rows != []
    ensures AddLines(rows, lines).Some?
    decreases |lines|
  {
    if lines != [] {
      AddLinesNeverFails(AddLine(rows, lines[0]).value, lines[1..]);
    }
  }

  /** A false header inside a row loses the row: whatever follows, it is not read back. */
  lemma FalseHeaderLosesTheRow(done: seq<string>, row: string, following: seq<string>)
    requires !NoFalseHeader(row, |done| + 1)
    ensures AddLines(done, Lines(Header(|done|) + row) + following).Some?
    ensures var rows := AddLines(done, Lines(Header(|done|) + row) + following).value;
            |rows| > |done| && |rows[|done|]| < |row|
  {
    var lines := Lines(Header(|done|) + row);
    var first, rest := Lines(row)[0], Lines(row)[1..];
    FirstLine(done, row);
    AddLinesSplits(done, lines, following);
    AddLinesNeverFails(done + [first], rest);
    var mid := AddLines(done + [first], rest).value;
    var j :| 1 <= j < |Lines(row)| && Header(|done| + 1) <= Lines(row)[j];
    assert rest[j - 1] == Lines(row)[j];
    LastRowGrows(done + [first], rest);
    JoinUndoesLines(row);
    MoreRows(done + [first], rest);
    AddLinesNeverFails(mid, following);
    RowsArePersistent(mid, following);
  }

  lemma {:induction false} MoreRows(rows: seq<string>, lines: seq<string>)
    requires rows != [] && AddLines(rows, lines).Some?
    requires exists j :: 0 <= j < |lines| && Header(|rows|) <= lines[j]
    ensures |AddLines(rows, lines).value| > |rows|
    decreases |lines|
  {
    var next := AddLine(rows, lines[0]).value;
    if Header(|rows|) <= lines[0] {
      RowsArePersistent(next, lines[1..]);
    } else {
      var j :| 0 <= j < |lines| && Header(|rows|) <= lines[j];
      assert lines[1..][j - 1] == lines[j];
      MoreRows(next, lines[1..]);
    }
  }

  /** The rows before a false header are read back, so the first one is where the result goes wrong. */
  lemma {:induction false} FirstFalseHeader(done: seq<string>, rows: seq<string>)
    requires !NoFalseHeaders(rows, |done|)
    ensures AddLines(done, PrintedLines(rows, |done|)) != Some(done + rows)
    decreases |rows|
  {
    LaterHeaders(rows, |done|);
    var following := PrintedLines(rows[1..], |done| + 1);
    if !NoFalseHeader(rows[0], |done| + 1) {
      FalseHeaderLosesTheRow(done, rows[0], following);
      assert (done + rows)[|done|] == rows[0];
    } else {
      OneRow(done, rows[0]);
      AddLinesSplits(done, Lines(Header(|done|) + rows[0]), following);
      FirstFalseHeader(done + [rows[0]], rows[1..]);
      assert done + [rows[0]] + rows[1..] == done + rows;
    }
  }

  lemma RowsOfBody(text: string)
    requires |text| > 1 && text[0] == 'R' && text[|text| - 1] == '\n'
    ensures Rows(text) == AddLines([], Lines(text[..|text| - 1]))
  {
    TrimKeepsR(text[..|text| - 1]);
    assert NO_RESULT[0] == 'N';
  }

  lemma BeginsWithR(rows: seq<string>, from: nat)
    requires rows != []
    ensures var text := PrintRows(rows, from); |text| > 1 && text[0] == 'R'
  {
    assert Header(from)[0] == 'R';
  }

  lemma RowsOfPrint(rows: seq<string>)
    requires rows != []
    ensures Rows(PrintRows(rows, 0)) == AddLines([], PrintedLines(rows, 0))
  {
    EndsInNewline(rows, 0);
    LinesOfPrint(rows, 0);
    BeginsWithR(rows, 0);
    RowsOfBody(PrintRows(rows, 0));
  }

  /** What the command prints for some rows, or for none. */
  function PrintOutput(rows: seq<string>): string {
    if rows == [] then NO_RESULT + "\n" else PrintRows(rows, 0)
  }

  lemma NoRowsRead()
    ensures Rows(PrintOutput([])) == Some([])
  {
    var text := NO_RESULT + "\n";
    assert text[..|text| - 1] == NO_RESULT;
    assert NO_RESULT[0] == 'N' && NO_RESULT[|NO_RESULT| - 1] == '.';
  }

  /**
   Reading the printed rows gives the rows back exactly when no continuation line begins with the
   header of the next row.
   */
  lemma RowsRoundTrip(rows: seq<string>)
    ensures Rows(PrintOutput(rows)) == Some(rows) <==> NoFalseHeaders(rows, 0)
  {
    if rows == [] {
      NoRowsRead();
    } else {
      RowsOfPrint(rows);
      assert [] + rows == rows;
      if NoFalseHeaders(rows, 0) {
        ManyRows([], rows);
      } else {
        FirstFalseHeader([], rows);
      }
    }
  }

  lemma {:induction false} TrimKeepsR(text: string)
    requires text != "" && text[0] == 'R'
    ensures Trim(text) != "" && Trim(text)[0] == 'R'
    decreases |text|
  {
    if IsWhitespace(text[|text| - 1]) {
      TrimKeepsR(text[..|text| - 1]);
    }
  }

  // ---- rows and columns together ----

  function PrintTable(columns: seq<string>, table: seq<seq<string>>): seq<string>
    requires |columns| > 0 && forall i :: 0 <= i < |table| ==> |table[i]| == |columns|
  {
    seq(|table|, i requires 0 <= i < |table| => PrintRow(columns, table[i]))
  }

  ghost predicate AllUnambiguous(columns: seq<string>, table: seq<seq<string>>)
    requires |columns| > 0 && forall i :: 0 <= i < |table| ==> |table[i]| == |columns|
  {
    forall i :: 0 <= i < |table| ==> Unambiguous(columns, table[i])
  }

  lemma FirstIsUnambiguous(columns: seq<string>, table: seq<seq<string>>)
    requires |columns| > 0 && table != [] && forall i :: 0 <= i < |table| ==> |table[i]| == |columns|
    ensures AllUnambiguous(columns, table) <==> Unambiguous(columns, table[0]) && AllUnambiguous(columns, table[1..])
  {
    assert forall i :: 1 <= i < |table| ==> table[1..][i - 1] == table[i];
  }

  lemma SplitFirst(columns: seq<string>, rows: seq<string>, table: seq<seq<string>>)
    requires |columns| > 0 && rows != [] && table != []
    ensures SplitAll(columns, rows) == Ok(table) <==>
              SplitTexts(columns, rows[0]) == Ok(table[0]) && SplitAll(columns, rows[1..]) == Ok(table[1..])
  {
    var first, rest := SplitTexts(columns, rows[0]), SplitAll(columns, rows[1..]);
    if first.Ok? && rest.Ok? {
      HeadAndRest(table, first.value, rest.value);
    }
  }

  lemma HeadAndRest<T>(s: seq<T>, x: T, rest: seq<T>)
    requires s != []
    ensures s == [x] + rest <==> s[0] == x && s[1..] == rest
  {
    assert s == [s[0]] + s[1..];
    if s == [x] + rest {
      assert s[1..] == rest;
    }
  }

  lemma {:induction false} SplitAllIsExact(columns: seq<string>, rows: seq<string>, table: seq<seq<string>>)
    requires |columns| > 0 && Separable(columns)
    requires |rows| == |table| && forall i :: 0 <= i < |table| ==> |table[i]| == |columns|
    requires forall i :: 0 <= i < |table| ==> rows[i] == PrintRow(columns, table[i])
    ensures SplitAll(columns, rows) == Ok(table) <==> AllUnambiguous(columns, table)
    decreases |rows|
  {
    if rows != [] {
      SplitAllIsExact(columns, rows[1..], table[1..]);
      assert rows[0][|columns[0]| + 1..] == PrintRest(columns, table[0]);
      SplitIsExact(columns, PrintRest(columns, table[0]), table[0]);
      FirstIsUnambiguous(columns, table);
      SplitFirst(columns, rows, table);
    }
  }

  /** Rows that split into a table are that table printed, so no other rows do. */
  lemma {:induction false} SplitAllPrints(columns: seq<string>, rows: seq<string>, table: seq<seq<string>>)
    requires |columns| > 0 && Separable(columns)
    requires forall i :: 0 <= i < |table| ==> |table[i]| == |columns|
    requires SplitAll(columns, rows) == Ok(table)
    ensures rows == PrintTable(columns, table)
    decreases |rows|
  {
    if rows != [] {
      SplitFirst(columns, rows, table);
      SplitAllPrints(columns, rows[1..], table[1..]);
      SplitIsExact(columns, rows[0][|columns[0]| + 1..], table[0]);
      assert rows[0] == PrintRow(columns, table[0]);
      HeadAndRest(PrintTable(columns, table), rows[0], rows[1..]);
      assert rows == [rows[0]] + rows[1..];
      assert PrintTable(columns, table)[1..] == PrintTable(columns, table[1..]);
    }
  }

  /**
   The printed table is read back, cell by cell, exactly when no continuation line begins with the next
   row's header and every row is unambiguous.
   */
  lemma TableRoundTrip(columns: seq<string>, table: seq<seq<string>>)
    requires |columns| > 0 && Separable(columns)
    requires forall i :: 0 <= i < |table| ==> |table[i]| == |columns|
    ensures ParseTexts(columns, PrintOutput(PrintTable(columns, table))) == Ok(table) <==>
              NoFalseHeaders(PrintTable(columns, table), 0) && AllUnambiguous(columns, table)
  {
    var printed := PrintTable(columns, table);
    RowsRoundTrip(printed);
    SplitAllIsExact(columns, printed, table);
    var found := Rows(PrintOutput(printed));
    if found.Some? && SplitAll(columns, found.value) == Ok(table) {
      SplitAllPrints(columns, found.value, table);
    }
  }

  // ---- null values ----

  /** The command prints a null value as the word NULL, and any other value as its text. */
  function PrintCell(cell: Option<string>): string {
    if cell.Some? then cell.value else "NULL"
  }

  function PrintCells(cells: seq<Option<string>>): seq<string> {
    seq(|cells|, i requires 0 <= i < |cells| => PrintCell(cells[i]))
  }

  function TextsOf(table: seq<seq<Option<string>>>): seq<seq<string>> {
    seq(|table|, i requires 0 <= i < |table| => PrintCells(table[i]))
  }

  /** The cells `ParseRows` returns for a table of texts. */
  ghost predicate ReadsAs(texts: Result<seq<seq<string>>, RowError>, table: seq<seq<Option<string>>>) {
    texts.Ok? && |texts.value| == |table| && forall i :: 0 <= i < |table| ==> Values(texts.value[i]) == table[i]
  }

  /** No value is the word NULL itself. */
  predicate NoWordNull(cells: seq<Option<string>>) {
    Some("NULL") !in cells
  }

  lemma CellsOf(texts: seq<string>, cells: seq<Option<string>>)
    ensures Values(texts) == cells <==> texts == PrintCells(cells) && NoWordNull(cells)
  {
    if Values(texts) == cells {
      assert forall i :: 0 <= i < |texts| ==> cells[i] == Value(texts[i]);
    }
  }

  lemma TableOf(texts: seq<seq<string>>, table: seq<seq<Option<string>>>)
    ensures ReadsAs(Ok(texts), table) <==> texts == TextsOf(table) && forall i :: 0 <= i < |table| ==> NoWordNull(table[i])
  {
    forall i | 0 <= i < |table| && |texts| == |table|
      ensures Values(texts[i]) == table[i] <==> texts[i] == PrintCells(table[i]) && NoWordNull(table[i])
    {
      CellsOf(texts[i], table[i]);
    }
  }

  /** A printed table of values and nulls is read back exactly if its texts are and no value is the word NULL. */
  lemma CellsRoundTrip(columns: seq<string>, table: seq<seq<Option<string>>>)
    requires |columns| > 0 && Separable(columns)
    requires forall i :: 0 <= i < |table| ==> |table[i]| == |columns|
    ensures ReadsAs(ParseTexts(columns, PrintOutput(PrintTable(columns, TextsOf(table)))), table) <==>
              && NoFalseHeaders(PrintTable(columns, TextsOf(table)), 0) && AllUnambiguous(columns, TextsOf(table))
              && forall i :: 0 <= i < |table| ==> NoWordNull(table[i])
  {
    TableRoundTrip(columns, TextsOf(table));
    var read := ParseTexts(columns, PrintOutput(PrintTable(columns, TextsOf(table))));
    if read.Ok? {
      TableOf(read.value, table);
    }
  }

  // ---- row numbers ----

  function DigitsValue(s: string): nat
    requires forall i :: 0 <= i < |s| ==> '0' <= s[i] <= '9'
  {
    if s == "" then 0 else DigitsValue(s[..|s| - 1]) * 10 + (s[|s| - 1] - '0') as nat
  }

  /** A header carries the number of its row in decimal, without leading zeros. */
  lemma {:induction false} HeaderNumber(n: nat)
    ensures DigitsValue(Decimal(n)) == n && (n > 0 ==> Decimal(n)[0] != '0')
    decreases n
  {
    if n >= 10 {
      HeaderNumber(n / 10);
      assert Decimal(n)[..|Decimal(n)| - 1] == Decimal(n / 10);
    } else {
      assert Decimal(n)[..0] == "";
    }
  }
}
