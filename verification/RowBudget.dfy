/**
 One row budget shared by several tables: the route and socket supplements. A line is the sequence of its
 columns; a table says which lines are data rows and how one is read.
 */
module RowBudget {
  import opened Wrappers
  import opened Routes

  type Line = seq<string>

  datatype Error = Cancelled | Malformed

  datatype Table<!Entry> = Table(isData: Line -> bool, read: Line -> Option<Entry>)

  /** What reading one table's file gave: cancellation, no such file, or its text, cut at the reader's bound or not. */
  datatype Reading = Stopped | Missing | Text(lines: seq<Line>, cut: bool)

  datatype Source<!Entry> = Source(table: Table<Entry>, reading: Reading)

  datatype Established<+Entry> = Established(entries: seq<Entry>, truncated: bool)

  /** The data rows among the lines, each read; `None` is a malformed one. */
  function DataRows<Entry>(table: Table<Entry>, lines: seq<Line>): seq<Option<Entry>> {
    if lines == [] then [] else
    var before, last := DataRows(table, lines[..|lines| - 1]), lines[|lines| - 1];
    if table.isData(last) then before + [table.read(last)] else before
  }

  function RowsOf<Entry>(source: Source<Entry>): seq<Option<Entry>> {
    if source.reading.Text? then DataRows(source.table, source.reading.lines) else []
  }

  /** The data rows of every readable table, in order. */
  function AllRows<Entry>(sources: seq<Source<Entry>>): seq<Option<Entry>> {
    if sources == [] then [] else AllRows(sources[..|sources| - 1]) + RowsOf(sources[|sources| - 1])
  }

  function First<T>(rows: seq<T>, n: nat): seq<T> {
    if |rows| <= n then rows else rows[..n]
  }

  predicate WellFormed<Entry(!new)>(rows: seq<Option<Entry>>) {
    forall i :: 0 <= i < |rows| ==> rows[i].Some?
  }

  function Values<Entry(!new)>(rows: seq<Option<Entry>>): (values: seq<Entry>)
    requires WellFormed(rows)
    ensures |values| == |rows|
  {
    seq(|rows|, i requires 0 <= i < |rows| => rows[i].value)
  }

  function Room(limit: nat, used: nat): nat {
    if used >= limit then 0 else limit - used
  }

  lemma {:induction false} DataRowsOfPrefix<Entry>(table: Table<Entry>, lines: seq<Line>, k: nat)
    requires k <= |lines|
    ensures DataRows(table, lines[..k]) <= DataRows(table, lines)
  {
    if k < |lines| {
      var shorter := lines[..|lines| - 1];
      DataRowsOfPrefix(table, shorter, k);
      assert shorter[..k] == lines[..k];
    } else {
      assert lines[..k] == lines;
    }
  }

  /**
   One table's rows go in while there is room. A data row the budget cannot hold is reported as a
   truncation without being read, so it may be malformed.
   */
  method AppendRows<Entry(!new)>(table: Table<Entry>, lines: seq<Line>, limit: nat, entries: seq<Entry>, truncated: bool)
      returns (result: Option<Established<Entry>>)
    ensures result.Some? <==> WellFormed(First(DataRows(table, lines), Room(limit, |entries|)))
    ensures result.Some? ==>
              var rows, room := DataRows(table, lines), Room(limit, |entries|);
              && result.value.entries == entries + Values(First(rows, room))
              && result.value.truncated == (truncated || |rows| > room)
  {
    var kept, cut := entries, truncated;
    ghost var room := Room(limit, |entries|);
    for k := 0 to |lines|
      invariant |DataRows(table, lines[..k])| <= room && WellFormed(DataRows(table, lines[..k]))
      invariant kept == entries + Values(DataRows(table, lines[..k]))
      invariant cut == truncated
    {
      ghost var rows := DataRows(table, lines[..k]);
      assert lines[..k + 1][..k] == lines[..k];
      DataRowsOfPrefix(table, lines, k + 1);
      if !table.isData(lines[k]) {
        continue;
      }
      if |kept| >= limit {
        assert DataRows(table, lines)[..|rows|] == rows;
        return Some(Established(kept, true));
      }
      var row := table.read(lines[k]);
      if row.None? {
        assert First(DataRows(table, lines), room)[|rows|] == row;
        return None;
      }
      assert Values(rows + [row]) == Values(rows) + [row.value];
      kept := kept + [row.value];
    }
    assert lines[..|lines|] == lines;
    return Some(Established(kept, cut));
  }

  /** The family's own budget, applied once more to what was collected. */
  function Establish<Entry>(entries: seq<Entry>, limit: nat, truncated: bool): Established<Entry> {
    Established(First(entries, limit), truncated || |entries| > limit)
  }

  predicate Undisturbed<Entry(!new)>(sources: seq<Source<Entry>>) {
    forall i :: 0 <= i < |sources| ==> !sources[i].reading.Stopped?
  }

  predicate Readable<Entry(!new)>(sources: seq<Source<Entry>>) {
    exists i :: 0 <= i < |sources| && sources[i].reading.Text?
  }

  predicate SomeCut<Entry(!new)>(sources: seq<Source<Entry>>) {
    exists i :: 0 <= i < |sources| && sources[i].reading.Text? && sources[i].reading.cut
  }

  /** The state after the tables of `sources`: their first rows are in, and nothing else has happened. */
  ghost predicate Collected<Entry(!new)>(sources: seq<Source<Entry>>, limit: nat, entries: seq<Entry>, truncated: bool) {
    && Undisturbed(sources)
    && WellFormed(First(AllRows(sources), limit))
    && entries == Values(First(AllRows(sources), limit))
    && (truncated <==> SomeCut(sources) || |AllRows(sources)| > limit)
  }

  lemma FirstOfBoth<T>(a: seq<T>, b: seq<T>, limit: nat)
    ensures First(a + b, limit) == First(a, limit) + First(b, Room(limit, |First(a, limit)|))
    ensures |a + b| > limit <==> |a| > limit || |b| > Room(limit, |First(a, limit)|)
  {
  }

  lemma ValuesOfBoth<Entry(!new)>(a: seq<Option<Entry>>, b: seq<Option<Entry>>)
    ensures WellFormed(a + b) <==> WellFormed(a) && WellFormed(b)
    ensures WellFormed(a) && WellFormed(b) ==> Values(a + b) == Values(a) + Values(b)
  {
    assert forall i :: 0 <= i < |b| ==> (a + b)[|a| + i] == b[i];
    assert forall i :: 0 <= i < |a| ==> (a + b)[i] == a[i];
  }

  lemma CollectedTable<Entry(!new)>(sources: seq<Source<Entry>>, next: Source<Entry>, limit: nat, entries: seq<Entry>, truncated: bool)
    requires Collected(sources, limit, entries, truncated) && next.reading.Text?
    ensures var rows, room := RowsOf(next), Room(limit, |entries|);
            && (WellFormed(First(AllRows(sources + [next]), limit)) <==> WellFormed(First(rows, room)))
            && (WellFormed(First(rows, room)) ==>
                 Collected(sources + [next], limit, entries + Values(First(rows, room)),
                           truncated || next.reading.cut || |rows| > room))
  {
    var rows, room := RowsOf(next), Room(limit, |entries|);
    var all := sources + [next];
    assert all[..|all| - 1] == sources;
    var before := First(AllRows(sources), limit);
    FirstOfBoth(AllRows(sources), rows, limit);
    assert First(AllRows(all), limit) == before + First(rows, room);
    ValuesOfBoth(before, First(rows, room));
    SomeCutOfBoth(sources, next);
    assert Undisturbed(all);
  }

  lemma SomeCutOfBoth<Entry(!new)>(sources: seq<Source<Entry>>, next: Source<Entry>)
    ensures SomeCut(sources + [next]) <==> SomeCut(sources) || (next.reading.Text? && next.reading.cut)
  {
    var all := sources + [next];
    assert all[|sources|] == next;
    assert forall i :: 0 <= i < |sources| ==> all[i] == sources[i];
  }

  lemma {:induction false} AllRowsOfPrefix<Entry(!new)>(sources: seq<Source<Entry>>, k: nat, limit: nat)
    requires k <= |sources|
    ensures AllRows(sources[..k]) <= AllRows(sources)
    ensures WellFormed(First(AllRows(sources), limit)) ==> WellFormed(First(AllRows(sources[..k]), limit))
  {
    if k < |sources| {
      var shorter := sources[..|sources| - 1];
      AllRowsOfPrefix(shorter, k, limit);
      assert shorter[..k] == sources[..k];
      assert forall i :: 0 <= i < |First(AllRows(shorter), limit)| ==>
          First(AllRows(shorter), limit)[i] == First(AllRows(sources), limit)[i];
    } else {
      assert sources[..k] == sources;
    }
  }

  /** Reading stops at table `i`: nothing went wrong before it, and it was cancelled or holds a malformed row within the budget. */
  ghost predicate FailsAt<Entry(!new)>(sources: seq<Source<Entry>>, limit: nat, i: nat, error: Error) {
    && i < |sources|
    && Undisturbed(sources[..i])
    && WellFormed(First(AllRows(sources[..i]), limit))
    && (if sources[i].reading.Stopped? then error == Cancelled
        else error == Malformed && !WellFormed(First(AllRows(sources[..i + 1]), limit)))
  }

  /**
   The first `limit` data rows of all readable tables together. Nothing at all is known when no table is
   readable; the first table that is cancelled or has a malformed row within the budget ends the reading.
   */
  method Supplement<Entry(!new)>(sources: seq<Source<Entry>>, limit: nat)
      returns (result: Result<Option<Established<Entry>>, Error>)
    ensures result.Err? ==> exists i: nat :: FailsAt(sources, limit, i, result.error)
    ensures result.Ok? ==> Undisturbed(sources) && WellFormed(First(AllRows(sources), limit))
    ensures result.Ok? ==> (result.value.None? <==> !Readable(sources))
    ensures result.Ok? && result.value.Some? ==>
              && result.value.value.entries == Values(First(AllRows(sources), limit))
              && (result.value.value.truncated <==> SomeCut(sources) || |AllRows(sources)| > limit)
  {
    var entries: seq<Entry>, truncated, readable := [], false, false;
    for k := 0 to |sources|
      invariant Collected(sources[..k], limit, entries, truncated)
      invariant readable <==> Readable(sources[..k])
    {
      assert sources[..k + 1] == sources[..k] + [sources[k]];
      assert sources[..k + 1][..k] == sources[..k];
      match sources[k].reading {
        case Stopped =>
          assert FailsAt(sources, limit, k, Cancelled);
          return Err(Cancelled);
        case Missing =>
          SomeCutOfBoth(sources[..k], sources[k]);
          assert AllRows(sources[..k + 1]) == AllRows(sources[..k]);
        case Text(lines, cut) =>
          CollectedTable(sources[..k], sources[k], limit, entries, truncated);
          assert sources[..k + 1][k].reading.Text?;
          readable := true;
          truncated := truncated || cut;
          var appended := AppendRows(sources[k].table, lines, limit, entries, truncated);
          if appended.None? {
            assert FailsAt(sources, limit, k, Malformed);
            return Err(Malformed);
          }
          entries, truncated := appended.value.entries, appended.value.truncated;
      }
    }
    assert sources[..|sources|] == sources;
    if !readable {
      return Ok(None);
    }
    return Ok(Some(Establish(entries, limit, truncated)));
  }

  /** A failure at one table shows in every longer prefix of the tables. */
  lemma FailureShows<Entry(!new)>(sources: seq<Source<Entry>>, limit: nat, i: nat, e: Error, n: nat)
    requires i < n <= |sources| && FailsAt(sources, limit, i, e)
    ensures !(Undisturbed(sources[..n]) && WellFormed(First(AllRows(sources[..n]), limit)))
  {
    assert sources[..n][i] == sources[i];
    AllRowsOfPrefix(sources[..n], i + 1, limit);
    assert sources[..n][..i + 1] == sources[..i + 1];
  }

  /** The reading fails at no more than one table, so the error it reports is decided. */
  lemma FailureIsUnique<Entry(!new)>(sources: seq<Source<Entry>>, limit: nat, i: nat, j: nat, e: Error, f: Error)
    requires FailsAt(sources, limit, i, e) && FailsAt(sources, limit, j, f)
    ensures i == j && e == f
  {
    if i < j {
      FailureShows(sources, limit, i, e, j);
    } else if j < i {
      FailureShows(sources, limit, j, f, i);
    }
  }

  /** The reading succeeds exactly when no table is cancelled and the rows within the budget are well formed. */
  lemma FailsNowhere<Entry(!new)>(sources: seq<Source<Entry>>, limit: nat)
    ensures Undisturbed(sources) && WellFormed(First(AllRows(sources), limit)) <==>
              forall i: nat, e :: !FailsAt(sources, limit, i, e)
  {
    assert sources[..|sources|] == sources;
    if Undisturbed(sources) && WellFormed(First(AllRows(sources), limit)) {
      forall i: nat, e | i < |sources|
        ensures !FailsAt(sources, limit, i, e)
      {
        if FailsAt(sources, limit, i, e) {
          FailureShows(sources, limit, i, e, |sources|);
        }
      }
    } else {
      var i, e := FindFailure(sources, limit);
    }
  }

  lemma {:induction false} FindFailure<Entry(!new)>(sources: seq<Source<Entry>>, limit: nat) returns (i: nat, e: Error)
    requires !(Undisturbed(sources) && WellFormed(First(AllRows(sources), limit)))
    ensures FailsAt(sources, limit, i, e)
  {
    var last := |sources| - 1;
    var before := sources[..last];
    assert sources[..last + 1] == sources;
    if Undisturbed(before) && WellFormed(First(AllRows(before), limit)) {
      i := last;
      e := if sources[i].reading.Stopped? then Cancelled else Malformed;
    } else {
      i, e := FindFailure(before, limit);
      assert before[..i] == sources[..i] && before[..i + 1] == sources[..i + 1];
    }
  }

  // ---- the IPv4 route table ----

  /** The heading and blank lines are not data; a row needs eight columns, two words and a contiguous mask. */
  function IPv4Routes(hex: string -> Option<Word>, number: string -> Option<nat>): Table<RouteEntry> {
    Table(line => line != [] && line[0] != "Iface", line => ReadIPv4(line, hex, number))
  }

  function ReadIPv4(line: Line, hex: string -> Option<Word>, number: string -> Option<nat>): (entry: Option<RouteEntry>)
    ensures entry.Some? <==> |line| >= 8 && hex(line[1]).Some? && hex(line[7]).Some?
                             && exists p: nat :: p <= 32 && hex(line[7]).value == Swap(Mask(32, p))
    ensures entry.Some? ==>
              && entry.value.interface == Some(line[0]) && entry.value.metric == number(line[6])
              && entry.value.destination.Some? && entry.value.destination.value.network == V4(Swap(hex(line[1]).value))
    ensures entry.Some? ==>
              && (entry.value.gateway.Some? <==> hex(line[2]).Some? && true in hex(line[2]).value)
              && (entry.value.gateway.Some? ==> entry.value.gateway == Some(V4(Swap(hex(line[2]).value))))
    ensures entry.Some? ==>
              entry.value.destination.value.prefix <= 32 && hex(line[7]).value == Swap(Mask(32, entry.value.destination.value.prefix))
  {
    if |line| < 8 then None else
    match (hex(line[1]), hex(line[7]))
    case (Some(destination), Some(mask)) =>
      var row := RawRoute(line[0], destination, hex(line[2]), mask, number(line[6]));
      assert ReadRoute(row).Some? <==> exists p: nat :: p <= 32 && mask == Swap(Mask(32, p)) by {
        ReadRouteAcceptsMasks(row);
      }
      assert ReadRoute(row).Some? ==> RouteOf(row, ReadRoute(row).value) by {
        if ReadRoute(row).Some? {
          RouteIsOfItsRow(row);
        }
      }
      ReadRoute(row)
    case _ => None
  }

  /** The gateway is none if no bit of it is set; the prefix is the length of the mask. */
  ghost predicate RouteOf(row: RawRoute, entry: RouteEntry) {
    && (entry.gateway.Some? <==> row.gateway.Some? && true in row.gateway.value)
    && (entry.gateway.Some? ==> entry.gateway == Some(V4(Swap(row.gateway.value))))
    && entry.destination.Some? && entry.destination.value.prefix <= 32
    && row.mask == Swap(Mask(32, entry.destination.value.prefix))
  }

  lemma RouteIsOfItsRow(row: RawRoute)
    requires ReadRoute(row).Some?
    ensures RouteOf(row, ReadRoute(row).value)
  {
    var p := ReadRoute(row).value.destination.value.prefix;
    ContiguousIsExact(Swap(row.mask), 0);
    ContiguousIsExact(Swap(row.mask), p);
    SwapTwice(row.mask);
    if row.gateway.Some? {
      ZeroSwapped(row.gateway.value);
    }
  }

  lemma ZeroSwapped(x: Word)
    ensures Swap(x) == Mask(32, 0) <==> true !in x
  {
    SwapTwice(x);
    SwapTwice(Mask(32, 0));
    assert Swap(Mask(32, 0)) == Mask(32, 0);
    if true !in x {
      forall i | 0 <= i < 32
        ensures x[i] == Mask(32, 0)[i]
      {
        assert x[i] in x;
      }
    } else {
      var i :| 0 <= i < 32 && x[i];
      assert x != Mask(32, 0);
    }
  }

  /** Headings and blank lines change nothing, wherever they stand; every other line is a row. */
  lemma {:induction false} HeadingsAreSkipped(lines: seq<Line>, hex: string -> Option<Word>, number: string -> Option<nat>)
    ensures DataRows(IPv4Routes(hex, number), lines) == RowsRead(WithoutHeadings(lines), hex, number)
    decreases |lines|
  {
    if lines != [] {
      HeadingsAreSkipped(lines[..|lines| - 1], hex, number);
    }
  }

  function WithoutHeadings(lines: seq<Line>): seq<Line> {
    if lines == [] then []
    else
      var last := lines[|lines| - 1];
      WithoutHeadings(lines[..|lines| - 1]) + if |last| == 0 || last[0] == "Iface" then [] else [last]
  }

  function RowsRead(lines: seq<Line>, hex: string -> Option<Word>, number: string -> Option<nat>): seq<Option<RouteEntry>> {
    seq(|lines|, i requires 0 <= i < |lines| => ReadIPv4(lines[i], hex, number))
  }
}
