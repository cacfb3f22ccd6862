/**
 What a listing holds, stated on the provider's answers and their rows: the directory level by level, counting
 down the levels that are left, and the chains of rows that lead to an entry.
 */
module ContentTree {
  import opened Wrappers
  import opened ContentListing

  predicate IsDirectory(row: Row) {
    row.mimeType == Some(MIME_TYPE_DIR)
  }

  function NameOf(row: Row): string {
    if row.displayName.Some? then row.displayName.value else ""
  }

  function Under(prefix: string, name: string): string {
    if prefix == "" then name else prefix + ("/" + name)
  }

  /** A row can be listed: its name is one path component, and it has an id if it is to be opened. */
  predicate Listable(row: Row, descended: bool) {
    && NameOf(row) != "" && NameOf(row) != "." && NameOf(row) != ".." && '/' !in NameOf(row) && '\0' !in NameOf(row)
    && Utf8Length(NameOf(row)) <= 4096
    && (descended && IsDirectory(row) ==> row.documentId.Some?)
  }

  /** Every query that `left` levels from a document need succeeds, and every row it gives can be listed. */
  ghost predicate Sound(p: Provider, left: nat, id: string)
    decreases left
  {
    p(id).Ok? &&
    forall i :: 0 <= i < |p(id).value| ==>
      var row := p(id).value[i];
      Listable(row, left > 1) && (left > 1 && IsDirectory(row) ==> Sound(p, left - 1, row.documentId.value))
  }

  function EntryOf(prefix: string, row: Row): Entry {
    Entry(Under(prefix, NameOf(row)), IsDirectory(row), row.size, row.modifiedAt)
  }

  /** The rows of a document, then, while levels are left, what lies below each directory among them, in order. */
  ghost function Level(p: Provider, left: nat, id: string, prefix: string): seq<Entry>
    requires Sound(p, left, id)
    decreases left, 1, 0
  {
    var rows := p(id).value;
    seq(|rows|, i requires 0 <= i < |rows| => EntryOf(prefix, rows[i])) + Below(p, left, rows, prefix)
  }

  ghost predicate RowsSound(p: Provider, left: nat, rows: seq<Row>) {
    forall i :: 0 <= i < |rows| ==>
      Listable(rows[i], left > 1) && (left > 1 && IsDirectory(rows[i]) ==> Sound(p, left - 1, rows[i].documentId.value))
  }

  ghost function Below(p: Provider, left: nat, rows: seq<Row>, prefix: string): seq<Entry>
    requires RowsSound(p, left, rows)
    decreases left, 0, |rows|
  {
    if rows == [] then []
    else
      var last := rows[|rows| - 1];
      Below(p, left, rows[..|rows| - 1], prefix) +
      if left > 1 && IsDirectory(last) then Level(p, left - 1, last.documentId.value, Under(prefix, NameOf(last))) else []
  }

  /** The levels a traversal has left at a depth. */
  function Left(input: Input, depth: nat): nat
    requires 1 <= depth <= input.maxDepth
  {
    if input.recursive then input.maxDepth - depth + 1 else 1
  }

  // ---- the traversal lists these levels ----

  lemma RowIsListed(input: Input, place: Place, row: Row)
    requires 1 <= place.depth <= input.maxDepth
    ensures RowEvent(input, place, row).Listed? <==> Listable(row, Left(input, place.depth) > 1)
    ensures RowEvent(input, place, row).Listed? ==> RowEvent(input, place, row).entry == EntryOf(place.prefix, row)
    ensures !RowEvent(input, place, row).Listed? ==> RowEvent(input, place, row) == BadRow(Io)
  {
    var name := NameOf(row);
    assert place.prefix + "/" + name == place.prefix + ("/" + name);
  }

  lemma {:induction false} ListAllAppend(p: Provider, input: Input, places: seq<Place>, last: Place, above: nat)
    requires forall i :: 0 <= i < |places| ==> above < places[i].depth <= input.maxDepth
    requires above < last.depth <= input.maxDepth
    ensures ListAll(p, input, places + [last], above) == ListAll(p, input, places, above) + ListAt(p, input, last)
    decreases |places|
  {
    if places == [] {
      assert [] + [last] == [last] && [last][1..] == [];
      assert ListAll(p, input, [last], above) == ListAt(p, input, last) + [];
    } else {
      ListAllAppend(p, input, places[1..], last, above);
      assert (places + [last])[1..] == places[1..] + [last];
      Associative(ListAt(p, input, places[0]), ListAll(p, input, places[1..], above), ListAt(p, input, last));
    }
  }

  lemma Associative<T>(a: seq<T>, b: seq<T>, c: seq<T>)
    ensures a + b + c == a + (b + c)
  {
  }

  lemma ListedOfBoth(a: seq<Event>, b: seq<Event>)
    ensures AllListed(a + b) <==> AllListed(a) && AllListed(b)
    ensures AllListed(a) && AllListed(b) ==> Entries(a + b) == Entries(a) + Entries(b)
  {
    assert forall i :: 0 <= i < |b| ==> (a + b)[|a| + i] == b[i];
    assert forall i :: 0 <= i < |a| ==> (a + b)[i] == a[i];
  }

  lemma RowsAreListed(input: Input, place: Place, rows: seq<Row>)
    requires 1 <= place.depth <= input.maxDepth
    ensures AllListed(RowEvents(input, place, rows)) <==>
              forall i :: 0 <= i < |rows| ==> Listable(rows[i], Left(input, place.depth) > 1)
    ensures AllListed(RowEvents(input, place, rows)) ==>
              Entries(RowEvents(input, place, rows)) == seq(|rows|, i requires 0 <= i < |rows| => EntryOf(place.prefix, rows[i]))
  {
    var events := RowEvents(input, place, rows);
    forall i | 0 <= i < |rows|
      ensures events[i].Listed? <==> Listable(rows[i], Left(input, place.depth) > 1)
      ensures events[i].Listed? ==> events[i].entry == EntryOf(place.prefix, rows[i])
    {
      RowIsListed(input, place, rows[i]);
    }
  }

  /** A directory and what lies below it, while levels are left, are sound exactly when nothing in their listing fails. */
  lemma {:induction false} PlaceIsLevel(p: Provider, input: Input, place: Place)
    requires 1 <= place.depth <= input.maxDepth
    ensures AllListed(ListAt(p, input, place)) <==> Sound(p, Left(input, place.depth), place.documentId)
    ensures Sound(p, Left(input, place.depth), place.documentId) ==>
              Entries(ListAt(p, input, place)) == Level(p, Left(input, place.depth), place.documentId, place.prefix)
    decreases input.maxDepth - place.depth, 1, 0
  {
    var left := Left(input, place.depth);
    match p(place.documentId) {
      case Err(e) =>
        assert ListAt(p, input, place)[0] == BadQuery(e);
      case Ok(rows) =>
        RowsAreListed(input, place, rows);
        if forall i :: 0 <= i < |rows| ==> Listable(rows[i], left > 1) {
          NestedIsBelow(p, input, place, rows);
        }
        ListedOfBoth(RowEvents(input, place, rows), ListAll(p, input, Nested(input, place, rows), place.depth));
        SoundRows(p, left, place.documentId);
    }
  }

  lemma SoundRows(p: Provider, left: nat, id: string)
    requires p(id).Ok?
    ensures Sound(p, left, id) <==> RowsSound(p, left, p(id).value)
  {
  }

  /** The events below some rows are sound exactly when they list what lies below those rows. */
  ghost predicate ListsBelow(p: Provider, events: seq<Event>, left: nat, rows: seq<Row>, prefix: string) {
    if RowsSound(p, left, rows) then AllListed(events) && Entries(events) == Below(p, left, rows, prefix)
    else !AllListed(events)
  }

  lemma {:induction false} NestedIsBelow(p: Provider, input: Input, place: Place, rows: seq<Row>)
    requires 1 <= place.depth <= input.maxDepth
    requires forall i :: 0 <= i < |rows| ==> Listable(rows[i], Left(input, place.depth) > 1)
    ensures ListsBelow(p, ListAll(p, input, Nested(input, place, rows), place.depth), Left(input, place.depth), rows, place.prefix)
    decreases input.maxDepth - place.depth, 0, |rows|
  {
    if rows != [] {
      var before, last := rows[..|rows| - 1], rows[|rows| - 1];
      assert before + [last] == rows;
      NestedIsBelow(p, input, place, before);
      BelowStep(p, input, place, before, last, Nested(input, place, before));
    }
  }

  lemma {:induction false} BelowStep(p: Provider, input: Input, place: Place, before: seq<Row>, last: Row, nested: seq<Place>)
    requires 1 <= place.depth <= input.maxDepth && nested == Nested(input, place, before)
    requires Listable(last, Left(input, place.depth) > 1)
    requires ListsBelow(p, ListAll(p, input, nested, place.depth), Left(input, place.depth), before, place.prefix)
    ensures ListsBelow(p, ListAll(p, input, Nested(input, place, before + [last]), place.depth), Left(input, place.depth),
                       before + [last], place.prefix)
    decreases input.maxDepth - place.depth, 0, 0
  {
    var left, events := Left(input, place.depth), ListAll(p, input, nested, place.depth);
    NestedSnoc(input, place, before, last);
    if left > 1 && IsDirectory(last) {
      var child := Place(last.documentId.value, Under(place.prefix, NameOf(last)), place.depth + 1);
      PlaceIsLevel(p, input, child);
      ListAllAppend(p, input, nested, child, place.depth);
      OpenedSnoc(p, left, before, last, place.prefix, events, ListAt(p, input, child));
    } else {
      ClosedSnoc(p, left, before, last, place.prefix, events);
    }
  }

  lemma NestedSnoc(input: Input, place: Place, before: seq<Row>, last: Row)
    requires 1 <= place.depth <= input.maxDepth && Listable(last, Left(input, place.depth) > 1)
    ensures Nested(input, place, before + [last]) ==
              if Left(input, place.depth) > 1 && IsDirectory(last) then
                Nested(input, place, before) + [Place(last.documentId.value, Under(place.prefix, NameOf(last)), place.depth + 1)]
              else Nested(input, place, before)
  {
    var rows := before + [last];
    assert rows[..|rows| - 1] == before && rows[|rows| - 1] == last && rows != [];
    NestedUnfolds(input, place, rows, last);
    JoinedIsUnder(place.prefix, NameOf(last));
    RowOpens(input, place.depth, last);
  }

  lemma NestedUnfolds(input: Input, place: Place, rows: seq<Row>, last: Row)
    requires rows != [] && rows[|rows| - 1] == last
    ensures var child := DocumentMetadata(last);
            Nested(input, place, rows) ==
              Nested(input, place, rows[..|rows| - 1]) +
                if SafeName(child.name) && Descends(input, place.depth, child) && child.documentId.Some? then
                  [Place(child.documentId.value, Joined(place.prefix, child.name), place.depth + 1)]
                else []
  {
  }

  lemma RowOpens(input: Input, depth: nat, row: Row)
    requires 1 <= depth <= input.maxDepth && Listable(row, Left(input, depth) > 1)
    ensures var child := DocumentMetadata(row);
            && child.name == NameOf(row) && SafeName(child.name) && child.documentId == row.documentId
            && (Descends(input, depth, child) <==> Left(input, depth) > 1 && IsDirectory(row))
  {
  }

  lemma JoinedIsUnder(prefix: string, name: string)
    ensures Joined(prefix, name) == Under(prefix, name)
  {
    assert prefix + "/" + name == prefix + ("/" + name);
  }

  lemma OpenedSnoc(p: Provider, left: nat, before: seq<Row>, last: Row, prefix: string, events: seq<Event>, more: seq<Event>)
    requires left > 1 && IsDirectory(last) && Listable(last, true)
    requires ListsBelow(p, events, left, before, prefix)
    requires AllListed(more) <==> Sound(p, left - 1, last.documentId.value)
    requires AllListed(more) ==> Entries(more) == Level(p, left - 1, last.documentId.value, Under(prefix, NameOf(last)))
    ensures ListsBelow(p, events + more, left, before + [last], prefix)
  {
    RowsSoundSnoc(p, left, before, last);
    ListedOfBoth(events, more);
    assert (before + [last])[..|before|] == before && |before + [last]| == |before| + 1;
  }

  lemma ClosedSnoc(p: Provider, left: nat, before: seq<Row>, last: Row, prefix: string, events: seq<Event>)
    requires !(left > 1 && IsDirectory(last)) && Listable(last, left > 1)
    requires ListsBelow(p, events, left, before, prefix)
    ensures ListsBelow(p, events, left, before + [last], prefix)
  {
    RowsSoundSnoc(p, left, before, last);
    assert (before + [last])[..|before|] == before && |before + [last]| == |before| + 1;
  }

  lemma RowsSoundSnoc(p: Provider, left: nat, before: seq<Row>, last: Row)
    ensures RowsSound(p, left, before + [last]) <==>
              RowsSound(p, left, before) && Listable(last, left > 1)
              && (left > 1 && IsDirectory(last) ==> Sound(p, left - 1, last.documentId.value))
  {
    var rows := before + [last];
    assert rows[|before|] == last;
    assert forall i :: 0 <= i < |before| ==> rows[i] == before[i];
  }

  // ---- chains of rows ----

  /** `rows[0]` answers the query of `id`, and each next row that of the directory before it. */
  ghost predicate Chain(p: Provider, id: string, rows: seq<Row>)
    decreases |rows|
  {
    && rows != [] && p(id).Ok? && rows[0] in p(id).value
    && (|rows| > 1 ==> IsDirectory(rows[0]) && rows[0].documentId.Some? && Chain(p, rows[0].documentId.value, rows[1..]))
  }

  function JoinedName(rows: seq<Row>): string
    requires rows != []
  {
    if |rows| == 1 then NameOf(rows[0]) else NameOf(rows[0]) + ("/" + JoinedName(rows[1..]))
  }

  /** The entry at the end of a chain: its name is every name on the way, all else is of the last row. */
  function ChainEntry(rows: seq<Row>): Entry
    requires rows != []
  {
    var last := rows[|rows| - 1];
    Entry(JoinedName(rows), IsDirectory(last), last.size, last.modifiedAt)
  }

  function Prefixed(prefix: string, e: Entry): Entry {
    e.(name := Under(prefix, e.name))
  }

  lemma PrefixedStep(prefix: string, rows: seq<Row>)
    requires |rows| > 1 && NameOf(rows[0]) != ""
    ensures Prefixed(prefix, ChainEntry(rows)) == Prefixed(Under(prefix, NameOf(rows[0])), ChainEntry(rows[1..]))
  {
    var name, rest := NameOf(rows[0]), "/" + JoinedName(rows[1..]);
    assert prefix + ("/" + (name + rest)) == prefix + ("/" + name) + rest;
  }

  /** `e` lies below the row `i`. */
  ghost predicate LiesBelow(p: Provider, left: nat, rows: seq<Row>, prefix: string, e: Entry, i: nat)
    requires RowsSound(p, left, rows) && i < |rows|
  {
    && left > 1 && IsDirectory(rows[i])
    && e in Level(p, left - 1, rows[i].documentId.value, Under(prefix, NameOf(rows[i])))
  }

  lemma {:induction false} BelowMembers(p: Provider, left: nat, rows: seq<Row>, prefix: string, e: Entry)
    requires RowsSound(p, left, rows)
    ensures e in Below(p, left, rows, prefix) <==> exists i: nat :: i < |rows| && LiesBelow(p, left, rows, prefix, e, i)
    decreases |rows|
  {
    if rows != [] {
      var before, last := rows[..|rows| - 1], rows[|rows| - 1];
      assert before + [last] == rows;
      BelowMembers(p, left, before, prefix, e);
      assert forall i: nat :: i < |before| ==> LiesBelow(p, left, rows, prefix, e, i) == LiesBelow(p, left, before, prefix, e, i);
      if i: nat :| i < |before| && LiesBelow(p, left, before, prefix, e, i) {
        assert LiesBelow(p, left, rows, prefix, e, i);
      } else if e in Below(p, left, rows, prefix) {
        assert LiesBelow(p, left, rows, prefix, e, |rows| - 1);
      }
    }
  }

  ghost predicate EndsChain(p: Provider, left: nat, id: string, prefix: string, e: Entry, rows: seq<Row>) {
    Chain(p, id, rows) && |rows| <= left && e == Prefixed(prefix, ChainEntry(rows))
  }

  /** A level holds exactly the entries of the chains that are no longer than the levels left. */
  lemma {:induction false} LevelMembers(p: Provider, left: nat, id: string, prefix: string, e: Entry)
    requires left >= 1 && Sound(p, left, id)
    ensures e in Level(p, left, id, prefix) <==> exists rows :: EndsChain(p, left, id, prefix, e, rows)
    decreases left, 1
  {
    if e in Level(p, left, id, prefix) {
      MemberEndsChain(p, left, id, prefix, e);
    }
    forall rows | EndsChain(p, left, id, prefix, e, rows)
      ensures e in Level(p, left, id, prefix)
    {
      ChainIsMember(p, left, id, prefix, e, rows);
    }
  }

  lemma MemberIsRowOrBelow(p: Provider, left: nat, id: string, prefix: string, e: Entry)
    requires Sound(p, left, id) && e in Level(p, left, id, prefix)
    ensures var rows := p(id).value;
            && RowsSound(p, left, rows)
            && ((exists i: nat :: i < |rows| && e == EntryOf(prefix, rows[i]))
                || exists i: nat :: i < |rows| && LiesBelow(p, left, rows, prefix, e, i))
  {
    SoundRows(p, left, id);
    BelowMembers(p, left, p(id).value, prefix, e);
  }

  lemma {:induction false} MemberEndsChain(p: Provider, left: nat, id: string, prefix: string, e: Entry)
    requires left >= 1 && Sound(p, left, id) && e in Level(p, left, id, prefix)
    ensures exists chain :: EndsChain(p, left, id, prefix, e, chain)
    decreases left, 1
  {
    var rows := p(id).value;
    MemberIsRowOrBelow(p, left, id, prefix, e);
    if i: nat :| i < |rows| && e == EntryOf(prefix, rows[i]) {
      assert EndsChain(p, left, id, prefix, e, [rows[i]]);
    } else {
      var i: nat :| i < |rows| && LiesBelow(p, left, rows, prefix, e, i);
      BelowEndsChain(p, left, id, prefix, e, i);
    }
  }

  lemma {:induction false} BelowEndsChain(p: Provider, left: nat, id: string, prefix: string, e: Entry, i: nat)
    requires p(id).Ok? && i < |p(id).value| && RowsSound(p, left, p(id).value) && LiesBelow(p, left, p(id).value, prefix, e, i)
    ensures exists chain :: EndsChain(p, left, id, prefix, e, chain)
    decreases left, 0
  {
    var row := p(id).value[i];
    var below, name := row.documentId.value, Under(prefix, NameOf(row));
    MemberEndsChain(p, left - 1, below, name, e);
    var rest :| EndsChain(p, left - 1, below, name, e, rest);
    LongerChain(p, left, id, prefix, e, row, rest);
  }

  lemma LongerChain(p: Provider, left: nat, id: string, prefix: string, e: Entry, row: Row, rest: seq<Row>)
    requires left > 1 && p(id).Ok? && row in p(id).value && IsDirectory(row) && row.documentId.Some? && NameOf(row) != ""
    requires EndsChain(p, left - 1, row.documentId.value, Under(prefix, NameOf(row)), e, rest)
    ensures EndsChain(p, left, id, prefix, e, [row] + rest)
  {
    assert ([row] + rest)[1..] == rest;
    PrefixedStep(prefix, [row] + rest);
  }

  lemma {:induction false} ChainIsMember(p: Provider, left: nat, id: string, prefix: string, e: Entry, chain: seq<Row>)
    requires left >= 1 && Sound(p, left, id) && EndsChain(p, left, id, prefix, e, chain)
    ensures e in Level(p, left, id, prefix)
    decreases left
  {
    var rows := p(id).value;
    SoundRows(p, left, id);
    var i: nat :| i < |rows| && rows[i] == chain[0];
    if |chain| == 1 {
      assert Level(p, left, id, prefix)[i] == EntryOf(prefix, rows[i]) == e;
    } else {
      PrefixedStep(prefix, chain);
      ChainIsMember(p, left - 1, rows[i].documentId.value, Under(prefix, NameOf(rows[i])), e, chain[1..]);
      assert LiesBelow(p, left, rows, prefix, e, i);
      BelowMembers(p, left, rows, prefix, e);
    }
  }

  // ---- what the operation answers ----

  /** The listing is the levels of the tree, as many as there is room for, and fails on anything else it reaches. */
  lemma TraversalIsTheTree(p: Provider, input: Input, rootId: string)
    requires input.maxDepth >= 1
    ensures AllListed(ListAt(p, input, Place(rootId, "", 1))) <==> Sound(p, Left(input, 1), rootId)
    ensures Sound(p, Left(input, 1), rootId) ==>
              var all := Level(p, Left(input, 1), rootId, "");
              Budgeted(ListAt(p, input, Place(rootId, "", 1)), [], input.maxEntries) ==
                Ok(Listing(if |all| <= input.maxEntries then all else all[..input.maxEntries], |all| > input.maxEntries))
  {
    PlaceIsLevel(p, input, Place(rootId, "", 1));
    if Sound(p, Left(input, 1), rootId) {
      StackRefinesListing(p, input, rootId);
    }
  }

  /**
   Nothing else and nothing less is listed: with room for all of it, an entry is in the answer exactly if some
   chain of rows from the root spells its name, is no deeper than asked, and ends in the row with its other facts.
   */
  lemma ListedExactlyByChains(p: Provider, input: Input, rootId: string, e: Entry)
    requires input.maxDepth >= 1 && Sound(p, Left(input, 1), rootId)
    requires |Level(p, Left(input, 1), rootId, "")| <= input.maxEntries
    ensures Budgeted(ListAt(p, input, Place(rootId, "", 1)), [], input.maxEntries).Ok?
    ensures e in Budgeted(ListAt(p, input, Place(rootId, "", 1)), [], input.maxEntries).value.entries <==>
              exists rows :: Chain(p, rootId, rows) && |rows| <= (if input.recursive then input.maxDepth else 1)
                             && e == ChainEntry(rows)
  {
    TraversalIsTheTree(p, input, rootId);
    LevelMembers(p, Left(input, 1), rootId, "", e);
    forall rows: seq<Row> | rows != []
      ensures Prefixed("", ChainEntry(rows)) == ChainEntry(rows)
    {
    }
    assert forall rows :: EndsChain(p, Left(input, 1), rootId, "", e, rows) <==>
                            Chain(p, rootId, rows) && |rows| <= Left(input, 1) && e == ChainEntry(rows);
  }
}
