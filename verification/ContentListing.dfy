/**
 Listing a document tree with a work stack, a depth bound and an entry budget. The provider is a
 function from document id to its answer; it may be cyclic.
 */
module ContentListing {
  import opened Wrappers

  const MIME_TYPE_DIR := "vnd.android.document/directory"
  const MAX_DOCUMENT_NAME_BYTES: nat := 4_096

  datatype Error = Io | Unsupported | InvalidArgument | Failed(code: int)

  /** One document row after its columns were read; size and time are already converted. */
  datatype Row = Row(mimeType: Option<string>, size: Option<nat>, modifiedAt: Option<string>,
                     documentId: Option<string>, displayName: Option<string>)
  datatype Metadata = Metadata(documentId: Option<string>, name: string, directory: bool,
                               size: Option<nat>, modifiedAt: Option<string>)
  datatype Entry = Entry(name: string, directory: bool, size: Option<nat>, modifiedAt: Option<string>)

  type Provider = string -> Result<seq<Row>, Error>

  datatype Input = Input(recursive: bool, maxDepth: nat, maxEntries: nat)

  datatype Listing = Listing(entries: seq<Entry>, truncated: bool)

  function DocumentMetadata(row: Row): Metadata {
    Metadata(row.documentId, if row.displayName.Some? then row.displayName.value else "",
             row.mimeType == Some(MIME_TYPE_DIR), row.size, row.modifiedAt)
  }

  function Utf8Length(s: string): nat {
    if s == "" then 0
    else (if s[0] < '\U{80}' then 1 else if s[0] < '\U{800}' then 2 else if s[0] < '\U{10000}' then 3 else 4) + Utf8Length(s[1..])
  }

  predicate SafeName(name: string) {
    name != "" && name != "." && name != ".." && '/' !in name && '\0' !in name && Utf8Length(name) <= MAX_DOCUMENT_NAME_BYTES
  }

  // ---- the recursive listing ----

  /** What one row of a directory adds: an entry, or an error if the budget is not used up before it. */
  datatype Event = Listed(entry: Entry) | BadRow(error: Error) | BadQuery(error: Error)

  datatype Place = Place(documentId: string, prefix: string, depth: nat)

  function Joined(prefix: string, name: string): string {
    if prefix == "" then name else prefix + "/" + name
  }

  predicate Descends(input: Input, depth: nat, child: Metadata) {
    input.recursive && child.directory && depth < input.maxDepth
  }

  function RowEvent(input: Input, place: Place, row: Row): Event {
    var child := DocumentMetadata(row);
    if !SafeName(child.name) then BadRow(Io)
    else if Descends(input, place.depth, child) && child.documentId.None? then BadRow(Io)
    else Listed(Entry(Joined(place.prefix, child.name), child.directory, child.size, child.modifiedAt))
  }

  function RowEvents(input: Input, place: Place, rows: seq<Row>): seq<Event> {
    seq(|rows|, i requires 0 <= i < |rows| => RowEvent(input, place, rows[i]))
  }

  /** The nested directories of `rows` in provider order; a row that fails the listing has none. */
  function Nested(input: Input, place: Place, rows: seq<Row>): (nested: seq<Place>)
    ensures forall i :: 0 <= i < |nested| ==> place.depth < nested[i].depth <= input.maxDepth
  {
    if rows == [] then []
    else
      var child := DocumentMetadata(rows[|rows| - 1]);
      Nested(input, place, rows[..|rows| - 1]) +
      if SafeName(child.name) && Descends(input, place.depth, child) && child.documentId.Some? then
        [Place(child.documentId.value, Joined(place.prefix, child.name), place.depth + 1)]
      else []
  }

  /** The children of a directory, then the listing of each nested directory in provider order. */
  ghost function ListAt(p: Provider, input: Input, place: Place): seq<Event>
    decreases if input.maxDepth >= place.depth then input.maxDepth - place.depth + 1 else 0, 1, 0
  {
    match p(place.documentId)
    case Err(e) => [BadQuery(e)]
    case Ok(rows) => RowEvents(input, place, rows) + ListAll(p, input, Nested(input, place, rows), place.depth)
  }

  ghost function ListAll(p: Provider, input: Input, places: seq<Place>, above: nat): seq<Event>
    requires forall i :: 0 <= i < |places| ==> above < places[i].depth <= input.maxDepth
    decreases if input.maxDepth >= above then input.maxDepth - above + 1 else 0, 0, |places|
  {
    if places == [] then [] else ListAt(p, input, places[0]) + ListAll(p, input, places[1..], above)
  }

  /** The number of queries behind a listing: what the work stack still has to do. */
  ghost function WorkAt(p: Provider, input: Input, place: Place): nat
    decreases if input.maxDepth >= place.depth then input.maxDepth - place.depth + 1 else 0, 1, 0
  {
    match p(place.documentId)
    case Err(e) => 1
    case Ok(rows) => 1 + WorkAll(p, input, Nested(input, place, rows), place.depth)
  }

  ghost function WorkAll(p: Provider, input: Input, places: seq<Place>, above: nat): nat
    requires forall i :: 0 <= i < |places| ==> above < places[i].depth <= input.maxDepth
    decreases if input.maxDepth >= above then input.maxDepth - above + 1 else 0, 0, |places|
  {
    if places == [] then 0 else WorkAt(p, input, places[0]) + WorkAll(p, input, places[1..], above)
  }

  // ---- the budget ----

  /**
   Events against the budget: an entry or a bad row that no longer fits truncates the listing, a bad row
   that does fit fails it, and a query fails it wherever it stands.
   */
  ghost function Budgeted(events: seq<Event>, taken: seq<Entry>, max: nat): Result<Listing, Error>
    decreases |events|
  {
    if events == [] then Ok(Listing(taken, false))
    else if events[0].BadQuery? then Err(events[0].error)
    else if |taken| == max then Ok(Listing(taken, true))
    else if events[0].BadRow? then Err(events[0].error)
    else Budgeted(events[1..], taken + [events[0].entry], max)
  }

  ghost predicate AllListed(events: seq<Event>) {
    forall i :: 0 <= i < |events| ==> events[i].Listed?
  }

  ghost function Entries(events: seq<Event>): seq<Entry>
    requires AllListed(events)
  {
    seq(|events|, i requires 0 <= i < |events| => events[i].entry)
  }

  /** Without errors the result is exactly the first `max` entries, truncated if and only if there are more. */
  lemma {:induction false} BudgetTakesPrefix(events: seq<Event>, taken: seq<Entry>, max: nat)
    requires AllListed(events) && |taken| <= max
    ensures var all := taken + Entries(events);
            Budgeted(events, taken, max) == Ok(Listing(if |all| <= max then all else all[..max], |all| > max))
    decreases |events|
  {
    if events != [] {
      assert Entries(events) == [events[0].entry] + Entries(events[1..]);
      if |taken| == max {
        assert (taken + Entries(events))[..max] == taken;
      } else {
        BudgetTakesPrefix(events[1..], taken + [events[0].entry], max);
        assert taken + [events[0].entry] + Entries(events[1..]) == taken + Entries(events);
      }
    } else {
      assert taken + Entries(events) == taken;
    }
  }

  /** The first event that is not an entry decides everything, and only if the budget reaches it. */
  lemma {:induction false} FirstErrorDecides(before: seq<Event>, bad: Event, after: seq<Event>, taken: seq<Entry>, max: nat)
    requires AllListed(before) && !bad.Listed? && |taken| <= max
    ensures var all := taken + Entries(before);
            Budgeted(before + [bad] + after, taken, max) ==
              if |all| > max || (|all| == max && bad.BadRow?) then Ok(Listing(all[..max], true)) else Err(bad.error)
    decreases |before|
  {
    var events := before + [bad] + after;
    if before == [] {
      assert events[0] == bad;
      assert taken + Entries(before) == taken;
      assert |taken| == max ==> taken[..max] == taken;
    } else {
      assert events[0] == before[0] && events[1..] == before[1..] + [bad] + after;
      assert Entries(before) == [before[0].entry] + Entries(before[1..]);
      if |taken| == max {
        assert (taken + Entries(before))[..max] == taken;
      } else {
        FirstErrorDecides(before[1..], bad, after, taken + [before[0].entry], max);
        assert taken + [before[0].entry] + Entries(before[1..]) == taken + Entries(before);
      }
    }
  }

  // ---- the work stack ----

  /** What the stack still has to list: its top first. */
  ghost function Pending(p: Provider, input: Input, stack: seq<Place>): seq<Event> {
    if stack == [] then []
    else ListAt(p, input, stack[|stack| - 1]) + Pending(p, input, stack[..|stack| - 1])
  }

  ghost function PendingWork(p: Provider, input: Input, stack: seq<Place>): nat {
    if stack == [] then 0
    else WorkAt(p, input, stack[|stack| - 1]) + PendingWork(p, input, stack[..|stack| - 1])
  }

  function Reversed(places: seq<Place>): seq<Place> {
    if places == [] then [] else Reversed(places[1..]) + [places[0]]
  }

  /** Pushing the nested directories in reverse puts them next in provider order. */
  lemma {:induction false} PushReversed(p: Provider, input: Input, stack: seq<Place>, nested: seq<Place>, above: nat)
    requires forall i :: 0 <= i < |nested| ==> above < nested[i].depth <= input.maxDepth
    ensures Pending(p, input, stack + Reversed(nested)) == ListAll(p, input, nested, above) + Pending(p, input, stack)
    ensures PendingWork(p, input, stack + Reversed(nested)) == WorkAll(p, input, nested, above) + PendingWork(p, input, stack)
    decreases |nested|
  {
    if nested == [] {
      assert stack + Reversed(nested) == stack;
    } else {
      var pushed := stack + Reversed(nested);
      assert pushed[..|pushed| - 1] == stack + Reversed(nested[1..]);
      PushReversed(p, input, stack, nested[1..], above);
    }
  }

  /** One directory against the budget: its rows in order, collecting the directories below it. */
  method ListRows(input: Input, place: Place, rows: seq<Row>, before: seq<Entry>, ghost following: seq<Event>)
    returns (entries: seq<Entry>, nested: seq<Place>, truncated: bool, failure: Option<Error>)
    requires |before| <= input.maxEntries
    ensures var result := Budgeted(RowEvents(input, place, rows) + following, before, input.maxEntries);
            if failure.Some? then result == Err(failure.value)
            else if truncated then result == Ok(Listing(entries, true))
            else
              && result == Budgeted(following, entries, input.maxEntries)
              && |entries| <= input.maxEntries
              && nested == Nested(input, place, rows)
  {
    entries, nested, truncated, failure := before, [], false, None;
    ghost var events := RowEvents(input, place, rows);
    assert events[0..] == events;
    for i := 0 to |rows|
      invariant Budgeted(events + following, before, input.maxEntries) ==
                Budgeted(events[i..] + following, entries, input.maxEntries)
      invariant |entries| <= input.maxEntries
      invariant nested == Nested(input, place, rows[..i])
      invariant !truncated && failure.None?
    {
      ghost var todo := events[i..] + following;
      assert todo[0] == RowEvent(input, place, rows[i]) && todo[1..] == events[i + 1..] + following;
      if |entries| == input.maxEntries {
        truncated := true;
        return;
      }
      var child := DocumentMetadata(rows[i]);
      if !SafeName(child.name) {
        failure := Some(Io);
        return;
      }
      assert rows[..i + 1][..i] == rows[..i];
      var name := Joined(place.prefix, child.name);
      if Descends(input, place.depth, child) {
        if child.documentId.None? {
          failure := Some(Io);
          return;
        }
        nested := nested + [Place(child.documentId.value, name, place.depth + 1)];
      }
      entries := entries + [Entry(name, child.directory, child.size, child.modifiedAt)];
    }
    assert rows[..|rows|] == rows;
    assert events[|rows|..] + following == following;
  }

  /** The directory on top of the stack is asked for, and its rows come before all that is left. */
  lemma Popped(p: Provider, input: Input, stack: seq<Place>)
    requires stack != [] && p(stack[|stack| - 1].documentId).Ok?
    ensures var place, rest := stack[|stack| - 1], stack[..|stack| - 1];
            var rows := p(place.documentId).value;
            var nested := Nested(input, place, rows);
            && Pending(p, input, stack) ==
                 RowEvents(input, place, rows) + (ListAll(p, input, nested, place.depth) + Pending(p, input, rest))
            && PendingWork(p, input, stack) == 1 + WorkAll(p, input, nested, place.depth) + PendingWork(p, input, rest)
  {
    var place, rest := stack[|stack| - 1], stack[..|stack| - 1];
    var rows := p(place.documentId).value;
    Regroup(RowEvents(input, place, rows), ListAll(p, input, Nested(input, place, rows), place.depth), Pending(p, input, rest));
  }

  lemma Regroup(a: seq<Event>, b: seq<Event>, c: seq<Event>)
    ensures a + b + c == a + (b + c)
  {
  }

  lemma QueryFails(p: Provider, input: Input, stack: seq<Place>, taken: seq<Entry>)
    requires stack != [] && p(stack[|stack| - 1].documentId).Err?
    ensures Budgeted(Pending(p, input, stack), taken, input.maxEntries) == Err(p(stack[|stack| - 1].documentId).error)
  {
    assert Pending(p, input, stack)[0] == BadQuery(p(stack[|stack| - 1].documentId).error);
  }

  method ListTree(p: Provider, input: Input, rootId: string) returns (result: Result<Listing, Error>)
    ensures result == Budgeted(ListAt(p, input, Place(rootId, "", 1)), [], input.maxEntries)
  {
    ghost var root := Place(rootId, "", 1);
    var entries: seq<Entry> := [];
    var stack := [Place(rootId, "", 1)];
    assert stack[..0] == [];
    assert Pending(p, input, stack) == ListAt(p, input, root) + [] == ListAt(p, input, root);
    while stack != []
      invariant |entries| <= input.maxEntries
      invariant Budgeted(ListAt(p, input, root), [], input.maxEntries) ==
                Budgeted(Pending(p, input, stack), entries, input.maxEntries)
      decreases PendingWork(p, input, stack)
    {
      var place := stack[|stack| - 1];
      var answer := p(place.documentId);
      if answer.Err? {
        QueryFails(p, input, stack, entries);
        return Err(answer.error);
      }
      var rows := answer.value;
      Popped(p, input, stack);
      stack := stack[..|stack| - 1];
      ghost var following := ListAll(p, input, Nested(input, place, rows), place.depth) + Pending(p, input, stack);
      var listed, nested, truncated, failure := ListRows(input, place, rows, entries, following);
      if failure.Some? {
        return Err(failure.value);
      }
      entries := listed;
      if truncated {
        return Ok(Listing(entries, true));
      }
      PushReversed(p, input, stack, nested, place.depth);
      stack := stack + Reversed(nested);
    }
    return Ok(Listing(entries, false));
  }

  /** The stack yields exactly the first `max` entries of a listing without errors, cyclic or not. */
  lemma StackRefinesListing(p: Provider, input: Input, rootId: string)
    requires AllListed(ListAt(p, input, Place(rootId, "", 1)))
    ensures var all := Entries(ListAt(p, input, Place(rootId, "", 1)));
            Budgeted(ListAt(p, input, Place(rootId, "", 1)), [], input.maxEntries) ==
              Ok(Listing(if |all| <= input.maxEntries then all else all[..input.maxEntries], |all| > input.maxEntries))
  {
    var events := ListAt(p, input, Place(rootId, "", 1));
    BudgetTakesPrefix(events, [], input.maxEntries);
    assert [] + Entries(events) == Entries(events);
  }

  // ---- the listing stays within the depth bound ----

  function Slashes(s: string): nat {
    if s == "" then 0 else (if s[0] == '/' then 1 else 0) + Slashes(s[1..])
  }

  lemma {:induction false} SlashesAppend(a: string, b: string)
    ensures Slashes(a + b) == Slashes(a) + Slashes(b)
    decreases |a|
  {
    if a == "" {
      assert a + b == b;
    } else {
      assert (a + b)[0] == a[0] && (a + b)[1..] == a[1..] + b;
      SlashesAppend(a[1..], b);
    }
  }

  lemma {:induction false} NoSlashes(s: string)
    requires '/' !in s
    ensures Slashes(s) == 0
    decreases |s|
  {
    if s != "" {
      NoSlashes(s[1..]);
    }
  }

  ghost predicate PlaceOk(place: Place) {
    place.depth >= 1 && (if place.prefix == "" then place.depth == 1 else Slashes(place.prefix) + 2 == place.depth)
  }

  lemma ChildDepth(place: Place, name: string)
    requires PlaceOk(place) && SafeName(name)
    ensures Slashes(Joined(place.prefix, name)) + 1 == place.depth && Joined(place.prefix, name) != ""
  {
    NoSlashes(name);
    if place.prefix != "" {
      SlashesAppend(place.prefix, "/");
      SlashesAppend(place.prefix + "/", name);
      assert Joined(place.prefix, name) == place.prefix + "/" + name;
      assert Slashes("/") == 1;
    }
  }

  /** Every entry sits at its own depth, which the bound limits. */
  ghost predicate Shallow(events: seq<Event>, maxDepth: nat) {
    forall i :: 0 <= i < |events| && events[i].Listed? ==> Slashes(events[i].entry.name) + 1 <= maxDepth
  }

  lemma {:induction false} NestedOk(input: Input, place: Place, rows: seq<Row>)
    requires PlaceOk(place)
    ensures forall i :: 0 <= i < |Nested(input, place, rows)| ==> PlaceOk(Nested(input, place, rows)[i])
    decreases |rows|
  {
    if rows != [] {
      var last := |rows| - 1;
      NestedOk(input, place, rows[..last]);
      if SafeName(DocumentMetadata(rows[last]).name) {
        ChildDepth(place, DocumentMetadata(rows[last]).name);
      }
    }
  }

  lemma {:induction false} ListingIsShallow(p: Provider, input: Input, place: Place)
    requires PlaceOk(place) && place.depth <= input.maxDepth
    ensures Shallow(ListAt(p, input, place), input.maxDepth)
    decreases input.maxDepth - place.depth + 1, 1, 0
  {
    match p(place.documentId)
    case Err(_) =>
    case Ok(rows) =>
      forall i | 0 <= i < |rows| && RowEvent(input, place, rows[i]).Listed?
        ensures Slashes(RowEvent(input, place, rows[i]).entry.name) + 1 <= input.maxDepth
      {
        ChildDepth(place, DocumentMetadata(rows[i]).name);
      }
      NestedOk(input, place, rows);
      AllShallow(p, input, Nested(input, place, rows), place.depth);
  }

  lemma {:induction false} AllShallow(p: Provider, input: Input, places: seq<Place>, above: nat)
    requires forall i :: 0 <= i < |places| ==> PlaceOk(places[i]) && above < places[i].depth <= input.maxDepth
    requires above <= input.maxDepth
    ensures Shallow(ListAll(p, input, places, above), input.maxDepth)
    decreases input.maxDepth - above + 1, 0, |places|
  {
    if places != [] {
      ListingIsShallow(p, input, places[0]);
      AllShallow(p, input, places[1..], above);
    }
  }

  lemma {:induction false} BudgetedIsShallow(events: seq<Event>, taken: seq<Entry>, max: nat, maxDepth: nat)
    requires Shallow(events, maxDepth) && forall i :: 0 <= i < |taken| ==> Slashes(taken[i].name) + 1 <= maxDepth
    requires Budgeted(events, taken, max).Ok?
    ensures var entries := Budgeted(events, taken, max).value.entries;
            forall i :: 0 <= i < |entries| ==> Slashes(entries[i].name) + 1 <= maxDepth
    decreases |events|
  {
    if events != [] && |taken| != max {
      assert forall i :: 0 <= i < |events[1..]| ==> events[1..][i] == events[i + 1];
      BudgetedIsShallow(events[1..], taken + [events[0].entry], max, maxDepth);
    }
  }

  /** No entry lies deeper than the bound, whatever the provider answers. */
  lemma ListedWithinDepth(p: Provider, input: Input, rootId: string)
    requires input.maxDepth >= 1 && Budgeted(ListAt(p, input, Place(rootId, "", 1)), [], input.maxEntries).Ok?
    ensures var entries := Budgeted(ListAt(p, input, Place(rootId, "", 1)), [], input.maxEntries).value.entries;
            forall i :: 0 <= i < |entries| ==> Slashes(entries[i].name) + 1 <= input.maxDepth
  {
    ListingIsShallow(p, input, Place(rootId, "", 1));
    BudgetedIsShallow(ListAt(p, input, Place(rootId, "", 1)), [], input.maxEntries, input.maxDepth);
  }

  // ---- the operation ----

  datatype Inspection = File(size: Option<nat>, modifiedAt: Option<string>)
                      | Directory(size: Option<nat>, modifiedAt: Option<string>, listing: Listing)

  predicate ValidInput(input: Input) {
    1 <= input.maxDepth <= 16 && 1 <= input.maxEntries <= 5_000 && (!input.recursive ==> input.maxDepth == 1)
  }

  /** `metadata` is the target's own row; `tree` is its document id when the URI is a tree. */
  method Inspect(input: Input, metadata: Result<Metadata, Error>, tree: Option<string>, p: Provider)
    returns (result: Result<Inspection, Error>)
    ensures !ValidInput(input) ==> result == Err(InvalidArgument)
    ensures ValidInput(input) && metadata.Err? ==> result == Err(metadata.error)
    ensures ValidInput(input) && metadata.Ok? && !metadata.value.directory ==>
              result == Ok(File(metadata.value.size, metadata.value.modifiedAt))
    ensures ValidInput(input) && metadata.Ok? && metadata.value.directory && tree.None? ==> result == Err(Unsupported)
    ensures ValidInput(input) && metadata.Ok? && metadata.value.directory && tree.Some? ==>
              match Budgeted(ListAt(p, input, Place(tree.value, "", 1)), [], input.maxEntries)
              case Err(e) => result == Err(e)
              case Ok(listing) => result == Ok(Directory(metadata.value.size, metadata.value.modifiedAt, listing))
  {
    if !ValidInput(input) {
      return Err(InvalidArgument);
    }
    if metadata.Err? {
      return Err(metadata.error);
    }
    if !metadata.value.directory {
      return Ok(File(metadata.value.size, metadata.value.modifiedAt));
    }
    if tree.None? {
      return Err(Unsupported);
    }
    var listing := ListTree(p, input, tree.value);
    if listing.Err? {
      return Err(listing.error);
    }
    return Ok(Directory(metadata.value.size, metadata.value.modifiedAt, listing.value));
  }
}
