/** Reading a directory page by page through Shizuku: the page reader, the check on its answers, and the loop over pages. */
module DirectoryPaging {
  import opened Wrappers

  const U64_MAX: nat := 0xFFFF_FFFF_FFFF_FFFF
  const MAX_PAGE: nat := 5_001

  type Cookie = c: int | 0 <= c <= U64_MAX

  /** `next` is the position from which reading goes on after the entry. */
  datatype Entry = Entry(name: string, next: Cookie)

  datatype Page = Page(names: seq<string>, next: Option<Cookie>)

  predicate Dot(name: string) {
    name == "." || name == ".."
  }

  predicate ValidName(name: string) {
    name != "" && !Dot(name) && '/' !in name && '\0' !in name
  }

  predicate Increasing(d: seq<Entry>) {
    forall i, j :: 0 <= i < j < |d| ==> d[i].next < d[j].next
  }

  /** What a file system promises of a directory: positions grow from one entry to the next, and names are names. */
  predicate Directory(d: seq<Entry>) {
    Increasing(d) && forall e :: e in d ==> e.next > 0 && (Dot(e.name) || ValidName(e.name))
  }

  /** The entries met after seeking to a cookie; cookie 0 is the beginning. */
  function From(d: seq<Entry>, cookie: Cookie): seq<Entry> {
    if d != [] && d[0].next <= cookie then From(d[1..], cookie) else d
  }

  function Listed(d: seq<Entry>): seq<Entry> {
    if d == [] then [] else (if Dot(d[0].name) then [] else [d[0]]) + Listed(d[1..])
  }

  function Names(d: seq<Entry>): (names: seq<string>)
    ensures |names| == |d|
  {
    seq(|d|, i requires 0 <= i < |d| => d[i].name)
  }

  /** One page: up to `limit` names, and the position after the last of them when another name follows. */
  function PageOf(d: seq<Entry>, cookie: Cookie, limit: nat): Page {
    var kept := Listed(From(d, cookie));
    if |kept| <= limit then Page(Names(kept), None)
    else Page(Names(kept[..limit]), if limit == 0 then None else Some(kept[limit - 1].next))
  }

  function Last(kept: seq<Entry>): Option<Cookie> {
    if kept == [] then None else Some(kept[|kept| - 1].next)
  }

  lemma Associative<T>(x: seq<T>, y: seq<T>, z: seq<T>)
    ensures (x + y) + z == x + (y + z)
  {
  }

  lemma {:induction false} ListedOfBoth(a: seq<Entry>, b: seq<Entry>)
    ensures Listed(a + b) == Listed(a) + Listed(b)
  {
    if a == [] {
      assert a + b == b;
    } else {
      ListedOfBoth(a[1..], b);
      assert (a + b)[1..] == a[1..] + b;
      Associative(if Dot(a[0].name) then [] else [a[0]], Listed(a[1..]), Listed(b));
    }
  }

  lemma ListedOneMore(entries: seq<Entry>, k: nat)
    requires k < |entries|
    ensures Listed(entries[..k + 1]) == Listed(entries[..k]) + (if Dot(entries[k].name) then [] else [entries[k]])
  {
    var one := [entries[k]];
    assert entries[..k + 1] == entries[..k] + one;
    assert Listed(one) == (if Dot(entries[k].name) then [] else one) by {
      assert Listed(one[1..]) == [];
    }
    ListedOfBoth(entries[..k], one);
  }

  lemma ListedOfPrefix(entries: seq<Entry>, k: nat)
    requires k <= |entries|
    ensures Listed(entries[..k]) <= Listed(entries)
  {
    assert entries == entries[..k] + entries[k..];
    ListedOfBoth(entries[..k], entries[k..]);
  }

  lemma NamesOneMore(kept: seq<Entry>, entry: Entry)
    ensures Names(kept + [entry]) == Names(kept) + [entry.name]
  {
  }

  method ReadPage(d: seq<Entry>, cookie: Cookie, limit: nat) returns (page: Page)
    ensures page == PageOf(d, cookie, limit)
  {
    var entries := From(d, cookie);
    var names: seq<string>, last: Option<Cookie> := [], None;
    ghost var kept: seq<Entry> := [];
    for k := 0 to |entries|
      invariant kept == Listed(entries[..k]) && kept <= Listed(entries)
      invariant |kept| <= limit && names == Names(kept)
      invariant last == Last(kept)
    {
      var entry := entries[k];
      ListedOneMore(entries, k);
      ListedOfPrefix(entries, k + 1);
      if Dot(entry.name) {
        continue;
      }
      if |names| == limit {
        assert Listed(entries)[..limit] == kept;
        return Page(names, last);
      }
      NamesOneMore(kept, entry);
      names := names + [entry.name];
      last := Some(entry.next);
      kept := kept + [entry];
    }
    assert entries[..|entries|] == entries;
    return Page(names, None);
  }

  /** The caller's check on an answer it did not compute. */
  function Accept(page: Page, cookie: Cookie, limit: nat): Option<Page> {
    if limit == 0 || limit > MAX_PAGE then None
    else if |page.names| > limit || (page.next.Some? && page.next.value <= cookie) then None
    else if forall i :: 0 <= i < |page.names| ==> ValidName(page.names[i]) then Some(page)
    else None
  }

  /** The names on all pages from one position; `answers` gives the reply to the `k`-th request. */
  function Collect(answers: (nat, Cookie) -> Page, limit: nat, k: nat, cookie: Cookie): Option<seq<string>>
    decreases U64_MAX - cookie
  {
    match Accept(answers(k, cookie), cookie, limit)
    case None => None
    case Some(page) =>
      if page.next.None? then Some(page.names)
      else
        match Collect(answers, limit, k + 1, page.next.value)
        case None => None
        case Some(rest) => Some(page.names + rest)
  }

  function Prepend(names: seq<string>, rest: Option<seq<string>>): Option<seq<string>> {
    if rest.None? then None else Some(names + rest.value)
  }

  lemma PrependTwice(a: seq<string>, b: seq<string>, rest: Option<seq<string>>)
    ensures Prepend(a, Prepend(b, rest)) == Prepend(a + b, rest)
    ensures Prepend([], rest) == rest
  {
    if rest.Some? {
      assert a + (b + rest.value) == (a + b) + rest.value;
      assert [] + rest.value == rest.value;
    }
  }

  /** Going from page to page ends whatever is answered, because an accepted position is beyond the one asked for. */
  method ListDirectory(answers: (nat, Cookie) -> Page, limit: nat) returns (names: Option<seq<string>>)
    ensures names == Collect(answers, limit, 0, 0)
  {
    var listed: seq<string>, cookie: Cookie, k: nat := [], 0, 0;
    PrependTwice([], [], Collect(answers, limit, 0, 0));
    while true
      invariant Collect(answers, limit, 0, 0) == Prepend(listed, Collect(answers, limit, k, cookie))
      decreases U64_MAX - cookie
    {
      var page := Accept(answers(k, cookie), cookie, limit);
      if page.None? {
        return None;
      }
      if page.value.next.None? {
        return Some(listed + page.value.names);
      }
      PrependTwice(listed, page.value.names, Collect(answers, limit, k + 1, page.value.next.value));
      listed := listed + page.value.names;
      cookie, k := page.value.next.value, k + 1;
    }
  }

  // ---- an honest provider ----

  lemma {:induction false} FromIsExact(d: seq<Entry>, cookie: Cookie)
    requires Increasing(d)
    ensures Increasing(From(d, cookie))
    ensures forall e :: e in From(d, cookie) <==> e in d && e.next > cookie
  {
    if d != [] && d[0].next <= cookie {
      assert d == [d[0]] + d[1..];
      FromIsExact(d[1..], cookie);
    } else if d != [] {
      assert forall i :: 0 < i < |d| ==> d[0].next < d[i].next;
    }
  }

  lemma {:induction false} ListedIsExact(d: seq<Entry>)
    requires Increasing(d)
    ensures Increasing(Listed(d))
    ensures forall e :: e in Listed(d) <==> e in d && !Dot(e.name)
  {
    if d != [] {
      assert d == [d[0]] + d[1..];
      ListedIsExact(d[1..]);
      var rest := Listed(d[1..]);
      forall e | e in rest
        ensures d[0].next < e.next
      {
        var i :| 0 <= i < |d[1..]| && d[1..][i] == e;
        assert d[i + 1] == e;
      }
    }
  }

  lemma KeptIsExact(d: seq<Entry>, cookie: Cookie)
    requires Directory(d)
    ensures var kept := Listed(From(d, cookie));
            && Increasing(kept)
            && (forall e :: e in kept <==> e in d && e.next > cookie && !Dot(e.name))
            && (forall i :: 0 <= i < |kept| ==> ValidName(kept[i].name) && kept[i].next > cookie)
  {
    FromIsExact(d, cookie);
    ListedIsExact(From(d, cookie));
    var kept := Listed(From(d, cookie));
    forall i | 0 <= i < |kept|
      ensures ValidName(kept[i].name) && kept[i].next > cookie
    {
      assert kept[i] in kept;
    }
  }

  /** Every page of a directory is accepted: its position is beyond the one asked for. */
  lemma HonestPageIsAccepted(d: seq<Entry>, cookie: Cookie, limit: nat)
    requires Directory(d) && 0 < limit <= MAX_PAGE
    ensures Accept(PageOf(d, cookie, limit), cookie, limit) == Some(PageOf(d, cookie, limit))
  {
    KeptIsExact(d, cookie);
  }

  /** A page that is not the last one is full, and the last one holds all that is left. */
  lemma PagesAreFull(d: seq<Entry>, cookie: Cookie, limit: nat)
    requires Directory(d) && limit > 0
    ensures var page := PageOf(d, cookie, limit);
            if page.next.Some? then |page.names| == limit
            else forall e :: e in d && e.next > cookie && !Dot(e.name) ==> e.name in page.names
  {
    KeptIsExact(d, cookie);
    var kept := Listed(From(d, cookie));
    forall e | e in kept && |kept| <= limit
      ensures e.name in PageOf(d, cookie, limit).names
    {
      var i :| 0 <= i < |kept| && kept[i] == e;
      assert PageOf(d, cookie, limit).names[i] == e.name;
    }
  }

  /** Answers given by a directory that may change between requests: the `k`-th page is read from `at(k)`. */
  function Honest(at: nat -> seq<Entry>, limit: nat): (nat, Cookie) -> Page {
    (k: nat, cookie: Cookie) => PageOf(at(k), cookie, limit)
  }

  /** The entry is there at every request from the `k`-th up to the `n`-th. */
  ghost predicate Stays(at: nat -> seq<Entry>, k: nat, n: nat, e: Entry) {
    forall i: nat {:trigger at(i)} :: k <= i < n ==> e in at(i)
  }

  ghost predicate Appears(at: nat -> seq<Entry>, k: nat, n: nat, e: Entry) {
    exists i: nat {:trigger at(i)} :: k <= i < n && e in at(i)
  }

  /**
   Paging an honest directory succeeds even while it changes. What comes back is in directory order without
   repetition, was there at some request, and misses no entry that was there at every request.
   */
  lemma {:induction false} PagingIsFaithful(at: nat -> seq<Entry>, limit: nat, k: nat, cookie: Cookie)
      returns (listed: seq<Entry>, n: nat)
    requires 0 < limit <= MAX_PAGE && forall i: nat :: Directory(at(i))
    ensures Collect(Honest(at, limit), limit, k, cookie) == Some(Names(listed))
    ensures k < n && Increasing(listed)
    ensures forall e: Entry :: e in listed ==> e.next > cookie && !Dot(e.name) && Appears(at, k, n, e)
    ensures forall e: Entry :: e.next > cookie && !Dot(e.name) && Stays(at, k, n, e) ==> e in listed
    decreases U64_MAX - cookie
  {
    var d := at(k);
    KeptIsExact(d, cookie);
    HonestPageIsAccepted(d, cookie, limit);
    var kept := Listed(From(d, cookie));
    if |kept| <= limit {
      listed, n := kept, k + 1;
    } else {
      var page, last := kept[..limit], kept[limit - 1].next;
      assert kept[limit - 1] in kept;
      var rest;
      rest, n := PagingIsFaithful(at, limit, k + 1, last);
      listed := page + rest;
      PageThenRest(kept, limit, rest);
      forall e | e in page
        ensures Appears(at, k, n, e)
      {
        assert e in kept && e in d;
      }
      forall e: Entry | e.next > cookie && !Dot(e.name) && Stays(at, k, n, e)
        ensures e in listed
      {
        CoveredByPage(at, k, n, e, kept, limit);
      }
    }
  }

  lemma PageThenRest(kept: seq<Entry>, limit: nat, rest: seq<Entry>)
    requires 0 < limit < |kept| && Increasing(kept) && Increasing(rest)
    requires forall e :: e in rest ==> e.next > kept[limit - 1].next
    ensures Increasing(kept[..limit] + rest)
    ensures Names(kept[..limit] + rest) == Names(kept[..limit]) + Names(rest)
    ensures forall e :: e in kept[..limit] ==> e in kept
  {
  }

  lemma CoveredByPage(at: nat -> seq<Entry>, k: nat, n: nat, e: Entry, kept: seq<Entry>, limit: nat)
    requires k < n && Stays(at, k, n, e)
    requires 0 < limit < |kept| && Increasing(kept) && (e in at(k) ==> e in kept)
    ensures Stays(at, k + 1, n, e)
    ensures e.next <= kept[limit - 1].next ==> e in kept[..limit]
  {
    assert e in at(k);
    var i :| 0 <= i < |kept| && kept[i] == e;
    if e.next <= kept[limit - 1].next {
      assert kept[..limit][i] == e;
    }
  }

  lemma {:induction false} IncreasingIsDetermined(a: seq<Entry>, b: seq<Entry>)
    requires Increasing(a) && Increasing(b) && forall e :: e in a <==> e in b
    ensures a == b
  {
    HasAnElement(a);
    HasAnElement(b);
    if a != [] && b != [] {
      SameFirst(a, b);
      forall e
        ensures e in a[1..] <==> e in b[1..]
      {
        InTail(a, e);
        InTail(b, e);
      }
      IncreasingIsDetermined(a[1..], b[1..]);
      assert a == [a[0]] + a[1..] && b == [b[0]] + b[1..];
    }
  }

  lemma HasAnElement(a: seq<Entry>)
    ensures a != [] ==> exists e :: e in a
  {
    if a != [] {
      assert a[0] in a;
    }
  }

  lemma SameFirst(a: seq<Entry>, b: seq<Entry>)
    requires a != [] && b != [] && Increasing(a) && Increasing(b) && forall e :: e in a <==> e in b
    ensures a[0] == b[0]
  {
    assert a[0] in b && b[0] in a;
    var i :| 0 <= i < |b| && b[i] == a[0];
    var j :| 0 <= j < |a| && a[j] == b[0];
  }

  lemma InTail(a: seq<Entry>, e: Entry)
    requires a != [] && Increasing(a)
    ensures e in a[1..] <==> e in a && e != a[0]
  {
    if e in a && e != a[0] {
      var i :| 0 <= i < |a| && a[i] == e;
      assert a[1..][i - 1] == e;
    }
    if e in a[1..] {
      var i :| 0 <= i < |a[1..]| && a[1..][i] == e;
      assert a[i + 1] == e;
    }
  }

  /** A directory that does not change is listed exactly: every name but the dots, in order, each once. */
  lemma PagingIsExact(d: seq<Entry>, limit: nat)
    requires Directory(d) && 0 < limit <= MAX_PAGE
    ensures Collect(Honest((k: nat) => d, limit), limit, 0, 0) == Some(Names(Listed(d)))
  {
    var at := (k: nat) => d;
    var listed, n := PagingIsFaithful(at, limit, 0, 0);
    ListedIsExact(d);
    forall e
      ensures e in listed <==> e in Listed(d)
    {
      if e in listed {
        assert e in at(0);
      }
      if e in Listed(d) {
        assert Stays(at, 0, n, e);
      }
    }
    IncreasingIsDetermined(listed, Listed(d));
  }

  // ---- any provider ----

  /** An answer is accepted exactly if it is short enough, goes onward, and every name on it is one path component. */
  lemma AcceptedExactly(page: Page, cookie: Cookie, limit: nat)
    ensures Accept(page, cookie, limit) == Some(page) <==>
              && 1 <= limit <= 5_001 && |page.names| <= limit
              && (page.next.Some? ==> page.next.value > cookie)
              && forall name :: name in page.names ==>
                   name != "" && name != "." && name != ".." && '/' !in name && '\0' !in name
    ensures Accept(page, cookie, limit) != Some(page) ==> Accept(page, cookie, limit) == None
  {
    assert (forall i :: 0 <= i < |page.names| ==> ValidName(page.names[i])) <==> forall name :: name in page.names ==> ValidName(name);
  }

  /** The `j`-th request asks from `c`, when the one numbered `k` asks from `cookie`. */
  ghost predicate Asks(answers: (nat, Cookie) -> Page, limit: nat, k: nat, cookie: Cookie, j: nat, c: Cookie)
    decreases if j > k then j - k else 0
  {
    if j <= k then j == k && c == cookie
    else
      && Accept(answers(k, cookie), cookie, limit).Some? && answers(k, cookie).next.Some?
      && Asks(answers, limit, k + 1, answers(k, cookie).next.value, j, c)
  }

  /** The listing fails exactly if some request on the way is answered with a page that is refused. */
  lemma {:induction false} FailsExactly(answers: (nat, Cookie) -> Page, limit: nat, k: nat, cookie: Cookie)
    ensures Collect(answers, limit, k, cookie) == None <==>
              exists j: nat, c: Cookie :: Asks(answers, limit, k, cookie, j, c) && Accept(answers(j, c), c, limit) == None
    decreases U64_MAX - cookie
  {
    assert Asks(answers, limit, k, cookie, k, cookie);
    var page := Accept(answers(k, cookie), cookie, limit);
    if page.Some? && page.value.next.Some? {
      FailsExactly(answers, limit, k + 1, page.value.next.value);
    }
  }

  /** Whatever is answered, a listing that succeeds holds path components only. */
  lemma {:induction false} ListedNamesAreSafe(answers: (nat, Cookie) -> Page, limit: nat, k: nat, cookie: Cookie)
    requires Collect(answers, limit, k, cookie).Some?
    ensures forall name :: name in Collect(answers, limit, k, cookie).value ==> ValidName(name)
    decreases U64_MAX - cookie
  {
    var page := Accept(answers(k, cookie), cookie, limit).value;
    if page.next.Some? {
      ListedNamesAreSafe(answers, limit, k + 1, page.next.value);
    }
  }
}
