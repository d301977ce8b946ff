/**
  The announcement feed: filtered pages over a snapshot of the chain, walked with signed cursors while the
  chain grows.
*/
module AnnouncementFeed {
  import opened Basics
  import opened Protocol
  import opened Announcements

  const DEFAULT_LIMIT: int := 20
  const MAX_LIMIT: int := 100

  /** `channel` is empty, and `kind` and `severity` are absent, where nothing is filtered. */
  datatype Filter = Filter(kind: Option<AnnouncementKind>, severity: Option<Severity>, channel: string,
                           includeExpired: bool)

  /** The snapshot that all pages of a walk share. */
  datatype Snapshot = Snapshot(
    snapshotId: string, asOf: int, throughSequence: int, headHash: string, filter: Filter, createdAt: int)

  datatype Cursor = Cursor(snapshot: Snapshot, afterSequence: int)

  /** A cursor as the caller holds it: the payload and its signature. */
  datatype Token = Token(cursor: Cursor, signature: string)

  /** The snapshot IDs and cursor signatures of this registry. */
  datatype Keys = Keys(snapshotId: map<Snapshot, string>, sign: map<Cursor, string>)

  datatype Query = Query(throughSequence: int, asOf: int, filter: Filter, afterSequence: Option<int>)

  datatype Page = Page(snapshot: Snapshot, items: seq<Entry>, next: Option<Token>)

  datatype FeedError = InvalidRequest | InvalidCursor

  datatype Answer<+T> = Given(value: T) | Refused(error: FeedError)

  // ---------------------------------------------------------------- the query

  predicate Selected(q: Query, e: Entry) {
    && e.content.sequence <= q.throughSequence && e.content.publishedAt <= q.asOf
    && (q.filter.includeExpired || e.content.expiresAt.None? || e.content.expiresAt.value > q.asOf)
    && (q.filter.kind.Some? ==> e.content.kind == q.filter.kind.value)
    && (q.filter.severity.Some? ==> e.content.severity == q.filter.severity.value)
    && (q.filter.channel != "" ==> e.updateChannel == q.filter.channel)
    && (q.afterSequence.Some? ==> e.content.sequence < q.afterSequence.value)
  }

  /** All selected entries, the newest first. */
  function Select(entries: seq<Entry>, q: Query): seq<Entry> {
    if entries == [] then []
    else
      var last := entries[|entries| - 1];
      (if Selected(q, last) then [last] else []) + Select(entries[..|entries| - 1], q)
  }

  function Take<T>(s: seq<T>, n: nat): seq<T> { if |s| <= n then s else s[..n] }

  lemma ReadNext(entries: seq<Entry>, q: Query, i: nat, rows: seq<Entry>)
    requires i < |entries|
    ensures rows + Select(entries[..i + 1], q)
            == (if Selected(q, entries[i]) then rows + [entries[i]] else rows) + Select(entries[..i], q)
  {
    assert entries[..i + 1][..i] == entries[..i];
  }

  /** Read the selected rows from the newest on, up to the limit. */
  method ReadAnnouncements(entries: seq<Entry>, q: Query, limit: nat) returns (rows: seq<Entry>)
    ensures rows == Take(Select(entries, q), limit)
  {
    rows := [];
    var i := |entries|;
    ghost var all := Select(entries, q);
    assert entries[..i] == entries;
    while i > 0 && |rows| < limit
      invariant 0 <= i <= |entries| && |rows| <= limit && all == rows + Select(entries[..i], q)
    {
      i := i - 1;
      ReadNext(entries, q, i, rows);
      if Selected(q, entries[i]) {
        rows := rows + [entries[i]];
      }
    }
    ReadDone(rows, Select(entries[..i], q), limit);
    assert i == 0 ==> Select(entries[..i], q) == [];
  }

  lemma ReadDone(rows: seq<Entry>, rest: seq<Entry>, limit: nat)
    requires |rows| <= limit
    ensures rest == [] || |rows| == limit ==> rows == Take(rows + rest, limit)
  {
  }

  // ---------------------------------------------------------------- pages

  predicate FilterValid(w: World, f: Filter) {
    f.channel != "" ==> f.channel in w.channels && (f.kind.Some? ==> f.kind == Some(Update))
  }

  function PageLimit(limit: int): Option<nat> {
    if limit == 0 then Some(DEFAULT_LIMIT) else if limit < 1 || limit > MAX_LIMIT then None else Some(limit)
  }

  function SnapshotIdOf(k: Keys, s: Snapshot): string {
    var seed := s.(snapshotId := "");
    if seed in k.snapshotId then k.snapshotId[seed] else ""
  }

  function SignatureOf(k: Keys, c: Cursor): string { if c in k.sign then k.sign[c] else "" }

  /** What decoding a cursor checks. */
  predicate CursorValid(w: World, k: Keys, t: Token) {
    var c := t.cursor;
    && t.signature == SignatureOf(k, c) && c.snapshot.snapshotId == SnapshotIdOf(k, c.snapshot)
    && 0 <= c.snapshot.throughSequence && 0 < c.afterSequence <= c.snapshot.throughSequence
    && FilterValid(w, c.snapshot.filter)
  }

  /** The hash at a sequence number of the chain. */
  function BoundaryHash(entries: seq<Entry>, sequence: int): Option<string> {
    if sequence == 0 then Some(ZERO_HASH)
    else if entries == [] then None
    else if entries[0].content.sequence == sequence then Some(entries[0].announcementHash)
    else BoundaryHash(entries[1..], sequence)
  }

  function NewSnapshot(k: Keys, entries: seq<Entry>, f: Filter, now: int): Snapshot {
    var s := Snapshot("", now, HeadSequence(entries), HeadHash(entries), f, now);
    s.(snapshotId := SnapshotIdOf(k, s))
  }

  function QueryOf(s: Snapshot, after: Option<int>): Query { Query(s.throughSequence, s.asOf, s.filter, after) }

  /** The page of a snapshot after a sequence number. */
  function PageOf(k: Keys, entries: seq<Entry>, s: Snapshot, after: Option<int>, limit: nat): Page {
    var rows := Take(Select(entries, QueryOf(s, after)), limit + 1);
    if |rows| > limit && limit > 0 then
      var items := rows[..limit];
      var c := Cursor(s, items[limit - 1].content.sequence);
      Page(s, items, Some(Token(c, SignatureOf(k, c))))
    else Page(s, rows, None)
  }

  datatype FeedRequest = FeedRequest(filter: Filter, limit: int, cursor: Option<Token>)

  function Feed(w: World, k: Keys, entries: seq<Entry>, r: FeedRequest, now: int): Answer<Page> {
    var limit := PageLimit(r.limit);
    if limit.None? || !FilterValid(w, r.filter) then Refused(InvalidRequest)
    else
      match r.cursor
      case None => Given(PageOf(k, entries, NewSnapshot(k, entries, r.filter, now), None, limit.value))
      case Some(t) =>
        var s := t.cursor.snapshot;
        if !CursorValid(w, k, t) || s.filter != r.filter || BoundaryHash(entries, s.throughSequence) != Some(s.headHash)
        then Refused(InvalidCursor)
        else Given(PageOf(k, entries, s, Some(t.cursor.afterSequence), limit.value))
  }

  method AnnouncementFeed(w: World, k: Keys, entries: seq<Entry>, r: FeedRequest, now: int)
    returns (answer: Answer<Page>)
    ensures answer == Feed(w, k, entries, r, now)
  {
    var limit := PageLimit(r.limit);
    if limit.None? || !FilterValid(w, r.filter) {
      return Refused(InvalidRequest);
    }
    var snapshot, after: Option<int> := NewSnapshot(k, entries, r.filter, now), None;
    if r.cursor.Some? {
      var t := r.cursor.value;
      snapshot := t.cursor.snapshot;
      if !CursorValid(w, k, t) || snapshot.filter != r.filter
         || BoundaryHash(entries, snapshot.throughSequence) != Some(snapshot.headHash) {
        return Refused(InvalidCursor);
      }
      after := Some(t.cursor.afterSequence);
    }
    var rows := ReadAnnouncements(entries, QueryOf(snapshot, after), limit.value + 1);
    var next: Option<Token> := None;
    if |rows| > limit.value && limit.value > 0 {
      rows := rows[..limit.value];
      var cursor := Cursor(snapshot, rows[limit.value - 1].content.sequence);
      next := Some(Token(cursor, SignatureOf(k, cursor)));
    }
    return Given(Page(snapshot, rows, next));
  }

  // ---------------------------------------------------------------- selection

  /** Numbered from 1 without gaps, as the chain is. */
  ghost predicate Numbered(entries: seq<Entry>) {
    forall i :: 0 <= i < |entries| ==> entries[i].content.sequence == i + 1
  }

  lemma VerifiedIsNumbered(w: World, entries: seq<Entry>)
    requires ChainVerifies(w, entries)
    ensures Numbered(entries)
  {
    forall i | 0 <= i < |entries|
      ensures entries[i].content.sequence == i + 1
    {
      assert Linked(w, entries, i);
    }
  }

  /** Later entries do not reach into a snapshot. */
  lemma {:induction false} SelectStable(entries: seq<Entry>, later: seq<Entry>, q: Query)
    requires Numbered(later) && entries <= later && q.throughSequence <= |entries|
    ensures Select(later, q) == Select(entries, q)
    decreases |later|
  {
    if |later| == |entries| {
      assert later == entries;
    } else {
      SelectStable(entries, later[..|later| - 1], q);
    }
  }

  /** Exactly the selected entries are in the list. */
  lemma {:induction false} SelectMembers(entries: seq<Entry>, q: Query, e: Entry)
    ensures e in Select(entries, q) <==> e in entries && Selected(q, e)
  {
    if entries != [] {
      var n := |entries| - 1;
      SelectMembers(entries[..n], q, e);
      assert entries == entries[..n] + [entries[n]];
    }
  }

  lemma NumberedPrefix(entries: seq<Entry>, n: nat)
    requires Numbered(entries) && n <= |entries|
    ensures Numbered(entries[..n])
  {
  }

  lemma {:induction false} SelectRange(entries: seq<Entry>, q: Query, i: nat)
    requires Numbered(entries) && i < |Select(entries, q)|
    ensures 1 <= Select(entries, q)[i].content.sequence <= |entries|
  {
    var n := |entries| - 1;
    NumberedPrefix(entries, n);
    SelectLast(entries, q);
    if !Selected(q, entries[n]) {
      SelectRange(entries[..n], q, i);
    } else if i > 0 {
      SelectRange(entries[..n], q, i - 1);
    }
  }

  /** The list is in strictly descending order. */
  lemma {:induction false} SelectDescends(entries: seq<Entry>, q: Query, i: nat, j: nat)
    requires Numbered(entries) && i < j < |Select(entries, q)|
    ensures Select(entries, q)[j].content.sequence < Select(entries, q)[i].content.sequence
  {
    var n := |entries| - 1;
    NumberedPrefix(entries, n);
    SelectLast(entries, q);
    if !Selected(q, entries[n]) {
      SelectDescends(entries[..n], q, i, j);
    } else if i > 0 {
      SelectDescends(entries[..n], q, i - 1, j - 1);
    } else {
      SelectRange(entries[..n], q, j - 1);
    }
  }

  lemma {:induction false} SelectBelow(entries: seq<Entry>, q: Query, s: int)
    requires Numbered(entries) && |entries| < s && (q.afterSequence.Some? ==> s <= q.afterSequence.value)
    ensures Select(entries, q.(afterSequence := Some(s))) == Select(entries, q)
  {
    if entries != [] {
      SelectBelow(entries[..|entries| - 1], q, s);
    }
  }

  lemma SelectLast(entries: seq<Entry>, q: Query)
    requires entries != []
    ensures var init, last := entries[..|entries| - 1], entries[|entries| - 1];
            Select(entries, q) == if Selected(q, last) then [last] + Select(init, q) else Select(init, q)
  {
  }

  /** Continuing after the `i`-th selected entry gives the rest of the list. */
  lemma {:induction false} SelectAfter(entries: seq<Entry>, q: Query, i: nat, s: int)
    requires Numbered(entries) && i < |Select(entries, q)| && s == Select(entries, q)[i].content.sequence
    ensures Select(entries, q.(afterSequence := Some(s))) == Select(entries, q)[i + 1..]
  {
    var n, r := |entries| - 1, q.(afterSequence := Some(s));
    SelectLast(entries, q);
    SelectLast(entries, r);
    SelectBounded(entries, q, i);
    if !Selected(q, entries[n]) {
      SelectAfter(entries[..n], q, i, s);
    } else if i > 0 {
      SelectBounded(entries[..n], q, i - 1);
      SelectAfter(entries[..n], q, i - 1, s);
      DropNext(entries[n], Select(entries[..n], q), i);
    } else {
      SelectBelow(entries[..n], q, s);
      DropNext(entries[n], Select(entries[..n], q), 0);
    }
  }

  lemma DropNext<T>(x: T, s: seq<T>, i: nat)
    requires i <= |s|
    ensures ([x] + s)[i + 1..] == s[i..]
  {
  }

  lemma SelectBounded(entries: seq<Entry>, q: Query, i: nat)
    requires Numbered(entries) && i < |Select(entries, q)|
    ensures 1 <= Select(entries, q)[i].content.sequence <= |entries| && Selected(q, Select(entries, q)[i])
  {
    SelectRange(entries, q, i);
    SelectMembers(entries, q, Select(entries, q)[i]);
  }

  // ---------------------------------------------------------------- walks

  /** One request of a walk: the chain at that time, the page limit asked for, and the clock. */
  datatype Visit = Visit(entries: seq<Entry>, limit: int, now: int)

  /** The chain only grows from visit to visit, and every limit is one the feed takes. */
  ghost predicate Growing(entries: seq<Entry>, visits: seq<Visit>) {
    forall j :: 0 <= j < |visits| ==> GrowsAt(entries, visits, j)
  }

  ghost predicate GrowsAt(entries: seq<Entry>, visits: seq<Visit>, j: nat)
    requires j < |visits|
  {
    && Numbered(visits[j].entries) && PageLimit(visits[j].limit).Some?
    && (if j == 0 then entries else visits[j - 1].entries) <= visits[j].entries
  }

  /** What a walk has shown, and where it stands. */
  datatype Progress = Progress(items: seq<Entry>, next: Option<Token>, pages: seq<Page>, ok: bool)

  function OnePage(page: Page, rest: Progress): Progress {
    Progress(page.items + rest.items, rest.next, [page] + rest.pages, rest.ok)
  }

  /** Follow the cursors from a token and the `j`-th visit on, until the walk or the visits end. */
  function Follow(w: World, k: Keys, f: Filter, token: Option<Token>, visits: seq<Visit>, j: nat): Progress
    requires j <= |visits|
    decreases |visits| - j, f
  {
    if token.None? || j == |visits| then Progress([], token, [], true)
    else
      match Feed(w, k, visits[j].entries, FeedRequest(f, visits[j].limit, token), visits[j].now)
      case Refused(_) => Progress([], token, [], false)
      case Given(page) => OnePage(page, Follow(w, k, f, page.next, visits, j + 1))
  }

  /** The snapshot is available in a chain, and `all` is its list. */
  ghost predicate Pinned(entries: seq<Entry>, s: Snapshot, all: seq<Entry>) {
    && Numbered(entries) && 0 < s.throughSequence <= |entries|
    && BoundaryHash(entries, s.throughSequence) == Some(s.headHash) && all == Select(entries, QueryOf(s, None))
  }

  /** A cursor of the snapshot, standing after entry `i` of its list. */
  ghost predicate Standing(w: World, k: Keys, s: Snapshot, t: Token, all: seq<Entry>, i: nat) {
    t.cursor.snapshot == s && CursorValid(w, k, t) && i + 1 < |all| && t.cursor.afterSequence == all[i].content.sequence
  }

  lemma {:induction false} BoundaryStays(a: seq<Entry>, b: seq<Entry>, sequence: int)
    requires a <= b && BoundaryHash(a, sequence).Some?
    ensures BoundaryHash(b, sequence) == BoundaryHash(a, sequence)
  {
    if sequence != 0 && a[0].content.sequence != sequence {
      BoundaryStays(a[1..], b[1..], sequence);
    }
  }

  lemma PinnedLater(entries: seq<Entry>, later: seq<Entry>, s: Snapshot, all: seq<Entry>)
    requires Pinned(entries, s, all) && entries <= later && Numbered(later)
    ensures Pinned(later, s, all)
  {
    SelectStable(entries, later, QueryOf(s, None));
    BoundaryStays(entries, later, s.throughSequence);
  }

  lemma {:induction false} PinnedAt(entries: seq<Entry>, visits: seq<Visit>, s: Snapshot, all: seq<Entry>, j: nat)
    requires Pinned(entries, s, all) && Growing(entries, visits) && j < |visits|
    ensures Pinned(visits[j].entries, s, all)
  {
    if j > 0 {
      PinnedAt(entries, visits, s, all, j - 1);
    }
    assert GrowsAt(entries, visits, j);
    PinnedLater(if j == 0 then entries else visits[j - 1].entries, visits[j].entries, s, all);
  }

  /** An emitted cursor is accepted again, and stands where its page ended. */
  lemma NextStands(w: World, k: Keys, entries: seq<Entry>, s: Snapshot, all: seq<Entry>, i: nat)
    requires Pinned(entries, s, all) && FilterValid(w, s.filter) && s.snapshotId == SnapshotIdOf(k, s) && i + 1 < |all|
    ensures var c := Cursor(s, all[i].content.sequence);
            Standing(w, k, s, Token(c, SignatureOf(k, c)), all, i)
  {
    SelectBounded(entries, QueryOf(s, None), i);
  }

  lemma TakeRest<T>(all: seq<T>, i: nat, limit: nat)
    requires i + 1 < |all| && limit > 0
    ensures var rest := all[i + 1..];
            if |rest| > limit then
              var rows := Take(rest, limit + 1);
              && |rows| == limit + 1 && rows[..limit] == all[i + 1..i + 1 + limit]
              && rows[..limit][limit - 1] == all[i + limit]
            else Take(rest, limit + 1) == rest == all[i + 1..i + 1 + |rest|]
  {
  }

  /** A page that continues a walk after entry `i` of the list. */
  ghost predicate Continues(s: Snapshot, all: seq<Entry>, i: nat, page: Page) {
    && page.snapshot == s && 0 < |page.items| && i + |page.items| < |all|
    && page.items == all[i + 1..i + 1 + |page.items|]
    && (page.next.None? ==> i + |page.items| == |all| - 1)
  }

  /** A page from a standing cursor shows the next entries of the list, and stands after them if more follow. */
  lemma PageStands(w: World, k: Keys, entries: seq<Entry>, s: Snapshot, t: Token, all: seq<Entry>, i: nat, limit: nat)
    requires Pinned(entries, s, all) && Standing(w, k, s, t, all, i) && limit > 0
    ensures var p := PageOf(k, entries, s, Some(t.cursor.afterSequence), limit);
            && Continues(s, all, i, p)
            && (p.next.Some? ==> Standing(w, k, s, p.next.value, all, i + |p.items|))
  {
    SelectAfter(entries, QueryOf(s, None), i, all[i].content.sequence);
    var rest := Select(entries, QueryOf(s, Some(t.cursor.afterSequence)));
    TakeRest(all, i, limit);
    if |rest| > limit {
      NextStands(w, k, entries, s, all, i + limit);
    }
  }

  /** The next request of a walk is answered with a page that continues it. */
  lemma VisitContinues(w: World, k: Keys, s: Snapshot, t: Token, all: seq<Entry>, i: nat, v: Visit) returns (page: Page)
    requires Pinned(v.entries, s, all) && Standing(w, k, s, t, all, i) && PageLimit(v.limit).Some?
    ensures Feed(w, k, v.entries, FeedRequest(s.filter, v.limit, Some(t)), v.now) == Given(page)
    ensures Continues(s, all, i, page)
    ensures page.next.Some? ==> Standing(w, k, s, page.next.value, all, i + |page.items|)
  {
    PageStands(w, k, v.entries, s, t, all, i, PageLimit(v.limit).value);
    page := PageOf(k, v.entries, s, Some(t.cursor.afterSequence), PageLimit(v.limit).value);
  }

  /** A walk that has `visits` requests left and stood after entry `i` went on as far as `p` says. */
  ghost predicate Walked(s: Snapshot, all: seq<Entry>, i: nat, visits: int, p: Progress) {
    && p.ok && i + |p.items| < |all| && p.items == all[i + 1..i + 1 + |p.items|]
    && (p.next.None? ==> i + |p.items| == |all| - 1)
    && (visits >= |all| - i - 1 ==> p.next.None?)
    && (forall n :: 0 <= n < |p.pages| ==> p.pages[n].snapshot == s)
  }

  lemma WalkedOn(s: Snapshot, all: seq<Entry>, i: nat, n: nat, visits: int, page: Page, rest: Progress)
    requires Continues(s, all, i, page) && visits > 0 && n == i + |page.items|
    requires page.next.Some? ==> Walked(s, all, n, visits - 1, rest)
    requires page.next.None? ==> rest == Progress([], None, [], true)
    ensures Walked(s, all, i, visits, OnePage(page, rest))
  {
    Slices(all, i + 1, n + 1, n + 1 + |rest.items|);
  }

  /** Each of the visits from `j` on sees the pinned list. */
  ghost predicate SeesPinned(visits: seq<Visit>, s: Snapshot, all: seq<Entry>, j: nat)
    decreases |visits| - j
  {
    j >= |visits| || (Sees(visits[j], s, all) && SeesPinned(visits, s, all, j + 1))
  }

  ghost predicate Sees(v: Visit, s: Snapshot, all: seq<Entry>) {
    Pinned(v.entries, s, all) && PageLimit(v.limit).Some?
  }

  /** The `j`-th visit of a walk shows a page that continues it, and the walk goes on from there. */
  lemma VisitFollows(w: World, k: Keys, s: Snapshot, t: Token, all: seq<Entry>, i: nat, visits: seq<Visit>, j: nat)
    returns (page: Page, rest: Progress, n: nat)
    requires SeesPinned(visits, s, all, j) && Standing(w, k, s, t, all, i) && j < |visits|
    ensures SeesPinned(visits, s, all, j + 1)
    ensures Continues(s, all, i, page) && rest == Follow(w, k, s.filter, page.next, visits, j + 1)
    ensures Follow(w, k, s.filter, Some(t), visits, j) == OnePage(page, rest)
    ensures n == i + |page.items| && (page.next.Some? ==> Standing(w, k, s, page.next.value, all, n))
    ensures page.next.None? ==> rest == Progress([], None, [], true)
  {
    page := VisitContinues(w, k, s, t, all, i, visits[j]);
    rest := Follow(w, k, s.filter, page.next, visits, j + 1);
    n := i + |page.items|;
  }

  lemma FollowStops(w: World, k: Keys, s: Snapshot, t: Token, all: seq<Entry>, i: nat, visits: seq<Visit>)
    requires i + 1 < |all|
    ensures Walked(s, all, i, 0, Follow(w, k, s.filter, Some(t), visits, |visits|))
  {
  }

  /**
    Following the cursors, with any page limits and while the chain grows, shows exactly the next entries of
    the pinned list; the walk is over after at most as many pages as entries are left, with the whole list.
  */
  lemma {:induction false} FollowWalks(w: World, k: Keys, s: Snapshot, t: Token, all: seq<Entry>, i: nat,
                                       visits: seq<Visit>, j: nat, left: nat, p: Progress)
    requires SeesPinned(visits, s, all, j) && Standing(w, k, s, t, all, i) && left == |visits| - j
    requires p == Follow(w, k, s.filter, Some(t), visits, j)
    ensures Walked(s, all, i, left, p)
    decreases left
  {
    if left == 0 {
      FollowStops(w, k, s, t, all, i, visits);
    } else {
      var page, rest, n := VisitFollows(w, k, s, t, all, i, visits, j);
      if page.next.Some? {
        FollowWalks(w, k, s, page.next.value, all, n, visits, j + 1, left - 1, rest);
      }
      WalkedOn(s, all, i, n, left, page, rest);
    }
  }

  lemma {:induction false} HeadBoundary(entries: seq<Entry>, first: nat)
    requires entries != [] && forall i :: 0 <= i < |entries| ==> entries[i].content.sequence == first + i
    requires first >= 1
    ensures BoundaryHash(entries, first + |entries| - 1) == Some(entries[|entries| - 1].announcementHash)
  {
    if |entries| > 1 {
      HeadBoundary(entries[1..], first + 1);
    }
  }

  lemma NewSnapshotPinned(k: Keys, entries: seq<Entry>, f: Filter, now: int)
    requires Numbered(entries) && entries != []
    ensures var s := NewSnapshot(k, entries, f, now);
            s.snapshotId == SnapshotIdOf(k, s) && Pinned(entries, s, Select(entries, QueryOf(s, None)))
  {
    HeadBoundary(entries, 1);
  }

  /** What a first page shows, and that its cursor stands where it ended. */
  lemma FirstPageStands(w: World, k: Keys, entries: seq<Entry>, s: Snapshot, limit: nat)
    requires FilterValid(w, s.filter) && limit > 0 && s.snapshotId == SnapshotIdOf(k, s)
    requires Pinned(entries, s, Select(entries, QueryOf(s, None)))
    ensures var all := Select(entries, QueryOf(s, None));
            var p := PageOf(k, entries, s, None, limit);
            && p.snapshot == s && p.items <= all && (p.next.None? ==> p.items == all)
            && (p.next.Some? ==> p.items != [] && Standing(w, k, s, p.next.value, all, |p.items| - 1))
  {
    var all := Select(entries, QueryOf(s, None));
    if |all| > limit {
      assert Take(all, limit + 1)[..limit] == all[..limit];
      NextStands(w, k, entries, s, all, limit - 1);
    }
  }

  lemma {:induction false} AllSeePinned(entries: seq<Entry>, visits: seq<Visit>, s: Snapshot, all: seq<Entry>, j: nat)
    requires Pinned(entries, s, all) && Growing(entries, visits) && j <= |visits|
    ensures SeesPinned(visits, s, all, j)
    decreases |visits| - j
  {
    if j < |visits| {
      assert GrowsAt(entries, visits, j);
      PinnedAt(entries, visits, s, all, j);
      AllSeePinned(entries, visits, s, all, j + 1);
    }
  }

  /** The first page and a walk that goes on from it, over the list of its snapshot. */
  ghost predicate Shows(s: Snapshot, all: seq<Entry>, visits: nat, first: Page, rest: Progress) {
    && first.snapshot == s && rest.ok && first.items + rest.items <= all
    && (rest.next.None? ==> first.items + rest.items == all)
    && (visits >= |all| ==> rest.next.None?)
    && (forall n :: 0 <= n < |rest.pages| ==> rest.pages[n].snapshot == s)
  }

  lemma WalkedShows(s: Snapshot, all: seq<Entry>, visits: nat, first: Page, rest: Progress)
    requires first.snapshot == s && first.items <= all && first.items != [] && first.next.Some?
    requires Walked(s, all, |first.items| - 1, visits, rest)
    ensures Shows(s, all, visits, first, rest)
  {
    var n := |first.items|;
    Slices(all, 0, n, n + |rest.items|);
  }

  lemma WalkFrom(w: World, k: Keys, entries: seq<Entry>, s: Snapshot, all: seq<Entry>, limit: nat, visits: seq<Visit>,
                 first: Page)
    requires Pinned(entries, s, all) && FilterValid(w, s.filter) && s.snapshotId == SnapshotIdOf(k, s) && limit > 0
    requires Growing(entries, visits) && first == PageOf(k, entries, s, None, limit)
    ensures Shows(s, all, |visits|, first, Follow(w, k, s.filter, first.next, visits, 0))
  {
    FirstPageStands(w, k, entries, s, limit);
    if first.next.Some? {
      AllSeePinned(entries, visits, s, all, 0);
      var rest := Follow(w, k, s.filter, first.next, visits, 0);
      FollowWalks(w, k, s, first.next.value, all, |first.items| - 1, visits, 0, |visits|, rest);
      WalkedShows(s, all, |visits|, first, rest);
    }
  }

  /**
    A walk from a first page: its items and those of the pages that follow are a prefix of the matching
    entries up to the pinned sequence, newest first; when the cursors end they are all of them.
  */
  lemma WalkShowsSnapshot(w: World, k: Keys, entries: seq<Entry>, f: Filter, limit: int, now: int, visits: seq<Visit>)
    requires Numbered(entries) && FilterValid(w, f) && PageLimit(limit).Some? && Growing(entries, visits)
    ensures var s := NewSnapshot(k, entries, f, now);
            var first := Feed(w, k, entries, FeedRequest(f, limit, None), now);
            && first.Given?
            && Shows(s, Select(entries, QueryOf(s, None)), |visits|, first.value,
                     Follow(w, k, f, first.value.next, visits, 0))
  {
    var s := NewSnapshot(k, entries, f, now);
    if entries != [] {
      var limit := PageLimit(limit).value;
      NewSnapshotPinned(k, entries, f, now);
      WalkFrom(w, k, entries, s, Select(entries, QueryOf(s, None)), limit, visits, PageOf(k, entries, s, None, limit));
    }
  }
}
