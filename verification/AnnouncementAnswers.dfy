/**
  What publishing, verifying and reading announcements answer, said of drafts and entries themselves: which
  drafts are accepted, what is appended, and which entries the feed shows.
*/
module AnnouncementAnswers {
  import opened Basics
  import opened Protocol
  import opened AnnouncementDraft
  import opened Announcements
  import opened AnnouncementFeed
  import K = KeyedOrder
  import TO = TextOrder

  // ---------------------------------------------------------------- drafts

  /** Either both text keys and no localization, or no text key and up to 16 localizations. */
  predicate TextsGiven(p: Patterns, d: Draft) {
    if d.localizations == [] then d.titleKey in p.keys && d.bodyKey in p.keys && (d.titleKey != "" || d.bodyKey != "")
    else d.titleKey == "" && d.bodyKey == "" && |d.localizations| <= 16
  }

  /** Each locale is given once, and each text satisfies its pattern. */
  ghost predicate LocalizationsRight(p: Patterns, s: seq<Localization>) {
    && (forall i :: 0 <= i < |s| ==> s[i].locale in p.locales && s[i].title in p.titles && s[i].body in p.bodies)
    && forall i, j :: 0 <= i < j < |s| ==> s[i].locale != s[j].locale
  }

  /** Each link is given once, and satisfies its patterns. */
  ghost predicate LinksRight(p: Patterns, s: seq<Link>) {
    && |s| <= 8 && (forall i :: 0 <= i < |s| ==> s[i].relation in p.relations && s[i].url in p.urls)
    && forall i, j :: 0 <= i < j < |s| ==> s[i] != s[j]
  }

  /** An update, and nothing else, has a manifest, published with it. */
  predicate ManifestRight(p: Patterns, d: Draft) {
    match d.manifest
    case None => d.kind != Some(Update)
    case Some(m) => d.kind == Some(Update) && m in p.manifests && m.publishedAt == d.publishedAt
  }

  /** The draft may be published, whatever the order of its lists. */
  ghost predicate Acceptable(p: Patterns, d: Draft) {
    && d.protocolVersion == "1" && d.publicationId in p.tokens && d.kind.Some? && d.severity.Some?
    && (d.expiresAt.Some? ==> d.publishedAt < d.expiresAt.value)
    && TextsGiven(p, d) && LocalizationsRight(p, d.localizations) && LinksRight(p, d.links) && ManifestRight(p, d)
  }

  lemma KeysAreLocales(s: seq<Localization>)
    ensures K.KeysDiffer(LocaleKey, s) <==> forall i, j :: 0 <= i < j < |s| ==> s[i].locale != s[j].locale
  {
    if K.KeysDiffer(LocaleKey, s) {
      forall i, j | 0 <= i < j < |s|
        ensures s[i].locale != s[j].locale
      {
        assert LocaleKey(s[i]) != LocaleKey(s[j]);
      }
    }
  }

  lemma KeysAreLinks(s: seq<Link>)
    ensures K.KeysDiffer(LinkKey, s) <==> forall i, j :: 0 <= i < j < |s| ==> s[i] != s[j]
  {
    if K.KeysDiffer(LinkKey, s) {
      forall i, j | 0 <= i < j < |s|
        ensures s[i] != s[j]
      {
        assert LinkKey(s[i]) != LinkKey(s[j]);
      }
    }
  }

  lemma SameMembers<T>(s: seq<T>, t: seq<T>)
    requires multiset(s) == multiset(t)
    ensures forall x :: x in s <==> x in t
  {
    forall x
      ensures x in s <==> x in t
    {
      K.MemberOfMultiset(s, x);
      K.MemberOfMultiset(t, x);
    }
  }

  lemma LocalizationsMean(p: Patterns, s: seq<Localization>, t: seq<Localization>)
    requires SortOf(LocaleKey, s, t)
    ensures LocalizationsValid(p, s) <==> LocalizationsRight(p, t)
  {
    SameMembers(s, t);
    K.NeighboursSuffice(LocaleKey, s);
    KeysAreLocales(t);
    if K.KeysDiffer(LocaleKey, s) {
      K.KeysDifferPermuted(LocaleKey, s, t);
    }
    if K.KeysDiffer(LocaleKey, t) {
      K.KeysDifferPermuted(LocaleKey, t, s);
    }
    assert forall i :: 0 <= i < |s| ==> s[i] in t;
    assert forall i :: 0 <= i < |t| ==> t[i] in s;
  }

  lemma LinksMean(p: Patterns, s: seq<Link>, t: seq<Link>)
    requires SortOf(LinkKey, s, t)
    ensures |s| <= MAX_LINKS && LinksValid(p, s) <==> LinksRight(p, t)
  {
    SameMembers(s, t);
    SameLength(s, t);
    K.NeighboursSuffice(LinkKey, s);
    KeysAreLinks(t);
    if K.KeysDiffer(LinkKey, s) {
      K.KeysDifferPermuted(LinkKey, s, t);
    }
    if K.KeysDiffer(LinkKey, t) {
      K.KeysDifferPermuted(LinkKey, t, s);
    }
    assert forall i :: 0 <= i < |s| ==> s[i] in t;
    assert forall i :: 0 <= i < |t| ==> t[i] in s;
  }

  /** The lists of a normalized draft are those of the draft, in the order of locales, and of relations and URLs. */
  ghost predicate InOrder(d: Draft, v: Draft) {
    && v == d.(localizations := v.localizations, links := v.links)
    && multiset(v.localizations) == multiset(d.localizations) && multiset(v.links) == multiset(d.links)
    && (forall i, j :: 0 <= i < j < |v.localizations| ==> TO.Less(v.localizations[i].locale, v.localizations[j].locale))
    && forall i, j :: 0 <= i < j < |v.links| ==>
         || TO.Less(v.links[i].relation, v.links[j].relation)
         || (v.links[i].relation == v.links[j].relation && TO.Less(v.links[i].url, v.links[j].url))
  }

  lemma StrictOrder<T>(key: T -> K.Key, s: seq<T>)
    requires K.Ordered(key, s) && K.KeysDiffer(key, s)
    ensures forall i, j :: 0 <= i < j < |s| ==> K.KeyLess(key(s[i]), key(s[j]))
  {
    forall i, j | 0 <= i < j < |s|
      ensures K.KeyLess(key(s[i]), key(s[j]))
    {
      if !K.KeyLess(key(s[i]), key(s[j])) {
        K.KeyLessTotal(key(s[i]), key(s[j]));
      }
    }
  }

  /** A draft is accepted exactly if it is acceptable, and then its lists are put in order. */
  lemma NormalizeAnswers(p: Patterns, d: Draft, r: Option<Draft>)
    requires Normalizes(p, d, r)
    ensures r.Some? <==> Acceptable(p, d)
    ensures r.Some? ==> InOrder(d, r.value)
  {
    hide LocalizationsValid, LinksValid, LocalizationsRight, LinksRight, HeadValid, ModesValid, ManifestValid;
    var s, k :| SortOf(LocaleKey, s, d.localizations) && SortOf(LinkKey, k, d.links) && r == Checked(p, d, s, k);
    LocalizationsMean(p, s, d.localizations);
    LinksMean(p, k, d.links);
    HeadMeans(p, d);
    if r.Some? {
      ListsOrdered(p, s, k);
    }
  }

  lemma HeadMeans(p: Patterns, d: Draft)
    ensures HeadValid(p, d) && ModesValid(p, d) && ManifestValid(p, d)
            <==> && d.protocolVersion == "1" && d.publicationId in p.tokens && d.kind.Some? && d.severity.Some?
                 && (d.expiresAt.Some? ==> d.publishedAt < d.expiresAt.value)
                 && TextsGiven(p, d) && ManifestRight(p, d)
  {
  }

  lemma ListsOrdered(p: Patterns, s: seq<Localization>, k: seq<Link>)
    requires K.Ordered(LocaleKey, s) && K.Ordered(LinkKey, k) && LocalizationsValid(p, s) && LinksValid(p, k)
    ensures forall i, j :: 0 <= i < j < |s| ==> TO.Less(s[i].locale, s[j].locale)
    ensures forall i, j :: 0 <= i < j < |k| ==>
              || TO.Less(k[i].relation, k[j].relation)
              || (k[i].relation == k[j].relation && TO.Less(k[i].url, k[j].url))
  {
    K.NeighboursSuffice(LocaleKey, s);
    K.NeighboursSuffice(LinkKey, k);
    StrictOrder(LocaleKey, s);
    StrictOrder(LinkKey, k);
    forall i, j | 0 <= i < j < |s|
      ensures TO.Less(s[i].locale, s[j].locale)
    {
      assert K.KeyLess(LocaleKey(s[i]), LocaleKey(s[j]));
    }
    forall i, j | 0 <= i < j < |k|
      ensures || TO.Less(k[i].relation, k[j].relation)
              || (k[i].relation == k[j].relation && TO.Less(k[i].url, k[j].url))
    {
      assert K.KeyLess(LinkKey(k[i]), LinkKey(k[j]));
    }
  }

  // ---------------------------------------------------------------- publishing

  /** Entry `k` is the first one of the publication. */
  ghost predicate FirstOf(entries: seq<Entry>, publicationId: string, k: nat) {
    && k < |entries| && entries[k].content.publicationId == publicationId
    && forall j :: 0 <= j < k ==> entries[j].content.publicationId != publicationId
  }

  ghost predicate IsPublished(entries: seq<Entry>, publicationId: string) {
    exists k :: 0 <= k < |entries| && entries[k].content.publicationId == publicationId
  }

  ghost predicate Later(entries: seq<Entry>, at: int) {
    exists k :: 0 <= k < |entries| && at < entries[k].content.acceptedAt
  }

  /** Another entry has the entry's ID or hash. */
  ghost predicate Taken(entries: seq<Entry>, e: Entry) {
    exists k :: 0 <= k < |entries| && (entries[k].content.announcementId == e.content.announcementId
                                       || entries[k].announcementHash == e.announcementHash)
  }

  /** The entry carries these texts, links and manifest, each with its hash, and the hash of all of it. */
  predicate Commits(w: World, e: Entry) {
    var c := e.content;
    && c.contentHash == w.nested[ContentOf(e.titleKey, e.bodyKey, e.localizations)]
    && c.linksHash == w.nested[LinksOf(e.links)]
    && c.updateManifestHash == (match e.manifest case None => ZERO_HASH case Some(m) => w.nested[ManifestOf(m)])
    && e.updateChannel == (match e.manifest case None => "" case Some(m) => m.channel)
    && e.draftHash == w.nested[DraftOf(c.publicationId, c.kind, c.severity, c.publishedAt, c.expiresAt, c.contentHash,
                                       c.linksHash, c.updateManifestHash)]
    && e.announcementHash == Digest(w.g, AnnouncementMessage(c))
    && e.signature == if e.announcementHash in w.sign then w.sign[e.announcementHash] else ""
  }

  /** The entry is numbered and chained behind these. */
  predicate ContinuesChain(w: World, before: seq<Entry>, e: Entry) {
    && e.content.sequence == |before| + 1 && e.content.scope == w.scope && e.content.registryKeyId == w.keyId
    && e.content.previousAnnouncementHash
       == if before == [] then ZERO_HASH else before[|before| - 1].announcementHash
  }

  /** The entry says what the draft says. */
  predicate Carries(e: Entry, v: Draft) {
    && e.content.publicationId == v.publicationId && v.kind == Some(e.content.kind)
    && v.severity == Some(e.content.severity) && e.content.publishedAt == v.publishedAt
    && e.content.expiresAt == v.expiresAt && e.titleKey == v.titleKey && e.bodyKey == v.bodyKey
    && e.localizations == v.localizations && e.links == v.links && e.manifest == v.manifest
  }

  /** The entry that a publication appends. */
  predicate EntryReads(w: World, entries: seq<Entry>, v: Draft, id: string, at: int, e: Entry) {
    && ContinuesChain(w, entries, e) && Carries(e, v) && Commits(w, e)
    && e.content.announcementId == id && e.content.acceptedAt == at
  }

  /** The entry commits to the same draft. */
  predicate SameDraft(w: World, e: Entry, v: Draft)
    requires v.kind.Some? && v.severity.Some?
  {
    e.draftHash == w.nested[DraftOf(
      v.publicationId, v.kind.value, v.severity.value, v.publishedAt, v.expiresAt,
      w.nested[ContentOf(v.titleKey, v.bodyKey, v.localizations)], w.nested[LinksOf(v.links)],
      match v.manifest case None => ZERO_HASH case Some(m) => w.nested[ManifestOf(m)])]
  }

  ghost predicate AgainAnswer(w: World, entries: seq<Entry>, v: Draft, k: nat, r: Result<Publication>) {
    && FirstOf(entries, v.publicationId, k) && v.kind.Some? && v.severity.Some?
    && r == if SameDraft(w, entries[k], v) then Ok(Publication(entries[k], true, entries)) else Err(Conflict)
  }

  /** The answer to the publication of a draft that normalizes to `v`. */
  ghost predicate NormalizedAnswer(w: World, entries: seq<Entry>, v: Draft, id: string, at: int,
                                   r: Result<Publication>)
  {
    if id !in w.announcementIds then r == Err(InvalidId)
    else if IsPublished(entries, v.publicationId) then exists k :: 0 <= k && AgainAnswer(w, entries, v, k, r)
    else if at < w.createdAt then r == Err(AcceptedAtBeforeIdentity)
    else if Later(entries, at) then r == Err(ClockBeforeHead)
    else
      exists e :: EntryReads(w, entries, v, id, at, e)
        && r == if Taken(entries, e) then Err(UniqueViolation) else Ok(Publication(e, false, entries + [e]))
  }

  /** The answer to a publication. */
  ghost predicate PublishAnswer(w: World, entries: seq<Entry>, d: Draft, id: string, at: int, r: Result<Publication>) {
    if !Acceptable(w.patterns, d) then r == Err(InvalidDraft)
    else exists v :: InOrder(d, v) && NormalizedAnswer(w, entries, v, id, at, r)
  }

  lemma {:induction false} PublicationMeans(entries: seq<Entry>, id: string) returns (k: nat)
    ensures match FindPublication(entries, id)
            case None => !IsPublished(entries, id)
            case Some(e) => IsPublished(entries, id) && FirstOf(entries, id, k) && entries[k] == e
  {
    k := 0;
    if entries != [] && entries[0].content.publicationId != id {
      k := PublicationMeans(entries[1..], id);
      assert forall j :: 1 <= j < |entries| ==> entries[j] == entries[1..][j - 1];
      k := k + 1;
    }
  }

  lemma {:induction false} TimesOrdered(w: World, entries: seq<Entry>, i: nat, j: nat)
    requires ChainVerifies(w, entries) && i <= j < |entries|
    ensures entries[i].content.acceptedAt <= entries[j].content.acceptedAt
    decreases j
  {
    if i < j {
      assert Linked(w, entries, j);
      TimesOrdered(w, entries, i, j - 1);
    }
  }

  lemma ClockMeans(w: World, entries: seq<Entry>, at: int)
    requires ChainVerifies(w, entries)
    ensures entries != [] && at < entries[|entries| - 1].content.acceptedAt <==> Later(entries, at)
  {
    var n := |entries|;
    forall i | 0 <= i < n
      ensures entries[i].content.acceptedAt <= entries[n - 1].content.acceptedAt
    {
      TimesOrdered(w, entries, i, n - 1);
    }
  }

  lemma EntryForReads(w: World, entries: seq<Entry>, v: Draft, id: string, at: int)
    requires ChainVerifies(w, entries) && v.kind.Some? && v.severity.Some?
    ensures EntryReads(w, entries, v, id, at, EntryFor(w, entries, v, id, at))
  {
    assert entries != [] ==> Linked(w, entries, |entries| - 1);
  }

  lemma AppendAnswers(w: World, entries: seq<Entry>, v: Draft, id: string, at: int)
    requires ChainVerifies(w, entries) && v.kind.Some? && v.severity.Some? && id in w.announcementIds
    ensures NormalizedAnswer(w, entries, v, id, at, Append(w, entries, v, id, at))
  {
    hide ChainVerifies, EntryReads, Later, EntryFor;
    var k := PublicationMeans(entries, v.publicationId);
    ClockMeans(w, entries, at);
    EntryForReads(w, entries, v, id, at);
    if IsPublished(entries, v.publicationId) {
      assert AgainAnswer(w, entries, v, k, Append(w, entries, v, id, at));
    }
  }

  /** What `Publish` answers to any draft, on every chain that verifies. */
  lemma PublishAnswers(w: World, entries: seq<Entry>, d: Draft, id: string, at: int, r: Result<Publication>)
    requires ChainVerifies(w, entries) && Publishes(w, entries, d, id, at, r)
    ensures PublishAnswer(w, entries, d, id, at, r)
  {
    hide ChainVerifies, Normalizes, Acceptable, Append, NormalizedAnswer, InOrder;
    var n :| Normalizes(w.patterns, d, n) &&
      r == match n
           case None => Err(InvalidDraft)
           case Some(v) =>
             if id !in w.announcementIds then Err(InvalidId)
             else if v.kind.Some? && v.severity.Some? then Append(w, entries, v, id, at) else Err(InvalidDraft);
    NormalizeAnswers(w.patterns, d, n);
    if n.Some? {
      NormalizedManifest(w.patterns, d, n.value);
      if id in w.announcementIds {
        AppendAnswers(w, entries, n.value, id, at);
      } else {
        assert NormalizedAnswer(w, entries, n.value, id, at, r) by { UnknownId(w, entries, n.value, id, at); }
      }
    }
  }

  lemma UnknownId(w: World, entries: seq<Entry>, v: Draft, id: string, at: int)
    requires id !in w.announcementIds
    ensures NormalizedAnswer(w, entries, v, id, at, Err(InvalidId))
  {
  }

  // ---------------------------------------------------------------- verifying

  /** Entry `i` is one that a publication appends to the entries before it. */
  ghost predicate WrittenAt(w: World, entries: seq<Entry>, i: nat)
    requires i < |entries|
  {
    var e := entries[i];
    && ContinuesChain(w, entries[..i], e) && Commits(w, e) && e.content.announcementId in w.announcementIds
    && (i > 0 ==> entries[i - 1].content.acceptedAt <= e.content.acceptedAt)
    && (e.content.kind == Update <==> e.manifest.Some?)
  }

  /** The verification accepts exactly the entries that publications append to the ones before them. */
  lemma VerifiesIffWritten(w: World, entries: seq<Entry>, i: nat)
    requires i < |entries|
    ensures Linked(w, entries, i) <==> WrittenAt(w, entries, i)
  {
  }

  // ---------------------------------------------------------------- the feed

  /** The filter does not show the entry at this time: it is not yet out, has expired, or is of another sort. */
  predicate Hidden(f: Filter, asOf: int, e: Entry) {
    || asOf < e.content.publishedAt
    || (!f.includeExpired && e.content.expiresAt.Some? && e.content.expiresAt.value <= asOf)
    || (f.kind.Some? && f.kind.value != e.content.kind)
    || (f.severity.Some? && f.severity.value != e.content.severity)
    || (f.channel != "" && f.channel != e.updateChannel)
  }

  /** The entry is one of the snapshot that the filter shows, before the given sequence. */
  predicate Visible(entries: seq<Entry>, s: Snapshot, after: Option<int>, e: Entry) {
    && e in entries && !Hidden(s.filter, s.asOf, e) && e.content.sequence <= s.throughSequence
    && (after.Some? ==> e.content.sequence < after.value)
  }

  /** Visible entries only, newest first, with none left out up to the last; and if complete, with none left out. */
  ghost predicate Lists(entries: seq<Entry>, s: Snapshot, after: Option<int>, shown: seq<Entry>, complete: bool) {
    && (forall i :: 0 <= i < |shown| ==> Visible(entries, s, after, shown[i]))
    && (forall i, j :: 0 <= i < j < |shown| ==> shown[j].content.sequence < shown[i].content.sequence)
    && (forall e :: Visible(entries, s, after, e)
                    && (complete || (shown != [] && shown[|shown| - 1].content.sequence <= e.content.sequence)) ==>
          e in shown)
  }

  lemma SelectedMeans(entries: seq<Entry>, s: Snapshot, after: Option<int>, e: Entry)
    ensures e in Select(entries, QueryOf(s, after)) <==> Visible(entries, s, after, e)
  {
    SelectMembers(entries, QueryOf(s, after), e);
  }

  /** A prefix of the selection lists visible entries without a gap; all of it lists all. */
  lemma PrefixLists(entries: seq<Entry>, s: Snapshot, after: Option<int>, n: nat, complete: bool)
    requires Numbered(entries) && n <= |Select(entries, QueryOf(s, after))|
    requires complete ==> n == |Select(entries, QueryOf(s, after))|
    ensures Lists(entries, s, after, Select(entries, QueryOf(s, after))[..n], complete)
  {
    hide Select, Visible;
    var all := Select(entries, QueryOf(s, after));
    var shown := all[..n];
    forall i | 0 <= i < n
      ensures Visible(entries, s, after, shown[i])
    {
      SelectedMeans(entries, s, after, all[i]);
    }
    forall i, j | 0 <= i < j < n
      ensures shown[j].content.sequence < shown[i].content.sequence
    {
      SelectDescends(entries, QueryOf(s, after), i, j);
    }
    forall e | Visible(entries, s, after, e)
               && (complete || (shown != [] && shown[|shown| - 1].content.sequence <= e.content.sequence))
      ensures e in shown
    {
      SelectedMeans(entries, s, after, e);
      var k :| 0 <= k < |all| && all[k] == e;
      if k >= n {
        SelectDescends(entries, QueryOf(s, after), n - 1, k);
        assert false;
      }
      assert shown[k] == e;
    }
  }

  /** What the feed asks of a filter. */
  predicate FilterRight(w: World, f: Filter) {
    f.channel == "" || (f.channel in w.channels && (f.kind.None? || f.kind == Some(Update)))
  }

  function Rows(limit: int): int { if limit == 0 then 20 else limit }

  /**
    A walk from a first page, however the chain grows: it shows entries of the first page's chain that the
    filter shows at that time and no others, newest first and none left out on the way; it ends after at
    most as many further pages as the chain had entries, and then has shown all of them.
  */
  lemma WalkShowsVisible(w: World, k: Keys, entries: seq<Entry>, f: Filter, limit: int, now: int, visits: seq<Visit>)
    requires Numbered(entries) && FilterRight(w, f) && 0 <= limit <= 100 && Growing(entries, visits)
    ensures var s := NewSnapshot(k, entries, f, now);
            var first := Feed(w, k, entries, FeedRequest(f, limit, None), now);
            && first.Given? && s.filter == f && s.asOf == now && s.throughSequence == |entries|
            && var rest := Follow(w, k, f, first.value.next, visits, 0);
               && rest.ok && Lists(entries, s, None, first.value.items + rest.items, rest.next.None?)
               && (|visits| >= |entries| ==> rest.next.None?)
  {
    hide Lists, Select, Follow;
    WalkShowsSnapshot(w, k, entries, f, limit, now, visits);
    var s := NewSnapshot(k, entries, f, now);
    var all := Select(entries, QueryOf(s, None));
    var first := Feed(w, k, entries, FeedRequest(f, limit, None), now).value;
    var rest := Follow(w, k, f, first.next, visits, 0);
    var shown := first.items + rest.items;
    assert shown == all[..|shown|];
    PrefixLists(entries, s, None, |shown|, rest.next.None?);
    SelectShort(entries, QueryOf(s, None));
    LastNumbered(entries);
  }

  lemma LastNumbered(entries: seq<Entry>)
    requires Numbered(entries)
    ensures HeadSequence(entries) == |entries|
  {
  }

  lemma {:induction false} SelectShort(entries: seq<Entry>, q: Query)
    ensures |Select(entries, q)| <= |entries|
  {
    if entries != [] {
      SelectShort(entries[..|entries| - 1], q);
    }
  }

  // ---------------------------------------------------------------- pages

  /** The page lists the visible entries up to its limit; if more follow, its cursor stands at its last entry. */
  ghost predicate PageReads(k: Keys, entries: seq<Entry>, s: Snapshot, after: Option<int>, rows: int, page: Page) {
    && page.snapshot == s && Lists(entries, s, after, page.items, page.next.None?) && |page.items| <= rows
    && match page.next
       case None => true
       case Some(t) =>
         && |page.items| == rows > 0 && t.signature == SignatureOf(k, t.cursor) && t.cursor.snapshot == s
         && t.cursor.afterSequence == page.items[rows - 1].content.sequence
         && exists e :: Visible(entries, s, Some(t.cursor.afterSequence), e)
  }

  ghost predicate HashAt(entries: seq<Entry>, sequence: int, hash: string) {
    if sequence == 0 then hash == ZERO_HASH
    else 1 <= sequence <= |entries| && entries[sequence - 1].announcementHash == hash
  }

  /** The cursor was signed here, and its snapshot is one of this chain. */
  ghost predicate CursorRight(w: World, k: Keys, entries: seq<Entry>, f: Filter, t: Token) {
    var c, s := t.cursor, t.cursor.snapshot;
    && t.signature == (if c in k.sign then k.sign[c] else "") && s.filter == f
    && s.snapshotId == (if s.(snapshotId := "") in k.snapshotId then k.snapshotId[s.(snapshotId := "")] else "")
    && 1 <= c.afterSequence <= s.throughSequence && HashAt(entries, s.throughSequence, s.headHash)
  }

  predicate SnapshotReads(k: Keys, entries: seq<Entry>, f: Filter, now: int, s: Snapshot) {
    && s.asOf == now && s.createdAt == now && s.filter == f && s.throughSequence == |entries|
    && s.headHash == (if entries == [] then ZERO_HASH else entries[|entries| - 1].announcementHash)
    && s.snapshotId == if s.(snapshotId := "") in k.snapshotId then k.snapshotId[s.(snapshotId := "")] else ""
  }

  /** The answer to a feed request. */
  ghost predicate FeedAnswer(w: World, k: Keys, entries: seq<Entry>, r: FeedRequest, now: int, answer: Answer<Page>) {
    if r.limit < 0 || r.limit > 100 || !FilterRight(w, r.filter) then answer == Refused(InvalidRequest)
    else
      match r.cursor
      case None =>
        && answer.Given? && SnapshotReads(k, entries, r.filter, now, answer.value.snapshot)
        && PageReads(k, entries, answer.value.snapshot, None, Rows(r.limit), answer.value)
      case Some(t) =>
        if CursorRight(w, k, entries, r.filter, t) then
          && answer.Given?
          && PageReads(k, entries, t.cursor.snapshot, Some(t.cursor.afterSequence), Rows(r.limit), answer.value)
        else answer == Refused(InvalidCursor)
  }

  lemma {:induction false} BoundaryMeans(entries: seq<Entry>, first: int, sequence: int)
    requires forall i :: 0 <= i < |entries| ==> entries[i].content.sequence == first + i
    ensures BoundaryHash(entries, sequence)
            == if sequence == 0 then Some(ZERO_HASH)
               else if 0 <= sequence - first < |entries| then Some(entries[sequence - first].announcementHash)
               else None
  {
    if entries != [] {
      BoundaryMeans(entries[1..], first + 1, sequence);
    }
  }

  lemma PageMeans(k: Keys, entries: seq<Entry>, s: Snapshot, after: Option<int>, rows: nat)
    requires Numbered(entries) && rows > 0
    ensures PageReads(k, entries, s, after, rows, PageOf(k, entries, s, after, rows))
    ensures PageOf(k, entries, s, after, rows).snapshot == s
  {
    hide Lists, Select, Visible;
    var all := Select(entries, QueryOf(s, after));
    var page := PageOf(k, entries, s, after, rows);
    var n := |page.items|;
    assert page.items == all[..n];
    PrefixLists(entries, s, after, n, page.next.None?);
    if page.next.Some? {
      var e := MoreVisible(entries, s, after, rows);
    }
  }

  lemma MoreVisible(entries: seq<Entry>, s: Snapshot, after: Option<int>, n: nat) returns (e: Entry)
    requires Numbered(entries) && 0 < n < |Select(entries, QueryOf(s, after))|
    ensures Visible(entries, s, Some(Select(entries, QueryOf(s, after))[n - 1].content.sequence), e)
  {
    var all := Select(entries, QueryOf(s, after));
    SelectedMeans(entries, s, after, all[n]);
    SelectDescends(entries, QueryOf(s, after), n - 1, n);
    e := all[n];
  }

  /** What `AnnouncementFeed` answers to any request, on every numbered chain. */
  lemma FeedAnswers(w: World, k: Keys, entries: seq<Entry>, r: FeedRequest, now: int)
    requires Numbered(entries)
    ensures FeedAnswer(w, k, entries, r, now, Feed(w, k, entries, r, now))
  {
    hide PageReads, PageOf, Numbered;
    LastNumbered(entries);
    if PageLimit(r.limit).Some? {
      var rows := PageLimit(r.limit).value;
      match r.cursor
      case None => PageMeans(k, entries, NewSnapshot(k, entries, r.filter, now), None, rows);
      case Some(t) =>
        PageMeans(k, entries, t.cursor.snapshot, Some(t.cursor.afterSequence), rows);
        BoundaryOf(entries, t.cursor.snapshot.throughSequence);
    }
  }

  lemma BoundaryOf(entries: seq<Entry>, sequence: int)
    requires Numbered(entries)
    ensures forall hash :: BoundaryHash(entries, sequence) == Some(hash) <==> HashAt(entries, sequence, hash)
  {
    BoundaryMeans(entries, 1, sequence);
  }
}
