/**
  The announcement chain: publication under an idempotent publication ID, and the replay of the chain.
*/
module Announcements {
  import opened Basics
  import opened Protocol
  import opened AnnouncementDraft

  /** The nested contents that an entry commits to, hashed on their own. */
  datatype Nested =
    | ContentOf(titleKey: string, bodyKey: string, localizations: seq<Localization>)
    | LinksOf(links: seq<Link>)
    | ManifestOf(manifest: Manifest)
    | DraftOf(publicationId: string, kind: AnnouncementKind, severity: Severity, publishedAt: int,
              expiresAt: Option<int>, contentHash: string, linksHash: string, manifestHash: string)

  type NestedDigests = t: imap<Nested, string> | forall m: Nested :: m in t
    ghost witness imap m: Nested | true :: ""

  datatype Entry = Entry(
    content: AnnouncementContent, announcementHash: string, signature: string, titleKey: string, bodyKey: string,
    localizations: seq<Localization>, links: seq<Link>, manifest: Option<Manifest>, updateChannel: string,
    draftHash: string)

  datatype World = World(
    g: Digests, nested: NestedDigests, sign: map<string, string>, scope: string, keyId: string, createdAt: int,
    patterns: Patterns, announcementIds: iset<string>, channels: iset<string>)

  datatype Error = InvalidDraft | Conflict | AcceptedAtBeforeIdentity | ClockBeforeHead | InvalidId | UniqueViolation

  datatype Result<+T> = Ok(value: T) | Err(error: Error)

  // ---------------------------------------------------------------- hashes of a draft

  function ContentHash(w: World, d: Draft): string { w.nested[ContentOf(d.titleKey, d.bodyKey, d.localizations)] }

  function LinksHash(w: World, d: Draft): string { w.nested[LinksOf(d.links)] }

  function ManifestHash(w: World, m: Option<Manifest>): string {
    if m.None? then ZERO_HASH else w.nested[ManifestOf(m.value)]
  }

  function DraftHash(w: World, d: Draft): string
    requires d.kind.Some? && d.severity.Some?
  {
    w.nested[DraftOf(d.publicationId, d.kind.value, d.severity.value, d.publishedAt, d.expiresAt, ContentHash(w, d),
                     LinksHash(w, d), ManifestHash(w, d.manifest))]
  }

  function ChannelOf(m: Option<Manifest>): string { if m.None? then "" else m.value.channel }

  function SignatureOn(w: World, hash: string): string { if hash in w.sign then w.sign[hash] else "" }

  // ---------------------------------------------------------------- appending

  function HeadHash(entries: seq<Entry>): string {
    if entries == [] then ZERO_HASH else entries[|entries| - 1].announcementHash
  }

  function HeadSequence(entries: seq<Entry>): int {
    if entries == [] then 0 else entries[|entries| - 1].content.sequence
  }

  function FindPublication(entries: seq<Entry>, id: string): Option<Entry> {
    if entries == [] then None
    else if entries[0].content.publicationId == id then Some(entries[0])
    else FindPublication(entries[1..], id)
  }

  function EntryFor(w: World, entries: seq<Entry>, d: Draft, id: string, acceptedAt: int): Entry
    requires d.kind.Some? && d.severity.Some?
  {
    var c := AnnouncementContent(
      w.scope, HeadSequence(entries) + 1, id, d.publicationId, d.kind.value, d.severity.value, d.publishedAt,
      d.expiresAt, ContentHash(w, d), LinksHash(w, d), ManifestHash(w, d.manifest), HeadHash(entries), acceptedAt,
      w.keyId);
    var hash := Digest(w.g, AnnouncementMessage(c));
    Entry(c, hash, SignatureOn(w, hash), d.titleKey, d.bodyKey, d.localizations, d.links, d.manifest,
          ChannelOf(d.manifest), DraftHash(w, d))
  }

  predicate NewEntry(entries: seq<Entry>, e: Entry) {
    forall i :: 0 <= i < |entries| ==>
      && entries[i].content.announcementId != e.content.announcementId
      && entries[i].announcementHash != e.announcementHash
  }

  datatype Publication = Publication(entry: Entry, duplicate: bool, entries: seq<Entry>)

  /** Append a normalized draft, or return the entry that its publication ID already has. */
  function Append(w: World, entries: seq<Entry>, d: Draft, id: string, acceptedAt: int): Result<Publication>
    requires d.kind.Some? && d.severity.Some?
  {
    match FindPublication(entries, d.publicationId)
    case Some(e) => if e.draftHash == DraftHash(w, d) then Ok(Publication(e, true, entries)) else Err(Conflict)
    case None =>
      if acceptedAt < w.createdAt then Err(AcceptedAtBeforeIdentity)
      else if entries != [] && acceptedAt < entries[|entries| - 1].content.acceptedAt then Err(ClockBeforeHead)
      else
        var e := EntryFor(w, entries, d, id, acceptedAt);
        if !NewEntry(entries, e) then Err(UniqueViolation) else Ok(Publication(e, false, entries + [e]))
  }

  /** A possible outcome of publishing a draft: normalized, then appended. */
  ghost predicate Publishes(w: World, entries: seq<Entry>, d: Draft, id: string, acceptedAt: int,
                            r: Result<Publication>)
  {
    exists n :: Normalizes(w.patterns, d, n) &&
      r == match n
           case None => Err(InvalidDraft)
           case Some(v) =>
             if id !in w.announcementIds then Err(InvalidId)
             else if v.kind.Some? && v.severity.Some? then Append(w, entries, v, id, acceptedAt) else Err(InvalidDraft)
  }

  class Store {
    const w: World
    var entries: seq<Entry>

    constructor (w: World)
      ensures entries == [] && this.w == w
    {
      this.w := w;
      entries := [];
    }

    method Publish(d: Draft, id: string, acceptedAt: int) returns (r: Result<Entry>, duplicate: bool)
      modifies this
      ensures r.Ok? ==> Publishes(w, old(entries), d, id, acceptedAt, Ok(Publication(r.value, duplicate, entries)))
      ensures r.Err? ==> Publishes(w, old(entries), d, id, acceptedAt, Err(r.error)) && entries == old(entries)
    {
      var n := ValidateAndNormalize(w.patterns, d);
      if n.None? {
        return Err(InvalidDraft), false;
      }
      var v := n.value;
      if id !in w.announcementIds {
        return Err(InvalidId), false;
      }
      var existing := FindPublication(entries, v.publicationId);
      if existing.Some? {
        if existing.value.draftHash != DraftHash(w, v) {
          return Err(Conflict), false;
        }
        return Ok(existing.value), true;
      }
      if acceptedAt < w.createdAt {
        return Err(AcceptedAtBeforeIdentity), false;
      }
      if entries != [] && acceptedAt < entries[|entries| - 1].content.acceptedAt {
        return Err(ClockBeforeHead), false;
      }
      var e := EntryFor(w, entries, v, id, acceptedAt);
      if !NewEntry(entries, e) {
        return Err(UniqueViolation), false;
      }
      entries := entries + [e];
      return Ok(e), false;
    }

    method VerifyAnnouncements() returns (ok: bool)
      ensures ok <==> ChainVerifies(w, entries)
    {
      var i, previousHash := 0, ZERO_HASH;
      while i < |entries|
        invariant 0 <= i <= |entries| && previousHash == HeadHash(entries[..i])
        invariant forall k :: 0 <= k < i ==> Linked(w, entries, k)
      {
        var e := entries[i];
        if e.content.sequence != i + 1 || e.content.announcementId !in w.announcementIds
           || e.content.scope != w.scope || e.content.registryKeyId != w.keyId
           || e.content.previousAnnouncementHash != previousHash
           || (i > 0 && e.content.acceptedAt < entries[i - 1].content.acceptedAt)
           || !ContentsVerify(w, e) {
          assert !Linked(w, entries, i);
          return false;
        }
        PrefixNext(entries, i);
        previousHash := e.announcementHash;
        i := i + 1;
      }
      return true;
    }
  }

  // ---------------------------------------------------------------- the chain

  /** The nested hashes, the publication hash, the chain hash and the signature of one entry. */
  predicate ContentsVerify(w: World, e: Entry) {
    var c := e.content;
    && c.contentHash == w.nested[ContentOf(e.titleKey, e.bodyKey, e.localizations)]
    && c.linksHash == w.nested[LinksOf(e.links)] && c.updateManifestHash == ManifestHash(w, e.manifest)
    && e.updateChannel == ChannelOf(e.manifest)
    && e.draftHash == w.nested[DraftOf(c.publicationId, c.kind, c.severity, c.publishedAt, c.expiresAt, c.contentHash,
                                       c.linksHash, c.updateManifestHash)]
    && e.announcementHash == Digest(w.g, AnnouncementMessage(c)) && e.signature == SignatureOn(w, e.announcementHash)
    && (c.kind == Update) == e.manifest.Some?
  }

  predicate Linked(w: World, entries: seq<Entry>, i: nat)
    requires i < |entries|
  {
    var e := entries[i];
    && e.content.sequence == i + 1 && e.content.announcementId in w.announcementIds
    && e.content.scope == w.scope && e.content.registryKeyId == w.keyId
    && e.content.previousAnnouncementHash == HeadHash(entries[..i])
    && (i > 0 ==> entries[i - 1].content.acceptedAt <= e.content.acceptedAt)
    && ContentsVerify(w, e)
  }

  ghost predicate ChainVerifies(w: World, entries: seq<Entry>) {
    forall i :: 0 <= i < |entries| ==> Linked(w, entries, i)
  }

  lemma EntryLinked(w: World, entries: seq<Entry>, n: Draft, id: string, acceptedAt: int)
    requires ChainVerifies(w, entries) && n.kind.Some? && n.severity.Some?
    requires (n.kind == Some(Update)) == n.manifest.Some?
    requires id in w.announcementIds
    requires entries != [] ==> entries[|entries| - 1].content.acceptedAt <= acceptedAt
    ensures Linked(w, entries + [EntryFor(w, entries, n, id, acceptedAt)], |entries|)
  {
    var e := EntryFor(w, entries, n, id, acceptedAt);
    assert (entries + [e])[..|entries|] == entries;
    if entries != [] {
      assert Linked(w, entries, |entries| - 1);
    }
  }

  lemma ChainAppend(w: World, entries: seq<Entry>, e: Entry)
    requires ChainVerifies(w, entries) && Linked(w, entries + [e], |entries|)
    ensures ChainVerifies(w, entries + [e])
  {
    forall i | 0 <= i < |entries|
      ensures Linked(w, entries + [e], i)
    {
      assert Linked(w, entries, i);
      assert (entries + [e])[..i] == entries[..i];
    }
  }

  /** Publishing only adds to the chain, and the chain keeps verifying. */
  lemma PublishKeepsChain(w: World, entries: seq<Entry>, d: Draft, id: string, acceptedAt: int, r: Result<Publication>)
    requires ChainVerifies(w, entries) && Publishes(w, entries, d, id, acceptedAt, r) && r.Ok?
    ensures entries <= r.value.entries && ChainVerifies(w, r.value.entries)
  {
    var n :| Normalizes(w.patterns, d, Some(n)) && id in w.announcementIds && n.kind.Some? && n.severity.Some?
             && r == Append(w, entries, n, id, acceptedAt);
    if !r.value.duplicate {
      NormalizedManifest(w.patterns, d, n);
      EntryLinked(w, entries, n, id, acceptedAt);
      ChainAppend(w, entries, EntryFor(w, entries, n, id, acceptedAt));
    }
  }

  lemma NormalizedManifest(p: Patterns, d: Draft, n: Draft)
    requires Normalizes(p, d, Some(n))
    ensures n.kind.Some? && n.severity.Some? && (n.kind == Some(Update)) == n.manifest.Some?
    ensures n.publicationId == d.publicationId
  {
  }

  lemma {:induction false} FindAppended(entries: seq<Entry>, e: Entry)
    requires FindPublication(entries, e.content.publicationId).None?
    ensures FindPublication(entries + [e], e.content.publicationId) == Some(e)
  {
    if entries != [] {
      assert (entries + [e])[1..] == entries[1..] + [e];
      FindAppended(entries[1..], e);
    }
  }

  lemma {:induction false} FindStays(a: seq<Entry>, b: seq<Entry>, id: string)
    requires a <= b && FindPublication(a, id).Some?
    ensures FindPublication(b, id) == FindPublication(a, id)
  {
    if a[0].content.publicationId != id {
      FindStays(a[1..], b[1..], id);
    }
  }

  /** A published draft is found under its publication ID, with its hash. */
  lemma PublishedIsFound(w: World, entries: seq<Entry>, n: Draft, id: string, acceptedAt: int)
    requires n.kind.Some? && n.severity.Some? && Append(w, entries, n, id, acceptedAt).Ok?
    ensures var p := Append(w, entries, n, id, acceptedAt).value;
            FindPublication(p.entries, n.publicationId) == Some(p.entry) && p.entry.draftHash == DraftHash(w, n)
  {
    if FindPublication(entries, n.publicationId).None? {
      FindAppended(entries, EntryFor(w, entries, n, id, acceptedAt));
    }
  }

  /**
    Publishing again a draft that differs only in the order of its localizations and links returns the
    first entry as a duplicate and appends nothing, at any later time and with any new ID.
  */
  lemma RepublishIsDuplicate(w: World, entries: seq<Entry>, d: Draft, id: string, acceptedAt: int,
                             r: Result<Publication>,
                             later: seq<Entry>, e: Draft, newId: string, newTime: int, q: Result<Publication>)
    requires Publishes(w, entries, d, id, acceptedAt, r) && r.Ok? && r.value.entries <= later
    requires Permuted(d, e) && newId in w.announcementIds && Publishes(w, later, e, newId, newTime, q)
    ensures q == Ok(Publication(r.value.entry, true, later))
  {
    var n :| Normalizes(w.patterns, d, Some(n)) && id in w.announcementIds && n.kind.Some? && n.severity.Some?
             && r == Append(w, entries, n, id, acceptedAt);
    PublishedIsFound(w, entries, n, id, acceptedAt);
    FindStays(r.value.entries, later, n.publicationId);
    forall m | Normalizes(w.patterns, e, m)
      ensures m == Some(n)
    {
      OrderIndependent(w.patterns, d, e, Some(n), m);
    }
  }

  /** Contents with equal hashes are equal, for the entries of two chains, and none hashes to the zero hash. */
  ghost predicate ChainsApart(w: World, a: seq<Entry>, b: seq<Entry>) {
    && (forall i, j :: 0 <= i < |a| && 0 <= j < |b| ==>
          Apart(w.g, AnnouncementMessage(a[i].content), AnnouncementMessage(b[j].content)))
    && (forall i :: 0 <= i < |a| ==> a[i].announcementHash != ZERO_HASH)
    && (forall i :: 0 <= i < |b| ==> b[i].announcementHash != ZERO_HASH)
  }

  lemma SameAt(w: World, a: seq<Entry>, b: seq<Entry>, i: nat)
    requires i < |a| && i < |b| && Linked(w, a, i) && Linked(w, b, i) && a[i].announcementHash == b[i].announcementHash
    requires Apart(w.g, AnnouncementMessage(a[i].content), AnnouncementMessage(b[i].content))
    ensures a[i].content == b[i].content
    ensures i > 0 ==> a[i - 1].announcementHash == b[i - 1].announcementHash
  {
  }

  lemma {:induction false} SameBelow(w: World, a: seq<Entry>, b: seq<Entry>, i: nat)
    requires ChainVerifies(w, a) && ChainVerifies(w, b) && ChainsApart(w, a, b)
    requires i < |a| && i < |b| && a[i].announcementHash == b[i].announcementHash
    ensures forall k :: 0 <= k <= i ==> a[k].content == b[k].content
  {
    hide Linked, Apart;
    assert Linked(w, a, i) && Linked(w, b, i);
    assert Apart(w.g, AnnouncementMessage(a[i].content), AnnouncementMessage(b[i].content));
    SameAt(w, a, b, i);
    if i > 0 {
      SameBelow(w, a, b, i - 1);
    }
  }

  /** The head hash fixes the history: two accepted chains with one head have the same entries. */
  lemma HeadFixesHistory(w: World, a: seq<Entry>, b: seq<Entry>)
    requires ChainVerifies(w, a) && ChainVerifies(w, b) && ChainsApart(w, a, b) && HeadHash(a) == HeadHash(b)
    ensures |a| == |b| && forall k :: 0 <= k < |a| ==> a[k].content == b[k].content
  {
    var m, n := |a|, |b|;
    if m > 0 && n > 0 {
      assert Linked(w, a, m - 1) && Linked(w, b, n - 1);
      assert Apart(w.g, AnnouncementMessage(a[m - 1].content), AnnouncementMessage(b[n - 1].content));
      SameBelow(w, a, b, m - 1);
    }
  }
}
