/**
  Announcement drafts: validation and normalization before publication.

  Drafts that differ only in the order of their localizations or links are the same publication.
*/
module AnnouncementDraft {
  import opened Basics
  import opened Protocol
  import opened KeyedOrder

  datatype Localization = Localization(locale: string, title: string, body: string)

  datatype Link = Link(relation: string, url: string)

  /** `manifest` is the canonical text of an update manifest; its channel is kept for the feed. */
  datatype Manifest = Manifest(text: string, channel: string, publishedAt: int)

  /** `kind` and `severity` are absent when their texts are not known ones. */
  datatype Draft = Draft(
    protocolVersion: string, publicationId: string, kind: Option<AnnouncementKind>, severity: Option<Severity>,
    publishedAt: int, expiresAt: Option<int>, titleKey: string, bodyKey: string,
    localizations: seq<Localization>, links: seq<Link>, manifest: Option<Manifest>)

  /** The texts that match each pattern. */
  datatype Patterns = Patterns(
    tokens: iset<string>, keys: iset<string>, locales: iset<string>, titles: iset<string>, bodies: iset<string>,
    relations: iset<string>, urls: iset<string>, manifests: iset<Manifest>)

  const MAX_LOCALIZATIONS: nat := 16
  const MAX_LINKS: nat := 8

  function LocaleKey(l: Localization): Key { Key(l.locale, "") }

  function LinkKey(l: Link): Key { Key(l.relation, l.url) }

  // ---------------------------------------------------------------- the checks

  predicate HeadValid(p: Patterns, d: Draft) {
    && d.protocolVersion == "1" && d.publicationId in p.tokens && d.kind.Some? && d.severity.Some?
    && (d.expiresAt.Some? ==> d.expiresAt.value > d.publishedAt)
  }

  predicate KeysMode(d: Draft) { d.titleKey != "" || d.bodyKey != "" }

  /** Either keys or localized texts, and not both. */
  predicate ModesValid(p: Patterns, d: Draft) {
    && KeysMode(d) == (d.localizations == [])
    && (KeysMode(d) ==> d.titleKey in p.keys && d.bodyKey in p.keys)
    && |d.localizations| <= MAX_LOCALIZATIONS
  }

  predicate LocalizationValid(p: Patterns, l: Localization) {
    l.locale in p.locales && l.title in p.titles && l.body in p.bodies
  }

  /** The checks of the loop over the sorted localizations. */
  predicate LocalizationsValid(p: Patterns, s: seq<Localization>) {
    (forall i :: 0 <= i < |s| ==> LocalizationValid(p, s[i])) && NeighboursDiffer(LocaleKey, s)
  }

  predicate LinkValid(p: Patterns, l: Link) { l.relation in p.relations && l.url in p.urls }

  predicate LinksValid(p: Patterns, s: seq<Link>) {
    (forall i :: 0 <= i < |s| ==> LinkValid(p, s[i])) && NeighboursDiffer(LinkKey, s)
  }

  predicate ManifestValid(p: Patterns, d: Draft) {
    if d.kind == Some(Update) then
      d.manifest.Some? && d.manifest.value in p.manifests && d.manifest.value.publishedAt == d.publishedAt
    else d.manifest.None?
  }

  /** The answer once both lists are sorted. */
  function Checked(p: Patterns, d: Draft, localizations: seq<Localization>, links: seq<Link>): Option<Draft> {
    if HeadValid(p, d) && ModesValid(p, d) && LocalizationsValid(p, localizations) && |links| <= MAX_LINKS
       && LinksValid(p, links) && ManifestValid(p, d) then
      Some(d.(localizations := localizations, links := links))
    else None
  }

  /** `s` is `t` in the order of its keys; equal keys may come in any order. */
  ghost predicate SortOf<T>(key: T -> Key, s: seq<T>, t: seq<T>) {
    multiset(s) == multiset(t) && Ordered(key, s)
  }

  /** A possible result of normalizing `d`, whatever the sort does with equal keys. */
  ghost predicate Normalizes(p: Patterns, d: Draft, r: Option<Draft>) {
    exists localizations, links ::
      && SortOf(LocaleKey, localizations, d.localizations) && SortOf(LinkKey, links, d.links)
      && r == Checked(p, d, localizations, links)
  }

  method ValidateAndNormalize(p: Patterns, d: Draft) returns (r: Option<Draft>)
    ensures Normalizes(p, d, r)
  {
    var localizations := Sort(LocaleKey, d.localizations);
    var links := Sort(LinkKey, d.links);
    r := Checked(p, d, localizations, links);
  }

  // ---------------------------------------------------------------- order independence

  lemma SortsAgree<T>(key: T -> Key, s: seq<T>, t: seq<T>)
    requires multiset(s) == multiset(t) && Ordered(key, s) && Ordered(key, t)
    ensures NeighboursDiffer(key, s) <==> NeighboursDiffer(key, t)
    ensures NeighboursDiffer(key, s) ==> s == t
  {
    NeighboursSuffice(key, s);
    NeighboursSuffice(key, t);
    if KeysDiffer(key, s) {
      KeysDifferPermuted(key, s, t);
      OneOrder(key, s, t);
    } else if KeysDiffer(key, t) {
      KeysDifferPermuted(key, t, s);
    }
  }

  lemma LocalizationsAgree(p: Patterns, s: seq<Localization>, t: seq<Localization>)
    requires multiset(s) == multiset(t) && Ordered(LocaleKey, s) && Ordered(LocaleKey, t)
    ensures LocalizationsValid(p, s) == LocalizationsValid(p, t) && (LocalizationsValid(p, s) ==> s == t)
  {
    SortsAgree(LocaleKey, s, t);
  }

  lemma LinksAgree(p: Patterns, s: seq<Link>, t: seq<Link>)
    requires multiset(s) == multiset(t) && Ordered(LinkKey, s) && Ordered(LinkKey, t)
    ensures LinksValid(p, s) == LinksValid(p, t) && (LinksValid(p, s) ==> s == t)
  {
    SortsAgree(LinkKey, s, t);
  }

  /** The drafts differ only in the order of their localizations and links. */
  ghost predicate Permuted(d: Draft, e: Draft) {
    && multiset(d.localizations) == multiset(e.localizations) && multiset(d.links) == multiset(e.links)
    && d == e.(localizations := d.localizations, links := d.links)
  }

  /** What is asked of a draft besides its lists does not depend on their order. */
  lemma HeadsAgree(p: Patterns, d: Draft, e: Draft)
    requires Permuted(d, e)
    ensures HeadValid(p, d) == HeadValid(p, e) && ModesValid(p, d) == ModesValid(p, e)
    ensures ManifestValid(p, d) == ManifestValid(p, e)
  {
    SameLength(d.localizations, e.localizations);
    assert d.localizations == [] <==> e.localizations == [];
  }

  /** Permuted drafts are both rejected, or both normalize to the same draft. */
  lemma OrderIndependent(p: Patterns, d: Draft, e: Draft, r: Option<Draft>, q: Option<Draft>)
    requires Permuted(d, e) && Normalizes(p, d, r) && Normalizes(p, e, q)
    ensures r == q
  {
    hide HeadValid, ModesValid, ManifestValid, LocalizationsValid, LinksValid;
    var dl, dk :| SortOf(LocaleKey, dl, d.localizations) && SortOf(LinkKey, dk, d.links) && r == Checked(p, d, dl, dk);
    var el, ek :| SortOf(LocaleKey, el, e.localizations) && SortOf(LinkKey, ek, e.links) && q == Checked(p, e, el, ek);
    LocalizationsAgree(p, dl, el);
    LinksAgree(p, dk, ek);
    SameLength(dk, ek);
    HeadsAgree(p, d, e);
  }

  /** A normalized draft has globally unique locales and links, in order, and normalizes to itself. */
  lemma NormalizedIsUnique(p: Patterns, d: Draft, r: Draft)
    requires Normalizes(p, d, Some(r))
    ensures Permuted(d, r) && KeysDiffer(LocaleKey, r.localizations) && KeysDiffer(LinkKey, r.links)
    ensures Normalizes(p, r, Some(r))
  {
    var dl, dk :| SortOf(LocaleKey, dl, d.localizations) && SortOf(LinkKey, dk, d.links)
                  && Some(r) == Checked(p, d, dl, dk);
    NeighboursSuffice(LocaleKey, dl);
    NeighboursSuffice(LinkKey, dk);
    SameLength(dl, d.localizations);
    assert SortOf(LocaleKey, dl, r.localizations) && SortOf(LinkKey, dk, r.links);
    assert Checked(p, r, dl, dk) == Some(r);
  }
}
