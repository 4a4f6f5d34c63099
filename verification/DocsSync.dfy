/** `sync_docs`: make the forum hold every docs page, with its links resolved, and then
    change nothing on the next run. */
module DocsSync {
  import opened Basics

  datatype Doc = Doc(externalId: string, relKey: string, title: string, section: string, body: string)

  /** A page to publish under an external id: a section index, or a doc in its final form. */
  datatype Page = Page(externalId: string, title: string, body: string, category: int)

  datatype Rewrite = Rewrite(body: string, changed: nat)

  type Urls = map<string, string>

  /** A topic as the forum keeps it. Its number names its first post too. */
  datatype Topic = Topic(slug: string, title: string, raw: string, category: int)

  /** The site's own functions, each deterministic: image and link rewriting, index building,
      categories, topic URLs, the title clean-up of the forum and the trimming of bodies. */
  datatype Site = Site(prepare: Doc -> string,
                       rewriteLinks: (Doc, string, Urls) -> Rewrite,
                       indexPages: (seq<Doc>, Urls) -> seq<Page>,
                       category: Doc -> int,
                       url: (string, nat) -> string,
                       prettified: string -> string,
                       strip: string -> string)
  {
    /** A rewrite that changed no link left the body alone. */
    ghost predicate Valid() {
      forall d, body, urls :: rewriteLinks(d, body, urls).changed == 0 ==> rewriteLinks(d, body, urls).body == body
    }

    /** Every page has its own external id. */
    ghost predicate Distinct(docs: seq<Doc>) {
      && (forall i, j | 0 <= i < j < |docs| :: docs[i].externalId != docs[j].externalId)
      && (forall urls, i, j | 0 <= i < j < |indexPages(docs, urls)| ::
            indexPages(docs, urls)[i].externalId != indexPages(docs, urls)[j].externalId)
      && (forall urls, i, j | 0 <= i < |docs| && 0 <= j < |indexPages(docs, urls)| ::
            docs[i].externalId != indexPages(docs, urls)[j].externalId)
    }

    /** `title_matches`. */
    predicate TitleMatches(existing: string, expected: string) {
      existing == expected || existing == prettified(expected)
    }

    /** The negation of `_content_changed`, on a real run. */
    predicate Current(t: Topic, title: string, raw: string, category: int) {
      t.category == category && TitleMatches(t.title, title) && strip(t.raw) == strip(raw)
    }

    function Final(d: Doc, urls: Urls): Rewrite { rewriteLinks(d, prepare(d), urls) }
  }

  /** How the forum stores what it is sent, write by write: a title verbatim or prettified, a
      body up to outer whitespace, and a slug of its own choosing. */
  datatype Habits = Habits(title: (nat, string) -> string, raw: (nat, string) -> string, slug: nat -> string)
  {
    ghost predicate Valid(site: Site) {
      && (forall n, t :: title(n, t) == t || title(n, t) == site.prettified(t))
      && (forall n, r :: site.strip(raw(n, r)) == site.strip(r))
    }
  }

  class Forum {
    const habits: Habits
    var ids: map<string, nat>
    var topics: map<nat, Topic>
    var nextId: nat
    var writes: nat

    ghost predicate Valid()
      reads this
    {
      && (forall e | e in ids :: ids[e] in topics)
      && (forall n | n in topics :: n < nextId)
      && (forall e, f | e in ids && f in ids && ids[e] == ids[f] :: e == f)
    }

    constructor (h: Habits)
      ensures habits == h && ids == map[] && topics == map[] && nextId == 0 && writes == 0 && Valid()
    {
      habits, ids, topics, nextId, writes := h, map[], map[], 0, 0;
    }

    function Stored(n: nat, slug: string, title: string, raw: string, category: int): Topic {
      Topic(slug, habits.title(n, title), habits.raw(n, raw), category)
    }

    /** `create_topic`. */
    method Create(externalId: string, title: string, raw: string, category: int) returns (id: nat)
      requires Valid() && externalId !in ids
      modifies this
      ensures Valid() && writes == old(writes) + 1
      ensures id == old(nextId) && ids == old(ids)[externalId := id]
      ensures topics == old(topics)[id := Stored(old(writes), habits.slug(id), title, raw, category)]
    {
      id := nextId;
      nextId := nextId + 1;
      ids := ids[externalId := id];
      topics := topics[id := Stored(writes, habits.slug(id), title, raw, category)];
      writes := writes + 1;
    }

    /** `update_topic`: the slug stays. */
    method Update(id: nat, title: string, raw: string, category: int)
      requires Valid() && id in topics
      modifies `topics, `writes
      ensures Valid() && writes == old(writes) + 1
      ensures topics == old(topics)[id := Stored(old(writes), old(topics)[id].slug, title, raw, category)]
    {
      topics := topics[id := Stored(writes, topics[id].slug, title, raw, category)];
      writes := writes + 1;
    }
  }

  // ---- In sync ----

  type Ids = map<string, nat>
  type Topics = map<nat, Topic>

  predicate HasTopic(ids: Ids, topics: Topics, e: string) { e in ids && ids[e] in topics }

  /** Every doc's path, and no other, has the URL of the topic of the last doc at that path. */
  ghost predicate UrlsAre(site: Site, ids: Ids, topics: Topics, docs: seq<Doc>, urls: Urls) {
    && (forall i | 0 <= i < |docs| :: HasTopic(ids, topics, docs[i].externalId) && docs[i].relKey in urls)
    && (forall i | 0 <= i < |docs| && IsLast(docs, i) ::
          urls[docs[i].relKey] == site.url(topics[ids[docs[i].externalId]].slug, ids[docs[i].externalId]))
    && (forall k | k in urls :: exists i :: 0 <= i < |docs| && docs[i].relKey == k)
  }

  predicate IsLast(docs: seq<Doc>, i: nat)
    requires i < |docs|
  {
    forall j | i < j < |docs| :: docs[j].relKey != docs[i].relKey
  }

  /** The page has a topic in its category, with its title as given or prettified, and with its body
      up to outer whitespace. */
  predicate Shows(site: Site, ids: Ids, topics: Topics, p: Page) {
    && HasTopic(ids, topics, p.externalId)
    && (var t := topics[ids[p.externalId]];
        && t.category == p.category && (t.title == p.title || t.title == site.prettified(p.title))
        && site.strip(t.raw) == site.strip(p.body))
  }

  /** The forum shows every doc, prepared and its links rewritten, and every index. */
  ghost predicate ShowsAll(site: Site, ids: Ids, topics: Topics, docs: seq<Doc>, urls: Urls) {
    && UrlsAre(site, ids, topics, docs, urls)
    && (forall i | 0 <= i < |docs| ::
          var d := docs[i];
          Shows(site, ids, topics,
                Page(d.externalId, d.title, site.rewriteLinks(d, site.prepare(d), urls).body, site.category(d))))
    && (forall i | 0 <= i < |site.indexPages(docs, urls)| :: Shows(site, ids, topics, site.indexPages(docs, urls)[i]))
  }

  /** The URL of every doc's topic, under its path; of two docs at one path the later counts. */
  function UrlMap(site: Site, ids: map<string, nat>, topics: map<nat, Topic>, docs: seq<Doc>): Urls {
    if docs == [] then map[]
    else
      var d := docs[|docs| - 1];
      var prior := UrlMap(site, ids, topics, docs[..|docs| - 1]);
      if d.externalId in ids && ids[d.externalId] in topics
      then prior[d.relKey := site.url(topics[ids[d.externalId]].slug, ids[d.externalId])]
      else prior
  }

  /** The page has a topic, and it needs no update. */
  predicate PageCurrent(site: Site, ids: Ids, topics: Topics, p: Page) {
    && p.externalId in ids && ids[p.externalId] in topics
    && site.Current(topics[ids[p.externalId]], p.title, p.body, p.category)
  }

  function PageOf(site: Site, d: Doc, urls: Urls): Page {
    Page(d.externalId, d.title, site.Final(d, urls).body, site.category(d))
  }

  /** Every doc has a topic with its final body, title and category, and so has every index. */
  ghost predicate Published(site: Site, ids: Ids, topics: Topics, docs: seq<Doc>, urls: Urls) {
    && (forall i | 0 <= i < |docs| :: PageCurrent(site, ids, topics, PageOf(site, docs[i], urls)))
    && (forall i | 0 <= i < |site.indexPages(docs, urls)| ::
         PageCurrent(site, ids, topics, site.indexPages(docs, urls)[i]))
  }

  /** The same, with the URLs the topics themselves have. */
  ghost predicate InSync(site: Site, ids: Ids, topics: Topics, docs: seq<Doc>) {
    Published(site, ids, topics, docs, UrlMap(site, ids, topics, docs))
  }

  lemma CurrentShows(site: Site, ids: Ids, topics: Topics, p: Page)
    ensures PageCurrent(site, ids, topics, p) <==> Shows(site, ids, topics, p)
  {}

  lemma {:induction false} UrlAt(site: Site, ids: Ids, topics: Topics, docs: seq<Doc>, i: nat)
    requires i < |docs| && HasTopic(ids, topics, docs[i].externalId) && IsLast(docs, i)
    ensures var urls := UrlMap(site, ids, topics, docs);
            && docs[i].relKey in urls
            && urls[docs[i].relKey] == site.url(topics[ids[docs[i].externalId]].slug, ids[docs[i].externalId])
  {
    var n := |docs| - 1;
    if i < n {
      assert docs[..n][i] == docs[i] && docs[n].relKey != docs[i].relKey;
      UrlAt(site, ids, topics, docs[..n], i);
    }
  }

  lemma {:induction false} UrlKey(site: Site, ids: Ids, topics: Topics, docs: seq<Doc>, k: string) returns (i: nat)
    requires k in UrlMap(site, ids, topics, docs)
    ensures i < |docs| && docs[i].relKey == k
  {
    i := |docs| - 1;
    if docs[i].relKey != k { i := UrlKey(site, ids, topics, docs[..i], k); }
  }

  lemma UrlMapIs(site: Site, ids: Ids, topics: Topics, docs: seq<Doc>)
    requires forall i | 0 <= i < |docs| :: HasTopic(ids, topics, docs[i].externalId)
    ensures UrlsAre(site, ids, topics, docs, UrlMap(site, ids, topics, docs))
  {
    var urls := UrlMap(site, ids, topics, docs);
    forall i: nat | i < |docs| && IsLast(docs, i)
      ensures docs[i].relKey in urls
      ensures urls[docs[i].relKey] == site.url(topics[ids[docs[i].externalId]].slug, ids[docs[i].externalId])
    {
      UrlAt(site, ids, topics, docs, i);
    }
    forall i: nat | i < |docs| ensures docs[i].relKey in urls {
      var j := LastAt(docs, docs[i].relKey, i);
      UrlAt(site, ids, topics, docs, j);
    }
    forall k | k in urls ensures exists i :: 0 <= i < |docs| && docs[i].relKey == k {
      var i := UrlKey(site, ids, topics, docs, k);
    }
  }

  /** The last doc at a path. */
  lemma {:induction false} LastAt(docs: seq<Doc>, k: string, i: nat) returns (j: nat)
    requires i < |docs| && docs[i].relKey == k
    ensures j < |docs| && docs[j].relKey == k && IsLast(docs, j)
    decreases |docs| - i
  {
    if m: nat :| i < m < |docs| && docs[m].relKey == k { j := LastAt(docs, k, m); } else { j := i; }
  }

  /** These URLs are the only ones of the kind. */
  lemma UrlsAreUnique(site: Site, ids: Ids, topics: Topics, docs: seq<Doc>, urls: Urls)
    requires UrlsAre(site, ids, topics, docs, urls)
    ensures urls == UrlMap(site, ids, topics, docs)
  {
    UrlMapIs(site, ids, topics, docs);
    var other := UrlMap(site, ids, topics, docs);
    forall k ensures k in urls <==> k in other
             ensures k in urls && k in other ==> urls[k] == other[k] {
      if k in urls || k in other {
        var i :| 0 <= i < |docs| && docs[i].relKey == k;
        var j := LastAt(docs, k, i);
      }
    }
  }

  /** In sync means just that, for the URLs the topics have. */
  lemma InSyncMeans(site: Site, ids: Ids, topics: Topics, docs: seq<Doc>)
    ensures InSync(site, ids, topics, docs) <==> ShowsAll(site, ids, topics, docs, UrlMap(site, ids, topics, docs))
    ensures forall urls :: ShowsAll(site, ids, topics, docs, urls) ==> InSync(site, ids, topics, docs)
  {
    if InSync(site, ids, topics, docs) { InSyncShows(site, ids, topics, docs); }
    forall u | ShowsAll(site, ids, topics, docs, u) ensures InSync(site, ids, topics, docs) {
      UrlsAreUnique(site, ids, topics, docs, u);
      ShowsInSync(site, ids, topics, docs, u);
    }
  }

  lemma InSyncShows(site: Site, ids: Ids, topics: Topics, docs: seq<Doc>)
    requires InSync(site, ids, topics, docs)
    ensures ShowsAll(site, ids, topics, docs, UrlMap(site, ids, topics, docs))
  {
    var urls := UrlMap(site, ids, topics, docs);
    forall i | 0 <= i < |docs| ensures Shows(site, ids, topics, PageOf(site, docs[i], urls)) {
      assert PageCurrent(site, ids, topics, PageOf(site, docs[i], urls));
      CurrentShows(site, ids, topics, PageOf(site, docs[i], urls));
    }
    forall i | 0 <= i < |docs| ensures HasTopic(ids, topics, docs[i].externalId) {
      assert Shows(site, ids, topics, PageOf(site, docs[i], urls));
    }
    UrlMapIs(site, ids, topics, docs);
  }

  lemma ShowsInSync(site: Site, ids: Ids, topics: Topics, docs: seq<Doc>, urls: Urls)
    requires ShowsAll(site, ids, topics, docs, urls) && urls == UrlMap(site, ids, topics, docs)
    ensures InSync(site, ids, topics, docs)
  {
    forall i | 0 <= i < |docs| ensures PageCurrent(site, ids, topics, PageOf(site, docs[i], urls)) {
      CurrentShows(site, ids, topics, PageOf(site, docs[i], urls));
    }
  }

  /** Slugs and ids decide the URLs; titles, bodies and new topics do not. */
  lemma {:induction false} SameUrls(site: Site, ids: map<string, nat>, topics: map<nat, Topic>,
                                    ids': map<string, nat>, topics': map<nat, Topic>, docs: seq<Doc>)
    requires forall i | 0 <= i < |docs| ::
               var e := docs[i].externalId;
               && e in ids && ids[e] in topics && e in ids' && ids'[e] == ids[e] && ids[e] in topics'
               && topics'[ids[e]].slug == topics[ids[e]].slug
    ensures UrlMap(site, ids, topics, docs) == UrlMap(site, ids', topics', docs)
    decreases |docs|
  {
    if docs != [] { SameUrls(site, ids, topics, ids', topics', docs[..|docs| - 1]); }
  }

  /** A topic is there, under the id and slug it had, and unless it is one written, as it was. */
  ghost predicate Kept(ids: Ids, topics: Topics, ids': Ids, topics': Topics, e: string, written: bool) {
    e in ids && ids[e] in topics ==>
      && e in ids' && ids'[e] == ids[e] && ids[e] in topics'
      && topics'[ids[e]].slug == topics[ids[e]].slug
      && (!written ==> topics'[ids[e]] == topics[ids[e]])
  }

  predicate Is(e: string, written: string) { e == written }

  lemma KeptTwice(a: Ids, t: Topics, a': Ids, t': Topics, a'': Ids, t'': Topics, e: string, w: bool, w': bool)
    requires Kept(a, t, a', t', e, w) && Kept(a', t', a'', t'', e, w')
    ensures Kept(a, t, a'', t'', e, w || w')
  {}

  /** A page whose topic was not written is as current as it was. */
  lemma CurrentKept(site: Site, ids: Ids, topics: Topics, ids': Ids, topics': Topics, p: Page)
    requires PageCurrent(site, ids, topics, p) && Kept(ids, topics, ids', topics', p.externalId, false)
    ensures PageCurrent(site, ids', topics', p)
  {}

  /** Nothing was written. */
  twostate predicate Idle(f: Forum)
    reads f
  {
    f.ids == old(f.ids) && f.topics == old(f.topics) && f.writes == old(f.writes)
  }

  lemma StoredIsCurrent(site: Site, f: Forum, n: nat, slug: string, title: string, raw: string, category: int)
    requires f.habits.Valid(site)
    ensures site.Current(f.Stored(n, slug, title, raw, category), title, raw, category)
  {}

  /** `_sync_one`: create the page, update it, or leave it. */
  method SyncOne(site: Site, f: Forum, p: Page)
    requires f.Valid() && f.habits.Valid(site)
    modifies f
    ensures f.writes >= old(f.writes)
    ensures f.Valid() && PageCurrent(site, f.ids, f.topics, p)
    ensures forall e :: Kept(old(f.ids), old(f.topics), f.ids, f.topics, e, Is(e, p.externalId))
    ensures f.ids.Keys == old(f.ids.Keys) + {p.externalId}
    ensures Shows(site, f.ids, f.topics, p)
    ensures if Shows(site, old(f.ids), old(f.topics), p) then Idle(f) else f.writes == old(f.writes) + 1
  {
    if p.externalId !in f.ids {
      StoredIsCurrent(site, f, f.writes, f.habits.slug(f.nextId), p.title, p.body, p.category);
      var id := f.Create(p.externalId, p.title, p.body, p.category);
    } else {
      var id := f.ids[p.externalId];
      if !site.Current(f.topics[id], p.title, p.body, p.category) {
        StoredIsCurrent(site, f, f.writes, f.topics[id].slug, p.title, p.body, p.category);
        f.Update(id, p.title, p.body, p.category);
      }
    }
  }

  // ---- Pass 1: every doc has a topic ----

  /** What pass 1 knows of a doc: the topic it found, or that it made one with the draft body. */
  ghost predicate Drafted(site: Site, ids: Ids, topics: Topics, d: Doc, existing: Option<Topic>) {
    && d.externalId in ids && ids[d.externalId] in topics
    && (var t := topics[ids[d.externalId]];
        if existing.Some? then t == existing.value
        else site.Current(t, d.title, site.prepare(d), site.category(d)))
  }

  lemma DraftKept(site: Site, ids: Ids, topics: Topics, ids': Ids, topics': Topics, d: Doc, existing: Option<Topic>)
    requires Drafted(site, ids, topics, d, existing) && Kept(ids, topics, ids', topics', d.externalId, false)
    ensures Drafted(site, ids', topics', d, existing)
  {}

  ghost predicate DocOf(docs: seq<Doc>, e: string) {
    exists i :: 0 <= i < |docs| && docs[i].externalId == e
  }

  /** One doc: find its topic, or make one with the draft body. */
  method EnsureTopic(site: Site, f: Forum, d: Doc) returns (existing: Option<Topic>)
    requires f.Valid() && f.habits.Valid(site)
    modifies f
    ensures f.writes >= old(f.writes) && f.Valid()
    ensures Drafted(site, f.ids, f.topics, d, existing)
    ensures forall e :: Kept(old(f.ids), old(f.topics), f.ids, f.topics, e, false)
    ensures d.externalId in old(f.ids) ==> Idle(f) && existing.Some?
  {
    if d.externalId in f.ids {
      existing := Some(f.topics[f.ids[d.externalId]]);
    } else {
      var raw := site.prepare(d);
      StoredIsCurrent(site, f, f.writes, f.habits.slug(f.nextId), d.title, raw, site.category(d));
      var id := f.Create(d.externalId, d.title, raw, site.category(d));
      existing := None;
    }
  }

  method EnsureTopics(site: Site, f: Forum, docs: seq<Doc>) returns (existing: seq<Option<Topic>>)
    requires f.Valid() && f.habits.Valid(site)
    modifies f
    ensures f.writes >= old(f.writes)
    ensures f.Valid() && |existing| == |docs|
    ensures forall i | 0 <= i < |docs| :: Drafted(site, f.ids, f.topics, docs[i], existing[i])
    ensures forall e :: Kept(old(f.ids), old(f.topics), f.ids, f.topics, e, false)
    ensures (forall i | 0 <= i < |docs| :: docs[i].externalId in old(f.ids)) ==>
              Idle(f) && forall i | 0 <= i < |docs| :: existing[i].Some?
  {
    existing := [];
    ghost var ids0, topics0 := f.ids, f.topics;
    for i := 0 to |docs|
      invariant f.Valid() && |existing| == i && f.writes >= old(f.writes)
      invariant forall k | 0 <= k < i :: Drafted(site, f.ids, f.topics, docs[k], existing[k])
      invariant forall e :: Kept(ids0, topics0, f.ids, f.topics, e, false)
      invariant (forall k | 0 <= k < |docs| :: docs[k].externalId in ids0) ==>
                  Idle(f) && forall k | 0 <= k < i :: existing[k].Some?
    {
      ghost var ids1, topics1 := f.ids, f.topics;
      var found := EnsureTopic(site, f, docs[i]);
      forall k | 0 <= k < i ensures Drafted(site, f.ids, f.topics, docs[k], existing[k]) {
        DraftKept(site, ids1, topics1, f.ids, f.topics, docs[k], existing[k]);
      }
      forall e ensures Kept(ids0, topics0, f.ids, f.topics, e, false) {
        KeptTwice(ids0, topics0, ids1, topics1, f.ids, f.topics, e, false, false);
      }
      existing := existing + [found];
    }
  }

  // ---- Pass 2: the final bodies ----

  /** One doc settled: a topic just created needs a second write only if a link was rewritten. */
  method SettleOne(site: Site, f: Forum, d: Doc, existing: Option<Topic>, urls: Urls)
    requires f.Valid() && f.habits.Valid(site) && site.Valid() && Drafted(site, f.ids, f.topics, d, existing)
    modifies f`topics, f`writes
    ensures f.writes >= old(f.writes)
    ensures f.Valid() && PageCurrent(site, f.ids, f.topics, PageOf(site, d, urls))
    ensures forall e :: Kept(f.ids, old(f.topics), f.ids, f.topics, e, Is(e, d.externalId))
    ensures existing.Some? && PageCurrent(site, f.ids, old(f.topics), PageOf(site, d, urls)) ==> Idle(f)
  {
    var final := site.Final(d, urls);
    var id, category := f.ids[d.externalId], site.category(d);
    var write := if existing.None? then final.changed > 0
                 else !site.Current(existing.value, d.title, final.body, category);
    if write {
      StoredIsCurrent(site, f, f.writes, f.topics[id].slug, d.title, final.body, category);
      f.Update(id, d.title, final.body, category);
    }
  }

  /** The first `n` docs are settled and the others still as pass 1 left them. */
  ghost predicate Settled(site: Site, ids: Ids, topics: Topics, docs: seq<Doc>, existing: seq<Option<Topic>>,
                          urls: Urls, n: nat)
    requires |existing| == |docs|
  {
    && (forall k | 0 <= k < n && k < |docs| :: PageCurrent(site, ids, topics, PageOf(site, docs[k], urls)))
    && (forall k | n <= k < |docs| :: Drafted(site, ids, topics, docs[k], existing[k]))
  }

  lemma SettledNext(site: Site, ids: Ids, topics: Topics, topics': Topics, docs: seq<Doc>,
                    existing: seq<Option<Topic>>, urls: Urls, n: nat)
    requires n < |docs| == |existing| && Settled(site, ids, topics, docs, existing, urls, n)
    requires forall i, j | 0 <= i < j < |docs| :: docs[i].externalId != docs[j].externalId
    requires PageCurrent(site, ids, topics', PageOf(site, docs[n], urls))
    requires forall e :: Kept(ids, topics, ids, topics', e, Is(e, docs[n].externalId))
    ensures Settled(site, ids, topics', docs, existing, urls, n + 1)
  {
    forall k | 0 <= k < n ensures PageCurrent(site, ids, topics', PageOf(site, docs[k], urls)) {
      assert docs[k].externalId != docs[n].externalId;
      assert Kept(ids, topics, ids, topics', docs[k].externalId, Is(docs[k].externalId, docs[n].externalId));
    }
    forall k | n + 1 <= k < |docs| ensures Drafted(site, ids, topics', docs[k], existing[k]) {
      assert docs[k].externalId != docs[n].externalId;
      assert Kept(ids, topics, ids, topics', docs[k].externalId, Is(docs[k].externalId, docs[n].externalId));
      DraftKept(site, ids, topics, ids, topics', docs[k], existing[k]);
    }
  }

  method SettleAll(site: Site, f: Forum, docs: seq<Doc>, existing: seq<Option<Topic>>, urls: Urls)
    requires f.Valid() && f.habits.Valid(site) && site.Valid() && |existing| == |docs|
    requires forall i, j | 0 <= i < j < |docs| :: docs[i].externalId != docs[j].externalId
    requires Settled(site, f.ids, f.topics, docs, existing, urls, 0)
    modifies f`topics, f`writes
    ensures f.writes >= old(f.writes)
    ensures f.Valid() && Settled(site, f.ids, f.topics, docs, existing, urls, |docs|)
    ensures forall e :: Kept(f.ids, old(f.topics), f.ids, f.topics, e, DocOf(docs, e))
    ensures (forall i | 0 <= i < |docs| ::
              existing[i].Some? && PageCurrent(site, f.ids, old(f.topics), PageOf(site, docs[i], urls)))
            ==> Idle(f)
  {
    ghost var topics0 := f.topics;
    for i := 0 to |docs|
      invariant f.Valid() && f.writes >= old(f.writes)
      invariant Settled(site, f.ids, f.topics, docs, existing, urls, i)
      invariant forall e :: Kept(f.ids, topics0, f.ids, f.topics, e, DocOf(docs, e))
      invariant (forall k | 0 <= k < |docs| ::
                  existing[k].Some? && PageCurrent(site, f.ids, topics0, PageOf(site, docs[k], urls)))
                ==> Idle(f)
    {
      ghost var topics1 := f.topics;
      SettleOne(site, f, docs[i], existing[i], urls);
      SettledNext(site, f.ids, topics1, f.topics, docs, existing, urls, i);
      forall e ensures Kept(f.ids, topics0, f.ids, f.topics, e, DocOf(docs, e)) {
        KeptTwice(f.ids, topics0, f.ids, topics1, f.ids, f.topics, e, DocOf(docs, e), Is(e, docs[i].externalId));
      }
    }
  }

  // ---- Section indexes ----

  ghost predicate OneOf(pages: seq<Page>, e: string) {
    exists i :: 0 <= i < |pages| && pages[i].externalId == e
  }

  method SyncPages(site: Site, f: Forum, pages: seq<Page>)
    requires f.Valid() && f.habits.Valid(site)
    requires forall i, j | 0 <= i < j < |pages| :: pages[i].externalId != pages[j].externalId
    modifies f
    ensures f.writes >= old(f.writes)
    ensures f.Valid()
    ensures forall i | 0 <= i < |pages| :: PageCurrent(site, f.ids, f.topics, pages[i])
    ensures forall e :: Kept(old(f.ids), old(f.topics), f.ids, f.topics, e, OneOf(pages, e))
    ensures (forall i | 0 <= i < |pages| :: PageCurrent(site, old(f.ids), old(f.topics), pages[i])) ==> Idle(f)
  {
    ghost var ids0, topics0 := f.ids, f.topics;
    for i := 0 to |pages|
      invariant f.Valid() && f.writes >= old(f.writes)
      invariant forall k | 0 <= k < i :: PageCurrent(site, f.ids, f.topics, pages[k])
      invariant forall e :: Kept(ids0, topics0, f.ids, f.topics, e, OneOf(pages, e))
      invariant (forall k | 0 <= k < |pages| :: PageCurrent(site, ids0, topics0, pages[k])) ==> Idle(f)
    {
      ghost var ids1, topics1 := f.ids, f.topics;
      SyncOne(site, f, pages[i]);
      forall k | 0 <= k < i ensures PageCurrent(site, f.ids, f.topics, pages[k]) {
        assert pages[k].externalId != pages[i].externalId;
        assert Kept(ids1, topics1, f.ids, f.topics, pages[k].externalId, Is(pages[k].externalId, pages[i].externalId));
        CurrentKept(site, ids1, topics1, f.ids, f.topics, pages[k]);
      }
      forall e ensures Kept(ids0, topics0, f.ids, f.topics, e, OneOf(pages, e)) {
        KeptTwice(ids0, topics0, ids1, topics1, f.ids, f.topics, e, OneOf(pages, e), Is(e, pages[i].externalId));
      }
    }
  }

  // ---- The whole run ----

  /** The id of a doc or of a section index. */
  ghost predicate Ours(site: Site, docs: seq<Doc>, e: string, urls: Urls) {
    DocOf(docs, e) || OneOf(site.indexPages(docs, urls), e)
  }

  /** Pass 2 and the indexes. */
  method Publish(site: Site, f: Forum, docs: seq<Doc>, existing: seq<Option<Topic>>, urls: Urls)
    requires f.Valid() && f.habits.Valid(site) && site.Valid() && site.Distinct(docs) && |existing| == |docs|
    requires forall i | 0 <= i < |docs| :: Drafted(site, f.ids, f.topics, docs[i], existing[i])
    modifies f
    ensures f.writes >= old(f.writes)
    ensures f.Valid() && Published(site, f.ids, f.topics, docs, urls)
    ensures forall e :: Kept(old(f.ids), old(f.topics), f.ids, f.topics, e, Ours(site, docs, e, urls))
    ensures Published(site, old(f.ids), old(f.topics), docs, urls) && (forall i | 0 <= i < |docs| :: existing[i].Some?)
            ==> Idle(f)
  {
    ghost var ids0, topics0 := f.ids, f.topics;
    SettleAll(site, f, docs, existing, urls);
    ghost var topics1 := f.topics;
    var pages := site.indexPages(docs, urls);
    SyncPages(site, f, pages);
    forall i | 0 <= i < |docs| ensures PageCurrent(site, f.ids, f.topics, PageOf(site, docs[i], urls)) {
      assert !OneOf(pages, docs[i].externalId);
      CurrentKept(site, ids0, topics1, f.ids, f.topics, PageOf(site, docs[i], urls));
    }
    forall e ensures Kept(ids0, topics0, f.ids, f.topics, e, Ours(site, docs, e, urls)) {
      KeptTwice(ids0, topics0, ids0, topics1, f.ids, f.topics, e, DocOf(docs, e), OneOf(pages, e));
    }
  }

  /** `sync_docs`, a run without an error: afterwards the forum is in sync, and a forum that was
      in sync is not written to at all. Topics of neither a doc nor an index stay as they were. */
  method SyncDocs(site: Site, f: Forum, docs: seq<Doc>) returns (urls: Urls)
    requires f.Valid() && f.habits.Valid(site) && site.Valid() && site.Distinct(docs)
    modifies f
    ensures f.writes >= old(f.writes)
    ensures f.Valid() && InSync(site, f.ids, f.topics, docs)
    ensures ShowsAll(site, f.ids, f.topics, docs, urls)
    ensures InSync(site, old(f.ids), old(f.topics), docs) ==> Idle(f)
    ensures forall was :: ShowsAll(site, old(f.ids), old(f.topics), docs, was) ==> Idle(f)
    ensures forall e :: Kept(old(f.ids), old(f.topics), f.ids, f.topics, e, Ours(site, docs, e, urls))
  {
    ghost var ids0, topics0 := f.ids, f.topics;
    var existing := EnsureTopics(site, f, docs);
    InSyncFound(site, ids0, topics0, docs);
    urls := UrlMap(site, f.ids, f.topics, docs);
    ghost var ids1, topics1 := f.ids, f.topics;
    Publish(site, f, docs, existing, urls);
    UrlsStay(site, ids1, topics1, f.ids, f.topics, docs, existing, urls);
    InSyncMeans(site, f.ids, f.topics, docs);
    InSyncMeans(site, ids0, topics0, docs);
    forall e ensures Kept(ids0, topics0, f.ids, f.topics, e, Ours(site, docs, e, urls)) {
      KeptTwice(ids0, topics0, ids1, topics1, f.ids, f.topics, e, false, Ours(site, docs, e, urls));
    }
  }

  lemma InSyncFound(site: Site, ids: Ids, topics: Topics, docs: seq<Doc>)
    ensures InSync(site, ids, topics, docs) ==> forall i | 0 <= i < |docs| :: docs[i].externalId in ids
  {
    forall i | 0 <= i < |docs| && InSync(site, ids, topics, docs) ensures docs[i].externalId in ids {
      assert PageCurrent(site, ids, topics, PageOf(site, docs[i], UrlMap(site, ids, topics, docs)));
    }
  }

  /** Writing to the topics keeps the URLs they had after pass 1. */
  lemma UrlsStay(site: Site, ids: Ids, topics: Topics, ids': Ids, topics': Topics, docs: seq<Doc>,
                 existing: seq<Option<Topic>>, urls: Urls)
    requires |existing| == |docs| && forall i | 0 <= i < |docs| :: Drafted(site, ids, topics, docs[i], existing[i])
    requires forall e :: Kept(ids, topics, ids', topics', e, Ours(site, docs, e, urls))
    ensures UrlMap(site, ids, topics, docs) == UrlMap(site, ids', topics', docs)
  {
    forall i | 0 <= i < |docs|
      ensures var e := docs[i].externalId;
              && e in ids && ids[e] in topics && e in ids' && ids'[e] == ids[e] && ids[e] in topics'
              && topics'[ids[e]].slug == topics[ids[e]].slug
    {
      var e := docs[i].externalId;
      assert Drafted(site, ids, topics, docs[i], existing[i])
               && Kept(ids, topics, ids', topics', e, Ours(site, docs, e, urls));
    }
    SameUrls(site, ids, topics, ids', topics', docs);
  }

  /** After one error-free run a second on the same docs issues no create and no update. */
  method SyncTwice(site: Site, f: Forum, docs: seq<Doc>) returns (first: nat, second: nat)
    requires f.Valid() && f.habits.Valid(site) && site.Valid() && site.Distinct(docs)
    modifies f
    ensures InSync(site, f.ids, f.topics, docs) && second == 0
    ensures f.writes == old(f.writes) + first + second
  {
    var w0 := f.writes;
    var urls := SyncDocs(site, f, docs);
    var w1 := f.writes;
    urls := SyncDocs(site, f, docs);
    first, second := w1 - w0, f.writes - w1;
  }
}
