/** The read side of the in-memory repository (src/lib/repo/inMemoryRepo.ts): looking up an
    owner by public slug and a published article by owner and slug. */
module InMemoryRepo {
  import opened Wrappers
  import opened Seqs
  import opened Domain
  import opened LocalDb

  datatype InMemoryDB = InMemoryDB(owners: seq<Owner>, tags: seq<Tag>, articles: seq<Article>)

  datatype ArticleKey = ArticleKey(ownerId: Id, articleSlug: string)

  function HasUserSlug(userSlug: string): Owner -> bool {
    (o: Owner) => o.userSlug == userSlug
  }

  /** The article the key names, published. */
  predicate MatchesPublished(key: ArticleKey, x: Article) {
    x.ownerId == key.ownerId && x.slug == key.articleSlug && x.status == Published
  }

  function PublishedUnder(key: ArticleKey): Article -> bool {
    (x: Article) => MatchesPublished(key, x)
  }

  /** `getOwnerByUserSlug`: the first owner with the slug, or nothing when none has it. */
  function GetOwnerByUserSlug(db: InMemoryDB, userSlug: string): (r: Option<Owner>)
    ensures r.None? <==> forall i :: 0 <= i < |db.owners| ==> db.owners[i].userSlug != userSlug
    ensures r.Some? ==> r.value.userSlug == userSlug
    ensures r.Some? ==> exists i :: && 0 <= i < |db.owners| && db.owners[i] == r.value
                                    && forall j :: 0 <= j < i ==> db.owners[j].userSlug != userSlug
  {
    Find(db.owners, HasUserSlug(userSlug))
  }

  /** `getPublishedArticleBySlug`: the first published article of the owner with the slug;
      drafts and archived articles are never returned. */
  function GetPublishedArticleBySlug(db: InMemoryDB, key: ArticleKey): (r: Option<Article>)
    ensures r.None? <==> forall i :: 0 <= i < |db.articles| ==> !MatchesPublished(key, db.articles[i])
    ensures r.Some? ==> MatchesPublished(key, r.value)
    ensures r.Some? ==> exists i :: && 0 <= i < |db.articles| && db.articles[i] == r.value
                                    && forall j :: 0 <= j < i ==> !MatchesPublished(key, db.articles[j])
  {
    Find(db.articles, PublishedUnder(key))
  }

  /** Publishing an article makes it the one its key finds, as long as no earlier article
      is already published under the same key. */
  lemma PublishedDraftIsFound(db: InMemoryDB, i: nat, t: Instant)
    requires i < |db.articles|
    requires forall j :: 0 <= j < i ==> !MatchesPublished(ArticleKey(db.articles[i].ownerId, db.articles[i].slug), db.articles[j])
    ensures var published := PublishArticleDraft(db.articles[i], t);
      GetPublishedArticleBySlug(db.(articles := db.articles[i := published]),
                                ArticleKey(published.ownerId, published.slug)) == Some(published)
  {
    var published := PublishArticleDraft(db.articles[i], t);
    var key := ArticleKey(published.ownerId, published.slug);
    var db2 := db.(articles := db.articles[i := published]);
    var r := GetPublishedArticleBySlug(db2, key);
    assert MatchesPublished(key, db2.articles[i]);
    var k :| && 0 <= k < |db2.articles| && db2.articles[k] == r.value
             && forall j :: 0 <= j < k ==> !MatchesPublished(key, db2.articles[j]);
    assert k == i;
  }
}
