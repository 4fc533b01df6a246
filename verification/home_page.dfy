/** The lists the home page (src/app/page.tsx) derives from the local store: the demo
    owner's published articles, the two read-count rankings and the owner's batches. */
module HomePage {
  import opened Wrappers
  import opened Seqs
  import opened Text
  import opened Sorting
  import opened Domain
  import opened LocalDb

  const RankingSize := 20

  /** `publishedAt ?? updatedAt`, as the ISO text the page compares. */
  function StampOf(a: Article): string {
    match a.publishedAt
    case Some(t) => t.iso
    case None => a.updatedAt.iso
  }

  /** `(a, b) => b.stamp.localeCompare(a.stamp)` does not swap `a` ahead of `b` exactly when
      `b`'s stamp is not after `a`'s: newest first. */
  function NewestFirst(): (Article, Article) -> bool {
    (a: Article, b: Article) => LexLe(StampOf(b), StampOf(a))
  }

  /** The ranking comparator: more completed reads first, then newest first. */
  predicate MostReadBefore(a: Article, b: Article) {
    ReadCount(a) > ReadCount(b) || (ReadCount(a) == ReadCount(b) && LexLe(StampOf(b), StampOf(a)))
  }

  function MostReadFirst(): (Article, Article) -> bool {
    (a: Article, b: Article) => MostReadBefore(a, b)
  }

  function BatchNewestFirst(): (ContentPlanBatch, ContentPlanBatch) -> bool {
    (a: ContentPlanBatch, b: ContentPlanBatch) => LexLe(b.createdAt.iso, a.createdAt.iso)
  }

  lemma NewestFirstIsPreorder()
    ensures TotalPreorder(NewestFirst())
  {
    forall a: Article, b: Article
      ensures NewestFirst()(a, b) || NewestFirst()(b, a)
    {
      LexLeTotal(StampOf(a), StampOf(b));
    }
    forall a: Article, b: Article, c: Article | NewestFirst()(a, b) && NewestFirst()(b, c)
      ensures NewestFirst()(a, c)
    {
      LexLeTransitive(StampOf(c), StampOf(b), StampOf(a));
    }
  }

  lemma MostReadFirstIsPreorder()
    ensures TotalPreorder(MostReadFirst())
  {
    forall a: Article, b: Article
      ensures MostReadBefore(a, b) || MostReadBefore(b, a)
    {
      LexLeTotal(StampOf(a), StampOf(b));
    }
    forall a: Article, b: Article, c: Article | MostReadBefore(a, b) && MostReadBefore(b, c)
      ensures MostReadBefore(a, c)
    {
      if ReadCount(a) == ReadCount(b) == ReadCount(c) {
        LexLeTransitive(StampOf(c), StampOf(b), StampOf(a));
      }
    }
  }

  lemma BatchNewestFirstIsPreorder()
    ensures TotalPreorder(BatchNewestFirst())
  {
    forall a: ContentPlanBatch, b: ContentPlanBatch
      ensures BatchNewestFirst()(a, b) || BatchNewestFirst()(b, a)
    {
      LexLeTotal(a.createdAt.iso, b.createdAt.iso);
    }
    forall a: ContentPlanBatch, b: ContentPlanBatch, c: ContentPlanBatch
      | BatchNewestFirst()(a, b) && BatchNewestFirst()(b, c)
      ensures BatchNewestFirst()(a, c)
    {
      LexLeTransitive(c.createdAt.iso, b.createdAt.iso, a.createdAt.iso);
    }
  }

  predicate IsPublished(a: Article) {
    a.status == Published
  }

  function OwnedBy(ownerId: Id): Article -> bool {
    (a: Article) => a.ownerId == ownerId
  }

  function OwnedAndPublished(ownerId: Id): Article -> bool {
    (a: Article) => a.ownerId == ownerId && a.status == Published
  }

  function BatchOwnedBy(ownerId: Id): ContentPlanBatch -> bool {
    (b: ContentPlanBatch) => b.ownerId == ownerId
  }

  /** `published`: exactly the owner's published articles, newest first. */
  function PublishedList(articles: seq<Article>, ownerId: Id): (r: seq<Article>)
    ensures multiset(r) == multiset(Filter(articles, OwnedAndPublished(ownerId)))
    ensures forall a :: a in r <==> a in articles && a.ownerId == ownerId && a.status == Published
    ensures forall i, j :: 0 <= i < j < |r| ==> LexLe(StampOf(r[j]), StampOf(r[i]))
  {
    var mine := Filter(articles, OwnedAndPublished(ownerId));
    FilterMembers(articles, OwnedAndPublished(ownerId));
    NewestFirstIsPreorder();
    SortSorted(mine, NewestFirst());
    SortMembers(mine, NewestFirst());
    Sort(mine, NewestFirst())
  }

  /** The first 20 of `candidates` by read count, ties newest first. */
  function Ranking(candidates: seq<Article>): (r: seq<Article>)
    ensures |r| == (if |candidates| < RankingSize then |candidates| else RankingSize)
    ensures multiset(r) <= multiset(candidates)
    ensures forall i, j :: 0 <= i < j < |r| ==> MostReadBefore(r[i], r[j])
    ensures forall i, y :: 0 <= i < |r| && y in multiset(candidates) - multiset(r) ==> MostReadBefore(r[i], y)
  {
    MostReadFirstIsPreorder();
    TopK(candidates, MostReadFirst(), SliceLength(|candidates|, RankingSize));
    SliceTo(Sort(candidates, MostReadFirst()), RankingSize)
  }

  /** The 20 most-read of the articles `keep` selects, ties newest first. */
  function RankingOf(articles: seq<Article>, keep: Article -> bool): (r: seq<Article>)
    ensures var n := |Filter(articles, keep)|; |r| == if n < RankingSize then n else RankingSize
    ensures forall a :: a in r ==> a in articles && keep(a)
    ensures forall i, j :: 0 <= i < j < |r| ==> MostReadBefore(r[i], r[j])
    ensures forall i, y :: 0 <= i < |r| && y in articles && keep(y) && y !in r ==> MostReadBefore(r[i], y)
  {
    var kept := Filter(articles, keep);
    FilterMultiset(articles, keep);
    var r := Ranking(kept);
    assert forall a :: a in r ==> a in multiset(kept);
    forall i, y | 0 <= i < |r| && y in articles && keep(y) && y !in r
      ensures MostReadBefore(r[i], y)
    {
      assert multiset(kept)[y] == multiset(articles)[y] > 0;
      assert multiset(r)[y] == 0;
      assert y in multiset(kept) - multiset(r);
    }
    r
  }

  /** `overallRanking`: the 20 most-read published articles of every owner. */
  function OverallRanking(articles: seq<Article>): (r: seq<Article>)
    ensures var n := |Filter(articles, IsPublished)|; |r| == if n < RankingSize then n else RankingSize
    ensures forall a :: a in r ==> a in articles && a.status == Published
    ensures forall i, j :: 0 <= i < j < |r| ==> MostReadBefore(r[i], r[j])
    ensures forall i, y :: 0 <= i < |r| && y in articles && y.status == Published && y !in r ==>
      MostReadBefore(r[i], y)
  {
    RankingOf(articles, IsPublished)
  }

  /** `ownerRanking`: the 20 most-read published articles of one owner. */
  function OwnerRanking(articles: seq<Article>, ownerId: Id): (r: seq<Article>)
    ensures var n := |Filter(articles, OwnedAndPublished(ownerId))|; |r| == if n < RankingSize then n else RankingSize
    ensures forall a :: a in r ==> a in articles && a.ownerId == ownerId && a.status == Published
    ensures forall i, j :: 0 <= i < j < |r| ==> MostReadBefore(r[i], r[j])
    ensures forall i, y ::
      0 <= i < |r| && y in articles && y.ownerId == ownerId && y.status == Published && y !in r ==>
        MostReadBefore(r[i], y)
  {
    RankingOf(articles, OwnedAndPublished(ownerId))
  }

  /** The owner's ranking is the overall ranking of the owner's articles alone. */
  lemma {:induction false} OwnerRankingIsOverallOfOwn(articles: seq<Article>, ownerId: Id)
    ensures OwnerRanking(articles, ownerId) == OverallRanking(Filter(articles, OwnedBy(ownerId)))
  {
    FilterFilter(articles, OwnedBy(ownerId), IsPublished, OwnedAndPublished(ownerId));
  }

  /** `batches`: exactly the owner's batches, newest first. */
  function OwnerBatches(batches: seq<ContentPlanBatch>, ownerId: Id): (r: seq<ContentPlanBatch>)
    ensures multiset(r) == multiset(Filter(batches, BatchOwnedBy(ownerId)))
    ensures forall b :: b in r <==> b in batches && b.ownerId == ownerId
    ensures forall i, j :: 0 <= i < j < |r| ==> LexLe(r[j].createdAt.iso, r[i].createdAt.iso)
  {
    var mine := Filter(batches, BatchOwnedBy(ownerId));
    FilterMembers(batches, BatchOwnedBy(ownerId));
    BatchNewestFirstIsPreorder();
    SortSorted(mine, BatchNewestFirst());
    SortMembers(mine, BatchNewestFirst());
    Sort(mine, BatchNewestFirst())
  }

  datatype HomeView = HomeView(
    owner: Owner,
    published: seq<Article>,
    overallRanking: seq<Article>,
    ownerRanking: seq<Article>,
    batches: seq<ContentPlanBatch>)

  /** Everything the home page shows, for the demo owner of `db`. */
  function BuildHomeView(db: LocalDB, now: Instant): (v: HomeView)
    ensures v.owner == GetDemoOwner(db, now)
    ensures |v.overallRanking| <= RankingSize && |v.ownerRanking| <= RankingSize
    ensures forall a :: a in v.ownerRanking ==> a in v.published
    ensures forall b :: b in v.batches ==> b in db.contentPlanBatches && b.ownerId == v.owner.id
  {
    var owner := GetDemoOwner(db, now);
    HomeView(
      owner,
      PublishedList(db.articles, owner.id),
      OverallRanking(db.articles),
      OwnerRanking(db.articles, owner.id),
      OwnerBatches(db.contentPlanBatches, owner.id))
  }
}
