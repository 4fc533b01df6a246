/** The ranking pipeline (`recommendArticles` in src/lib/recommendation.ts): score every
    article, add freshness a second time, sort, keep the first `maxResults`. */
module Recommend {
  import opened Wrappers
  import opened Seqs
  import opened Domain
  import opened Sorting
  import opened Canonical
  import opened Scoring

  const DefaultMaxResults := 20

  datatype RecommendOptions = RecommendOptions(now: Option<int>, maxResults: Option<int>)

  /** `options?.now ?? new Date()`, with `wallNow` the clock reading. */
  function ClockOf(options: RecommendOptions, wallNow: int): int {
    options.now.GetOr(wallNow)
  }

  /** `options?.maxResults ?? 20`. */
  function MaxOf(options: RecommendOptions): int {
    options.maxResults.GetOr(DefaultMaxResults)
  }

  /** The ranking total: the reader score (whose freshness term reads the wall clock) plus
      the freshness term again, against `now`. */
  function Total(a: Article, reader: ReaderProfile, tags: seq<Tag>, now: int, wallNow: int): int {
    ScoreArticle(a, reader, tags, wallNow) + FreshnessBoost(a.publishedAt, now)
  }

  /** The tie-break key: `publishedAt` in milliseconds, 0 when missing. */
  function PublishedMs(a: Article): int {
    match a.publishedAt
    case None => 0
    case Some(t) => t.ms
  }

  /** The comparator leaves `x` ahead of `y`: a higher total, or an equal total and a
      `publishedAt` no older. */
  predicate RanksBefore(reader: ReaderProfile, tags: seq<Tag>, now: int, wallNow: int, x: Article, y: Article) {
    var tx := Total(x, reader, tags, now, wallNow);
    var ty := Total(y, reader, tags, now, wallNow);
    tx > ty || (tx == ty && PublishedMs(x) >= PublishedMs(y))
  }

  function Comparator(reader: ReaderProfile, tags: seq<Tag>, now: int, wallNow: int): (Article, Article) -> bool {
    (x: Article, y: Article) => RanksBefore(reader, tags, now, wallNow, x, y)
  }

  lemma ComparatorIsPreorder(reader: ReaderProfile, tags: seq<Tag>, now: int, wallNow: int)
    ensures TotalPreorder(Comparator(reader, tags, now, wallNow))
  {
    KeyOrderIsPreorder(Comparator(reader, tags, now, wallNow),
      (a: Article) => Total(a, reader, tags, now, wallNow), PublishedMs);
  }

  /** `recommendArticles`: the first `maxResults` articles (JavaScript `slice` semantics, so
      a negative bound drops from the back) of the input ranked by total, ties newest first.
      The result is drawn from the input, ordered, and no article left out ranks above one
      kept. */
  function RecommendArticles(articles: seq<Article>, reader: ReaderProfile, tags: seq<Tag>,
                             options: RecommendOptions, wallNow: int): (r: seq<Article>)
    ensures |r| == SliceLength(|articles|, MaxOf(options))
    ensures multiset(r) <= multiset(articles)
    ensures forall i, j :: 0 <= i < j < |r| ==>
      RanksBefore(reader, tags, ClockOf(options, wallNow), wallNow, r[i], r[j])
    ensures forall i, y :: 0 <= i < |r| && y in multiset(articles) - multiset(r) ==>
      RanksBefore(reader, tags, ClockOf(options, wallNow), wallNow, r[i], y)
  {
    var now := ClockOf(options, wallNow);
    var before := Comparator(reader, tags, now, wallNow);
    ComparatorIsPreorder(reader, tags, now, wallNow);
    TopK(articles, before, SliceLength(|articles|, MaxOf(options)));
    SliceTo(Sort(articles, before), MaxOf(options))
  }

  /** An article whose total beats every other article's comes first whenever anything is
      returned. */
  lemma BestRanksFirst(articles: seq<Article>, reader: ReaderProfile, tags: seq<Tag>,
                       options: RecommendOptions, wallNow: int, best: Article)
    requires best in articles
    requires forall y :: y in articles && y != best ==>
      Total(best, reader, tags, ClockOf(options, wallNow), wallNow) > Total(y, reader, tags, ClockOf(options, wallNow), wallNow)
    requires SliceLength(|articles|, MaxOf(options)) >= 1
    ensures RecommendArticles(articles, reader, tags, options, wallNow)[0] == best
  {
    var before := Comparator(reader, tags, ClockOf(options, wallNow), wallNow);
    HeadAheadOfKept(articles, reader, tags, options, wallNow);
    HeadAheadOfDropped(articles, reader, tags, options, wallNow);
    BestBeatsAll(articles, reader, tags, options, wallNow, best);
    BestFirst(articles, RecommendArticles(articles, reader, tags, options, wallNow), before, best);
  }

  lemma HeadAheadOfKept(articles: seq<Article>, reader: ReaderProfile, tags: seq<Tag>,
                        options: RecommendOptions, wallNow: int)
    requires SliceLength(|articles|, MaxOf(options)) >= 1
    ensures var r := RecommendArticles(articles, reader, tags, options, wallNow);
      forall j :: 0 < j < |r| ==> Comparator(reader, tags, ClockOf(options, wallNow), wallNow)(r[0], r[j])
  {
  }

  lemma HeadAheadOfDropped(articles: seq<Article>, reader: ReaderProfile, tags: seq<Tag>,
                           options: RecommendOptions, wallNow: int)
    requires SliceLength(|articles|, MaxOf(options)) >= 1
    ensures var r := RecommendArticles(articles, reader, tags, options, wallNow);
      forall y :: y in multiset(articles) - multiset(r) ==> Comparator(reader, tags, ClockOf(options, wallNow), wallNow)(r[0], y)
  {
  }

  lemma BestBeatsAll(articles: seq<Article>, reader: ReaderProfile, tags: seq<Tag>,
                     options: RecommendOptions, wallNow: int, best: Article)
    requires forall y :: y in articles && y != best ==>
      Total(best, reader, tags, ClockOf(options, wallNow), wallNow) > Total(y, reader, tags, ClockOf(options, wallNow), wallNow)
    ensures forall y :: y in articles && y != best ==> !Comparator(reader, tags, ClockOf(options, wallNow), wallNow)(y, best)
  {
  }

  // ---- The scenario of src/lib/recommendation.test.ts ----

  const TestDate := Instant("2025-01-01", 1735689600000)

  const TestTag := Tag("t1", OwnerScoped, Some("o1"), "AI", "ai", Active, Some("t1"), TestDate, TestDate)

  const TestReader := ReaderProfile("r1", "o1", ["t1"], [], [], TestDate, TestDate)

  const TestA1 := Article("a1", "o1", "AI入門", "ai-1", Published, Public, "{}", "AIの話", None,
                          ["t1"], Some(0), 1, TestDate, TestDate, Some(TestDate), None, None, None)

  const TestA2 := TestA1.(id := "a2", slug := "other", title := "別の記事", tagIds := [])

  /** The article carrying the reader's preset tag ranks ahead of the otherwise identical
      untagged one, whatever the clock says. */
  lemma PresetTagMatchRanksFirst(wallNow: int)
    ensures RecommendArticles([TestA2, TestA1], TestReader, [TestTag], RecommendOptions(None, Some(10)), wallNow)[0].id == "a1"
  {
    TestTotals(wallNow);
    assert SliceLength(2, 10) == 2;
    BestRanksFirst([TestA2, TestA1], TestReader, [TestTag], RecommendOptions(None, Some(10)), wallNow, TestA1);
  }

  lemma TestTotals(wallNow: int)
    ensures forall y :: y in [TestA2, TestA1] && y != TestA1 ==>
      Total(TestA1, TestReader, [TestTag], wallNow, wallNow) > Total(y, TestReader, [TestTag], wallNow, wallNow)
  {
    forall y | y in [TestA2, TestA1] && y != TestA1
      ensures Total(TestA1, TestReader, [TestTag], wallNow, wallNow) > Total(y, TestReader, [TestTag], wallNow, wallNow)
    {
      assert y == TestA2;
      TestTotalsDiffer(wallNow);
    }
  }

  lemma TestTotalsDiffer(wallNow: int)
    ensures Total(TestA1, TestReader, [TestTag], wallNow, wallNow) == Total(TestA2, TestReader, [TestTag], wallNow, wallNow) + 5
  {
    TestScores(wallNow);
    assert FreshnessBoost(TestA1.publishedAt, wallNow) == FreshnessBoost(TestA2.publishedAt, wallNow);
  }

  lemma TestScores(wallNow: int)
    ensures ScoreArticle(TestA1, TestReader, [TestTag], wallNow) == ScoreArticle(TestA2, TestReader, [TestTag], wallNow) + 5
  {
    var tags := [TestTag];
    var cm := BuildCanonicalMap(tags);
    CanonOfUnmerged(tags, "t1");
    assert CanonSet(cm, ["t1"]) == {"t1"};
    assert CanonSet(cm, []) == {};
    ScoreDecomposition(TestA1, TestReader, tags, wallNow);
    ScoreDecomposition(TestA2, TestReader, tags, wallNow);
  }
}
