/** Relevance of one article to one reader (`normalizeText`, `freshnessBoost` and
    `scoreArticleForReader` in src/lib/recommendation.ts). */
module Scoring {
  import opened Wrappers
  import opened Seqs
  import opened Text
  import opened Domain
  import opened Canonical

  const PresetWeight := 5
  const NormalizedWeight := 2
  const DayMs := 1000 * 60 * 60 * 24

  /** The punctuation `normalizeText` removes: the General Punctuation block, the
      Supplemental Punctuation block and ' " ! ? , . : ; ( ) [ ] { }. */
  predicate IsStripped(c: char) {
    || ('\U{2000}' <= c <= '\U{206F}')
    || ('\U{2E00}' <= c <= '\U{2E7F}')
    || c in "'\"!?,.:;()[]{}"
  }

  predicate IsSpaceOrStripped(c: char) {
    IsSpace(c) || IsStripped(c)
  }

  predicate IsUpperAscii(c: char) {
    'A' <= c <= 'Z'
  }

  /** One word of the normalized text: the punctuation taken out. */
  function DropPunctuation(w: string): string {
    Strip(w, IsStripped)
  }

  /** `normalizeText`: trim, lower-case, collapse white-space runs to one space, drop the
      punctuation. The result is the words of the lower-cased text, each without its
      punctuation, joined by single spaces; a word made only of punctuation leaves its two
      neighbouring spaces side by side. */
  function NormalizeText(s: string): (r: string)
    ensures r == Join(Map(Words(LowerAscii(s)), DropPunctuation), " ")
    ensures forall i :: 0 <= i < |r| ==> !IsStripped(r[i]) && !IsUpperAscii(r[i])
    ensures forall i :: 0 <= i < |r| && IsSpace(r[i]) ==> r[i] == ' '
    ensures Strip(r, IsSpaceOrStripped) == LowerAscii(Strip(s, IsSpaceOrStripped))
    ensures IsBlank(s) ==> r == ""
  {
    var lowered := LowerAscii(Trim(s));
    var collapsed := CollapseRuns(lowered, IsSpace, ' ');
    var r := Strip(collapsed, IsStripped);
    NormalizeWords(s);
    NormalizeKeeps(s);
    NormalizeChars(s, lowered, collapsed, r);
    r
  }

  /** Collapsing and stripping the trimmed, lower-cased text works word by word. */
  lemma NormalizeWords(s: string)
    ensures Strip(CollapseRuns(LowerAscii(Trim(s)), IsSpace, ' '), IsStripped)
      == Join(Map(Words(LowerAscii(s)), DropPunctuation), " ")
  {
    var pre, post := TrimSplit(s);
    var m := Trim(s);
    var x := LowerAscii(m);
    LowerKeepsSpace(m);
    CollapseJoinsFields(x, IsSpace, ' ');
    SpaceIsNotStripped();
    StripJoin(Words(x), " ", IsStripped, DropPunctuation);
    LowerAppend(pre, m + post);
    LowerAppend(m, post);
    LowerKeepsSpace(pre);
    LowerKeepsSpace(post);
    assert All(LowerAscii(pre), IsSpace) && All(LowerAscii(post), IsSpace);
    FieldsAfterSep(LowerAscii(pre), x + LowerAscii(post), IsSpace);
    FieldsBeforeSep(x, LowerAscii(post), IsSpace);
  }

  lemma SpaceIsNotStripped()
    ensures forall i :: 0 <= i < |" "| ==> !IsStripped(" "[i])
  {
    assert " "[0] == ' ';
    assert ' ' !in "'\"!?,.:;()[]{}";
  }

  lemma NormalizeChars(s: string, lowered: string, collapsed: string, r: string)
    requires lowered == LowerAscii(Trim(s))
    requires collapsed == CollapseRuns(lowered, IsSpace, ' ')
    requires r == Strip(collapsed, IsStripped)
    ensures forall i :: 0 <= i < |r| ==> !IsUpperAscii(r[i])
    ensures forall i :: 0 <= i < |r| && IsSpace(r[i]) ==> r[i] == ' '
  {
    StripKeepsOnly(collapsed, IsStripped, r);
    CollapseRunsChars(lowered, IsSpace, ' ');
    CollapseRunsShape(lowered, IsSpace, ' ');
    forall i | 0 <= i < |r|
      ensures !IsUpperAscii(r[i])
      ensures IsSpace(r[i]) ==> r[i] == ' '
    {
      assert r[i] in collapsed;
      var k :| 0 <= k < |collapsed| && collapsed[k] == r[i];
      if r[i] != ' ' {
        assert r[i] in lowered;
        var j :| 0 <= j < |lowered| && lowered[j] == r[i];
        assert LowerChar(Trim(s)[j]) == r[i];
      }
    }
  }

  /** Every character of `Strip(s, p)` is a character of `s`. */
  lemma {:induction false} StripKeepsOnly(s: string, p: char -> bool, r: string)
    requires r == Strip(s, p)
    ensures forall c :: c in r ==> c in s
  {
    if |s| > 0 {
      StripKeepsOnly(s[1..], p, Strip(s[1..], p));
    }
  }

  /** Lower-casing maps no letter into or out of the white space or the punctuation. */
  lemma LowerKeepsClass()
    ensures forall c :: IsSpaceOrStripped(LowerChar(c)) == IsSpaceOrStripped(c)
  {
    forall c: char
      ensures IsSpaceOrStripped(LowerChar(c)) == IsSpaceOrStripped(c)
    {
      if 'A' <= c <= 'Z' {
        LetterIsPlain(c);
        LetterIsPlain(LowerChar(c));
      }
    }
  }

  /** An ASCII letter is neither white space nor punctuation. */
  lemma LetterIsPlain(c: char)
    requires 'A' <= c <= 'Z' || 'a' <= c <= 'z'
    ensures !IsSpaceOrStripped(c)
  {
    assert c !in "'\"!?,.:;()[]{}" by {
      forall i | 0 <= i < |"'\"!?,.:;()[]{}"|
        ensures "'\"!?,.:;()[]{}"[i] != c
      {
      }
    }
  }

  lemma NormalizeKeeps(s: string)
    ensures Strip(Strip(CollapseRuns(LowerAscii(Trim(s)), IsSpace, ' '), IsStripped), IsSpaceOrStripped)
      == LowerAscii(Strip(s, IsSpaceOrStripped))
  {
    var lowered := LowerAscii(Trim(s));
    var collapsed := CollapseRuns(lowered, IsSpace, ' ');
    StripStrip(collapsed, IsStripped, IsSpaceOrStripped);
    StripStrip(collapsed, IsSpace, IsSpaceOrStripped);
    CollapseRunsKeeps(lowered, IsSpace, ' ');
    StripStrip(lowered, IsSpace, IsSpaceOrStripped);
    LowerKeepsClass();
    StripLower(Trim(s), IsSpaceOrStripped);
    StripTrim(s, IsSpaceOrStripped);
  }

  /** `freshnessBoost`: 2 for an article at most a day old (or dated in the future), 1 for
      one at most a week old, 0 for older or undated ones. The source divides the age in
      milliseconds by a day's length in floating point; for whole milliseconds that quotient
      is at most 1 (at most 7) exactly when the age is at most one day (seven days). */
  function FreshnessBoost(publishedAt: Option<Instant>, now: int): (r: int)
    ensures 0 <= r <= 2
    ensures r == 2 <==> publishedAt.Some? && now - publishedAt.value.ms <= DayMs
    ensures r == 1 <==> publishedAt.Some? && DayMs < now - publishedAt.value.ms <= 7 * DayMs
  {
    match publishedAt
    case None => 0
    case Some(t) =>
      var age := now - t.ms;
      if age <= DayMs then 2
      else if age <= 7 * DayMs then 1
      else 0
  }

  /** Freshness never grows as the clock advances. */
  lemma FreshnessMonotone(publishedAt: Option<Instant>, now1: int, now2: int)
    requires now1 <= now2
    ensures FreshnessBoost(publishedAt, now2) <= FreshnessBoost(publishedAt, now1)
  {
  }

  /** The weight one distinct canonical article tag earns. */
  function TagWeight(id: Id, preset: set<Id>, normalized: set<Id>): int {
    (if id in preset then PresetWeight else 0) + (if id in normalized then NormalizedWeight else 0)
  }

  /** The loop over the article's canonical tag set. */
  function TagTerm(ids: seq<Id>, preset: set<Id>, normalized: set<Id>): (r: int)
    ensures 0 <= r <= (PresetWeight + NormalizedWeight) * |ids|
  {
    if |ids| == 0 then 0
    else TagWeight(ids[0], preset, normalized) + TagTerm(ids[1..], preset, normalized)
  }

  /** For distinct ids the tag term counts the ids in each reader set. */
  lemma {:induction false} TagTermCounts(ids: seq<Id>, preset: set<Id>, normalized: set<Id>)
    requires Distinct(ids)
    ensures TagTerm(ids, preset, normalized)
      == PresetWeight * |Elements(ids) * preset| + NormalizedWeight * |Elements(ids) * normalized|
  {
    if |ids| > 0 {
      var rest := ids[1..];
      TagTermCounts(rest, preset, normalized);
      assert Elements(ids) == Elements(rest) + {ids[0]};
      assert ids[0] !in Elements(rest);
      CardAdd(Elements(rest), ids[0], preset);
      CardAdd(Elements(rest), ids[0], normalized);
    }
  }

  function Elements(ids: seq<Id>): set<Id> {
    set x | x in ids
  }

  lemma CardAdd(a: set<Id>, x: Id, p: set<Id>)
    requires x !in a
    ensures |(a + {x}) * p| == |a * p| + if x in p then 1 else 0
  {
    if x in p {
      assert (a + {x}) * p == a * p + {x};
    } else {
      assert (a + {x}) * p == a * p;
    }
  }

  /** `new Set(ids.map(id => canonical.get(id) ?? id))` as a set. */
  function CanonSet(cm: map<Id, Id>, ids: seq<Id>): set<Id> {
    set id | id in ids :: Canon(cm, id)
  }

  /** The canonical article ids in the order the article's `Set` iterates them. */
  function CanonSeq(cm: map<Id, Id>, ids: seq<Id>): (r: seq<Id>)
    ensures |r| == |ids|
    ensures forall i :: 0 <= i < |ids| ==> r[i] == Canon(cm, ids[i])
  {
    if |ids| == 0 then [] else [Canon(cm, ids[0])] + CanonSeq(cm, ids[1..])
  }

  /** One free-text interest's contribution: 1 when it normalizes to a non-empty substring
      of the normalized title and excerpt. */
  function InterestHit(hay: string, interest: string): int {
    var needle := NormalizeText(interest);
    if needle != "" && Contains(hay, needle) then 1 else 0
  }

  /** The loop over the reader's free-text interests. */
  function TextTerm(hay: string, interests: seq<string>): (r: int)
    ensures 0 <= r <= |interests|
  {
    if |interests| == 0 then 0
    else InterestHit(hay, interests[0]) + TextTerm(hay, interests[1..])
  }

  /** The free-text term adds up over any split of the interests, so every interest counts
      on its own, repeats included. */
  lemma {:induction false} TextTermAppend(hay: string, a: seq<string>, b: seq<string>)
    ensures TextTerm(hay, a + b) == TextTerm(hay, a) + TextTerm(hay, b)
  {
    if |a| == 0 {
      assert a + b == b;
    } else {
      assert (a + b)[1..] == a[1..] + b;
      TextTermAppend(hay, a[1..], b);
    }
  }

  /** The text the free-text interests are matched against. */
  function Haystack(article: Article): string {
    NormalizeText(article.title + " " + article.excerpt)
  }

  /** `scoreArticleForReader`, with `wallNow` the clock reading the source takes inside it. */
  function ScoreArticle(article: Article, reader: ReaderProfile, tags: seq<Tag>, wallNow: int): int {
    var cm := BuildCanonicalMap(tags);
    var articleIds := Dedup(CanonSeq(cm, article.tagIds));
    TagTerm(articleIds, CanonSet(cm, reader.presetTagIds), CanonSet(cm, reader.normalizedTagIdsFromFreeText))
    + TextTerm(Haystack(article), reader.freeTextInterests)
    + FreshnessBoost(article.publishedAt, wallNow)
  }

  /** The score is 5 per canonical article tag the reader preset, plus 2 per canonical
      article tag among the reader's accepted free-text tags (a tag in both earns 7, an
      aliased or repeated tag counts once), plus the free-text hits, plus freshness. */
  lemma ScoreDecomposition(article: Article, reader: ReaderProfile, tags: seq<Tag>, wallNow: int)
    ensures var cm := BuildCanonicalMap(tags);
      var tagSet := CanonSet(cm, article.tagIds);
      ScoreArticle(article, reader, tags, wallNow)
        == PresetWeight * |tagSet * CanonSet(cm, reader.presetTagIds)|
         + NormalizedWeight * |tagSet * CanonSet(cm, reader.normalizedTagIdsFromFreeText)|
         + TextTerm(Haystack(article), reader.freeTextInterests)
         + FreshnessBoost(article.publishedAt, wallNow)
  {
    var cm := BuildCanonicalMap(tags);
    var d := Dedup(CanonSeq(cm, article.tagIds));
    TagTermCounts(d, CanonSet(cm, reader.presetTagIds), CanonSet(cm, reader.normalizedTagIdsFromFreeText));
    DedupCanonElements(cm, article.tagIds);
  }

  /** The article's deduplicated canonical ids hold exactly its canonical tag set. */
  lemma DedupCanonElements(cm: map<Id, Id>, ids: seq<Id>)
    ensures Elements(Dedup(CanonSeq(cm, ids))) == CanonSet(cm, ids)
  {
    var c := CanonSeq(cm, ids);
    var d := Dedup(c);
    forall x | x in CanonSet(cm, ids)
      ensures x in d
    {
      var id :| id in ids && Canon(cm, id) == x;
      var i :| 0 <= i < |ids| && ids[i] == id;
      assert c[i] == x;
    }
  }

  /** An article sharing no canonical tag with the reader, matching no interest and more
      than a week old (or undated) scores 0. */
  lemma NoSignalScoresZero(article: Article, reader: ReaderProfile, tags: seq<Tag>, wallNow: int)
    requires var cm := BuildCanonicalMap(tags);
      && CanonSet(cm, article.tagIds) !! CanonSet(cm, reader.presetTagIds)
      && CanonSet(cm, article.tagIds) !! CanonSet(cm, reader.normalizedTagIdsFromFreeText)
    requires forall t :: t in reader.freeTextInterests ==> InterestHit(Haystack(article), t) == 0
    requires article.publishedAt.None? || wallNow - article.publishedAt.value.ms > 7 * DayMs
    ensures ScoreArticle(article, reader, tags, wallNow) == 0
  {
    ScoreDecomposition(article, reader, tags, wallNow);
    NoHits(Haystack(article), reader.freeTextInterests);
    var cm := BuildCanonicalMap(tags);
    assert CanonSet(cm, article.tagIds) * CanonSet(cm, reader.presetTagIds) == {};
    assert CanonSet(cm, article.tagIds) * CanonSet(cm, reader.normalizedTagIdsFromFreeText) == {};
  }

  lemma {:induction false} NoHits(hay: string, interests: seq<string>)
    requires forall t :: t in interests ==> InterestHit(hay, t) == 0
    ensures TextTerm(hay, interests) == 0
  {
    if |interests| > 0 {
      assert interests[0] in interests;
      NoHits(hay, interests[1..]);
    }
  }
}
