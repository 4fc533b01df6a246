/** The article lifecycle of src/lib/localDb.ts: slugs, draft creation, publishing and the
    read counter, plus the stored collections and the demo owner. */
module LocalDb {
  import opened Wrappers
  import opened Seqs
  import opened Text
  import opened Domain

  datatype LocalDB = LocalDB(
    owners: seq<Owner>,
    tags: seq<Tag>,
    clas: seq<CoreLanguageArtifact>,
    contentPlanBatches: seq<ContentPlanBatch>,
    titleIdeas: seq<TitleIdea>,
    articles: seq<Article>)

  /** The built-in demo owner, created and updated at `now`. */
  function DemoOwner(now: Instant): Owner {
    Owner("o_demo", "demo", "Demo Author", now, now)
  }

  /**
   * `getDemoOwner`: the first stored owner, or the built-in demo owner.
   * The clock reading the fallback is stamped with is a parameter.
   */
  function GetDemoOwner(db: LocalDB, now: Instant): (o: Owner)
    ensures |db.owners| > 0 ==> o == db.owners[0]
    ensures |db.owners| == 0 ==>
      o.id == "o_demo" && o.userSlug == "demo" && o.displayName == "Demo Author" &&
      o.createdAt == now && o.updatedAt == now
  {
    if |db.owners| > 0 then db.owners[0] else DemoOwner(now)
  }

  // ---- Slugs ----

  predicate IsSlugChar(c: char) {
    ('a' <= c <= 'z') || ('0' <= c <= '9')
  }

  predicate NotSlugChar(c: char) {
    !IsSlugChar(c)
  }

  predicate IsQuote(c: char) {
    c == '\'' || c == '"' || c == '`'
  }

  predicate IsDash(c: char) {
    c == '-'
  }

  /** Only letters a-z, digits and dashes, no leading dash, no two dashes in a row. */
  ghost predicate SlugShaped(s: string) {
    && (forall i :: 0 <= i < |s| ==> IsSlugChar(s[i]) || s[i] == '-')
    && (|s| > 0 ==> s[0] != '-')
    && (forall i :: 0 <= i < |s| - 1 ==> !(s[i] == '-' && s[i + 1] == '-'))
  }

  lemma SlugShapedPrefix(s: string, k: nat)
    requires SlugShaped(s) && k <= |s|
    ensures SlugShaped(s[..k])
  {
  }

  /** Lower-casing maps no character into or out of a-z and 0-9 unless it is an ASCII
      capital, which it maps into a-z. */
  lemma LowerKeepsSlugClass()
    ensures forall c :: NotSlugChar(LowerChar(c)) == NotSlugChar(c) || ('A' <= c <= 'Z')
    ensures forall c :: IsSpace(c) ==> NotSlugChar(c) && NotSlugChar(LowerChar(c))
  {
    forall c: char
      ensures NotSlugChar(LowerChar(c)) == NotSlugChar(c) || ('A' <= c <= 'Z')
    {
      if !('A' <= c <= 'Z') {
        assert LowerChar(c) == c;
      }
    }
  }

  /** Lower-cased, quotes dropped, and every run of characters other than a-z and 0-9
      turned into one dash. */
  function Dashed(title: string): (r: string)
    ensures RunsCollapsed(r, NotSlugChar, '-')
  {
    var unquoted := Strip(LowerAscii(Trim(title)), IsQuote);
    CollapseRunsShape(unquoted, NotSlugChar, '-');
    CollapseRuns(unquoted, NotSlugChar, '-')
  }

  /** Every letter and digit of the lower-cased title survives into `Dashed`, in order. */
  lemma DashedKeeps(title: string)
    ensures Strip(Dashed(title), NotSlugChar) == Strip(LowerAscii(Trim(title)), NotSlugChar)
  {
    var lowered := LowerAscii(Trim(title));
    var unquoted := Strip(lowered, IsQuote);
    CollapseRunsKeeps(unquoted, NotSlugChar, '-');
    StripStrip(lowered, IsQuote, NotSlugChar);
  }

  lemma DashesAreNotSlugChars(s: string)
    requires All(s, IsDash)
    ensures All(s, NotSlugChar)
  {
    forall i | 0 <= i < |s|
      ensures NotSlugChar(s[i])
    {
      assert IsDash(s[i]);
    }
  }

  /** Cuts the dashes at both ends (`replace(/^-+|-+$/g, "")`). */
  function TrimDashes(s: string): (r: string)
    requires RunsCollapsed(s, NotSlugChar, '-')
    ensures SlugShaped(r)
    ensures |r| > 0 ==> r[|r| - 1] != '-'
    ensures Strip(r, NotSlugChar) == Strip(s, NotSlugChar)
  {
    TrimDashesKeeps(s);
    DropLastWhile(DropWhile(s, IsDash), IsDash)
  }

  lemma TrimDashesKeeps(s: string)
    requires RunsCollapsed(s, NotSlugChar, '-')
    ensures var r := DropLastWhile(DropWhile(s, IsDash), IsDash);
      SlugShaped(r) && Strip(r, NotSlugChar) == Strip(s, NotSlugChar)
  {
    var front := DropWhile(s, IsDash);
    var r := DropLastWhile(front, IsDash);
    var pre, post := DropBothEnds(s, IsDash);
    assert |r| > 0 ==> r[0] == front[0];
    TrimDashesShape(s, pre, r, post);
    DashesAreNotSlugChars(pre);
    DashesAreNotSlugChars(post);
    StripBetween(s, pre, r, post, NotSlugChar);
  }

  lemma TrimDashesShape(s: string, pre: string, r: string, post: string)
    requires RunsCollapsed(s, NotSlugChar, '-')
    requires s == pre + (r + post)
    requires |r| > 0 ==> r[0] != '-'
    ensures SlugShaped(r)
  {
    var d := |pre|;
    forall i | 0 <= i < |r|
      ensures IsSlugChar(r[i]) || r[i] == '-'
    {
      assert r[i] == s[d + i];
    }
    forall i | 0 <= i < |r| - 1
      ensures !(r[i] == '-' && r[i + 1] == '-')
    {
      assert r[i] == s[d + i] && r[i + 1] == s[d + i + 1];
    }
  }

  /** The ASCII form of a title: trimmed, lower-cased, quotes dropped, every run of other
      characters turned into one dash, dashes cut from both ends. */
  function CleanSlug(title: string): (r: string)
    ensures SlugShaped(r)
    ensures |r| > 0 ==> r[|r| - 1] != '-'
  {
    TrimDashes(Dashed(title))
  }

  lemma LowerSpacesNotSlug(s: string)
    requires All(s, IsSpace)
    ensures All(LowerAscii(s), NotSlugChar)
  {
    LowerKeepsSlugClass();
    forall k | 0 <= k < |s|
      ensures NotSlugChar(LowerAscii(s)[k])
    {
      assert IsSpace(s[k]);
    }
  }

  /** Cutting white space from the ends keeps every letter and digit. */
  lemma LowerSpacedKeeps(t: string, pre: string, m: string, post: string)
    requires t == pre + (m + post) && All(pre, IsSpace) && All(post, IsSpace)
    ensures Strip(LowerAscii(m), NotSlugChar) == Strip(LowerAscii(t), NotSlugChar)
  {
    LowerAppend(pre, m + post);
    LowerAppend(m, post);
    LowerSpacesNotSlug(pre);
    LowerSpacesNotSlug(post);
    StripBetween(LowerAscii(t), LowerAscii(pre), LowerAscii(m), LowerAscii(post), NotSlugChar);
  }

  /** Trimming only removes white space, which is never a letter or digit. */
  lemma LowerTrimKeeps(t: string)
    ensures Strip(LowerAscii(Trim(t)), NotSlugChar) == Strip(LowerAscii(t), NotSlugChar)
  {
    var pre, post := TrimSplit(t);
    LowerSpacedKeeps(t, pre, Trim(t), post);
  }

  /** The slug keeps every letter and digit of the lower-cased title, in order. */
  lemma CleanSlugKeeps(title: string)
    ensures Strip(CleanSlug(title), NotSlugChar) == Strip(LowerAscii(title), NotSlugChar)
  {
    DashedKeeps(title);
    LowerTrimKeeps(title);
  }

  function Base36Digit(d: nat): (c: char)
    requires d < 36
    ensures IsSlugChar(c)
  {
    if d < 10 then ('0' as int + d) as char else ('a' as int + d - 10) as char
  }

  function DigitValue(c: char): int {
    if '0' <= c <= '9' then c as int - '0' as int else c as int - 'a' as int + 10
  }

  /** `n.toString(36)`. */
  function ToBase36(n: nat): (r: string)
    ensures |r| > 0 && forall i :: 0 <= i < |r| ==> IsSlugChar(r[i])
    decreases n
  {
    if n < 36 then [Base36Digit(n)] else ToBase36(n / 36) + [Base36Digit(n % 36)]
  }

  /** `parseInt(s, 36)` for strings of base-36 digits. */
  function FromBase36(s: string): int
    decreases |s|
  {
    if |s| == 0 then 0 else FromBase36(s[..|s| - 1]) * 36 + DigitValue(s[|s| - 1])
  }

  /** Reading the base-36 text back gives the number. */
  lemma {:induction false} Base36RoundTrip(n: nat)
    ensures FromBase36(ToBase36(n)) == n
    decreases n
  {
    var r := ToBase36(n);
    if n >= 36 {
      Base36RoundTrip(n / 36);
      assert r[..|r| - 1] == ToBase36(n / 36);
    }
  }

  lemma FallbackSlugChars(clockMs: nat)
    ensures forall i :: 0 <= i < |FallbackSlugPrefix + ToBase36(clockMs)| ==>
      IsSlugChar((FallbackSlugPrefix + ToBase36(clockMs))[i]) || (FallbackSlugPrefix + ToBase36(clockMs))[i] == '-'
  {
    var digits := ToBase36(clockMs);
    var r := FallbackSlugPrefix + digits;
    forall i | 0 <= i < |r|
      ensures IsSlugChar(r[i]) || r[i] == '-'
    {
      if i < |FallbackSlugPrefix| {
        assert r[i] == FallbackSlugPrefix[i];
      } else {
        assert r[i] == digits[i - |FallbackSlugPrefix|];
      }
    }
  }

  const SlugMaxLength := 80
  const FallbackSlugPrefix := "article-"

  /** `slugFromTitle`: the cleaned form cut to 80 characters when it has at least 3, else
      "article-" and the clock in base 36. */
  function SlugFromTitle(title: string, clockMs: nat): (r: string)
    ensures var clean := CleanSlug(title);
      && (|clean| >= 3 ==>
            && |r| == (if |clean| < SlugMaxLength then |clean| else SlugMaxLength)
            && r == clean[..|r|]
            && SlugShaped(r))
      && (|clean| < 3 ==> r == FallbackSlugPrefix + ToBase36(clockMs))
    ensures forall i :: 0 <= i < |r| ==> IsSlugChar(r[i]) || r[i] == '-'
  {
    var clean := CleanSlug(title);
    if |clean| >= 3 then
      var r := SliceTo(clean, SlugMaxLength);
      SlugShapedPrefix(clean, |r|);
      r
    else
      FallbackSlugChars(clockMs);
      FallbackSlugPrefix + ToBase36(clockMs)
  }

  // ---- Article lifecycle ----

  datatype DraftParams = DraftParams(ownerId: Id, batchId: Id, claId: Id, titleIdeaId: Id, title: string)

  /** `JSON.stringify({ type: "doc", content: [] })`. */
  const EmptyDocJson := "{\"type\":\"doc\",\"content\":[]}"

  /** A published article is public, has a generated body (edition at least 1) and a
      publication time. */
  ghost predicate PublishInvariant(a: Article) {
    a.status == Published ==> a.visibility == Public && a.edition >= 1 && a.publishedAt.Some?
  }

  /** `selectTitleAndCreateDraft`: a members-only draft with edition 0, no reads, an empty
      document, no tags, no excerpt and no publication time, linked to its artifacts. `id` is the random id, `t`
      the clock reading, `clockMs` the clock the slug fallback reads. */
  function SelectTitleAndCreateDraft(params: DraftParams, id: Id, t: Instant, clockMs: nat): (a: Article)
    ensures a.id == id && a.ownerId == params.ownerId && a.title == params.title
    ensures a.slug == SlugFromTitle(params.title, clockMs)
    ensures a.status == Draft && a.visibility == MembersOnly
    ensures a.edition == 0 && a.readCompleteCount == Some(0)
    ensures a.content == EmptyDocJson
    ensures a.tagIds == [] && a.excerpt == "" && a.outline.None? && a.publishedAt.None?
    ensures a.createdAt == t && a.updatedAt == t
    ensures a.claId == Some(params.claId) && a.contentPlanBatchId == Some(params.batchId)
    ensures a.titleIdeaId == Some(params.titleIdeaId)
    ensures PublishInvariant(a)
  {
    Article(
      id := id,
      ownerId := params.ownerId,
      title := params.title,
      slug := SlugFromTitle(params.title, clockMs),
      status := Draft,
      visibility := MembersOnly,
      content := EmptyDocJson,
      excerpt := "",
      outline := None,
      tagIds := [],
      readCompleteCount := Some(0),
      edition := 0,
      createdAt := t,
      updatedAt := t,
      publishedAt := None,
      claId := Some(params.claId),
      contentPlanBatchId := Some(params.batchId),
      titleIdeaId := Some(params.titleIdeaId))
  }

  /** `publishArticleDraft`: published, public, edition raised to at least 1 and never
      lowered, stamped with `t`; every other field as it was. */
  function PublishArticleDraft(a: Article, t: Instant): (r: Article)
    ensures r.status == Published && r.visibility == Public
    ensures r.edition >= 1 && r.edition >= a.edition && (r.edition == 1 || r.edition == a.edition)
    ensures r.updatedAt == t && r.publishedAt == Some(t)
    ensures r.(status := a.status, visibility := a.visibility, edition := a.edition,
               updatedAt := a.updatedAt, publishedAt := a.publishedAt) == a
    ensures PublishInvariant(r)
  {
    a.(status := Published, visibility := Public, edition := if 1 < a.edition then a.edition else 1,
       updatedAt := t, publishedAt := Some(t))
  }

  /** `incrementReadComplete`: one more completed read (a missing count counts as 0),
      stamped with `t`; every other field as it was. */
  function IncrementReadComplete(a: Article, t: Instant): (r: Article)
    ensures ReadCount(r) == ReadCount(a) + 1
    ensures r.updatedAt == t
    ensures r.(readCompleteCount := a.readCompleteCount, updatedAt := a.updatedAt) == a
    ensures PublishInvariant(a) ==> PublishInvariant(r)
  {
    a.(readCompleteCount := Some(ReadCount(a) + 1), updatedAt := t)
  }

  /** Publishing again at the same time changes nothing. */
  lemma PublishIdempotent(a: Article, t: Instant)
    ensures PublishArticleDraft(PublishArticleDraft(a, t), t) == PublishArticleDraft(a, t)
  {
  }
}
