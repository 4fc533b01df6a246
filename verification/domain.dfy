/** The records the application stores: owners, tags, reader profiles, articles and the
    generation artifacts (core language artifact, content plan batch, title idea). */
module Domain {
  import opened Wrappers

  type Id = string

  /** A timestamp as the ISO-8601 text the records hold, together with the milliseconds
      since the epoch that `Date` parses it to. */
  datatype Instant = Instant(iso: string, ms: int)

  datatype Visibility = Public | MembersOnly
  datatype ArticleStatus = Draft | Published | Archived
  datatype TagScope = Global | OwnerScoped
  datatype TagStatus = Active | Merged | Deprecated
  datatype TitleIdeaStatus = Proposed | Selected | Rejected

  datatype Owner = Owner(
    id: Id,
    userSlug: string,
    displayName: string,
    createdAt: Instant,
    updatedAt: Instant)

  datatype CoreLanguageArtifact = CoreLanguageArtifact(
    id: Id,
    ownerId: Id,
    content: string,
    version: int,
    createdAt: Instant,
    updatedAt: Instant)

  datatype ContentPlanBatch = ContentPlanBatch(
    id: Id,
    ownerId: Id,
    claId: Id,
    createdAt: Instant,
    updatedAt: Instant)

  datatype TitleIdea = TitleIdea(
    id: Id,
    ownerId: Id,
    batchId: Id,
    title: string,
    status: TitleIdeaStatus,
    createdAt: Instant,
    updatedAt: Instant)

  /** `labelText` is the source's `label` (a reserved word here). `canonicalTagId` points
      at the tag this one was merged into; absent or self means the tag is its own
      canonical form. */
  datatype Tag = Tag(
    id: Id,
    scope: TagScope,
    ownerId: Option<Id>,
    labelText: string,
    slug: string,
    status: TagStatus,
    canonicalTagId: Option<Id>,
    createdAt: Instant,
    updatedAt: Instant)

  datatype ReaderProfile = ReaderProfile(
    id: Id,
    ownerId: Id,
    presetTagIds: seq<Id>,
    freeTextInterests: seq<string>,
    normalizedTagIdsFromFreeText: seq<Id>,
    createdAt: Instant,
    updatedAt: Instant)

  /** `content` is the serialized rich-text document; `readCompleteCount` may be missing in
      stored data, and every reader of it treats that as 0. */
  datatype Article = Article(
    id: Id,
    ownerId: Id,
    title: string,
    slug: string,
    status: ArticleStatus,
    visibility: Visibility,
    content: string,
    excerpt: string,
    outline: Option<string>,
    tagIds: seq<Id>,
    readCompleteCount: Option<int>,
    edition: int,
    createdAt: Instant,
    updatedAt: Instant,
    publishedAt: Option<Instant>,
    claId: Option<Id>,
    contentPlanBatchId: Option<Id>,
    titleIdeaId: Option<Id>)

  /** `readCompleteCount ?? 0`. */
  function ReadCount(a: Article): int {
    a.readCompleteCount.GetOr(0)
  }

  /** The rich-text document tree (TipTap JSON) after parsing: every field is optional,
      as the parser's result is not checked. */
  datatype InlineNode = InlineNode(kind: Option<string>, text: Option<string>)
  datatype BlockNode = BlockNode(kind: Option<string>, content: Option<seq<InlineNode>>)
  datatype Doc = Doc(kind: Option<string>, content: Option<seq<BlockNode>>)
}
