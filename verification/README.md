# Core Language Hub: a Dafny model of its core

Core Language Hub is a small publishing app. An author states a "core language artifact"
(CLA): one sentence saying whom they write for, about what problem, with which approach and
towards which outcome. The app turns the CLA into a plan of title ideas. It drafts an
article from a chosen title, with a generated outline and body, and publishes it. It ranks
published articles on a home page and shows them on a public article page. It also
recommends articles to a reader from tag matches, free-text interests and freshness.

This project models that core in Dafny and proves what each operation promises:

- **Tag canonicalization** (`Canonical`). Merge pointers are followed to a terminal tag.
  A cycle falls back to the starting id.
- **Reader scoring and recommendation** (`Scoring`, `Recommend`). The score counts
  canonical tag matches, free-text hits and freshness. The ranking is a stable sort by
  total, ties broken newest first, then cut.
- **The local store's operations** (`LocalDb`). Slug derivation, draft creation,
  publishing and the read-complete counter.
- **The demo text generators** (`Generators`). Title ideas, the outline, the rich-text
  body and its excerpt, and the CLA/batch/title-idea bundle.
- **The home page's lists** (`HomePage`). The owner's published articles, the overall and
  per-owner most-read rankings, and the owner's plan batches.
- **The public article page** (`ArticleDetail`). Paragraph extraction from the stored
  document, the leading-title filter, and the classification of "\n\n"-separated chunks
  into headings, quotes, dash lists and paragraphs.
- **The guided CLA interview bot** (`ClaBot`). The question sequence, answer recording,
  the draft sentence and reset.
- **The in-memory repository's lookups** (`InMemoryRepo`).
- **How a generated article looks on the public page** (`GeneratedArticle`). An
  end-to-end statement joining the generators to the page.

Support modules:

- `Wrappers`: `Option`.
- `Text`: JavaScript string operations such as `trim`, `split`, `join`, `includes` and
  regular-expression replacements, together with their laws.
- `Seqs`: the array methods `filter`, `find`, `findIndex`, `map` and `slice`.
- `Sorting`: a stable insertion sort standing in for `Array.prototype.sort`. It comes with
  the sortedness and top-k laws for comparators that are total preorders.
- `Domain`: the records.

Clocks and random ids are parameters:

- `wallNow` is the `new Date()` inside `scoreArticleForReader`.
- `now` is the recommendation option.
- `clockMs` is `Date.now()` in the slug fallback.
- `Instant` is a timestamp as ISO text plus milliseconds.
- Id arguments stand for `randomId`.

Two behaviours of the code are kept as written:

- **Double freshness.** The recommendation total adds freshness twice. Once it is inside
  the reader score, with the wall clock. Once it is in the ranking, with the option's
  clock.
- **The bot's final step.** It records nothing after the fourth answer.

## Model

| member | source | states |
|---|---|---|
| Canonical.ById | src/lib/recommendation.ts:17-18 | the lookup holds exactly the catalog's tag ids, each mapped to a catalog tag carrying that id |
| Canonical.BuildCanonicalMap | src/lib/recommendation.ts:33-35 | the canonical map is defined on exactly the ids of the catalog |
| Canonical.ResolveOutcome | src/lib/recommendation.ts:20-31 | resolving an id yields either the id itself or an id where the merge walk stops (unknown, or with no pointer to follow) |
| Canonical.CanonFollowsMerges | src/lib/recommendation.ts:20-31 | a non-empty id whose chain of merge pointers reaches a terminal id after K steps canonicalizes to that terminal id |
| Canonical.CanonCycleFallback | src/lib/recommendation.ts:24 | an id whose merge chain never reaches a terminal id (it runs into a cycle) canonicalizes to itself |
| Canonical.CanonOnCycle | src/lib/recommendation.ts:24 | every id lying on a merge cycle canonicalizes to itself |
| Canonical.CanonOfUnmerged | src/lib/recommendation.ts:27 | a tag whose canonical pointer is absent, empty or itself canonicalizes to itself, and so does an id no tag carries |
| Canonical.CanonOfDangling | src/lib/recommendation.ts:26-28 | a tag merged into an id that no tag carries canonicalizes to that missing id |
| Canonical.CanonIdempotent | src/lib/recommendation.ts:16-36 | canonicalizing an already canonical id changes nothing, for every id and every catalog, cycles included |
| Scoring.NormalizeText | src/lib/recommendation.ts:8-14 | the normalized text is the white-space-separated words of the lower-cased input, each with its listed punctuation removed, joined by single spaces (a word made only of punctuation leaves an empty entry); it has no listed punctuation and no ASCII capitals, its only white space is ' ', and a blank input gives "" |
| Scoring.FreshnessBoost | src/lib/recommendation.ts:38-46 | the boost is 2 exactly when a publication date exists and is at most one day old (or in the future), 1 exactly when it is between one and seven days old, otherwise 0 |
| Scoring.FreshnessMonotone | src/lib/recommendation.ts:38-46 | a later clock never gives a larger boost |
| Scoring.TagTermCounts | src/lib/recommendation.ts:64-67 | for distinct canonical article tags the tag term is 5 times the number found among the reader's preset tags plus 2 times the number found among the reader's normalized tags |
| Scoring.TextTermAppend | src/lib/recommendation.ts:71-75 | the free-text term adds up over any split of the interests, so each interest contributes independently |
| Scoring.ScoreDecomposition | src/lib/recommendation.ts:48-79 | a score is 5 per distinct canonical article tag the reader preset, plus 2 per one among the reader's normalized tags, plus 1 per interest whose non-empty normalized form occurs in the normalized title and excerpt, plus freshness by the wall clock |
| Scoring.NoSignalScoresZero | src/lib/recommendation.ts:48-79 | an article sharing no canonical tag with the reader, matching no interest and older than a week (or undated) scores 0 |
| Recommend.ComparatorIsPreorder | src/lib/recommendation.ts:96-101 | the ranking comparator (higher total first, then later publication first, undated as time 0) is total and transitive |
| Recommend.RecommendArticles | src/lib/recommendation.ts:81-105 | the result has the length `slice(0, max)` gives (negative bounds counted from the back), is drawn from the input, is ordered by the comparator, and no article left out ranks ahead of one kept |
| Recommend.BestRanksFirst | src/lib/recommendation.ts:91-104 | an article whose total beats every other article's is first whenever anything is returned |
| Recommend.PresetTagMatchRanksFirst | src/lib/recommendation.test.ts:7-58 | with one preset tag, the article carrying it comes before the otherwise identical article without it |
| Recommend.TestScores | src/lib/recommendation.test.ts:32-55 | the article carrying the reader's preset tag scores exactly 5 more than its twin without tags |
| LocalDb.GetDemoOwner | src/lib/localDb.ts:385-393 | the demo owner is the first stored owner, or, when there is none, the built-in owner "o_demo", slug "demo", named "Demo Author", created and updated at the clock reading |
| LocalDb.CleanSlug | src/lib/localDb.ts:32-38 | the cleaned title consists of a-z, 0-9 and single '-' separators, neither starting nor ending with '-' |
| LocalDb.CleanSlugKeeps | src/lib/localDb.ts:32-38 | cleaning keeps every lower-cased letter and digit of the title, in order, and nothing else but separators |
| LocalDb.Base36RoundTrip | src/lib/localDb.ts:40 | the base-36 text of the clock reading reads back as the same number |
| LocalDb.SlugFromTitle | src/lib/localDb.ts:31-41 | a cleaned title of at least 3 characters gives its first 80 characters, still slug-shaped; a shorter one gives "article-" followed by the clock in base 36; every slug uses only a-z, 0-9 and '-' |
| LocalDb.SelectTitleAndCreateDraft | src/lib/localDb.ts:433-463 | the new article is a members-only draft of edition 0 with no reads, tags, excerpt, outline or publication date, slugged from its title, stamped with one time, and linked to the CLA, batch and title idea it came from; its content is the empty document |
| LocalDb.PublishArticleDraft | src/lib/localDb.ts:502-512 | publishing makes the article published and public, raises the edition to at least 1 without lowering it, stamps the update and publication times, changes nothing else, and establishes the published-implies-public invariant |
| LocalDb.PublishIdempotent | src/lib/localDb.ts:502-512 | publishing twice at the same instant is publishing once |
| LocalDb.IncrementReadComplete | src/lib/localDb.ts:514-521 | the read count (missing counted as 0) goes up by one, the update time is stamped, nothing else changes, and the published invariant is kept |
| Generators.SeedSource | src/lib/localDb.ts:466 | the seed source is the trimmed CLA when that is not blank, else the default; either way it is non-empty and visible at both ends |
| Generators.OutlineSeed | src/lib/localDb.ts:466 | the outline seed is a non-empty prefix of the seed source of at most 24 characters |
| Generators.GenerateOutline | src/lib/localDb.ts:465-476 | the outline starts with "# " and the title |
| Generators.OutlineSplitsIntoLines | src/lib/localDb.ts:465-476 | when title and seed hold no newline, splitting the outline at newlines gives back the heading, an empty line and the five bullets |
| Generators.TitleSeedRaw | src/lib/localDb.ts:524 | the title seed has at most 28 characters and no run of white space longer than one space |
| Generators.TitleSeedOfWords | src/lib/localDb.ts:524 | the title seed is the first min(n, 28) characters of the seed source's words joined by single spaces (n the joined length); its visible characters are a prefix of the seed source's visible characters |
| Generators.TitleSeedFromCla | src/lib/localDb.ts:524 | for a CLA that is not blank, the title seed is the first 28 characters of the CLA's own words joined by single spaces |
| Generators.TitleSeedFallbackUnused | src/lib/localDb.ts:525 | the second default never applies: the cut seed is never empty and starts with the seed source's first character |
| Generators.GenerateTitleIdeas | src/lib/localDb.ts:523-539 | there are exactly 10 title ideas and every one contains the title seed |
| Generators.BodyParagraphs | src/lib/localDb.ts:482-488 | the body's paragraphs are the title if non-empty, the two fixed sentences, then the outline if non-empty; none is empty |
| Generators.BodyExcerpt | src/lib/localDb.ts:498 | the excerpt candidate found is the first fixed sentence, or the second when the title equals the first |
| Generators.GenerateBody | src/lib/localDb.ts:478-500 | the document has one paragraph block per body paragraph, and the excerpt is at most 160 characters and is the first fixed sentence unless the title is that sentence |
| Generators.CreateClaAndBatch | src/lib/localDb.ts:395-431 | the CLA is version 1 of the text for the owner; the batch and the 10 title ideas point back to it and its owner; all carry the given ids and one timestamp; each idea is proposed, its title is the generated one, and it contains the title seed |
| HomePage.NewestFirstIsPreorder | src/app/page.tsx:32 | the newest-first comparator (publication time, else update time, compared as text) is total and transitive |
| HomePage.PublishedList | src/app/page.tsx:30-32 | the list holds exactly the owner's published articles, each as often as stored, newest first |
| HomePage.MostReadFirstIsPreorder | src/app/page.tsx:37-41 | the ranking comparator (more reads first, then newest) is total and transitive |
| HomePage.Ranking | src/app/page.tsx:36-42 | the ranking keeps min(n, 20) candidates, drawn from them, most read first, and none left out ranks ahead of one kept |
| HomePage.RankingOf | src/app/page.tsx:34-52 | the ranking of the articles a filter keeps has min(n, 20) entries for n kept articles, holds kept articles only, is ordered most read first (ties newest first), and no kept article left out ranks ahead of one in it |
| HomePage.OverallRanking | src/app/page.tsx:34-42 | the overall ranking has min(n, 20) entries for n published articles, holds published articles only, is ordered most read first (ties newest first), and no published article left out of it ranks ahead of one in it |
| HomePage.OwnerRanking | src/app/page.tsx:44-52 | the owner ranking has min(n, 20) entries for n published articles of the owner, holds only those, is ordered most read first (ties newest first), and none of them left out ranks ahead of one in it |
| HomePage.OwnerRankingIsOverallOfOwn | src/app/page.tsx:44-52 | the owner ranking is the overall ranking computed over the owner's articles alone |
| HomePage.BatchNewestFirstIsPreorder | src/app/page.tsx:56 | the batch comparator (creation time compared as text) is total and transitive |
| HomePage.OwnerBatches | src/app/page.tsx:54-56 | the batch list holds exactly the owner's batches, each as often as stored, newest created first |
| HomePage.BuildHomeView | src/app/page.tsx:29-56 | the page uses the demo owner; both rankings have at most 20 entries; the owner ranking is drawn from the owner's published list; every batch shown is the owner's |
| ArticleDetail.BlockTextAppend | src/components/public/BunkoArticleDetail.tsx:21-23 | a block's text over two runs of inline nodes is the text of each, one after the other |
| ArticleDetail.ParagraphsOf | src/components/public/BunkoArticleDetail.tsx:19-25 | no extracted paragraph is blank and there are no more than blocks |
| ArticleDetail.ParagraphsOfAppend | src/components/public/BunkoArticleDetail.tsx:19-25 | extraction works block by block: two block lists give their paragraphs one after the other |
| ArticleDetail.ParagraphsOfIsPipeline | src/components/public/BunkoArticleDetail.tsx:19-25 | the extracted paragraphs are exactly: keep the paragraph blocks, take each one's text, keep the texts that are not blank, in block order |
| ArticleDetail.ExtractPlainParagraphs | src/components/public/BunkoArticleDetail.tsx:14-30 | an unparsable document gives no paragraphs; a parsed one gives exactly the non-blank texts of its paragraph blocks, in order (missing content read as no blocks) |
| ArticleDetail.DropLeadingTitle | src/components/public/BunkoArticleDetail.tsx:113-116 | the filter drops at most the first paragraph, and drops it exactly when it equals the title after trimming both |
| ArticleDetail.StripQuoteMarker | src/components/public/BunkoArticleDetail.tsx:66 | a line starting with '>' loses that '>' and, when the next character is white space, that one character too, and keeps the rest; any other line is unchanged |
| ArticleDetail.QuoteText | src/components/public/BunkoArticleDetail.tsx:64-68 | the quote text is visible at both ends |
| ArticleDetail.QuoteTextRoundTrip | src/components/public/BunkoArticleDetail.tsx:64-68 | quoting newline-free lines with "> " and joining them by newlines, then reading the quote text back, gives the lines joined by newlines, trimmed |
| ArticleDetail.QuoteChunkText | src/components/public/BunkoArticleDetail.tsx:61-79 | a chunk that opens with '>' after trimming is classified as the quote whose text is the quote text of the trimmed chunk |
| ArticleDetail.StripDashMarker | src/components/public/BunkoArticleDetail.tsx:84 | a line opening with '-' and white space loses the '-' and the whole white-space run after it, and keeps the rest; any other line is unchanged |
| ArticleDetail.DashItemNonEmpty | src/components/public/BunkoArticleDetail.tsx:84 | every dash line yields a non-empty item |
| ArticleDetail.DashItemsKeepAll | src/components/public/BunkoArticleDetail.tsx:84 | the item filter drops nothing from a dash list: there is one item per line, in order |
| ArticleDetail.ClassifyBody | src/components/public/BunkoArticleDetail.tsx:61-100 | a chunk is a quote exactly when it opens with '>' after trimming; a list exactly when it is no quote and has at least two lines all opening with "- " (its items being those lines' texts); otherwise the chunk itself is a paragraph |
| ArticleDetail.ClassifyChunk | src/components/public/BunkoArticleDetail.tsx:34-100 | a chunk renders nothing exactly when blank, a heading exactly when it starts with "# " (its text being the rest), a subheading exactly when it starts with "## ", and is otherwise classified by its body |
| ArticleDetail.RenderContentFromPlainText | src/components/public/BunkoArticleDetail.tsx:32-102 | there is one rendered entry per "\n\n"-separated chunk, in order, each the classification of its chunk |
| ClaBot.Fill | src/components/admin/ClaBot.tsx:21-29 | a slot shows its trimmed answer, or its placeholder when the answer is blank |
| ClaBot.OpeningDraft | src/components/admin/ClaBot.tsx:20-32 | before any answer the draft sentence shows all four placeholders |
| ClaBot.FourAnswersFillTheTemplate | src/components/admin/ClaBot.tsx:20-32 | four non-blank answers from the start leave the bot at its last step with ten messages, and the draft is the sentence built from the trimmed answers |
| ClaBot.NextQuestion | src/components/admin/ClaBot.tsx:34-47 | any step other than 0 to 3 gets the closing prompt, and each of the steps 0 to 3 gets something else |
| ClaBot.QuestionsDistinct | src/components/admin/ClaBot.tsx:34-47 | the four steps ask four different questions |
| ClaBot.Reset | src/components/admin/ClaBot.tsx:150-161 | reset empties every answer, returns to step 0 and restores the greeting and first question |
| ClaBot.ResetReachable | src/components/admin/ClaBot.tsx:150-161 | the reset session satisfies the interview invariant |
| ClaBot.Record | src/components/admin/ClaBot.tsx:92-98 | an answer fills exactly the slot of the current step; after the last step nothing is recorded |
| ClaBot.ApplyAnswer | src/components/admin/ClaBot.tsx:86-103 | a blank answer changes nothing; otherwise the step advances (stopping at 4), the transcript gains the trimmed answer and the next question, and only the current step's slot changes |
| ClaBot.ApplyAnswerReachable | src/components/admin/ClaBot.tsx:86-103 | answering keeps the invariant: slots before the step hold trimmed non-blank answers, later slots are empty, and the transcript ends with the current question |
| ClaBot.AnswersAfterTheLastStep | src/components/admin/ClaBot.tsx:92-100 | once all four questions are answered, further answers leave the answers and the step alone |
| InMemoryRepo.GetOwnerByUserSlug | src/lib/repo/inMemoryRepo.ts:62-64 | the lookup is absent exactly when no owner has the user slug, and otherwise returns the first owner that has it |
| InMemoryRepo.GetPublishedArticleBySlug | src/lib/repo/inMemoryRepo.ts:66-71 | the lookup is absent exactly when no stored article is published under the owner and slug, and otherwise returns the first such article |
| InMemoryRepo.PublishedDraftIsFound | src/lib/repo/inMemoryRepo.ts:66-71 | an article published in place, with no earlier published article under its key, is what the lookup by its owner and slug returns |
| GeneratedArticle.ExtractGeneratedBody | src/components/public/BunkoArticleDetail.tsx:14-30 | reading a generated body back gives its non-blank paragraphs, in order |
| GeneratedArticle.GeneratedParagraphsShown | src/components/public/BunkoArticleDetail.tsx:112-116 | for a non-blank title and outline, the page keeps the two fixed sentences and the outline: the title paragraph is the one dropped |
| GeneratedArticle.HeadingChunk | src/components/public/BunkoArticleDetail.tsx:37-47 | a chunk "# " + t renders as the heading t |
| GeneratedArticle.SentenceIsParagraph | src/components/public/BunkoArticleDetail.tsx:96-100 | a one-line chunk visible at both ends, not opening with '#' or '>', renders as a paragraph of itself |
| GeneratedArticle.BulletsAreOneList | src/components/public/BunkoArticleDetail.tsx:81-94 | two or more "- " lines joined by newlines render as one list whose items are the lines' texts |
| GeneratedArticle.GeneratedArticleRenders | src/lib/localDb.ts:465-500 | a generated article with a one-line non-blank title shows two paragraphs (the fixed sentences), the title as a heading, and the outline's five points as one list |

## Left out

- Browser storage is not modelled: `loadLocalDb`, `saveLocalDb`, `resetLocalDb`, `assertBrowser` and the seed data of `seedDb` and of the in-memory repository's `db`. This is I/O; the operations take the store as a value.
- `nowIso`, `Date.now()`, `new Date()` and `randomId` are not modelled; they become parameters (`Instant`, `clockMs`, `wallNow`, ids). Each clock is taken to read one value during a call.
- Date parsing is not modelled: an `Instant` carries both the ISO text and its milliseconds. Unparseable dates (the `NaN` branch of `freshnessBoost` and `NaN` in the sort comparator) are not represented.
- The freshness age is not computed in floating point: it is compared as whole milliseconds against one and seven days, which is the same comparison for integral times.
- JSON is not modelled. `extractPlainParagraphs` takes the parse result (`None` for text that does not parse to an object). The generated body is the document itself, and the end-to-end lemmas take `JSON.parse(JSON.stringify(doc))` to be `doc`. Values of the wrong JSON type inside a document (a `null` block, a non-string text) are not represented.
- `localeCompare` is modelled as ordinal comparison of characters, not the locale's collation.
- `toLowerCase` is modelled on ASCII letters only. Strings are sequences of Unicode scalar values, so `slice(0, 24/28/80/160)` counts characters where JavaScript counts UTF-16 code units; the two differ only for characters outside the Basic Multilingual Plane.
- The bot's message ids (`uid`) are not modelled; a message is its role and content. The controlled text input is not modelled either.
- React rendering is not modelled: markup, class names, keys, links, images, related articles and the rest of the pages. The state updates of one `applyAnswer` call are applied in order as one transition, as React applies them before the next event.
- Canonical.ById: does not state which tag wins when two catalog tags share an id (the source keeps the last one).
- Canonical.CanonFollowsMerges: requires a non-empty id, because the source's walk returns the empty id unchanged at once; that case is covered by Canonical.ResolveOutcome.
- ClaBot.BuildCla: has no contract of its own; it is characterized by ClaBot.Fill, ClaBot.OpeningDraft and ClaBot.FourAnswersFillTheTemplate.
