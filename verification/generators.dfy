/** The demo text generators of src/lib/localDb.ts: title ideas from a core language
    artifact (CLA), the outline, the article body, and the CLA/batch/title-idea bundle. */
module Generators {
  import opened Wrappers
  import opened Seqs
  import opened Text
  import opened Domain

  const DefaultSeed := "コアランゲージ"
  const OutlineSeedLength := 24
  const TitleSeedLength := 28
  const ExcerptLength := 160
  const TitleIdeaCount := 10

  /** `claText.trim() || "コアランゲージ"`: the trimmed CLA, or the default when it is blank. */
  function SeedSource(claText: string): (r: string)
    ensures |r| > 0 && !IsSpace(r[0]) && !IsSpace(r[|r| - 1])
    ensures !IsBlank(claText) ==> r == Trim(claText)
  {
    var t := Trim(claText);
    if t != "" then t
    else
      DefaultSeedVisible();
      DefaultSeed
  }

  lemma DefaultSeedVisible()
    ensures |DefaultSeed| == 7 && DefaultSeed[0] == 'コ' && DefaultSeed[6] == 'ジ'
    ensures !IsSpace(DefaultSeed[0]) && !IsSpace(DefaultSeed[|DefaultSeed| - 1])
  {
  }

  // ---- Outline ----

  /** The outline's seed: the first 24 characters of the seed source. */
  function OutlineSeed(claText: string): (r: string)
    ensures 0 < |r| <= OutlineSeedLength && |r| <= |SeedSource(claText)|
    ensures r == SeedSource(claText)[..|r|]
  {
    SliceTo(SeedSource(claText), OutlineSeedLength)
  }

  /** The texts of the outline's five bullets; the first carries the seed. */
  function OutlinePoints(seed: string): seq<string> {
    [ "なぜ今「" + seed + "」が重要か",
      "読者が抱えがちな誤解",
      "実践ステップ（今日から）",
      "よくある失敗と回避策",
      "まとめ" ]
  }

  /** A bullet line of the outline. */
  function Bullet(text: string): string {
    "- " + text
  }

  function OutlineBullets(seed: string): seq<string> {
    Map(OutlinePoints(seed), Bullet)
  }

  /** The outline's lines: the title heading, an empty line, the bullets. */
  function OutlineLines(title: string, seed: string): seq<string> {
    ["# " + title, ""] + OutlineBullets(seed)
  }

  /** `generateOutline`: seven lines joined by newlines, headed by "# " and the title. */
  function GenerateOutline(title: string, claText: string): (r: string)
    ensures StartsWith(r, "# " + title)
  {
    var lines := OutlineLines(title, OutlineSeed(claText));
    assert Join(lines, "\n") == lines[0] + "\n" + Join(lines[1..], "\n");
    Join(lines, "\n")
  }

  lemma OutlineLinesNewlineFree(title: string, seed: string)
    requires '\n' !in title && '\n' !in seed
    ensures forall k :: 0 <= k < |OutlineLines(title, seed)| ==> '\n' !in OutlineLines(title, seed)[k]
  {
    var lines := OutlineLines(title, seed);
    var bullets := OutlineBullets(seed);
    NewlineFreeConcat("# ", title);
    OutlinePointsNewlineFree(seed);
    assert forall k :: 0 <= k < |bullets| ==> '\n' !in bullets[k] by {
      forall k | 0 <= k < |bullets|
        ensures '\n' !in bullets[k]
      {
        NewlineFreeConcat("- ", OutlinePoints(seed)[k]);
      }
    }
    assert forall k :: 2 <= k < |lines| ==> lines[k] == bullets[k - 2];
  }

  lemma FixedOutlineLinesNewlineFree()
    ensures '\n' !in "# " && '\n' !in "- " && '\n' !in "なぜ今「" && '\n' !in "」が重要か"
    ensures '\n' !in "読者が抱えがちな誤解" && '\n' !in "実践ステップ（今日から）"
    ensures '\n' !in "よくある失敗と回避策" && '\n' !in "まとめ"
  {
  }

  lemma OutlinePointsNewlineFree(seed: string)
    requires '\n' !in seed
    ensures forall k :: 0 <= k < |OutlinePoints(seed)| ==> '\n' !in OutlinePoints(seed)[k]
  {
    FixedOutlineLinesNewlineFree();
    NewlineFreeConcat("なぜ今「", seed);
    NewlineFreeConcat("なぜ今「" + seed, "」が重要か");
  }

  /** Splitting the outline at newlines gives back its seven lines, as long as neither the
      title nor the seed holds a newline. */
  lemma OutlineSplitsIntoLines(title: string, claText: string)
    requires '\n' !in title && '\n' !in OutlineSeed(claText)
    ensures Split(GenerateOutline(title, claText), "\n") == OutlineLines(title, OutlineSeed(claText))
  {
    OutlineLinesNewlineFree(title, OutlineSeed(claText));
    SplitJoinedLines(OutlineLines(title, OutlineSeed(claText)));
  }

  // ---- Title ideas ----

  /** The title seed as the source computes it: white-space runs collapsed to one space,
      cut to 28 characters. */
  function TitleSeedRaw(claText: string): (r: string)
    ensures |r| <= TitleSeedLength
    ensures RunsCollapsed(r, IsSpace, ' ')
  {
    var collapsed := CollapseRuns(SeedSource(claText), IsSpace, ' ');
    CollapseRunsShape(SeedSource(claText), IsSpace, ' ');
    SliceTo(collapsed, TitleSeedLength)
  }

  /** The title seed is the start of the seed source's words joined by single spaces, as
      much of it as 28 characters hold, and it keeps the seed source's visible characters
      in order. */
  lemma TitleSeedOfWords(claText: string)
    ensures var joined := Join(Words(SeedSource(claText)), " ");
      |TitleSeedRaw(claText)| == (if |joined| < TitleSeedLength then |joined| else TitleSeedLength)
      && TitleSeedRaw(claText) == joined[..|TitleSeedRaw(claText)|]
    ensures var visible := Strip(TitleSeedRaw(claText), IsSpace);
      |visible| <= |Strip(SeedSource(claText), IsSpace)|
      && visible == Strip(SeedSource(claText), IsSpace)[..|visible|]
  {
    var source := SeedSource(claText);
    var collapsed := CollapseRuns(source, IsSpace, ' ');
    CollapseJoinsFields(source, IsSpace, ' ');
    CollapseRunsKeeps(source, IsSpace, ' ');
    var r := TitleSeedRaw(claText);
    assert r == collapsed[..|r|];
    StripOfPrefix(collapsed, |r|, IsSpace);
  }

  /** Stripping a text is stripping its first `k` characters, then the rest. */
  lemma StripOfPrefix(s: string, k: nat, p: char -> bool)
    requires k <= |s|
    ensures Strip(s, p) == Strip(s[..k], p) + Strip(s[k..], p)
  {
    assert s == s[..k] + s[k..];
    StripAppend(s[..k], s[k..], p);
  }

  /** For a CLA that is not blank, the title seed is the first 28 characters of the CLA's
      words joined by single spaces. */
  lemma TitleSeedFromCla(claText: string)
    requires !IsBlank(claText)
    ensures TitleSeedRaw(claText) == SliceTo(Join(Words(claText), " "), TitleSeedLength)
  {
    TitleSeedOfWords(claText);
    WordsOfTrim(claText);
    assert Words(SeedSource(claText)) == Words(claText);
  }

  /** `seed || "コアランゲージ"`: the second fallback of `generateTitleIdeas`. */
  function TitleSeed(claText: string): (r: string)
    ensures |r| > 0
  {
    var seed := TitleSeedRaw(claText);
    if seed != "" then seed else DefaultSeed
  }

  /** The second fallback never fires: the raw seed starts with the seed source's first
      character, which is not white space. */
  lemma TitleSeedFallbackUnused(claText: string)
    ensures TitleSeed(claText) == TitleSeedRaw(claText)
    ensures TitleSeedRaw(claText)[0] == SeedSource(claText)[0] && !IsSpace(TitleSeedRaw(claText)[0])
  {
  }

  /** The ten templates, each as the text before and after the seed. */
  const TitleTemplates: seq<(string, string)> := [
    ("【保存版】", "を言語化するための7つの質問"),
    ("", "が定まらないときに見るチェックリスト"),
    ("", "を刺さる一文に変えるコツ"),
    ("", "を“読まれる構成”に落とす手順"),
    ("失敗しない", "：よくある誤解と対策"),
    ("", "を武器にする：小さく試す実践ステップ"),
    ("なぜ", "は伝わらないのか？原因を分解する"),
    ("", "の具体例10選（そのまま使える）"),
    ("", "を磨く：問い直しのフレームワーク"),
    ("", "から記事テーマを量産する方法")
  ]

  lemma ContainsMiddle(pre: string, s: string, post: string)
    ensures Contains(pre + s + post, s)
  {
    var t := pre + s + post;
    assert t[|pre|..|pre| + |s|] == s;
    assert OccursAt(t, s, |pre|);
    ContainsIff(t, s);
  }

  /** One template filled with the seed. */
  function FillTemplate(template: (string, string), seed: string): (r: string)
    ensures Contains(r, seed)
  {
    ContainsMiddle(template.0, seed, template.1);
    template.0 + seed + template.1
  }

  /** `generateTitleIdeas`: ten titles, each holding the seed. */
  function GenerateTitleIdeas(claText: string): (r: seq<string>)
    ensures |r| == TitleIdeaCount
    ensures forall i :: 0 <= i < |r| ==> Contains(r[i], TitleSeed(claText))
  {
    TitleIdeasFor(TitleSeed(claText))
  }

  /** The ten templates filled with one seed. */
  function TitleIdeasFor(seed: string): (r: seq<string>)
    ensures |r| == TitleIdeaCount
    ensures forall i :: 0 <= i < |r| ==> Contains(r[i], seed)
  {
    var all := FillAll(TitleTemplates, seed);
    TemplateCount();
    assert |all| == TitleIdeaCount;
    var r := SliceTo(all, TitleIdeaCount);
    assert r == all;
    r
  }

  lemma TemplateCount()
    ensures |TitleTemplates| == TitleIdeaCount
  {
  }

  /** Every template filled with the seed, in order. */
  function FillAll(templates: seq<(string, string)>, seed: string): (r: seq<string>)
    ensures |r| == |templates|
    ensures forall i :: 0 <= i < |r| ==> r[i] == FillTemplate(templates[i], seed) && Contains(r[i], seed)
  {
    if |templates| == 0 then [] else [FillTemplate(templates[0], seed)] + FillAll(templates[1..], seed)
  }

  // ---- Body ----

  const BodyIntro := "この記事では、アウトライン承認後に本文を生成するフローをデモします。"
  const BodyNote := "（本番ではLLMのストリーミング生成に置き換えます）"

  predicate NonEmpty(s: string) {
    s != ""
  }

  /** The body's paragraphs: title, two fixed sentences and the outline, empty ones dropped. */
  function BodyParagraphs(title: string, outline: string): (r: seq<string>)
    ensures forall i :: 0 <= i < |r| ==> r[i] != ""
    ensures r == Present(title) + [BodyIntro, BodyNote] + Present(outline)
  {
    BodyParagraphsShape(title, BodyIntro, BodyNote, outline);
    Filter([title, BodyIntro, BodyNote, "", outline], NonEmpty)
  }

  /** The one-element list of a non-empty string, the empty list for "". */
  function Present(s: string): (r: seq<string>)
    ensures |r| <= 1 && (|r| == 1 <==> s != "") && (|r| == 1 ==> r[0] == s)
  {
    if s != "" then [s] else []
  }

  lemma FilterPresentCons(x: string, rest: seq<string>)
    ensures Filter([x] + rest, NonEmpty) == Present(x) + Filter(rest, NonEmpty)
  {
    FilterCons(x, rest, NonEmpty);
  }

  lemma BodyParagraphsShape(title: string, intro: string, note: string, outline: string)
    requires intro != "" && note != ""
    ensures Filter([title, intro, note, "", outline], NonEmpty)
      == Present(title) + [intro, note] + Present(outline)
  {
    var e: seq<string> := [];
    var r3 := [outline] + e;
    var r2 := [""] + r3;
    var r1 := [note] + r2;
    var r0 := [intro] + r1;
    FilterPresentCons(outline, e);
    FilterPresentCons("", r3);
    FilterPresentCons(note, r2);
    FilterPresentCons(intro, r1);
    FilterPresentCons(title, r0);
    FiveAsConses(title, intro, note, outline);
    PresentFive(title, intro, note, outline);
  }

  lemma FiveAsConses(a: string, b: string, c: string, d: string)
    ensures [a] + ([b] + ([c] + ([""] + ([d] + [])))) == [a, b, c, "", d]
  {
  }

  lemma PresentFive(a: string, b: string, c: string, d: string)
    requires b != "" && c != ""
    ensures Present(a) + (Present(b) + (Present(c) + (Present("") + (Present(d) + []))))
      == Present(a) + [b, c] + Present(d)
  {
    var e: seq<string> := [];
    assert Present("") == e;
    assert Present(b) == [b] && Present(c) == [c];
  }

  function ParagraphBlock(text: string): BlockNode {
    BlockNode(Some("paragraph"), Some([InlineNode(Some("text"), Some(text))]))
  }

  /** The document: one paragraph holding one text node per paragraph string. */
  function ParagraphDoc(paragraphs: seq<string>): (d: Doc)
    ensures d.kind == Some("doc") && d.content.Some? && |d.content.value| == |paragraphs|
    ensures forall i :: 0 <= i < |paragraphs| ==> d.content.value[i] == ParagraphBlock(paragraphs[i])
  {
    Doc(Some("doc"), Some(seq(|paragraphs|, i requires 0 <= i < |paragraphs| => ParagraphBlock(paragraphs[i]))))
  }

  /** `p && p !== title`: a paragraph the excerpt may come from. */
  function ExcerptCandidate(title: string): string -> bool {
    p => p != "" && p != title
  }

  /** The generated body: the document (serialized by the source) and the excerpt. */
  datatype GeneratedBody = GeneratedBody(doc: Doc, excerpt: string)

  /** `generateBodyAsTiptapJson`. The excerpt is the first 160 characters of the first
      paragraph that differs from the title, which is always the first fixed sentence
      unless the title is that sentence. */
  function GenerateBody(title: string, outline: string): (r: GeneratedBody)
    ensures r.doc == ParagraphDoc(BodyParagraphs(title, outline))
    ensures |r.excerpt| <= ExcerptLength
    ensures r.excerpt == (if title == BodyIntro then BodyNote else BodyIntro)
  {
    var paragraphs := BodyParagraphs(title, outline);
    BodyExcerpt(title, outline);
    GeneratedBody(ParagraphDoc(paragraphs), SliceTo(Find(paragraphs, ExcerptCandidate(title)).GetOr(""), ExcerptLength))
  }

  lemma BodyExcerpt(title: string, outline: string)
    ensures Find(BodyParagraphs(title, outline), ExcerptCandidate(title))
      == Some(if title == BodyIntro then BodyNote else BodyIntro)
  {
    assert |BodyIntro| != |BodyNote|;
    FirstCandidate(title, BodyIntro, BodyNote, outline);
  }

  /** The first paragraph other than the title is the first fixed sentence, or the second
      when the title equals the first. */
  lemma {:induction false} FirstCandidate(title: string, intro: string, note: string, outline: string)
    requires intro != "" && note != "" && intro != note
    ensures Find(Present(title) + [intro, note] + Present(outline), ExcerptCandidate(title))
      == Some(if title == intro then note else intro)
  {
    var ps := Present(title) + [intro, note] + Present(outline);
    var f := ExcerptCandidate(title);
    var k := |Present(title)|;
    assert ps[k] == intro && ps[k + 1] == note;
    var expected := if title == intro then k + 1 else k;
    assert f(ps[expected]);
    assert forall j :: 0 <= j < expected ==> !f(ps[j]);
    var r := Find(ps, f);
    var i :| 0 <= i < |ps| && ps[i] == r.value && f(ps[i]) && forall j :: 0 <= j < i ==> !f(ps[j]);
    assert i == expected;
  }

  // ---- CLA, batch and title ideas ----

  datatype ClaAndBatch = ClaAndBatch(cla: CoreLanguageArtifact, batch: ContentPlanBatch, titleIdeas: seq<TitleIdea>)

  /** The bundle hangs together: the batch belongs to the CLA, every idea to the batch, all
      to one owner, every idea still proposed. */
  ghost predicate Linked(r: ClaAndBatch) {
    && r.batch.claId == r.cla.id
    && r.batch.ownerId == r.cla.ownerId
    && (forall i :: 0 <= i < |r.titleIdeas| ==>
          && r.titleIdeas[i].batchId == r.batch.id
          && r.titleIdeas[i].ownerId == r.cla.ownerId
          && r.titleIdeas[i].status == Proposed)
  }

  /** `createClaAndBatch`: the random ids and the clock reading are parameters
      (`ideaId(i)` is the id drawn for the i-th idea). */
  function CreateClaAndBatch(ownerId: Id, claText: string, claId: Id, batchId: Id, ideaId: nat -> Id, t: Instant): (r: ClaAndBatch)
    ensures Linked(r)
    ensures r.cla.ownerId == ownerId && r.cla.content == claText && r.cla.version == 1
    ensures r.cla.id == claId && r.batch.id == batchId
    ensures r.cla.createdAt == t && r.cla.updatedAt == t && r.batch.createdAt == t && r.batch.updatedAt == t
    ensures forall i :: 0 <= i < |r.titleIdeas| ==>
      r.titleIdeas[i].id == ideaId(i) && r.titleIdeas[i].createdAt == t && r.titleIdeas[i].updatedAt == t
    ensures |r.titleIdeas| == TitleIdeaCount
    ensures forall i :: 0 <= i < |r.titleIdeas| ==> r.titleIdeas[i].title == GenerateTitleIdeas(claText)[i]
    ensures forall i :: 0 <= i < |r.titleIdeas| ==> Contains(r.titleIdeas[i].title, TitleSeed(claText))
  {
    var cla := CoreLanguageArtifact(claId, ownerId, claText, 1, t, t);
    var batch := ContentPlanBatch(batchId, ownerId, cla.id, t, t);
    var titles := GenerateTitleIdeas(claText);
    ClaAndBatch(cla, batch, ProposedIdeas(titles, ownerId, batch.id, ideaId, t))
  }

  /** One proposed idea per title, in order, all in one batch and stamped with one time. */
  function ProposedIdeas(titles: seq<string>, ownerId: Id, batchId: Id, ideaId: nat -> Id, t: Instant): (r: seq<TitleIdea>)
    ensures |r| == |titles|
    ensures forall i :: 0 <= i < |r| ==>
      && r[i].id == ideaId(i) && r[i].ownerId == ownerId && r[i].batchId == batchId
      && r[i].title == titles[i] && r[i].status == Proposed
      && r[i].createdAt == t && r[i].updatedAt == t
  {
    seq(|titles|, i requires 0 <= i < |titles| => TitleIdea(ideaId(i), ownerId, batchId, titles[i], Proposed, t, t))
  }
}
