/** How a generated article reads back on the public page: the body that
    `generateBodyAsTiptapJson` (src/lib/localDb.ts) stores is what `extractPlainParagraphs`
    and `renderContentFromPlainText` (src/components/public/BunkoArticleDetail.tsx) show.
    The JSON text between the two is taken to parse back to the document it was written
    from. */
module GeneratedArticle {
  import opened Wrappers
  import opened Seqs
  import opened Text
  import opened Domain
  import opened Generators
  import opened ArticleDetail

  lemma ParagraphBlockText(p: string)
    ensures BlockText(ParagraphBlock(p).content.GetOr([])) == p
  {
    var nodes := [InlineNode(Some("text"), Some(p))];
    assert nodes[1..] == [];
  }

  /** Reading the paragraphs back out of a paragraph document gives the non-blank ones,
      in order. */
  lemma {:induction false} ParagraphsOfParagraphDoc(ps: seq<string>)
    ensures ParagraphsOf(ParagraphDoc(ps).content.value) == Filter(ps, NotBlank)
    decreases |ps|
  {
    if |ps| > 0 {
      var blocks := ParagraphDoc(ps).content.value;
      assert blocks[1..] == ParagraphDoc(ps[1..]).content.value;
      ParagraphsOfParagraphDoc(ps[1..]);
      ParagraphBlockText(ps[0]);
      FilterCons(ps[0], ps[1..], NotBlank);
      assert ps == [ps[0]] + ps[1..];
    }
  }

  /** `extractPlainParagraphs` after `generateBodyAsTiptapJson`: every generated paragraph
      that is not blank comes back, in order. */
  lemma ExtractGeneratedBody(title: string, outline: string)
    ensures ExtractPlainParagraphs(Some(GenerateBody(title, outline).doc))
      == Filter(BodyParagraphs(title, outline), NotBlank)
  {
    ParagraphsOfParagraphDoc(BodyParagraphs(title, outline));
  }

  lemma VisibleStartNotBlank(s: string)
    requires |s| > 0 && !IsSpace(s[0])
    ensures !IsBlank(s)
  {
    BlankIffAllSpace(s);
  }

  lemma FixedSentencesVisible()
    ensures |BodyIntro| > 0 && !IsSpace(BodyIntro[0]) && !IsSpace(BodyIntro[|BodyIntro| - 1])
    ensures |BodyNote| > 0 && !IsSpace(BodyNote[0]) && !IsSpace(BodyNote[|BodyNote| - 1])
    ensures BodyIntro[0] != '#' && BodyIntro[0] != '>' && BodyNote[0] != '#' && BodyNote[0] != '>'
    ensures '\n' !in BodyIntro && '\n' !in BodyNote
  {
    IntroVisible();
    NoteVisible();
  }

  lemma IntroVisible()
    ensures |BodyIntro| > 0 && !IsSpace(BodyIntro[0]) && !IsSpace(BodyIntro[|BodyIntro| - 1])
    ensures BodyIntro[0] != '#' && BodyIntro[0] != '>' && '\n' !in BodyIntro
  {
    IntroEnds();
    IntroOneLine();
  }

  lemma IntroEnds()
    ensures |BodyIntro| > 0 && !IsSpace(BodyIntro[0]) && !IsSpace(BodyIntro[|BodyIntro| - 1])
    ensures BodyIntro[0] != '#' && BodyIntro[0] != '>'
  {
    assert BodyIntro[0] == 'こ' && BodyIntro[|BodyIntro| - 1] == '。';
  }

  lemma IntroOneLine()
    ensures '\n' !in BodyIntro
  {
  }

  lemma NoteVisible()
    ensures |BodyNote| > 0 && !IsSpace(BodyNote[0]) && !IsSpace(BodyNote[|BodyNote| - 1])
    ensures BodyNote[0] != '#' && BodyNote[0] != '>' && '\n' !in BodyNote
  {
    NoteEnds();
    NoteOneLine();
  }

  lemma NoteEnds()
    ensures |BodyNote| > 0 && !IsSpace(BodyNote[0]) && !IsSpace(BodyNote[|BodyNote| - 1])
    ensures BodyNote[0] != '#' && BodyNote[0] != '>'
  {
    assert BodyNote[0] == '（' && BodyNote[|BodyNote| - 1] == '）';
  }

  lemma NoteOneLine()
    ensures '\n' !in BodyNote
  {
  }

  lemma AllVisibleKept(title: string, intro: string, note: string, outline: string)
    requires NotBlank(title) && NotBlank(intro) && NotBlank(note) && NotBlank(outline)
    ensures Filter([title, intro, note, outline], NotBlank) == [title, intro, note, outline]
  {
    FilterKeepsFour(title, intro, note, outline, NotBlank);
  }

  lemma TitleFirstDropped(ps: seq<string>, title: string)
    requires |ps| > 0 && ps[0] == title
    ensures DropLeadingTitle(ps, title) == ps[1..]
  {
  }

  lemma TailOfFour(title: string, intro: string, note: string, outline: string)
    ensures [title, intro, note, outline][1..] == [intro, note, outline]
  {
  }

  lemma FourVisibleParagraphs(title: string, intro: string, note: string, outline: string)
    requires NotBlank(title) && NotBlank(intro) && NotBlank(note) && NotBlank(outline)
    ensures DropLeadingTitle(Filter([title, intro, note, outline], NotBlank), title) == [intro, note, outline]
  {
    AllVisibleKept(title, intro, note, outline);
    TitleFirstDropped([title, intro, note, outline], title);
    TailOfFour(title, intro, note, outline);
  }

  lemma NonBlankIsPresent(s: string)
    requires !IsBlank(s)
    ensures Present(s) == [s]
  {
    BlankIffAllSpace("");
  }

  lemma PresentFour(title: string, intro: string, note: string, outline: string)
    requires !IsBlank(title) && !IsBlank(outline)
    ensures Present(title) + [intro, note] + Present(outline) == [title, intro, note, outline]
  {
    NonBlankIsPresent(title);
    NonBlankIsPresent(outline);
  }

  lemma BodyShown(title: string, intro: string, note: string, outline: string, body: seq<string>)
    requires body == Present(title) + [intro, note] + Present(outline)
    requires NotBlank(title) && NotBlank(intro) && NotBlank(note) && NotBlank(outline)
    ensures DropLeadingTitle(Filter(body, NotBlank), title) == [intro, note, outline]
  {
    PresentFour(title, intro, note, outline);
    FourVisibleParagraphs(title, intro, note, outline);
  }

  /** With a non-blank title and outline, the page shows the two fixed sentences and the
      outline: the title paragraph is the one the page drops. */
  lemma GeneratedParagraphsShown(title: string, outline: string)
    requires !IsBlank(title) && !IsBlank(outline)
    ensures DropLeadingTitle(ExtractPlainParagraphs(Some(GenerateBody(title, outline).doc)), title)
      == [BodyIntro, BodyNote, outline]
  {
    ExtractGeneratedBody(title, outline);
    FixedSentencesVisible();
    VisibleStartNotBlank(BodyIntro);
    VisibleStartNotBlank(BodyNote);
    BodyShown(title, BodyIntro, BodyNote, outline, BodyParagraphs(title, outline));
  }

  // ---- The rendered blocks ----

  /** No two line breaks in a row. */
  ghost predicate NoBlankLine(s: string) {
    forall j :: 0 <= j < |s| - 1 ==> !(s[j] == '\n' && s[j + 1] == '\n')
  }

  lemma NoBlankLineNoBreak(s: string)
    requires NoBlankLine(s)
    ensures !Contains(s, ParagraphBreak)
  {
    ContainsIff(s, ParagraphBreak);
    forall j
      ensures !OccursAt(s, ParagraphBreak, j)
    {
      if 0 <= j && j + 2 <= |s| {
        assert s[j..j + 2][0] == s[j] && s[j..j + 2][1] == s[j + 1];
      }
    }
  }

  /** Non-empty lines without line breaks, joined by single line breaks: the text starts
      with the first line's first character, ends with the last line's last character, and
      has no blank line. */
  lemma {:induction false} JoinedLinesShape(lines: seq<string>)
    requires |lines| >= 1
    requires forall k :: 0 <= k < |lines| ==> |lines[k]| > 0 && '\n' !in lines[k]
    ensures var s := Join(lines, "\n");
      && |s| > 0 && s[0] == lines[0][0]
      && s[|s| - 1] == lines[|lines| - 1][|lines[|lines| - 1]| - 1]
      && NoBlankLine(s)
    decreases |lines|
  {
    var s := Join(lines, "\n");
    if |lines| > 1 {
      var l0 := lines[0];
      var r := Join(lines[1..], "\n");
      JoinedLinesShape(lines[1..]);
      assert s == l0 + "\n" + r;
      forall j | 0 <= j < |s| - 1
        ensures !(s[j] == '\n' && s[j + 1] == '\n')
      {
        if j < |l0| {
          assert s[j] == l0[j];
        } else if j == |l0| {
          assert s[j + 1] == r[0];
        } else {
          assert s[j] == r[j - |l0| - 1] && s[j + 1] == r[j - |l0|];
        }
      }
    }
  }

  /** A chunk that opens with "# " renders as a heading of the rest. */
  lemma HeadingChunk(title: string)
    ensures ClassifyChunk("# " + title) == Some(Heading(title))
  {
    var part := "# " + title;
    VisibleStartNotBlank(part);
    assert part[..2] == "# ";
  }

  /** A single line of visible text that does not open with '#', '>' or a space renders as
      a paragraph of itself. */
  lemma SentenceIsParagraph(s: string)
    requires |s| > 0 && !IsSpace(s[0]) && !IsSpace(s[|s| - 1])
    requires s[0] != '#' && s[0] != '>' && '\n' !in s
    ensures ClassifyChunk(s) == Some(Paragraph(s))
  {
    VisibleStartNotBlank(s);
    NoHeadingMarker(s);
    TrimOfTrimmed(s);
    SplitJoinedLines([s]);
  }

  /** The text of a list item: visible at both ends, on one line. */
  ghost predicate ItemText(x: string) {
    |x| > 0 && !IsSpace(x[0]) && !IsSpace(x[|x| - 1]) && '\n' !in x
  }

  lemma DropOneSpace(x: string)
    requires |x| > 0 && !IsSpace(x[0])
    ensures DropWhile(" " + x, IsSpace) == x
  {
    assert (" " + x)[1..] == x;
  }

  lemma BulletShape(x: string)
    requires ItemText(x)
    ensures var l := Bullet(x);
      && |l| > 2 && l[0] == '-' && l[1] == ' ' && l[1..] == " " + x
      && !IsSpace(l[|l| - 1]) && StartsWith(l, "- ")
  {
    var l := Bullet(x);
    assert l[|l| - 1] == x[|x| - 1];
    assert l[..2] == "- ";
  }

  /** A bullet line gives back its text as the list item. */
  lemma BulletItem(x: string)
    requires ItemText(x)
    ensures IsDashLine(Bullet(x)) && DashItem(Bullet(x)) == x
  {
    var l := Bullet(x);
    BulletShape(x);
    TrimOfTrimmed(l);
    assert StripDashMarker(l) == DropWhile(" " + x, IsSpace);
    DropOneSpace(x);
    TrimOfTrimmed(x);
  }

  lemma UntrimmedListFacts(s: string, lines: seq<string>)
    requires Trim(s) == s && |s| > 0 && s[0] != '>'
    requires Split(s, "\n") == lines && IsDashBlock(lines)
    ensures Split(Trim(s), "\n") == lines && !IsQuoteChunk(s)
  {
  }

  lemma ListBody(s: string, lines: seq<string>)
    requires !IsQuoteChunk(s) && Split(Trim(s), "\n") == lines && IsDashBlock(lines)
    ensures ClassifyBody(s) == DashList(Map(lines, DashItem))
  {
  }

  /** A chunk that needs no trimming, does not open with '>' and splits into a list of
      dash lines is that list. */
  lemma DashBodyIsList(s: string, lines: seq<string>)
    requires Trim(s) == s && |s| > 0 && s[0] != '>'
    requires Split(s, "\n") == lines && IsDashBlock(lines)
    ensures ClassifyBody(s) == DashList(Map(lines, DashItem))
  {
    UntrimmedListFacts(s, lines);
    ListBody(s, lines);
  }

  /** A chunk whose first character is not '#' is no heading of either level. */
  lemma NoHeadingMarker(s: string)
    requires |s| > 0 && s[0] != '#'
    ensures !StartsWith(s, "# ") && !StartsWith(s, "## ")
  {
    if |s| >= 2 {
      assert s[..2][0] == s[0];
      assert s[..2] != "# ";
    }
    if |s| >= 3 {
      assert s[..3][0] == s[0];
      assert s[..3] != "## ";
    }
  }

  /** A chunk opening with '-' is neither blank nor a heading of either level. */
  lemma DashOpenedChunk(s: string)
    requires |s| > 0 && s[0] == '-'
    ensures !IsBlank(s) && !StartsWith(s, "# ") && !StartsWith(s, "## ")
  {
    VisibleStartNotBlank(s);
    NoHeadingMarker(s);
  }

  /** A text that opens with '-', ends visibly and splits into a list of dash lines
      renders as that list. */
  lemma DashTextIsList(s: string, lines: seq<string>)
    requires |s| > 0 && s[0] == '-' && !IsSpace(s[|s| - 1])
    requires Split(s, "\n") == lines && IsDashBlock(lines)
    ensures ClassifyChunk(s) == Some(DashList(Map(lines, DashItem)))
  {
    DashOpenedChunk(s);
    TrimOfTrimmed(s);
    DashBodyIsList(s, lines);
  }

  /** Everything the page needs of one bullet line. */
  lemma BulletLineShape(x: string)
    requires ItemText(x)
    ensures var l := Bullet(x);
      && |l| > 0 && '\n' !in l && l[0] == '-' && !IsSpace(l[|l| - 1])
  {
    BulletShape(x);
    NewlineFreeConcat("- ", x);
  }

  lemma BulletLine(x: string)
    requires ItemText(x)
    ensures var l := Bullet(x);
      && |l| > 0 && '\n' !in l && l[0] == '-' && !IsSpace(l[|l| - 1])
      && IsDashLine(l) && DashItem(l) == x
  {
    BulletLineShape(x);
    BulletItem(x);
  }

  lemma BulletLines(points: seq<string>)
    requires forall k :: 0 <= k < |points| ==> ItemText(points[k])
    ensures var lines := Map(points, Bullet);
      && (forall k :: 0 <= k < |lines| ==> |lines[k]| > 0 && '\n' !in lines[k] && lines[k][0] == '-')
      && (forall k :: 0 <= k < |lines| ==> IsDashLine(lines[k]) && !IsSpace(lines[k][|lines[k]| - 1]))
      && Map(lines, DashItem) == points
  {
    forall k | 0 <= k < |points|
      ensures var l := Bullet(points[k]);
        && |l| > 0 && '\n' !in l && l[0] == '-' && !IsSpace(l[|l| - 1])
        && IsDashLine(l) && DashItem(l) == points[k]
    {
      BulletLine(points[k]);
    }
    MapInverse(points, Bullet, DashItem);
  }

  /** Two or more bullet lines joined by line breaks render as one list of their texts. */
  lemma BulletsAreOneList(points: seq<string>)
    requires |points| >= 2 && forall k :: 0 <= k < |points| ==> ItemText(points[k])
    ensures ClassifyChunk(Join(Map(points, Bullet), "\n")) == Some(DashList(points))
  {
    var lines := Map(points, Bullet);
    BulletText(points);
    DashTextIsList(Join(lines, "\n"), lines);
  }

  /** The bullet lines joined by line breaks open with '-', end visibly and split back into
      a dash block whose items are the points. */
  lemma BulletText(points: seq<string>)
    requires |points| >= 2 && forall k :: 0 <= k < |points| ==> ItemText(points[k])
    ensures var lines := Map(points, Bullet); var s := Join(lines, "\n");
      && |s| > 0 && s[0] == '-' && !IsSpace(s[|s| - 1])
      && Split(s, "\n") == lines && IsDashBlock(lines)
      && Map(lines, DashItem) == points
  {
    var lines := Map(points, Bullet);
    BulletLines(points);
    JoinedLinesShape(lines);
    SplitJoinedLines(lines);
  }

  /** The outline as the page cuts it: the heading, a blank line, the bullets. */
  lemma OutlineAsChunks(title: string, seed: string)
    ensures Join(OutlineLines(title, seed), "\n") == "# " + title + ParagraphBreak + Join(OutlineBullets(seed), "\n")
  {
    var lines := OutlineLines(title, seed);
    var bullets := OutlineBullets(seed);
    assert lines[1..] == [""] + bullets;
    assert lines[1..][1..] == bullets;
    assert Join(lines[1..], "\n") == "" + "\n" + Join(bullets, "\n");
  }

  lemma OutlinePointsAreItems(seed: string)
    requires '\n' !in seed
    ensures forall k :: 0 <= k < |OutlinePoints(seed)| ==> ItemText(OutlinePoints(seed)[k])
  {
    OutlinePointsNewlineFree(seed);
    var first := "なぜ今「" + seed + "」が重要か";
    assert first[0] == 'な' && first[|first| - 1] == 'か';
  }

  lemma JoinFourChunks(i: string, n: string, h: string, d: string)
    ensures Join([i, n, h + ParagraphBreak + d], ParagraphBreak) == Join([i, n, h, d], ParagraphBreak)
  {
    var x := h + ParagraphBreak + d;
    assert [i, n, x][1..] == [n, x] && [n, x][1..] == [x];
    assert [i, n, h, d][1..] == [n, h, d] && [n, h, d][1..] == [h, d] && [h, d][1..] == [d];
    assert Join([h, d], ParagraphBreak) == x;
    assert Join([n, x], ParagraphBreak) == n + ParagraphBreak + x;
    assert Join([n, h, d], ParagraphBreak) == n + ParagraphBreak + x;
    assert Join([i, n, x], ParagraphBreak) == i + ParagraphBreak + (n + ParagraphBreak + x);
    assert Join([i, n, h, d], ParagraphBreak) == i + ParagraphBreak + (n + ParagraphBreak + x);
  }

  lemma SplitFour(parts: seq<string>)
    requires |parts| == 4 && '\n' !in parts[0] && '\n' !in parts[1] && '\n' !in parts[2]
    requires !Contains(parts[3], ParagraphBreak)
    ensures Split(Join(parts, ParagraphBreak), ParagraphBreak) == parts
  {
    assert ParagraphBreak[0] == '\n';
    SplitOfJoin(parts, ParagraphBreak);
  }

  /** Four chunks, the first three on one line each and no paragraph break in the last,
      render chunk by chunk. */
  lemma RenderFour(parts: seq<string>)
    requires |parts| == 4 && '\n' !in parts[0] && '\n' !in parts[1] && '\n' !in parts[2]
    requires !Contains(parts[3], ParagraphBreak)
    ensures RenderContentFromPlainText(Join(parts, ParagraphBreak)) == Map(parts, ClassifyChunk)
  {
    SplitFour(parts);
  }

  /** The outline's list text: non-empty, with no paragraph break in it. */
  lemma OutlineListText(seed: string)
    requires '\n' !in seed
    ensures !Contains(Join(OutlineBullets(seed), "\n"), ParagraphBreak)
  {
    var points := OutlinePoints(seed);
    OutlinePointsAreItems(seed);
    BulletLines(points);
    JoinedLinesShape(OutlineBullets(seed));
    NoBlankLineNoBreak(Join(OutlineBullets(seed), "\n"));
  }

  /** The paragraphs the page keeps of a generated article: the two fixed sentences and
      the outline, which is the title heading and the list text separated by a blank line. */
  lemma GeneratedOutlineShown(title: string, claText: string)
    requires !IsBlank(title)
    ensures DropLeadingTitle(ExtractPlainParagraphs(Some(GenerateBody(title, GenerateOutline(title, claText)).doc)), title)
      == [BodyIntro, BodyNote, "# " + title + ParagraphBreak + Join(OutlineBullets(OutlineSeed(claText)), "\n")]
  {
    var seed := OutlineSeed(claText);
    var outline := GenerateOutline(title, claText);
    var h := "# " + title;
    OutlineAsChunks(title, seed);
    assert outline[0] == '#' by {
      assert outline[..|h|] == h;
    }
    VisibleStartNotBlank(outline);
    GeneratedParagraphsShown(title, outline);
  }

  /** The page showing a generated article: the two fixed sentences as paragraphs, the
      title heading of the outline, and the outline's five points as one list; the title
      paragraph itself is dropped. */
  lemma GeneratedArticleRenders(title: string, claText: string)
    requires !IsBlank(title) && '\n' !in title && '\n' !in OutlineSeed(claText)
    ensures ArticleBlocks(Some(GenerateBody(title, GenerateOutline(title, claText)).doc), title)
      == [ Some(Paragraph(BodyIntro)), Some(Paragraph(BodyNote)), Some(Heading(title)),
           Some(DashList(OutlinePoints(OutlineSeed(claText)))) ]
  {
    GeneratedArticleChunks(title, claText);
    FourChunksClassified(title, OutlineSeed(claText));
  }

  /** The page cuts a generated article's kept paragraphs into the two sentences, the
      heading line and the list text. */
  lemma GeneratedArticleChunks(title: string, claText: string)
    requires !IsBlank(title) && '\n' !in title && '\n' !in OutlineSeed(claText)
    ensures ArticleBlocks(Some(GenerateBody(title, GenerateOutline(title, claText)).doc), title)
      == Map([BodyIntro, BodyNote, "# " + title, Join(OutlineBullets(OutlineSeed(claText)), "\n")], ClassifyChunk)
  {
    GeneratedArticleText(title, claText);
    GeneratedChunksRender(title, OutlineSeed(claText));
  }

  /** The kept paragraphs of a generated article, joined, are the four chunks joined. */
  lemma GeneratedArticleText(title: string, claText: string)
    requires !IsBlank(title)
    ensures Join(DropLeadingTitle(ExtractPlainParagraphs(Some(GenerateBody(title, GenerateOutline(title, claText)).doc)), title), ParagraphBreak)
      == Join([BodyIntro, BodyNote, "# " + title, Join(OutlineBullets(OutlineSeed(claText)), "\n")], ParagraphBreak)
  {
    GeneratedOutlineShown(title, claText);
    JoinFourChunks(BodyIntro, BodyNote, "# " + title, Join(OutlineBullets(OutlineSeed(claText)), "\n"));
  }

  /** The four chunks of a generated article come back apart and render one by one. */
  lemma GeneratedChunksRender(title: string, seed: string)
    requires '\n' !in title && '\n' !in seed
    ensures var parts := [BodyIntro, BodyNote, "# " + title, Join(OutlineBullets(seed), "\n")];
      RenderContentFromPlainText(Join(parts, ParagraphBreak)) == Map(parts, ClassifyChunk)
  {
    FixedSentencesVisible();
    FixedOutlineLinesNewlineFree();
    NewlineFreeConcat("# ", title);
    OutlineListText(seed);
    RenderFour([BodyIntro, BodyNote, "# " + title, Join(OutlineBullets(seed), "\n")]);
  }

  /** The four chunks of a generated article are two paragraphs, the title heading and
      the outline's points as one list. */
  lemma FourChunksClassified(title: string, seed: string)
    requires '\n' !in seed
    ensures Map([BodyIntro, BodyNote, "# " + title, Join(OutlineBullets(seed), "\n")], ClassifyChunk)
      == [ Some(Paragraph(BodyIntro)), Some(Paragraph(BodyNote)), Some(Heading(title)),
           Some(DashList(OutlinePoints(seed))) ]
  {
    var h, d := "# " + title, Join(OutlineBullets(seed), "\n");
    MapOfFour(BodyIntro, BodyNote, h, d, ClassifyChunk);
    EachChunkClassified(title, seed);
  }

  lemma EachChunkClassified(title: string, seed: string)
    requires '\n' !in seed
    ensures ClassifyChunk(BodyIntro) == Some(Paragraph(BodyIntro))
    ensures ClassifyChunk(BodyNote) == Some(Paragraph(BodyNote))
    ensures ClassifyChunk("# " + title) == Some(Heading(title))
    ensures ClassifyChunk(Join(OutlineBullets(seed), "\n")) == Some(DashList(OutlinePoints(seed)))
  {
    FixedSentencesAreParagraphs();
    HeadingChunk(title);
    OutlineIsOneList(seed);
  }

  lemma FixedSentencesAreParagraphs()
    ensures ClassifyChunk(BodyIntro) == Some(Paragraph(BodyIntro))
    ensures ClassifyChunk(BodyNote) == Some(Paragraph(BodyNote))
  {
    FixedSentencesVisible();
    SentenceIsParagraph(BodyIntro);
    SentenceIsParagraph(BodyNote);
  }

  /** The outline's bullet lines form one list of its points. */
  lemma OutlineIsOneList(seed: string)
    requires '\n' !in seed
    ensures ClassifyChunk(Join(OutlineBullets(seed), "\n")) == Some(DashList(OutlinePoints(seed)))
  {
    OutlinePointsAreItems(seed);
    BulletsAreOneList(OutlinePoints(seed));
  }
}
