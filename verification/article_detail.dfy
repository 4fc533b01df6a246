/** The public article page (src/components/public/BunkoArticleDetail.tsx): plain
    paragraphs pulled out of the stored rich-text document, the leading title paragraph
    dropped, and the text cut into display blocks. */
module ArticleDetail {
  import opened Wrappers
  import opened Seqs
  import opened Text
  import opened Domain

  // ---- Paragraph extraction ----

  /** A text node's text; other nodes contribute nothing. */
  function InlineText(n: InlineNode): string {
    if n.kind == Some("text") then n.text.GetOr("") else ""
  }

  /** The concatenated text of a block's inline nodes. */
  function BlockText(nodes: seq<InlineNode>): (r: string)
    ensures |nodes| == 0 ==> r == ""
    decreases |nodes|
  {
    if |nodes| == 0 then "" else InlineText(nodes[0]) + BlockText(nodes[1..])
  }

  lemma {:induction false} BlockTextAppend(a: seq<InlineNode>, b: seq<InlineNode>)
    ensures BlockText(a + b) == BlockText(a) + BlockText(b)
    decreases |a|
  {
    if |a| == 0 {
      assert a + b == b;
    } else {
      assert (a + b)[1..] == a[1..] + b;
      BlockTextAppend(a[1..], b);
    }
  }

  /** The text of the paragraph blocks among `blocks`, in order, blank ones skipped. */
  function ParagraphsOf(blocks: seq<BlockNode>): (r: seq<string>)
    ensures |r| <= |blocks|
    ensures forall i :: 0 <= i < |r| ==> !IsBlank(r[i])
    decreases |blocks|
  {
    if |blocks| == 0 then []
    else
      var rest := ParagraphsOf(blocks[1..]);
      var b := blocks[0];
      if b.kind != Some("paragraph") then rest
      else
        var t := BlockText(b.content.GetOr([]));
        if IsBlank(t) then rest else [t] + rest
  }

  /** Extraction works block by block: the paragraphs of two block lists one after the
      other are the paragraphs of each, one after the other. */
  lemma {:induction false} ParagraphsOfAppend(a: seq<BlockNode>, b: seq<BlockNode>)
    ensures ParagraphsOf(a + b) == ParagraphsOf(a) + ParagraphsOf(b)
    decreases |a|
  {
    if |a| == 0 {
      assert a + b == b;
    } else {
      assert (a + b)[1..] == a[1..] + b;
      ParagraphsOfAppend(a[1..], b);
    }
  }

  predicate IsParagraphBlock(b: BlockNode) {
    b.kind == Some("paragraph")
  }

  /** The text of a block's inline nodes, a block without content giving "". */
  function BlockTextOf(b: BlockNode): string {
    BlockText(b.content.GetOr([]))
  }

  predicate NotBlank(s: string) {
    !IsBlank(s)
  }

  /** Extraction as a pipeline: keep the paragraph blocks, take the text of each, keep the
      texts that are not blank. */
  lemma {:induction false} ParagraphsOfIsPipeline(blocks: seq<BlockNode>)
    ensures ParagraphsOf(blocks) == Filter(Map(Filter(blocks, IsParagraphBlock), BlockTextOf), NotBlank)
    decreases |blocks|
  {
    if |blocks| > 0 {
      ParagraphsOfIsPipeline(blocks[1..]);
      PipelineHead(blocks, IsParagraphBlock, BlockTextOf, NotBlank);
      ParagraphsOfCons(blocks);
    }
  }

  /** One block, then the rest: its text if it is a paragraph that is not blank. */
  lemma ParagraphsOfCons(blocks: seq<BlockNode>)
    requires |blocks| > 0
    ensures ParagraphsOf(blocks) ==
      (if IsParagraphBlock(blocks[0]) && NotBlank(BlockTextOf(blocks[0])) then [BlockTextOf(blocks[0])] else [])
      + ParagraphsOf(blocks[1..])
  {
  }

  /** `extractPlainParagraphs`, given the parse result (`None` when the text is not a JSON
      object): the non-blank texts of the paragraph blocks, in order. */
  function ExtractPlainParagraphs(parsed: Option<Doc>): (r: seq<string>)
    ensures parsed.None? ==> r == []
    ensures parsed.Some? ==>
      r == Filter(Map(Filter(parsed.value.content.GetOr([]), IsParagraphBlock), BlockTextOf), NotBlank)
    ensures parsed.Some? ==> |r| <= |parsed.value.content.GetOr([])|
    ensures forall i :: 0 <= i < |r| ==> !IsBlank(r[i])
  {
    match parsed
    case None => []
    case Some(d) =>
      ParagraphsOfIsPipeline(d.content.GetOr([]));
      ParagraphsOf(d.content.GetOr([]))
  }

  /** The paragraphs filter of the page: the first paragraph goes when, trimmed, it is the
      trimmed title; nothing else is touched. */
  function DropLeadingTitle(paragraphs: seq<string>, title: string): (r: seq<string>)
    ensures |paragraphs| - 1 <= |r| <= |paragraphs|
    ensures r == paragraphs[|paragraphs| - |r|..]
    ensures |r| < |paragraphs| <==> |paragraphs| > 0 && Trim(paragraphs[0]) == Trim(title)
  {
    if |paragraphs| > 0 && Trim(paragraphs[0]) == Trim(title) then paragraphs[1..] else paragraphs
  }

  const ParagraphBreak := "\n\n"

  // ---- Display blocks ----

  datatype Block =
    | Heading(text: string)
    | Subheading(text: string)
    | Quote(text: string)
    | DashList(items: seq<string>)
    | Paragraph(text: string)

  /** `line.replace(/^>\s?/, "")`: a leading '>' goes, with one white-space character
      after it if there is one. */
  function StripQuoteMarker(line: string): (r: string)
    ensures |line| > 0 && line[0] == '>' ==>
      |line| - |r| == (if |line| > 1 && IsSpace(line[1]) then 2 else 1) && r == line[|line| - |r|..]
    ensures !(|line| > 0 && line[0] == '>') ==> r == line
  {
    if |line| > 0 && line[0] == '>' then
      if |line| > 1 && IsSpace(line[1]) then line[2..] else line[1..]
    else line
  }

  /** The text of a quote block: the marker taken off every line, the whole trimmed. */
  function QuoteText(trimmed: string): (r: string)
    ensures |r| > 0 ==> !IsSpace(r[0]) && !IsSpace(r[|r| - 1])
  {
    Trim(Join(Map(Split(trimmed, "\n"), StripQuoteMarker), "\n"))
  }

  /** A line as a quote: "> " in front of it. */
  function QuoteLine(line: string): string {
    "> " + line
  }

  lemma QuoteLineRoundTrip(line: string)
    ensures StripQuoteMarker(QuoteLine(line)) == line
  {
    assert QuoteLine(line)[0] == '>' && QuoteLine(line)[1] == ' ';
    assert QuoteLine(line)[2..] == line;
  }

  /** Quoting lines with "> " and reading the quote back gives the lines, trimmed as a
      whole. */
  lemma QuoteTextRoundTrip(lines: seq<string>)
    requires |lines| > 0 && forall k :: 0 <= k < |lines| ==> '\n' !in lines[k]
    ensures QuoteText(Join(Map(lines, QuoteLine), "\n")) == Trim(Join(lines, "\n"))
  {
    var quoted := Map(lines, QuoteLine);
    forall k | 0 <= k < |quoted|
      ensures '\n' !in quoted[k]
    {
      assert '\n' !in "> ";
      NewlineFreeConcat("> ", lines[k]);
    }
    SplitJoinedLines(quoted);
    forall k | 0 <= k < |lines|
      ensures StripQuoteMarker(QuoteLine(lines[k])) == lines[k]
    {
      QuoteLineRoundTrip(lines[k]);
    }
    MapInverse(lines, QuoteLine, StripQuoteMarker);
  }

  predicate IsDashLine(line: string) {
    StartsWith(Trim(line), "- ")
  }

  /** `s.replace(/^-\s+/, "")`: a leading '-' followed by white space goes, together
      with the whole run of white space after it. */
  function StripDashMarker(s: string): (r: string)
    ensures |s| > 1 && s[0] == '-' && IsSpace(s[1]) ==>
      && |r| < |s| - 1 && r == s[|s| - |r|..]
      && All(s[1..|s| - |r|], IsSpace) && (|r| > 0 ==> !IsSpace(r[0]))
    ensures !(|s| > 1 && s[0] == '-' && IsSpace(s[1])) ==> r == s
  {
    if |s| > 1 && s[0] == '-' && IsSpace(s[1]) then
      var r := DropWhile(s[1..], IsSpace);
      assert s[1..][..|s| - 1 - |r|] == s[1..|s| - |r|];
      r
    else s
  }

  /** One list item: `l.trim().replace(/^-\s+/, "").trim()`. */
  function DashItem(line: string): string {
    Trim(StripDashMarker(Trim(line)))
  }

  predicate NonEmpty(s: string) {
    s != ""
  }

  /** What is left of a trimmed dash line after its marker: the text after the '-',
      with leading white space dropped, still ends in a visible character. */
  lemma MarkerRestVisible(t: string)
    requires |t| >= 2 && t[0] == '-' && IsSpace(t[1]) && !IsSpace(t[|t| - 1])
    ensures |DropWhile(t[1..], IsSpace)| > 0
  {
    var tail := t[1..];
    assert tail[|tail| - 1] == t[|t| - 1];
    DropWhileKeepsLast(tail, IsSpace);
  }

  /** A dash line always leaves a non-empty item: its trimmed form ends in a character
      that is not white space, so something survives the marker. */
  lemma DashItemNonEmpty(line: string)
    requires IsDashLine(line)
    ensures DashItem(line) != ""
  {
    var t := Trim(line);
    assert t[..2] == "- ";
    assert t[0] == '-' && t[1] == ' ';
    MarkerRestVisible(t);
    var rest := DropWhile(t[1..], IsSpace);
    assert StripDashMarker(t) == rest;
    assert !IsSpace(rest[0]);
    BlankIffAllSpace(rest);
  }

  /** The items of a dash list. */
  function DashItems(lines: seq<string>): (items: seq<string>)
    ensures |items| <= |lines|
    ensures forall i :: 0 <= i < |items| ==> items[i] != ""
  {
    Filter(Map(lines, DashItem), NonEmpty)
  }

  /** The `.filter(Boolean)` on the items never drops one: every line of a dash list gives
      an item, in order. */
  lemma DashItemsKeepAll(lines: seq<string>)
    requires forall i :: 0 <= i < |lines| ==> IsDashLine(lines[i])
    ensures DashItems(lines) == Map(lines, DashItem)
  {
    var mapped := Map(lines, DashItem);
    forall i | 0 <= i < |mapped|
      ensures NonEmpty(mapped[i])
    {
      DashItemNonEmpty(lines[i]);
    }
    FilterKeepsAll(mapped, NonEmpty);
  }

  predicate IsDashBlock(lines: seq<string>) {
    |lines| >= 2 && forall i :: 0 <= i < |lines| ==> IsDashLine(lines[i])
  }

  predicate IsQuoteChunk(part: string) {
    var t := Trim(part);
    |t| > 0 && t[0] == '>'
  }

  lemma HeadingNotSubheading(part: string)
    requires StartsWith(part, "# ")
    ensures !StartsWith(part, "## ")
  {
    assert part[..2][1] == ' ';
    if |part| >= 3 {
      assert part[..3][1] == part[..2][1];
    }
  }

  /** A chunk that is neither blank nor a heading: a quote when the trimmed chunk opens
      with '>', a list when it has at least two lines all starting (after trimming) with
      "- ", and the chunk itself as a paragraph otherwise. */
  function ClassifyBody(part: string): (r: Block)
    ensures r.Quote? <==> IsQuoteChunk(part)
    ensures r.DashList? <==> !IsQuoteChunk(part) && IsDashBlock(Split(Trim(part), "\n"))
    ensures r.DashList? ==> r.items == Map(Split(Trim(part), "\n"), DashItem) && |r.items| >= 2
    ensures r.Paragraph? ==> r.text == part
    ensures !r.Heading? && !r.Subheading?
  {
    var trimmed := Trim(part);
    if |trimmed| > 0 && trimmed[0] == '>' then Quote(QuoteText(trimmed))
    else
      var lines := Split(trimmed, "\n");
      if IsDashBlock(lines) then
        DashItemsKeepAll(lines);
        DashList(DashItems(lines))
      else Paragraph(part)
  }

  /** A quote chunk shows the quote text of the trimmed chunk. */
  lemma QuoteChunkText(part: string)
    requires IsQuoteChunk(part)
    ensures ClassifyBody(part) == Quote(QuoteText(Trim(part)))
  {
  }

  /** One chunk of `renderContentFromPlainText`: nothing for a blank chunk, a heading after
      "# ", a subheading after "## ", otherwise as `ClassifyBody`. */
  function ClassifyChunk(part: string): (r: Option<Block>)
    ensures r.None? <==> IsBlank(part)
    ensures (r.Some? && r.value.Heading?) <==> !IsBlank(part) && StartsWith(part, "# ")
    ensures r.Some? && r.value.Heading? ==> part == "# " + r.value.text
    ensures (r.Some? && r.value.Subheading?) <==> !IsBlank(part) && StartsWith(part, "## ")
    ensures r.Some? && r.value.Subheading? ==> part == "## " + r.value.text
    ensures !IsBlank(part) && !StartsWith(part, "# ") && !StartsWith(part, "## ") ==>
      r == Some(ClassifyBody(part))
  {
    if IsBlank(part) then None
    else if StartsWith(part, "# ") then
      HeadingNotSubheading(part);
      Some(Heading(part[2..]))
    else if StartsWith(part, "## ") then Some(Subheading(part[3..]))
    else Some(ClassifyBody(part))
  }

  /** `renderContentFromPlainText`: one entry per "\n\n"-separated chunk, `None` where the
      page renders nothing. */
  function RenderContentFromPlainText(contentText: string): (r: seq<Option<Block>>)
    ensures |r| == |Split(contentText, ParagraphBreak)|
    ensures forall i :: 0 <= i < |r| ==> r[i] == ClassifyChunk(Split(contentText, ParagraphBreak)[i])
  {
    Map(Split(contentText, ParagraphBreak), ClassifyChunk)
  }

  /** What the page shows for an article body: the extracted paragraphs, the leading title
      dropped, joined with blank lines and cut into blocks. */
  function ArticleBlocks(parsed: Option<Doc>, title: string): seq<Option<Block>> {
    RenderContentFromPlainText(Join(DropLeadingTitle(ExtractPlainParagraphs(parsed), title), ParagraphBreak))
  }
}
