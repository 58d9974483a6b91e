/**
 * Line extraction from the first page of a PDF, the heuristic title
 * selector and the gold-title lookup (`PDFLoader.get_first_page_lines`,
 * `PDFLoader.get_title_candidate`, `get_true_title`).
 *
 * The PDF library is replaced by the tree its text dictionary has:
 * a document is a sequence of pages, a page a sequence of blocks, a block
 * an optional sequence of lines, a line a sequence of spans.
 */
module PdfLoader {
  import opened Wrappers
  import opened Strings
  import opened Core

  // ---------------------------------------------------------------- the span tree

  /** One span of the text dictionary; each key may be missing. `bboxTop` is `bbox[1]`. */
  datatype Span = Span(text: Option<string>, size: Option<real>, flags: Option<int>, bboxTop: Option<real>)

  datatype TextLine = TextLine(spans: seq<Span>)

  /** A block; `lines` is None for an image block or any entry that has no "lines" key. */
  datatype Block = Block(lines: Option<seq<TextLine>>)

  datatype Page = Page(blocks: seq<Block>, height: real)

  datatype LoadError =
    | NoPage            // `self.doc[0]` on a document without pages
    | LineWithoutSpans  // `l["spans"][0]` on a line without spans
    | ZeroPageHeight    // `first_span_y / page_height` with a zero height

  /** `s.get("text", "")` */
  function SpanText(s: Span): string { s.text.GetOr("") }

  /** `float(s.get("size", 0))` */
  function SpanSize(s: Span): real { s.size.GetOr(0.0) }

  /** `int(s.get("flags", 0))` */
  function SpanFlags(s: Span): int { s.flags.GetOr(0) }

  /** `s.get("bbox", (0, 0, 0, 0))[1]` */
  function SpanTop(s: Span): real { s.bboxTop.GetOr(0.0) }

  /** `flags & 16` is non-zero: bit 4 of the (two's complement) integer is set. */
  predicate HasBoldBit(flags: int) {
    (flags / 16) % 2 == 1
  }

  // ---------------------------------------------------------------- one line

  /** `line_text_parts` once every span has been visited. */
  function Texts(spans: seq<Span>): seq<string> {
    seq(|spans|, i requires 0 <= i < |spans| => SpanText(spans[i]))
  }

  /** `max_font_size`: the running `max`, from 0.0, over the span sizes. */
  function MaxSize(spans: seq<Span>): real {
    if spans == [] then 0.0
    else
      var m := MaxSize(spans[..|spans| - 1]);
      var z := SpanSize(spans[|spans| - 1]);
      if m < z then z else m
  }

  /** `any_bold`: some span visited so far has the bold bit. */
  predicate AnyBold(spans: seq<Span>) {
    spans != [] && (AnyBold(spans[..|spans| - 1]) || HasBoldBit(SpanFlags(spans[|spans| - 1])))
  }

  /** `" ".join(line_text_parts).strip()` */
  function LineText(spans: seq<Span>): string {
    Strip(Join(" ", Texts(spans)))
  }

  /** `first_span_y / page_height` */
  function NormalizedY(top: real, height: real): real
    requires height != 0.0
  {
    top / height
  }

  /** The `PDFLine` built for a line with spans and non-blank text, numbered `index`. */
  function MakeLine(spans: seq<Span>, height: real, index: int): PDFLine
    requires spans != [] && height != 0.0
  {
    PDFLine(LineText(spans), 0, index, NormalizedY(SpanTop(spans[0]), height), MaxSize(spans), AnyBold(spans), None)
  }

  lemma {:induction false} MaxSizeFacts(spans: seq<Span>)
    ensures MaxSize(spans) >= 0.0
    ensures forall i :: 0 <= i < |spans| ==> SpanSize(spans[i]) <= MaxSize(spans)
    ensures MaxSize(spans) == 0.0 || exists i :: 0 <= i < |spans| && MaxSize(spans) == SpanSize(spans[i])
  {
    if spans != [] {
      var init := spans[..|spans| - 1];
      MaxSizeFacts(init);
      assert forall i :: 0 <= i < |init| ==> init[i] == spans[i];
    }
  }

  lemma {:induction false} AnyBoldIff(spans: seq<Span>)
    ensures AnyBold(spans) <==> exists i :: 0 <= i < |spans| && HasBoldBit(SpanFlags(spans[i]))
  {
    if spans != [] {
      var init := spans[..|spans| - 1];
      AnyBoldIff(init);
      assert forall i :: 0 <= i < |init| ==> init[i] == spans[i];
    }
  }

  /**
   * What an emitted line holds: its text is the stripped join and is not
   * empty; its font size is the largest of 0 and the span sizes; it is bold
   * iff some span has the bold bit; its y is the first span's top over the
   * page height; it is on page 0 and unlabelled.
   */
  lemma MakeLineFacts(spans: seq<Span>, height: real, index: int)
    requires spans != [] && height != 0.0 && LineText(spans) != []
    ensures var l := MakeLine(spans, height, index);
      && l.text != [] && IsStripped(l.text) && l.text == Strip(Join(" ", Texts(spans)))
      && l.pageNumber == 0 && l.lineIndex == index && l.lineLabel == None
      && l.yPosition == SpanTop(spans[0]) / height
      && l.fontSize >= 0.0
      && (forall i :: 0 <= i < |spans| ==> SpanSize(spans[i]) <= l.fontSize)
      && (l.fontSize == 0.0 || exists i :: 0 <= i < |spans| && l.fontSize == SpanSize(spans[i]))
      && (l.isBold <==> exists i :: 0 <= i < |spans| && HasBoldBit(SpanFlags(spans[i])))
  {
    StripIsStripped(Join(" ", Texts(spans)));
    MaxSizeFacts(spans);
    AnyBoldIff(spans);
  }

  // ---------------------------------------------------------------- the page

  /** The lines of the text blocks, in reading order; other blocks are skipped. */
  function TextLines(blocks: seq<Block>): seq<TextLine> {
    if blocks == [] then [] else blocks[0].lines.GetOr([]) + TextLines(blocks[1..])
  }

  /** One iteration of the loop over lines: an error, a skipped blank line, or the line numbered `index`. */
  function LineResult(line: TextLine, height: real, index: int): Result<Option<PDFLine>, LoadError> {
    if line.spans == [] then Err(LineWithoutSpans)
    else if LineText(line.spans) == [] then Ok(None)
    else if height == 0.0 then Err(ZeroPageHeight)
    else Ok(Some(MakeLine(line.spans, height, index)))
  }

  /** The loops over the lines from `lines` on, with `out` already emitted. */
  function Emit(lines: seq<TextLine>, height: real, out: seq<PDFLine>): Result<seq<PDFLine>, LoadError>
    decreases |lines|
  {
    if lines == [] then Ok(out)
    else
      match LineResult(lines[0], height, |out|)
      case Err(e) => Err(e)
      case Ok(None) => Emit(lines[1..], height, out)
      case Ok(Some(l)) => Emit(lines[1..], height, out + [l])
  }

  /** `get_first_page_lines` of a document. */
  function FirstPageLines(doc: seq<Page>): Result<seq<PDFLine>, LoadError> {
    if doc == [] then Err(NoPage) else Emit(TextLines(doc[0].blocks), doc[0].height, [])
  }

  /**
   * The body of the loop over lines: the spans are combined in one pass
   * (texts, running maximum size, any bold span) into one `PDFLine`.
   */
  method BuildLine(line: TextLine, pageHeight: real, index: int) returns (r: Result<Option<PDFLine>, LoadError>)
    ensures r == LineResult(line, pageHeight, index)
  {
    var spans := line.spans;
    if |spans| == 0 {
      return Err(LineWithoutSpans);
    }
    var firstSpanY := SpanTop(spans[0]);
    var lineTextParts: seq<string> := [];
    var maxFontSize := 0.0;
    var anyBold := false;
    var k := 0;
    while k < |spans|
      invariant 0 <= k <= |spans|
      invariant lineTextParts == Texts(spans[..k])
      invariant maxFontSize == MaxSize(spans[..k])
      invariant anyBold == AnyBold(spans[..k])
    {
      var s := spans[k];
      assert spans[..k + 1][..k] == spans[..k] && spans[..k + 1][k] == s;
      assert Texts(spans[..k + 1]) == Texts(spans[..k]) + [SpanText(s)];
      lineTextParts := lineTextParts + [SpanText(s)];
      var size := SpanSize(s);
      maxFontSize := if maxFontSize < size then size else maxFontSize;
      if HasBoldBit(SpanFlags(s)) {
        anyBold := true;
      }
      k := k + 1;
    }
    assert spans[..k] == spans;
    var fullLineText := Strip(Join(" ", lineTextParts));
    if fullLineText == [] {
      return Ok(None);
    }
    if pageHeight == 0.0 {
      return Err(ZeroPageHeight);
    }
    return Ok(Some(PDFLine(fullLineText, 0, index, NormalizedY(firstSpanY, pageHeight), maxFontSize, anyBold, None)));
  }

  lemma TextLinesAt(blocks: seq<Block>, b: int)
    requires 0 <= b < |blocks|
    ensures blocks[b].lines.Some? ==> TextLines(blocks[b..]) == blocks[b].lines.value + TextLines(blocks[b + 1..])
    ensures blocks[b].lines.None? ==> TextLines(blocks[b..]) == TextLines(blocks[b + 1..])
  {
    assert blocks[b..][1..] == blocks[b + 1..];
  }

  /**
   * The loop over the lines of one text block, continuing from the lines
   * `out` already emitted: it either stops with the first error or leaves
   * the remaining lines `rest` of the page to be processed.
   */
  method EmitBlock(ls: seq<TextLine>, ghost rest: seq<TextLine>, pageHeight: real, out: seq<PDFLine>)
    returns (r: Result<seq<PDFLine>, LoadError>)
    ensures r.Err? ==> Emit(ls + rest, pageHeight, out) == Err(r.error)
    ensures r.Ok? ==> Emit(ls + rest, pageHeight, out) == Emit(rest, pageHeight, r.value)
  {
    var linesData := out;
    var j := 0;
    assert ls[0..] == ls;
    while j < |ls|
      invariant 0 <= j <= |ls|
      invariant Emit(ls + rest, pageHeight, out) == Emit(ls[j..] + rest, pageHeight, linesData)
    {
      var pending := ls[j..] + rest;
      assert pending[0] == ls[j] && pending[1..] == ls[j + 1..] + rest;
      var step := BuildLine(ls[j], pageHeight, |linesData|);
      if step.Err? {
        return Err(step.error);
      }
      if step.value.Some? {
        linesData := linesData + [step.value.value];
      }
      j := j + 1;
    }
    assert ls[j..] + rest == rest;
    return Ok(linesData);
  }

  method GetFirstPageLines(doc: seq<Page>) returns (r: Result<seq<PDFLine>, LoadError>)
    ensures r == FirstPageLines(doc)
  {
    if doc == [] {
      return Err(NoPage);
    }
    var blocks := doc[0].blocks;
    var pageHeight := doc[0].height;
    ghost var goal := Emit(TextLines(blocks), pageHeight, []);
    var linesData: seq<PDFLine> := [];
    var b := 0;
    assert blocks[0..] == blocks;
    while b < |blocks|
      invariant 0 <= b <= |blocks|
      invariant goal == Emit(TextLines(blocks[b..]), pageHeight, linesData)
    {
      TextLinesAt(blocks, b);
      if blocks[b].lines.Some? {
        var step := EmitBlock(blocks[b].lines.value, TextLines(blocks[b + 1..]), pageHeight, linesData);
        if step.Err? {
          return Err(step.error);
        }
        linesData := step.value;
      }
      b := b + 1;
    }
    return Ok(linesData);
  }

  // ---------------------------------------------------------------- properties of the extraction

  /** The source lines that produce output: those whose joined span text is not blank. */
  function Kept(lines: seq<TextLine>): (r: seq<TextLine>)
    ensures forall i :: 0 <= i < |r| ==> LineText(r[i].spans) != [] && r[i].spans != []
    ensures forall l :: l in r <==> l in lines && LineText(l.spans) != []
  {
    if lines == [] then []
    else (if LineText(lines[0].spans) != [] then [lines[0]] else []) + Kept(lines[1..])
  }

  /** The kept lines turned into `PDFLine`s numbered from `start`. */
  function Numbered(kept: seq<TextLine>, height: real, start: int): seq<PDFLine>
    requires height != 0.0
    requires forall i :: 0 <= i < |kept| ==> kept[i].spans != []
  {
    if kept == [] then []
    else [MakeLine(kept[0].spans, height, start)] + Numbered(kept[1..], height, start + 1)
  }

  lemma {:induction false} NumberedLength(kept: seq<TextLine>, height: real, start: int)
    requires height != 0.0
    requires forall i :: 0 <= i < |kept| ==> kept[i].spans != []
    ensures |Numbered(kept, height, start)| == |kept|
  {
    if kept != [] {
      NumberedLength(kept[1..], height, start + 1);
    }
  }

  lemma {:induction false} NumberedIndex(kept: seq<TextLine>, height: real, start: int, i: int)
    requires height != 0.0
    requires forall k :: 0 <= k < |kept| ==> kept[k].spans != []
    requires 0 <= i < |kept|
    ensures |Numbered(kept, height, start)| == |kept|
    ensures Numbered(kept, height, start)[i] == MakeLine(kept[i].spans, height, start + i)
  {
    NumberedLength(kept, height, start);
    var rest := kept[1..];
    assert Numbered(kept, height, start) == [MakeLine(kept[0].spans, height, start)] + Numbered(rest, height, start + 1);
    if i > 0 {
      NumberedIndex(rest, height, start + 1, i - 1);
      assert rest[i - 1] == kept[i];
      assert start + 1 + (i - 1) == start + i;
    }
  }

  /** The `i`-th numbered line is the `i`-th kept line, numbered `start + i`. */
  lemma NumberedAt(kept: seq<TextLine>, height: real, start: int)
    requires height != 0.0
    requires forall i :: 0 <= i < |kept| ==> kept[i].spans != []
    ensures |Numbered(kept, height, start)| == |kept|
    ensures forall i :: 0 <= i < |kept| ==> Numbered(kept, height, start)[i] == MakeLine(kept[i].spans, height, start + i)
  {
    NumberedLength(kept, height, start);
    forall i | 0 <= i < |kept|
      ensures Numbered(kept, height, start)[i] == MakeLine(kept[i].spans, height, start + i)
    {
      NumberedIndex(kept, height, start, i);
    }
  }

  /** A page can be read unless some line has no spans, or the height is zero and some line is not blank. */
  predicate Readable(lines: seq<TextLine>, height: real) {
    forall i :: 0 <= i < |lines| ==> LineReadable(lines[i], height)
  }

  predicate LineReadable(line: TextLine, height: real) {
    line.spans != [] && (height == 0.0 ==> LineText(line.spans) == [])
  }

  lemma ReadableCons(lines: seq<TextLine>, height: real)
    requires lines != []
    ensures Readable(lines, height) <==> LineReadable(lines[0], height) && Readable(lines[1..], height)
  {
    assert forall i :: 1 <= i < |lines| ==> lines[i] == lines[1..][i - 1];
  }

  lemma {:induction false} EmitOkIff(lines: seq<TextLine>, height: real, out: seq<PDFLine>)
    ensures Emit(lines, height, out).Ok? <==> Readable(lines, height)
    decreases |lines|
  {
    if lines != [] {
      ReadableCons(lines, height);
      assert LineResult(lines[0], height, |out|).Ok? <==> LineReadable(lines[0], height);
      match LineResult(lines[0], height, |out|)
      case Err(_) =>
      case Ok(None) => EmitOkIff(lines[1..], height, out);
      case Ok(Some(l)) => EmitOkIff(lines[1..], height, out + [l]);
    }
  }

  lemma ConcatAssoc<T>(a: seq<T>, b: seq<T>, c: seq<T>)
    ensures a + b + c == a + (b + c)
  {
  }

  lemma NumberedCons(head: TextLine, kept: seq<TextLine>, height: real, start: int)
    requires height != 0.0 && head.spans != []
    requires forall i :: 0 <= i < |kept| ==> kept[i].spans != []
    ensures Numbered([head] + kept, height, start) == [MakeLine(head.spans, height, start)] + Numbered(kept, height, start + 1)
  {
    assert ([head] + kept)[1..] == kept;
  }

  lemma EmitBlankStep(lines: seq<TextLine>, height: real, out: seq<PDFLine>)
    requires lines != [] && lines[0].spans != [] && LineText(lines[0].spans) == []
    ensures Emit(lines, height, out) == Emit(lines[1..], height, out)
    ensures Kept(lines) == Kept(lines[1..])
  {
    assert LineResult(lines[0], height, |out|) == Ok(None);
  }

  lemma EmitKeptStep(lines: seq<TextLine>, height: real, out: seq<PDFLine>)
    requires lines != [] && lines[0].spans != [] && LineText(lines[0].spans) != [] && height != 0.0
    ensures Emit(lines, height, out) == Emit(lines[1..], height, out + [MakeLine(lines[0].spans, height, |out|)])
    ensures Kept(lines) == [lines[0]] + Kept(lines[1..])
  {
    assert LineResult(lines[0], height, |out|) == Ok(Some(MakeLine(lines[0].spans, height, |out|)));
  }

  /** The emitted lines are the kept lines, in order, numbered consecutively after `out`. */
  lemma {:induction false} EmitNumbered(lines: seq<TextLine>, height: real, out: seq<PDFLine>)
    requires height != 0.0 && Readable(lines, height)
    ensures Emit(lines, height, out) == Ok(out + Numbered(Kept(lines), height, |out|))
    decreases |lines|
  {
    if lines == [] {
      assert out + [] == out;
    } else {
      ReadableCons(lines, height);
      if LineText(lines[0].spans) == [] {
        EmitBlankStep(lines, height, out);
        EmitNumbered(lines[1..], height, out);
      } else {
        var l := MakeLine(lines[0].spans, height, |out|);
        EmitKeptStep(lines, height, out);
        EmitNumbered(lines[1..], height, out + [l]);
        var k := Kept(lines[1..]);
        NumberedCons(lines[0], k, height, |out|);
        ConcatAssoc(out, [l], Numbered(k, height, |out| + 1));
      }
    }
  }

  /**
   * The result of `get_first_page_lines`: an error exactly for an empty
   * document or an unreadable first page; otherwise one line per non-blank
   * source line, in reading order, whose `line_index` is its position.
   */
  lemma FirstPageLinesFacts(doc: seq<Page>)
    ensures doc == [] ==> FirstPageLines(doc) == Err(NoPage)
    ensures doc != [] ==>
      (FirstPageLines(doc).Ok? <==> Readable(TextLines(doc[0].blocks), doc[0].height))
    ensures doc != [] && doc[0].height != 0.0 && Readable(TextLines(doc[0].blocks), doc[0].height) ==>
      var kept := Kept(TextLines(doc[0].blocks));
      var out := FirstPageLines(doc).value;
      && |out| == |kept|
      && (forall i :: 0 <= i < |out| ==> out[i] == MakeLine(kept[i].spans, doc[0].height, i))
      && (forall i :: 0 <= i < |out| ==> out[i].lineIndex == i && out[i].text != [] && out[i].pageNumber == 0)
  {
    if doc != [] {
      var lines := TextLines(doc[0].blocks);
      var h := doc[0].height;
      EmitOkIff(lines, h, []);
      if h != 0.0 && Readable(lines, h) {
        EmitNumbered(lines, h, []);
        assert [] + Numbered(Kept(lines), h, 0) == Numbered(Kept(lines), h, 0);
        NumberedAt(Kept(lines), h, 0);
      }
    }
  }

  /** Every line has non-empty text with no surrounding whitespace. */
  predicate CleanTexts(lines: seq<PDFLine>) {
    forall i :: 0 <= i < |lines| ==> lines[i].text != [] && IsStripped(lines[i].text)
  }

  lemma {:induction false} EmitClean(lines: seq<TextLine>, height: real, out: seq<PDFLine>)
    requires CleanTexts(out)
    ensures Emit(lines, height, out).Ok? ==> CleanTexts(Emit(lines, height, out).value)
    decreases |lines|
  {
    if lines != [] {
      match LineResult(lines[0], height, |out|)
      case Err(_) =>
      case Ok(None) => EmitClean(lines[1..], height, out);
      case Ok(Some(l)) =>
        MakeLineFacts(lines[0].spans, height, |out|);
        assert forall i :: 0 <= i < |out| ==> (out + [l])[i] == out[i];
        EmitClean(lines[1..], height, out + [l]);
    }
  }

  /** Whatever `get_first_page_lines` returns has non-empty, stripped text on every line. */
  lemma FirstPageLinesClean(doc: seq<Page>)
    ensures FirstPageLines(doc).Ok? ==> CleanTexts(FirstPageLines(doc).value)
  {
    if doc != [] {
      EmitClean(TextLines(doc[0].blocks), doc[0].height, []);
    }
  }

  lemma {:induction false} TextLinesAppend(a: seq<Block>, b: seq<Block>)
    ensures TextLines(a + b) == TextLines(a) + TextLines(b)
  {
    if a == [] {
      assert a + b == b;
    } else {
      assert (a + b)[1..] == a[1..] + b;
      TextLinesAppend(a[1..], b);
    }
  }

  /** A block without lines (an image, or an entry that is not a text dictionary) contributes nothing. */
  lemma NonTextBlockIgnored(a: seq<Block>, b: seq<Block>, height: real, rest: seq<Page>)
    ensures FirstPageLines([Page(a + [Block(None)] + b, height)] + rest)
         == FirstPageLines([Page(a + b, height)] + rest)
  {
    TextLinesAppend(a + [Block(None)], b);
    TextLinesAppend(a, [Block(None)]);
    TextLinesAppend(a, b);
    assert TextLines([Block(None)]) == [];
    assert TextLines(a) + [] == TextLines(a);
    assert TextLines(a + [Block(None)] + b) == TextLines(a + b);
    assert ([Page(a + [Block(None)] + b, height)] + rest)[0] == Page(a + [Block(None)] + b, height);
    assert ([Page(a + b, height)] + rest)[0] == Page(a + b, height);
  }

  // ---------------------------------------------------------------- title candidate

  /** The title zone: not containing "arXiv", strictly between 8% and 35% of the page height. */
  predicate InTitleZone(l: PDFLine) {
    !Contains(l.text, "arXiv") && 0.08 < l.yPosition < 0.35
  }

  /** `abs(a - b) < 0.1` */
  predicate NearSize(a: real, b: real) {
    (if a < b then b - a else a - b) < 0.1
  }

  function TitleZone(lines: seq<PDFLine>): (r: seq<PDFLine>)
    ensures forall l :: l in r <==> l in lines && InTitleZone(l)
  {
    if lines == [] then []
    else (if InTitleZone(lines[0]) then [lines[0]] else []) + TitleZone(lines[1..])
  }

  /** `max(l.font_size for l in zone)` */
  function ZoneMax(zone: seq<PDFLine>): (m: real)
    requires zone != []
    ensures forall l :: l in zone ==> l.fontSize <= m
    ensures exists l :: l in zone && l.fontSize == m
  {
    if |zone| == 1 then zone[0].fontSize
    else
      var r := ZoneMax(zone[1..]);
      assert forall l :: l in zone[1..] ==> l in zone;
      if zone[0].fontSize < r then r else zone[0].fontSize
  }

  function NearMax(zone: seq<PDFLine>, m: real): (r: seq<PDFLine>)
    ensures forall l :: l in r <==> l in zone && NearSize(l.fontSize, m)
  {
    if zone == [] then []
    else (if NearSize(zone[0].fontSize, m) then [zone[0]] else []) + NearMax(zone[1..], m)
  }

  function LineTexts(lines: seq<PDFLine>): seq<string> {
    seq(|lines|, i requires 0 <= i < |lines| => lines[i].text)
  }

  /** `get_title_candidate` */
  function TitleCandidate(lines: seq<PDFLine>): string {
    var zone := TitleZone(lines);
    if zone == [] then "" else Join(" ", LineTexts(NearMax(zone, ZoneMax(zone))))
  }

  /** The reference selection in one pass: zone lines whose size is near `m`, in their original order. */
  function TitleLines(lines: seq<PDFLine>, m: real): seq<PDFLine> {
    if lines == [] then []
    else
      var head := if InTitleZone(lines[0]) && NearSize(lines[0].fontSize, m) then [lines[0]] else [];
      head + TitleLines(lines[1..], m)
  }

  lemma {:induction false} TitleLinesFuse(lines: seq<PDFLine>, m: real)
    ensures NearMax(TitleZone(lines), m) == TitleLines(lines, m)
  {
    if lines != [] {
      TitleLinesFuse(lines[1..], m);
      NearMaxAppend(if InTitleZone(lines[0]) then [lines[0]] else [], TitleZone(lines[1..]), m);
    }
  }

  lemma {:induction false} NearMaxAppend(a: seq<PDFLine>, b: seq<PDFLine>, m: real)
    ensures NearMax(a + b, m) == NearMax(a, m) + NearMax(b, m)
  {
    if a == [] {
      assert a + b == b;
    } else {
      assert (a + b)[1..] == a[1..] + b;
      NearMaxAppend(a[1..], b, m);
    }
  }

  lemma {:induction false} JoinKeepsParts(sep: string, parts: seq<string>, k: int)
    requires 0 <= k < |parts|
    ensures |parts[k]| <= |Join(sep, parts)|
  {
    if k > 0 {
      JoinKeepsParts(sep, parts[1..], k - 1);
    }
  }

  /**
   * The candidate is "" exactly when no line lies in the title zone (given
   * non-empty line texts, as extraction guarantees).
   */
  lemma TitleCandidateEmptyIff(lines: seq<PDFLine>)
    requires forall i :: 0 <= i < |lines| ==> lines[i].text != []
    ensures TitleCandidate(lines) == "" <==> forall l :: l in lines ==> !InTitleZone(l)
  {
    var zone := TitleZone(lines);
    if zone != [] {
      var k := TopSelected(zone);
      var sel := NearMax(zone, ZoneMax(zone));
      assert sel[k] in lines;
      JoinKeepsParts(" ", LineTexts(sel), k);
    } else {
      assert forall l :: l in lines ==> !InTitleZone(l);
    }
  }

  /**
   * Otherwise the candidate is the space-join of the zone lines near the
   * zone maximum, in their original order, and a line of maximal size in the
   * zone is among them.
   */
  lemma TitleCandidateSelection(lines: seq<PDFLine>)
    requires TitleZone(lines) != []
    ensures var m := ZoneMax(TitleZone(lines));
      && TitleCandidate(lines) == Join(" ", LineTexts(TitleLines(lines, m)))
      && (forall l :: l in lines && InTitleZone(l) ==> l.fontSize <= m)
      && (exists l :: l in TitleLines(lines, m) && l.fontSize == m)
  {
    var zone := TitleZone(lines);
    var m := ZoneMax(zone);
    TitleLinesFuse(lines, m);
    var k := TopSelected(zone);
    assert NearMax(zone, m)[k] in NearMax(zone, m);
  }

  /** The position, among the lines near the zone maximum, of a line of maximal size. */
  lemma TopSelected(zone: seq<PDFLine>) returns (k: nat)
    requires zone != []
    ensures var sel := NearMax(zone, ZoneMax(zone));
      k < |sel| && sel[k].fontSize == ZoneMax(zone) && sel[k] in zone
  {
    var m := ZoneMax(zone);
    var top :| top in zone && top.fontSize == m;
    assert NearSize(top.fontSize, m);
    var sel := NearMax(zone, m);
    assert top in sel;
    k :| 0 <= k < |sel| && sel[k] == top;
  }

  // ---------------------------------------------------------------- gold title lookup

  /** One record of the metadata file: `entry.get('id', '')` and `entry['title']`. */
  datatype MetaEntry = MetaEntry(id: Option<string>, title: Option<string>)

  datatype LookupError = TitleKeyMissing  // `entry['title']` on the matching entry

  function EntryId(e: MetaEntry): string { e.id.GetOr("") }

  /** Entry `i` is the first whose id starts with the query. */
  predicate FirstMatchAt(entries: seq<MetaEntry>, arxivId: string, i: int) {
    && 0 <= i < |entries|
    && StartsWith(EntryId(entries[i]), arxivId)
    && forall j :: 0 <= j < i ==> !StartsWith(EntryId(entries[j]), arxivId)
  }

  /**
   * `get_true_title`: a missing file gives "File Not Found: " and the path;
   * the first entry whose id starts with the query gives its title with its
   * whitespace normalised; no such entry gives "ID Not in JSON".
   */
  method GetTrueTitle(arxivId: string, metadataPath: string, metadata: Option<seq<MetaEntry>>)
    returns (r: Result<string, LookupError>)
    ensures metadata.None? ==> r == Ok("File Not Found: " + metadataPath)
    ensures metadata.Some? ==>
      || (exists i :: FirstMatchAt(metadata.value, arxivId, i) &&
           r == (if metadata.value[i].title.Some? then Ok(NormalizeSpace(metadata.value[i].title.value))
                 else Err(TitleKeyMissing)))
      || ((forall i :: 0 <= i < |metadata.value| ==> !StartsWith(EntryId(metadata.value[i]), arxivId))
           && r == Ok("ID Not in JSON"))
  {
    if metadata.None? {
      return Ok("File Not Found: " + metadataPath);
    }
    var entries := metadata.value;
    var i := 0;
    while i < |entries|
      invariant 0 <= i <= |entries|
      invariant forall j :: 0 <= j < i ==> !StartsWith(EntryId(entries[j]), arxivId)
    {
      var metaId := EntryId(entries[i]);
      if StartsWith(metaId, arxivId) {
        assert FirstMatchAt(entries, arxivId, i);
        if entries[i].title.None? {
          return Err(TitleKeyMissing);
        }
        return Ok(NormalizeSpace(entries[i].title.value));
      }
      i := i + 1;
    }
    return Ok("ID Not in JSON");
  }
}
