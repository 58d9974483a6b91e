/**
 * The weak labeller: the fuzzy title matcher `is_line_in_title`, the
 * id-to-title map of `load_title_metadata_to_dict` and the loop of
 * `build_training_data` that labels every extracted line of every PDF.
 *
 * Files are replaced by their contents: the metadata file by its parsed
 * records, the PDF directory by its file names, each paired with the
 * document (or `None` when it cannot be opened).
 */
module DataBuilder {
  import opened Wrappers
  import opened Strings
  import opened Core
  import opened PdfLoader

  // ---------------------------------------------------------------- the matcher

  /** `"".join(s.lower().split())`: lower case, every whitespace character removed. */
  function Squash(s: string): string {
    Join("", Words(Lower(s)))
  }

  /** Squashing removes the whitespace of the lower-cased text, or equally lower-cases the text without its whitespace. */
  lemma SquashIsRemoveSpace(s: string)
    ensures Squash(s) == RemoveSpace(Lower(s)) == Lower(RemoveSpace(s))
  {
    JoinWordsRemovesSpace(Lower(s));
    RemoveSpaceLower(s);
  }

  /** `is_line_in_title` */
  function IsLineInTitle(lineText: string, trueTitle: string): bool {
    var lineSquashed := Squash(lineText);
    var trueSquashed := Squash(trueTitle);
    if |Strip(lineText)| < 4 then false else Contains(trueSquashed, lineSquashed)
  }

  /**
   * The complete characterisation: a line matches exactly when its stripped
   * text has at least four characters (inner spaces included) and its
   * squashed text occurs, contiguously, in the squashed title.
   */
  lemma IsLineInTitleIff(lineText: string, trueTitle: string)
    ensures IsLineInTitle(lineText, trueTitle) <==>
      var t := RemoveSpace(Lower(trueTitle));
      && |Strip(lineText)| >= 4
      && exists i :: 0 <= i <= |t| && StartsWith(t[i..], RemoveSpace(Lower(lineText)))
  {
    SquashIsRemoveSpace(lineText);
    SquashIsRemoveSpace(trueTitle);
    ContainsIff(Squash(trueTitle), Squash(lineText));
  }

  /** A line of fewer than four characters, once stripped, matches no title. */
  lemma ShortLineNeverMatches(lineText: string, trueTitle: string)
    requires |Strip(lineText)| < 4
    ensures !IsLineInTitle(lineText, trueTitle)
  {
  }

  lemma StripLengthCaseless(a: string, b: string)
    requires Lower(a) == Lower(b)
    ensures |Strip(a)| == |Strip(b)|
  {
    StripLower(a);
    StripLower(b);
  }

  /** Changing the letter case of either argument does not change the answer. */
  lemma CaseInsensitive(line1: string, line2: string, title1: string, title2: string)
    requires Lower(line1) == Lower(line2) && Lower(title1) == Lower(title2)
    ensures IsLineInTitle(line1, title1) == IsLineInTitle(line2, title2)
  {
    StripLengthCaseless(line1, line2);
    SquashIsRemoveSpace(line1);
    SquashIsRemoveSpace(line2);
    SquashIsRemoveSpace(title1);
    SquashIsRemoveSpace(title2);
  }

  /** Titles that differ only in their whitespace are matched by the same lines. */
  lemma TitleSpacingIrrelevant(lineText: string, title1: string, title2: string)
    requires RemoveSpace(title1) == RemoveSpace(title2)
    ensures IsLineInTitle(lineText, title1) == IsLineInTitle(lineText, title2)
  {
    SquashIsRemoveSpace(title1);
    SquashIsRemoveSpace(title2);
  }

  /** Inserting a run of whitespace anywhere into the title does not change the answer. */
  lemma TitleSpaceInsertion(lineText: string, before: string, spaces: string, after: string)
    requires AllSpace(spaces)
    ensures IsLineInTitle(lineText, before + spaces + after) == IsLineInTitle(lineText, before + after)
  {
    RemoveSpaceAppend(before + spaces, after);
    RemoveSpaceAppend(before, spaces);
    RemoveSpaceAppend(before, after);
    RemoveSpaceOfSpace(spaces);
    assert RemoveSpace(before) + [] == RemoveSpace(before);
    TitleSpacingIrrelevant(lineText, before + spaces + after, before + after);
  }

  lemma LowerAppend(a: string, b: string)
    ensures Lower(a + b) == Lower(a) + Lower(b)
  {
  }

  /** Squashing distributes over concatenation. */
  lemma SquashAppend(a: string, b: string)
    ensures Squash(a + b) == Squash(a) + Squash(b)
  {
    SquashIsRemoveSpace(a + b);
    SquashIsRemoveSpace(a);
    SquashIsRemoveSpace(b);
    LowerAppend(a, b);
    RemoveSpaceAppend(Lower(a), Lower(b));
  }

  /**
   * A line with at least four characters after stripping matches every title
   * that contains it literally, itself included.
   */
  lemma LineMatchesEnclosingTitle(lineText: string, before: string, after: string)
    requires |Strip(lineText)| >= 4
    ensures IsLineInTitle(lineText, before + lineText + after)
    ensures IsLineInTitle(lineText, lineText)
  {
    var m := Squash(lineText);
    SquashAppend(before + lineText, after);
    SquashAppend(before, lineText);
    ContainsAtEnd(Squash(before), m);
    ContainsExtendRight(Squash(before) + m, Squash(after), m);
    ContainsSelf(m);
  }

  lemma AllSpaceSquash(s: string)
    requires AllSpace(s)
    ensures Squash(s) == []
  {
    SquashIsRemoveSpace(s);
    RemoveSpaceOfSpace(s);
  }

  /** `is_line_in_title` needs 4 stripped characters: "ab" does not match, not even "abstract theory". */
  lemma ShortLineExample()
    ensures !IsLineInTitle("ab", "abstract theory")
  {
    assert IsStripped("ab");
    StripNoop("ab");
  }

  /** Squashing two words with whitespace between them joins the words. */
  lemma SquashTwoWords(a: string, spaces: string, b: string)
    requires AllSpace(spaces)
    ensures Squash(a + spaces + b) == Squash(a) + Squash(b)
  {
    SquashAppend(a + spaces, b);
    SquashAppend(a, spaces);
    AllSpaceSquash(spaces);
    assert Squash(a) + [] == Squash(a);
  }

  /** A line with at least four stripped characters matches a title whose squash has its squash inside. */
  lemma MatchInside(lineText: string, before: string, middle: string, after: string)
    requires |Strip(lineText)| >= 4 && Squash(middle) == Squash(lineText)
    ensures IsLineInTitle(lineText, before + middle + after)
  {
    var m := Squash(lineText);
    SquashAppend(before + middle, after);
    SquashAppend(before, middle);
    ContainsAtEnd(Squash(before), m);
    ContainsExtendRight(Squash(before) + m, Squash(after), m);
  }

  /** Lines that differ only in their inner whitespace, both long enough, are matched by the same titles. */
  lemma LineSpacingIrrelevant(line1: string, line2: string, trueTitle: string)
    requires RemoveSpace(line1) == RemoveSpace(line2)
    requires |Strip(line1)| >= 4 && |Strip(line2)| >= 4
    ensures IsLineInTitle(line1, trueTitle) == IsLineInTitle(line2, trueTitle)
  {
    SquashIsRemoveSpace(line1);
    SquashIsRemoveSpace(line2);
  }

  /**
   * A line of two words with a wide gap, such as "Neural   Networks",
   * matches every title that contains the same two words with any gap,
   * such as "A Study of Neural Networks in Practice".
   */
  lemma SpacedLineMatches(w1: string, wide: string, narrow: string, w2: string, before: string, after: string)
    requires AllSpace(wide) && AllSpace(narrow) && |Strip(w1 + wide + w2)| >= 4
    ensures IsLineInTitle(w1 + wide + w2, before + (w1 + narrow + w2) + after)
  {
    SquashTwoWords(w1, wide, w2);
    SquashTwoWords(w1, narrow, w2);
    MatchInside(w1 + wide + w2, before, w1 + narrow + w2, after);
  }

  // ---------------------------------------------------------------- the id-to-title map

  /** Among the first `n` records, none after record `i` carries its id: a later one would overwrite it. */
  predicate LastWithIdBefore(entries: seq<MetaEntry>, n: int, i: int)
    requires 0 <= i < n <= |entries|
  {
    forall j :: i < j < n ==> EntryId(entries[j]) != EntryId(entries[i])
  }

  /** Some record among the first `n` carries the id `k`. */
  predicate HasIdBefore(entries: seq<MetaEntry>, n: int, k: string)
    requires 0 <= n <= |entries|
  {
    exists i :: 0 <= i < n && EntryId(entries[i]) == k
  }

  lemma HasIdStep(entries: seq<MetaEntry>, n: int)
    requires 0 <= n < |entries|
    ensures forall k :: HasIdBefore(entries, n + 1, k) <==> HasIdBefore(entries, n, k) || k == EntryId(entries[n])
  {
    forall k | HasIdBefore(entries, n + 1, k) && k != EntryId(entries[n]) ensures HasIdBefore(entries, n, k) {
      var i :| 0 <= i < n + 1 && EntryId(entries[i]) == k;
    }
  }

  lemma LastWithIdStep(entries: seq<MetaEntry>, n: int, i: int)
    requires 0 <= i < n < |entries| && LastWithIdBefore(entries, n + 1, i)
    ensures LastWithIdBefore(entries, n, i) && EntryId(entries[i]) != EntryId(entries[n])
  {
  }

  /** The dictionary after the first `n` records, or the error of the first record without a title. */
  function TitleMap(entries: seq<MetaEntry>, n: int): Result<map<string, string>, LookupError>
    requires 0 <= n <= |entries|
  {
    if n == 0 then Ok(map[])
    else
      match TitleMap(entries, n - 1)
      case Err(e) => Err(e)
      case Ok(m) =>
        var e := entries[n - 1];
        if e.title.None? then Err(TitleKeyMissing) else Ok(m[EntryId(e) := NormalizeSpace(e.title.value)])
  }

  /** The dictionary fails (the `KeyError` of `entry['title']`) exactly when some record has no title. */
  lemma {:induction false} TitleMapErr(entries: seq<MetaEntry>, n: int)
    requires 0 <= n <= |entries|
    ensures TitleMap(entries, n).Err? <==> exists i :: 0 <= i < n && entries[i].title.None?
  {
    if n > 0 {
      TitleMapErr(entries, n - 1);
      if TitleMap(entries, n - 1).Err? {
        var i :| 0 <= i < n - 1 && entries[i].title.None?;
        assert 0 <= i < n && entries[i].title.None?;
      } else if entries[n - 1].title.Some? {
        assert forall i :: 0 <= i < n - 1 ==> entries[i].title.Some?;
      }
    }
  }

  /** Otherwise it maps exactly the ids that occur. */
  lemma {:induction false} TitleMapKeys(entries: seq<MetaEntry>, n: int)
    requires 0 <= n <= |entries|
    ensures TitleMap(entries, n).Ok? ==> forall k :: k in TitleMap(entries, n).value <==> HasIdBefore(entries, n, k)
  {
    if n > 0 && TitleMap(entries, n).Ok? {
      TitleMapKeys(entries, n - 1);
      HasIdStep(entries, n - 1);
    }
  }

  /** Each id is mapped to the whitespace-normalised title of the LAST record with that id. */
  lemma {:induction false} TitleMapLast(entries: seq<MetaEntry>, n: int)
    requires 0 <= n <= |entries|
    ensures TitleMap(entries, n).Ok? ==> forall i :: 0 <= i < n && LastWithIdBefore(entries, n, i) ==>
      && entries[i].title.Some?
      && EntryId(entries[i]) in TitleMap(entries, n).value
      && TitleMap(entries, n).value[EntryId(entries[i])] == NormalizeSpace(entries[i].title.value)
  {
    if n > 0 && TitleMap(entries, n).Ok? {
      TitleMapLast(entries, n - 1);
      TitleMapErr(entries, n);
      var r := TitleMap(entries, n).value;
      forall i | 0 <= i < n && LastWithIdBefore(entries, n, i)
        ensures entries[i].title.Some? && EntryId(entries[i]) in r
          && r[EntryId(entries[i])] == NormalizeSpace(entries[i].title.value)
      {
        if i < n - 1 {
          LastWithIdStep(entries, n - 1, i);
        }
      }
    }
  }

  /** `load_title_metadata_to_dict`: the records folded in file order, later records overwriting earlier ones. */
  method LoadTitleMetadataToDict(entries: seq<MetaEntry>) returns (r: Result<map<string, string>, LookupError>)
    ensures r == TitleMap(entries, |entries|)
  {
    var titlesMap: map<string, string> := map[];
    var n := 0;
    while n < |entries|
      invariant 0 <= n <= |entries|
      invariant TitleMap(entries, n) == Ok(titlesMap)
    {
      var entry := entries[n];
      if entry.title.None? {
        TitleMapErr(entries, |entries|);
        assert entries[n].title.None?;
        assert TitleMap(entries, |entries|).Err?;
        assert TitleMap(entries, |entries|).error.TitleKeyMissing?;
        return Err(TitleKeyMissing);
      }
      var mId := EntryId(entry);
      titlesMap := titlesMap[mId := NormalizeSpace(entry.title.value)];
      n := n + 1;
    }
    return Ok(titlesMap);
  }

  // ---------------------------------------------------------------- labelling

  const TitleLabel: string := "TITLE"
  const OtherLabel: string := "OTHER"

  /** The line with its label set from the matcher; nothing else about it changes. */
  function Label(line: PDFLine, trueTitle: string): PDFLine {
    line.(lineLabel := Some(if IsLineInTitle(line.text, trueTitle) then TitleLabel else OtherLabel))
  }

  /** Every line gets exactly one of the two labels, "TITLE" exactly when it matches; its other fields stay. */
  lemma LabelFacts(line: PDFLine, trueTitle: string)
    ensures var r := Label(line, trueTitle);
      && (r.lineLabel == Some(TitleLabel) || r.lineLabel == Some(OtherLabel))
      && (r.lineLabel == Some(TitleLabel) <==> IsLineInTitle(line.text, trueTitle))
      && r.(lineLabel := line.lineLabel) == line
  {
  }

  /** The loop `for line_obj in lines`: each line's label is assigned in place. */
  method LabelLines(lines: array<PDFLine>, trueTitle: string)
    modifies lines
    ensures forall i :: 0 <= i < lines.Length ==> lines[i] == Label(old(lines[i]), trueTitle)
  {
    ghost var original := lines[..];
    var i := 0;
    while i < lines.Length
      invariant 0 <= i <= lines.Length
      invariant forall j :: 0 <= j < i ==> lines[j] == Label(original[j], trueTitle)
      invariant forall j :: i <= j < lines.Length ==> lines[j] == original[j]
    {
      lines[i] := Label(lines[i], trueTitle);
      i := i + 1;
    }
  }

  /** An entry of the PDF directory: its file name and, when it opens as a PDF, the document. */
  datatype PdfFile = PdfFile(name: string, doc: Option<seq<Page>>)

  /** `titles_map.get(arxiv_id)` where the file name without ".pdf" is the id; `None` also for an empty title. */
  function TitleFor(titlesMap: map<string, string>, fileName: string): Option<string> {
    var arxivId := RemoveAll(fileName, ".pdf");
    if arxivId in titlesMap && titlesMap[arxivId] != "" then Some(titlesMap[arxivId]) else None
  }

  /**
   * For a file named `id + ".pdf"`, where `id` does not contain ".pdf", the
   * lookup key is `id` itself: its title is the one the dictionary holds for
   * `id`, when that title is non-empty.
   */
  lemma TitleForPdfName(titlesMap: map<string, string>, id: string)
    requires !Contains(id, ".pdf")
    ensures RemoveAll(id + ".pdf", ".pdf") == id
    ensures TitleFor(titlesMap, id + ".pdf") == if id in titlesMap && titlesMap[id] != "" then Some(titlesMap[id]) else None
  {
    assert ".pdf" == ['.', 'p', 'd', 'f'];
    RemoveAllSuffix(id, ".pdf");
  }

  /** The rows one file contributes: none unless it is a ".pdf" with a known title that opens and reads. */
  function FileRows(titlesMap: map<string, string>, f: PdfFile): seq<PDFLine> {
    if !EndsWith(f.name, ".pdf") then []
    else match TitleFor(titlesMap, f.name)
      case None => []
      case Some(trueTitle) =>
        if f.doc.None? then []
        else match FirstPageLines(f.doc.value)
          case Err(_) => []
          case Ok(lines) => seq(|lines|, i requires 0 <= i < |lines| => Label(lines[i], trueTitle))
  }

  /** The rows written for the first files, in directory order. */
  function TrainingRows(titlesMap: map<string, string>, files: seq<PdfFile>): seq<PDFLine> {
    if files == [] then [] else TrainingRows(titlesMap, files[..|files| - 1]) + FileRows(titlesMap, files[|files| - 1])
  }

  /** The body of the loop over the directory: the labelled lines of one file, or none. */
  method ReadFile(titlesMap: map<string, string>, f: PdfFile) returns (out: seq<PDFLine>)
    ensures out == FileRows(titlesMap, f)
  {
    out := [];
    var trueTitle := TitleFor(titlesMap, f.name);
    if EndsWith(f.name, ".pdf") && trueTitle.Some? && f.doc.Some? {
      var extracted := GetFirstPageLines(f.doc.value);
      if extracted.Ok? {
        var found := extracted.value;
        var lines := new PDFLine[|found|](i requires 0 <= i < |found| => found[i]);
        LabelLines(lines, trueTitle.value);
        out := lines[..];
      }
    }
  }

  /**
   * `build_training_data`: every `.pdf` file whose id has a non-empty title
   * and whose first page reads contributes its lines, labelled, in order;
   * every other file (no title, cannot be opened, extraction error) is
   * skipped without affecting the rest.
   */
  method BuildTrainingData(titlesMap: map<string, string>, files: seq<PdfFile>) returns (rows: seq<PDFLine>)
    ensures rows == TrainingRows(titlesMap, files)
  {
    rows := [];
    var n := 0;
    while n < |files|
      invariant 0 <= n <= |files|
      invariant rows == TrainingRows(titlesMap, files[..n])
    {
      assert files[..n + 1][..n] == files[..n];
      var fileRows := ReadFile(titlesMap, files[n]);
      rows := rows + fileRows;
      n := n + 1;
    }
    assert files[..n] == files;
  }

  /** The rows of a listing are the rows of its two halves, one after the other. */
  lemma {:induction false} TrainingRowsAppend(titlesMap: map<string, string>, before: seq<PdfFile>, after: seq<PdfFile>)
    ensures TrainingRows(titlesMap, before + after) == TrainingRows(titlesMap, before) + TrainingRows(titlesMap, after)
    decreases |after|
  {
    if after == [] {
      assert before + after == before;
    } else {
      var init := after[..|after| - 1];
      assert (before + after)[..|before + after| - 1] == before + init;
      assert (before + after)[|before + after| - 1] == after[|after| - 1];
      TrainingRowsAppend(titlesMap, before, init);
    }
  }

  /** A file whose id has no title, or an empty one, contributes no rows wherever it stands. */
  lemma UntitledFileNoRows(titlesMap: map<string, string>, before: seq<PdfFile>, f: PdfFile, after: seq<PdfFile>)
    requires var arxivId := RemoveAll(f.name, ".pdf"); arxivId !in titlesMap || titlesMap[arxivId] == ""
    ensures FileRows(titlesMap, f) == []
    ensures TrainingRows(titlesMap, before + [f]) == TrainingRows(titlesMap, before)
    ensures TrainingRows(titlesMap, before + [f] + after) == TrainingRows(titlesMap, before + after)
  {
    assert (before + [f])[..|before|] == before;
    TrainingRowsAppend(titlesMap, before + [f], after);
    TrainingRowsAppend(titlesMap, before, after);
  }

  /**
   * The row is a line extracted from the ".pdf" file `f`, which has a title and
   * opens, labelled "TITLE" exactly when it matches that title.
   */
  predicate RowFrom(row: PDFLine, titlesMap: map<string, string>, f: PdfFile) {
    && EndsWith(f.name, ".pdf")
    && TitleFor(titlesMap, f.name).Some?
    && f.doc.Some?
    && FirstPageLines(f.doc.value).Ok?
    && (exists l :: l in FirstPageLines(f.doc.value).value && row == Label(l, TitleFor(titlesMap, f.name).value))
    && (row.lineLabel == Some(TitleLabel) || row.lineLabel == Some(OtherLabel))
    && (row.lineLabel == Some(TitleLabel) <==> IsLineInTitle(row.text, TitleFor(titlesMap, f.name).value))
  }

  /**
   * Every training row is a line extracted from some listed file with a
   * title, labelled "TITLE" exactly when it matches that title.
   */
  lemma {:induction false} TrainingRowsLabelled(titlesMap: map<string, string>, files: seq<PdfFile>, k: int)
    requires 0 <= k < |TrainingRows(titlesMap, files)|
    ensures exists f :: f in files && RowFrom(TrainingRows(titlesMap, files)[k], titlesMap, f)
  {
    var init := files[..|files| - 1];
    var last := files[|files| - 1];
    var before := TrainingRows(titlesMap, init);
    var rows := TrainingRows(titlesMap, files);
    assert rows == before + FileRows(titlesMap, last);
    if k < |before| {
      TrainingRowsLabelled(titlesMap, init, k);
      assert rows[k] == before[k];
      var f :| f in init && RowFrom(before[k], titlesMap, f);
      assert f in files;
    } else {
      var lines := FirstPageLines(last.doc.value).value;
      assert rows[k] == FileRows(titlesMap, last)[k - |before|];
      assert lines[k - |before|] in lines;
      assert last in files;
    }
  }
}
