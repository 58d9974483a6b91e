/**
 * The record types of the pipeline and the BibTeX builder (`ArxivPaper`,
 * `ArxivPaper.from_dict`, `ArxivPaper.generate_bibtex_entry`, `PDFLine`).
 */
module Core {
  import opened Wrappers
  import opened Strings

  /** One text line of a PDF page, with the features the classifier reads and an optional label. */
  datatype PDFLine = PDFLine(
    text: string,
    pageNumber: int,
    lineIndex: int,
    yPosition: real,
    fontSize: real,
    isBold: bool,
    lineLabel: Option<string>)

  /** A paper of the sampled gold standard; `summary` holds the "abstract" key (`abstract` is a Dafny keyword). */
  datatype ArxivPaper = ArxivPaper(
    id: string,
    title: string,
    authors: string,
    summary: string,
    section: string,
    journalRef: Option<string>,
    year: Option<int>)

  /**
   * The mapping `from_dict` reads. Every key it indexes is present; `year`
   * holds the text that `int()` converts, `journalRef` is `None` when the
   * "journal-ref" key is missing; `summary` is the "abstract" key
   * (`abstract` is a Dafny keyword).
   */
  datatype PaperDict = PaperDict(
    id: string,
    title: string,
    summary: string,
    section: string,
    year: string,
    authors: string,
    journalRef: Option<string>)

  /** The `ValueError` of `int(data['year'])`. */
  datatype DictError = YearNotInteger(year: string)

  /**
   * `ArxivPaper.from_dict`: fails exactly when `int()` rejects the year
   * text, and otherwise copies every other field unchanged.
   */
  function FromDict(d: PaperDict): (r: Result<ArxivPaper, DictError>)
    ensures r.Err? <==> ParseInt(d.year) == None
    ensures r.Err? ==> r.error == YearNotInteger(d.year)
    ensures r.Ok? ==>
      && r.value.id == d.id && r.value.title == d.title && r.value.authors == d.authors
      && r.value.summary == d.summary && r.value.section == d.section
      && r.value.journalRef == d.journalRef && r.value.year == ParseInt(d.year)
  {
    match ParseInt(d.year)
    case None => Err(YearNotInteger(d.year))
    case Some(y) => Ok(ArxivPaper(d.id, d.title, d.authors, d.summary, d.section, d.journalRef, Some(y)))
  }

  /** The mapping a paper is stored as: its fields, with the year written as decimal text. */
  function AsDict(p: ArxivPaper): PaperDict
    requires p.year.Some?
  {
    PaperDict(p.id, p.title, p.summary, p.section, IntToString(p.year.value), p.authors, p.journalRef)
  }

  /** Reading back a stored paper gives the same paper: every field is copied and the year survives `int(str(year))`. */
  lemma FromDictAsDict(p: ArxivPaper)
    requires p.year.Some?
    ensures FromDict(AsDict(p)) == Ok(p)
  {
    ParseIntToString(p.year.value);
  }

  // ---------------------------------------------------------------- cite key

  /** `"".join(filter(str.isalnum, s))`. */
  function FilterAlnum(s: string): (r: string)
    ensures forall i :: 0 <= i < |r| ==> IsAlnum(r[i])
  {
    if s == [] then [] else (if IsAlnum(s[0]) then [s[0]] else []) + FilterAlnum(s[1..])
  }

  /** `authors.split(',')[0]`: the first author's part of the author list. */
  function FirstAuthorChunk(authors: string): string {
    SplitOn(authors, ',')[0]
  }

  /**
   * The last whitespace-separated word of the first author chunk, cleaned to
   * its alphanumeric characters; "Unknown" when that chunk has no word (the
   * `IndexError` of `split()[-1]`).
   */
  function CleanName(authors: string): string {
    var words := Words(FirstAuthorChunk(authors));
    if words == [] then "Unknown" else FilterAlnum(words[|words| - 1])
  }

  /** Python's f-string rendering of the optional year. */
  function YearText(year: Option<int>): string {
    match year
    case Some(y) => IntToString(y)
    case None => "None"
  }

  function CiteKey(p: ArxivPaper): string {
    CleanName(p.authors) + YearText(p.year)
  }

  /** The clean name is alphanumeric; it is "Unknown" exactly when the author text before the first ',' is all whitespace. */
  lemma CleanNameShape(authors: string)
    ensures forall i :: 0 <= i < |CleanName(authors)| ==> IsAlnum(CleanName(authors)[i])
    ensures AllSpace(FirstAuthorChunk(authors)) ==> CleanName(authors) == "Unknown"
    ensures !AllSpace(FirstAuthorChunk(authors)) ==>
      var words := Words(FirstAuthorChunk(authors));
      words != [] && CleanName(authors) == FilterAlnum(words[|words| - 1])
  {
    WordsEmptyIff(FirstAuthorChunk(authors));
  }

  lemma {:induction false} FilterAlnumKeeps(s: string)
    requires forall i :: 0 <= i < |s| ==> IsAlnum(s[i])
    ensures FilterAlnum(s) == s
  {
    if s != [] {
      FilterAlnumKeeps(s[1..]);
    }
  }

  lemma SmithIsAWord()
    ensures Words("Smith") == ["Smith"]
  {
    assert "Smith" == ['S', 'm', 'i', 't', 'h'];
    WordsOfWord("Smith");
  }

  lemma SmithIsAlnum()
    ensures FilterAlnum("Smith") == "Smith"
  {
    assert "Smith" == ['S', 'm', 'i', 't', 'h'];
    FilterAlnumKeeps("Smith");
  }

  lemma Year1999Text()
    ensures YearText(Some(1999)) == "1999"
  {
    assert NatToString(199) == "199" by {
      assert NatToString(19) == "19";
    }
  }

  /** The first author's surname followed by the year: "Smith, J. and Doe, A." in 1999 gives the key "Smith1999". */
  lemma CiteKeyExample(p: ArxivPaper)
    requires p.authors == "Smith, J. and Doe, A." && p.year == Some(1999)
    ensures CiteKey(p) == "Smith1999"
  {
    assert p.authors == "Smith" + [','] + " J. and Doe, A.";
    SplitOnPrefix("Smith", ',', " J. and Doe, A.");
    SmithIsAWord();
    SmithIsAlnum();
    assert CleanName(p.authors) == "Smith";
    Year1999Text();
    SmithAndYear();
  }

  lemma SmithAndYear()
    ensures "Smith" + "1999" == "Smith1999"
  {
  }

  /** An author list that starts with ',' has no first author word, so the key falls back to "Unknown" and the year. */
  lemma CiteKeyUnknown(p: ArxivPaper)
    requires p.authors == [] || p.authors[0] == ','
    ensures CiteKey(p) == "Unknown" + YearText(p.year)
  {
    if p.authors != [] {
      SplitOnPrefix([], ',', p.authors[1..]);
      assert p.authors == [] + [','] + p.authors[1..];
    }
    WordsEmptyIff(FirstAuthorChunk(p.authors));
  }

  /** A last word without alphanumeric characters, such as "--", gives an empty clean name, not "Unknown". */
  lemma CleanNameEmpty()
    ensures CleanName("--") == ""
  {
    SplitOnFirst("--", ',');
    assert FirstAuthorChunk("--") == "--";
    WordsOfWord("--");
  }

  // ---------------------------------------------------------------- BibTeX entry

  /** `journal_ref` when it is truthy, otherwise a preprint label with the id. */
  function Venue(p: ArxivPaper): string {
    if p.journalRef.Some? && p.journalRef.value != "" then p.journalRef.value
    else "arXiv preprint arXiv:" + p.id
  }

  /** One `  name = {value}` field of the entry, before its line ending. */
  function Field(name: string, value: string): string {
    "  " + name + " = {" + value + "}"
  }

  /** A field followed by the ",\n" that separates it from the next one. */
  function FieldLine(name: string, value: string): string {
    Field(name, value) + ",\n"
  }

  /** The last field, which ends its line without a comma. */
  function LastFieldLine(name: string, value: string): string {
    Field(name, value) + "\n"
  }

  const EntryHead: string := "@article{"

  /** `ArxivPaper.generate_bibtex_entry`. */
  function BibtexEntry(p: ArxivPaper): string {
    EntryHead + CiteKey(p) + ",\n" + EntryFields(p)
  }

  /**
   * The field lines of the entry, in the order author, title, journal, year,
   * note; every line but the last ends with a comma; then the closing brace.
   */
  function EntryFields(p: ArxivPaper): string {
    FieldLine("author", p.authors)
    + FieldLine("title", p.title)
    + FieldLine("journal", Venue(p))
    + FieldLine("year", YearText(p.year))
    + LastFieldLine("note", "arXiv:" + p.id)
    + "}"
  }

  /** The key a BibTeX reader takes from an entry: the text after "@article{" up to the first ','. */
  function EntryKey(entry: string): string {
    if StartsWith(entry, EntryHead) then SplitOn(entry[|EntryHead|..], ',')[0] else ""
  }

  lemma Regroup(a: string, b: string, c: string, d: string)
    ensures a + (b + c) + d == a + b + (c + d)
  {
  }

  lemma YearTextNoComma(year: Option<int>)
    ensures ',' !in YearText(year)
  {
    match year
    case None =>
    case Some(y) =>
      var d := NatToString(if y < 0 then -y else y);
      assert forall i :: 0 <= i < |d| ==> d[i] != ',';
      if y < 0 {
        assert forall i :: 0 <= i < |"-" + d| ==> ("-" + d)[i] != ',' by {
          forall i | 0 <= i < |"-" + d| ensures ("-" + d)[i] != ',' {
            if i > 0 { assert ("-" + d)[i] == d[i - 1]; }
          }
        }
      }
  }

  lemma CiteKeyNoComma(p: ArxivPaper)
    ensures ',' !in CiteKey(p)
  {
    var name := CleanName(p.authors);
    CleanNameShape(p.authors);
    YearTextNoComma(p.year);
    var y := YearText(p.year);
    forall i | 0 <= i < |name + y| ensures (name + y)[i] != ',' {
      if i < |name| { assert (name + y)[i] == name[i]; } else { assert (name + y)[i] == y[i - |name|]; }
    }
  }

  lemma CommaNewline()
    ensures ",\n" == [','] + "\n"
  {
  }

  /** Splitting a concatenation after its first part. */
  lemma AppendSplit(a: string, b: string)
    ensures StartsWith(a + b, a) && EndsWith(a + b, b) && (a + b)[|a|..] == b
  {
  }

  lemma Assoc4(a: string, b: string, c: string, d: string)
    ensures a + b + c + d == a + (b + c + d)
  {
  }

  /** Whatever follows it, a head with a comma-free key gives that key back. */
  lemma EntryKeyOf(key: string, f: string)
    requires ',' !in key
    ensures EntryKey(EntryHead + key + ",\n" + f) == key
  {
    var r := key + ",\n" + f;
    Assoc4(EntryHead, key, ",\n", f);
    AppendSplit(EntryHead, r);
    CommaNewline();
    Regroup(key, [','], "\n", f);
    SplitOnPrefix(key, ',', "\n" + f);
  }

  /** The shape of any text laid out like an entry, given a comma-free key. */
  lemma EntryShapeOf(key: string, g: string)
    requires ',' !in key
    ensures var e := EntryHead + key + ",\n" + (g + "}");
      StartsWith(e, EntryHead + key + ",\n") && EndsWith(e, "}") && EntryKey(e) == key
  {
    var head := EntryHead + key + ",\n";
    AppendSplit(head, g + "}");
    assert head + (g + "}") == head + g + "}";
    AppendSplit(head + g, "}");
    EntryKeyOf(key, g + "}");
  }

  /** The entry opens with "@article{", the cite key and ",\n", closes with "}", and its key can be read back. */
  lemma BibtexEntryKey(p: ArxivPaper)
    ensures StartsWith(BibtexEntry(p), EntryHead + CiteKey(p) + ",\n")
    ensures EndsWith(BibtexEntry(p), "}")
    ensures EntryKey(BibtexEntry(p)) == CiteKey(p)
  {
    var g := FieldLine("author", p.authors) + FieldLine("title", p.title) + FieldLine("journal", Venue(p))
      + FieldLine("year", YearText(p.year)) + LastFieldLine("note", "arXiv:" + p.id);
    assert EntryFields(p) == g + "}";
    CiteKeyNoComma(p);
    EntryShapeOf(CiteKey(p), g);
  }

  /**
   * The journal field holds journal_ref when it is non-empty and the
   * preprint label otherwise; the note field holds "arXiv:" and the id and
   * is the last field, right before the closing brace.
   */
  lemma BibtexEntryFields(p: ArxivPaper)
    ensures p.journalRef.Some? && p.journalRef.value != "" ==> Contains(BibtexEntry(p), FieldLine("journal", p.journalRef.value))
    ensures p.journalRef.None? || p.journalRef.value == "" ==> Contains(BibtexEntry(p), FieldLine("journal", "arXiv preprint arXiv:" + p.id))
    ensures Contains(BibtexEntry(p), LastFieldLine("note", "arXiv:" + p.id))
    ensures EndsWith(BibtexEntry(p), LastFieldLine("note", "arXiv:" + p.id) + "}")
  {
    var key := CiteKey(p);
    var f := EntryFields(p);
    var a := FieldLine("author", p.authors) + FieldLine("title", p.title);
    var j := FieldLine("journal", Venue(p));
    var y := FieldLine("year", YearText(p.year));
    var n := LastFieldLine("note", "arXiv:" + p.id);
    assert f == a + j + y + n + "}";
    ContainsAtEnd(a, j);
    ContainsExtendRight(a + j, y, j);
    ContainsExtendRight(a + j + y, n, j);
    ContainsExtendRight(a + j + y + n, "}", j);
    ContainsAtEnd(a + j + y, n);
    ContainsExtendRight(a + j + y + n, "}", n);
    ContainsExtendLeft(EntryHead + key + ",\n", f, j);
    ContainsExtendLeft(EntryHead + key + ",\n", f, n);
    NoteLast(p);
  }

  /** The note field is the last one, right before the closing brace. */
  lemma NoteLast(p: ArxivPaper)
    ensures EndsWith(BibtexEntry(p), LastFieldLine("note", "arXiv:" + p.id) + "}")
  {
    var n := LastFieldLine("note", "arXiv:" + p.id);
    var pre := EntryHead + CiteKey(p) + ",\n" + FieldLine("author", p.authors) + FieldLine("title", p.title)
      + FieldLine("journal", Venue(p)) + FieldLine("year", YearText(p.year));
    assert BibtexEntry(p) == pre + (n + "}");
    AppendSplit(pre, n + "}");
  }
}
