# pdf2bibtex in Dafny

A model of the title-extraction pipeline of pdf2bibtex, with proofs about it.
The pipeline has six parts:

- **Line extraction** (`PDFLoader.get_first_page_lines`). The first page of a PDF is read as the
  block/line/span tree of its text dictionary. Each non-blank line becomes one `PDFLine` with these
  fields: its stripped text, its normalised y position, its largest font size, whether any span is
  bold, and its position in the output.
- **Heuristic title candidate** (`get_title_candidate`). Lines in the title band (8%–35% of the page)
  that do not mention "arXiv" are kept. Of those, the lines whose size is within 0.1 of the largest
  are joined.
- **Gold titles and weak labelling** (`get_true_title`, `load_title_metadata_to_dict`,
  `is_line_in_title`, `build_training_data`). Every extracted line of every PDF with a known title is
  labelled "TITLE" or "OTHER" by a squashed, case-insensitive substring match.
- **Corpus sampler** (`get_random_post_2007_subset`). Published records with a post-2007 id are
  routed, tag by tag, to the first matching target category. Each category keeps a reservoir
  (algorithm R).
- **Inference** (`TitlePredictor.predict_title`). Each line becomes a feature row and is scored by the
  trained classifier. The lines above 0.5, or else the single best line, are joined into the title.
- **Records** (`pdf2bibtex/core.py`). This covers `PDFLine`, `ArxivPaper.from_dict` and the BibTeX
  entry builder.

The modules follow the source files:

- `Wrappers` holds `Option` and `Result`.
- `Strings` holds the Python `str` operations the code calls: `strip`, `split()`, `split(sep)`,
  `join`, `lower`, `in`, `startswith`/`endswith`, `replace`, `isdigit`, `int()`, `str()`.
- `Core` models `src/pdf2bibtex/core.py`.
- `PdfLoader` models `src/pdf_loader.py`.
- `DataBuilder` models `src/data_builder.py`.
- `Sampler` models `src/parser.py`.
- `Predictor` models `src/predict_random_forest.py`.

Where the code loops and updates state, the model is an imperative method proved equal to a
functional specification:

- `GetFirstPageLines`, `BuildLine` and `EmitBlock`;
- `LoadTitleMetadataToDict`;
- `LabelLines`, which updates an array in place, and `BuildTrainingData`;
- `GetRandomPost2007Subset` and its loop bodies;
- `TitlePredictor.PredictTitle`.

`GetTrueTitle` is the exception: its loop returns at the first match, so its contract is a
first-match relation rather than equality with a function. It states the three outcomes in full.

The properties are lemmas about those specifications.

The model follows the code in these behaviours:

- **Sampler `break`.** The `break` at `src/parser.py:86` leaves only the loop over targets, not the
  loop over a record's tags. Each tag goes to that tag's first matching target. So one record can
  reach several buckets, and a record with two tags under one target is counted and stored twice
  (`RecordCountedPerTag`).
- **Cite key fallback.** For a string author list, the key falls back to "Unknown" only when the
  first author's part has no word at all, which is the `IndexError` of `split()[-1]`. A last word without alphanumeric
  characters gives an empty name, not "Unknown" (`CleanNameEmpty`).
- **y position.** The y position is not clamped: it is the span top divided by the page height,
  whatever its value.
- **One bad line aborts the page.** A line without spans raises at `src/pdf_loader.py:48`. A zero
  page height with a non-blank line raises at `src/pdf_loader.py:64`. Either way the whole page
  fails, not just that line (`EmitOkIff`, `FirstPageLinesFacts`).

## Model

| member | source | states |
|---|---|---|
| Strings.StripEmptyIff | src/pdf_loader.py:59-61 | `strip()` gives "" exactly when every character is whitespace, so a line is skipped iff its joined span text is blank |
| Strings.StripIsStripped | src/pdf_loader.py:59 | the result of `strip()` has no whitespace at either end |
| Strings.StripNoop | src/predict_random_forest.py:49 | `strip()` leaves an already stripped string unchanged |
| Strings.StripLower | src/data_builder.py:31-33 | lower-casing commutes with `strip()` and keeps its length, so the length floor does not depend on case |
| Strings.LowerIdempotent | src/data_builder.py:31-32 | lower-casing twice is lower-casing once, and the result has no upper-case ASCII letter |
| Strings.RemoveSpace | src/data_builder.py:31-32 | the squashed text contains no whitespace character |
| Strings.RemoveSpaceAppend | src/data_builder.py:31-32 | removing whitespace distributes over concatenation |
| Strings.RemoveSpaceLower | src/data_builder.py:31-32 | removing whitespace and lower-casing commute |
| Strings.WordsAreWords | src/data_builder.py:26 | every part of `split()` is a non-empty run of non-whitespace characters |
| Strings.WordsEmptyIff | src/pdf2bibtex/core.py:85 | `split()` is empty exactly when the string is all whitespace, which is when `[-1]` raises |
| Strings.JoinWordsRemovesSpace | src/data_builder.py:31-32 | `"".join(s.split())` is `s` with every whitespace character removed |
| Strings.NormalizeSpaceIsJoin | src/data_builder.py:26 | the trailing `strip()` of `" ".join(t.split()).strip()` changes nothing, and the result has no outer whitespace |
| Strings.JoinStripped | src/predict_random_forest.py:48-49 | joining non-empty stripped parts gives a non-empty stripped string that starts with the first part |
| Strings.SplitOn | src/parser.py:47 | `split(c)` always yields at least one part |
| Strings.SplitOnFirst | src/parser.py:47-48 | `split(c)` has a second part exactly when `c` occurs; the first part is the text before the first `c` |
| Strings.SplitOnJoin | src/pdf2bibtex/core.py:83 | joining the parts of `split(c)` with `c` gives the string back |
| Strings.SplitOnPrefix | src/pdf2bibtex/core.py:83 | the first part of `(a + c + b).split(c)` is `a` when `a` has no `c` |
| Strings.ContainsIff | src/data_builder.py:35 | `sub in s` holds exactly when `sub` starts at some position of `s` |
| Strings.RemoveAllSuffix | src/data_builder.py:48 | for a pattern whose first character occurs nowhere else in it, `(s + pat).replace(pat, "")` is `s` whenever `s` does not contain `pat` |
| Strings.NatToString | src/pdf2bibtex/core.py:92 | `str(n)` of a non-negative integer is a non-empty string of digits |
| Strings.NatToStringValue | src/pdf2bibtex/core.py:92 | the digits of `str(n)` read back as `n` |
| Strings.ParseIntToString | src/pdf2bibtex/core.py:73 | `int(str(i)) == i` for every integer |
| Core.FromDict | src/pdf2bibtex/core.py:65-76 | `from_dict` fails exactly when the year text is not an optionally signed run of ASCII digits with optional surrounding whitespace; otherwise it copies every other field and stores the parsed year |
| Core.FromDictAsDict | src/pdf2bibtex/core.py:65-76 | reading back a stored paper gives the same paper |
| Core.FilterAlnum | src/pdf2bibtex/core.py:87 | `filter(str.isalnum, ...)` keeps only alphanumeric characters |
| Core.FilterAlnumKeeps | src/pdf2bibtex/core.py:87 | filtering an alphanumeric string keeps it whole |
| Core.CleanNameShape | src/pdf2bibtex/core.py:80-89 | the clean name is alphanumeric; it is "Unknown" when the text before the first ',' is all whitespace, and otherwise the alphanumeric part of the last word of that text |
| Core.CiteKeyExample | src/pdf2bibtex/core.py:80-92 | authors "Smith, J. and Doe, A." with year 1999 give the key "Smith1999" |
| Core.CiteKeyUnknown | src/pdf2bibtex/core.py:88-92 | an empty author list, or one starting with ',', gives "Unknown" followed by the year |
| Core.CleanNameEmpty | src/pdf2bibtex/core.py:85-87 | a last word without alphanumeric characters gives an empty name, not "Unknown" |
| Core.YearTextNoComma | src/pdf2bibtex/core.py:92 | the rendered year never contains ',' |
| Core.CiteKeyNoComma | src/pdf2bibtex/core.py:80-92 | the cite key never contains ',' |
| Core.EntryKeyOf | src/pdf2bibtex/core.py:97-98 | the key read back from an entry head is the comma-free key written into it |
| Core.EntryShapeOf | src/pdf2bibtex/core.py:97-105 | text laid out as an entry opens with its head, closes with "}", and gives its key back |
| Core.BibtexEntryKey | src/pdf2bibtex/core.py:77-106 | the entry opens with "@article{", the cite key and ",\n", closes with "}", and a BibTeX reader finds the cite key as its key |
| Core.BibtexEntryFields | src/pdf2bibtex/core.py:94-105 | the journal field holds `journal_ref` when it is non-empty and "arXiv preprint arXiv:" with the id otherwise; the note "arXiv:" with the id is in the entry and is its last field, right before the closing "}" |
| PdfLoader.MaxSizeFacts | src/pdf_loader.py:45-55 | the running maximum is at least 0, at least every span size, and is 0 or one of the sizes |
| PdfLoader.AnyBoldIff | src/pdf_loader.py:46-57 | `any_bold` holds exactly when some span has flag bit 16 |
| PdfLoader.MakeLineFacts | src/pdf_loader.py:59-74 | an emitted line has non-empty stripped text, page 0, the given index, no label, y equal to the first span's top over the page height, the largest size, and bold iff some span is bold |
| PdfLoader.BuildLine | src/pdf_loader.py:42-74 | the body of the loop over lines computes exactly the one-line result: an error for a line without spans or a zero page height, a skip for blank text, or the line |
| PdfLoader.EmitBlock | src/pdf_loader.py:42-74 | the loop over one block's lines either stops with the error that processing the rest of the page would give, or leaves exactly the remaining lines to process |
| PdfLoader.GetFirstPageLines | src/pdf_loader.py:17-76 | the nested loops over blocks and lines return exactly the functional extraction of the first page |
| PdfLoader.Kept | src/pdf_loader.py:59-61 | the lines that produce output are exactly the source lines with non-blank text |
| PdfLoader.NumberedAt | src/pdf_loader.py:66-74 | the `i`-th emitted line is the `i`-th kept line, numbered `start + i` |
| PdfLoader.EmitOkIff | src/pdf_loader.py:42-74 | extraction succeeds exactly when every line has spans and, if the page height is zero, every line is blank |
| PdfLoader.EmitNumbered | src/pdf_loader.py:34-76 | the emitted lines are the kept lines, in reading order, numbered consecutively |
| PdfLoader.FirstPageLinesFacts | src/pdf_loader.py:17-76 | an empty document fails; otherwise extraction succeeds iff the page is readable, and then gives one line per non-blank source line whose `line_index` is its position in the output |
| PdfLoader.EmitClean | src/pdf_loader.py:59-74 | every line emitted has non-empty text with no outer whitespace |
| PdfLoader.FirstPageLinesClean | src/pdf_loader.py:17-76 | every line `get_first_page_lines` returns has non-empty stripped text |
| PdfLoader.TextLinesAppend | src/pdf_loader.py:34-42 | the lines of concatenated block lists are the concatenated lines |
| PdfLoader.NonTextBlockIgnored | src/pdf_loader.py:34-40 | inserting a block without lines, such as an image, anywhere in the page changes nothing |
| PdfLoader.TitleZone | src/pdf_loader.py:83-87 | the zone holds exactly the lines that do not contain "arXiv" and lie strictly between 0.08 and 0.35 |
| PdfLoader.ZoneMax | src/pdf_loader.py:93 | the zone maximum is at least every zone size and is the size of some zone line |
| PdfLoader.NearMax | src/pdf_loader.py:96-99 | the selection holds exactly the zone lines within 0.1 of the maximum |
| PdfLoader.TitleLinesFuse | src/pdf_loader.py:83-99 | filtering by zone and then by size equals the one-pass filter over the original lines |
| PdfLoader.TitleCandidateEmptyIff | src/pdf_loader.py:89-90 | for lines with non-empty text the candidate is "" exactly when no line lies in the title zone |
| PdfLoader.TitleCandidateSelection | src/pdf_loader.py:80-101 | otherwise the candidate is the space-join, in original order, of the zone lines near the zone maximum; no zone line is larger, and a line of the maximal size is among those joined |
| PdfLoader.GetTrueTitle | src/pdf_loader.py:108-121 | a missing file gives "File Not Found: " and the path; the first entry whose id starts with the query gives its whitespace-normalised title, or the key error when it has none; no match gives "ID Not in JSON" |
| DataBuilder.SquashIsRemoveSpace | src/data_builder.py:31-32 | squashing equals removing whitespace from the lower-cased text, and lower-casing the text without whitespace |
| DataBuilder.IsLineInTitleIff | src/data_builder.py:29-35 | a line matches exactly when its stripped text has at least 4 characters and its squashed text occurs contiguously in the squashed title |
| DataBuilder.ShortLineNeverMatches | src/data_builder.py:33-34 | a line shorter than 4 characters after stripping matches no title |
| DataBuilder.ShortLineExample | src/data_builder.py:33-34 | "ab" does not match "abstract theory" |
| DataBuilder.CaseInsensitive | src/data_builder.py:29-35 | changing the letter case of the line or the title does not change the answer |
| DataBuilder.TitleSpacingIrrelevant | src/data_builder.py:29-35 | titles that differ only in whitespace are matched by the same lines |
| DataBuilder.TitleSpaceInsertion | src/data_builder.py:29-35 | inserting a run of whitespace anywhere into the title does not change the answer |
| DataBuilder.LineSpacingIrrelevant | src/data_builder.py:29-35 | long enough lines that differ only in whitespace are matched by the same titles |
| DataBuilder.SquashAppend | src/data_builder.py:31-32 | squashing distributes over concatenation |
| DataBuilder.SquashTwoWords | src/data_builder.py:31-32 | whitespace between two words disappears when squashing |
| DataBuilder.LineMatchesEnclosingTitle | src/data_builder.py:29-35 | a line with at least 4 stripped characters matches itself and every title that contains it literally |
| DataBuilder.MatchInside | src/data_builder.py:29-35 | a long enough line matches any title with a part whose squash equals the line's squash |
| DataBuilder.SpacedLineMatches | src/data_builder.py:29-35 | a line "w1 w2" with any gap matches a title containing "w1 w2" with any gap, as "Neural   Networks" matches "A Study of Neural Networks in Practice" |
| DataBuilder.TitleMapErr | src/data_builder.py:20-27 | building the dictionary fails, with the title key error, exactly when some record has no title |
| DataBuilder.TitleMapKeys | src/data_builder.py:20-27 | otherwise the dictionary maps exactly the ids that occur |
| DataBuilder.TitleMapLast | src/data_builder.py:20-27 | each id maps to the whitespace-normalised title of the last record with that id |
| DataBuilder.LoadTitleMetadataToDict | src/data_builder.py:10-27 | the loop returns exactly the fold of the records in file order, later records overwriting earlier ones |
| DataBuilder.LabelFacts | src/data_builder.py:63-66 | every labelled line carries "TITLE" or "OTHER", "TITLE" exactly when it matches, and no other field changes |
| DataBuilder.LabelLines | src/data_builder.py:61-66 | each array element is replaced in place by its labelled line |
| DataBuilder.TitleForPdfName | src/data_builder.py:48-52 | a file named `id + ".pdf"`, where `id` does not contain ".pdf", is looked up under `id` itself, and gets that title when it is non-empty |
| DataBuilder.ReadFile | src/data_builder.py:48-70 | the body of the loop over files yields exactly that file's rows: none unless it is a ".pdf" with a non-empty known title that opens and reads, otherwise its labelled lines in order |
| DataBuilder.BuildTrainingData | src/data_builder.py:37-75 | the loop writes exactly the rows of every file, in directory order |
| DataBuilder.TrainingRowsAppend | src/data_builder.py:47-75 | the rows of a listing are the rows of its first part followed by the rows of the rest |
| DataBuilder.UntitledFileNoRows | src/data_builder.py:49-52 | a file whose id has no title, or an empty one, has no rows, and removing it from any position of the listing leaves the training rows unchanged |
| DataBuilder.TrainingRowsLabelled | src/data_builder.py:47-70 | every training row is the labelled form of a line extracted from a listed ".pdf" file that has a title and opens, and carries "TITLE" exactly when it matches that title, and "OTHER" otherwise |
| Sampler.YearDigits | src/parser.py:51 | the year digits are at most two characters and a prefix of the id's first part |
| Sampler.FirstTarget | src/parser.py:58-60 | the target found is one the tag starts with; none is found exactly when the tag starts with no target |
| Sampler.FirstTargetAt | src/parser.py:59-60 | the target found is the one at the first index whose prefix test succeeds, in caller order |
| Sampler.Init | src/parser.py:26-27 | every target starts with a bucket and a counter |
| Sampler.Distinct | src/parser.py:26 | the dictionary keys are exactly the targets, with no key twice |
| Sampler.DistinctOrder | src/parser.py:26 | the keys keep the order of their first occurrences among the targets |
| Sampler.Reservoir | src/parser.py:61-85 | one reservoir update in place equals the functional update for that target |
| Sampler.RouteTag | src/parser.py:59-86 | the loop over targets, left at the first match, equals offering the tag to its first matching target or doing nothing |
| Sampler.RouteTags | src/parser.py:57-86 | the loop over a record's tags equals processing them in order |
| Sampler.ReadRecord | src/parser.py:34-86 | the filters and the tag loop equal skipping an ineligible record and processing the tags of an eligible one |
| Sampler.CollectBuckets | src/parser.py:88 | the flattening loop gives the concatenation of the buckets in key order |
| Sampler.GetRandomPost2007Subset | src/parser.py:11-89 | the whole sampler returns exactly the buckets of the functional fold over the records, in key order |
| Sampler.LegacyIdExcluded | src/parser.py:46-49 | an id without '.' is not new-style and is excluded |
| Sampler.PhysicsIdExcluded | src/parser.py:46-49 | the id "physics/0301001" is excluded |
| Sampler.NewStyleYear | src/parser.py:46-51 | an id made of digits, '.', and anything is new-style, and its year digits are the first two digits |
| Sampler.Year99Excluded | src/parser.py:51-55 | "9901.0001" is new-style with year value 99, and is excluded |
| Sampler.Year07Included | src/parser.py:38-69 | "0704.0001" with a non-blank journal reference passes every filter, with year value 7 and year text "2007" |
| Sampler.OfferStep | src/parser.py:61-85 | one update counts the record for its target only; a bucket with room grows by the record; a full bucket keeps its length and either stays or has the position `s < samples_per_cat` overwritten, where the draw `s` is in [0, seen - 1] |
| Sampler.OfferSized | src/parser.py:61-85 | one update keeps every bucket at min(seen, capacity) records |
| Sampler.ProcessTagsSized | src/parser.py:58-86 | processing a record's tags keeps every bucket at min(seen, capacity) |
| Sampler.BucketSizes | src/parser.py:26-86 | after any prefix of the snapshot each bucket holds exactly min(seen, capacity) records, never more than the capacity |
| Sampler.ProcessTagsSeen | src/parser.py:58-61 | a record's tags add to a counter the number of tags routed to that target |
| Sampler.SeenCounts | src/parser.py:32-61 | `counts_seen[t]` is the number of (eligible record, tag) pairs whose first matching target is `t` |
| Sampler.RecordCountedPerTag | src/parser.py:58-86 | an eligible record with two tags routed to one target is counted twice and, while there is room, stored twice |
| Sampler.TwoTagsRouted | src/parser.py:58-73 | two tags routed to the same target with room for both append both samples and add 2 to its counter |
| Sampler.OfferProvenant | src/parser.py:61-85 | an update stores only the record offered or records already stored |
| Sampler.ProcessTagsProvenant | src/parser.py:57-86 | processing an eligible record's tags stores only samples of that record under its own tags |
| Sampler.StoredRecordsProvenance | src/parser.py:32-86 | every stored record is built from an eligible record of the snapshot, under one of its own tags whose first matching target is the bucket's |
| Sampler.IneligibleSkipped | src/parser.py:38-55 | a record that fails a filter changes no count, bucket or draw |
| Sampler.FlattenMembers | src/parser.py:88 | a record is in the flattened list exactly when it is in some bucket |
| Sampler.RandomSubsetMembers | src/parser.py:11-89 | the result holds exactly the records of the target buckets, each built from an eligible record under a tag routed to some target |
| Predictor.FeaturesExactly | src/predict_random_forest.py:24-30 | two lines have the same feature row exactly when they agree on index, y, size and boldness, so the text and the label never reach the classifier |
| Predictor.BuildFeatureRows | src/predict_random_forest.py:23-30 | one feature row per line, in line order |
| Predictor.Above | src/predict_random_forest.py:40 | the indices selected are exactly the positions with probability above 0.5, strictly increasing |
| Predictor.ArgMax | src/predict_random_forest.py:44 | `argmax` gives a position of the largest probability, the first one on ties |
| Predictor.SelectIndices | src/predict_random_forest.py:40-45 | the selection is never empty and every index is in range |
| Predictor.PredictDependsOnScores | src/predict_random_forest.py:23-49 | two classifiers that give the same probabilities to the feature rows of the page's lines predict the same title |
| Predictor.TitlePredictor.constructor | src/predict_random_forest.py:8-11 | the predictor holds the given classifier |
| Predictor.TitlePredictor.PredictTitle | src/predict_random_forest.py:13-49 | `predict_title` returns exactly the functional prediction for the document under the stored classifier |
| Predictor.NoLinesMessage | src/predict_random_forest.py:19-20 | a page without lines gives "No text found in PDF." |
| Predictor.PredictErrors | src/predict_random_forest.py:15-17 | prediction fails exactly when line extraction fails, with the same error |
| Predictor.ThresholdSelection | src/predict_random_forest.py:40 | when some probability is above 0.5 the selection is exactly those positions, in increasing order; a probability of exactly 0.5 is never chosen |
| Predictor.FallbackSelection | src/predict_random_forest.py:42-45 | otherwise exactly one line is selected: the first with the largest probability |
| Predictor.TitleIsJoin | src/predict_random_forest.py:47-49 | for stripped non-empty line texts the final `strip()` changes nothing; the title is the space-join of the selected texts and is never empty |
| Predictor.FallbackTitleIsLine | src/predict_random_forest.py:42-49 | in the fallback case the title is the text of the best line itself |
| Predictor.PredictNonEmpty | src/predict_random_forest.py:13-49 | a successful prediction is never the empty string |

## Left out

- PyMuPDF is not modelled. A document is given as its text dictionary: pages of blocks of optional
  lines of spans, each span key optional. Opening, closing and rendering PDFs is left out, and so
  is the `isinstance(b, dict)` test, which is folded into "a block has no lines".
- File I/O, JSON decoding, `os.listdir`, `tqdm` and `print` are left out.
  - The metadata file is given as its parsed records.
  - The PDF directory is a list of file names, each with its document, or none when it does not open.
  - The training rows are returned rather than written as JSON lines.
  - Malformed JSON lines are not modelled.
- GetTrueTitle: `os` is imported only under the script's `__main__` guard, so the source's
  existence check raises `NameError` when the module is imported. The model treats the missing
  file as the intended message.
- Floating-point numbers are modelled as mathematical reals. Rounding in `first_span_y / page_height`
  and in the 0.1 size tolerance is not modelled.
- Core.FromDict / ParseInt: `int()` is modelled for ASCII digits only, with an optional sign and
  surrounding whitespace. Python also accepts `_` between digits ("1_999") and non-ASCII decimal
  digits; the model rejects both.
- Core.FromDict / Core.CiteKey / Sampler.Item: every key these read is present and every field is
  text. So the model leaves out the `KeyError` of a missing key in `from_dict`
  (`src/pdf2bibtex/core.py:69-75`) and in the sampler's lookups (`src/parser.py:46`, `:57`, `:67-72`),
  which ends the whole run. It also leaves out the `TypeError` of `int(None)`
  (`src/pdf2bibtex/core.py:73`), the "Unknown" fallback for a non-string author list through
  `AttributeError` (`src/pdf2bibtex/core.py:88`), and `str()` of a non-string id, such as a null
  id read as "None" (`src/pdf_loader.py:116`, `src/data_builder.py:25`).
- Python's `lower()`, `isdigit()` and `isalnum()` are modelled on ASCII only. `strip()` and `split()`
  use the full `str.isspace()` set.
- The trained random forest, pandas, scikit-learn and joblib are left out. The model is a function
  from a feature row to the probability of the title class, passed to the constructor; loading it
  from a path is not modelled.
- The Mersenne Twister behind `random.randint` and `set_seed(42)` is replaced by a stream of draws.
  The n-th draw of a run is `rand(n) % seen`.
- Sampler.BucketSizes: the claim that each seen record ends in the bucket with probability
  `samples_per_cat / seen` is statistical and is not stated. The model proves the bucket sizes, the
  counts, the replacement step and where stored records come from.
- The default `samples_per_cat=500` of `get_random_post_2007_subset` (`src/parser.py:11`) is the
  constant `Sampler.DefaultSamplesPerCat`; Dafny methods have no default arguments, so callers pass
  the capacity explicitly.
- The `pandas.DataFrame` returned by the sampler is modelled as the list of its rows.
- `PDFLine` objects are modelled as values. `LabelLines` updates an array of them in place, but
  aliasing between the loader's list and the labelled objects is not captured.
- Training (`train_model_random_forest.py`), downloading (`pdf_downloader.py`), metadata enrichment
  (`enrich_data.py`), evaluation (`testing.py`) and `set_seed` are not part of this model. Neither
  are the `__main__` blocks of the core files.
