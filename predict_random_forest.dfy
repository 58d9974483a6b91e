/**
 * Inference with the trained line classifier: the first page is read, each
 * line becomes a feature row, the classifier scores every row, and the lines
 * it is more than 50% sure of, or else the single best line, are joined into
 * the predicted title.
 */
module Predictor {
  import opened Wrappers
  import opened Strings
  import opened Core
  import opened PdfLoader

  /** The four columns the classifier reads, with the bold flag as 1 or 0. */
  datatype FeatureRow = FeatureRow(lineIndex: int, yPosition: real, fontSize: real, isBold: int)

  const NoTextMessage: string := "No text found in PDF."

  /** A line is chosen when its probability is strictly above this. */
  const Threshold: real := 0.5

  function Features(l: PDFLine): (row: FeatureRow)
    ensures row.lineIndex == l.lineIndex && row.yPosition == l.yPosition && row.fontSize == l.fontSize
    ensures (row.isBold == 1 <==> l.isBold) && (row.isBold == 0 <==> !l.isBold)
  {
    FeatureRow(l.lineIndex, l.yPosition, l.fontSize, if l.isBold then 1 else 0)
  }

  /** The rows of the data frame: one per line, in line order. */
  method BuildFeatureRows(lines: seq<PDFLine>) returns (rows: seq<FeatureRow>)
    ensures |rows| == |lines|
    ensures forall k :: 0 <= k < |lines| ==> rows[k] == Features(lines[k])
  {
    rows := [];
    var i := 0;
    while i < |lines|
      invariant 0 <= i <= |lines|
      invariant |rows| == i
      invariant forall k :: 0 <= k < i ==> rows[k] == Features(lines[k])
    {
      rows := rows + [Features(lines[i])];
      i := i + 1;
    }
  }

  /** The comprehension over `enumerate(probs)`: the positions above the threshold, in order. */
  function Above(probs: seq<real>): (r: seq<nat>)
    ensures forall k :: 0 <= k < |r| ==> r[k] < |probs| && probs[r[k]] > Threshold
    ensures forall i :: 0 <= i < |probs| && probs[i] > Threshold ==> i in r
    ensures forall j, k :: 0 <= j < k < |r| ==> r[j] < r[k]
  {
    if probs == [] then []
    else
      var last := |probs| - 1;
      var init := Above(probs[..last]);
      assert forall i :: 0 <= i < last ==> probs[..last][i] == probs[i];
      init + (if probs[last] > Threshold then [last] else [])
  }

  /** numpy's `argmax`: a position of the largest value, the first one on ties. */
  function ArgMax(probs: seq<real>): (m: nat)
    requires probs != []
    ensures m < |probs|
    ensures forall i :: 0 <= i < |probs| ==> probs[i] <= probs[m]
    ensures forall i :: 0 <= i < m ==> probs[i] < probs[m]
  {
    if |probs| == 1 then 0
    else
      var last := |probs| - 1;
      var m := ArgMax(probs[..last]);
      assert forall i :: 0 <= i < last ==> probs[..last][i] == probs[i];
      if probs[last] > probs[m] then last else m
  }

  /** The selected line positions: those above the threshold, or else the best single line. */
  function SelectIndices(probs: seq<real>): (sel: seq<nat>)
    requires probs != []
    ensures sel != []
    ensures forall k :: 0 <= k < |sel| ==> sel[k] < |probs|
  {
    var above := Above(probs);
    if above != [] then above else [ArgMax(probs)]
  }

  function SelectedTexts(lines: seq<PDFLine>, sel: seq<nat>): (texts: seq<string>)
    requires forall k :: 0 <= k < |sel| ==> sel[k] < |lines|
    ensures |texts| == |sel| && forall k :: 0 <= k < |sel| ==> texts[k] == lines[sel[k]].text
  {
    seq(|sel|, k requires 0 <= k < |sel| => lines[sel[k]].text)
  }

  /** The title for the given lines and their probabilities of being title lines. */
  function PredictFromProbs(lines: seq<PDFLine>, probs: seq<real>): string
    requires |probs| == |lines|
  {
    if lines == [] then NoTextMessage
    else Strip(Join(" ", SelectedTexts(lines, SelectIndices(probs))))
  }

  /** The classifier's probability of the title class, row by row. */
  function Scores(model: FeatureRow -> real, lines: seq<PDFLine>): (probs: seq<real>)
    ensures |probs| == |lines|
    ensures forall i :: 0 <= i < |lines| ==> probs[i] == model(Features(lines[i]))
  {
    seq(|lines|, i requires 0 <= i < |lines| => model(Features(lines[i])))
  }

  /** `predict_title` of a document under a classifier. */
  function Predict(model: FeatureRow -> real, doc: seq<Page>): Result<string, LoadError> {
    match FirstPageLines(doc)
    case Err(e) => Err(e)
    case Ok(lines) => Ok(PredictFromProbs(lines, Scores(model, lines)))
  }

  /** Holds the trained classifier, here a function from a feature row to a probability. */
  class TitlePredictor {
    const model: FeatureRow -> real

    constructor(model: FeatureRow -> real)
      ensures this.model == model
    {
      this.model := model;
    }

    method PredictTitle(doc: seq<Page>) returns (r: Result<string, LoadError>)
      ensures r == Predict(model, doc)
    {
      var loaded := GetFirstPageLines(doc);
      if loaded.Err? {
        return Err(loaded.error);
      }
      var lines := loaded.value;
      if |lines| == 0 {
        return Ok(NoTextMessage);
      }
      var rows := BuildFeatureRows(lines);
      var probs := seq(|rows|, i requires 0 <= i < |rows| => model(rows[i]));
      assert probs == Scores(model, lines);
      var chosen := SelectIndices(probs);
      r := Ok(Strip(Join(" ", SelectedTexts(lines, chosen))));
    }
  }

  // ---------------------------------------------------------------- properties

  /**
   * Two lines have the same feature row exactly when they agree on index,
   * y position, font size and boldness: the text and the label never reach
   * the classifier.
   */
  lemma FeaturesExactly(l1: PDFLine, l2: PDFLine)
    ensures Features(l1) == Features(l2) <==>
      l1.lineIndex == l2.lineIndex && l1.yPosition == l2.yPosition && l1.fontSize == l2.fontSize && l1.isBold == l2.isBold
  {
  }

  /** Classifiers that score the feature rows of the page's lines alike predict the same title. */
  lemma PredictDependsOnScores(m1: FeatureRow -> real, m2: FeatureRow -> real, doc: seq<Page>)
    requires FirstPageLines(doc).Ok?
    requires var lines := FirstPageLines(doc).value;
      forall i :: 0 <= i < |lines| ==> m1(Features(lines[i])) == m2(Features(lines[i]))
    ensures Predict(m1, doc) == Predict(m2, doc)
  {
    var lines := FirstPageLines(doc).value;
    assert Scores(m1, lines) == Scores(m2, lines);
  }

  /** An empty line list gives the fixed message whatever the probabilities. */
  lemma NoLinesMessage(model: FeatureRow -> real, doc: seq<Page>)
    requires FirstPageLines(doc) == Ok([])
    ensures Predict(model, doc) == Ok(NoTextMessage)
  {
  }

  /** Reading errors of the first page are passed on unchanged. */
  lemma PredictErrors(model: FeatureRow -> real, doc: seq<Page>)
    ensures Predict(model, doc).Err? <==> FirstPageLines(doc).Err?
    ensures Predict(model, doc).Err? ==> Predict(model, doc).error == FirstPageLines(doc).error
  {
  }

  /**
   * When some probability is above 0.5 the selection is exactly the
   * positions above 0.5, in increasing order; a probability of exactly 0.5
   * is never selected.
   */
  lemma ThresholdSelection(probs: seq<real>)
    requires exists i :: 0 <= i < |probs| && probs[i] > Threshold
    ensures var sel := SelectIndices(probs);
      && (forall i :: 0 <= i < |probs| ==> (i in sel <==> probs[i] > Threshold))
      && (forall j, k :: 0 <= j < k < |sel| ==> sel[j] < sel[k])
  {
    var i :| 0 <= i < |probs| && probs[i] > Threshold;
    assert i in Above(probs);
    var sel := SelectIndices(probs);
    forall j | 0 <= j < |probs| && j in sel ensures probs[j] > Threshold {
      var k :| 0 <= k < |sel| && sel[k] == j;
    }
  }

  /** Otherwise exactly one line is selected: the first one of largest probability. */
  lemma FallbackSelection(probs: seq<real>)
    requires probs != []
    requires forall i :: 0 <= i < |probs| ==> probs[i] <= Threshold
    ensures var sel := SelectIndices(probs);
      && |sel| == 1 && sel[0] < |probs|
      && (forall i :: 0 <= i < |probs| ==> probs[i] <= probs[sel[0]])
      && (forall i :: 0 <= i < sel[0] ==> probs[i] < probs[sel[0]])
  {
  }

  /**
   * For lines with non-empty stripped text, as the loader produces, the final
   * strip changes nothing: the title is the space-join of the selected texts,
   * and it is never empty.
   */
  lemma TitleIsJoin(lines: seq<PDFLine>, probs: seq<real>)
    requires CleanTexts(lines) && |probs| == |lines| && lines != []
    ensures var title := PredictFromProbs(lines, probs);
      && title == Join(" ", SelectedTexts(lines, SelectIndices(probs)))
      && title != [] && IsStripped(title)
  {
    var texts := SelectedTexts(lines, SelectIndices(probs));
    JoinStripped(" ", texts);
    StripNoop(Join(" ", texts));
  }

  /** In the fallback case the title is the text of the best line itself. */
  lemma FallbackTitleIsLine(lines: seq<PDFLine>, probs: seq<real>)
    requires CleanTexts(lines) && |probs| == |lines| && lines != []
    requires forall i :: 0 <= i < |probs| ==> probs[i] <= Threshold
    ensures PredictFromProbs(lines, probs) == lines[ArgMax(probs)].text
  {
    FallbackSelection(probs);
    TitleIsJoin(lines, probs);
  }

  /** A successful prediction is never the empty string. */
  lemma PredictNonEmpty(model: FeatureRow -> real, doc: seq<Page>)
    ensures Predict(model, doc).Ok? ==> Predict(model, doc).value != []
  {
    FirstPageLinesClean(doc);
    match FirstPageLines(doc)
    case Err(_) =>
    case Ok(lines) =>
      if lines != [] {
        TitleIsJoin(lines, Scores(model, lines));
      }
  }
}
