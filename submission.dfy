/** The attendance decision of `submit` (Attendance.py:116-129). The form's
    path field is outside the model; the sheet's OCR text and contours, the
    images present on disk and the match distances of each comparison are
    parameters. Each printed line `"<roll> : Present"` or `"<roll> : Absent"`
    is a `Line` of the outcome. */
module Submission {
  import TextExtractor
  import SignMarker
  import TableCells
  import Similarity

  datatype Status = Present | Absent

  /** One printed line: a roll number and its status. */
  datatype Line = Line(roll: string, status: Status)

  /** The exceptions that end a submission: `roll.pop(0)` on an empty list
      while saving crops, or `ValueError("Image not found: <path>")` when an
      image cannot be loaded for comparison. */
  datatype Error = PopFromEmptyList | ImageNotFound(path: string)

  /** A submission either prints a line for every roll number, or stops at
      an uncaught exception after printing `lines`. */
  datatype Outcome = Finished(lines: seq<Line>) | Aborted(lines: seq<Line>, error: Error)

  const Threshold: real := 85.0

  /** A score of at least 85 is Present, anything else Absent. */
  function Classify(score: real): Status
  {
    if score >= Threshold then Present else Absent
  }

  function ReferencePath(roll: string): string { "Student_signatures/" + roll + ".png" }

  function CropPath(roll: string): string { "sign_images/" + roll + ".png" }

  /** The roll numbers under which a crop was written in this run. */
  function SavedRolls(crops: seq<TableCells.Crop>): set<string>
  {
    set k | 0 <= k < |crops| :: crops[k].roll
  }

  /** `o` preceded by the lines already printed. */
  function AfterPrinting(printed: seq<Line>, o: Outcome): Outcome
  {
    match o
    case Finished(ls) => Finished(printed + ls)
    case Aborted(ls, e) => Aborted(printed + ls, e)
  }

  /** The comparison loop over `rolls` (Attendance.py:122-129): the
      reference image `references` must hold and the crop `crops` must hold
      for a roll number, or loading fails (the reference is loaded first);
      `matches(r)` are the distances of the matches found between the two
      images of roll number `r`. */
  function Report(rolls: seq<string>, references: set<string>, crops: set<string>,
                  matches: string -> seq<nat>): Outcome
    decreases |rolls|
  {
    if rolls == [] then Finished([])
    else
      var r := rolls[0];
      if r !in references then Aborted([], ImageNotFound(ReferencePath(r)))
      else if r !in crops then Aborted([], ImageNotFound(CropPath(r)))
      else AfterPrinting([Line(r, Classify(Similarity.CalculateSimilarity(matches(r))))],
                         Report(rolls[1..], references, crops, matches))
  }

  /** What `submit` does for a sheet: extract the roll numbers, save the
      signature crops, then compare and classify each roll number in turn.
      `staleCrops` are the crops left in the output folder by earlier runs,
      which the program never removes. */
  function Submission(ocrText: string, contours: seq<TableCells.Cell>, references: set<string>,
                      staleCrops: set<string>, matches: string -> seq<nat>): Outcome
  {
    match TableCells.TableExtraction(ocrText, contours)
    case PopFromEmpty(_) => Aborted([], PopFromEmptyList)
    case Saved(crops, _) =>
      Report(TextExtractor.RollNumbers(ocrText), references, staleCrops + SavedRolls(crops), matches)
  }

  lemma AfterPrintingTwice(a: seq<Line>, b: seq<Line>, o: Outcome)
    ensures AfterPrinting(a, AfterPrinting(b, o)) == AfterPrinting(a + b, o)
  {
    match o
    case Finished(ls) => assert a + (b + ls) == (a + b) + ls;
    case Aborted(ls, e) => assert a + (b + ls) == (a + b) + ls;
  }

  /** The comparison loop resumed at position `i` looks at `rolls[i]` first. */
  lemma ReportFrom(rolls: seq<string>, i: nat, references: set<string>, crops: set<string>,
                   matches: string -> seq<nat>)
    requires i < |rolls|
    ensures var r := rolls[i];
      Report(rolls[i..], references, crops, matches)
        == if r !in references then Aborted([], ImageNotFound(ReferencePath(r)))
           else if r !in crops then Aborted([], ImageNotFound(CropPath(r)))
           else AfterPrinting([Line(r, Classify(Similarity.CalculateSimilarity(matches(r))))],
                              Report(rolls[i + 1..], references, crops, matches))
  {
    assert rolls[i..][0] == rolls[i] && rolls[i..][1..] == rolls[i + 1..];
  }

  /** `submit` as written. */
  method Submit(ocrText: string, contours: seq<TableCells.Cell>, references: set<string>,
                staleCrops: set<string>, matches: string -> seq<nat>)
    returns (outcome: Outcome)
    ensures outcome == Submission(ocrText, contours, references, staleCrops, matches)
  {
    var rollNo := TextExtractor.ExtractTextFromImage(ocrText);
    var saving := TableCells.ExtractTableCells(ocrText, contours);
    if saving.PopFromEmpty? {
      return Aborted([], PopFromEmptyList);
    }
    var onDisk := staleCrops + SavedRolls(saving.crops);
    var lines: seq<Line> := [];
    for i := 0 to |rollNo|
      invariant Report(rollNo, references, onDisk, matches)
             == AfterPrinting(lines, Report(rollNo[i..], references, onDisk, matches))
    {
      var r := rollNo[i];
      ReportFrom(rollNo, i, references, onDisk, matches);
      if r !in references {
        return Aborted(lines, ImageNotFound(ReferencePath(r)));
      }
      if r !in onDisk {
        return Aborted(lines, ImageNotFound(CropPath(r)));
      }
      var similarityScore := Similarity.CalculateSimilarity(matches(r));
      var line := if similarityScore >= Threshold then Line(r, Present) else Line(r, Absent);
      AfterPrintingTwice(lines, [line], Report(rollNo[i + 1..], references, onDisk, matches));
      lines := lines + [line];
    }
    assert rollNo[|rollNo|..] == [];
    assert lines + [] == lines;
    outcome := Finished(lines);
  }

  // ---------------------------------------------------------------------
  // Properties of the decision
  // ---------------------------------------------------------------------

  /** A student is Present exactly when there is at least one match and the
      mean match distance is at most 15. */
  lemma PresentIff(d: seq<nat>)
    ensures Classify(Similarity.CalculateSimilarity(d)) == Present
        <==> |d| > 0 && Similarity.Sum(d) <= 15 * |d|
  {
    if |d| > 0 {
      Similarity.MeanBound(d, 15.0);
      assert (15 * |d|) as real == 15.0 * (|d| as real);
    }
  }

  /** The report is positional: the k-th printed line is the k-th roll
      number with the status its score gives, and the loop stops at the
      first roll number whose reference or crop is missing. */
  lemma {:induction false} ReportPositional(rolls: seq<string>, references: set<string>,
                                            crops: set<string>, matches: string -> seq<nat>)
    ensures var o := Report(rolls, references, crops, matches);
      && |o.lines| <= |rolls|
      && (forall k :: 0 <= k < |o.lines| ==>
            rolls[k] in references && rolls[k] in crops
            && o.lines[k] == Line(rolls[k], Classify(Similarity.CalculateSimilarity(matches(rolls[k])))))
      && (o.Finished? ==> |o.lines| == |rolls|)
      && (o.Aborted? ==>
            (|o.lines| < |rolls|
             && var r := rolls[|o.lines|];
                (r !in references || r !in crops)
                && o.error == (if r !in references then ImageNotFound(ReferencePath(r))
                               else ImageNotFound(CropPath(r)))))
    decreases |rolls|
  {
    if rolls != [] {
      var r := rolls[0];
      if r in references && r in crops {
        ReportPositional(rolls[1..], references, crops, matches);
      }
    }
  }

  /** The report covers every roll number exactly when each one has both a
      reference image and a crop. */
  lemma {:induction false} ReportFinishesIff(rolls: seq<string>, references: set<string>,
                                             crops: set<string>, matches: string -> seq<nat>)
    ensures Report(rolls, references, crops, matches).Finished?
        <==> forall k :: 0 <= k < |rolls| ==> rolls[k] in references && rolls[k] in crops
    decreases |rolls|
  {
    if rolls != [] {
      ReportFinishesIff(rolls[1..], references, crops, matches);
      assert forall k :: 1 <= k < |rolls| ==> rolls[k] == rolls[1..][k - 1];
    }
  }

  /** With no marker cell and no crops left from earlier runs, nothing is
      saved: when the first roll number has its reference image, the
      submission fails loading that roll number's crop, before printing
      anything. */
  lemma NoMarkerAbortsSubmission(ocrText: string, contours: seq<TableCells.Cell>,
                                 references: set<string>, matches: string -> seq<nat>)
    requires var cells := TableCells.SortedCells(contours);
      forall i :: 1 <= i < |cells| ==> !SignMarker.IsSignText(cells[i].text)
    requires |TextExtractor.RollNumbers(ocrText)| > 0
    requires TextExtractor.RollNumbers(ocrText)[0] in references
    ensures Submission(ocrText, contours, references, {}, matches)
         == Aborted([], ImageNotFound(CropPath(TextExtractor.RollNumbers(ocrText)[0])))
  {
    var cells := TableCells.SortedCells(contours);
    TableCells.NoMarkerSavesNothing(cells, TextExtractor.RollNumbers(ocrText));
    assert SavedRolls([]) == {};
  }

  /** A sheet listing its roll numbers one per line, with one signature
      cell per roll number and a reference image for each, yields one line
      per roll number, in sheet order, each classified by its score. */
  lemma MatchingSheetReportsEveryStudent(rolls: seq<string>, contours: seq<TableCells.Cell>,
                                         references: set<string>, matches: string -> seq<nat>)
    requires forall k :: 0 <= k < |rolls| ==> TextExtractor.IsRollNumber(rolls[k]) && rolls[k] in references
    requires var cells := TableCells.SortedCells(contours);
      |TableCells.DataCells(cells, TableCells.SignColumn(cells))| == |rolls|
    ensures var o := Submission(TextExtractor.Sheet(rolls), contours, references, {}, matches);
      && o.Finished? && |o.lines| == |rolls|
      && forall k :: 0 <= k < |rolls| ==>
           o.lines[k] == Line(rolls[k], Classify(Similarity.CalculateSimilarity(matches(rolls[k]))))
  {
    var cells := TableCells.SortedCells(contours);
    var data := TableCells.DataCells(cells, TableCells.SignColumn(cells));
    TableCells.MatchingSheetPairsEveryRow(rolls, contours);
    TextExtractor.SheetRoundTrip(rolls);
    var crops := TableCells.Pair(rolls, data);
    forall k | 0 <= k < |rolls| ensures rolls[k] in {} + SavedRolls(crops) {
      assert crops[k].roll == rolls[k];
    }
    ReportFinishesIff(rolls, references, {} + SavedRolls(crops), matches);
    ReportPositional(rolls, references, {} + SavedRolls(crops), matches);
  }
}
