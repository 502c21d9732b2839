# Attendance sheet processing, modelled in Dafny

This project models the logic of `Attendance.py`, the attendance-marking
program, once its library calls are replaced by plain inputs. The program
does five things:

- It reads roll numbers from the OCR text of a scanned sheet (`extract_text_from_image`).
- It recognises the header cell that reads "sign" (`is_sign`).
- It picks the table cells, sorts them, finds the signature column and saves
  each signature cell under the next roll number (`extract_table_cells`).
- It scores a signature against a reference from the keypoint-match
  distances (`calculate_similarity`).
- It marks each student Present (score ≥ 85) or Absent (`submit`).

Modules, one per component:

- `TextExtractor` (`text_extractor.dfy`): the tokenizer loop. `Step`, `Run` and
  `Finish` give its meaning as functions. The loop is proved to compute
  `RollNumbers(text)`.
- `SignMarker` (`sign_marker.dfy`): the marker test. `is_sign`'s loop is proved
  to decide `IsSignText`.
- `TableCells` (`table_cells.dfy`): the size filter, the stable `(y, x)` sort,
  the marker search and the pairing loop. The pairing loop's outcome is a
  `Saving`: either `Saved(crops, unused)`, or `PopFromEmpty(crops)` when
  `roll.pop(0)` raises after `crops` were written.
- `Similarity` (`similarity.dfy`): the score, over natural-number distances,
  in exact `real` arithmetic.
- `Submission` (`submission.dfy`): the per-student loop. Its outcome is either
  `Finished(lines)` or `Aborted(lines, error)` for the uncaught exceptions.
- `Seqs` and `Wrappers` (`seqs.dfy`): list-comprehension filtering,
  concatenation and `Option`.

Inputs that stand in for the libraries:

- The OCR output is a string.
- A contour is a `Cell(x, y, w, h, text)`, where `text` is what OCR reads in the cell.
- The ORB matches of a comparison are a sequence of natural distances, given per roll number.
- The images on disk are given as sets of roll numbers: `references` and `staleCrops`.
- A written crop file is a `Crop(roll, cell)` in the order the files are written.

Two behaviours of the code differ from what a reader might expect of it:

- The test `len(current_string) == 8` at Attendance.py:102 suggests that
  only 8-digit tokens are meant to be kept. In fact a line break flushes
  the buffer only when it holds exactly 8 digits. Otherwise the digits
  carry over into the next line. The trailing buffer is appended whatever
  its length. `ShortLineCarries`, `FullLineFlushes`, `ShortLinesCarryOver`,
  `UnterminatedDigitsAreOneToken` and `OverlongBufferNeverFlushes` state
  this behaviour.
- The column header that the pairing loop skips is the first cell, in sorted
  order, whose x equals `sign_x`. That cell need not be the marker cell.

## Model

| member | source | states |
|---|---|---|
| TextExtractor.ExtractTextFromImage | Attendance.py:94-109 | the tokenizer loop returns `RollNumbers(text)`; the concatenation of its tokens is exactly the digits of the text; every token but the last is 8 digits; no token is empty |
| TextExtractor.RunSpellsDigits | Attendance.py:97-106 | no digit is dropped or reordered: tokens followed by the buffer always spell the digits consumed so far |
| TextExtractor.RunAppendsRollNumbers | Attendance.py:101-106 | every token appended at a line break is exactly 8 digits; the buffer holds only digits |
| TextExtractor.RollNumbersShape | Attendance.py:97-109 | the result concatenates to the text's digits, all tokens but the last are 8-digit roll numbers, and none is empty |
| TextExtractor.RunDigits | Attendance.py:105-106 | a run of digits only grows the buffer |
| TextExtractor.OverlongBufferNeverFlushes | Attendance.py:101-106 | once the buffer holds more than 8 digits, no later line break appends a token; every further digit joins the buffer |
| TextExtractor.ShortLineCarries | Attendance.py:101-106 | from any state, a line of digits whose break finds other than 8 digits buffered is not flushed; its digits stay in the buffer and run into the next line |
| TextExtractor.FullLineFlushes | Attendance.py:101-104 | from any state, a line of digits whose break finds exactly 8 digits buffered appends them as one token and empties the buffer |
| TextExtractor.ShortLinesCarryOver | Attendance.py:97-108 | example: a first line of other than 8 digits followed by a line completing 8 digits gives one token ("1234\n5678\n" gives ["12345678"]) |
| TextExtractor.UnterminatedDigitsAreOneToken | Attendance.py:107-108 | a non-empty digit run with no line break comes back as one token, whatever its length |
| TextExtractor.SheetRoundTrip | Attendance.py:97-109 | extraction inverts printing one 8-digit roll number per line: the same roll numbers come back, in order |
| SignMarker.IsSign | Attendance.py:42-51 | the loop that joins the letters and compares their lower-case form with "sign" decides `IsSignText` |
| SignMarker.SignTextSpelling | Attendance.py:45-50 | a text is accepted iff its letters are exactly four, spelling s-i-g-n in any mix of cases |
| SignMarker.SignIgnoresNonLetters | Attendance.py:45 | inserting a non-letter anywhere never changes the verdict |
| SignMarker.LettersOfLower | Attendance.py:45-49 | keeping the letters commutes with lower-casing |
| SignMarker.SignIsCaseInsensitive | Attendance.py:49 | lower-casing the whole text first does not change the verdict |
| SignMarker.InterleavedMarkerAccepted | Attendance.py:45-50 | S, i, g, n separated by any noise without letters (e.g. "S-i g.n 2") is accepted |
| Seqs.Filter | Attendance.py:97 | a list comprehension with a condition yields no more elements than its input |
| Seqs.FilterMembers | Attendance.py:97 | the comprehension keeps exactly the elements that pass: every kept element is in the input and passes, and every passing input element is kept |
| TableCells.SortByKeyCorrect | Attendance.py:71 | the sort gives non-decreasing (y, x) order, is a permutation, and keeps the input order of cells with equal keys (stable) |
| TableCells.SortedCellsCorrect | Attendance.py:66-71 | every kept cell has w > 20 and h > 20, every such contour is kept, and the list is a stable (y, x)-sorted permutation of the filtered rectangles |
| TableCells.MarkerFrom | Attendance.py:75-82 | the search returns the first index from its start whose text passes `is_sign`, or none when no such cell exists |
| TableCells.SignColumn | Attendance.py:73-82 | `sign_x` is None iff no cell after the first passes `is_sign`; otherwise it is the x of the first such cell |
| TableCells.FindSignColumn | Attendance.py:73-82 | the flag-driven loop with `break` computes `SignColumn(cells)` |
| TableCells.FirstCellIgnored | Attendance.py:75-78 | the first sorted cell is never examined: replacing it never changes `sign_x` |
| TableCells.DataCellsInColumn | Attendance.py:84-88 | every paired cell has x equal to `sign_x` and the paired cells run top to bottom |
| TableCells.SaveSignatureCells | Attendance.py:83-91 | the pairing loop skips the column's first cell and saves the k-th later cell under the k-th roll number; it fails after using every roll number exactly when the column has more such cells than roll numbers |
| TableCells.SaveColumnPositional | Attendance.py:84-91 | the outcome is Saved iff the data cells are no more than the roll numbers; crop k pairs roll k with data cell k; surplus roll numbers stay unused |
| TableCells.NoMarkerSavesNothing | Attendance.py:74-85 | with no marker cell nothing is saved and every roll number is left unused, with no error |
| TableCells.SurplusCellsFail | Attendance.py:84-91 | more column cells than roll numbers always ends in the failed pop |
| TableCells.ExtractTableCells | Attendance.py:53-92 | the whole operation, with roll numbers from the OCR text, the sorted cells and the found column, computes `TableExtraction` |
| TableCells.MatchingSheetPairsEveryRow | Attendance.py:65-91 | a sheet listing its roll numbers one per line, with one data cell per roll number, saves cell k under roll k and uses every roll number |
| Similarity.CalculateSimilarity | Attendance.py:25-30 | the score lies in [0, 100] and is 0 for no matches |
| Similarity.SimilarityAntitone | Attendance.py:28-29 | a larger mean distance never gives a higher score |
| Similarity.PerfectScore | Attendance.py:25-30 | the score is 100 iff there is at least one match and every distance is 0 |
| Similarity.ZeroScore | Attendance.py:26-29 | the score is 0 iff there is no match or the mean distance is at least 100 |
| Similarity.SimilarityIgnoresOrder | Attendance.py:22-30 | the score does not depend on the order of the matches, so sorting them by distance first has no effect |
| Submission.Submit | Attendance.py:116-129 | the submission extracts roll numbers and saves crops, aborts on the failed pop, then prints Present/Absent per roll number until an image cannot be loaded; it computes `Submission(...)` |
| Submission.PresentIff | Attendance.py:126-129 | a student is Present iff there is at least one match and the mean distance is at most 15 (score ≥ 85) |
| Submission.ReportPositional | Attendance.py:122-129 | line k is roll number k with the status its score gives; an abort happens at the first roll number missing its reference (loaded first) or its crop, with that image's path |
| Submission.ReportFinishesIff | Attendance.py:122-125 | every roll number gets a line iff each one has both a reference image and a crop |
| Submission.NoMarkerAbortsSubmission | Attendance.py:119-125 | with no marker cell and no crops left from earlier runs, when there is at least one roll number and the first has its reference image, the submission fails on that roll number's crop before printing anything |
| Submission.MatchingSheetReportsEveryStudent | Attendance.py:116-129 | a sheet with one roll number per line, one signature cell each and all references present yields one line per student, in sheet order, each classified by its score |

## Left out

- The tkinter window, `browse_files`, the path field, the button wiring and the empty-path check (Attendance.py:111-118, 131-143). These are GUI plumbing; the model starts from the sheet's OCR text and contours.
- The OpenCV calls (Attendance.py:7-23, 32-39, 54-64): image loading and resizing, ORB keypoints, brute-force Hamming matching, the adaptive threshold, the morphology and `findContours`. These are library internals. Contours and match distances are inputs. A failed image load is modelled only through which images exist on disk.
- `compare_signatures` with no descriptors (a blank crop): OpenCV's behaviour there is library behaviour and is not modelled. The model takes the distances as given, possibly none.
- The pytesseract calls (Attendance.py:44, 96). The sheet's OCR text and each cell's OCR text are inputs.
- Filesystem effects (Attendance.py:72, 89-91, 123-129): `os.makedirs`, the pixels written by `cv2.imwrite`, and the printing. A written crop is the pair of its roll number and its cell. A printed line is a `Line`. When two crops share a roll number, the later file overwrites the earlier one on disk. The model keeps both pairs in write order.
- Python's Unicode `isdigit`, `isalpha` and `lower`. Digits and letters are ASCII, and case folding is ASCII only.
- Floating-point rounding of the mean distance. The score uses exact rationals (`real`) over natural-number distances.
