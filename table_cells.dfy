/** Cell selection and pairing of `extract_table_cells` (Attendance.py:53-92).
    The image processing that finds the table's contours, and the OCR of
    each cell, are outside the model: the operation receives the bounding
    rectangle of every contour together with the text OCR reads inside it.
    Writing a crop to `<output_folder>/<roll>.png` is modelled by returning
    the (roll number, cell) pairs in the order the files are written. */
module TableCells {
  import opened Wrappers
  import opened Seqs
  import SignMarker
  import TextExtractor

  /** A contour's bounding rectangle `(x, y, w, h)` and the cell's OCR text. */
  datatype Cell = Cell(x: int, y: int, w: int, h: int, text: string)

  /** A crop saved under a roll number: the file `<roll>.png` holding `cell`. */
  datatype Crop = Crop(roll: string, cell: Cell)

  /** What the pairing loop leaves behind: either it finishes, having saved
      `crops` and left `unused` roll numbers in the list, or `roll.pop(0)`
      raises on an empty list after `crops` were already written. */
  datatype Saving =
    | Saved(crops: seq<Crop>, unused: seq<string>)
    | PopFromEmpty(crops: seq<Crop>)

  // ---------------------------------------------------------------------
  // Filtering and ordering the contours (Attendance.py:66-71)
  // ---------------------------------------------------------------------

  /** Only rectangles wider and taller than 20 pixels are cells. */
  predicate LargeEnough(c: Cell) { c.w > 20 && c.h > 20 }

  function Retained(contours: seq<Cell>): seq<Cell> { Filter(contours, LargeEnough) }

  /** The sort key `(y, x)` of `a` is at most that of `b`. */
  predicate KeyLe(a: Cell, b: Cell) { a.y < b.y || (a.y == b.y && a.x <= b.x) }

  predicate Sorted(cells: seq<Cell>)
  {
    forall i, j :: 0 <= i < j < |cells| ==> KeyLe(cells[i], cells[j])
  }

  /** The cells of `cells` whose key is `(y, x)`, in order. */
  function AtKey(cells: seq<Cell>, y: int, x: int): seq<Cell>
  {
    Filter(cells, (c: Cell) => c.y == y && c.x == x)
  }

  /** Inserts `c` in front of the first cell whose key is not smaller. */
  function Insert(c: Cell, sorted: seq<Cell>): seq<Cell>
  {
    if sorted == [] then [c]
    else if KeyLe(c, sorted[0]) then [c] + sorted
    else [sorted[0]] + Insert(c, sorted[1..])
  }

  /** `sorted(cells, key=lambda x: (x[1], x[0]))`, a stable sort. */
  function SortByKey(cells: seq<Cell>): seq<Cell>
  {
    if cells == [] then [] else Insert(cells[0], SortByKey(cells[1..]))
  }

  /** The cell list of lines 66-71. */
  function SortedCells(contours: seq<Cell>): seq<Cell>
  {
    SortByKey(Retained(contours))
  }

  lemma {:induction false} InsertPermutes(c: Cell, s: seq<Cell>)
    ensures multiset(Insert(c, s)) == multiset(s) + multiset{c}
    decreases |s|
  {
    if s != [] && !KeyLe(c, s[0]) {
      InsertPermutes(c, s[1..]);
      assert s == [s[0]] + s[1..];
    }
  }

  lemma {:induction false} InsertSorted(c: Cell, s: seq<Cell>)
    requires Sorted(s)
    ensures Sorted(Insert(c, s))
    decreases |s|
  {
    if s != [] && !KeyLe(c, s[0]) {
      InsertSorted(c, s[1..]);
      InsertPermutes(c, s[1..]);
      var t := Insert(c, s[1..]);
      forall k | 0 <= k < |t| ensures KeyLe(s[0], t[k]) {
        assert t[k] in multiset(t);
        if t[k] != c {
          assert t[k] in multiset(s[1..]);
          var m :| 0 <= m < |s[1..]| && s[1..][m] == t[k];
          assert s[1 + m] == t[k];
        }
      }
    }
  }

  /** Insertion keeps the relative order of the cells that share a key,
      with the inserted cell first. */
  lemma {:induction false} InsertStable(c: Cell, s: seq<Cell>, y: int, x: int)
    ensures AtKey(Insert(c, s), y, x)
         == (if c.y == y && c.x == x then [c] else []) + AtKey(s, y, x)
    decreases |s|
  {
    var p := (d: Cell) => d.y == y && d.x == x;
    if s == [] {
      assert [c][1..] == [];
    } else if KeyLe(c, s[0]) {
      FilterConcat([c], s, p);
      assert [c][1..] == [];
    } else {
      InsertStable(c, s[1..], y, x);
      FilterConcat([s[0]], Insert(c, s[1..]), p);
      FilterConcat([s[0]], s[1..], p);
      assert [s[0]][1..] == [];
      assert s == [s[0]] + s[1..];
    }
  }

  /** The sort is a stable permutation into (y, x) order: the cells come
      out non-decreasing by key, as a permutation of the input, and cells
      that share a key keep their input order. */
  lemma {:induction false} SortByKeyCorrect(cells: seq<Cell>)
    ensures Sorted(SortByKey(cells))
    ensures multiset(SortByKey(cells)) == multiset(cells)
    ensures forall y, x :: AtKey(SortByKey(cells), y, x) == AtKey(cells, y, x)
    decreases |cells|
  {
    if cells != [] {
      var rest := SortByKey(cells[1..]);
      SortByKeyCorrect(cells[1..]);
      InsertSorted(cells[0], rest);
      InsertPermutes(cells[0], rest);
      assert cells == [cells[0]] + cells[1..];
      forall y, x ensures AtKey(SortByKey(cells), y, x) == AtKey(cells, y, x) {
        InsertStable(cells[0], rest, y, x);
        FilterConcat([cells[0]], cells[1..], (d: Cell) => d.y == y && d.x == x);
        assert [cells[0]][1..] == [];
      }
    }
  }

  /** Every kept cell is larger than 20x20, no large contour is lost, and
      the kept cells are sorted stably by (y, x). */
  lemma SortedCellsCorrect(contours: seq<Cell>)
    ensures forall k :: 0 <= k < |SortedCells(contours)| ==> LargeEnough(SortedCells(contours)[k])
    ensures Sorted(SortedCells(contours))
    ensures multiset(SortedCells(contours)) == multiset(Retained(contours))
    ensures forall y, x :: AtKey(SortedCells(contours), y, x) == AtKey(Retained(contours), y, x)
    ensures forall k :: 0 <= k < |contours| && LargeEnough(contours[k]) ==> contours[k] in SortedCells(contours)
  {
    var r := Retained(contours);
    SortByKeyCorrect(r);
    FilterMembers(contours, LargeEnough);
    var s := SortedCells(contours);
    forall k | 0 <= k < |s| ensures LargeEnough(s[k]) {
      assert s[k] in multiset(r);
    }
    forall k | 0 <= k < |contours| && LargeEnough(contours[k]) ensures contours[k] in s {
      assert contours[k] in r;
      assert contours[k] in multiset(s);
    }
  }

  // ---------------------------------------------------------------------
  // Finding the signature column (Attendance.py:73-82)
  // ---------------------------------------------------------------------

  /** The first index at or after `j` whose cell text is the marker. */
  function MarkerFrom(cells: seq<Cell>, j: nat): (r: Option<nat>)
    ensures r.Some? ==> j <= r.value < |cells| && SignMarker.IsSignText(cells[r.value].text)
    ensures r.Some? ==> forall i :: j <= i < r.value ==> !SignMarker.IsSignText(cells[i].text)
    ensures r.None? ==> forall i :: j <= i < |cells| ==> !SignMarker.IsSignText(cells[i].text)
    decreases |cells| - j
  {
    if j >= |cells| then None
    else if SignMarker.IsSignText(cells[j].text) then Some(j)
    else MarkerFrom(cells, j + 1)
  }

  /** `sign_x`: the x of the first cell after the first one whose text is
      the marker, or None when no such cell exists. */
  function SignColumn(cells: seq<Cell>): (r: Option<int>)
    ensures r.None? <==> forall i :: 1 <= i < |cells| ==> !SignMarker.IsSignText(cells[i].text)
    ensures r.Some? ==> exists j :: 1 <= j < |cells| && cells[j].x == r.value
                          && SignMarker.IsSignText(cells[j].text)
                          && forall i :: 1 <= i < j ==> !SignMarker.IsSignText(cells[i].text)
  {
    match MarkerFrom(cells, 1)
    case None => None
    case Some(j) => Some(cells[j].x)
  }

  /** The marker search as written: a flag skips the first cell, then the
      first cell whose OCR text passes `is_sign` fixes `sign_x`. */
  method FindSignColumn(cells: seq<Cell>) returns (signX: Option<int>)
    ensures signX == SignColumn(cells)
  {
    var skipped := false;
    signX := None;
    for idx := 0 to |cells|
      invariant skipped == (idx > 0)
      invariant idx > 0 ==> MarkerFrom(cells, 1) == MarkerFrom(cells, idx)
    {
      if !skipped {
        skipped := true;
      } else {
        var found := SignMarker.IsSign(cells[idx].text);
        if found {
          signX := Some(cells[idx].x);
          return;
        }
      }
    }
  }

  /** The search from `j` only looks at cells from `j` on. */
  lemma {:induction false} MarkerFromLooksAhead(a: seq<Cell>, b: seq<Cell>, j: nat)
    requires |a| == |b|
    requires forall i :: j <= i < |a| ==> a[i] == b[i]
    ensures MarkerFrom(a, j) == MarkerFrom(b, j)
    decreases |a| - j
  {
    if j < |a| {
      MarkerFromLooksAhead(a, b, j + 1);
    }
  }

  /** The first cell is never examined: whatever it holds, the column found
      is the same. */
  lemma FirstCellIgnored(cells: seq<Cell>, d: Cell)
    requires |cells| > 0
    ensures SignColumn(cells[0 := d]) == SignColumn(cells)
  {
    MarkerFromLooksAhead(cells[0 := d], cells, 1);
  }

  // ---------------------------------------------------------------------
  // Pairing the column's cells with roll numbers (Attendance.py:83-91)
  // ---------------------------------------------------------------------

  /** The cells whose x equals `sign_x`, in sorted order; none when there
      is no `sign_x` (Python's `x == None` is false for every x). */
  function ColumnCells(cells: seq<Cell>, signX: Option<int>): seq<Cell>
  {
    Filter(cells, (c: Cell) => signX == Some(c.x))
  }

  /** The column's cells after its first one (the column header). */
  function DataCells(cells: seq<Cell>, signX: Option<int>): seq<Cell>
  {
    var col := ColumnCells(cells, signX);
    if col == [] then [] else col[1..]
  }

  /** The k-th cell saved under the k-th roll number. */
  function Pair(rolls: seq<string>, data: seq<Cell>): (r: seq<Crop>)
    requires |rolls| == |data|
  {
    seq(|data|, k requires 0 <= k < |data| => Crop(rolls[k], data[k]))
  }

  /** What the pairing loop does, stated positionally: with no more data
      cells than roll numbers every data cell is saved under the roll
      number at its position and the surplus roll numbers are left over;
      otherwise all roll numbers are used up and the next pop fails. */
  function SaveColumn(cells: seq<Cell>, signX: Option<int>, roll: seq<string>): Saving
  {
    var data := DataCells(cells, signX);
    if |data| <= |roll| then Saved(Pair(roll[..|data|], data), roll[|data|..])
    else PopFromEmpty(Pair(roll, data[..|roll|]))
  }

  /** Splitting the cells at `idx` splits the column. */
  lemma ColumnSplits(cells: seq<Cell>, signX: Option<int>, idx: nat)
    requires idx < |cells|
    ensures ColumnCells(cells[..idx + 1], signX)
         == ColumnCells(cells[..idx], signX) + (if signX == Some(cells[idx].x) then [cells[idx]] else [])
    ensures ColumnCells(cells, signX)
         == ColumnCells(cells[..idx + 1], signX) + ColumnCells(cells[idx + 1..], signX)
  {
    var p := (c: Cell) => signX == Some(c.x);
    assert cells[..idx + 1] == cells[..idx] + [cells[idx]];
    FilterConcat(cells[..idx], [cells[idx]], p);
    assert [cells[idx]][1..] == [];
    assert cells == cells[..idx + 1] + cells[idx + 1..];
    FilterConcat(cells[..idx + 1], cells[idx + 1..], p);
  }

  /** How one more cell extends the data cells of a prefix. */
  lemma DataStep(cells: seq<Cell>, signX: Option<int>, idx: nat)
    requires idx < |cells|
    ensures signX != Some(cells[idx].x) ==>
              DataCells(cells[..idx + 1], signX) == DataCells(cells[..idx], signX)
    ensures signX == Some(cells[idx].x) && ColumnCells(cells[..idx], signX) == [] ==>
              DataCells(cells[..idx + 1], signX) == []
    ensures signX == Some(cells[idx].x) && ColumnCells(cells[..idx], signX) != [] ==>
              DataCells(cells[..idx + 1], signX) == DataCells(cells[..idx], signX) + [cells[idx]]
    ensures (ColumnCells(cells[..idx + 1], signX) != [])
         == (ColumnCells(cells[..idx], signX) != [] || signX == Some(cells[idx].x))
  {
    ColumnSplits(cells, signX, idx);
    var col := ColumnCells(cells[..idx], signX);
    if signX == Some(cells[idx].x) && col != [] {
      assert (col + [cells[idx]])[1..] == col[1..] + [cells[idx]];
    }
  }

  /** The data cells of a prefix are a prefix of the data cells. */
  lemma DataPrefix(cells: seq<Cell>, signX: Option<int>, idx: nat)
    requires idx < |cells|
    ensures |DataCells(cells[..idx + 1], signX)| <= |DataCells(cells, signX)|
    ensures DataCells(cells, signX)[..|DataCells(cells[..idx + 1], signX)|] == DataCells(cells[..idx + 1], signX)
  {
    ColumnSplits(cells, signX, idx);
    var col := ColumnCells(cells[..idx + 1], signX);
    var rest := ColumnCells(cells[idx + 1..], signX);
    if col != [] {
      assert (col + rest)[1..] == col[1..] + rest;
    }
  }

  /** A data cell that finds the roll numbers used up makes the whole
      pairing fail, with the crops saved so far. */
  lemma OverflowFails(cells: seq<Cell>, signX: Option<int>, roll: seq<string>, idx: nat)
    requires idx < |cells| && signX == Some(cells[idx].x)
    requires ColumnCells(cells[..idx], signX) != []
    requires |DataCells(cells[..idx], signX)| == |roll|
    ensures SaveColumn(cells, signX, roll) == PopFromEmpty(Pair(roll, DataCells(cells[..idx], signX)))
  {
    var data := DataCells(cells[..idx], signX);
    DataStep(cells, signX, idx);
    DataPrefix(cells, signX, idx);
    assert (data + [cells[idx]])[..|roll|] == data;
  }

  lemma PairSnoc(rolls: seq<string>, data: seq<Cell>, c: Cell)
    requires |data| < |rolls|
    ensures Pair(rolls[..|data| + 1], data + [c])
         == Pair(rolls[..|data|], data) + [Crop(rolls[|data|], c)]
  {
  }

  /** The pairing loop as written: a flag skips the column's first cell and
      each later cell of the column takes `roll.pop(0)` as its file name. */
  method SaveSignatureCells(cells: seq<Cell>, signX: Option<int>, roll0: seq<string>)
    returns (outcome: Saving)
    ensures outcome == SaveColumn(cells, signX, roll0)
  {
    var roll := roll0;
    var crops: seq<Crop> := [];
    var seen := false;
    ghost var data: seq<Cell> := [];
    for idx := 0 to |cells|
      invariant data == DataCells(cells[..idx], signX)
      invariant seen == (ColumnCells(cells[..idx], signX) != [])
      invariant |data| <= |roll0|
      invariant roll == roll0[|data|..]
      invariant crops == Pair(roll0[..|data|], data)
    {
      DataStep(cells, signX, idx);
      var c := cells[idx];
      if signX == Some(c.x) {
        if !seen {
          seen := true;
        } else {
          if roll == [] {
            OverflowFails(cells, signX, roll0, idx);
            return PopFromEmpty(crops);
          }
          PairSnoc(roll0, data, c);
          crops := crops + [Crop(roll[0], c)];
          roll := roll[1..];
          data := data + [c];
        }
      }
    }
    assert cells[..|cells|] == cells;
    outcome := Saved(crops, roll);
  }

  /** Filtering a sorted list keeps it sorted. */
  lemma {:induction false} FilterKeepsSorted(cells: seq<Cell>, p: Cell -> bool)
    requires Sorted(cells)
    ensures Sorted(Filter(cells, p))
    decreases |cells|
  {
    if cells != [] {
      var rest := Filter(cells[1..], p);
      FilterKeepsSorted(cells[1..], p);
      FilterMembers(cells[1..], p);
      if p(cells[0]) {
        forall k | 0 <= k < |rest| ensures KeyLe(cells[0], rest[k]) {
          var m :| 0 <= m < |cells[1..]| && cells[1..][m] == rest[k];
          assert cells[1 + m] == rest[k];
        }
      }
    }
  }

  /** The data cells all lie in the marker column and, taken from sorted
      cells, run top to bottom. */
  lemma DataCellsInColumn(cells: seq<Cell>, signX: Option<int>)
    requires Sorted(cells)
    ensures forall k :: 0 <= k < |DataCells(cells, signX)| ==>
              signX == Some(DataCells(cells, signX)[k].x) && DataCells(cells, signX)[k] in cells
    ensures Sorted(DataCells(cells, signX))
  {
    var col := ColumnCells(cells, signX);
    FilterKeepsSorted(cells, (c: Cell) => signX == Some(c.x));
    FilterMembers(cells, (c: Cell) => signX == Some(c.x));
    if col != [] {
      forall k | 0 <= k < |col| - 1 ensures col[1..][k] == col[k + 1] { }
    }
  }

  /** The pairing is positional: the k-th data cell is saved under the k-th
      roll number; the loop finishes exactly when there are no more data
      cells than roll numbers, leaving the surplus roll numbers unused, and
      otherwise fails after saving one crop per roll number. */
  lemma SaveColumnPositional(cells: seq<Cell>, signX: Option<int>, roll: seq<string>)
    ensures var data, o := DataCells(cells, signX), SaveColumn(cells, signX, roll);
      && (o.Saved? <==> |data| <= |roll|)
      && |o.crops| == (if |data| <= |roll| then |data| else |roll|)
      && (forall k :: 0 <= k < |o.crops| ==> o.crops[k] == Crop(roll[k], data[k]))
      && (o.Saved? ==> o.unused == roll[|data|..])
  {
  }

  /** With no `sign_x`, no cell is in the column. */
  lemma {:induction false} NoColumnWithoutMarker(cells: seq<Cell>)
    ensures ColumnCells(cells, None) == []
    decreases |cells|
  {
    if cells != [] {
      NoColumnWithoutMarker(cells[1..]);
    }
  }

  /** Without a marker cell nothing is paired and every roll number is left
      unused; the failure is silent. */
  lemma NoMarkerSavesNothing(cells: seq<Cell>, roll: seq<string>)
    requires forall i :: 1 <= i < |cells| ==> !SignMarker.IsSignText(cells[i].text)
    ensures SaveColumn(cells, SignColumn(cells), roll) == Saved([], roll)
  {
    NoColumnWithoutMarker(cells);
  }

  // ---------------------------------------------------------------------
  // The whole operation (Attendance.py:53-92)
  // ---------------------------------------------------------------------

  /** The outcome of `extract_table_cells` for a sheet whose OCR text is
      `ocrText` and whose contours are `contours`. */
  function TableExtraction(ocrText: string, contours: seq<Cell>): Saving
  {
    var cells := SortedCells(contours);
    SaveColumn(cells, SignColumn(cells), TextExtractor.RollNumbers(ocrText))
  }

  method ExtractTableCells(ocrText: string, contours: seq<Cell>) returns (outcome: Saving)
    ensures outcome == TableExtraction(ocrText, contours)
  {
    var roll := TextExtractor.ExtractTextFromImage(ocrText);
    var cells := SortedCells(contours);
    var signX := FindSignColumn(cells);
    outcome := SaveSignatureCells(cells, signX, roll);
  }

  /** A sheet that lists its roll numbers one per line, read alongside a
      table whose signature column holds exactly one data cell per roll
      number, saves every data cell under the roll number of its row, in
      order, and uses up every roll number. */
  lemma MatchingSheetPairsEveryRow(rolls: seq<string>, contours: seq<Cell>)
    requires forall k :: 0 <= k < |rolls| ==> TextExtractor.IsRollNumber(rolls[k])
    requires |DataCells(SortedCells(contours), SignColumn(SortedCells(contours)))| == |rolls|
    ensures TableExtraction(TextExtractor.Sheet(rolls), contours)
         == Saved(Pair(rolls, DataCells(SortedCells(contours), SignColumn(SortedCells(contours)))), [])
  {
    TextExtractor.SheetRoundTrip(rolls);
    assert rolls[..|rolls|] == rolls;
  }

  /** More data cells than roll numbers always ends in the failed pop. */
  lemma SurplusCellsFail(ocrText: string, contours: seq<Cell>)
    requires |DataCells(SortedCells(contours), SignColumn(SortedCells(contours)))|
           > |TextExtractor.RollNumbers(ocrText)|
    ensures TableExtraction(ocrText, contours).PopFromEmpty?
  {
  }
}
