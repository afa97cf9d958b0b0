/** The text layout written by `convert_to_matrix` in Colab_Write_Matrix.py:
    one data line per raster row (the row's class values as digits, a space,
    the row's latitude label right-aligned in a 12-character field), one blank
    line, and one line of longitude labels placed every `n` columns.

    The raster (height rows of width class values) and the formatted
    coordinate labels (one latitude per row, one longitude per column) are
    inputs; the output file is the sequence of lines written to it, each of
    which the source ends with a line feed. */
module MatrixText {
  import opened Strings
  import opened Decimal

  /** Width of the latitude field, the `>12` of the data-line format. */
  const LatitudeField: int := 12

  /** The failures the layout itself can raise at the first column:
      `c % label_every_n_cols` with a zero stride (Python's
      ZeroDivisionError), and the label format `.{round_decimals}f` with a
      negative precision (Python's ValueError, "Format specifier missing
      precision"). */
  datatype Fault = ModuloByZero | MissingPrecision

  /** What ends up in the output file. The file is opened in a `with` block,
      so when the label loop raises, the lines already written stay in it. */
  datatype Outcome =
    | Written(lines: seq<string>)
    | Raised(fault: Fault, partial: seq<string>)

  /** The shapes the raster read guarantees: one latitude label per row, and
      every row as long as there are longitude labels (the raster width). */
  predicate WellShaped(grid: seq<seq<int>>, lats: seq<string>, lons: seq<string>)
  {
    && |lats| == |grid|
    && forall r :: 0 <= r < |grid| ==> |grid[r]| == |lons|
  }

  predicate SingleDigits(row: seq<int>)
  {
    forall c :: 0 <= c < |row| ==> 0 <= row[c] <= 9
  }

  /** The decimal rendering of each class value of a row, in column order. */
  function RowPieces(row: seq<int>): (pieces: seq<string>)
    ensures |pieces| == |row|
    ensures forall c :: 0 <= c < |row| ==> |pieces[c]| >= 1
  {
    seq(|row|, c requires 0 <= c < |row| => IntToDecimal(row[c]))
  }

  /** `''.join(str(int(v)) for v in row_vals)`: the digit prefix of a data
      line, at least one character per pixel. */
  function RowString(row: seq<int>): (s: string)
    ensures |s| >= |row|
  {
    var pieces := RowPieces(row);
    TotalLengthOfNonEmpty(pieces);
    Concat(pieces)
  }

  /** The digit prefix has exactly one character per pixel if and only if
      every class value is a single decimal digit (a value of 10 or more, or
      a negative one, takes two or more characters and shifts the rest of
      the line); when it does, character `c` is the digit of column `c`. */
  lemma RowStringWidth(row: seq<int>)
    ensures |RowString(row)| >= |row|
    ensures |RowString(row)| == |row| <==> SingleDigits(row)
    ensures SingleDigits(row) ==> forall c :: 0 <= c < |row| ==> RowString(row)[c] == DigitChar(row[c])
  {
    var pieces := RowPieces(row);
    TotalLengthOfNonEmpty(pieces);
    forall c | 0 <= c < |row|
      ensures |pieces[c]| == 1 <==> 0 <= row[c] <= 9
    {
      assert pieces[c] == IntToDecimal(row[c]);
    }
    if SingleDigits(row) {
      ConcatOfSingletons(pieces);
    }
  }

  /** `f"{row_str} {lat:>12}"`: one data line. It starts with the row's
      digit prefix, then one space, and ends with the latitude label
      right-justified in its 12-character field; so it is always at least
      `width + 13` characters long. */
  function DataLine(row: seq<int>, lat: string): (line: string)
    ensures var k := |RowString(row)|;
      && |line| > k
      && line[..k] == RowString(row)
      && line[k] == ' '
      && IsRightJustified(line[k + 1..], lat, LatitudeField)
    ensures |line| >= |row| + 1 + LatitudeField
  {
    RowString(row) + " " + RightJustify(lat, LatitudeField)
  }

  /** The data line of a row of single digits: `width` digits in column
      order, one space, then the latitude label right-justified in a field
      `max(12, len(label))` wide. */
  lemma DataLineLayout(row: seq<int>, lat: string)
    requires SingleDigits(row)
    ensures |DataLine(row, lat)| == |row| + 1 + Max(LatitudeField, |lat|)
    ensures forall c :: 0 <= c < |row| ==> DataLine(row, lat)[c] == DigitChar(row[c])
    ensures DataLine(row, lat)[|row|] == ' '
    ensures IsRightJustified(DataLine(row, lat)[|row| + 1..], lat, LatitudeField)
  {
    RowStringWidth(row);
    var line := DataLine(row, lat);
    assert line[|row| + 1..] == RightJustify(lat, LatitudeField);
    forall c | 0 <= c < |row|
      ensures line[c] == DigitChar(row[c])
    {
      assert line[c] == RowString(row)[c];
    }
  }

  /** `f` applied to each pair `xs[i]`, `ys[i]`, built by appending at the
      end, as a loop that writes one line per row does. */
  function MapPairs<A, B, C>(f: (A, B) -> C, xs: seq<A>, ys: seq<B>): (zs: seq<C>)
    requires |ys| == |xs|
    ensures |zs| == |xs|
  {
    if xs == [] then []
    else MapPairs(f, xs[..|xs| - 1], ys[..|ys| - 1]) + [f(xs[|xs| - 1], ys[|ys| - 1])]
  }

  lemma {:induction false} MapPairsAt<A, B, C>(f: (A, B) -> C, xs: seq<A>, ys: seq<B>, i: int)
    requires |ys| == |xs| && 0 <= i < |xs|
    ensures MapPairs(f, xs, ys)[i] == f(xs[i], ys[i])
  {
    var last := |xs| - 1;
    if i < last {
      MapPairsAt(f, xs[..last], ys[..last], i);
      assert xs[..last][i] == xs[i] && ys[..last][i] == ys[i];
    }
  }

  lemma MapPairsStep<A, B, C>(f: (A, B) -> C, xs: seq<A>, ys: seq<B>, i: int)
    requires |ys| == |xs| && 0 <= i < |xs|
    ensures MapPairs(f, xs[..i + 1], ys[..i + 1]) == MapPairs(f, xs[..i], ys[..i]) + [f(xs[i], ys[i])]
  {
    assert xs[..i + 1][..i] == xs[..i] && ys[..i + 1][..i] == ys[..i];
  }

  /** The data lines of every row, top row first: one line per raster row. */
  function DataLines(grid: seq<seq<int>>, lats: seq<string>): (lines: seq<string>)
    requires |lats| == |grid|
    ensures |lines| == |grid|
  {
    MapPairs(DataLine, grid, lats)
  }

  /** Data line `r` is written from raster row `r` and latitude label `r`. */
  lemma DataLinesAt(grid: seq<seq<int>>, lats: seq<string>, r: int)
    requires |lats| == |grid| && 0 <= r < |grid|
    ensures DataLines(grid, lats)[r] == DataLine(grid[r], lats[r])
  {
    MapPairsAt(DataLine, grid, lats, r);
  }

  /** The piece of the label line for column `c`. Dafny's `%` and Python's
      `%` differ for a negative stride, but both give zero exactly when the
      stride divides `c`, which is all the test asks. */
  function LabelPiece(c: nat, n: int, lab: string): (piece: string)
    requires n != 0
    ensures c % n != 0 ==> piece == " "
    ensures c % n == 0 ==> IsRightJustified(piece, lab, n)
    ensures n >= 1 ==> |piece| >= 1
  {
    if c % n == 0 then RightJustify(lab, Max(n, |lab|)) else " "
  }

  /** The pieces of the label line, one per column, in column order: a
      labelled column's piece is `max(n, len(label))` wide, any other
      column's piece one character. */
  function LabelPieces(lons: seq<string>, n: int): (pieces: seq<string>)
    requires n != 0 || |lons| == 0
    ensures |pieces| == |lons|
    ensures forall c :: 0 <= c < |lons| ==> |pieces[c]| == if c % n == 0 then Max(n, |lons[c]|) else 1
  {
    seq(|lons|, c requires 0 <= c < |lons| => LabelPiece(c, n, lons[c]))
  }

  /** `''.join(bottom_line)`: the longitude label line. It is as long as
      its pieces together, and with a positive stride every column
      contributes at least one character, so it is at least as long as the
      raster is wide. */
  function LabelLine(lons: seq<string>, n: int): (line: string)
    requires n != 0 || |lons| == 0
    ensures |line| == TotalLength(LabelPieces(lons, n))
    ensures n >= 1 ==> |line| >= |lons|
  {
    var pieces := LabelPieces(lons, n);
    if n >= 1 then
      TotalLengthOfNonEmpty(pieces);
      Concat(pieces)
    else
      Concat(pieces)
  }

  /** The whole file: the data lines and the blank line are written first.
      Column 0 is always a labelled column, so a zero stride, or else a
      negative precision, raises there; only a raster with no columns gets
      its (empty) label line whatever the two parameters are. */
  function Layout(grid: seq<seq<int>>, lats: seq<string>, lons: seq<string>, n: int, decimals: int): (o: Outcome)
    requires WellShaped(grid, lats, lons)
    ensures o.Written? <==> |lons| == 0 || (n != 0 && decimals >= 0)
    ensures o.Written? ==> |o.lines| == |grid| + 2 && o.lines[|grid|] == ""
    ensures o.Raised? ==> |o.partial| == |grid| + 1 && o.partial[|grid|] == ""
    ensures o.Raised? ==> (o.fault == ModuloByZero <==> n == 0)
  {
    var head := DataLines(grid, lats) + [""];
    if |lons| > 0 && n == 0 then Raised(ModuloByZero, head)
    else if |lons| > 0 && decimals < 0 then Raised(MissingPrecision, head)
    else Written(head + [LabelLine(lons, n)])
  }

  /** Line `r` of the file is the data line of raster row `r`, whether or
      not the label line is reached. */
  lemma LayoutRows(grid: seq<seq<int>>, lats: seq<string>, lons: seq<string>, n: int, decimals: int, r: int)
    requires WellShaped(grid, lats, lons)
    requires 0 <= r < |grid|
    ensures var o := Layout(grid, lats, lons, n, decimals);
      (if o.Written? then o.lines else o.partial)[r] == DataLine(grid[r], lats[r])
  {
    DataLinesAt(grid, lats, r);
  }

  /** The last line of a completed file is the label line. */
  lemma LayoutLastLine(grid: seq<seq<int>>, lats: seq<string>, lons: seq<string>, n: int, decimals: int)
    requires WellShaped(grid, lats, lons)
    requires n != 0 && decimals >= 0
    ensures Layout(grid, lats, lons, n, decimals).Written?
    ensures Layout(grid, lats, lons, n, decimals).lines[|grid| + 1] == LabelLine(lons, n)
  {
  }

  /** Column `c`'s piece sits in the label line in column order: it starts
      after the pieces of columns `0 .. c-1` and ends before those of the
      later columns. */
  lemma LabelLineColumn(lons: seq<string>, n: int, c: int)
    requires n != 0
    requires 0 <= c < |lons|
    ensures var pieces := LabelPieces(lons, n);
      var start := TotalLength(pieces[..c]);
      && start + |pieces[c]| <= |LabelLine(lons, n)|
      && LabelLine(lons, n)[start .. start + |pieces[c]|] == LabelPiece(c, n, lons[c])
  {
    PieceAt(LabelPieces(lons, n), c);
  }

  /** The number of labelled columns among the first `w`: those whose index
      is a multiple of the stride. */
  function LabelledColumns(w: nat, n: int): nat
    requires n != 0
  {
    if w == 0 then 0 else LabelledColumns(w - 1, n) + (if (w - 1) % n == 0 then 1 else 0)
  }

  /** With a positive stride, columns 0, n, 2n, ... are labelled: ceil(w / n)
      of the first `w`. */
  lemma {:induction false} LabelledColumnsCount(w: nat, n: int)
    requires n >= 1
    ensures LabelledColumns(w, n) == (w + n - 1) / n
  {
    if w > 0 {
      LabelledColumnsCount(w - 1, n);
      CeilStep(w - 1, n);
    }
  }

  /** Going from `x` to `x + 1` columns, ceil(. / n) grows by one exactly
      when `x` is a multiple of `n`. */
  lemma CeilStep(x: nat, n: int)
    requires n >= 1
    ensures (x + n) / n == (x + n - 1) / n + (if x % n == 0 then 1 else 0)
  {
    var q, m := x / n, x % n;
    DivUnique(x, n, q, m);
    assert (q + 1) * n == q * n + n;
    if m == 0 {
      DivUnique(x + n - 1, n, q, n - 1);
      DivUnique(x + n, n, q + 1, 0);
    } else {
      DivUnique(x + n - 1, n, q + 1, m - 1);
      DivUnique(x + n, n, q + 1, m);
    }
  }

  /** Quotient and remainder are the only such pair. */
  lemma DivUnique(x: int, n: int, q: int, m: int)
    requires n >= 1 && 0 <= m < n && x == q * n + m
    ensures x / n == q && x % n == m
  {
    var q', m' := x / n, x % n;
    assert x == q' * n + m' && 0 <= m' < n;
    assert (q' - q) * n == m - m';
    if q' > q {
      MulAtLeast(q' - q, n);
    } else if q' < q {
      MulAtLeast(q - q', n);
    }
  }

  lemma {:induction false} MulAtLeast(a: int, n: int)
    requires a >= 1 && n >= 1
    ensures a * n >= n
    decreases a
  {
    if a > 1 {
      MulAtLeast(a - 1, n);
      assert a * n == (a - 1) * n + n;
    }
  }

  /** When the label of every labelled column fits in the stride (the
      labels of the other columns are never formatted and may be any
      length), each labelled column takes `n`
      characters and every other column one, so the label line runs
      `(n - 1)` characters beyond the raster width per labelled column; the
      piece of column `c` starts at `c + (n - 1) * LabelledColumns(c, n)`
      rather than at `c`. */
  lemma {:induction false} LabelLineFitted(lons: seq<string>, n: int)
    requires n >= 1
    requires forall c :: 0 <= c < |lons| && c % n == 0 ==> |lons[c]| <= n
    ensures |LabelLine(lons, n)| == |lons| + (n - 1) * LabelledColumns(|lons|, n)
  {
    if lons != [] {
      var w := |lons|;
      var init := lons[..w - 1];
      var pieces := LabelPieces(lons, n);
      assert pieces[..w - 1] == LabelPieces(init, n);
      LabelLineFitted(init, n);
      var labelled := (w - 1) % n == 0;
      assert |pieces[w - 1]| == if labelled then n else 1 by {
        assert pieces[w - 1] == LabelPiece(w - 1, n, lons[w - 1]);
      }
      ScaleStep(n - 1, LabelledColumns(w - 1, n), labelled);
    }
  }

  lemma ScaleStep(k: int, before: int, labelled: bool)
    ensures k * (before + (if labelled then 1 else 0)) == k * before + (if labelled then k else 0)
  {
  }

  /** Where label block `c` begins in the label line when the label of every
      labelled column fits in the stride. */
  lemma LabelStart(lons: seq<string>, n: int, c: int)
    requires n >= 1
    requires forall j :: 0 <= j < |lons| && j % n == 0 ==> |lons[j]| <= n
    requires 0 <= c < |lons|
    ensures TotalLength(LabelPieces(lons, n)[..c]) == c + (n - 1) * LabelledColumns(c, n)
  {
    assert LabelPieces(lons, n)[..c] == LabelPieces(lons[..c], n);
    LabelLineFitted(lons[..c], n);
  }

  /** One more row extends the data lines by that row's line. */
  lemma DataLinesStep(grid: seq<seq<int>>, lats: seq<string>, r: int)
    requires |lats| == |grid| && 0 <= r < |grid|
    ensures DataLines(grid[..r + 1], lats[..r + 1]) == DataLines(grid[..r], lats[..r]) + [DataLine(grid[r], lats[r])]
  {
    MapPairsStep(DataLine, grid, lats, r);
  }

  /** One more column extends the label pieces by that column's piece. */
  lemma LabelPiecesStep(lons: seq<string>, n: int, c: int)
    requires n != 0 && 0 <= c < |lons|
    ensures LabelPieces(lons[..c + 1], n) == LabelPieces(lons[..c], n) + [LabelPiece(c, n, lons[c])]
  {
    var longer := LabelPieces(lons[..c + 1], n);
    var shorter := LabelPieces(lons[..c], n);
    forall j | 0 <= j < c
      ensures longer[j] == shorter[j]
    {
      assert lons[..c + 1][j] == lons[..c][j];
    }
    assert longer[c] == LabelPiece(c, n, lons[c]);
  }

  /** `convert_to_matrix`'s writing part, loop for loop: each raster row is
      written as one line, then a blank line, then the label pieces are
      collected column by column and joined. The outcome is `Layout` of the
      inputs, a function of the inputs alone, so equal inputs always give
      the same file, and everything proved about `Layout` holds of it. */
  method ConvertToMatrix(grid: seq<seq<int>>, lats: seq<string>, lons: seq<string>, labelEveryNCols: int, roundDecimals: int)
    returns (o: Outcome)
    requires WellShaped(grid, lats, lons)
    ensures o == Layout(grid, lats, lons, labelEveryNCols, roundDecimals)
  {
    var height, width := |grid|, |lons|;
    var n := labelEveryNCols;
    var written: seq<string> := [];
    for r := 0 to height
      invariant written == DataLines(grid[..r], lats[..r])
    {
      var rowStr := RowString(grid[r]);
      DataLinesStep(grid, lats, r);
      written := written + [rowStr + " " + RightJustify(lats[r], LatitudeField)];
    }
    assert grid[..height] == grid && lats[..height] == lats;
    written := written + [""];

    var bottomLine: seq<string> := [];
    for c := 0 to width
      invariant c > 0 ==> n != 0 && roundDecimals >= 0
      invariant bottomLine == LabelPieces(lons[..c], n)
    {
      if n == 0 {
        return Raised(ModuloByZero, written);
      }
      if c % n == 0 {
        if roundDecimals < 0 {
          return Raised(MissingPrecision, written);
        }
        var lab := lons[c];
        var block := Max(n, |lab|);
        bottomLine := bottomLine + [RightJustify(lab, block)];
      } else {
        bottomLine := bottomLine + [" "];
      }
      LabelPiecesStep(lons, n, c);
    }
    assert lons[..width] == lons;
    o := Written(written + [Concat(bottomLine)]);
  }

  /** A 2-by-2 raster whose pixel (c, r) lies at longitude 10 + c and
      latitude 20 - r, labelled on every column with no decimals. */
  lemma TwoByTwoExample()
    ensures Layout([[1, 0], [0, 2]], ["20.0", "19.0"], ["10", "11"], 1, 0)
      == Written(["10         20.0", "02         19.0", "", "1011"])
  {
    ExampleDataLines();
    ExampleLabelLine();
  }

  lemma ExampleDataLines()
    ensures DataLines([[1, 0], [0, 2]], ["20.0", "19.0"]) == ["10         20.0", "02         19.0"]
  {
    var grid, lats := [[1, 0], [0, 2]], ["20.0", "19.0"];
    ExampleFirstLine();
    ExampleSecondLine();
    DataLinesAt(grid, lats, 0);
    DataLinesAt(grid, lats, 1);
  }

  lemma ExampleFirstLine()
    ensures DataLine([1, 0], "20.0") == "10         20.0"
  {
    ExampleRowStrings();
    ExampleLatitudeField("20.0");
  }

  lemma ExampleSecondLine()
    ensures DataLine([0, 2], "19.0") == "02         19.0"
  {
    ExampleRowStrings();
    ExampleLatitudeField("19.0");
  }

  lemma ExampleLatitudeField(lat: string)
    requires |lat| == 4
    ensures RightJustify(lat, LatitudeField) == "        " + lat
  {
    var field := "        " + lat;
    assert field[8..] == lat;
    assert AllSpaces(field[..8]) by {
      assert field[..8] == "        ";
    }
    RightJustifyUnique(field, lat, LatitudeField);
  }

  lemma ExampleRowStrings()
    ensures RowString([1, 0]) == "10" && RowString([0, 2]) == "02"
  {
    assert RowPieces([1, 0]) == ["1", "0"];
    assert ["1", "0"][..1] == ["1"];
    assert RowPieces([0, 2]) == ["0", "2"];
    assert ["0", "2"][..1] == ["0"];
  }

  lemma ExampleLabelLine()
    ensures LabelLine(["10", "11"], 1) == "1011"
  {
    assert LabelPieces(["10", "11"], 1) == ["10", "11"];
    assert ["10", "11"][..1] == ["10"];
    assert Concat(["10"]) == "10";
  }
}
