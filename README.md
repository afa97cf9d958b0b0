# MapToMatrix: the text layout of `convert_to_matrix`

MapToMatrix turns a classified area-of-interest raster (class values 0 =
outside, 1 = inside, 2 = boundary) into a plain-text grid. This project
models and proves the text layout that `convert_to_matrix` writes:

- one **data line** per raster row: the row's class values written as
  decimal digits with no separator, one space, then the row's latitude label
  right-aligned in a 12-character field;
- one **blank line**;
- one **label line**: for every column, the column's longitude label
  right-justified in a block `max(n, len(label))` wide when the column index
  is a multiple of `label_every_n_cols` (`n`), and a single space otherwise.

The raster is a `seq<seq<int>>` (height rows of width values) and the
formatted coordinate labels are opaque strings, one per row and one per
column. The output file is the sequence of lines written to it.

Modules:

- `Strings` (`strings.dfy`): Python's `''.join` (`Concat`), `str.rjust` and
  the `>w` format (`RightJustify`), with the characterisation
  `IsRightJustified` and the proof that joining keeps each piece whole and in
  order.
- `Decimal` (`decimal.dfy`): Python's `str(int)` for pixel values, with a
  parser as its partner and the round trip between them.
- `MatrixText` (`matrix_text.dfy`): the layout as specification functions
  (`DataLine`, `LabelPiece`, `LabelLine`, `Layout`), the imperative
  `ConvertToMatrix` method that follows the source's two loops and is proved
  equal to `Layout`, and the lemmas about the layout.

Behaviour pinned down by the model:

- The layout is total on pixel values: a value is rendered as Python's
  `str(int(v))` would, so a value of 10 or more (or a negative one) takes
  more than one character. The digit prefix of a row is exactly `width`
  characters long if and only if every value of the row is in 0..9.
- Column 0 is always a labelled column (this and the next point hold for
  parameters within the machine-size limits named under "Left out"). With
  `label_every_n_cols == 0` the
  modulo at line 51 raises on it; with a negative `round_decimals` the
  format `.{round_decimals}f` at line 52 raises on it. Both happen after the
  data lines and the blank line were written, and the `with` block closes the
  file, so those `height + 1` lines remain in it (`Outcome.Raised`). A
  raster with no columns never reaches either, and gets an empty label line.
- A negative stride is accepted by the source: `c % n == 0` still selects
  the multiples of `|n|` (Python's floored and Dafny's Euclidean remainder
  agree on when it is zero), and `max(n, len(label))` is then the label's own
  length.
- The label blocks are `n` characters wide and every other column adds one
  space, so when the label of every labelled column fits in `n` characters
  (the other columns' labels are never formatted) the label line is
  `width + (n - 1) * ceil(width / n)` characters long, and the block of
  column `c` starts at character `c + (n - 1) * (number of labelled columns
  before c)`, not at character `c`.

## Model

| member | source | states |
|---|---|---|
| `Strings.RightJustify` | Colab_Write_Matrix.py:54 | `s.rjust(w)`: the result is `max(w, len(s))` long, ends with `s` and holds only spaces before it; a narrower width never truncates |
| `Strings.RightJustifyUnique` | Colab_Write_Matrix.py:54 | any string that is `max(w, len(s))` long, ends with `s` and is spaces before it is `s.rjust(w)`: the converse of RightJustify's contract |
| `Strings.Concat` | Colab_Write_Matrix.py:57 | `''.join(pieces)` is exactly as long as the pieces together |
| `Strings.PieceAt` | Colab_Write_Matrix.py:57 | in `''.join(pieces)`, piece `c` appears whole, starting right after the pieces before it, so the pieces are in order and none overlaps another |
| `Strings.TotalLengthOfNonEmpty` | Colab_Write_Matrix.py:44 | joining non-empty pieces gives at least one character per piece, and exactly one per piece if and only if every piece is one character |
| `Decimal.NatToDecimal` | Colab_Write_Matrix.py:44 | `str(v)` of a natural number is all digits, has no leading zero, and is one character exactly when `v <= 9` |
| `Decimal.IntToDecimal` | Colab_Write_Matrix.py:44 | `str(int(v))` starts with `-` exactly for negative values, followed by digits with no leading zero (a non-negative value is all digits, starting with `0` only for 0), and is a single character exactly when `0 <= v <= 9`, namely the digit of `v` |
| `Decimal.NatRoundTrip` | Colab_Write_Matrix.py:44 | reading the digits of `str(v)` back gives `v` |
| `Decimal.IntRoundTrip` | Colab_Write_Matrix.py:44 | `int(str(v)) == v` for every integer pixel value, so distinct values never print alike |
| `MatrixText.RowString` | Colab_Write_Matrix.py:44 | the digit prefix of a row has at least one character per pixel |
| `MatrixText.RowStringWidth` | Colab_Write_Matrix.py:42-44 | the digit prefix of a row has at least one character per pixel, exactly one per pixel if and only if every value is in 0..9, and then character `c` is the digit of column `c` |
| `MatrixText.DataLine` | Colab_Write_Matrix.py:45 | a data line starts with the row's digit prefix, then one space, and ends with the latitude label right-justified in a field `max(12, len(label))` wide; it is at least `width + 13` characters long |
| `MatrixText.DataLines` | Colab_Write_Matrix.py:41-45 | the row loop writes exactly one line per raster row |
| `MatrixText.DataLinesAt` | Colab_Write_Matrix.py:41-45 | data line `r` is written from raster row `r` and latitude label `r`, so rows keep their order |
| `MatrixText.DataLineLayout` | Colab_Write_Matrix.py:45 | a data line of single digits is the `width` digits in column order, one space, then the latitude label right-justified in a field `max(12, len(label))` wide, spaces in front of the label |
| `MatrixText.LabelPiece` | Colab_Write_Matrix.py:50-56 | a column whose index is not a multiple of `n` contributes one space; a multiple of `n` contributes its label right-justified to `max(n, len(label))`; with a positive stride every piece has at least one character |
| `MatrixText.LabelPieces` | Colab_Write_Matrix.py:49-56 | the column loop collects one piece per column, `max(n, len(label))` wide for a labelled column and one character wide otherwise |
| `MatrixText.LabelLine` | Colab_Write_Matrix.py:57 | the label line is as long as its pieces together, and with a positive stride at least as long as the raster is wide |
| `MatrixText.Layout` | Colab_Write_Matrix.py:41-57 | for a stride and a precision within CPython's machine-size limits (see Left out), the file completes exactly when the raster has no columns or the stride is non-zero and the precision non-negative; then it has `height + 2` lines with the blank line at index `height`; otherwise ZeroDivisionError (zero stride) or ValueError (negative precision) is raised with the `height` data lines and the blank line already written |
| `MatrixText.LayoutRows` | Colab_Write_Matrix.py:41-46 | line `r` of the file is the data line of raster row `r`, whether or not the label line is reached |
| `MatrixText.LayoutLastLine` | Colab_Write_Matrix.py:49-57 | with a non-zero stride and a non-negative precision the last line is the label line |
| `MatrixText.LabelLineColumn` | Colab_Write_Matrix.py:49-57 | column `c`'s piece appears whole in the label line, after the pieces of all earlier columns |
| `MatrixText.LabelledColumnsCount` | Colab_Write_Matrix.py:51 | with a positive stride, `ceil(w / n)` of the first `w` columns carry a label |
| `MatrixText.LabelLineFitted` | Colab_Write_Matrix.py:50-57 | when the label of every labelled column fits in `n` characters the label line is `width + (n - 1) * (labelled columns)` characters long |
| `MatrixText.LabelStart` | Colab_Write_Matrix.py:50-57 | when the label of every labelled column fits in `n` characters the piece of column `c` starts at character `c + (n - 1) * (labelled columns before c)` |
| `MatrixText.ConvertToMatrix` | Colab_Write_Matrix.py:41-57 | the two writing loops produce exactly `Layout` of the inputs (so equal inputs always give the same file), with `height + 2` lines on success and row `r`'s data line at index `r` |
| `MatrixText.TwoByTwoExample` | Colab_Write_Matrix.py:41-57 | the raster `[[1,0],[0,2]]` with latitudes 20.0 and 19.0, longitudes 10 and 11, stride 1 and no decimals gives `10         20.0`, `02         19.0`, a blank line and `1011` |

## Left out

- Raster reading (`rasterio.open`, `src.read(1).astype(int)`, `src.transform`, width and height, lines 24-27): a foreign library and file I/O. Its results are the inputs `grid`, and the raster width is the number of longitude labels; the 64-bit range of `astype(int)` is not modelled (values are unbounded integers).
- Layout and ConvertToMatrix: the stride and the precision are unbounded integers, so the model ignores where CPython stops on machine-size values. `np.round(longitudes, round_decimals)` (line 35) converts the precision to a C `int` and raises OverflowError for an absolute value of 2^31 or more, before the output file is opened at line 40, so no line is written. `lab.rjust(block)` (line 54) converts the block width to a C `ssize_t`, raising OverflowError for a stride of 2^63 or more and running out of memory long before that. In these cases the model reports `Written`, or `Raised` with `height + 1` lines.
- Coordinate computation and rounding (lines 30-36): floating-point evaluation of the affine transform and `np.round`. The labels are given strings.
- Float-to-string formatting (the default formatting of the latitude at line 45 and `.{round_decimals}f` at line 52): the label strings are inputs; only the format's failure on a negative precision is modelled.
- Directory creation and opening the output file (lines 39-40), and the line feed written after each line: the file is modelled as its sequence of lines.
- Command-line parsing, the success message and the mapping of exceptions to exit code 1 in `main` (lines 59-85): argparse, standard streams and process exit. The exceptions the layout raises are modelled as `Outcome.Raised`.
- GEE_AOI_Matrix.js: Google Earth Engine server-side calls with no local logic.
- Characters are Dafny `char`s; the UTF-8 encoding of the file is not modelled.
