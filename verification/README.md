# transform_las: a verified model of the transform pipeline

`transform_las` reads a LAS/LAZ point cloud, applies a 4x4 homogeneous transform
read from a text file to the x, y, z of every point, and writes the points out
again. This project models the three pieces of logic in that tool and proves
their properties in Dafny:

- **the transform-file loader** (`load_transform`): the file is the sequence of
  lines `std::getline` returns. A line whose first character is `'V'` or `'M'`
  is skipped. Every other line appends one row to the matrix, and that includes
  the empty line, whose `line[0]` is NUL. The row holds the numbers
  `std::istringstream >> double` reads from the line before the first read that
  fails. The load fails when nothing was appended. `cols` is the length of the
  last row.
- **the affine point map** (`transform_point`): rows 0..2 and columns 0..3 of
  the matrix, applied to (x, y, z, 1), over exact reals.
- **the point loop of `main`**: every point read is transformed, written,
  passed to the inventory, and counted, in read order. The header is updated
  once, after the last point.

Modules, one per component:

| file | module | contents |
|---|---|---|
| `wrappers.dfy` | `Wrappers` | `Option`, `Result` |
| `transform_matrix.dfy` | `TransformMatrix` | the matrix as rows of reals, the readable and 4x4 shapes, the identity |
| `transform_loader.dfy` | `TransformLoader` | number reading, lines to rows, `Load`, the loader loop `LoadTransform`, the checked load |
| `point_transformer.dfy` | `PointTransformer` | the homogeneous product `Apply`, the C++ loop `TransformPoint`, the algebraic laws |
| `pipeline.dfy` | `Pipeline` | points, writer calls, the point loop `StreamPoints`, `main` as written and as checked |

Number reading is a parameter. A `Scanner` says what one `>> double` does once
whitespace is skipped: it fails, or it reads a value from a prefix of what is
left. This covers input like `1.5abc`, where C++ reads 1.5 and then stops.
`ScanRow` is the inner `while (iss)` loop over such a scanner. On a line whose
numbers are whole tokens, each followed by whitespace or the end of the line,
`ScanRowReadsLeadingTokens` proves that the row is exactly the line's leading
tokens that parse. The hypothesis is about the line at hand, not about every
string the scanner might see, so it covers a well-formed line such as
`1 0 0 10` read by `>> double`. `DigitScanner` is a one-digit scanner used to
write down example files. `DigitScannerReadsWholeTokens` shows that it meets
the hypothesis on every line whose digit tokens are single digits.

`load_transform` reports a file with no data row by returning false
(src/transform_las.cpp:98-102), and `main` drops that result at
src/transform_las.cpp:235, going on with whatever the vector holds.
`Pipeline.RunAsWritten` follows the code. Its preconditions state the two reads
the code makes without checking them: the echo in `load_transform`, when the
load succeeds, reads `cols` entries of every row (src/transform_las.cpp:106-110),
and `transform_point` reads rows 0..2, columns 0..3 whenever there is a point.
`Pipeline.Run` is the checked version (see Findings).

## Model

| member | source | states |
|---|---|---|
| `TransformLoader.LeadingNumbers` | src/transform_las.cpp:88-94 | the numbers of a token list are the values of its longest prefix of tokens that parse; the first token after them does not parse |
| `TransformLoader.ScanRowReadsLeadingTokens` | src/transform_las.cpp:88-94 | on a line where every read that starts at a token takes exactly that token, the row `ScanRow` builds is the in-order list of the line's leading tokens that parse, stopping at the first that does not |
| `TransformLoader.DigitScannerReadsWholeTokens` | src/transform_las.cpp:88-94 | a reader of one digit per `>>` meets that hypothesis on every line whose digit tokens are single digits, so on such a line its row is the line's leading one-digit tokens |
| `TransformLoader.BlankLineYieldsNoNumbers` | src/transform_las.cpp:88-94 | a line of only whitespace, the empty line included, yields an empty row |
| `TransformLoader.AppendRows` | src/transform_las.cpp:85-97 | the `getline` loop keeps the rows already in the vector and appends the file's rows after them; `cols` stays unset exactly when no row was appended, and otherwise is the length of the last row |
| `TransformLoader.RowsCount` | src/transform_las.cpp:85-97 | the number of rows equals the number of lines that are not skipped |
| `TransformLoader.NoRowsIffAllSkipped` | src/transform_las.cpp:85-102 | no row is collected exactly when every line is skipped, an empty file included |
| `TransformLoader.RowsAppend` | src/transform_las.cpp:85-97 | the rows of two runs of lines placed one after the other are the rows of the first, then those of the second: the loader only appends |
| `TransformLoader.SkippedLineAddsNoRow` | src/transform_las.cpp:86-87 | a line starting with 'V' or 'M' contributes nothing, wherever it stands in the file |
| `TransformLoader.DataLineAddsOneRow` | src/transform_las.cpp:88-96 | any other line contributes exactly its own row, after the rows of the lines before it and before those after it |
| `TransformLoader.EmptyLineAddsEmptyRow` | src/transform_las.cpp:86-96 | an empty line is not skipped and contributes one empty row |
| `TransformLoader.RowOfLine` | src/transform_las.cpp:85-97 | the row of data line i is at the position given by the number of data lines before it: file order is kept |
| `TransformLoader.Load` | src/transform_las.cpp:76-103 | loading fails exactly when every line is skipped; on success there is one row per non-skipped line and `cols` is the length of the last row |
| `TransformLoader.LoadTransform` | src/transform_las.cpp:76-103 | the loader loop keeps the caller's rows and appends the rows of the file after them; it returns false exactly when the vector ends empty; `cols` stays unset exactly when no row was appended and is otherwise the last row's length; called on an empty vector it agrees with `Load` |
| `TransformLoader.EchoOverrunsRaggedRows` | src/transform_las.cpp:95-110 | the file "1", "1 2" loads, with `cols` 2, and the echo then reads past the end of the first row |
| `TransformLoader.LoadChecked` | src/transform_las.cpp:76-103 | the checked load fails with `EmptyFile` exactly when every line is skipped, and with `BadShape` exactly when rows were read that are not 4x4; on success the matrix is 4x4, readable by `transform_point`, and safe to echo |
| `PointTransformer.ApplyFormula` | src/transform_las.cpp:120-126 | the homogeneous product of rows 0..2 with (x, y, z, 1) is `T[i][0]*x + T[i][1]*y + T[i][2]*z + T[i][3]` |
| `PointTransformer.TransformPoint` | src/transform_las.cpp:114-127 | given rows 0..2 of at least 4 entries and a point and output of at least 3, output i becomes `T[i][0]*p[0] + T[i][1]*p[1] + T[i][2]*p[2] + T[i][3]`, which is the homogeneous product; entries past index 2 are untouched |
| `PointTransformer.IdentityFixesEveryPoint` | src/transform_las.cpp:114-127 | the 4x4 identity maps every point to itself |
| `PointTransformer.TranslationShiftsOutput` | src/transform_las.cpp:125 | adding a vector v to the translation column shifts every image by exactly v |
| `PointTransformer.AffinePartDeterminesImage` | src/transform_las.cpp:120-126 | two matrices that agree on rows 0..2, columns 0..3 map every point alike |
| `PointTransformer.FourthRowIsNeverRead` | src/transform_las.cpp:120-126 | replacing row 3 of the matrix never changes the image |
| `Pipeline.Moved` | src/transform_las.cpp:242-250 | the point written has x = T[0][0]x + T[0][1]y + T[0][2]z + T[0][3], and likewise y and z from rows 1 and 2 (lines 123-125, set at 248-250); every other attribute of the point read is kept |
| `Pipeline.CallsInOrder` | src/transform_las.cpp:239-264 | in the writer calls, point k is written at position 2k and inventoried right after |
| `Pipeline.StreamPoints` | src/transform_las.cpp:237-266 | each point read is transformed once, then written once, then inventoried once, in read order; the header update comes once, after the last point; `count` ends equal to the number of points read; a readable matrix is needed only when there is a point |
| `Pipeline.RunAsWritten` | src/transform_las.cpp:234-266 | `main` as written is defined only when the echo of a successful load stays inside every row (lines 106-110) and, if there is a point, the vector the loader filled is readable; under those conditions the calls are those of the loop over the loaded rows |
| `Pipeline.UncheckedMatrixIsUnreadable` | src/transform_las.cpp:234-235 | a file of just "V" loads nothing and a file "1 2 3" loads one short row; `main` hands either to `transform_point` |
| `Pipeline.TranslationExample` | src/transform_las.cpp:114-127 | translating by (10, 20, 30) writes and inventories a point at the origin once, at (10, 20, 30) |
| `Pipeline.Run` | src/transform_las.cpp:234-266 | the checked run fails exactly when the checked load fails, with `EmptyFile` exactly when every line is skipped and `BadShape` exactly when the rows are not 4x4; on success the calls and count are those of the point loop over a 4x4 matrix |

## Left out

- The LASlib reader and writer: `read_point`, `write_point`, `update_inventory`, `update_header` and `close`. Their code is not part of this model. The reader is the sequence of points it hands out. The writer is the sequence of calls the loop makes on it. The bounding box and point count the inventory keeps, and the byte count `close` returns, are not modelled.
- Quantisation inside `set_x`/`set_y`/`set_z`, which re-derives the integer X, Y, Z from the scale and offset: it lives in LASlib.
- IEEE-754 rounding: all arithmetic is over exact reals, so the laws hold exactly rather than up to rounding.
- `std::istream >> double` itself: it is the `Scanner` parameter. A scanner result that claims no characters, or more than remain, ends the row. `std::num_get` never succeeds that way.
- How `std::getline` splits the file into lines: the model starts from the sequence of lines.
- Command-line parsing, the filename prompts, `usage`, `byebye` and `exit`: plumbing, driven by `LASreadOpener::parse` side effects that are not part of this model.
- Timing, the verbose messages, the first-five-points `printf`, and the printing done by the matrix echo: diagnostics only. Only which entries the echo reads is modelled, for the finding below.
- Opening and closing the transform file and the point streams, and releasing them.
- Pipeline.StreamPoints: `count` is an unbounded integer. The C++ `int` overflows after 2^31 - 1 points, and only the first-five-points `printf` reads it.

## Findings

| source | as written | input that shows it | evidently intended | confidence | as-written member | corrected member |
|---|---|---|---|---|---|---|
| src/transform_las.cpp:234-247 | `main` ignores `load_transform`'s result and never checks the shape of the vector; `transform_point` then reads `T[0..2][0..3]` | a transform file holding only the line `V`, or only `1 2 3`, with at least one point in the input | stop before reading points unless the file gives four rows of four numbers, the shape the comment at lines 77-80 describes | high; not executed | `Pipeline.UncheckedMatrixIsUnreadable` (with `Pipeline.RunAsWritten`) | `Pipeline.Run` |
| src/transform_las.cpp:95-110 | the echo prints `total_data[i][j]` for every row and every `j < cols`, and `cols` is only the last row's length | a transform file with the lines `1` and `1 2` | echo only entries that exist. `LoadChecked` gets there by accepting only a 4x4 matrix, so every row has `cols` entries. That is stricter than the comment at lines 77-80, which asks only for four lines of four numbers: a correct file followed by one blank line reads a fifth, empty row and is rejected as `BadShape` | high; not executed | `TransformLoader.EchoOverrunsRaggedRows` | `TransformLoader.LoadChecked` |
