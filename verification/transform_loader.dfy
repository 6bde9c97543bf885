/** `load_transform`: reads the transform file line by line into rows of numbers.

    The file arrives as the sequence of lines `std::getline` returns. A line whose
    first character is 'V' or 'M' is skipped; every other line, the empty line
    included, appends one row holding the numbers `std::istringstream >> double`
    reads from it before the first failure. The load fails when no row was
    appended, and `cols` is the length of the last row appended. */
module TransformLoader {
  import opened Wrappers
  import opened TransformMatrix

  // ---------------------------------------------------------------------------
  // Reading numbers from one line
  // ---------------------------------------------------------------------------

  /** A number read from the front of the stream, and how many characters it took. */
  datatype Scanned = Scanned(value: real, length: nat)

  /** What one `>> double` does once leading whitespace is skipped: read no
      number, or read one from a prefix of what remains. A read that claims
      no characters, or more than there are, is taken as a failed read;
      `std::num_get` never succeeds that way. */
  type Scanner = string -> Option<Scanned>

  /** Whitespace as the "C" locale's `isspace` knows it. */
  predicate IsSpace(c: char)
  {
    c == ' ' || c == '\t' || c == '\n' || c == '\r' || c == '\U{0B}' || c == '\U{0C}'
  }

  /** The whitespace `>>` skips before it reads a number. */
  function SkipSpace(s: string): (r: string)
    ensures |r| <= |s|
    ensures forall i :: 0 <= i < |s| - |r| ==> IsSpace(s[i])
    ensures r != [] ==> !IsSpace(r[0])
  {
    if |s| > 0 && IsSpace(s[0]) then SkipSpace(s[1..]) else s
  }

  /** The inner `while (iss)` loop: the numbers read from `s`, in order, until a
      read fails or only whitespace is left. */
  function ScanRow(scan: Scanner, s: string): (row: seq<real>)
    decreases |s|
  {
    var t := SkipSpace(s);
    if t == [] then []
    else
      match scan(t)
      case None => []
      case Some(Scanned(v, n)) => if 0 < n <= |t| then [v] + ScanRow(scan, t[n..]) else []
  }

  /** A line of nothing but whitespace, the empty line among them, yields an empty row. */
  lemma BlankLineYieldsNoNumbers(scan: Scanner, s: string)
    requires forall i :: 0 <= i < |s| ==> IsSpace(s[i])
    ensures ScanRow(scan, s) == []
  {
  }

  // ---------------------------------------------------------------------------
  // The same rows, seen as whitespace-separated tokens
  // ---------------------------------------------------------------------------

  /** Length of the run of non-whitespace characters at the front of `s`. */
  function TokenLength(s: string): (k: nat)
    ensures k <= |s|
    ensures forall i :: 0 <= i < k ==> !IsSpace(s[i])
    ensures k < |s| ==> IsSpace(s[k])
  {
    if |s| == 0 || IsSpace(s[0]) then 0 else 1 + TokenLength(s[1..])
  }

  /** The whitespace-separated tokens of a line, in order. */
  function Tokens(s: string): (toks: seq<string>)
    ensures forall k :: 0 <= k < |toks| ==> toks[k] != []
    decreases |s|
  {
    var t := SkipSpace(s);
    if t == [] then []
    else
      var k := TokenLength(t);
      [t[..k]] + Tokens(t[k..])
  }

  /** The values of the leading tokens that parse, up to the first one that does not. */
  function LeadingNumbers(parse: string -> Option<real>, toks: seq<string>): (nums: seq<real>)
    ensures |nums| <= |toks|
    ensures forall k :: 0 <= k < |nums| ==> parse(toks[k]) == Some(nums[k])
    ensures |nums| < |toks| ==> parse(toks[|nums|]).None?
  {
    if toks == [] then []
    else
      match parse(toks[0])
      case None => []
      case Some(v) => [v] + LeadingNumbers(parse, toks[1..])
  }

  /** The read of a scanner that takes exactly the first token and converts it with `parse`. */
  function WholeToken(parse: string -> Option<real>, s: string): Option<Scanned>
  {
    var k := TokenLength(s);
    match parse(s[..k])
    case None => None
    case Some(v) => Some(Scanned(v, k))
  }

  /** `SkipSpace` drops a prefix: what it leaves is a suffix of the line. */
  lemma {:induction false} SkipSpaceIsSuffix(s: string)
    ensures SkipSpace(s) == s[|s| - |SkipSpace(s)|..]
    decreases |s|
  {
    if |s| > 0 && IsSpace(s[0]) {
      var r := SkipSpace(s[1..]);
      SkipSpaceIsSuffix(s[1..]);
      assert s[1..][|s| - 1 - |r|..] == s[|s| - |r|..];
    }
  }

  /** On the line `s`, every read that starts at the front of a token takes
      exactly that token and converts it with `parse`: each number on the line
      is followed by whitespace or the end of the line. */
  ghost predicate ReadsWholeTokensIn(scan: Scanner, parse: string -> Option<real>, s: string)
  {
    forall j :: TokenStart(s, j) ==> scan(s[j..]) == WholeToken(parse, s[j..])
  }

  /** Position `j` of `s` holds the first character of a token. */
  predicate TokenStart(s: string, j: int)
  {
    0 <= j < |s| && !IsSpace(s[j]) && (j == 0 || IsSpace(s[j - 1]))
  }

  /** The first read on such a line, after the leading whitespace, takes the first token. */
  lemma FirstReadTakesFirstToken(scan: Scanner, parse: string -> Option<real>, s: string)
    requires ReadsWholeTokensIn(scan, parse, s)
    requires SkipSpace(s) != []
    ensures scan(SkipSpace(s)) == WholeToken(parse, SkipSpace(s))
  {
    var t := SkipSpace(s);
    var off := |s| - |t|;
    SkipSpaceIsSuffix(s);
    assert 0 <= off < |s|;
    assert s[off..] == t && s[off] == t[0] && !IsSpace(s[off]);
    assert off == 0 || IsSpace(s[off - 1]);
    assert TokenStart(s, off);
  }

  /** What follows the first token of such a line is again such a line. */
  lemma RestReadsWholeTokens(scan: Scanner, parse: string -> Option<real>, s: string)
    requires ReadsWholeTokensIn(scan, parse, s)
    requires SkipSpace(s) != []
    ensures ReadsWholeTokensIn(scan, parse, SkipSpace(s)[TokenLength(SkipSpace(s))..])
  {
    var t := SkipSpace(s);
    var off := |s| - |t|;
    SkipSpaceIsSuffix(s);
    var k := TokenLength(t);
    var u := t[k..];
    assert u == s[off + k..];
    forall j | TokenStart(u, j)
      ensures scan(u[j..]) == WholeToken(parse, u[j..])
    {
      assert u[j] == s[off + k + j];
      if j > 0 {
        assert u[j - 1] == s[off + k + j - 1];
      }
      assert TokenStart(s, off + k + j);
      assert u[j..] == s[off + k + j..];
    }
  }

  /** On a line whose numbers are whole tokens, the row is the list of the
      line's leading tokens that parse, in order, stopping at the first that
      does not. */
  lemma {:induction false} ScanRowReadsLeadingTokens(scan: Scanner, parse: string -> Option<real>, s: string)
    requires ReadsWholeTokensIn(scan, parse, s)
    ensures ScanRow(scan, s) == LeadingNumbers(parse, Tokens(s))
    decreases |s|
  {
    var t := SkipSpace(s);
    if t != [] {
      FirstReadTakesFirstToken(scan, parse, s);
      var k := TokenLength(t);
      var u := t[k..];
      assert Tokens(s) == [t[..k]] + Tokens(u);
      assert Tokens(s)[0] == t[..k] && Tokens(s)[1..] == Tokens(u);
      match parse(t[..k])
      case None =>
      case Some(v) =>
        RestReadsWholeTokens(scan, parse, s);
        ScanRowReadsLeadingTokens(scan, parse, u);
    }
  }

  // ---------------------------------------------------------------------------
  // Lines to rows
  // ---------------------------------------------------------------------------

  /** `line[0]`: the first character, or NUL for an empty `std::string`. */
  function FirstChar(line: string): char
  {
    if |line| == 0 then '\0' else line[0]
  }

  /** The lines the loader passes over without appending a row. */
  predicate IsSkipped(line: string)
  {
    FirstChar(line) == 'V' || FirstChar(line) == 'M'
  }

  /** The positions of the lines that append a row. */
  ghost function DataIndices(lines: seq<string>): set<nat>
  {
    set i: nat | i < |lines| && !IsSkipped(lines[i])
  }

  /** How the loader reads a line it does not skip: `ScanRow` with the given scanner. */
  function RowReader(scan: Scanner): string -> seq<real>
  {
    line => ScanRow(scan, line)
  }

  /** What one line appends: nothing if it is skipped, its row otherwise. */
  function LineRows(readRow: string -> seq<real>, line: string): (rows: Matrix)
    ensures |rows| == if IsSkipped(line) then 0 else 1
  {
    if IsSkipped(line) then [] else [readRow(line)]
  }

  /** The rows the loader appends for `lines`, in file order: one per line
      that is not skipped. */
  function Rows(readRow: string -> seq<real>, lines: seq<string>): (rows: Matrix)
    ensures |rows| <= |lines|
  {
    if |lines| == 0 then []
    else Rows(readRow, lines[..|lines| - 1]) + LineRows(readRow, lines[|lines| - 1])
  }

  /** One turn of the loader loop appends what line `i` contributes. */
  lemma RowsStep(readRow: string -> seq<real>, lines: seq<string>, i: nat)
    requires i < |lines|
    ensures Rows(readRow, lines[..i + 1]) == Rows(readRow, lines[..i]) + LineRows(readRow, lines[i])
  {
    assert lines[..i + 1][..i] == lines[..i];
  }

  /** There are as many rows as lines that are not skipped. */
  lemma {:induction false} RowsCount(readRow: string -> seq<real>, lines: seq<string>)
    ensures |Rows(readRow, lines)| == |DataIndices(lines)|
  {
    if |lines| > 0 {
      var n := |lines| - 1;
      var init, last := lines[..n], lines[n];
      RowsCount(readRow, init);
      assert |Rows(readRow, lines)| == |Rows(readRow, init)| + |LineRows(readRow, last)|;
      var extra: set<nat> := if IsSkipped(last) then {} else {n};
      assert DataIndices(lines) == DataIndices(init) + extra by {
        forall i: nat | i < n
          ensures (i in DataIndices(lines)) == (i in DataIndices(init))
        {
          assert init[i] == lines[i];
        }
      }
      assert n !in DataIndices(init);
    } else {
      assert DataIndices(lines) == {};
    }
  }

  /** No row at all exactly when every line is skipped (an empty file included). */
  lemma {:induction false} NoRowsIffAllSkipped(readRow: string -> seq<real>, lines: seq<string>)
    ensures Rows(readRow, lines) == [] <==> forall i :: 0 <= i < |lines| ==> IsSkipped(lines[i])
  {
    RowsCount(readRow, lines);
    if Rows(readRow, lines) == [] {
      forall i | 0 <= i < |lines|
        ensures IsSkipped(lines[i])
      {
        assert i as nat !in DataIndices(lines);
      }
    } else {
      var i :| i in DataIndices(lines);
      assert !IsSkipped(lines[i]);
    }
  }

  /** Rows of a concatenation are the rows of each part, in order. */
  lemma {:induction false} RowsAppend(readRow: string -> seq<real>, a: seq<string>, b: seq<string>)
    ensures Rows(readRow, a + b) == Rows(readRow, a) + Rows(readRow, b)
    decreases |b|
  {
    if |b| > 0 {
      var b' := b[..|b| - 1];
      assert (a + b)[..|a + b| - 1] == a + b';
      assert (a + b)[|a + b| - 1] == b[|b| - 1];
      RowsAppend(readRow, a, b');
    } else {
      assert a + b == a;
    }
  }

  /** A 'V' or 'M' line contributes nothing, wherever it stands. */
  lemma SkippedLineAddsNoRow(readRow: string -> seq<real>, a: seq<string>, line: string, b: seq<string>)
    requires IsSkipped(line)
    ensures Rows(readRow, a + [line] + b) == Rows(readRow, a) + Rows(readRow, b)
  {
    RowsAppend(readRow, a + [line], b);
    RowsAppend(readRow, a, [line]);
    assert [line][..0] == [];
    assert Rows(readRow, [line]) == Rows(readRow, []) + LineRows(readRow, line);
    assert LineRows(readRow, line) == [];
    assert Rows(readRow, a + [line]) == Rows(readRow, a);
  }

  /** Any other line contributes exactly its own row, between the rows of the
      lines before it and those after it. */
  lemma DataLineAddsOneRow(readRow: string -> seq<real>, a: seq<string>, line: string, b: seq<string>)
    requires !IsSkipped(line)
    ensures Rows(readRow, a + [line] + b) == Rows(readRow, a) + [readRow(line)] + Rows(readRow, b)
  {
    RowsAppend(readRow, a + [line], b);
    RowsAppend(readRow, a, [line]);
    assert [line][..0] == [];
    assert Rows(readRow, [line]) == Rows(readRow, []) + LineRows(readRow, line);
    assert LineRows(readRow, line) == [readRow(line)];
    assert Rows(readRow, a + [line]) == Rows(readRow, a) + [readRow(line)];
  }

  /** An empty line is not skipped (its `line[0]` is NUL) and appends an empty row. */
  lemma EmptyLineAddsEmptyRow(scan: Scanner, a: seq<string>, b: seq<string>)
    ensures Rows(RowReader(scan), a + [""] + b) == Rows(RowReader(scan), a) + [[]] + Rows(RowReader(scan), b)
  {
    assert !IsSkipped("");
    BlankLineYieldsNoNumbers(scan, "");
    assert RowReader(scan)("") == [];
    DataLineAddsOneRow(RowReader(scan), a, "", b);
  }

  /** The row of line `i` sits right after the rows of the data lines before it. */
  lemma RowOfLine(readRow: string -> seq<real>, lines: seq<string>, i: nat)
    requires i < |lines| && !IsSkipped(lines[i])
    ensures |DataIndices(lines[..i])| < |Rows(readRow, lines)|
    ensures Rows(readRow, lines)[|DataIndices(lines[..i])|] == readRow(lines[i])
  {
    assert lines == lines[..i] + [lines[i]] + lines[i + 1..];
    RowsCount(readRow, lines[..i]);
    DataLineAddsOneRow(readRow, lines[..i], lines[i], lines[i + 1..]);
  }

  // ---------------------------------------------------------------------------
  // The loader
  // ---------------------------------------------------------------------------

  /** A successful load: the rows read and the `cols` the loader reports. */
  datatype Loaded = Loaded(data: Matrix, cols: nat)

  /** `load_transform` called on an empty vector, as the tool calls it: `None`
      for a `false` return. */
  function Load(scan: Scanner, lines: seq<string>): (r: Option<Loaded>)
    ensures r.None? <==> forall i :: 0 <= i < |lines| ==> IsSkipped(lines[i])
    ensures r.Some? ==> |r.value.data| == |DataIndices(lines)| > 0
    ensures r.Some? ==> r.value.cols == |r.value.data[|r.value.data| - 1]|
  {
    NoRowsIffAllSkipped(RowReader(scan), lines);
    RowsCount(RowReader(scan), lines);
    var rows := Rows(RowReader(scan), lines);
    if rows == [] then None else Some(Loaded(rows, |rows[|rows| - 1]|))
  }

  /** The `while (getline(input, line))` loop: every line that is not skipped
      appends its row to `data` and sets `cols` to that row's length. `cols`
      is `None` while the C++ variable is still uninitialised. */
  method AppendRows(scan: Scanner, lines: seq<string>, totalData: Matrix)
    returns (data: Matrix, cols: Option<nat>)
    ensures data == totalData + Rows(RowReader(scan), lines)
    ensures cols.None? <==> Rows(RowReader(scan), lines) == []
    ensures cols.Some? ==> cols.value == |data[|data| - 1]|
  {
    data := totalData;
    cols := None;
    ghost var appended: Matrix := [];
    var i := 0;
    while i < |lines|
      invariant 0 <= i <= |lines|
      invariant appended == Rows(RowReader(scan), lines[..i])
      invariant data == totalData + appended
      invariant cols.None? <==> appended == []
      invariant cols.Some? ==> appended != [] && cols.value == |appended[|appended| - 1]|
    {
      var line := lines[i];
      RowsStep(RowReader(scan), lines, i);
      if !IsSkipped(line) {
        var row := ScanRow(scan, line);
        assert LineRows(RowReader(scan), line) == [row];
        cols := Some(|row|);
        data := data + [row];
        appended := appended + [row];
      } else {
        assert LineRows(RowReader(scan), line) == [];
      }
      i := i + 1;
    }
    assert lines[..|lines|] == lines;
  }

  /** `load_transform`: the rows of the file are appended to what the caller's
      vector `totalData` already holds, and the result is false exactly when
      the vector is still empty. Called on an empty vector, as `main` does, it
      agrees with `Load`. */
  method LoadTransform(scan: Scanner, lines: seq<string>, totalData: Matrix)
    returns (ok: bool, data: Matrix, cols: Option<nat>)
    ensures data == totalData + Rows(RowReader(scan), lines)
    ensures ok <==> |data| > 0
    ensures cols.None? <==> Rows(RowReader(scan), lines) == []
    ensures cols.Some? ==> cols.value == |data[|data| - 1]|
    ensures totalData == [] ==> (ok <==> Load(scan, lines).Some?)
    ensures totalData == [] && ok ==> Load(scan, lines) == Some(Loaded(data, cols.value))
  {
    data, cols := AppendRows(scan, lines, totalData);
    ok := |data| != 0;
    if totalData == [] {
      assert data == Rows(RowReader(scan), lines);
    }
  }

  // ---------------------------------------------------------------------------
  // The echo of the loaded matrix, and a load that checks the shape
  // ---------------------------------------------------------------------------

  /** The echo loop prints `data[i][j]` for every row `i` and every `j < cols`;
      this says each of those reads is inside its row. */
  predicate EchoInBounds(data: Matrix, cols: nat)
  {
    forall i :: 0 <= i < |data| ==> cols <= |data[i]|
  }

  /** A scanner that reads one decimal digit; enough to write down example files. */
  function DigitScanner(s: string): Option<Scanned>
  {
    if |s| > 0 && '0' <= s[0] <= '9' then Some(Scanned((s[0] as int - '0' as int) as real, 1))
    else None
  }

  /** The token reading `DigitScanner` performs: a token that is one digit. */
  function DigitParse(tok: string): Option<real>
  {
    if |tok| == 1 && '0' <= tok[0] <= '9' then Some((tok[0] as int - '0' as int) as real) else None
  }

  /** A digit followed by whitespace or the end is a whole token, and
      `DigitScanner` reads exactly it; on any other string both read nothing. */
  lemma DigitReadIsWholeToken(u: string)
    requires u != [] && !IsSpace(u[0])
    requires '0' <= u[0] <= '9' ==> |u| == 1 || IsSpace(u[1])
    ensures DigitScanner(u) == WholeToken(DigitParse, u)
  {
    var k := TokenLength(u);
    assert k >= 1;
    assert u[..k][0] == u[0];
    if '0' <= u[0] <= '9' {
      assert k == 1;
      assert u[..k] == [u[0]];
    }
  }

  /** On a line whose tokens that start with a digit are single digits,
      `DigitScanner` reads whole tokens, so its row is the line's leading
      one-digit tokens. */
  lemma DigitScannerReadsWholeTokens(s: string)
    requires forall j :: TokenStart(s, j) && '0' <= s[j] <= '9' ==> j + 1 == |s| || IsSpace(s[j + 1])
    ensures ReadsWholeTokensIn(DigitScanner, DigitParse, s)
    ensures ScanRow(DigitScanner, s) == LeadingNumbers(DigitParse, Tokens(s))
  {
    forall j | TokenStart(s, j)
      ensures DigitScanner(s[j..]) == WholeToken(DigitParse, s[j..])
    {
      var u := s[j..];
      assert u[0] == s[j];
      if j + 1 < |s| {
        assert u[1] == s[j + 1];
      }
      DigitReadIsWholeToken(u);
    }
    ScanRowReadsLeadingTokens(DigitScanner, DigitParse, s);
  }

  /** The echo takes `cols` from the last row only: a file whose earlier row is
      shorter than its last loads successfully and the echo reads past that row. */
  lemma EchoOverrunsRaggedRows()
    ensures Load(DigitScanner, ["1", "1 2"]) == Some(Loaded([[1.0], [1.0, 2.0]], 2))
    ensures !EchoInBounds([[1.0], [1.0, 2.0]], 2)
  {
    var lines := ["1", "1 2"];
    DigitRows();
    assert lines[..1] == ["1"] && lines[..1][..0] == [];
    assert Rows(RowReader(DigitScanner), lines[..1]) == [[1.0]];
    assert Rows(RowReader(DigitScanner), lines) == [[1.0], [1.0, 2.0]];
    assert |[[1.0], [1.0, 2.0]][0]| < 2;
  }

  /** The rows `DigitScanner` reads from the two lines of the example file. */
  lemma DigitRows()
    ensures ScanRow(DigitScanner, "1") == [1.0]
    ensures ScanRow(DigitScanner, "1 2") == [1.0, 2.0]
  {
    assert ScanRow(DigitScanner, "") == [];
    assert ScanRow(DigitScanner, "2") == [2.0];
    assert SkipSpace(" 2") == "2";
    assert ScanRow(DigitScanner, " 2") == [2.0];
  }

  /** Why a checked load fails. */
  datatype LoadError = EmptyFile | BadShape

  /** `load_transform` corrected: fail on a file with no data row, as the code
      does, and also on one whose rows are not exactly four rows of four
      numbers, the shape its opening comment describes. This is stricter than
      that comment: a blank line after the fourth row is a fifth, empty row. */
  function LoadChecked(scan: Scanner, lines: seq<string>): (r: Result<Matrix, LoadError>)
    ensures r == Failure(EmptyFile) <==> forall i :: 0 <= i < |lines| ==> IsSkipped(lines[i])
    ensures r == Failure(BadShape) <==> Load(scan, lines).Some? && !IsFourByFour(Load(scan, lines).value.data)
    ensures r.Success? ==> Load(scan, lines).Some? && r.value == Load(scan, lines).value.data
    ensures r.Success? ==> IsFourByFour(r.value) && Readable(r.value)
    ensures r.Success? ==> EchoInBounds(r.value, Load(scan, lines).value.cols)
  {
    match Load(scan, lines)
    case None => Failure(EmptyFile)
    case Some(loaded) =>
      if IsFourByFour(loaded.data) then
        FourByFourIsReadable(loaded.data);
        Success(loaded.data)
      else Failure(BadShape)
  }
}
