/** Day 3, "Gear Ratios": an engine schematic is a grid of digits, '.' and
    symbols. Runs of digits are numbers; every other non-'.' character is a
    symbol. A number is a part number when a symbol touches it, also
    diagonally. */
module GearRatios {
  import opened Wrappers
  import opened Text

  datatype Element = Number(n: nat) | Symbol(c: char)

  /** An element of the schematic: what it is, its row and its columns
      `start..end` (end exclusive). */
  datatype Data = Data(element: Element, row: nat, start: nat, end: nat)

  datatype Schematic = Schematic(data: seq<Data>, rows: seq<seq<Option<Data>>>, numRows: nat, numCols: nat)

  /** The number an element holds, if it is one. */
  function NumberOf(e: Element): (r: Option<nat>)
    ensures r.Some? <==> e.Number?
    ensures r.Some? ==> e == Number(r.value)
  {
    match e
    case Number(n) => Some(n)
    case Symbol(_) => None
  }

  /** The symbol an element holds, if it is one. */
  function SymbolOf(e: Element): (r: Option<char>)
    ensures r.Some? <==> e.Symbol?
    ensures r.Some? ==> e == Symbol(r.value)
  {
    match e
    case Number(_) => None
    case Symbol(c) => Some(c)
  }

  // ---------------------------------------------------------------------
  // The token buffer that collects the digits of the current number

  class TokenBuffer {
    /** The digits read so far and the column of the first one. */
    var data: Option<(string, nat)>

    constructor()
      ensures data == None
    {
      data := None;
    }

    /** The first push records the start column; later pushes append the
        character and keep it. */
    method Push(c: char, i: nat)
      modifies this
      ensures old(data).None? ==> data == Some(([c], i))
      ensures old(data).Some? ==> data == Some((old(data).value.0 + [c], old(data).value.1))
    {
      match data
      case Some((digits, start)) =>
        data := Some((digits + [c], start));
      case None =>
        data := Some(([c], i));
    }

    /** Hands out the contents and leaves the buffer empty. */
    method Take() returns (r: Option<(string, nat)>)
      modifies this
      ensures r == old(data) && data == None
    {
      r := data;
      data := None;
    }
  }

  // ---------------------------------------------------------------------
  // What parsing produces, cell by cell

  /** The first column of the run of digits around column `c`. */
  function RunStart(line: string, c: nat): (s: nat)
    requires c < |line| && IsDigit(line[c])
    ensures s <= c && forall k :: s <= k <= c ==> IsDigit(line[k])
    ensures s == 0 || !IsDigit(line[s - 1])
  {
    if c > 0 && IsDigit(line[c - 1]) then RunStart(line, c - 1) else c
  }

  /** One past the last column of the run of digits around column `c`. */
  function RunEnd(line: string, c: nat): (e: nat)
    requires c < |line| && IsDigit(line[c])
    ensures c < e <= |line| && forall k :: c <= k < e ==> IsDigit(line[k])
    ensures e == |line| || !IsDigit(line[e])
    decreases |line| - c
  {
    if c + 1 < |line| && IsDigit(line[c + 1]) then RunEnd(line, c + 1) else c + 1
  }

  /** The cell at row `r`, column `c`: a digit belongs to the number spelled
      by its whole run of digits, '.' is empty, anything else is a
      one-column symbol. */
  function Cell(line: string, r: nat, c: nat): Option<Data>
    requires c < |line|
  {
    if IsDigit(line[c]) then
      var s, e := RunStart(line, c), RunEnd(line, c);
      Some(Data(Number(DigitsValue(line[s..e])), r, s, e))
    else if line[c] == '.' then None
    else Some(Data(Symbol(line[c]), r, c, c + 1))
  }

  function SpecRow(line: string, r: nat): (row: seq<Option<Data>>)
    ensures |row| == |line| && forall c :: 0 <= c < |line| ==> row[c] == Cell(line, r, c)
  {
    seq(|line|, c requires 0 <= c < |line| => Cell(line, r, c))
  }

  /** The elements that begin in the first `c` cells, left to right. */
  function Starts(cells: seq<Option<Data>>, c: nat): seq<Data>
    requires c <= |cells|
  {
    if c == 0 then []
    else Starts(cells, c - 1)
         + (if cells[c - 1].Some? && cells[c - 1].value.start == c - 1 then [cells[c - 1].value] else [])
  }

  /** An element that fills the cells `start..end` begins once, at `start`. */
  lemma {:induction false} StartsSpan(cells: seq<Option<Data>>, element: Data, k: nat)
    requires element.start < k <= element.end <= |cells|
    requires forall j :: element.start <= j < element.end ==> cells[j] == Some(element)
    ensures Starts(cells, k) == Starts(cells, element.start) + [element]
    decreases k
  {
    if k - 1 > element.start {
      StartsSpan(cells, element, k - 1);
    }
  }

  /** The elements that begin in columns `0..c` of a line, left to right:
      the order in which parsing records them. */
  function LineData(line: string, r: nat, c: nat): seq<Data>
    requires c <= |line|
  {
    Starts(SpecRow(line, r), c)
  }

  /** The elements of the first `n` lines, row by row. */
  function AllData(lines: seq<string>, n: nat): seq<Data>
    requires n <= |lines|
  {
    if n == 0 then [] else AllData(lines, n - 1) + LineData(lines[n - 1], n - 1, |lines[n - 1]|)
  }

  function SpecRows(lines: seq<string>): (rows: seq<seq<Option<Data>>>)
    ensures |rows| == |lines| && forall r :: 0 <= r < |lines| ==> rows[r] == SpecRow(lines[r], r)
  {
    seq(|lines|, r requires 0 <= r < |lines| => SpecRow(lines[r], r))
  }

  /** The schematic of a non-empty list of lines. */
  function SpecSchematic(lines: seq<string>): Schematic
    requires |lines| > 0
  {
    Schematic(AllData(lines, |lines|), SpecRows(lines), |lines|, |lines[0]|)
  }

  // ---------------------------------------------------------------------
  // Facts about runs of digits

  /** A maximal run of digits `s..e` is the run of each of its columns. */
  lemma {:induction false} RunOf(line: string, s: nat, e: nat, c: nat)
    requires s <= c < e <= |line|
    requires forall k :: s <= k < e ==> IsDigit(line[k])
    requires s == 0 || !IsDigit(line[s - 1])
    requires e == |line| || !IsDigit(line[e])
    ensures RunStart(line, c) == s && RunEnd(line, c) == e
  {
    RunStartOf(line, s, c);
    RunEndOf(line, e, c);
  }

  lemma {:induction false} RunStartOf(line: string, s: nat, c: nat)
    requires s <= c < |line|
    requires forall k :: s <= k <= c ==> IsDigit(line[k])
    requires s == 0 || !IsDigit(line[s - 1])
    ensures RunStart(line, c) == s
    decreases c
  {
    if c > s {
      RunStartOf(line, s, c - 1);
    }
  }

  lemma {:induction false} RunEndOf(line: string, e: nat, c: nat)
    requires c < e <= |line|
    requires forall k :: c <= k < e ==> IsDigit(line[k])
    requires e == |line| || !IsDigit(line[e])
    ensures RunEnd(line, c) == e
    decreases e - c
  {
    if c + 1 < e {
      RunEndOf(line, e, c + 1);
    }
  }

  /** Every column of a maximal run of digits `s..e` holds the number the
      run spells. */
  lemma CellInRun(line: string, r: nat, s: nat, e: nat, c: nat)
    requires s <= c < e <= |line|
    requires forall j :: s <= j < e ==> IsDigit(line[j])
    requires s == 0 || !IsDigit(line[s - 1])
    requires e == |line| || !IsDigit(line[e])
    ensures Cell(line, r, c) == Some(Data(Number(DigitsValue(line[s..e])), r, s, e))
  {
    RunOf(line, s, e, c);
  }

  /** A finished run of digits `s..e` adds exactly one element, the number
      it spells, to the elements of its line. */
  lemma LineDataRun(line: string, r: nat, s: nat, e: nat)
    requires s < e <= |line|
    requires forall j :: s <= j < e ==> IsDigit(line[j])
    requires s == 0 || !IsDigit(line[s - 1])
    requires e == |line| || !IsDigit(line[e])
    ensures LineData(line, r, e) == LineData(line, r, s) + [Data(Number(DigitsValue(line[s..e])), r, s, e)]
  {
    var element := Data(Number(DigitsValue(line[s..e])), r, s, e);
    forall j | s <= j < e
      ensures SpecRow(line, r)[j] == Some(element)
    {
      CellInRun(line, r, s, e, j);
    }
    StartsSpan(SpecRow(line, r), element, e);
  }

  // ---------------------------------------------------------------------
  // Parsing

  /** What finishing a number does: with nothing pending, nothing; otherwise
      the element spans `start..start + |digits|`, it is appended to the
      elements, and each of those row cells holds it. */
  ghost predicate Finished(pending: Option<(string, nat)>, r: nat, data: seq<Data>, row: seq<Option<Data>>,
                           data': seq<Data>, row': seq<Option<Data>>)
  {
    match pending
    case None => data' == data && row' == row
    case Some((digits, start)) =>
      AllDigits(digits) && start + |digits| <= |row| &&
      var element := Data(Number(DigitsValue(digits)), r, start, start + |digits|);
      data' == data + [element] && |row'| == |row|
      && (forall i :: start <= i < start + |digits| ==> row'[i] == Some(element))
      && (forall i :: 0 <= i < |row| && !(start <= i < start + |digits|) ==> row'[i] == row[i])
  }

  /** Records the number in the buffer, if any: the element spans
      `start..start + |digits|`, and each of those row cells holds it. */
  method FinishNumber(data: seq<Data>, row: seq<Option<Data>>, number: TokenBuffer, rowIndex: nat)
      returns (data': seq<Data>, row': seq<Option<Data>>)
    requires number.data.Some? ==> AllDigits(number.data.value.0)
    requires number.data.Some? ==> number.data.value.1 + |number.data.value.0| <= |row|
    modifies number
    ensures number.data == None
    ensures Finished(old(number.data), rowIndex, data, row, data', row')
  {
    data', row' := data, row;
    var taken := number.Take();
    if taken.Some? {
      var (digits, start) := taken.value;
      var element := Data(Number(DigitsValue(digits)), rowIndex, start, start + |digits|);
      data' := data' + [element];
      for i := start to start + |digits|
        invariant |row'| == |row|
        invariant forall j :: start <= j < i ==> row'[j] == Some(element)
        invariant forall j :: 0 <= j < |row| && !(start <= j < i) ==> row'[j] == row[j]
      {
        row' := row'[i := Some(element)];
      }
    }
  }

  /** The cells before column `k` are final. */
  ghost predicate RowDone(line: string, r: nat, row: seq<Option<Data>>, k: nat)
    requires k <= |row| && k <= |line|
  {
    row[..k] == SpecRow(line, r)[..k]
  }

  /** The cells from `k` up to `col` are still empty. */
  ghost predicate RowBlank(row: seq<Option<Data>>, k: nat, col: nat)
    requires k <= col <= |row|
  {
    forall c :: k <= c < col ==> row[c] == None
  }

  /** The state of the token buffer after `col` characters: either empty,
      with no run of digits going on across column `col`, or holding the
      digits of the run that reaches column `col` and the column where it
      starts. */
  ghost predicate Pending(line: string, pending: Option<(string, nat)>, col: nat)
    requires col <= |line|
  {
    if pending.None? then col == 0 || col == |line| || !IsDigit(line[col - 1]) || !IsDigit(line[col])
    else
      var (digits, st) := pending.value;
      st < col && st + |digits| == col && line[st..col] == digits && AllDigits(digits)
      && (st == 0 || !IsDigit(line[st - 1]))
  }

  /** The first column not yet final: the start of the pending run, if any. */
  function Settled(pending: Option<(string, nat)>, col: nat): nat {
    if pending.Some? then pending.value.1 else col
  }

  /** Everything the row loop knows after `col` characters. */
  ghost predicate RowState(line: string, r: nat, data: seq<Data>, data': seq<Data>, row: seq<Option<Data>>,
                           pending: Option<(string, nat)>, col: nat)
  {
    col <= |line| && |row| == col && Pending(line, pending, col) && Settled(pending, col) <= col
    && RowDone(line, r, row, Settled(pending, col)) && RowBlank(row, Settled(pending, col), col)
    && data' == data + LineData(line, r, Settled(pending, col))
  }

  /** Finishing a run of digits `st..e` settles its cells. */
  lemma FinishRun(line: string, r: nat, st: nat, e: nat, row: seq<Option<Data>>, row': seq<Option<Data>>)
    requires st < e <= |line| && |row| == |row'| && e <= |row|
    requires forall k :: st <= k < e ==> IsDigit(line[k])
    requires st == 0 || !IsDigit(line[st - 1])
    requires e == |line| || !IsDigit(line[e])
    requires RowDone(line, r, row, st)
    requires forall i :: st <= i < e ==> row'[i] == Some(Data(Number(DigitsValue(line[st..e])), r, st, e))
    requires forall i :: 0 <= i < |row| && !(st <= i < e) ==> row'[i] == row[i]
    ensures RowDone(line, r, row', e)
    ensures LineData(line, r, e) == LineData(line, r, st) + [Data(Number(DigitsValue(line[st..e])), r, st, e)]
  {
    forall c | st <= c < e
      ensures row'[c] == Cell(line, r, c)
    {
      RunOf(line, st, e, c);
    }
    LineDataRun(line, r, st, e);
  }

  /** A digit joins the pending run, or starts one at its own column. */
  lemma DigitStep(line: string, r: nat, data: seq<Data>, data': seq<Data>, row: seq<Option<Data>>, col: nat,
                  pending: Option<(string, nat)>, pending': Option<(string, nat)>)
    requires RowState(line, r, data, data', row, pending, col) && col < |line| && IsDigit(line[col])
    requires pending.None? ==> pending' == Some(([line[col]], col))
    requires pending.Some? ==> pending' == Some((pending.value.0 + [line[col]], pending.value.1))
    ensures RowState(line, r, data, data', row + [None], pending', col + 1)
  {
    if pending.Some? {
      assert line[pending.value.1..col + 1] == line[pending.value.1..col] + [line[col]];
    } else {
      assert line[col..col + 1] == [line[col]];
    }
  }

  /** A run ending at column `e`, before a non-digit or at the end of the
      line, is finished: its cells and its element are settled. */
  lemma FinishStep(line: string, r: nat, data: seq<Data>, e: nat, pending: Option<(string, nat)>,
                   data0: seq<Data>, row: seq<Option<Data>>, data1: seq<Data>, row': seq<Option<Data>>)
    requires RowState(line, r, data, data0, row, pending, e) && (e == |line| || !IsDigit(line[e]))
    requires Finished(pending, r, data0, row, data1, row')
    ensures RowState(line, r, data, data1, row', None, e)
  {
    if pending.Some? {
      var (digits, st) := pending.value;
      FinishRun(line, r, st, e, row, row');
    }
  }

  /** Finishing never touches the slot just pushed for the current
      character. */
  lemma FinishedBeforeSlot(pending: Option<(string, nat)>, r: nat, data: seq<Data>, row: seq<Option<Data>>,
                           data': seq<Data>, row': seq<Option<Data>>)
    requires pending.Some? ==> pending.value.1 + |pending.value.0| <= |row|
    requires Finished(pending, r, data, row + [None], data', row')
    ensures |row'| == |row| + 1 && row'[|row|] == None
    ensures Finished(pending, r, data, row, data', row'[..|row|])
  {
  }

  /** A character other than a digit or '.' is a one-column symbol. */
  lemma SymbolStep(line: string, r: nat, data: seq<Data>, col: nat,
                   data1: seq<Data>, row1: seq<Option<Data>>, data2: seq<Data>, row2: seq<Option<Data>>)
    requires RowState(line, r, data, data1, row1, None, col) && col < |line| && !IsDigit(line[col])
    requires line[col] == '.' ==> data2 == data1 && row2 == row1 + [None]
    requires line[col] != '.' ==> data2 == data1 + [Data(Symbol(line[col]), r, col, col + 1)]
                                  && row2 == row1 + [Some(Data(Symbol(line[col]), r, col, col + 1))]
    ensures RowState(line, r, data, data2, row2, None, col + 1)
  {
    assert LineData(line, r, col + 1) == LineData(line, r, col)
      + (if line[col] != '.' then [Data(Symbol(line[col]), r, col, col + 1)] else []);
  }

  /** At the end of the line every cell is final. */
  lemma RowComplete(line: string, r: nat, data: seq<Data>, data': seq<Data>, row: seq<Option<Data>>)
    requires RowState(line, r, data, data', row, None, |line|)
    ensures row == SpecRow(line, r) && data' == data + LineData(line, r, |line|)
  {
  }

  /** One line of the schematic: every character gets a slot; digits
      collect in the buffer until a non-digit or the end of the line finishes
      the number; other characters except '.' become symbols. */
  method ParseRow(line: string, r: nat, data: seq<Data>) returns (data': seq<Data>, row: seq<Option<Data>>)
    ensures row == SpecRow(line, r)
    ensures data' == data + LineData(line, r, |line|)
  {
    data' := data;
    row := [];
    var current := new TokenBuffer();
    for col := 0 to |line|
      invariant RowState(line, r, data, data', row, current.data, col)
      invariant current.data.Some? ==> col < |line|
    {
      data', row := ScanChar(line, r, data, data', row, current, col);
      if col + 1 == |line| {
        ghost var pending := current.data;
        ghost var row0, data0 := row, data';
        data', row := FinishNumber(data', row, current, r);
        FinishStep(line, r, data, col + 1, pending, data0, row0, data', row);
      }
    }
    RowComplete(line, r, data, data', row);
  }

  /** One character of a line: a digit goes into the buffer; any other
      character first finishes the pending number, then a symbol other
      than '.' fills its slot. */
  method ScanChar(line: string, r: nat, data: seq<Data>, data': seq<Data>, row: seq<Option<Data>>, current: TokenBuffer, col: nat)
    returns (data'': seq<Data>, row': seq<Option<Data>>)
    requires col < |line| && RowState(line, r, data, data', row, current.data, col)
    modifies current
    ensures RowState(line, r, data, data'', row', current.data, col + 1)
  {
    var ch := line[col];
    ghost var pending := current.data;
    data'', row' := data', row;
    if IsDigit(ch) {
      current.Push(ch, col);
      row' := row + [None];
      DigitStep(line, r, data, data', row, col, pending, current.data);
    } else {
      row' := row + [None];
      data'', row' := FinishNumber(data'', row', current, r);
      FinishedBeforeSlot(pending, r, data', row, data'', row');
      ghost var row1, data1 := row'[..col], data'';
      FinishStep(line, r, data, col, pending, data', row, data1, row1);
      if ch != '.' {
        var element := Data(Symbol(ch), r, col, col + 1);
        data'' := data'' + [element];
        row' := row'[col := Some(element)];
      }
      SymbolStep(line, r, data, col, data1, row1, data'', row');
    }
  }

  /** The whole schematic. An input without lines has no first row to take
      the width from, which the source does not survive; it is an error here. */
  method Parse(lines: seq<string>) returns (r: Result<Schematic>)
    ensures r.Err? <==> |lines| == 0
    ensures r.Ok? ==> r.value == SpecSchematic(lines)
  {
    var data: seq<Data> := [];
    var rows: seq<seq<Option<Data>>> := [];
    for i := 0 to |lines|
      invariant |rows| == i && forall k :: 0 <= k < i ==> rows[k] == SpecRow(lines[k], k)
      invariant data == AllData(lines, i)
    {
      var row;
      data, row := ParseRow(lines[i], i, data);
      rows := rows + [row];
    }
    if |rows| == 0 {
      return Err("the schematic has no rows");
    }
    r := Ok(Schematic(data, rows, |rows|, |rows[0]|));
  }

  /** Each parsed row has one slot per character; a symbol sits at its own
      cell as a one-column element; every digit's cell holds the number of
      its whole run, which starts and ends where the digits do. */
  lemma ParsedCells(lines: seq<string>, r: nat, c: nat)
    requires |lines| > 0 && r < |lines| && c < |lines[r]|
    ensures |SpecSchematic(lines).rows[r]| == |lines[r]|
    ensures var line := lines[r];
            var cell := SpecSchematic(lines).rows[r][c];
            (line[c] == '.' ==> cell == None)
            && (!IsDigit(line[c]) && line[c] != '.' ==> cell == Some(Data(Symbol(line[c]), r, c, c + 1)))
            && (IsDigit(line[c]) ==>
                  (cell.Some? && cell.value.element.Number?
                   && cell.value.start <= c < cell.value.end
                   && AllDigits(line[cell.value.start..cell.value.end])
                   && cell.value.element.n == DigitsValue(line[cell.value.start..cell.value.end])
                   && (cell.value.start == 0 || !IsDigit(line[cell.value.start - 1]))
                   && (cell.value.end == |line| || !IsDigit(line[cell.value.end]))))
  {
  }

  // ---------------------------------------------------------------------
  // Neighbours

  /** A schematic as parsing leaves it for an input with equally long lines:
      rectangular, and every element inside it. */
  ghost predicate Valid(s: Schematic) {
    |s.rows| == s.numRows
    && (forall r :: 0 <= r < s.numRows ==> |s.rows[r]| == s.numCols)
    && (forall f :: f in s.data ==> WellPlaced(s, f))
  }

  predicate WellPlaced(s: Schematic, f: Data) {
    f.row < s.numRows && f.start < f.end <= s.numCols
  }

  /** Parsing lines of equal length gives a valid schematic. */
  lemma ParsedValid(lines: seq<string>)
    requires |lines| > 0 && forall i | 0 <= i < |lines| :: |lines[i]| == |lines[0]|
    ensures Valid(SpecSchematic(lines))
  {
    AllDataPlaced(lines, |lines|);
  }

  /** The elements of the first `n` lines lie in their own row and within
      its width. */
  lemma {:induction false} AllDataPlaced(lines: seq<string>, n: nat)
    requires n <= |lines|
    ensures forall f | f in AllData(lines, n) :: f.row < n && f.start < f.end <= |lines[f.row]|
  {
    if n > 0 {
      AllDataPlaced(lines, n - 1);
      var line := lines[n - 1];
      StartsPlaced(SpecRow(line, n - 1), |line|, n - 1, |line|);
    }
  }

  /** The elements beginning in a row of cells carry the cells' row and
      span. */
  lemma {:induction false} StartsPlaced(cells: seq<Option<Data>>, c: nat, r: nat, w: nat)
    requires c <= |cells|
    requires forall j | 0 <= j < |cells| && cells[j].Some? :: cells[j].value.row == r && cells[j].value.start < cells[j].value.end <= w
    ensures forall f | f in Starts(cells, c) :: f.row == r && f.start < f.end <= w
  {
    if c > 0 {
      StartsPlaced(cells, c - 1, r, w);
    }
  }

  function CellAt(s: Schematic, r: nat, c: nat): Option<Data> {
    if r < |s.rows| && c < |s.rows[r]| then s.rows[r][c] else None
  }

  function IsSymbolAt(s: Schematic, r: nat, c: nat): bool {
    CellAt(s, r, c).Some? && CellAt(s, r, c).value.element.Symbol?
  }

  /** The first column looked at above and below an element. */
  function Lo(f: Data): nat {
    if f.start > 0 then f.start - 1 else f.start
  }

  /** The column after an element, as written: only when `end + 1 < num_cols`. */
  function ColumnAfter(s: Schematic, f: Data): Option<nat> {
    if f.end + 1 < s.numCols then Some(f.end) else None
  }

  /** The last column looked at above and below an element. */
  function Hi(s: Schematic, f: Data, after: Option<nat>): int {
    if after.Some? then after.value else f.end - 1
  }

  /** The cells beside an element in its own row. */
  predicate Side(f: Data, after: Option<nat>, r: nat, c: nat) {
    r == f.row && ((f.start > 0 && c == f.start - 1) || (after.Some? && c == after.value))
  }

  /** The cells `neighbors` and `part_numbers` look at for the given
      column after: the column before and after in the element's row, and
      the rows above and below from `Lo` to `Hi`. */
  predicate Looked(s: Schematic, f: Data, after: Option<nat>, r: nat, c: nat) {
    Side(f, after, r, c)
    || (f.row > 0 && r + 1 == f.row && Lo(f) <= c <= Hi(s, f, after))
    || (f.row + 1 < s.numRows && r == f.row + 1 && Lo(f) <= c <= Hi(s, f, after))
  }

  /** The cells looked at, as written. */
  predicate Inspected(s: Schematic, f: Data, r: nat, c: nat) {
    Looked(s, f, ColumnAfter(s, f), r, c)
  }

  /** The cells that border an element, diagonals included, inside the
      grid. */
  predicate Borders(s: Schematic, f: Data, r: nat, c: nat) {
    r < s.numRows && c < s.numCols
    && f.row <= r + 1 && r <= f.row + 1
    && f.start <= c + 1 && c <= f.end
    && !(r == f.row && f.start <= c < f.end)
  }

  /** The inspected cells always border the element. They are all of its
      bordering cells unless the element ends in the next to last column, in
      which case the cell after it is skipped. */
  lemma InspectedCellsBorder(s: Schematic, f: Data)
    requires WellPlaced(s, f)
    ensures forall r: nat, c: nat :: Inspected(s, f, r, c) ==> Borders(s, f, r, c)
    ensures f.end + 1 != s.numCols ==> forall r: nat, c: nat :: Borders(s, f, r, c) ==> Inspected(s, f, r, c)
    ensures f.end + 1 == s.numCols ==> Borders(s, f, f.row, f.end) && !Inspected(s, f, f.row, f.end)
  {
  }

  /** The elements found in a set of cells. */
  ghost function Found(s: Schematic, cells: set<(nat, nat)>): set<Data> {
    set rc | rc in cells && CellAt(s, rc.0, rc.1).Some? :: CellAt(s, rc.0, rc.1).value
  }

  /** `add_neighbor`: inserts the element at (row, col), if there is one. */
  method AddNeighbor(s: Schematic, neighbors: set<Data>, ghost seen: set<(nat, nat)>, row: nat, col: nat)
      returns (neighbors': set<Data>, ghost seen': set<(nat, nat)>)
    requires Valid(s) && row < s.numRows && col < s.numCols
    requires neighbors == Found(s, seen)
    ensures seen' == seen + {(row, col)} && neighbors' == Found(s, seen')
  {
    seen' := seen + {(row, col)};
    neighbors' := neighbors;
    if s.rows[row][col].Some? {
      neighbors' := neighbors + {s.rows[row][col].value};
    }
    assert CellAt(s, row, col) == s.rows[row][col];
  }

  /** `neighbors`: the distinct elements in the inspected cells around `f`. */
  method Neighbors(s: Schematic, f: Data) returns (neighbors: set<Data>)
    requires Valid(s) && WellPlaced(s, f)
    ensures forall d :: d in neighbors <==> exists r: nat, c: nat :: Inspected(s, f, r, c) && CellAt(s, r, c) == Some(d)
  {
    neighbors := {};
    ghost var seen: set<(nat, nat)> := {};
    var columnBefore: Option<nat> := if f.start > 0 then Some(f.start - 1) else None;
    var columnAfter: Option<nat> := if f.end + 1 < s.numCols then Some(f.end) else None;
    if columnBefore.Some? {
      neighbors, seen := AddNeighbor(s, neighbors, seen, f.row, columnBefore.value);
    }
    if columnAfter.Some? {
      neighbors, seen := AddNeighbor(s, neighbors, seen, f.row, columnAfter.value);
    }
    var start := if columnBefore.Some? then columnBefore.value else f.start;
    var end := if columnAfter.Some? then columnAfter.value else f.end - 1;
    assert forall r: nat, c: nat :: (r, c) in seen <==> Side(f, columnAfter, r, c);
    if f.row > 0 {
      for column := start to end + 1
        invariant forall r: nat, c: nat :: (r, c) in seen <==> Side(f, columnAfter, r, c) || (r + 1 == f.row && start <= c < column)
        invariant neighbors == Found(s, seen)
      {
        neighbors, seen := AddNeighbor(s, neighbors, seen, f.row - 1, column);
      }
    }
    assert forall r: nat, c: nat :: (r, c) in seen <==> Side(f, columnAfter, r, c) || (f.row > 0 && r + 1 == f.row && start <= c <= end);
    if f.row + 1 < s.numRows {
      for column := start to end + 1
        invariant forall r: nat, c: nat :: (r, c) in seen <==>
          Side(f, columnAfter, r, c) || (f.row > 0 && r + 1 == f.row && start <= c <= end) || (r == f.row + 1 && start <= c < column)
        invariant neighbors == Found(s, seen)
      {
        neighbors, seen := AddNeighbor(s, neighbors, seen, f.row + 1, column);
      }
    }
    assert forall r: nat, c: nat :: (r, c) in seen <==> Inspected(s, f, r, c);
    FoundInspected(s, f, seen);
  }

  /** The elements found in exactly the inspected cells. */
  lemma FoundInspected(s: Schematic, f: Data, seen: set<(nat, nat)>)
    requires forall r: nat, c: nat :: (r, c) in seen <==> Inspected(s, f, r, c)
    ensures forall d :: d in Found(s, seen) <==> exists r: nat, c: nat :: Inspected(s, f, r, c) && CellAt(s, r, c) == Some(d)
  {
    forall d
      ensures d in Found(s, seen) <==> exists r: nat, c: nat :: Inspected(s, f, r, c) && CellAt(s, r, c) == Some(d)
    {
      if d in Found(s, seen) {
        var rc :| rc in seen && CellAt(s, rc.0, rc.1) == Some(d);
        assert Inspected(s, f, rc.0, rc.1);
      }
      if exists r: nat, c: nat :: Inspected(s, f, r, c) && CellAt(s, r, c) == Some(d) {
        var r: nat, c: nat :| Inspected(s, f, r, c) && CellAt(s, r, c) == Some(d);
        assert (r, c) in seen;
      }
    }
  }

  // ---------------------------------------------------------------------
  // Part numbers

  /** A part number, as `part_numbers` decides it: a number with a symbol in
      one of its inspected cells. */
  ghost predicate IsPart(s: Schematic, f: Data) {
    f.element.Number? && exists r: nat, c: nat :: Inspected(s, f, r, c) && IsSymbolAt(s, r, c)
  }

  /** The search `part_numbers` makes for one element with a given column
      after: it stops at the first symbol found. */
  method SymbolNear(s: Schematic, f: Data, columnAfter: Option<nat>) returns (b: bool)
    requires Valid(s) && WellPlaced(s, f)
    requires columnAfter.Some? ==> columnAfter.value == f.end < s.numCols
    ensures b <==> exists r: nat, c: nat :: Looked(s, f, columnAfter, r, c) && IsSymbolAt(s, r, c)
  {
    var columnBefore: Option<nat> := if f.start > 0 then Some(f.start - 1) else None;
    if columnBefore.Some? && IsSymbolAt(s, f.row, columnBefore.value) {
      assert Looked(s, f, columnAfter, f.row, columnBefore.value);
      return true;
    }
    if columnAfter.Some? && IsSymbolAt(s, f.row, columnAfter.value) {
      assert Looked(s, f, columnAfter, f.row, columnAfter.value);
      return true;
    }
    var start := if columnBefore.Some? then columnBefore.value else f.start;
    var end := if columnAfter.Some? then columnAfter.value else f.end - 1;
    if f.row > 0 {
      var above := f.row - 1;
      for column := start to end + 1
        invariant forall c :: start <= c < column ==> !IsSymbolAt(s, above, c)
      {
        if IsSymbolAt(s, above, column) {
          assert Looked(s, f, columnAfter, above, column);
          return true;
        }
      }
    }
    if f.row + 1 < s.numRows {
      var below := f.row + 1;
      for column := start to end + 1
        invariant forall c :: start <= c < column ==> !IsSymbolAt(s, below, c)
      {
        if IsSymbolAt(s, below, column) {
          assert Looked(s, f, columnAfter, below, column);
          return true;
        }
      }
    }
    b := false;
  }

  /** The test `part_numbers` applies to one element: a symbol never passes;
      a number passes when one of its inspected cells holds a symbol. */
  method IsPartNumber(s: Schematic, f: Data) returns (b: bool)
    requires Valid(s) && WellPlaced(s, f)
    ensures b <==> IsPart(s, f)
  {
    if f.element.Symbol? {
      return false;
    }
    b := SymbolNear(s, f, if f.end + 1 < s.numCols then Some(f.end) else None);
  }

  ghost function PartsOf(s: Schematic, fs: seq<Data>): seq<Data> {
    if fs == [] then [] else (if IsPart(s, fs[0]) then [fs[0]] else []) + PartsOf(s, fs[1..])
  }

  lemma PartsOfFrom(s: Schematic, fs: seq<Data>, i: nat)
    requires i < |fs|
    ensures PartsOf(s, fs[i..]) == (if IsPart(s, fs[i]) then [fs[i]] else []) + PartsOf(s, fs[i + 1..])
  {
    assert fs[i..][1..] == fs[i + 1..];
  }

  /** `part_numbers`: the elements that pass the test, in order. */
  method PartNumbers(s: Schematic) returns (parts: seq<Data>)
    requires Valid(s)
    ensures parts == PartsOf(s, s.data)
  {
    parts := [];
    var i := 0;
    assert s.data[0..] == s.data;
    while i < |s.data|
      invariant i <= |s.data|
      invariant parts + PartsOf(s, s.data[i..]) == PartsOf(s, s.data)
    {
      var f := s.data[i];
      var b := IsPartNumber(s, f);
      PartsOfFrom(s, s.data, i);
      if b {
        parts := parts + [f];
      }
      i := i + 1;
    }
  }

  /** No symbol is ever a part number; the elements kept are exactly those
      that pass the test. */
  lemma {:induction false} PartsAreNumbers(s: Schematic, fs: seq<Data>)
    ensures forall f :: f in PartsOf(s, fs) ==> f in fs && IsPart(s, f) && f.element.Number?
    ensures forall f :: f in fs && IsPart(s, f) ==> f in PartsOf(s, fs)
  {
    if fs != [] {
      PartsAreNumbers(s, fs[1..]);
      assert forall f :: f in fs ==> f == fs[0] || f in fs[1..];
    }
  }

  // ---------------------------------------------------------------------
  // The column after a number, corrected

  /** The column after taken whenever it is inside the grid
      (`end < num_cols`). */
  function ColumnAfterFixed(s: Schematic, f: Data): Option<nat> {
    if f.end < s.numCols then Some(f.end) else None
  }

  /** With the corrected bound, the cells looked at are exactly the
      bordering cells. */
  lemma LookedFixedBorder(s: Schematic, f: Data)
    requires WellPlaced(s, f)
    ensures forall r: nat, c: nat :: Looked(s, f, ColumnAfterFixed(s, f), r, c) <==> Borders(s, f, r, c)
  {
  }

  /** A part number as intended: a number bordered by a symbol. */
  ghost predicate IsPartFixed(s: Schematic, f: Data) {
    f.element.Number? && exists r: nat, c: nat :: Borders(s, f, r, c) && IsSymbolAt(s, r, c)
  }

  /** The corrected test: a number passes exactly when a symbol borders it. */
  method IsPartNumberFixed(s: Schematic, f: Data) returns (b: bool)
    requires Valid(s) && WellPlaced(s, f)
    ensures b <==> IsPartFixed(s, f)
  {
    LookedFixedBorder(s, f);
    if f.element.Symbol? {
      return false;
    }
    b := SymbolNear(s, f, if f.end < s.numCols then Some(f.end) else None);
  }

  /** The schematic "1*": the '*' borders the 1, yet the test as written
      never looks at column 1, so 1 is not a part number; the corrected
      test finds it. */
  lemma ColumnAfterCounterexample(lines: seq<string>)
    requires lines == ["1*"]
    ensures var s := SpecSchematic(lines);
            var one := Data(Number(1), 0, 0, 1);
            one in s.data && Valid(s) && !IsPart(s, one) && IsPartFixed(s, one)
  {
    var line := lines[0];
    var s := SpecSchematic(lines);
    var one := Data(Number(1), 0, 0, 1);
    var star := Data(Symbol('*'), 0, 1, 2);
    assert RunStart(line, 0) == 0 && RunEnd(line, 0) == 1;
    assert line[0..1] == "1";
    assert DigitsValue("1") == 1 by {
      assert "1"[..0] == [];
    }
    assert Cell(line, 0, 0) == Some(one);
    assert Cell(line, 0, 1) == Some(star);
    assert LineData(line, 0, 1) == [one];
    assert LineData(line, 0, 2) == [one, star];
    assert AllData(lines, 1) == [one, star];
    assert s.rows[0] == [Some(one), Some(star)];
    assert IsSymbolAt(s, 0, 1) && Borders(s, one, 0, 1);
  }
}
