/** Day 16, "The Floor Will Be Lava": a square grid of mirrors and
    splitters, and a beam of light that enters at one cell and spreads
    through it. Each cell remembers from which sides light has entered it,
    so that no beam is followed twice. */
module FloorLava {
  import opened Wrappers

  datatype Optic = SplitterH | SplitterV | MirrorRight | MirrorLeft

  datatype LightDirection = Left | Right | Up | Down

  /** The sides of a cell light has entered it from. */
  datatype LitFrom = LitFrom(left: bool, right: bool, above: bool, below: bool)

  /** Light at a cell, moving in a direction. */
  datatype Beam = Beam(x: nat, y: nat, dir: LightDirection)

  // ---------------------------------------------------------------------
  // Optics

  function AsChar(o: Optic): char {
    match o
    case SplitterH => '-'
    case SplitterV => '|'
    case MirrorRight => '/'
    case MirrorLeft => '\\'
  }

  /** `Optic::try_from`: the four optic characters and nothing else, each
      the character of the optic it gives. */
  function OpticOf(c: char): (r: Option<Optic>)
    ensures r.Some? <==> c == '-' || c == '|' || c == '/' || c == '\\'
    ensures r.Some? ==> AsChar(r.value) == c
  {
    match c
    case '-' => Some(SplitterH)
    case '|' => Some(SplitterV)
    case '/' => Some(MirrorRight)
    case '\\' => Some(MirrorLeft)
    case _ => None
  }

  lemma OpticRoundTrip(o: Optic)
    ensures OpticOf(AsChar(o)) == Some(o)
  {
  }

  function Reverse(d: LightDirection): LightDirection {
    match d
    case Left => Right
    case Right => Left
    case Up => Down
    case Down => Up
  }

  predicate Horizontal(d: LightDirection) {
    d == Left || d == Right
  }

  /** `deflect`: the directions light leaves an optic in. */
  function Deflect(o: Optic, d: LightDirection): (r: seq<LightDirection>)
    ensures 1 <= |r| <= 2
  {
    match (d, o)
    case (Right, SplitterV) => [Up, Down]
    case (Left, SplitterV) => [Up, Down]
    case (Up, SplitterH) => [Left, Right]
    case (Down, SplitterH) => [Left, Right]
    case (Right, MirrorLeft) => [Down]
    case (Left, MirrorLeft) => [Up]
    case (Up, MirrorLeft) => [Left]
    case (Down, MirrorLeft) => [Right]
    case (Right, MirrorRight) => [Up]
    case (Left, MirrorRight) => [Down]
    case (Up, MirrorRight) => [Right]
    case (Down, MirrorRight) => [Left]
    case _ => [d]
  }

  /** A splitter met across splits the light both ways across it; met
      along, it lets the light through. */
  lemma DeflectSplitter(o: Optic, d: LightDirection)
    requires o == SplitterH || o == SplitterV
    ensures (o == SplitterH) != Horizontal(d) ==>
              (|Deflect(o, d)| == 2 && Horizontal(Deflect(o, d)[0]) == (o == SplitterH)
               && Deflect(o, d)[1] == Reverse(Deflect(o, d)[0]))
    ensures (o == SplitterH) == Horizontal(d) ==> Deflect(o, d) == [d]
  {
  }

  /** A mirror turns the light a quarter turn, and light sent back the way
      it left comes out the way it came in. */
  lemma DeflectMirror(o: Optic, d: LightDirection)
    requires o == MirrorRight || o == MirrorLeft
    ensures |Deflect(o, d)| == 1
    ensures Horizontal(Deflect(o, d)[0]) != Horizontal(d)
    ensures Deflect(o, Reverse(Deflect(o, d)[0])) == [Reverse(d)]
  {
  }

  // ---------------------------------------------------------------------
  // Cells and light records

  /** A grid of `height` rows of `width` cells each. */
  predicate Shape<T>(cells: seq<seq<T>>, height: nat, width: nat) {
    |cells| == height && forall y | 0 <= y < height :: |cells[y]| == width
  }

  /** The flag of the side light moving in `d` enters a cell by. */
  function Flag(f: LitFrom, d: LightDirection): bool {
    match d
    case Left => f.right
    case Right => f.left
    case Up => f.below
    case Down => f.above
  }

  /** Whether light moving in `d` has been recorded at a cell. */
  predicate Recorded(cell: Option<LitFrom>, d: LightDirection) {
    cell.Some? && Flag(cell.value, d)
  }

  /** The record of a cell once light moving in `d` has entered it. */
  function Mark(cell: Option<LitFrom>, d: LightDirection): (f: LitFrom)
    ensures forall e :: Flag(f, e) <==> e == d || Recorded(cell, e)
  {
    var f := if cell.Some? then cell.value else LitFrom(false, false, false, false);
    match d
    case Left => f.(right := true)
    case Right => f.(left := true)
    case Up => f.(below := true)
    case Down => f.(above := true)
  }

  /** Recording the same light again changes nothing. */
  lemma MarkTwice(cell: Option<LitFrom>, d: LightDirection)
    ensures Recorded(Some(Mark(cell, d)), d)
    ensures Mark(Some(Mark(cell, d)), d) == Mark(cell, d)
  {
  }

  /** A cell holds a record only once some light has entered it. */
  predicate WellMarked(cells: seq<seq<Option<LitFrom>>>) {
    forall y, x | 0 <= y < |cells| && 0 <= x < |cells[y]| ::
      cells[y][x].Some? ==> exists d :: Flag(cells[y][x].value, d)
  }

  /** The beams recorded in a grid of records. */
  ghost function BeamsOf(cells: seq<seq<Option<LitFrom>>>): set<Beam> {
    set y: nat, x: nat, d: LightDirection | y < |cells| && x < |cells[y]| && Recorded(cells[y][x], d) :: Beam(x, y, d)
  }

  /** Recording a beam adds it and nothing else. */
  lemma BeamsOfMark(cells: seq<seq<Option<LitFrom>>>, b: Beam)
    requires b.y < |cells| && b.x < |cells[b.y]|
    ensures BeamsOf(cells[b.y := cells[b.y][b.x := Some(Mark(cells[b.y][b.x], b.dir))]]) == BeamsOf(cells) + {b}
  {
    var cells' := cells[b.y := cells[b.y][b.x := Some(Mark(cells[b.y][b.x], b.dir))]];
    forall c | c in BeamsOf(cells') ensures c in BeamsOf(cells) + {b} {
      assert Recorded(cells'[c.y][c.x], c.dir);
    }
    forall c | c in BeamsOf(cells) + {b} ensures c in BeamsOf(cells') {
      if c != b {
        assert Recorded(cells[c.y][c.x], c.dir);
        assert Recorded(cells'[c.y][c.x], c.dir);
      } else {
        assert Recorded(cells'[b.y][b.x], b.dir);
      }
    }
  }

  /** How many cells of a row hold a record. */
  function RowLit(row: seq<Option<LitFrom>>): (n: nat)
    ensures n <= |row|
  {
    if row == [] then 0 else RowLit(row[..|row| - 1]) + (if row[|row| - 1].Some? then 1 else 0)
  }

  /** `lit_count`: how many cells hold a record. */
  function LitCells(cells: seq<seq<Option<LitFrom>>>): nat {
    if cells == [] then 0 else LitCells(cells[..|cells| - 1]) + RowLit(cells[|cells| - 1])
  }

  /** The positions of the cells that hold a record. */
  ghost function LitPositions(cells: seq<seq<Option<LitFrom>>>): set<(nat, nat)> {
    set y: nat, x: nat | y < |cells| && x < |cells[y]| && cells[y][x].Some? :: (x, y)
  }

  ghost function RowPositions(row: seq<Option<LitFrom>>, y: nat): set<(nat, nat)> {
    set x: nat | x < |row| && row[x].Some? :: (x, y)
  }

  lemma {:induction false} RowLitCount(row: seq<Option<LitFrom>>, y: nat)
    ensures RowLit(row) == |RowPositions(row, y)|
  {
    if row != [] {
      var n := |row| - 1;
      RowLitCount(row[..n], y);
      if row[n].Some? {
        assert RowPositions(row, y) == RowPositions(row[..n], y) + {(n, y)};
      } else {
        assert RowPositions(row, y) == RowPositions(row[..n], y);
      }
    } else {
      assert RowPositions(row, y) == {};
    }
  }

  /** Counting row by row counts the lit cells. */
  lemma {:induction false} LitCellsCount(cells: seq<seq<Option<LitFrom>>>)
    ensures LitCells(cells) == |LitPositions(cells)|
  {
    if cells != [] {
      var n := |cells| - 1;
      LitCellsCount(cells[..n]);
      RowLitCount(cells[n], n);
      assert LitPositions(cells) == LitPositions(cells[..n]) + RowPositions(cells[n], n);
      assert LitPositions(cells[..n]) !! RowPositions(cells[n], n);
    } else {
      assert LitPositions(cells) == {};
    }
  }

  /** A cell holds a record exactly when some beam is recorded there. */
  lemma LitPositionsBeams(cells: seq<seq<Option<LitFrom>>>)
    requires WellMarked(cells)
    ensures LitPositions(cells) == set b | b in BeamsOf(cells) :: (b.x, b.y)
  {
    forall p | p in LitPositions(cells)
      ensures exists b :: b in BeamsOf(cells) && (b.x, b.y) == p
    {
      var y: nat, x: nat :| y < |cells| && x < |cells[y]| && cells[y][x].Some? && (x, y) == p;
      var d :| Flag(cells[y][x].value, d);
      InBeamsOf(cells, Beam(x, y, d));
    }
    forall b | b in BeamsOf(cells)
      ensures (b.x, b.y) in LitPositions(cells)
    {
      InBeamsOf(cells, b);
    }
  }

  /** No more cells are lit than the grid has. */
  lemma {:induction false} LitCellsBound(cells: seq<seq<Option<LitFrom>>>, height: nat, width: nat)
    requires Shape(cells, height, width)
    ensures LitCells(cells) <= height * width
  {
    if cells != [] {
      LitCellsBound(cells[..|cells| - 1], height - 1, width);
      assert height * width == (height - 1) * width + width;
    }
  }

  // ---------------------------------------------------------------------
  // The record of where light has been

  class GridLight {
    var inner: seq<seq<Option<LitFrom>>>

    /** `GridLight::unlit`: no light anywhere yet. */
    constructor Unlit(height: nat, width: nat)
      ensures Shape(inner, height, width)
      ensures forall y, x | 0 <= y < height && 0 <= x < width :: inner[y][x] == None
    {
      inner := seq(height, _ => seq(width, _ => None));
    }

    /** `GridLight::set`: record light moving in `dir` at a cell, and
        answer whether it had been recorded there already. Only that cell
        changes. */
    method Set(x: nat, y: nat, dir: LightDirection) returns (already: bool)
      requires y < |inner| && x < |inner[y]|
      modifies this
      ensures already == Recorded(old(inner)[y][x], dir)
      ensures inner == old(inner)[y := old(inner)[y][x := Some(Mark(old(inner)[y][x], dir))]]
    {
      var litFrom := inner[y][x];
      if litFrom.None? {
        litFrom := Some(LitFrom(false, false, false, false));
      }
      var f := litFrom.value;
      match dir {
        case Left =>
          already := f.right;
          f := f.(right := true);
        case Right =>
          already := f.left;
          f := f.(left := true);
        case Up =>
          already := f.below;
          f := f.(below := true);
        case Down =>
          already := f.above;
          f := f.(above := true);
      }
      inner := inner[y := inner[y][x := Some(f)]];
    }

    /** `lit_count`: the number of cells light has entered. */
    function LitCount(): (n: nat)
      reads this
      ensures n == |LitPositions(inner)|
    {
      LitCellsCount(inner);
      LitCells(inner)
    }
  }

  // ---------------------------------------------------------------------
  // Moving light

  /** The closure `next_direction` in `light`: the next cell in direction
      `dir`, if the grid goes on that way. Going down is bounded by the
      width, which is the height on a square grid. */
  function NextCell(x: nat, y: nat, dir: LightDirection, width: nat): (r: Option<(nat, nat)>)
    requires width >= 1
    ensures x < width && y < width && r.Some? ==> r.value.0 < width && r.value.1 < width
    ensures x < width && y < width ==>
              (r.None? <==> (dir == Right && x == width - 1) || (dir == Left && x == 0)
                            || (dir == Up && y == 0) || (dir == Down && y == width - 1))
  {
    match dir
    case Right => if x < width - 1 then Some((x + 1, y)) else None
    case Left => if x > 0 then Some((x - 1, y)) else None
    case Up => if y > 0 then Some((x, y - 1)) else None
    case Down => if y < width - 1 then Some((x, y + 1)) else None
  }

  /** The directions light leaves a cell in. */
  function Outgoing(cell: Option<Optic>, d: LightDirection): (r: seq<LightDirection>)
    ensures 1 <= |r| <= 2
  {
    if cell.Some? then Deflect(cell.value, d) else [d]
  }

  /** The beams that go on from a cell, one for each outgoing direction
      that does not leave the grid, in the order they are pushed. */
  function Moves(x: nat, y: nat, ds: seq<LightDirection>, width: nat): (r: seq<Beam>)
    requires width >= 1
  {
    if ds == [] then []
    else Move(x, y, ds[0], width) + Moves(x, y, ds[1..], width)
  }

  /** The beam that goes on in direction `d`, if it stays in the grid. */
  function Move(x: nat, y: nat, d: LightDirection, width: nat): (r: seq<Beam>)
    requires width >= 1
  {
    match NextCell(x, y, d, width)
    case Some(p) => [Beam(p.0, p.1, d)]
    case None => []
  }

  lemma {:induction false} MovesSnoc(x: nat, y: nat, ds: seq<LightDirection>, d: LightDirection, width: nat)
    requires width >= 1
    ensures Moves(x, y, ds + [d], width) == Moves(x, y, ds, width) + Move(x, y, d, width)
  {
    if ds == [] {
      assert [d][1..] == [];
      assert Moves(x, y, [d], width) == Move(x, y, d, width) + Moves(x, y, [], width);
    } else {
      var m := Move(x, y, ds[0], width);
      assert (ds + [d])[0] == ds[0];
      assert (ds + [d])[1..] == ds[1..] + [d];
      MovesSnoc(x, y, ds[1..], d, width);
      calc {
        Moves(x, y, ds + [d], width);
        m + Moves(x, y, ds[1..] + [d], width);
        m + (Moves(x, y, ds[1..], width) + Move(x, y, d, width));
        (m + Moves(x, y, ds[1..], width)) + Move(x, y, d, width);
      }
    }
  }

  predicate InGrid(b: Beam, height: nat, width: nat) {
    b.y < height && b.x < width
  }

  /** On a square grid every beam that goes on stays in the grid. */
  lemma {:induction false} MovesInGrid(x: nat, y: nat, ds: seq<LightDirection>, size: nat)
    requires size >= 1 && x < size && y < size
    ensures forall k | 0 <= k < |Moves(x, y, ds, size)| :: InGrid(Moves(x, y, ds, size)[k], size, size)
  {
    if ds != [] {
      MovesInGrid(x, y, ds[1..], size);
    }
  }

  /** The beams light at `b` goes on to. */
  function Successors(optics: seq<seq<Option<Optic>>>, width: nat, b: Beam): seq<Beam>
    requires width >= 1 && b.y < |optics| && b.x < |optics[b.y]|
  {
    Moves(b.x, b.y, Outgoing(optics[b.y][b.x], b.dir), width)
  }

  /** A set of beams that every beam in it in the grid goes on within. */
  ghost predicate Closed(optics: seq<seq<Option<Optic>>>, size: nat, beams: set<Beam>)
    requires size >= 1 && Shape(optics, size, size)
  {
    forall b, k | b in beams && InGrid(b, size, size) && 0 <= k < |Successors(optics, size, b)| ::
      Successors(optics, size, b)[k] in beams
  }

  /** The beams that are lit from `start`: the least closed set that holds
      it. */
  ghost predicate Lit(optics: seq<seq<Option<Optic>>>, size: nat, start: Beam, beams: set<Beam>)
    requires size >= 1 && Shape(optics, size, size)
  {
    start in beams && Closed(optics, size, beams)
    && forall other: set<Beam> | start in other && Closed(optics, size, other) :: beams <= other
  }

  // ---------------------------------------------------------------------
  // The grid

  /** The optic at a cell of the text, if any; past the end of a line
      there is none. */
  function CellOf(lines: seq<string>, x: nat, y: nat): Option<Optic>
    requires y < |lines|
  {
    if x < |lines[y]| then OpticOf(lines[y][x]) else None
  }

  /** Whether some optic lies beyond the grid `parse` allocates, whose
      width is the number of lines. */
  predicate Overflows(lines: seq<string>) {
    exists y, x | 0 <= y < |lines| && |lines| <= x < |lines[y]| :: OpticOf(lines[y][x]).Some?
  }

  /** A text `parse` reads back exactly: as many lines as characters in
      each, and only optics and '.'. */
  predicate SquareText(lines: seq<string>) {
    forall y | 0 <= y < |lines| :: |lines[y]| == |lines|
      && forall x | 0 <= x < |lines[y]| :: lines[y][x] == '.' || OpticOf(lines[y][x]).Some?
  }

  /** The characters of a row, '.' where there is no optic. */
  function RowText(row: seq<Option<Optic>>): (s: string)
    ensures |s| == |row|
    ensures forall x | 0 <= x < |row| :: s[x] == if row[x].Some? then AsChar(row[x].value) else '.'
  {
    if row == [] then [] else RowText(row[..|row| - 1]) + [if row[|row| - 1].Some? then AsChar(row[|row| - 1].value) else '.']
  }

  class Grid {
    var height: nat
    var width: nat
    var inner: seq<seq<Option<Optic>>>

    ghost predicate Valid()
      reads this
    {
      Shape(inner, height, width)
    }

    /** A grid of the given size without optics. */
    constructor Empty(height: nat, width: nat)
      ensures this.height == height && this.width == width
      ensures Valid() && forall y, x | 0 <= y < height && 0 <= x < width :: inner[y][x] == None
    {
      this.height := height;
      this.width := width;
      inner := seq(height, _ => seq(width, _ => None));
    }

    /** `Grid::put`: place an optic at a cell. */
    method Put(x: nat, y: nat, optic: Optic)
      requires Valid() && y < height && x < width
      modifies this
      ensures Valid() && height == old(height) && width == old(width)
      ensures inner == old(inner)[y := old(inner)[y][x := Some(optic)]]
    {
      inner := inner[y := inner[y][x := Some(optic)]];
    }

    /** `Grid::parse`: a square grid as wide as there are lines, with the
        optic of each character put at its column and row. An optic past
        the width is an index out of bounds, a panic. */
    static method Parse(lines: seq<string>) returns (r: Result<Grid>)
      ensures r.Ok? <==> !Overflows(lines)
      ensures r.Ok? ==> fresh(r.value) && r.value.Valid()
      ensures r.Ok? ==> r.value.height == |lines| && r.value.width == |lines|
      ensures r.Ok? ==> forall y, x | 0 <= y < |lines| && 0 <= x < |lines| :: r.value.inner[y][x] == CellOf(lines, x, y)
    {
      var size := |lines|;
      var grid := new Grid.Empty(size, size);
      for y := 0 to size
        invariant grid.Valid() && grid.height == size && grid.width == size
        invariant forall y', x' | 0 <= y' < size && 0 <= x' < size ::
                    grid.inner[y'][x'] == if y' < y then CellOf(lines, x', y') else None
        invariant forall y', x' | 0 <= y' < y && size <= x' < |lines[y']| :: OpticOf(lines[y'][x']).None?
      {
        var line := lines[y];
        for x := 0 to |line|
          invariant grid.Valid() && grid.height == size && grid.width == size
          invariant forall y', x' | 0 <= y' < size && 0 <= x' < size ::
                      grid.inner[y'][x'] == if y' < y || (y' == y && x' < x) then CellOf(lines, x', y') else None
          invariant forall x' | size <= x' < x :: OpticOf(line[x']).None?
        {
          var optic := OpticOf(line[x]);
          if optic.Some? {
            if x >= grid.width {
              return Err("index out of bounds");
            }
            grid.Put(x, y, optic.value);
          }
        }
      }
      return Ok(grid);
    }

    /** The `Debug` view of the grid: one line per row. */
    function Render(): (lines: seq<string>)
      reads this
      ensures |lines| == |inner|
      ensures forall y | 0 <= y < |inner| :: lines[y] == RowText(inner[y])
    {
      var cells := inner;
      seq(|cells|, y requires 0 <= y < |cells| => RowText(cells[y]))
    }

    /** Printing a grid parsed from a square text gives the text back. */
  static lemma ParseRender(lines: seq<string>, g: Grid)
    requires SquareText(lines) && g.Valid() && g.height == |lines| && g.width == |lines|
    requires forall y, x | 0 <= y < |lines| && 0 <= x < |lines| :: g.inner[y][x] == CellOf(lines, x, y)
    ensures g.Render() == lines
  {
    var r := g.Render();
    forall y | 0 <= y < |lines|
      ensures r[y] == lines[y]
    {
      forall x | 0 <= x < |lines|
        ensures r[y][x] == lines[y][x]
      {
        var c := lines[y][x];
        if OpticOf(c).Some? {
          assert AsChar(OpticOf(c).value) == c;
        }
      }
    }
  }

  /** `Grid::edges`: a start at each end of every row and every column,
        facing into the grid: rightwards from the left end and leftwards
        from the right end of each row, then downwards from the top and
        upwards from the bottom of each column. */
    method Edges() returns (edges: seq<Beam>)
      requires height == 0 <==> width == 0
      ensures |edges| == 2 * height + 2 * width
      ensures forall y | 0 <= y < height :: edges[2 * y] == Beam(0, y, Right) && edges[2 * y + 1] == Beam(width - 1, y, Left)
      ensures forall x | 0 <= x < width ::
                edges[2 * height + 2 * x] == Beam(x, 0, Down) && edges[2 * height + 2 * x + 1] == Beam(x, height - 1, Up)
    {
      edges := [];
      for y := 0 to height
        invariant |edges| == 2 * y
        invariant forall y' | 0 <= y' < y :: edges[2 * y'] == Beam(0, y', Right) && edges[2 * y' + 1] == Beam(width - 1, y', Left)
      {
        edges := edges + [Beam(0, y, Right), Beam(width - 1, y, Left)];
      }
      for x := 0 to width
        invariant |edges| == 2 * height + 2 * x
        invariant forall y | 0 <= y < height :: edges[2 * y] == Beam(0, y, Right) && edges[2 * y + 1] == Beam(width - 1, y, Left)
        invariant forall x' | 0 <= x' < x ::
                    edges[2 * height + 2 * x'] == Beam(x', 0, Down) && edges[2 * height + 2 * x' + 1] == Beam(x', height - 1, Up)
      {
        edges := edges + [Beam(x, 0, Down), Beam(x, height - 1, Up)];
      }
    }

    /** `Grid::light`: follow light from `start` with a stack of beams,
        recording each beam at its cell and following on only from the
        beams not recorded before. The beams recorded in the end are
        exactly those lit from the start; the start cell is lit. */
    method Light(start: Beam) returns (lit: GridLight)
      requires Valid() && height == width && InGrid(start, height, width)
      ensures fresh(lit) && Shape(lit.inner, height, width) && WellMarked(lit.inner)
      ensures Lit(inner, width, start, BeamsOf(lit.inner))
      ensures lit.inner[start.y][start.x].Some?
    {
      var size := width;
      var optics := inner;
      lit := new GridLight.Unlit(size, size);
      ghost var all := AllBeams(size);
      UnlitBeams(lit.inner, size);
      ghost var seen: set<Beam> := {};
      var stack := [start];
      FrontierStart(optics, size, start);
      while stack != []
        invariant Shape(lit.inner, size, size) && WellMarked(lit.inner)
        invariant seen == BeamsOf(lit.inner) && seen <= all
        invariant Frontier(optics, size, start, seen, stack)
        decreases |all - seen|, |stack|
      {
        stack, seen := LightStep(lit, optics, size, start, all, seen, stack);
      }
      FrontierDone(optics, size, start, seen);
      InBeamsOf(lit.inner, start);
    }
  }

  /** One turn of `light`'s loop: pop a beam and record it; unless it was
      recorded before, push the beams that go on from it. Either one more
      beam is recorded, or none is and the stack is shorter. */
  method LightStep(lit: GridLight, optics: seq<seq<Option<Optic>>>, size: nat, start: Beam,
                   ghost all: set<Beam>, ghost seen: set<Beam>, stack: seq<Beam>)
    returns (stack': seq<Beam>, ghost seen': set<Beam>)
    requires size >= 1 && Shape(optics, size, size) && stack != [] && all == AllBeams(size)
    requires Shape(lit.inner, size, size) && WellMarked(lit.inner)
    requires seen == BeamsOf(lit.inner) && seen <= all
    requires Frontier(optics, size, start, seen, stack)
    modifies lit
    ensures Shape(lit.inner, size, size) && WellMarked(lit.inner)
    ensures seen' == BeamsOf(lit.inner) && seen' <= all
    ensures Frontier(optics, size, start, seen', stack')
    ensures |all - seen'| < |all - seen| || (seen' == seen && |stack'| < |stack|)
  {
    var b := stack[|stack| - 1];
    var rest := stack[..|stack| - 1];
    LastSplit(stack);
    assert InGrid(b, size, size);
    ghost var before := lit.inner;
    var already := lit.Set(b.x, b.y, b.dir);
    RecordBeam(before, lit.inner, b, size, all, seen);
    if already {
      FrontierSeen(optics, size, start, seen, rest, b);
      return rest, seen;
    }
    var directions := Outgoing(optics[b.y][b.x], b.dir);
    stack' := PushMoves(rest, b.x, b.y, directions, size);
    FrontierNew(optics, size, start, seen, rest, b);
    seen' := seen + {b};
  }

  /** The inner loop of `light`: push each beam that goes on from the
      cell at (`x`, `y`), in the order of the directions. */
  method PushMoves(stack: seq<Beam>, x: nat, y: nat, directions: seq<LightDirection>, size: nat)
    returns (stack': seq<Beam>)
    requires size >= 1
    ensures stack' == stack + Moves(x, y, directions, size)
  {
    stack' := stack;
    for i := 0 to |directions|
      invariant stack' == stack + Moves(x, y, directions[..i], size)
    {
      MovesSnoc(x, y, directions[..i], directions[i], size);
      assert directions[..i + 1] == directions[..i] + [directions[i]];
      var next := NextCell(x, y, directions[i], size);
      if next.Some? {
        stack' := stack' + [Beam(next.value.0, next.value.1, directions[i])];
      }
    }
    assert directions[..|directions|] == directions;
  }

  /** What `light`'s loop keeps: the beams on the stack are in the grid;
      the start is recorded or still to do; every beam that goes on from a
      recorded beam is recorded or still to do; and every closed set that
      holds the start holds every beam recorded or still to do. */
  ghost predicate Frontier(optics: seq<seq<Option<Optic>>>, size: nat, start: Beam, seen: set<Beam>, stack: seq<Beam>)
    requires size >= 1 && Shape(optics, size, size)
  {
    (forall k | 0 <= k < |stack| :: InGrid(stack[k], size, size))
    && (start in seen || start in stack)
    && (forall b, k | b in seen && InGrid(b, size, size) && 0 <= k < |Successors(optics, size, b)| ::
          Successors(optics, size, b)[k] in seen || Successors(optics, size, b)[k] in stack)
    && (forall other: set<Beam> | start in other && Closed(optics, size, other) ::
          seen <= other && forall k | 0 <= k < |stack| :: stack[k] in other)
  }

  lemma FrontierStart(optics: seq<seq<Option<Optic>>>, size: nat, start: Beam)
    requires size >= 1 && Shape(optics, size, size) && InGrid(start, size, size)
    ensures Frontier(optics, size, start, {}, [start])
  {
    var stack := [start];
    assert stack[0] == start && start in stack;
    forall other: set<Beam> | start in other && Closed(optics, size, other)
      ensures forall k | 0 <= k < |stack| :: stack[k] in other
    {
    }
  }

  /** A beam taken off the stack that was recorded before changes
      nothing. */
  lemma FrontierSeen(optics: seq<seq<Option<Optic>>>, size: nat, start: Beam, seen: set<Beam>, rest: seq<Beam>, b: Beam)
    requires size >= 1 && Shape(optics, size, size)
    requires Frontier(optics, size, start, seen, rest + [b]) && b in seen
    ensures Frontier(optics, size, start, seen, rest)
  {
    forall k | 0 <= k < |rest|
      ensures rest[k] == (rest + [b])[k]
    {
    }
    forall c | c in rest + [b] && c != b
      ensures c in rest
    {
    }
  }

  /** A beam taken off the stack that was not recorded before is recorded,
      and the beams that go on from it take its place. */
  lemma FrontierNew(optics: seq<seq<Option<Optic>>>, size: nat, start: Beam, seen: set<Beam>, rest: seq<Beam>, b: Beam)
    requires size >= 1 && Shape(optics, size, size)
    requires Frontier(optics, size, start, seen, rest + [b]) && InGrid(b, size, size)
    ensures Frontier(optics, size, start, seen + {b}, rest + Successors(optics, size, b))
  {
    var next := rest + Successors(optics, size, b);
    MovesInGrid(b.x, b.y, Outgoing(optics[b.y][b.x], b.dir), size);
    forall k | 0 <= k < |next|
      ensures InGrid(next[k], size, size)
    {
      if k < |rest| {
        assert next[k] == (rest + [b])[k];
      }
    }
    forall c | c in rest + [b] && c != b
      ensures c in next
    {
    }
    forall other: set<Beam> | start in other && Closed(optics, size, other)
      ensures seen + {b} <= other && forall k | 0 <= k < |next| :: next[k] in other
    {
      assert b in other by {
        assert (rest + [b])[|rest|] == b;
      }
      forall k | 0 <= k < |next|
        ensures next[k] in other
      {
        if k < |rest| {
          assert next[k] == (rest + [b])[k];
        } else {
          assert next[k] == Successors(optics, size, b)[k - |rest|];
        }
      }
    }
  }

  /** With nothing left to do, the recorded beams are those lit from the
      start. */
  lemma FrontierDone(optics: seq<seq<Option<Optic>>>, size: nat, start: Beam, seen: set<Beam>)
    requires size >= 1 && Shape(optics, size, size)
    requires Frontier(optics, size, start, seen, [])
    ensures Lit(optics, size, start, seen)
  {
  }

  lemma LastSplit<T>(s: seq<T>)
    requires s != []
    ensures s == s[..|s| - 1] + [s[|s| - 1]]
  {
  }

  /** Every beam in a square grid of the given size. */
  ghost function AllBeams(size: nat): set<Beam> {
    set y: nat, x: nat, d: LightDirection | y < size && x < size :: Beam(x, y, d)
  }

  lemma UnlitBeams(cells: seq<seq<Option<LitFrom>>>, size: nat)
    requires Shape(cells, size, size)
    requires forall y, x | 0 <= y < size && 0 <= x < size :: cells[y][x] == None
    ensures BeamsOf(cells) == {} && WellMarked(cells)
  {
    forall b ensures b !in BeamsOf(cells) {
      InBeamsOf(cells, b);
    }
  }

  lemma InBeamsOf(cells: seq<seq<Option<LitFrom>>>, b: Beam)
    ensures b in BeamsOf(cells) <==> b.y < |cells| && b.x < |cells[b.y]| && Recorded(cells[b.y][b.x], b.dir)
  {
    if b.y < |cells| && b.x < |cells[b.y]| && Recorded(cells[b.y][b.x], b.dir) {
      assert Beam(b.x, b.y, b.dir) == b;
    }
  }

  lemma MarkWellMarked(cells: seq<seq<Option<LitFrom>>>, b: Beam)
    requires WellMarked(cells) && b.y < |cells| && b.x < |cells[b.y]|
    ensures WellMarked(cells[b.y := cells[b.y][b.x := Some(Mark(cells[b.y][b.x], b.dir))]])
  {
    assert Flag(Mark(cells[b.y][b.x], b.dir), b.dir);
  }

  /** What recording a beam does to the records: their shape stays, the
      beam is added, and it was already there exactly when `set` says
      so. */
  lemma RecordBeam(before: seq<seq<Option<LitFrom>>>, after: seq<seq<Option<LitFrom>>>, b: Beam, size: nat,
                   all: set<Beam>, seen: set<Beam>)
    requires Shape(before, size, size) && WellMarked(before) && InGrid(b, size, size)
    requires after == before[b.y := before[b.y][b.x := Some(Mark(before[b.y][b.x], b.dir))]]
    requires all == AllBeams(size) && seen == BeamsOf(before) && seen <= all
    ensures Shape(after, size, size) && WellMarked(after)
    ensures BeamsOf(after) == seen + {b} && seen + {b} <= all
    ensures Recorded(before[b.y][b.x], b.dir) <==> b in seen
    ensures b !in seen ==> |all - (seen + {b})| < |all - seen|
  {
    MarkWellMarked(before, b);
    RecordedBeam(before, b, size, all, seen);
  }

  lemma RecordedBeam(before: seq<seq<Option<LitFrom>>>, b: Beam, size: nat, all: set<Beam>, seen: set<Beam>)
    requires Shape(before, size, size) && InGrid(b, size, size)
    requires all == AllBeams(size) && seen == BeamsOf(before) && seen <= all
    ensures BeamsOf(before[b.y := before[b.y][b.x := Some(Mark(before[b.y][b.x], b.dir))]]) == seen + {b}
    ensures seen + {b} <= all
    ensures Recorded(before[b.y][b.x], b.dir) <==> b in seen
    ensures b !in seen ==> |all - (seen + {b})| < |all - seen|
  {
    InBeamsOf(before, b);
    BeamsOfMark(before, b);
    InAllBeams(size, b);
    if b !in seen {
      FewerUnseen(all, seen, b);
    }
  }

  lemma InAllBeams(size: nat, b: Beam)
    requires InGrid(b, size, size)
    ensures b in AllBeams(size)
  {
    assert Beam(b.x, b.y, b.dir) == b;
  }

  lemma FewerUnseen(all: set<Beam>, seen: set<Beam>, b: Beam)
    requires b in all && b !in seen
    ensures |all - (seen + {b})| < |all - seen|
  {
    assert all - seen == (all - (seen + {b})) + {b};
  }
}
