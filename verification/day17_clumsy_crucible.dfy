/** Day 17, "Clumsy Crucible": a grid of heat-loss digits, and the
    cheapest heat loss of a crucible that must go straight for at least
    `min_run` and at most `max_run` blocks before it turns and never turns
    back. The search keeps, for every cell, the best cost seen for each
    direction and run length, and relaxes them from a first-in first-out
    queue until nothing improves. */
module ClumsyCrucible {
  import opened Wrappers
  import opened Text

  datatype Direction = Up | Down | Left | Right

  /** A crucible entering a cell: the cost so far, the direction it moves
      in and how many blocks it has gone straight. */
  datatype Item = Item(x: nat, y: nat, cost: nat, dir: Direction, run: nat)

  /** `Direction::reverse`. */
  function Reverse(d: Direction): (r: Direction)
    ensures r != d
  {
    match d
    case Up => Down
    case Down => Up
    case Left => Right
    case Right => Left
  }

  lemma ReverseInvolution(d: Direction)
    ensures Reverse(Reverse(d)) == d
  {
  }

  /** A grid of `height` rows of `width` cells each. */
  predicate Shape<T>(cells: seq<seq<T>>, height: nat, width: nat) {
    |cells| == height && forall y | 0 <= y < height :: |cells[y]| == width
  }

  // ---------------------------------------------------------------------
  // Neighbours

  /** The cell one step away in direction `d`, on the unbounded grid
      below and to the right of the origin. */
  predicate Steps(x: nat, y: nat, d: Direction, p: (nat, nat)) {
    match d
    case Up => p == (x, y - 1) && y > 0
    case Down => p == (x, y + 1)
    case Left => p == (x - 1, y) && x > 0
    case Right => p == (x + 1, y)
  }

  /** `Weights::neighbors`: the cells up, right, down and left of (`x`,
      `y`) that lie in the grid, in that order. */
  function NeighborsOf(x: nat, y: nat, height: nat, width: nat): (r: seq<(Direction, (nat, nat))>)
    requires height >= 1 && width >= 1
    ensures |r| <= 4
    ensures forall k | 0 <= k < |r| :: Steps(x, y, r[k].0, r[k].1)
    ensures x < width && y < height ==> forall k | 0 <= k < |r| :: r[k].1.0 < width && r[k].1.1 < height
  {
    (if y > 0 then [(Up, (x, y - 1))] else [])
    + (if x < width - 1 then [(Right, (x + 1, y))] else [])
    + (if y < height - 1 then [(Down, (x, y + 1))] else [])
    + (if x > 0 then [(Left, (x - 1, y))] else [])
  }

  /** Every step that stays in the grid is among the neighbours, once. */
  lemma NeighborsComplete(x: nat, y: nat, height: nat, width: nat, d: Direction, p: (nat, nat))
    requires height >= 1 && width >= 1 && x < width && y < height
    requires Steps(x, y, d, p) && p.0 < width && p.1 < height
    ensures (d, p) in NeighborsOf(x, y, height, width)
    ensures forall k, j | 0 <= k < j < |NeighborsOf(x, y, height, width)| ::
              NeighborsOf(x, y, height, width)[k].0 != NeighborsOf(x, y, height, width)[j].0
  {
  }

  // ---------------------------------------------------------------------
  // The move rules

  /** The crucibles that go on from a cell reached at `cost` moving in
      `dir` after `run` straight blocks: straight on while the run stays
      within `maxRun`, turning only after at least `minRun`, never back. */
  function NextItems(neighbors: seq<(Direction, (nat, nat))>, cost: nat, dir: Direction, run: nat,
                     minRun: nat, maxRun: nat): seq<Item>
  {
    if neighbors == [] then []
    else
      var n := neighbors[|neighbors| - 1];
      NextItems(neighbors[..|neighbors| - 1], cost, dir, run, minRun, maxRun)
      + (if n.0 == dir then (if run + 1 <= maxRun then [Item(n.1.0, n.1.1, cost, n.0, run + 1)] else [])
         else if n.0 != Reverse(dir) then (if run >= minRun then [Item(n.1.0, n.1.1, cost, n.0, 1)] else [])
         else [])
  }

  /** Every crucible that goes on obeys the rules: it goes to a
      neighbour, keeps the cost, continues straight only within the
      maximum run, turns only after the minimum run and never reverses;
      and every neighbour the rules allow gets one. */
  lemma {:induction false} MoveRules(neighbors: seq<(Direction, (nat, nat))>, cost: nat, dir: Direction, run: nat,
                                     minRun: nat, maxRun: nat)
    ensures forall it | it in NextItems(neighbors, cost, dir, run, minRun, maxRun) ::
              (it.dir, (it.x, it.y)) in neighbors && it.cost == cost && it.dir != Reverse(dir)
              && (it.dir == dir ==> it.run == run + 1 && it.run <= maxRun)
              && (it.dir != dir ==> it.run == 1 && run >= minRun)
    ensures forall n | n in neighbors ::
              (n.0 == dir && run + 1 <= maxRun ==> Item(n.1.0, n.1.1, cost, n.0, run + 1) in NextItems(neighbors, cost, dir, run, minRun, maxRun))
              && (n.0 != dir && n.0 != Reverse(dir) && run >= minRun ==>
                    Item(n.1.0, n.1.1, cost, n.0, 1) in NextItems(neighbors, cost, dir, run, minRun, maxRun))
  {
    if neighbors != [] {
      var init := neighbors[..|neighbors| - 1];
      MoveRules(init, cost, dir, run, minRun, maxRun);
      assert forall n | n in neighbors :: n in init || n == neighbors[|neighbors| - 1];
      assert forall n | n in init :: n in neighbors;
    }
  }

  // ---------------------------------------------------------------------
  // Best costs per direction and run

  /** The least of a set of costs, if any. */
  function MinValue(s: set<nat>): (r: Option<nat>)
    ensures r.None? <==> s == {}
    ensures r.Some? ==> r.value in s && forall v | v in s :: r.value <= v
  {
    if s == {} then None
    else
      assert Least(s) in s && forall v | v in s :: Least(s) <= v;
      var m :| m in s && forall v | v in s :: m <= v;
      Some(m)
  }

  /** A least element of a nonempty set of costs. */
  ghost function Least(s: set<nat>): (m: nat)
    requires s != {}
    ensures m in s && forall v | v in s :: m <= v
    decreases |s|
  {
    var x :| x in s;
    if s - {x} == {} then
      LeastWithout(s, x, x);
      x
    else
      var m := Least(s - {x});
      LeastWithout(s, x, m);
      if x < m then x else m
  }

  /** The lesser of `x` and the least of the rest is the least of all. */
  lemma LeastWithout(s: set<nat>, x: nat, m: nat)
    requires x in s && (s - {x} == {} ==> m == x)
    requires s - {x} != {} ==> m in s && forall v | v in s - {x} :: m <= v
    ensures var least := if x < m then x else m; least in s && forall v | v in s :: least <= v
  {
    var least := if x < m then x else m;
    forall v | v in s
      ensures least <= v
    {
      if v != x {
        assert v in s - {x};
      }
    }
  }

  /** The entry `set` leaves for (`dir`, `run`): the new cost when there
      was none or it is strictly cheaper, otherwise the old one. */
  function Stored(cell: map<(Direction, nat), nat>, key: (Direction, nat), cost: nat): map<(Direction, nat), nat> {
    if key !in cell || cell[key] > cost then cell[key := cost] else cell
  }

  /** After `set`, the entry holds the lesser of the old and the new cost,
      and the cheapest entry of the cell is the lesser of the old cheapest
      and the new cost. */
  lemma StoredMin(cell: map<(Direction, nat), nat>, key: (Direction, nat), cost: nat)
    ensures key in Stored(cell, key, cost)
    ensures Stored(cell, key, cost)[key] == if key in cell && cell[key] < cost then cell[key] else cost
    ensures MinValue(Stored(cell, key, cost).Values) ==
              Some(match MinValue(cell.Values) case None => cost case Some(m) => if m < cost then m else cost)
  {
    var cell' := Stored(cell, key, cost);
    var old_ := MinValue(cell.Values);
    var want := match old_ case None => cost case Some(m) => if m < cost then m else cost;
    assert want in cell'.Values by {
      if old_.Some? && old_.value < cost {
        var k :| k in cell && cell[k] == old_.value;
        if k == key {
          assert cell' == cell;
        } else {
          assert cell'[k] == old_.value;
        }
      } else if key in cell {
        assert cell[key] in cell.Values;
      }
    }
    forall v | v in cell'.Values
      ensures want <= v
    {
      var k :| k in cell' && cell'[k] == v;
      if k != key || cell' == cell {
        assert cell[k] in cell.Values;
      }
    }
    var r := MinValue(cell'.Values);
    assert r.value <= want && want <= r.value;
  }

  class Costs {
    var inner: seq<seq<map<(Direction, nat), nat>>>

    /** `Costs::new`: no cost recorded anywhere. */
    constructor New(height: nat, width: nat)
      ensures Shape(inner, height, width)
      ensures forall y, x | 0 <= y < height && 0 <= x < width :: inner[y][x] == map[]
    {
      inner := seq(height, _ => seq(width, _ => map[]));
    }

    /** `Costs::set`: record `cost` for (`direction`, `run`) at a cell
        when nothing was recorded for it or it is cheaper than what was,
        and answer whether it was used. Only that entry changes. */
    method Set(x: nat, y: nat, cost: nat, direction: Direction, run: nat) returns (used: bool)
      requires y < |inner| && x < |inner[y]|
      modifies this
      ensures used <==> (direction, run) !in old(inner)[y][x] || old(inner)[y][x][(direction, run)] > cost
      ensures inner == old(inner)[y := old(inner)[y][x := Stored(old(inner)[y][x], (direction, run), cost)]]
    {
      var runCost: map<(Direction, nat), nat> := inner[y][x];
      var key := (direction, run);
      if key in runCost {
        if runCost[key] > cost {
          runCost := runCost[key := cost];
          used := true;
        } else {
          used := false;
        }
      } else {
        runCost := runCost[key := cost];
        used := true;
      }
      var row: seq<map<(Direction, nat), nat>> := inner[y][x := runCost];
      inner := inner[y := row];
    }

    /** `Costs::get`: the cheapest cost recorded at a cell, over every
        direction and run. */
    function Get(x: nat, y: nat): (r: Option<nat>)
      reads this
      requires y < |inner| && x < |inner[y]|
      ensures r.None? <==> inner[y][x] == map[]
      ensures r.Some? ==> (exists key | key in inner[y][x] :: inner[y][x][key] == r.value)
                          && forall key | key in inner[y][x] :: r.value <= inner[y][x][key]
    {
      var cell := inner[y][x];
      assert cell == map[] <==> cell.Values == {} by {
        if cell != map[] {
          var k :| k in cell;
          assert cell[k] in cell.Values;
        }
      }
      var r := MinValue(cell.Values);
      assert forall key | key in cell :: cell[key] in cell.Values;
      r
    }
  }

  // ---------------------------------------------------------------------
  // A measure that the search lowers

  /** The (direction, run) keys the search can store, runs up to `bound`. */
  function RunKeys(d: Direction, n: nat): (keys: seq<(Direction, nat)>)
    ensures |keys| == n && forall i | 0 <= i < n :: keys[i] == (d, i)
  {
    if n == 0 then [] else RunKeys(d, n - 1) + [(d, n - 1)]
  }

  /** Appending the keys of a direction not yet used keeps the keys distinct. */
  lemma AppendRun(keys: seq<(Direction, nat)>, d: Direction, n: nat, used: set<Direction>)
    requires forall i, j | 0 <= i < j < |keys| :: keys[i] != keys[j]
    requires forall i | 0 <= i < |keys| :: keys[i].0 in used
    requires d !in used
    ensures var all := keys + RunKeys(d, n);
            (forall i, j | 0 <= i < j < |all| :: all[i] != all[j])
            && forall i | 0 <= i < |all| :: all[i].0 in used + {d}
  {
    var all := keys + RunKeys(d, n);
    forall i, j | 0 <= i < j < |all| ensures all[i] != all[j] {
      if j >= |keys| && i < |keys| {
        assert all[i].0 in used && all[j].0 == d;
      }
    }
  }

  function Keys(bound: nat): (keys: seq<(Direction, nat)>)
    ensures KeySpace(keys, bound)
  {
    var n := bound + 1;
    var keys := RunKeys(Up, n) + RunKeys(Down, n) + RunKeys(Left, n) + RunKeys(Right, n);
    AppendRun([], Up, n, {});
    AppendRun(RunKeys(Up, n), Down, n, {Up});
    AppendRun(RunKeys(Up, n) + RunKeys(Down, n), Left, n, {Up, Down});
    AppendRun(RunKeys(Up, n) + RunKeys(Down, n) + RunKeys(Left, n), Right, n, {Up, Down, Left});
    assert forall d, r: nat | r <= bound :: (d, r) in keys by {
      forall d, r: nat | r <= bound
        ensures (d, r) in keys
      {
        var i := match d case Up => 0 case Down => n case Left => 2 * n case Right => 3 * n;
        assert keys[i + r] == (d, r);
      }
    }
    keys
  }

  /** How many of `keys` a cell has no entry for. */
  function CellVacant(cell: map<(Direction, nat), nat>, keys: seq<(Direction, nat)>): nat {
    if keys == [] then 0
    else CellVacant(cell, keys[..|keys| - 1]) + (if keys[|keys| - 1] in cell then 0 else 1)
  }

  /** The total of a cell's entries for `keys`. */
  function CellTotal(cell: map<(Direction, nat), nat>, keys: seq<(Direction, nat)>): nat {
    if keys == [] then 0
    else CellTotal(cell, keys[..|keys| - 1]) + (if keys[|keys| - 1] in cell then cell[keys[|keys| - 1]] else 0)
  }

  /** Changing an entry that is not among the keys changes neither. */
  lemma {:induction false} CellFrame(cell: map<(Direction, nat), nat>, keys: seq<(Direction, nat)>, key: (Direction, nat), c: nat)
    requires key !in keys
    ensures CellVacant(cell[key := c], keys) == CellVacant(cell, keys)
    ensures CellTotal(cell[key := c], keys) == CellTotal(cell, keys)
  {
    if keys != [] {
      CellFrame(cell, keys[..|keys| - 1], key, c);
    }
  }

  /** Filling a vacant key leaves one fewer vacant; lowering an entry
      lowers the total by as much. */
  lemma {:induction false} CellUpdate(cell: map<(Direction, nat), nat>, keys: seq<(Direction, nat)>, key: (Direction, nat), c: nat)
    requires key in keys && forall i, j | 0 <= i < j < |keys| :: keys[i] != keys[j]
    ensures key !in cell ==> CellVacant(cell[key := c], keys) + 1 == CellVacant(cell, keys)
    ensures key in cell ==> CellVacant(cell[key := c], keys) == CellVacant(cell, keys)
                            && CellTotal(cell[key := c], keys) + cell[key] == CellTotal(cell, keys) + c
  {
    var init := keys[..|keys| - 1];
    if keys[|keys| - 1] == key {
      assert key !in init;
      CellFrame(cell, init, key, c);
    } else {
      assert key in init;
      CellUpdate(cell, init, key, c);
    }
  }

  function RowVacant(row: seq<map<(Direction, nat), nat>>, keys: seq<(Direction, nat)>): nat {
    if row == [] then 0 else RowVacant(row[..|row| - 1], keys) + CellVacant(row[|row| - 1], keys)
  }

  function RowTotal(row: seq<map<(Direction, nat), nat>>, keys: seq<(Direction, nat)>): nat {
    if row == [] then 0 else RowTotal(row[..|row| - 1], keys) + CellTotal(row[|row| - 1], keys)
  }

  function GridVacant(cells: seq<seq<map<(Direction, nat), nat>>>, keys: seq<(Direction, nat)>): nat {
    if cells == [] then 0 else GridVacant(cells[..|cells| - 1], keys) + RowVacant(cells[|cells| - 1], keys)
  }

  function GridTotal(cells: seq<seq<map<(Direction, nat), nat>>>, keys: seq<(Direction, nat)>): nat {
    if cells == [] then 0 else GridTotal(cells[..|cells| - 1], keys) + RowTotal(cells[|cells| - 1], keys)
  }

  /** Replacing one cell of a row changes the row's measures by the
      cell's change. */
  lemma {:induction false} RowUpdate(row: seq<map<(Direction, nat), nat>>, keys: seq<(Direction, nat)>, x: nat, c: map<(Direction, nat), nat>)
    requires x < |row|
    ensures RowVacant(row[x := c], keys) + CellVacant(row[x], keys) == RowVacant(row, keys) + CellVacant(c, keys)
    ensures RowTotal(row[x := c], keys) + CellTotal(row[x], keys) == RowTotal(row, keys) + CellTotal(c, keys)
  {
    var n := |row| - 1;
    if x == n {
      assert row[x := c][..n] == row[..n];
    } else {
      assert row[x := c][..n] == row[..n][x := c];
      RowUpdate(row[..n], keys, x, c);
    }
  }

  lemma {:induction false} GridUpdate(cells: seq<seq<map<(Direction, nat), nat>>>, keys: seq<(Direction, nat)>, y: nat, row: seq<map<(Direction, nat), nat>>)
    requires y < |cells|
    ensures GridVacant(cells[y := row], keys) + RowVacant(cells[y], keys) == GridVacant(cells, keys) + RowVacant(row, keys)
    ensures GridTotal(cells[y := row], keys) + RowTotal(cells[y], keys) == GridTotal(cells, keys) + RowTotal(row, keys)
  {
    var n := |cells| - 1;
    if y == n {
      assert cells[y := row][..n] == cells[..n];
    } else {
      assert cells[y := row][..n] == cells[..n][y := row];
      GridUpdate(cells[..n], keys, y, row);
    }
  }

  /** `set` on a key the measure counts either fills a vacant entry or
      lowers the total, whenever it is used. */
  lemma SetLowers(cells: seq<seq<map<(Direction, nat), nat>>>, keys: seq<(Direction, nat)>, x: nat, y: nat,
                  key: (Direction, nat), cost: nat)
    requires y < |cells| && x < |cells[y]|
    requires key in keys && forall i, j | 0 <= i < j < |keys| :: keys[i] != keys[j]
    requires Improves(cells[y][x], key, cost)
    ensures Lowered(cells, Relax(cells, x, y, key, cost), keys)
  {
    var cell := cells[y][x];
    CellUpdate(cell, keys, key, cost);
    RowUpdate(cells[y], keys, x, cell[key := cost]);
    GridUpdate(cells, keys, y, cells[y][x := cell[key := cost]]);
  }

  // ---------------------------------------------------------------------
  // The weights

  /** The weight `parse` stores at a cell: the digit there, or 0 past the
      end of a shorter line. */
  function WeightOf(lines: seq<string>, x: nat, y: nat): nat
    requires y < |lines|
    requires forall x' | 0 <= x' < |lines[y]| :: IsDigit(lines[y][x'])
  {
    if x < |lines[y]| then DigitValue(lines[y][x]) else 0
  }

  /** Whether `parse` accepts the lines: there is a first line, every
      character is a decimal digit, and no line is longer than the first. */
  predicate Parses(lines: seq<string>) {
    |lines| > 0
    && forall y | 0 <= y < |lines| :: |lines[y]| <= |lines[0]| && forall x | 0 <= x < |lines[y]| :: IsDigit(lines[y][x])
  }

  /** The heat loss of every block, one digit each. */
  datatype Weights = Weights(height: nat, width: nat, inner: seq<seq<nat>>)
  {
    predicate Valid() {
      Shape(inner, height, width) && forall y, x | 0 <= y < height && 0 <= x < width :: inner[y][x] <= 9
    }

    /** `Weights::get`: the weight of a block, a single digit. */
    function Get(x: nat, y: nat): (w: nat)
      requires Valid() && x < width && y < height
      ensures w <= 9
    {
      inner[y][x]
    }

    /** The heat loss so far of a crucible once it has entered its block. */
    function Arrive(it: Item): nat
      requires Valid() && it.x < width && it.y < height
    {
      it.cost + Get(it.x, it.y)
    }

    /** `Weights::costs`: an error when the start lies outside the grid;
        otherwise the start costs nothing, its neighbours are queued, and
        each queued crucible adds the weight of its block and, when that
        improves what is recorded for its direction and run there, queues
        the crucibles that go on from it. The loop ends because every
        improvement fills an entry or lowers one, over finitely many
        entries. */
    method Costs(start: (nat, nat), minRun: nat, maxRun: nat) returns (r: Result<Costs>)
      requires Valid()
      ensures r.Err? <==> start.0 >= width || start.1 >= height
      ensures r.Ok? ==> fresh(r.value) && Shape(r.value.inner, height, width)
      ensures r.Ok? ==> (Up, 0) in r.value.inner[start.1][start.0] && r.value.inner[start.1][start.0][(Up, 0)] == 0
      ensures r.Ok? ==> r.value.Get(start.0, start.1) == Some(0)
      ensures r.Ok? ==> forall p: seq<Item> | Journey(this, start, minRun, maxRun, p) ::
                r.value.Get(p[|p| - 1].x, p[|p| - 1].y).Some? && r.value.Get(p[|p| - 1].x, p[|p| - 1].y).value <= Arrive(p[|p| - 1])
      ensures r.Ok? ==> forall y, x | 0 <= y < height && 0 <= x < width && (x, y) != start && r.value.Get(x, y).Some? ::
                exists p: seq<Item> | Journey(this, start, minRun, maxRun, p) ::
                  p[|p| - 1].x == x && p[|p| - 1].y == y && Arrive(p[|p| - 1]) == r.value.Get(x, y).value
    {
      var (x, y) := start;
      if x >= width || y >= height {
        return Err("dest outside of weight map");
      }
      var costs := new Costs.New(height, width);
      var _ := costs.Set(x, y, 0, Up, 0);
      var queue := StartItems(NeighborsOf(x, y, height, width));
      assert forall y', x' | 0 <= y' < height && 0 <= x' < width ::
               costs.inner[y'][x'] == if (x', y') == start then map[(Up, 0) := 0] else map[];
      StartClosed(this, costs.inner, queue, start, minRun, maxRun);
      Drain(this, costs, queue, start, minRun, maxRun);
      GetLeast(this, costs, start, minRun, maxRun);
      return Ok(costs);
    }
  }

  /** `Weights::parse`: as many rows as lines and as wide as the first
      line, all 0 to begin with; every character must be a decimal digit,
      and a line longer than the first runs past the end of its row, an
      index panic. */
  method ParseWeights(lines: seq<string>) returns (r: Result<Weights>)
    ensures r.Ok? <==> Parses(lines)
    ensures r.Ok? ==> r.value.Valid() && r.value.height == |lines| && r.value.width == |lines[0]|
    ensures r.Ok? ==> forall y, x | 0 <= y < |lines| && 0 <= x < |lines[0]| :: r.value.inner[y][x] == WeightOf(lines, x, y)
  {
    if |lines| == 0 {
      return Err("empty line");
    }
    var height := |lines|;
    var width := |lines[0]|;
    var inner: seq<seq<nat>> := seq(height, _ => seq(width, _ => 0));
    for y := 0 to height
      invariant Shape(inner, height, width)
      invariant forall y' | 0 <= y' < y :: |lines[y']| <= width && forall x | 0 <= x < |lines[y']| :: IsDigit(lines[y'][x])
      invariant forall y', x' | 0 <= y' < height && 0 <= x' < width ::
                  inner[y'][x'] == if y' < y then WeightOf(lines, x', y') else 0
    {
      var line := lines[y];
      var row := inner[y];
      for x := 0 to |line|
        invariant |row| == width && x <= width
        invariant forall x' | 0 <= x' < x :: IsDigit(line[x'])
        invariant forall x' | 0 <= x' < width :: row[x'] == if x' < x then DigitValue(line[x']) else 0
      {
        if !IsDigit(line[x]) {
          return Err("not a number");
        }
        if x >= width {
          return Err("index out of bounds");
        }
        row := row[x := DigitValue(line[x])];
      }
      inner := inner[y := row];
    }
    return Ok(Weights(height, width, inner));
  }

  /** A queued crucible is in the grid with a run the measure counts. */
  predicate Queued(q: seq<Item>, height: nat, width: nat, bound: nat) {
    forall j | 0 <= j < |q| :: q[j].x < width && q[j].y < height && 1 <= q[j].run <= bound
  }

  /** Whether `set` uses `cost` for `key` at a cell. */
  predicate Improves(cell: map<(Direction, nat), nat>, key: (Direction, nat), cost: nat) {
    key !in cell || cell[key] > cost
  }

  /** The costs after `set` for a crucible at (`x`, `y`). */
  function Relax(cells: seq<seq<map<(Direction, nat), nat>>>, x: nat, y: nat, key: (Direction, nat), cost: nat)
    : seq<seq<map<(Direction, nat), nat>>>
    requires y < |cells| && x < |cells[y]|
  {
    cells[y := cells[y][x := Stored(cells[y][x], key, cost)]]
  }

  /** The pair (vacant entries, total of entries) goes down. */
  predicate Lowered(before: seq<seq<map<(Direction, nat), nat>>>, after: seq<seq<map<(Direction, nat), nat>>>,
                    keys: seq<(Direction, nat)>) {
    GridVacant(after, keys) < GridVacant(before, keys)
    || (GridVacant(after, keys) == GridVacant(before, keys) && GridTotal(after, keys) < GridTotal(before, keys))
  }

  /** The loop in `costs`: relax queued crucibles until none is left.
      The entry of the start is never touched, since every queued
      crucible is at least one block into its run. */
  method Drain(weights: Weights, costs: Costs, queue: seq<Item>, start: (nat, nat), minRun: nat, maxRun: nat)
    requires weights.Valid() && Shape(costs.inner, weights.height, weights.width)
    requires start.0 < weights.width && start.1 < weights.height
    requires Queued(queue, weights.height, weights.width, if maxRun > 1 then maxRun else 1)
    requires (Up, 0) in costs.inner[start.1][start.0] && costs.inner[start.1][start.0][(Up, 0)] == 0
    requires Relaxing(weights, costs.inner, queue, start, minRun, maxRun)
    modifies costs
    ensures Shape(costs.inner, weights.height, weights.width)
    ensures NoWorse(old(costs.inner), costs.inner)
    ensures (Up, 0) in costs.inner[start.1][start.0] && costs.inner[start.1][start.0][(Up, 0)] == 0
    ensures Relaxing(weights, costs.inner, [], start, minRun, maxRun)
  {
    var (x, y) := start;
    var queue := queue;
    ghost var bound := if maxRun > 1 then maxRun else 1;
    ghost var keys := Keys(bound);
    while queue != []
      invariant Shape(costs.inner, weights.height, weights.width)
      invariant Queued(queue, weights.height, weights.width, bound)
      invariant NoWorse(old(costs.inner), costs.inner)
      invariant Relaxing(weights, costs.inner, queue, start, minRun, maxRun)
      decreases GridVacant(costs.inner, keys), GridTotal(costs.inner, keys), |queue|
    {
      ghost var before := costs.inner;
      ghost var it := queue[0];
      ghost var head := queue;
      ghost var extra := if Improves(before[it.y][it.x], (it.dir, it.run), weights.Arrive(it))
                         then NextItems(NeighborsOf(it.x, it.y, weights.height, weights.width), weights.Arrive(it), it.dir, it.run, minRun, maxRun)
                         else [];
      queue := CostStep(weights, costs, queue, minRun, maxRun, bound, keys);
      RelaxingStep(weights, before, head, extra, start, minRun, maxRun);
      RelaxNoWorse(before, it.x, it.y, (it.dir, it.run), weights.Arrive(it));
      NoWorseTrans(old(costs.inner), before, costs.inner);
    }
    assert start.1 < |old(costs.inner)| && start.0 < |old(costs.inner)[start.1]|;
  }

  /** The crucibles that leave the start: one per neighbour, at no cost,
      one block into their run. */
  method StartItems(neighbors: seq<(Direction, (nat, nat))>) returns (queue: seq<Item>)
    ensures |queue| == |neighbors|
    ensures forall j | 0 <= j < |queue| :: queue[j] == Item(neighbors[j].1.0, neighbors[j].1.1, 0, neighbors[j].0, 1)
  {
    queue := [];
    for k := 0 to |neighbors|
      invariant |queue| == k
      invariant forall j | 0 <= j < k :: queue[j] == Item(neighbors[j].1.0, neighbors[j].1.1, 0, neighbors[j].0, 1)
    {
      queue := queue + [Item(neighbors[k].1.0, neighbors[k].1.1, 0, neighbors[k].0, 1)];
    }
  }

  /** One turn of the loop in `costs`: take the oldest queued crucible,
      add its block's weight, and if `set` uses the cost, queue the
      crucibles that go on from it after the rest. */
  method CostStep(weights: Weights, costs: Costs, queue: seq<Item>, minRun: nat, maxRun: nat, ghost bound: nat,
                  ghost keys: seq<(Direction, nat)>) returns (queue': seq<Item>)
    requires weights.Valid() && queue != [] && Shape(costs.inner, weights.height, weights.width)
    requires bound >= 1 && bound >= maxRun && KeySpace(keys, bound)
    requires Queued(queue, weights.height, weights.width, bound)
    modifies costs
    ensures Shape(costs.inner, weights.height, weights.width)
    ensures Queued(queue', weights.height, weights.width, bound)
    ensures costs.inner == Relax(old(costs.inner), queue[0].x, queue[0].y, (queue[0].dir, queue[0].run), weights.Arrive(queue[0]))
    ensures Improves(old(costs.inner)[queue[0].y][queue[0].x], (queue[0].dir, queue[0].run), weights.Arrive(queue[0])) ==>
              Lowered(old(costs.inner), costs.inner, keys)
              && queue' == queue[1..] + NextItems(NeighborsOf(queue[0].x, queue[0].y, weights.height, weights.width),
                                                  weights.Arrive(queue[0]), queue[0].dir, queue[0].run, minRun, maxRun)
    ensures !Improves(old(costs.inner)[queue[0].y][queue[0].x], (queue[0].dir, queue[0].run), weights.Arrive(queue[0])) ==>
              costs.inner == old(costs.inner) && queue' == queue[1..]
    ensures queue' == queue[1..] + if Improves(old(costs.inner)[queue[0].y][queue[0].x], (queue[0].dir, queue[0].run), weights.Arrive(queue[0]))
                                   then NextItems(NeighborsOf(queue[0].x, queue[0].y, weights.height, weights.width),
                                                  weights.Arrive(queue[0]), queue[0].dir, queue[0].run, minRun, maxRun)
                                   else []
  {
    var it := queue[0];
    queue' := queue[1..];
    var cost := it.cost + weights.Get(it.x, it.y);
    ghost var before := costs.inner;
    var used := costs.Set(it.x, it.y, cost, it.dir, it.run);
    assert costs.inner == Relax(before, it.x, it.y, (it.dir, it.run), cost);
    QueuedRest(queue, weights.height, weights.width, bound);
    if used {
      SetLowers(before, keys, it.x, it.y, (it.dir, it.run), cost);
      var neighbors := NeighborsOf(it.x, it.y, weights.height, weights.width);
      QueuedNext(neighbors, cost, it, minRun, maxRun, weights.height, weights.width, bound);
      ghost var rest := queue';
      queue' := Continue(queue', neighbors, cost, it.dir, it.run, minRun, maxRun);
      QueuedConcat(rest, NextItems(neighbors, cost, it.dir, it.run, minRun, maxRun), weights.height, weights.width, bound);
    } else {
      assert queue' == queue[1..] + [];
      assert Stored(before[it.y][it.x], (it.dir, it.run), cost) == before[it.y][it.x];
      assert before[it.y][it.x := before[it.y][it.x]] == before[it.y];
    }
  }

  /** The pushes after a cell improved: `queue` followed by the crucibles
      that go on from it. */
  method Continue(queue: seq<Item>, neighbors: seq<(Direction, (nat, nat))>, cost: nat, dir: Direction, run: nat,
                  minRun: nat, maxRun: nat) returns (queue': seq<Item>)
    ensures queue' == queue + NextItems(neighbors, cost, dir, run, minRun, maxRun)
  {
    queue' := queue;
    for k := 0 to |neighbors|
      invariant queue' == queue + NextItems(neighbors[..k], cost, dir, run, minRun, maxRun)
    {
      assert neighbors[..k + 1][..k] == neighbors[..k];
      var (nextDir, neighbor) := neighbors[k];
      if nextDir == dir {
        var nextRun := run + 1;
        if nextRun <= maxRun {
          queue' := queue' + [Item(neighbor.0, neighbor.1, cost, nextDir, run + 1)];
        }
      } else if nextDir != Reverse(dir) {
        if run >= minRun {
          queue' := queue' + [Item(neighbor.0, neighbor.1, cost, nextDir, 1)];
        }
      }
    }
    assert neighbors[..|neighbors|] == neighbors;
  }

  predicate KeySpace(keys: seq<(Direction, nat)>, bound: nat) {
    (forall d, r: nat | r <= bound :: (d, r) in keys) && forall i, j | 0 <= i < j < |keys| :: keys[i] != keys[j]
  }

  lemma QueuedRest(q: seq<Item>, height: nat, width: nat, bound: nat)
    requires q != [] && Queued(q, height, width, bound)
    ensures Queued(q[1..], height, width, bound)
  {
    assert forall j | 0 <= j < |q| - 1 :: q[1..][j] == q[j + 1];
  }

  lemma QueuedConcat(a: seq<Item>, b: seq<Item>, height: nat, width: nat, bound: nat)
    requires Queued(a, height, width, bound) && Queued(b, height, width, bound)
    ensures Queued(a + b, height, width, bound)
  {
    assert forall j | |a| <= j < |a + b| :: (a + b)[j] == b[j - |a|];
  }

  /** No entry of the costs has gone away or gone up. */
  ghost predicate NoWorse(before: seq<seq<map<(Direction, nat), nat>>>, after: seq<seq<map<(Direction, nat), nat>>>) {
    |after| == |before|
    && forall y | 0 <= y < |before| ::
         |after[y]| == |before[y]|
         && forall x, k | 0 <= x < |before[y]| && k in before[y][x] :: k in after[y][x] && after[y][x][k] <= before[y][x][k]
  }

  /** `set` never makes a cost worse. */
  lemma RelaxNoWorse(cells: seq<seq<map<(Direction, nat), nat>>>, x: nat, y: nat, key: (Direction, nat), cost: nat)
    requires y < |cells| && x < |cells[y]|
    ensures NoWorse(cells, Relax(cells, x, y, key, cost))
  {
  }

  lemma NoWorseTrans(a: seq<seq<map<(Direction, nat), nat>>>, b: seq<seq<map<(Direction, nat), nat>>>,
                     c: seq<seq<map<(Direction, nat), nat>>>)
    requires NoWorse(a, b) && NoWorse(b, c)
    ensures NoWorse(a, c)
  {
  }

  lemma QueuedNext(neighbors: seq<(Direction, (nat, nat))>, cost: nat, it: Item, minRun: nat, maxRun: nat,
                   height: nat, width: nat, bound: nat)
    requires height >= 1 && width >= 1 && it.x < width && it.y < height && maxRun <= bound && bound >= 1
    requires neighbors == NeighborsOf(it.x, it.y, height, width)
    ensures Queued(NextItems(neighbors, cost, it.dir, it.run, minRun, maxRun), height, width, bound)
  {
    MoveRules(neighbors, cost, it.dir, it.run, minRun, maxRun);
    var next := NextItems(neighbors, cost, it.dir, it.run, minRun, maxRun);
    forall j | 0 <= j < |next|
      ensures next[j].x < width && next[j].y < height && 1 <= next[j].run <= bound
    {
      assert next[j] in next;
      assert (next[j].dir, (next[j].x, next[j].y)) in neighbors;
    }
  }

  // ---------------------------------------------------------------------
  // What the costs mean

  /** A crucible's journey from the start: it leaves for a neighbour of
      the start at no cost, one block into its run, and each later
      crucible goes on from the one before by the move rules, carrying the
      heat loss so far. The journey's heat loss is what its last crucible
      has once it enters its block. */
  ghost predicate Journey(weights: Weights, start: (nat, nat), minRun: nat, maxRun: nat, p: seq<Item>)
    requires weights.Valid()
  {
    |p| > 0 && start.0 < weights.width && start.1 < weights.height
    && (forall i | 0 <= i < |p| :: p[i].x < weights.width && p[i].y < weights.height)
    && (p[0].dir, (p[0].x, p[0].y)) in NeighborsOf(start.0, start.1, weights.height, weights.width)
    && p[0].cost == 0 && p[0].run == 1
    && forall i | 0 < i < |p| :: Moves(weights, minRun, maxRun, p[i - 1], p[i])
  }

  /** The crucible `b` goes on from `a` by the move rules, carrying the
      heat loss `a` has once it has entered its block. */
  ghost predicate Moves(weights: Weights, minRun: nat, maxRun: nat, a: Item, b: Item)
    requires weights.Valid()
  {
    a.x < weights.width && a.y < weights.height
    && b in NextItems(NeighborsOf(a.x, a.y, weights.height, weights.width), weights.Arrive(a), a.dir, a.run, minRun, maxRun)
  }

  /** Some journey ends with the crucible `it`. */
  ghost predicate Reached(weights: Weights, start: (nat, nat), minRun: nat, maxRun: nat, it: Item)
    requires weights.Valid()
  {
    exists p: seq<Item> | Journey(weights, start, minRun, maxRun, p) :: p[|p| - 1] == it
  }

  /** Some journey ends at (`x`, `y`) moving as `k` says with heat loss
      exactly `v`. */
  ghost predicate Achieved(weights: Weights, start: (nat, nat), minRun: nat, maxRun: nat, x: nat, y: nat, k: (Direction, nat), v: nat)
    requires weights.Valid()
  {
    exists p: seq<Item> | Journey(weights, start, minRun, maxRun, p) ::
      p[|p| - 1].x == x && p[|p| - 1].y == y && p[|p| - 1].dir == k.0 && p[|p| - 1].run == k.1 && weights.Arrive(p[|p| - 1]) == v
  }

  /** The crucible `it` is taken care of: its block has a cost recorded
      for its direction and run that is no more than what `it` brings, or
      a crucible in the same state and no dearer is still queued. */
  ghost predicate Covered(weights: Weights, cells: seq<seq<map<(Direction, nat), nat>>>, queue: seq<Item>, it: Item)
    requires weights.Valid() && Shape(cells, weights.height, weights.width)
  {
    it.x < weights.width && it.y < weights.height
    && (((it.dir, it.run) in cells[it.y][it.x] && cells[it.y][it.x][(it.dir, it.run)] <= weights.Arrive(it))
        || exists j | 0 <= j < |queue| ::
             queue[j].x == it.x && queue[j].y == it.y && queue[j].dir == it.dir && queue[j].run == it.run && queue[j].cost <= it.cost)
  }

  /** Every crucible that can go on from the entry for `k` at (`x`, `y`)
      is taken care of. */
  ghost predicate Onward(weights: Weights, cells: seq<seq<map<(Direction, nat), nat>>>, queue: seq<Item>,
                         x: nat, y: nat, k: (Direction, nat), minRun: nat, maxRun: nat)
    requires weights.Valid() && Shape(cells, weights.height, weights.width)
    requires x < weights.width && y < weights.height && k in cells[y][x]
  {
    forall it | it in NextItems(NeighborsOf(x, y, weights.height, weights.width), cells[y][x][k], k.0, k.1, minRun, maxRun) ::
      Covered(weights, cells, queue, it)
  }

  /** The invariant of the search that makes its costs least: the
      crucibles leaving the start, and every crucible that can go on from
      an entry at least one block into its run, are taken care of. */
  ghost predicate Closed(weights: Weights, cells: seq<seq<map<(Direction, nat), nat>>>, queue: seq<Item>,
                         start: (nat, nat), minRun: nat, maxRun: nat)
    requires weights.Valid() && Shape(cells, weights.height, weights.width)
    requires start.0 < weights.width && start.1 < weights.height
  {
    (forall n | n in NeighborsOf(start.0, start.1, weights.height, weights.width) ::
       Covered(weights, cells, queue, Item(n.1.0, n.1.1, 0, n.0, 1)))
    && forall y, x, k | 0 <= y < weights.height && 0 <= x < weights.width && k in cells[y][x] && k.1 >= 1 ::
         Onward(weights, cells, queue, x, y, k, minRun, maxRun)
  }

  /** The invariant of the search that makes its costs real: every queued
      crucible ends a journey, and every entry is the start's 0 or the
      heat loss of a journey in its state. */
  ghost predicate Sound(weights: Weights, cells: seq<seq<map<(Direction, nat), nat>>>, queue: seq<Item>,
                        start: (nat, nat), minRun: nat, maxRun: nat)
    requires weights.Valid() && Shape(cells, weights.height, weights.width)
  {
    AllReached(weights, start, minRun, maxRun, queue) && Real(weights, cells, start, minRun, maxRun)
  }

  /** Every queued crucible ends a journey. */
  ghost predicate AllReached(weights: Weights, start: (nat, nat), minRun: nat, maxRun: nat, queue: seq<Item>)
    requires weights.Valid()
  {
    forall j | 0 <= j < |queue| :: Reached(weights, start, minRun, maxRun, queue[j])
  }

  /** Every entry is the start's 0 or the heat loss of a journey in its
      state. */
  ghost predicate Real(weights: Weights, cells: seq<seq<map<(Direction, nat), nat>>>, start: (nat, nat), minRun: nat, maxRun: nat)
    requires weights.Valid() && Shape(cells, weights.height, weights.width)
  {
    forall y, x, k | 0 <= y < weights.height && 0 <= x < weights.width && k in cells[y][x] ::
      (k.1 >= 1 && Achieved(weights, start, minRun, maxRun, x, y, k, cells[y][x][k]))
      || ((x, y) == start && k == (Up, 0) && cells[y][x][k] == 0)
  }

  /** Once the search has settled, `get` answers the least heat loss of
      any journey to a block, and 0 at the start. */
  lemma GetLeast(weights: Weights, costs: Costs, start: (nat, nat), minRun: nat, maxRun: nat)
    requires weights.Valid() && Shape(costs.inner, weights.height, weights.width)
    requires start.0 < weights.width && start.1 < weights.height
    requires (Up, 0) in costs.inner[start.1][start.0] && costs.inner[start.1][start.0][(Up, 0)] == 0
    requires Relaxing(weights, costs.inner, [], start, minRun, maxRun)
    ensures costs.Get(start.0, start.1) == Some(0)
    ensures forall p: seq<Item> | Journey(weights, start, minRun, maxRun, p) ::
              costs.Get(p[|p| - 1].x, p[|p| - 1].y).Some?
              && costs.Get(p[|p| - 1].x, p[|p| - 1].y).value <= weights.Arrive(p[|p| - 1])
    ensures forall y, x | 0 <= y < weights.height && 0 <= x < weights.width && (x, y) != start && costs.Get(x, y).Some? ::
              exists p: seq<Item> | Journey(weights, start, minRun, maxRun, p) ::
                p[|p| - 1].x == x && p[|p| - 1].y == y && weights.Arrive(p[|p| - 1]) == costs.Get(x, y).value
  {
    var best := costs.Get(start.0, start.1);
    assert best.Some? && best.value <= 0;
    LeastCosts(weights, costs.inner, start, minRun, maxRun);
  }

  /** The invariants of the search loop. */
  ghost predicate Relaxing(weights: Weights, cells: seq<seq<map<(Direction, nat), nat>>>, queue: seq<Item>,
                           start: (nat, nat), minRun: nat, maxRun: nat)
    requires weights.Valid() && Shape(cells, weights.height, weights.width)
    requires start.0 < weights.width && start.1 < weights.height
  {
    Closed(weights, cells, queue, start, minRun, maxRun) && Sound(weights, cells, queue, start, minRun, maxRun)
  }

  /** One turn of the loop keeps the invariants of the search. */
  lemma RelaxingStep(weights: Weights, cells: seq<seq<map<(Direction, nat), nat>>>, queue: seq<Item>, extra: seq<Item>,
                     start: (nat, nat), minRun: nat, maxRun: nat)
    requires weights.Valid() && Shape(cells, weights.height, weights.width)
    requires start.0 < weights.width && start.1 < weights.height
    requires queue != [] && queue[0].x < weights.width && queue[0].y < weights.height && queue[0].run >= 1
    requires Relaxing(weights, cells, queue, start, minRun, maxRun)
    requires extra == if Improves(cells[queue[0].y][queue[0].x], (queue[0].dir, queue[0].run), weights.Arrive(queue[0]))
                      then NextItems(NeighborsOf(queue[0].x, queue[0].y, weights.height, weights.width), weights.Arrive(queue[0]),
                                     queue[0].dir, queue[0].run, minRun, maxRun)
                      else []
    ensures Shape(Relax(cells, queue[0].x, queue[0].y, (queue[0].dir, queue[0].run), weights.Arrive(queue[0])), weights.height, weights.width)
    ensures Relaxing(weights, Relax(cells, queue[0].x, queue[0].y, (queue[0].dir, queue[0].run), weights.Arrive(queue[0])),
                     queue[1..] + extra, start, minRun, maxRun)
  {
    ClosedStep(weights, cells, queue, extra, start, minRun, maxRun);
    SoundStep(weights, cells, queue, extra, start, minRun, maxRun);
  }

  /** The moves from a block do not depend on the heat loss carried. */
  lemma {:induction false} NextItemsCost(neighbors: seq<(Direction, (nat, nat))>, c: nat, c': nat, dir: Direction, run: nat,
                                         minRun: nat, maxRun: nat, it: Item)
    requires it in NextItems(neighbors, c, dir, run, minRun, maxRun)
    ensures it.(cost := c') in NextItems(neighbors, c', dir, run, minRun, maxRun)
  {
    if neighbors != [] {
      var init := neighbors[..|neighbors| - 1];
      if it in NextItems(init, c, dir, run, minRun, maxRun) {
        NextItemsCost(init, c, c', dir, run, minRun, maxRun, it);
      }
    }
  }

  /** A journey goes on by any move the rules allow from its end. */
  lemma JourneyExtend(weights: Weights, start: (nat, nat), minRun: nat, maxRun: nat, p: seq<Item>, it: Item)
    requires weights.Valid() && Journey(weights, start, minRun, maxRun, p)
    requires Moves(weights, minRun, maxRun, p[|p| - 1], it)
    ensures Journey(weights, start, minRun, maxRun, p + [it])
    ensures (p + [it])[|p|] == it
  {
    var last := p[|p| - 1];
    MovesInside(weights, minRun, maxRun, last, it);
    var q := p + [it];
    assert forall i | 0 <= i < |p| :: q[i] == p[i];
    forall i | 0 < i < |q|
      ensures Moves(weights, minRun, maxRun, q[i - 1], q[i])
    {
      if i < |p| {
        assert Moves(weights, minRun, maxRun, p[i - 1], p[i]);
      }
    }
  }

  /** A move stays in the grid, carries the heat loss and is at least one
      block into its run. */
  lemma MovesInside(weights: Weights, minRun: nat, maxRun: nat, a: Item, b: Item)
    requires weights.Valid() && Moves(weights, minRun, maxRun, a, b)
    ensures b.x < weights.width && b.y < weights.height && b.cost == weights.Arrive(a) && b.run >= 1
  {
    var neighbors := NeighborsOf(a.x, a.y, weights.height, weights.width);
    MoveRules(neighbors, weights.Arrive(a), a.dir, a.run, minRun, maxRun);
    var k :| 0 <= k < |neighbors| && neighbors[k] == (b.dir, (b.x, b.y));
  }

  /** `Closed` at one entry. */
  lemma OnwardAt(weights: Weights, cells: seq<seq<map<(Direction, nat), nat>>>, queue: seq<Item>,
                 start: (nat, nat), minRun: nat, maxRun: nat, x: nat, y: nat, k: (Direction, nat))
    requires weights.Valid() && Shape(cells, weights.height, weights.width)
    requires start.0 < weights.width && start.1 < weights.height
    requires Closed(weights, cells, queue, start, minRun, maxRun)
    requires x < weights.width && y < weights.height && k in cells[y][x] && k.1 >= 1
    ensures Onward(weights, cells, queue, x, y, k, minRun, maxRun)
  {
  }

  /** One turn of the loop keeps a crucible taken care of: a recorded
      cost only goes down, and the crucible taken off the queue leaves a
      cost no more than its own at its state. */
  lemma CoveredStep(weights: Weights, cells: seq<seq<map<(Direction, nat), nat>>>, queue: seq<Item>, extra: seq<Item>, it: Item)
    requires weights.Valid() && Shape(cells, weights.height, weights.width)
    requires queue != [] && queue[0].x < weights.width && queue[0].y < weights.height
    requires Covered(weights, cells, queue, it)
    ensures Shape(Relax(cells, queue[0].x, queue[0].y, (queue[0].dir, queue[0].run), weights.Arrive(queue[0])), weights.height, weights.width)
    ensures Covered(weights, Relax(cells, queue[0].x, queue[0].y, (queue[0].dir, queue[0].run), weights.Arrive(queue[0])),
                    queue[1..] + extra, it)
  {
    var q := queue[0];
    var cells' := Relax(cells, q.x, q.y, (q.dir, q.run), weights.Arrive(q));
    var queue' := queue[1..] + extra;
    RelaxNoWorse(cells, q.x, q.y, (q.dir, q.run), weights.Arrive(q));
    if !((it.dir, it.run) in cells[it.y][it.x] && cells[it.y][it.x][(it.dir, it.run)] <= weights.Arrive(it)) {
      var j :| 0 <= j < |queue| && queue[j].x == it.x && queue[j].y == it.y && queue[j].dir == it.dir && queue[j].run == it.run
               && queue[j].cost <= it.cost;
      if j == 0 {
        assert cells'[q.y][q.x] == Stored(cells[q.y][q.x], (q.dir, q.run), weights.Arrive(q));
      } else {
        assert queue'[j - 1] == queue[j];
      }
    }
  }

  /** One turn of the loop keeps `Closed`: the entry it lowers has the
      moves from it queued, and every other crucible stays taken care
      of. */
  lemma ClosedStep(weights: Weights, cells: seq<seq<map<(Direction, nat), nat>>>, queue: seq<Item>, extra: seq<Item>,
                   start: (nat, nat), minRun: nat, maxRun: nat)
    requires weights.Valid() && Shape(cells, weights.height, weights.width)
    requires start.0 < weights.width && start.1 < weights.height
    requires queue != [] && queue[0].x < weights.width && queue[0].y < weights.height && queue[0].run >= 1
    requires Closed(weights, cells, queue, start, minRun, maxRun)
    requires Improves(cells[queue[0].y][queue[0].x], (queue[0].dir, queue[0].run), weights.Arrive(queue[0])) ==>
               extra == NextItems(NeighborsOf(queue[0].x, queue[0].y, weights.height, weights.width), weights.Arrive(queue[0]),
                                  queue[0].dir, queue[0].run, minRun, maxRun)
    ensures Shape(Relax(cells, queue[0].x, queue[0].y, (queue[0].dir, queue[0].run), weights.Arrive(queue[0])), weights.height, weights.width)
    ensures Closed(weights, Relax(cells, queue[0].x, queue[0].y, (queue[0].dir, queue[0].run), weights.Arrive(queue[0])),
                   queue[1..] + extra, start, minRun, maxRun)
  {
    var q := queue[0];
    var key := (q.dir, q.run);
    var a := weights.Arrive(q);
    var cells' := Relax(cells, q.x, q.y, key, a);
    var queue' := queue[1..] + extra;
    assert Shape(cells', weights.height, weights.width);
    forall n | n in NeighborsOf(start.0, start.1, weights.height, weights.width)
      ensures Covered(weights, cells', queue', Item(n.1.0, n.1.1, 0, n.0, 1))
    {
      CoveredStep(weights, cells, queue, extra, Item(n.1.0, n.1.1, 0, n.0, 1));
    }
    forall y, x, k: (Direction, nat) | 0 <= y < weights.height && 0 <= x < weights.width && k in cells'[y][x] && k.1 >= 1
      ensures Onward(weights, cells', queue', x, y, k, minRun, maxRun)
    {
      if x == q.x && y == q.y && k == key && Improves(cells[y][x], key, a) {
        OnwardQueued(weights, cells, queue, extra, minRun, maxRun);
      } else {
        assert k in cells[y][x] && cells'[y][x][k] == cells[y][x][k];
        OnwardKept(weights, cells, queue, extra, x, y, k, minRun, maxRun);
      }
    }
  }

  /** The entry the loop lowers has every move from it queued. */
  lemma OnwardQueued(weights: Weights, cells: seq<seq<map<(Direction, nat), nat>>>, queue: seq<Item>, extra: seq<Item>,
                     minRun: nat, maxRun: nat)
    requires weights.Valid() && Shape(cells, weights.height, weights.width)
    requires queue != [] && queue[0].x < weights.width && queue[0].y < weights.height
    requires extra == NextItems(NeighborsOf(queue[0].x, queue[0].y, weights.height, weights.width), weights.Arrive(queue[0]),
                                queue[0].dir, queue[0].run, minRun, maxRun)
    requires Improves(cells[queue[0].y][queue[0].x], (queue[0].dir, queue[0].run), weights.Arrive(queue[0]))
    ensures Shape(Relax(cells, queue[0].x, queue[0].y, (queue[0].dir, queue[0].run), weights.Arrive(queue[0])), weights.height, weights.width)
    ensures Onward(weights, Relax(cells, queue[0].x, queue[0].y, (queue[0].dir, queue[0].run), weights.Arrive(queue[0])),
                   queue[1..] + extra, queue[0].x, queue[0].y, (queue[0].dir, queue[0].run), minRun, maxRun)
  {
    var q := queue[0];
    var a := weights.Arrive(q);
    var cells' := Relax(cells, q.x, q.y, (q.dir, q.run), a);
    var queue' := queue[1..] + extra;
    assert Shape(cells', weights.height, weights.width);
    assert cells'[q.y][q.x][(q.dir, q.run)] == a;
    var bound := if maxRun > 1 then maxRun else 1;
    QueuedNext(NeighborsOf(q.x, q.y, weights.height, weights.width), a, q, minRun, maxRun, weights.height, weights.width, bound);
    forall it | it in extra
      ensures Covered(weights, cells', queue', it)
    {
      var i :| 0 <= i < |extra| && extra[i] == it;
      assert queue'[|queue| - 1 + i] == it;
    }
  }

  /** An entry the loop leaves alone keeps every move from it taken care
      of. */
  lemma OnwardKept(weights: Weights, cells: seq<seq<map<(Direction, nat), nat>>>, queue: seq<Item>, extra: seq<Item>,
                   x: nat, y: nat, k: (Direction, nat), minRun: nat, maxRun: nat)
    requires weights.Valid() && Shape(cells, weights.height, weights.width)
    requires queue != [] && queue[0].x < weights.width && queue[0].y < weights.height
    requires x < weights.width && y < weights.height && k in cells[y][x]
    requires Onward(weights, cells, queue, x, y, k, minRun, maxRun)
    ensures Shape(Relax(cells, queue[0].x, queue[0].y, (queue[0].dir, queue[0].run), weights.Arrive(queue[0])), weights.height, weights.width)
    ensures k in Relax(cells, queue[0].x, queue[0].y, (queue[0].dir, queue[0].run), weights.Arrive(queue[0]))[y][x]
    ensures Relax(cells, queue[0].x, queue[0].y, (queue[0].dir, queue[0].run), weights.Arrive(queue[0]))[y][x][k] == cells[y][x][k] ==>
              Onward(weights, Relax(cells, queue[0].x, queue[0].y, (queue[0].dir, queue[0].run), weights.Arrive(queue[0])),
                     queue[1..] + extra, x, y, k, minRun, maxRun)
  {
    var q := queue[0];
    var cells' := Relax(cells, q.x, q.y, (q.dir, q.run), weights.Arrive(q));
    RelaxNoWorse(cells, q.x, q.y, (q.dir, q.run), weights.Arrive(q));
    if cells'[y][x][k] == cells[y][x][k] {
      forall it | it in NextItems(NeighborsOf(x, y, weights.height, weights.width), cells[y][x][k], k.0, k.1, minRun, maxRun)
        ensures Covered(weights, cells', queue[1..] + extra, it)
      {
        CoveredStep(weights, cells, queue, extra, it);
      }
    }
  }

  /** One turn of the loop keeps `Sound`: the crucible taken off the
      queue ends a journey, and so do the moves from it. */
  lemma SoundStep(weights: Weights, cells: seq<seq<map<(Direction, nat), nat>>>, queue: seq<Item>, extra: seq<Item>,
                  start: (nat, nat), minRun: nat, maxRun: nat)
    requires weights.Valid() && Shape(cells, weights.height, weights.width)
    requires queue != [] && queue[0].x < weights.width && queue[0].y < weights.height && queue[0].run >= 1
    requires Sound(weights, cells, queue, start, minRun, maxRun)
    requires extra == [] || extra == NextItems(NeighborsOf(queue[0].x, queue[0].y, weights.height, weights.width),
                                               weights.Arrive(queue[0]), queue[0].dir, queue[0].run, minRun, maxRun)
    ensures Shape(Relax(cells, queue[0].x, queue[0].y, (queue[0].dir, queue[0].run), weights.Arrive(queue[0])), weights.height, weights.width)
    ensures Sound(weights, Relax(cells, queue[0].x, queue[0].y, (queue[0].dir, queue[0].run), weights.Arrive(queue[0])),
                  queue[1..] + extra, start, minRun, maxRun)
  {
    var q := queue[0];
    var key := (q.dir, q.run);
    var a := weights.Arrive(q);
    var cells' := Relax(cells, q.x, q.y, key, a);
    var queue' := queue[1..] + extra;
    assert Shape(cells', weights.height, weights.width);
    assert Reached(weights, start, minRun, maxRun, q);
    var p: seq<Item> :| Journey(weights, start, minRun, maxRun, p) && p[|p| - 1] == q;
    QueueReached(weights, start, minRun, maxRun, queue, extra, p);
    EntriesAchieved(weights, cells, start, minRun, maxRun, q, p);
  }

  /** The queue after one turn holds crucibles that end journeys: the
      ones left, and the moves from the crucible taken off, which extend
      its journey. */
  lemma QueueReached(weights: Weights, start: (nat, nat), minRun: nat, maxRun: nat, queue: seq<Item>, extra: seq<Item>, p: seq<Item>)
    requires weights.Valid() && queue != [] && queue[0].x < weights.width && queue[0].y < weights.height
    requires AllReached(weights, start, minRun, maxRun, queue)
    requires Journey(weights, start, minRun, maxRun, p) && p[|p| - 1] == queue[0]
    requires extra == [] || extra == NextItems(NeighborsOf(queue[0].x, queue[0].y, weights.height, weights.width),
                                               weights.Arrive(queue[0]), queue[0].dir, queue[0].run, minRun, maxRun)
    ensures AllReached(weights, start, minRun, maxRun, queue[1..] + extra)
  {
    var queue' := queue[1..] + extra;
    forall j | 0 <= j < |queue'|
      ensures Reached(weights, start, minRun, maxRun, queue'[j])
    {
      if j < |queue| - 1 {
        assert queue'[j] == queue[j + 1];
      } else {
        var i := j - (|queue| - 1);
        assert queue'[j] == extra[i];
        assert extra[i] in extra;
        assert Moves(weights, minRun, maxRun, queue[0], extra[i]);
        JourneyExtend(weights, start, minRun, maxRun, p, extra[i]);
        var p' := p + [extra[i]];
        assert Journey(weights, start, minRun, maxRun, p') && p'[|p'| - 1] == queue'[j];
      }
    }
  }

  /** After one turn every entry is still the start's 0 or the heat loss
      of a journey: the entry lowered is that of the journey ending with
      the crucible taken off. */
  lemma EntriesAchieved(weights: Weights, cells: seq<seq<map<(Direction, nat), nat>>>, start: (nat, nat), minRun: nat, maxRun: nat,
                        q: Item, p: seq<Item>)
    requires weights.Valid() && Shape(cells, weights.height, weights.width)
    requires q.x < weights.width && q.y < weights.height && q.run >= 1
    requires Real(weights, cells, start, minRun, maxRun)
    requires Journey(weights, start, minRun, maxRun, p) && p[|p| - 1] == q
    ensures Shape(Relax(cells, q.x, q.y, (q.dir, q.run), weights.Arrive(q)), weights.height, weights.width)
    ensures Real(weights, Relax(cells, q.x, q.y, (q.dir, q.run), weights.Arrive(q)), start, minRun, maxRun)
  {
    var key := (q.dir, q.run);
    var a := weights.Arrive(q);
    var cells' := Relax(cells, q.x, q.y, key, a);
    assert Shape(cells', weights.height, weights.width);
    forall y, x, k: (Direction, nat) | 0 <= y < weights.height && 0 <= x < weights.width && k in cells'[y][x]
      ensures (k.1 >= 1 && Achieved(weights, start, minRun, maxRun, x, y, k, cells'[y][x][k]))
              || ((x, y) == start && k == (Up, 0) && cells'[y][x][k] == 0)
    {
      if x == q.x && y == q.y && k == key && Improves(cells[y][x], key, a) {
        assert cells'[y][x][k] == a;
      } else {
        assert k in cells[y][x] && cells'[y][x][k] == cells[y][x][k];
      }
    }
  }

  /** The crucible `it` brings no less than the cost recorded for its
      state. */
  ghost predicate Bounded(weights: Weights, cells: seq<seq<map<(Direction, nat), nat>>>, it: Item)
    requires weights.Valid() && Shape(cells, weights.height, weights.width)
  {
    it.x < weights.width && it.y < weights.height && it.run >= 1
    && (it.dir, it.run) in cells[it.y][it.x] && cells[it.y][it.x][(it.dir, it.run)] <= weights.Arrive(it)
  }

  /** Once the queue is empty, no journey ends in a state for less than
      the cost recorded for it. */
  lemma JourneyBound(weights: Weights, cells: seq<seq<map<(Direction, nat), nat>>>, start: (nat, nat),
                     minRun: nat, maxRun: nat, p: seq<Item>)
    requires weights.Valid() && Shape(cells, weights.height, weights.width)
    requires start.0 < weights.width && start.1 < weights.height
    requires Closed(weights, cells, [], start, minRun, maxRun)
    requires Journey(weights, start, minRun, maxRun, p)
    ensures Bounded(weights, cells, p[|p| - 1])
  {
    var n := (p[0].dir, (p[0].x, p[0].y));
    assert Item(n.1.0, n.1.1, 0, n.0, 1) == p[0];
    assert Covered(weights, cells, [], p[0]);
    for i := 0 to |p| - 1
      invariant Bounded(weights, cells, p[i])
    {
      assert Moves(weights, minRun, maxRun, p[i], p[i + 1]);
      OnwardAt(weights, cells, [], start, minRun, maxRun, p[i].x, p[i].y, (p[i].dir, p[i].run));
      BoundMove(weights, cells, minRun, maxRun, p[i], p[i + 1]);
    }
  }

  /** A move from a crucible that costs no less than is recorded for it
      also costs no less than is recorded for the move. */
  lemma BoundMove(weights: Weights, cells: seq<seq<map<(Direction, nat), nat>>>,
                  minRun: nat, maxRun: nat, prev: Item, it: Item)
    requires weights.Valid() && Shape(cells, weights.height, weights.width)
    requires Bounded(weights, cells, prev)
    requires Onward(weights, cells, [], prev.x, prev.y, (prev.dir, prev.run), minRun, maxRun)
    requires Moves(weights, minRun, maxRun, prev, it)
    ensures Bounded(weights, cells, it)
  {
    MovesInside(weights, minRun, maxRun, prev, it);
    var k := (prev.dir, prev.run);
    var v := cells[prev.y][prev.x][k];
    NextItemsCost(NeighborsOf(prev.x, prev.y, weights.height, weights.width), weights.Arrive(prev), v, prev.dir, prev.run,
                  minRun, maxRun, it);
    assert Covered(weights, cells, [], it.(cost := v));
  }

  /** When the search is over, the least cost recorded at a block is the
      least heat loss of the journeys that end there: no journey costs
      less, and away from the start one costs exactly that. */
  lemma LeastCosts(weights: Weights, cells: seq<seq<map<(Direction, nat), nat>>>, start: (nat, nat), minRun: nat, maxRun: nat)
    requires weights.Valid() && Shape(cells, weights.height, weights.width)
    requires start.0 < weights.width && start.1 < weights.height
    requires Relaxing(weights, cells, [], start, minRun, maxRun)
    ensures forall p: seq<Item> | Journey(weights, start, minRun, maxRun, p) ::
              MinValue(cells[p[|p| - 1].y][p[|p| - 1].x].Values).Some?
              && MinValue(cells[p[|p| - 1].y][p[|p| - 1].x].Values).value <= weights.Arrive(p[|p| - 1])
    ensures forall y, x | 0 <= y < weights.height && 0 <= x < weights.width && (x, y) != start && cells[y][x] != map[] ::
              MinValue(cells[y][x].Values).Some?
              && exists p: seq<Item> | Journey(weights, start, minRun, maxRun, p) ::
                   p[|p| - 1].x == x && p[|p| - 1].y == y && weights.Arrive(p[|p| - 1]) == MinValue(cells[y][x].Values).value
  {
    forall p: seq<Item> | Journey(weights, start, minRun, maxRun, p)
      ensures MinValue(cells[p[|p| - 1].y][p[|p| - 1].x].Values).Some?
              && MinValue(cells[p[|p| - 1].y][p[|p| - 1].x].Values).value <= weights.Arrive(p[|p| - 1])
    {
      var last := p[|p| - 1];
      JourneyBound(weights, cells, start, minRun, maxRun, p);
      var cell := cells[last.y][last.x];
      assert cell[(last.dir, last.run)] in cell.Values;
    }
    forall y, x | 0 <= y < weights.height && 0 <= x < weights.width && (x, y) != start && cells[y][x] != map[]
      ensures MinValue(cells[y][x].Values).Some?
              && exists p: seq<Item> | Journey(weights, start, minRun, maxRun, p) ::
                   p[|p| - 1].x == x && p[|p| - 1].y == y && weights.Arrive(p[|p| - 1]) == MinValue(cells[y][x].Values).value
    {
      var cell := cells[y][x];
      var k :| k in cell;
      assert cell[k] in cell.Values;
      var m := MinValue(cell.Values).value;
      var k' :| k' in cell && cell[k'] == m;
      assert (k'.1 >= 1 && Achieved(weights, start, minRun, maxRun, x, y, k', cell[k']))
             || ((x, y) == start && k' == (Up, 0));
      assert Achieved(weights, start, minRun, maxRun, x, y, k', m);
    }
  }

  /** Before the loop the start has its entry of 0 and nothing else is
      recorded, and the queue holds the crucibles leaving the start: both
      invariants hold. */
  lemma StartClosed(weights: Weights, cells: seq<seq<map<(Direction, nat), nat>>>, queue: seq<Item>,
                    start: (nat, nat), minRun: nat, maxRun: nat)
    requires weights.Valid() && Shape(cells, weights.height, weights.width)
    requires start.0 < weights.width && start.1 < weights.height
    requires forall y, x | 0 <= y < weights.height && 0 <= x < weights.width ::
               cells[y][x] == if (x, y) == start then map[(Up, 0) := 0] else map[]
    requires |queue| == |NeighborsOf(start.0, start.1, weights.height, weights.width)|
    requires forall j | 0 <= j < |queue| ::
               queue[j] == Item(NeighborsOf(start.0, start.1, weights.height, weights.width)[j].1.0,
                                NeighborsOf(start.0, start.1, weights.height, weights.width)[j].1.1, 0,
                                NeighborsOf(start.0, start.1, weights.height, weights.width)[j].0, 1)
    ensures Relaxing(weights, cells, queue, start, minRun, maxRun)
  {
    var neighbors := NeighborsOf(start.0, start.1, weights.height, weights.width);
    forall n | n in neighbors
      ensures Covered(weights, cells, queue, Item(n.1.0, n.1.1, 0, n.0, 1))
    {
      var j :| 0 <= j < |neighbors| && neighbors[j] == n;
      assert queue[j] == Item(n.1.0, n.1.1, 0, n.0, 1);
    }
    forall j | 0 <= j < |queue|
      ensures Reached(weights, start, minRun, maxRun, queue[j])
    {
      assert neighbors[j] in neighbors;
      assert Journey(weights, start, minRun, maxRun, [queue[j]]);
    }
  }
}
