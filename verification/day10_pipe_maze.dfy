/** Day 10, "Pipe Maze": a field of pipe tiles holding one loop that
    passes through the start tile `S`. The maze keeps, for every pipe, the
    cells it connects to; links that are not answered from the other end
    are dropped, and only the pipes reachable from the start remain. The
    farthest point of the loop is found breadth first, and the tiles
    enclosed by it are counted with a scanline that flips between outside
    and inside as it crosses the loop. */
module PipeMaze {
  import opened Wrappers

  /** A cell; a neighbour of the first row or column lies at -1. */
  datatype Coord = Coord(x: int, y: int)

  datatype Side = West | East | North | South

  /** The cell next to `p` on side `s`. */
  function Toward(p: Coord, s: Side): Coord {
    match s
    case West => Coord(p.x - 1, p.y)
    case East => Coord(p.x + 1, p.y)
    case North => Coord(p.x, p.y - 1)
    case South => Coord(p.x, p.y + 1)
  }

  /** The sides a tile opens onto; the start opens onto all four. */
  function Sides(c: char): set<Side> {
    match c
    case 'S' => {West, East, North, South}
    case '-' => {West, East}
    case '|' => {North, South}
    case 'F' => {East, South}
    case 'J' => {West, North}
    case 'L' => {East, North}
    case '7' => {West, South}
    case _ => {}
  }

  predicate Distinct<T(==)>(s: seq<T>) {
    forall i, j | 0 <= i < j < |s| :: s[i] != s[j]
  }

  /** The characters `parse_maze` takes for pipes. */
  predicate IsPipe(c: char) {
    c in "S-|FJL7"
  }

  /** The cells a tile at `p` connects to, in the order `parse_maze`
      lists them; nothing for a character that is not a pipe. */
  function Openings(c: char, p: Coord): seq<Coord> {
    var (x, y) := (p.x, p.y);
    match c
    case 'S' => [Coord(x - 1, y), Coord(x + 1, y), Coord(x, y - 1), Coord(x, y + 1)]
    case '-' => [Coord(x - 1, y), Coord(x + 1, y)]
    case '|' => [Coord(x, y - 1), Coord(x, y + 1)]
    case 'F' => [Coord(x + 1, y), Coord(x, y + 1)]
    case 'J' => [Coord(x - 1, y), Coord(x, y - 1)]
    case 'L' => [Coord(x + 1, y), Coord(x, y - 1)]
    case '7' => [Coord(x - 1, y), Coord(x, y + 1)]
    case _ => []
  }

  /** A pipe connects to the cell on each side it opens onto, each once:
      two for a pipe, four for the start, none for anything else. */
  lemma OpeningsSides(c: char, p: Coord)
    ensures IsPipe(c) <==> Sides(c) != {}
    ensures |Openings(c, p)| == |Sides(c)| && Distinct(Openings(c, p))
    ensures forall s :: s in Sides(c) <==> Toward(p, s) in Openings(c, p)
  {
  }

  lemma OpeningsDistinct(c: char, p: Coord)
    ensures Distinct(Openings(c, p))
  {
    OpeningsSides(c, p);
  }

  // ---------------------------------------------------------------------
  // The text of the maze

  predicate InText(lines: seq<string>, p: Coord) {
    0 <= p.y < |lines| && 0 <= p.x < |lines[p.y]|
  }

  function CharAt(lines: seq<string>, p: Coord): char
    requires InText(lines, p)
  {
    lines[p.y][p.x]
  }

  predicate PipeAt(lines: seq<string>, p: Coord) {
    InText(lines, p) && IsPipe(CharAt(lines, p))
  }

  /** Whether `p` comes before column `x` of row `y` in reading order. */
  predicate Before(p: Coord, y: int, x: int) {
    p.y < y || (p.y == y && p.x < x)
  }

  ghost function Cells(lines: seq<string>): set<Coord> {
    set y, x | 0 <= y < |lines| && 0 <= x < |lines[y]| :: Coord(x, y)
  }

  /** Every pipe of the text with the cells it opens onto. */
  ghost function RawTable(lines: seq<string>): map<Coord, seq<Coord>> {
    map p | p in Cells(lines) && PipeAt(lines, p) :: Openings(CharAt(lines, p), p)
  }

  /** What the scan of `parse_maze` has gathered once it reaches column
      `x` of row `y`: the table and tile of every pipe before it, and the
      last start tile before it. */
  ghost predicate Scanned(lines: seq<string>, conns: map<Coord, seq<Coord>>, pipes: map<Coord, char>,
                          start: Option<Coord>, y: int, x: int) {
    Gathered(lines, conns, pipes, y, x) && LastStart(lines, start, y, x)
  }

  ghost predicate Gathered(lines: seq<string>, conns: map<Coord, seq<Coord>>, pipes: map<Coord, char>, y: int, x: int) {
    (forall p | p in conns :: PipeAt(lines, p) && Before(p, y, x)
                              && conns[p] == Openings(CharAt(lines, p), p)
                              && p in pipes && pipes[p] == CharAt(lines, p))
    && (forall p | PipeAt(lines, p) && Before(p, y, x) :: p in conns)
    && pipes.Keys == conns.Keys
  }

  ghost predicate LastStart(lines: seq<string>, start: Option<Coord>, y: int, x: int) {
    (start.Some? ==> InText(lines, start.value) && CharAt(lines, start.value) == 'S' && Before(start.value, y, x))
    && (forall p | InText(lines, p) && CharAt(lines, p) == 'S' && Before(p, y, x) ::
          start.Some? && !Before(start.value, p.y, p.x))
  }

  /** The connections of a new pipe: each opening once. */
  method Connect(openings: seq<Coord>) returns (links: seq<Coord>)
    ensures forall q :: q in links <==> q in openings
    ensures Distinct(links)
    ensures Distinct(openings) ==> links == openings
  {
    links := [];
    for k := 0 to |openings|
      invariant forall q :: q in links <==> q in openings[..k]
      invariant Distinct(links)
      invariant Distinct(openings) ==> links == openings[..k]
    {
      assert openings[..k + 1] == openings[..k] + [openings[k]];
      if openings[k] !in links {
        links := links + [openings[k]];
      }
    }
    assert openings[..|openings|] == openings;
  }

  // ---------------------------------------------------------------------
  // One-way links

  /** Whether the link from `a` to `b` is answered by one back. */
  predicate Answered(conns: map<Coord, seq<Coord>>, a: Coord, b: Coord) {
    b in conns && a in conns[b]
  }

  /** The links that are not answered. */
  ghost function OneWay(conns: map<Coord, seq<Coord>>): set<(Coord, Coord)> {
    set a, b | a in conns && b in conns[a] && !Answered(conns, a, b) :: (a, b)
  }

  /** `links` of `a` without the dropped ones, in order. */
  function Keep(links: seq<Coord>, a: Coord, drop: set<(Coord, Coord)>): (r: seq<Coord>)
    ensures forall b :: b in r <==> b in links && (a, b) !in drop
    ensures Distinct(links) ==> Distinct(r)
  {
    if links == [] then []
    else
      var init := links[..|links| - 1];
      var b := links[|links| - 1];
      assert forall c | c in links :: c in init || c == b;
      assert Distinct(links) ==> b !in init;
      Keep(init, a, drop) + (if (a, b) in drop then [] else [b])
  }

  /** The table with every unanswered link dropped. */
  ghost function TwoWay(conns: map<Coord, seq<Coord>>): map<Coord, seq<Coord>> {
    map a | a in conns :: Keep(conns[a], a, OneWay(conns))
  }

  /** Every link is answered from its other end. */
  ghost predicate Symmetric(conns: map<Coord, seq<Coord>>) {
    forall a, b | a in conns && b in conns[a] :: b in conns && a in conns[b]
  }

  /** Dropping the unanswered links keeps exactly the answered ones, and
      what is left is answered throughout. */
  lemma TwoWaySymmetric(conns: map<Coord, seq<Coord>>)
    ensures TwoWay(conns).Keys == conns.Keys
    ensures forall a, b | a in conns :: b in TwoWay(conns)[a] <==> b in conns[a] && Answered(conns, a, b)
    ensures Symmetric(TwoWay(conns))
  {
    var drop := OneWay(conns);
    var kept := TwoWay(conns);
    forall a, b | a in conns
      ensures b in kept[a] <==> b in conns[a] && Answered(conns, a, b)
    {
      assert b in kept[a] <==> b in conns[a] && (a, b) !in drop;
    }
  }

  /** The first loop of the one-way removal: every unanswered link. */
  method FindOneWay(conns: map<Coord, seq<Coord>>) returns (toRemove: set<(Coord, Coord)>)
    ensures toRemove == OneWay(conns)
  {
    toRemove := {};
    var todo := conns.Keys;
    while todo != {}
      invariant todo <= conns.Keys
      invariant forall a, b :: (a, b) in toRemove <==> a in conns && a !in todo && b in conns[a] && !Answered(conns, a, b)
      decreases |todo|
    {
      var a :| a in todo;
      var links := conns[a];
      for k := 0 to |links|
        invariant forall a', b :: (a', b) in toRemove <==>
                    a' in conns && (a' !in todo || (a' == a && b in links[..k])) && b in conns[a'] && !Answered(conns, a', b)
      {
        assert links[..k + 1] == links[..k] + [links[k]];
        var b := links[k];
        var twoWay := b in conns && a in conns[b];
        if !twoWay {
          toRemove := toRemove + {(a, b)};
        }
      }
      assert links[..|links|] == links;
      todo := todo - {a};
    }
    forall p: (Coord, Coord)
      ensures p in toRemove <==> p in OneWay(conns)
    {
      var (a, b) := p;
    }
  }

  /** `retain` on one pipe's links. */
  method Retain(links: seq<Coord>, a: Coord, drop: set<(Coord, Coord)>) returns (kept: seq<Coord>)
    ensures kept == Keep(links, a, drop)
  {
    kept := [];
    for k := 0 to |links|
      invariant kept == Keep(links[..k], a, drop)
    {
      assert links[..k + 1][..k] == links[..k];
      if (a, links[k]) !in drop {
        kept := kept + [links[k]];
      }
    }
    assert links[..|links|] == links;
  }

  /** The second loop of the one-way removal: every pipe keeps the links
      not marked for removal. */
  method DropOneWay(conns: map<Coord, seq<Coord>>, toRemove: set<(Coord, Coord)>) returns (kept: map<Coord, seq<Coord>>)
    ensures toRemove == OneWay(conns) ==> kept == TwoWay(conns)
    ensures kept.Keys == conns.Keys && forall a | a in conns :: kept[a] == Keep(conns[a], a, toRemove)
  {
    kept := conns;
    var todo := conns.Keys;
    while todo != {}
      invariant todo <= conns.Keys && kept.Keys == conns.Keys
      invariant forall a | a in kept :: kept[a] == if a in todo then conns[a] else Keep(conns[a], a, toRemove)
      decreases |todo|
    {
      var a :| a in todo;
      var links := Retain(kept[a], a, toRemove);
      kept := kept[a := links];
      todo := todo - {a};
    }
  }

  // ---------------------------------------------------------------------
  // Reachability

  /** Every link out of the set stays in it. */
  ghost predicate Closed(conns: map<Coord, seq<Coord>>, s: set<Coord>) {
    forall a, b | a in s && a in conns && b in conns[a] :: b in s
  }

  /** `s` holds exactly the cells reachable from `start`: the least
      closed set holding it. */
  ghost predicate Reaches(conns: map<Coord, seq<Coord>>, start: Coord, s: set<Coord>) {
    start in s && Closed(conns, s)
    && forall other: set<Coord> | start in other && Closed(conns, other) :: s <= other
  }

  /** The state of the depth-first walk in `parse_maze`. */
  ghost predicate Frontier(conns: map<Coord, seq<Coord>>, start: Coord, seen: set<Coord>, stack: seq<Coord>) {
    seen <= conns.Keys
    && (forall k | 0 <= k < |stack| :: stack[k] in conns)
    && (start in seen || start in stack)
    && (forall a, b | a in seen && b in conns[a] :: b in seen || b in stack)
    && (forall other: set<Coord> | start in other && Closed(conns, other) ::
          seen <= other && forall k | 0 <= k < |stack| :: stack[k] in other)
  }

  lemma FrontierStart(conns: map<Coord, seq<Coord>>, start: Coord)
    requires start in conns
    ensures Frontier(conns, start, {}, [start])
  {
    var stack := [start];
    assert stack[0] == start && start in stack;
  }

  /** A cell popped that was seen before changes nothing. */
  lemma FrontierSeen(conns: map<Coord, seq<Coord>>, start: Coord, seen: set<Coord>, rest: seq<Coord>, b: Coord)
    requires Frontier(conns, start, seen, rest + [b]) && b in seen
    ensures Frontier(conns, start, seen, rest)
  {
    forall k | 0 <= k < |rest|
      ensures rest[k] == (rest + [b])[k]
    {
    }
    forall c | c in rest + [b] && c != b
      ensures c in rest
    {
    }
  }

  /** A new cell is marked and its links pushed. */
  lemma FrontierNew(conns: map<Coord, seq<Coord>>, start: Coord, seen: set<Coord>, rest: seq<Coord>, b: Coord)
    requires Symmetric(conns)
    requires Frontier(conns, start, seen, rest + [b])
    ensures b in conns && Frontier(conns, start, seen + {b}, rest + conns[b])
  {
    assert (rest + [b])[|rest|] == b;
    var next := rest + conns[b];
    forall k | 0 <= k < |next|
      ensures next[k] in conns
    {
      if k < |rest| {
        assert next[k] == (rest + [b])[k];
      } else {
        assert next[k] == conns[b][k - |rest|];
      }
    }
    forall c | c in rest + [b] && c != b
      ensures c in next
    {
    }
    forall other: set<Coord> | start in other && Closed(conns, other)
      ensures seen + {b} <= other && forall k | 0 <= k < |next| :: next[k] in other
    {
      assert b in other;
      forall k | 0 <= k < |next|
        ensures next[k] in other
      {
        if k < |rest| {
          assert next[k] == (rest + [b])[k];
        } else {
          assert next[k] == conns[b][k - |rest|];
        }
      }
    }
  }

  lemma FewerUnseen(all: set<Coord>, seen: set<Coord>, b: Coord)
    requires b in all && b !in seen
    ensures |all - (seen + {b})| < |all - seen|
  {
    assert all - seen == (all - (seen + {b})) + {b};
  }

  lemma LastSplit<T>(s: seq<T>)
    requires s != []
    ensures s == s[..|s| - 1] + [s[|s| - 1]]
  {
  }

  /** One turn of the walk: pop a cell, and if it is new, mark it and
      push its links. */
  method ReachStep(conns: map<Coord, seq<Coord>>, start: Coord, seen: set<Coord>, stack: seq<Coord>)
    returns (seen': set<Coord>, stack': seq<Coord>)
    requires Symmetric(conns) && stack != [] && Frontier(conns, start, seen, stack)
    ensures Frontier(conns, start, seen', stack')
    ensures |conns.Keys - seen'| < |conns.Keys - seen| || (seen' == seen && |stack'| < |stack|)
  {
    var next := stack[|stack| - 1];
    stack' := stack[..|stack| - 1];
    LastSplit(stack);
    if next !in seen {
      FrontierNew(conns, start, seen, stack', next);
      FewerUnseen(conns.Keys, seen, next);
      seen' := seen + {next};
      stack' := stack' + conns[next];
    } else {
      FrontierSeen(conns, start, seen, stack', next);
      seen' := seen;
    }
  }

  /** The walk of `parse_maze` from the start: the cells it marks are
      exactly those reachable from the start, and every one has links. */
  method Reach(conns: map<Coord, seq<Coord>>, start: Coord) returns (mainLoop: set<Coord>)
    requires Symmetric(conns) && start in conns
    ensures mainLoop <= conns.Keys && Reaches(conns, start, mainLoop)
  {
    mainLoop := {};
    var stack := [start];
    FrontierStart(conns, start);
    while stack != []
      invariant Frontier(conns, start, mainLoop, stack)
      decreases |conns.Keys - mainLoop|, |stack|
    {
      mainLoop, stack := ReachStep(conns, start, mainLoop, stack);
    }
  }

  // ---------------------------------------------------------------------
  // The maze

  /** A parsed maze. `pipes` holds the tiles of the loop through the
      start; `connections` holds every pipe of the text. */
  datatype Maze = Maze(height: nat, width: nat, start: Coord, pipes: map<Coord, char>,
                       connections: map<Coord, seq<Coord>>)
  {
    /** `Maze::farthest_location` up to the sort: the distance of every
        cell met from the start, breadth first. A cell met again keeps the
        lesser distance, which is always the one it already has. The
        distances are those of shortest walks: each is the length of a
        walk, and a link never leads to a cell more than one farther. */
    method Distances() returns (visited: map<Coord, nat>)
      ensures start in visited && visited[start] == 0
      ensures forall p | p in visited :: WalkTo(connections, start, p, visited[p])
      ensures Settled(connections, visited)
    {
      visited := map[];
      var next := [(start, 0)];
      SearchStart(connections, start);
      while next != []
        invariant Search(connections, start, visited, next)
        decreases Unseen(connections, start, visited), |next|
      {
        visited, next := Visit(connections, start, visited, next);
      }
      SearchDone(connections, start, visited);
    }

    /** `Maze::farthest_location`: the cell of the loop farthest from the
        start along it, with its distance; of several equally far, the
        last in the order of the coordinates. */
    method FarthestLocation() returns (node: Coord, dist: nat)
      ensures Shortest(connections, start, node, dist)
      ensures forall q, k: nat | Shortest(connections, start, q, k) :: k < dist || (k == dist && CoordLe(q, node))
    {
      var visited := Distances();
      node, dist := Farthest(visited);
      DistancesShortest(connections, start, visited);
    }

    /** `Maze::start_char`: the pipe the start tile stands for, the one
        opening onto exactly the sides its links lie on; a start without
        links, or whose links lie on other than two sides, is an illegal
        map state. */
    function StartChar(): (r: Option<char>)
      ensures r.Some? <==> start in connections && |LinkSides(connections[start], start)| == 2
      ensures r.Some? ==> r.value in "|FL7J-" && Sides(r.value) == LinkSides(connections[start], start)
    {
      if start !in connections then None
      else
        var links := connections[start];
        var left := AnyToward(links, start, West);
        var right := AnyToward(links, start, East);
        var above := AnyToward(links, start, North);
        var below := AnyToward(links, start, South);
        SidesOfCount(left, right, above, below);
        TileFor(left, right, above, below)
    }

    /** What the scanline meets at a cell: a tile of the loop, or nothing. */
    function Tile(p: Coord): Option<char> {
      if p in pipes then Some(pipes[p]) else None
    }

    /** The rows the scanline goes over, `height` of them, `width` cells each. */
    function Grid(): (rows: seq<seq<Option<char>>>)
      ensures |rows| == height && forall y | 0 <= y < height :: |rows[y]| == width
    {
      seq(height, y => seq(width, x => Tile(Coord(x, y))))
    }

    /** `Maze::interior_area`: the cells off the loop that the scanline
        finds inside it, row by row; an illegal combination of run and
        pipe, or a start tile that stands for no pipe, is an error. */
    method InteriorArea() returns (r: Result<nat>)
      ensures r == Area(Grid(), StartChar())
      ensures r.Ok? ==> r.value <= height * width
    {
      var area := 0;
      ghost var rows := Grid();
      for y := 0 to height
        invariant Area(rows[..y], StartChar()) == Ok(area)
      {
        var counted := ScanRow(y);
        assert rows[..y + 1][..y] == rows[..y];
        if counted.Err? {
          AreaErr(rows, StartChar(), y + 1);
          return Err(counted.error);
        }
        area := area + counted.value;
      }
      assert rows[..height] == rows;
      AreaBound(rows, StartChar(), width);
      return Ok(area);
    }

    /** One cell of `Maze::interior_area`: a tile of the loop is crossed,
        the start tile as the pipe it stands for; a cell off it ends any
        run and is counted when inside. */
    method ScanAt(coords: Coord, s: Scan) returns (r: Result<(Scan, bool)>)
      ensures r == Step(s, Tile(coords), StartChar())
    {
      if coords in pipes {
        var current := pipes[coords];
        if current == 'S' {
          var tile := StartChar();
          if tile.None? {
            return Err("Illegal map state");
          }
          current := tile.value;
        }
        var crossed := Cross(s, current);
        if crossed.Err? {
          return Err(crossed.error);
        }
        return Ok((crossed.value, false));
      } else {
        return Ok((Scan(s.inside, None), s.inside));
      }
    }

    /** One row of `Maze::interior_area`: outside the loop at its start,
        the scan goes cell by cell and counts the cells off the loop it
        finds inside. */
    method ScanRow(y: nat) returns (r: Result<nat>)
      requires y < height
      ensures r == RowCount(Grid()[y], StartChar())
    {
      ghost var row := Grid()[y];
      ghost var startTile := StartChar();
      var area := 0;
      var inside := false;
      var squeezing: Option<Squeeze> := None;
      for x := 0 to width
        invariant ScanCells(Scan(false, None), row[..x], startTile) == Ok((Scan(inside, squeezing), area))
      {
        ScanNext(Scan(false, None), row, x, startTile);
        assert row[x] == Tile(Coord(x, y));
        var step := ScanAt(Coord(x, y), Scan(inside, squeezing));
        if step.Err? {
          ScanCellsErr(Scan(false, None), row, startTile, x + 1);
          return Err(step.error);
        }
        inside, squeezing := step.value.0.inside, step.value.0.squeezing;
        if step.value.1 {
          area := area + 1;
        }
      }
      assert row[..width] == row;
      return Ok(area);
    }
  }

  /** The scan of `parse_maze` over one line. */
  method ScanLine(lines: seq<string>, y: nat, conns: map<Coord, seq<Coord>>, pipes: map<Coord, char>, start: Option<Coord>)
    returns (conns': map<Coord, seq<Coord>>, pipes': map<Coord, char>, start': Option<Coord>)
    requires y < |lines| && Scanned(lines, conns, pipes, start, y, 0)
    ensures Scanned(lines, conns', pipes', start', y + 1, 0)
  {
    var line := lines[y];
    conns', pipes', start' := conns, pipes, start;
    for x := 0 to |line|
      invariant Scanned(lines, conns', pipes', start', y, x)
    {
      conns', pipes', start' := ScanCell(lines, y, x, conns', pipes', start');
    }
    assert forall p | InText(lines, p) && Before(p, y + 1, 0) :: Before(p, y, |line|);
  }

  /** One cell of `parse_maze`: a pipe is entered with its links, and a
      start tile becomes the start. */
  method ScanCell(lines: seq<string>, y: nat, x: nat, conns: map<Coord, seq<Coord>>, pipes: map<Coord, char>, start: Option<Coord>)
    returns (conns': map<Coord, seq<Coord>>, pipes': map<Coord, char>, start': Option<Coord>)
    requires y < |lines| && x < |lines[y]| && Scanned(lines, conns, pipes, start, y, x)
    ensures Scanned(lines, conns', pipes', start', y, x + 1)
  {
    conns', pipes', start' := conns, pipes, start;
    var current := Coord(x, y);
    var c := lines[y][x];
    GatheredCell(lines, conns, pipes, y, x);
    LastStartCell(lines, start, y, x);
    if IsPipe(c) {
      if c == 'S' {
        start' := Some(current);
      }
      var newConnections := Openings(c, current);
      OpeningsDistinct(c, current);
      var links := Connect(newConnections);
      pipes' := pipes'[current := c];
      conns' := conns'[current := links];
    }
  }

  /** One cell of the scan: a pipe is entered in both tables. */
  lemma GatheredCell(lines: seq<string>, conns: map<Coord, seq<Coord>>, pipes: map<Coord, char>, y: nat, x: nat)
    requires y < |lines| && x < |lines[y]| && Gathered(lines, conns, pipes, y, x)
    ensures var c := lines[y][x];
            if IsPipe(c) then Gathered(lines, conns[Coord(x, y) := Openings(c, Coord(x, y))], pipes[Coord(x, y) := c], y, x + 1)
            else Gathered(lines, conns, pipes, y, x + 1)
  {
    var current := Coord(x, y);
    var c := lines[y][x];
    assert InText(lines, current) && CharAt(lines, current) == c;
    assert forall p | Before(p, y, x + 1) :: Before(p, y, x) || p.y != y || p.x >= x || p == current;
    if IsPipe(c) {
      var conns' := conns[current := Openings(c, current)];
      var pipes' := pipes[current := c];
      forall p | p in conns'
        ensures PipeAt(lines, p) && Before(p, y, x + 1)
                && conns'[p] == Openings(CharAt(lines, p), p)
                && p in pipes' && pipes'[p] == CharAt(lines, p)
      {
        if p != current {
          assert p in conns;
        }
      }
    }
  }

  /** One cell of the scan: a start tile becomes the start. */
  lemma LastStartCell(lines: seq<string>, start: Option<Coord>, y: nat, x: nat)
    requires y < |lines| && x < |lines[y]| && LastStart(lines, start, y, x)
    ensures LastStart(lines, if lines[y][x] == 'S' then Some(Coord(x, y)) else start, y, x + 1)
  {
    var current := Coord(x, y);
    assert InText(lines, current) && CharAt(lines, current) == lines[y][x];
    var start' := if lines[y][x] == 'S' then Some(current) else start;
    forall p | InText(lines, p) && CharAt(lines, p) == 'S' && Before(p, y, x + 1)
      ensures start'.Some? && !Before(start'.value, p.y, p.x)
    {
      if p != current {
        assert Before(p, y, x);
      }
    }
  }

  /** `parse_maze`: an error when the text has no start tile; otherwise
      the maze as high as the text and as wide as its last line, starting
      at the last start tile, with the answered links of every pipe and
      the tiles of exactly the pipes reachable from the start. */
  method ParseMaze(lines: seq<string>) returns (r: Result<Maze>)
    ensures r.Err? <==> forall p | InText(lines, p) :: CharAt(lines, p) != 'S'
    ensures r.Ok? ==> r.value.height == |lines| && r.value.width == |lines[|lines| - 1]|
    ensures r.Ok? ==> InText(lines, r.value.start) && CharAt(lines, r.value.start) == 'S'
                      && forall p | InText(lines, p) && CharAt(lines, p) == 'S' :: !Before(r.value.start, p.y, p.x)
    ensures r.Ok? ==> r.value.connections == TwoWay(RawTable(lines)) && Symmetric(r.value.connections)
    ensures r.Ok? ==> Reaches(r.value.connections, r.value.start, r.value.pipes.Keys)
    ensures r.Ok? ==> forall p | p in r.value.pipes :: PipeAt(lines, p) && r.value.pipes[p] == CharAt(lines, p)
  {
    var height := 0;
    var width := 0;
    var conns: map<Coord, seq<Coord>> := map[];
    var pipes: map<Coord, char> := map[];
    var start: Option<Coord> := None;
    for y := 0 to |lines|
      invariant height == y && (y > 0 ==> width == |lines[y - 1]|)
      invariant Scanned(lines, conns, pipes, start, y, 0)
    {
      height := height + 1;
      width := |lines[y]|;
      conns, pipes, start := ScanLine(lines, y, conns, pipes, start);
    }
    RawTableScanned(lines, conns, pipes, start);
    var toRemove := FindOneWay(conns);
    if start.None? {
      return Err("No start found");
    }
    var s := start.value;
    assert conns.Keys == pipes.Keys && s in pipes;
    conns := DropOneWay(conns, toRemove);
    TwoWaySymmetric(RawTable(lines));
    var mainLoop := Reach(conns, s);
    ghost var scanned := pipes;
    pipes := map p | p in pipes && p in mainLoop :: pipes[p];
    RestrictKeys(scanned, mainLoop);
    return Ok(Maze(height, width, s, pipes, conns));
  }

  lemma RestrictKeys(m: map<Coord, char>, s: set<Coord>)
    requires s <= m.Keys
    ensures (map p | p in m && p in s :: m[p]).Keys == s
  {
  }

  /** A finished scan has gathered the whole table. */
  lemma RawTableScanned(lines: seq<string>, conns: map<Coord, seq<Coord>>, pipes: map<Coord, char>, start: Option<Coord>)
    requires Scanned(lines, conns, pipes, start, |lines|, 0)
    ensures conns == RawTable(lines)
    ensures start.None? <==> forall p | InText(lines, p) :: CharAt(lines, p) != 'S'
    ensures start.Some? ==> |lines| > 0 && InText(lines, start.value) && CharAt(lines, start.value) == 'S'
    ensures start.Some? ==> forall p | InText(lines, p) && CharAt(lines, p) == 'S' :: !Before(start.value, p.y, p.x)
  {
    forall p | PipeAt(lines, p)
      ensures p in Cells(lines)
    {
    }
    assert conns.Keys == RawTable(lines).Keys;
    assert forall p | InText(lines, p) :: Before(p, |lines|, 0);
  }

  // ---------------------------------------------------------------------
  // Walks and the breadth-first search

  /** Whether a walk of `k` links leads from `start` to `q`. */
  ghost predicate WalkTo(conns: map<Coord, seq<Coord>>, start: Coord, q: Coord, k: nat)
    decreases k
  {
    if k == 0 then q == start
    else exists p :: p in conns && q in conns[p] && WalkTo(conns, start, p, k - 1)
  }

  /** The shortest walk from `start` to `q` has `k` links. */
  ghost predicate Shortest(conns: map<Coord, seq<Coord>>, start: Coord, q: Coord, k: nat) {
    WalkTo(conns, start, q, k) && forall j | 0 <= j < k :: !WalkTo(conns, start, q, j)
  }

  /** The order of `Coordinates`: by column, then by row. */
  predicate CoordLe(p: Coord, q: Coord) {
    p.x < q.x || (p.x == q.x && p.y <= q.y)
  }

  /** Every cell a search from `start` can meet. */
  ghost function Universe(conns: map<Coord, seq<Coord>>, start: Coord): set<Coord> {
    {start} + set a, b | a in conns && b in conns[a] :: b
  }

  /** Every distance recorded or queued is the length of a walk. */
  ghost predicate Sound(conns: map<Coord, seq<Coord>>, start: Coord, visited: map<Coord, nat>, queue: seq<(Coord, nat)>) {
    (forall p | p in visited :: WalkTo(conns, start, p, visited[p]))
    && (forall i | 0 <= i < |queue| :: WalkTo(conns, start, queue[i].0, queue[i].1))
  }

  /** The queue is in order of distance and spans at most one step, and
      nothing recorded is farther than its head. */
  ghost predicate Ordered(visited: map<Coord, nat>, queue: seq<(Coord, nat)>) {
    (forall i, j | 0 <= i < j < |queue| :: queue[i].1 <= queue[j].1)
    && (forall i | 0 <= i < |queue| :: queue[i].1 <= queue[0].1 + 1)
    && (queue != [] ==> forall p | p in visited :: visited[p] <= queue[0].1)
  }

  /** Every link out of a recorded cell leads to a cell recorded at most
      one farther, or is still queued at that distance. */
  ghost predicate Pending(conns: map<Coord, seq<Coord>>, visited: map<Coord, nat>, queue: seq<(Coord, nat)>) {
    forall p, q | p in visited && p in conns && q in conns[p] ::
      (q in visited && visited[q] <= visited[p] + 1) || (q, visited[p] + 1) in queue
  }

  /** The start is recorded at distance 0, or the search has not begun. */
  ghost predicate Started(start: Coord, visited: map<Coord, nat>, queue: seq<(Coord, nat)>) {
    (visited == map[] && queue == [(start, 0)]) || (start in visited && visited[start] == 0)
  }

  /** Everything recorded or queued is a cell the search can meet. */
  ghost predicate Bounded(all: set<Coord>, visited: map<Coord, nat>, queue: seq<(Coord, nat)>) {
    visited.Keys <= all && forall i | 0 <= i < |queue| :: queue[i].0 in all
  }

  ghost predicate Search(conns: map<Coord, seq<Coord>>, start: Coord, visited: map<Coord, nat>, queue: seq<(Coord, nat)>) {
    Sound(conns, start, visited, queue) && Ordered(visited, queue) && Pending(conns, visited, queue)
    && Started(start, visited, queue) && Bounded(Universe(conns, start), visited, queue)
  }

  /** How many cells the search can still meet for the first time. */
  ghost function Unseen(conns: map<Coord, seq<Coord>>, start: Coord, visited: map<Coord, nat>): nat {
    |Universe(conns, start) - visited.Keys|
  }

  /** No link leads from a recorded cell to one unrecorded or more than
      one farther. */
  ghost predicate Settled(conns: map<Coord, seq<Coord>>, visited: map<Coord, nat>) {
    forall p, q | p in visited && p in conns && q in conns[p] :: q in visited && visited[q] <= visited[p] + 1
  }

  /** A finished search has recorded the start at 0, only lengths of
      walks, and distances no link lengthens by more than one. */
  lemma SearchDone(conns: map<Coord, seq<Coord>>, start: Coord, visited: map<Coord, nat>)
    requires Search(conns, start, visited, [])
    ensures start in visited && visited[start] == 0
    ensures forall p | p in visited :: WalkTo(conns, start, p, visited[p])
    ensures Settled(conns, visited)
  {
    forall p, q | p in visited && p in conns && q in conns[p]
      ensures q in visited && visited[q] <= visited[p] + 1
    {
      assert (q, visited[p] + 1) !in [];
    }
  }

  lemma SearchStart(conns: map<Coord, seq<Coord>>, start: Coord)
    ensures Search(conns, start, map[], [(start, 0)])
  {
    var queue := [(start, 0)];
    assert queue[0] == (start, 0);
  }

  /** The links of a cell, queued one farther. */
  function Tagged(links: seq<Coord>, d: nat): (r: seq<(Coord, nat)>)
    ensures |r| == |links| && forall k | 0 <= k < |links| :: r[k] == (links[k], d)
  {
    seq(|links|, k requires 0 <= k < |links| => (links[k], d))
  }

  /** The pushes of a newly met cell's links. */
  method PushAll(queue: seq<(Coord, nat)>, links: seq<Coord>, d: nat) returns (queue': seq<(Coord, nat)>)
    ensures queue' == queue + Tagged(links, d)
  {
    queue' := queue;
    for k := 0 to |links|
      invariant queue' == queue + Tagged(links[..k], d)
    {
      queue' := queue' + [(links[k], d)];
    }
    assert links[..|links|] == links;
  }

  /** A cell met again keeps its distance, which is no more than the new one. */
  lemma SeenAgain(conns: map<Coord, seq<Coord>>, start: Coord, visited: map<Coord, nat>, queue: seq<(Coord, nat)>)
    requires queue != [] && Search(conns, start, visited, queue) && queue[0].0 in visited
    ensures visited[queue[0].0] <= queue[0].1
    ensures Search(conns, start, visited, queue[1..])
  {
    var rest := queue[1..];
    assert forall i | 0 <= i < |rest| :: rest[i] == queue[i + 1];
    PendingAgain(conns, visited, queue);
  }

  lemma PendingAgain(conns: map<Coord, seq<Coord>>, visited: map<Coord, nat>, queue: seq<(Coord, nat)>)
    requires queue != [] && Pending(conns, visited, queue)
    requires queue[0].0 in visited && visited[queue[0].0] <= queue[0].1
    ensures Pending(conns, visited, queue[1..])
  {
    var rest := queue[1..];
    forall p, q | p in visited && p in conns && q in conns[p]
      ensures (q in visited && visited[q] <= visited[p] + 1) || (q, visited[p] + 1) in rest
    {
      if !(q in visited && visited[q] <= visited[p] + 1) {
        var i :| 0 <= i < |queue| && queue[i] == (q, visited[p] + 1);
        assert i != 0;
        assert rest[i - 1] == queue[i];
      }
    }
  }

  /** The queue after a new cell: the rest, then its links one farther. */
  ghost function Next(conns: map<Coord, seq<Coord>>, queue: seq<(Coord, nat)>): seq<(Coord, nat)>
    requires queue != []
  {
    queue[1..] + Tagged(Links(conns, queue[0].0), queue[0].1 + 1)
  }

  /** The links of `p`, none when it has no entry. */
  function Links(conns: map<Coord, seq<Coord>>, p: Coord): seq<Coord> {
    if p in conns then conns[p] else []
  }

  lemma SoundFirst(conns: map<Coord, seq<Coord>>, start: Coord, visited: map<Coord, nat>, queue: seq<(Coord, nat)>)
    requires queue != [] && Sound(conns, start, visited, queue)
    ensures Sound(conns, start, visited[queue[0].0 := queue[0].1], Next(conns, queue))
  {
    var (node, dist) := queue[0];
    var links := Links(conns, node);
    var rest := queue[1..];
    var queue' := Next(conns, queue);
    assert WalkTo(conns, start, node, dist);
    forall i | 0 <= i < |queue'|
      ensures WalkTo(conns, start, queue'[i].0, queue'[i].1)
    {
      if i < |rest| {
        assert queue'[i] == queue[i + 1];
      } else {
        var k := i - |rest|;
        assert queue'[i] == (links[k], dist + 1);
        assert node in conns && links[k] in conns[node];
      }
    }
  }

  lemma OrderedFirst(conns: map<Coord, seq<Coord>>, visited: map<Coord, nat>, queue: seq<(Coord, nat)>)
    requires queue != [] && Ordered(visited, queue)
    ensures Ordered(visited[queue[0].0 := queue[0].1], Next(conns, queue))
  {
    var dist := queue[0].1;
    var rest := queue[1..];
    var queue' := Next(conns, queue);
    assert forall i | 0 <= i < |rest| :: queue'[i] == queue[i + 1];
    assert forall i | |rest| <= i < |queue'| :: queue'[i].1 == dist + 1;
    assert forall i | 0 <= i < |queue'| :: dist <= queue'[i].1 <= dist + 1;
  }

  lemma PendingFirst(conns: map<Coord, seq<Coord>>, visited: map<Coord, nat>, queue: seq<(Coord, nat)>)
    requires queue != [] && Pending(conns, visited, queue) && queue[0].0 !in visited
    ensures Pending(conns, visited[queue[0].0 := queue[0].1], Next(conns, queue))
  {
    var (node, dist) := queue[0];
    var links := Links(conns, node);
    var visited' := visited[node := dist];
    var rest := queue[1..];
    var queue' := Next(conns, queue);
    forall p, q | p in visited' && p in conns && q in conns[p]
      ensures (q in visited' && visited'[q] <= visited'[p] + 1) || (q, visited'[p] + 1) in queue'
    {
      if p == node {
        var k :| 0 <= k < |links| && links[k] == q;
        assert queue'[|rest| + k] == (q, dist + 1);
      } else if !(q in visited && visited[q] <= visited[p] + 1) {
        var i :| 0 <= i < |queue| && queue[i] == (q, visited[p] + 1);
        if i != 0 {
          assert queue'[i - 1] == queue[i];
        }
      }
    }
  }

  lemma InUniverse(conns: map<Coord, seq<Coord>>, start: Coord, a: Coord, b: Coord)
    requires a in conns && b in conns[a]
    ensures b in Universe(conns, start)
  {
  }

  lemma BoundedFirst(conns: map<Coord, seq<Coord>>, start: Coord, visited: map<Coord, nat>, queue: seq<(Coord, nat)>)
    requires queue != [] && Bounded(Universe(conns, start), visited, queue)
    ensures Bounded(Universe(conns, start), visited[queue[0].0 := queue[0].1], Next(conns, queue))
    ensures Unseen(conns, start, visited[queue[0].0 := queue[0].1]) < Unseen(conns, start, visited)
            || queue[0].0 in visited
  {
    var (node, dist) := queue[0];
    var links := Links(conns, node);
    var all := Universe(conns, start);
    var rest := queue[1..];
    var queue' := Next(conns, queue);
    forall i | 0 <= i < |queue'|
      ensures queue'[i].0 in all
    {
      if i < |rest| {
        assert queue'[i] == queue[i + 1];
      } else {
        var k := i - |rest|;
        assert queue'[i].0 == links[k];
        assert node in conns && links[k] in conns[node];
        InUniverse(conns, start, node, links[k]);
      }
    }
    if node !in visited {
      assert visited[node := dist].Keys == visited.Keys + {node};
      FewerUnseen(all, visited.Keys, node);
    }
  }

  /** A newly met cell is recorded at its distance and its links queued
      one farther; one cell fewer is left to meet. */
  lemma FirstSeen(conns: map<Coord, seq<Coord>>, start: Coord, visited: map<Coord, nat>, queue: seq<(Coord, nat)>)
    requires queue != [] && Search(conns, start, visited, queue) && queue[0].0 !in visited
    ensures Search(conns, start, visited[queue[0].0 := queue[0].1], Next(conns, queue))
    ensures Unseen(conns, start, visited[queue[0].0 := queue[0].1]) < Unseen(conns, start, visited)
  {
    SoundFirst(conns, start, visited, queue);
    OrderedFirst(conns, visited, queue);
    PendingFirst(conns, visited, queue);
    BoundedFirst(conns, start, visited, queue);
  }

  /** One turn of the search: take the head of the queue, and record it
      and queue its links if it is new. */
  method Visit(conns: map<Coord, seq<Coord>>, start: Coord, visited: map<Coord, nat>, queue: seq<(Coord, nat)>)
    returns (visited': map<Coord, nat>, queue': seq<(Coord, nat)>)
    requires queue != [] && Search(conns, start, visited, queue)
    ensures Search(conns, start, visited', queue')
    ensures Unseen(conns, start, visited') < Unseen(conns, start, visited)
            || (visited'.Keys == visited.Keys && |queue'| < |queue|)
  {
    if queue[0].0 in visited {
      visited', queue' := VisitAgain(conns, start, visited, queue);
    } else {
      visited', queue' := VisitNew(conns, start, visited, queue);
    }
  }

  /** The head of the queue met before: its distance stays the lesser. */
  method VisitAgain(conns: map<Coord, seq<Coord>>, start: Coord, visited: map<Coord, nat>, queue: seq<(Coord, nat)>)
    returns (visited': map<Coord, nat>, queue': seq<(Coord, nat)>)
    requires queue != [] && Search(conns, start, visited, queue) && queue[0].0 in visited
    ensures Search(conns, start, visited', queue')
    ensures visited' == visited && queue' == queue[1..]
  {
    var (node, dist) := queue[0];
    queue' := queue[1..];
    SeenAgain(conns, start, visited, queue);
    var existing := visited[node];
    visited' := visited[node := if existing < dist then existing else dist];
    assert visited' == visited;
  }

  /** The head of the queue met for the first time: it is recorded at its
      distance and its links are queued one farther. */
  method VisitNew(conns: map<Coord, seq<Coord>>, start: Coord, visited: map<Coord, nat>, queue: seq<(Coord, nat)>)
    returns (visited': map<Coord, nat>, queue': seq<(Coord, nat)>)
    requires queue != [] && Search(conns, start, visited, queue) && queue[0].0 !in visited
    ensures Search(conns, start, visited', queue')
    ensures Unseen(conns, start, visited') < Unseen(conns, start, visited)
  {
    FirstSeen(conns, start, visited, queue);
    visited' := visited[queue[0].0 := queue[0].1];
    queue' := PushAll(queue[1..], Links(conns, queue[0].0), queue[0].1 + 1);
  }

  /** After the search, no walk is shorter than the distance recorded. */
  lemma {:induction false} WalkBound(conns: map<Coord, seq<Coord>>, start: Coord, visited: map<Coord, nat>, q: Coord, k: nat)
    requires start in visited && visited[start] == 0
    requires Settled(conns, visited)
    ensures WalkTo(conns, start, q, k) ==> q in visited && visited[q] <= k
    decreases k
  {
    if k > 0 && WalkTo(conns, start, q, k) {
      var p :| p in conns && q in conns[p] && WalkTo(conns, start, p, k - 1);
      WalkBound(conns, start, visited, p, k - 1);
    }
  }

  /** The search records exactly the cells reachable from the start, each
      at the length of its shortest walk. */
  lemma DistancesShortest(conns: map<Coord, seq<Coord>>, start: Coord, visited: map<Coord, nat>)
    requires start in visited && visited[start] == 0
    requires forall p | p in visited :: WalkTo(conns, start, p, visited[p])
    requires Settled(conns, visited)
    ensures forall p | p in visited :: Shortest(conns, start, p, visited[p])
    ensures forall q, k: nat | Shortest(conns, start, q, k) :: q in visited && visited[q] == k
  {
    forall p, j | p in visited && 0 <= j < visited[p]
      ensures !WalkTo(conns, start, p, j)
    {
      WalkBound(conns, start, visited, p, j);
    }
    forall q, k: nat | Shortest(conns, start, q, k)
      ensures q in visited && visited[q] == k
    {
      WalkBound(conns, start, visited, q, k);
    }
  }

  /** The last entry once the distances are sorted: the greatest distance,
      and of the cells at it, the greatest in the order of coordinates. */
  method Farthest(visited: map<Coord, nat>) returns (node: Coord, dist: nat)
    requires visited != map[]
    ensures node in visited && dist == visited[node]
    ensures forall p | p in visited :: visited[p] < dist || (visited[p] == dist && CoordLe(p, node))
  {
    var first :| first in visited;
    node, dist := first, visited[first];
    var todo := visited.Keys - {first};
    while todo != {}
      invariant todo <= visited.Keys && node in visited && dist == visited[node]
      invariant forall p | p in visited && p !in todo :: visited[p] < dist || (visited[p] == dist && CoordLe(p, node))
      decreases |todo|
    {
      var p :| p in todo;
      if visited[p] > dist || (visited[p] == dist && CoordLe(node, p)) {
        node, dist := p, visited[p];
      }
      todo := todo - {p};
    }
  }

  // ---------------------------------------------------------------------
  // The start tile

  /** The sides of `p` that the cells of `links` lie on. */
  function LinkSides(links: seq<Coord>, p: Coord): set<Side> {
    SidesOf(AnyToward(links, p, West), AnyToward(links, p, East),
            AnyToward(links, p, North), AnyToward(links, p, South))
  }

  /** Whether `c` lies on side `s` of `p`, in its column or row or not. */
  predicate Beyond(c: Coord, p: Coord, s: Side) {
    match s
    case West => c.x < p.x
    case East => c.x > p.x
    case North => c.y < p.y
    case South => c.y > p.y
  }

  /** Whether any of `links` lies on side `s` of `p`. */
  predicate AnyToward(links: seq<Coord>, p: Coord, s: Side) {
    exists c | c in links :: Beyond(c, p, s)
  }

  function SidesOf(west: bool, east: bool, north: bool, south: bool): set<Side> {
    (if west then {West} else {}) + (if east then {East} else {})
    + (if north then {North} else {}) + (if south then {South} else {})
  }

  /** The pipe opening onto exactly the sides flagged, when two are. */
  function TileFor(west: bool, east: bool, north: bool, south: bool): (r: Option<char>)
    ensures r.Some? <==> Count(west) + Count(east) + Count(north) + Count(south) == 2
    ensures r.Some? ==> r.value in "|FL7J-" && Sides(r.value) == SidesOf(west, east, north, south)
  {
    match (west, east, north, south)
    case (false, false, true, true) => Some('|')
    case (false, true, false, true) => Some('F')
    case (false, true, true, false) => Some('L')
    case (true, false, false, true) => Some('7')
    case (true, false, true, false) => Some('J')
    case (true, true, false, false) => Some('-')
    case _ => None
  }

  function Count(b: bool): nat {
    if b then 1 else 0
  }

  lemma SidesOfCount(west: bool, east: bool, north: bool, south: bool)
    ensures |SidesOf(west, east, north, south)| == Count(west) + Count(east) + Count(north) + Count(south)
  {
    var a := if west then {West} else {};
    var b := if east then {East} else {};
    var c := if north then {North} else {};
    var d := if south then {South} else {};
    assert a !! b && (a + b) !! c && (a + b + c) !! d;
  }

  // ---------------------------------------------------------------------
  // The scanline

  /** Which way the loop turned at the bend that opened the current run
      along the row: `Above` after an `F`, `Below` after an `L`. */
  datatype Squeeze = Above | Below

  datatype Scan = Scan(inside: bool, squeezing: Option<Squeeze>)

  /** The combinations of run and pipe the scan accepts: a vertical pipe
      anywhere, a bend opening a run only outside one, and a horizontal
      pipe or a closing bend only inside one. */
  predicate Legal(squeezing: Option<Squeeze>, pipe: char) {
    pipe == '|' || (squeezing.None? && pipe in "FL") || (squeezing.Some? && pipe in "-J7")
  }

  /** The scan after crossing a tile of the loop. */
  function Cross(s: Scan, pipe: char): (r: Result<Scan>)
    ensures r.Ok? <==> Legal(s.squeezing, pipe)
    ensures r.Ok? ==> (r.value.squeezing.Some? <==> pipe in "FL-")
  {
    match (s.squeezing, pipe)
    case (_, '|') => Ok(Scan(!s.inside, None))
    case (None, 'F') => Ok(Scan(s.inside, Some(Above)))
    case (None, 'L') => Ok(Scan(s.inside, Some(Below)))
    case (Some(_), '-') => Ok(s)
    case (Some(Above), 'J') => Ok(Scan(!s.inside, None))
    case (Some(Below), 'J') => Ok(Scan(s.inside, None))
    case (Some(Above), '7') => Ok(Scan(s.inside, None))
    case (Some(Below), '7') => Ok(Scan(!s.inside, None))
    case _ => Err("Illegal state")
  }

  /** The scan at one cell, and whether the cell is counted: a cell off
      the loop ends any run and is counted when inside; the start tile
      stands for `startTile`. */
  function Step(s: Scan, cell: Option<char>, startTile: Option<char>): Result<(Scan, bool)> {
    match cell
    case None => Ok((Scan(s.inside, None), s.inside))
    case Some(c) =>
      var tile := if c == 'S' then startTile else Some(c);
      if tile.None? then Err("Illegal map state")
      else
        match Cross(s, tile.value)
        case Err(e) => Err(e)
        case Ok(next) => Ok((next, false))
  }

  /** How many cells of a row are off the loop. */
  function Gaps(cells: seq<Option<char>>): (n: nat)
    ensures n <= |cells|
  {
    if cells == [] then 0 else Gaps(cells[..|cells| - 1]) + (if cells[|cells| - 1].None? then 1 else 0)
  }

  /** The scan of `cells` from state `s`: the state after them and how
      many of them it counted, never more than the cells off the loop. */
  function ScanCells(s: Scan, cells: seq<Option<char>>, startTile: Option<char>): (r: Result<(Scan, nat)>)
    ensures r.Ok? ==> r.value.1 <= Gaps(cells)
  {
    if cells == [] then Ok((s, 0))
    else
      match ScanCells(s, cells[..|cells| - 1], startTile)
      case Err(e) => Err(e)
      case Ok((mid, n)) =>
        match Step(mid, cells[|cells| - 1], startTile)
        case Err(e) => Err(e)
        case Ok((next, counted)) => Ok((next, if counted then n + 1 else n))
  }

  /** The scan of one more cell is a step from the scan before it. */
  lemma ScanNext(s: Scan, cells: seq<Option<char>>, x: nat, startTile: Option<char>)
    requires x < |cells|
    ensures ScanCells(s, cells[..x + 1], startTile)
            == match ScanCells(s, cells[..x], startTile)
               case Err(e) => Err(e)
               case Ok((mid, n)) =>
                 match Step(mid, cells[x], startTile)
                 case Err(e) => Err(e)
                 case Ok((next, counted)) => Ok((next, if counted then n + 1 else n))
  {
    assert cells[..x + 1][..x] == cells[..x];
  }

  /** The scan of every row, each from outside with no run open; the
      first error ends it. */
  function Area(rows: seq<seq<Option<char>>>, startTile: Option<char>): Result<nat> {
    if rows == [] then Ok(0)
    else
      match Area(rows[..|rows| - 1], startTile)
      case Err(e) => Err(e)
      case Ok(a) =>
        match RowCount(rows[|rows| - 1], startTile)
        case Err(e) => Err(e)
        case Ok(n) => Ok(a + n)
  }

  /** How many cells of a row the scan counts, starting outside with no
      run open; at most the row's cells off the loop. */
  function RowCount(cells: seq<Option<char>>, startTile: Option<char>): (r: Result<nat>)
    ensures r.Ok? ==> r.value <= Gaps(cells)
  {
    match ScanCells(Scan(false, None), cells, startTile)
    case Err(e) => Err(e)
    case Ok((_, n)) => Ok(n)
  }

  /** The area is at most the number of cells. */
  lemma {:induction false} AreaBound(rows: seq<seq<Option<char>>>, startTile: Option<char>, width: nat)
    requires forall y | 0 <= y < |rows| :: |rows[y]| == width
    ensures Area(rows, startTile).Ok? ==> Area(rows, startTile).value <= |rows| * width
  {
    if rows != [] {
      var init := rows[..|rows| - 1];
      AreaBound(init, startTile, width);
      assert |rows| * width == |init| * width + width;
    }
  }

  /** An error in a row's prefix is the error of the whole scan. */
  lemma {:induction false} ScanCellsErr(s: Scan, cells: seq<Option<char>>, startTile: Option<char>, k: nat)
    requires k <= |cells| && ScanCells(s, cells[..k], startTile).Err?
    ensures ScanCells(s, cells, startTile) == ScanCells(s, cells[..k], startTile)
    decreases |cells| - k
  {
    if k < |cells| {
      assert cells[..k + 1][..k] == cells[..k];
      ScanCellsErr(s, cells, startTile, k + 1);
    } else {
      assert cells[..k] == cells;
    }
  }

  lemma {:induction false} AreaErr(rows: seq<seq<Option<char>>>, startTile: Option<char>, k: nat)
    requires k <= |rows| && Area(rows[..k], startTile).Err?
    ensures Area(rows, startTile) == Area(rows[..k], startTile)
    decreases |rows| - k
  {
    if k < |rows| {
      assert rows[..k + 1][..k] == rows[..k];
      AreaErr(rows, startTile, k + 1);
    } else {
      assert rows[..k] == rows;
    }
  }

  function Dashes(n: nat): seq<Option<char>> {
    seq(n, _ => Some('-'))
  }

  /** A bend opens a run that horizontal pipes carry on. */
  lemma {:induction false} RunOpen(s: Scan, bend: char, n: nat, startTile: Option<char>)
    requires s.squeezing.None? && bend in "FL"
    ensures ScanCells(s, [Some(bend)] + Dashes(n), startTile)
            == Ok((Scan(s.inside, Some(if bend == 'F' then Above else Below)), 0))
  {
    if n == 0 {
      assert [Some(bend)] + Dashes(0) == [Some(bend)];
      assert [Some(bend)][..0] == [];
    } else {
      RunOpen(s, bend, n - 1, startTile);
      var cells := [Some(bend)] + Dashes(n);
      assert cells[..|cells| - 1] == [Some(bend)] + Dashes(n - 1);
    }
  }

  /** The scanline rules: crossing the loop along a run `F…J` or `L…7`
      flips inside and outside, `F…7` and `L…J` do not, and `|` always
      does; no run is open afterwards and nothing is counted. */
  lemma RunCrossing(s: Scan, n: nat, startTile: Option<char>)
    requires s.squeezing.None?
    ensures ScanCells(s, [Some('F')] + Dashes(n) + [Some('J')], startTile) == Ok((Scan(!s.inside, None), 0))
    ensures ScanCells(s, [Some('L')] + Dashes(n) + [Some('7')], startTile) == Ok((Scan(!s.inside, None), 0))
    ensures ScanCells(s, [Some('F')] + Dashes(n) + [Some('7')], startTile) == Ok((Scan(s.inside, None), 0))
    ensures ScanCells(s, [Some('L')] + Dashes(n) + [Some('J')], startTile) == Ok((Scan(s.inside, None), 0))
    ensures ScanCells(s, [Some('|')], startTile) == Ok((Scan(!s.inside, None), 0))
  {
    RunClose(s, 'F', 'J', n, startTile);
    RunClose(s, 'L', '7', n, startTile);
    RunClose(s, 'F', '7', n, startTile);
    RunClose(s, 'L', 'J', n, startTile);
    assert [Some('|')][..0] == [];
  }

  /** A run opened by `bend` and closed by `close`. */
  lemma RunClose(s: Scan, bend: char, close: char, n: nat, startTile: Option<char>)
    requires s.squeezing.None? && bend in "FL" && close in "J7"
    ensures ScanCells(s, [Some(bend)] + Dashes(n) + [Some(close)], startTile)
            == Ok((Scan(if (bend == 'F') == (close == 'J') then !s.inside else s.inside, None), 0))
  {
    RunOpen(s, bend, n, startTile);
    var run := [Some(bend)] + Dashes(n);
    assert (run + [Some(close)])[..|run|] == run;
  }
}
