/** Day 14, "Parabolic Reflector Dish": a platform of round rocks that roll
    and cube rocks that stay put. Tilting rolls every round rock as far as
    it goes in one direction; the load counts each round rock by its
    distance from the south edge. */
module ParabolicReflector {
  import opened Wrappers

  datatype Point = Point(x: nat, y: nat)

  datatype TiltDirection = North | East | South | West

  // ---------------------------------------------------------------------
  // Tilt directions

  /** `is_in_front_of`: `a` lies on `b`'s line of travel, strictly ahead
      of it in the direction of the tilt. */
  predicate InFrontOf(d: TiltDirection, a: Point, b: Point) {
    match d
    case North => a.x == b.x && a.y < b.y
    case East => a.y == b.y && a.x > b.x
    case South => a.x == b.x && a.y > b.y
    case West => a.y == b.y && a.x < b.x
  }

  /** `sort_key`: smaller for points nearer the edge the tilt runs to. */
  function SortKey(d: TiltDirection, p: Point): int {
    match d
    case North => p.y
    case East => -1 * p.x
    case South => -1 * p.y
    case West => p.x
  }

  /** The coordinate a tilt leaves alone: the column for North and South,
      the row for East and West. */
  function Lane(d: TiltDirection, p: Point): nat {
    if d == North || d == South then p.x else p.y
  }

  /** Ahead means in the same lane with a smaller sort key, so the rocks
      ahead are exactly the ones the sort puts first. */
  lemma InFrontKey(d: TiltDirection, a: Point, b: Point)
    ensures InFrontOf(d, a, b) <==> Lane(d, a) == Lane(d, b) && SortKey(d, a) < SortKey(d, b)
  {
  }

  /** A lane and a sort key pin down a point. */
  lemma LaneKeyInjective(d: TiltDirection, a: Point, b: Point)
    requires Lane(d, a) == Lane(d, b) && SortKey(d, a) == SortKey(d, b)
    ensures a == b
  {
  }

  /** The sort key of a rock against the edge the tilt runs to. */
  function EdgeKey(d: TiltDirection, height: nat, width: nat): int {
    match d
    case North => 0
    case East => -1 * (width - 1)
    case South => -1 * (height - 1)
    case West => 0
  }

  /** `stack`: the rock keeps its lane and comes to rest just behind the
      point it runs into, or against the edge when nothing is in the way.
      The source subtracts one from a `usize` for East and South, so the
      edge there needs a non-empty platform. */
  function Stack(d: TiltDirection, rock: Point, on: Option<Point>, height: nat, width: nat): (p: Point)
    requires on.Some? ==> InFrontOf(d, on.value, rock)
    requires on.None? && d == East ==> width >= 1
    requires on.None? && d == South ==> height >= 1
    ensures Lane(d, p) == Lane(d, rock)
    ensures on.Some? ==> SortKey(d, p) == SortKey(d, on.value) + 1
    ensures on.None? ==> SortKey(d, p) == EdgeKey(d, height, width)
  {
    match d
    case North => Point(rock.x, if on.Some? then on.value.y + 1 else 0)
    case East => Point(if on.Some? then on.value.x - 1 else width - 1, rock.y)
    case South => Point(rock.x, if on.Some? then on.value.y - 1 else height - 1)
    case West => Point(if on.Some? then on.value.x + 1 else 0, rock.y)
  }

  // ---------------------------------------------------------------------
  // The platform's cells

  predicate Inside(p: Point, height: nat, width: nat) {
    p.x < width && p.y < height
  }

  /** The inside cells lie between the edge and the far side in key
      order. */
  lemma EdgeKeyBelow(d: TiltDirection, p: Point, height: nat, width: nat)
    requires Inside(p, height, width)
    ensures EdgeKey(d, height, width) <= SortKey(d, p)
  {
  }

  /** A point in the lane of an inside point, between the edge and it in
      key order, is inside too. */
  lemma InsideBetween(d: TiltDirection, p: Point, q: Point, height: nat, width: nat)
    requires Inside(p, height, width) && Lane(d, q) == Lane(d, p)
    requires EdgeKey(d, height, width) <= SortKey(d, q) <= SortKey(d, p)
    ensures Inside(q, height, width)
  {
  }

  /** The next cell in the direction of the tilt; none at the edge. */
  function Ahead(d: TiltDirection, p: Point, height: nat, width: nat): (a: Option<Point>)
    ensures a.Some? ==> Lane(d, a.value) == Lane(d, p) && SortKey(d, a.value) == SortKey(d, p) - 1
  {
    match d
    case North => if p.y == 0 then None else Some(Point(p.x, p.y - 1))
    case East => if p.x + 1 >= width then None else Some(Point(p.x + 1, p.y))
    case South => if p.y + 1 >= height then None else Some(Point(p.x, p.y + 1))
    case West => if p.x == 0 then None else Some(Point(p.x - 1, p.y))
  }

  /** An inside cell is at the edge exactly when its key is the edge key,
      and the cell ahead of it is inside. */
  lemma AheadEdge(d: TiltDirection, p: Point, height: nat, width: nat)
    requires Inside(p, height, width)
    ensures Ahead(d, p, height, width).None? <==> SortKey(d, p) == EdgeKey(d, height, width)
    ensures Ahead(d, p, height, width).Some? ==> Inside(Ahead(d, p, height, width).value, height, width)
  {
  }

  /** What `stack` gives rests on the edge or on what it ran into. */
  lemma StackRests(d: TiltDirection, rock: Point, on: Option<Point>, height: nat, width: nat)
    requires Inside(rock, height, width)
    requires on.Some? ==> InFrontOf(d, on.value, rock) && Inside(on.value, height, width)
    ensures Inside(Stack(d, rock, on, height, width), height, width)
    ensures Ahead(d, Stack(d, rock, on, height, width), height, width) == on
    ensures SortKey(d, Stack(d, rock, on, height, width)) <= SortKey(d, rock)
  {
    var p := Stack(d, rock, on, height, width);
    EdgeKeyBelow(d, rock, height, width);
    if on.Some? {
      EdgeKeyBelow(d, on.value, height, width);
    }
    InsideBetween(d, rock, p, height, width);
    AheadEdge(d, p, height, width);
    if on.Some? {
      LaneKeyInjective(d, Ahead(d, p, height, width).value, on.value);
    }
  }

  /** Cube and round rocks never share a cell, and all of them lie on the
      platform. */
  ghost predicate Consistent(rocks: set<Point>, fixed: set<Point>, height: nat, width: nat) {
    rocks !! fixed && forall p | p in rocks + fixed :: Inside(p, height, width)
  }

  /** No round rock can roll any further: the cell ahead of each is off
      the platform or taken. */
  ghost predicate Settled(d: TiltDirection, rocks: set<Point>, fixed: set<Point>, height: nat, width: nat) {
    forall q | q in rocks :: Ahead(d, q, height, width).None? || Ahead(d, q, height, width).value in rocks + fixed
  }

  // ---------------------------------------------------------------------
  // Reading the platform

  predicate Cell(c: char) {
    c == 'O' || c == '#' || c == '.'
  }

  predicate Clean(lines: seq<string>) {
    forall y, x | 0 <= y < |lines| && 0 <= x < |lines[y]| :: Cell(lines[y][x])
  }

  /** The cells of the lines holding `c`, at their column and row. */
  function CellsOf(lines: seq<string>, c: char): set<Point> {
    set y: nat, x: nat | y < |lines| && x < |lines[y]| && lines[y][x] == c :: Point(x, y)
  }

  /** The width `parse` records: the length of the last line. */
  function WidthOf(lines: seq<string>): nat {
    if lines == [] then 0 else |lines[|lines| - 1]|
  }

  /** The cells holding `c` in the lines before row `y` and in row `y`
      before column `x`. */
  function SeenBefore(lines: seq<string>, y: nat, x: nat, c: char): set<Point> {
    set yy: nat, xx: nat | yy < |lines| && xx < |lines[yy]| && (yy < y || (yy == y && xx < x)) && lines[yy][xx] == c :: Point(xx, yy)
  }

  predicate CleanBefore(lines: seq<string>, y: nat, x: nat) {
    forall yy, xx | 0 <= yy < |lines| && 0 <= xx < |lines[yy]| && (yy < y || (yy == y && xx < x)) :: Cell(lines[yy][xx])
  }

  lemma SeenStep(lines: seq<string>, y: nat, x: nat, c: char)
    requires y < |lines| && x < |lines[y]|
    ensures SeenBefore(lines, y, x + 1, c)
            == SeenBefore(lines, y, x, c) + (if lines[y][x] == c then {Point(x, y)} else {})
  {
    var a := SeenBefore(lines, y, x + 1, c);
    var b := SeenBefore(lines, y, x, c) + (if lines[y][x] == c then {Point(x, y)} else {});
    forall p | p in a
      ensures p in b
    {
      if p.y == y && p.x == x {
        assert lines[y][x] == c;
      } else {
        assert lines[p.y][p.x] == c;
      }
    }
    forall p | p in b
      ensures p in a
    {
      if p != Point(x, y) {
        assert lines[p.y][p.x] == c;
      }
    }
  }

  lemma SeenRow(lines: seq<string>, y: nat, c: char)
    requires y < |lines|
    ensures SeenBefore(lines, y, |lines[y]|, c) == SeenBefore(lines, y + 1, 0, c)
  {
    var a := SeenBefore(lines, y, |lines[y]|, c);
    var b := SeenBefore(lines, y + 1, 0, c);
    forall p | p in b
      ensures p in a
    {
      assert lines[p.y][p.x] == c;
    }
  }

  lemma CleanRow(lines: seq<string>, y: nat)
    requires y < |lines|
    ensures CleanBefore(lines, y, |lines[y]|) == CleanBefore(lines, y + 1, 0)
  {
  }

  lemma SeenAll(lines: seq<string>, c: char)
    ensures SeenBefore(lines, |lines|, 0, c) == CellsOf(lines, c)
  {
    var a := SeenBefore(lines, |lines|, 0, c);
    forall p | p in CellsOf(lines, c)
      ensures p in a
    {
      assert lines[p.y][p.x] == c;
    }
  }

  /** A cell holds a rock exactly when its line has that character there. */
  lemma CellsOfSpec(lines: seq<string>, c: char, p: Point)
    ensures p in CellsOf(lines, c) <==> p.y < |lines| && p.x < |lines[p.y]| && lines[p.y][p.x] == c
  {
    if p.y < |lines| && p.x < |lines[p.y]| && lines[p.y][p.x] == c {
      assert Point(p.x, p.y) == p;
    }
  }

  /** Lines of one length give a consistent platform: one character per
      cell, and every cell inside the recorded width and height. */
  lemma ParsedConsistent(lines: seq<string>)
    requires forall y | 0 <= y < |lines| :: |lines[y]| == WidthOf(lines)
    ensures Consistent(CellsOf(lines, 'O'), CellsOf(lines, '#'), |lines|, WidthOf(lines))
  {
    forall p | p in CellsOf(lines, 'O') + CellsOf(lines, '#')
      ensures Inside(p, |lines|, WidthOf(lines))
    {
      CellsOfSpec(lines, 'O', p);
      CellsOfSpec(lines, '#', p);
    }
    forall p | p in CellsOf(lines, 'O')
      ensures p !in CellsOf(lines, '#')
    {
      CellsOfSpec(lines, 'O', p);
      CellsOfSpec(lines, '#', p);
    }
  }

  // ---------------------------------------------------------------------
  // Tilting

  /** The rocks in key order, each once. */
  ghost predicate SortedBy(d: TiltDirection, s: seq<Point>) {
    (forall i, j | 0 <= i < j < |s| :: s[i] != s[j])
    && forall i, j | 0 <= i < j < |s| :: SortKey(d, s[i]) <= SortKey(d, s[j])
  }

  /** A rock of the lane with a key no smaller: in key order, a later rock
      of the same lane is strictly behind an earlier one. */
  lemma SortedLane(d: TiltDirection, s: seq<Point>, i: nat, j: nat)
    requires SortedBy(d, s) && i < j < |s| && Lane(d, s[i]) == Lane(d, s[j])
    ensures SortKey(d, s[i]) < SortKey(d, s[j])
  {
    if SortKey(d, s[i]) == SortKey(d, s[j]) {
      LaneKeyInjective(d, s[i], s[j]);
    }
  }

  /** Key order with ties broken by lane: a total order on points. The
      unstable sort of the source may order rocks of equal key either way;
      such rocks lie in different lanes. */
  predicate Before(d: TiltDirection, a: Point, b: Point) {
    SortKey(d, a) < SortKey(d, b) || (SortKey(d, a) == SortKey(d, b) && Lane(d, a) <= Lane(d, b))
  }

  /** A non-empty set of rocks has a first one in that order. */
  lemma {:induction false} FirstExists(d: TiltDirection, rocks: set<Point>)
    requires rocks != {}
    ensures exists m | m in rocks :: forall p | p in rocks :: Before(d, m, p)
    decreases |rocks|
  {
    var x :| x in rocks;
    if rocks - {x} == {} {
      assert rocks == (rocks - {x}) + {x};
      assert Before(d, x, x);
    } else {
      FirstExists(d, rocks - {x});
      var m :| m in rocks - {x} && forall p | p in rocks - {x} :: Before(d, m, p);
      if Before(d, m, x) {
        assert forall p | p in rocks :: Before(d, m, p);
      } else {
        forall p | p in rocks
          ensures Before(d, x, p)
        {
          if p != x {
            BeforeTransitive(d, x, m, p);
          }
        }
      }
    }
  }

  /** The order is total and transitive. */
  lemma BeforeTransitive(d: TiltDirection, a: Point, b: Point, c: Point)
    requires !Before(d, b, a) && Before(d, b, c)
    ensures Before(d, a, c)
  {
  }

  /** Two rocks each before the other are the same rock. */
  lemma BeforeAntisymmetric(d: TiltDirection, rocks: set<Point>)
    ensures forall a, b | a in rocks && b in rocks && Before(d, a, b) && Before(d, b, a) :: a == b
  {
    forall a, b | a in rocks && b in rocks && Before(d, a, b) && Before(d, b, a)
      ensures a == b
    {
      LaneKeyInjective(d, a, b);
    }
  }

  /** The rocks in the order the sort puts them: the first rock, then the
      others in order. */
  ghost function KeyOrder(d: TiltDirection, rocks: set<Point>): (s: seq<Point>)
    ensures |s| == |rocks| && (forall p :: p in s <==> p in rocks)
    decreases |rocks|
  {
    if rocks == {} then []
    else
      FirstExists(d, rocks);
      var m :| m in rocks && forall p | p in rocks :: Before(d, m, p);
      [m] + KeyOrder(d, rocks - {m})
  }

  /** The order starts with the rock before all others. */
  lemma KeyOrderFirst(d: TiltDirection, rocks: set<Point>, first: Point)
    requires first in rocks && forall p | p in rocks :: Before(d, first, p)
    ensures KeyOrder(d, rocks) == [first] + KeyOrder(d, rocks - {first})
  {
    BeforeAntisymmetric(d, rocks);
  }

  /** The order keeps every rock once, in key order. */
  lemma {:induction false} KeyOrderSorted(d: TiltDirection, rocks: set<Point>)
    ensures SortedBy(d, KeyOrder(d, rocks))
    decreases |rocks|
  {
    if rocks != {} {
      FirstExists(d, rocks);
      var m :| m in rocks && forall p | p in rocks :: Before(d, m, p);
      KeyOrderFirst(d, rocks, m);
      KeyOrderSorted(d, rocks - {m});
      SortedCons(d, m, KeyOrder(d, rocks - {m}));
    }
  }

  lemma SortedCons(d: TiltDirection, m: Point, rest: seq<Point>)
    requires SortedBy(d, rest) && m !in rest
    requires forall p | p in rest :: Before(d, m, p)
    ensures SortedBy(d, [m] + rest)
  {
    var s := [m] + rest;
    forall i, j | 0 <= i < j < |s|
      ensures s[i] != s[j] && SortKey(d, s[i]) <= SortKey(d, s[j])
    {
      if i == 0 {
        assert s[j] == rest[j - 1] && rest[j - 1] in rest;
      } else {
        assert s[i] == rest[i - 1] && s[j] == rest[j - 1];
      }
    }
  }

  /** The sort at the start of `tilt`: the taken rocks in key order. */
  method SortByKey(d: TiltDirection, rocks: set<Point>) returns (sorted: seq<Point>)
    ensures |sorted| == |rocks| && (forall p :: p in sorted <==> p in rocks)
    ensures SortedBy(d, sorted)
    ensures sorted == KeyOrder(d, rocks)
  {
    sorted := [];
    var rest := rocks;
    assert sorted + KeyOrder(d, rest) == KeyOrder(d, rocks);
    while rest != {}
      invariant rest <= rocks
      invariant sorted + KeyOrder(d, rest) == KeyOrder(d, rocks)
      decreases |rest|
    {
      var least := Least(d, rest);
      SortStep(d, sorted, rest, least);
      sorted := sorted + [least];
      rest := rest - {least};
    }
    assert KeyOrder(d, rest) == [];
    assert sorted == sorted + KeyOrder(d, rest);
    KeyOrderSorted(d, rocks);
  }

  lemma SortStep(d: TiltDirection, sorted: seq<Point>, rest: set<Point>, least: Point)
    requires least in rest && forall p | p in rest :: Before(d, least, p)
    ensures sorted + [least] + KeyOrder(d, rest - {least}) == sorted + KeyOrder(d, rest)
  {
    KeyOrderFirst(d, rest, least);
  }

  /** The first rock of a set of rocks in key order. */
  method Least(d: TiltDirection, rocks: set<Point>) returns (least: Point)
    requires rocks != {}
    ensures least in rocks && forall p | p in rocks :: Before(d, least, p)
  {
    least :| least in rocks;
    var rest := rocks - {least};
    while rest != {}
      invariant rest <= rocks && least in rocks
      invariant forall p | p in rocks - rest :: Before(d, least, p)
      decreases |rest|
    {
      var p :| p in rest;
      if !Before(d, least, p) {
        forall q | q in rocks - rest
          ensures Before(d, p, q)
        {
          BeforeTransitive(d, p, least, q);
        }
        least := p;
      }
      rest := rest - {p};
    }
  }

  /** What the search for a blocker finds: nothing when no point is ahead
      of the rock, otherwise the point ahead with the largest key, the
      nearest one. */
  ghost predicate IsBlock(d: TiltDirection, occupied: set<Point>, rock: Point, b: Option<Point>) {
    (b.None? <==> forall o | o in occupied :: !InFrontOf(d, o, rock))
    && (b.Some? ==> b.value in occupied && InFrontOf(d, b.value, rock)
                    && forall o | o in occupied && InFrontOf(d, o, rock) :: SortKey(d, o) <= SortKey(d, b.value))
  }

  /** The `filter`/`max_by_key` over the cube rocks and the rocks already
      placed. */
  method FindBlock(d: TiltDirection, occupied: set<Point>, rock: Point) returns (b: Option<Point>)
    ensures IsBlock(d, occupied, rock, b)
  {
    b := None;
    var rest := occupied;
    while rest != {}
      invariant rest <= occupied
      invariant b.None? <==> forall o | o in occupied - rest :: !InFrontOf(d, o, rock)
      invariant b.Some? ==> b.value in occupied - rest && InFrontOf(d, b.value, rock)
      invariant b.Some? ==> forall o | o in occupied - rest && InFrontOf(d, o, rock) :: SortKey(d, o) <= SortKey(d, b.value)
      decreases |rest|
    {
      var o :| o in rest;
      if InFrontOf(d, o, rock) && (b.None? || SortKey(d, b.value) <= SortKey(d, o)) {
        b := Some(o);
      }
      rest := rest - {o};
    }
  }

  /** What holds after the first `i` sorted rocks are placed:
      the placed rocks are `i` distinct cells of the platform clear of the
      cube rocks, each settled, each ahead of every rock still to come in
      its lane, and each moved forward along the lane of a rock already
      taken. */
  ghost predicate Placing(d: TiltDirection, fixed: set<Point>, placed: set<Point>, sorted: seq<Point>, i: nat, height: nat, width: nat) {
    i <= |sorted| && |placed| == i
    && Consistent(placed, fixed, height, width)
    && Settled(d, placed, fixed, height, width)
    && AheadOfRest(d, placed, sorted, i)
    && FromTaken(d, placed, sorted, i)
  }

  /** Nothing placed yet. */
  lemma PlacingStart(d: TiltDirection, fixed: set<Point>, sorted: seq<Point>, height: nat, width: nat)
    requires forall p | p in fixed :: Inside(p, height, width)
    ensures Placing(d, fixed, {}, sorted, 0, height, width)
  {
    assert {} + fixed == fixed;
  }

  /** Every placed rock is ahead of the rocks still to come in its lane. */
  ghost predicate AheadOfRest(d: TiltDirection, placed: set<Point>, sorted: seq<Point>, i: nat) {
    forall q, j | q in placed && i <= j < |sorted| && Lane(d, sorted[j]) == Lane(d, q) :: SortKey(d, q) < SortKey(d, sorted[j])
  }

  /** Every placed rock lies on the lane of a rock already taken, no
      further back. */
  ghost predicate FromTaken(d: TiltDirection, placed: set<Point>, sorted: seq<Point>, i: nat)
    requires i <= |sorted|
  {
    forall q | q in placed :: exists j | 0 <= j < i :: Lane(d, q) == Lane(d, sorted[j]) && SortKey(d, q) <= SortKey(d, sorted[j])
  }

  lemma AheadOfRestStep(d: TiltDirection, placed: set<Point>, sorted: seq<Point>, i: nat, n: Point)
    requires AheadOfRest(d, placed, sorted, i) && SortedBy(d, sorted) && i < |sorted|
    requires Lane(d, n) == Lane(d, sorted[i]) && SortKey(d, n) <= SortKey(d, sorted[i])
    ensures AheadOfRest(d, placed + {n}, sorted, i + 1)
  {
    forall q, j | q in placed + {n} && i + 1 <= j < |sorted| && Lane(d, sorted[j]) == Lane(d, q)
      ensures SortKey(d, q) < SortKey(d, sorted[j])
    {
      if q == n {
        SortedLane(d, sorted, i, j);
      }
    }
  }

  /** Once every rock is placed, each lies on the lane of one of the
      rocks taken, no further back. */
  lemma FromTakenAll(d: TiltDirection, placed: set<Point>, sorted: seq<Point>, taken: set<Point>)
    requires FromTaken(d, placed, sorted, |sorted|)
    requires forall p :: p in sorted <==> p in taken
    ensures forall q | q in placed :: exists r | r in taken :: Lane(d, q) == Lane(d, r) && SortKey(d, q) <= SortKey(d, r)
  {
    forall q | q in placed
      ensures exists r | r in taken :: Lane(d, q) == Lane(d, r) && SortKey(d, q) <= SortKey(d, r)
    {
      var j :| 0 <= j < |sorted| && Lane(d, q) == Lane(d, sorted[j]) && SortKey(d, q) <= SortKey(d, sorted[j]);
      assert sorted[j] in taken;
    }
  }

  lemma FromTakenStep(d: TiltDirection, placed: set<Point>, sorted: seq<Point>, i: nat, n: Point)
    requires i < |sorted| && FromTaken(d, placed, sorted, i)
    requires Lane(d, n) == Lane(d, sorted[i]) && SortKey(d, n) <= SortKey(d, sorted[i])
    ensures FromTaken(d, placed + {n}, sorted, i + 1)
  {
    forall q | q in placed + {n}
      ensures exists j | 0 <= j < i + 1 :: Lane(d, q) == Lane(d, sorted[j]) && SortKey(d, q) <= SortKey(d, sorted[j])
    {
      if q == n {
        assert Lane(d, q) == Lane(d, sorted[i]) && SortKey(d, q) <= SortKey(d, sorted[i]);
      }
    }
  }

  /** Where `stack` puts the next rock is a free cell of the platform,
      resting on what blocked it, no further back than where it was. */
  lemma PlaceFree(d: TiltDirection, fixed: set<Point>, placed: set<Point>, sorted: seq<Point>, i: nat, height: nat, width: nat, b: Option<Point>)
    requires Placing(d, fixed, placed, sorted, i, height, width) && i < |sorted|
    requires sorted[i] !in fixed && Inside(sorted[i], height, width)
    requires IsBlock(d, fixed + placed, sorted[i], b)
    ensures b.None? && d == East ==> width >= 1
    ensures b.None? && d == South ==> height >= 1
    ensures var n := Stack(d, sorted[i], b, height, width);
            n !in placed && n !in fixed && Inside(n, height, width)
            && Ahead(d, n, height, width) == b && SortKey(d, n) <= SortKey(d, sorted[i])
  {
    var rock := sorted[i];
    var n := Stack(d, rock, b, height, width);
    StackRests(d, rock, b, height, width);
    assert n !in placed by {
      if n in placed {
        assert SortKey(d, n) < SortKey(d, rock);
        assert InFrontOf(d, n, rock);
      }
    }
    assert n !in fixed by {
      if n in fixed {
        if SortKey(d, n) < SortKey(d, rock) {
          assert InFrontOf(d, n, rock);
        } else {
          LaneKeyInjective(d, n, rock);
        }
      }
    }
  }

  /** Placing the next rock where `stack` puts it keeps all of that. */
  lemma PlaceStep(d: TiltDirection, fixed: set<Point>, placed: set<Point>, sorted: seq<Point>, i: nat, height: nat, width: nat, b: Option<Point>)
    requires Placing(d, fixed, placed, sorted, i, height, width) && i < |sorted|
    requires SortedBy(d, sorted) && sorted[i] !in fixed && Inside(sorted[i], height, width)
    requires IsBlock(d, fixed + placed, sorted[i], b)
    ensures b.None? && d == East ==> width >= 1
    ensures b.None? && d == South ==> height >= 1
    ensures Placing(d, fixed, placed + {Stack(d, sorted[i], b, height, width)}, sorted, i + 1, height, width)
  {
    PlaceFree(d, fixed, placed, sorted, i, height, width, b);
    var n := Stack(d, sorted[i], b, height, width);
    var placed' := placed + {n};
    assert |placed'| == i + 1;
    assert Consistent(placed', fixed, height, width);
    assert Settled(d, placed', fixed, height, width);
    AheadOfRestStep(d, placed, sorted, i, n);
    FromTakenStep(d, placed, sorted, i, n);
  }

  /** The rocks after a tilt, computed on the sets themselves: sort, then
      put each back in turn. */
  method TiltRocks(d: TiltDirection, rocks: set<Point>, fixed: set<Point>, height: nat, width: nat) returns (placed: set<Point>)
    requires Consistent(rocks, fixed, height, width)
    ensures Consistent(placed, fixed, height, width)
    ensures |placed| == |rocks|
    ensures forall q | q in placed :: exists r | r in rocks :: Lane(d, q) == Lane(d, r) && SortKey(d, q) <= SortKey(d, r)
    ensures Settled(d, placed, fixed, height, width)
    ensures SegmentsKept(d, fixed, placed, rocks)
    ensures placed == TiltOf(d, rocks, fixed, height, width)
  {
    var sorted := SortByKey(d, rocks);
    KeyOrderClear(d, rocks, fixed, height, width);
    placed := {};
    for i := 0 to |sorted|
      invariant placed == Tilted(d, fixed, sorted, i, height, width)
    {
      placed := PutBack(d, fixed, placed, sorted[i], height, width);
      TiltedUnfold(d, fixed, sorted, i, height, width);
    }
    TiltedKeeps(d, rocks, fixed, height, width);
  }

  /** The loop body of `tilt`: find what blocks the next rock among the
      cube rocks and the rocks already put back, and add the rock where
      `stack` leaves it. */
  method PutBack(d: TiltDirection, fixed: set<Point>, placed: set<Point>, rock: Point, height: nat, width: nat)
    returns (placed': set<Point>)
    requires Inside(rock, height, width)
    ensures placed' == placed + {Stack(d, rock, Nearest(d, fixed + placed, rock), height, width)}
  {
    var block := FindBlock(d, fixed + placed, rock);
    NearestIsBlock(d, fixed + placed, rock);
    IsBlockUnique(d, fixed + placed, rock, block, Nearest(d, fixed + placed, rock));
    placed' := placed + {Stack(d, rock, block, height, width)};
  }

  /** Two answers to the search for a blocker agree: the nearest point
      ahead is unique. */
  lemma IsBlockUnique(d: TiltDirection, occupied: set<Point>, rock: Point, b: Option<Point>, c: Option<Point>)
    requires IsBlock(d, occupied, rock, b) && IsBlock(d, occupied, rock, c)
    ensures b == c
  {
    if b.Some? && c.Some? {
      LaneKeyInjective(d, b.value, c.value);
    }
  }

  /** Some point ahead of the rock has the greatest key among those
      ahead. */
  lemma {:induction false} NearestExists(d: TiltDirection, occupied: set<Point>, rock: Point)
    requires exists o | o in occupied :: InFrontOf(d, o, rock)
    ensures exists o | o in occupied && InFrontOf(d, o, rock) :: forall o' | o' in occupied && InFrontOf(d, o', rock) :: SortKey(d, o') <= SortKey(d, o)
    decreases |occupied|
  {
    var x :| x in occupied && InFrontOf(d, x, rock);
    var rest := occupied - {x};
    if exists o | o in rest :: InFrontOf(d, o, rock) {
      NearestExists(d, rest, rock);
      var m :| m in rest && InFrontOf(d, m, rock) && forall o' | o' in rest && InFrontOf(d, o', rock) :: SortKey(d, o') <= SortKey(d, m);
      if SortKey(d, x) <= SortKey(d, m) {
        assert forall o' | o' in occupied && InFrontOf(d, o', rock) :: SortKey(d, o') <= SortKey(d, m);
      } else {
        assert forall o' | o' in occupied && InFrontOf(d, o', rock) :: SortKey(d, o') <= SortKey(d, x);
      }
    } else {
      assert forall o' | o' in occupied && InFrontOf(d, o', rock) :: o' == x;
    }
  }

  /** What the search for a blocker finds, as a function. */
  ghost function Nearest(d: TiltDirection, occupied: set<Point>, rock: Point): (b: Option<Point>)
    ensures b.Some? ==> InFrontOf(d, b.value, rock)
  {
    if forall o | o in occupied :: !InFrontOf(d, o, rock) then None
    else
      NearestExists(d, occupied, rock);
      var o :| o in occupied && InFrontOf(d, o, rock) && forall o' | o' in occupied && InFrontOf(d, o', rock) :: SortKey(d, o') <= SortKey(d, o);
      Some(o)
  }

  lemma NearestIsBlock(d: TiltDirection, occupied: set<Point>, rock: Point)
    ensures IsBlock(d, occupied, rock, Nearest(d, occupied, rock))
  {
  }

  /** The reference tilt: put the first `n` rocks of `s` back one after
      the other, each stacked on the nearest cube rock or rock already put
      back. */
  ghost function Tilted(d: TiltDirection, fixed: set<Point>, s: seq<Point>, n: nat, height: nat, width: nat): set<Point>
    requires n <= |s| && forall i | 0 <= i < |s| :: Inside(s[i], height, width)
  {
    if n == 0 then {}
    else
      var placed := Tilted(d, fixed, s, n - 1, height, width);
      var rock := s[n - 1];
      assert Inside(rock, height, width);
      placed + {Stack(d, rock, Nearest(d, fixed + placed, rock), height, width)}
  }

  /** The rocks after a tilt: all of them put back in key order. */
  ghost function TiltOf(d: TiltDirection, rocks: set<Point>, fixed: set<Point>, height: nat, width: nat): set<Point>
    requires forall p | p in rocks :: Inside(p, height, width)
  {
    var s := KeyOrder(d, rocks);
    assert forall i | 0 <= i < |s| :: s[i] in rocks;
    Tilted(d, fixed, s, |s|, height, width)
  }

  /** The rocks of a lane. */
  ghost function InLane(d: TiltDirection, rocks: set<Point>, lane: nat): set<Point> {
    set q | q in rocks && Lane(d, q) == lane
  }

  /** The rocks of a lane behind a key. */
  ghost function Behind(d: TiltDirection, rocks: set<Point>, lane: nat, key: int): set<Point> {
    set q | q in rocks && Lane(d, q) == lane && SortKey(d, q) > key
  }

  /** Every lane holds as many rocks in `placed` as in `taken`, and so does
      the part of it behind each cube rock: no rock changes lane or gets
      past a cube rock. */
  ghost predicate SegmentsKept(d: TiltDirection, fixed: set<Point>, placed: set<Point>, taken: set<Point>) {
    (forall lane: nat :: |InLane(d, placed, lane)| == |InLane(d, taken, lane)|)
    && forall c | c in fixed :: |Behind(d, placed, Lane(d, c), SortKey(d, c))| == |Behind(d, taken, Lane(d, c), SortKey(d, c))|
  }

  lemma InLaneAdd(d: TiltDirection, rocks: set<Point>, x: Point, lane: nat)
    requires x !in rocks
    ensures |InLane(d, rocks + {x}, lane)| == |InLane(d, rocks, lane)| + (if Lane(d, x) == lane then 1 else 0)
  {
    if Lane(d, x) == lane {
      assert InLane(d, rocks + {x}, lane) == InLane(d, rocks, lane) + {x};
    } else {
      assert InLane(d, rocks + {x}, lane) == InLane(d, rocks, lane);
    }
  }

  lemma BehindAdd(d: TiltDirection, rocks: set<Point>, x: Point, lane: nat, key: int)
    requires x !in rocks
    ensures |Behind(d, rocks + {x}, lane, key)| == |Behind(d, rocks, lane, key)| + (if Lane(d, x) == lane && SortKey(d, x) > key then 1 else 0)
  {
    if Lane(d, x) == lane && SortKey(d, x) > key {
      assert Behind(d, rocks + {x}, lane, key) == Behind(d, rocks, lane, key) + {x};
    } else {
      assert Behind(d, rocks + {x}, lane, key) == Behind(d, rocks, lane, key);
    }
  }

  /** A stacked rock is behind a cube rock of its lane exactly when it
      started behind it. */
  lemma StackKeepsSide(d: TiltDirection, fixed: set<Point>, placed: set<Point>, rock: Point, b: Option<Point>, height: nat, width: nat, c: Point)
    requires Inside(rock, height, width) && rock !in fixed && c in fixed && Lane(d, c) == Lane(d, rock)
    requires IsBlock(d, fixed + placed, rock, b)
    requires b.None? && d == East ==> width >= 1
    requires b.None? && d == South ==> height >= 1
    ensures SortKey(d, Stack(d, rock, b, height, width)) > SortKey(d, c) <==> SortKey(d, rock) > SortKey(d, c)
  {
    var n := Stack(d, rock, b, height, width);
    if SortKey(d, rock) > SortKey(d, c) {
      assert InFrontOf(d, c, rock);
    } else if SortKey(d, rock) == SortKey(d, c) {
      LaneKeyInjective(d, rock, c);
    } else {
      if b.Some? {
        assert SortKey(d, b.value) < SortKey(d, rock);
      } else {
        EdgeKeyBelow(d, rock, height, width);
      }
    }
  }

  /** Putting back one more rock keeps the counts. */
  lemma KeptStep(d: TiltDirection, fixed: set<Point>, placed: set<Point>, taken: set<Point>, rock: Point, b: Option<Point>, height: nat, width: nat)
    requires SegmentsKept(d, fixed, placed, taken)
    requires Inside(rock, height, width) && rock !in fixed && rock !in taken
    requires IsBlock(d, fixed + placed, rock, b)
    requires b.None? && d == East ==> width >= 1
    requires b.None? && d == South ==> height >= 1
    requires Stack(d, rock, b, height, width) !in placed
    ensures SegmentsKept(d, fixed, placed + {Stack(d, rock, b, height, width)}, taken + {rock})
  {
    var n := Stack(d, rock, b, height, width);
    forall lane: nat
      ensures |InLane(d, placed + {n}, lane)| == |InLane(d, taken + {rock}, lane)|
    {
      InLaneAdd(d, placed, n, lane);
      InLaneAdd(d, taken, rock, lane);
    }
    forall c | c in fixed
      ensures |Behind(d, placed + {n}, Lane(d, c), SortKey(d, c))| == |Behind(d, taken + {rock}, Lane(d, c), SortKey(d, c))|
    {
      BehindAdd(d, placed, n, Lane(d, c), SortKey(d, c));
      BehindAdd(d, taken, rock, Lane(d, c), SortKey(d, c));
      if Lane(d, c) == Lane(d, rock) {
        StackKeepsSide(d, fixed, placed, rock, b, height, width, c);
      }
    }
  }

  /** The rocks of the first `i` of `s`. */
  ghost function Taken(s: seq<Point>, i: nat): set<Point>
    requires i <= |s|
  {
    set j | 0 <= j < i :: s[j]
  }

  lemma PlacingStepAt(d: TiltDirection, fixed: set<Point>, s: seq<Point>, i: nat, height: nat, width: nat)
    requires SortedBy(d, s) && i < |s|
    requires forall j | 0 <= j < |s| :: s[j] !in fixed && Inside(s[j], height, width)
    requires Placing(d, fixed, Tilted(d, fixed, s, i, height, width), s, i, height, width)
    ensures Placing(d, fixed, Tilted(d, fixed, s, i + 1, height, width), s, i + 1, height, width)
  {
    var placed := Tilted(d, fixed, s, i, height, width);
    NearestIsBlock(d, fixed + placed, s[i]);
    PlaceStep(d, fixed, placed, s, i, height, width, Nearest(d, fixed + placed, s[i]));
    TiltedUnfold(d, fixed, s, i, height, width);
  }

  lemma SegmentsStepAt(d: TiltDirection, fixed: set<Point>, s: seq<Point>, i: nat, height: nat, width: nat)
    requires SortedBy(d, s) && i < |s|
    requires forall j | 0 <= j < |s| :: s[j] !in fixed && Inside(s[j], height, width)
    requires Placing(d, fixed, Tilted(d, fixed, s, i, height, width), s, i, height, width)
    requires SegmentsKept(d, fixed, Tilted(d, fixed, s, i, height, width), Taken(s, i))
    ensures SegmentsKept(d, fixed, Tilted(d, fixed, s, i + 1, height, width), Taken(s, i + 1))
  {
    var placed := Tilted(d, fixed, s, i, height, width);
    var b := Nearest(d, fixed + placed, s[i]);
    NearestIsBlock(d, fixed + placed, s[i]);
    PlaceFree(d, fixed, placed, s, i, height, width, b);
    TakenStep(d, s, i);
    KeptStep(d, fixed, placed, Taken(s, i), s[i], b, height, width);
    TiltedUnfold(d, fixed, s, i, height, width);
  }

  lemma TiltedUnfold(d: TiltDirection, fixed: set<Point>, s: seq<Point>, i: nat, height: nat, width: nat)
    requires i < |s| && forall j | 0 <= j < |s| :: Inside(s[j], height, width)
    ensures Tilted(d, fixed, s, i + 1, height, width)
            == Tilted(d, fixed, s, i, height, width) + {Stack(d, s[i], Nearest(d, fixed + Tilted(d, fixed, s, i, height, width), s[i]), height, width)}
  {
  }

  lemma TakenStep(d: TiltDirection, s: seq<Point>, i: nat)
    requires SortedBy(d, s) && i < |s|
    ensures s[i] !in Taken(s, i) && Taken(s, i + 1) == Taken(s, i) + {s[i]}
  {
  }

  lemma TakenAll(s: seq<Point>, rocks: set<Point>)
    requires forall p :: p in s <==> p in rocks
    ensures Taken(s, |s|) == rocks
  {
    forall p | p in rocks
      ensures p in Taken(s, |s|)
    {
      var j :| 0 <= j < |s| && s[j] == p;
    }
  }

  /** The tilt as the source computes it, on the rocks in key order: as
      many rocks as before, on the platform and clear of the cube rocks,
      each moved forward along a lane that held a rock, every lane and
      every segment between cube rocks keeping its count, and none able
      to roll any further. */
  /** Putting back every rock of a key-ordered sequence keeps the
      placement invariant and the segment counts. */
  lemma TiltedRun(d: TiltDirection, fixed: set<Point>, s: seq<Point>, height: nat, width: nat)
    requires SortedBy(d, s)
    requires forall p | p in fixed :: Inside(p, height, width)
    requires forall j | 0 <= j < |s| :: s[j] !in fixed && Inside(s[j], height, width)
    ensures Placing(d, fixed, Tilted(d, fixed, s, |s|, height, width), s, |s|, height, width)
    ensures SegmentsKept(d, fixed, Tilted(d, fixed, s, |s|, height, width), Taken(s, |s|))
  {
    PlacingStart(d, fixed, s, height, width);
    assert Taken(s, 0) == {};
    for i := 0 to |s|
      invariant Placing(d, fixed, Tilted(d, fixed, s, i, height, width), s, i, height, width)
      invariant SegmentsKept(d, fixed, Tilted(d, fixed, s, i, height, width), Taken(s, i))
    {
      SegmentsStepAt(d, fixed, s, i, height, width);
      PlacingStepAt(d, fixed, s, i, height, width);
    }
  }

  /** The reference tilt keeps the rocks' number, lanes and segments,
      moves each only forward and leaves them settled. */
  lemma TiltedKeeps(d: TiltDirection, rocks: set<Point>, fixed: set<Point>, height: nat, width: nat)
    requires Consistent(rocks, fixed, height, width)
    ensures Consistent(TiltOf(d, rocks, fixed, height, width), fixed, height, width)
    ensures |TiltOf(d, rocks, fixed, height, width)| == |rocks|
    ensures forall q | q in TiltOf(d, rocks, fixed, height, width) :: exists r | r in rocks :: Lane(d, q) == Lane(d, r) && SortKey(d, q) <= SortKey(d, r)
    ensures SegmentsKept(d, fixed, TiltOf(d, rocks, fixed, height, width), rocks)
    ensures Settled(d, TiltOf(d, rocks, fixed, height, width), fixed, height, width)
  {
    var s := KeyOrder(d, rocks);
    KeyOrderSorted(d, rocks);
    KeyOrderClear(d, rocks, fixed, height, width);
    TiltedRun(d, fixed, s, height, width);
    PlacedAll(d, fixed, TiltOf(d, rocks, fixed, height, width), s, rocks, height, width);
  }

  /** The rocks in key order are clear of the cube rocks and on the
      platform, and tilting them is the fold over that order. */
  lemma KeyOrderClear(d: TiltDirection, rocks: set<Point>, fixed: set<Point>, height: nat, width: nat)
    requires Consistent(rocks, fixed, height, width)
    ensures forall j | 0 <= j < |KeyOrder(d, rocks)| :: KeyOrder(d, rocks)[j] !in fixed && Inside(KeyOrder(d, rocks)[j], height, width)
    ensures TiltOf(d, rocks, fixed, height, width) == Tilted(d, fixed, KeyOrder(d, rocks), |KeyOrder(d, rocks)|, height, width)
  {
    var s := KeyOrder(d, rocks);
    assert forall j | 0 <= j < |s| :: s[j] in rocks;
  }

  /** What the placement invariant says once every rock of `rocks` is
      placed. */
  lemma PlacedAll(d: TiltDirection, fixed: set<Point>, placed: set<Point>, s: seq<Point>, rocks: set<Point>, height: nat, width: nat)
    requires forall p :: p in s <==> p in rocks
    requires Placing(d, fixed, placed, s, |s|, height, width)
    requires SegmentsKept(d, fixed, placed, Taken(s, |s|))
    requires |s| == |rocks|
    ensures Consistent(placed, fixed, height, width)
    ensures |placed| == |rocks|
    ensures forall q | q in placed :: exists r | r in rocks :: Lane(d, q) == Lane(d, r) && SortKey(d, q) <= SortKey(d, r)
    ensures SegmentsKept(d, fixed, placed, rocks)
    ensures Settled(d, placed, fixed, height, width)
  {
    FromTakenAll(d, placed, s, rocks);
    TakenAll(s, rocks);
  }
  /** A rock north of a cube rock in its column comes to rest just south
      of the cube rock, not at the edge. */
  lemma TiltPastCube()
    ensures TiltOf(North, {Point(0, 5)}, {Point(0, 3)}, 6, 1) == {Point(0, 4)}
  {
    var rock := Point(0, 5);
    KeyOrderFirst(North, {rock}, rock);
    assert {rock} - {rock} == {};
    assert KeyOrder(North, {rock}) == [rock];
    var occupied := {Point(0, 3)} + {};
    NearestIsBlock(North, occupied, rock);
    IsBlockUnique(North, occupied, rock, Nearest(North, occupied, rock), Some(Point(0, 3)));
  }

  /** Two rocks in different columns each roll to the north edge of their
      own column. */
  lemma TiltTwoLanes()
    ensures TiltOf(North, {Point(0, 5), Point(1, 5)}, {}, 6, 2) == {Point(0, 0), Point(1, 0)}
  {
    var a, b := Point(0, 5), Point(1, 5);
    KeyOrderFirst(North, {a, b}, a);
    assert {a, b} - {a} == {b};
    KeyOrderFirst(North, {b}, b);
    assert {b} - {b} == {};
    var s := KeyOrder(North, {a, b});
    assert s == [a, b];
    var none: set<Point> := {};
    NearestIsBlock(North, none + none, a);
    IsBlockUnique(North, none + none, a, Nearest(North, none + none, a), None);
    var first := {Point(0, 0)};
    assert Tilted(North, none, s, 1, 6, 2) == first;
    NearestIsBlock(North, none + first, b);
    IsBlockUnique(North, none + first, b, Nearest(North, none + first, b), None);
  }


  // ---------------------------------------------------------------------
  // Load

  /** The load of the rocks: each counts its distance from the south
      edge, `height - y`. */
  ghost function LoadOf(rocks: set<Point>, height: nat): int {
    if rocks == {} then 0
    else
      var p :| p in rocks;
      (height - p.y) + LoadOf(rocks - {p}, height)
  }

  /** The load does not depend on which rock is counted first. */
  lemma {:induction false} LoadRemove(rocks: set<Point>, height: nat, q: Point)
    requires q in rocks
    ensures LoadOf(rocks, height) == (height - q.y) + LoadOf(rocks - {q}, height)
    decreases |rocks|
  {
    var p :| p in rocks && LoadOf(rocks, height) == (height - p.y) + LoadOf(rocks - {p}, height);
    if p != q {
      LoadRemove(rocks - {p}, height, q);
      LoadRemove(rocks - {q}, height, p);
      assert rocks - {p} - {q} == rocks - {q} - {p};
    }
  }

  /** Every rock on the platform weighs between 1 and the height. */
  lemma {:induction false} LoadBounds(rocks: set<Point>, height: nat)
    requires forall p | p in rocks :: p.y < height
    ensures |rocks| <= LoadOf(rocks, height) <= |rocks| * height
    decreases |rocks|
  {
    if rocks != {} {
      var p :| p in rocks && LoadOf(rocks, height) == (height - p.y) + LoadOf(rocks - {p}, height);
      LoadBounds(rocks - {p}, height);
      assert |rocks - {p}| == |rocks| - 1;
      MulStep(|rocks| - 1, height);
    }
  }

  lemma MulStep(n: nat, m: nat)
    ensures (n + 1) * m == n * m + m
  {
  }

  // ---------------------------------------------------------------------
  // The platform

  class Platform {
    var rocks: set<Point>
    var fixed: set<Point>
    var width: nat
    var height: nat

    ghost predicate Valid()
      reads this
    {
      Consistent(rocks, fixed, height, width)
    }

    constructor (rocks: set<Point>, fixed: set<Point>, width: nat, height: nat)
      ensures this.rocks == rocks && this.fixed == fixed && this.width == width && this.height == height
    {
      this.rocks := rocks;
      this.fixed := fixed;
      this.width := width;
      this.height := height;
    }

    /** `Platform::parse`: every 'O' is a round rock and every '#' a cube
        rock at its column and row, '.' is empty, and any other character
        is an error. The height is the number of lines, the width the
        length of the last one. */
    static method Parse(lines: seq<string>) returns (r: Result<Platform>)
      ensures r.Ok? <==> Clean(lines)
      ensures r.Ok? ==> fresh(r.value)
      ensures r.Ok? ==> r.value.rocks == CellsOf(lines, 'O') && r.value.fixed == CellsOf(lines, '#')
                        && r.value.height == |lines| && r.value.width == WidthOf(lines)
    {
      var width := 0;
      var rocks: set<Point> := {};
      var fixed: set<Point> := {};
      for y := 0 to |lines|
        invariant width == WidthOf(lines[..y])
        invariant rocks == SeenBefore(lines, y, 0, 'O') && fixed == SeenBefore(lines, y, 0, '#')
        invariant CleanBefore(lines, y, 0)
      {
        var line := lines[y];
        width := |line|;
        for x := 0 to |line|
          invariant rocks == SeenBefore(lines, y, x, 'O') && fixed == SeenBefore(lines, y, x, '#')
          invariant CleanBefore(lines, y, x)
        {
          SeenStep(lines, y, x, 'O');
          SeenStep(lines, y, x, '#');
          if line[x] == 'O' {
            rocks := rocks + {Point(x, y)};
          } else if line[x] == '#' {
            fixed := fixed + {Point(x, y)};
          } else if line[x] != '.' {
            assert !Clean(lines);
            return Err("Unexpected character");
          }
        }
        SeenRow(lines, y, 'O');
        SeenRow(lines, y, '#');
        CleanRow(lines, y);
        assert lines[..y + 1][y] == line;
      }
      SeenAll(lines, 'O');
      SeenAll(lines, '#');
      assert lines[..|lines|] == lines;
      var platform := new Platform(rocks, fixed, width, |lines|);
      return Ok(platform);
    }

    /** `Platform::tilt`: take the round rocks, sort them nearest the edge
        first, and put each back where `stack` leaves it against the
        nearest cube rock or rock already put back. The cube rocks and the
        size stay; no rock is lost; each rock moves forward along its own
        lane; and afterwards none can roll any further. */
    method Tilt(d: TiltDirection)
      requires Valid()
      modifies this
      ensures Valid()
      ensures fixed == old(fixed) && width == old(width) && height == old(height)
      ensures |rocks| == |old(rocks)|
      ensures forall q | q in rocks :: exists r | r in old(rocks) :: Lane(d, q) == Lane(d, r) && SortKey(d, q) <= SortKey(d, r)
      ensures Settled(d, rocks, fixed, height, width)
      ensures SegmentsKept(d, fixed, rocks, old(rocks))
      ensures rocks == TiltOf(d, old(rocks), fixed, height, width)
    {
      rocks := TiltRocks(d, rocks, fixed, height, width);
    }

    /** `Platform::load`: the sum of `height - y` over the round rocks. */
    method Load() returns (load: int)
      ensures load == LoadOf(rocks, height)
    {
      load := 0;
      var rest := rocks;
      while rest != {}
        invariant rest <= rocks
        invariant load + LoadOf(rest, height) == LoadOf(rocks, height)
        decreases |rest|
      {
        var p :| p in rest;
        LoadRemove(rest, height, p);
        load := load + (height - p.y);
        rest := rest - {p};
      }
    }
  }
}
