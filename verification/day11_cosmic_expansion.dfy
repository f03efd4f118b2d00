/** Day 11, "Cosmic Expansion": an image of galaxies, the expansion that
    widens every row and column without a galaxy, and the sum of the
    Manhattan distances between every pair of galaxies. */
module CosmicExpansion {
  import opened Wrappers

  /** A galaxy position `(x, y)`: column first, then row. */
  type Point = (nat, nat)

  // ---------------------------------------------------------------------
  // Distance

  function AbsDiff(a: nat, b: nat): nat {
    if a < b then b - a else a - b
  }

  /** `distance`: the Manhattan distance of two positions. */
  function Distance(a: Point, b: Point): nat {
    AbsDiff(a.0, b.0) + AbsDiff(a.1, b.1)
  }

  /** The distance is a metric: zero exactly between equal positions,
      symmetric, and no longer than any detour. */
  lemma DistanceMetric(a: Point, b: Point, c: Point)
    ensures Distance(a, b) == 0 <==> a == b
    ensures Distance(a, b) == Distance(b, a)
    ensures Distance(a, c) <= Distance(a, b) + Distance(b, c)
  {
  }

  // ---------------------------------------------------------------------
  // Reading the image

  /** The characters an image may hold: '#' for a galaxy, '.' for space. */
  predicate Pixel(c: char) {
    c == '#' || c == '.'
  }

  predicate Clean(lines: seq<string>) {
    forall y, x | 0 <= y < |lines| && 0 <= x < |lines[y]| :: Pixel(lines[y][x])
  }

  /** The galaxies of the image: every '#', at its column and row. */
  function GalaxiesOf(lines: seq<string>): set<Point> {
    set y: nat, x: nat | y < |lines| && x < |lines[y]| && lines[y][x] == '#' :: (x, y)
  }

  /** The width `parse` records: the length of the last line. */
  function WidthOf(lines: seq<string>): nat {
    if lines == [] then 0 else |lines[|lines| - 1]|
  }

  /** The galaxies of the lines before row `y` and of row `y` before
      column `x`. */
  function SeenBefore(lines: seq<string>, y: nat, x: nat): set<Point> {
    set yy: nat, xx: nat | yy < |lines| && xx < |lines[yy]| && (yy < y || (yy == y && xx < x)) && lines[yy][xx] == '#' :: (xx, yy)
  }

  predicate CleanBefore(lines: seq<string>, y: nat, x: nat) {
    forall yy, xx | 0 <= yy < |lines| && 0 <= xx < |lines[yy]| && (yy < y || (yy == y && xx < x)) :: Pixel(lines[yy][xx])
  }

  lemma SeenStep(lines: seq<string>, y: nat, x: nat)
    requires y < |lines| && x < |lines[y]|
    ensures SeenBefore(lines, y, x + 1)
            == SeenBefore(lines, y, x) + (if lines[y][x] == '#' then {(x, y)} else {})
  {
    var a := SeenBefore(lines, y, x + 1);
    var b := SeenBefore(lines, y, x) + (if lines[y][x] == '#' then {(x, y)} else {});
    forall p | p in a
      ensures p in b
    {
      if p.1 == y && p.0 == x {
        assert lines[y][x] == '#';
      } else {
        assert p in SeenBefore(lines, y, x);
      }
    }
    forall p | p in b
      ensures p in a
    {
      if p == (x, y) {
        assert lines[p.1][p.0] == '#';
      }
    }
  }

  lemma SeenRow(lines: seq<string>, y: nat)
    requires y < |lines|
    ensures SeenBefore(lines, y, |lines[y]|) == SeenBefore(lines, y + 1, 0)
    ensures CleanBefore(lines, y, |lines[y]|) == CleanBefore(lines, y + 1, 0)
  {
    var a := SeenBefore(lines, y, |lines[y]|);
    var b := SeenBefore(lines, y + 1, 0);
    forall p | p in b
      ensures p in a
    {
      assert lines[p.1][p.0] == '#';
    }
  }

  lemma SeenAll(lines: seq<string>)
    ensures SeenBefore(lines, |lines|, 0) == GalaxiesOf(lines)
    ensures CleanBefore(lines, |lines|, 0) == Clean(lines)
  {
    var a := SeenBefore(lines, |lines|, 0);
    forall p | p in GalaxiesOf(lines)
      ensures p in a
    {
      assert lines[p.1][p.0] == '#';
    }
  }

  /** A position is a galaxy exactly when its line has a '#' there. */
  lemma GalaxiesOfSpec(lines: seq<string>, x: nat, y: nat)
    ensures (x, y) in GalaxiesOf(lines) <==> y < |lines| && x < |lines[y]| && lines[y][x] == '#'
  {
    if y < |lines| && x < |lines[y]| && lines[y][x] == '#' {
      assert (x, y) in GalaxiesOf(lines);
    }
  }

  /** Every galaxy lies inside a `width` by `height` image. */
  ghost predicate InBounds(width: nat, height: nat, galaxies: set<Point>) {
    forall g | g in galaxies :: g.0 < width && g.1 < height
  }

  /** When every line has the same length, the galaxies read lie inside
      the recorded width and height. */
  lemma ParsedInBounds(lines: seq<string>)
    requires forall y | 0 <= y < |lines| :: |lines[y]| == WidthOf(lines)
    ensures InBounds(WidthOf(lines), |lines|, GalaxiesOf(lines))
  {
    forall g | g in GalaxiesOf(lines)
      ensures g.0 < WidthOf(lines) && g.1 < |lines|
    {
      GalaxiesOfSpec(lines, g.0, g.1);
    }
  }

  // ---------------------------------------------------------------------
  // Expansion

  /** The lines below `n` that no galaxy occupies. */
  function Missing(n: nat, occupied: set<nat>): set<nat> {
    set k: nat | k < n && k !in occupied
  }

  function Columns(galaxies: set<Point>): set<nat> {
    set g | g in galaxies :: g.0
  }

  function Rows(galaxies: set<Point>): set<nat> {
    set g | g in galaxies :: g.1
  }

  /** The columns of the image that hold no galaxy. */
  function EmptyColumns(width: nat, galaxies: set<Point>): set<nat> {
    Missing(width, Columns(galaxies))
  }

  /** The rows of the image that hold no galaxy. */
  function EmptyRows(height: nat, galaxies: set<Point>): set<nat> {
    Missing(height, Rows(galaxies))
  }

  /** The number of lines of `lines` before `x`. */
  function CountBelow(lines: set<nat>, x: nat): (n: nat)
    ensures n <= |lines|
  {
    var below := set c | c in lines && c < x;
    assert below <= lines;
    SubsetCard(below, lines);
    |below|
  }

  lemma SubsetCard<T>(a: set<T>, b: set<T>)
    requires a <= b
    ensures |a| <= |b|
  {
    assert b == a + (b - a);
  }

  /** Where a coordinate moves to when each of the lines `empty` before it
      grows by `extra` lines. */
  function Move(empty: set<nat>, x: nat, extra: nat): nat {
    x + CountBelow(empty, x) * extra
  }

  /** The new position of a galaxy: shifted right by `extra` for every
      empty column before it and down by `extra` for every empty row above
      it. */
  function Shift(g: Point, columns: set<nat>, rows: set<nat>, extra: nat): Point {
    (Move(columns, g.0, extra), Move(rows, g.1, extra))
  }

  function Expanded(galaxies: set<Point>, columns: set<nat>, rows: set<nat>, extra: nat): set<Point> {
    set g | g in galaxies :: Shift(g, columns, rows, extra)
  }

  lemma MulMono(a: nat, b: nat, e: nat)
    requires a <= b
    ensures a * e <= b * e
  {
  }

  /** Moving keeps coordinates in strict order. */
  lemma MoveMonotone(empty: set<nat>, x1: nat, x2: nat, extra: nat)
    requires x1 < x2
    ensures Move(empty, x1, extra) < Move(empty, x2, extra)
  {
    var b1 := set c | c in empty && c < x1;
    var b2 := set c | c in empty && c < x2;
    SubsetCard(b1, b2);
    MulMono(|b1|, |b2|, extra);
  }

  lemma MoveInjective(empty: set<nat>, x1: nat, x2: nat, extra: nat)
    ensures Move(empty, x1, extra) == Move(empty, x2, extra) <==> x1 == x2
  {
    if x1 < x2 {
      MoveMonotone(empty, x1, x2, extra);
    } else if x2 < x1 {
      MoveMonotone(empty, x2, x1, extra);
    }
  }

  /** Two galaxies never land on the same position. */
  lemma ShiftInjective(a: Point, b: Point, columns: set<nat>, rows: set<nat>, extra: nat)
    ensures Shift(a, columns, rows, extra) == Shift(b, columns, rows, extra) <==> a == b
  {
    MoveInjective(columns, a.0, b.0, extra);
    MoveInjective(rows, a.1, b.1, extra);
  }

  lemma ExpandedAdd(done: set<Point>, g: Point, columns: set<nat>, rows: set<nat>, extra: nat)
    ensures Expanded(done + {g}, columns, rows, extra) == Expanded(done, columns, rows, extra) + {Shift(g, columns, rows, extra)}
  {
  }

  /** Expansion keeps the number of galaxies. */
  lemma {:induction false} ExpandedCount(galaxies: set<Point>, columns: set<nat>, rows: set<nat>, extra: nat)
    ensures |Expanded(galaxies, columns, rows, extra)| == |galaxies|
    decreases |galaxies|
  {
    if galaxies != {} {
      var g :| g in galaxies;
      var rest := galaxies - {g};
      ExpandedCount(rest, columns, rows, extra);
      ExpandedAdd(rest, g, columns, rows, extra);
      assert galaxies == rest + {g};
      if Shift(g, columns, rows, extra) in Expanded(rest, columns, rows, extra) {
        var h :| h in rest && Shift(h, columns, rows, extra) == Shift(g, columns, rows, extra);
        ShiftInjective(h, g, columns, rows, extra);
      }
    }
  }

  /** With nothing to add (a factor of 1) expansion changes nothing. */
  lemma ExpandedByNothing(galaxies: set<Point>, columns: set<nat>, rows: set<nat>)
    ensures Expanded(galaxies, columns, rows, 0) == galaxies
  {
    forall g | g in galaxies
      ensures Shift(g, columns, rows, 0) == g
    {
    }
    assert forall g | g in Expanded(galaxies, columns, rows, 0) :: g in galaxies;
  }

  /** The galaxies strictly between two coordinates. */
  function Between(lines: set<nat>, lo: nat, hi: nat): set<nat> {
    set c | c in lines && lo <= c < hi
  }

  lemma MoveDistance(empty: set<nat>, x1: nat, x2: nat, extra: nat)
    requires x1 <= x2
    ensures Move(empty, x2, extra) - Move(empty, x1, extra) == x2 - x1 + |Between(empty, x1, x2)| * extra
  {
    var b1 := set c | c in empty && c < x1;
    var b2 := set c | c in empty && c < x2;
    var mid := Between(empty, x1, x2);
    assert b2 == b1 + mid;
    assert b1 * mid == {};
    assert |b2| == |b1| + |mid|;
    assert |b2| * extra == |b1| * extra + |mid| * extra;
  }

  /** The distance between two galaxies after expansion is their distance
      before plus `extra` for every empty column and every empty row
      between them. */
  lemma ExpandedDistance(a: Point, b: Point, columns: set<nat>, rows: set<nat>, extra: nat)
    ensures Distance(Shift(a, columns, rows, extra), Shift(b, columns, rows, extra))
            == Distance(a, b)
               + (|Between(columns, Min(a.0, b.0), Max(a.0, b.0))| + |Between(rows, Min(a.1, b.1), Max(a.1, b.1))|) * extra
  {
    MoveDistance(columns, Min(a.0, b.0), Max(a.0, b.0), extra);
    MoveDistance(rows, Min(a.1, b.1), Max(a.1, b.1), extra);
    if a.0 < b.0 {
      MoveMonotone(columns, a.0, b.0, extra);
    } else if b.0 < a.0 {
      MoveMonotone(columns, b.0, a.0, extra);
    }
    if a.1 < b.1 {
      MoveMonotone(rows, a.1, b.1, extra);
    } else if b.1 < a.1 {
      MoveMonotone(rows, b.1, a.1, extra);
    }
  }

  function Min(a: nat, b: nat): nat {
    if a < b then a else b
  }

  function Max(a: nat, b: nat): nat {
    if a < b then b else a
  }

  /** Expansion keeps every galaxy inside the grown image. */
  lemma ExpandedInBounds(width: nat, height: nat, galaxies: set<Point>, extra: nat)
    requires InBounds(width, height, galaxies)
    ensures InBounds(width + |EmptyColumns(width, galaxies)| * extra,
                     height + |EmptyRows(height, galaxies)| * extra,
                     Expanded(galaxies, EmptyColumns(width, galaxies), EmptyRows(height, galaxies), extra))
  {
    var columns := EmptyColumns(width, galaxies);
    var rows := EmptyRows(height, galaxies);
    forall g | g in galaxies
      ensures Shift(g, columns, rows, extra).0 < width + |columns| * extra
      ensures Shift(g, columns, rows, extra).1 < height + |rows| * extra
    {
      MulMono(CountBelow(columns, g.0), |columns|, extra);
      MulMono(CountBelow(rows, g.1), |rows|, extra);
    }
  }

  // ---------------------------------------------------------------------
  // Sum of distances

  /** The sum of the distances from `g` to every position of `others`. */
  ghost function DistanceTo(g: Point, others: set<Point>): nat
    decreases |others|
  {
    if others == {} then 0
    else
      var h :| h in others;
      Distance(g, h) + DistanceTo(g, others - {h})
  }

  /** The sum of `distance` over every unordered pair of distinct
      galaxies. */
  ghost function PairDistances(galaxies: set<Point>): nat
    decreases |galaxies|
  {
    if galaxies == {} then 0
    else
      var g :| g in galaxies;
      DistanceTo(g, galaxies - {g}) + PairDistances(galaxies - {g})
  }

  /** Any position may be taken first: the sum does not depend on the
      order the positions are visited in. */
  lemma {:induction false} DistanceToRemove(g: Point, others: set<Point>, h: Point)
    requires h in others
    ensures DistanceTo(g, others) == Distance(g, h) + DistanceTo(g, others - {h})
    decreases |others|
  {
    var k :| k in others && DistanceTo(g, others) == Distance(g, k) + DistanceTo(g, others - {k});
    if k != h {
      var rest := others - {k} - {h};
      DistanceToRemove(g, others - {k}, h);
      DistanceToRemove(g, others - {h}, k);
      assert others - {k} - {h} == others - {h} - {k};
    }
  }

  lemma {:induction false} PairDistancesRemove(galaxies: set<Point>, h: Point)
    requires h in galaxies
    ensures PairDistances(galaxies) == DistanceTo(h, galaxies - {h}) + PairDistances(galaxies - {h})
    decreases |galaxies|
  {
    var g :| g in galaxies && PairDistances(galaxies) == DistanceTo(g, galaxies - {g}) + PairDistances(galaxies - {g});
    if g != h {
      var rest := galaxies - {g} - {h};
      assert galaxies - {g} - {h} == galaxies - {h} - {g};
      PairDistancesRemove(galaxies - {g}, h);
      PairDistancesRemove(galaxies - {h}, g);
      DistanceToRemove(g, galaxies - {g}, h);
      DistanceToRemove(h, galaxies - {h}, g);
      DistanceMetric(g, h, h);
    }
  }

  /** Two galaxies are one pair. */
  lemma PairDistancesOfTwo(a: Point, b: Point)
    requires a != b
    ensures PairDistances({a, b}) == Distance(a, b)
  {
    PairDistancesRemove({a, b}, a);
    assert {a, b} - {a} == {b};
    DistanceToRemove(a, {b}, b);
    assert {b} - {b} == {};
    PairDistancesRemove({b}, b);
  }

  // ---------------------------------------------------------------------
  // The image

  class Image {
    var width: nat
    var height: nat
    var galaxies: set<Point>

    constructor (width: nat, height: nat, galaxies: set<Point>)
      ensures this.width == width && this.height == height && this.galaxies == galaxies
    {
      this.width := width;
      this.height := height;
      this.galaxies := galaxies;
    }

    /** `Image::parse`: every '#' is a galaxy at its column and row, every
        '.' is space, and any other character is an error. The width is
        the length of the last line, the height the number of lines. */
    static method Parse(lines: seq<string>) returns (r: Result<Image>)
      ensures r.Ok? <==> Clean(lines)
      ensures r.Ok? ==> fresh(r.value)
      ensures r.Ok? ==> r.value.width == WidthOf(lines) && r.value.height == |lines|
                        && r.value.galaxies == GalaxiesOf(lines)
    {
      var width := 0;
      var found: set<Point> := {};
      var y := 0;
      while y < |lines|
        invariant y <= |lines|
        invariant width == WidthOf(lines[..y])
        invariant found == SeenBefore(lines, y, 0)
        invariant CleanBefore(lines, y, 0)
      {
        var line := lines[y];
        width := |line|;
        var x := 0;
        while x < |line|
          invariant x <= |line|
          invariant found == SeenBefore(lines, y, x)
          invariant CleanBefore(lines, y, x)
        {
          SeenStep(lines, y, x);
          if line[x] == '#' {
            found := found + {(x, y)};
          } else if line[x] != '.' {
            assert !Clean(lines);
            return Err("Unexpected character in input");
          }
          x := x + 1;
        }
        SeenRow(lines, y);
        assert lines[..y + 1][y] == line;
        y := y + 1;
      }
      SeenAll(lines);
      assert lines[..y] == lines;
      var image := new Image(width, y, found);
      return Ok(image);
    }

    /** `Image::expand`: every empty row and column becomes `factor` of
        them, and every galaxy moves by the rows and columns grown before
        it. A factor of 0 underflows in the source. */
    method Expand(factor: nat)
      requires factor >= 1
      modifies this
      ensures width == old(width) + |EmptyColumns(old(width), old(galaxies))| * (factor - 1)
      ensures height == old(height) + |EmptyRows(old(height), old(galaxies))| * (factor - 1)
      ensures galaxies == Expanded(old(galaxies), EmptyColumns(old(width), old(galaxies)),
                                   EmptyRows(old(height), old(galaxies)), factor - 1)
    {
      var before := galaxies;
      var galacticColumns := Columns(before);
      var galacticRows := Rows(before);
      var expandingColumns := MissingOf(width, galacticColumns);
      var expandingRows := MissingOf(height, galacticRows);
      width := width + |expandingColumns| * (factor - 1);
      height := height + |expandingRows| * (factor - 1);
      galaxies := Moved(before, expandingColumns, expandingRows, factor - 1);
    }

    /** `sum_of_distances`: the distances of every unordered pair of
        distinct galaxies, added up. */
    method SumOfDistances() returns (total: nat)
      ensures total == PairDistances(galaxies)
    {
      total := 0;
      var rest := galaxies;
      while rest != {}
        invariant PairDistances(galaxies) == total + PairDistances(rest)
        decreases |rest|
      {
        var g: Point :| g in rest;
        var others := rest - {g};
        var sum := DistanceSum(g, others);
        PairDistancesRemove(rest, g);
        total := total + sum;
        rest := others;
      }
    }
  }

  /** The galaxies taken out of the image and put back at their moved
      positions one by one. */
  method Moved(before: set<Point>, columns: set<nat>, rows: set<nat>, extra: nat) returns (after: set<Point>)
    ensures after == Expanded(before, columns, rows, extra)
  {
    after := {};
    var rest := before;
    while rest != {}
      invariant rest <= before
      invariant after == Expanded(before - rest, columns, rows, extra)
      decreases |rest|
    {
      var g: Point :| g in rest;
      var columnExpansion := CountBelow(columns, g.0);
      var rowExpansion := CountBelow(rows, g.1);
      ExpandedAdd(before - rest, g, columns, rows, extra);
      after := after + {(g.0 + columnExpansion * extra, g.1 + rowExpansion * extra)};
      assert before - (rest - {g}) == (before - rest) + {g};
      rest := rest - {g};
    }
    assert before - rest == before;
  }

  /** The lines below `n` that are not occupied, collected one by one. */
  method MissingOf(n: nat, occupied: set<nat>) returns (m: set<nat>)
    ensures m == Missing(n, occupied)
  {
    m := {};
    for c := 0 to n
      invariant m == Missing(c, occupied)
    {
      if c !in occupied {
        m := m + {c};
      }
    }
  }

  /** The distances from `g` to each of `others`, added up. */
  method DistanceSum(g: Point, others: set<Point>) returns (sum: nat)
    ensures sum == DistanceTo(g, others)
  {
    sum := 0;
    var rest := others;
    while rest != {}
      invariant DistanceTo(g, others) == sum + DistanceTo(g, rest)
      decreases |rest|
    {
      var h: Point :| h in rest;
      DistanceToRemove(g, rest, h);
      sum := sum + Distance(g, h);
      rest := rest - {h};
    }
  }
}
