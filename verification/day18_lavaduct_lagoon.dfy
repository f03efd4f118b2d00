/** Day 18, "Lavaduct Lagoon": a dig plan of straight trenches is walked
    on a grid sized to fit it, the trenches are dug, the enclosed cells
    are dug out row by row, and the dug cells are counted. Beside it sit
    helpers on inclusive ranges: intersection, union and the size of a
    range covered by a list of ranges. */
module LavaductLagoon {
  import opened Wrappers

  // ---------------------------------------------------------------------
  // Plans

  datatype Direction = Up | Down | Left | Right

  /** The letter a direction is written with in a plan. */
  function Letter(d: Direction): char {
    match d
    case Up => 'U'
    case Down => 'D'
    case Left => 'L'
    case Right => 'R'
  }

  /** `Direction::try_from`: the four letters, and an error for any
      other character. */
  function ParseDirection(c: char): (r: Result<Direction>)
    ensures r.Ok? <==> c in "UDLR"
    ensures r.Ok? ==> Letter(r.value) == c
  {
    match c
    case 'U' => Ok(Up)
    case 'D' => Ok(Down)
    case 'L' => Ok(Left)
    case 'R' => Ok(Right)
    case _ => Err("cannot parse `" + [c] + "` as direction")
  }

  lemma LetterParses(d: Direction)
    ensures ParseDirection(Letter(d)) == Ok(d)
  {
  }

  /** A trench color; the model only carries it from plan to cell. */
  datatype Color = Color(r: nat, g: nat, b: nat)

  /** The color `dig_center` digs the enclosed cells with. */
  const White := Color(255, 255, 255)

  datatype TrenchPlan = TrenchPlan(direction: Direction, len: nat, color: Color)

  /** A position, column first. Positions on the field are `usize`, and
      the walk that sizes the field is in `i32`; both are `int` here. */
  type Point = (int, int)

  /** The position `k` steps from `p` toward `d`; rows grow downward. */
  function Move(p: Point, d: Direction, k: int): Point {
    match d
    case Up => (p.0, p.1 - k)
    case Down => (p.0, p.1 + k)
    case Left => (p.0 - k, p.1)
    case Right => (p.0 + k, p.1)
  }

  /** Whether `p` is one of the first `n` cells of a trench from `from`,
      the cell `from` itself excluded. */
  predicate OnSpan(from: Point, d: Direction, n: int, p: Point) {
    match d
    case Up => p.0 == from.0 && from.1 - n <= p.1 < from.1
    case Down => p.0 == from.0 && from.1 < p.1 <= from.1 + n
    case Left => p.1 == from.1 && from.0 - n <= p.0 < from.0
    case Right => p.1 == from.1 && from.0 < p.0 <= from.0 + n
  }

  /** A span never leaves the grid of `usize` positions: `span` would
      underflow otherwise. */
  predicate NoUnderflow(plan: TrenchPlan, from: Point) {
    from.0 >= 0 && from.1 >= 0
    && (plan.direction == Up ==> from.1 >= plan.len)
    && (plan.direction == Left ==> from.0 >= plan.len)
  }

  /** `TrenchPlan::span`: the `len` cells of the trench, the i-th of them
      i steps from `from`. */
  method Span(plan: TrenchPlan, from: Point) returns (span: seq<Point>)
    requires NoUnderflow(plan, from)
    ensures |span| == plan.len
    ensures forall i | 0 <= i < |span| :: span[i] == Move(from, plan.direction, i + 1)
  {
    var (x, y) := from;
    span := [];
    for i := 1 to plan.len + 1
      invariant |span| == i - 1
      invariant forall k | 0 <= k < |span| :: span[k] == Move(from, plan.direction, k + 1)
    {
      match plan.direction
      case Up => span := span + [(x, y - i)];
      case Down => span := span + [(x, y + i)];
      case Left => span := span + [(x - i, y)];
      case Right => span := span + [(x + i, y)];
    }
  }

  /** The first `n` cells of a span are exactly the cells on it up to `n`. */
  lemma SpanCells(span: seq<Point>, from: Point, d: Direction, n: nat)
    requires n <= |span|
    requires forall i | 0 <= i < |span| :: span[i] == Move(from, d, i + 1)
    ensures forall p :: p in span[..n] <==> OnSpan(from, d, n, p)
  {
    forall p | OnSpan(from, d, n, p)
      ensures p in span[..n]
    {
      var i := match d
        case Up => from.1 - p.1
        case Down => p.1 - from.1
        case Left => from.0 - p.0
        case Right => p.0 - from.0;
      assert span[..n][i - 1] == span[i - 1] == p;
    }
  }

  // ---------------------------------------------------------------------
  // Inclusive ranges

  /** `lo..=hi`, empty when `hi < lo`. */
  datatype Range = Range(lo: nat, hi: nat)

  predicate In(r: Range, i: int) {
    r.lo <= i <= r.hi
  }

  /** Whether `lo <= i <= hi`; it names the values of an interval. */
  predicate Between(lo: int, i: int, hi: int) {
    lo <= i <= hi
  }

  /** The values from `lo` to `hi`. */
  ghost function Interval(lo: int, hi: int): set<int> {
    set i | lo <= i <= hi && Between(lo, i, hi)
  }

  /** `RangeInclusive::count`: how many values the range holds. */
  function Size(r: Range): (n: nat)
    ensures n == |Interval(r.lo, r.hi)|
  {
    IntervalCard(r.lo, r.hi);
    if r.lo <= r.hi then r.hi - r.lo + 1 else 0
  }

  lemma {:induction false} IntervalCard(lo: int, hi: int)
    ensures |Interval(lo, hi)| == if lo <= hi then hi - lo + 1 else 0
    decreases hi - lo
  {
    if lo <= hi {
      IntervalCard(lo, hi - 1);
      assert Interval(lo, hi) == Interval(lo, hi - 1) + {hi};
    } else {
      assert Interval(lo, hi) == {};
    }
  }

  function Min(a: int, b: int): int {
    if a < b then a else b
  }

  function Max(a: int, b: int): int {
    if a < b then b else a
  }

  /** `range_intersection`: the values in both ranges. */
  function Intersection(a: Range, b: Range): (r: Range)
    ensures forall i :: In(r, i) <==> In(a, i) && In(b, i)
  {
    Range(Max(a.lo, b.lo), Min(a.hi, b.hi))
  }

  lemma IntersectionCommutes(a: Range, b: Range)
    ensures Intersection(a, b) == Intersection(b, a)
  {
  }

  /** A piece that is present and not empty, as a list of one. */
  function Keep(piece: Option<Range>): seq<Range> {
    if piece.Some? && piece.value.lo <= piece.value.hi then [piece.value] else []
  }

  /** Whether some range of `rs` holds `i`. */
  predicate Covered(rs: seq<Range>, i: int) {
    exists k | 0 <= k < |rs| :: In(rs[k], i)
  }

  /** Whether every range of `rs` is non-empty and within `lo..=hi`. */
  predicate Within(rs: seq<Range>, lo: int, hi: int) {
    forall k | 0 <= k < |rs| :: lo <= rs[k].lo <= rs[k].hi <= hi
  }

  /** `range_union` as written: ranges that touch at an end become one;
      otherwise the part below the intersection, the intersection and
      the part above it. For ranges apart, the parts below and above
      reach into the gap between them. Every value of either range lies
      in some piece. */
  function UnionAsWritten(a: Range, b: Range): (r: seq<Range>)
    ensures forall i :: In(a, i) || In(b, i) ==> Covered(r, i)
  {
    var start := Min(a.lo, b.lo);
    var end := Max(a.hi, b.hi);
    if a.hi == b.lo || a.lo == b.hi then
      CoveredOneAll(Some(Range(start, end)));
      Keep(Some(Range(start, end)))
    else
      SpreadCovers(start, Intersection(a, b), end);
      Spread(start, Intersection(a, b), end)
  }

  /** The three pieces `range_union` takes around the intersection `both`
      of two ranges that do not touch, from `start` to `end`. */
  function Spread(start: nat, both: Range, end: nat): seq<Range> {
    Keep(if start < both.lo then Some(Range(start, both.lo - 1)) else None)
    + Keep(if Size(both) > 0 then Some(both) else None)
    + Keep(if end > both.hi then Some(Range(both.hi + 1, end)) else None)
  }

  /** The three pieces cover every value from `start` to `end`. */
  lemma SpreadCovers(start: nat, both: Range, end: nat)
    ensures forall i :: start <= i <= end ==> Covered(Spread(start, both, end), i)
  {
    var low := Keep(if start < both.lo then Some(Range(start, both.lo - 1)) else None);
    var mid := Keep(if Size(both) > 0 then Some(both) else None);
    var high := Keep(if end > both.hi then Some(Range(both.hi + 1, end)) else None);
    forall i | start <= i <= end
      ensures Covered(low + mid + high, i)
    {
      CoveredConcat(low + mid, high, i);
      CoveredConcat(low, mid, i);
      CoveredOne(if start < both.lo then Some(Range(start, both.lo - 1)) else None, i);
      CoveredOne(if Size(both) > 0 then Some(both) else None, i);
      CoveredOne(if end > both.hi then Some(Range(both.hi + 1, end)) else None, i);
    }
  }

  lemma CoveredOneAll(piece: Option<Range>)
    ensures forall i :: Covered(Keep(piece), i) <==> piece.Some? && In(piece.value, i)
  {
    forall i
      ensures Covered(Keep(piece), i) <==> piece.Some? && In(piece.value, i)
    {
      CoveredOne(piece, i);
    }
  }

  /** For non-empty ranges, every piece is non-empty and lies between the
      lower start and the higher end. */
  lemma UnionAsWrittenWithin(a: Range, b: Range)
    requires a.lo <= a.hi && b.lo <= b.hi
    ensures Within(UnionAsWritten(a, b), Min(a.lo, b.lo), Max(a.hi, b.hi))
  {
  }

  /** For ranges apart by more than one, the pieces cover values in
      neither range: 2 lies in a piece of `0..=0` and `5..=5`. */
  lemma UnionAsWrittenGap()
    ensures UnionAsWritten(Range(0, 0), Range(5, 5)) == [Range(0, 4), Range(1, 5)]
    ensures Covered(UnionAsWritten(Range(0, 0), Range(5, 5)), 2)
    ensures !In(Range(0, 0), 2) && !In(Range(5, 5), 2)
  {
    var r := UnionAsWritten(Range(0, 0), Range(5, 5));
    assert Intersection(Range(0, 0), Range(5, 5)) == Range(5, 0);
    assert r == [Range(0, 4)] + [] + [Range(1, 5)];
    assert In(r[0], 2);
  }

  /** The parts below and above the intersection, kept to the ranges:
      the part below ends no later than either range, and the part above
      starts no earlier than both. For overlapping ranges these are the
      parts `range_union` takes. */
  function Below(both: Range, start: nat): Option<Range> {
    if start < both.lo then Some(Range(start, Min(both.lo - 1, both.hi))) else None
  }

  function Above(both: Range, end: nat): Option<Range> {
    if end > both.hi then Some(Range(Max(both.hi + 1, both.lo), end)) else None
  }

  /** `range_union` with the parts below and above kept to the ranges. */
  function Union(a: Range, b: Range): seq<Range> {
    if a.hi == b.lo || a.lo == b.hi then
      Keep(Some(Range(Min(a.lo, b.lo), Max(a.hi, b.hi))))
    else
      var both := Intersection(a, b);
      Keep(Below(both, Min(a.lo, b.lo)))
      + Keep(if Size(both) > 0 then Some(both) else None)
      + Keep(Above(both, Max(a.hi, b.hi)))
  }

  /** The union of two non-empty ranges holds exactly their values. */
  lemma UnionExact(a: Range, b: Range)
    requires a.lo <= a.hi && b.lo <= b.hi
    ensures forall i :: Covered(Union(a, b), i) <==> In(a, i) || In(b, i)
  {
    var r := Union(a, b);
    if !(a.hi == b.lo || a.lo == b.hi) {
      var both := Intersection(a, b);
      var low := Keep(Below(both, Min(a.lo, b.lo)));
      var mid := Keep(if Size(both) > 0 then Some(both) else None);
      var high := Keep(Above(both, Max(a.hi, b.hi)));
      assert r == low + mid + high;
      forall i
        ensures Covered(r, i) <==> In(a, i) || In(b, i)
      {
        CoveredConcat(low + mid, high, i);
        CoveredConcat(low, mid, i);
        CoveredOne(Below(both, Min(a.lo, b.lo)), i);
        CoveredOne(if Size(both) > 0 then Some(both) else None, i);
        CoveredOne(Above(both, Max(a.hi, b.hi)), i);
      }
    } else {
      forall i
        ensures Covered(r, i) <==> In(a, i) || In(b, i)
      {
        CoveredOne(Some(Range(Min(a.lo, b.lo), Max(a.hi, b.hi))), i);
      }
    }
  }

  /** The pieces of the union of two non-empty ranges are non-empty, lie
      between the lower start and the higher end, and follow one another
      without overlapping; ranges that touch at an end give one piece. */
  lemma UnionWithin(a: Range, b: Range)
    requires a.lo <= a.hi && b.lo <= b.hi
    ensures Within(Union(a, b), Min(a.lo, b.lo), Max(a.hi, b.hi))
  {
    if !(a.hi == b.lo || a.lo == b.hi) {
      var both := Intersection(a, b);
      var lo, hi := Min(a.lo, b.lo), Max(a.hi, b.hi);
      var low := Keep(Below(both, lo));
      var mid := Keep(if Size(both) > 0 then Some(both) else None);
      var high := Keep(Above(both, hi));
      assert Union(a, b) == low + mid + high;
      assert lo <= both.lo <= hi && lo <= both.hi <= hi;
      KeepWithin(Below(both, lo), lo, hi);
      KeepWithin(if Size(both) > 0 then Some(both) else None, lo, hi);
      KeepWithin(Above(both, hi), lo, hi);
      assert forall x: Range | x in low + mid + high :: lo <= x.lo <= x.hi <= hi;
    }
  }

  lemma UnionPieces(a: Range, b: Range)
    requires a.lo <= a.hi && b.lo <= b.hi
    ensures forall j, k | 0 <= j < k < |Union(a, b)| :: Union(a, b)[j].hi < Union(a, b)[k].lo
    ensures a.hi == b.lo || a.lo == b.hi ==> Union(a, b) == [Range(Min(a.lo, b.lo), Max(a.hi, b.hi))]
  {
    if !(a.hi == b.lo || a.lo == b.hi) {
      var both := Intersection(a, b);
      var low := Keep(Below(both, Min(a.lo, b.lo)));
      var mid := Keep(if Size(both) > 0 then Some(both) else None);
      var high := Keep(Above(both, Max(a.hi, b.hi)));
      assert Union(a, b) == low + mid + high;
      Ascending(low, mid, high, both);
    }
  }

  lemma KeepWithin(piece: Option<Range>, lo: int, hi: int)
    requires piece.Some? ==> lo <= piece.value.lo && piece.value.hi <= hi
    ensures forall x | x in Keep(piece) :: lo <= x.lo <= x.hi <= hi
  {
  }

  lemma Ascending(low: seq<Range>, mid: seq<Range>, high: seq<Range>, both: Range)
    requires |low| <= 1 && |mid| <= 1 && |high| <= 1
    requires forall x, y | x in low && y in high :: x.hi < y.lo
    requires forall x, y | x in low && y in mid :: x.hi < y.lo
    requires forall x, y | x in mid && y in high :: x.hi < y.lo
    ensures forall j, k | 0 <= j < k < |low + mid + high| :: (low + mid + high)[j].hi < (low + mid + high)[k].lo
  {
    var r := low + mid + high;
    forall j, k | 0 <= j < k < |r|
      ensures r[j].hi < r[k].lo
    {
      assert r[j] in low || r[j] in mid;
      assert r[k] in mid || r[k] in high;
      if j < |low| {
        assert r[j] == low[j];
      } else {
        assert r[j] == mid[j - |low|];
        assert r[k] == high[k - |low| - |mid|];
      }
    }
  }

  lemma CoveredOne(piece: Option<Range>, i: int)
    ensures Covered(Keep(piece), i) <==> piece.Some? && In(piece.value, i)
  {
    if piece.Some? && In(piece.value, i) {
      assert In(Keep(piece)[0], i);
    }
  }

  lemma CoveredConcat(a: seq<Range>, b: seq<Range>, i: int)
    ensures Covered(a + b, i) <==> Covered(a, i) || Covered(b, i)
  {
    if Covered(a + b, i) {
      var k :| 0 <= k < |a + b| && In((a + b)[k], i);
      if k >= |a| {
        assert b[k - |a|] == (a + b)[k];
      }
    }
    if Covered(b, i) {
      var k :| 0 <= k < |b| && In(b[k], i);
      assert (a + b)[|a| + k] == b[k];
    }
    if Covered(a, i) {
      var k :| 0 <= k < |a| && In(a[k], i);
      assert (a + b)[k] == a[k];
    }
  }

  /** The pieces of a list of ranges, as `intersect_size` folds them: the
      first range alone, then each piece joined with the next range by
      `range_union` as written. */
  function Pieces(ranges: seq<Range>): seq<Range> {
    if ranges == [] then []
    else
      var union := Pieces(ranges[..|ranges| - 1]);
      var next := ranges[|ranges| - 1];
      if union == [] then [next] else JoinAll(union, next)
  }

  /** Each piece joined with `next` by `range_union` as written, one
      after the other. */
  function JoinAll(union: seq<Range>, next: Range): seq<Range> {
    if union == [] then [] else JoinAll(union[..|union| - 1], next) + UnionAsWritten(union[|union| - 1], next)
  }

  /** The same fold with the corrected union. */
  function MergedPieces(ranges: seq<Range>): seq<Range> {
    if ranges == [] then []
    else
      var union := MergedPieces(ranges[..|ranges| - 1]);
      var next := ranges[|ranges| - 1];
      if union == [] then [next] else MergeAll(union, next)
  }

  function MergeAll(union: seq<Range>, next: Range): seq<Range> {
    if union == [] then [] else MergeAll(union[..|union| - 1], next) + Union(union[|union| - 1], next)
  }

  /** How much of `range` each piece covers, added up. */
  function Overlap(range: Range, pieces: seq<Range>): nat {
    if pieces == [] then 0
    else Overlap(range, pieces[..|pieces| - 1]) + Size(Intersection(range, pieces[|pieces| - 1]))
  }

  /** The list without repeats, each range where it first appears. */
  function Distinct(ranges: seq<Range>): (r: seq<Range>)
    ensures forall x :: x in r <==> x in ranges
  {
    if ranges == [] then []
    else
      var init := Distinct(ranges[..|ranges| - 1]);
      var last := ranges[|ranges| - 1];
      assert forall x :: x in ranges <==> x in ranges[..|ranges| - 1] || x == last;
      if last in init then init else init + [last]
  }

  /** `intersect_size`: the ranges without repeats are folded into
      pieces by `range_union` as written, and the parts of `range` in
      each piece are added up. */
  method IntersectSize(range: Range, ranges: seq<Range>) returns (sum: nat)
    ensures sum == Overlap(range, Pieces(Distinct(ranges)))
  {
    var unique: seq<Range> := [];
    for k := 0 to |ranges|
      invariant unique == Distinct(ranges[..k])
    {
      assert ranges[..k + 1][..k] == ranges[..k];
      if ranges[k] !in unique {
        unique := unique + [ranges[k]];
      }
    }
    assert ranges[..|ranges|] == ranges;
    var union: seq<Range> := [];
    for k := 0 to |unique|
      invariant union == Pieces(unique[..k])
    {
      assert unique[..k + 1][..k] == unique[..k];
      if union == [] {
        union := [unique[k]];
      } else {
        union := Joined(union, unique[k]);
      }
    }
    assert unique[..|unique|] == unique;
    sum := 0;
    for k := 0 to |union|
      invariant sum == Overlap(range, union[..k])
    {
      assert union[..k + 1][..k] == union[..k];
      sum := sum + Size(Intersection(range, union[k]));
    }
    assert union[..|union|] == union;
  }

  /** The `flat_map` of `intersect_size`. */
  method Joined(union: seq<Range>, next: Range) returns (joined: seq<Range>)
    ensures joined == JoinAll(union, next)
  {
    joined := [];
    for k := 0 to |union|
      invariant joined == JoinAll(union[..k], next)
    {
      assert union[..k + 1][..k] == union[..k];
      joined := joined + UnionAsWritten(union[k], next);
    }
    assert union[..|union|] == union;
  }

  /** Joining a range into the pieces as written keeps every value the
      pieces held and adds every value of the range. */
  lemma {:induction false} JoinAllCovers(union: seq<Range>, next: Range, i: int)
    requires union != []
    ensures Covered(union, i) || In(next, i) ==> Covered(JoinAll(union, next), i)
  {
    var init := union[..|union| - 1];
    var last := union[|union| - 1];
    var left := JoinAll(init, next);
    var right := UnionAsWritten(last, next);
    CoveredConcat(left, right, i);
    CoveredConcat(init, [last], i);
    assert union == init + [last];
    CoveredOne(Some(last), i);
    if init != [] {
      JoinAllCovers(init, next, i);
    }
  }

  /** The pieces as written hold every value of the ranges. */
  lemma {:induction false} PiecesCover(ranges: seq<Range>, i: int)
    ensures Covered(ranges, i) ==> Covered(Pieces(ranges), i)
  {
    if ranges != [] {
      var init := ranges[..|ranges| - 1];
      var next := ranges[|ranges| - 1];
      PiecesCover(init, i);
      CoveredConcat(init, [next], i);
      assert ranges == init + [next];
      CoveredOne(Some(next), i);
      var union := Pieces(init);
      if union == [] {
        assert Pieces(ranges) == [next];
      } else {
        JoinAllCovers(union, next, i);
      }
    }
  }

  /** Joining a range into the pieces with the corrected union covers
      exactly what the pieces covered plus the range. */
  lemma {:induction false} MergeAllCovers(union: seq<Range>, next: Range, i: int)
    requires union != [] && next.lo <= next.hi
    requires forall k | 0 <= k < |union| :: union[k].lo <= union[k].hi
    ensures Covered(MergeAll(union, next), i) <==> Covered(union, i) || In(next, i)
  {
    var init := union[..|union| - 1];
    var last := union[|union| - 1];
    var left := MergeAll(init, next);
    var right := Union(last, next);
    UnionExact(last, next);
    CoveredConcat(left, right, i);
    CoveredConcat(init, [last], i);
    assert union == init + [last];
    if init != [] {
      MergeAllCovers(init, next, i);
    } else {
      assert left == [];
    }
  }

  lemma {:induction false} MergeAllNonEmpty(union: seq<Range>, next: Range)
    ensures forall k | 0 <= k < |MergeAll(union, next)| :: MergeAll(union, next)[k].lo <= MergeAll(union, next)[k].hi
  {
    if union != [] {
      MergeAllNonEmpty(union[..|union| - 1], next);
    }
  }

  /** With the corrected union, the pieces of non-empty ranges hold
      exactly the values of the ranges. */
  lemma {:induction false} MergedPiecesCover(ranges: seq<Range>, i: int)
    requires forall k | 0 <= k < |ranges| :: ranges[k].lo <= ranges[k].hi
    ensures Covered(MergedPieces(ranges), i) <==> Covered(ranges, i)
  {
    if ranges != [] {
      var init := ranges[..|ranges| - 1];
      var next := ranges[|ranges| - 1];
      MergedPiecesCover(init, i);
      MergedPiecesNonEmpty(init);
      CoveredConcat(init, [next], i);
      assert ranges == init + [next];
      var union := MergedPieces(init);
      if union == [] {
        assert !Covered(init, i);
        assert MergedPieces(ranges) == [next];
        if In(next, i) {
          assert MergedPieces(ranges)[0] == next;
        }
      } else {
        MergeAllCovers(union, next, i);
      }
    }
  }

  /** With the corrected union, the pieces of non-empty ranges are
      non-empty. */
  lemma {:induction false} MergedPiecesNonEmpty(ranges: seq<Range>)
    requires forall k | 0 <= k < |ranges| :: ranges[k].lo <= ranges[k].hi
    ensures forall k | 0 <= k < |MergedPieces(ranges)| :: MergedPieces(ranges)[k].lo <= MergedPieces(ranges)[k].hi
  {
    if ranges != [] {
      var init := ranges[..|ranges| - 1];
      MergedPiecesNonEmpty(init);
      if MergedPieces(init) != [] {
        MergeAllNonEmpty(MergedPieces(init), ranges[|ranges| - 1]);
      }
    }
  }

  /** The values of `range` that some range of `ranges` holds. */
  ghost function CoveredPart(range: Range, ranges: seq<Range>): set<int> {
    set i | range.lo <= i <= range.hi && Covered(ranges, i)
  }

  /** The sum over the pieces counts every value of `range` in a piece
      at least once. */
  lemma {:induction false} OverlapAtLeast(range: Range, pieces: seq<Range>)
    ensures Overlap(range, pieces) >= |CoveredPart(range, pieces)|
  {
    if pieces == [] {
      assert CoveredPart(range, pieces) == {};
    } else {
      var init := pieces[..|pieces| - 1];
      var last := pieces[|pieces| - 1];
      OverlapAtLeast(range, init);
      var meet := Intersection(range, last);
      var inLast := Interval(meet.lo, meet.hi);
      forall i | i in CoveredPart(range, pieces)
        ensures i in CoveredPart(range, init) + inLast
      {
        CoveredConcat(init, [last], i);
        assert pieces == init + [last];
        if !Covered(init, i) {
          assert Covered([last], i);
          assert In([last][0], i);
        }
      }
      assert CoveredPart(range, pieces) <= CoveredPart(range, init) + inLast;
      SubsetCard(CoveredPart(range, pieces), CoveredPart(range, init) + inLast);
    }
  }

  lemma SubsetCard(a: set<int>, b: set<int>)
    requires a <= b
    ensures |a| <= |b|
  {
    assert b == a + (b - a);
  }

  /** `intersect_size` counts each value of `range` that the ranges
      hold, and may count it more than once or count values no range
      holds. */
  lemma IntersectSizeAtLeast(range: Range, ranges: seq<Range>)
    ensures Overlap(range, Pieces(Distinct(ranges))) >= |CoveredPart(range, ranges)|
  {
    var unique := Distinct(ranges);
    OverlapAtLeast(range, Pieces(unique));
    forall i | i in CoveredPart(range, ranges)
      ensures i in CoveredPart(range, Pieces(unique))
    {
      PiecesCover(unique, i);
      var k :| 0 <= k < |ranges| && In(ranges[k], i);
      assert ranges[k] in unique;
      var j :| 0 <= j < |unique| && unique[j] == ranges[k];
    }
    SubsetCard(CoveredPart(range, ranges), CoveredPart(range, Pieces(unique)));
  }

  /** With `0..=1`, `5..=6` and `3..=3`, the range `3..=3` is joined with
      each earlier piece and lands in two pieces: `intersect_size` gives 2
      for a range of one value. */
  lemma IntersectSizeTwice()
    ensures Overlap(Range(3, 3), Pieces(Distinct([Range(0, 1), Range(5, 6), Range(3, 3)]))) == 2
    ensures |CoveredPart(Range(3, 3), [Range(0, 1), Range(5, 6), Range(3, 3)])| == 1
  {
    var ranges := [Range(0, 1), Range(5, 6), Range(3, 3)];
    TwiceDistinct(ranges);
    TwicePieces(ranges);
    TwiceOverlap([Range(0, 2), Range(3, 3), Range(4, 4), Range(2, 2), Range(3, 3), Range(4, 6)]);
    TwiceCovered(ranges);
  }

  lemma TwiceOverlap(pieces: seq<Range>)
    requires pieces == [Range(0, 2), Range(3, 3), Range(4, 4), Range(2, 2), Range(3, 3), Range(4, 6)]
    ensures Overlap(Range(3, 3), pieces) == 2
  {
    assert pieces[..1][..0] == [];
    assert Overlap(Range(3, 3), pieces[..1]) == 0;
    assert pieces[..2][..1] == pieces[..1];
    assert Overlap(Range(3, 3), pieces[..2]) == 1;
    assert pieces[..3][..2] == pieces[..2];
    assert Overlap(Range(3, 3), pieces[..3]) == 1;
    assert pieces[..4][..3] == pieces[..3];
    assert Overlap(Range(3, 3), pieces[..4]) == 1;
    assert pieces[..5][..4] == pieces[..4];
    assert Overlap(Range(3, 3), pieces[..5]) == 2;
    assert pieces[..5] == pieces[..|pieces| - 1];
  }

  lemma TwiceCovered(ranges: seq<Range>)
    requires ranges == [Range(0, 1), Range(5, 6), Range(3, 3)]
    ensures |CoveredPart(Range(3, 3), ranges)| == 1
  {
    assert In(ranges[2], 3);
    assert CoveredPart(Range(3, 3), ranges) == {3};
  }

  lemma TwiceDistinct(ranges: seq<Range>)
    requires ranges == [Range(0, 1), Range(5, 6), Range(3, 3)]
    ensures Distinct(ranges) == ranges
  {
    assert Distinct(ranges[..1]) == [Range(0, 1)];
    assert ranges[..2][..1] == ranges[..1];
    assert Distinct(ranges[..2]) == [Range(0, 1), Range(5, 6)];
    assert ranges[..2] == ranges[..|ranges| - 1];
  }

  lemma TwicePieces(ranges: seq<Range>)
    requires ranges == [Range(0, 1), Range(5, 6), Range(3, 3)]
    ensures Pieces(ranges) == [Range(0, 2), Range(3, 3), Range(4, 4), Range(2, 2), Range(3, 3), Range(4, 6)]
  {
    var first, two := ranges[..1], ranges[..2];
    assert Pieces(first) == [Range(0, 1)] by {
      assert first[..0] == [];
    }
    assert two[..|two| - 1] == first && two[|two| - 1] == Range(5, 6);
    TwiceUnions();
    assert Pieces(two) == JoinAll(Pieces(first), Range(5, 6));
    assert ranges[..|ranges| - 1] == two && ranges[|ranges| - 1] == Range(3, 3);
  }

  lemma TwiceUnions()
    ensures JoinAll([Range(0, 1)], Range(5, 6)) == [Range(0, 4), Range(2, 6)]
    ensures JoinAll([Range(0, 4), Range(2, 6)], Range(3, 3))
         == [Range(0, 2), Range(3, 3), Range(4, 4), Range(2, 2), Range(3, 3), Range(4, 6)]
  {
    UnionSamples();
    TwiceJoinFirst([Range(0, 1)], Range(5, 6));
    TwiceJoinSecond([Range(0, 4), Range(2, 6)], Range(3, 3));
  }

  lemma TwiceJoinFirst(union: seq<Range>, next: Range)
    requires union == [Range(0, 1)] && next == Range(5, 6)
    requires UnionAsWritten(Range(0, 1), Range(5, 6)) == [Range(0, 4), Range(2, 6)]
    ensures JoinAll(union, next) == [Range(0, 4), Range(2, 6)]
  {
    assert union[..0] == [];
  }

  lemma TwiceJoinSecond(union: seq<Range>, next: Range)
    requires union == [Range(0, 4), Range(2, 6)] && next == Range(3, 3)
    requires UnionAsWritten(Range(0, 4), Range(3, 3)) == [Range(0, 2), Range(3, 3), Range(4, 4)]
    requires UnionAsWritten(Range(2, 6), Range(3, 3)) == [Range(2, 2), Range(3, 3), Range(4, 6)]
    ensures JoinAll(union, next) == [Range(0, 2), Range(3, 3), Range(4, 4), Range(2, 2), Range(3, 3), Range(4, 6)]
  {
    var init := union[..1];
    assert init == [Range(0, 4)];
    assert init[..0] == [];
    assert JoinAll(init, next) == [Range(0, 2), Range(3, 3), Range(4, 4)];
  }

  lemma UnionSamples()
    ensures UnionAsWritten(Range(0, 1), Range(5, 6)) == [Range(0, 4), Range(2, 6)]
    ensures UnionAsWritten(Range(0, 4), Range(3, 3)) == [Range(0, 2), Range(3, 3), Range(4, 4)]
    ensures UnionAsWritten(Range(2, 6), Range(3, 3)) == [Range(2, 2), Range(3, 3), Range(4, 6)]
  {
    assert Spread(0, Range(5, 1), 6) == [Range(0, 4)] + [] + [Range(2, 6)];
    assert Spread(0, Range(3, 3), 4) == [Range(0, 2)] + [Range(3, 3)] + [Range(4, 4)];
    assert Spread(2, Range(3, 3), 6) == [Range(2, 2)] + [Range(3, 3)] + [Range(4, 6)];
  }

  /** With `0..=0` and `5..=5`, in either order, the range `2..=2` lies
      in both pieces of the gap: `intersect_size` gives 2 for a value
      that no range holds. */
  lemma IntersectSizeGap()
    ensures Overlap(Range(2, 2), Pieces(Distinct([Range(0, 0), Range(5, 5)]))) == 2
    ensures Overlap(Range(2, 2), Pieces(Distinct([Range(5, 5), Range(0, 0)]))) == 2
    ensures |CoveredPart(Range(2, 2), [Range(0, 0), Range(5, 5)])| == 0
  {
    GapOrder([Range(0, 0), Range(5, 5)]);
    GapOrder([Range(5, 5), Range(0, 0)]);
    assert CoveredPart(Range(2, 2), [Range(0, 0), Range(5, 5)]) == {};
  }

  lemma GapOrder(ranges: seq<Range>)
    requires ranges == [Range(0, 0), Range(5, 5)] || ranges == [Range(5, 5), Range(0, 0)]
    ensures Overlap(Range(2, 2), Pieces(Distinct(ranges))) == 2
  {
    GapPieces(ranges);
    var pieces := [Range(0, 4), Range(1, 5)];
    assert pieces[..1][..0] == [];
    assert Overlap(Range(2, 2), pieces[..1]) == 1;
    assert pieces[..1] == pieces[..|pieces| - 1];
  }

  lemma GapPieces(ranges: seq<Range>)
    requires ranges == [Range(0, 0), Range(5, 5)] || ranges == [Range(5, 5), Range(0, 0)]
    ensures Pieces(Distinct(ranges)) == [Range(0, 4), Range(1, 5)]
  {
    assert Distinct(ranges[..1]) == ranges[..1];
    assert ranges[..1] == ranges[..|ranges| - 1];
    assert Distinct(ranges) == ranges;
    assert Pieces(ranges[..1]) == ranges[..1] by {
      assert ranges[..1][..0] == [];
    }
    GapUnion(ranges[0], ranges[1]);
    assert ranges[..1][..0] == [];
    assert JoinAll(ranges[..1], ranges[1]) == [Range(0, 4), Range(1, 5)];
  }

  lemma GapUnion(a: Range, b: Range)
    requires (a, b) == (Range(0, 0), Range(5, 5)) || (a, b) == (Range(5, 5), Range(0, 0))
    ensures UnionAsWritten(a, b) == [Range(0, 4), Range(1, 5)]
  {
    assert Intersection(a, b) == Range(5, 0);
    assert Spread(0, Range(5, 0), 5) == [Range(0, 4)] + [] + [Range(1, 5)];
  }

  /** The count `intersect_size` is after: the values of `range` that
      some range holds, each once. */
  method CoveredSize(range: Range, ranges: seq<Range>) returns (count: nat)
    ensures count == |CoveredPart(range, ranges)|
  {
    count := 0;
    var i := range.lo;
    if range.hi < range.lo {
      assert CoveredPart(range, ranges) == {};
      return;
    }
    while i <= range.hi
      invariant range.lo <= i <= range.hi + 1
      invariant count == |CoveredBelow(range, ranges, i)|
      decreases range.hi + 1 - i
    {
      CoveredBelowStep(range, ranges, i);
      if Covered(ranges, i) {
        count := count + 1;
      }
      i := i + 1;
    }
    assert CoveredBelow(range, ranges, i) == CoveredPart(range, ranges);
  }

  /** The values of `range` below `i` that some range holds. */
  ghost function CoveredBelow(range: Range, ranges: seq<Range>, i: int): set<int> {
    set j | range.lo <= j < i && Covered(ranges, j)
  }

  lemma CoveredBelowStep(range: Range, ranges: seq<Range>, i: int)
    requires range.lo <= i
    ensures |CoveredBelow(range, ranges, i + 1)| == |CoveredBelow(range, ranges, i)| + (if Covered(ranges, i) then 1 else 0)
  {
    if Covered(ranges, i) {
      assert CoveredBelow(range, ranges, i + 1) == CoveredBelow(range, ranges, i) + {i};
    } else {
      assert CoveredBelow(range, ranges, i + 1) == CoveredBelow(range, ranges, i);
    }
  }

  // ---------------------------------------------------------------------
  // The field

  /** Rows of cells, each dug in some color or not dug. */
  type Grid = seq<seq<Option<Color>>>

  /** `g` has `h` rows of `w` cells. */
  predicate Shaped(g: Grid, h: int, w: int) {
    |g| == h && forall y | 0 <= y < |g| :: |g[y]| == w
  }

  /** `p` is a cell of an `h` by `w` grid. */
  predicate Inside(p: Point, h: int, w: int) {
    0 <= p.0 < w && 0 <= p.1 < h
  }

  /** `g` with the first `n` cells of a trench from `from` toward `d`
      dug in color `c`, every other cell as it was. */
  function Dig(g: Grid, from: Point, d: Direction, n: int, c: Color): (r: Grid)
    ensures |r| == |g| && forall y | 0 <= y < |g| :: |r[y]| == |g[y]|
  {
    DigRows(g, 0, from, d, n, c)
  }

  /** A dug trench sets exactly its own cells to its color and leaves
      every other cell as it was. */
  lemma DigAt(g: Grid, from: Point, d: Direction, n: int, c: Color, x: int, y: int)
    requires 0 <= y < |g| && 0 <= x < |g[y]|
    ensures Dig(g, from, d, n, c)[y][x] == if OnSpan(from, d, n, (x, y)) then Some(c) else g[y][x]
  {
  }

  /** The rows of `g`, the first of them row `top`, with the trench dug. */
  function DigRows(g: Grid, top: int, from: Point, d: Direction, n: int, c: Color): (r: Grid)
    ensures |r| == |g|
    ensures forall y | 0 <= y < |g| :: r[y] == DigRow(g[y], top + y, from, d, n, c)
    decreases |g|
  {
    if |g| == 0 then []
    else [DigRow(g[0], top, from, d, n, c)] + DigRows(g[1..], top + 1, from, d, n, c)
  }

  /** Row `y` with the trench dug. */
  function DigRow(row: seq<Option<Color>>, y: int, from: Point, d: Direction, n: int, c: Color): (r: seq<Option<Color>>)
    ensures |r| == |row|
  {
    seq(|row|, x requires 0 <= x < |row| => if OnSpan(from, d, n, (x, y)) then Some(c) else row[x])
  }

  /** `b` is `a` with the first `n` cells of a trench dug in color `c`. */
  ghost predicate DugUpTo(a: Grid, b: Grid, from: Point, d: Direction, n: int, c: Color) {
    |b| == |a|
    && (forall y | 0 <= y < |a| :: |b[y]| == |a[y]|)
    && forall y, x | 0 <= y < |a| && 0 <= x < |a[y]| ::
      b[y][x] == if OnSpan(from, d, n, (x, y)) then Some(c) else a[y][x]
  }

  /** Digging the next cell of a trench extends what is dug by one. */
  lemma DugNext(a: Grid, b: Grid, b': Grid, from: Point, d: Direction, k: nat, c: Color)
    requires DugUpTo(a, b, from, d, k, c)
    requires var (x, y) := Move(from, d, k + 1);
      0 <= y < |b| && 0 <= x < |b[y]| && b' == b[y := b[y][x := Some(c)]]
    ensures DugUpTo(a, b', from, d, k + 1, c)
  {
    var (x, y) := Move(from, d, k + 1);
    forall y', x' | 0 <= y' < |a| && 0 <= x' < |a[y']|
      ensures b'[y'][x'] == if OnSpan(from, d, k + 1, (x', y')) then Some(c) else a[y'][x']
    {
      assert OnSpan(from, d, k + 1, (x', y')) <==> OnSpan(from, d, k, (x', y')) || (x', y') == (x, y);
    }
  }

  /** The cellwise description of a dug trench is `Dig`. */
  lemma DugIsDig(a: Grid, b: Grid, from: Point, d: Direction, n: int, c: Color)
    requires DugUpTo(a, b, from, d, n, c)
    ensures b == Dig(a, from, d, n, c)
  {
    forall y | 0 <= y < |a|
      ensures b[y] == Dig(a, from, d, n, c)[y]
    {
    }
  }

  /** Every cell of a trench lies between its two ends, so a trench whose
      ends are in the grid stays in it. */
  lemma SpanInside(from: Point, d: Direction, n: int, k: int, h: int, w: int)
    requires Inside(from, h, w) && Inside(Move(from, d, n), h, w) && 0 <= k <= n
    ensures Inside(Move(from, d, k), h, w)
  {
  }

  /** `g` with the trenches of `plans` dug in order, each from its start. */
  function DigAll(g: Grid, plans: seq<(Point, TrenchPlan)>): (r: Grid)
    ensures |r| == |g| && forall y | 0 <= y < |g| :: |r[y]| == |g[y]|
  {
    if |plans| == 0 then g
    else
      var (from, plan) := plans[|plans| - 1];
      Dig(DigAll(g, plans[..|plans| - 1]), from, plan.direction, plan.len, plan.color)
  }

  /** Digging one trench more after the first `i`. */
  lemma DigAllNext(g: Grid, plans: seq<(Point, TrenchPlan)>, i: nat)
    requires i < |plans|
    ensures DigAll(g, plans[..i + 1])
      == Dig(DigAll(g, plans[..i]), plans[i].0, plans[i].1.direction, plans[i].1.len, plans[i].1.color)
  {
    assert plans[..i + 1][..i] == plans[..i];
  }

  /** Whether `p` lies on the trench of one of `plans`. */
  ghost predicate OnTrench(plans: seq<(Point, TrenchPlan)>, p: Point) {
    exists i | 0 <= i < |plans| :: OnSpan(plans[i].0, plans[i].1.direction, plans[i].1.len, p)
  }

  /** After the trenches are dug, a cell is dug exactly when it was dug
      before or lies on one of the trenches. */
  lemma {:induction false} DigAllCells(g: Grid, plans: seq<(Point, TrenchPlan)>, x: int, y: int)
    requires 0 <= y < |g| && 0 <= x < |g[y]|
    ensures DigAll(g, plans)[y][x].Some? <==> g[y][x].Some? || OnTrench(plans, (x, y))
  {
    if |plans| > 0 {
      var (from, plan) := plans[|plans| - 1];
      DigAllCells(g, plans[..|plans| - 1], x, y);
      DigAt(DigAll(g, plans[..|plans| - 1]), from, plan.direction, plan.len, plan.color, x, y);
      OnTrenchLast(plans, (x, y));
    }
  }

  /** A cell is on one of the trenches exactly when it is on the last
      one or on one before it. */
  lemma OnTrenchLast(plans: seq<(Point, TrenchPlan)>, p: Point)
    requires |plans| > 0
    ensures OnTrench(plans, p) <==>
      (OnTrench(plans[..|plans| - 1], p)
       || OnSpan(plans[|plans| - 1].0, plans[|plans| - 1].1.direction, plans[|plans| - 1].1.len, p))
  {
    var prefix := plans[..|plans| - 1];
    if OnTrench(plans, p) && !OnSpan(plans[|plans| - 1].0, plans[|plans| - 1].1.direction, plans[|plans| - 1].1.len, p) {
      var i :| 0 <= i < |plans| && OnSpan(plans[i].0, plans[i].1.direction, plans[i].1.len, p);
      assert i < |prefix| && prefix[i] == plans[i];
    }
    if OnTrench(prefix, p) {
      var i :| 0 <= i < |prefix| && OnSpan(prefix[i].0, prefix[i].1.direction, prefix[i].1.len, p);
      assert plans[i] == prefix[i];
    }
  }

  /** How many cells of a row are dug. */
  function DugRow(row: seq<Option<Color>>): (n: nat)
    ensures n <= |row|
  {
    if |row| == 0 then 0 else (if row[0].Some? then 1 else 0) + DugRow(row[1..])
  }

  /** How many cells of a grid are dug, row after row. */
  function Dug(g: Grid): nat {
    if |g| == 0 then 0 else DugRow(g[0]) + Dug(g[1..])
  }

  /** A grid of `h` rows of `w` cells has at most `h * w` dug cells. */
  lemma {:induction false} DugBound(g: Grid, h: nat, w: nat)
    requires Shaped(g, h, w)
    ensures Dug(g) <= h * w
  {
    if h > 0 {
      DugBound(g[1..], h - 1, w);
      assert h * w == w + (h - 1) * w;
    }
  }

  /** A row in which every dug cell of `a` is dug has at least as many
      dug cells. */
  lemma {:induction false} DugRowGrows(a: seq<Option<Color>>, b: seq<Option<Color>>)
    requires |a| == |b| && forall x | 0 <= x < |a| :: a[x].Some? ==> b[x].Some?
    ensures DugRow(a) <= DugRow(b)
  {
    if |a| > 0 {
      DugRowGrows(a[1..], b[1..]);
    }
  }

  /** A grid in which every dug cell of `a` is dug has at least as many
      dug cells. */
  lemma {:induction false} DugGrows(a: Grid, b: Grid)
    requires |a| == |b| && forall y | 0 <= y < |a| :: |a[y]| == |b[y]|
    requires forall y, x | 0 <= y < |a| && 0 <= x < |a[y]| :: a[y][x].Some? ==> b[y][x].Some?
    ensures Dug(a) <= Dug(b)
  {
    if |a| > 0 {
      DugRowGrows(a[0], b[0]);
      assert forall y | 0 <= y < |a| - 1 :: a[1..][y] == a[y + 1] && b[1..][y] == b[y + 1];
      DugGrows(a[1..], b[1..]);
    }
  }

  /** Digging trenches never fills a cell back in. */
  lemma DigAllGrows(g: Grid, plans: seq<(Point, TrenchPlan)>)
    ensures Dug(g) <= Dug(DigAll(g, plans))
  {
    var r: Grid := DigAll(g, plans);
    forall y: int, x: int | 0 <= y < |g| && 0 <= x < |g[y]| && g[y][x].Some?
      ensures r[y][x].Some?
    {
      DigAllCells(g, plans, x, y);
    }
    DugGrows(g, r);
  }

  /** `g` with every row swept by `dig_center`'s rule. */
  ghost function Center(g: Grid, plans: seq<(Point, TrenchPlan)>): (r: Grid)
    ensures |r| == |g| && forall y | 0 <= y < |g| :: |r[y]| == |g[y]|
    ensures forall y, x | 0 <= y < |g| && 0 <= x < |g[y]| && g[y][x].Some? :: r[y][x] == g[y][x]
    ensures forall y, x | 0 <= y < |g| && 0 <= x < |g[y]| :: r[y][x] == g[y][x] || r[y][x] == Some(White)
  {
    CenterRows(g, 0, plans)
  }

  /** The rows of `g`, the first of them row `top`, each swept. */
  ghost function CenterRows(g: Grid, top: int, plans: seq<(Point, TrenchPlan)>): (r: Grid)
    ensures |r| == |g|
    ensures forall y | 0 <= y < |g| :: r[y] == SweptRow(g[y], top + y, plans)
    decreases |g|
  {
    if |g| == 0 then []
    else [SweptRow(g[0], top, plans)] + CenterRows(g[1..], top + 1, plans)
  }

  /** Row `y` once swept. */
  ghost function SweptRow(row: seq<Option<Color>>, y: int, plans: seq<(Point, TrenchPlan)>): (r: seq<Option<Color>>)
    ensures |r| == |row|
    ensures forall x | 0 <= x < |row| :: r[x] == Swept(row, y, plans, x)
  {
    seq(|row|, x requires 0 <= x < |row| => Swept(row, y, plans, x))
  }

  /** Sweeping the rows never fills a cell back in. */
  lemma CenterGrows(g: Grid, plans: seq<(Point, TrenchPlan)>)
    ensures Dug(g) <= Dug(Center(g, plans))
  {
    var r: Grid := Center(g, plans);
    assert forall y: int, x: int | 0 <= y < |g| && 0 <= x < |g[y]| && g[y][x].Some? :: r[y][x].Some?;
    DugGrows(g, r);
  }

  /** `h` rows of `w` undug cells. */
  function Blank(h: nat, w: nat): (g: Grid)
    ensures Shaped(g, h, w)
    ensures forall y, x | 0 <= y < h && 0 <= x < w :: g[y][x] == None
  {
    if h == 0 then [] else [seq(w, _ => None)] + Blank(h - 1, w)
  }

  // ---------------------------------------------------------------------
  // Walking the plans

  /** Where the walk of `plans` from (0, 0) stands after the first `i`. */
  function Corner(plans: seq<TrenchPlan>, i: nat): Point
    requires i <= |plans|
  {
    if i == 0 then (0, 0)
    else Move(Corner(plans, i - 1), plans[i - 1].direction, plans[i - 1].len)
  }

  /** The least and greatest column and row of a walk. */
  datatype Box = Box(minX: int, maxX: int, minY: int, maxY: int)

  /** The least box holding (0, 0) and the first `i` corners after it. */
  function Extent(plans: seq<TrenchPlan>, i: nat): (b: Box)
    requires i <= |plans|
    ensures b.minX <= 0 <= b.maxX && b.minY <= 0 <= b.maxY
  {
    if i == 0 then Box(0, 0, 0, 0)
    else
      var b := Extent(plans, i - 1);
      var (x, y) := Corner(plans, i);
      Box(Min(x, b.minX), Max(x, b.maxX), Min(y, b.minY), Max(y, b.maxY))
  }

  /** Every corner of the walk is in the box of the whole walk. */
  lemma {:induction false} CornerInBox(plans: seq<TrenchPlan>, i: nat, n: nat)
    requires i <= n <= |plans|
    ensures var b := Extent(plans, n);
      b.minX <= Corner(plans, i).0 <= b.maxX && b.minY <= Corner(plans, i).1 <= b.maxY
    decreases n
  {
    if i < n {
      CornerInBox(plans, i, n - 1);
    }
  }

  /** `p` moved by `offset`. */
  function Shift(p: Point, offset: Point): Point {
    (p.0 + offset.0, p.1 + offset.1)
  }

  /** Once the walk is shifted so that its box starts at (0, 0), the
      `i`-th trench starts and ends inside the grid of the box's size. */
  lemma WalkFits(plans: seq<TrenchPlan>, i: nat)
    requires i < |plans|
    ensures var b := Extent(plans, |plans|);
      var offset := (-b.minX, -b.minY);
      var (h, w) := (b.maxY - b.minY + 1, b.maxX - b.minX + 1);
      Inside(Shift(Corner(plans, i), offset), h, w)
      && Move(Shift(Corner(plans, i), offset), plans[i].direction, plans[i].len) == Shift(Corner(plans, i + 1), offset)
      && Inside(Shift(Corner(plans, i + 1), offset), h, w)
  {
    CornerInBox(plans, i, |plans|);
    CornerInBox(plans, i + 1, |plans|);
  }

  /** The walk of `from_plans`: each plan with the corner it starts
      from, and the box of the whole walk. */
  method Walk(ps: seq<TrenchPlan>) returns (walked: seq<(Point, TrenchPlan)>, box: Box)
    ensures box == Extent(ps, |ps|)
    ensures |walked| == |ps|
    ensures forall j {:trigger walked[j]} | 0 <= j < |ps| :: walked[j] == (Corner(ps, j), ps[j])
  {
    var minY, maxY, minX, maxX := 0, 0, 0, 0;
    var x, y := 0, 0;
    walked := [];
    for i := 0 to |ps|
      invariant (x, y) == Corner(ps, i)
      invariant Extent(ps, i) == Box(minX, maxX, minY, maxY)
      invariant |walked| == i
      invariant forall j {:trigger walked[j]} | 0 <= j < i :: walked[j] == (Corner(ps, j), ps[j])
    {
      walked := walked + [((x, y), ps[i])];
      WalkStep(ps, i);
      match ps[i].direction {
        case Up => y := y - ps[i].len;
        case Down => y := y + ps[i].len;
        case Left => x := x - ps[i].len;
        case Right => x := x + ps[i].len;
      }
      minX := Min(x, minX);
      maxX := Max(x, maxX);
      minY := Min(y, minY);
      maxY := Max(y, maxY);
    }
    box := Box(minX, maxX, minY, maxY);
  }

  /** One plan more of the walk: the next corner, and the box grown to
      hold it. */
  lemma WalkStep(ps: seq<TrenchPlan>, i: nat)
    requires i < |ps|
    ensures Corner(ps, i + 1) == Move(Corner(ps, i), ps[i].direction, ps[i].len)
    ensures var b := Extent(ps, i);
      var (x, y) := Corner(ps, i + 1);
      Extent(ps, i + 1) == Box(Min(x, b.minX), Max(x, b.maxX), Min(y, b.minY), Max(y, b.maxY))
  {
  }

  /** Every plan's corner moved by `offset`. */
  method ShiftAll(walked: seq<(Point, TrenchPlan)>, offset: Point) returns (shifted: seq<(Point, TrenchPlan)>)
    ensures |shifted| == |walked|
    ensures forall j | 0 <= j < |walked| :: shifted[j] == (Shift(walked[j].0, offset), walked[j].1)
  {
    shifted := [];
    for i := 0 to |walked|
      invariant |shifted| == i
      invariant forall j | 0 <= j < i :: shifted[j] == (Shift(walked[j].0, offset), walked[j].1)
    {
      var (corner, plan) := walked[i];
      shifted := shifted + [((corner.0 + offset.0, corner.1 + offset.1), plan)];
    }
  }

  // ---------------------------------------------------------------------
  // Boundaries of the row sweep

  predicate Vertical(d: Direction) {
    d == Up || d == Down
  }

  /** The direction of the plan before the `i`-th; the last plan comes
      before the first. */
  function Before(plans: seq<(Point, TrenchPlan)>, i: int): Direction
    requires 0 <= i < |plans|
  {
    plans[if i == 0 then |plans| - 1 else i - 1].1.direction
  }

  /** The direction of the plan after the `i`-th; the first plan comes
      after the last. */
  function After(plans: seq<(Point, TrenchPlan)>, i: int): Direction
    requires 0 <= i < |plans|
  {
    plans[if i + 1 < |plans| then i + 1 else 0].1.direction
  }

  /** Whether the `i`-th plan marks `p` as a boundary: a vertical trench
      marks all its cells but the last; a horizontal one marks all of
      them when the plans before and after it go the same way, and none
      otherwise. */
  predicate Marked(plans: seq<(Point, TrenchPlan)>, i: int, p: Point)
    requires 0 <= i < |plans|
  {
    var (from, plan) := plans[i];
    if Vertical(plan.direction) then OnSpan(from, plan.direction, plan.len - 1, p)
    else Before(plans, i) == After(plans, i) && OnSpan(from, plan.direction, plan.len, p)
  }

  ghost predicate Boundary(plans: seq<(Point, TrenchPlan)>, p: Point) {
    exists i | 0 <= i < |plans| :: Marked(plans, i, p)
  }

  /** Whether every vertical plan has a cell; `dig_center` underflows on
      a vertical plan of none. */
  predicate Markable(plans: seq<(Point, TrenchPlan)>) {
    forall i | 0 <= i < |plans| :: Vertical(plans[i].1.direction) ==> plans[i].1.len >= 1
  }

  // ---------------------------------------------------------------------
  // The row sweep

  /** The two flags of the sweep along a row. */
  datatype Sweep = Sweep(inside: bool, onBoundary: bool)

  /** The sweep past one cell: a boundary cell starts or continues a
      boundary run; an undug cell off the boundary ends the run, and a
      run just ended flips `inside`; a dug cell off the boundary changes
      nothing. */
  function Advance(s: Sweep, cell: Option<Color>, boundary: bool): Sweep {
    if boundary then Sweep(s.inside, true)
    else if cell.None? then Sweep(if s.onBoundary then !s.inside else s.inside, false)
    else s
  }

  /** The flags once the sweep has passed the first `x` cells of row `y`. */
  ghost function SweepTo(row: seq<Option<Color>>, y: int, plans: seq<(Point, TrenchPlan)>, x: nat): Sweep
    requires x <= |row|
  {
    if x == 0 then Sweep(false, false)
    else Advance(SweepTo(row, y, plans, x - 1), row[x - 1], Boundary(plans, (x - 1, y)))
  }

  /** Cell `x` of row `y` after the sweep: an undug cell off the boundary
      that the sweep finds inside is dug in white. */
  ghost function Swept(row: seq<Option<Color>>, y: int, plans: seq<(Point, TrenchPlan)>, x: nat): (c: Option<Color>)
    requires x < |row|
    ensures row[x].Some? ==> c == row[x]
    ensures c == row[x] || (row[x].None? && c == Some(White))
  {
    if !Boundary(plans, (x, y)) && row[x].None? && SweepTo(row, y, plans, x + 1).inside then Some(White)
    else row[x]
  }

  // ---------------------------------------------------------------------
  // The field

  class Field {
    /** Each trench plan with the cell it starts from. */
    var plans: seq<(Point, TrenchPlan)>
    var height: nat
    var width: nat
    var inner: Grid
    var start: Point

    /** The grid has the field's size, and the start and both ends of
        every trench are on it. */
    predicate Valid()
      reads this
    {
      Shaped(inner, height, width) && Placed()
    }

    /** The start and both ends of every trench are on the field. */
    predicate Placed()
      reads this`plans, this`height, this`width, this`start
    {
      Inside(start, height, width)
      && forall i | 0 <= i < |plans| ::
        Inside(plans[i].0, height, width)
        && Inside(Move(plans[i].0, plans[i].1.direction, plans[i].1.len), height, width)
    }

    /** `Field::from_plans`: walks the plans from (0, 0), sizes the grid
        to the walk's box, and shifts the walk so that the box starts at
        (0, 0); nothing is dug yet. */
    constructor FromPlans(ps: seq<TrenchPlan>)
      ensures Valid()
      ensures var b := Extent(ps, |ps|);
        height == b.maxY - b.minY + 1 && width == b.maxX - b.minX + 1
        && start == (Max(0, -b.minX), Max(0, -b.minY))
      ensures |plans| == |ps|
      ensures forall i {:trigger plans[i]} | 0 <= i < |ps| :: plans[i] == (Shift(Corner(ps, i), start), ps[i])
      ensures forall y, x | 0 <= y < height && 0 <= x < width :: inner[y][x] == None
    {
      var walked, box := Walk(ps);
      var startX, startY := Max(0, -1 * box.minX), Max(0, -1 * box.minY);
      var shifted := ShiftAll(walked, (startX, startY));
      plans := shifted;
      height := box.maxY - box.minY + 1;
      width := box.maxX - box.minX + 1;
      start := (startX, startY);
      inner := Blank(box.maxY - box.minY + 1, box.maxX - box.minX + 1);
      new;
      forall i | 0 <= i < |plans|
        ensures Inside(plans[i].0, height, width)
        ensures Inside(Move(plans[i].0, plans[i].1.direction, plans[i].1.len), height, width)
      {
        WalkFits(ps, i);
      }
    }

    /** `Field::trench`: digs the cells of one trench from `from` in the
        plan's color and returns its far end. */
    method Trench(from: Point, plan: TrenchPlan) returns (last: Point)
      requires Shaped(inner, height, width)
      requires Inside(from, height, width) && Inside(Move(from, plan.direction, plan.len), height, width)
      modifies this`inner
      ensures inner == Dig(old(inner), from, plan.direction, plan.len, plan.color)
      ensures Shaped(inner, height, width)
      ensures last == Move(from, plan.direction, plan.len)
    {
      var span := Span(plan, from);
      ghost var g := inner;
      for k := 0 to |span|
        invariant Shaped(inner, height, width)
        invariant DugUpTo(g, inner, from, plan.direction, k, plan.color)
      {
        SpanInside(from, plan.direction, plan.len, k + 1, height, width);
        ghost var before := inner;
        Put(span[k], Some(plan.color));
        DugNext(g, before, inner, from, plan.direction, k, plan.color);
      }
      DugIsDig(g, inner, from, plan.direction, plan.len, plan.color);
      last := if |span| == 0 then from else span[|span| - 1];
    }

    /** Sets one cell of the grid. */
    method Put(p: Point, c: Option<Color>)
      requires Shaped(inner, height, width) && Inside(p, height, width)
      modifies this`inner
      ensures inner == old(inner)[p.1 := old(inner)[p.1][p.0 := c]]
      ensures Shaped(inner, height, width)
    {
      inner := inner[p.1 := inner[p.1][p.0 := c]];
    }

    /** `Field::dig_edges`: digs every trench, in order. */
    method DigEdges()
      requires Valid()
      modifies this`inner
      ensures inner == DigAll(old(inner), plans)
      ensures Valid()
    {
      var ps := plans;
      ghost var g := inner;
      for i := 0 to |ps|
        invariant inner == DigAll(g, ps[..i])
        invariant Shaped(inner, height, width)
        invariant plans == ps
      {
        DigNext(g, i);
      }
      assert ps[..|ps|] == ps;
    }

    /** One step of `dig_edges`: digs the `i`-th trench. */
    method DigNext(ghost g: Grid, i: nat)
      requires Valid() && i < |plans| && inner == DigAll(g, plans[..i])
      modifies this`inner
      ensures Valid() && inner == DigAll(g, plans[..i + 1])
    {
      var (coords, plan) := plans[i];
      var _ := Trench(coords, plan);
      DigAllNext(g, plans, i);
    }

    /** The boundary cells of the row sweep, or `None` where
        `dig_center` underflows. */
    method Boundaries() returns (b: Option<set<Point>>)
      requires Valid()
      ensures b.Some? <==> Markable(plans)
      ensures b.Some? ==> forall p :: p in b.value <==> Boundary(plans, p)
    {
      var marks: set<Point> := {};
      var lastDirection := if |plans| == 0 then None else Some(plans[|plans| - 1].1.direction);
      for i := 0 to |plans|
        invariant forall j | 0 <= j < i :: Vertical(plans[j].1.direction) ==> plans[j].1.len >= 1
        invariant forall p :: p in marks <==> exists j | 0 <= j < i :: Marked(plans, j, p)
        invariant i < |plans| ==> lastDirection == Some(Before(plans, i))
      {
        var added := MarksOf(i, lastDirection);
        if added.None? {
          return None;
        }
        marks := marks + added.value;
        lastDirection := Some(plans[i].1.direction);
      }
      return Some(marks);
    }

    /** The cells the `i`-th plan marks, or `None` for a vertical plan of
        no cells, where `dig_center` underflows. */
    method MarksOf(i: nat, lastDirection: Option<Direction>) returns (added: Option<set<Point>>)
      requires Valid() && i < |plans| && lastDirection == Some(Before(plans, i))
      ensures added.None? <==> Vertical(plans[i].1.direction) && plans[i].1.len == 0
      ensures added.Some? ==> forall p :: p in added.value <==> Marked(plans, i, p)
    {
      var (coords, plan) := plans[i];
      var nextDirection := if i + 1 < |plans| then Some(plans[i + 1].1.direction) else Some(plans[0].1.direction);
      if Vertical(plan.direction) {
        if plan.len == 0 {
          return None;
        }
        var span := Span(plan, coords);
        SpanCells(span, coords, plan.direction, plan.len - 1);
        var cells := span[..plan.len - 1];
        added := Some(set p | p in cells);
      } else if lastDirection == nextDirection {
        var span := Span(plan, coords);
        SpanCells(span, coords, plan.direction, plan.len);
        added := Some(set p | p in span);
      } else {
        added := Some({});
      }
    }

    /** Sweeps row `y` left to right, digging in white the undug cells
        the sweep finds inside. */
    method SweepRow(y: nat, boundaries: set<Point>)
      requires Shaped(inner, height, width) && y < height
      requires forall p :: p in boundaries <==> Boundary(plans, p)
      modifies this`inner
      ensures inner == old(inner)[y := SweptRow(old(inner)[y], y, plans)]
    {
      ghost var row := inner[y];
      var inside, onBoundary := false, false;
      for x := 0 to width
        invariant Sweep(inside, onBoundary) == SweepTo(row, y, plans, x)
        invariant |inner| == height && inner == old(inner)[y := inner[y]] && |inner[y]| == width
        invariant forall k | 0 <= k < x :: inner[y][k] == Swept(row, y, plans, k)
        invariant forall k | x <= k < width :: inner[y][k] == row[k]
      {
        if (x, y) in boundaries {
          onBoundary := true;
        } else if inner[y][x].None? {
          if onBoundary {
            inside := !inside;
          }
          onBoundary := false;
          if inside {
            inner := inner[y := inner[y][x := Some(White)]];
          }
        }
      }
      assert inner[y] == SweptRow(row, y, plans);
    }

    /** `Field::dig_center`: sweeps every row; `false`, with nothing
        dug, where a vertical plan has no cells and the source
        underflows. */
    method DigCenter() returns (ok: bool)
      requires Valid()
      modifies this`inner
      ensures ok <==> Markable(plans)
      ensures ok ==> inner == Center(old(inner), plans)
      ensures !ok ==> inner == old(inner)
      ensures Valid()
    {
      var boundaries := Boundaries();
      if boundaries.None? {
        return false;
      }
      ghost var g := inner;
      for y := 0 to height
        invariant Valid()
        invariant forall k | 0 <= k < y :: inner[k] == Center(g, plans)[k]
        invariant forall k | y <= k < height :: inner[k] == g[k]
      {
        SweepRow(y, boundaries.value);
      }
      ok := true;
    }

    /** `Field::dug_area`: the number of dug cells. */
    function DugArea(): (n: nat)
      reads this
      ensures Shaped(inner, height, width) ==> n <= height * width
    {
      if Shaped(inner, height, width) then
        DugBound(inner, height, width);
        Dug(inner)
      else
        Dug(inner)
    }
  }
}
