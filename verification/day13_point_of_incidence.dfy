/** Day 13, "Point of Incidence": patterns of ash and rock, the pivots a
    row or a column is mirrored over, the single smudge that a near-miss
    reflection hides, and the searches for the vertical and the horizontal
    line of reflection. */
module PointOfIncidence {
  import opened Wrappers
  import opened Text

  /** A pattern: its rows, and the height and width read from them. */
  datatype Pattern = Pattern(inner: seq<seq<char>>, height: nat, width: nat)

  // ---------------------------------------------------------------------
  // Reading the patterns

  /** A line of a pattern: at least one character, each '#' or '.'. */
  predicate LineOk(l: string) {
    |l| > 0 && forall k | 0 <= k < |l| :: l[k] == '#' || l[k] == '.'
  }

  /** The index of the first blank line, or the number of lines. */
  function FirstBlank(ls: seq<string>): (k: nat)
    ensures k <= |ls| && (k < |ls| ==> ls[k] == "")
    ensures forall j | 0 <= j < k :: ls[j] != ""
  {
    if |ls| == 0 || ls[0] == "" then 0 else 1 + FirstBlank(ls[1..])
  }

  /** Every line a line of a pattern. */
  predicate AllOk(ls: seq<string>) {
    forall j | 0 <= j < |ls| :: LineOk(ls[j])
  }

  /** The lines grouped into patterns: one blank line between two
      patterns, no blank line anywhere else, and every other line a
      line of a pattern. */
  function Blocks(ls: seq<string>): (r: Result<seq<seq<string>>>)
    ensures r.Ok? ==> |r.value| >= 1
    decreases |ls|
  {
    var k := FirstBlank(ls);
    if k == 0 || !AllOk(ls[..k]) then Err("Unable to parse patterns")
    else if k == |ls| then Ok([ls])
    else match Blocks(ls[k + 1..])
      case Err(e) => Err(e)
      case Ok(rest) => Ok([ls[..k]] + rest)
  }

  /** Every group is one or more lines of a pattern. */
  lemma {:induction false} BlocksOk(ls: seq<string>)
    requires Blocks(ls).Ok?
    ensures forall b | b in Blocks(ls).value :: |b| >= 1 && AllOk(b)
    decreases |ls|
  {
    var k := FirstBlank(ls);
    if k < |ls| {
      BlocksOk(ls[k + 1..]);
    }
  }

  /** A pattern from its lines: the height is the number of lines and the
      width the length of the first. */
  function PatternOf(lines: seq<string>): Pattern
    requires |lines| >= 1
  {
    Pattern(lines, |lines|, |lines[0]|)
  }

  /** `parse`: patterns separated by a blank line, each one or more lines
      of '#' and '.' separated by a newline. */
  function Parse(input: string): (r: Result<seq<Pattern>>)
    ensures r.Ok? ==> |r.value| >= 1
    ensures r.Ok? ==> forall p | p in r.value ::
              p.height == |p.inner| >= 1 && p.width == |p.inner[0]| && AllOk(p.inner)
  {
    var lines := Split(input, "\n");
    match Blocks(lines)
    case Err(e) => Err(e)
    case Ok(bs) =>
      BlocksOk(lines);
      Ok(seq(|bs|, i requires 0 <= i < |bs| => PatternOf(bs[i])))
  }

  /** The lines of some patterns with a blank line between two patterns. */
  function Interleave(bs: seq<seq<string>>): (ls: seq<string>)
    requires |bs| >= 1
    ensures |ls| >= |bs[0]|
  {
    if |bs| == 1 then bs[0] else bs[0] + [""] + Interleave(bs[1..])
  }

  /** The text of some patterns. */
  function Render(bs: seq<seq<string>>): string
    requires |bs| >= 1 && |bs[0]| >= 1
  {
    Join(Interleave(bs), "\n")
  }

  lemma FirstBlankAfter(b: seq<string>, rest: seq<string>)
    requires forall l | l in b :: l != ""
    ensures FirstBlank(b + [""] + rest) == |b|
    ensures FirstBlank(b) == |b|
  {
    if |b| > 0 {
      assert b[0] in b;
      assert (b + [""] + rest)[1..] == b[1..] + [""] + rest;
      assert forall l | l in b[1..] :: l in b;
      FirstBlankAfter(b[1..], rest);
    }
  }

  lemma NonBlank(b: seq<string>)
    requires AllOk(b)
    ensures forall l | l in b :: l != ""
  {
    forall l | l in b
      ensures l != ""
    {
      var j :| 0 <= j < |b| && b[j] == l;
    }
  }

  /** Grouping the interleaved lines of patterns gives back the patterns. */
  lemma {:induction false} BlocksInterleave(bs: seq<seq<string>>)
    requires |bs| >= 1
    requires forall b | b in bs :: |b| >= 1 && AllOk(b)
    ensures Blocks(Interleave(bs)) == Ok(bs)
  {
    var b := bs[0];
    assert b in bs;
    NonBlank(b);
    if |bs| == 1 {
      FirstBlankAfter(b, []);
      assert b[..|b|] == b && bs == [b];
    } else {
      assert forall c | c in bs[1..] :: c in bs;
      BlocksInterleave(bs[1..]);
      BlocksCons(b, Interleave(bs[1..]), bs[1..]);
      assert bs == [b] + bs[1..];
    }
  }

  /** One more pattern in front, and a blank line after it. */
  lemma BlocksCons(b: seq<string>, rest: seq<string>, tail: seq<seq<string>>)
    requires |b| >= 1 && AllOk(b) && Blocks(rest) == Ok(tail)
    ensures Blocks(b + [""] + rest) == Ok([b] + tail)
  {
    var ls := b + [""] + rest;
    NonBlank(b);
    FirstBlankAfter(b, rest);
    assert ls[..|b|] == b;
    assert ls[|b| + 1..] == rest;
  }

  /** Grouped lines are the interleaved lines of their groups. */
  lemma {:induction false} InterleaveBlocks(ls: seq<string>)
    requires Blocks(ls).Ok?
    ensures Interleave(Blocks(ls).value) == ls
    decreases |ls|
  {
    var k := FirstBlank(ls);
    if k < |ls| {
      var rest := Blocks(ls[k + 1..]);
      assert Blocks(ls).value == [ls[..k]] + rest.value;
      InterleaveBlocks(ls[k + 1..]);
      assert ([ls[..k]] + rest.value)[1..] == rest.value;
      assert ls == ls[..k] + [""] + ls[k + 1..];
    } else {
      assert Blocks(ls).value == [ls];
    }
  }

  lemma LineLacks(l: string)
    requires LineOk(l)
    ensures Lacks(l, '\n')
  {
    forall i | 0 <= i < |l|
      ensures l[i] != '\n'
    {
      assert l[i] == '#' || l[i] == '.';
    }
  }

  /** The lines of a pattern text hold no newline. */
  lemma {:induction false} InterleaveLacks(bs: seq<seq<string>>)
    requires |bs| >= 1
    requires forall b | b in bs :: AllOk(b)
    ensures forall k :: 0 <= k < |Interleave(bs)| ==> Lacks(Interleave(bs)[k], '\n')
  {
    var b := bs[0];
    assert b in bs;
    forall k | 0 <= k < |b|
      ensures Lacks(b[k], '\n')
    {
      LineLacks(b[k]);
    }
    if |bs| > 1 {
      assert forall c | c in bs[1..] :: c in bs;
      InterleaveLacks(bs[1..]);
      var tail := Interleave(bs[1..]);
      assert Interleave(bs) == b + [""] + tail;
      forall k | 0 <= k < |Interleave(bs)|
        ensures Lacks(Interleave(bs)[k], '\n')
      {
        if k > |b| {
          assert Interleave(bs)[k] == tail[k - |b| - 1];
        }
      }
    }
  }

  /** Parsing the text of some patterns gives back those patterns. */
  lemma ParseRender(bs: seq<seq<string>>)
    requires |bs| >= 1
    requires forall b | b in bs :: |b| >= 1 && AllOk(b)
    ensures Parse(Render(bs)) == Ok(seq(|bs|, i requires 0 <= i < |bs| => PatternOf(bs[i])))
  {
    InterleaveLacks(bs);
    JoinSplit(Interleave(bs), "\n");
    BlocksInterleave(bs);
  }

  /** Every text `parse` accepts is the text of the patterns it reads. */
  lemma RenderParse(input: string)
    requires Blocks(Split(input, "\n")).Ok?
    ensures var bs := Blocks(Split(input, "\n")).value; |bs[0]| >= 1 && Render(bs) == input
  {
    assert Blocks(Split(input, "\n")).value[0] in Blocks(Split(input, "\n")).value;
    InterleaveBlocks(Split(input, "\n"));
    SplitJoin(input, "\n");
  }

  // ---------------------------------------------------------------------
  // Reflections of one row or column

  /** A section is mirrored over the pivot `p` (between `s[p - 1]` and
      `s[p]`) when each cell before the pivot equals its mirror image
      `s[2 * p - 1 - i]`, as far as the section reaches. */
  predicate Mirrored(s: seq<char>, p: nat) {
    forall i | 0 <= i < p && 2 * p - 1 - i < |s| :: s[i] == s[2 * p - 1 - i]
  }

  /** Cell `i` before the pivot differs from its mirror image. */
  predicate MismatchAt(s: seq<char>, p: nat, i: nat) {
    i < p && 2 * p - 1 - i < |s| && s[i] != s[2 * p - 1 - i]
  }

  /** The cells before the pivot that differ from their mirror image. */
  function Mismatches(s: seq<char>, p: nat): set<nat> {
    set i: nat | i < p && MismatchAt(s, p, i)
  }

  lemma MirroredNoMismatch(s: seq<char>, p: nat)
    ensures Mirrored(s, p) <==> Mismatches(s, p) == {}
  {
    if !Mirrored(s, p) {
      var i :| 0 <= i < p && 2 * p - 1 - i < |s| && s[i] != s[2 * p - 1 - i];
      assert MismatchAt(s, p, i);
      assert i in Mismatches(s, p);
    }
  }

  function Reverse(s: seq<char>): (r: seq<char>)
    ensures |r| == |s| && forall k | 0 <= k < |s| :: r[k] == s[|s| - 1 - k]
  {
    if s == [] then [] else Reverse(s[1..]) + [s[0]]
  }

  /** Whether two sections agree pairwise up to the shorter one, as
      `zip(..).all(..)` reads them. */
  function ZipEqual(a: seq<char>, b: seq<char>): (r: bool)
    ensures r <==> forall k | 0 <= k < |a| && k < |b| :: a[k] == b[k]
  {
    if a == [] || b == [] then true
    else a[0] == b[0] && ZipEqual(a[1..], b[1..])
  }

  /** `is_reflected`: never over pivot 0, otherwise exactly when the
      section is mirrored over the pivot. */
  function IsReflected(s: seq<char>, p: nat): (r: bool)
    requires p <= |s|
    ensures r <==> p != 0 && Mirrored(s, p)
  {
    if p == 0 then false
    else
      ZipReflected(s, p);
      ZipEqual(Reverse(s[..p]), s[p..])
  }

  /** Zipping the reversed start with the end pairs each cell with its
      mirror image. */
  lemma ZipReflected(s: seq<char>, p: nat)
    requires p <= |s|
    ensures ZipEqual(Reverse(s[..p]), s[p..]) <==> Mirrored(s, p)
  {
    var a, b := Reverse(s[..p]), s[p..];
    forall k | 0 <= k < |a| && k < |b|
      ensures a[k] == s[p - 1 - k] && b[k] == s[p + k]
    {
    }
    if ZipEqual(a, b) {
      forall i | 0 <= i < p && 2 * p - 1 - i < |s|
        ensures s[i] == s[2 * p - 1 - i]
      {
        assert a[p - 1 - i] == b[p - 1 - i];
      }
    } else {
      var k :| 0 <= k < |a| && k < |b| && a[k] != b[k];
      assert MismatchAt(s, p, p - 1 - k);
    }
  }

  /** The mismatched pairs among the `n` pairs nearest the pivot, nearest
      first, each pair as its two positions. */
  function Differences(s: seq<char>, p: nat, n: nat): seq<nat>
    requires n <= p && p + n <= |s|
  {
    if n == 0 then []
    else Differences(s, p, n - 1) + (if s[p - n] != s[p + n - 1] then [p - n, p + n - 1] else [])
  }

  /** The mismatches among the `n` pairs nearest the pivot. */
  function MismatchesNear(s: seq<char>, p: nat, n: nat): set<nat> {
    set i: nat | p - n <= i < p && MismatchAt(s, p, i)
  }

  /** The next pair out adds its left cell when it is mismatched. */
  lemma NearStep(s: seq<char>, p: nat, n: nat)
    requires 0 < n <= p
    ensures p - n !in MismatchesNear(s, p, n - 1)
    ensures MismatchesNear(s, p, n) == MismatchesNear(s, p, n - 1) + (if MismatchAt(s, p, p - n) then {p - n} else {})
  {
  }

  /** Each mismatched pair adds two positions; a single mismatch is that
      pair. */
  lemma {:induction false} DifferencesShape(s: seq<char>, p: nat, n: nat)
    requires n <= p && p + n <= |s|
    ensures |Differences(s, p, n)| == 2 * |MismatchesNear(s, p, n)|
    ensures |MismatchesNear(s, p, n)| == 1 ==>
              exists i :: MismatchesNear(s, p, n) == {i} && Differences(s, p, n) == [i, 2 * p - 1 - i]
  {
    if n > 0 {
      DifferencesShape(s, p, n - 1);
      var near := MismatchesNear(s, p, n - 1);
      var i := p - n;
      NearStep(s, p, n);
      if MismatchAt(s, p, i) && |near| == 0 {
        assert near == {};
      }
    } else {
      assert MismatchesNear(s, p, n) == {};
    }
  }

  /** With one mismatched pair, the differences are that pair, either
      side of the pivot. */
  lemma SingleMismatch(s: seq<char>, p: nat, n: nat)
    requires n <= p && p + n <= |s| && |MismatchesNear(s, p, n)| == 1
    ensures var d := Differences(s, p, n);
            |d| == 2 && d[0] < p <= d[1] < |s| && d[0] + d[1] + 1 == 2 * p && s[d[0]] != s[d[1]]
            && MismatchesNear(s, p, n) == {d[0]}
  {
    DifferencesShape(s, p, n);
    var i :| MismatchesNear(s, p, n) == {i} && Differences(s, p, n) == [i, 2 * p - 1 - i];
    assert i in MismatchesNear(s, p, n);
  }

  /** `find_error`: no mismatched pair gives `Some(None)`; exactly one
      gives the two positions of that pair, either side of the pivot; two
      or more give `None`. */
  function FindError(s: seq<char>, p: nat): (r: Option<Option<(nat, nat)>>)
    requires p <= |s|
    ensures r == Some(None) <==> Mismatches(s, p) == {}
    ensures r.Some? && r.value.Some? <==> |Mismatches(s, p)| == 1
    ensures r.Some? && r.value.Some? ==>
              var (i, j) := r.value.value;
              i < p <= j < |s| && i + j + 1 == 2 * p && s[i] != s[j]
              && Mismatches(s, p) == {i}
  {
    var n := if p <= |s| - p then p else |s| - p;
    assert MismatchesNear(s, p, n) == Mismatches(s, p);
    DifferencesShape(s, p, n);
    var d := Differences(s, p, n);
    if |d| == 2 then
      SingleMismatch(s, p, n);
      Some(Some((d[0], d[1])))
    else if |d| == 0 then Some(None)
    else None
  }

  // ---------------------------------------------------------------------
  // Columns

  /** The first `height` rows reach the last column: what `column` needs
      for every column of the pattern. */
  predicate ColumnsFit(p: Pattern) {
    p.height <= |p.inner| && forall k | 0 <= k < p.height :: p.width <= |p.inner[k]|
  }

  /** Every row reaches the last pivot the vertical searches try. */
  predicate RowsFit(p: Pattern) {
    forall k | 0 <= k < |p.inner| :: p.width <= |p.inner[k]| + 1
  }

  /** Column `x` of the first `n` rows. */
  function ColumnOf(p: Pattern, x: nat, n: nat): (c: seq<char>)
    requires ColumnsFit(p) && x < p.width && n <= p.height
    ensures |c| == n
  {
    if n == 0 then [] else ColumnOf(p, x, n - 1) + [p.inner[n - 1][x]]
  }

  lemma {:induction false} ColumnOfAt(p: Pattern, x: nat, n: nat)
    requires ColumnsFit(p) && x < p.width && n <= p.height
    ensures forall i | 0 <= i < n :: ColumnOf(p, x, n)[i] == p.inner[i][x]
  {
    if n > 0 {
      ColumnOfAt(p, x, n - 1);
    }
  }

  /** The first `n` columns of a pattern, left to right. */
  function ColumnsUpTo(p: Pattern, n: nat): (cs: seq<seq<char>>)
    requires ColumnsFit(p) && n <= p.width
    ensures |cs| == n
  {
    if n == 0 then [] else ColumnsUpTo(p, n - 1) + [ColumnOf(p, n - 1, p.height)]
  }

  lemma {:induction false} ColumnsUpToAt(p: Pattern, n: nat, x: nat)
    requires ColumnsFit(p) && x < n <= p.width
    ensures ColumnsUpTo(p, n)[x] == ColumnOf(p, x, p.height)
  {
    if x < n - 1 {
      ColumnsUpToAt(p, n - 1, x);
    }
  }

  /** The columns of a pattern, left to right. */
  function Columns(p: Pattern): (cs: seq<seq<char>>)
    requires ColumnsFit(p)
    ensures |cs| == p.width
  {
    ColumnsUpTo(p, p.width)
  }

  /** Cell `y` of column `x` is cell `x` of row `y`. */
  lemma ColumnsAt(p: Pattern, x: nat)
    requires ColumnsFit(p) && x < p.width
    ensures |Columns(p)[x]| == p.height
    ensures forall y | 0 <= y < p.height :: Columns(p)[x][y] == p.inner[y][x]
  {
    ColumnsUpToAt(p, p.width, x);
    ColumnOfAt(p, x, p.height);
  }

  /** `column`: the cells of column `x`, top to bottom. */
  method Column(p: Pattern, x: nat) returns (column: seq<char>)
    requires ColumnsFit(p) && x < p.width
    ensures |column| == p.height && forall i | 0 <= i < p.height :: column[i] == p.inner[i][x]
    ensures column == Columns(p)[x]
  {
    ColumnsAt(p, x);
    column := [];
    for i := 0 to p.height
      invariant |column| == i && forall j | 0 <= j < i :: column[j] == p.inner[j][x]
    {
      column := column + [p.inner[i][x]];
    }
  }

  // ---------------------------------------------------------------------
  // Lines of reflection

  /** Every section mirrored over pivot `i`. */
  predicate AllMirrored(sections: seq<seq<char>>, i: nat) {
    forall k | 0 <= k < |sections| :: Mirrored(sections[k], i)
  }

  /** The pivots `1 .. n - 1` over which every section is mirrored, in
      increasing order, as the searches collect them. */
  function Pivots(sections: seq<seq<char>>, n: nat): (ps: seq<nat>)
    ensures forall j | 0 <= j < |ps| :: 1 <= ps[j] < n
  {
    if n <= 1 then []
    else Pivots(sections, n - 1) + (if AllMirrored(sections, n - 1) then [n - 1] else [])
  }

  lemma {:induction false} PivotsSpec(sections: seq<seq<char>>, n: nat)
    ensures forall i :: i in Pivots(sections, n) <==> 1 <= i < n && AllMirrored(sections, i)
    ensures forall a, b | 0 <= a < b < |Pivots(sections, n)| :: Pivots(sections, n)[a] < Pivots(sections, n)[b]
  {
    if n > 1 {
      PivotsSpec(sections, n - 1);
    }
  }

  /** The distance of pivot `i` from the nearer edge of `n` cells: the key
      the searches maximise. */
  function Balance(i: nat, n: nat): nat
    requires i <= n
  {
    if i < n - i then i else n - i
  }

  /** `max_by_key`: the position of the last element with the greatest
      key. */
  function LastMax(s: seq<nat>, n: nat): (k: nat)
    requires |s| > 0 && forall j | 0 <= j < |s| :: s[j] <= n
    ensures k < |s|
    ensures forall j | 0 <= j < |s| :: Balance(s[j], n) <= Balance(s[k], n)
    ensures forall j | k < j < |s| :: Balance(s[j], n) < Balance(s[k], n)
  {
    if |s| == 1 then 0
    else
      var m := LastMax(s[..|s| - 1], n);
      if Balance(s[m], n) <= Balance(s[|s| - 1], n) then |s| - 1 else m
  }

  function MaxByKey(s: seq<nat>, n: nat): (r: Option<nat>)
    requires forall j | 0 <= j < |s| :: s[j] <= n
    ensures r.None? <==> s == []
  {
    if s == [] then None else Some(s[LastMax(s, n)])
  }

  /** What the searches for a line of reflection promise: nothing when no
      pivot mirrors every section, otherwise a pivot that does, with the
      greatest distance from the nearer edge, and the last of those. */
  ghost predicate BestPivot(sections: seq<seq<char>>, n: nat, r: Option<nat>) {
    (r.None? <==> forall i | 1 <= i < n :: !AllMirrored(sections, i))
    && (r.Some? ==>
          1 <= r.value < n && AllMirrored(sections, r.value)
          && forall j | 1 <= j < n && AllMirrored(sections, j) ::
               Balance(j, n) <= Balance(r.value, n) && (r.value < j ==> Balance(j, n) < Balance(r.value, n)))
  }

  /** The greatest key over the collected pivots is the best pivot. */
  lemma MaxPivot(sections: seq<seq<char>>, n: nat)
    ensures BestPivot(sections, n, MaxByKey(Pivots(sections, n), n))
  {
    var ps := Pivots(sections, n);
    PivotsSpec(sections, n);
    assert forall j | 0 <= j < |ps| :: ps[j] in ps;
    var r := MaxByKey(ps, n);
    if r.Some? {
      var k := LastMax(ps, n);
      assert ps[k] in ps;
      forall j | 1 <= j < n && AllMirrored(sections, j)
        ensures Balance(j, n) <= Balance(r.value, n) && (r.value < j ==> Balance(j, n) < Balance(r.value, n))
      {
        assert j in ps;
        var b :| 0 <= b < |ps| && ps[b] == j;
        if r.value < j {
          assert k < b;
        }
      }
    }
  }

  /** At most one answer meets that promise. */
  lemma BestPivotUnique(sections: seq<seq<char>>, n: nat, r: Option<nat>, q: Option<nat>)
    requires BestPivot(sections, n, r) && BestPivot(sections, n, q)
    ensures r == q
  {
  }

  /** The inner loop of `find_vert_pivot`: whether every row is
      reflected over pivot `i`, stopping at the first that is not. */
  method RowsReflected(p: Pattern, i: nat) returns (reflected: bool)
    requires RowsFit(p) && 1 <= i < p.width
    ensures reflected <==> AllMirrored(p.inner, i)
  {
    for k := 0 to |p.inner|
      invariant forall j | 0 <= j < k :: Mirrored(p.inner[j], i)
    {
      if !IsReflected(p.inner[k], i) {
        return false;
      }
    }
    return true;
  }

  /** The inner loop of `find_horiz_pivot`: whether every column is
      reflected over pivot `i`, stopping at the first that is not. */
  method ColumnsReflected(p: Pattern, i: nat) returns (reflected: bool)
    requires ColumnsFit(p) && 1 <= i < p.height
    ensures reflected <==> AllMirrored(Columns(p), i)
  {
    for x := 0 to p.width
      invariant forall j | 0 <= j < x :: Mirrored(Columns(p)[j], i)
    {
      var col := Column(p, x);
      if !IsReflected(col, i) {
        return false;
      }
    }
    return true;
  }

  /** `find_vert_pivot`: the pivots `1 .. width - 1` over which every row
      is reflected, and of those the one farthest from the nearer edge. */
  method FindVertPivot(p: Pattern) returns (r: Option<nat>)
    requires RowsFit(p)
    ensures BestPivot(p.inner, p.width, r)
    ensures r == MaxByKey(Pivots(p.inner, p.width), p.width)
  {
    var pivots := [];
    var i := 0;
    label nextPivot:
    while i + 1 < p.width
      invariant i == 0 || i < p.width
      invariant pivots == Pivots(p.inner, i + 1)
    {
      i := i + 1;
      var reflected := RowsReflected(p, i);
      if !reflected {
        continue nextPivot;
      }
      pivots := pivots + [i];
    }
    assert pivots == Pivots(p.inner, p.width) by {
      assert i + 1 == p.width || (i == 0 && p.width <= 1);
    }
    MaxPivot(p.inner, p.width);
    r := MaxByKey(pivots, p.width);
  }

  /** `find_horiz_pivot`: the same search over the columns, for the
      pivots `1 .. height - 1`. */
  method FindHorizPivot(p: Pattern) returns (r: Option<nat>)
    requires ColumnsFit(p)
    ensures BestPivot(Columns(p), p.height, r)
    ensures r == MaxByKey(Pivots(Columns(p), p.height), p.height)
  {
    ghost var cols := Columns(p);
    var pivots := [];
    var i := 0;
    label nextPivot:
    while i + 1 < p.height
      invariant i == 0 || i < p.height
      invariant pivots == Pivots(cols, i + 1)
    {
      i := i + 1;
      var reflected := ColumnsReflected(p, i);
      if !reflected {
        continue nextPivot;
      }
      pivots := pivots + [i];
    }
    assert pivots == Pivots(cols, p.height) by {
      assert i + 1 == p.height || (i == 0 && p.height <= 1);
    }
    MaxPivot(cols, p.height);
    r := MaxByKey(pivots, p.height);
  }

  /** A horizontal line of reflection mirrors whole rows: over pivot `i`
      every column is mirrored exactly when each row before the pivot
      equals its mirror image, as far as the pattern reaches. */
  lemma HorizMirrorsRows(p: Pattern, i: nat)
    requires ColumnsFit(p)
    ensures AllMirrored(Columns(p), i) <==>
              forall y | 0 <= y < i && 2 * i - 1 - y < p.height :: p.inner[y][..p.width] == p.inner[2 * i - 1 - y][..p.width]
  {
    var cs := Columns(p);
    forall x | 0 <= x < p.width
      ensures |cs[x]| == p.height && forall y | 0 <= y < p.height :: cs[x][y] == p.inner[y][x]
    {
      ColumnsAt(p, x);
    }
    if AllMirrored(cs, i) {
      forall y | 0 <= y < i && 2 * i - 1 - y < p.height
        ensures p.inner[y][..p.width] == p.inner[2 * i - 1 - y][..p.width]
      {
        forall x | 0 <= x < p.width
          ensures p.inner[y][..p.width][x] == p.inner[2 * i - 1 - y][..p.width][x]
        {
          assert |cs[x]| == p.height && Mirrored(cs[x], i);
          assert cs[x][y] == p.inner[y][x] && cs[x][2 * i - 1 - y] == p.inner[2 * i - 1 - y][x];
        }
      }
    } else {
      var x :| 0 <= x < |cs| && !Mirrored(cs[x], i);
      var y :| 0 <= y < i && 2 * i - 1 - y < |cs[x]| && cs[x][y] != cs[x][2 * i - 1 - y];
      assert p.inner[y][..p.width][x] != p.inner[2 * i - 1 - y][..p.width][x];
    }
  }

  // ---------------------------------------------------------------------
  // Smudges

  /** How many of the first `n` sections have exactly one mismatched cell
      over pivot `i`. */
  ghost function SmudgedCount(sections: seq<seq<char>>, i: nat, n: nat): nat
    requires n <= |sections|
  {
    if n == 0 then 0
    else SmudgedCount(sections, i, n - 1) + (if |Mismatches(sections[n - 1], i)| == 1 then 1 else 0)
  }

  /** Pivot `i` is a smudged line of reflection: no section has two
      mismatches and exactly one section has one. */
  ghost predicate Smudged(sections: seq<seq<char>>, i: nat) {
    (forall k | 0 <= k < |sections| :: |Mismatches(sections[k], i)| <= 1)
    && SmudgedCount(sections, i, |sections|) == 1
  }

  lemma {:induction false} SmudgedCountMono(sections: seq<seq<char>>, i: nat, a: nat, b: nat)
    requires a <= b <= |sections|
    ensures SmudgedCount(sections, i, a) <= SmudgedCount(sections, i, b)
    decreases b
  {
    if a < b {
      SmudgedCountMono(sections, i, a, b - 1);
    }
  }

  /** Whatever sections the count leaves out have no single mismatch. */
  lemma {:induction false} SmudgedCountZero(sections: seq<seq<char>>, i: nat, n: nat)
    requires n <= |sections|
    ensures SmudgedCount(sections, i, n) == 0 <==> forall k | 0 <= k < n :: |Mismatches(sections[k], i)| != 1
  {
    if n > 0 {
      SmudgedCountZero(sections, i, n - 1);
    }
  }

  /** A smudged line of reflection is exactly one section with exactly
      one mismatched cell while all other sections are mirrored. */
  lemma {:induction false} SmudgedOne(sections: seq<seq<char>>, i: nat)
    ensures Smudged(sections, i) <==>
              exists k | 0 <= k < |sections| ::
                (|Mismatches(sections[k], i)| == 1
                 && forall j | 0 <= j < |sections| && j != k :: Mismatches(sections[j], i) == {})
  {
    var n := |sections|;
    if Smudged(sections, i) {
      var k := LastSmudged(sections, i, n);
      forall j | 0 <= j < n && j != k
        ensures Mismatches(sections[j], i) == {}
      {
        if Mismatches(sections[j], i) != {} {
          assert |Mismatches(sections[j], i)| == 1;
          SmudgedTwo(sections, i, j, k);
        }
      }
    } else if k :| 0 <= k < n && |Mismatches(sections[k], i)| == 1
                  && (forall j | 0 <= j < n && j != k :: Mismatches(sections[j], i) == {}) {
      forall j | 0 <= j < n
        ensures |Mismatches(sections[j], i)| <= 1
      {
        if j != k {
          assert Mismatches(sections[j], i) == {};
        }
      }
      SmudgedSplit(sections, i, k);
    }
  }

  /** The last section counted has a single mismatch. */
  lemma {:induction false} LastSmudged(sections: seq<seq<char>>, i: nat, n: nat) returns (k: nat)
    requires n <= |sections| && SmudgedCount(sections, i, n) >= 1
    ensures k < n && |Mismatches(sections[k], i)| == 1
    decreases n
  {
    if |Mismatches(sections[n - 1], i)| == 1 {
      k := n - 1;
    } else {
      k := LastSmudged(sections, i, n - 1);
    }
  }

  /** Two sections with a single mismatch each count twice. */
  lemma SmudgedTwo(sections: seq<seq<char>>, i: nat, j: nat, k: nat)
    requires j < k < |sections| || k < j < |sections|
    requires |Mismatches(sections[j], i)| == 1 && |Mismatches(sections[k], i)| == 1
    ensures SmudgedCount(sections, i, |sections|) >= 2
  {
    var a, b := if j < k then j else k, if j < k then k else j;
    SmudgedCountMono(sections, i, 0, a);
    SmudgedCountMono(sections, i, a + 1, b);
    SmudgedCountMono(sections, i, b + 1, |sections|);
  }

  /** A single section with a single mismatch counts once. */
  lemma SmudgedSplit(sections: seq<seq<char>>, i: nat, k: nat)
    requires k < |sections| && |Mismatches(sections[k], i)| == 1
    requires forall j | 0 <= j < |sections| && j != k :: Mismatches(sections[j], i) == {}
    ensures SmudgedCount(sections, i, |sections|) == 1
  {
    SmudgedCountZero(sections, i, k);
    SmudgedAfter(sections, i, k + 1, |sections|);
  }

  lemma {:induction false} SmudgedAfter(sections: seq<seq<char>>, i: nat, a: nat, b: nat)
    requires a <= b <= |sections|
    requires forall j | a <= j < b :: Mismatches(sections[j], i) == {}
    ensures SmudgedCount(sections, i, b) == SmudgedCount(sections, i, a)
    decreases b
  {
    if a < b {
      SmudgedAfter(sections, i, a, b - 1);
    }
  }

  /** A section with two or more mismatches rules the pivot out. */
  lemma NotSmudgedAt(sections: seq<seq<char>>, i: nat, k: nat)
    requires k < |sections| && |Mismatches(sections[k], i)| >= 2
    ensures !Smudged(sections, i)
  {
  }

  /** Two sections with a single mismatch each rule the pivot out. */
  lemma NotSmudgedTwice(sections: seq<seq<char>>, i: nat, n: nat)
    requires n <= |sections| && SmudgedCount(sections, i, n) >= 2
    ensures !Smudged(sections, i)
  {
    SmudgedCountMono(sections, i, n, |sections|);
  }

  /** What the smudged searches promise: the first pivot `1 .. n - 1` that
      is a smudged line of reflection, or nothing when none is. */
  ghost predicate FirstSmudged(sections: seq<seq<char>>, n: nat, r: Option<nat>) {
    (r.Some? ==> 1 <= r.value < n && Smudged(sections, r.value)
                 && forall j | 1 <= j < r.value :: !Smudged(sections, j))
    && (r.None? ==> forall j | 1 <= j < n :: !Smudged(sections, j))
  }

  /** `find_vert_smudged_pivot`: the first pivot over which all rows but
      one are reflected and that one has a single error. */
  method FindVertSmudgedPivot(p: Pattern) returns (r: Option<nat>)
    requires RowsFit(p)
    ensures FirstSmudged(p.inner, p.width, r)
  {
    var pivot := 0;
    label nextPivot:
    while pivot + 1 < p.width
      invariant pivot == 0 || pivot < p.width
      invariant forall j | 1 <= j <= pivot :: !Smudged(p.inner, j)
    {
      pivot := pivot + 1;
      var smudge := false;
      for k := 0 to |p.inner|
        invariant forall j | 0 <= j < k :: |Mismatches(p.inner[j], pivot)| <= 1
        invariant SmudgedCount(p.inner, pivot, k) == if smudge then 1 else 0
      {
        match FindError(p.inner[k], pivot)
        case None =>
          NotSmudgedAt(p.inner, pivot, k);
          continue nextPivot;
        case Some(None) =>
        case Some(Some(_)) =>
          if smudge {
            NotSmudgedTwice(p.inner, pivot, k + 1);
            continue nextPivot;
          }
          smudge := true;
      }
      if smudge {
        return Some(pivot);
      }
    }
    return None;
  }

  /** `find_horiz_smudge`: the same search over the columns. */
  method FindHorizSmudge(p: Pattern) returns (r: Option<nat>)
    requires ColumnsFit(p)
    ensures FirstSmudged(Columns(p), p.height, r)
  {
    ghost var cols := Columns(p);
    var pivot := 0;
    label nextPivot:
    while pivot + 1 < p.height
      invariant pivot == 0 || pivot < p.height
      invariant forall j | 1 <= j <= pivot :: !Smudged(cols, j)
    {
      pivot := pivot + 1;
      var smudge := false;
      for x := 0 to p.width
        invariant forall j | 0 <= j < x :: |Mismatches(cols[j], pivot)| <= 1
        invariant SmudgedCount(cols, pivot, x) == if smudge then 1 else 0
      {
        var col := Column(p, x);
        match FindError(col, pivot)
        case None =>
          NotSmudgedAt(cols, pivot, x);
          continue nextPivot;
        case Some(None) =>
        case Some(Some(_)) =>
          if smudge {
            NotSmudgedTwice(cols, pivot, x + 1);
            continue nextPivot;
          }
          smudge := true;
      }
      if smudge {
        return Some(pivot);
      }
    }
    return None;
  }
}
