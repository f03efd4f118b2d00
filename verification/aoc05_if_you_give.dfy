/** Day 5, "If You Give A Seed A Fertilizer": seeds are carried through a
    chain of stages, each a list of ranges that shift part of the numbers,
    one number at a time and a whole range at a time. */
module Almanac {
  import opened Wrappers
  import opened Text

  // ---------------------------------------------------------------------
  // Ranges

  /** A half-open `Range<usize>`: `start..end`, empty when `end <= start`. */
  datatype Span = Span(start: nat, end: nat)

  predicate Contains(s: Span, x: nat) {
    s.start <= x < s.end
  }

  /** The number of values in the range. */
  function Len(s: Span): nat {
    if s.start < s.end then s.end - s.start else 0
  }

  /** `RangeOverlap::overlaps`. */
  predicate Overlaps(a: Span, b: Span) {
    a.start < b.end && b.start < a.end
  }

  /** Overlapping is symmetric; two ranges that share a value overlap, and
      two non-empty ranges that overlap share a value. (An empty range
      strictly inside another still overlaps it.) */
  lemma OverlapsMeaning(a: Span, b: Span)
    ensures Overlaps(a, b) == Overlaps(b, a)
    ensures (exists x :: Contains(a, x) && Contains(b, x)) ==> Overlaps(a, b)
    ensures Overlaps(a, b) && a.start < a.end && b.start < b.end ==>
              var x := if a.start < b.start then b.start else a.start;
              Contains(a, x) && Contains(b, x)
    ensures Overlaps(Span(5, 5), Span(0, 10))
  {
  }

  /** The cases of the `range_overlaps` test: ranges that only touch do
      not overlap. */
  lemma OverlapsExamples()
    ensures Overlaps(Span(0, 10), Span(9, 20)) && Overlaps(Span(9, 20), Span(0, 10))
    ensures Overlaps(Span(0, 10), Span(3, 4)) && Overlaps(Span(0, 1), Span(0, 10))
    ensures !Overlaps(Span(0, 10), Span(10, 20)) && !Overlaps(Span(10, 20), Span(0, 10))
  {
  }

  /** How many of the ranges hold `x`: the ranges partition a set of values
      exactly when every value is counted once. */
  function CountIn(spans: seq<Span>, x: nat): nat {
    if spans == [] then 0
    else (if Contains(spans[0], x) then 1 else 0) + CountIn(spans[1..], x)
  }

  lemma {:induction false} CountInAppend(a: seq<Span>, b: seq<Span>, x: nat)
    ensures CountIn(a + b, x) == CountIn(a, x) + CountIn(b, x)
    decreases |a|
  {
    if a == [] {
      assert a + b == b;
    } else {
      assert (a + b)[1..] == a[1..] + b;
      CountInAppend(a[1..], b, x);
    }
  }

  /** A value is counted exactly when some range holds it. */
  lemma {:induction false} CountInSome(spans: seq<Span>, x: nat)
    ensures CountIn(spans, x) > 0 <==> exists k :: 0 <= k < |spans| && Contains(spans[k], x)
    decreases |spans|
  {
    if spans != [] {
      CountInSome(spans[1..], x);
      if exists k :: 0 <= k < |spans| && Contains(spans[k], x) {
        var k :| 0 <= k < |spans| && Contains(spans[k], x);
        if k > 0 {
          assert Contains(spans[1..][k - 1], x);
        }
      }
      if exists k :: 0 <= k < |spans| - 1 && Contains(spans[1..][k], x) {
        var k :| 0 <= k < |spans| - 1 && Contains(spans[1..][k], x);
        assert Contains(spans[k + 1], x);
      }
    }
  }

  // ---------------------------------------------------------------------
  // One range of a stage

  /** A `TransformationRange`: the values of `from` move to start at
      `toStart`. */
  datatype MapRange = MapRange(from: Span, toStart: nat)

  /** The ranges the parser builds are `from..from + len`, in order. */
  predicate InOrder(r: MapRange) {
    r.from.start <= r.from.end
  }

  /** `TransformationRange::transform_single`: a value of `from` keeps its
      offset, now from `toStart`; any other value is not this range's. */
  function TransformSingle(r: MapRange, x: nat): (y: Option<nat>)
    ensures y.Some? <==> Contains(r.from, x)
    ensures y.Some? ==> y.value + r.from.start == r.toStart + x
  {
    if Contains(r.from, x) then Some(r.toStart + (x - r.from.start)) else None
  }

  /** The cases of the `test_transformation_range` test. */
  lemma TransformSingleExamples()
    ensures var r := MapRange(Span(15, 25), 35);
            TransformSingle(r, 15) == Some(35) && TransformSingle(r, 25) == None
            && TransformSingle(r, 24) == Some(44) && TransformSingle(r, 0) == None
            && TransformSingle(r, 30) == None
  {
  }

  /** What `transform_range` gives: the part of the input that the range
      moves, with where it goes, and the parts it leaves. */
  datatype RangeTransformation = RangeTransformation(transformed: Option<(Span, Span)>, excluded: seq<Span>)

  function Pieces(t: RangeTransformation): seq<Span> {
    (if t.transformed.Some? then [t.transformed.value.0] else []) + t.excluded
  }

  /** `TransformationRange::transform_range`. When the input overlaps
      `from`, the part below `from` and the part above it are excluded and
      the intersection is moved; otherwise the whole input is excluded. */
  method TransformRange(r: MapRange, input: Span) returns (t: RangeTransformation)
    requires InOrder(r)
    ensures t.transformed.Some? <==> Overlaps(input, r.from)
    ensures forall x :: CountIn(Pieces(t), x) == (if Contains(input, x) then 1 else 0)
    ensures t.transformed.Some? ==>
              var (i, o) := t.transformed.value;
              (forall x :: Contains(i, x) ==> Contains(r.from, x))
              && Len(o) == Len(i) && o.start + r.from.start == r.toStart + i.start
    ensures forall k, x :: 0 <= k < |t.excluded| && Contains(t.excluded[k], x) ==> !Contains(r.from, x)
  {
    var excluded: seq<Span> := [];
    var transformed: Option<(Span, Span)> := None;
    if Overlaps(input, r.from) {
      if input.start < r.from.start {
        excluded := excluded + [Span(input.start, r.from.start)];
      }
      if input.end > r.from.end {
        excluded := excluded + [Span(r.from.end, input.end)];
      }
      var inputStart := if input.start < r.from.start then r.from.start else input.start;
      var inputEnd := if input.end < r.from.end then input.end else r.from.end;
      var outputStart := r.toStart + (inputStart - r.from.start);
      var outputEnd := r.toStart + (inputEnd - r.from.start);
      transformed := Some((Span(inputStart, inputEnd), Span(outputStart, outputEnd)));
      t := RangeTransformation(transformed, excluded);
      forall x
        ensures CountIn(Pieces(t), x) == (if Contains(input, x) then 1 else 0)
      {
        CountInAppend([Span(inputStart, inputEnd)], excluded, x);
        if input.start < r.from.start && input.end > r.from.end {
          CountInAppend([Span(input.start, r.from.start)], [Span(r.from.end, input.end)], x);
        }
      }
    } else {
      excluded := excluded + [input];
      t := RangeTransformation(transformed, excluded);
      assert Pieces(t) == [input];
    }
  }

  // ---------------------------------------------------------------------
  // One stage

  /** A `Transformation`: a named stage and its ranges. */
  datatype Transformation = Transformation(source: string, target: string, ranges: seq<MapRange>)

  /** The value that the first range holding `x` gives, if any. */
  function FirstMatch(ranges: seq<MapRange>, x: nat): Option<nat> {
    if ranges == [] then None
    else match TransformSingle(ranges[0], x)
      case Some(y) => Some(y)
      case None => FirstMatch(ranges[1..], x)
  }

  /** `Transformation::transform_single`: the first range holding the value
      moves it; a value no range holds stays as it is. */
  function Apply(ranges: seq<MapRange>, x: nat): nat {
    match FirstMatch(ranges, x)
    case Some(y) => y
    case None => x
  }

  /** `FirstMatch` is the first range that holds the value, and nothing
      when none does. */
  lemma {:induction false} FirstMatchSpec(ranges: seq<MapRange>, x: nat)
    ensures FirstMatch(ranges, x).None? <==> forall k :: 0 <= k < |ranges| ==> !Contains(ranges[k].from, x)
    ensures FirstMatch(ranges, x).Some? ==>
              exists k :: 0 <= k < |ranges| && Contains(ranges[k].from, x)
                && (forall j :: 0 <= j < k ==> !Contains(ranges[j].from, x))
                && FirstMatch(ranges, x) == TransformSingle(ranges[k], x)
    decreases |ranges|
  {
    if ranges != [] && !Contains(ranges[0].from, x) {
      FirstMatchSpec(ranges[1..], x);
      assert forall k :: 1 <= k < |ranges| ==> ranges[k] == ranges[1..][k - 1];
      if FirstMatch(ranges, x).Some? {
        var k :| 0 <= k < |ranges| - 1 && Contains(ranges[1..][k].from, x)
                 && (forall j :: 0 <= j < k ==> !Contains(ranges[1..][j].from, x))
                 && FirstMatch(ranges[1..], x) == TransformSingle(ranges[1..][k], x);
        assert Contains(ranges[k + 1].from, x);
      }
    }
  }

  /** A range added at the end is consulted only for values no earlier
      range holds. */
  lemma {:induction false} FirstMatchSnoc(ranges: seq<MapRange>, r: MapRange, x: nat)
    ensures FirstMatch(ranges + [r], x)
            == if FirstMatch(ranges, x).Some? then FirstMatch(ranges, x) else TransformSingle(r, x)
    decreases |ranges|
  {
    if ranges == [] {
      assert ranges + [r] == [r];
    } else {
      assert (ranges + [r])[1..] == ranges[1..] + [r];
      FirstMatchSnoc(ranges[1..], r, x);
    }
  }

  /** A piece of input and, once a range has moved it, where it went. */
  datatype Entry = Entry(input: Span, output: Option<Span>)

  /** What an entry says after the ranges so far: an unmoved piece holds
      no value of those ranges, and a moved piece went, value for value,
      where the first range holding each value sends it. */
  ghost predicate Tracked(e: Entry, ranges: seq<MapRange>) {
    match e.output
    case None => forall x :: Contains(e.input, x) ==> FirstMatch(ranges, x).None?
    case Some(o) =>
      Len(o) == Len(e.input)
      && forall x :: Contains(e.input, x) ==>
           FirstMatch(ranges, x).Some? && FirstMatch(ranges, x).value + e.input.start == o.start + x
  }

  function CountEntries(entries: seq<Entry>, x: nat): nat {
    if entries == [] then 0
    else (if Contains(entries[0].input, x) then 1 else 0) + CountEntries(entries[1..], x)
  }

  lemma {:induction false} CountEntriesAppend(a: seq<Entry>, b: seq<Entry>, x: nat)
    ensures CountEntries(a + b, x) == CountEntries(a, x) + CountEntries(b, x)
    decreases |a|
  {
    if a == [] {
      assert a + b == b;
    } else {
      assert (a + b)[1..] == a[1..] + b;
      CountEntriesAppend(a[1..], b, x);
    }
  }

  /** The pieces no range has moved yet. */
  function Unmoved(spans: seq<Span>): (entries: seq<Entry>)
    ensures |entries| == |spans|
  {
    if spans == [] then [] else [Entry(spans[0], None)] + Unmoved(spans[1..])
  }

  lemma {:induction false} UnmovedSpec(spans: seq<Span>)
    ensures forall x :: CountEntries(Unmoved(spans), x) == CountIn(spans, x)
    ensures forall k :: 0 <= k < |spans| ==> Unmoved(spans)[k] == Entry(spans[k], None)
    decreases |spans|
  {
    if spans != [] {
      UnmovedSpec(spans[1..]);
      assert Unmoved(spans)[1..] == Unmoved(spans[1..]);
      assert forall k :: 1 <= k < |spans| ==> spans[k] == spans[1..][k - 1];
    }
  }

  /** An entry the ranges so far have already moved stays as it is. */
  lemma KeepMoved(e: Entry, ranges: seq<MapRange>, r: MapRange)
    requires e.output.Some? && Tracked(e, ranges)
    ensures Tracked(e, ranges + [r])
  {
    forall x | Contains(e.input, x)
      ensures FirstMatch(ranges + [r], x) == FirstMatch(ranges, x)
    {
      FirstMatchSnoc(ranges, r, x);
    }
  }

  /** The entries `transform_ranges` pushes for one `transform_range`: the
      moved part, if any, then the excluded parts, not yet moved. */
  function NewEntries(t: RangeTransformation): seq<Entry> {
    var moved := if t.transformed.Some? then [Entry(t.transformed.value.0, Some(t.transformed.value.1))] else [];
    moved + Unmoved(t.excluded)
  }

  /** The entries one unmoved piece turns into when range `r` is applied:
      together they hold the piece's values once each, and each says
      truly what the ranges so far, `r` included, do with its values. */
  lemma StepPieces(e: Entry, ranges: seq<MapRange>, r: MapRange, t: RangeTransformation)
    requires e.output.None? && Tracked(e, ranges) && InOrder(r)
    requires forall x :: CountIn(Pieces(t), x) == (if Contains(e.input, x) then 1 else 0)
    requires t.transformed.Some? ==>
               var (i, o) := t.transformed.value;
               (forall x :: Contains(i, x) ==> Contains(r.from, x))
               && Len(o) == Len(i) && o.start + r.from.start == r.toStart + i.start
    requires forall k, x :: 0 <= k < |t.excluded| && Contains(t.excluded[k], x) ==> !Contains(r.from, x)
    ensures var pieces := NewEntries(t);
            (forall x :: CountEntries(pieces, x) == (if Contains(e.input, x) then 1 else 0))
            && forall k :: 0 <= k < |pieces| ==> Tracked(pieces[k], ranges + [r])
  {
    var moved := if t.transformed.Some? then [Entry(t.transformed.value.0, Some(t.transformed.value.1))] else [];
    var pieces := moved + Unmoved(t.excluded);
    UnmovedSpec(t.excluded);
    forall x
      ensures CountEntries(pieces, x) == (if Contains(e.input, x) then 1 else 0)
    {
      CountEntriesAppend(moved, Unmoved(t.excluded), x);
      var front := if t.transformed.Some? then [t.transformed.value.0] else [];
      CountInAppend(front, t.excluded, x);
    }
    forall k | 0 <= k < |pieces|
      ensures Tracked(pieces[k], ranges + [r])
    {
      if k < |moved| {
        var (i, o) := t.transformed.value;
        assert pieces[k] == Entry(i, Some(o));
        forall x | Contains(i, x)
          ensures FirstMatch(ranges + [r], x).Some? && FirstMatch(ranges + [r], x).value + i.start == o.start + x
        {
          InPiece(t, e.input, x);
          FirstMatchSnoc(ranges, r, x);
        }
      } else {
        var s := t.excluded[k - |moved|];
        assert pieces[k] == Entry(s, None);
        forall x | Contains(s, x)
          ensures FirstMatch(ranges + [r], x).None?
        {
          ExcludedInInput(t, e.input, k - |moved|, x);
          FirstMatchSnoc(ranges, r, x);
        }
      }
    }
  }

  /** A value of the moved piece is a value of the input. */
  lemma InPiece(t: RangeTransformation, input: Span, x: nat)
    requires t.transformed.Some? && Contains(t.transformed.value.0, x)
    requires forall y :: CountIn(Pieces(t), y) == (if Contains(input, y) then 1 else 0)
    ensures Contains(input, x)
  {
    assert CountIn(Pieces(t), x) > 0 by {
      CountInAppend([t.transformed.value.0], t.excluded, x);
    }
  }

  /** A value of an excluded piece is a value of the input. */
  lemma ExcludedInInput(t: RangeTransformation, input: Span, k: nat, x: nat)
    requires k < |t.excluded| && Contains(t.excluded[k], x)
    requires forall y :: CountIn(Pieces(t), y) == (if Contains(input, y) then 1 else 0)
    ensures Contains(input, x)
  {
    var front := if t.transformed.Some? then [t.transformed.value.0] else [];
    CountInAppend(front, t.excluded, x);
    CountInSome(t.excluded, x);
  }

  /** The entries and the pieces of input they came from after one more
      entry has been handled: the counts still agree and every entry is
      still truthful. */
  lemma AppendStep(entries: seq<Entry>, taken: seq<Entry>, j: nat, pieces: seq<Entry>, ranges: seq<MapRange>)
    requires j < |taken|
    requires forall x :: CountEntries(entries, x) == CountEntries(taken[..j], x)
    requires forall x :: CountEntries(pieces, x) == (if Contains(taken[j].input, x) then 1 else 0)
    requires forall i :: 0 <= i < |entries| ==> Tracked(entries[i], ranges)
    requires forall i :: 0 <= i < |pieces| ==> Tracked(pieces[i], ranges)
    ensures forall x :: CountEntries(entries + pieces, x) == CountEntries(taken[..j + 1], x)
    ensures forall i :: 0 <= i < |entries + pieces| ==> Tracked((entries + pieces)[i], ranges)
  {
    assert taken[..j + 1] == taken[..j] + [taken[j]];
    forall x
      ensures CountEntries(entries + pieces, x) == CountEntries(taken[..j + 1], x)
    {
      CountEntriesAppend(entries, pieces, x);
      CountEntriesAppend(taken[..j], [taken[j]], x);
    }
    forall i | 0 <= i < |entries + pieces|
      ensures Tracked((entries + pieces)[i], ranges)
    {
      if i < |entries| {
        assert (entries + pieces)[i] == entries[i];
      } else {
        assert (entries + pieces)[i] == pieces[i - |entries|];
      }
    }
  }

  /** A piece of input and where the stage sends it: as long as it, and
      each of its values goes where the stage sends that value. */
  ghost predicate Faithful(p: (Span, Span), ranges: seq<MapRange>) {
    Len(p.1) == Len(p.0)
    && forall x :: Contains(p.0, x) ==> Apply(ranges, x) + p.0.start == p.1.start + x
  }

  /** The final pairing of `transform_ranges`: a piece no range moved goes
      to itself. */
  function Finish(entries: seq<Entry>): (pairs: seq<(Span, Span)>)
    ensures |pairs| == |entries|
  {
    if entries == [] then []
    else
      var e := entries[0];
      [(e.input, if e.output.Some? then e.output.value else e.input)] + Finish(entries[1..])
  }

  function Inputs(pairs: seq<(Span, Span)>): (spans: seq<Span>)
    ensures |spans| == |pairs|
  {
    if pairs == [] then [] else [pairs[0].0] + Inputs(pairs[1..])
  }

  /** The outputs, in order, as `run_ranges` pushes them. */
  function Outputs(pairs: seq<(Span, Span)>): (spans: seq<Span>)
    ensures |spans| == |pairs|
  {
    if pairs == [] then [] else Outputs(pairs[..|pairs| - 1]) + [pairs[|pairs| - 1].1]
  }

  lemma {:induction false} FinishSpec(entries: seq<Entry>, ranges: seq<MapRange>)
    requires forall j :: 0 <= j < |entries| ==> Tracked(entries[j], ranges)
    ensures forall x :: CountIn(Inputs(Finish(entries)), x) == CountEntries(entries, x)
    ensures forall j :: 0 <= j < |entries| ==> Faithful(Finish(entries)[j], ranges)
    decreases |entries|
  {
    if entries != [] {
      var tail := entries[1..];
      assert forall j :: 0 <= j < |tail| ==> tail[j] == entries[j + 1];
      FinishSpec(tail, ranges);
      var pairs := Finish(entries);
      assert pairs[1..] == Finish(tail);
      assert Inputs(pairs)[1..] == Inputs(Finish(tail));
      forall j | 0 <= j < |entries|
        ensures Faithful(pairs[j], ranges)
      {
        if j > 0 {
          assert pairs[j] == Finish(tail)[j - 1];
        } else {
          var e := entries[0];
          assert Tracked(e, ranges);
          forall x | Contains(e.input, x)
            ensures Apply(ranges, x) + e.input.start == pairs[0].1.start + x
          {
          }
        }
      }
    }
  }

  /** The input pieces of the pairs hold the values of the ranges, each as
      many times as the ranges do. */
  ghost predicate Covers(pairs: seq<(Span, Span)>, input: seq<Span>) {
    forall x :: CountIn(Inputs(pairs), x) == CountIn(input, x)
  }

  ghost predicate AllFaithful(pairs: seq<(Span, Span)>, ranges: seq<MapRange>) {
    forall j :: 0 <= j < |pairs| ==> Faithful(pairs[j], ranges)
  }

  /** `Transformation::transform_ranges`: every input range is cut into
      pieces by the stage's ranges in order; a piece that one range has
      moved is not moved again, and what no range moves maps to itself.
      The pieces cover the input exactly, and each goes where the stage
      sends its values one by one. */
  method TransformRanges(ranges: seq<MapRange>, input: seq<Span>) returns (result: seq<(Span, Span)>)
    requires forall k :: 0 <= k < |ranges| ==> InOrder(ranges[k])
    ensures Covers(result, input) && AllFaithful(result, ranges)
  {
    var entries := Unmoved(input);
    UnmovedSpec(input);
    var k := 0;
    while k < |ranges|
      invariant 0 <= k <= |ranges|
      invariant forall x :: CountEntries(entries, x) == CountIn(input, x)
      invariant forall j :: 0 <= j < |entries| ==> Tracked(entries[j], ranges[..k])
    {
      var r := ranges[k];
      var taken := entries;
      entries := [];
      var j := 0;
      while j < |taken|
        invariant 0 <= j <= |taken|
        invariant forall x :: CountEntries(entries, x) == CountEntries(taken[..j], x)
        invariant forall i :: 0 <= i < |entries| ==> Tracked(entries[i], ranges[..k] + [r])
      {
        var e := taken[j];
        var pieces: seq<Entry>;
        if e.output.Some? {
          KeepMoved(e, ranges[..k], r);
          pieces := [e];
          assert forall i :: 0 <= i < |pieces| ==> pieces[i] == e;
        } else {
          var t := TransformRange(r, e.input);
          StepPieces(e, ranges[..k], r, t);
          pieces := NewEntries(t);
        }
        AppendStep(entries, taken, j, pieces, ranges[..k] + [r]);
        entries := entries + pieces;
        j := j + 1;
      }
      assert taken[..j] == taken;
      assert ranges[..k + 1] == ranges[..k] + [r];
      k := k + 1;
    }
    assert ranges[..k] == ranges;
    FinishSpec(entries, ranges);
    result := Finish(entries);
  }

  // ---------------------------------------------------------------------
  // The whole almanac

  /** Where a value ends up after the stages, in order. */
  function Locate(stages: seq<Transformation>, x: nat): nat {
    if stages == [] then x
    else Apply(stages[|stages| - 1].ranges, Locate(stages[..|stages| - 1], x))
  }

  /** `run_seeds`: every seed taken through every stage, keyed by seed. */
  method RunSeeds(seeds: seq<nat>, stages: seq<Transformation>) returns (seedToEnd: map<nat, nat>)
    ensures forall s :: s in seedToEnd <==> s in seeds
    ensures forall s :: s in seedToEnd ==> seedToEnd[s] == Locate(stages, s)
  {
    seedToEnd := map[];
    var n := 0;
    while n < |seeds|
      invariant 0 <= n <= |seeds|
      invariant forall s :: s in seedToEnd <==> s in seeds[..n]
      invariant forall s :: s in seedToEnd ==> seedToEnd[s] == Locate(stages, s)
    {
      var seed := seeds[n];
      var stageIndex := seed;
      var i := 0;
      while i < |stages|
        invariant 0 <= i <= |stages|
        invariant stageIndex == Locate(stages[..i], seed)
      {
        assert stages[..i + 1][..i] == stages[..i];
        stageIndex := Apply(stages[i].ranges, stageIndex);
        i := i + 1;
      }
      assert stages[..i] == stages;
      seedToEnd := seedToEnd[seed := stageIndex];
      assert seeds[..n + 1] == seeds[..n] + [seed];
      n := n + 1;
    }
    assert seeds[..n] == seeds;
  }

  lemma {:induction false} InputsAt(pairs: seq<(Span, Span)>)
    ensures forall j :: 0 <= j < |pairs| ==> Inputs(pairs)[j] == pairs[j].0
    decreases |pairs|
  {
    if pairs != [] {
      InputsAt(pairs[1..]);
      assert Inputs(pairs) == [pairs[0].0] + Inputs(pairs[1..]);
      forall j | 1 <= j < |pairs|
        ensures Inputs(pairs)[j] == pairs[j].0
      {
        assert Inputs(pairs)[j] == Inputs(pairs[1..])[j - 1];
        assert pairs[1..][j - 1] == pairs[j];
      }
    }
  }

  lemma {:induction false} OutputsAt(pairs: seq<(Span, Span)>)
    ensures forall j :: 0 <= j < |pairs| ==> Outputs(pairs)[j] == pairs[j].1
    decreases |pairs|
  {
    if pairs != [] {
      OutputsAt(pairs[..|pairs| - 1]);
    }
  }

  /** The ranges `after` hold exactly the images of the values of the
      ranges `before` under `ranges`. */
  ghost predicate StageMaps(before: seq<Span>, after: seq<Span>, ranges: seq<MapRange>) {
    (forall x :: CountIn(before, x) > 0 ==> CountIn(after, Apply(ranges, x)) > 0)
    && forall y :: CountIn(after, y) > 0 ==> exists x :: CountIn(before, x) > 0 && Apply(ranges, x) == y
  }

  /** The ranges hold exactly the values the seeds reach after the stages. */
  ghost predicate Reached(seedRanges: seq<Span>, stages: seq<Transformation>, ranges: seq<Span>) {
    (forall x :: CountIn(seedRanges, x) > 0 ==> CountIn(ranges, Locate(stages, x)) > 0)
    && forall y :: CountIn(ranges, y) > 0 ==> exists x :: CountIn(seedRanges, x) > 0 && Locate(stages, x) == y
  }

  /** The outputs of a stage hold the image of the stage's input: every
      value of the input is sent into some output, and every value of an
      output is where some value of the input is sent. */
  lemma StageImage(input: seq<Span>, pairs: seq<(Span, Span)>, ranges: seq<MapRange>)
    requires Covers(pairs, input) && AllFaithful(pairs, ranges)
    ensures StageMaps(input, Outputs(pairs), ranges)
  {
    InputsAt(pairs);
    OutputsAt(pairs);
    forall x | CountIn(input, x) > 0
      ensures CountIn(Outputs(pairs), Apply(ranges, x)) > 0
    {
      CountInSome(Inputs(pairs), x);
      var j :| 0 <= j < |pairs| && Contains(Inputs(pairs)[j], x);
      assert Faithful(pairs[j], ranges);
      assert Contains(Outputs(pairs)[j], Apply(ranges, x));
      CountInSome(Outputs(pairs), Apply(ranges, x));
    }
    forall y: nat | CountIn(Outputs(pairs), y) > 0
      ensures exists x :: CountIn(input, x) > 0 && Apply(ranges, x) == y
    {
      CountInSome(Outputs(pairs), y);
      var j :| 0 <= j < |pairs| && Contains(Outputs(pairs)[j], y);
      var (i, o) := pairs[j];
      assert Outputs(pairs)[j] == o;
      var x := i.start + (y - o.start);
      assert Faithful(pairs[j], ranges);
      assert Contains(Inputs(pairs)[j], x);
      CountInSome(Inputs(pairs), x);
    }
  }

  /** `run_ranges`: the seed ranges taken through every stage, keeping
      only where each piece goes. The resulting ranges hold exactly the
      locations of the seeds: every seed's location is in one of them, and
      every value in one of them is the location of some seed. */
  method RunRanges(seedRanges: seq<Span>, stages: seq<Transformation>) returns (ranges: seq<Span>)
    requires forall k, j :: 0 <= k < |stages| && 0 <= j < |stages[k].ranges| ==> InOrder(stages[k].ranges[j])
    ensures Reached(seedRanges, stages, ranges)
  {
    ranges := seedRanges;
    var k := 0;
    while k < |stages|
      invariant 0 <= k <= |stages|
      invariant Reached(seedRanges, stages[..k], ranges)
    {
      var rangeMaps := ranges;
      ranges := RunStage(stages[k], rangeMaps);
      RangesStep(seedRanges, stages, k, rangeMaps, ranges);
      k := k + 1;
    }
    assert stages[..k] == stages;
  }

  /** One stage of `run_ranges`: the outputs of `transform_ranges`,
      pushed in order. */
  method RunStage(stage: Transformation, rangeMaps: seq<Span>) returns (ranges: seq<Span>)
    requires forall j :: 0 <= j < |stage.ranges| ==> InOrder(stage.ranges[j])
    ensures StageMaps(rangeMaps, ranges, stage.ranges)
  {
    ranges := [];
    var pairs := TransformRanges(stage.ranges, rangeMaps);
    var j := 0;
    while j < |pairs|
      invariant 0 <= j <= |pairs|
      invariant ranges == Outputs(pairs[..j])
    {
      assert pairs[..j + 1][..j] == pairs[..j];
      ranges := ranges + [pairs[j].1];
      j := j + 1;
    }
    assert pairs[..j] == pairs;
    StageImage(rangeMaps, pairs, stage.ranges);
  }

  /** One more stage: the outputs of the stage hold exactly the locations
      of the seeds after that stage too. */
  lemma RangesStep(seedRanges: seq<Span>, stages: seq<Transformation>, k: nat, before: seq<Span>, after: seq<Span>)
    requires k < |stages|
    requires Reached(seedRanges, stages[..k], before)
    requires StageMaps(before, after, stages[k].ranges)
    ensures Reached(seedRanges, stages[..k + 1], after)
  {
    assert stages[..k + 1][..k] == stages[..k];
    forall x | CountIn(seedRanges, x) > 0
      ensures CountIn(after, Locate(stages[..k + 1], x)) > 0
    {
      assert Locate(stages[..k + 1], x) == Apply(stages[k].ranges, Locate(stages[..k], x));
    }
    forall y: nat | CountIn(after, y) > 0
      ensures exists x :: CountIn(seedRanges, x) > 0 && Locate(stages[..k + 1], x) == y
    {
      var z :| CountIn(before, z) > 0 && Apply(stages[k].ranges, z) == y;
      var x :| CountIn(seedRanges, x) > 0 && Locate(stages[..k], x) == z;
      assert Locate(stages[..k + 1], x) == y;
    }
  }

  // ---------------------------------------------------------------------
  // Reading the almanac

  /** The seed ranges of consecutive (start, length) tokens; a last token
      without a partner is ignored. */
  function SeedPairs(tokens: seq<string>): Result<seq<Span>> {
    if |tokens| < 2 then Ok([])
    else match ParseNat(tokens[0])
      case None => Err("invalid seed range start")
      case Some(start) =>
        match ParseNat(tokens[1])
        case None => Err("invalid seed range length")
        case Some(length) =>
          match SeedPairs(tokens[2..])
          case Err(e) => Err(e)
          case Ok(rest) => Ok([Span(start, start + length)] + rest)
  }

  /** What `parse_seed_ranges` gives for a line. */
  function SeedRangesOf(line: string): Result<seq<Span>> {
    if !StartsWith(line, "seeds: ") then Err("Unexpected start to seeds line")
    else SeedPairs(Split(TrimStartMatches(line, "seeds: "), " "))
  }

  /** The ranges read so far in front of what the remaining tokens give. */
  function Prepend(done: seq<Span>, r: Result<seq<Span>>): Result<seq<Span>> {
    if r.Err? then r else Ok(done + r.value)
  }

  /** `parse_seed_ranges`: the line must start with "seeds: "; then the
      tokens are taken two at a time as the start and the length of a
      range, and a token that is not a number is an error. */
  method ParseSeedRanges(line: string) returns (r: Result<seq<Span>>)
    ensures r == SeedRangesOf(line)
    ensures !StartsWith(line, "seeds: ") ==> r.Err?
  {
    if !StartsWith(line, "seeds: ") {
      return Err("Unexpected start to seeds line");
    }
    var tokens := Split(TrimStartMatches(line, "seeds: "), " ");
    var ranges: seq<Span> := [];
    var i := 0;
    assert tokens[0..] == tokens;
    assert SeedPairs(tokens) == Prepend(ranges, SeedPairs(tokens[0..])) by {
      if SeedPairs(tokens).Ok? {
        assert [] + SeedPairs(tokens).value == SeedPairs(tokens).value;
      }
    }
    while i + 1 < |tokens|
      invariant 0 <= i <= |tokens|
      invariant SeedPairs(tokens) == Prepend(ranges, SeedPairs(tokens[i..]))
      decreases |tokens| - i
    {
      var rest := tokens[i..];
      assert rest[0] == tokens[i] && rest[1] == tokens[i + 1] && rest[2..] == tokens[i + 2..];
      var start := ParseNat(tokens[i]);
      if start.None? {
        return Err("invalid seed range start");
      }
      var length := ParseNat(tokens[i + 1]);
      if length.None? {
        return Err("invalid seed range length");
      }
      var span := Span(start.value, start.value + length.value);
      PrependStep(ranges, span, SeedPairs(tokens[i + 2..]));
      ranges := ranges + [span];
      i := i + 2;
    }
    assert SeedPairs(tokens[i..]) == Ok([]);
    assert ranges + [] == ranges;
    return Ok(ranges);
  }

  lemma PrependStep(done: seq<Span>, span: Span, r: Result<seq<Span>>)
    ensures Prepend(done, if r.Err? then r else Ok([span] + r.value)) == Prepend(done + [span], r)
  {
    if r.Ok? {
      assert done + ([span] + r.value) == (done + [span]) + r.value;
    }
  }

  /** A last token without a partner is never read. */
  lemma {:induction false} SeedPairsOdd(tokens: seq<string>, last: string)
    requires |tokens| % 2 == 0
    ensures SeedPairs(tokens + [last]) == SeedPairs(tokens)
    decreases |tokens|
  {
    if |tokens| >= 2 {
      var longer := tokens + [last];
      assert longer[0] == tokens[0] && longer[1] == tokens[1];
      assert longer[2..] == tokens[2..] + [last];
      SeedPairsOdd(tokens[2..], last);
    }
  }

  /** The tokens of (start, length) pairs, written in decimal. */
  function PairTokens(pairs: seq<(nat, nat)>): (ts: seq<string>)
    ensures |ts| == 2 * |pairs|
  {
    if pairs == [] then [] else [NatToString(pairs[0].0), NatToString(pairs[0].1)] + PairTokens(pairs[1..])
  }

  function PairSpans(pairs: seq<(nat, nat)>): seq<Span> {
    if pairs == [] then [] else [Span(pairs[0].0, pairs[0].0 + pairs[0].1)] + PairSpans(pairs[1..])
  }

  lemma {:induction false} SeedPairsTokens(pairs: seq<(nat, nat)>)
    ensures SeedPairs(PairTokens(pairs)) == Ok(PairSpans(pairs))
    decreases |pairs|
  {
    if pairs != [] {
      var ts := PairTokens(pairs);
      ParseNatRoundTrip(pairs[0].0);
      ParseNatRoundTrip(pairs[0].1);
      assert ts[2..] == PairTokens(pairs[1..]);
      SeedPairsTokens(pairs[1..]);
    }
  }

  lemma {:induction false} PairTokensLackSpace(pairs: seq<(nat, nat)>)
    ensures forall k :: 0 <= k < |PairTokens(pairs)| ==> Lacks(PairTokens(pairs)[k], ' ')
    decreases |pairs|
  {
    if pairs != [] {
      PairTokensLackSpace(pairs[1..]);
      DigitsLack(NatToString(pairs[0].0), ' ');
      DigitsLack(NatToString(pairs[0].1), ' ');
      var ts := PairTokens(pairs);
      assert forall k :: 2 <= k < |ts| ==> ts[k] == PairTokens(pairs[1..])[k - 2];
    }
  }

  /** Stripping "seeds: " from a line that continues with a digit leaves
      the rest. */
  lemma TrimSeedsHeader(rest: string)
    requires |rest| > 0 && IsDigit(rest[0])
    ensures TrimStartMatches("seeds: " + rest, "seeds: ") == rest
  {
    var line := "seeds: " + rest;
    assert StartsWith(line, "seeds: ");
    assert line[7..] == rest;
    assert !StartsWith(rest, "seeds: ") by {
      assert rest[0] != 's';
      if |rest| >= 7 {
        assert rest[..7][0] == rest[0];
      }
    }
  }

  /** Reading a written seeds line gives back its ranges. */
  lemma SeedRangesText(pairs: seq<(nat, nat)>)
    requires |pairs| > 0
    ensures SeedRangesOf("seeds: " + Join(PairTokens(pairs), " ")) == Ok(PairSpans(pairs))
  {
    var ts := PairTokens(pairs);
    var body := Join(ts, " ");
    PairTokensLackSpace(pairs);
    JoinSplit(ts, " ");
    assert ts[0] == NatToString(pairs[0].0);
    assert |ts[0]| > 0 && IsDigit(ts[0][0]);
    assert body[..|ts[0]|] == ts[0] by {
      if |ts| > 1 {
        assert body == ts[0] + " " + Join(ts[1..], " ");
      }
    }
    TrimSeedsHeader(body);
    assert StartsWith("seeds: " + body, "seeds: ");
    SeedPairsTokens(pairs);
  }

  /** Every token read as a number, or an error. */
  function ParsedNats(tokens: seq<string>): (r: Result<seq<nat>>)
    ensures r.Ok? ==> |r.value| == |tokens|
  {
    if tokens == [] then Ok([])
    else match ParseNat(tokens[0])
      case None => Err("invalid number")
      case Some(n) =>
        match ParsedNats(tokens[1..])
        case Err(e) => Err(e)
        case Ok(rest) => Ok([n] + rest)
  }

  /** `parse_range`: "to from len" is the range `from..from + len` moving
      to `to`; a line of other than three numbers is an error. */
  function ParseRange(line: string): (r: Result<MapRange>)
    ensures r.Ok? ==> InOrder(r.value)
  {
    match ParsedNats(Split(line, " "))
    case Err(e) => Err(e)
    case Ok(numbers) =>
      if |numbers| != 3 then Err("Unable to parse number triple")
      else Ok(MapRange(Span(numbers[1], numbers[1] + numbers[2]), numbers[0]))
  }

  lemma {:induction false} ParsedNatsTexts(ns: seq<nat>)
    ensures ParsedNats(NatTexts(ns)) == Ok(ns)
    decreases |ns|
  {
    if ns != [] {
      ParseNatRoundTrip(ns[0]);
      ParsedNatsTexts(ns[1..]);
      assert NatTexts(ns)[1..] == NatTexts(ns[1..]);
      assert ns == [ns[0]] + ns[1..];
    }
  }

  function NatTexts(ns: seq<nat>): (ts: seq<string>)
    ensures |ts| == |ns|
  {
    if ns == [] then [] else [NatToString(ns[0])] + NatTexts(ns[1..])
  }

  lemma {:induction false} NatTextsLackSpace(ns: seq<nat>)
    ensures forall k :: 0 <= k < |ns| ==> Lacks(NatTexts(ns)[k], ' ')
    decreases |ns|
  {
    if ns != [] {
      NatTextsLackSpace(ns[1..]);
      DigitsLack(NatToString(ns[0]), ' ');
      assert forall k :: 1 <= k < |ns| ==> NatTexts(ns)[k] == NatTexts(ns[1..])[k - 1];
    }
  }

  /** A line of numbers reads as a range exactly when there are three of
      them: "to from len" gives `from..from + len` moving to `to`. */
  lemma ParseRangeText(ns: seq<nat>)
    requires |ns| > 0
    ensures ParseRange(Join(NatTexts(ns), " "))
            == if |ns| == 3 then Ok(MapRange(Span(ns[1], ns[1] + ns[2]), ns[0]))
               else Err("Unable to parse number triple")
  {
    var texts := NatTexts(ns);
    NatTextsLackSpace(ns);
    JoinSplit(texts, " ");
    ParsedNatsTexts(ns);
    ParseRangeOf(Join(texts, " "), ns);
  }

  lemma ParseRangeOf(line: string, ns: seq<nat>)
    requires ParsedNats(Split(line, " ")) == Ok(ns)
    ensures ParseRange(line)
            == if |ns| == 3 then Ok(MapRange(Span(ns[1], ns[1] + ns[2]), ns[0]))
               else Err("Unable to parse number triple")
  {
  }
}
