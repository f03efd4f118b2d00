/** Day 19, "Aplenty": parts carry four ratings (x, m, a, s); workflows
    hold rules that compare one rating with a constant and send the part
    to another workflow, accept it or reject it. Part 1 routes single
    parts; part 2 routes whole boxes of ratings, splitting a box at every
    rule, and counts the accepted combinations. */
module Aplenty {
  import opened Wrappers

  // ---------------------------------------------------------------------
  // Rules and outputs

  datatype Op = Gt | Lt

  /** `Op::try_from`. */
  function ParseOp(c: char): (r: Result<Op>)
    ensures r.Ok? <==> c == '>' || c == '<'
    ensures r.Ok? ==> (r.value == Gt <==> c == '>')
  {
    match c
    case '>' => Ok(Gt)
    case '<' => Ok(Lt)
    case _ => Err("can't parse `" + [c] + "` as Output")
  }

  datatype Field = X | M | A | S

  /** The letter a field is written with in a rule. */
  function FieldLetter(f: Field): char {
    match f
    case X => 'x'
    case M => 'm'
    case A => 'a'
    case S => 's'
  }

  /** `Field::try_from`. */
  function ParseField(c: char): (r: Result<Field>)
    ensures r.Ok? <==> c in "xmas"
    ensures r.Ok? ==> FieldLetter(r.value) == c
  {
    match c
    case 'x' => Ok(X)
    case 'm' => Ok(M)
    case 'a' => Ok(A)
    case 's' => Ok(S)
    case _ => Err("can't parse `" + [c] + "` as Output")
  }

  lemma FieldLetterParses(f: Field)
    ensures ParseField(FieldLetter(f)) == Ok(f)
  {
  }

  datatype Output = Accepted | Rejected | Forward(name: string)

  /** Letters, as `char::is_alphabetic` answers for ASCII. */
  predicate Alphabetic(c: char) {
    'a' <= c <= 'z' || 'A' <= c <= 'Z'
  }

  predicate Word(s: string) {
    forall i | 0 <= i < |s| :: Alphabetic(s[i])
  }

  /** `Output::from_str`: "A" and "R" are the verdicts; any other word,
      the empty one included, names a workflow. */
  function ParseOutput(s: string): (r: Result<Output>)
    ensures r.Ok? <==> Word(s)
    ensures r == Ok(Accepted) <==> s == "A"
    ensures r == Ok(Rejected) <==> s == "R"
    ensures r.Ok? && r.value.Forward? ==> r.value.name == s
  {
    if s == "A" then Ok(Accepted)
    else if s == "R" then Ok(Rejected)
    else if Word(s) then Ok(Forward(s))
    else Err("can't parse `" + s + "` as Output")
  }

  /** How an output is written after a rule's colon. */
  function OutputText(o: Output): string {
    match o
    case Accepted => "A"
    case Rejected => "R"
    case Forward(name) => name
  }

  lemma OutputRoundTrip(o: Output)
    requires o.Forward? ==> Word(o.name) && o.name != "A" && o.name != "R"
    ensures ParseOutput(OutputText(o)) == Ok(o)
  {
  }

  datatype Part = Part(x: nat, m: nat, a: nat, s: nat)

  function Rating(p: Part, f: Field): nat {
    match f
    case X => p.x
    case M => p.m
    case A => p.a
    case S => p.s
  }

  /** One more than the largest `u32`. */
  const U32: nat := 0x1_0000_0000

  /** `Part::sum`, a `u32` addition that panics on overflow; the panic is
      `None`. */
  function Sum(p: Part): (r: Option<nat>)
    ensures r.Some? <==> Rating(p, X) + Rating(p, M) + Rating(p, A) + Rating(p, S) < U32
    ensures r.Some? ==> r.value == Rating(p, X) + Rating(p, M) + Rating(p, A) + Rating(p, S)
  {
    var total := p.x + p.m + p.a + p.s;
    if total < U32 then Some(total) else None
  }

  datatype Rule = Rule(field: Field, op: Op, value: nat, output: Output)

  /** Whether a rating passes the comparison of a rule. */
  predicate Passes(rule: Rule, v: nat) {
    match rule.op
    case Gt => v > rule.value
    case Lt => v < rule.value
  }

  /** `Rule::apply`. */
  predicate Apply(rule: Rule, p: Part) {
    Passes(rule, Rating(p, rule.field))
  }

  lemma ApplyReadsField(rule: Rule, p: Part, q: Part)
    requires Rating(p, rule.field) == Rating(q, rule.field)
    ensures Apply(rule, p) == Apply(rule, q)
  {
  }

  /** `Rule::invert`. */
  function Invert(rule: Rule): (r: Rule)
    ensures r.field == rule.field && r.value == rule.value && r.output == rule.output
    ensures r.op != rule.op
  {
    rule.(op := if rule.op == Gt then Lt else Gt)
  }

  lemma InvertTwice(rule: Rule)
    ensures Invert(Invert(rule)) == rule
  {
  }

  /** The inverted rule applies exactly where the rule does not, except
      at the rule's own value, where neither does. */
  lemma InvertApply(rule: Rule, p: Part)
    ensures Apply(Invert(rule), p) <==> !Apply(rule, p) && Rating(p, rule.field) != rule.value
  {
  }

  // ---------------------------------------------------------------------
  // Boxes of ratings

  /** The half-open `start..end`; empty when `end <= start`. */
  datatype Range = Range(start: nat, end: nat)

  predicate In(r: Range, v: nat) {
    r.start <= v < r.end
  }

  predicate IsEmpty(r: Range) {
    r.end <= r.start
  }

  /** `Range::len`. */
  function Len(r: Range): (n: nat)
    ensures n == 0 <==> IsEmpty(r)
    ensures n > 0 ==> In(r, r.start) && In(r, r.start + n - 1) && !In(r, r.start + n)
  {
    if r.start < r.end then r.end - r.start else 0
  }

  /** `PartRanges`: one range per field. */
  datatype PartRanges = PartRanges(x: Range, m: Range, a: Range, s: Range)

  function Get(b: PartRanges, f: Field): Range {
    match f
    case X => b.x
    case M => b.m
    case A => b.a
    case S => b.s
  }

  /** The box with the range of one field replaced. */
  function With(b: PartRanges, f: Field, r: Range): (c: PartRanges)
    ensures Get(c, f) == r
    ensures forall g: Field | g != f :: Get(c, g) == Get(b, g)
  {
    match f
    case X => b.(x := r)
    case M => b.(m := r)
    case A => b.(a := r)
    case S => b.(s := r)
  }

  predicate Contains(b: PartRanges, p: Part) {
    In(b.x, p.x) && In(b.m, p.m) && In(b.a, p.a) && In(b.s, p.s)
  }

  /** `PartRanges::new`. */
  const Full := PartRanges(Range(1, 4001), Range(1, 4001), Range(1, 4001), Range(1, 4001))

  lemma FullContains(p: Part)
    ensures Contains(Full, p) <==> forall f: Field :: 1 <= Rating(p, f) <= 4000
  {
    assert Contains(Full, p) <== forall f: Field :: 1 <= Rating(p, f) <= 4000 by {
      if forall f: Field :: 1 <= Rating(p, f) <= 4000 {
        assert 1 <= Rating(p, X) <= 4000 && 1 <= Rating(p, M) <= 4000;
        assert 1 <= Rating(p, A) <= 4000 && 1 <= Rating(p, S) <= 4000;
      }
    }
  }

  /** `PartRanges::product`. */
  function Product(b: PartRanges): nat {
    Len(b.x) * Len(b.m) * Len(b.a) * Len(b.s)
  }

  lemma FullProduct()
    ensures Product(Full) == 256_000_000_000_000
  {
  }

  lemma ProductEmpty(b: PartRanges, f: Field)
    requires IsEmpty(Get(b, f))
    ensures Product(b) == 0
  {
  }

  /** `PartRanges::overlaps`. */
  predicate Overlaps(b: PartRanges, c: PartRanges) {
    (b.x.start < c.x.end && c.x.start < b.x.end) &&
    (b.m.start < c.m.end && c.m.start < b.m.end) &&
    (b.a.start < c.a.end && c.a.start < b.a.end) &&
    (b.s.start < c.s.end && c.s.start < b.s.end)
  }

  /** Two ranges with a value in common. */
  ghost predicate Meet(r: Range, t: Range) {
    exists v: nat :: In(r, v) && In(t, v)
  }

  /** No field of the box has an empty range. */
  predicate Solid(b: PartRanges) {
    !IsEmpty(b.x) && !IsEmpty(b.m) && !IsEmpty(b.a) && !IsEmpty(b.s)
  }

  lemma MeetWhen(r: Range, t: Range)
    requires !IsEmpty(r) && !IsEmpty(t)
    ensures Meet(r, t) <==> r.start < t.end && t.start < r.end
  {
    if r.start < t.end && t.start < r.end {
      var v := Larger(r.start, t.start);
      assert In(r, v) && In(t, v);
    }
  }

  lemma OverlapsSymmetric(b: PartRanges, c: PartRanges)
    ensures Overlaps(b, c) == Overlaps(c, b)
  {
  }

  /** For boxes without an empty range, overlapping means that each
      field's two ranges meet, and that some part lies in both boxes. An
      empty range still "overlaps" a range around it (`5..3` and `1..10`),
      but no such box is ever compared. */
  lemma OverlapsMeaning(b: PartRanges, c: PartRanges)
    requires Solid(b) && Solid(c)
    ensures Overlaps(b, c) <==> forall f: Field :: Meet(Get(b, f), Get(c, f))
    ensures Overlaps(b, c) <==> exists p: Part :: Contains(b, p) && Contains(c, p)
  {
    MeetWhen(b.x, c.x);
    MeetWhen(b.m, c.m);
    MeetWhen(b.a, c.a);
    MeetWhen(b.s, c.s);
    assert (forall f: Field :: Meet(Get(b, f), Get(c, f))) ==> Overlaps(b, c) by {
      if forall f: Field :: Meet(Get(b, f), Get(c, f)) {
        assert Meet(Get(b, X), Get(c, X)) && Meet(Get(b, M), Get(c, M));
        assert Meet(Get(b, A), Get(c, A)) && Meet(Get(b, S), Get(c, S));
      }
    }
    if Overlaps(b, c) {
      var p := Part(Larger(b.x.start, c.x.start), Larger(b.m.start, c.m.start),
                    Larger(b.a.start, c.a.start), Larger(b.s.start, c.s.start));
      assert Contains(b, p) && Contains(c, p);
    }
  }

  function Larger(i: nat, j: nat): (k: nat)
    ensures k >= i && k >= j && (k == i || k == j)
  {
    if i < j then j else i
  }

  function Smaller(i: nat, j: nat): (k: nat)
    ensures k <= i && k <= j && (k == i || k == j)
  {
    if i < j then i else j
  }

  /** One range lies inside the other. */
  predicate Sub(r: Range, t: Range) {
    t.start <= r.start && r.end <= t.end
  }

  /** Every range of `b` lies inside the same field's range of `c`. */
  predicate Within(b: PartRanges, c: PartRanges) {
    Sub(b.x, c.x) && Sub(b.m, c.m) && Sub(b.a, c.a) && Sub(b.s, c.s)
  }

  /** Two ranges, one wholly below the other. */
  predicate Apart(r: Range, t: Range) {
    r.end <= t.start || t.end <= r.start
  }

  /** Two boxes kept apart by one of their fields. */
  predicate Separated(b: PartRanges, c: PartRanges) {
    Apart(b.x, c.x) || Apart(b.m, c.m) || Apart(b.a, c.a) || Apart(b.s, c.s)
  }

  lemma SeparatedNoOverlap(b: PartRanges, c: PartRanges)
    requires Separated(b, c)
    ensures !Overlaps(b, c) && !Overlaps(c, b)
    ensures forall p :: !(Contains(b, p) && Contains(c, p))
  {
  }

  /** Shrinking one of two separated boxes keeps them separated. */
  lemma SeparatedShrink(b: PartRanges, c: PartRanges, d: PartRanges)
    requires Separated(b, c) && Within(d, c)
    ensures Separated(b, d) && Separated(d, b)
  {
  }

  // ---------------------------------------------------------------------
  // Splitting boxes

  /** A box that may be missing, with the parts in it. */
  predicate Holds(o: Option<PartRanges>, p: Part) {
    o.Some? && Contains(o.value, p)
  }

  function ProductOf(o: Option<PartRanges>): nat {
    if o.Some? then Product(o.value) else 0
  }

  /** `inside` and `outside` split `range` into the ratings that pass the
      rule and those that do not, `inside` on one side of `outside`. */
  ghost predicate Splits(rule: Rule, range: Range, inside: Range, outside: Range) {
    (forall v :: In(inside, v) <==> In(range, v) && Passes(rule, v)) &&
    (forall v :: In(outside, v) <==> In(range, v) && !Passes(rule, v)) &&
    (IsEmpty(inside) || Sub(inside, range)) &&
    (IsEmpty(outside) || Sub(outside, range)) &&
    Apart(inside, outside)
  }

  /** `Rule::restrict`: the box split by the rule into the parts it
      applies to and the rest, only the rule's field being cut, and an
      empty side given as `None`. */
  method Restrict(rule: Rule, box: PartRanges) returns (included: Option<PartRanges>, excluded: Option<PartRanges>)
    ensures included.None? <==> forall v | In(Get(box, rule.field), v) :: !Passes(rule, v)
    ensures excluded.None? <==> forall v | In(Get(box, rule.field), v) :: Passes(rule, v)
    ensures included.Some? ==> forall v :: In(Get(included.value, rule.field), v) <==> In(Get(box, rule.field), v) && Passes(rule, v)
    ensures excluded.Some? ==> forall v :: In(Get(excluded.value, rule.field), v) <==> In(Get(box, rule.field), v) && !Passes(rule, v)
    ensures included.Some? ==> forall g: Field | g != rule.field :: Get(included.value, g) == Get(box, g)
    ensures excluded.Some? ==> forall g: Field | g != rule.field :: Get(excluded.value, g) == Get(box, g)
    ensures forall p :: Holds(included, p) <==> Contains(box, p) && Apply(rule, p)
    ensures forall p :: Holds(excluded, p) <==> Contains(box, p) && !Apply(rule, p)
    ensures included.Some? ==> Within(included.value, box)
    ensures excluded.Some? ==> Within(excluded.value, box)
    ensures included.Some? && excluded.Some? ==> Separated(included.value, excluded.value)
    ensures ProductOf(included) + ProductOf(excluded) == Product(box)
  {
    var f := rule.field;
    var range := Get(box, f);
    var inside, outside;
    match rule.op {
      case Lt =>
        inside := Range(range.start, Smaller(range.end, rule.value));
        outside := Range(Larger(range.start, rule.value), range.end);
      case Gt =>
        inside := Range(Larger(range.start, rule.value + 1), range.end);
        outside := Range(range.start, Smaller(range.end, rule.value + 1));
    }
    assert Splits(rule, range, inside, outside);
    included := if !IsEmpty(inside) then Some(With(box, f, inside)) else None;
    excluded := if !IsEmpty(outside) then Some(With(box, f, outside)) else None;
    SplitSide(rule, box, inside, true);
    SplitSide(rule, box, outside, false);
    SplitProduct(rule, box, inside, outside);
    if included.Some? && excluded.Some? {
      SplitApart(box, f, inside, outside);
    }
  }

  /** One side of a split, as a box. */
  lemma SplitSide(rule: Rule, box: PartRanges, side: Range, passing: bool)
    requires forall v :: In(side, v) <==> In(Get(box, rule.field), v) && Passes(rule, v) == passing
    requires IsEmpty(side) || Sub(side, Get(box, rule.field))
    ensures IsEmpty(side) <==> forall v | In(Get(box, rule.field), v) :: Passes(rule, v) != passing
    ensures forall p :: Contains(With(box, rule.field, side), p) <==> Contains(box, p) && Apply(rule, p) == passing
    ensures !IsEmpty(side) ==> Within(With(box, rule.field, side), box)
  {
    if !IsEmpty(side) {
      assert In(side, side.start);
    }
    forall p
      ensures Contains(With(box, rule.field, side), p) <==> Contains(box, p) && Apply(rule, p) == passing
    {
      match rule.field
      case X =>
      case M =>
      case A =>
      case S =>
    }
  }

  lemma SplitApart(box: PartRanges, f: Field, inside: Range, outside: Range)
    requires Apart(inside, outside)
    ensures Separated(With(box, f, inside), With(box, f, outside))
  {
    match f
    case X =>
    case M =>
    case A =>
    case S =>
  }

  lemma SplitProduct(rule: Rule, box: PartRanges, inside: Range, outside: Range)
    requires Splits(rule, Get(box, rule.field), inside, outside)
    ensures (if IsEmpty(inside) then 0 else Product(With(box, rule.field, inside))) +
            (if IsEmpty(outside) then 0 else Product(With(box, rule.field, outside))) == Product(box)
  {
    var f := rule.field;
    SplitLen(rule, Get(box, f), inside, outside);
    ProductWith(box, f, inside);
    ProductWith(box, f, outside);
    var k := Others(box, f);
    assert (Len(inside) + Len(outside)) * k == Len(inside) * k + Len(outside) * k;
  }

  /** The two sides of a split have the range's length between them. */
  lemma SplitLen(rule: Rule, range: Range, inside: Range, outside: Range)
    requires Splits(rule, range, inside, outside)
    ensures Len(inside) + Len(outside) == Len(range)
  {
    if IsEmpty(inside) {
      SameLen(outside, range);
    } else if IsEmpty(outside) {
      SameLen(inside, range);
    } else if inside.end <= outside.start {
      Adjacent(range, inside, outside);
    } else {
      Adjacent(range, outside, inside);
    }
  }

  /** Ranges holding the same values have the same length. */
  lemma SameLen(r: Range, t: Range)
    requires forall v :: In(r, v) <==> In(t, v)
    ensures Len(r) == Len(t)
  {
    if !IsEmpty(r) {
      assert In(r, r.start) && In(r, r.end - 1);
      assert In(t, t.start) && In(t, t.end - 1);
    } else {
      assert !In(t, t.start);
    }
  }

  /** Two non-empty ranges, the first below the second, that together
      hold exactly the values of `range` meet end to start. */
  lemma Adjacent(range: Range, low: Range, high: Range)
    requires !IsEmpty(low) && !IsEmpty(high) && low.end <= high.start
    requires forall v :: In(range, v) <==> In(low, v) || In(high, v)
    ensures Len(low) + Len(high) == Len(range)
  {
    assert In(range, low.start) && In(range, high.end - 1);
    assert In(range, range.start) && In(range, range.end - 1);
    assert low.start == range.start;
    assert high.end == range.end;
    if low.end < high.start {
      assert In(range, low.end);
    }
  }

  /** The product of a box is the length of one field's range times the
      lengths of the other three. */
  function Others(b: PartRanges, f: Field): nat {
    match f
    case X => Len(b.m) * Len(b.a) * Len(b.s)
    case M => Len(b.x) * Len(b.a) * Len(b.s)
    case A => Len(b.x) * Len(b.m) * Len(b.s)
    case S => Len(b.x) * Len(b.m) * Len(b.a)
  }

  lemma ProductWith(b: PartRanges, f: Field, r: Range)
    ensures Product(b) == Len(Get(b, f)) * Others(b, f)
    ensures Product(With(b, f, r)) == Len(r) * Others(b, f)
  {
    var c := With(b, f, r);
    Product4(Len(b.x), Len(b.m), Len(b.a), Len(b.s));
    Product4(Len(c.x), Len(c.m), Len(c.a), Len(c.s));
  }

  /** A product of four, regrouped around each factor. */
  lemma Product4(x: nat, m: nat, a: nat, s: nat)
    ensures x * m * a * s == x * (m * a * s)
    ensures x * m * a * s == m * (x * a * s)
    ensures x * m * a * s == a * (x * m * s)
    ensures x * m * a * s == s * (x * m * a)
  {
  }

  // ---------------------------------------------------------------------
  // Workflows

  datatype Workflow = Workflow(name: string, rules: seq<Rule>, output: Output)

  /** `Workflow::examine`. */
  function Examine(w: Workflow, p: Part): Output {
    FirstOutput(w.rules, w.output, p)
  }

  /** The output of the first rule that applies, or the default. */
  function FirstOutput(rules: seq<Rule>, default: Output, p: Part): Output {
    if rules == [] then default
    else if Apply(rules[0], p) then rules[0].output
    else FirstOutput(rules[1..], default, p)
  }

  /** No rule before index `i` applies to the part. */
  predicate Skips(rules: seq<Rule>, i: nat, p: Part)
    requires i <= |rules|
  {
    forall j | 0 <= j < i :: !Apply(rules[j], p)
  }

  /** Examining a part gives the output of the first rule that applies
      to it, or the workflow's own output when none does. */
  lemma {:induction false} ExamineFirst(rules: seq<Rule>, default: Output, p: Part, i: nat)
    requires i <= |rules| && Skips(rules, i, p)
    requires i < |rules| ==> Apply(rules[i], p)
    ensures FirstOutput(rules, default, p) == if i < |rules| then rules[i].output else default
  {
    if i > 0 {
      assert !Apply(rules[0], p);
      assert Skips(rules[1..], i - 1, p) by {
        forall j | 0 <= j < i - 1
          ensures !Apply(rules[1..][j], p)
        {
          assert rules[1..][j] == rules[j + 1];
        }
      }
      ExamineFirst(rules[1..], default, p, i - 1);
    }
  }

  /** The boxes of a list of pieces. */
  function Boxes(pieces: seq<(PartRanges, Output)>): (bs: seq<PartRanges>)
    ensures |bs| == |pieces|
    ensures forall k | 0 <= k < |pieces| :: bs[k] == pieces[k].0
  {
    seq(|pieces|, k requires 0 <= k < |pieces| => pieces[k].0)
  }

  /** The number of parts in a list of boxes, counting a part once per
      box it lies in; the sum `main` prints. */
  function Permutations(bs: seq<PartRanges>): nat {
    if bs == [] then 0 else Permutations(bs[..|bs| - 1]) + Product(bs[|bs| - 1])
  }

  lemma PermutationsPush(bs: seq<PartRanges>, b: PartRanges)
    ensures Permutations(bs + [b]) == Permutations(bs) + Product(b)
  {
    assert (bs + [b])[..|bs|] == bs;
  }

  /** Every part in a piece lies in the box and gets the piece's output
      from the workflow. */
  ghost predicate Sound(w: Workflow, box: PartRanges, pieces: seq<(PartRanges, Output)>) {
    forall k, p | 0 <= k < |pieces| && Contains(pieces[k].0, p) :: Contains(box, p) && pieces[k].1 == Examine(w, p)
  }

  ghost predicate Covered(pieces: seq<(PartRanges, Output)>, p: Part) {
    exists k | 0 <= k < |pieces| :: Contains(pieces[k].0, p)
  }

  predicate Pairwise(pieces: seq<(PartRanges, Output)>) {
    forall j, k | 0 <= j < k < |pieces| :: Separated(pieces[j].0, pieces[k].0)
  }

  predicate Inside(pieces: seq<(PartRanges, Output)>, box: PartRanges) {
    forall k | 0 <= k < |pieces| :: Within(pieces[k].0, box)
  }

  /** What `Workflow::restrict` has done after `i` rules: `current` holds
      the parts no rule so far applied to, and the pieces hold the rest. */
  ghost predicate Progress(w: Workflow, box: PartRanges, i: nat, pieces: seq<(PartRanges, Output)>, current: PartRanges)
    requires i <= |w.rules|
  {
    Within(current, box) && Inside(pieces, box) && Pairwise(pieces) &&
    (forall k | 0 <= k < |pieces| :: Separated(pieces[k].0, current)) &&
    Permutations(Boxes(pieces)) + Product(current) == Product(box) &&
    (forall p | Contains(box, p) :: Contains(current, p) <==> Skips(w.rules, i, p)) &&
    Sound(w, box, pieces) &&
    (forall p | Contains(box, p) :: Contains(current, p) || Covered(pieces, p))
  }

  /** What `Workflow::restrict` returns. */
  ghost predicate Done(w: Workflow, box: PartRanges, pieces: seq<(PartRanges, Output)>) {
    Sound(w, box, pieces) && (forall p | Contains(box, p) :: Covered(pieces, p)) &&
    Inside(pieces, box) && Pairwise(pieces) && Permutations(Boxes(pieces)) == Product(box)
  }

  /** `Workflow::restrict`: the box cut by each rule in turn into the
      parts the rule sends on and the rest, which the next rule sees; the
      rest after the last rule takes the workflow's own output. */
  method RestrictAll(w: Workflow, box: PartRanges) returns (pieces: seq<(PartRanges, Output)>)
    ensures forall k, p | 0 <= k < |pieces| && Contains(pieces[k].0, p) :: Contains(box, p) && pieces[k].1 == Examine(w, p)
    ensures forall p | Contains(box, p) :: exists k | 0 <= k < |pieces| :: Contains(pieces[k].0, p)
    ensures forall k | 0 <= k < |pieces| :: Within(pieces[k].0, box)
    ensures forall j, k | 0 <= j < k < |pieces| :: Separated(pieces[j].0, pieces[k].0) && !Overlaps(pieces[j].0, pieces[k].0)
    ensures Permutations(Boxes(pieces)) == Product(box)
  {
    pieces := [];
    var current := box;
    assert Boxes([]) == [];
    for i := 0 to |w.rules|
      invariant Progress(w, box, i, pieces, current)
    {
      var more;
      pieces, current, more := CutOnce(w, box, i, pieces, current);
      if !more {
        return;
      }
    }
    pieces := Finish(w, box, pieces, current);
  }

  /** One turn of `Workflow::restrict`'s loop; `more` is false where the
      source returns early. */
  method CutOnce(w: Workflow, box: PartRanges, i: nat, pieces: seq<(PartRanges, Output)>, current: PartRanges)
    returns (pieces': seq<(PartRanges, Output)>, current': PartRanges, more: bool)
    requires i < |w.rules| && Progress(w, box, i, pieces, current)
    ensures more ==> Progress(w, box, i + 1, pieces', current')
    ensures !more ==> Done(w, box, pieces') && Pairwise(pieces') && Inside(pieces', box)
    ensures !more ==> forall j, k | 0 <= j < k < |pieces'| :: !Overlaps(pieces'[j].0, pieces'[k].0)
  {
    var rule := w.rules[i];
    var included, excluded := Restrict(rule, current);
    pieces' := Include(w, box, i, pieces, current, included);
    assert forall p | Contains(box, p) && !Holds(excluded, p) :: Covered(pieces', p);
    if excluded.None? {
      current', more := current, false;
      PairwiseNoOverlap(pieces');
    } else {
      var next := excluded.value;
      forall k | 0 <= k < |pieces'|
        ensures Separated(pieces'[k].0, next)
      {
        if k < |pieces| {
          SeparatedShrink(pieces[k].0, current, next);
        }
      }
      Advance(w, box, i, pieces', current, next);
      current', more := next, true;
    }
  }

  /** The first half of a turn: the parts the rule applies to become a
      piece with the rule's output. */
  method Include(w: Workflow, box: PartRanges, i: nat, pieces: seq<(PartRanges, Output)>, current: PartRanges,
                 included: Option<PartRanges>)
    returns (pieces': seq<(PartRanges, Output)>)
    requires i < |w.rules| && Progress(w, box, i, pieces, current)
    requires forall p :: Holds(included, p) <==> Contains(current, p) && Apply(w.rules[i], p)
    requires included.Some? ==> Within(included.value, current)
    ensures |pieces'| == |pieces| + (if included.Some? then 1 else 0)
    ensures forall k | 0 <= k < |pieces| :: pieces'[k] == pieces[k]
    ensures included.Some? ==> pieces'[|pieces|].0 == included.value
    ensures Sound(w, box, pieces') && Inside(pieces', box) && Pairwise(pieces')
    ensures forall p | Covered(pieces, p) || Holds(included, p) :: Covered(pieces', p)
    ensures Permutations(Boxes(pieces')) == Permutations(Boxes(pieces)) + ProductOf(included)
  {
    pieces' := pieces;
    if included.Some? {
      var b := included.value;
      var rule := w.rules[i];
      forall p | Contains(b, p)
        ensures Contains(box, p) && rule.output == Examine(w, p)
      {
        ExamineFirst(w.rules, w.output, p, i);
      }
      forall k | 0 <= k < |pieces|
        ensures Separated(pieces[k].0, b)
      {
        SeparatedShrink(pieces[k].0, current, b);
      }
      Push(w, box, pieces, b, rule.output);
      pieces' := pieces + [(b, rule.output)];
    }
  }

  /** The loop of `Workflow::restrict` moves on to the next rule with what
      the current one did not apply to. */
  lemma Advance(w: Workflow, box: PartRanges, i: nat, pieces: seq<(PartRanges, Output)>, current: PartRanges, next: PartRanges)
    requires i < |w.rules|
    requires Within(current, box) && Within(next, current)
    requires Inside(pieces, box) && Pairwise(pieces) && Sound(w, box, pieces)
    requires forall k | 0 <= k < |pieces| :: Separated(pieces[k].0, next)
    requires Permutations(Boxes(pieces)) + Product(next) == Product(box)
    requires forall p | Contains(box, p) :: Contains(current, p) <==> Skips(w.rules, i, p)
    requires forall p :: Contains(next, p) <==> Contains(current, p) && !Apply(w.rules[i], p)
    requires forall p | Contains(box, p) && !Contains(next, p) :: Covered(pieces, p)
    ensures Progress(w, box, i + 1, pieces, next)
  {
    forall p | Contains(box, p)
      ensures Contains(next, p) <==> Skips(w.rules, i + 1, p)
    {
      assert Skips(w.rules, i + 1, p) <==> Skips(w.rules, i, p) && !Apply(w.rules[i], p);
    }
  }

  /** The last piece of `Workflow::restrict`: what no rule applied to. */
  method Finish(w: Workflow, box: PartRanges, pieces: seq<(PartRanges, Output)>, current: PartRanges)
    returns (pieces': seq<(PartRanges, Output)>)
    requires Progress(w, box, |w.rules|, pieces, current)
    ensures Done(w, box, pieces') && Pairwise(pieces') && Inside(pieces', box)
    ensures forall j, k | 0 <= j < k < |pieces'| :: !Overlaps(pieces'[j].0, pieces'[k].0)
  {
    forall p | Contains(current, p)
      ensures w.output == Examine(w, p)
    {
      ExamineFirst(w.rules, w.output, p, |w.rules|);
    }
    Push(w, box, pieces, current, w.output);
    pieces' := pieces + [(current, w.output)];
    PairwiseNoOverlap(pieces');
  }

  /** Appending a piece that is sound, inside the box and apart from
      every earlier piece keeps the list sound, inside and pairwise
      apart, still covers what it covered and adds its product. */
  lemma Push(w: Workflow, box: PartRanges, pieces: seq<(PartRanges, Output)>, b: PartRanges, o: Output)
    requires Sound(w, box, pieces) && Inside(pieces, box) && Pairwise(pieces)
    requires forall p | Contains(b, p) :: Contains(box, p) && o == Examine(w, p)
    requires Within(b, box)
    requires forall k | 0 <= k < |pieces| :: Separated(pieces[k].0, b)
    ensures Sound(w, box, pieces + [(b, o)]) && Inside(pieces + [(b, o)], box) && Pairwise(pieces + [(b, o)])
    ensures forall p | Covered(pieces, p) || Contains(b, p) :: Covered(pieces + [(b, o)], p)
    ensures Permutations(Boxes(pieces + [(b, o)])) == Permutations(Boxes(pieces)) + Product(b)
  {
    var longer := pieces + [(b, o)];
    SoundPush(w, box, pieces, b, o);
    forall j, k | 0 <= j < k < |longer|
      ensures Separated(longer[j].0, longer[k].0)
    {
      assert longer[j] == pieces[j];
    }
    forall p | Covered(pieces, p) || Contains(b, p)
      ensures Covered(longer, p)
    {
      if Contains(b, p) {
        assert Contains(longer[|pieces|].0, p);
      } else {
        var k :| 0 <= k < |pieces| && Contains(pieces[k].0, p);
        assert Contains(longer[k].0, p);
      }
    }
    PermutationsPush(Boxes(pieces), b);
    assert Boxes(longer) == Boxes(pieces) + [b];
  }

  lemma SoundPush(w: Workflow, box: PartRanges, pieces: seq<(PartRanges, Output)>, b: PartRanges, o: Output)
    requires Sound(w, box, pieces)
    requires forall p | Contains(b, p) :: Contains(box, p) && o == Examine(w, p)
    ensures Sound(w, box, pieces + [(b, o)])
  {
    var longer := pieces + [(b, o)];
    forall k, p | 0 <= k < |longer| && Contains(longer[k].0, p)
      ensures Contains(box, p) && longer[k].1 == Examine(w, p)
    {
      if k < |pieces| {
        assert longer[k] == pieces[k];
      }
    }
  }

  lemma PairwiseNoOverlap(pieces: seq<(PartRanges, Output)>)
    requires Pairwise(pieces)
    ensures forall j, k | 0 <= j < k < |pieces| :: !Overlaps(pieces[j].0, pieces[k].0)
  {
    forall j, k | 0 <= j < k < |pieces|
      ensures !Overlaps(pieces[j].0, pieces[k].0)
    {
      SeparatedNoOverlap(pieces[j].0, pieces[k].0);
    }
  }

  // ---------------------------------------------------------------------
  // Routing parts

  /** The workflows by name, as `main` collects them into a `BTreeMap`: a
      later workflow of the same name replaces an earlier one. */
  function Index(ws: seq<Workflow>): (m: map<string, Workflow>)
    ensures Keyed(m)
    ensures forall name :: name in m <==> exists i | 0 <= i < |ws| :: ws[i].name == name
  {
    if ws == [] then map[]
    else
      var front := ws[..|ws| - 1];
      assert forall i | 0 <= i < |front| :: front[i] == ws[i];
      Index(front)[ws[|ws| - 1].name := ws[|ws| - 1]]
  }

  /** The workflow filed under a name is the last one of that name. */
  lemma {:induction false} IndexLast(ws: seq<Workflow>, i: nat)
    requires i < |ws| && forall j | i < j < |ws| :: ws[j].name != ws[i].name
    ensures Index(ws)[ws[i].name] == ws[i]
  {
    if i < |ws| - 1 {
      var front := ws[..|ws| - 1];
      assert front[i] == ws[i];
      IndexLast(front, i);
    }
  }

  /** Every workflow is filed under its own name. */
  predicate Keyed(wfs: map<string, Workflow>) {
    forall name | name in wfs :: wfs[name].name == name
  }

  /** `main`'s lookup of the first workflow. */
  function Start(wfs: map<string, Workflow>): (r: Result<Workflow>)
    ensures r.Ok? <==> "in" in wfs
    ensures r.Ok? ==> r.value == wfs["in"]
  {
    if "in" in wfs then Ok(wfs["in"]) else Err("Missing `in` workflow")
  }

  /** A part sent to workflow `name` reaches the verdict `out` after `n`
      forwards. */
  ghost predicate Leads(wfs: map<string, Workflow>, name: string, p: Part, n: nat, out: Output)
    decreases n
  {
    name in wfs &&
    var o := Examine(wfs[name], p);
    if o.Forward? then n > 0 && Leads(wfs, o.name, p, n - 1, out) else n == 0 && o == out
  }

  /** A part sent to workflow `name` reaches the verdict `out`. */
  ghost predicate Ends(wfs: map<string, Workflow>, name: string, p: Part, out: Output) {
    exists n: nat :: Leads(wfs, name, p, n, out)
  }

  /** A route has one length and one verdict. */
  lemma {:induction false} LeadsUnique(wfs: map<string, Workflow>, name: string, p: Part, n: nat, out: Output, n': nat, out': Output)
    requires Leads(wfs, name, p, n, out) && Leads(wfs, name, p, n', out')
    ensures n == n' && out == out'
    decreases n
  {
    var o := Examine(wfs[name], p);
    if o.Forward? {
      LeadsUnique(wfs, o.name, p, n - 1, out, n' - 1, out');
    }
  }

  /** A workflow that forwards a part hands on its verdict. */
  lemma EndsForward(wfs: map<string, Workflow>, name: string, p: Part, out: Output)
    requires name in wfs && Examine(wfs[name], p).Forward?
    ensures Ends(wfs, name, p, out) <==> Ends(wfs, Examine(wfs[name], p).name, p, out)
  {
    var next := Examine(wfs[name], p).name;
    if Ends(wfs, name, p, out) {
      var n: nat :| Leads(wfs, name, p, n, out);
      assert Leads(wfs, next, p, n - 1, out);
    }
    if Ends(wfs, next, p, out) {
      var n: nat :| Leads(wfs, next, p, n, out);
      assert Leads(wfs, name, p, n + 1, out);
    }
  }

  /** A workflow that accepts or rejects a part gives the verdict. */
  lemma EndsHere(wfs: map<string, Workflow>, name: string, p: Part, out: Output)
    requires name in wfs && !Examine(wfs[name], p).Forward?
    ensures Ends(wfs, name, p, out) <==> out == Examine(wfs[name], p)
  {
    if out == Examine(wfs[name], p) {
      assert Leads(wfs, name, p, 0, out);
    }
  }

  /** Part 1's inner loop: a part follows the workflows from `start` to
      a verdict, `true` for accepted. The source loops forever when the
      workflows send the part round in a circle; here the walk gives up
      after `fuel` forwards. */
  method Route(wfs: map<string, Workflow>, start: Workflow, p: Part, fuel: nat) returns (r: Result<bool>)
    requires Keyed(wfs) && start.name in wfs && wfs[start.name] == start
    ensures r.Ok? ==> Ends(wfs, start.name, p, if r.value then Accepted else Rejected)
    ensures forall n: nat, out | n <= fuel && Leads(wfs, start.name, p, n, out) :: r == Ok(out == Accepted)
  {
    var workflow := start;
    var steps := 0;
    while true
      invariant workflow.name in wfs && wfs[workflow.name] == workflow
      invariant steps <= fuel
      invariant forall out :: Ends(wfs, start.name, p, out) <== Ends(wfs, workflow.name, p, out)
      invariant forall n: nat, out | Leads(wfs, start.name, p, n, out) :: steps <= n && Leads(wfs, workflow.name, p, n - steps, out)
      decreases fuel - steps
    {
      var o := Examine(workflow, p);
      match o {
        case Accepted =>
          EndsHere(wfs, workflow.name, p, Accepted);
          return Ok(true);
        case Rejected =>
          EndsHere(wfs, workflow.name, p, Rejected);
          return Ok(false);
        case Forward(next) =>
          if next !in wfs {
            return Err("Missing `" + next + "` workflow");
          }
          if steps == fuel {
            return Err("no verdict after " + "the allowed forwards");
          }
          forall out
            ensures Ends(wfs, workflow.name, p, out) <== Ends(wfs, next, p, out)
          {
            EndsForward(wfs, workflow.name, p, out);
          }
          workflow := wfs[next];
          steps := steps + 1;
      }
    }
  }

  /** The parts the workflows accept from `name`, in order. */
  ghost function Accepts(wfs: map<string, Workflow>, name: string, parts: seq<Part>): seq<Part> {
    if parts == [] then []
    else
      var front := Accepts(wfs, name, parts[..|parts| - 1]);
      if Ends(wfs, name, parts[|parts| - 1], Accepted) then front + [parts[|parts| - 1]] else front
  }

  /** Part 1: the parts accepted from `start`, in order. A missing
      workflow is an error, and so is a part that finds no verdict
      within `fuel` forwards; when every part finds one, there is no
      error. */
  method Rate(wfs: map<string, Workflow>, start: Workflow, parts: seq<Part>, fuel: nat) returns (r: Result<seq<Part>>)
    requires Keyed(wfs) && start.name in wfs && wfs[start.name] == start
    ensures r.Ok? ==> r.value == Accepts(wfs, start.name, parts)
    ensures (forall i | 0 <= i < |parts| :: exists n: nat, out | n <= fuel :: Leads(wfs, start.name, parts[i], n, out)) ==> r.Ok?
  {
    var accepted := [];
    for i := 0 to |parts|
      invariant accepted == Accepts(wfs, start.name, parts[..i])
    {
      var verdict := Route(wfs, start, parts[i], fuel);
      if verdict.Err? {
        return Err(verdict.error);
      }
      assert parts[..i + 1][..i] == parts[..i];
      if verdict.value {
        accepted := accepted + [parts[i]];
      } else if Ends(wfs, start.name, parts[i], Accepted) {
        var n: nat :| Leads(wfs, start.name, parts[i], n, Accepted);
        var n': nat :| Leads(wfs, start.name, parts[i], n', Rejected);
        LeadsUnique(wfs, start.name, parts[i], n, Accepted, n', Rejected);
      }
    }
    assert parts[..|parts|] == parts;
    return Ok(accepted);
  }

  /** The ratings of the parts added up without bound. */
  function Total(parts: seq<Part>): nat {
    if parts == [] then 0
    else
      var p := parts[|parts| - 1];
      Total(parts[..|parts| - 1]) + p.x + p.m + p.a + p.s
  }

  /** Part 1's answer: the `u32` sum of the parts' `Part::sum`s, `None`
      where an addition overflows and panics. */
  function RatingSum(parts: seq<Part>): (r: Option<nat>)
    ensures r.Some? <==> Total(parts) < U32
    ensures r.Some? ==> r.value == Total(parts)
  {
    if parts == [] then Some(0)
    else
      match (RatingSum(parts[..|parts| - 1]), Sum(parts[|parts| - 1]))
      case (Some(a), Some(b)) => if a + b < U32 then Some(a + b) else None
      case _ => None
  }

  // ---------------------------------------------------------------------
  // Counting combinations

  /** The boxes on a worklist. */
  function Tops(stack: seq<(PartRanges, Workflow)>): (bs: seq<PartRanges>)
    ensures |bs| == |stack|
    ensures forall k | 0 <= k < |stack| :: bs[k] == stack[k].0
  {
    seq(|stack|, k requires 0 <= k < |stack| => stack[k].0)
  }

  predicate Disjoint(bs: seq<PartRanges>) {
    forall j, k | 0 <= j < k < |bs| :: Separated(bs[j], bs[k])
  }

  /** `b` is apart from every box of `bs`. */
  predicate Clear(bs: seq<PartRanges>, b: PartRanges) {
    forall k | 0 <= k < |bs| :: Separated(bs[k], b)
  }

  /** Every box of `bs` is apart from every box of `cs`. */
  predicate Across(bs: seq<PartRanges>, cs: seq<PartRanges>) {
    forall j, k | 0 <= j < |bs| && 0 <= k < |cs| :: Separated(bs[j], cs[k])
  }

  lemma DisjointPush(bs: seq<PartRanges>, b: PartRanges)
    requires Disjoint(bs) && Clear(bs, b)
    ensures Disjoint(bs + [b])
  {
  }

  lemma AcrossPush(bs: seq<PartRanges>, cs: seq<PartRanges>, c: PartRanges)
    requires Across(bs, cs) && Clear(bs, c)
    ensures Across(bs, cs + [c])
  {
  }

  lemma AcrossPushLeft(bs: seq<PartRanges>, cs: seq<PartRanges>, b: PartRanges)
    requires Across(bs, cs) && Clear(cs, b)
    ensures Across(bs + [b], cs)
  {
    forall j, k | 0 <= j < |bs| + 1 && 0 <= k < |cs|
      ensures Separated((bs + [b])[j], cs[k])
    {
      if j == |bs| {
        assert Separated(cs[k], b);
      }
    }
  }

  lemma ClearPush(bs: seq<PartRanges>, b: PartRanges, c: PartRanges)
    requires Clear(bs, c) && Separated(b, c)
    ensures Clear(bs + [b], c)
  {
  }

  lemma ClearShrink(bs: seq<PartRanges>, c: PartRanges, d: PartRanges)
    requires Clear(bs, c) && Within(d, c)
    ensures Clear(bs, d)
  {
    forall k | 0 <= k < |bs|
      ensures Separated(bs[k], d)
    {
      SeparatedShrink(bs[k], c, d);
    }
  }

  /** The workflows on a worklist are the ones filed under their names. */
  predicate Filed(wfs: map<string, Workflow>, stack: seq<(PartRanges, Workflow)>) {
    forall k | 0 <= k < |stack| :: stack[k].1.name in wfs && wfs[stack[k].1.name] == stack[k].1
  }

  /** The parts of the box are ratings `PartRanges::new` allows, and the
      workflow accepts one of them exactly when workflow `name` does. */
  ghost predicate Agrees(wfs: map<string, Workflow>, name: string, box: PartRanges, w: Workflow) {
    forall p | Contains(box, p) :: Contains(Full, p) && (Ends(wfs, name, p, Accepted) <==> Ends(wfs, w.name, p, Accepted))
  }

  ghost predicate AllAgree(wfs: map<string, Workflow>, name: string, stack: seq<(PartRanges, Workflow)>) {
    forall k | 0 <= k < |stack| :: Agrees(wfs, name, stack[k].0, stack[k].1)
  }

  /** Every part in the accepted boxes is allowed and accepted. */
  ghost predicate AllAccepted(wfs: map<string, Workflow>, name: string, accepted: seq<PartRanges>) {
    forall k, p | 0 <= k < |accepted| && Contains(accepted[k], p) :: Contains(Full, p) && Ends(wfs, name, p, Accepted)
  }

  ghost predicate Somewhere(bs: seq<PartRanges>, p: Part) {
    exists k | 0 <= k < |bs| :: Contains(bs[k], p)
  }

  /** The worklist loop's invariant: accepted boxes and waiting boxes are
      pairwise apart, accepted boxes hold accepted parts only, a waiting
      box's workflow decides as `name` does, and every accepted part is in
      an accepted or a waiting box. */
  ghost predicate Pending(wfs: map<string, Workflow>, name: string, accepted: seq<PartRanges>, stack: seq<(PartRanges, Workflow)>) {
    Filed(wfs, stack) && Disjoint(accepted) && Disjoint(Tops(stack)) && Across(accepted, Tops(stack)) &&
    AllAccepted(wfs, name, accepted) && AllAgree(wfs, name, stack) &&
    forall p | Contains(Full, p) && Ends(wfs, name, p, Accepted) :: Somewhere(accepted, p) || Somewhere(Tops(stack), p)
  }

  /** The inner loop's invariant, the pieces from `t` on being the ones
      still to send. */
  ghost predicate Sending(wfs: map<string, Workflow>, name: string, accepted: seq<PartRanges>, stack: seq<(PartRanges, Workflow)>,
                          box: PartRanges, w: Workflow, pieces: seq<(PartRanges, Output)>, t: nat)
    requires t <= |pieces|
  {
    Filed(wfs, stack) && Disjoint(accepted) && Disjoint(Tops(stack)) && Across(accepted, Tops(stack)) &&
    AllAccepted(wfs, name, accepted) && AllAgree(wfs, name, stack) &&
    w.name in wfs && wfs[w.name] == w && Agrees(wfs, name, box, w) &&
    Sound(w, box, pieces) && Pairwise(pieces) &&
    (forall q | t <= q < |pieces| :: Clear(accepted, pieces[q].0) && Clear(Tops(stack), pieces[q].0)) &&
    forall p | Contains(Full, p) && Ends(wfs, name, p, Accepted) ::
      Somewhere(accepted, p) || Somewhere(Tops(stack), p) || exists q | t <= q < |pieces| :: Contains(pieces[q].0, p)
  }

  /** Part 2: `main`'s worklist. Boxes of ratings start at `start` with
      `PartRanges::new`; each box popped is split by its workflow, accepted
      pieces are kept, rejected ones dropped and forwarded ones pushed. The
      kept boxes are pairwise apart, so the overlap check after the loop
      finds nothing, and they hold exactly the accepted parts. The source
      runs forever when workflows forward boxes round a circle; here the
      loop gives up after `fuel` boxes. */
  method Combinations(wfs: map<string, Workflow>, start: Workflow, fuel: nat) returns (r: Result<seq<PartRanges>>)
    requires Keyed(wfs) && start.name in wfs && wfs[start.name] == start
    ensures r.Ok? ==> forall j, k | 0 <= j < |r.value| && 0 <= k < |r.value| && j != k :: !Overlaps(r.value[j], r.value[k])
    ensures r.Ok? ==> forall k, p | 0 <= k < |r.value| && Contains(r.value[k], p) :: Contains(Full, p) && Ends(wfs, start.name, p, Accepted)
    ensures r.Ok? ==> forall p | Contains(Full, p) && Ends(wfs, start.name, p, Accepted) :: exists k | 0 <= k < |r.value| :: Contains(r.value[k], p)
  {
    var accepted: seq<PartRanges> := [];
    var stack := [(Full, start)];
    assert Tops(stack)[0] == Full;
    var steps := 0;
    while stack != []
      invariant steps <= fuel
      invariant Pending(wfs, start.name, accepted, stack)
      decreases fuel - steps
    {
      if steps == fuel {
        return Err("no end to the worklist after " + "the allowed boxes");
      }
      steps := steps + 1;
      var err;
      accepted, stack, err := Turn(wfs, start.name, accepted, stack);
      if err.Some? {
        return Err(err.value);
      }
    }
    DisjointNoOverlap(accepted);
    return Ok(accepted);
  }

  /** One turn of the worklist loop: the last box is popped, split by its
      workflow, and its pieces sent on. */
  method Turn(wfs: map<string, Workflow>, name: string, accepted: seq<PartRanges>, stack: seq<(PartRanges, Workflow)>)
    returns (accepted': seq<PartRanges>, stack': seq<(PartRanges, Workflow)>, err: Option<string>)
    requires Keyed(wfs) && Pending(wfs, name, accepted, stack) && stack != []
    ensures err.None? ==> Pending(wfs, name, accepted', stack')
  {
    var (box, workflow) := stack[|stack| - 1];
    var rest := stack[..|stack| - 1];
    Pop(wfs, name, accepted, stack);
    var pieces := RestrictAll(workflow, box);
    StartSending(wfs, name, accepted, rest, box, workflow, pieces);
    accepted', stack', err := SendAll(wfs, name, accepted, rest, box, workflow, pieces);
  }

  /** Boxes pairwise apart do not overlap, in either order. */
  lemma DisjointNoOverlap(bs: seq<PartRanges>)
    requires Disjoint(bs)
    ensures forall j, k | 0 <= j < |bs| && 0 <= k < |bs| && j != k :: !Overlaps(bs[j], bs[k])
  {
    forall j, k | 0 <= j < |bs| && 0 <= k < |bs| && j != k
      ensures !Overlaps(bs[j], bs[k])
    {
      if j < k {
        SeparatedNoOverlap(bs[j], bs[k]);
      } else {
        SeparatedNoOverlap(bs[k], bs[j]);
      }
    }
  }

  /** What the worklist loop knows once it has popped the last box. */
  lemma Pop(wfs: map<string, Workflow>, name: string, accepted: seq<PartRanges>, stack: seq<(PartRanges, Workflow)>)
    requires Pending(wfs, name, accepted, stack) && stack != []
    ensures var rest := stack[..|stack| - 1];
      var (box, w) := stack[|stack| - 1];
      Filed(wfs, rest) && Disjoint(Tops(rest)) && Across(accepted, Tops(rest)) && AllAgree(wfs, name, rest) &&
      w.name in wfs && wfs[w.name] == w && Agrees(wfs, name, box, w) &&
      Clear(accepted, box) && Clear(Tops(rest), box) &&
      forall p | Contains(Full, p) && Ends(wfs, name, p, Accepted) :: Somewhere(accepted, p) || Somewhere(Tops(rest), p) || Contains(box, p)
  {
    var rest := stack[..|stack| - 1];
    var last := |stack| - 1;
    assert forall k | 0 <= k < |rest| :: rest[k] == stack[k];
    assert Tops(stack)[last] == stack[last].0;
    forall p | Contains(Full, p) && Ends(wfs, name, p, Accepted)
      ensures Somewhere(accepted, p) || Somewhere(Tops(rest), p) || Contains(stack[last].0, p)
    {
      if !Somewhere(accepted, p) {
        var k :| 0 <= k < |stack| && Contains(Tops(stack)[k], p);
        if k < last {
          assert Contains(Tops(rest)[k], p);
        }
      }
    }
  }

  /** The inner loop's invariant holds before it sends the first piece. */
  lemma StartSending(wfs: map<string, Workflow>, name: string, accepted: seq<PartRanges>, stack: seq<(PartRanges, Workflow)>,
                     box: PartRanges, w: Workflow, pieces: seq<(PartRanges, Output)>)
    requires Filed(wfs, stack) && Disjoint(accepted) && Disjoint(Tops(stack)) && Across(accepted, Tops(stack))
    requires AllAccepted(wfs, name, accepted) && AllAgree(wfs, name, stack)
    requires w.name in wfs && wfs[w.name] == w && Agrees(wfs, name, box, w)
    requires Clear(accepted, box) && Clear(Tops(stack), box)
    requires forall p | Contains(Full, p) && Ends(wfs, name, p, Accepted) :: Somewhere(accepted, p) || Somewhere(Tops(stack), p) || Contains(box, p)
    requires forall k, p | 0 <= k < |pieces| && Contains(pieces[k].0, p) :: Contains(box, p) && pieces[k].1 == Examine(w, p)
    requires forall p | Contains(box, p) :: exists k | 0 <= k < |pieces| :: Contains(pieces[k].0, p)
    requires forall k | 0 <= k < |pieces| :: Within(pieces[k].0, box)
    requires forall j, k | 0 <= j < k < |pieces| :: Separated(pieces[j].0, pieces[k].0) && !Overlaps(pieces[j].0, pieces[k].0)
    ensures Sending(wfs, name, accepted, stack, box, w, pieces, 0)
  {
    forall q | 0 <= q < |pieces|
      ensures Clear(accepted, pieces[q].0) && Clear(Tops(stack), pieces[q].0)
    {
      ClearShrink(accepted, box, pieces[q].0);
      ClearShrink(Tops(stack), box, pieces[q].0);
    }
  }

  /** `main`'s inner loop: every piece of a split box is sent on by its
      output. */
  method SendAll(wfs: map<string, Workflow>, name: string, accepted: seq<PartRanges>, stack: seq<(PartRanges, Workflow)>,
                 box: PartRanges, w: Workflow, pieces: seq<(PartRanges, Output)>)
    returns (accepted': seq<PartRanges>, stack': seq<(PartRanges, Workflow)>, err: Option<string>)
    requires Keyed(wfs) && Sending(wfs, name, accepted, stack, box, w, pieces, 0)
    ensures err.None? ==> Pending(wfs, name, accepted', stack')
  {
    accepted', stack', err := accepted, stack, None;
    for t := 0 to |pieces|
      invariant Sending(wfs, name, accepted', stack', box, w, pieces, t)
    {
      accepted', stack', err := Send(wfs, name, accepted', stack', box, w, pieces, t);
      if err.Some? {
        return;
      }
    }
  }

  /** One turn of the inner loop. */
  method Send(wfs: map<string, Workflow>, name: string, accepted: seq<PartRanges>, stack: seq<(PartRanges, Workflow)>,
              box: PartRanges, w: Workflow, pieces: seq<(PartRanges, Output)>, t: nat)
    returns (accepted': seq<PartRanges>, stack': seq<(PartRanges, Workflow)>, err: Option<string>)
    requires Keyed(wfs) && t < |pieces| && Sending(wfs, name, accepted, stack, box, w, pieces, t)
    ensures err.None? ==> Sending(wfs, name, accepted', stack', box, w, pieces, t + 1)
  {
    var (b, o) := pieces[t];
    accepted', stack', err := accepted, stack, None;
    match o {
      case Accepted =>
        SendAccepted(wfs, name, accepted, stack, box, w, pieces, t);
        accepted' := accepted + [b];
      case Rejected =>
        SendRejected(wfs, name, accepted, stack, box, w, pieces, t);
      case Forward(next) =>
        if next !in wfs {
          err := Some("Missing `" + next + "` workflow");
          return;
        }
        SendForward(wfs, name, accepted, stack, box, w, pieces, t);
        stack' := stack + [(b, wfs[next])];
    }
  }

  lemma SendAccepted(wfs: map<string, Workflow>, name: string, accepted: seq<PartRanges>, stack: seq<(PartRanges, Workflow)>,
                     box: PartRanges, w: Workflow, pieces: seq<(PartRanges, Output)>, t: nat)
    requires t < |pieces| && Sending(wfs, name, accepted, stack, box, w, pieces, t) && pieces[t].1 == Accepted
    ensures Sending(wfs, name, accepted + [pieces[t].0], stack, box, w, pieces, t + 1)
  {
    var b := pieces[t].0;
    var more := accepted + [b];
    DisjointPush(accepted, b);
    AcrossPushLeft(accepted, Tops(stack), b);
    forall q | t + 1 <= q < |pieces|
      ensures Clear(more, pieces[q].0)
    {
      ClearPush(accepted, b, pieces[q].0);
    }
    forall k, p | 0 <= k < |more| && Contains(more[k], p)
      ensures Contains(Full, p) && Ends(wfs, name, p, Accepted)
    {
      if k == |accepted| {
        EndsHere(wfs, w.name, p, Accepted);
      }
    }
    forall p | Contains(Full, p) && Ends(wfs, name, p, Accepted)
      ensures Somewhere(more, p) || Somewhere(Tops(stack), p) || exists q | t + 1 <= q < |pieces| :: Contains(pieces[q].0, p)
    {
      if Somewhere(accepted, p) {
        var k :| 0 <= k < |accepted| && Contains(accepted[k], p);
        assert Contains(more[k], p);
      } else if Contains(b, p) {
        assert Contains(more[|accepted|], p);
      }
    }
  }

  lemma SendRejected(wfs: map<string, Workflow>, name: string, accepted: seq<PartRanges>, stack: seq<(PartRanges, Workflow)>,
                     box: PartRanges, w: Workflow, pieces: seq<(PartRanges, Output)>, t: nat)
    requires t < |pieces| && Sending(wfs, name, accepted, stack, box, w, pieces, t) && pieces[t].1 == Rejected
    ensures Sending(wfs, name, accepted, stack, box, w, pieces, t + 1)
  {
    forall p | Contains(pieces[t].0, p)
      ensures !Ends(wfs, name, p, Accepted)
    {
      EndsHere(wfs, w.name, p, Accepted);
    }
  }

  lemma SendForward(wfs: map<string, Workflow>, name: string, accepted: seq<PartRanges>, stack: seq<(PartRanges, Workflow)>,
                    box: PartRanges, w: Workflow, pieces: seq<(PartRanges, Output)>, t: nat)
    requires Keyed(wfs) && t < |pieces| && Sending(wfs, name, accepted, stack, box, w, pieces, t)
    requires pieces[t].1.Forward? && pieces[t].1.name in wfs
    ensures Sending(wfs, name, accepted, stack + [(pieces[t].0, wfs[pieces[t].1.name])], box, w, pieces, t + 1)
  {
    var b := pieces[t].0;
    var next := pieces[t].1.name;
    var more := stack + [(b, wfs[next])];
    assert Tops(more) == Tops(stack) + [b];
    DisjointPush(Tops(stack), b);
    AcrossPush(accepted, Tops(stack), b);
    forall q | t + 1 <= q < |pieces|
      ensures Clear(Tops(more), pieces[q].0)
    {
      ClearPush(Tops(stack), b, pieces[q].0);
    }
    forall k | 0 <= k < |more|
      ensures more[k].1.name in wfs && wfs[more[k].1.name] == more[k].1
      ensures Agrees(wfs, name, more[k].0, more[k].1)
    {
      if k == |stack| {
        forall p | Contains(b, p)
          ensures Ends(wfs, w.name, p, Accepted) <==> Ends(wfs, next, p, Accepted)
        {
          EndsForward(wfs, w.name, p, Accepted);
        }
      }
    }
    forall p | Contains(Full, p) && Ends(wfs, name, p, Accepted)
      ensures Somewhere(accepted, p) || Somewhere(Tops(more), p) || exists q | t + 1 <= q < |pieces| :: Contains(pieces[q].0, p)
    {
      if Somewhere(Tops(stack), p) {
        var k :| 0 <= k < |stack| && Contains(Tops(stack)[k], p);
        assert Contains(Tops(more)[k], p);
      } else if Contains(b, p) {
        assert Contains(Tops(more)[|stack|], p);
      }
    }
  }
}
