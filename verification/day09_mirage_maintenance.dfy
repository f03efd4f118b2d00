/** Day 9, "Mirage Maintenance": a history of readings is extended one value
    forwards and one backwards by repeatedly taking differences until a row
    of zeros appears. */
module Mirage {
  import opened Wrappers
  import opened Text

  // ---------------------------------------------------------------------
  // Differences

  /** The pairwise differences of consecutive readings. */
  function Differences(h: seq<int>): (d: seq<int>)
    ensures |d| == if |h| == 0 then 0 else |h| - 1
    decreases |h|
  {
    if |h| < 2 then [] else [h[1] - h[0]] + Differences(h[1..])
  }

  /** There is one difference fewer than readings (none for no readings),
      and each is the step from one reading to the next. */
  lemma {:induction false} DifferencesAt(h: seq<int>)
    ensures forall i :: 0 <= i < |Differences(h)| ==> Differences(h)[i] == h[i + 1] - h[i]
    decreases |h|
  {
    if |h| >= 2 {
      DifferencesAt(h[1..]);
      var d := Differences(h);
      forall i | 0 <= i < |d|
        ensures d[i] == h[i + 1] - h[i]
      {
        if i > 0 {
          assert d[i] == Differences(h[1..])[i - 1];
        }
      }
    }
  }

  /** Whether every element is zero (so the empty row is). */
  predicate AllZero(s: seq<int>)
    decreases |s|
  {
    s == [] || (s[0] == 0 && AllZero(s[1..]))
  }

  lemma {:induction false} AllZeroAt(s: seq<int>)
    ensures AllZero(s) <==> forall i :: 0 <= i < |s| ==> s[i] == 0
    decreases |s|
  {
    if s != [] {
      AllZeroAt(s[1..]);
      assert forall i :: 0 < i < |s| ==> s[i] == s[1..][i - 1];
    }
  }

  /** The difference rows the extrapolation keeps: every row of differences
      up to, but not including, the first that is all zero (an empty row
      counts as all zero, so the rows kept are never empty). */
  function Rows(h: seq<int>): seq<seq<int>>
    decreases |h|
  {
    var d := Differences(h);
    if AllZero(d) then [] else [d] + Rows(d)
  }

  /** The first elements of the rows (a row with none contributes 0). */
  function Firsts(rows: seq<seq<int>>): seq<int> {
    if rows == [] then [] else [if rows[0] == [] then 0 else rows[0][0]] + Firsts(rows[1..])
  }

  /** The last elements of the rows (a row with none contributes 0). */
  function Lasts(rows: seq<seq<int>>): seq<int> {
    if rows == [] then [] else [if rows[0] == [] then 0 else rows[0][|rows[0]| - 1]] + Lasts(rows[1..])
  }

  /** `iter().sum()`. */
  function Sum(s: seq<int>): int {
    if s == [] then 0 else s[0] + Sum(s[1..])
  }

  /** The fold that adds the elements at even positions and subtracts those
      at odd positions. */
  function AltSum(s: seq<int>): int {
    AltFold(0, s, 0)
  }

  function AltFold(acc: int, s: seq<int>, i: nat): int
    decreases |s|
  {
    if s == [] then acc
    else AltFold(if i % 2 == 0 then acc + s[0] else acc - s[0], s[1..], i + 1)
  }

  /** One more round of differences puts one more first and last element on
      the stacks. */
  lemma RowsStep(h: seq<int>)
    requires !AllZero(Differences(h))
    ensures var d := Differences(h);
            Firsts(Rows(h)) == [d[0]] + Firsts(Rows(d))
            && Lasts(Rows(h)) == [d[|d| - 1]] + Lasts(Rows(d))
  {
    var d := Differences(h);
    var rows := Rows(h);
    assert rows == [d] + Rows(d);
    assert rows[1..] == Rows(d);
  }

  /** Moving one element from the front of the pending part to the end of
      the done part keeps the whole. */
  lemma ShiftOne(whole: seq<int>, done: seq<int>, x: int, pending: seq<int>, rest: seq<int>)
    requires whole == done + pending && pending == [x] + rest
    ensures whole == (done + [x]) + rest
  {
  }

  /** The value that extends the readings forwards: the last reading, plus
      the value that extends the differences unless these are all zero. */
  function Next(h: seq<int>): int
    requires |h| > 0
    decreases |h|
  {
    var d := Differences(h);
    if AllZero(d) then h[|h| - 1] else h[|h| - 1] + Next(d)
  }

  /** The value that extends the readings backwards: the first reading, minus
      the value that extends the differences backwards unless these are all
      zero. */
  function Prev(h: seq<int>): int
    requires |h| > 0
    decreases |h|
  {
    var d := Differences(h);
    if AllZero(d) then h[0] else h[0] - Prev(d)
  }

  // ---------------------------------------------------------------------
  // The extrapolation loop

  /** `extrapolate`: an empty history is refused; otherwise the loop takes
      differences until a zero row and returns the previous and next values. */
  method Extrapolate(history: seq<int>) returns (r: Result<(int, int)>)
    ensures |history| == 0 <==> r.Err?
    ensures r.Ok? ==> r.value == (Prev(history), Next(history))
  {
    if |history| == 0 {
      return Err("Empty history");
    }
    var current := history;
    var prevStack: seq<int> := [];
    var nextStack: seq<int> := [];
    while true
      invariant |current| > 0
      invariant Firsts(Rows(history)) == prevStack + Firsts(Rows(current))
      invariant Lasts(Rows(history)) == nextStack + Lasts(Rows(current))
      decreases |current|
    {
      var d := Differences(current);
      if AllZero(d) {
        break;
      }
      RowsStep(current);
      ShiftOne(Firsts(Rows(history)), prevStack, d[0], Firsts(Rows(current)), Firsts(Rows(d)));
      ShiftOne(Lasts(Rows(history)), nextStack, d[|d| - 1], Lasts(Rows(current)), Lasts(Rows(d)));
      prevStack := prevStack + [d[0]];
      nextStack := nextStack + [d[|d| - 1]];
      current := d;
    }
    assert prevStack == Firsts(Rows(history)) && nextStack == Lasts(Rows(history)) by {
      assert Rows(current) == [];
    }
    var next := history[|history| - 1] + Sum(nextStack);
    var prev := history[0] - AltSum(prevStack);
    NextFromStack(history);
    PrevFromStack(history);
    return Ok((prev, next));
  }

  // ---------------------------------------------------------------------
  // What the extrapolated values mean

  lemma {:induction false} AltFoldShift(acc: int, s: seq<int>, i: nat)
    ensures AltFold(acc, s, i) == acc + (if i % 2 == 0 then AltSum(s) else -AltSum(s))
    decreases |s|
  {
    if s != [] {
      AltFoldShift(if i % 2 == 0 then acc + s[0] else acc - s[0], s[1..], i + 1);
      AltFoldShift(s[0], s[1..], 1);
    }
  }

  /** The alternating sum of `[a] + rest` is `a` minus that of `rest`. */
  lemma AltSumCons(a: int, rest: seq<int>)
    ensures AltSum([a] + rest) == a - AltSum(rest)
  {
    assert ([a] + rest)[1..] == rest;
    AltFoldShift(a, rest, 1);
  }

  /** What the stack of last elements adds up to is the next value. */
  lemma {:induction false} NextFromStack(h: seq<int>)
    requires |h| > 0
    ensures Next(h) == h[|h| - 1] + Sum(Lasts(Rows(h)))
    decreases |h|
  {
    var d := Differences(h);
    if !AllZero(d) {
      NextFromStack(d);
      RowsStep(h);
      assert Sum([d[|d| - 1]] + Lasts(Rows(d))) == d[|d| - 1] + Sum(Lasts(Rows(d)));
    }
  }

  /** What the alternating fold of the stack of first elements gives is the
      previous value. */
  lemma {:induction false} PrevFromStack(h: seq<int>)
    requires |h| > 0
    ensures Prev(h) == h[0] - AltSum(Firsts(Rows(h)))
    decreases |h|
  {
    var d := Differences(h);
    if !AllZero(d) {
      PrevFromStack(d);
      RowsStep(h);
      AltSumCons(d[0], Firsts(Rows(d)));
    } else {
      assert Firsts(Rows(h)) == [];
    }
  }

  /** A constant history extrapolates to the same constant both ways. */
  lemma ConstantHistory(h: seq<int>, c: int)
    requires |h| > 0 && forall i :: 0 <= i < |h| ==> h[i] == c
    ensures Prev(h) == c && Next(h) == c
  {
    var d := Differences(h);
    DifferencesAt(h);
    forall i | 0 <= i < |d|
      ensures d[i] == 0
    {
      assert d[i] == h[i + 1] - h[i];
    }
    AllZeroAt(d);
    assert AllZero(d);
  }

  /** The differences of readings rising by `b` each time are all `b`. */
  lemma LinearDifferences(h: seq<int>, a: int, b: int)
    requires forall i :: 0 <= i < |h| ==> h[i] == a + b * i
    ensures forall i :: 0 <= i < |Differences(h)| ==> Differences(h)[i] == b
  {
    var d := Differences(h);
    DifferencesAt(h);
    forall i | 0 <= i < |d|
      ensures d[i] == b
    {
      assert d[i] == h[i + 1] - h[i];
      assert h[i + 1] - h[i] == b * (i + 1) - b * i;
    }
  }

  /** The first and last of readings rising by `b` each time. */
  lemma LinearEnds(h: seq<int>, a: int, b: int)
    requires |h| > 1 && forall i :: 0 <= i < |h| ==> h[i] == a + b * i
    ensures h[0] == a && h[|h| - 1] + b == a + b * |h|
  {
    var n := |h|;
    assert h[0] == a + b * 0;
    assert h[n - 1] == a + b * (n - 1);
    assert b * (n - 1) + b == b * n;
  }

  /** A history of two or more readings rising by the same step `b` each
      time continues that line both ways. */
  lemma LinearHistory(h: seq<int>, a: int, b: int)
    requires |h| > 1 && forall i :: 0 <= i < |h| ==> h[i] == a + b * i
    ensures Next(h) == a + b * |h| && Prev(h) == a - b
  {
    var d := Differences(h);
    LinearEnds(h, a, b);
    LinearDifferences(h, a, b);
    AllZeroAt(d);
    if b == 0 {
      assert AllZero(d);
    } else {
      assert d[0] != 0;
      ConstantHistory(d, b);
    }
  }

  // ---------------------------------------------------------------------
  // Reading a history

  function ParsedInts(tokens: seq<string>): (r: Result<seq<int>>)
    ensures r.Ok? ==> |r.value| == |tokens|
    ensures r.Ok? <==> forall i :: 0 <= i < |tokens| ==> ParseInt(tokens[i]).Some?
  {
    if tokens == [] then Ok([])
    else match ParseInt(tokens[0])
      case None => Err("invalid integer")
      case Some(x) =>
        assert forall j :: 0 <= j < |tokens| - 1 ==> tokens[1..][j] == tokens[j + 1];
        match ParsedInts(tokens[1..])
        case Err(e) => Err(e)
        case Ok(rest) => Ok([x] + rest)
  }

  /** `parse_history`: integers separated by single spaces; an empty line is
      the empty history, and a line with a piece that is not an integer is an
      error. */
  function ParseHistory(line: string): (r: Result<seq<int>>)
    ensures line == "" ==> r == Ok([])
    ensures line != "" && (exists i :: 0 <= i < |Split(line, " ")| && ParseInt(Split(line, " ")[i]).None?) ==> r.Err?
  {
    if line == "" then Ok([]) else ParsedInts(Split(line, " "))
  }

  /** A reading written in decimal, with a '-' when negative. */
  function IntText(x: int): (s: string)
    ensures |s| > 0 && Lacks(s, ' ')
  {
    DigitsLack(NatToString(if x < 0 then -x else x), ' ');
    if x < 0 then "-" + NatToString(-x) else NatToString(x)
  }

  lemma IntTextRoundTrip(x: int)
    ensures ParseInt(IntText(x)) == Some(x)
  {
    if x < 0 {
      var digits := NatToString(-x);
      NatToStringValue(-x);
      var s := "-" + digits;
      assert s[0] == '-' && s[1..] == digits;
      assert ParseInt(s) == Some(-(DigitsValue(digits) as int));
    } else {
      ParseNatRoundTrip(x);
    }
  }

  /** The readings written one by one. */
  function Texts(xs: seq<int>): (ts: seq<string>)
    ensures |ts| == |xs|
  {
    if xs == [] then [] else [IntText(xs[0])] + Texts(xs[1..])
  }

  lemma {:induction false} TextsLackSpace(xs: seq<int>)
    ensures forall k :: 0 <= k < |xs| ==> Lacks(Texts(xs)[k], ' ')
    decreases |xs|
  {
    if xs != [] {
      TextsLackSpace(xs[1..]);
      assert forall k :: 0 < k < |xs| ==> Texts(xs)[k] == Texts(xs[1..])[k - 1];
    }
  }

  /** A history written as its readings separated by single spaces. */
  function HistoryText(xs: seq<int>): string
    requires |xs| > 0
  {
    Join(Texts(xs), " ")
  }

  lemma {:induction false} ParsedIntsText(xs: seq<int>)
    ensures ParsedInts(Texts(xs)) == Ok(xs)
    decreases |xs|
  {
    if xs != [] {
      var tokens := Texts(xs);
      IntTextRoundTrip(xs[0]);
      ParsedIntsText(xs[1..]);
      assert tokens[1..] == Texts(xs[1..]);
      assert xs == [xs[0]] + xs[1..];
    }
  }

  /** Reading a written non-empty history gives it back. */
  lemma ParseHistoryText(xs: seq<int>)
    requires |xs| > 0
    ensures ParseHistory(HistoryText(xs)) == Ok(xs)
  {
    var tokens := Texts(xs);
    TextsLackSpace(xs);
    JoinSplit(tokens, " ");
    assert |HistoryText(xs)| >= |tokens[0]| > 0;
    ParsedIntsText(xs);
  }
}
