/** Day 12, "Hot Springs": rows of springs, working, damaged or unknown,
    with the lengths of the runs of damaged springs; unfolding a row five
    times; and counting the ways to choose which unknown springs are
    damaged so that the runs come out as listed. */
module HotSprings {
  import opened Wrappers
  import opened Text

  datatype Spring = Working | Damaged | Unknown

  // ---------------------------------------------------------------------
  // Springs and their characters

  function AsChar(s: Spring): char {
    match s
    case Working => '.'
    case Damaged => '#'
    case Unknown => '?'
  }

  /** `Spring::try_from`: '.', '#' and '?' and nothing else, each the
      character of the spring it gives. */
  function SpringOf(c: char): (r: Result<Spring>)
    ensures r.Ok? <==> c == '.' || c == '#' || c == '?'
    ensures r.Ok? ==> AsChar(r.value) == c
  {
    match c
    case '.' => Ok(Working)
    case '#' => Ok(Damaged)
    case '?' => Ok(Unknown)
    case _ => Err("Invalid spring")
  }

  lemma SpringRoundTrip(s: Spring)
    ensures SpringOf(AsChar(s)) == Ok(s)
  {
  }

  // ---------------------------------------------------------------------
  // Reading a row

  /** The springs of a text, one per character. */
  function SpringsOf(s: string): (r: Result<seq<Spring>>)
    ensures r.Ok? <==> forall i | 0 <= i < |s| :: SpringOf(s[i]).Ok?
    ensures r.Ok? ==> |r.value| == |s| && forall i | 0 <= i < |s| :: AsChar(r.value[i]) == s[i]
  {
    if s == [] then Ok([])
    else match SpringOf(s[0])
      case Err(e) => Err(e)
      case Ok(first) =>
        match SpringsOf(s[1..])
        case Err(e) => Err(e)
        case Ok(rest) => Ok([first] + rest)
  }

  /** The characters of some springs. */
  function Chars(springs: seq<Spring>): (s: string)
    ensures |s| == |springs| && forall i | 0 <= i < |s| :: s[i] == AsChar(springs[i])
  {
    if springs == [] then [] else [AsChar(springs[0])] + Chars(springs[1..])
  }

  lemma {:induction false} SpringsRoundTrip(springs: seq<Spring>)
    ensures SpringsOf(Chars(springs)) == Ok(springs)
  {
    if springs != [] {
      SpringsRoundTrip(springs[1..]);
      SpringRoundTrip(springs[0]);
      assert Chars(springs)[0] == AsChar(springs[0]);
      assert Chars(springs)[1..] == Chars(springs[1..]);
      assert springs == [springs[0]] + springs[1..];
    }
  }

  /** The counts: one or more runs of decimal digits separated by ','. */
  function CountsOf(s: string): (r: Result<seq<nat>>)
    ensures r.Ok? ==> |r.value| == |Split(s, ",")|
  {
    var pieces := Split(s, ",");
    if forall k | 0 <= k < |pieces| :: |pieces[k]| > 0 && AllDigits(pieces[k]) then
      Ok(seq(|pieces|, k requires 0 <= k < |pieces| => DigitsValue(pieces[k])))
    else Err("Unable to parse counts")
  }

  /** `Row::parse`: the springs, one space, then the counts. */
  function ParseRow(input: string): (r: Result<(seq<Spring>, seq<nat>)>)
    ensures r.Ok? ==> |r.value.0| >= 1 && |r.value.1| >= 1
  {
    match SplitOnce(input, " ")
    case None => Err("Unable to parse row")
    case Some((a, b)) =>
      if a == [] then Err("Unable to parse row")
      else match SpringsOf(a)
        case Err(e) => Err(e)
        case Ok(springs) =>
          match CountsOf(b)
          case Err(e) => Err(e)
          case Ok(counts) => Ok((springs, counts))
  }

  /** The text of a row. */
  function RowText(springs: seq<Spring>, counts: seq<nat>): string
    requires |counts| >= 1
  {
    Chars(springs) + " " + Join(seq(|counts|, k requires 0 <= k < |counts| => NatToString(counts[k])), ",")
  }

  lemma CharsLack(springs: seq<Spring>, c: char)
    requires c != '.' && c != '#' && c != '?'
    ensures Lacks(Chars(springs), c)
  {
  }

  lemma CountsRoundTrip(counts: seq<nat>)
    requires |counts| >= 1
    ensures CountsOf(Join(seq(|counts|, k requires 0 <= k < |counts| => NatToString(counts[k])), ",")) == Ok(counts)
  {
    var texts := seq(|counts|, k requires 0 <= k < |counts| => NatToString(counts[k]));
    forall k | 0 <= k < |texts|
      ensures Lacks(texts[k], ',')
    {
      DigitsLack(texts[k], ',');
    }
    JoinSplit(texts, ",");
    assert Split(Join(texts, ","), ",") == texts;
    forall k | 0 <= k < |counts|
      ensures DigitsValue(texts[k]) == counts[k]
    {
      NatToStringValue(counts[k]);
    }
    assert seq(|texts|, k requires 0 <= k < |texts| => DigitsValue(texts[k])) == counts;
  }

  /** Reading the text of a row gives back the row. */
  lemma ParseRowText(springs: seq<Spring>, counts: seq<nat>)
    requires |springs| >= 1 && |counts| >= 1
    ensures ParseRow(RowText(springs, counts)) == Ok((springs, counts))
  {
    var texts := seq(|counts|, k requires 0 <= k < |counts| => NatToString(counts[k]));
    CharsLack(springs, ' ');
    SplitOnceAfter(Chars(springs), " ", Join(texts, ","));
    SpringsRoundTrip(springs);
    CountsRoundTrip(counts);
  }

  // ---------------------------------------------------------------------
  // Runs of damaged springs

  /** The lengths of the non-empty runs between working springs, as
      `split(is_working).filter(non-empty)` gives them, with a run of
      `run` springs already under way. */
  function RunsFrom(row: seq<Spring>, run: nat): seq<nat> {
    if row == [] then (if run > 0 then [run] else [])
    else if row[0] == Working then (if run > 0 then [run] else []) + RunsFrom(row[1..], 0)
    else RunsFrom(row[1..], run + 1)
  }

  function Runs(row: seq<Spring>): seq<nat> {
    RunsFrom(row, 0)
  }

  /** `is_valid` as the zip reads it: at least as many runs as counts, and
      the first runs exactly the counts. Runs beyond the counts are not
      looked at. */
  predicate RunsMatch(runs: seq<nat>, counts: seq<nat>) {
    |runs| >= |counts| && runs[..|counts|] == counts
  }

  /** `is_valid`: walk the runs and the counts together, counting the
      pairs seen, and stop at the first run of the wrong length. */
  method IsValid(row: seq<Spring>, counts: seq<nat>) returns (valid: bool)
    ensures valid <==> RunsMatch(Runs(row), counts)
  {
    var blocks := Runs(row);
    var blockCount := 0;
    var blocksValid := true;
    var i := 0;
    while i < |blocks| && i < |counts|
      invariant i <= |blocks| && i <= |counts|
      invariant blockCount == i && blocks[..i] == counts[..i]
    {
      blockCount := blockCount + 1;
      if blocks[i] != counts[i] {
        blocksValid := false;
        break;
      }
      i := i + 1;
    }
    valid := blocksValid && blockCount == |counts|;
  }

  function Sum(s: seq<nat>): nat {
    if s == [] then 0 else s[0] + Sum(s[1..])
  }

  function DamagedCount(row: seq<Spring>): nat {
    if row == [] then 0 else (if row[0] == Damaged then 1 else 0) + DamagedCount(row[1..])
  }

  predicate NoUnknown(row: seq<Spring>) {
    forall i | 0 <= i < |row| :: row[i] != Unknown
  }

  /** Every run is non-empty, and with no unknown springs the runs add up
      to the damaged springs. */
  lemma {:induction false} RunsFromSum(row: seq<Spring>, run: nat)
    requires NoUnknown(row)
    ensures forall k | 0 <= k < |RunsFrom(row, run)| :: RunsFrom(row, run)[k] > 0
    ensures Sum(RunsFrom(row, run)) == run + DamagedCount(row)
  {
    if row != [] {
      if row[0] == Working {
        RunsFromSum(row[1..], 0);
        SumAppend(if run > 0 then [run] else [], RunsFrom(row[1..], 0));
      } else {
        RunsFromSum(row[1..], run + 1);
      }
    }
  }

  lemma {:induction false} SumAppend(a: seq<nat>, b: seq<nat>)
    ensures Sum(a + b) == Sum(a) + Sum(b)
  {
    if a != [] {
      assert (a + b)[0] == a[0];
      assert (a + b)[1..] == a[1..] + b;
      SumAppend(a[1..], b);
    } else {
      assert a + b == b;
    }
  }

  /** Once the springs are all known and as many are damaged as the counts
      add up to, `is_valid`'s check that only looks at the first runs is
      the exact check: there is no room for a run beyond the counts. */
  lemma ExactWhenAllCounted(row: seq<Spring>, counts: seq<nat>)
    requires NoUnknown(row) && DamagedCount(row) == Sum(counts)
    ensures RunsMatch(Runs(row), counts) <==> Runs(row) == counts
  {
    var runs := Runs(row);
    RunsFromSum(row, 0);
    if RunsMatch(runs, counts) {
      var rest := runs[|counts|..];
      assert runs == counts + rest;
      SumAppend(counts, rest);
      PositiveSum(rest);
    }
  }

  lemma PositiveSum(s: seq<nat>)
    requires forall k | 0 <= k < |s| :: s[k] > 0
    ensures Sum(s) == 0 ==> s == []
  {
  }

  // ---------------------------------------------------------------------
  // Choosing the damaged springs

  /** The row with the chosen springs damaged and every other unknown
      spring working. */
  function Fill(springs: seq<Spring>, chosen: seq<nat>): seq<Spring> {
    seq(|springs|, i requires 0 <= i < |springs| =>
      if i in chosen then Damaged else if springs[i] == Unknown then Working else springs[i])
  }

  /** `get_damaged_indices`: mark the chosen springs damaged in a copy of
      the row, then turn every unknown spring still left into a working
      one. */
  method GetDamaged(springs: seq<Spring>, indices: seq<nat>) returns (filled: seq<Spring>)
    requires forall k | 0 <= k < |indices| :: indices[k] < |springs|
    ensures filled == Fill(springs, indices)
  {
    filled := springs;
    for k := 0 to |indices|
      invariant |filled| == |springs|
      invariant forall i | 0 <= i < |springs| :: filled[i] == if i in indices[..k] then Damaged else springs[i]
    {
      filled := filled[indices[k] := Damaged];
      assert indices[..k + 1] == indices[..k] + [indices[k]];
    }
    assert indices[..|indices|] == indices;
    for i := 0 to |filled|
      invariant |filled| == |springs|
      invariant forall j | 0 <= j < i :: filled[j] == Fill(springs, indices)[j]
      invariant forall j | i <= j < |springs| :: filled[j] == if j in indices then Damaged else springs[j]
    {
      if filled[i] == Unknown {
        filled := filled[i := Working];
      }
    }
  }

  /** The positions of the unknown springs among the first `n`, in order. */
  function UnknownsUpTo(springs: seq<Spring>, n: nat): (us: seq<nat>)
    requires n <= |springs|
    ensures forall i :: i in us <==> 0 <= i < n && springs[i] == Unknown
    ensures Increasing(us)
  {
    if n == 0 then []
    else
      var prev := UnknownsUpTo(springs, n - 1);
      var us := prev + (if springs[n - 1] == Unknown then [n - 1] else []);
      assert forall i :: i in us <==> i in prev || (i == n - 1 && springs[n - 1] == Unknown);
      assert forall a | 0 <= a < |prev| :: prev[a] in prev;
      us
  }

  function Unknowns(springs: seq<Spring>): seq<nat> {
    UnknownsUpTo(springs, |springs|)
  }

  predicate Increasing(s: seq<nat>) {
    forall a, b | 0 <= a < b < |s| :: s[a] < s[b]
  }

  /** Filling a row leaves nothing unknown, and damages the springs
      already damaged and the chosen unknown ones. */
  lemma FillDamaged(springs: seq<Spring>, chosen: seq<nat>)
    requires Increasing(chosen) && forall k | 0 <= k < |chosen| :: chosen[k] < |springs| && springs[chosen[k]] == Unknown
    ensures NoUnknown(Fill(springs, chosen))
    ensures DamagedCount(Fill(springs, chosen)) == DamagedCount(springs) + |chosen|
  {
    var f := Fill(springs, chosen);
    FillKnown(springs, chosen);
    DamagedFill(springs, chosen, |springs|);
    forall c | c in chosen
      ensures c < |springs|
    {
    }
    BelowAll(chosen, |springs|);
    assert springs[..|springs|] == springs;
    assert f[..|springs|] == f;
  }

  lemma FillKnown(springs: seq<Spring>, chosen: seq<nat>)
    ensures NoUnknown(Fill(springs, chosen))
  {
  }

  /** How many of the chosen positions lie below `n`. */
  function Below(chosen: seq<nat>, n: nat): nat {
    if chosen == [] then 0 else (if chosen[0] < n then 1 else 0) + Below(chosen[1..], n)
  }

  lemma {:induction false} BelowStep(chosen: seq<nat>, n: nat)
    requires Increasing(chosen)
    ensures Below(chosen, n + 1) == Below(chosen, n) + (if n in chosen then 1 else 0)
  {
    if chosen != [] {
      forall a, b | 0 <= a < b < |chosen| - 1
        ensures chosen[1..][a] < chosen[1..][b]
      {
        assert chosen[1..][a] == chosen[a + 1] && chosen[1..][b] == chosen[b + 1];
      }
      BelowStep(chosen[1..], n);
      if n in chosen[1..] {
        assert chosen[0] != n;
      }
      assert n in chosen <==> n == chosen[0] || n in chosen[1..];
    }
  }

  lemma {:induction false} BelowAll(chosen: seq<nat>, n: nat)
    requires forall c :: c in chosen ==> c < n
    ensures Below(chosen, n) == |chosen|
  {
    if chosen != [] {
      assert forall c :: c in chosen[1..] ==> c in chosen;
      assert chosen[0] in chosen;
      BelowAll(chosen[1..], n);
    }
  }

  lemma {:induction false} DamagedFill(springs: seq<Spring>, chosen: seq<nat>, n: nat)
    requires n <= |springs|
    requires Increasing(chosen) && forall k | 0 <= k < |chosen| :: chosen[k] < |springs| && springs[chosen[k]] == Unknown
    ensures DamagedCount(Fill(springs, chosen)[..n]) == DamagedCount(springs[..n]) + Below(chosen, n)
  {
    var f := Fill(springs, chosen);
    if n == 0 {
      assert chosen == [] || chosen[0] >= 0;
      BelowZero(chosen);
    } else {
      DamagedFill(springs, chosen, n - 1);
      DamagedLast(f[..n]);
      DamagedLast(springs[..n]);
      assert f[..n][..n - 1] == f[..n - 1];
      assert springs[..n][..n - 1] == springs[..n - 1];
      BelowStep(chosen, n - 1);
      if n - 1 in chosen {
        var k :| 0 <= k < |chosen| && chosen[k] == n - 1;
        assert springs[n - 1] == Unknown;
      }
    }
  }

  lemma {:induction false} BelowZero(chosen: seq<nat>)
    ensures Below(chosen, 0) == 0
  {
    if chosen != [] {
      BelowZero(chosen[1..]);
    }
  }

  lemma {:induction false} DamagedLast(row: seq<Spring>)
    requires row != []
    ensures DamagedCount(row) == DamagedCount(row[..|row| - 1]) + (if row[|row| - 1] == Damaged then 1 else 0)
  {
    if |row| > 1 {
      DamagedLast(row[1..]);
      assert row[1..][..|row| - 2] == row[..|row| - 1][1..];
    }
  }

  /** `combinations(k)`: every choice of `k` of the positions, in order,
      the first position taken before it is left out. */
  function Combinations(us: seq<nat>, k: nat): seq<seq<nat>> {
    if k == 0 then [[]]
    else if us == [] then []
    else Prepend(us[0], Combinations(us[1..], k - 1)) + Combinations(us[1..], k)
  }

  function Prepend(x: nat, cs: seq<seq<nat>>): (r: seq<seq<nat>>)
    ensures |r| == |cs| && forall j | 0 <= j < |cs| :: r[j] == [x] + cs[j]
  {
    if cs == [] then [] else [[x] + cs[0]] + Prepend(x, cs[1..])
  }

  /** A choice of `k` positions: `k` increasing positions, each one of the
      given. */
  predicate Choice(c: seq<nat>, us: seq<nat>, k: nat) {
    |c| == k && Increasing(c) && forall j | 0 <= j < |c| :: c[j] in us
  }

  /** The combinations are exactly the choices of `k` of the positions. */
  lemma CombinationsSpec(us: seq<nat>, k: nat)
    requires Increasing(us)
    ensures forall c :: c in Combinations(us, k) <==> Choice(c, us, k)
  {
    CombinationsSound(us, k);
    CombinationsComplete(us, k);
  }

  lemma CombinationsMember(us: seq<nat>, k: nat, c: seq<nat>)
    requires Increasing(us)
    ensures c in Combinations(us, k) <==> Choice(c, us, k)
  {
    CombinationsSpec(us, k);
  }

  lemma IncreasingTail(us: seq<nat>)
    requires Increasing(us) && us != []
    ensures Increasing(us[1..])
  {
    forall a, b | 0 <= a < b < |us| - 1
      ensures us[1..][a] < us[1..][b]
    {
      assert us[1..][a] == us[a + 1] && us[1..][b] == us[b + 1];
    }
  }

  lemma {:induction false} CombinationsSound(us: seq<nat>, k: nat)
    requires Increasing(us)
    ensures forall c | c in Combinations(us, k) :: Choice(c, us, k)
    decreases |us|, k
  {
    if k > 0 && us != [] {
      var rest := us[1..];
      IncreasingTail(us);
      CombinationsSound(rest, k - 1);
      CombinationsSound(rest, k);
      var taken := Prepend(us[0], Combinations(rest, k - 1));
      assert Combinations(us, k) == taken + Combinations(rest, k);
      forall c | c in Combinations(us, k)
        ensures Choice(c, us, k)
      {
        if c in taken {
          var j :| 0 <= j < |taken| && taken[j] == c;
          assert c[1..] == Combinations(rest, k - 1)[j];
          ChoiceCons(us, k, c);
        } else {
          ChoiceWider(us, k, c);
        }
      }
    }
  }

  /** A choice starting with the first position is among those that take
      it, any other among those that leave it out. */
  lemma CompleteStep(us: seq<nat>, k: nat, c: seq<nat>)
    requires us != [] && k > 0 && |c| == k
    requires c[0] == us[0] ==> c[1..] in Combinations(us[1..], k - 1)
    requires c[0] != us[0] ==> c in Combinations(us[1..], k)
    ensures c in Combinations(us, k)
  {
    var taken := Prepend(us[0], Combinations(us[1..], k - 1));
    assert Combinations(us, k) == taken + Combinations(us[1..], k);
    if c[0] == us[0] {
      assert c == [us[0]] + c[1..];
      var j :| 0 <= j < |Combinations(us[1..], k - 1)| && Combinations(us[1..], k - 1)[j] == c[1..];
      assert taken[j] == c;
    }
  }

  lemma {:induction false} CombinationsComplete(us: seq<nat>, k: nat)
    requires Increasing(us)
    ensures forall c | Choice(c, us, k) :: c in Combinations(us, k)
    decreases |us|, k
  {
    if k > 0 && us != [] {
      var rest := us[1..];
      IncreasingTail(us);
      CombinationsComplete(rest, k - 1);
      CombinationsComplete(rest, k);
      var taken := Prepend(us[0], Combinations(rest, k - 1));
      assert Combinations(us, k) == taken + Combinations(rest, k);
      forall c | Choice(c, us, k)
        ensures c in Combinations(us, k)
      {
        ChoiceSplit(us, k, c);
        CompleteStep(us, k, c);
      }
    } else if k > 0 {
      forall c
        ensures !Choice(c, us, k)
      {
        if |c| == k {
          assert c[0] !in us;
        }
      }
    } else {
      forall c | Choice(c, us, k)
        ensures c == []
      {
      }
    }
  }

  /** A choice that starts with the first position is that position and
      a choice of one fewer among the rest. */
  lemma ChoiceCons(us: seq<nat>, k: nat, c: seq<nat>)
    requires Increasing(us) && us != [] && k > 0
    requires |c| > 0 && c[0] == us[0] && Choice(c[1..], us[1..], k - 1)
    ensures Choice(c, us, k)
  {
    forall a, b | 0 <= a < b < |c|
      ensures c[a] < c[b]
    {
      if a == 0 {
        assert c[b] == c[1..][b - 1];
        var m :| 0 <= m < |us[1..]| && us[1..][m] == c[b];
        assert us[0] < us[m + 1];
      } else {
        assert c[a] == c[1..][a - 1] && c[b] == c[1..][b - 1];
      }
    }
    forall j | 0 <= j < |c|
      ensures c[j] in us
    {
      if j > 0 {
        assert c[j] == c[1..][j - 1];
      }
    }
  }

  lemma ChoiceWider(us: seq<nat>, k: nat, c: seq<nat>)
    requires us != [] && Choice(c, us[1..], k)
    ensures Choice(c, us, k)
  {
  }

  /** A choice among all the positions either starts with the first one
      or lies among the rest. */
  lemma ChoiceSplit(us: seq<nat>, k: nat, c: seq<nat>)
    requires Increasing(us) && us != [] && k > 0 && Choice(c, us, k)
    ensures c[0] == us[0] ==> Choice(c[1..], us[1..], k - 1)
    ensures c[0] != us[0] ==> Choice(c, us[1..], k)
  {
    forall j | 0 <= j < |c| && (j > 0 || c[0] != us[0])
      ensures c[j] in us[1..]
    {
      var m :| 0 <= m < |us| && us[m] == c[j];
      if j > 0 {
        var m0 :| 0 <= m0 < |us| && us[m0] == c[0];
        assert us[0] <= c[0] < c[j];
      }
      assert m > 0;
      assert c[j] == us[1..][m - 1];
    }
    if c[0] == us[0] {
      forall j | 0 <= j < |c| - 1
        ensures c[1..][j] in us[1..]
      {
        assert c[1..][j] == c[j + 1];
      }
    }
  }

  predicate Distinct(cs: seq<seq<nat>>) {
    forall a, b | 0 <= a < b < |cs| :: cs[a] != cs[b]
  }

  /** No choice comes up twice. */
  lemma {:induction false} CombinationsDistinct(us: seq<nat>, k: nat)
    requires Increasing(us)
    ensures Distinct(Combinations(us, k))
    decreases |us|, k
  {
    if k > 0 && us != [] {
      var rest := us[1..];
      CombinationsDistinct(rest, k - 1);
      CombinationsDistinct(rest, k);
      CombinationsSpec(rest, k);
      var taken := Prepend(us[0], Combinations(rest, k - 1));
      var left := Combinations(rest, k);
      var all := taken + left;
      assert Combinations(us, k) == all;
      forall a: int, b: int | 0 <= a < b < |all|
        ensures all[a] != all[b]
      {
        if b < |taken| {
          assert taken[a][1..] == Combinations(rest, k - 1)[a];
          assert taken[b][1..] == Combinations(rest, k - 1)[b];
        } else if a < |taken| {
          var c := left[b - |taken|];
          assert c in left;
          assert c[0] in rest;
          var m :| 0 <= m < |rest| && rest[m] == c[0];
          assert us[0] < us[m + 1];
        }
      }
    }
  }

  // ---------------------------------------------------------------------
  // Counting the arrangements

  /** Whether a choice of damaged springs gives the listed runs. */
  predicate ValidChoice(springs: seq<Spring>, counts: seq<nat>, c: seq<nat>) {
    RunsMatch(Runs(Fill(springs, c)), counts)
  }

  /** How many of the given choices give the listed runs. */
  function CountValid(springs: seq<Spring>, counts: seq<nat>, cs: seq<seq<nat>>): nat {
    if cs == [] then 0
    else CountValid(springs, counts, cs[..|cs| - 1]) + (if ValidChoice(springs, counts, cs[|cs| - 1]) then 1 else 0)
  }

  /** Over distinct choices, the count is the number of valid choices. */
  lemma {:induction false} CountValidSet(springs: seq<Spring>, counts: seq<nat>, cs: seq<seq<nat>>)
    requires Distinct(cs)
    ensures CountValid(springs, counts, cs) == |set c | c in cs && ValidChoice(springs, counts, c)|
  {
    if cs != [] {
      var init, last := cs[..|cs| - 1], cs[|cs| - 1];
      CountValidSet(springs, counts, init);
      var before := set c | c in init && ValidChoice(springs, counts, c);
      var after := set c | c in cs && ValidChoice(springs, counts, c);
      assert last !in init;
      assert forall c :: c in cs <==> c in init || c == last;
      if ValidChoice(springs, counts, last) {
        assert after == before + {last};
      } else {
        assert after == before;
      }
    }
  }

  /** The ways to damage `unknown` more springs so that the runs come out
      as listed: the choices of that many unknown springs that do. */
  function Arrangements(springs: seq<Spring>, counts: seq<nat>, unknown: nat): set<seq<nat>> {
    set c | c in Combinations(Unknowns(springs), unknown) && ValidChoice(springs, counts, c)
  }

  /** An arrangement is a set of `unknown` unknown springs, listed in
      order, that damaged give the listed runs; and once filled in, each
      arrangement's runs are exactly the counts. */
  lemma ArrangementsSpec(springs: seq<Spring>, counts: seq<nat>, c: seq<nat>)
    requires DamagedCount(springs) <= Sum(counts)
    ensures c in Arrangements(springs, counts, Sum(counts) - DamagedCount(springs)) <==>
              |c| == Sum(counts) - DamagedCount(springs) && Increasing(c)
              && (forall j | 0 <= j < |c| :: c[j] < |springs| && springs[c[j]] == Unknown)
              && Runs(Fill(springs, c)) == counts
  {
    var us := Unknowns(springs);
    var k := Sum(counts) - DamagedCount(springs);
    CombinationsMember(us, k, c);
    ChoiceOfUnknowns(springs, c, k);
    if Choice(c, us, k) {
      FillDamaged(springs, c);
      ExactWhenAllCounted(Fill(springs, c), counts);
    }
  }

  /** A choice among the unknown springs is a choice of increasing
      positions of unknown springs. */
  lemma ChoiceOfUnknowns(springs: seq<Spring>, c: seq<nat>, k: nat)
    ensures Choice(c, Unknowns(springs), k) <==>
              |c| == k && Increasing(c) && forall j | 0 <= j < |c| :: c[j] < |springs| && springs[c[j]] == Unknown
  {
  }

  // ---------------------------------------------------------------------
  // A row

  class Row {
    var springs: seq<Spring>
    var counts: seq<nat>

    constructor (springs: seq<Spring>, counts: seq<nat>)
      ensures this.springs == springs && this.counts == counts
    {
      this.springs := springs;
      this.counts := counts;
    }

    /** `unfold`: five copies of the counts, and five copies of the
        springs with an unknown spring between two copies. */
    method Unfold()
      modifies this
      ensures counts == old(counts) + old(counts) + old(counts) + old(counts) + old(counts)
      ensures springs == old(springs) + [Unknown] + old(springs) + [Unknown] + old(springs)
                         + [Unknown] + old(springs) + [Unknown] + old(springs)
    {
      var countLen := |counts| * 5;
      counts := CycleTake(counts, countLen);
      springs := springs + [Unknown];
      var springLen := |springs| * 5;
      springs := CycleTake(springs, springLen);
      springs := springs[..|springs| - 1];
    }

    /** `permutations`: the number of ways to choose which unknown springs
        are damaged, as many as the counts add up to beyond the springs
        known to be damaged, so that the runs match the counts. The
        subtraction underflows, a panic, when more springs are known to be
        damaged than the counts add up to. */
    method Permutations() returns (r: Result<nat>)
      ensures r.Err? <==> DamagedCount(springs) > Sum(counts)
      ensures r.Ok? ==> r.value == |Arrangements(springs, counts, Sum(counts) - DamagedCount(springs))|
    {
      var totalDamaged := Sum(counts);
      var knownDamaged := DamagedCount(springs);
      if knownDamaged > totalDamaged {
        return Err("attempt to subtract with overflow");
      }
      var unknownDamaged := totalDamaged - knownDamaged;
      var count := CountArrangements(springs, counts, unknownDamaged);
      return Ok(count);
    }
  }

  /** The count in `permutations`, over the choices of `unknown` of the
      unknown springs. */
  method CountArrangements(springs: seq<Spring>, counts: seq<nat>, unknown: nat) returns (count: nat)
    ensures count == |Arrangements(springs, counts, unknown)|
  {
    var us := Unknowns(springs);
    var combos := Combinations(us, unknown);
    CombinationsInRange(springs, unknown);
    count := CountValidChoices(springs, counts, combos);
    CombinationsDistinct(us, unknown);
    CountValidSet(springs, counts, combos);
  }

  /** The count in `permutations`: fill the row in for each choice and
      keep the choices whose runs match. */
  method CountValidChoices(springs: seq<Spring>, counts: seq<nat>, combos: seq<seq<nat>>) returns (count: nat)
    requires forall c, j | c in combos && 0 <= j < |c| :: c[j] < |springs|
    ensures count == CountValid(springs, counts, combos)
  {
    count := 0;
    for j := 0 to |combos|
      invariant count == CountValid(springs, counts, combos[..j])
    {
      assert combos[j] in combos;
      var filled := GetDamaged(springs, combos[j]);
      var ok := IsValid(filled, counts);
      assert combos[..j + 1][..j] == combos[..j];
      if ok {
        count := count + 1;
      }
    }
    assert combos[..|combos|] == combos;
  }

  /** Every choice among the unknown springs picks springs of the row. */
  lemma CombinationsInRange(springs: seq<Spring>, k: nat)
    ensures forall c, j | c in Combinations(Unknowns(springs), k) && 0 <= j < |c| :: c[j] < |springs|
  {
    CombinationsSpec(Unknowns(springs), k);
  }

  /** `cycle().take(n)`: the first `n` elements of the endless repetition
      of `s`. */
  method CycleTake<T>(s: seq<T>, n: nat) returns (r: seq<T>)
    requires |s| > 0 || n == 0
    ensures n == 5 * |s| ==> r == s + s + s + s + s
  {
    r := [];
    var i := 0;
    ghost var copies := 0;
    while |r| < n
      invariant |r| <= n && i <= |s| && (|s| > 0 ==> i < |s|)
      invariant r == Repeat(s, copies) + s[..i] && |r| == copies * |s| + i
      decreases n - |r|
    {
      r := r + [s[i]];
      i := i + 1;
      if i == |s| {
        assert s[..i] == s;
        i := 0;
        copies := copies + 1;
      }
    }
    if n == 5 * |s| && |s| > 0 {
      CopiesExact(copies, i, |s|);
      assert s[..0] == [];
      RepeatFive(s);
    }
  }

  /** `copies` copies of `s`, one after another. */
  function Repeat<T>(s: seq<T>, copies: nat): (r: seq<T>)
    ensures |r| == copies * |s|
  {
    if copies == 0 then [] else Repeat(s, copies - 1) + s
  }

  lemma RepeatFive<T>(s: seq<T>)
    ensures Repeat(s, 5) == s + s + s + s + s
  {
    calc {
      Repeat(s, 5);
      Repeat(s, 4) + s;
      Repeat(s, 3) + s + s;
      Repeat(s, 2) + s + s + s;
      Repeat(s, 1) + s + s + s + s;
      { assert Repeat(s, 1) == [] + s; }
      s + s + s + s + s;
    }
  }

  lemma CopiesExact(copies: nat, i: nat, m: nat)
    requires i < m && copies * m + i == 5 * m
    ensures copies == 5 && i == 0
  {
  }
}
