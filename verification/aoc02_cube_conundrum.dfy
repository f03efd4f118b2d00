/** Day 2, "Cube Conundrum": each game reveals several draws of red, green
    and blue cubes from a bag. Counts are added, subtracted and folded
    colour by colour; a draw is possible for the bag of 12 red, 13 green and
    14 blue cubes; the smallest bag for a game is the colour-wise maximum. */
module CubeConundrum {
  import opened Wrappers
  import opened Text

  /** Cube counts per colour. The source uses `i32`; overflow is not
      modelled. */
  datatype Counts = Counts(green: int, red: int, blue: int)

  const Zero := Counts(0, 0, 0)

  /** The bag of the puzzle: 13 green, 12 red, 14 blue. */
  const MaxCounts := Counts(13, 12, 14)

  /** Colour-wise comparison. */
  predicate AtMost(a: Counts, b: Counts) {
    a.green <= b.green && a.red <= b.red && a.blue <= b.blue
  }

  predicate NonNegative(a: Counts) {
    AtMost(Zero, a)
  }

  function Add(a: Counts, b: Counts): (r: Counts)
    ensures Total(r) == Total(a) + Total(b)
  {
    Counts(a.green + b.green, a.red + b.red, a.blue + b.blue)
  }

  function Sub(a: Counts, b: Counts): (r: Counts)
    ensures Total(r) == Total(a) - Total(b)
  {
    Counts(a.green - b.green, a.red - b.red, a.blue - b.blue)
  }

  /** Subtraction undoes addition and the other way round. */
  lemma AddSubInverse(a: Counts, b: Counts)
    ensures Sub(Add(a, b), b) == a && Add(Sub(a, b), b) == a
  {
  }

  lemma AddCommutesAssociates(a: Counts, b: Counts, c: Counts)
    ensures Add(a, b) == Add(b, a)
    ensures Add(Add(a, b), c) == Add(a, Add(b, c))
    ensures Add(a, Zero) == a
  {
  }

  function Total(a: Counts): int {
    a.red + a.green + a.blue
  }

  /** `Sum` folds `+` from the all-zero default, left to right. */
  function SumCounts(xs: seq<Counts>): Counts
    decreases |xs|
  {
    if xs == [] then Zero else Add(SumCounts(xs[..|xs| - 1]), xs[|xs| - 1])
  }

  /** Summing two runs of counts is adding their sums. */
  lemma {:induction false} SumCountsAppend(xs: seq<Counts>, ys: seq<Counts>)
    ensures SumCounts(xs + ys) == Add(SumCounts(xs), SumCounts(ys))
    decreases |ys|
  {
    if ys == [] {
      assert xs + ys == xs;
    } else {
      var init := ys[..|ys| - 1];
      assert (xs + ys)[..|xs + ys| - 1] == xs + init;
      SumCountsAppend(xs, init);
    }
  }

  /** The total of a sum is the sum of the totals. */
  lemma {:induction false} SumCountsTotal(xs: seq<Counts>)
    ensures Total(SumCounts(xs)) == TotalOfAll(xs)
    decreases |xs|
  {
    if xs != [] {
      SumCountsTotal(xs[..|xs| - 1]);
    }
  }

  function TotalOfAll(xs: seq<Counts>): int
    decreases |xs|
  {
    if xs == [] then 0 else TotalOfAll(xs[..|xs| - 1]) + Total(xs[|xs| - 1])
  }

  /** Colour-wise maximum: at least both arguments, and in every colour equal
      to one of them. */
  function Max(a: Counts, b: Counts): (r: Counts)
    ensures AtMost(a, r) && AtMost(b, r)
    ensures r.green in {a.green, b.green} && r.red in {a.red, b.red} && r.blue in {a.blue, b.blue}
  {
    Counts(if a.green >= b.green then a.green else b.green,
           if a.red >= b.red then a.red else b.red,
           if a.blue >= b.blue then a.blue else b.blue)
  }

  lemma MaxCommutes(a: Counts, b: Counts)
    ensures Max(a, b) == Max(b, a)
  {
  }

  /** `Max` is the least upper bound of its arguments. */
  lemma MaxLeast(a: Counts, b: Counts, c: Counts)
    requires AtMost(a, c) && AtMost(b, c)
    ensures AtMost(Max(a, b), c)
  {
  }

  function Power(a: Counts): int {
    a.red * a.blue * a.green
  }

  /** A larger bag of non-negative counts never has a smaller power. */
  lemma PowerMonotone(a: Counts, b: Counts)
    requires NonNegative(a) && AtMost(a, b)
    ensures Power(a) <= Power(b)
  {
    assert a.red * a.blue <= b.red * a.blue;
    assert b.red * a.blue <= b.red * b.blue;
    assert a.red * a.blue * a.green <= b.red * b.blue * a.green;
    assert b.red * b.blue * a.green <= b.red * b.blue * b.green;
  }

  /** A draw is possible when no colour exceeds the bag and the difference to
      the bag does not total more than the bag itself. */
  function IsValid(counts: Counts): (r: bool)
    ensures r <==> AtMost(counts, MaxCounts) && Total(counts) >= 0
  {
    var diff := Sub(MaxCounts, counts);
    if diff.red < 0 || diff.blue < 0 || diff.green < 0 then false
    else if Total(diff) > Total(MaxCounts) then false
    else true
  }

  /** For the non-negative counts of real draws, the total check never
      fires: a draw is possible exactly when every colour is within the bag. */
  lemma IsValidNonNegative(counts: Counts)
    requires NonNegative(counts)
    ensures IsValid(counts) <==> counts.red <= 12 && counts.green <= 13 && counts.blue <= 14
  {
  }

  /** The smallest bag for a game: `Max` folded over the draws from the
      all-zero default. */
  function MinBag(draws: seq<Counts>): (r: Counts)
    ensures NonNegative(r)
    ensures forall i :: 0 <= i < |draws| ==> AtMost(draws[i], r)
    decreases |draws|
  {
    if draws == [] then Zero else Max(MinBag(draws[..|draws| - 1]), draws[|draws| - 1])
  }

  /** No smaller non-negative bag holds every draw. */
  lemma {:induction false} MinBagLeast(draws: seq<Counts>, bag: Counts)
    requires NonNegative(bag)
    requires forall i :: 0 <= i < |draws| ==> AtMost(draws[i], bag)
    ensures AtMost(MinBag(draws), bag)
    decreases |draws|
  {
    if draws != [] {
      MinBagLeast(draws[..|draws| - 1], bag);
    }
  }

  /** A game counts towards the first answer when all its draws are
      possible. */
  predicate GamePossible(draws: seq<Counts>) {
    forall i :: 0 <= i < |draws| ==> IsValid(draws[i])
  }

  /** For non-negative draws, a game is possible exactly when its smallest
      bag fits in the puzzle's bag. */
  lemma GamePossibleMinBag(draws: seq<Counts>)
    requires forall i :: 0 <= i < |draws| ==> NonNegative(draws[i])
    ensures GamePossible(draws) <==> AtMost(MinBag(draws), MaxCounts)
  {
    if GamePossible(draws) {
      MinBagLeast(draws, MaxCounts);
    }
  }

  // ---------------------------------------------------------------------
  // Parsing "Game 4: 1 green, 3 red, 6 blue; 3 green, 6 red"

  /** "Game N" gives the game number N; anything else gives `None`. */
  function ParseGame(game: string): Option<nat> {
    match SplitOnce(game, " ")
    case None => None
    case Some((word, number)) =>
      if word != "Game" then None else ParseNat(number)
  }

  /** "N colour": N cubes of that colour; an unknown colour adds nothing. */
  function ParsePull(pull: string): Option<Counts> {
    match SplitOnce(pull, " ")
    case None => None
    case Some((number, color)) =>
      match ParseInt(number)
      case None => None
      case Some(n) => Some(ColorCounts(n, color))
  }

  function ColorCounts(n: int, color: string): Counts {
    if color == "red" then Counts(0, n, 0)
    else if color == "blue" then Counts(0, 0, n)
    else if color == "green" then Counts(n, 0, 0)
    else Zero
  }

  /** The pulls that parse, in order (`filter_map`). */
  function ParsedPulls(pulls: seq<string>): seq<Counts>
    decreases |pulls|
  {
    if pulls == [] then []
    else match ParsePull(pulls[0])
      case Some(c) => [c] + ParsedPulls(pulls[1..])
      case None => ParsedPulls(pulls[1..])
  }

  /** One draw: its pulls, split on ", ", summed. */
  function ParseDraw(draw: string): Counts {
    SumCounts(ParsedPulls(Split(draw, ", ")))
  }

  function ParseDraws(draws: seq<string>): (r: seq<Counts>)
    ensures |r| == |draws| && forall i :: 0 <= i < |draws| ==> r[i] == ParseDraw(draws[i])
  {
    seq(|draws|, i requires 0 <= i < |draws| => ParseDraw(draws[i]))
  }

  /** A whole line: "Game N: " followed by draws separated by "; ". */
  function ParseLine(line: string): Option<(nat, seq<Counts>)> {
    match SplitOnce(line, ": ")
    case None => None
    case Some((game, pulls)) =>
      match ParseGame(game)
      case None => None
      case Some(n) => Some((n, ParseDraws(Split(pulls, "; "))))
  }

  // ---------------------------------------------------------------------
  // Parsing round trip

  /** A pull as written in the puzzle input. The colour may be any text
      without ',' or ';'. */
  datatype Pull = Pull(count: nat, color: string)

  predicate WellFormed(p: Pull) {
    Lacks(p.color, ',') && Lacks(p.color, ';')
  }

  function PullText(p: Pull): string {
    NatToString(p.count) + " " + p.color
  }

  function PullTexts(ps: seq<Pull>): (r: seq<string>)
    ensures |r| == |ps| && forall i :: 0 <= i < |ps| ==> r[i] == PullText(ps[i])
  {
    seq(|ps|, i requires 0 <= i < |ps| => PullText(ps[i]))
  }

  function DrawText(ps: seq<Pull>): string
    requires |ps| >= 1
  {
    Join(PullTexts(ps), ", ")
  }

  function DrawTexts(draws: seq<seq<Pull>>): (r: seq<string>)
    requires forall i :: 0 <= i < |draws| ==> |draws[i]| >= 1
    ensures |r| == |draws| && forall i :: 0 <= i < |draws| ==> r[i] == DrawText(draws[i])
  {
    seq(|draws|, i requires 0 <= i < |draws| => DrawText(draws[i]))
  }

  function LineText(game: nat, draws: seq<seq<Pull>>): string
    requires |draws| >= 1 && forall i :: 0 <= i < |draws| ==> |draws[i]| >= 1
  {
    "Game " + NatToString(game) + ": " + Join(DrawTexts(draws), "; ")
  }

  function PullCounts(ps: seq<Pull>): (r: seq<Counts>)
    ensures |r| == |ps| && forall i :: 0 <= i < |ps| ==> r[i] == ColorCounts(ps[i].count, ps[i].color)
  {
    seq(|ps|, i requires 0 <= i < |ps| => ColorCounts(ps[i].count, ps[i].color))
  }

  lemma ParsePullText(p: Pull)
    ensures ParsePull(PullText(p)) == Some(ColorCounts(p.count, p.color))
  {
    var digits := NatToString(p.count);
    DigitsLack(digits, ' ');
    SplitOnceAfter(digits, " ", p.color);
    ParseNatRoundTrip(p.count);
  }

  lemma {:induction false} ParsedPullTexts(ps: seq<Pull>)
    ensures ParsedPulls(PullTexts(ps)) == PullCounts(ps)
    decreases |ps|
  {
    if ps != [] {
      ParsePullText(ps[0]);
      ParsedPullTexts(ps[1..]);
      assert PullTexts(ps)[1..] == PullTexts(ps[1..]);
      assert PullCounts(ps) == [PullCounts(ps)[0]] + PullCounts(ps[1..]);
    }
  }

  lemma PullTextLacks(p: Pull, c: char)
    requires c == ',' || c == ';'
    requires WellFormed(p)
    ensures Lacks(PullText(p), c)
  {
    DigitsLack(NatToString(p.count), c);
  }

  lemma ParseDrawText(ps: seq<Pull>)
    requires |ps| >= 1 && forall i :: 0 <= i < |ps| ==> WellFormed(ps[i])
    ensures ParseDraw(DrawText(ps)) == SumCounts(PullCounts(ps))
  {
    forall k | 0 <= k < |ps|
      ensures Lacks(PullTexts(ps)[k], ',')
    {
      PullTextLacks(ps[k], ',');
    }
    JoinSplit(PullTexts(ps), ", ");
    ParsedPullTexts(ps);
  }

  lemma DrawTextsLack(draws: seq<seq<Pull>>)
    requires forall i :: 0 <= i < |draws| ==> |draws[i]| >= 1
    requires forall i, j :: 0 <= i < |draws| && 0 <= j < |draws[i]| ==> WellFormed(draws[i][j])
    ensures forall k :: 0 <= k < |draws| ==> Lacks(DrawTexts(draws)[k], ';')
  {
    forall k | 0 <= k < |draws|
      ensures Lacks(DrawTexts(draws)[k], ';')
    {
      forall j | 0 <= j < |draws[k]|
        ensures Lacks(PullTexts(draws[k])[j], ';')
      {
        PullTextLacks(draws[k][j], ';');
      }
      JoinLacks(PullTexts(draws[k]), ", ", ';');
    }
  }

  lemma SplitHeader(game: nat, rest: string)
    ensures SplitOnce("Game " + NatToString(game) + ": " + rest, ": ") == Some(("Game " + NatToString(game), rest))
  {
    var digits := NatToString(game);
    DigitsLack(digits, ':');
    assert Lacks("Game " + digits, ':');
    SplitOnceAfter("Game " + digits, ": ", rest);
  }

  lemma ParseGameText(game: nat)
    ensures ParseGame("Game " + NatToString(game)) == Some(game)
  {
    var digits := NatToString(game);
    DigitsLack(digits, ' ');
    assert "Game " + digits == "Game" + " " + digits;
    SplitOnceAfter("Game", " ", digits);
    ParseNatRoundTrip(game);
  }

  /** Writing a game out as the puzzle input does and parsing it back gives
      the game number and, per draw, the sum of its pulls. */
  lemma ParseLineText(game: nat, draws: seq<seq<Pull>>)
    requires |draws| >= 1 && forall i :: 0 <= i < |draws| ==> |draws[i]| >= 1
    requires forall i, j :: 0 <= i < |draws| && 0 <= j < |draws[i]| ==> WellFormed(draws[i][j])
    ensures ParseLine(LineText(game, draws))
         == Some((game, seq(|draws|, i requires 0 <= i < |draws| => SumCounts(PullCounts(draws[i])))))
  {
    var texts := DrawTexts(draws);
    var header, body := "Game " + NatToString(game), Join(texts, "; ");
    DrawTextsLack(draws);
    JoinSplit(texts, "; ");
    SplitHeader(game, body);
    ParseGameText(game);
    var expected := seq(|draws|, i requires 0 <= i < |draws| => SumCounts(PullCounts(draws[i])));
    assert ParseDraws(texts) == expected by {
      forall k | 0 <= k < |draws|
        ensures ParseDraws(texts)[k] == expected[k]
      {
        ParseDrawText(draws[k]);
      }
    }
    calc {
      ParseLine(LineText(game, draws));
      ParseLine(header + ": " + body);
      Some((game, ParseDraws(Split(body, "; "))));
      Some((game, expected));
    }
  }

  /** A header other than "Game N" is rejected. */
  lemma ParseGameRejects(game: string)
    requires !StartsWith(game, "Game ")
    ensures ParseGame(game) == None
  {
    match SplitOnce(game, " ")
    case None =>
    case Some((word, number)) =>
  }
}
