/** Day 4, "Scratchcards": each card lists winning numbers and the numbers
    picked; matches score points, and in the second part win copies of the
    following cards. */
module Scratchcards {
  import opened Wrappers
  import opened Text

  datatype Card = Card(number: nat, winning: set<nat>, picked: seq<nat>)

  // ---------------------------------------------------------------------
  // Matches and points

  /** How many of the picked numbers, counted with repetition, win. */
  function CountMatches(card: Card): (m: nat)
    ensures m <= |card.picked|
    decreases |card.picked|
  {
    if card.picked == [] then 0
    else
      var last := card.picked[|card.picked| - 1];
      CountMatches(card.(picked := card.picked[..|card.picked| - 1])) + (if last in card.winning then 1 else 0)
  }

  /** The positions of the picked numbers that win. */
  ghost function MatchIndices(card: Card): set<nat> {
    set i: nat | i < |card.picked| && card.picked[i] in card.winning
  }

  /** The matches are exactly the winning positions among the picks. */
  lemma {:induction false} CountMatchesIndices(card: Card)
    ensures CountMatches(card) == |MatchIndices(card)|
    decreases |card.picked|
  {
    if card.picked != [] {
      var n := |card.picked| - 1;
      var init := card.(picked := card.picked[..n]);
      CountMatchesIndices(init);
      if card.picked[n] in card.winning {
        assert MatchIndices(card) == MatchIndices(init) + {n};
      } else {
        assert MatchIndices(card) == MatchIndices(init);
      }
    }
  }

  function Pow2(k: nat): (r: nat)
    ensures r >= 1
  {
    if k == 0 then 1 else 2 * Pow2(k - 1)
  }

  /** No points without a match; otherwise one point doubled for every
      match after the first. */
  function Points(card: Card): (p: nat)
    ensures p == 0 <==> CountMatches(card) == 0
    ensures CountMatches(card) > 0 ==> p == Pow2(CountMatches(card) - 1)
  {
    var m := CountMatches(card);
    if m == 0 then 0 else Pow2(m - 1)
  }

  /** Picking one more winning number doubles a scoring card's points and
      gives a non-scoring card one point; a losing number changes nothing. */
  lemma PointsExtraPick(card: Card, x: nat)
    ensures var more := card.(picked := card.picked + [x]);
            if x !in card.winning then Points(more) == Points(card)
            else if Points(card) == 0 then Points(more) == 1
            else Points(more) == 2 * Points(card)
  {
    var more := card.(picked := card.picked + [x]);
    assert more.picked[..|more.picked| - 1] == card.picked;
    assert more.(picked := more.picked[..|more.picked| - 1]) == card;
  }

  // ---------------------------------------------------------------------
  // The tally of won copies

  function Get(m: map<nat, nat>, k: nat): nat {
    if k in m then m[k] else 0
  }

  /** Adds `amount` to the counts of cards `first..first + count`. */
  function AddCopies(c: map<nat, nat>, first: nat, count: nat, amount: nat): map<nat, nat> {
    if count == 0 then c
    else
      var r := AddCopies(c, first, count - 1, amount);
      r[first + count - 1 := Get(r, first + count - 1) + amount]
  }

  lemma {:induction false} AddCopiesEffect(c: map<nat, nat>, first: nat, count: nat, amount: nat)
    ensures var r := AddCopies(c, first, count, amount);
            (forall k: nat :: first <= k < first + count ==> Get(r, k) == Get(c, k) + amount)
            && (forall k: nat :: !(first <= k < first + count) ==> Get(r, k) == Get(c, k))
  {
    if count > 0 {
      AddCopiesEffect(c, first, count - 1, amount);
    }
  }

  /** What one card does to the counts: one more of itself, and as many
      copies as it now has of each of the next `matches` cards. */
  function Collect(c: map<nat, nat>, card: Card): map<nat, nat> {
    var numCollected := Get(c, card.number) + 1;
    AddCopies(c[card.number := numCollected], card.number + 1, CountMatches(card), numCollected)
  }

  /** A card adds one to its own count and, to each of the next `matches`
      cards, its count after that; no other count changes. */
  lemma CollectEffect(c: map<nat, nat>, card: Card)
    ensures var r := Collect(c, card);
            Get(r, card.number) == Get(c, card.number) + 1
            && (forall k: nat :: card.number < k <= card.number + CountMatches(card) ==>
                  Get(r, k) == Get(c, k) + Get(c, card.number) + 1)
            && (forall k: nat :: k != card.number && !(card.number < k <= card.number + CountMatches(card)) ==>
                  Get(r, k) == Get(c, k))
  {
    var n := Get(c, card.number) + 1;
    var own := c[card.number := n];
    var m := CountMatches(card);
    var r := AddCopies(own, card.number + 1, m, n);
    assert r == Collect(c, card);
    AddCopiesEffect(own, card.number + 1, m, n);
    assert Get(r, card.number) == Get(own, card.number);
    forall k: nat | card.number < k <= card.number + m
      ensures Get(r, k) == Get(c, k) + n
    {
      assert Get(own, k) == Get(c, k);
    }
    forall k: nat | k != card.number && !(card.number < k <= card.number + m)
      ensures Get(r, k) == Get(c, k)
    {
      assert Get(own, k) == Get(c, k);
    }
  }

  /** The counts after the given cards, in order. */
  function Collected(cards: seq<Card>): map<nat, nat> {
    if cards == [] then map[] else Collect(Collected(cards[..|cards| - 1]), cards[|cards| - 1])
  }

  /** The sum of the counts. */
  ghost function MapSum(m: map<nat, nat>): nat
    decreases |m.Keys|
  {
    if m == map[] then 0
    else
      var k :| k in m;
      m[k] + MapSum(m - {k})
  }

  /** The sum does not depend on which key is taken first. */
  lemma {:induction false} MapSumRemove(m: map<nat, nat>, k: nat)
    requires k in m
    ensures MapSum(m) == m[k] + MapSum(m - {k})
    decreases |m.Keys|
  {
    var j :| j in m && MapSum(m) == m[j] + MapSum(m - {j});
    if j != k {
      MapSumRemove(m - {j}, k);
      MapSumRemove(m - {k}, j);
      assert m - {j} - {k} == m - {k} - {j};
    }
  }

  /** Raising one count raises the sum by as much. */
  lemma MapSumAdd(m: map<nat, nat>, k: nat, d: nat)
    ensures MapSum(m[k := Get(m, k) + d]) == MapSum(m) + d
  {
    var m' := m[k := Get(m, k) + d];
    MapSumRemove(m', k);
    assert m' - {k} == m - {k};
    if k in m {
      MapSumRemove(m, k);
    } else {
      assert m - {k} == m;
    }
  }

  lemma {:induction false} AddCopiesSum(c: map<nat, nat>, first: nat, count: nat, amount: nat)
    ensures MapSum(AddCopies(c, first, count, amount)) == MapSum(c) + count * amount
  {
    if count > 0 {
      var r := AddCopies(c, first, count - 1, amount);
      var k := first + count - 1;
      AddCopiesSum(c, first, count - 1, amount);
      MapSumAdd(r, k, amount);
      calc {
        MapSum(AddCopies(c, first, count, amount));
        MapSum(r[k := Get(r, k) + amount]);
        MapSum(r) + amount;
        MapSum(c) + (count - 1) * amount + amount;
        { assert (count - 1) * amount + amount == count * amount; }
        MapSum(c) + count * amount;
      }
    }
  }

  /** Each card adds one count for itself and its current count for each
      card it wins. */
  lemma CollectSum(c: map<nat, nat>, card: Card)
    ensures var n := Get(c, card.number) + 1;
            MapSum(Collect(c, card)) == MapSum(c) + 1 + CountMatches(card) * n
  {
    var n := Get(c, card.number) + 1;
    var own := c[card.number := n];
    var m := CountMatches(card);
    calc {
      MapSum(Collect(c, card));
      MapSum(AddCopies(own, card.number + 1, m, n));
      { AddCopiesSum(own, card.number + 1, m, n); }
      MapSum(own) + m * n;
      { MapSumAdd(c, card.number, 1); }
      MapSum(c) + 1 + m * n;
    }
  }

  lemma CollectGrows(c: map<nat, nat>, card: Card)
    ensures MapSum(Collect(c, card)) > MapSum(c)
  {
    CollectSum(c, card);
    var n := Get(c, card.number) + 1;
    assert CountMatches(card) * n >= 0;
  }

  /** Counts only grow, and every card is counted at least once: the tally is
      at least the number of cards. */
  lemma {:induction false} TallyAtLeastCards(cards: seq<Card>)
    ensures MapSum(Collected(cards)) >= |cards|
  {
    if cards != [] {
      TallyAtLeastCards(cards[..|cards| - 1]);
      CollectGrows(Collected(cards[..|cards| - 1]), cards[|cards| - 1]);
    }
  }

  /** `collected.values().sum()`. */
  method SumValues(collected: map<nat, nat>) returns (total: nat)
    ensures total == MapSum(collected)
  {
    total := 0;
    var keys := collected.Keys;
    assert Restrict(collected, keys) == collected;
    while keys != {}
      invariant keys <= collected.Keys
      invariant total + MapSum(Restrict(collected, keys)) == MapSum(collected)
      decreases |keys|
    {
      var k :| k in keys;
      MapSumRemove(Restrict(collected, keys), k);
      assert Restrict(collected, keys) - {k} == Restrict(collected, keys - {k});
      total := total + collected[k];
      keys := keys - {k};
    }
    assert Restrict(collected, keys) == map[];
  }

  function Restrict(m: map<nat, nat>, keys: set<nat>): (r: map<nat, nat>)
    requires keys <= m.Keys
    ensures r.Keys == keys && forall k :: k in keys ==> r[k] == m[k]
  {
    map k | k in keys :: m[k]
  }

  /** `tally`: plays out the cards in order and sums the counts. */
  method Tally(cards: seq<Card>) returns (total: nat)
    ensures total == MapSum(Collected(cards))
  {
    var collected: map<nat, nat> := map[];
    for i := 0 to |cards|
      invariant collected == Collected(cards[..i])
    {
      var card := cards[i];
      assert cards[..i + 1][..i] == cards[..i];
      var numCollected := Get(collected, card.number) + 1;
      collected := collected[card.number := numCollected];
      ghost var own := collected;
      var matches := CountMatches(card);
      if matches > 0 {
        for j := 0 to matches
          invariant collected == AddCopies(own, card.number + 1, j, numCollected)
        {
          var cardNum := j + 1 + card.number;
          collected := collected[cardNum := Get(collected, cardNum) + numCollected];
        }
      }
    }
    assert cards[..|cards|] == cards;
    total := SumValues(collected);
  }

  // ---------------------------------------------------------------------
  // Parsing

  /** The numbers among space-separated tokens: empty tokens are skipped, and
      the first token that is not a number is an error. */
  function ParsedNumbers(tokens: seq<string>): Result<seq<nat>> {
    if tokens == [] then Ok([])
    else
      var init := ParsedNumbers(tokens[..|tokens| - 1]);
      var token := tokens[|tokens| - 1];
      if init.Err? || token == "" then init
      else match ParseNat(token)
        case None => Err("invalid digit found in string")
        case Some(n) => Ok(init.value + [n])
  }

  /** `parse_numbers`. */
  method ParseNumbers(line: string) returns (r: Result<seq<nat>>)
    ensures r == ParsedNumbers(Split(line, " "))
  {
    var tokens := Split(line, " ");
    var numbers: seq<nat> := [];
    for i := 0 to |tokens|
      invariant ParsedNumbers(tokens[..i]) == Ok(numbers)
    {
      assert tokens[..i + 1][..i] == tokens[..i];
      var number := tokens[i];
      if number != "" {
        var n := ParseNat(number);
        if n.None? {
          assert tokens[..i + 1][i] == number;
          ParsedNumbersErr(tokens, i + 1);
          return Err("invalid digit found in string");
        }
        numbers := numbers + [n.value];
      }
    }
    assert tokens[..|tokens|] == tokens;
    r := Ok(numbers);
  }

  /** Once a token fails, the whole list fails. */
  lemma {:induction false} ParsedNumbersErr(tokens: seq<string>, i: nat)
    requires i <= |tokens| && ParsedNumbers(tokens[..i]).Err?
    ensures ParsedNumbers(tokens) == ParsedNumbers(tokens[..i])
    decreases |tokens| - i
  {
    if i < |tokens| {
      assert tokens[..i + 1][..i] == tokens[..i];
      ParsedNumbersErr(tokens, i + 1);
    } else {
      assert tokens[..i] == tokens;
    }
  }

  function NonEmpty(tokens: seq<string>): (r: seq<string>)
    ensures forall k :: 0 <= k < |r| ==> r[k] != ""
  {
    if tokens == [] then []
    else NonEmpty(tokens[..|tokens| - 1]) + (if tokens[|tokens| - 1] == "" then [] else [tokens[|tokens| - 1]])
  }

  /** Empty tokens, from runs of spaces, make no difference. */
  lemma {:induction false} ParsedNumbersSkipsEmpty(tokens: seq<string>)
    ensures ParsedNumbers(tokens) == ParsedNumbers(NonEmpty(tokens))
  {
    if tokens != [] {
      var init := tokens[..|tokens| - 1];
      ParsedNumbersSkipsEmpty(init);
      var token := tokens[|tokens| - 1];
      var ne := NonEmpty(tokens);
      if token != "" {
        assert ne == NonEmpty(init) + [token];
        assert ne[..|ne| - 1] == NonEmpty(init);
      } else {
        assert ne == NonEmpty(init) + [];
        assert ne == NonEmpty(init);
      }
    }
  }

  /** The header "Card N": the word "Card", a space, then the number, which
      may be padded with whitespace. */
  function ParseHeader(header: string): (r: Result<nat>)
    ensures r.Ok? ==> exists number :: SplitOnce(header, " ") == Some(("Card", number))
  {
    match SplitOnce(header, " ")
    case None => Err("unable to split 'Card' and card number")
    case Some((card, cardNumber)) =>
      if card != "Card" then Err("header is not 'Card'")
      else match ParseNat(Trim(cardNumber))
        case None => Err("invalid card number")
        case Some(number) => Ok(number)
  }

  /** The body "winning | picked": exactly two non-empty lists around " | ". */
  function ParseBody(body: string): (r: Result<(seq<nat>, seq<nat>)>)
    ensures r.Ok? ==> |NonEmpty(Split(body, " | "))| == 2
  {
    var numberLines := NonEmpty(Split(body, " | "));
    if |numberLines| != 2 then Err("unable to parse number lines")
    else
      var winning := ParsedNumbers(Split(numberLines[0], " "));
      if winning.Err? then Err(winning.error)
      else
        var picked := ParsedNumbers(Split(numberLines[1], " "));
        if picked.Err? then Err(picked.error)
        else Ok((winning.value, picked.value))
  }

  /** `Card::parse`: "Card N: winning | picked"; the winning numbers are kept
      as a set, the picks in order. */
  function ParseCard(input: string): (r: Result<Card>)
    ensures r.Ok? <==> (exists header, body ::
                          SplitOnce(input, ": ") == Some((header, body)) && ParseHeader(header).Ok? && ParseBody(body).Ok?)
  {
    match SplitOnce(input, ": ")
    case None => Err("unable to split header and body")
    case Some((header, body)) =>
      match ParseHeader(header)
      case Err(e) => Err(e)
      case Ok(number) =>
        match ParseBody(body)
        case Err(e) => Err(e)
        case Ok((winning, picked)) => Ok(Card(number, (set n | n in winning), picked))
  }

  /** A header other than "Card" is rejected. */
  lemma ParseHeaderWord(word: string, rest: string)
    requires Lacks(word, ' ') && word != "Card"
    ensures ParseHeader(word + " " + rest).Err?
  {
    SplitOnceAfter(word, " ", rest);
  }

  /** A body with other than two non-empty lists is rejected, and so is a
      list holding something other than numbers. */
  lemma ParseBodyRejects(body: string)
    ensures |NonEmpty(Split(body, " | "))| != 2 ==> ParseBody(body).Err?
    ensures |NonEmpty(Split(body, " | "))| == 2 && ParsedNumbers(Split(NonEmpty(Split(body, " | "))[0], " ")).Err?
            ==> ParseBody(body).Err?
  {
  }

  // ---------------------------------------------------------------------
  // Writing a card and reading it back

  function NumberTokens(ns: seq<nat>): (r: seq<string>)
    ensures |r| == |ns| && forall k :: 0 <= k < |r| ==> |r[k]| > 0 && AllDigits(r[k])
  {
    if ns == [] then [] else NumberTokens(ns[..|ns| - 1]) + [NatToString(ns[|ns| - 1])]
  }

  function NumbersText(ns: seq<nat>): (s: string)
    requires |ns| > 0
    ensures |s| > 0
  {
    Join(NumberTokens(ns), " ")
  }

  function CardText(number: nat, winning: seq<nat>, picked: seq<nat>): string
    requires |winning| > 0 && |picked| > 0
  {
    "Card " + NatToString(number) + ": " + NumbersText(winning) + " | " + NumbersText(picked)
  }

  lemma {:induction false} ParsedNumbersText(ns: seq<nat>)
    ensures ParsedNumbers(NumberTokens(ns)) == Ok(ns)
  {
    if ns != [] {
      var init := ns[..|ns| - 1];
      ParsedNumbersText(init);
      ParseNatRoundTrip(ns[|ns| - 1]);
      assert NumberTokens(ns)[..|ns| - 1] == NumberTokens(init);
      assert init + [ns[|ns| - 1]] == ns;
    }
  }

  lemma NumbersTextLacks(ns: seq<nat>, c: char)
    requires |ns| > 0 && !IsDigit(c) && c != ' '
    ensures Lacks(NumbersText(ns), c)
  {
    var tokens := NumberTokens(ns);
    forall k | 0 <= k < |tokens|
      ensures Lacks(tokens[k], c)
    {
      DigitsLack(tokens[k], c);
    }
    JoinLacks(tokens, " ", c);
  }

  lemma ParseNumbersText(ns: seq<nat>)
    requires |ns| > 0
    ensures ParsedNumbers(Split(NumbersText(ns), " ")) == Ok(ns)
  {
    var tokens := NumberTokens(ns);
    forall k | 0 <= k < |tokens|
      ensures Lacks(tokens[k], " "[0])
    {
      DigitsLack(tokens[k], ' ');
    }
    JoinSplit(tokens, " ");
    ParsedNumbersText(ns);
  }

  lemma ParseHeaderText(number: nat)
    ensures ParseHeader("Card " + NatToString(number)) == Ok(number)
  {
    var digits := NatToString(number);
    assert "Card " + digits == "Card" + " " + digits;
    SplitOnceAfter("Card", " ", digits);
    TrimDigits(digits);
    ParseNatRoundTrip(number);
  }

  lemma ParseBodyText(winning: seq<nat>, picked: seq<nat>)
    requires |winning| > 0 && |picked| > 0
    ensures ParseBody(NumbersText(winning) + " | " + NumbersText(picked)) == Ok((winning, picked))
  {
    var w, p := NumbersText(winning), NumbersText(picked);
    NumbersTextLacks(winning, '|');
    NumbersTextLacks(picked, '|');
    SplitPair(w, " | ", p, 1);
    assert NonEmpty([w, p]) == [w, p] by {
      assert w != "" && p != "";
      assert [w, p][..1] == [w];
      assert [w][..0] == [];
      assert NonEmpty([w]) == NonEmpty([]) + [w];
      assert NonEmpty([w, p]) == NonEmpty([w]) + [p];
    }
    ParseNumbersText(winning);
    ParseNumbersText(picked);
  }

  /** Reading a written card gives back its number, its winning numbers as a
      set and its picks in order. */
  lemma ParseCardText(number: nat, winning: seq<nat>, picked: seq<nat>)
    requires |winning| > 0 && |picked| > 0
    ensures ParseCard(CardText(number, winning, picked)) == Ok(Card(number, (set n | n in winning), picked))
  {
    var digits := NatToString(number);
    var body := NumbersText(winning) + " | " + NumbersText(picked);
    var header := "Card " + digits;
    assert CardText(number, winning, picked) == header + ": " + body;
    DigitsLack(digits, ':');
    LacksConcat("Card ", digits, ':');
    assert Lacks(header, ": "[0]);
    SplitOnceAfter(header, ": ", body);
    ParseHeaderText(number);
    ParseBodyText(winning, picked);
  }
}
