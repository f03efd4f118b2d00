/** Day 7, "Camel Cards": cards and their ranks, hands of five cards, the
    type of a hand with jokers wild, the order on hands, and the ranking of
    every (hand, bid) pair. */
module CamelCards {
  import opened Wrappers
  import opened Text

  /** With jokers wild, a 'J' is read as the joker 'X', the weakest card. */
  const JokersWild := true

  // ---------------------------------------------------------------------
  // Cards

  datatype Card = Card(face: char)

  /** The faces `Card::rank` gives a rank to; any other face panics. */
  predicate IsFace(face: char) {
    face == 'A' || face == 'K' || face == 'Q' || face == 'J' || face == 'T' || face == 'X' || IsDigit(face)
  }

  /** `Card::rank`: A=14, K=13, Q=12, J=11, T=10, the joker 1 and a digit
      its value. */
  function Rank(c: Card): (r: nat)
    requires IsFace(c.face)
    ensures r <= 14
    ensures c.face == 'X' ==> r == 1
    ensures IsDigit(c.face) ==> r == DigitValue(c.face)
  {
    match c.face
    case 'A' => 14
    case 'K' => 13
    case 'Q' => 12
    case 'J' => 11
    case 'T' => 10
    case 'X' => 1
    case _ => DigitValue(c.face)
  }

  /** The faces of the cards a hand can hold. */
  predicate Playable(c: Card) {
    IsFace(c.face) && c.face != '0' && c.face != '1'
  }

  /** `Card::index`: the slot of a card in the table of counts; the joker
      has slot 0. */
  function Index(c: Card): (k: nat)
    requires Playable(c)
    ensures k < 14
  {
    Rank(c) - 1
  }

  /** Different cards have different ranks, so the order on cards is the
      order of their ranks and nothing else. */
  lemma RankInjective(a: Card, b: Card)
    requires Playable(a) && Playable(b)
    ensures Rank(a) == Rank(b) <==> a == b
  {
  }

  /** `Card::try_from` as written: every digit, 'T', 'Q', 'K' and 'A' is a
      card, 'J' is the joker, anything else is an error. */
  function CardOfAsWritten(value: char): (r: Result<Card>)
    ensures r.Ok? ==> IsFace(r.value.face)
  {
    if IsDigit(value) || value == 'T' || value == 'Q' || value == 'K' || value == 'A' then Ok(Card(value))
    else if value == 'J' then Ok(Card(if JokersWild then 'X' else 'J'))
    else Err("Illegal card")
  }

  /** As written, '0' is a card whose rank is 0, so its `index` underflows,
      and '1' is a card that takes the joker's slot in the counts. */
  lemma CardOfAsWrittenLowDigits()
    ensures CardOfAsWritten('0') == Ok(Card('0')) && Rank(Card('0')) == 0
    ensures CardOfAsWritten('1') == Ok(Card('1')) && Rank(Card('1')) == Rank(Card('X'))
  {
  }

  /** `Card::try_from` with the digit range the cards of the game use:
      '2' to '9', 'T', 'J', 'Q', 'K' and 'A'. */
  function CardOf(value: char): (r: Result<Card>)
    ensures r.Ok? ==> Playable(r.value)
  {
    if '2' <= value <= '9' || value == 'T' || value == 'Q' || value == 'K' || value == 'A' then Ok(Card(value))
    else if value == 'J' then Ok(Card(if JokersWild then 'X' else 'J'))
    else Err("Illegal card")
  }

  /** Every card read has a rank between 1 and 14, and only 'J' takes the
      joker's slot. */
  lemma CardOfRanks(value: char)
    ensures CardOf(value).Ok? <==> ('2' <= value <= '9' || value in "TJQKA")
    ensures CardOf(value).Ok? ==> 1 <= Rank(CardOf(value).value) && (Index(CardOf(value).value) == 0 <==> value == 'J')
    ensures CardOf(value).Ok? && value != 'J' ==> CardOf(value).value.face == value
  {
  }

  // ---------------------------------------------------------------------
  // Orderings

  datatype Ordering = Less | Equal | Greater {
    function Flip(): Ordering {
      match this
      case Less => Greater
      case Equal => Equal
      case Greater => Less
    }
  }

  function CompareNat(a: nat, b: nat): (o: Ordering)
    ensures o == Less <==> a < b
    ensures o == Equal <==> a == b
  {
    if a < b then Less else if a == b then Equal else Greater
  }

  /** `Card::cmp`: cards compare by rank. */
  function CompareCards(a: Card, b: Card): Ordering
    requires Playable(a) && Playable(b)
  {
    CompareNat(Rank(a), Rank(b))
  }

  predicate AllPlayable(cards: seq<Card>) {
    forall i | 0 <= i < |cards| :: Playable(cards[i])
  }

  /** The order of `[Card; 5]`: the first card that differs decides. */
  function CompareCardSeqs(a: seq<Card>, b: seq<Card>): Ordering
    requires |a| == |b| && AllPlayable(a) && AllPlayable(b)
  {
    if a == [] then Equal
    else match CompareCards(a[0], b[0])
      case Equal => CompareCardSeqs(a[1..], b[1..])
      case o => o
  }

  /** The card order is a total order: swapping the sides flips the answer,
      only equal sequences compare equal, and it is transitive. */
  lemma {:induction false} CompareCardSeqsLaws(a: seq<Card>, b: seq<Card>, c: seq<Card>)
    requires |a| == |b| == |c| && AllPlayable(a) && AllPlayable(b) && AllPlayable(c)
    ensures CompareCardSeqs(b, a) == CompareCardSeqs(a, b).Flip()
    ensures CompareCardSeqs(a, b) == Equal <==> a == b
    ensures CompareCardSeqs(a, b) != Greater && CompareCardSeqs(b, c) != Greater ==> CompareCardSeqs(a, c) != Greater
    decreases |a|
  {
    if a != [] {
      CompareCardSeqsLaws(a[1..], b[1..], c[1..]);
      RankInjective(a[0], b[0]);
      RankInjective(b[0], c[0]);
      if a[0] == b[0] && a[1..] == b[1..] {
        assert a == [a[0]] + a[1..] && b == [b[0]] + b[1..];
      }
    }
  }

  // ---------------------------------------------------------------------
  // Hand types

  datatype HandType = HighCard | OnePair | TwoPair | ThreeOfAKind | FullHouse | FourOfAKind | FiveOfAKind

  /** `HandType::rank`: from 0 for a high card up to 6 for five of a kind. */
  function TypeRank(t: HandType): (r: nat)
    ensures r <= 6
  {
    match t
    case HighCard => 0
    case OnePair => 1
    case TwoPair => 2
    case ThreeOfAKind => 3
    case FullHouse => 4
    case FourOfAKind => 5
    case FiveOfAKind => 6
  }

  /** `HandType::cmp` orders the types by rank, and no two types share a
      rank. */
  lemma TypeRankInjective(s: HandType, t: HandType)
    ensures TypeRank(s) == TypeRank(t) <==> s == t
  {
  }

  /** One joker turns a type into the best type it can make. */
  function Promote(t: HandType): (u: HandType)
    ensures TypeRank(u) >= TypeRank(t)
    ensures TypeRank(u) == TypeRank(t) <==> t == FiveOfAKind
  {
    match t
    case HighCard => OnePair
    case OnePair => ThreeOfAKind
    case TwoPair => FullHouse
    case ThreeOfAKind => FourOfAKind
    case FullHouse => FourOfAKind
    case FourOfAKind => FiveOfAKind
    case FiveOfAKind => FiveOfAKind
  }

  /** The type after `n` jokers have each promoted it once. */
  function Promoted(t: HandType, n: nat): HandType {
    if n == 0 then t else Promote(Promoted(t, n - 1))
  }

  /** `HandType::with_jokers`: promote the type once per joker. */
  method WithJokers(t: HandType, jokers: nat) returns (u: HandType)
    ensures u == Promoted(t, jokers)
  {
    u := t;
    for i := 0 to jokers
      invariant u == Promoted(t, i)
    {
      u := Promote(u);
    }
  }

  /** No jokers change nothing; more jokers never make a weaker type; five
      of a kind stays five of a kind. */
  lemma {:induction false} PromotedLaws(t: HandType, n: nat, m: nat)
    requires n <= m
    ensures Promoted(t, 0) == t
    ensures TypeRank(Promoted(t, n)) <= TypeRank(Promoted(t, m))
    ensures Promoted(FiveOfAKind, m) == FiveOfAKind
    decreases m
  {
    if m > 0 {
      if n < m {
        PromotedLaws(t, n, m - 1);
      }
      PromotedLaws(t, 0, m - 1);
    }
  }

  /** Four jokers make any type five of a kind. */
  lemma {:induction false} PromotedFour(t: HandType, n: nat)
    requires n >= 4
    ensures Promoted(t, n) == FiveOfAKind
    decreases n
  {
    if n > 4 {
      PromotedFour(t, n - 1);
    }
  }

  // ---------------------------------------------------------------------
  // Counting cards

  const NoCounts: seq<nat> := [0, 0, 0, 0, 0, 0, 0, 0, 0, 0, 0, 0, 0, 0]

  /** The counts table `type_` fills: one more in the slot of each card. */
  function CountsOf(cards: seq<Card>): (counts: seq<nat>)
    requires AllPlayable(cards)
    ensures |counts| == 14
  {
    if cards == [] then NoCounts
    else
      var before := CountsOf(cards[..|cards| - 1]);
      var k := Index(cards[|cards| - 1]);
      before[k := before[k] + 1]
  }

  /** The positions of the cards in slot `k`. */
  function InSlot(cards: seq<Card>, k: nat): set<nat>
    requires AllPlayable(cards)
  {
    set i: nat | i < |cards| && Index(cards[i]) == k
  }

  /** Each count is the number of cards of that slot. */
  lemma {:induction false} CountsOfMeaning(cards: seq<Card>, k: nat)
    requires AllPlayable(cards) && k < 14
    ensures CountsOf(cards)[k] == |InSlot(cards, k)|
    decreases |cards|
  {
    if cards == [] {
      assert InSlot(cards, k) == {};
    } else {
      CountsOfMeaning(cards[..|cards| - 1], k);
      InSlotStep(cards, k);
    }
  }

  lemma InSlotStep(cards: seq<Card>, k: nat)
    requires AllPlayable(cards) && cards != []
    ensures |InSlot(cards, k)| == |InSlot(cards[..|cards| - 1], k)| + (if Index(cards[|cards| - 1]) == k then 1 else 0)
  {
    var n := |cards| - 1;
    var prefix := cards[..n];
    forall i: nat | i < n
      ensures (i in InSlot(cards, k)) == (i in InSlot(prefix, k))
    {
      assert prefix[i] == cards[i];
    }
    assert n !in InSlot(prefix, k);
    if Index(cards[n]) == k {
      assert InSlot(cards, k) == InSlot(prefix, k) + {n};
    } else {
      assert InSlot(cards, k) == InSlot(prefix, k);
    }
  }

  function Sum(s: seq<nat>): nat {
    if s == [] then 0 else s[0] + Sum(s[1..])
  }

  lemma {:induction false} SumUpdate(s: seq<nat>, k: nat, v: nat)
    requires k < |s|
    ensures Sum(s[k := v]) + s[k] == Sum(s) + v
    decreases |s|
  {
    if k > 0 {
      SumUpdate(s[1..], k - 1, v);
      assert s[k := v][1..] == s[1..][k - 1 := v];
    }
  }

  /** The counts add up to the number of cards. */
  lemma {:induction false} CountsTotal(cards: seq<Card>)
    requires AllPlayable(cards)
    ensures Sum(CountsOf(cards)) == |cards|
    decreases |cards|
  {
    if cards == [] {
      assert Sum(NoCounts) == 0;
    } else {
      var before := CountsOf(cards[..|cards| - 1]);
      CountsTotal(cards[..|cards| - 1]);
      SumUpdate(before, Index(cards[|cards| - 1]), before[Index(cards[|cards| - 1])] + 1);
    }
  }

  /** The largest entry, or 0 for an empty table (`max().unwrap_or(0)`). */
  function MaxOf(s: seq<nat>): (m: nat)
    ensures s == [] ==> m == 0
    ensures s != [] ==> m in s
    ensures forall i | 0 <= i < |s| :: s[i] <= m
  {
    if s == [] then 0
    else
      var rest := MaxOf(s[1..]);
      if s[0] >= rest then s[0] else rest
  }

  /** The type of a hand before its jokers count: the largest count among
      the real cards decides, and for three or two of a kind whether some
      count (jokers included) is two and how many counts are two. */
  function BaseType(counts: seq<nat>): HandType
    requires |counts| == 14
  {
    var most := MaxOf(counts[1..]);
    if most == 5 then FiveOfAKind
    else if most == 4 then FourOfAKind
    else if most == 3 then (if 2 in counts then FullHouse else ThreeOfAKind)
    else if most == 2 then (if multiset(counts)[2] == 2 then TwoPair else OnePair)
    else HighCard
  }

  // ---------------------------------------------------------------------
  // Hands

  datatype Hand = Hand(cards: seq<Card>)

  predicate ValidHand(h: Hand) {
    |h.cards| == 5 && AllPlayable(h.cards)
  }

  /** The type of a hand: its base type promoted once per joker. */
  function TypeOf(h: Hand): HandType
    requires ValidHand(h)
  {
    var counts := CountsOf(h.cards);
    Promoted(BaseType(counts), counts[0])
  }

  /** `Hand::type_`: count the cards of each slot, then type the counts. */
  method HandTypeOf(h: Hand) returns (t: HandType)
    requires ValidHand(h)
    ensures t == TypeOf(h)
  {
    var counts := new nat[14](_ => 0);
    assert counts[..] == NoCounts;
    for i := 0 to |h.cards|
      invariant counts[..] == CountsOf(h.cards[..i])
    {
      var k := Index(h.cards[i]);
      counts[k] := counts[k] + 1;
      assert h.cards[..i + 1][..i] == h.cards[..i];
    }
    assert h.cards[..|h.cards|] == h.cards;
    var base := BaseType(counts[..]);
    t := WithJokers(base, counts[0]);
  }

  /** Five cards of one real face are five of a kind, jokers or not. */
  lemma FiveEqualCards(h: Hand)
    requires ValidHand(h)
    requires forall i | 0 <= i < 5 :: h.cards[i] == h.cards[0]
    ensures TypeOf(h) == FiveOfAKind
  {
    var k := Index(h.cards[0]);
    CountsOfMeaning(h.cards, k);
    assert InSlot(h.cards, k) == {0, 1, 2, 3, 4};
    CountsTotal(h.cards);
    AllInOneSlot(CountsOf(h.cards), k);
  }

  /** Counts with all five cards in one slot make five of a kind. */
  lemma AllInOneSlot(counts: seq<nat>, k: nat)
    requires |counts| == 14 && k < 14 && counts[k] == 5 && Sum(counts) == 5
    ensures Promoted(BaseType(counts), counts[0]) == FiveOfAKind
  {
    if k == 0 {
      PromotedFour(BaseType(counts), counts[0]);
    } else {
      var rest := counts[1..];
      assert rest[k - 1] == 5;
      var j :| 0 <= j < 13 && rest[j] == MaxOf(rest);
      assert rest[j] == counts[j + 1];
      SumBound(counts, j + 1);
      assert MaxOf(rest) == 5;
      assert BaseType(counts) == FiveOfAKind;
      PromotedLaws(FiveOfAKind, 0, counts[0]);
    }
  }

  lemma {:induction false} SumBound(s: seq<nat>, k: nat)
    requires k < |s|
    ensures s[k] <= Sum(s)
    decreases |s|
  {
    if k > 0 {
      SumBound(s[1..], k - 1);
    }
  }

  /** `Hand::cmp`: the stronger type wins; equal types fall back to the
      cards, first to last. */
  function CompareHands(a: Hand, b: Hand): Ordering
    requires ValidHand(a) && ValidHand(b)
  {
    match CompareNat(TypeRank(TypeOf(a)), TypeRank(TypeOf(b)))
    case Equal => CompareCardSeqs(a.cards, b.cards)
    case o => o
  }

  /** The hand order is a total order: antisymmetric, equal only for equal
      hands, and transitive. */
  lemma CompareHandsLaws(a: Hand, b: Hand, c: Hand)
    requires ValidHand(a) && ValidHand(b) && ValidHand(c)
    ensures CompareHands(b, a) == CompareHands(a, b).Flip()
    ensures CompareHands(a, b) == Equal <==> a == b
    ensures CompareHands(a, b) != Greater && CompareHands(b, c) != Greater ==> CompareHands(a, c) != Greater
  {
    CompareCardSeqsLaws(a.cards, b.cards, c.cards);
    if a.cards == b.cards {
      assert a == b;
    }
  }

  /** `Hand::parse`: exactly five characters, each one a card as
      `Card::try_from` reads it, '0' and '1' included. */
  function HandOf(input: string): (r: Result<Hand>)
    ensures r.Ok? ==> |r.value.cards| == 5 && AllFaces(r.value.cards)
  {
    if |input| != 5 then Err("Illegal hand - expected 5 characters")
    else match CardsOf(input)
      case Err(e) => Err(e)
      case Ok(cards) => Ok(Hand(cards))
  }

  /** Whether every card has a face `Card::rank` knows. */
  predicate AllFaces(cards: seq<Card>) {
    forall i | 0 <= i < |cards| :: IsFace(cards[i].face)
  }

  /** The cards of a text, or the error of its first illegal card. */
  function CardsOf(s: string): (r: Result<seq<Card>>)
    ensures r.Ok? ==> |r.value| == |s| && AllFaces(r.value)
  {
    if s == [] then Ok([])
    else match CardsOf(s[..|s| - 1])
      case Err(e) => Err(e)
      case Ok(cards) =>
        match CardOfAsWritten(s[|s| - 1])
        case Err(e) => Err(e)
        case Ok(c) => Ok(cards + [c])
  }

  /** A hand is read exactly when the text has five characters that are
      all cards, and each card is the one its character names. */
  lemma {:induction false} CardsOfSpec(s: string)
    ensures CardsOf(s).Ok? <==> forall i | 0 <= i < |s| :: CardOfAsWritten(s[i]).Ok?
    ensures CardsOf(s).Ok? ==> forall i | 0 <= i < |s| :: CardsOf(s).value[i] == CardOfAsWritten(s[i]).value
    decreases |s|
  {
    if s != [] {
      var prefix := s[..|s| - 1];
      CardsOfSpec(prefix);
      assert forall i | 0 <= i < |prefix| :: prefix[i] == s[i];
    }
  }

  method ParseHand(input: string) returns (r: Result<Hand>)
    ensures r == HandOf(input)
  {
    if |input| != 5 {
      return Err("Illegal hand - expected 5 characters");
    }
    var cards := new Card[5](_ => Card('2'));
    for i := 0 to 5
      invariant CardsOf(input[..i]).Ok? && cards[..i] == CardsOf(input[..i]).value
    {
      assert input[..i + 1][..i] == input[..i];
      var c := CardOfAsWritten(input[i]);
      if c.Err? {
        CardsOfPrefix(input, i + 1);
        return Err(c.error);
      }
      cards[i] := c.value;
    }
    assert input[..5] == input && cards[..5] == cards[..];
    return Ok(Hand(cards[..]));
  }

  /** The hands the ranking takes are exactly those read from five
      characters that the corrected `CardOf` accepts. */
  lemma HandOfValid(input: string)
    ensures HandOf(input).Ok? && ValidHand(HandOf(input).value)
        <==> |input| == 5 && forall i | 0 <= i < 5 :: CardOf(input[i]).Ok?
  {
    CardsOfSpec(input);
    if |input| == 5 && HandOf(input).Ok? {
      var cards := HandOf(input).value.cards;
      assert cards == CardsOf(input).value;
      forall i | 0 <= i < 5
        ensures Playable(cards[i]) <==> CardOf(input[i]).Ok?
      {
        assert cards[i] == CardOfAsWritten(input[i]).value;
      }
    }
    if |input| == 5 && forall i | 0 <= i < 5 :: CardOf(input[i]).Ok? {
      forall i | 0 <= i < 5
        ensures CardOfAsWritten(input[i]).Ok?
      {
        assert CardOf(input[i]).Ok?;
      }
    }
  }

  /** '1' and '0' are read as cards: "1AAAA" and "0AAAA" are hands, which
      the ranking does not take. */
  lemma HandOfLowDigits()
    ensures HandOf("1AAAA").Ok? && !ValidHand(HandOf("1AAAA").value)
    ensures HandOf("0AAAA").Ok? && !ValidHand(HandOf("0AAAA").value)
  {
    HandOfValid("1AAAA");
    HandOfValid("0AAAA");
    CardsOfSpec("1AAAA");
    CardsOfSpec("0AAAA");
    assert !CardOf("1AAAA"[0]).Ok?;
    assert !CardOf("0AAAA"[0]).Ok?;
  }

  /** An illegal card spoils every longer text. */
  lemma {:induction false} CardsOfPrefix(s: string, n: nat)
    requires n <= |s| && CardsOf(s[..n]).Err?
    ensures CardsOf(s) == CardsOf(s[..n])
    decreases |s| - n
  {
    if n < |s| {
      assert s[..n + 1][..n] == s[..n];
      CardsOfPrefix(s, n + 1);
    } else {
      assert s[..n] == s;
    }
  }

  // ---------------------------------------------------------------------
  // Ranking

  type Bid = (Hand, nat)

  predicate ValidBids(s: seq<Bid>) {
    forall b | b in s :: ValidHand(b.0)
  }

  /** The order `sort` puts the (hand, bid) pairs in: by hand, then by bid. */
  function CompareBids(p: Bid, q: Bid): Ordering
    requires ValidHand(p.0) && ValidHand(q.0)
  {
    match CompareHands(p.0, q.0)
    case Equal => CompareNat(p.1, q.1)
    case o => o
  }

  predicate AtMost(p: Bid, q: Bid)
    requires ValidHand(p.0) && ValidHand(q.0)
  {
    CompareBids(p, q) != Greater
  }

  lemma AtMostLaws(p: Bid, q: Bid, r: Bid)
    requires ValidHand(p.0) && ValidHand(q.0) && ValidHand(r.0)
    ensures AtMost(p, q) || AtMost(q, p)
    ensures AtMost(p, q) && AtMost(q, p) ==> p == q
    ensures AtMost(p, q) && AtMost(q, r) ==> AtMost(p, r)
  {
    CompareHandsLaws(p.0, q.0, r.0);
    CompareHandsLaws(q.0, r.0, p.0);
    CompareHandsLaws(p.0, r.0, q.0);
  }

  predicate Sorted(s: seq<Bid>)
    requires ValidBids(s)
  {
    forall i | 0 < i < |s| :: AtMost(s[i - 1], s[i])
  }

  /** Put one pair into a sorted sequence, before the first pair it is at
      most. */
  function Insert(s: seq<Bid>, x: Bid): (r: seq<Bid>)
    requires ValidBids(s) && ValidHand(x.0)
    ensures multiset(r) == multiset(s) + multiset{x}
    ensures ValidBids(r)
  {
    if s == [] then [x]
    else if AtMost(x, s[0]) then [x] + s
    else
      var rest := Insert(s[1..], x);
      assert s == [s[0]] + s[1..];
      assert multiset(s) == multiset{s[0]} + multiset(s[1..]);
      assert forall b | b in [s[0]] + rest :: b == s[0] || b in rest;
      [s[0]] + rest
  }

  lemma InsertHead(s: seq<Bid>, x: Bid)
    requires ValidBids(s) && ValidHand(x.0)
    ensures |Insert(s, x)| == |s| + 1
    ensures Insert(s, x)[0] == x || (s != [] && Insert(s, x)[0] == s[0])
  {
    assert |multiset(Insert(s, x))| == |multiset(s)| + 1;
  }

  lemma {:induction false} InsertSorted(s: seq<Bid>, x: Bid)
    requires ValidBids(s) && ValidHand(x.0) && Sorted(s)
    ensures Sorted(Insert(s, x))
    decreases |s|
  {
    if s != [] && !AtMost(x, s[0]) {
      AtMostLaws(x, s[0], s[0]);
      InsertSorted(s[1..], x);
      InsertHead(s[1..], x);
      var r := Insert(s, x);
      assert r[1..] == Insert(s[1..], x);
    }
  }

  /** A sorted sequence has every earlier pair at most every later one. */
  lemma {:induction false} SortedPairwise(s: seq<Bid>, i: nat, j: nat)
    requires ValidBids(s) && Sorted(s) && i <= j < |s|
    ensures AtMost(s[i], s[j])
    decreases j - i
  {
    if i == j {
      AtMostLaws(s[i], s[i], s[i]);
    } else {
      SortedPairwise(s, i, j - 1);
      AtMostLaws(s[i], s[j - 1], s[j]);
    }
  }

  datatype RankedHand = RankedHand(hand: Hand, bid: nat, rank: nat)

  function Unranked(ranked: seq<RankedHand>): (s: seq<Bid>)
    ensures |s| == |ranked|
  {
    if ranked == [] then [] else [(ranked[0].hand, ranked[0].bid)] + Unranked(ranked[1..])
  }

  lemma {:induction false} UnrankedAt(ranked: seq<RankedHand>, i: nat)
    requires i < |ranked|
    ensures Unranked(ranked)[i] == (ranked[i].hand, ranked[i].bid)
    decreases i
  {
    if i > 0 {
      UnrankedAt(ranked[1..], i - 1);
    }
  }

  /** `rank`: sort the pairs, then number them 1, 2, ... in that order. */
  method RankHands(hands: seq<Bid>) returns (ranked: seq<RankedHand>)
    requires ValidBids(hands)
    ensures |ranked| == |hands|
    ensures multiset(Unranked(ranked)) == multiset(hands)
    ensures ValidBids(Unranked(ranked)) && Sorted(Unranked(ranked))
    ensures forall i | 0 <= i < |ranked| :: ranked[i].rank == i + 1
  {
    var sorted := SortBids(hands);
    ranked := [];
    for i := 0 to |sorted|
      invariant |ranked| == i
      invariant Unranked(ranked) == sorted[..i]
      invariant forall j | 0 <= j < i :: ranked[j].rank == j + 1
    {
      RankedAppend(ranked, RankedHand(sorted[i].0, sorted[i].1, i + 1));
      ranked := ranked + [RankedHand(sorted[i].0, sorted[i].1, i + 1)];
      assert sorted[..i + 1] == sorted[..i] + [sorted[i]];
    }
    assert sorted[..|sorted|] == sorted;
  }

  /** The sort in `rank`: the pairs in order, hand first, then bid. */
  method SortBids(hands: seq<Bid>) returns (sorted: seq<Bid>)
    requires ValidBids(hands)
    ensures |sorted| == |hands| && multiset(sorted) == multiset(hands)
    ensures ValidBids(sorted) && Sorted(sorted)
  {
    sorted := [];
    for i := 0 to |hands|
      invariant ValidBids(sorted) && Sorted(sorted)
      invariant multiset(sorted) == multiset(hands[..i])
    {
      var x := hands[i];
      assert x in hands && hands[..i + 1] == hands[..i] + [x];
      InsertSorted(sorted, x);
      sorted := Insert(sorted, x);
    }
    assert hands[..|hands|] == hands;
    assert |sorted| == |multiset(sorted)| == |hands|;
  }

  lemma {:induction false} RankedAppend(ranked: seq<RankedHand>, r: RankedHand)
    ensures Unranked(ranked + [r]) == Unranked(ranked) + [(r.hand, r.bid)]
    decreases |ranked|
  {
    if ranked != [] {
      RankedAppend(ranked[1..], r);
      assert (ranked + [r])[1..] == ranked[1..] + [r];
    }
  }

  /** A hand ranked higher is never the weaker of the two. */
  lemma {:induction false} RankOrder(ranked: seq<RankedHand>, i: nat, j: nat)
    requires ValidBids(Unranked(ranked)) && Sorted(Unranked(ranked))
    requires i <= j < |ranked|
    ensures ValidHand(ranked[i].hand) && ValidHand(ranked[j].hand)
    ensures CompareHands(ranked[i].hand, ranked[j].hand) != Greater
  {
    UnrankedAt(ranked, i);
    UnrankedAt(ranked, j);
    SortedPairwise(Unranked(ranked), i, j);
  }
}
