/** Day 8, "Haunted Wasteland": a network of named nodes with a left and a
    right successor, the endless loop over the directions, and the walk of
    every start node at once until all of them stand on an end node. */
module HauntedWasteland {
  import opened Wrappers
  import opened Text

  // ---------------------------------------------------------------------
  // Directions

  datatype Direction = Left | Right

  /** `Direction::try_from`: 'L' and 'R' only. */
  function DirectionOf(value: char): (r: Result<Direction>)
    ensures r.Ok? <==> value == 'L' || value == 'R'
    ensures r == Ok(Left) <==> value == 'L'
  {
    match value
    case 'L' => Ok(Left)
    case 'R' => Ok(Right)
    case _ => Err("not a valid direction")
  }

  /** The collected `try_from` of every character: the first bad one is
      the error. */
  function DirectionsOfChars(cs: string): (r: Result<seq<Direction>>)
    ensures r.Ok? <==> forall i | 0 <= i < |cs| :: cs[i] == 'L' || cs[i] == 'R'
    ensures r.Ok? ==> |r.value| == |cs| && forall i | 0 <= i < |cs| :: (r.value[i] == Left <==> cs[i] == 'L')
  {
    if cs == [] then Ok([])
    else
      match DirectionOf(cs[0])
      case Err(e) => Err(e)
      case Ok(d) =>
        match DirectionsOfChars(cs[1..])
        case Err(e) => Err(e)
        case Ok(ds) => Ok([d] + ds)
  }

  /** `parse_directions`: the directions of the trimmed line. */
  function DirectionsOf(line: string): Result<seq<Direction>> {
    DirectionsOfChars(Trim(line))
  }

  function DirectionChar(d: Direction): char {
    match d
    case Left => 'L'
    case Right => 'R'
  }

  /** The letters of a list of directions. */
  function DirectionsText(ds: seq<Direction>): (s: string)
    ensures |s| == |ds| && forall i | 0 <= i < |ds| :: s[i] == DirectionChar(ds[i])
  {
    if ds == [] then [] else [DirectionChar(ds[0])] + DirectionsText(ds[1..])
  }

  /** Reading the letters of directions gives the directions back. */
  lemma DirectionsRoundTrip(ds: seq<Direction>)
    ensures DirectionsOfChars(DirectionsText(ds)) == Ok(ds)
  {
    var r := DirectionsOfChars(DirectionsText(ds));
    assert r.Ok?;
    assert r.value == ds;
  }

  /** `ListLoop`: an iterator that goes round a list forever. The ghost
      field `calls` counts the calls of `next` so far. */
  class ListLoop<T> {
    const list: seq<T>
    var i: nat
    ghost var calls: nat

    ghost predicate Valid()
      reads this
    {
      (|list| > 0 ==> i == calls % |list|) && (|list| == 0 ==> i == 0)
    }

    /** `ListLoop::new`: the loop starts at the front of the list. */
    constructor (list: seq<T>)
      ensures Valid() && this.list == list && calls == 0
    {
      this.list := list;
      i := 0;
      calls := 0;
    }

    /** `next`: nothing for an empty list; otherwise the element at the
        index, which then moves one on and wraps round at the end. */
    method Next() returns (r: Option<T>)
      requires Valid()
      modifies this
      ensures Valid()
      ensures list == [] ==> r == None && calls == old(calls) && i == old(i)
      ensures list != [] ==> r == Some(list[old(calls) % |list|]) && calls == old(calls) + 1
      ensures list != [] ==> i < |list|
    {
      if |list| == 0 {
        return None;
      }
      var next := i;
      i := i + 1;
      if i == |list| {
        i := 0;
      }
      calls := calls + 1;
      ModStep(calls - 1, |list|);
      return Some(list[next]);
    }
  }

  lemma {:induction false} MulGap(a: int, b: int, n: int)
    requires n > 0 && a < b
    ensures a * n + n <= b * n
    decreases b - a
  {
    assert (a + 1) * n == a * n + n;
    if a + 1 < b {
      MulGap(a + 1, b, n);
    }
  }

  lemma ModUnique(a: nat, n: nat, q: nat, r: nat)
    requires n > 0 && r < n && a == q * n + r
    ensures a % n == r
  {
    var q0, r0 := a / n, a % n;
    assert a == q0 * n + r0;
    if q0 < q {
      MulGap(q0, q, n);
    } else if q0 > q {
      MulGap(q, q0, n);
    }
  }

  /** Counting one more call moves the position one on, round to the
      front after the last element. */
  lemma ModStep(k: nat, n: nat)
    requires n > 0
    ensures (k + 1) % n == if k % n + 1 == n then 0 else k % n + 1
  {
    var q := k / n;
    assert k == q * n + k % n;
    if k % n + 1 == n {
      assert k + 1 == (q + 1) * n + 0;
      ModUnique(k + 1, n, q + 1, 0);
    } else {
      ModUnique(k + 1, n, q, k % n + 1);
    }
  }

  /** The first `count` elements the loop gives, one per call of `next`. */
  function Cycle<T>(list: seq<T>, count: nat): (r: seq<T>)
    requires |list| > 0
    ensures |r| == count
    ensures forall k | 0 <= k < count :: r[k] == list[k % |list|]
  {
    if count == 0 then [] else Cycle(list, count - 1) + [list[(count - 1) % |list|]]
  }

  /** Calling `next` `count` times from a fresh loop gives the first
      `count` elements of the cycle, in order. */
  method Take<T>(loop: ListLoop<T>, count: nat) returns (taken: seq<T>)
    requires loop.Valid() && loop.calls == 0 && |loop.list| > 0
    modifies loop
    ensures taken == Cycle(loop.list, count)
  {
    taken := [];
    for k := 0 to count
      invariant loop.Valid() && loop.calls == k
      invariant taken == Cycle(loop.list, k)
    {
      var next := loop.Next();
      taken := taken + [next.value];
    }
  }

  // ---------------------------------------------------------------------
  // The network

  /** One line of the network: a node and its left and right neighbours. */
  datatype Line = Line(node: string, left: string, right: string)

  /** A node's successors, as indices into the list of nodes. */
  datatype Edge = Edge(left: nat, right: nat)

  datatype Network = Network(nodes: seq<string>, edges: map<string, Edge>)

  /** A line "AAA = (BBB, CCC)": the node before " = ", then the two names
      between the parentheses, split at ", ". */
  function LineOf(text: string): (r: Result<Line>)
  {
    match SplitOnce(text, " = ")
    case None => Err("Unable to parse node/edges")
    case Some((node, rest)) =>
      match SplitOnce(TrimEndMatches(TrimStartMatches(rest, "("), ")"), ", ")
      case None => Err("Unable to parse edges")
      case Some((left, right)) => Ok(Line(node, left, right))
  }

  /** A node name as the network writes it: no spaces, commas,
      parentheses or equals signs. */
  predicate PlainName(s: string) {
    |s| > 0 && forall i | 0 <= i < |s| :: s[i] !in " ,()="
  }

  /** The line that describes a node. */
  function LineText(l: Line): string {
    l.node + " = (" + l.left + ", " + l.right + ")"
  }

  /** Reading the text of a line gives the line back. */
  lemma LineRoundTrip(l: Line)
    requires PlainName(l.node) && PlainName(l.left) && PlainName(l.right)
    ensures LineOf(LineText(l)) == Ok(l)
  {
    var inner := l.left + ", " + l.right;
    assert LineText(l) == l.node + " = " + ("(" + (inner + ")"));
    assert Lacks(l.node, ' ');
    SplitOnceAfter(l.node, " = ", "(" + (inner + ")"));
    TrimOpen(inner + ")", l.left[0]);
    TrimClose(inner, l.right[|l.right| - 1]);
    assert Lacks(l.left, ',');
    SplitOnceAfter(l.left, ", ", l.right);
  }

  lemma TrimOpen(s: string, first: char)
    requires |s| > 0 && s[0] == first && first != '('
    ensures TrimStartMatches("(" + s, "(") == s
  {
    assert ("(" + s)[1..] == s;
    assert !StartsWith(s, "(") by {
      assert s[..1][0] == first;
    }
  }

  lemma TrimClose(s: string, last: char)
    requires |s| > 0 && s[|s| - 1] == last && last != ')'
    ensures TrimEndMatches(s + ")", ")") == s
  {
    assert (s + ")")[..|s|] == s;
    assert (s + ")")[|s|..] == ")";
    assert s[|s| - 1..] != ")" by {
      assert s[|s| - 1..][0] == last;
    }
  }

  /** The lines read, or the error of the first line that is not one. */
  function LinesOf(texts: seq<string>): (r: Result<seq<Line>>)
    ensures r.Ok? ==> |r.value| == |texts|
  {
    if texts == [] then Ok([])
    else match LinesOf(texts[..|texts| - 1])
      case Err(e) => Err(e)
      case Ok(ls) =>
        match LineOf(texts[|texts| - 1])
        case Err(e) => Err(e)
        case Ok(l) => Ok(ls + [l])
  }

  /** Every name in the order `parse` meets them: node, left, right. */
  function Names(ls: seq<Line>): (names: seq<string>)
    ensures |names| == 3 * |ls|
  {
    if ls == [] then []
    else
      var l := ls[|ls| - 1];
      Names(ls[..|ls| - 1]) + [l.node, l.left, l.right]
  }

  /** The names without repeats, each where it first appears. */
  function Dedup(names: seq<string>): (d: seq<string>)
  {
    if names == [] then []
    else
      var before := Dedup(names[..|names| - 1]);
      var last := names[|names| - 1];
      if last in before then before else before + [last]
  }

  /** Dropping repeats keeps every name. */
  lemma {:induction false} DedupSame(names: seq<string>)
    ensures forall x :: x in Dedup(names) <==> x in names
    decreases |names|
  {
    if names != [] {
      DedupSame(names[..|names| - 1]);
      assert names == names[..|names| - 1] + [names[|names| - 1]];
    }
  }

  predicate Distinct(s: seq<string>) {
    forall i, j | 0 <= i < j < |s| :: s[i] != s[j]
  }

  /** The first position of a name in a list, or the list's length when
      the name is not in it. */
  function IndexOf(s: seq<string>, x: string): (k: nat)
    ensures k <= |s|
    ensures k < |s| <==> x in s
    ensures k < |s| ==> s[k] == x
    ensures forall j | 0 <= j < k :: s[j] != x
  {
    if s == [] then 0 else if s[0] == x then 0 else 1 + IndexOf(s[1..], x)
  }

  lemma IndexOfDistinct(s: seq<string>, k: nat)
    requires Distinct(s) && k < |s|
    ensures IndexOf(s, s[k]) == k
  {
  }

  lemma IndexOfPrefix(s: seq<string>, t: seq<string>, x: string)
    requires x in s
    ensures IndexOf(s + t, x) == IndexOf(s, x)
  {
    var k := IndexOf(s, x);
    assert (s + t)[k] == x;
    assert forall j | 0 <= j < k :: (s + t)[j] == s[j];
  }

  /** A name already in a list keeps its position in a longer one. */
  lemma IndexOfLonger(s: seq<string>, t: seq<string>, x: string)
    requires x in s && s <= t
    ensures IndexOf(t, x) == IndexOf(s, x)
  {
    assert t == s + t[|s|..];
    IndexOfPrefix(s, t[|s|..], x);
  }

  /** The names come out distinct and in the order of their first
      appearance. */
  lemma {:induction false} DedupOrder(names: seq<string>)
    ensures Distinct(Dedup(names))
    ensures forall i, j | 0 <= i < j < |Dedup(names)| :: IndexOf(names, Dedup(names)[i]) < IndexOf(names, Dedup(names)[j])
    decreases |names|
  {
    if names != [] {
      var prefix := names[..|names| - 1];
      var last := names[|names| - 1];
      assert names == prefix + [last];
      DedupOrder(prefix);
      DedupSame(prefix);
      var before := Dedup(prefix);
      forall x | x in prefix
        ensures IndexOf(names, x) == IndexOf(prefix, x)
      {
        IndexOfPrefix(prefix, [last], x);
      }
      if last !in before {
        assert IndexOf(names, last) == |prefix| by {
          assert names[|prefix|] == last;
        }
        forall i | 0 <= i < |before|
          ensures IndexOf(names, before[i]) < |prefix|
        {
          assert before[i] in prefix;
        }
      }
    }
  }

  /** A name's successors, as positions in the final list of nodes. A
      later line for the same node replaces an earlier one. */
  function EdgesOf(ls: seq<Line>, order: seq<string>): map<string, Edge> {
    if ls == [] then map[]
    else
      var l := ls[|ls| - 1];
      EdgesOf(ls[..|ls| - 1], order)[l.node := Edge(IndexOf(order, l.left), IndexOf(order, l.right))]
  }

  /** What `Network::parse` gives for the lines of the network. */
  function NetworkOf(texts: seq<string>): Result<Network> {
    match LinesOf(texts)
    case Err(e) => Err(e)
    case Ok(ls) =>
      var order := Dedup(Names(ls));
      Ok(Network(order, EdgesOf(ls, order)))
  }

  /** Nodes are distinct, every node with edges is listed, and every edge
      points into the list. */
  ghost predicate WellFormed(net: Network) {
    Distinct(net.nodes)
    && (forall x | x in net.edges :: x in net.nodes)
    && (forall x | x in net.edges :: net.edges[x].left < |net.nodes| && net.edges[x].right < |net.nodes|)
  }

  lemma {:induction false} EdgesOfSpec(ls: seq<Line>, order: seq<string>)
    requires forall x | x in Names(ls) :: x in order
    ensures forall x | x in EdgesOf(ls, order) :: x in Names(ls)
    ensures forall x | x in EdgesOf(ls, order) :: EdgesOf(ls, order)[x].left < |order| && EdgesOf(ls, order)[x].right < |order|
    decreases |ls|
  {
    if ls != [] {
      var l := ls[|ls| - 1];
      assert Names(ls) == Names(ls[..|ls| - 1]) + [l.node, l.left, l.right];
      EdgesOfSpec(ls[..|ls| - 1], order);
    }
  }

  /** The last line for a node decides its successors. */
  lemma {:induction false} EdgesOfLast(ls: seq<Line>, order: seq<string>, i: nat)
    requires i < |ls| && forall j | i < j < |ls| :: ls[j].node != ls[i].node
    ensures ls[i].node in EdgesOf(ls, order)
    ensures EdgesOf(ls, order)[ls[i].node] == Edge(IndexOf(order, ls[i].left), IndexOf(order, ls[i].right))
    decreases |ls|
  {
    if i < |ls| - 1 {
      EdgesOfLast(ls[..|ls| - 1], order, i);
    }
  }

  /** A parsed network is well formed. */
  lemma NetworkOfWellFormed(texts: seq<string>)
    requires NetworkOf(texts).Ok?
    ensures WellFormed(NetworkOf(texts).value)
  {
    var ls := LinesOf(texts).value;
    DedupOrder(Names(ls));
    DedupSame(Names(ls));
    EdgesOfSpec(ls, Dedup(Names(ls)));
  }

  /** `left`: the node at the stored left index of the node's edge. */
  function LeftOf(net: Network, node: string): (n: string)
    requires WellFormed(net) && node in net.edges
    ensures n in net.nodes
  {
    net.nodes[net.edges[node].left]
  }

  /** `right`: the node at the stored right index of the node's edge. */
  function RightOf(net: Network, node: string): (n: string)
    requires WellFormed(net) && node in net.edges
    ensures n in net.nodes
  {
    net.nodes[net.edges[node].right]
  }

  /** In a parsed network the left and right of a node are the names its
      last line gives. */
  lemma LeftRightOfParsed(texts: seq<string>, i: nat)
    requires NetworkOf(texts).Ok?
    requires i < |texts|
    requires forall j | i < j < |texts| :: LinesOf(texts).value[j].node != LinesOf(texts).value[i].node
    ensures WellFormed(NetworkOf(texts).value)
    ensures LinesOf(texts).value[i].node in NetworkOf(texts).value.edges
    ensures LeftOf(NetworkOf(texts).value, LinesOf(texts).value[i].node) == LinesOf(texts).value[i].left
    ensures RightOf(NetworkOf(texts).value, LinesOf(texts).value[i].node) == LinesOf(texts).value[i].right
  {
    NetworkOfWellFormed(texts);
    var ls := LinesOf(texts).value;
    var order := Dedup(Names(ls));
    NamesAt(ls, i);
    DedupSame(Names(ls));
    EdgesOfLast(ls, order, i);
  }

  lemma {:induction false} NamesAt(ls: seq<Line>, i: nat)
    requires i < |ls|
    ensures ls[i].node in Names(ls) && ls[i].left in Names(ls) && ls[i].right in Names(ls)
    decreases |ls|
  {
    if i < |ls| - 1 {
      NamesAt(ls[..|ls| - 1], i);
    }
  }

  // ---------------------------------------------------------------------
  // Reading the network

  /** The index map agrees with the list of names met so far. */
  ghost predicate Numbered(ids: map<string, nat>, index: nat, order: seq<string>) {
    index == |order|
    && (forall x :: x in ids <==> x in order)
    && (forall x | x in ids :: ids[x] == IndexOf(order, x))
  }

  lemma DedupStep(names: seq<string>, x: string)
    ensures Dedup(names + [x]) == if x in Dedup(names) then Dedup(names) else Dedup(names) + [x]
  {
    assert (names + [x])[..|names|] == names;
  }

  /** A new name goes to the back of the list, under the next number. */
  lemma NumberedGrow(ids: map<string, nat>, index: nat, order: seq<string>, name: string)
    requires Numbered(ids, index, order) && name !in ids
    ensures Numbered(ids[name := index], index + 1, order + [name])
  {
    var o := order + [name];
    forall x | x in order
      ensures IndexOf(o, x) == IndexOf(order, x)
    {
      IndexOfPrefix(order, [name], x);
    }
    assert IndexOf(o, name) == index by {
      assert o[index] == name;
    }
  }

  /** The part of `add_node` that hands out indices: a new name gets the
      next index, a known name keeps its own; either way the number is the
      name's place among the names met so far without repeats. */
  method AddNode(ids: map<string, nat>, index: nat, name: string, ghost names: seq<string>) returns (ids': map<string, nat>, index': nat, id: nat)
    requires Numbered(ids, index, Dedup(names))
    ensures name in ids ==> ids' == ids && index' == index && id == ids[name]
    ensures name !in ids ==> ids' == ids[name := index] && index' == index + 1 && id == index
    ensures Numbered(ids', index', Dedup(names + [name])) && Dedup(names) <= Dedup(names + [name])
    ensures name in Dedup(names + [name]) && id == IndexOf(Dedup(names + [name]), name)
  {
    DedupStep(names, name);
    if name in ids {
      return ids, index, ids[name];
    }
    NumberedGrow(ids, index, Dedup(names), name);
    return ids[name := index], index + 1, index;
  }

  lemma NamesStep(ls: seq<Line>, l: Line)
    ensures Names(ls + [l]) == Names(ls) + [l.node, l.left, l.right]
  {
    assert (ls + [l])[..|ls|] == ls;
  }

  lemma {:induction false} EdgesOfWider(ls: seq<Line>, order: seq<string>, more: seq<string>)
    requires forall x | x in Names(ls) :: x in order
    ensures EdgesOf(ls, order + more) == EdgesOf(ls, order)
    decreases |ls|
  {
    if ls != [] {
      var l := ls[|ls| - 1];
      assert Names(ls) == Names(ls[..|ls| - 1]) + [l.node, l.left, l.right];
      EdgesOfWider(ls[..|ls| - 1], order, more);
      IndexOfPrefix(order, more, l.left);
      IndexOfPrefix(order, more, l.right);
    }
  }

  lemma EdgesOfStep(ls: seq<Line>, l: Line, before: seq<string>, order: seq<string>)
    requires before == Dedup(Names(ls)) && before <= order
    ensures EdgesOf(ls + [l], order) == EdgesOf(ls, before)[l.node := Edge(IndexOf(order, l.left), IndexOf(order, l.right))]
  {
    DedupSame(Names(ls));
    EdgesOfWider(ls, before, order[|before|..]);
    assert before + order[|before|..] == order;
    assert (ls + [l])[..|ls|] == ls;
  }

  /** The first two calls of `add_node` for a line: its node, then its
      left neighbour. */
  method AddNodeAndLeft(ids: map<string, nat>, index: nat, l: Line, ghost names: seq<string>)
    returns (ids': map<string, nat>, index': nat, leftId: nat)
    requires Numbered(ids, index, Dedup(names))
    ensures Numbered(ids', index', Dedup(names + [l.node, l.left]))
    ensures Dedup(names) <= Dedup(names + [l.node, l.left])
    ensures l.left in Dedup(names + [l.node, l.left]) && leftId == IndexOf(Dedup(names + [l.node, l.left]), l.left)
  {
    var id;
    ids', index', id := AddNode(ids, index, l.node, names);
    assert names + [l.node] + [l.left] == names + [l.node, l.left];
    ids', index', leftId := AddNode(ids', index', l.left, names + [l.node]);
  }

  /** The loop body of `Network::parse`: number the node and its two
      neighbours, then record the node's successors by number. */
  method AddLine(ids: map<string, nat>, index: nat, edges: map<string, Edge>, l: Line, ghost ls: seq<Line>)
    returns (ids': map<string, nat>, index': nat, edges': map<string, Edge>)
    requires Numbered(ids, index, Dedup(Names(ls))) && edges == EdgesOf(ls, Dedup(Names(ls)))
    ensures Numbered(ids', index', Dedup(Names(ls + [l])))
    ensures edges' == EdgesOf(ls + [l], Dedup(Names(ls + [l])))
  {
    ghost var names := Names(ls);
    ghost var o2, o3 := Dedup(names + [l.node, l.left]), Dedup(names + [l.node, l.left, l.right]);
    var leftId, rightId;
    ids', index', leftId := AddNodeAndLeft(ids, index, l, names);
    assert names + [l.node, l.left] + [l.right] == names + [l.node, l.left, l.right];
    ids', index', rightId := AddNode(ids', index', l.right, names + [l.node, l.left]);
    IndexOfLonger(o2, o3, l.left);
    NamesStep(ls, l);
    EdgesOfStep(ls, l, Dedup(names), o3);
    edges' := edges[l.node := Edge(leftId, rightId)];
  }

  /** The closing loop of `Network::parse`: every name goes to the slot of
      its number in a list of blanks. */
  method ListByIndex(ids: map<string, nat>, index: nat, ghost order: seq<string>) returns (nodes: seq<string>)
    requires Numbered(ids, index, order) && Distinct(order)
    ensures nodes == order
  {
    var list := new string[index](_ => "");
    var rest := ids.Keys;
    while rest != {}
      invariant rest <= ids.Keys
      invariant forall x | x in ids.Keys - rest :: list[ids[x]] == x
      decreases |rest|
    {
      var x :| x in rest;
      list[ids[x]] := x;
      rest := rest - {x};
    }
    forall p | 0 <= p < index
      ensures list[p] == order[p]
    {
      IndexOfDistinct(order, p);
    }
    return list[..];
  }

  /** `Network::parse`: read the lines one by one, number every name the
      first time it appears, record each node's successors, then list the
      names by number. */
  method Parse(texts: seq<string>) returns (r: Result<Network>)
    ensures r == NetworkOf(texts)
  {
    var ids: map<string, nat> := map[];
    var index := 0;
    var edges: map<string, Edge> := map[];
    ghost var ls: seq<Line> := [];
    for k := 0 to |texts|
      invariant LinesOf(texts[..k]) == Ok(ls)
      invariant Numbered(ids, index, Dedup(Names(ls)))
      invariant edges == EdgesOf(ls, Dedup(Names(ls)))
    {
      assert texts[..k + 1][..k] == texts[..k];
      var line := LineOf(texts[k]);
      if line.Err? {
        LinesOfPrefix(texts, k + 1);
        return Err(line.error);
      }
      ids, index, edges := AddLine(ids, index, edges, line.value, ls);
      ls := ls + [line.value];
    }
    assert texts[..|texts|] == texts;
    DedupOrder(Names(ls));
    var nodes := ListByIndex(ids, index, Dedup(Names(ls)));
    return Ok(Network(nodes, edges));
  }

  lemma {:induction false} LinesOfPrefix(texts: seq<string>, n: nat)
    requires n <= |texts| && LinesOf(texts[..n]).Err?
    ensures LinesOf(texts) == LinesOf(texts[..n])
    decreases |texts| - n
  {
    if n < |texts| {
      assert texts[..n + 1][..n] == texts[..n];
      LinesOfPrefix(texts, n + 1);
    } else {
      assert texts[..n] == texts;
    }
  }

  // ---------------------------------------------------------------------
  // Walking

  /** `left` or `right`: the node at the stored index of the node's edge.
      Nothing for a node without a line of its own, where `unwrap`
      panics. */
  function Follow(net: Network, node: string, d: Direction): (n: Option<string>)
    requires WellFormed(net)
    ensures n.Some? <==> node in net.edges
    ensures n.Some? ==> n.value in net.nodes
  {
    if node !in net.edges then None
    else match d
      case Left => Some(LeftOf(net, node))
      case Right => Some(RightOf(net, node))
  }

  predicate AllIn(nodes: seq<string>, within: seq<string>) {
    forall k | 0 <= k < |nodes| :: nodes[k] in within
  }

  /** Whether every node has a line of its own, so that it can move. */
  predicate CanMove(net: Network, nodes: seq<string>) {
    forall k | 0 <= k < |nodes| :: nodes[k] in net.edges
  }

  /** A list of nodes can move when its first node and the rest can. */
  lemma CanMoveCons(net: Network, nodes: seq<string>)
    requires nodes != []
    ensures CanMove(net, nodes) <==> nodes[0] in net.edges && CanMove(net, nodes[1..])
  {
    if nodes[0] in net.edges && CanMove(net, nodes[1..]) {
      forall k | 0 < k < |nodes|
        ensures nodes[k] in net.edges
      {
        assert nodes[k] == nodes[1..][k - 1];
      }
    }
  }

  /** Every node of the walk takes the same direction; nothing when one of
      them has no line of its own. */
  function StepAll(net: Network, nodes: seq<string>, d: Direction): (next: Option<seq<string>>)
    requires WellFormed(net)
    ensures next.Some? <==> CanMove(net, nodes)
    ensures next.Some? ==> |next.value| == |nodes| && AllIn(next.value, net.nodes)
  {
    if nodes == [] then Some([])
    else
      CanMoveCons(net, nodes);
      match Follow(net, nodes[0], d)
      case None => None
      case Some(n) =>
        match StepAll(net, nodes[1..], d)
        case None => None
        case Some(rest) => Some([n] + rest)
  }

  /** Where the nodes stand after following a list of directions, or
      nothing when some node has to move from a node without a line. */
  function Walk(net: Network, nodes: seq<string>, dirs: seq<Direction>): (at: Option<seq<string>>)
    requires WellFormed(net)
    ensures at.Some? ==> |at.value| == |nodes|
    decreases |dirs|
  {
    if dirs == [] then Some(nodes)
    else match StepAll(net, nodes, dirs[0])
      case None => None
      case Some(next) => Walk(net, next, dirs[1..])
  }

  /** The nodes of the network that satisfy `isStart`, in list order. */
  function Starts(nodes: seq<string>, isStart: string -> bool): (s: seq<string>)
    ensures AllIn(s, nodes)
  {
    if nodes == [] then []
    else (if isStart(nodes[0]) then [nodes[0]] else []) + Starts(nodes[1..], isStart)
  }

  predicate AllEnd(nodes: seq<string>, isEnd: string -> bool) {
    forall k | 0 <= k < |nodes| :: isEnd(nodes[k])
  }

  predicate SomeBack(nodes: seq<string>, starts: seq<string>)
    requires |nodes| == |starts|
  {
    exists k | 0 <= k < |nodes| :: nodes[k] == starts[k]
  }

  /** The walk from `nodes`, `steps` steps in, with the directions `dirs`
      still to come; an error where a node without a line has to move. */
  function Until(net: Network, starts: seq<string>, nodes: seq<string>, steps: nat, dirs: seq<Direction>, isEnd: string -> bool): Result<Option<nat>>
    requires WellFormed(net) && |nodes| == |starts|
    decreases |dirs|
  {
    if dirs == [] then Ok(None)
    else if AllEnd(nodes, isEnd) then Ok(Some(steps))
    else if steps > 0 && SomeBack(nodes, starts) then Ok(None)
    else match StepAll(net, nodes, dirs[0])
      case None => Err("Node has no edges")
      case Some(next) => Until(net, starts, next, steps + 1, dirs[1..], isEnd)
  }

  /** What `traverse_until` answers for the directions it is given. */
  function TraverseUntil(net: Network, isStart: string -> bool, isEnd: string -> bool, dirs: seq<Direction>): Result<Option<nat>>
    requires WellFormed(net)
  {
    var starts := Starts(net.nodes, isStart);
    Until(net, starts, starts, 0, dirs, isEnd)
  }

  /** `nodes.iter().all(is_end)`. */
  method AllAtEnd(nodes: seq<string>, isEnd: string -> bool) returns (all: bool)
    ensures all == AllEnd(nodes, isEnd)
  {
    all := true;
    for j := 0 to |nodes|
      invariant all <==> forall m | 0 <= m < j :: isEnd(nodes[m])
    {
      if !isEnd(nodes[j]) {
        all := false;
      }
    }
  }

  /** The search for a node that stands on its own start again. */
  method AnyBack(nodes: seq<string>, starts: seq<string>) returns (back: bool)
    requires |nodes| == |starts|
    ensures back == SomeBack(nodes, starts)
  {
    back := false;
    for j := 0 to |nodes|
      invariant back <==> exists m | 0 <= m < j :: nodes[m] == starts[m]
    {
      if nodes[j] == starts[j] {
        back := true;
      }
    }
  }

  /** Every node, in place, moves the same way; the first node without a
      line stops the loop. */
  method StepEach(net: Network, nodes: seq<string>, d: Direction) returns (next: Option<seq<string>>)
    requires WellFormed(net)
    ensures next == StepAll(net, nodes, d)
  {
    var moved := nodes;
    for j := 0 to |nodes|
      invariant |moved| == |nodes|
      invariant forall m | 0 <= m < j :: Follow(net, nodes[m], d) == Some(moved[m])
      invariant forall m | j <= m < |nodes| :: moved[m] == nodes[m]
    {
      var n := Follow(net, moved[j], d);
      if n.None? {
        assert !CanMove(net, nodes);
        return None;
      }
      moved := moved[j := n.value];
    }
    StepAllOf(net, nodes, d, moved);
    return Some(moved);
  }

  /** A sequence that follows the direction from each node, position by
      position, is the step of all of them. */
  lemma {:induction false} StepAllOf(net: Network, nodes: seq<string>, d: Direction, next: seq<string>)
    requires WellFormed(net)
    requires |next| == |nodes| && forall m | 0 <= m < |nodes| :: Follow(net, nodes[m], d) == Some(next[m])
    ensures StepAll(net, nodes, d) == Some(next)
    decreases |nodes|
  {
    if nodes != [] {
      StepAllOf(net, nodes[1..], d, next[1..]);
      assert next == [next[0]] + next[1..];
    }
  }

  /** `traverse_until`: before each direction, stop with the step count
      when every node is an end, or with nothing when, after the first
      step, some node is back at its own start; otherwise move every node
      the same way, failing where a node has no line. Nothing when the
      directions run out. */
  method Traverse(net: Network, isStart: string -> bool, isEnd: string -> bool, dirs: seq<Direction>) returns (r: Result<Option<nat>>)
    requires WellFormed(net)
    ensures r == TraverseUntil(net, isStart, isEnd, dirs)
  {
    var steps := 0;
    var starts := Starts(net.nodes, isStart);
    var nodes := starts;
    for k := 0 to |dirs|
      invariant steps == k && |nodes| == |starts|
      invariant TraverseUntil(net, isStart, isEnd, dirs) == Until(net, starts, nodes, steps, dirs[k..], isEnd)
    {
      assert dirs[k..][0] == dirs[k] && dirs[k..][1..] == dirs[k + 1..];
      var allEnd := AllAtEnd(nodes, isEnd);
      if allEnd {
        return Ok(Some(steps));
      }
      if steps > 0 {
        var back := AnyBack(nodes, starts);
        if back {
          return Ok(None);
        }
      }
      var next := StepEach(net, nodes, dirs[k]);
      if next.None? {
        return Err("Node has no edges");
      }
      nodes := next.value;
      steps := steps + 1;
    }
    assert dirs[|dirs|..] == [];
    return Ok(None);
  }

  /** Walking a prefix of the directions is one step, then the rest. */
  lemma WalkFirst(net: Network, nodes: seq<string>, dirs: seq<Direction>, m: nat)
    requires WellFormed(net)
    requires 0 < m <= |dirs| && StepAll(net, nodes, dirs[0]).Some?
    ensures Walk(net, nodes, dirs[..m]) == Walk(net, StepAll(net, nodes, dirs[0]).value, dirs[1..][..m - 1])
  {
    assert dirs[..m][0] == dirs[0];
    assert dirs[..m][1..] == dirs[1..][..m - 1];
  }

  /** An answer of `s` means the walk of that many directions ends with
      every node on an end, and no shorter walk did. */
  lemma {:induction false} UntilSome(net: Network, starts: seq<string>, nodes: seq<string>, steps: nat, dirs: seq<Direction>, isEnd: string -> bool, s: nat)
    requires WellFormed(net) && |nodes| == |starts|
    requires Until(net, starts, nodes, steps, dirs, isEnd) == Ok(Some(s))
    ensures steps <= s < steps + |dirs|
    ensures Walk(net, nodes, dirs[..s - steps]).Some? && AllEnd(Walk(net, nodes, dirs[..s - steps]).value, isEnd)
    ensures forall t | 0 <= t < s - steps :: Walk(net, nodes, dirs[..t]).Some? && !AllEnd(Walk(net, nodes, dirs[..t]).value, isEnd)
    decreases |dirs|
  {
    if !AllEnd(nodes, isEnd) {
      var next := StepAll(net, nodes, dirs[0]).value;
      UntilSome(net, starts, next, steps + 1, dirs[1..], isEnd, s);
      WalkFirst(net, nodes, dirs, s - steps);
      forall t | 0 <= t < s - steps
        ensures Walk(net, nodes, dirs[..t]).Some? && !AllEnd(Walk(net, nodes, dirs[..t]).value, isEnd)
      {
        if t > 0 {
          WalkFirst(net, nodes, dirs, t);
        } else {
          assert dirs[..0] == [];
        }
      }
    } else {
      assert dirs[..0] == [];
    }
  }

  /** What an answer of `traverse_until` means: after `s` directions every
      walker is on an end, and after none fewer. */
  lemma TraverseSome(net: Network, isStart: string -> bool, isEnd: string -> bool, dirs: seq<Direction>, s: nat)
    requires WellFormed(net) && TraverseUntil(net, isStart, isEnd, dirs) == Ok(Some(s))
    ensures s < |dirs|
    ensures Walk(net, Starts(net.nodes, isStart), dirs[..s]).Some?
    ensures AllEnd(Walk(net, Starts(net.nodes, isStart), dirs[..s]).value, isEnd)
    ensures forall t | 0 <= t < s :: Walk(net, Starts(net.nodes, isStart), dirs[..t]).Some?
                                  && !AllEnd(Walk(net, Starts(net.nodes, isStart), dirs[..t]).value, isEnd)
  {
    var starts := Starts(net.nodes, isStart);
    assert Until(net, starts, starts, 0, dirs, isEnd) == Ok(Some(s));
    UntilSome(net, starts, starts, 0, dirs, isEnd, s);
    assert dirs[..s - 0] == dirs[..s];
    forall t | 0 <= t < s
      ensures Walk(net, starts, dirs[..t]).Some? && !AllEnd(Walk(net, starts, dirs[..t]).value, isEnd)
    {
      assert t < s - 0;
    }
  }

  /** Without directions there is no answer; with some, the answer is 0
      exactly when every start is already an end. */
  lemma TraverseAtOnce(net: Network, isStart: string -> bool, isEnd: string -> bool, dirs: seq<Direction>)
    requires WellFormed(net)
    ensures dirs == [] ==> TraverseUntil(net, isStart, isEnd, dirs) == Ok(None)
    ensures dirs != [] ==> (TraverseUntil(net, isStart, isEnd, dirs) == Ok(Some(0)) <==> AllEnd(Starts(net.nodes, isStart), isEnd))
  {
    if TraverseUntil(net, isStart, isEnd, dirs) == Ok(Some(0)) {
      TraverseSome(net, isStart, isEnd, dirs, 0);
      assert dirs[..0] == [];
    }
  }

  /** A node back at its own start after some steps ends the walk with
      nothing, unless every node is on an end at that moment. */
  lemma UntilBack(net: Network, starts: seq<string>, nodes: seq<string>, steps: nat, dirs: seq<Direction>, isEnd: string -> bool, k: nat)
    requires WellFormed(net) && |nodes| == |starts|
    requires steps > 0 && dirs != [] && k < |nodes| && nodes[k] == starts[k] && !AllEnd(nodes, isEnd)
    ensures Until(net, starts, nodes, steps, dirs, isEnd) == Ok(None)
  {
  }

  /** More directions do not change an answer already found, so a long
      enough run of the endless direction loop gives the same answer as
      any longer one. */
  lemma {:induction false} UntilExtend(net: Network, starts: seq<string>, nodes: seq<string>, steps: nat, dirs: seq<Direction>, more: seq<Direction>, isEnd: string -> bool)
    requires WellFormed(net) && |nodes| == |starts|
    requires Until(net, starts, nodes, steps, dirs, isEnd).Ok? && Until(net, starts, nodes, steps, dirs, isEnd).value.Some?
    ensures Until(net, starts, nodes, steps, dirs + more, isEnd) == Until(net, starts, nodes, steps, dirs, isEnd)
    decreases |dirs|
  {
    assert (dirs + more)[0] == dirs[0];
    if !AllEnd(nodes, isEnd) {
      assert (dirs + more)[1..] == dirs[1..] + more;
      UntilExtend(net, starts, StepAll(net, nodes, dirs[0]).value, steps + 1, dirs[1..], more, isEnd);
    }
  }

  /** Every node of the network has a line of its own. */
  ghost predicate Closed(net: Network) {
    WellFormed(net) && forall x | x in net.nodes :: x in net.edges
  }

  /** In a network where every node has a line, the walk never fails. */
  lemma {:induction false} UntilClosed(net: Network, starts: seq<string>, nodes: seq<string>, steps: nat, dirs: seq<Direction>, isEnd: string -> bool)
    requires Closed(net) && AllIn(nodes, net.nodes) && |nodes| == |starts|
    ensures Until(net, starts, nodes, steps, dirs, isEnd).Ok?
    decreases |dirs|
  {
    if dirs != [] && !AllEnd(nodes, isEnd) && !(steps > 0 && SomeBack(nodes, starts)) {
      assert CanMove(net, nodes);
      UntilClosed(net, starts, StepAll(net, nodes, dirs[0]).value, steps + 1, dirs[1..], isEnd);
    }
  }

  /** `traverse_until` never panics on a network where every node has a
      line. */
  lemma TraverseClosed(net: Network, isStart: string -> bool, isEnd: string -> bool, dirs: seq<Direction>)
    requires Closed(net)
    ensures TraverseUntil(net, isStart, isEnd, dirs).Ok?
  {
    var starts := Starts(net.nodes, isStart);
    UntilClosed(net, starts, starts, 0, dirs, isEnd);
  }

  /** The network of the single line `AAA = (BBB, BBB)`: BBB has no line
      of its own, yet the walk from AAA reaches it after one step and
      stops there before it would move from it. */
  function OneLine(): (net: Network)
    ensures WellFormed(net) && !Closed(net)
  {
    var net := Network(["AAA", "BBB"], map["AAA" := Edge(1, 1)]);
    assert net.nodes[0] == "AAA" && net.nodes[1] == "BBB";
    assert "BBB" in net.nodes && "BBB" !in net.edges;
    net
  }

  /** `OneLine` is what `parse` reads from that line. */
  lemma OneLineParsed()
    ensures NetworkOf([LineText(Line("AAA", "BBB", "BBB"))]) == Ok(OneLine())
  {
    var l := Line("AAA", "BBB", "BBB");
    OneLineLines(l);
    OneLineOrder([l]);
  }

  lemma OneLineLines(l: Line)
    requires l == Line("AAA", "BBB", "BBB")
    ensures LinesOf([LineText(l)]) == Ok([l])
  {
    PlainNames();
    LineRoundTrip(l);
    LinesOfOne(LineText(l), l);
  }

  lemma PlainNames()
    ensures PlainName("AAA") && PlainName("BBB")
  {
    assert forall i | 0 <= i < 3 :: "AAA"[i] == 'A';
    assert forall i | 0 <= i < 3 :: "BBB"[i] == 'B';
  }

  lemma LinesOfOne(text: string, l: Line)
    requires LineOf(text) == Ok(l)
    ensures LinesOf([text]) == Ok([l])
  {
    assert [text][..0] == [];
    assert LinesOf([]) == Ok([]);
    assert [] + [l] == [l];
  }

  lemma OneLineOrder(ls: seq<Line>)
    requires ls == [Line("AAA", "BBB", "BBB")]
    ensures Dedup(Names(ls)) == ["AAA", "BBB"]
    ensures EdgesOf(ls, ["AAA", "BBB"]) == map["AAA" := Edge(1, 1)]
  {
    assert ls[..0] == [];
    assert Names(ls) == ["AAA", "BBB", "BBB"];
    var names := ["AAA", "BBB", "BBB"];
    assert names[..2][..1][..0] == [];
    assert Dedup(names[..1]) == ["AAA"];
    assert names[..2][..1] == names[..1];
    assert Dedup(names[..2]) == ["AAA", "BBB"];
    var order := ["AAA", "BBB"];
    assert IndexOf(order, "BBB") == 1 by {
      assert order[1..] == ["BBB"];
    }
  }

  /** On `AAA = (BBB, BBB)`, from AAA to BBB, the answer is one step: the
      walk stops at BBB before it would look up BBB's missing line. */
  lemma TraverseOneLine()
    ensures TraverseUntil(OneLine(), s => s == "AAA", s => s == "BBB", [Left, Right]) == Ok(Some(1))
  {
    var net := OneLine();
    var starts := Starts(net.nodes, s => s == "AAA");
    assert Starts(net.nodes[1..], s => s == "AAA") == [] by {
      assert net.nodes[1..][1..] == [];
    }
    assert starts == ["AAA"];
    assert StepAll(net, ["AAA"], Left) == Some(["BBB"]) by {
      assert ["AAA"][1..] == [];
      assert StepAll(net, [], Left) == Some([]);
      assert ["BBB"] + [] == ["BBB"];
      assert Follow(net, "AAA", Left) == Some("BBB");
    }
    assert [Left, Right][1..] == [Right];
  }

  // ---------------------------------------------------------------------
  // Following directions from one node

  /** `traverse` as written: both arms of its match take the left edge,
      so a Right is followed as a Left. Nothing where a node without a
      line has to move. */
  function TraverseAsWritten(net: Network, node: string, dirs: seq<Direction>): (n: Option<string>)
    requires WellFormed(net)
    ensures n.Some? ==> n.value == node || n.value in net.nodes
    decreases |dirs|
  {
    if dirs == [] then Some(node)
    else match Follow(net, node, Left)
      case None => None
      case Some(next) => TraverseAsWritten(net, next, dirs[1..])
  }

  /** `traverse` as intended: each direction picks its own edge. */
  function TraverseFrom(net: Network, node: string, dirs: seq<Direction>): (n: Option<string>)
    requires WellFormed(net)
    ensures n.Some? ==> n.value == node || n.value in net.nodes
    decreases |dirs|
  {
    if dirs == [] then Some(node)
    else match Follow(net, node, dirs[0])
      case None => None
      case Some(next) => TraverseFrom(net, next, dirs[1..])
  }

  /** Following directions from one node is the walk of a single walker. */
  lemma {:induction false} TraverseFromWalk(net: Network, node: string, dirs: seq<Direction>)
    requires WellFormed(net)
    ensures Walk(net, [node], dirs).Some? <==> TraverseFrom(net, node, dirs).Some?
    ensures TraverseFrom(net, node, dirs).Some? ==> Walk(net, [node], dirs).value == [TraverseFrom(net, node, dirs).value]
    decreases |dirs|
  {
    if dirs != [] {
      assert [node][1..] == [];
      match Follow(net, node, dirs[0])
      case None =>
        assert StepAll(net, [node], dirs[0]) == None;
      case Some(next) =>
        assert StepAll(net, [], dirs[0]) == Some([]);
        assert [next] + [] == [next];
        assert StepAll(net, [node], dirs[0]) == Some([next]);
        TraverseFromWalk(net, next, dirs[1..]);
    }
  }

  /** A network where Left and Right lead to different places from AAA. */
  function Fork(): (net: Network)
    ensures Closed(net)
  {
    var net := Network(["AAA", "BBB", "CCC"], map["AAA" := Edge(1, 2), "BBB" := Edge(1, 1), "CCC" := Edge(2, 2)]);
    assert net.nodes[0] == "AAA" && net.nodes[1] == "BBB" && net.nodes[2] == "CCC";
    net
  }

  /** As written, a single Right from AAA ends at BBB, the left neighbour,
      where the intended walk ends at CCC. */
  lemma TraverseRightGoesLeft()
    ensures TraverseAsWritten(Fork(), "AAA", [Right]) == Some("BBB")
    ensures TraverseFrom(Fork(), "AAA", [Right]) == Some("CCC")
  {
    var net := Fork();
    assert [Right][1..] == [];
  }
}
