/** Day 1, "Trebuchet?!": calibration values are read from the first and
    last digit of a line, where a digit may also be spelled out as one of the
    words "one" .. "nine". */
module Trebuchet {
  import opened Wrappers
  import opened Text

  /** The spelled-out digits, in value order. */
  const Words: seq<string> := ["one", "two", "three", "four", "five", "six", "seven", "eight", "nine"]

  /** The table from number word to its digit. */
  const Digits: map<string, string> := map[
    "one" := "1", "two" := "2", "three" := "3", "four" := "4", "five" := "5",
    "six" := "6", "seven" := "7", "eight" := "8", "nine" := "9"]

  /** The table holds exactly the nine words, and the k-th word maps to the
      digit k + 1. */
  lemma DigitsTable()
    ensures forall w :: w in Digits <==> w in Words
    ensures forall k :: 0 <= k < |Words| ==> Digits[Words[k]] == [DigitChar(k + 1)]
    ensures |Words| == 9
  {
    assert |Words| == 9;
    forall w | w in Digits
      ensures w in Words
    {
      DigitsKeys(w);
    }
    forall k | 0 <= k < |Words|
      ensures Words[k] in Digits && Digits[Words[k]] == [DigitChar(k + 1)]
    {
    }
  }

  /** Every number word is at least three letters long and maps to a single
      digit other than '0'. */
  lemma WordShape(w: string)
    requires w in Digits
    ensures |w| >= 3 && IsAlpha(w[0])
    ensures |Digits[w]| == 1 && IsDigit(Digits[w][0]) && Digits[w][0] != '0'
  {
  }

  /** No number word is a proper prefix of another one. */
  lemma PrefixWord(a: string, b: string)
    requires a in Digits && b in Digits && |a| <= |b| && b[..|a|] == a
    ensures a == b
  {
    DigitsKeys(a);
    DigitsKeys(b);
    assert a[0] == b[0] && a[1] == b[1] && a[2] == b[2];
  }

  /** So at any position at most one word can start. */
  lemma WordsPrefixFree(s: string, i: nat, e1: nat, e2: nat)
    requires i <= e1 <= e2 <= |s|
    requires s[i..e1] in Digits && s[i..e2] in Digits
    ensures e1 == e2
  {
    assert s[i..e2][..e1 - i] == s[i..e1];
    PrefixWord(s[i..e1], s[i..e2]);
  }

  lemma DigitsKeys(w: string)
    requires w in Digits
    ensures w == "one" || w == "two" || w == "three" || w == "four" || w == "five"
         || w == "six" || w == "seven" || w == "eight" || w == "nine"
  {
  }

  // ---------------------------------------------------------------------
  // extract_digits_and_words

  /** What the scan records for the substring `c`: the digit itself when `c`
      is one decimal digit, and the table value when `c` is a number word.
      `u8::from_str` on a single character accepts exactly the digits. */
  function MatchValue(c: string): (r: Option<string>)
    ensures r.Some? ==> |r.value| == 1 && IsDigit(r.value[0])
  {
    if |c| == 1 && IsDigit(c[0]) then Some(c)
    else if c in Digits then Some(Digits[c])
    else None
  }

  predicate IsMatch(s: string, i: nat, e: nat) {
    i < e <= |s| && MatchValue(s[i..e]).Some?
  }

  /** (i1, e1) comes strictly before (i2, e2) in the scan order: by start,
      then by end. */
  predicate Before(i1: nat, e1: nat, i2: nat, e2: nat) {
    i1 < i2 || (i1 == i2 && e1 < e2)
  }

  /** No match starts before position (i, e) in scan order. */
  ghost predicate NoMatchBefore(s: string, i: nat, e: nat) {
    forall i': nat, e': nat :: Before(i', e', i, e) ==> !IsMatch(s, i', e')
  }

  /** No match lies strictly between positions (i1, e1) and (i2, e2). */
  ghost predicate NoMatchBetween(s: string, i1: nat, e1: nat, i2: nat, e2: nat) {
    forall i': nat, e': nat :: Before(i1, e1, i', e') && Before(i', e', i2, e2) ==> !IsMatch(s, i', e')
  }

  /** What one step of the scan pushes for `c`: the digit test and the table
      lookup are tried one after the other. */
  function Pushed(c: string): (r: seq<string>)
    ensures r == (if MatchValue(c).Some? then [MatchValue(c).value] else [])
  {
    assert c in Digits ==> |c| >= 3 by {
      if c in Digits {
        WordShape(c);
      }
    }
    (if |c| == 1 && IsDigit(c[0]) then [c] else []) + (if c in Digits then [Digits[c]] else [])
  }

  /** Everything the scan has pushed before it reaches (i, e): all
      substrings in order of start, then end. */
  ghost function Scan(s: string, i: nat, e: nat): seq<string>
    requires i <= |s| && i < e <= |s| + 1
    decreases i, e
  {
    if e == i + 1 then (if i == 0 then [] else Scan(s, i - 1, |s| + 1))
    else Scan(s, i, e - 1) + Pushed(s[i..e - 1])
  }

  /** The position the scan visits just before (i, e), and how the scan
      and the "no match" facts extend from there to (i, e). */
  lemma ScanPrevious(s: string, i: nat, e: nat) returns (pi: nat, pe: nat)
    requires i <= |s| && i < e <= |s| + 1 && (i, e) != (0, 1)
    ensures pi <= |s| && pi < pe <= |s| + 1 && Before(pi, pe, i, e)
    ensures Scan(s, i, e) == Scan(s, pi, pe) + (if IsMatch(s, pi, pe) then [MatchValue(s[pi..pe]).value] else [])
    ensures NoMatchBefore(s, i, e) <==> NoMatchBefore(s, pi, pe) && !IsMatch(s, pi, pe)
    ensures NoMatchBetween(s, pi, pe, i, e)
    ensures forall li: nat, le: nat :: Before(li, le, pi, pe) ==>
              (NoMatchBetween(s, li, le, i, e) <==> NoMatchBetween(s, li, le, pi, pe) && !IsMatch(s, pi, pe))
  {
    if e == i + 1 {
      pi, pe := i - 1, |s| + 1;
    } else {
      pi, pe := i, e - 1;
    }
    forall i': nat, e': nat | Before(i', e', i, e)
      ensures Before(i', e', pi, pe) || (i' == pi && e' == pe) || !IsMatch(s, i', e')
    {
    }
  }

  /** The scan has pushed nothing exactly when no match came before. */
  lemma {:induction false} ScanEmpty(s: string, i: nat, e: nat)
    requires i <= |s| && i < e <= |s| + 1
    ensures Scan(s, i, e) == [] <==> NoMatchBefore(s, i, e)
    decreases i, e
  {
    if (i, e) != (0, 1) {
      var pi, pe := ScanPrevious(s, i, e);
      ScanEmpty(s, pi, pe);
    }
  }

  /** The first pushed value comes from the first match in scan order. */
  lemma {:induction false} ScanFirst(s: string, i: nat, e: nat) returns (fi: nat, fe: nat)
    requires i <= |s| && i < e <= |s| + 1
    requires Scan(s, i, e) != []
    ensures IsMatch(s, fi, fe) && Scan(s, i, e)[0] == MatchValue(s[fi..fe]).value
    ensures NoMatchBefore(s, fi, fe)
    decreases i, e
  {
    var pi, pe := ScanPrevious(s, i, e);
    if Scan(s, pi, pe) != [] {
      fi, fe := ScanFirst(s, pi, pe);
    } else {
      ScanEmpty(s, pi, pe);
      fi, fe := pi, pe;
    }
  }

  /** The last pushed value comes from the last match before (i, e). */
  lemma {:induction false} ScanLast(s: string, i: nat, e: nat) returns (li: nat, le: nat)
    requires i <= |s| && i < e <= |s| + 1
    requires Scan(s, i, e) != []
    ensures IsMatch(s, li, le) && Scan(s, i, e)[|Scan(s, i, e)| - 1] == MatchValue(s[li..le]).value
    ensures Before(li, le, i, e) && NoMatchBetween(s, li, le, i, e)
    decreases i, e
  {
    var pi, pe := ScanPrevious(s, i, e);
    if IsMatch(s, pi, pe) {
      li, le := pi, pe;
    } else {
      assert Scan(s, i, e) == Scan(s, pi, pe);
      li, le := ScanLast(s, pi, pe);
      assert NoMatchBetween(s, li, le, pi, pe);
    }
  }

  /** `v` is the value of the first match in scan order. */
  ghost predicate FirstMatchIs(s: string, v: string) {
    exists i: nat, e: nat :: IsMatch(s, i, e) && v == MatchValue(s[i..e]).value && NoMatchBefore(s, i, e)
  }

  /** `v` is the value of the last match in scan order. */
  ghost predicate LastMatchIs(s: string, v: string) {
    exists i: nat, e: nat :: IsMatch(s, i, e) && v == MatchValue(s[i..e]).value
                            && forall i': nat, e': nat :: Before(i, e, i', e') ==> !IsMatch(s, i', e')
  }

  /** Scans every substring `s[start..end]` in order of start, then end,
      pushing each single digit and each number word it sees, and returns
      the first and the last value pushed. Overlapping words such as "twone"
      both count. */
  method ExtractDigitsAndWords(s: string) returns (r: Option<(string, string)>)
    ensures r.None? <==> forall i: nat, e: nat :: !IsMatch(s, i, e)
    ensures r.Some? ==> FirstMatchIs(s, r.value.0) && LastMatchIs(s, r.value.1)
  {
    var start: nat := 0;
    var matches: seq<string> := [];
    while start < |s|
      invariant start <= |s|
      invariant matches == Scan(s, start, start + 1)
      decreases |s| - start
    {
      matches := ScanRow(s, start, matches);
      ScanNextRow(s, start);
      start := start + 1;
    }
    ScanDone(s);
    if matches != [] {
      r := Some((matches[0], matches[|matches| - 1]));
    } else {
      r := None;
    }
  }

  /** The inner loop of `extract_digits_and_words`: every substring that
      starts at `start`, shortest first; a one-digit substring pushes
      itself, and a number word pushes its digit. */
  method ScanRow(s: string, start: nat, matches0: seq<string>) returns (matches: seq<string>)
    requires start < |s| && matches0 == Scan(s, start, start + 1)
    ensures matches == Scan(s, start, |s| + 1)
  {
    matches := matches0;
    var end: nat := start + 1;
    while end <= |s|
      invariant start < end <= |s| + 1
      invariant matches == Scan(s, start, end)
      decreases |s| + 1 - end
    {
      matches := Push(s[start..end], matches);
      ScanStep(s, start, end);
      end := end + 1;
    }
  }

  /** The next start begins with everything the previous row pushed. */
  lemma ScanNextRow(s: string, start: nat)
    requires start < |s|
    ensures Scan(s, start + 1, start + 2) == Scan(s, start, |s| + 1)
  {
  }

  /** One more end position pushes what the substring before it gives. */
  lemma ScanStep(s: string, start: nat, end: nat)
    requires start < end <= |s|
    ensures Scan(s, start, end + 1) == Scan(s, start, end) + Pushed(s[start..end])
  {
  }

  /** One step of the inner loop: a one-digit substring pushes itself,
      then a number word pushes its digit. */
  method Push(check: string, matches0: seq<string>) returns (matches: seq<string>)
    ensures matches == matches0 + Pushed(check)
  {
    matches := matches0;
    if |check| == 1 && IsDigit(check[0]) {
      matches := matches + [check];
    }
    if check in Digits {
      WordShape(check);
      matches := matches + [Digits[check]];
    }
  }

  /** What the finished scan has pushed: nothing exactly when there is no
      match, and otherwise the first and the last match first and last. */
  lemma ScanDone(s: string)
    ensures Scan(s, |s|, |s| + 1) == [] <==> forall i: nat, e: nat :: !IsMatch(s, i, e)
    ensures var m := Scan(s, |s|, |s| + 1);
      m != [] ==> FirstMatchIs(s, m[0]) && LastMatchIs(s, m[|m| - 1])
  {
    var start, end := |s|, |s| + 1;
    ScanEmpty(s, start, end);
    var m := Scan(s, start, end);
    if m != [] {
      var fi, fe := ScanFirst(s, start, end);
      var li, le := ScanLast(s, start, end);
      assert forall i': nat, e': nat :: Before(li, le, i', e') ==> Before(i', e', start, end) || !IsMatch(s, i', e');
      assert FirstMatchIs(s, m[0]);
      assert LastMatchIs(s, m[|m| - 1]);
    }
  }

  // ---------------------------------------------------------------------
  // replace_words

  /** The end of the shortest number word that starts `s` at or after
      length `e`, scanning ends in increasing order as the source does. */
  function WordEnd(s: string, e: nat): (r: Option<nat>)
    requires e >= 1
    ensures r.Some? ==> e <= r.value <= |s| && s[..r.value] in Digits
    ensures r.Some? ==> forall e' :: e <= e' < r.value ==> s[..e'] !in Digits
    ensures r.None? ==> forall e' :: e <= e' <= |s| ==> s[..e'] !in Digits
    decreases |s| + 1 - e
  {
    if e > |s| then None
    else if s[..e] in Digits then Some(e)
    else WordEnd(s, e + 1)
  }

  /** Number words replaced by their digits, left to right: a word starting
      at the current position is replaced and scanning resumes just after the
      inserted digit; otherwise the current character is kept. */
  function Replaced(s: string): string
    decreases |s|
  {
    if s == [] then []
    else match WordEnd(s, 1)
      case Some(e) => Digits[s[..e]] + Replaced(s[e..])
      case None => [s[0]] + Replaced(s[1..])
  }

  /** A number word found as the shortest one at `start` is replaced. */
  lemma ReplacedWordAt(s: string, start: nat, end: nat)
    requires start < end <= |s| && s[start..end] in Digits
    requires forall e' :: start < e' < end ==> s[start..e'] !in Digits
    ensures Replaced(s[start..]) == Digits[s[start..end]] + Replaced(s[end..])
  {
    var rest := s[start..];
    assert rest[..end - start] == s[start..end];
    forall e' | 1 <= e' < end - start
      ensures rest[..e'] !in Digits
    {
      assert rest[..e'] == s[start..start + e'];
    }
    WordEndFirst(rest, 1, end - start);
    assert rest[end - start..] == s[end..];
  }

  /** With no number word at `start`, the character there is kept. */
  lemma ReplacedNoWordAt(s: string, start: nat)
    requires start < |s|
    requires forall e' :: start < e' <= |s| ==> s[start..e'] !in Digits
    ensures Replaced(s[start..]) == [s[start]] + Replaced(s[start + 1..])
  {
    var rest := s[start..];
    forall e' | 1 <= e' <= |rest|
      ensures rest[..e'] !in Digits
    {
      assert rest[..e'] == s[start..start + e'];
    }
    WordEndNone(rest, 1);
    assert rest[1..] == s[start + 1..];
  }

  /** The loop invariant of `ReplaceWords` survives replacing the word
      `s[start..end]` by its digit. */
  lemma ReplaceStep(input: string, s: string, start: nat, end: nat)
    requires start < end <= |s| && s[start..end] in Digits
    requires forall e' :: start < e' < end ==> s[start..e'] !in Digits
    requires Replaced(input) == s[..start] + Replaced(s[start..])
    ensures var next := s[..start] + Digits[s[start..end]] + s[end..];
      |next| < |s| && start + 1 <= |next| && Replaced(input) == next[..start + 1] + Replaced(next[start + 1..])
  {
    var word := s[start..end];
    var value := Digits[word];
    WordShape(word);
    assert |value| == 1 && |word| == end - start >= 3;
    ReplacedWordAt(s, start, end);
    assert Replaced(s[start..]) == value + Replaced(s[end..]);
    var next := s[..start] + value + s[end..];
    assert |next| == |s| - (end - start) + 1;
    assert next[..start + 1] == s[..start] + value;
    assert next[start + 1..] == s[end..];
  }

  /** The loop invariant of `ReplaceWords` survives keeping `s[start]`. */
  lemma KeepStep(input: string, s: string, start: nat)
    requires start < |s|
    requires forall e' :: start < e' <= |s| ==> s[start..e'] !in Digits
    requires Replaced(input) == s[..start] + Replaced(s[start..])
    ensures Replaced(input) == s[..start + 1] + Replaced(s[start + 1..])
  {
    ReplacedNoWordAt(s, start);
    assert s[..start + 1] == s[..start] + [s[start]];
  }

  /** `replace_words`: the outer loop keeps one character at a time; the
      inner loop, `ReplaceRun`, replaces the words that start at the
      current position. */
  method ReplaceWords(input: string) returns (s: string)
    ensures s == Replaced(input)
  {
    s := input;
    var start: nat := 0;
    while start < |s|
      invariant start <= |s|
      invariant Replaced(input) == s[..start] + Replaced(s[start..])
      decreases |s| - start
    {
      s, start := ReplaceRun(input, s, start);
      if start == |s| {
        break;
      }
      KeepStep(input, s, start);
      start := start + 1;
    }
    assert s[start..] == [];
  }

  /** The inner loop of `replace_words`: grow `s[start..end]` one character
      at a time and replace it as soon as it is a number word, then start
      over just after the inserted digit. It stops once no word starts at
      `start`. */
  method ReplaceRun(input: string, s0: string, start0: nat) returns (s: string, start: nat)
    requires start0 <= |s0| && Replaced(input) == s0[..start0] + Replaced(s0[start0..])
    ensures start <= |s| && |s| - start <= |s0| - start0
    ensures Replaced(input) == s[..start] + Replaced(s[start..])
    ensures forall e' :: start < e' <= |s| ==> s[start..e'] !in Digits
  {
    s, start := s0, start0;
    var end: nat := start + 1;
    while start < |s| && end <= |s|
      invariant start <= |s| && start < end <= |s| + 1
      invariant |s| - start <= |s0| - start0
      invariant Replaced(input) == s[..start] + Replaced(s[start..])
      invariant forall e' :: start < e' < end ==> s[start..e'] !in Digits
      decreases |s| - start, |s| + 1 - end
    {
      var toCheck := s[start..end];
      if toCheck in Digits {
        var value := Digits[toCheck];
        WordShape(toCheck);
        ReplaceStep(input, s, start, end);
        s := s[..start] + value + s[end..];
        start := start + |value|;
        end := start + 1;
      } else {
        end := end + 1;
      }
    }
  }

  /** When `e` is the first end (from `from` on) at which a word ends,
      `WordEnd` finds it. */
  lemma {:induction false} WordEndFirst(s: string, from: nat, e: nat)
    requires 1 <= from <= e <= |s|
    requires s[..e] in Digits
    requires forall e' :: from <= e' < e ==> s[..e'] !in Digits
    ensures WordEnd(s, from) == Some(e)
    decreases e - from
  {
    if from < e {
      WordEndFirst(s, from + 1, e);
    }
  }

  /** When no prefix from length `from` on is a word, `WordEnd` finds none. */
  lemma {:induction false} WordEndNone(s: string, from: nat)
    requires 1 <= from
    requires forall e' :: from <= e' <= |s| ==> s[..e'] !in Digits
    ensures WordEnd(s, from).None?
    decreases |s| + 1 - from
  {
    if from <= |s| {
      WordEndNone(s, from + 1);
    }
  }

  /** A text whose first character starts no number word keeps it. */
  lemma NoWordAtLead(s: string)
    requires s != [] && s[0] !in {'o', 't', 'f', 's', 'e', 'n'}
    ensures Replaced(s) == [s[0]] + Replaced(s[1..])
  {
    forall e' | 0 < e' <= |s|
      ensures s[0..e'] !in Digits
    {
      var p := s[0..e'];
      assert p[0] == s[0];
      if p in Digits {
        DigitsKeys(p);
      }
    }
    ReplacedNoWordAt(s, 0);
    assert s[0..] == s;
  }

  /** A text that starts with a number word has it replaced. */
  lemma WordAtLead(s: string, n: nat)
    requires n <= |s| && s[..n] in Digits
    ensures Replaced(s) == Digits[s[..n]] + Replaced(s[n..])
  {
    WordShape(s[..n]);
    forall e' | 0 < e' < n
      ensures s[0..e'] !in Digits
    {
      if s[0..e'] in Digits {
        WordsPrefixFree(s, 0, e', n);
      }
    }
    assert s[0..n] == s[..n];
    ReplacedWordAt(s, 0, n);
    assert s[0..] == s;
  }

  /** A string in which no number word occurs is returned unchanged. */
  lemma {:induction false} ReplacedWithoutWords(s: string)
    requires forall i, e :: 0 <= i <= e <= |s| ==> s[i..e] !in Digits
    ensures Replaced(s) == s
    decreases |s|
  {
    if s != [] {
      ReplacedNoWordAt(s, 0);
      assert s[0..] == s;
      var t := s[1..];
      forall i, e | 0 <= i <= e <= |t|
        ensures t[i..e] !in Digits
      {
        assert t[i..e] == s[i + 1..e + 1];
      }
      ReplacedWithoutWords(t);
    }
  }

  /** Replacing never makes the text longer: each word of three or more
      letters becomes a single digit. */
  lemma {:induction false} ReplacedNotLonger(s: string)
    ensures |Replaced(s)| <= |s|
    decreases |s|
  {
    if s != [] {
      match WordEnd(s, 1)
      case Some(e) =>
        WordShape(s[..e]);
        ReplacedNotLonger(s[e..]);
      case None =>
        ReplacedNotLonger(s[1..]);
    }
  }

  /** The examples of the source's test: "onetwothree" becomes "123", ... */
  lemma ReplacedExample1(a: string)
    requires a == "onetwothree"
    ensures Replaced(a) == "123"
  {
    ReplacedTwoThree(a[3..]);
    assert a[..3] == "one";
    WordAtLead(a, 3);
  }

  lemma ReplacedTwoThree(twothree: string)
    requires twothree == "twothree"
    ensures Replaced(twothree) == "23"
  {
    var two, three := twothree[..3], twothree[3..];
    assert two == "two" && three == "three";
    ReplacedThree(three);
    WordAtLead(twothree, 3);
    assert Replaced(twothree) == Digits[two] + Replaced(three);
  }

  lemma ReplacedThree(three: string)
    requires three == "three"
    ensures Replaced(three) == "3"
  {
    assert three[..5] == "three";
    WordAtLead(three, 5);
    assert three[5..] == [];
  }

  /** ... "xonetwothree" becomes "x123", ... */
  lemma ReplacedExample2(b: string)
    requires b == "xonetwothree"
    ensures Replaced(b) == "x123"
  {
    ReplacedExample1(b[1..]);
    NoWordAtLead(b);
  }

  /** ... and "12onetwox" becomes "1212x". */
  lemma ReplacedExample3(c: string)
    requires c == "12onetwox"
    ensures Replaced(c) == "1212x"
  {
    ReplacedOneTwoX(c[2..]);
    NoWordAtLead(c[1..]);
    assert c[1..][1..] == c[2..];
    NoWordAtLead(c);
  }

  lemma ReplacedOneTwoX(onetwox: string)
    requires onetwox == "onetwox"
    ensures Replaced(onetwox) == "12x"
  {
    var twox, x := onetwox[3..], onetwox[6..];
    NoWordAtLead(x);
    assert x[1..] == [];
    assert twox[..3] == "two";
    WordAtLead(twox, 3);
    assert twox[3..] == x;
    assert onetwox[..3] == "one";
    WordAtLead(onetwox, 3);
  }

  // ---------------------------------------------------------------------
  // extract_digits

  /** The decimal digits of `s`, in order. */
  function DigitsOf(s: string): (d: string)
    ensures AllDigits(d) && |d| <= |s|
    decreases |s|
  {
    if s == [] then [] else (if IsDigit(s[0]) then [s[0]] else []) + DigitsOf(s[1..])
  }

  lemma {:induction false} DigitsOfAppend(a: string, b: string)
    ensures DigitsOf(a + b) == DigitsOf(a) + DigitsOf(b)
    decreases |a|
  {
    if a != [] {
      assert (a + b)[1..] == a[1..] + b;
      DigitsOfAppend(a[1..], b);
    } else {
      assert a + b == b;
    }
  }

  /** The first and the last decimal digit of the text, if any. */
  function ExtractDigits(text: string): (r: Option<(char, char)>)
    ensures r.None? <==> forall i :: 0 <= i < |text| ==> !IsDigit(text[i])
    ensures r.Some? ==> exists i :: 0 <= i < |text| && text[i] == r.value.0 && IsDigit(text[i])
                                    && forall j :: 0 <= j < i ==> !IsDigit(text[j])
    ensures r.Some? ==> exists i :: 0 <= i < |text| && text[i] == r.value.1 && IsDigit(text[i])
                                    && forall j :: i < j < |text| ==> !IsDigit(text[j])
  {
    DigitsOfFirst(text);
    DigitsOfLast(text);
    var digits := DigitsOf(text);
    if |digits| > 0 then Some((digits[0], digits[|digits| - 1])) else None
  }

  /** The digits are empty exactly when the text has none, and the first one
      is the text's first digit. */
  lemma {:induction false} DigitsOfFirst(s: string)
    ensures DigitsOf(s) == [] <==> forall i :: 0 <= i < |s| ==> !IsDigit(s[i])
    ensures DigitsOf(s) != [] ==> exists i :: 0 <= i < |s| && s[i] == DigitsOf(s)[0] && IsDigit(s[i])
                                              && forall j :: 0 <= j < i ==> !IsDigit(s[j])
    decreases |s|
  {
    if s != [] {
      var t := s[1..];
      DigitsOfFirst(t);
      assert forall j :: 0 < j < |s| ==> s[j] == t[j - 1];
      if !IsDigit(s[0]) && DigitsOf(t) != [] {
        var i :| 0 <= i < |t| && t[i] == DigitsOf(t)[0] && IsDigit(t[i])
                 && forall j :: 0 <= j < i ==> !IsDigit(t[j]);
        assert s[i + 1] == t[i];
      }
    }
  }

  /** The last of the digits is the text's last digit. */
  lemma {:induction false} DigitsOfLast(s: string)
    ensures DigitsOf(s) != [] ==> exists i :: 0 <= i < |s| && s[i] == DigitsOf(s)[|DigitsOf(s)| - 1] && IsDigit(s[i])
                                              && forall j :: i < j < |s| ==> !IsDigit(s[j])
    decreases |s|
  {
    if s != [] {
      var n := |s| - 1;
      var init := s[..n];
      assert s == init + [s[n]];
      DigitsOfAppend(init, [s[n]]);
      assert [s[n]][1..] == [];
      if !IsDigit(s[n]) {
        DigitsOfLast(init);
        if DigitsOf(s) != [] {
          var i :| 0 <= i < |init| && init[i] == DigitsOf(init)[|DigitsOf(init)| - 1] && IsDigit(init[i])
                   && forall j :: i < j < |init| ==> !IsDigit(init[j]);
          assert s[i] == init[i];
          assert forall j :: i < j < |s| ==> !IsDigit(s[j]) by {
            assert forall j :: i < j < n ==> s[j] == init[j];
          }
        }
      }
    }
  }

  lemma ExtractDigitsExamples()
    ensures ExtractDigits("12") == Some(('1', '2'))
    ensures ExtractDigits("sdlfk3abc4sdbp") == Some(('3', '4'))
    ensures ExtractDigits("stuff7stuff") == Some(('7', '7'))
  {
    DigitsOfExample0();
    DigitsOfExample1();
    DigitsOfExample2();
  }

  lemma DigitsOfExample0()
    ensures DigitsOf("12") == "12"
  {
    assert "12"[1..] == "2";
    assert "2"[1..] == "";
  }

  lemma DigitsOfExample1()
    ensures DigitsOf("sdlfk3abc4sdbp") == "34"
  {
  }

  lemma DigitsOfExample2()
    ensures DigitsOf("stuff7stuff") == "7"
  {
    NoDigits("stuff");
    OneDigit('7');
    assert "stuff7stuff" == "stuff" + ("7" + "stuff");
    DigitsOfAppend("7", "stuff");
    DigitsOfAppend("stuff", "7" + "stuff");
  }

  lemma NoDigits(s: string)
    requires forall i :: 0 <= i < |s| ==> !IsDigit(s[i])
    ensures DigitsOf(s) == []
  {
    DigitsOfFirst(s);
  }

  lemma OneDigit(c: char)
    requires IsDigit(c)
    ensures DigitsOf([c]) == [c]
  {
    assert [c][1..] == [];
  }
}
