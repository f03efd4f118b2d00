/** Day 15, "Lens Library": the HASH function, the steps that insert and
    remove labelled lenses in 256 boxes, and the focusing power of the
    boxes once every step has run. */
module LensLibrary {
  import opened Wrappers
  import opened Text

  // ---------------------------------------------------------------------
  // HASH

  /** One step of `hash`: add the character code, multiply by 17, keep the
      remainder modulo 256. The sum of a value below 256 and a character
      code, times 17, stays below 2^32, so the `u32` arithmetic of the
      source never wraps. */
  function HashStep(h: nat, c: char): nat {
    ((h + c as int) * 17) % 256
  }

  /** The fold of `hash`, from an accumulator over the remaining text. */
  function HashFold(acc: nat, s: string): (h: nat)
    ensures acc < 256 ==> h < 256
    decreases |s|
  {
    if s == [] then acc else HashFold(HashStep(acc, s[0]), s[1..])
  }

  /** `hash`: the fold started from 0. */
  function Hash(s: string): nat {
    HashFold(0, s)
  }

  /** Every hash names one of the 256 boxes; the empty text hashes to 0. */
  lemma HashRange(s: string)
    ensures Hash(s) < 256
    ensures s == "" ==> Hash(s) == 0
  {
  }

  lemma {:induction false} HashFoldSnoc(acc: nat, s: string, c: char)
    ensures HashFold(acc, s + [c]) == HashStep(HashFold(acc, s), c)
    decreases |s|
  {
    if s == [] {
      assert s + [c] == [c];
    } else {
      assert (s + [c])[1..] == s[1..] + [c];
      HashFoldSnoc(HashStep(acc, s[0]), s[1..], c);
    }
  }

  /** The hash of a longer text is one more step from the hash of its
      prefix: the fold runs left to right. */
  lemma HashSnoc(s: string, c: char)
    ensures Hash(s + [c]) == HashStep(Hash(s), c)
  {
    HashFoldSnoc(0, s, c);
  }

  /** The worked example of the puzzle: "HASH" hashes to 52. */
  lemma HashExample()
    ensures Hash("HASH") == 52
  {
    assert HashStep(0, 'H') == 200;
    assert HashStep(200, 'A') == 153;
    assert HashStep(153, 'S') == 172;
    assert HashStep(172, 'H') == 52;
    HashSnoc("", 'H');
    HashSnoc("H", 'A');
    HashSnoc("HA", 'S');
    HashSnoc("HAS", 'H');
  }

  function SumHashes(steps: seq<string>): nat {
    if steps == [] then 0 else Hash(steps[0]) + SumHashes(steps[1..])
  }

  /** The first answer: the sum of the hashes of the comma-separated steps. */
  function HashSum(input: string): nat {
    SumHashes(Split(input, ","))
  }

  lemma {:induction false} SumHashesBound(steps: seq<string>)
    ensures SumHashes(steps) <= 255 * |steps|
    decreases |steps|
  {
    if steps != [] {
      SumHashesBound(steps[1..]);
      HashRange(steps[0]);
    }
  }

  /** Each step adds less than 256 to the first answer. */
  lemma HashSumBound(input: string)
    ensures HashSum(input) <= 255 * |Split(input, ",")|
  {
    SumHashesBound(Split(input, ","));
  }

  // ---------------------------------------------------------------------
  // One box

  /** A lens: its key and its focal length. */
  datatype Lens = Lens(key: string, focal: nat)

  /** The slot of the first lens with the key, if any (`find`). */
  function IndexOf(b: seq<Lens>, key: string): (r: Option<nat>)
    ensures r.Some? ==> r.value < |b|
  {
    if b == [] then None
    else if b[0].key == key then Some(0)
    else match IndexOf(b[1..], key)
      case None => None
      case Some(i) => Some(i + 1)
  }

  /** The focal length stored under a key in a box, if any. */
  function Lookup(b: seq<Lens>, key: string): Option<nat> {
    match IndexOf(b, key)
    case None => None
    case Some(i) => Some(b[i].focal)
  }

  /** `insert` on one box: replace the focal length of the lens with the
      key where it stands, or put a new lens at the back. */
  function Inserted(b: seq<Lens>, key: string, focal: nat): seq<Lens> {
    match IndexOf(b, key)
    case Some(i) => b[i := Lens(key, focal)]
    case None => b + [Lens(key, focal)]
  }

  /** `remove` on one box: `retain` every lens with another key. */
  function Removed(b: seq<Lens>, key: string): seq<Lens> {
    if b == [] then []
    else (if b[0].key == key then [] else [b[0]]) + Removed(b[1..], key)
  }

  /** No two lenses of a box share a key. */
  predicate UniqueLabels(b: seq<Lens>) {
    forall i, j :: 0 <= i < j < |b| ==> b[i].key != b[j].key
  }

  predicate Absent(b: seq<Lens>, key: string) {
    forall j :: 0 <= j < |b| ==> b[j].key != key
  }

  /** `IndexOf` finds the first lens with the key, and nothing when there
      is none. */
  lemma {:induction false} IndexOfSpec(b: seq<Lens>, key: string)
    ensures IndexOf(b, key).None? <==> Absent(b, key)
    ensures IndexOf(b, key).Some? ==>
              var i := IndexOf(b, key).value;
              b[i].key == key && forall j :: 0 <= j < i ==> b[j].key != key
    decreases |b|
  {
    if b != [] && b[0].key != key {
      IndexOfSpec(b[1..], key);
      assert forall j :: 1 <= j < |b| ==> b[j] == b[1..][j - 1];
    }
  }

  /** The first lens with the key is the one at `i`. */
  lemma IndexOfAt(b: seq<Lens>, key: string, i: nat)
    requires i < |b| && b[i].key == key
    requires forall j :: 0 <= j < i ==> b[j].key != key
    ensures IndexOf(b, key) == Some(i)
  {
    IndexOfSpec(b, key);
  }

  /** In a box with unique labels, the lens with the key is the only one. */
  lemma LookupUnique(b: seq<Lens>, key: string, i: nat)
    requires UniqueLabels(b) && i < |b| && b[i].key == key
    ensures IndexOf(b, key) == Some(i) && Lookup(b, key) == Some(b[i].focal)
  {
    IndexOfAt(b, key, i);
  }

  /** After `insert`, the key holds the new focal length, every other
      key holds what it held, labels stay unique, and the lenses keep
      their order: a replaced lens stays in its slot and a new lens goes
      last. */
  lemma InsertedSpec(b: seq<Lens>, key: string, focal: nat)
    requires UniqueLabels(b)
    ensures var b' := Inserted(b, key, focal);
            UniqueLabels(b')
            && Lookup(b', key) == Some(focal)
            && (forall other :: other != key ==> Lookup(b', other) == Lookup(b, other))
            && |b'| == (if Lookup(b, key).Some? then |b| else |b| + 1)
            && (forall j :: 0 <= j < |b| ==> b'[j].key == b[j].key)
            && (Lookup(b, key).None? ==> b'[|b|] == Lens(key, focal))
  {
    var b' := Inserted(b, key, focal);
    IndexOfSpec(b, key);
    match IndexOf(b, key)
    case Some(i) =>
      LookupUnique(b', key, i);
      forall other | other != key
        ensures Lookup(b', other) == Lookup(b, other)
      {
        IndexOfSpec(b, other);
        IndexOfSpec(b', other);
        if IndexOf(b, other).Some? {
          var o := IndexOf(b, other).value;
          IndexOfAt(b', other, o);
        }
      }
    case None =>
      assert UniqueLabels(b');
      IndexOfAt(b', key, |b|);
      forall other | other != key
        ensures Lookup(b', other) == Lookup(b, other)
      {
        IndexOfSpec(b, other);
        IndexOfSpec(b', other);
        if IndexOf(b, other).Some? {
          var o := IndexOf(b, other).value;
          IndexOfAt(b', other, o);
        }
      }
  }

  /** Every lens `remove` keeps was in the box, and none has the key. */
  lemma {:induction false} RemovedFrom(b: seq<Lens>, key: string)
    ensures forall j :: 0 <= j < |Removed(b, key)| ==>
              Removed(b, key)[j] in b && Removed(b, key)[j].key != key
    decreases |b|
  {
    if b != [] {
      RemovedFrom(b[1..], key);
      var head := if b[0].key == key then [] else [b[0]];
      var r := Removed(b, key);
      assert r == head + Removed(b[1..], key);
      forall j | 0 <= j < |r|
        ensures r[j] in b && r[j].key != key
      {
        if j >= |head| {
          assert r[j] == Removed(b[1..], key)[j - |head|];
          assert r[j] in b[1..];
        }
      }
    }
  }

  /** `remove` of a key no lens has leaves the box as it was. */
  lemma {:induction false} RemovedAbsent(b: seq<Lens>, key: string)
    requires Absent(b, key)
    ensures Removed(b, key) == b
    decreases |b|
  {
    if b != [] {
      assert Absent(b[1..], key) by {
        assert forall j :: 0 <= j < |b| - 1 ==> b[1..][j] == b[j + 1];
      }
      RemovedAbsent(b[1..], key);
      assert b == [b[0]] + b[1..];
    }
  }

  /** In a box with unique labels, `remove` takes out exactly the lens with
      the key and keeps the others in order. */
  lemma {:induction false} RemovedSlot(b: seq<Lens>, key: string, i: nat)
    requires UniqueLabels(b) && i < |b| && b[i].key == key
    ensures Removed(b, key) == b[..i] + b[i + 1..]
    decreases |b|
  {
    var tail := b[1..];
    assert UniqueLabels(tail) by {
      assert forall j :: 0 <= j < |tail| ==> tail[j] == b[j + 1];
    }
    if i == 0 {
      assert Absent(tail, key) by {
        assert forall j :: 0 <= j < |tail| ==> tail[j] == b[j + 1];
      }
      RemovedAbsent(tail, key);
      assert Removed(b, key) == Removed(tail, key);
    } else {
      assert tail[i - 1] == b[i];
      RemovedSlot(tail, key, i - 1);
      assert b[0].key != key;
      assert Removed(b, key) == [b[0]] + Removed(tail, key);
      assert [b[0]] + tail[..i - 1] == b[..i];
      assert tail[i..] == b[i + 1..];
    }
  }

  /** After `remove`, the key is gone, every other key holds what it
      held and labels stay unique. */
  /** Taking the lens in slot `i` out of a box with unique labels leaves
      its key absent and every other key with what it held. */
  lemma DeleteSlot(b: seq<Lens>, i: nat)
    requires UniqueLabels(b) && i < |b|
    ensures var d := b[..i] + b[i + 1..];
            UniqueLabels(d)
            && Absent(d, b[i].key)
            && forall other :: other != b[i].key ==> Lookup(d, other) == Lookup(b, other)
  {
    var d := b[..i] + b[i + 1..];
    assert forall j :: 0 <= j < i ==> d[j] == b[j];
    assert forall j :: i <= j < |d| ==> d[j] == b[j + 1];
    forall other | other != b[i].key
      ensures Lookup(d, other) == Lookup(b, other)
    {
      DeleteSlotLookup(b, i, other);
    }
  }

  lemma DeleteSlotLookup(b: seq<Lens>, i: nat, other: string)
    requires i < |b| && b[i].key != other
    ensures Lookup(b[..i] + b[i + 1..], other) == Lookup(b, other)
  {
    var d := b[..i] + b[i + 1..];
    IndexOfSpec(b, other);
    if IndexOf(b, other).Some? {
      var o := IndexOf(b, other).value;
      if o < i {
        forall j | 0 <= j <= o
          ensures d[j] == b[j]
        {
        }
        IndexOfAt(d, other, o);
      } else {
        forall j | 0 <= j < o - 1
          ensures d[j].key != other
        {
          assert d[j] == (if j < i then b[j] else b[j + 1]);
        }
        assert d[o - 1] == b[o];
        IndexOfAt(d, other, o - 1);
      }
    } else {
      forall j | 0 <= j < |d|
        ensures d[j].key != other
      {
        assert d[j] == (if j < i then b[j] else b[j + 1]);
      }
      IndexOfSpec(d, other);
    }
  }

  /** After `remove`, the key is gone, every other key holds what it held
      and keys stay unique. */
  lemma RemovedSpec(b: seq<Lens>, key: string)
    requires UniqueLabels(b)
    ensures var b' := Removed(b, key);
            UniqueLabels(b')
            && Lookup(b', key).None?
            && (forall other :: other != key ==> Lookup(b', other) == Lookup(b, other))
  {
    var b' := Removed(b, key);
    IndexOfSpec(b, key);
    if IndexOf(b, key).None? {
      RemovedAbsent(b, key);
    } else {
      var i := IndexOf(b, key).value;
      RemovedSlot(b, key, i);
      DeleteSlot(b, i);
      IndexOfSpec(b', key);
    }
  }

  // ---------------------------------------------------------------------
  // The 256 boxes

  /** The boxes as the map keeps them: 256 of them, labels unique within a
      box, and every lens in the box its key hashes to. */
  predicate WellFormed(m: seq<seq<Lens>>) {
    |m| == 256
    && forall n :: 0 <= n < 256 ==>
         UniqueLabels(m[n]) && forall j :: 0 <= j < |m[n]| ==> Hash(m[n][j].key) == n
  }

  function InsertInto(m: seq<seq<Lens>>, key: string, focal: nat): (m': seq<seq<Lens>>)
    requires |m| == 256
    ensures |m'| == 256
  {
    HashRange(key);
    m[Hash(key) := Inserted(m[Hash(key)], key, focal)]
  }

  function RemoveFrom(m: seq<seq<Lens>>, key: string): (m': seq<seq<Lens>>)
    requires |m| == 256
    ensures |m'| == 256
  {
    HashRange(key);
    m[Hash(key) := Removed(m[Hash(key)], key)]
  }

  /** `insert` keeps the boxes well formed, stores the focal length under
      the key in box `hash(key)`, and leaves every other box as it was. */
  lemma InsertIntoSpec(m: seq<seq<Lens>>, key: string, focal: nat)
    requires WellFormed(m)
    ensures var m' := InsertInto(m, key, focal);
            WellFormed(m')
            && Lookup(m'[Hash(key)], key) == Some(focal)
            && forall n :: 0 <= n < 256 && n != Hash(key) ==> m'[n] == m[n]
  {
    var h := Hash(key);
    HashRange(key);
    var b := m[h];
    InsertedSpec(b, key, focal);
    var b' := Inserted(b, key, focal);
    forall j | 0 <= j < |b'|
      ensures Hash(b'[j].key) == h
    {
      if j < |b| {
        assert b'[j].key == b[j].key;
      }
    }
  }

  /** `remove` keeps the boxes well formed, takes the key out of box
      `hash(key)`, and leaves every other box as it was. */
  lemma RemoveFromSpec(m: seq<seq<Lens>>, key: string)
    requires WellFormed(m)
    ensures var m' := RemoveFrom(m, key);
            WellFormed(m')
            && Lookup(m'[Hash(key)], key).None?
            && forall n :: 0 <= n < 256 && n != Hash(key) ==> m'[n] == m[n]
  {
    var h := Hash(key);
    HashRange(key);
    RemovedSpec(m[h], key);
    RemovedFrom(m[h], key);
  }

  /** A step of the initialization sequence. */
  datatype Command = Insert(key: string, value: nat) | Remove(key: string)

  function Apply(m: seq<seq<Lens>>, c: Command): (m': seq<seq<Lens>>)
    requires |m| == 256
    ensures |m'| == 256
  {
    match c
    case Insert(key, value) => InsertInto(m, key, value)
    case Remove(key) => RemoveFrom(m, key)
  }

  function ApplyAll(m: seq<seq<Lens>>, cs: seq<Command>): (m': seq<seq<Lens>>)
    requires |m| == 256
    ensures |m'| == 256
    decreases |cs|
  {
    if cs == [] then m else ApplyAll(Apply(m, cs[0]), cs[1..])
  }

  /** Every run of steps keeps the boxes well formed. */
  lemma {:induction false} ApplyAllWellFormed(m: seq<seq<Lens>>, cs: seq<Command>)
    requires WellFormed(m)
    ensures WellFormed(ApplyAll(m, cs))
    decreases |cs|
  {
    if cs != [] {
      match cs[0] {
        case Insert(key, value) => InsertIntoSpec(m, key, value);
        case Remove(key) => RemoveFromSpec(m, key);
      }
      ApplyAllWellFormed(Apply(m, cs[0]), cs[1..]);
    }
  }

  // ---------------------------------------------------------------------
  // Focusing power

  /** The power of one lens: box number plus one, times slot number plus
      one, times focal length. */
  function Weight(box: nat, slot: nat, focal: nat): nat {
    (box + 1) * (slot + 1) * focal
  }

  /** The power of the lenses of one box, the first of them in `slot`. */
  function BoxPower(b: seq<Lens>, box: nat, slot: nat): nat {
    if b == [] then 0 else Weight(box, slot, b[0].focal) + BoxPower(b[1..], box, slot + 1)
  }

  /** The power of the boxes, the first of them numbered `box`. */
  function BoxesPower(m: seq<seq<Lens>>, box: nat): nat {
    if m == [] then 0 else BoxPower(m[0], box, 0) + BoxesPower(m[1..], box + 1)
  }

  /** The second answer: the sum over all boxes and slots. */
  function FocusingPower(m: seq<seq<Lens>>): nat {
    BoxesPower(m, 0)
  }

  /** A lens put at the back adds its own power. */
  lemma {:induction false} BoxPowerAppend(b: seq<Lens>, box: nat, slot: nat, x: Lens)
    ensures BoxPower(b + [x], box, slot) == BoxPower(b, box, slot) + Weight(box, slot + |b|, x.focal)
    decreases |b|
  {
    if b == [] {
      assert [x][1..] == [];
    } else {
      assert (b + [x])[1..] == b[1..] + [x];
      BoxPowerAppend(b[1..], box, slot + 1, x);
    }
  }

  /** A lens replaced in its slot changes the power by the difference of
      the two lenses' powers. */
  lemma {:induction false} BoxPowerReplace(b: seq<Lens>, box: nat, slot: nat, i: nat, x: Lens)
    requires i < |b|
    ensures BoxPower(b[i := x], box, slot) + Weight(box, slot + i, b[i].focal)
            == BoxPower(b, box, slot) + Weight(box, slot + i, x.focal)
    decreases |b|
  {
    if i > 0 {
      assert b[i := x][1..] == b[1..][i - 1 := x];
      BoxPowerReplace(b[1..], box, slot + 1, i - 1, x);
    } else {
      assert b[i := x][1..] == b[1..];
    }
  }

  /** Changing one box changes the power of the boxes by the change in that
      box's power. */
  lemma {:induction false} BoxesPowerUpdate(m: seq<seq<Lens>>, box: nat, n: nat, b: seq<Lens>)
    requires n < |m|
    ensures BoxesPower(m[n := b], box) + BoxPower(m[n], box + n, 0)
            == BoxesPower(m, box) + BoxPower(b, box + n, 0)
    decreases |m|
  {
    if n > 0 {
      assert m[n := b][1..] == m[1..][n - 1 := b];
      BoxesPowerUpdate(m[1..], box + 1, n - 1, b);
    } else {
      assert m[n := b][1..] == m[1..];
    }
  }

  /** Inserting a new key adds the power of a lens in the next free slot
      of its box; replacing a focal length changes the power by the
      difference in that slot. */
  lemma InsertPower(m: seq<seq<Lens>>, key: string, focal: nat)
    requires WellFormed(m)
    ensures var h := Hash(key);
            var b := m[h];
            match IndexOf(b, key)
            case None =>
              FocusingPower(InsertInto(m, key, focal)) == FocusingPower(m) + Weight(h, |b|, focal)
            case Some(i) =>
              FocusingPower(InsertInto(m, key, focal)) + Weight(h, i, b[i].focal)
              == FocusingPower(m) + Weight(h, i, focal)
  {
    var h := Hash(key);
    HashRange(key);
    var b := m[h];
    var b' := Inserted(b, key, focal);
    BoxesPowerUpdate(m, 0, h, b');
    match IndexOf(b, key)
    case None =>
      BoxPowerAppend(b, h, 0, Lens(key, focal));
    case Some(i) =>
      BoxPowerReplace(b, h, 0, i, Lens(key, focal));
  }

  // ---------------------------------------------------------------------
  // The map

  /** `HashMap`: 256 buckets of lenses, changed in place by the steps. */
  class LensMap {
    var buckets: array<seq<Lens>>

    ghost predicate Valid()
      reads this, buckets
    {
      buckets.Length == 256 && WellFormed(buckets[..])
    }

    /** `HashMap::new`: 256 empty buckets. */
    constructor ()
      ensures Valid() && fresh(buckets)
      ensures forall n :: 0 <= n < 256 ==> buckets[n] == []
    {
      buckets := new seq<Lens>[256](_ => []);
    }

    /** `insert`: find the lens with the key in its bucket and replace its
        focal length, or push a new lens at the back of the bucket. */
    method Insert(key: string, value: nat)
      requires Valid()
      modifies buckets
      ensures Valid()
      ensures buckets[..] == InsertInto(old(buckets[..]), key, value)
    {
      HashRange(key);
      InsertIntoSpec(buckets[..], key, value);
      var h := Hash(key);
      var bucket := buckets[h];
      var i := 0;
      while i < |bucket| && bucket[i].key != key
        invariant 0 <= i <= |bucket|
        invariant forall j :: 0 <= j < i ==> bucket[j].key != key
      {
        i := i + 1;
      }
      if i < |bucket| {
        IndexOfAt(bucket, key, i);
        buckets[h] := bucket[i := Lens(key, value)];
      } else {
        IndexOfSpec(bucket, key);
        buckets[h] := bucket + [Lens(key, value)];
      }
    }

    /** `remove`: keep, in order, every lens of the bucket with another
        key. */
    method Remove(key: string)
      requires Valid()
      modifies buckets
      ensures Valid()
      ensures buckets[..] == RemoveFrom(old(buckets[..]), key)
    {
      HashRange(key);
      var h := Hash(key);
      var bucket := buckets[h];
      var kept: seq<Lens> := [];
      var j := 0;
      while j < |bucket|
        invariant 0 <= j <= |bucket|
        invariant Removed(bucket, key) == kept + Removed(bucket[j..], key)
        invariant buckets[..] == old(buckets[..])
      {
        var head := if bucket[j].key == key then [] else [bucket[j]];
        assert Removed(bucket[j..], key) == head + Removed(bucket[j + 1..], key) by {
          assert bucket[j..][0] == bucket[j];
          assert bucket[j..][1..] == bucket[j + 1..];
        }
        ShiftLenses(Removed(bucket, key), kept, head, Removed(bucket[j..], key), Removed(bucket[j + 1..], key));
        kept := kept + head;
        j := j + 1;
      }
      assert kept == Removed(bucket, key) by {
        assert bucket[j..] == [];
        assert kept + [] == kept;
      }
      RemoveFromSpec(buckets[..], key);
      buckets[h] := kept;
      assert buckets[..] == old(buckets[..])[h := kept];
    }

    /** Moving a piece from the front of the pending part to the end of the
      done part keeps the whole. */
  lemma ShiftLenses(whole: seq<Lens>, done: seq<Lens>, piece: seq<Lens>, pending: seq<Lens>, rest: seq<Lens>)
    requires whole == done + pending && pending == piece + rest
    ensures whole == (done + piece) + rest
  {
  }

  /** The loop of `main` over the steps. */
    method Run(commands: seq<Command>)
      requires Valid()
      modifies buckets
      ensures Valid()
      ensures buckets[..] == ApplyAll(old(buckets[..]), commands)
    {
      var k := 0;
      while k < |commands|
        invariant 0 <= k <= |commands|
        invariant Valid()
        invariant ApplyAll(old(buckets[..]), commands) == ApplyAll(buckets[..], commands[k..])
        decreases |commands| - k
      {
        ghost var before := buckets[..];
        assert ApplyAll(before, commands[k..]) == ApplyAll(Apply(before, commands[k]), commands[k + 1..]) by {
          assert commands[k..][0] == commands[k];
          assert commands[k..][1..] == commands[k + 1..];
        }
        match commands[k] {
          case Insert(key, value) => Insert(key, value);
          case Remove(key) => Remove(key);
        }
        assert buckets[..] == Apply(before, commands[k]);
        k := k + 1;
      }
    }

    /** The focusing power of the lenses in the map. */
    function Power(): nat
      reads this, buckets
    {
      FocusingPower(buckets[..])
    }
  }

  /** Running the steps from empty boxes and taking the power is the
      second answer as the steps define it. */
  method FocusingPowerOf(commands: seq<Command>) returns (power: nat)
    ensures power == FocusingPower(ApplyAll(NoLenses(256), commands))
  {
    var lenses := new LensMap();
    assert lenses.buckets[..] == NoLenses(256) by {
      NoLensesAt(256);
    }
    lenses.Run(commands);
    power := lenses.Power();
  }

  /** `n` empty boxes. */
  function NoLenses(n: nat): (m: seq<seq<Lens>>)
    ensures |m| == n
  {
    if n == 0 then [] else NoLenses(n - 1) + [[]]
  }

  lemma {:induction false} NoLensesAt(n: nat)
    ensures forall k :: 0 <= k < n ==> NoLenses(n)[k] == []
  {
    if n > 0 {
      NoLensesAt(n - 1);
      assert forall k :: 0 <= k < n - 1 ==> NoLenses(n)[k] == NoLenses(n - 1)[k];
    }
  }

  /** Empty boxes have no power. */
  lemma {:induction false} NoLensesPower(n: nat, box: nat)
    ensures BoxesPower(NoLenses(n), box) == 0
  {
    NoLensesAt(n);
    NoPowerFrom(NoLenses(n), box);
  }

  lemma {:induction false} NoPowerFrom(m: seq<seq<Lens>>, box: nat)
    requires forall k :: 0 <= k < |m| ==> m[k] == []
    ensures BoxesPower(m, box) == 0
    decreases |m|
  {
    if m != [] {
      NoPowerFrom(m[1..], box + 1);
    }
  }

  // ---------------------------------------------------------------------
  // Reading the steps

  /** The length of the longest prefix of letters (`take_while`). */
  function LetterPrefix(t: string): (n: nat)
    ensures n <= |t|
  {
    if t == [] || !IsAlpha(t[0]) then 0 else 1 + LetterPrefix(t[1..])
  }

  lemma {:induction false} LetterPrefixSpec(t: string)
    ensures AllAlpha(t[..LetterPrefix(t)])
    ensures LetterPrefix(t) < |t| ==> !IsAlpha(t[LetterPrefix(t)])
    decreases |t|
  {
    if t != [] && IsAlpha(t[0]) {
      LetterPrefixSpec(t[1..]);
      var n := LetterPrefix(t);
      assert forall j :: 1 <= j < n ==> t[..n][j] == t[1..][..n - 1][j - 1];
    }
  }

  /** `Command::parse` on one step: a key of at least one letter, then
      '=' or '-', then an optional decimal focal length; '=' needs the
      focal length and '-' must not have one. */
  function ParseCommand(t: string): (r: Result<Command>)
    ensures r.Ok? ==> |r.value.key| > 0 && AllAlpha(r.value.key)
  {
    var n := LetterPrefix(t);
    LetterPrefixSpec(t);
    if n == 0 then Err("expected a key")
    else if n == |t| || (t[n] != '=' && t[n] != '-') then Err("expected '=' or '-'")
    else
      var digits := t[n + 1..];
      if digits != "" && !AllDigits(digits) then Err("unexpected text after the step")
      else if t[n] == '=' && digits != "" then Ok(Insert(t[..n], DigitsValue(digits)))
      else if t[n] == '-' && digits == "" then Ok(Remove(t[..n]))
      else Err("operation and focal length do not match")
  }

  function ParseCommands(steps: seq<string>): Result<seq<Command>> {
    if steps == [] then Ok([])
    else match ParseCommand(steps[0])
      case Err(e) => Err(e)
      case Ok(c) =>
        match ParseCommands(steps[1..])
        case Err(e) => Err(e)
        case Ok(rest) => Ok([c] + rest)
  }

  /** `parse_input`: steps separated by commas; no text is no steps, and
      every step must parse. */
  function ParseInput(input: string): Result<seq<Command>> {
    if input == "" then Ok([]) else ParseCommands(Split(input, ","))
  }

  /** A step as the puzzle writes it. */
  function CommandText(c: Command): string {
    match c
    case Insert(key, value) => key + "=" + NatToString(value)
    case Remove(key) => key + "-"
  }

  predicate GoodLabel(key: string) {
    |key| > 0 && AllAlpha(key)
  }

  lemma LetterPrefixOf(key: string, rest: string)
    requires AllAlpha(key) && (rest == [] || !IsAlpha(rest[0]))
    ensures LetterPrefix(key + rest) == |key|
    decreases |key|
  {
    if key != [] {
      assert (key + rest)[1..] == key[1..] + rest;
      LetterPrefixOf(key[1..], rest);
    } else {
      assert key + rest == rest;
    }
  }

  /** Reading a written step gives it back. */
  lemma ParseCommandText(c: Command)
    requires GoodLabel(c.key)
    ensures ParseCommand(CommandText(c)) == Ok(c)
  {
    var t := CommandText(c);
    match c
    case Insert(key, value) =>
      var digits := NatToString(value);
      assert t == key + ("=" + digits);
      LetterPrefixOf(key, "=" + digits);
      assert t[..|key|] == key && t[|key|] == '=' && t[|key| + 1..] == digits;
      NatToStringValue(value);
    case Remove(key) =>
      LetterPrefixOf(key, "-");
      assert t[..|key|] == key && t[|key|] == '-' && t[|key| + 1..] == "";
  }

  /** '=' without a focal length, and '-' with one, are refused. */
  lemma ParseCommandMismatch(key: string, value: nat)
    requires GoodLabel(key)
    ensures ParseCommand(key + "=").Err?
    ensures ParseCommand(key + "-" + NatToString(value)).Err?
  {
    LetterPrefixOf(key, "=");
    var t := key + "=";
    assert t[|key|] == '=' && t[|key| + 1..] == "";
    var digits := NatToString(value);
    var u := key + "-" + digits;
    assert u == key + ("-" + digits);
    LetterPrefixOf(key, "-" + digits);
    assert u[|key|] == '-' && u[|key| + 1..] == digits;
  }

  function CommandTexts(cs: seq<Command>): (ts: seq<string>)
    ensures |ts| == |cs|
  {
    if cs == [] then [] else [CommandText(cs[0])] + CommandTexts(cs[1..])
  }

  /** A written step has no comma. */
  lemma CommandTextLacksComma(c: Command)
    requires GoodLabel(c.key)
    ensures Lacks(CommandText(c), ',')
  {
    match c
    case Insert(key, value) => DigitsLack(NatToString(value), ',');
    case Remove(key) =>
  }

  lemma {:induction false} CommandTextsLackComma(cs: seq<Command>)
    requires forall k :: 0 <= k < |cs| ==> GoodLabel(cs[k].key)
    ensures forall k :: 0 <= k < |cs| ==> Lacks(CommandTexts(cs)[k], ',')
    decreases |cs|
  {
    if cs != [] {
      CommandTextLacksComma(cs[0]);
      CommandTextsLackComma(cs[1..]);
      assert forall k :: 1 <= k < |cs| ==> CommandTexts(cs)[k] == CommandTexts(cs[1..])[k - 1];
    }
  }

  lemma {:induction false} ParseCommandsText(cs: seq<Command>)
    requires forall k :: 0 <= k < |cs| ==> GoodLabel(cs[k].key)
    ensures ParseCommands(CommandTexts(cs)) == Ok(cs)
    decreases |cs|
  {
    if cs != [] {
      var ts := CommandTexts(cs);
      assert GoodLabel(cs[0].key);
      ParseCommandText(cs[0]);
      assert ts[1..] == CommandTexts(cs[1..]);
      assert forall k :: 0 <= k < |cs| - 1 ==> cs[1..][k] == cs[k + 1];
      ParseCommandsText(cs[1..]);
      assert cs == [cs[0]] + cs[1..];
    }
  }

  /** Reading a written, non-empty initialization sequence gives it back;
      the empty text is no steps, as `ParseInput` says outright. */
  lemma ParseInputText(cs: seq<Command>)
    requires |cs| > 0 && forall k :: 0 <= k < |cs| ==> GoodLabel(cs[k].key)
    ensures ParseInput(Join(CommandTexts(cs), ",")) == Ok(cs)
  {
    var ts := CommandTexts(cs);
    CommandTextsLackComma(cs);
    JoinSplit(ts, ",");
    assert GoodLabel(cs[0].key);
    assert |Join(ts, ",")| >= |ts[0]| > 0;
    ParseCommandsText(cs);
  }
}
