/** The six-slot boot keyboard report (src/hid/types.rs:212-263; Appendix B.1 of USB HID 1.11). */
module Keyboard {
  import opened Common

  type Key = x: int | 1 <= x < 256 witness 1     // key usages are nonzero

  const SLOTS: nat := 6

  // ---------------------------------------------------------------- the slots

  /** The empty slots form a suffix. */
  predicate Packed(ks: seq<Byte>) {
    forall i, j | 0 <= i < j < |ks| && ks[i] == 0 :: ks[j] == 0
  }

  /** The reported keys with their copies. */
  function Held(ks: seq<Byte>): multiset<Byte> {
    multiset(ks)[0 := 0]
  }

  /** add_key: the first empty slot takes the key; a full report ignores it. */
  function Add(ks: seq<Byte>, key: Key): seq<Byte> {
    if ks == [] then []
    else if ks[0] == 0 then [key] + ks[1..]
    else [ks[0]] + Add(ks[1..], key)
  }

  /** Every copy of the key becomes an empty slot. */
  function Zap(ks: seq<Byte>, key: Key): (r: seq<Byte>)
    ensures |r| == |ks| && forall i | 0 <= i < |ks| :: r[i] == if ks[i] == key then 0 else ks[i]
  {
    if ks == [] then [] else [if ks[0] == key then 0 else ks[0]] + Zap(ks[1..], key)
  }

  function InsertDesc(x: Byte, s: seq<Byte>): seq<Byte> {
    if s == [] || s[0] <= x then [x] + s else [s[0]] + InsertDesc(x, s[1..])
  }

  function SortDesc(s: seq<Byte>): seq<Byte> {
    if s == [] then [] else InsertDesc(s[0], SortDesc(s[1..]))
  }

  /** remove_key: every copy becomes empty, then the slots are sorted in descending order. */
  function Remove(ks: seq<Byte>, key: Key): seq<Byte> {
    SortDesc(Zap(ks, key))
  }

  predicate Descending(s: seq<Byte>) {
    forall i, j | 0 <= i < j < |s| :: s[i] >= s[j]
  }

  lemma {:induction false} InsertDescOk(x: Byte, s: seq<Byte>)
    requires Descending(s)
    ensures var r := InsertDesc(x, s);
            |r| == |s| + 1 && Descending(r) && (r[0] == x || (s != [] && r[0] == s[0]))
  {
    if s != [] && s[0] > x {
      InsertDescOk(x, s[1..]);
    }
  }

  lemma {:induction false} InsertDescEntries(x: Byte, s: seq<Byte>)
    ensures multiset(InsertDesc(x, s)) == multiset(s) + multiset{x}
  {
    if s != [] {
      HeadTail(s);
      InsertDescEntries(x, s[1..]);
    }
  }

  /** The sort puts the entries in descending order; so the empty slots end up last. */
  lemma {:induction false} SortDescOk(s: seq<Byte>)
    ensures |SortDesc(s)| == |s| && Descending(SortDesc(s)) && Packed(SortDesc(s))
  {
    if s != [] {
      SortDescOk(s[1..]);
      InsertDescOk(s[0], SortDesc(s[1..]));
    }
  }

  /** The sort keeps the entries. */
  lemma {:induction false} SortDescEntries(s: seq<Byte>)
    ensures multiset(SortDesc(s)) == multiset(s)
  {
    if s != [] {
      HeadTail(s);
      SortDescEntries(s[1..]);
      InsertDescEntries(s[0], SortDesc(s[1..]));
    }
  }

  function WithSlot(x: Byte, m: multiset<Byte>): multiset<Byte> {
    if x == 0 then m else multiset{x} + m
  }

  lemma WithSlotZapped(x: Byte, m: multiset<Byte>, key: Key)
    ensures WithSlot(x, m)[key := 0] == WithSlot(if x == key then 0 else x, m[key := 0])
  {
  }

  lemma HeldCons(x: Byte, s: seq<Byte>)
    ensures Held([x] + s) == WithSlot(x, Held(s))
  {
    assert multiset([x] + s) == multiset{x} + multiset(s);
  }

  lemma {:induction false} ZapOk(ks: seq<Byte>, key: Key)
    ensures Held(Zap(ks, key)) == Held(ks)[key := 0]
  {
    if ks != [] {
      var x, t := ks[0], ks[1..];
      HeadTail(ks);
      ZapOk(t, key);
      HeldCons(x, t);
      var z := if x == key then 0 else x;
      HeldCons(z, Zap(t, key));
      WithSlotZapped(x, Held(t), key);
    }
  }

  /** A release removes all copies of the key and nothing else, and packs the rest. */
  lemma RemoveOk(ks: seq<Byte>, key: Key)
    ensures |Remove(ks, key)| == |ks| && Packed(Remove(ks, key))
    ensures Held(Remove(ks, key)) == Held(ks)[key := 0]
  {
    ZapOk(ks, key);
    SortDescOk(Zap(ks, key));
    SortDescEntries(Zap(ks, key));
  }

  lemma {:induction false} PackedCount(ks: seq<Byte>)
    requires Packed(ks)
    ensures |Held(ks)| <= |ks|
    ensures |Held(ks)| < |ks| <==> exists i :: 0 <= i < |ks| && ks[i] == 0
  {
    CountSplit(ks);
    if |Held(ks)| == |ks| {
      assert multiset(ks)[0] == 0;
      assert 0 !in multiset(ks);
    } else {
      assert 0 in multiset(ks);
    }
  }

  lemma CountSplit(ks: seq<Byte>)
    ensures |Held(ks)| + multiset(ks)[0] == |ks|
  {
    var m := multiset(ks);
    assert m == Held(ks) + multiset{}[0 := m[0]];
  }

  lemma PackedCons(x: Key, s: seq<Byte>)
    requires Packed(s)
    ensures Packed([x] + s)
  {
  }

  lemma PackedTail(ks: seq<Byte>)
    requires Packed(ks) && ks != []
    ensures ks == [ks[0]] + ks[1..] && Packed(ks[1..])
    ensures ks[0] != 0 ==> (0 in ks <==> 0 in ks[1..])
  {
    assert ks == [ks[0]] + ks[1..];
  }

  lemma {:induction false} AddPacked(ks: seq<Byte>, key: Key)
    requires Packed(ks)
    ensures |Add(ks, key)| == |ks| && Packed(Add(ks, key))
  {
    if ks != [] {
      PackedTail(ks);
      if ks[0] == 0 {
        PackedCons(key, ks[1..]);
      } else {
        AddPacked(ks[1..], key);
        PackedCons(ks[0], Add(ks[1..], key));
      }
    }
  }

  /** A press adds one copy of the key exactly when a slot is empty. */
  lemma {:induction false} AddOk(ks: seq<Byte>, key: Key)
    requires Packed(ks)
    ensures Held(Add(ks, key)) == if 0 in ks then Held(ks) + multiset{key} else Held(ks)
  {
    if ks != [] {
      PackedTail(ks);
      var x, t := ks[0], ks[1..];
      HeldCons(x, t);
      if x == 0 {
        HeldCons(key, t);
      } else {
        AddOk(t, key);
        HeldCons(x, Add(t, key));
      }
    }
  }

  /** `add_key` seen from the slots: the first empty one is overwritten. */
  lemma {:induction false} AddAt(ks: seq<Byte>, key: Key, i: nat)
    requires i <= |ks| && forall j | 0 <= j < i :: ks[j] != 0
    requires i < |ks| ==> ks[i] == 0
    ensures Add(ks, key) == if i < |ks| then ks[i := key] else ks
  {
    if i > 0 {
      AddAt(ks[1..], key, i - 1);
    }
  }

  // ---------------------------------------------------------------- the report object

  class Report {
    var modifiers: Byte
    var reserved: Byte
    const keys: array<Byte>

    constructor ()
      ensures fresh(keys) && Valid() && modifiers == 0 && reserved == 0 && keys[..] == Empty()
    {
      modifiers, reserved := 0, 0;
      keys := new Byte[SLOTS](_ => 0);
    }

    ghost predicate Valid()
      reads this, keys
    {
      keys.Length == SLOTS && Packed(keys[..])
    }

    method AddKey(key: Key) returns (added: bool)
      requires Valid()
      modifies keys
      ensures Valid() && keys[..] == Add(old(keys[..]), key)
      ensures added <==> |old(Held(keys[..]))| < SLOTS
    {
      ghost var before := keys[..];
      AddPacked(before, key);
      PackedCount(before);
      for i := 0 to keys.Length
        invariant keys[..] == before
        invariant forall j | 0 <= j < i :: before[j] != 0
      {
        if keys[i] == 0 {
          AddAt(before, key, i);
          keys[i] := key;
          assert keys[..] == before[i := key];
          return true;
        }
      }
      AddAt(before, key, keys.Length);
      return false;
    }

    method RemoveKey(key: Key)
      requires Valid()
      modifies keys
      ensures Valid() && keys[..] == Remove(old(keys[..]), key)
    {
      ghost var before := keys[..];
      for i := 0 to keys.Length
        invariant forall j | 0 <= j < i :: keys[j] == if before[j] == key then 0 else before[j]
        invariant forall j | i <= j < keys.Length :: keys[j] == before[j]
      {
        if keys[i] == key {
          keys[i] := 0;
        }
      }
      assert keys[..] == Zap(before, key);
      RemoveOk(before, key);
      var sorted := SortDesc(keys[..]);
      forall i | 0 <= i < keys.Length {
        keys[i] := sorted[i];
      }
      assert keys[..] == sorted;
    }

    method Clear()
      requires Valid()
      modifies this, keys
      ensures Valid() && modifiers == 0 && keys[..] == Empty()
    {
      modifiers := 0;
      forall i | 0 <= i < keys.Length {
        keys[i] := 0;
      }
    }

    method ToBytes() returns (b: seq<Byte>)
      requires Valid()
      ensures b == [modifiers, reserved] + keys[..]
    {
      b := [modifiers, reserved, keys[0], keys[1], keys[2], keys[3], keys[4], keys[5]];
    }
  }

  function Empty(): (ks: seq<Byte>)
    ensures |ks| == SLOTS && Packed(ks) && Held(ks) == multiset{}
  {
    var ks: seq<Byte> := [0, 0, 0, 0, 0, 0];
    assert multiset(ks) == multiset{0, 0, 0, 0, 0, 0};
    ks
  }

  // ---------------------------------------------------------------- whole key histories

  datatype KeyEvent = Down(key: Key) | Up(key: Key)

  /** The report after a history, newest event last. */
  function ReportAfter(h: seq<KeyEvent>): seq<Byte> {
    if h == [] then Empty()
    else
      var ks := ReportAfter(h[..|h| - 1]);
      match h[|h| - 1] case Down(k) => Add(ks, k) case Up(k) => Remove(ks, k)
  }

  /** The abstract view: a multiset that never exceeds six. */
  function Bounded(h: seq<KeyEvent>): (m: multiset<Byte>)
    ensures |m| <= SLOTS
  {
    if h == [] then multiset{}
    else
      var m := Bounded(h[..|h| - 1]);
      match h[|h| - 1]
      case Down(k) => if |m| < SLOTS then m + multiset{k} else m
      case Up(k) => CardinalityDrops(m, k); m[k := 0]
  }

  lemma CardinalityDrops(m: multiset<Byte>, k: Byte)
    ensures |m[k := 0]| <= |m|
  {
    assert m == m[k := 0] + multiset{}[k := m[k]];
  }

  /** Presses not yet released, repeats counted, with no bound. */
  function Outstanding(h: seq<KeyEvent>): multiset<Byte> {
    if h == [] then multiset{}
    else
      var m := Outstanding(h[..|h| - 1]);
      match h[|h| - 1] case Down(k) => m + multiset{k} case Up(k) => m[k := 0]
  }

  /** Presses that found the report full and have not been released since. */
  function Missing(h: seq<KeyEvent>): multiset<Byte> {
    if h == [] then multiset{}
    else
      var m := Missing(h[..|h| - 1]);
      match h[|h| - 1]
      case Down(k) => if |Bounded(h[..|h| - 1])| < SLOTS then m else m + multiset{k}
      case Up(k) => m[k := 0]
  }

  /** Refinement: after every history the report is packed and holds exactly the bounded multiset. */
  lemma {:induction false} ReportRefines(h: seq<KeyEvent>)
    ensures |ReportAfter(h)| == SLOTS && Packed(ReportAfter(h)) && Held(ReportAfter(h)) == Bounded(h)
  {
    if h != [] {
      var g := h[..|h| - 1];
      ReportRefines(g);
      match h[|h| - 1]
      case Down(k) => AddPacked(ReportAfter(g), k); AddOk(ReportAfter(g), k); PackedCount(ReportAfter(g));
      case Up(k) => RemoveOk(ReportAfter(g), k);
    }
  }

  /** Every outstanding press is either reported or missing. */
  lemma {:induction false} OutstandingSplits(h: seq<KeyEvent>)
    ensures Outstanding(h) == Bounded(h) + Missing(h)
  {
    if h != [] {
      OutstandingSplits(h[..|h| - 1]);
    }
  }

  /** Pressed at `i` and not released since. */
  predicate PressedSince(h: seq<KeyEvent>, k: Byte, i: nat) {
    i < |h| && h[i].Down? && h[i].key == k && forall j | i < j < |h| :: h[j] != Up(k)
  }

  /** A reported key was pressed after its last release. */
  lemma {:induction false} ReportedWasPressed(h: seq<KeyEvent>, k: Key) returns (i: nat)
    requires k in Bounded(h)
    ensures PressedSince(h, k, i)
  {
    var g, last := h[..|h| - 1], h[|h| - 1];
    if last == Down(k) {
      i := |h| - 1;
    } else {
      i := ReportedWasPressed(g, k);
      assert forall j | i < j < |g| :: h[j] == g[j];
    }
  }

  /** The press at `i` found the report full and has not been released since. */
  predicate Dropped(h: seq<KeyEvent>, i: nat) {
    i < |h| && h[i].Down? && |Bounded(h[..i])| == SLOTS && forall j | i < j < |h| :: h[j] != Up(h[i].key)
  }

  lemma DroppedPrefix(h: seq<KeyEvent>, i: nat)
    requires i < |h| - 1
    ensures var n := |h| - 1; Dropped(h, i) <==> Dropped(h[..n], i) && h[n] != Up(h[i].key)
  {
    var n := |h| - 1;
    var g := h[..n];
    assert h[..i] == g[..i];
    assert forall j | 0 <= j < n :: h[j] == g[j];
  }

  /** A missing key is one whose press found the report full. */
  lemma {:induction false} MissingWasDropped(h: seq<KeyEvent>, k: Byte) returns (i: nat)
    requires k in Missing(h)
    ensures Dropped(h, i) && h[i].key == k
  {
    var n := |h| - 1;
    if h[n].Down? && h[n].key == k && |Bounded(h[..n])| == SLOTS {
      i := n;
    } else {
      i := MissingWasDropped(h[..n], k);
      DroppedPrefix(h, i);
    }
  }

  lemma {:induction false} DroppedIsMissing(h: seq<KeyEvent>, i: nat)
    requires Dropped(h, i)
    ensures h[i].key in Missing(h)
  {
    var n := |h| - 1;
    if i < n {
      DroppedPrefix(h, i);
      DroppedIsMissing(h[..n], i);
    }
  }

  /** The report misses no held key exactly when no press that found it full is still held. */
  lemma NothingMissingExactly(h: seq<KeyEvent>)
    ensures Held(ReportAfter(h)) == Outstanding(h) <==> forall i: nat | i < |h| :: !Dropped(h, i)
  {
    ReportRefines(h);
    OutstandingSplits(h);
    if i: nat :| i < |h| && Dropped(h, i) {
      DroppedIsMissing(h, i);
      assert Outstanding(h)[h[i].key] > Bounded(h)[h[i].key];
    } else {
      if k :| k in Missing(h) {
        var i := MissingWasDropped(h, k);
      }
      assert Missing(h) == multiset{};
    }
  }

  /** In particular, none is missing while at most six presses, repeats counted, have been outstanding at
      every moment. */
  lemma NothingMissingBelowSeven(h: seq<KeyEvent>)
    requires forall i | 0 <= i <= |h| :: |Outstanding(h[..i])| <= SLOTS
    ensures Held(ReportAfter(h)) == Outstanding(h)
  {
    ReportRefines(h);
    OutstandingSplits(h);
    NoneDropped(h);
  }

  lemma {:induction false} NoneDropped(h: seq<KeyEvent>)
    requires forall i | 0 <= i <= |h| :: |Outstanding(h[..i])| <= SLOTS
    ensures Missing(h) == multiset{}
  {
    if h != [] {
      var n := |h| - 1;
      var g := h[..n];
      forall i | 0 <= i <= n ensures |Outstanding(g[..i])| <= SLOTS {
        assert g[..i] == h[..i];
      }
      NoneDropped(g);
      OutstandingSplits(g);
      assert h[..|h|] == h;
      assert g + [h[n]] == h;
    }
  }

  /** Seven presses and the release of the first key, which no other press repeats: six presses are outstanding, and
      the seventh is missing from the report. */
  lemma SeventhPressIsLost(downs: seq<KeyEvent>)
    requires |downs| == SLOTS + 1
    requires forall i | 0 <= i < |downs| :: downs[i].Down? && (i > 0 ==> downs[i].key != downs[0].key)
    ensures var h := downs + [Up(downs[0].key)];
            Dropped(h, SLOTS) && |Outstanding(h)| == SLOTS && Held(ReportAfter(h)) != Outstanding(h)
  {
    var k := downs[0].key;
    var h := downs + [Up(k)];
    assert h[..SLOTS] == downs[..SLOTS] && h[..SLOTS + 1] == downs;
    SixPresses(downs[..SLOTS]);
    assert Dropped(h, SLOTS);
    NothingMissingExactly(h);
    PressedOnce(downs);
    OneKeyLess(Outstanding(downs), k);
  }

  lemma OneKeyLess(m: multiset<Byte>, k: Byte)
    requires m[k] == 1
    ensures |m[k := 0]| == |m| - 1
  {
    assert m == m[k := 0] + multiset{k};
  }

  lemma {:induction false} SixPresses(h: seq<KeyEvent>)
    requires |h| <= SLOTS && forall i | 0 <= i < |h| :: h[i].Down?
    ensures |Bounded(h)| == |h|
  {
    if h != [] {
      SixPresses(h[..|h| - 1]);
    }
  }

  /** Presses alone: all are outstanding, and the first key counts once if no other press repeats it. */
  lemma {:induction false} PressedOnce(h: seq<KeyEvent>)
    requires h != [] && forall i | 0 <= i < |h| :: h[i].Down? && (i > 0 ==> h[i].key != h[0].key)
    ensures |Outstanding(h)| == |h| && Outstanding(h)[h[0].key] == 1
  {
    var g := h[..|h| - 1];
    if g == [] {
      assert Outstanding(g) == multiset{};
    } else {
      PressedOnce(g);
    }
  }
}
