/** The Pi bridge's keyboard and pointer state and the HID reports it attempts
    (pi/bridge/src/main.rs). */
module Hid {
  import opened Bytes
  import opened Bits

  const POINTER_CENTER: u16 := 32768
  const SLOTS := 6

  /** Why a pointer report was written. */
  datatype Cause = Motion | Click | Wheel | Release

  datatype PtrReport = PtrReport(cause: Cause, bytes: seq<u8>)

  /** The input state, and every report attempted so far on the two devices. */
  datatype View = View(
    modifiers: u8, keys: seq<u8>, buttons: u8, x: u16, y: u16,
    kbd: seq<seq<u8>>, ptr: seq<PtrReport>)

  const NO_KEYS: seq<u8> := [0, 0, 0, 0, 0, 0]

  const POWER_ON := View(0, NO_KEYS, 0, POINTER_CENTER, POINTER_CENTER, [], [])

  ghost predicate Released(v: View) {
    v.modifiers == 0 && v.keys == NO_KEYS && v.buttons == 0
  }

  function KbdBytes(v: View): seq<u8> {
    [v.modifiers, 0] + v.keys
  }

  function PtrBytes(v: View, wheel: u8): seq<u8> {
    [v.buttons] + Le16(v.x / 2) + Le16(v.y / 2) + [wheel]
  }

  function FlushKbd(v: View): View {
    v.(kbd := v.kbd + [KbdBytes(v)])
  }

  function FlushPtr(v: View, cause: Cause, wheel: u8): View {
    v.(ptr := v.ptr + [PtrReport(cause, PtrBytes(v, wheel))])
  }

  predicate IsModifier(usage: u8) { 0xe0 <= usage <= 0xe7 }

  /** First slot holding k, or the number of slots. */
  function SlotOf(keys: seq<u8>, k: u8): (i: nat)
    ensures i <= |keys| && (i < |keys| <==> k in keys)
    ensures i < |keys| ==> keys[i] == k && k !in keys[..i]
  {
    if keys == [] then 0
    else if keys[0] == k then 0
    else
      var i := SlotOf(keys[1..], k);
      assert keys == [keys[0]] + keys[1..];
      assert i < |keys| - 1 ==> keys[..i + 1] == [keys[0]] + keys[1..][..i];
      i + 1
  }

  function Without(keys: seq<u8>, k: u8): (r: seq<u8>)
    ensures |r| == |keys|
    ensures forall i :: 0 <= i < |keys| ==> r[i] == if keys[i] == k then 0 else keys[i]
  {
    seq(|keys|, i requires 0 <= i < |keys| => if keys[i] == k then 0 else keys[i])
  }

  /** KEY_DOWN and KEY_UP. A key already held and a seventh key change nothing
      and write nothing. */
  function KeyEvent(v: View, usage: u8, down: bool): View {
    if IsModifier(usage) then
      FlushKbd(v.(modifiers := ByteWith(v.modifiers, usage - 0xe0, down)))
    else if down then
      if usage in v.keys || 0 !in v.keys then v
      else FlushKbd(v.(keys := v.keys[SlotOf(v.keys, 0) := usage]))
    else FlushKbd(v.(keys := Without(v.keys, usage)))
  }

  function ReleaseAll(v: View): View {
    FlushPtr(FlushKbd(v.(modifiers := 0, keys := NO_KEYS, buttons := 0)), Release, 0)
  }

  function HeldKeyCount(keys: seq<u8>): (n: nat)
    ensures n <= |keys|
  {
    if keys == [] then 0 else HeldKeyCount(keys[1..]) + if keys[0] != 0 then 1 else 0
  }

  // ----- the device object -----------------------------------------------------

  class HidDevice {
    var modifiers: u8
    const keys: array<u8>
    var buttons: u8
    var x: u16
    var y: u16
    var hidOk: bool                 // outcome of the last write
    ghost var kbd: seq<seq<u8>>     // reports attempted
    ghost var ptr: seq<PtrReport>

    ghost predicate Valid()
    {
      keys.Length == SLOTS
    }

    ghost function V(): View
      reads this, keys
    {
      View(modifiers, keys[..], buttons, x, y, kbd, ptr)
    }

    constructor ()
      ensures Valid() && fresh(keys) && V() == POWER_ON
    {
      modifiers, buttons := 0, 0;
      keys := new u8[SLOTS](_ => 0);
      x, y := POINTER_CENTER, POINTER_CENTER;
      hidOk := true;
      kbd, ptr := [], [];
      new;
      assert keys[..] == NO_KEYS;
    }

    method FlushKeyboard()
      requires Valid()
      modifies this
      ensures V() == FlushKbd(old(V()))
    {
      kbd := kbd + [[modifiers, 0] + keys[..]];
      hidOk := *;
    }

    method FlushPointer(ghost cause: Cause, wheel: u8)
      modifies this
      ensures V() == FlushPtr(old(V()), cause, wheel)
    {
      var px: u16, py: u16 := x / 2, y / 2;
      var report := [buttons] + Le16(px) + Le16(py) + [wheel];
      ptr := ptr + [PtrReport(cause, report)];
      hidOk := *;
    }

    method MoveTo(px: u16, py: u16)
      modifies this
      ensures V() == FlushPtr(old(V()).(x := px, y := py), Motion, 0)
    {
      x, y := px, py;
      FlushPointer(Motion, 0);
    }

    method ClearSlots(usage: u8)
      modifies keys
      ensures keys[..] == Without(old(keys[..]), usage)
    {
      for i := 0 to keys.Length
        invariant forall k :: 0 <= k < keys.Length ==>
                    keys[k] == if k < i && old(keys[k]) == usage then 0 else old(keys[k])
      {
        if keys[i] == usage {
          keys[i] := 0;
        }
      }
    }

    method Key(usage: u8, down: bool)
      requires Valid()
      modifies this, keys
      ensures V() == KeyEvent(old(V()), usage, down)
    {
      if IsModifier(usage) {
        modifiers := ByteWith(modifiers, usage - 0xe0, down);
      } else if down {
        if usage in keys[..] {
          return;
        }
        var slot := SlotOf(keys[..], 0);
        if slot == keys.Length {
          return;
        }
        keys[slot] := usage;
      } else {
        ClearSlots(usage);
      }
      FlushKeyboard();
    }

    method SetState(mods: u8, slots: seq<u8>)
      requires Valid() && |slots| == SLOTS
      modifies this, keys
      ensures V() == FlushKbd(old(V()).(modifiers := mods, keys := slots))
    {
      modifiers := mods;
      for i := 0 to SLOTS
        modifies keys
        invariant keys[..i] == slots[..i]
      {
        keys[i] := slots[i];
      }
      assert keys[..] == slots;
      FlushKeyboard();
    }

    method Release()
      requires Valid()
      modifies this, keys
      ensures V() == ReleaseAll(old(V()))
    {
      modifiers := 0;
      for i := 0 to keys.Length
        modifies keys
        invariant forall k :: 0 <= k < i ==> keys[k] == 0
      {
        keys[i] := 0;
      }
      assert keys[..] == NO_KEYS;
      buttons := 0;
      FlushKeyboard();
      FlushPointer(Cause.Release, 0);
    }
  }

  // ----- the slots as a set ------------------------------------------------------

  ghost predicate Distinct(keys: seq<u8>) {
    forall i, j :: 0 <= i < j < |keys| && keys[i] != 0 ==> keys[i] != keys[j]
  }

  /** The usages a view holds down. */
  ghost predicate Holds(v: View, u: u8) {
    if IsModifier(u) then HasBit(v.modifiers, u - 0xe0) else u != 0 && u in v.keys
  }

  function NonModifiers(s: set<u8>): set<u8> {
    set u | u in s && !IsModifier(u)
  }

  /** Pressed and not released, as an unbounded set; usage 0 is no key. */
  function Press(s: set<u8>, u: u8, down: bool): set<u8> {
    if !down then s - {u} else if u == 0 then s else s + {u}
  }

  /** The same, except that a seventh non-modifier is not taken. */
  function PressBounded(s: set<u8>, u: u8, down: bool): set<u8> {
    if down && !IsModifier(u) && |NonModifiers(s)| >= SLOTS then s else Press(s, u, down)
  }

  ghost predicate Refines(v: View, s: set<u8>) {
    && |v.keys| == SLOTS && Distinct(v.keys) && 0 !in s
    && (forall u :: u in s <==> Holds(v, u))
  }

  function SetOf(keys: seq<u8>): (s: set<u8>)
    ensures forall k :: k in s <==> k in keys && k != 0
  {
    set k | k in keys && k != 0
  }

  lemma {:induction false} CountDistinct(keys: seq<u8>)
    requires Distinct(keys)
    ensures |SetOf(keys)| == HeldKeyCount(keys) <= |keys|
    ensures |SetOf(keys)| == |keys| <==> 0 !in keys
  {
    if keys != [] {
      var k, rest := keys[0], keys[1..];
      CountDistinct(rest);
      assert keys == [k] + rest;
      if k == 0 {
        assert SetOf(keys) == SetOf(rest);
      } else {
        assert SetOf(keys) == SetOf(rest) + {k};
        assert k !in rest;
      }
    }
  }

  lemma SlotsFull(v: View, s: set<u8>)
    requires Refines(v, s) && PlainSlots(v)
    ensures |NonModifiers(s)| <= SLOTS
    ensures |NonModifiers(s)| == SLOTS <==> 0 !in v.keys
  {
    CountDistinct(v.keys);
    assert NonModifiers(s) == SetOf(v.keys);
  }

  /** The non-modifier slots never hold a modifier usage. */
  ghost predicate PlainSlots(v: View) {
    forall k :: k in v.keys ==> !IsModifier(k)
  }

  /** A key event writes exactly one keyboard report, of the state it leaves, unless it
      is the press of a key that has a slot already or finds none free; such a press
      changes nothing. No key event touches the pointer. */
  lemma KeyReports(v: View, u: u8, down: bool)
    ensures var w, ignored := KeyEvent(v, u, down), down && !(0xe0 <= u <= 0xe7) && (u in v.keys || 0 !in v.keys);
      && (ignored ==> w == v)
      && (!ignored ==> w.kbd == v.kbd + [[w.modifiers, 0] + w.keys])
      && (w.ptr, w.x, w.y, w.buttons) == (v.ptr, v.x, v.y, v.buttons)
  {
    hide HasBit, WithBit;
  }

  /** One key event: the slot array does what the bounded set does. */
  lemma KeyEventRefines(v: View, s: set<u8>, u: u8, down: bool)
    requires Refines(v, s) && PlainSlots(v)
    ensures Refines(KeyEvent(v, u, down), PressBounded(s, u, down)) && PlainSlots(KeyEvent(v, u, down))
  {
    SlotsFull(v, s);
    if IsModifier(u) {
      ModifierRefines(v, s, u, down);
    } else if down {
      if u != 0 && u !in v.keys && 0 in v.keys {
        PressRefines(v, s, u);
      }
    } else {
      ReleaseRefines(v, s, u);
    }
  }

  lemma ModifierRefines(v: View, s: set<u8>, u: u8, down: bool)
    requires Refines(v, s) && PlainSlots(v) && IsModifier(u)
    ensures Refines(KeyEvent(v, u, down), Press(s, u, down)) && PlainSlots(KeyEvent(v, u, down))
  {
    hide HasBit, WithBit;
  }

  lemma PressRefines(v: View, s: set<u8>, u: u8)
    requires Refines(v, s) && PlainSlots(v) && !IsModifier(u) && u != 0 && u !in v.keys && 0 in v.keys
    ensures Refines(KeyEvent(v, u, true), s + {u}) && PlainSlots(KeyEvent(v, u, true))
  {
    hide HasBit, WithBit;
    var i := SlotOf(v.keys, 0);
    var keys := v.keys[i := u];
    assert keys[i] == u;
    forall k: u8 | k != 0 ensures k in keys <==> k in v.keys || k == u {
      if k in v.keys {
        var j :| 0 <= j < SLOTS && v.keys[j] == k;
        assert keys[j] == k;
      }
    }
  }

  lemma ReleaseRefines(v: View, s: set<u8>, u: u8)
    requires Refines(v, s) && PlainSlots(v) && !IsModifier(u)
    ensures Refines(KeyEvent(v, u, false), s - {u}) && PlainSlots(KeyEvent(v, u, false))
  {
    hide HasBit, WithBit;
    var keys := Without(v.keys, u);
    forall k: u8 | k != 0 ensures k in keys <==> k in v.keys && k != u {
      if k in v.keys && k != u {
        var j :| 0 <= j < SLOTS && v.keys[j] == k;
        assert keys[j] == k;
      }
    }
  }

  /** The count a STATUS reply carries is the number of non-modifiers held. */
  lemma StatusCountsHeld(v: View, s: set<u8>)
    requires Refines(v, s) && PlainSlots(v)
    ensures HeldKeyCount(v.keys) == |NonModifiers(s)|
  {
    CountDistinct(v.keys);
    assert NonModifiers(s) == SetOf(v.keys);
  }

  datatype KeyInput = KeyInput(usage: u8, down: bool)

  function KeyRun(v: View, es: seq<KeyInput>): View {
    if es == [] then v
    else KeyEvent(KeyRun(v, es[..|es| - 1]), es[|es| - 1].usage, es[|es| - 1].down)
  }

  function PressRun(es: seq<KeyInput>): set<u8> {
    if es == [] then {}
    else Press(PressRun(es[..|es| - 1]), es[|es| - 1].usage, es[|es| - 1].down)
  }

  function PressBoundedRun(es: seq<KeyInput>): set<u8> {
    if es == [] then {}
    else PressBounded(PressBoundedRun(es[..|es| - 1]), es[|es| - 1].usage, es[|es| - 1].down)
  }

  lemma ReleasedRefines(v: View)
    requires Released(v)
    ensures Refines(v, {}) && PlainSlots(v)
  {
    forall u: u8 ensures !Holds(v, u) {
      if IsModifier(u) {
        ZeroHasNoBits(u - 0xe0);
      }
    }
  }

  /** From a released state, after any key events, the slots have no duplicate
      and, with the modifier byte, hold exactly the bounded set. */
  lemma {:induction false} SlotsRefineBoundedSet(v: View, es: seq<KeyInput>)
    requires Released(v)
    ensures Refines(KeyRun(v, es), PressBoundedRun(es)) && PlainSlots(KeyRun(v, es))
  {
    hide KeyEvent, Refines, PlainSlots;
    if es == [] {
      ReleasedRefines(v);
    } else {
      var n := |es| - 1;
      SlotsRefineBoundedSet(v, es[..n]);
      KeyEventRefines(KeyRun(v, es[..n]), PressBoundedRun(es[..n]), es[n].usage, es[n].down);
    }
  }

  ghost predicate NeverMoreThanSix(es: seq<KeyInput>) {
    forall i :: 0 <= i <= |es| ==> |NonModifiers(PressRun(es[..i]))| <= SLOTS
  }

  ghost predicate AlwaysExact(v: View, es: seq<KeyInput>) {
    forall i :: 0 <= i <= |es| ==> Refines(KeyRun(v, es[..i]), PressRun(es[..i]))
  }

  lemma OneMore(s: set<u8>, u: u8)
    requires !IsModifier(u) && u !in s
    ensures |NonModifiers(s + {u})| == |NonModifiers(s)| + 1
  {
    assert NonModifiers(s + {u}) == NonModifiers(s) + {u};
  }

  lemma {:induction false} BoundedIsUnbounded(es: seq<KeyInput>, i: nat)
    requires NeverMoreThanSix(es) && i <= |es|
    ensures PressBoundedRun(es[..i]) == PressRun(es[..i])
  {
    if i > 0 {
      BoundedIsUnbounded(es, i - 1);
      assert es[..i][..i - 1] == es[..i - 1];
      var s, u := PressRun(es[..i - 1]), es[i - 1].usage;
      if es[i - 1].down && !IsModifier(u) && |NonModifiers(s)| >= SLOTS && u != 0 && u !in s {
        OneMore(s, u);
      }
    }
  }

  /** The bridge holds exactly the keys pressed and not released, at every
      moment, if and only if never more than six non-modifiers are down. */
  lemma SlotsExactIff(v: View, es: seq<KeyInput>)
    requires Released(v)
    ensures AlwaysExact(v, es) <==> NeverMoreThanSix(es)
  {
    hide KeyRun, PressRun, PressBoundedRun;
    forall i | 0 <= i <= |es|
      ensures Refines(KeyRun(v, es[..i]), PressBoundedRun(es[..i])) && PlainSlots(KeyRun(v, es[..i]))
    {
      SlotsRefineBoundedSet(v, es[..i]);
    }
    if NeverMoreThanSix(es) {
      forall i | 0 <= i <= |es| ensures Refines(KeyRun(v, es[..i]), PressRun(es[..i])) {
        BoundedIsUnbounded(es, i);
      }
    }
    if AlwaysExact(v, es) {
      forall i | 0 <= i <= |es| ensures |NonModifiers(PressRun(es[..i]))| <= SLOTS {
        SlotsFull(KeyRun(v, es[..i]), PressRun(es[..i]));
      }
    }
  }

  /** A KEY_STATE message may install a usage twice, or a modifier's usage in a
      slot. In any state, releasing a key leaves it unheld and every other key as
      it was, and its usage stays in a slot exactly if it was there and is a
      modifier's, which clears only its bit (or is 0, no key). */
  lemma KeyUpClearsExactly(v: View, u: u8)
    ensures !Holds(KeyEvent(v, u, false), u)
    ensures forall w: u8 :: w != u ==> (Holds(KeyEvent(v, u, false), w) <==> Holds(v, w))
    ensures u in KeyEvent(v, u, false).keys <==> u in v.keys && (IsModifier(u) || u == 0)
  {
    hide HasBit, WithBit;
    if !IsModifier(u) {
      var keys := Without(v.keys, u);
      forall w: u8 | w != u && w != 0 ensures w in keys <==> w in v.keys {
        if w in v.keys {
          var j :| 0 <= j < |v.keys| && v.keys[j] == w;
          assert keys[j] == w;
        }
      }
      if u == 0 {
        assert keys == v.keys;
      }
    }
  }
}
