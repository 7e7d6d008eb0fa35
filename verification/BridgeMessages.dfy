/** Bridge protocol v1: messages, their bytes (linux/input-router/src/protocol.rs)
    and what one message does to the HID state (pi/bridge/src/main.rs). */
module BridgeMessages {
  import opened Bits
  import opened Bytes
  import opened Hid

  const PROTOCOL_VERSION: u16 := 1
  const MAX_PAYLOAD := 32

  type Slots = s: seq<u8> | |s| == SLOTS witness NO_KEYS

  datatype Msg =
    | Hello(version: u16)
    | KeepAlive
    | KeyDown(usage: u8)
    | KeyUp(usage: u8)
    | KeyState(modifiers: u8, slots: Slots)
    | PointerAbs(x: u16, y: u16)
    | PointerButton(buttons: u8)
    | PointerWheel(detents: u8)
    | ReleaseKeys
    | GetStatus

  function TypeOf(m: Msg): u8 {
    match m
    case Hello(_) => 0x01
    case KeepAlive => 0x03
    case KeyDown(_) => 0x10
    case KeyUp(_) => 0x11
    case KeyState(_, _) => 0x12
    case PointerAbs(_, _) => 0x20
    case PointerButton(_) => 0x21
    case PointerWheel(_) => 0x22
    case ReleaseKeys => 0x30
    case GetStatus => 0x40
  }

  function PayloadOf(m: Msg): (p: seq<u8>)
    ensures |p| <= 7
  {
    match m
    case Hello(v) => Le16(v)
    case KeyDown(u) => [u]
    case KeyUp(u) => [u]
    case KeyState(mods, slots) => [mods] + slots
    case PointerAbs(x, y) => Le16(x) + Le16(y)
    case PointerButton(b) => [b]
    case PointerWheel(d) => [d]
    case _ => []
  }

  function MsgBytes(m: Msg): seq<u8> {
    [TypeOf(m), |PayloadOf(m)|] + PayloadOf(m)
  }

  function AllBytes(ms: seq<Msg>): seq<u8> {
    if ms == [] then [] else MsgBytes(ms[0]) + AllBytes(ms[1..])
  }

  // ----- the server's reading of bytes ---------------------------------------

  /** Every type the bridge knows has one payload length. */
  function ExpectedLen(t: u8): Option<nat> {
    if t == 0x01 then Some(2)
    else if t == 0x03 || t == 0x30 || t == 0x40 then Some(0)
    else if t == 0x10 || t == 0x11 || t == 0x21 || t == 0x22 then Some(1)
    else if t == 0x12 then Some(7)
    else if t == 0x20 then Some(4)
    else None
  }

  function Decode(t: u8, p: seq<u8>): (m: Msg)
    requires ExpectedLen(t) == Some(|p|)
    ensures |PayloadOf(m)| == |p|
  {
    if t == 0x01 then Hello(FromLe16(p[0], p[1]))
    else if t == 0x03 then KeepAlive
    else if t == 0x10 then KeyDown(p[0])
    else if t == 0x11 then KeyUp(p[0])
    else if t == 0x12 then KeyState(p[0], p[1..7])
    else if t == 0x20 then PointerAbs(FromLe16(p[0], p[1]), FromLe16(p[2], p[3]))
    else if t == 0x21 then PointerButton(p[0])
    else if t == 0x22 then PointerWheel(p[0])
    else if t == 0x30 then ReleaseKeys
    else GetStatus
  }

  datatype Front = Incomplete | Malformed | Whole(msg: Msg, size: nat)

  /** What the front of the receive buffer holds. */
  function FrontOf(buf: seq<u8>): (f: Front)
    ensures f.Whole? ==> 2 <= f.size <= |buf|
    ensures f.Incomplete? ==> |buf| <= 8
  {
    if |buf| < 2 then Incomplete
    else
      var len := buf[1];
      if ExpectedLen(buf[0]) != Some(len) || len > MAX_PAYLOAD then Malformed
      else if |buf| < 2 + len then Incomplete
      else Whole(Decode(buf[0], buf[2..2 + len]), 2 + len)
  }

  lemma DecodeInverts(m: Msg)
    ensures ExpectedLen(TypeOf(m)) == Some(|PayloadOf(m)|)
    ensures Decode(TypeOf(m), PayloadOf(m)) == m
  {
    hide Le16, FromLe16;
    if m.KeyState? {
      assert ([m.modifiers] + m.slots)[1..7] == m.slots;
    }
  }

  /** The server reads back exactly the message that was framed. */
  lemma FrontInverts(m: Msg, rest: seq<u8>)
    ensures FrontOf(MsgBytes(m) + rest) == Whole(m, |MsgBytes(m)|)
    ensures (MsgBytes(m) + rest)[|MsgBytes(m)|..] == rest
  {
    hide ExpectedLen, Decode, PayloadOf, TypeOf;
    DecodeInverts(m);
    var buf := MsgBytes(m) + rest;
    assert buf[2..2 + |PayloadOf(m)|] == PayloadOf(m);
  }

  lemma PayloadIsEncoded(t: u8, p: seq<u8>)
    requires ExpectedLen(t) == Some(|p|)
    ensures TypeOf(Decode(t, p)) == t && PayloadOf(Decode(t, p)) == p
  {
    hide Le16, FromLe16;
    if t == 0x01 {
      Le16Unique(p[0], p[1]);
    } else if t == 0x20 {
      Le16Unique(p[0], p[1]);
      Le16Unique(p[2], p[3]);
      assert p == [p[0], p[1]] + [p[2], p[3]];
    } else if t == 0x12 {
      assert p == [p[0]] + p[1..7];
    }
  }

  /** The bytes of a whole front are the framing of its message: no two frames
      are read as the same message. */
  lemma FrontIsEncoded(buf: seq<u8>)
    requires FrontOf(buf).Whole?
    ensures buf[..FrontOf(buf).size] == MsgBytes(FrontOf(buf).msg)
  {
    hide ExpectedLen, Decode, PayloadOf, TypeOf;
    var p := buf[2..2 + buf[1]];
    PayloadIsEncoded(buf[0], p);
    assert buf[..2 + buf[1]] == [buf[0], buf[1]] + p;
  }

  /** Bytes behind a whole or malformed front do not change it. */
  lemma FrontStable(buf: seq<u8>, more: seq<u8>)
    ensures !FrontOf(buf).Incomplete? ==> FrontOf(buf + more) == FrontOf(buf)
  {
    hide ExpectedLen, Decode;
    if FrontOf(buf).Whole? {
      assert (buf + more)[2..2 + buf[1]] == buf[2..2 + buf[1]];
    }
  }

  ghost predicate BeginsWith(buf: seq<u8>, m: Msg) { MsgBytes(m) <= buf }

  /** Some message could still complete these bytes. */
  ghost predicate CouldBecome(buf: seq<u8>, m: Msg) { buf < MsgBytes(m) }

  /** The parser sees a message if and only if the buffer begins with one, waits if
      and only if it has less than a header or part of some message, and refuses
      every other buffer. */
  lemma FrontExactly(buf: seq<u8>)
    ensures FrontOf(buf).Whole? <==> exists m :: BeginsWith(buf, m)
    ensures FrontOf(buf).Incomplete? <==> |buf| < 2 || exists m :: CouldBecome(buf, m)
  {
    hide ExpectedLen, Decode, PayloadOf, TypeOf;
    var f := FrontOf(buf);
    if f.Whole? {
      FrontIsEncoded(buf);
      assert BeginsWith(buf, f.msg);
    }
    if m :| BeginsWith(buf, m) {
      assert buf == MsgBytes(m) + buf[|MsgBytes(m)|..];
      FrontInverts(m, buf[|MsgBytes(m)|..]);
    }
    if f.Incomplete? && |buf| >= 2 {
      Completable(buf);
    }
    if m :| |buf| >= 2 && CouldBecome(buf, m) {
      DecodeInverts(m);
      assert buf[0] == TypeOf(m) && buf[1] == |PayloadOf(m)|;
    }
  }

  /** The rest of a waiting buffer's message, filled with zeros. */
  lemma Completable(buf: seq<u8>)
    requires |buf| >= 2 && FrontOf(buf).Incomplete?
    ensures exists m :: CouldBecome(buf, m)
  {
    hide ExpectedLen, Decode, PayloadOf, TypeOf;
    var zeros: seq<u8> := seq(2 + buf[1] - |buf|, _ => 0);
    var full := buf + zeros;
    var m := FrontOf(full).msg;
    assert full[0] == buf[0] && full[1] == buf[1];
    FrontIsEncoded(full);
    assert full[..|full|] == full;
    assert buf == full[..|buf|];
    assert CouldBecome(buf, m);
  }

  // ----- one message, reported at once ------------------------------------------

  function Apply(v: View, m: Msg): View {
    match m
    case KeyDown(u) => KeyEvent(v, u, true)
    case KeyUp(u) => KeyEvent(v, u, false)
    case KeyState(mods, slots) => FlushKbd(v.(modifiers := mods, keys := slots))
    case PointerAbs(x, y) => FlushPtr(v.(x := x, y := y), Motion, 0)
    case PointerButton(b) => FlushPtr(v.(buttons := b % 8), Click, 0)
    case PointerWheel(d) => FlushPtr(v, Wheel, d)
    case ReleaseKeys => ReleaseAll(v)
    case _ => v
  }

  function ApplyAll(v: View, ms: seq<Msg>): View {
    if ms == [] then v else Apply(ApplyAll(v, ms[..|ms| - 1]), ms[|ms| - 1])
  }

  lemma ApplyAppend(v: View, ms: seq<Msg>, m: Msg)
    ensures ApplyAll(v, ms + [m]) == Apply(ApplyAll(v, ms), m)
  {
    assert (ms + [m])[..|ms|] == ms;
  }

  lemma {:induction false} ApplyFirst(v: View, ms: seq<Msg>)
    requires ms != []
    ensures ApplyAll(v, ms) == ApplyAll(Apply(v, ms[0]), ms[1..])
  {
    hide Apply;
    var n := |ms| - 1;
    if n > 0 {
      ApplyFirst(v, ms[..n]);
      assert ms[1..][..n - 1] == ms[..n][1..];
    } else {
      assert ms[1..] == [] && ms[..0] == [];
      assert ApplyAll(v, ms[..0]) == v;
    }
  }

  /** The last report attempted on each device shows the current state: the
      modifiers and slots, and the buttons and position. */
  ghost predicate InSync(v: View) { KbdInSync(v) && PtrInSync(v) }

  ghost predicate KbdInSync(v: View) {
    && |v.keys| == SLOTS
    && if v.kbd == [] then v.modifiers == 0 && v.keys == NO_KEYS else v.kbd[|v.kbd| - 1] == KbdBytes(v)
  }

  ghost predicate PtrInSync(v: View) {
    if v.ptr == [] then v.buttons == 0
    else
      var report := v.ptr[|v.ptr| - 1].bytes;
      |report| == 6 && report[..5] == PtrBytes(v, 0)[..5]
  }

  lemma FlushShows(v: View, cause: Cause, wheel: u8)
    requires KbdInSync(v)
    ensures InSync(FlushPtr(v, cause, wheel))
  {
    hide Le16;
    assert PtrBytes(v, wheel)[..5] == PtrBytes(v, 0)[..5];
  }

  lemma ApplyInSync(v: View, m: Msg)
    requires InSync(v)
    ensures InSync(Apply(v, m))
  {
    hide PtrBytes, HasBit, WithBit;
    match m
    case PointerAbs(x, y) => FlushShows(v.(x := x, y := y), Motion, 0);
    case PointerButton(b) => FlushShows(v.(buttons := b % 8), Click, 0);
    case PointerWheel(d) => FlushShows(v, Wheel, d);
    case ReleaseKeys => FlushShows(FlushKbd(v.(modifiers := 0, keys := NO_KEYS, buttons := 0)), Release, 0);
    case _ => KeysKeepPointer(v, m);
  }

  lemma KeysKeepPointer(v: View, m: Msg)
    requires InSync(v)
    requires !m.PointerAbs? && !m.PointerButton? && !m.PointerWheel? && !m.ReleaseKeys?
    ensures InSync(Apply(v, m))
  {
    hide Le16, HasBit, WithBit;
  }

  // ----- what the host sees -------------------------------------------------------

  /** A key the host takes to be down after the last keyboard report: a boot
      report has the modifiers in its first byte and six usages from the third. */
  ghost predicate HostHolds(v: View, u: u8) {
    && v.kbd != []
    && var report := v.kbd[|v.kbd| - 1];
       |report| == 8 && if IsModifier(u) then HasBit(report[0], u - 0xe0) else u != 0 && u in report[2..]
  }

  /** The buttons the host takes to be down after the last pointer report. */
  ghost function HostButtons(v: View): u8 {
    if v.ptr == [] || v.ptr[|v.ptr| - 1].bytes == [] then 0 else v.ptr[|v.ptr| - 1].bytes[0]
  }

  /** Where the last pointer report puts the pointer, in little-endian 15-bit
      coordinates; before the first report nowhere. */
  ghost function HostPosition(v: View): Option<(u16, u16)> {
    if v.ptr == [] || |v.ptr[|v.ptr| - 1].bytes| != 6 then None
    else
      var report := v.ptr[|v.ptr| - 1].bytes;
      Some((FromLe16(report[1], report[2]), FromLe16(report[3], report[4])))
  }

  /** A bridge in sync holds exactly what the host sees, and has the host's pointer
      at its own position, halved. */
  lemma HostSeesState(v: View)
    requires InSync(v)
    ensures forall u: u8 :: HostHolds(v, u) <==> Holds(v, u)
    ensures HostButtons(v) == v.buttons
    ensures v.ptr != [] ==> HostPosition(v) == Some((v.x / 2, v.y / 2))
  {
    hide HasBit, Le16, FromLe16;
    forall u: u8 ensures HostHolds(v, u) <==> Holds(v, u) {
      if v.kbd == [] {
        if IsModifier(u) {
          ZeroHasNoBits(u - 0xe0);
        }
      } else {
        assert KbdBytes(v)[2..] == v.keys;
      }
    }
    if v.ptr != [] {
      var report := v.ptr[|v.ptr| - 1].bytes;
      forall i | 0 <= i < 5 ensures report[i] == PtrBytes(v, 0)[i] {
        assert report[..5][i] == PtrBytes(v, 0)[..5][i];
      }
    }
  }

  /** A KEY_STATE replaces every key: afterwards exactly the modifiers of its bits and
      the usages of its slots are held, whatever was before, and the pointer is as it
      was. */
  lemma StateReplaces(v: View, mods: u8, slots: Slots, u: u8)
    ensures var w := Apply(v, KeyState(mods, slots));
      && (Holds(w, u) <==> if 0xe0 <= u <= 0xe7 then HasBit(mods, u - 0xe0) else u != 0 && u in slots)
      && (w.buttons, w.x, w.y, w.ptr) == (v.buttons, v.x, v.y, v.ptr)
    ensures InSync(v) ==> forall k: u8 ::
      HostHolds(Apply(v, KeyState(mods, slots)), k) <==> Holds(Apply(v, KeyState(mods, slots)), k)
  {
    hide HasBit, PtrBytes;
    if InSync(v) {
      ApplyInSync(v, KeyState(mods, slots));
      HostSeesState(Apply(v, KeyState(mods, slots)));
    }
  }
}
