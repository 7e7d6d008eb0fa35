/** The router's event loop, changing its state in place
    (linux/input-router/src/router.rs); every method is proved to be the function
    of RouterModel of the same part of the loop. */
module RouterLoop {
  import opened Bytes
  import opened Bits
  import opened Geometry
  import opened BridgeMessages
  import opened Protocol
  import opened RouterModel
  import HidMap

  /** Which of left Ctrl, left Alt and backslash are down. */
  class Emergency {
    const held: array<bool>

    ghost predicate Valid() {
      held.Length == 3
    }

    ghost function C(): Combo
      requires Valid()
      reads held
    {
      Combo(held[0], held[1], held[2])
    }

    constructor ()
      ensures Valid() && fresh(held) && C() == NO_COMBO
    {
      held := new bool[3](_ => false);
    }

    method Update(usage: u8, pressed: bool) returns (full: bool)
      requires Valid()
      modifies held
      ensures C() == Track(old(C()), usage, pressed) && (full <==> Full(C()))
    {
      if usage == 0xe0 {
        held[0] := pressed;
      } else if usage == 0xe2 {
        held[1] := pressed;
      } else if usage == 0x31 {
        held[2] := pressed;
      }
      full := true;
      for i := 0 to held.Length
        invariant full <==> forall k :: 0 <= k < i ==> held[k]
      {
        full := full && held[i];
      }
    }

    method Reset()
      requires Valid()
      modifies held
      ensures C() == NO_COMBO
    {
      held[0], held[1], held[2] := false, false, false;
    }
  }

  class EventLoop {
    const origin: (real, real)
    var bridge: BridgeClient?
    var active: Option<u32>
    const space: Space
    const emergency: Emergency
    var seen: bool
    var accX: real
    var accY: real
    var accScroll: real
    var buttons: u8
    var pendingPos: Option<(u16, u16)>
    var pendingWheel: int
    var published: Published
    var running: bool
    ghost var past: Past

    ghost predicate Valid()
      reads this, bridge
    {
      emergency.Valid() && (bridge != null ==> bridge.Valid())
    }

    ghost function Repr(): set<object>
      reads this
    {
      {this, space, emergency.held} + if bridge == null then {} else {bridge}
    }

    ghost function V(): Router
      requires Valid()
      reads this, bridge, space, emergency.held
    {
      Router(origin, if bridge == null then None else Some(bridge.L()), active, space.C(), emergency.C(), seen,
             accX, accY, accScroll, buttons, pendingPos, pendingWheel, published, running, past)
    }

    constructor (origin: (real, real), local: Display, remote: Display, bridge: BridgeClient?)
      requires bridge != null ==> bridge.Valid()
      ensures Valid() && fresh(Repr() - {bridge})
      ensures V() == Start(origin, local, remote, if bridge == null then None else Some(bridge.L()))
    {
      this.origin, this.bridge := origin, bridge;
      published := if bridge == null then NoBridge else Idle;
      space := new Space(local, remote, RightEdge);
      emergency := new Emergency();
      active, seen, buttons := None, false, 0;
      accX, accY, accScroll := 0.0, 0.0, 0.0;
      pendingPos, pendingWheel, running := None, 0, true;
      past := NO_PAST;
    }

    method WriteRelease()
      requires Valid()
      modifies bridge
      ensures Valid() && V() == Send(old(V()), ReleaseKeys)
    {
      if bridge != null {
        bridge.SendRelease();
      }
    }

    /** Hands the capture back and tells the clipboard agent. */
    method EndCapture()
      requires Valid()
      modifies this`buttons, this`active, this`published, this`past
      ensures V() == old(V()).(
                buttons := 0, active := None, published := if bridge != null then Idle else NoBridge,
                past := LeaveCapture(old(past), old(active), origin.0 + space.x, origin.1 + space.y))
    {
      past := LeaveCapture(past, active, origin.0 + space.x, origin.1 + space.y);
      buttons, active := 0, None;
      published := if bridge != null then Idle else NoBridge;
    }

    method ReturnToLocal()
      requires Valid()
      modifies Repr()
      ensures Valid() && Repr() == old(Repr()) && V() == GoLocal(old(V()))
    {
      hide ForceLocal, LeaveCapture;
      WriteRelease();
      space.Force();
      EndCapture();
    }

    // ----- the top of the loop ---------------------------------------------------

    method CheckBridge(t: Turn)
      requires Valid()
      modifies Repr()
      ensures Valid() && Repr() <= old(Repr()) && V() == Liveness(old(V()), t)
    {
      hide GoLocal;
      var dead := false;
      if bridge != null && t.keepaliveDue {
        var ok := bridge.SendKeepAlive(t.lossNoticed);
        dead := !ok;
      }
      if dead {
        bridge := null;
        published := NoBridge;
        if active.Some? {
          ReturnToLocal();
        }
      }
    }

    method TryReconnect(t: Turn)
      requires Valid()
      modifies Repr()
      ensures Valid() && fresh(Repr() - old(Repr())) && V() == Reconnect(old(V()), t)
    {
      if bridge == null && t.reconnectDue {
        var b := BridgeClient.Connect(t.answer, t.newBudget);
        if b != null {
          b.SendRelease();
          bridge := b;
          published := Idle;
          past := past.(acts := []);
        }
      }
    }

    method DropPending()
      requires Valid()
      modifies this`pendingPos, this`pendingWheel
      ensures V() == old(V()).(pendingPos := None, pendingWheel := 0)
    {
      pendingPos, pendingWheel := None, 0;
    }

    method CheckActivation(t: Turn)
      requires Valid()
      modifies Repr()
      ensures Valid() && Repr() == old(Repr()) && V() == DropStale(Failsafe(old(V()), t))
    {
      hide GoLocal;
      if active.Some? && !seen && t.failsafeDue {
        ReturnToLocal();
      }
      if active.None? {
        DropPending();
      }
    }

    method WritePosition()
      requires Valid()
      modifies Repr()
      ensures Valid() && Repr() == old(Repr()) && V() == SendPosition(old(V()))
    {
      if pendingPos.Some? {
        if bridge != null {
          bridge.SendPointer(pendingPos.value.0, pendingPos.value.1);
        }
        pendingPos := None;
      }
    }

    method WriteWheel()
      requires Valid()
      modifies Repr()
      ensures Valid() && Repr() == old(Repr()) && V() == SendWheel(old(V()))
    {
      hide Detents, ActBytes, Scale;
      if pendingWheel != 0 {
        if bridge != null {
          bridge.SendDetents(Detents(pendingWheel));
          if !bridge.lost {
            past := Wheeled(past, ActBytes(buttons, space.Position(), Detents(pendingWheel)), pendingWheel);
          }
        }
        pendingWheel := 0;
      }
    }

    method WritePending(t: Turn)
      requires Valid()
      modifies Repr()
      ensures Valid() && Repr() == old(Repr()) && V() == FlushPointer(old(V()), t)
    {
      hide SendPosition, SendWheel;
      if t.windowOpen {
        WritePosition();
        WriteWheel();
      }
    }

    method Prepare(t: Turn)
      requires Valid()
      modifies Repr()
      ensures Valid() && fresh(Repr() - old(Repr())) && V() == TopOfLoop(old(V()), t)
    {
      hide Liveness, Reconnect, Failsafe, DropStale, FlushPointer;
      CheckBridge(t);
      TryReconnect(t);
      CheckActivation(t);
      WritePending(t);
    }

    // ----- events ------------------------------------------------------------------

    method ResetPointer()
      requires Valid()
      modifies this`accX, this`accY, this`accScroll, this`pendingPos, this`pendingWheel
      ensures V() == old(V()).(accX := 0.0, accY := 0.0, accScroll := 0.0, pendingPos := None, pendingWheel := 0)
    {
      accX, accY, accScroll := 0.0, 0.0, 0.0;
      pendingPos, pendingWheel := None, 0;
    }

    method ResetCapture(id: u32)
      requires Valid()
      modifies this, emergency.held
      ensures Valid() && bridge == old(bridge)
      ensures V() == old(V()).(active := Some(id), seen := false, combo := NO_COMBO, accX := 0.0, accY := 0.0,
                               accScroll := 0.0, pendingPos := None, pendingWheel := 0)
    {
      emergency.Reset();
      active, seen := Some(id), false;
      ResetPointer();
    }

    method BeginCapture(id: u32, cursorY: real)
      requires Valid()
      modifies Repr()
      ensures Valid() && Repr() == old(Repr()) && V() == Activate(old(V()), id, cursorY)
    {
      hide GoLocal, Scale, MapY, EnterRemote, Canonical;
      if bridge == null {
        active := Some(id);
        ReturnToLocal();
        return;
      }
      ResetCapture(id);
      space.Enter(cursorY - origin.1);
      var pos := space.Position();
      bridge.SendPointer(pos.0, pos.1);
      published := Remoted;
      past := Entered(past);
    }

    method HandleKey(code: u32, down: bool)
      requires Valid()
      modifies Repr()
      ensures Valid() && Repr() == old(Repr()) && V() == OnKey(old(V()), code, down)
    {
      hide GoLocal, HidMap.KeycodeToUsage, Wrap16, Presses, LeaveCapture;
      var usage := HidMap.KeycodeToUsage(Wrap16(code));
      if usage.None? {
        return;
      }
      var full := emergency.Update(usage.value, down);
      if full {
        emergency.Reset();
        ReturnToLocal();
        return;
      }
      if bridge != null {
        bridge.SendKey(usage.value, down);
      }
      past := Presses(past, usage.value, down);
    }

    method HandleButton(code: u32, down: bool)
      requires Valid()
      modifies Repr()
      ensures Valid() && Repr() == old(Repr()) && V() == OnButton(old(V()), code, down)
    {
      hide Scale, WithBit, HasBit, Wrap16, ActBytes;
      var bit := HidMap.ButtonBit(Wrap16(code));
      if bit.None? {
        return;
      }
      buttons := ByteWith(buttons, bit.value, down);
      if bridge != null {
        WritePosition();
        bridge.SendButtons(buttons);
        if !bridge.lost {
          past := Clicked(past, ActBytes(buttons, space.Position(), 0));
        }
      }
    }

    method HandleFrame()
      requires Valid()
      modifies Repr()
      ensures Valid() && Repr() == old(Repr()) && V() == OnFrame(old(V()))
    {
      hide GoLocal, ApplyDelta, Scale;
      if accX == 0.0 && accY == 0.0 {
        return;
      }
      var crossing := space.Move(accX, accY);
      accX, accY := 0.0, 0.0;
      if crossing.ToLocal? {
        ReturnToLocal();
      } else if space.target.Remote? {
        pendingPos := Some(space.Position());
      }
    }

    method HandleScroll(y: int)
      requires Valid()
      modifies this`pendingWheel, this`past
      ensures V() == OnScroll(old(V()), y)
    {
      hide Trunc;
      var detents := if y >= 120 || y <= -120 then Trunc(y, 120) else y;
      pendingWheel := pendingWheel - detents;
      past := Scrolls(past, DETENT * detents as real);
    }

    method HandleScrollDelta(delta: real)
      requires Valid()
      modifies this`pendingWheel, this`accScroll, this`past
      ensures V() == OnScrollDelta(old(V()), delta)
    {
      hide TruncReal;
      accScroll := accScroll + delta;
      var detents := TruncReal(accScroll / DETENT);
      if detents != 0 {
        accScroll := accScroll - detents as real * DETENT;
        pendingWheel := pendingWheel - detents;
      }
      past := Scrolls(past, delta);
    }

    method HandleMotion(dx: real, dy: real)
      requires Valid()
      modifies this`accX, this`accY
      ensures V() == old(V()).(accX := old(accX) + dx, accY := old(accY) + dy)
    {
      accX, accY := accX + dx, accY + dy;
    }

    method Leave()
      requires Valid()
      modifies Repr()
      ensures Valid() && Repr() == old(Repr()) && V() == GoLocal(old(V())).(running := false)
    {
      hide GoLocal;
      ReturnToLocal();
      running := false;
    }

    method HandleCapture(c: CaptureEvent)
      requires Valid()
      modifies Repr()
      ensures Valid() && Repr() == old(Repr()) && V() == OnCapture(old(V()), c)
    {
      hide GoLocal, OnKey, OnButton, OnFrame, OnScroll, OnScrollDelta;
      seen := true;
      ghost var r := V();
      assert r == old(V()).(seen := true);
      match c
      case Key(code, down) => HandleKey(code, down);
      case Button(code, down) => HandleButton(code, down);
      case Motion(dx, dy) => HandleMotion(dx, dy);
      case ScrollDiscrete(y) => HandleScroll(y);
      case ScrollDelta(delta) => HandleScrollDelta(delta);
      case FrameEnd => HandleFrame();
      case Disconnected => Leave();
    }

    method LeaveActive()
      requires Valid()
      modifies Repr()
      ensures Valid() && Repr() == old(Repr()) && V() == LeaveIfActive(old(V()))
    {
      hide GoLocal;
      if active.Some? {
        ReturnToLocal();
      }
    }

    method HandlePortal(e: PortalEvent)
      requires Valid()
      modifies Repr()
      ensures Valid() && Repr() == old(Repr()) && V() == OnPortal(old(V()), e)
    {
      hide GoLocal, LeaveIfActive, Activate;
      match e
      case Activated(id, y) => BeginCapture(id, y);
      case Deactivated => LeaveActive();
      case Disabled(ok) =>
        LeaveActive();
        running := ok;
      case ZonesChanged => Leave();
    }

    method Handle(e: Event)
      requires Valid()
      modifies Repr()
      ensures Valid() && Repr() == old(Repr()) && V() == OnEvent(old(V()), e)
    {
      hide GoLocal, LeaveIfActive, OnCapture, OnPortal;
      match e
      case Timeout =>
      case ChannelClosed => running := false;
      case Portal(p) => HandlePortal(p);
      case Capture(c) =>
        if active.Some? {
          HandleCapture(c);
        }
      case Locked => LeaveActive();
      case Unlocked(ok) => running := ok;
    }

    /** The loop over any turns and events. */
    method Run(ins: seq<Input>)
      requires Valid()
      modifies Repr()
      ensures Valid() && fresh(Repr() - old(Repr())) && V() == Loop(old(V()), ins)
    {
      hide GoLocal, TopOfLoop, OnEvent;
      for i := 0 to |ins|
        invariant Valid() && fresh(Repr() - old(Repr())) && V() == Loop(old(V()), ins[..i])
      {
        assert ins[..i + 1][..i] == ins[..i];
        if running {
          if ins[i].turn.shutdown {
            ReturnToLocal();
            running, published := false, Withdrawn;
          } else {
            Prepare(ins[i].turn);
            Handle(ins[i].event);
          }
        }
      }
      assert ins[..|ins|] == ins;
    }
  }
}
