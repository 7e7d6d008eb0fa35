/** One turn of the router's event loop as a function of its state, what the
    clock and the connection do, and the event received
    (linux/input-router/src/router.rs). */
module RouterModel {
  import opened Bytes
  import opened Bits
  import opened Geometry
  import opened BridgeMessages
  import opened Protocol
  import HidMap
  import Hid

  datatype Published = Idle | Remoted | NoBridge | Withdrawn

  /** The three keys of the emergency combination. */
  datatype Combo = Combo(ctrl: bool, alt: bool, backslash: bool)

  const NO_COMBO := Combo(false, false, false)

  function Track(c: Combo, usage: u8, pressed: bool): Combo {
    if usage == 0xe0 then c.(ctrl := pressed)
    else if usage == 0xe2 then c.(alt := pressed)
    else if usage == 0x31 then c.(backslash := pressed)
    else c
  }

  predicate Full(c: Combo) { c.ctrl && c.alt && c.backslash }

  /** What the router does outside the bridge connection: it hands a capture back
      to the compositor with a position for the cursor, and tells the clipboard
      agent of a crossing. */
  datatype Effect = Released(id: u32, x: real, y: real) | Told(remote: bool)

  /** What a capture has scrolled, in continuous units; the detents written for it;
      and how many reports had been written on the link before it. */
  datatype Scrolling = Scrolling(units: real, counts: seq<int>, mark: nat)

  /** Histories kept for the theorems: the usages pressed and not released since
      the capture began, those of them that fit in six slots when they were
      pressed, the pointer report each button or wheel write on this link should
      cause, the scrolling of this capture, and the effects so far. */
  datatype Past = Past(
    pressed: set<u8>, held: set<u8>, acts: seq<seq<u8>>, scroll: Scrolling, done: seq<Effect>)

  const NO_SCROLL := Scrolling(0.0, [], 0)
  const NO_PAST := Past({}, {}, [], NO_SCROLL, [])

  /** seen: an event has arrived in this activation; origin: where the local
      screen's zone begins. */
  datatype Router = Router(
    origin: (real, real),
    bridge: Option<Link>, active: Option<u32>, cursor: Cursor, combo: Combo, seen: bool,
    accX: real, accY: real, accScroll: real, buttons: u8,
    pendingPos: Option<(u16, u16)>, pendingWheel: int,
    published: Published, running: bool, past: Past)

  /** What the clock, the bridge and the connection do during one turn. */
  datatype Turn = Turn(
    shutdown: bool, keepaliveDue: bool, lossNoticed: bool,
    reconnectDue: bool, answer: Option<(u8, seq<u8>)>, newBudget: nat,
    failsafeDue: bool, windowOpen: bool)

  datatype CaptureEvent =
    | Key(code: u32, pressed: bool)
    | Button(code: u32, pressed: bool)
    | Motion(dx: real, dy: real)
    | ScrollDiscrete(clicks: int)
    | ScrollDelta(delta: real)
    | FrameEnd
    | Disconnected

  datatype PortalEvent =
    | Activated(id: u32, cursorY: real)
    | Deactivated
    | Disabled(reenabled: bool)
    | ZonesChanged

  datatype Event =
    | Timeout
    | ChannelClosed
    | Portal(portal: PortalEvent)
    | Capture(event: CaptureEvent)
    | Locked
    | Unlocked(rearmed: bool)

  function Start(origin: (real, real), local: Display, remote: Display, bridge: Option<Link>): Router {
    Router(origin, bridge, None, Centered(local, remote, RightEdge), NO_COMBO, false,
           0.0, 0.0, 0.0, 0, None, 0, if bridge.Some? then Idle else NoBridge, true, NO_PAST)
  }

  // ----- writing ---------------------------------------------------------------

  function Send(r: Router, m: Msg): Router {
    if r.bridge.None? then r else r.(bridge := Some(Put(r.bridge.value, m)))
  }

  /** Handing the capture back, with the cursor where the model has it, and
      telling the clipboard agent. */
  function LeaveCapture(past: Past, active: Option<u32>, x: real, y: real): Past {
    Past({}, {}, past.acts, past.scroll,
         past.done + (if active.Some? then [Released(active.value, x, y)] else []) + [Told(false)])
  }

  function GoLocal(r: Router): Router {
    var c := ForceLocal(r.cursor);
    Send(r, ReleaseKeys).(
      buttons := 0, cursor := c, active := None,
      published := if r.bridge.Some? then Idle else NoBridge,
      past := LeaveCapture(r.past, r.active, r.origin.0 + c.x, r.origin.1 + c.y))
  }

  // ----- the top of the loop -----------------------------------------------------

  function Liveness(r: Router, t: Turn): Router {
    if r.bridge.None? || !t.keepaliveDue then r
    else
      var r1 := Send(r, KeepAlive);
      if !(r1.bridge.value.lost && t.lossNoticed) then r1
      else
        var r2 := r1.(bridge := None, published := NoBridge);
        if r2.active.Some? then GoLocal(r2) else r2
  }

  function Reconnect(r: Router, t: Turn): Router {
    if r.bridge.Some? || !t.reconnectDue || !Accepted(t.answer) then r
    else
      Send(r.(bridge := Some(Link([], t.newBudget, false)), published := Idle, past := r.past.(acts := [])),
           ReleaseKeys)
  }

  function Failsafe(r: Router, t: Turn): Router {
    if r.active.Some? && !r.seen && t.failsafeDue then GoLocal(r) else r
  }

  function DropStale(r: Router): Router {
    if r.active.None? then r.(pendingPos := None, pendingWheel := 0) else r
  }

  /** What one report can carry. */
  function Clamped(wheel: int): int {
    if wheel < -127 then -127 else if wheel > 127 then 127 else wheel
  }

  function Detents(wheel: int): u8 { Clamped(wheel) % 256 }

  /** The report a button or wheel write should cause: the state, the position
      and the detents. */
  function ActBytes(buttons: u8, pos: (u16, u16), wheel: u8): seq<u8> {
    [buttons] + Le16(pos.0 / 2) + Le16(pos.1 / 2) + [wheel]
  }

  function Clicked(past: Past, report: seq<u8>): Past { past.(acts := past.acts + [report]) }

  function Wheeled(past: Past, report: seq<u8>, count: int): Past {
    past.(acts := past.acts + [report], scroll := past.scroll.(counts := past.scroll.counts + [count]))
  }

  function Scrolls(past: Past, units: real): Past {
    past.(scroll := past.scroll.(units := past.scroll.units + units))
  }

  function SendPosition(r: Router): Router {
    if r.pendingPos.None? then r
    else Send(r, PointerAbs(r.pendingPos.value.0, r.pendingPos.value.1)).(pendingPos := None)
  }

  function SendWheel(r: Router): Router {
    if r.pendingWheel == 0 then r
    else
      var d := Detents(r.pendingWheel);
      var r1 := Send(r, PointerWheel(d)).(pendingWheel := 0);
      if r1.bridge.None? || r1.bridge.value.lost then r1
      else r1.(past := Wheeled(r1.past, ActBytes(r.buttons, Canonical(r.cursor), d), r.pendingWheel))
  }

  function FlushPointer(r: Router, t: Turn): Router {
    if !t.windowOpen then r else SendWheel(SendPosition(r))
  }

  function TopOfLoop(r: Router, t: Turn): Router {
    FlushPointer(DropStale(Failsafe(Reconnect(Liveness(r, t), t), t)), t)
  }

  // ----- events --------------------------------------------------------------------

  function Activate(r: Router, id: u32, cursorY: real): Router {
    if r.bridge.None? then GoLocal(r.(active := Some(id)))
    else
      var r1 := r.(active := Some(id), seen := false, combo := NO_COMBO,
                   accX := 0.0, accY := 0.0, accScroll := 0.0, pendingPos := None, pendingWheel := 0,
                   cursor := EnterRemote(r.cursor, cursorY - r.origin.1), published := Remoted,
                   past := Entered(r.past));
      var (x, y) := Canonical(r1.cursor);
      Send(r1, PointerAbs(x, y))
  }

  /** Nothing scrolled yet in this capture, and the clipboard agent told of it. */
  function Entered(past: Past): Past {
    past.(scroll := Scrolling(0.0, [], |past.acts|), done := past.done + [Told(true)])
  }

  function Presses(past: Past, u: u8, pressed: bool): Past {
    past.(pressed := Hid.Press(past.pressed, u, pressed), held := Hid.PressBounded(past.held, u, pressed))
  }

  function OnKey(r: Router, code: u32, pressed: bool): Router {
    var usage := HidMap.KeycodeToUsage(Wrap16(code));
    if usage.None? then r
    else
      var u := usage.value;
      var combo := Track(r.combo, u, pressed);
      if Full(combo) then GoLocal(r.(combo := NO_COMBO))
      else Send(r.(combo := combo, past := Presses(r.past, u, pressed)),
                if pressed then KeyDown(u) else KeyUp(u))
  }

  function OnButton(r: Router, code: u32, pressed: bool): Router {
    var bit := HidMap.ButtonBit(Wrap16(code));
    if bit.None? then r
    else
      var buttons := ByteWith(r.buttons, bit.value, pressed);
      var r1 := r.(buttons := buttons);
      if r.bridge.None? then r1
      else
        var r2 := Send(SendPosition(r1), PointerButton(buttons));
        if r2.bridge.value.lost then r2
        else r2.(past := Clicked(r2.past, ActBytes(buttons, Canonical(r.cursor), 0)))
  }

  /** Division towards zero. */
  function Trunc(a: int, b: int): int
    requires b > 0
  {
    if a >= 0 then a / b else -((-a) / b)
  }

  function TruncReal(v: real): int {
    if v >= 0.0 then v.Floor else -((-v).Floor)
  }

  /** Continuous scroll units a wheel detent is made of. */
  const DETENT := 15.0

  /** High-resolution wheels count in 120ths of a detent, others in detents. */
  function DetentsOf(y: int): int {
    if y >= 120 || y <= -120 then Trunc(y, 120) else y
  }

  function OnScroll(r: Router, y: int): Router {
    var clicks := DetentsOf(y);
    r.(pendingWheel := r.pendingWheel - clicks, past := Scrolls(r.past, DETENT * clicks as real))
  }

  function OnScrollDelta(r: Router, delta: real): Router {
    var acc := r.accScroll + delta;
    var clicks := TruncReal(acc / DETENT);
    r.(accScroll := acc - clicks as real * DETENT, pendingWheel := r.pendingWheel - clicks,
       past := Scrolls(r.past, delta))
  }

  function OnFrame(r: Router): Router {
    if r.accX == 0.0 && r.accY == 0.0 then r
    else
      var (cursor, crossing) := ApplyDelta(r.cursor, r.accX, r.accY);
      var r1 := r.(cursor := cursor, accX := 0.0, accY := 0.0);
      if crossing.ToLocal? then GoLocal(r1)
      else if cursor.target.Remote? then r1.(pendingPos := Some(Canonical(cursor)))
      else r1
  }

  function OnCapture(r: Router, c: CaptureEvent): Router {
    var r1 := r.(seen := true);
    match c
    case Key(code, pressed) => OnKey(r1, code, pressed)
    case Button(code, pressed) => OnButton(r1, code, pressed)
    case Motion(dx, dy) => r1.(accX := r1.accX + dx, accY := r1.accY + dy)
    case ScrollDiscrete(y) => OnScroll(r1, y)
    case ScrollDelta(d) => OnScrollDelta(r1, d)
    case FrameEnd => OnFrame(r1)
    case Disconnected => GoLocal(r1).(running := false)
  }

  function LeaveIfActive(r: Router): Router {
    if r.active.Some? then GoLocal(r) else r
  }

  function OnPortal(r: Router, e: PortalEvent): Router {
    match e
    case Activated(id, y) => Activate(r, id, y)
    case Deactivated => LeaveIfActive(r)
    case Disabled(ok) => LeaveIfActive(r).(running := ok)
    case ZonesChanged => GoLocal(r).(running := false)
  }

  function OnEvent(r: Router, e: Event): Router {
    match e
    case Timeout => r
    case ChannelClosed => r.(running := false)
    case Portal(p) => OnPortal(r, p)
    case Capture(c) => if r.active.None? then r else OnCapture(r, c)
    case Locked => LeaveIfActive(r)
    case Unlocked(ok) => r.(running := ok)
  }

  function Iterate(r: Router, t: Turn, e: Event): Router {
    if !r.running then r
    else if t.shutdown then GoLocal(r).(running := false, published := Withdrawn)
    else OnEvent(TopOfLoop(r, t), e)
  }

  datatype Input = Input(turn: Turn, event: Event)

  function Loop(r: Router, ins: seq<Input>): Router {
    if ins == [] then r
    else Iterate(Loop(r, ins[..|ins| - 1]), ins[|ins| - 1].turn, ins[|ins| - 1].event)
  }
}
