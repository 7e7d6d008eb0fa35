/** What every run of the router keeps, of itself and of the bridge at the other
    end of the connection. */
module RouterSafety {
  import opened Bytes
  import opened Bits
  import opened Geometry
  import opened BridgeMessages
  import opened Protocol
  import opened RouterModel
  import HidMap
  import Hid

  // ----- the router alone --------------------------------------------------------

  ghost predicate Inv(r: Router) {
    && (r.active.Some? <==> r.cursor.target.Remote?)
    && (r.active.Some? ==> r.bridge.Some?)
    && (r.active.None? ==> r.buttons == 0 && r.past.pressed == r.past.held == {})
    && r.buttons < 8
    && !Full(r.combo)
    && Inside(r.cursor)
    && -DETENT < r.accScroll < DETENT
    && r.published == Shown(r)
    && (r.active.Some? <==> LastTold(r.past.done))
    && ReleasedInside(r.past.done, r.origin, r.cursor.local)
  }

  /** What the clipboard agent was told last; at first the cursor is local. */
  predicate LastTold(done: seq<Effect>)
    decreases |done|
  {
    if done == [] then false
    else if done[|done| - 1].Told? then done[|done| - 1].remote
    else LastTold(done[..|done| - 1])
  }

  /** Every cursor position handed to the compositor is on the local screen. */
  ghost predicate ReleasedInside(done: seq<Effect>, origin: (real, real), local: Display) {
    forall i :: 0 <= i < |done| && done[i].Released? ==>
      && origin.0 <= done[i].x <= origin.0 + local.width - 1.0
      && origin.1 <= done[i].y <= origin.1 + local.height - 1.0
  }

  /** Discrete scrolling in 120ths counts the whole detents, towards zero; values below
      a detent are detents themselves. */
  lemma DetentsAre(y: int)
    ensures -120 < y < 120 ==> DetentsOf(y) == y
    ensures y >= 120 ==> 120 * DetentsOf(y) <= y < 120 * DetentsOf(y) + 120
    ensures y <= -120 ==> 120 * DetentsOf(y) - 120 < y <= 120 * DetentsOf(y)
  {
  }

  /** Continuous scrolling loses nothing: what is held back and what has become
      detents add up to what was scrolled, and less than one detent is held back. */
  lemma ScrollConserves(r: Router, delta: real)
    ensures var r' := OnScrollDelta(r, delta);
      && r'.accScroll - DETENT * r'.pendingWheel as real == r.accScroll + delta - DETENT * r.pendingWheel as real
      && -DETENT < r'.accScroll < DETENT
  {
    var acc := r.accScroll + delta;
    var q := acc / DETENT;
    assert acc == q * DETENT;
    TruncIsNear(q);
  }

  lemma TruncIsNear(q: real)
    ensures -1.0 < q - TruncReal(q) as real < 1.0
  {
  }

  /** The state the tray should see. */
  function Shown(r: Router): Published {
    if r.published.Withdrawn? then Withdrawn
    else if r.bridge.None? then NoBridge else if r.active.Some? then Remoted else Idle
  }

  lemma ButtonsStaySmall(b: u8, bit: nat, on: bool)
    requires b < 8 && bit < 3
    ensures ByteWith(b, bit, on) < 8
  {
    assert Pow2(3) == 8;
    WithBitFits(b, bit, on, 3);
  }

  lemma GoLocalInv(r: Router)
    requires Inside(r.cursor) && r.buttons < 8 && !Full(r.combo) && !r.published.Withdrawn?
    requires -DETENT < r.accScroll < DETENT && ReleasedInside(r.past.done, r.origin, r.cursor.local)
    ensures Inv(GoLocal(r)) && GoLocal(r).active.None? && !GoLocal(r).published.Withdrawn?
  {
    hide MapY;
    StepInside(r.cursor, Force);
  }

  lemma LivenessInv(r: Router, t: Turn)
    requires Inv(r) && !r.published.Withdrawn?
    ensures Inv(Liveness(r, t)) && !Liveness(r, t).published.Withdrawn?
  {
    hide ForceLocal, Inside;
    if r.bridge.Some? {
      GoLocalInv(Send(r, KeepAlive).(bridge := None, published := NoBridge));
    }
  }

  lemma TopInv(r: Router, t: Turn)
    requires Inv(r) && !r.published.Withdrawn?
    ensures Inv(TopOfLoop(r, t)) && !TopOfLoop(r, t).published.Withdrawn?
  {
    hide Inside, Liveness, GoLocal, ReleasedInside, LastTold;
    LivenessInv(r, t);
    GoLocalInv(Reconnect(Liveness(r, t), t));
  }

  lemma ButtonInv(r: Router, code: u32, pressed: bool)
    requires Inv(r) && r.active.Some?
    ensures Inv(OnButton(r, code, pressed)) && OnButton(r, code, pressed).published == r.published
  {
    hide Inside, HasBit, WithBit, Scale, ReleasedInside, LastTold;
    var bit := HidMap.ButtonBit(Wrap16(code));
    if bit.Some? {
      ButtonsStaySmall(r.buttons, bit.value, pressed);
    }
  }

  lemma FrameInv(r: Router)
    requires Inv(r) && r.active.Some? && !r.published.Withdrawn?
    ensures Inv(OnFrame(r)) && !OnFrame(r).published.Withdrawn?
  {
    hide MapY, Scale, GoLocal;
    StepInside(r.cursor, Delta(r.accX, r.accY));
    GoLocalInv(r.(cursor := ApplyDelta(r.cursor, r.accX, r.accY).0, accX := 0.0, accY := 0.0));
  }

  lemma CaptureInv(r: Router, c: CaptureEvent)
    requires Inv(r) && !r.published.Withdrawn? && r.active.Some?
    ensures Inv(OnCapture(r, c)) && !OnCapture(r, c).published.Withdrawn?
  {
    hide Inside, GoLocal, OnButton, OnFrame, HidMap.KeycodeToUsage, Hid.Press, Hid.PressBounded, TruncReal;
    var r1 := r.(seen := true);
    GoLocalInv(r1);
    match c
    case Key(_, _) => GoLocalInv(r1.(combo := NO_COMBO));
    case Button(code, pressed) => ButtonInv(r1, code, pressed);
    case FrameEnd => FrameInv(r1);
    case ScrollDelta(d) => ScrollConserves(r1, d);
    case _ =>
  }

  lemma PortalInv(r: Router, e: PortalEvent)
    requires Inv(r) && !r.published.Withdrawn?
    ensures Inv(OnPortal(r, e)) && !OnPortal(r, e).published.Withdrawn?
  {
    hide ForceLocal, Scale;
    GoLocalInv(r);
    if e.Activated? {
      StepInside(r.cursor, Enter(e.cursorY - r.origin.1));
      GoLocalInv(r.(active := Some(e.id)));
    }
  }

  lemma EventInv(r: Router, e: Event)
    requires Inv(r) && !r.published.Withdrawn?
    ensures Inv(OnEvent(r, e)) && !OnEvent(r, e).published.Withdrawn?
  {
    hide ForceLocal, Scale, OnCapture, OnPortal, GoLocal;
    GoLocalInv(r);
    match e
    case Portal(p) => PortalInv(r, p);
    case Capture(c) => if r.active.Some? { CaptureInv(r, c); }
    case _ =>
  }

  /** At the end of every turn of every run: a capture is active exactly while
      the model's cursor is remote; then a bridge is present; without one no
      button is held; the emergency combination is never fully held; the cursor
      is inside its screen; less than one detent of scrolling is held back; the
      published state, and what the clipboard agent was told last, say which of
      these it is; and every capture handed back left the cursor on the local
      screen. */
  lemma {:induction false} LoopInv(
      origin: (real, real), local: Display, remote: Display, bridge: Option<Link>, ins: seq<Input>)
    ensures Inv(Loop(Start(origin, local, remote, bridge), ins))
    ensures Loop(Start(origin, local, remote, bridge), ins).running ==>
              !Loop(Start(origin, local, remote, bridge), ins).published.Withdrawn?
  {
    hide OnEvent, TopOfLoop, GoLocal;
    if ins != [] {
      var n := |ins| - 1;
      LoopInv(origin, local, remote, bridge, ins[..n]);
      var r := Loop(Start(origin, local, remote, bridge), ins[..n]);
      if r.running {
        TopInv(r, ins[n].turn);
        EventInv(TopOfLoop(r, ins[n].turn), ins[n].event);
        GoLocalInv(r);
      }
    }
  }

  // ----- scrolling ----------------------------------------------------------------

  function Total(counts: seq<int>): int {
    if counts == [] then 0 else Total(counts[..|counts| - 1]) + counts[|counts| - 1]
  }

  /** What reports can carry of some counts. */
  function Carried(counts: seq<int>): int {
    if counts == [] then 0 else Carried(counts[..|counts| - 1]) + Clamped(counts[|counts| - 1])
  }

  /** The wheel byte of a report, a signed number. */
  function WheelOf(report: seq<u8>): int {
    if report == [] then 0
    else
      var b: int := report[|report| - 1];
      if b < 128 then b else b - 256
  }

  /** How far the reports turn the wheel. */
  function Turned(acts: seq<seq<u8>>): int {
    if acts == [] then 0 else Turned(acts[..|acts| - 1]) + WheelOf(acts[|acts| - 1])
  }

  /** What a capture has scrolled is what its reports turn the wheel by, what they
      could not carry, what is still to be written, and the rest held back. */
  ghost predicate ScrollKept(r: Router) {
    r.active.Some? && r.bridge.Some? && !r.bridge.value.lost ==>
      var s := r.past.scroll;
      && s.mark <= |r.past.acts|
      && Turned(r.past.acts[s.mark..]) == Carried(s.counts)
      && s.units == r.accScroll - DETENT * (Total(s.counts) + r.pendingWheel) as real
  }

  lemma TurnedMore(acts: seq<seq<u8>>, mark: nat, buttons: u8, pos: (u16, u16), wheel: u8)
    requires mark <= |acts|
    ensures var act := ActBytes(buttons, pos, wheel);
      && Turned((acts + [act])[mark..]) == Turned(acts[mark..]) + WheelOf(act)
      && WheelOf(act) == (if wheel < 128 then wheel else wheel - 256)
  {
    hide Le16;
    var act := ActBytes(buttons, pos, wheel);
    assert (acts + [act])[mark..] == acts[mark..] + [act];
    assert (acts[mark..] + [act])[..|acts[mark..]|] == acts[mark..];
  }

  lemma CountMore(counts: seq<int>, w: int)
    ensures Total(counts + [w]) == Total(counts) + w && Carried(counts + [w]) == Carried(counts) + Clamped(w)
  {
    assert (counts + [w])[..|counts|] == counts;
  }

  /** The wheel byte of a report is what it can carry. */
  lemma DetentsCarry(w: int)
    ensures Clamped(w) == if Detents(w) < 128 then Detents(w) else Detents(w) - 256
  {
  }

  lemma SendKeepsScroll(r: Router, m: Msg)
    requires ScrollKept(r)
    ensures ScrollKept(Send(r, m))
  {
    hide Turned, Carried, Total;
  }

  lemma PositionKeepsScroll(r: Router)
    requires ScrollKept(r)
    ensures ScrollKept(SendPosition(r))
  {
    hide Turned, Carried, Total;
  }

  lemma WheelKeepsScroll(r: Router)
    requires ScrollKept(r)
    ensures ScrollKept(SendWheel(r))
  {
    hide Turned, Carried, Total, WheelOf, Detents, ActBytes, Canonical, Clamped;
    var d := Detents(r.pendingWheel);
    if r.bridge.Some? && !r.bridge.value.lost && r.active.Some? {
      TurnedMore(r.past.acts, r.past.scroll.mark, r.buttons, Canonical(r.cursor), d);
      CountMore(r.past.scroll.counts, r.pendingWheel);
      DetentsCarry(r.pendingWheel);
    }
  }

  lemma TopKeepsScroll(r: Router, t: Turn)
    requires ScrollKept(r) && Inv(r)
    ensures ScrollKept(TopOfLoop(r, t))
  {
    hide Turned, Carried, Total, SendWheel, SendPosition, Inside, ReleasedInside, LastTold, ForceLocal;
    SendKeepsScroll(r, KeepAlive);
    var r4 := DropStale(Failsafe(Reconnect(Liveness(r, t), t), t));
    assert ScrollKept(r4);
    PositionKeepsScroll(r4);
    WheelKeepsScroll(SendPosition(r4));
  }

  lemma ButtonKeepsScroll(r: Router, code: u32, pressed: bool)
    requires ScrollKept(r)
    ensures ScrollKept(OnButton(r, code, pressed))
  {
    hide Turned, Carried, Total, WheelOf, ActBytes, Canonical, WithBit, HasBit, SendPosition, ScrollKept;
    var bit := HidMap.ButtonBit(Wrap16(code));
    if bit.Some? {
      var b := ByteWith(r.buttons, bit.value, pressed);
      var r1 := r.(buttons := b);
      ButtonsIrrelevant(r, b);
      PositionKeepsScroll(r1);
      SendKeepsScroll(SendPosition(r1), PointerButton(b));
      ClickKeepsScroll(Send(SendPosition(r1), PointerButton(b)), b, Canonical(r.cursor));
    }
  }

  lemma ButtonsIrrelevant(r: Router, b: u8)
    requires ScrollKept(r)
    ensures ScrollKept(r.(buttons := b))
  {
    hide Turned, Carried, Total;
  }

  lemma ClickKeepsScroll(r: Router, b: u8, pos: (u16, u16))
    requires ScrollKept(r)
    ensures ScrollKept(r.(past := Clicked(r.past, ActBytes(b, pos, 0))))
  {
    hide Turned, Carried, Total, WheelOf, ActBytes;
    if r.active.Some? && r.bridge.Some? && !r.bridge.value.lost {
      TurnedMore(r.past.acts, r.past.scroll.mark, b, pos, 0);
    }
  }

  lemma CaptureKeepsScroll(r: Router, c: CaptureEvent)
    requires ScrollKept(r)
    ensures ScrollKept(OnCapture(r, c))
  {
    hide Turned, Carried, Total, OnButton, ForceLocal, ApplyDelta, Canonical, TruncReal, Trunc,
         HidMap.KeycodeToUsage, Hid.Press, Hid.PressBounded;
    var r1 := r.(seen := true);
    match c
    case Button(code, pressed) => ButtonKeepsScroll(r1, code, pressed);
    case ScrollDelta(d) => ScrollConserves(r1, d);
    case _ =>
  }

  lemma EventKeepsScroll(r: Router, e: Event)
    requires ScrollKept(r)
    ensures ScrollKept(OnEvent(r, e))
  {
    hide OnCapture, ForceLocal, EnterRemote, Canonical;
    match e
    case Capture(c) => if r.active.Some? { CaptureKeepsScroll(r, c); }
    case Portal(Activated(id, y)) => assert Turned([]) == 0;
    case _ =>
  }

  /** In every run, on an unbroken connection: what the capture has scrolled, what
      its reports turn the wheel by and what is left over add up. */
  lemma {:induction false} ScrollAddsUp(
      origin: (real, real), local: Display, remote: Display, bridge: Option<Link>, ins: seq<Input>)
    ensures ScrollKept(Loop(Start(origin, local, remote, bridge), ins))
  {
    hide OnEvent, TopOfLoop, ScrollKept, Inv;
    if ins == [] {
      NotYetScrolled(origin, local, remote, bridge);
    } else {
      var n := |ins| - 1;
      ScrollAddsUp(origin, local, remote, bridge, ins[..n]);
      LoopInv(origin, local, remote, bridge, ins[..n]);
      var r := Loop(Start(origin, local, remote, bridge), ins[..n]);
      TopKeepsScroll(r, ins[n].turn);
      EventKeepsScroll(TopOfLoop(r, ins[n].turn), ins[n].event);
      LocalKeepsScroll(r);
    }
  }

  lemma NotYetScrolled(origin: (real, real), local: Display, remote: Display, bridge: Option<Link>)
    ensures ScrollKept(Start(origin, local, remote, bridge))
  {
  }

  lemma LocalKeepsScroll(r: Router)
    ensures ScrollKept(GoLocal(r).(running := false, published := Withdrawn))
  {
    hide ForceLocal;
  }

  /** The reports of a capture have turned the wheel by what was to be written, at
      each of its writes, if and only if no write had more than 127 detents. */
  lemma {:induction false} ScrollExactIff(counts: seq<int>)
    ensures (forall k :: 0 <= k <= |counts| ==> Carried(counts[..k]) == Total(counts[..k]))
       <==> forall i :: 0 <= i < |counts| ==> -127 <= counts[i] <= 127
  {
    if counts != [] {
      var n := |counts| - 1;
      var before := counts[..n];
      ScrollExactIff(before);
      assert counts == before + [counts[n]] && counts[..|counts|] == counts;
      CountMore(before, counts[n]);
      assert forall k :: 0 <= k <= n ==> counts[..k] == before[..k];
      assert counts[..n] == before[..n];
    }
  }

  // ----- the router and the bridge ------------------------------------------------

  /** The bridge once it has read everything written on the link, from the state
      v0 its session began in. */
  function Pi(r: Router, v0: Hid.View): Hid.View
    requires r.bridge.Some?
  {
    ApplyAll(v0, r.bridge.value.wire)
  }

  /** The bridge holds exactly the keys in s, each in one slot. */
  ghost predicate KeysAre(v: Hid.View, s: set<u8>) {
    Hid.Refines(v, s) && Hid.PlainSlots(v)
  }

  ghost predicate PositionKnown(r: Router, v: Hid.View) {
    if r.pendingPos.Some? then r.pendingPos.value == Canonical(r.cursor)
    else (v.x, v.y) == Canonical(r.cursor)
  }

  predicate IsAct(p: Hid.PtrReport) { p.cause.Click? || p.cause.Wheel? }

  /** The button and wheel reports. */
  function Acts(ptr: seq<Hid.PtrReport>): seq<seq<u8>> {
    if ptr == [] then []
    else Acts(ptr[..|ptr| - 1])
         + if IsAct(ptr[|ptr| - 1]) then [ptr[|ptr| - 1].bytes] else []
  }

  lemma ActsAppend(ptr: seq<Hid.PtrReport>, p: Hid.PtrReport)
    ensures Acts(ptr + [p]) == Acts(ptr) + if IsAct(p) then [p.bytes] else []
  {
    assert (ptr + [p])[..|ptr|] == ptr;
  }

  /** What the drained bridge is, as the router believes it. */
  ghost predicate Agrees(r: Router, v: Hid.View) {
    if r.active.None? then Hid.Released(v)
    else v.buttons == r.buttons && KeysAre(v, r.past.held) && PositionKnown(r, v) && v.ptr != []
  }

  ghost predicate Linked(r: Router, v0: Hid.View) {
    r.bridge.Some? ==>
      && (!r.bridge.value.lost ==> Agrees(r, Pi(r, v0)))
      && Acts(Pi(r, v0).ptr) == Acts(v0.ptr) + r.past.acts
  }

  predicate Quiet(m: Msg) { !m.PointerButton? && !m.PointerWheel? }

  /** Other messages leave the button and wheel reports alone. */
  lemma ActsUnmoved(v: Hid.View, m: Msg)
    requires Quiet(m)
    ensures Acts(Apply(v, m).ptr) == Acts(v.ptr)
  {
    hide Hid.KeyEvent, Hid.PtrBytes, Hid.KbdBytes, Acts;
    KeyEventKeepsPointer(v, m);
    if |Apply(v, m).ptr| > |v.ptr| {
      var p := Apply(v, m).ptr[|v.ptr|];
      assert Apply(v, m).ptr == v.ptr + [p];
      ActsAppend(v.ptr, p);
    }
  }

  lemma KeyEventKeepsPointer(v: Hid.View, m: Msg)
    ensures m.KeyDown? ==> var w := Apply(v, m); (w.ptr, w.x, w.y, w.buttons) == (v.ptr, v.x, v.y, v.buttons)
    ensures m.KeyUp? ==> var w := Apply(v, m); (w.ptr, w.x, w.y, w.buttons) == (v.ptr, v.x, v.y, v.buttons)
  {
  }

  /** Writing m: the drained bridge applies it, or the link is lost. */
  lemma SendApplies(r: Router, v0: Hid.View, m: Msg)
    requires r.bridge.Some?
    ensures var r' := Send(r, m);
      && r' == r.(bridge := r'.bridge) && r'.bridge.Some?
      && (r'.bridge.value.lost || (!r.bridge.value.lost && Pi(r', v0) == Apply(Pi(r, v0), m)))
      && (Pi(r', v0) == Pi(r, v0) || Pi(r', v0) == Apply(Pi(r, v0), m))
      && (r.bridge.value.lost ==> r'.bridge.value == r.bridge.value)
      && (r'.bridge.value.lost ==> Pi(r', v0) == Pi(r, v0))
  {
    hide Apply;
    ApplyAppend(v0, r.bridge.value.wire, m);
  }

  /** A write other than a button's or wheel's, after which the states agree again. */
  lemma SendLinked(r: Router, r1: Router, v0: Hid.View, m: Msg)
    requires Linked(r, v0) && r.bridge.Some? && Quiet(m)
    requires r1 == Send(r, m).(active := r1.active, cursor := r1.cursor, combo := r1.combo, seen := r1.seen,
                               accX := r1.accX, accY := r1.accY, accScroll := r1.accScroll, buttons := r1.buttons,
                               pendingPos := r1.pendingPos, pendingWheel := r1.pendingWheel,
                               published := r1.published, running := r1.running, past := r1.past)
    requires r1.past.acts == r.past.acts
    requires !r.bridge.value.lost ==> Agrees(r1, Apply(Pi(r, v0), m))
    ensures Linked(r1, v0)
  {
    hide Apply, Agrees, Acts;
    SendApplies(r, v0, m);
    ActsUnmoved(Pi(r, v0), m);
  }

  lemma GoLocalLinked(r: Router, v0: Hid.View)
    requires r.bridge.Some? ==> Acts(Pi(r, v0).ptr) == Acts(v0.ptr) + r.past.acts
    ensures Linked(GoLocal(r), v0)
  {
    hide Acts, ForceLocal;
    if r.bridge.Some? {
      SendApplies(r, v0, ReleaseKeys);
      ActsUnmoved(Pi(r, v0), ReleaseKeys);
    }
  }

  lemma KeepAliveLinked(r: Router, v0: Hid.View)
    requires Linked(r, v0)
    ensures Linked(Send(r, KeepAlive), v0)
  {
    hide Acts, KeysAre, Canonical, Hid.Released;
    if r.bridge.Some? {
      SendApplies(r, v0, KeepAlive);
    }
  }

  lemma ReconnectLinked(r: Router, t: Turn, v0: Hid.View)
    requires Linked(r, v0) && Inv(r) && Hid.Released(v0)
    ensures Linked(Reconnect(r, t), v0)
  {
    hide Acts, Inside;
    if r.bridge.None? && t.reconnectDue && Accepted(t.answer) {
      var reborn := r.(bridge := Some(Link([], t.newBudget, false)), published := Idle, past := r.past.(acts := []));
      assert Acts(v0.ptr) + [] == Acts(v0.ptr);
      SendLinked(reborn, Reconnect(r, t), v0, ReleaseKeys);
    }
  }

  /** While the capture is active, or with nothing pending. */
  ghost predicate Flushable(r: Router) {
    r.active.Some? || (r.pendingPos.None? && r.pendingWheel == 0)
  }

  lemma PositionLinked(r: Router, v0: Hid.View)
    requires Linked(r, v0) && Flushable(r)
    ensures Linked(SendPosition(r), v0)
  {
    hide Acts, Scale, HasBit;
    if r.bridge.Some? && r.pendingPos.Some? {
      SendLinked(r, SendPosition(r), v0, PointerAbs(r.pendingPos.value.0, r.pendingPos.value.1));
    }
  }

  /** What a wheel write leaves, when there is something to write. */
  lemma WheelSent(r: Router)
    ensures SendWheel(r).buttons == r.buttons
    ensures r.bridge.None? ==> SendWheel(r).bridge.None?
    ensures r.bridge.Some? && r.pendingWheel != 0 ==>
      var d := Detents(r.pendingWheel);
      var r1 := Send(r, PointerWheel(d));
      && r1.bridge.Some? && r1.past == r.past && r.(buttons := r.buttons) == r
      && SendWheel(r) == (if r1.bridge.value.lost then r1
                          else r1.(past := Wheeled(r.past, ActBytes(r.buttons, Canonical(r.cursor), d), r.pendingWheel))
                         ).(pendingWheel := 0)
  {
    hide Canonical, Detents, ActBytes;
  }

  lemma WheelLinked(r: Router, v0: Hid.View)
    requires Linked(r, v0) && Flushable(r) && r.pendingPos.None? && r.buttons < 8
    ensures Linked(SendWheel(r), v0)
  {
    hide Linked, Canonical, Detents, ActBytes, Agrees, Send, Pi, SendWheel;
    WheelSent(r);
    if r.bridge.None? {
      NoBridgeLinked(SendWheel(r), v0);
    } else if r.pendingWheel != 0 {
      var d := Detents(r.pendingWheel);
      var past := Wheeled(r.past, ActBytes(r.buttons, Canonical(r.cursor), d), r.pendingWheel);
      ActLinked(r, PointerWheel(d), d, past, v0);
      var r1 := Send(r, PointerWheel(d));
      WheelIrrelevant(if r1.bridge.value.lost then r1 else r1.(past := past), v0);
    } else {
      NothingToWrite(r);
    }
  }

  lemma NothingToWrite(r: Router)
    requires r.pendingWheel == 0
    ensures SendWheel(r) == r
  {
  }

  lemma WheelIrrelevant(r: Router, v0: Hid.View)
    requires Linked(r, v0)
    ensures Linked(r.(pendingWheel := 0), v0)
  {
    hide Acts, Canonical, KeysAre, Hid.Released;
  }

  lemma TopLinked(r: Router, t: Turn, v0: Hid.View)
    requires Linked(r, v0) && Inv(r) && !r.published.Withdrawn? && Hid.Released(v0)
    ensures Linked(TopOfLoop(r, t), v0)
  {
    hide Acts, Inside, Agrees, GoLocal, SendPosition, SendWheel;
    KeepAliveLinked(r, v0);
    if r.bridge.Some? {
      GoLocalLinked(Send(r, KeepAlive).(bridge := None, published := NoBridge), v0);
    }
    LivenessInv(r, t);
    var r1 := Liveness(r, t);
    ReconnectLinked(r1, t, v0);
    var r2 := Reconnect(r1, t);
    GoLocalLinked(r2, v0);
    var r3 := Failsafe(r2, t);
    DropStaleLinked(r3, v0);
    var r4 := DropStale(r3);
    PositionLinked(r4, v0);
    PositionKeepsFlushable(r4);
    TopInv(r, t);
    WheelSent(SendPosition(r4));
    WheelLinked(SendPosition(r4), v0);
  }

  lemma DropStaleLinked(r: Router, v0: Hid.View)
    requires Linked(r, v0)
    ensures Linked(DropStale(r), v0) && Flushable(DropStale(r))
  {
    hide Acts;
  }

  lemma PositionKeepsFlushable(r: Router)
    requires Flushable(r)
    ensures Flushable(SendPosition(r)) && SendPosition(r).pendingPos.None? && SendPosition(r).buttons == r.buttons
  {
  }

  // ----- events ----------------------------------------------------------------------

  lemma ActivateLinked(r: Router, id: u32, cursorY: real, v0: Hid.View)
    requires Linked(r, v0) && Inv(r)
    ensures Linked(Activate(r, id, cursorY), v0)
  {
    hide Acts, Inside, HasBit, Scale, MapY;
    if r.bridge.None? {
      GoLocalLinked(r.(active := Some(id)), v0);
    } else {
      var (x, y) := Canonical(EnterRemote(r.cursor, cursorY - r.origin.1));
      if r.active.None? && !r.bridge.value.lost {
        Hid.ReleasedRefines(Pi(r, v0));
      }
      SendLinked(r, Activate(r, id, cursorY), v0, PointerAbs(x, y));
    }
  }

  lemma KeyLinked(r: Router, code: u32, pressed: bool, v0: Hid.View)
    requires Linked(r, v0) && r.active.Some?
    ensures Linked(OnKey(r, code, pressed), v0)
  {
    hide Acts, Canonical, HidMap.KeycodeToUsage, Hid.KeyEvent, Hid.Press, Hid.PressBounded, GoLocal,
         Hid.Refines, Hid.PlainSlots;
    var usage := HidMap.KeycodeToUsage(Wrap16(code));
    GoLocalLinked(r.(combo := NO_COMBO), v0);
    if usage.Some? && r.bridge.Some? && !Full(Track(r.combo, usage.value, pressed)) {
      var m := if pressed then KeyDown(usage.value) else KeyUp(usage.value);
      KeyEventKeepsPointer(Pi(r, v0), m);
      if !r.bridge.value.lost {
        Hid.KeyEventRefines(Pi(r, v0), r.past.held, usage.value, pressed);
      }
      SendLinked(r, OnKey(r, code, pressed), v0, m);
    }
  }

  /** A button or wheel write causes the report the router expects, at the
      position its model has. */
  lemma ActApplied(v: Hid.View, m: Msg, buttons: u8, pos: (u16, u16), wheel: u8)
    requires buttons < 8 && (v.x, v.y) == pos && IsWrite(m, v.buttons, buttons, wheel)
    ensures var w := Apply(v, m);
      && w.buttons == buttons && (w.x, w.y) == pos && w.keys == v.keys && w.modifiers == v.modifiers && w.ptr != []
      && Acts(w.ptr) == Acts(v.ptr) + [ActBytes(buttons, pos, wheel)]
  {
    hide Le16, Acts;
    var p := Apply(v, m).ptr[|v.ptr|];
    ActsAppend(v.ptr, p);
  }

  /** m sets the buttons, or leaves them and moves the wheel. */
  predicate IsWrite(m: Msg, before: u8, buttons: u8, wheel: u8) {
    (m == PointerButton(buttons) && wheel == 0) || (m == PointerWheel(wheel) && before == buttons)
  }

  lemma SameKeys(v: Hid.View, w: Hid.View, s: set<u8>)
    requires v.keys == w.keys && v.modifiers == w.modifiers && KeysAre(v, s)
    ensures KeysAre(w, s)
  {
    hide HasBit;
    forall u: u8 ensures Hid.Holds(w, u) <==> Hid.Holds(v, u) {
    }
  }

  lemma ButtonLinked(r: Router, code: u32, pressed: bool, v0: Hid.View)
    requires Linked(r, v0) && r.active.Some? && Inv(r)
    ensures Linked(OnButton(r, code, pressed), v0)
  {
    hide Linked, Canonical, Inside, HasBit, WithBit, ActBytes, Agrees, Send, Pi;
    var bit := HidMap.ButtonBit(Wrap16(code));
    if bit.Some? {
      ButtonsStaySmall(r.buttons, bit.value, pressed);
      var b := ByteWith(r.buttons, bit.value, pressed);
      if r.bridge.Some? {
        PositionLinked(r, v0);
        PositionSent(r, b);
        ClickLinked(SendPosition(r), b, v0);
      } else {
        NoBridgeLinked(r.(buttons := b), v0);
      }
    }
  }

  lemma NoBridgeLinked(r: Router, v0: Hid.View)
    requires r.bridge.None?
    ensures Linked(r, v0)
  {
  }

  lemma PositionSent(r: Router, b: u8)
    requires r.bridge.Some?
    ensures SendPosition(r.(buttons := b)) == SendPosition(r).(buttons := b)
    ensures var r1 := SendPosition(r);
      r1.bridge.Some? && r1.active == r.active && r1.cursor == r.cursor && r1.pendingPos.None?
      && r1.past.acts == r.past.acts
  {
  }

  /** A button or wheel write itself, with no position pending. */
  lemma ActLinked(r: Router, m: Msg, wheel: u8, past: Past, v0: Hid.View)
    requires Linked(r, v0) && r.active.Some? && r.bridge.Some? && r.pendingPos.None?
    requires var b := if m.PointerButton? then m.buttons else r.buttons; b < 8 && IsWrite(m, r.buttons, b, wheel)
    requires var b := if m.PointerButton? then m.buttons else r.buttons;
      past.held == r.past.held && past.acts == r.past.acts + [ActBytes(b, Canonical(r.cursor), wheel)]
    ensures var b := if m.PointerButton? then m.buttons else r.buttons;
      var r2 := Send(r.(buttons := b), m);
      r2.bridge.Some? && Linked(if r2.bridge.value.lost then r2 else r2.(past := past), v0)
  {
    hide Acts, Canonical, KeysAre, ActBytes, Apply, Send, Pi;
    var b := if m.PointerButton? then m.buttons else r.buttons;
    SendApplies(r.(buttons := b), v0, m);
    SamePi(r, r.(buttons := b), v0);
    var v, r2, act := Pi(r, v0), Send(r.(buttons := b), m), ActBytes(b, Canonical(r.cursor), wheel);
    SamePi(r2, r2.(past := past), v0);
    assert Acts(v0.ptr) + r.past.acts + [act] == Acts(v0.ptr) + (r.past.acts + [act]);
    if !r.bridge.value.lost {
      ActApplied(v, m, b, Canonical(r.cursor), wheel);
      SameKeys(v, Apply(v, m), r.past.held);
    }
  }

  lemma ClickLinked(r: Router, b: u8, v0: Hid.View)
    requires Linked(r, v0) && r.active.Some? && r.bridge.Some? && r.pendingPos.None? && b < 8
    ensures var r2 := Send(r.(buttons := b), PointerButton(b));
      r2.bridge.Some?
      && Linked(if r2.bridge.value.lost then r2
                else r2.(past := Clicked(r2.past, ActBytes(b, Canonical(r.cursor), 0))), v0)
  {
    hide Linked, Canonical, ActBytes, Pi;
    ActLinked(r, PointerButton(b), 0, Clicked(r.past, ActBytes(b, Canonical(r.cursor), 0)), v0);
  }

  lemma SamePi(r: Router, r1: Router, v0: Hid.View)
    requires r.bridge == r1.bridge && r.bridge.Some?
    ensures Pi(r, v0) == Pi(r1, v0)
  {
  }

  lemma FrameLinked(r: Router, v0: Hid.View)
    requires Linked(r, v0) && r.active.Some? && Inv(r)
    ensures Linked(OnFrame(r), v0)
  {
    hide Acts, Scale, MapY, KeysAre, GoLocal;
    var (cursor, crossing) := ApplyDelta(r.cursor, r.accX, r.accY);
    GoLocalLinked(r.(cursor := cursor, accX := 0.0, accY := 0.0), v0);
  }

  lemma CaptureLinked(r: Router, c: CaptureEvent, v0: Hid.View)
    requires Linked(r, v0) && Inv(r) && r.active.Some?
    ensures Linked(OnCapture(r, c), v0)
  {
    hide Acts, Inside, KeysAre, Canonical, GoLocal, OnKey, OnButton, OnFrame;
    var r1 := r.(seen := true);
    match c
    case Key(code, pressed) => KeyLinked(r1, code, pressed, v0);
    case Button(code, pressed) => ButtonLinked(r1, code, pressed, v0);
    case FrameEnd => FrameLinked(r1, v0);
    case Disconnected => GoLocalLinked(r1, v0);
    case _ =>
  }

  lemma PortalLinked(r: Router, e: PortalEvent, v0: Hid.View)
    requires Linked(r, v0) && Inv(r)
    ensures Linked(OnPortal(r, e), v0)
  {
    hide Acts, Inside, Canonical, GoLocal, Activate, Hid.Refines, Hid.PlainSlots;
    GoLocalLinked(r, v0);
    if e.Activated? {
      ActivateLinked(r, e.id, e.cursorY, v0);
    }
  }

  lemma EventLinked(r: Router, e: Event, v0: Hid.View)
    requires Linked(r, v0) && Inv(r)
    ensures Linked(OnEvent(r, e), v0)
  {
    hide Acts, Inside, Canonical, GoLocal, OnCapture, OnPortal, Hid.Refines, Hid.PlainSlots;
    GoLocalLinked(r, v0);
    match e
    case Portal(p) => PortalLinked(r, p, v0);
    case Capture(c) => if r.active.Some? { CaptureLinked(r, c, v0); }
    case _ =>
  }

  /** In every run, whatever state v0 with nothing held a bridge session begins
      in: the bridge that has read everything written on an unbroken connection
      holds nothing while the router is local; while remote it holds exactly
      the keys that were pressed, fitted, and were not released since, exactly the
      router's buttons, and the
      model's position unless a newer one is pending; and on any connection its
      button and wheel reports are the ones the router means, each with the state
      and the position its model had. */
  lemma {:induction false} BridgeFollows(
      origin: (real, real), local: Display, remote: Display, bridge: Option<Link>, ins: seq<Input>, v0: Hid.View)
    requires Hid.Released(v0) && (bridge.Some? ==> bridge.value.wire == [])
    ensures Linked(Loop(Start(origin, local, remote, bridge), ins), v0)
  {
    hide OnEvent, TopOfLoop, GoLocal, Acts, Agrees;
    if ins == [] {
      StartLinked(origin, local, remote, bridge, v0);
    } else {
      var n := |ins| - 1;
      BridgeFollows(origin, local, remote, bridge, ins[..n], v0);
      LoopInv(origin, local, remote, bridge, ins[..n]);
      var r := Loop(Start(origin, local, remote, bridge), ins[..n]);
      if r.running {
        TopLinked(r, ins[n].turn, v0);
        TopInv(r, ins[n].turn);
        EventLinked(TopOfLoop(r, ins[n].turn), ins[n].event, v0);
        GoLocalLinked(r, v0);
        WithdrawnLinked(GoLocal(r), v0);
      }
    }
  }

  lemma WithdrawnLinked(r: Router, v0: Hid.View)
    requires Linked(r, v0)
    ensures Linked(r.(running := false, published := Withdrawn), v0)
  {
    hide Acts, KeysAre, Canonical, Hid.Released;
  }

  lemma StartLinked(origin: (real, real), local: Display, remote: Display, bridge: Option<Link>, v0: Hid.View)
    requires Hid.Released(v0) && (bridge.Some? ==> bridge.value.wire == [])
    ensures Linked(Start(origin, local, remote, bridge), v0)
  {
    assert Acts(v0.ptr) + [] == Acts(v0.ptr);
  }
}
