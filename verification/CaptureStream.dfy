/** What the event stream of a run means for the router: when a capture is active,
    which keys and buttons are down, how far the pointer and the wheel have been
    moved (linux/input-router/src/router.rs). */
module CaptureStream {
  import opened Bytes
  import opened Bits
  import opened Geometry
  import opened BridgeMessages
  import opened Protocol
  import opened RouterModel
  import opened RouterSafety
  import opened RouterProgress
  import HidMap
  import Hid

  /** The router before input j. */
  function Before(r0: Router, ins: seq<Input>, j: nat): Router
    requires j <= |ins|
  {
    Loop(r0, ins[..j])
  }

  lemma BeforePrefix(r0: Router, ins: seq<Input>, n: nat, j: nat)
    requires j <= n <= |ins|
    ensures Before(r0, ins[..n], j) == Before(r0, ins, j)
    ensures Before(r0, ins, n) == Loop(r0, ins[..n])
  {
    assert ins[..n][..j] == ins[..j];
  }

  // ----- when a capture is active ------------------------------------------------

  predicate IsActivation(e: Event) { e.Portal? && e.portal.Activated? }

  /** An activation that the router takes up: it has a connection, or makes one in
      the same turn. */
  predicate Enters(r: Router, x: Input) {
    && r.running && !x.turn.shutdown && IsActivation(x.event)
    && ((r.bridge.Some? && !Dropped(r, x.turn)) || (x.turn.reconnectDue && Accepted(x.turn.answer)))
  }

  /** An input that ends an active capture. */
  predicate Ends(r: Router, x: Input) {
    r.running && (x.turn.shutdown || Dropped(r, x.turn) || Unused(r, x.turn) || Interrupts(r, x.event))
  }

  /** Between turns. */
  ghost predicate Steady(r: Router) {
    Inv(r) && (r.running ==> !r.published.Withdrawn?) && r.cursor.edge.RightEdge?
  }

  lemma SteadyRun(origin: (real, real), local: Display, remote: Display, bridge: Option<Link>, ins: seq<Input>)
    ensures Steady(Loop(Start(origin, local, remote, bridge), ins))
    ensures Configured(Loop(Start(origin, local, remote, bridge), ins), origin, local, remote)
  {
    hide Inv, Iterate;
    LoopInv(origin, local, remote, bridge, ins);
    StaysConfigured(origin, local, remote, bridge, ins);
  }

  lemma {:induction false} StaysConfigured(
      origin: (real, real), local: Display, remote: Display, bridge: Option<Link>, ins: seq<Input>)
    ensures Configured(Loop(Start(origin, local, remote, bridge), ins), origin, local, remote)
  {
    hide Iterate;
    if ins != [] {
      var n := |ins| - 1;
      StaysConfigured(origin, local, remote, bridge, ins[..n]);
      TurnConfigured(Loop(Start(origin, local, remote, bridge), ins[..n]), ins[n]);
    }
  }

  lemma TurnConfigured(r: Router, x: Input)
    ensures SameScreens(r, Iterate(r, x.turn, x.event))
  {
    hide MapY, Canonical, TopOfLoop, OnCapture;
    TopScreens(r, x.turn);
    if x.event.Capture? {
      CaptureScreens(TopOfLoop(r, x.turn), x.event.event);
    }
  }

  predicate SameScreens(r: Router, r1: Router) {
    r1.origin == r.origin && r1.cursor == r.cursor.(target := r1.cursor.target, x := r1.cursor.x, y := r1.cursor.y)
  }

  lemma TopScreens(r: Router, t: Turn)
    ensures SameScreens(r, TopOfLoop(r, t))
  {
    hide MapY, SendWheel, SendPosition;
    FlushKeepsAll(DropStale(Failsafe(Reconnect(Liveness(r, t), t), t)));
  }

  lemma CaptureScreens(r: Router, c: CaptureEvent)
    ensures SameScreens(r, OnCapture(r, c))
  {
    hide MapY, Canonical, OnButton, HidMap.KeycodeToUsage, TruncReal, DetentsOf, Hid.Press, Hid.PressBounded;
    if c.Button? {
      ButtonKeepsCapture(r.(seen := true), c.code, c.pressed);
    }
  }

  /** What one input makes of the capture. */
  lemma TurnActive(r: Router, x: Input)
    requires Steady(r)
    ensures Iterate(r, x.turn, x.event).active
         == if Enters(r, x) then Some(x.event.portal.id)
            else if r.active.Some? && !Ends(r, x) then r.active else None
  {
    hide Inv, TopOfLoop, OnEvent, ForceLocal, Interrupts;
    if r.running && !x.turn.shutdown {
      var r1 := TopOfLoop(r, x.turn);
      TopEndsIff(r, x.turn);
      TopConnectsIff(r, x.turn);
      TopInv(r, x.turn);
      TopSteady(r, x.turn);
      EventEndsIff(r1, x.event);
      assert r1.active.Some? ==> Interrupts(r1, x.event) == Interrupts(r, x.event);
      assert IsActivation(x.event) ==> (r1.bridge.Some? <==> Enters(r, x));
    }
    OnlyOthersInterrupt(r, x.event);
    ActiveConnected(r);
  }

  lemma ActiveConnected(r: Router)
    requires Inv(r)
    ensures r.active.Some? ==> r.bridge.Some? && r.cursor.target.Remote?
  {
  }

  lemma OnlyOthersInterrupt(r: Router, e: Event)
    ensures IsActivation(e) ==> !Interrupts(r, e)
  {
  }

  /** What an event looks at is what it was before the top of the loop. */
  lemma TopSteady(r: Router, t: Turn)
    requires Steady(r)
    ensures var r1 := TopOfLoop(r, t);
      && r1.cursor.edge.RightEdge?
      && (r1.active.Some? ==> forall e :: Interrupts(r1, e) == Interrupts(r, e))
  {
    hide Inv, TopOfLoop, Interrupts;
    TopScreens(r, t);
    if TopOfLoop(r, t).active.Some? {
      TopWrites(r, t);
      forall e ensures Interrupts(TopOfLoop(r, t), e) == Interrupts(r, e) {
        SameInterrupts(r, TopOfLoop(r, t), e);
      }
    }
  }

  lemma SameInterrupts(r: Router, r1: Router, e: Event)
    requires r1.combo == r.combo && r1.cursor == r.cursor && r1.accX == r.accX
    ensures Interrupts(r1, e) == Interrupts(r, e)
  {
  }

  /** Input i started capture id, and nothing has ended or replaced it since. */
  ghost predicate CapturedSince(r0: Router, ins: seq<Input>, i: nat, id: u32) {
    && i < |ins| && Enters(Before(r0, ins, i), ins[i]) && ins[i].event.portal.id == id
    && forall j :: i < j < |ins| ==> !Ends(Before(r0, ins, j), ins[j]) && !Enters(Before(r0, ins, j), ins[j])
  }

  lemma CapturedStep(r0: Router, ins: seq<Input>, i: nat, id: u32)
    requires ins != []
    ensures var n := |ins| - 1;
      CapturedSince(r0, ins, i, id) <==>
        if i == n then Enters(Before(r0, ins, n), ins[n]) && ins[n].event.portal.id == id
        else i < n && CapturedSince(r0, ins[..n], i, id) && !Ends(Before(r0, ins, n), ins[n])
             && !Enters(Before(r0, ins, n), ins[n])
  {
    hide Before, Ends;
    var n := |ins| - 1;
    forall j: nat | j <= n ensures Before(r0, ins[..n], j) == Before(r0, ins, j) {
      BeforePrefix(r0, ins, n, j);
    }
    assert forall j :: 0 <= j < n ==> ins[..n][j] == ins[j];
    if CapturedSince(r0, ins, i, id) && i < n {
      forall j | i < j < n ensures !Ends(Before(r0, ins[..n], j), ins[..n][j]) && !Enters(Before(r0, ins[..n], j), ins[..n][j]) {
        assert !Ends(Before(r0, ins, j), ins[j]);
      }
    }
    if i < n && CapturedSince(r0, ins[..n], i, id) && !Ends(Before(r0, ins, n), ins[n]) && !Enters(Before(r0, ins, n), ins[n]) {
      forall j | i < j < |ins| ensures !Ends(Before(r0, ins, j), ins[j]) && !Enters(Before(r0, ins, j), ins[j]) {
        if j < n {
          assert !Ends(Before(r0, ins[..n], j), ins[..n][j]);
        }
      }
    }
  }

  /** In every run a capture is active if and only if some activation was taken up
      with a connection and nothing has ended it since: no shutdown, dropped
      connection or failsafe, nothing from the compositor or the lock, no emergency
      combination, and no motion aiming beyond the shared border. */
  lemma {:induction false} CapturedIff(
      origin: (real, real), local: Display, remote: Display, bridge: Option<Link>, ins: seq<Input>, id: u32)
    ensures var r0 := Start(origin, local, remote, bridge);
      Loop(r0, ins).active == Some(id) <==> exists i: nat :: CapturedSince(r0, ins, i, id)
  {
    hide Iterate, Before, Ends, Enters, CapturedSince, Steady;
    var r0 := Start(origin, local, remote, bridge);
    if ins == [] {
      NothingCaptured(r0, id);
    } else {
      var n := |ins| - 1;
      CapturedIff(origin, local, remote, bridge, ins[..n], id);
      BeforePrefix(r0, ins, n, n);
      SteadyRun(origin, local, remote, bridge, ins[..n]);
      TurnActive(Loop(r0, ins[..n]), ins[n]);
      CapturedStep(r0, ins, n, id);
      if i: nat :| CapturedSince(r0, ins, i, id) {
        CapturedStep(r0, ins, i, id);
      }
      if i: nat :| CapturedSince(r0, ins[..n], i, id) {
        CapturedStep(r0, ins, i, id);
        CapturedInRange(r0, ins[..n], i, id);
      }
    }
  }

  lemma CapturedInRange(r0: Router, ins: seq<Input>, i: nat, id: u32)
    requires CapturedSince(r0, ins, i, id)
    ensures i < |ins|
  {
    hide Before, Ends, Enters;
  }

  lemma NothingCaptured(r0: Router, id: u32)
    ensures forall i: nat :: !CapturedSince(r0, [], i, id)
  {
    hide Before, Ends, Enters;
  }

  /** A turn in which a running router reaches its event with a capture active. */
  predicate Captures(r: Router, t: Turn) {
    r.running && !t.shutdown && TopOfLoop(r, t).active.Some?
  }

  /** The compositor has sent an event since the last activation. */
  function Used(r0: Router, ins: seq<Input>): bool {
    if ins == [] then false
    else
      var n := |ins| - 1;
      var r, x := Loop(r0, ins[..n]), ins[n];
      !Enters(r, x) && (Used(r0, ins[..n]) || (Captures(r, x.turn) && x.event.Capture?))
  }

  lemma TurnSeen(r: Router, x: Input)
    requires Steady(r) && Iterate(r, x.turn, x.event).active.Some?
    ensures Iterate(r, x.turn, x.event).seen
         == (!Enters(r, x) && (r.seen || (Captures(r, x.turn) && x.event.Capture?)))
    ensures !Enters(r, x) ==> r.active.Some?
  {
    hide Inv, TopOfLoop, ForceLocal, EnterRemote, Canonical, Interrupts, OnCapture;
    TurnActive(r, x);
    if r.running && !x.turn.shutdown {
      var r1 := TopOfLoop(r, x.turn);
      TopConnectsIff(r, x.turn);
      if r1.active.Some? {
        TopWrites(r, x.turn);
        if x.event.Capture? {
          CaptureSeen(r1, x.event.event);
        }
      }
    }
  }

  lemma CaptureSeen(r: Router, c: CaptureEvent)
    ensures OnCapture(r, c).seen
  {
    hide ForceLocal, Canonical, OnButton, HidMap.KeycodeToUsage, TruncReal, DetentsOf, Hid.Press, Hid.PressBounded;
    if c.Button? {
      ButtonKeepsCapture(r.(seen := true), c.code, c.pressed);
    }
  }

  /** In every run, the failsafe takes a capture for unused exactly when nothing has
      come from the compositor since its activation. */
  lemma {:induction false} SeenExactly(
      origin: (real, real), local: Display, remote: Display, bridge: Option<Link>, ins: seq<Input>)
    ensures var r0 := Start(origin, local, remote, bridge);
      Loop(r0, ins).active.Some? ==> (Loop(r0, ins).seen <==> Used(r0, ins))
  {
    hide Iterate, Enters, Captures, Steady;
    if ins != [] {
      var n := |ins| - 1;
      var r := Loop(Start(origin, local, remote, bridge), ins[..n]);
      SeenExactly(origin, local, remote, bridge, ins[..n]);
      SteadyRun(origin, local, remote, bridge, ins[..n]);
      if Iterate(r, ins[n].turn, ins[n].event).active.Some? {
        TurnSeen(r, ins[n]);
      }
    }
  }

  // ----- what a turn writes, and how a capture is handed back -------------------------

  /** In every run, in a turn that leaves a capture active, the top of the loop writes
      exactly what is due: on an unbroken connection all of it arrives, in order, and
      on a broken one no more than some beginning. After an open window nothing stays
      pending, with or without a capture. */
  lemma EveryTurnWrites(
      origin: (real, real), local: Display, remote: Display, bridge: Option<Link>, ins: seq<Input>, t: Turn)
    ensures var r := Loop(Start(origin, local, remote, bridge), ins);
      var r1 := TopOfLoop(r, t);
      && (t.windowOpen ==> r1.pendingPos == None && r1.pendingWheel == 0)
      && (r1.active.Some? ==>
            && r.bridge.Some? && r1.bridge.Some? && r1.cursor == r.cursor
            && r.bridge.value.wire <= r1.bridge.value.wire <= r.bridge.value.wire + Due(r, t)
            && (!r1.bridge.value.lost ==> r1.bridge.value.wire == r.bridge.value.wire + Due(r, t)))
  {
    hide Loop, TopOfLoop, Inv;
    LoopInv(origin, local, remote, bridge, ins);
    var r := Loop(Start(origin, local, remote, bridge), ins);
    WindowClears(r, t);
    if TopOfLoop(r, t).active.Some? {
      TopWrites(r, t);
      PutsArrive(r.bridge.value, Due(r, t));
    }
  }

  lemma WindowClears(r: Router, t: Turn)
    ensures t.windowOpen ==> TopOfLoop(r, t).pendingPos == None && TopOfLoop(r, t).pendingWheel == 0
  {
    hide Liveness, Reconnect, Failsafe, SendPosition, SendWheel;
    FlushKeepsAll(DropStale(Failsafe(Reconnect(Liveness(r, t), t), t)));
  }

  /** The row of the remote screen from which a turn takes the cursor back: where it
      was, or where a frame's motion has taken it. */
  function FinalRow(r: Router, x: Input): real {
    if Captures(r, x.turn) && x.event == Capture(FrameEnd) then
      Clamp(r.cursor.y + r.accY, 0.0, r.cursor.remote.height - 1.0)
    else r.cursor.y
  }

  /** A capture is handed back with the cursor on the local side of the shared border,
      at the height of that row, and the clipboard agent is told. */
  lemma HandedBack(r: Router, x: Input)
    requires Steady(r) && r.active.Some? && Iterate(r, x.turn, x.event).active.None?
    ensures var c := r.cursor;
      r.past.done + [Released(r.active.value, r.origin.0 + c.local.width - 1.0,
                              r.origin.1 + MapY(c.remote, c.local, FinalRow(r, x))), Told(false)]
      <= Iterate(r, x.turn, x.event).past.done
  {
    hide Inv, TopOfLoop, MapY, Steady, OnEvent;
    SteadyIs(r, x.turn);
    ActiveConnected(r);
    if r.running && !x.turn.shutdown {
      var r1 := TopOfLoop(r, x.turn);
      TopHandsBack(r, x.turn);
      if r1.active.Some? {
        TopWrites(r, x.turn);
        EventHandsBack(r1, x.event);
      } else {
        EventKeepsEffects(r1, x.event);
      }
    }
  }

  /** What handing back at once adds. */
  function HandBack(r: Router, row: real): seq<Effect>
    requires r.active.Some?
  {
    [Released(r.active.value, r.origin.0 + r.cursor.local.width - 1.0,
              r.origin.1 + MapY(r.cursor.remote, r.cursor.local, row)), Told(false)]
  }

  lemma LocalHandsBack(r: Router)
    ensures r.active.Some? && r.cursor.target.Remote? && r.cursor.edge.RightEdge? ==>
              GoLocal(r).past.done == r.past.done + HandBack(r, r.cursor.y)
  {
    hide MapY;
    if r.active.Some? {
      var c := ForceLocal(r.cursor);
      var back := Released(r.active.value, r.origin.0 + c.x, r.origin.1 + c.y);
      assert r.past.done + ([back] + [Told(false)]) == r.past.done + [back, Told(false)];
    }
  }

  lemma TopHandsBack(r: Router, t: Turn)
    requires Inv(r) && r.active.Some? && r.cursor.edge.RightEdge?
    ensures TopOfLoop(r, t).active.None? ==> TopOfLoop(r, t).past.done == r.past.done + HandBack(r, r.cursor.y)
  {
    hide HandBack, Inside, ReleasedInside, LastTold, ForceLocal, SendPosition, SendWheel, GoLocal, LeaveCapture;
    LocalHandsBack(Send(r, KeepAlive).(bridge := None, published := NoBridge));
    LocalHandsBack(Reconnect(Liveness(r, t), t));
    HandBackSame(r, Send(r, KeepAlive).(bridge := None, published := NoBridge));
    HandBackSame(r, Reconnect(Liveness(r, t), t));
    LocalIsInactive(r);
    FlushKeepsAll(DropStale(Failsafe(Reconnect(Liveness(r, t), t), t)));
  }

  lemma LocalIsInactive(r: Router)
    ensures forall s: Router :: GoLocal(s).active.None?
  {
  }

  lemma HandBackSame(r: Router, r1: Router)
    ensures (r.active.Some? && r1.active == r.active && r1.origin == r.origin && r1.cursor == r.cursor) ==>
              HandBack(r, r.cursor.y) == HandBack(r1, r1.cursor.y)
  {
  }

  lemma EventHandsBack(r: Router, e: Event)
    requires Inv(r) && r.active.Some? && r.cursor.edge.RightEdge? && OnEvent(r, e).active.None?
    ensures r.past.done + HandBack(r, if e == Capture(FrameEnd) then
                                        Clamp(r.cursor.y + r.accY, 0.0, r.cursor.remote.height - 1.0) else r.cursor.y)
         <= OnEvent(r, e).past.done
  {
    hide MapY, Canonical, OnButton, HidMap.KeycodeToUsage, TruncReal, DetentsOf, Hid.Press, Hid.PressBounded,
         ReleasedInside, LastTold;
    if e.Capture? && e.event.Button? {
      ButtonKeepsCapture(r.(seen := true), e.event.code, e.event.pressed);
    }
  }

  lemma EventKeepsEffects(r: Router, e: Event)
    requires r.active.None?
    ensures r.past.done <= OnEvent(r, e).past.done
  {
    hide MapY, Canonical;
  }

  // ----- where the pointer aims ----------------------------------------------------

  /** The row of the remote screen where a cursor enters that leaves the local one at
      this height, from its top. */
  function EntryRow(local: Display, remote: Display, y: real): real {
    MapY(local, remote, Clamp(y, 0.0, local.height - 1.0))
  }

  /** The entry at the shared border and all motion since. */
  function Aim(r0: Router, ins: seq<Input>): (real, real) {
    if ins == [] then (0.0, 0.0)
    else
      var n := |ins| - 1;
      var r, x, aim := Loop(r0, ins[..n]), ins[n], Aim(r0, ins[..n]);
      if Enters(r, x) then
        (0.0, EntryRow(r0.cursor.local, r0.cursor.remote, x.event.portal.cursorY - r0.origin.1))
      else if Captures(r, x.turn) && x.event.Capture? && x.event.event.Motion? then
        (aim.0 + x.event.event.dx, aim.1 + x.event.event.dy)
      else aim
  }

  /** Since the entry, the motions have not aimed off the remote screen. */
  ghost predicate Free(r0: Router, ins: seq<Input>) {
    ins == [] ||
      var n := |ins| - 1;
      Enters(Loop(r0, ins[..n]), ins[n]) || (Free(r0, ins[..n]) && OnScreen(r0.cursor.remote, Aim(r0, ins)))
  }

  predicate OnScreen(s: Display, p: (real, real)) {
    0.0 <= p.0 <= s.width - 1.0 && 0.0 <= p.1 <= s.height - 1.0
  }

  /** Where the cursor will be when the motions not yet applied are. */
  function Aimed(r: Router): (real, real) { (r.cursor.x + r.accX, r.cursor.y + r.accY) }

  lemma CaptureAims(r: Router, c: CaptureEvent)
    requires Inv(r) && r.active.Some? && r.cursor.edge.RightEdge? && OnCapture(r, c).active.Some?
    ensures var r' := OnCapture(r, c);
      && (c.Motion? ==> Aimed(r') == (Aimed(r).0 + c.dx, Aimed(r).1 + c.dy))
      && (!c.Motion? && (c.FrameEnd? ==> OnScreen(r.cursor.remote, Aimed(r))) ==> Aimed(r') == Aimed(r))
      && (c.FrameEnd? ==> r'.accX == r'.accY == 0.0)
  {
    hide HidMap.KeycodeToUsage, Canonical, MapY, TruncReal, DetentsOf, OnButton, Hid.Press, Hid.PressBounded,
         ReleasedInside, LastTold;
    if c.Button? {
      ButtonKeepsCapture(r.(seen := true), c.code, c.pressed);
    }
  }

  lemma TurnAims(r: Router, x: Input)
    requires Steady(r) && Iterate(r, x.turn, x.event).active.Some?
    ensures var r', c := Iterate(r, x.turn, x.event), r.cursor;
      if Enters(r, x) then Aimed(r') == (0.0, EntryRow(c.local, c.remote, x.event.portal.cursorY - r.origin.1))
      else if Captures(r, x.turn) && x.event.Capture? && x.event.event.Motion? then
        Aimed(r') == (Aimed(r).0 + x.event.event.dx, Aimed(r).1 + x.event.event.dy)
      else OnScreen(c.remote, Aimed(r)) ==> Aimed(r') == Aimed(r)
  {
    hide Inv, TopOfLoop, ForceLocal, MapY, Canonical, Interrupts, OnCapture, Steady;
    TurnActive(r, x);
    SteadyIs(r, x.turn);
    if r.running && !x.turn.shutdown {
      var r1 := TopOfLoop(r, x.turn);
      TopConnectsIff(r, x.turn);
      TopScreens(r, x.turn);
      if r1.active.Some? {
        TopWrites(r, x.turn);
        if x.event.Capture? {
          CaptureAims(r1, x.event.event);
        }
      }
    }
  }

  lemma SteadyIs(r: Router, t: Turn)
    requires Steady(r)
    ensures Inv(r) && r.cursor.edge.RightEdge?
    ensures r.running ==> Inv(TopOfLoop(r, t))
  {
    hide Inv, TopOfLoop;
    if r.running {
      TopInv(r, t);
    }
  }

  /** In every run: while the motions of a capture have not aimed off the remote
      screen, the cursor, with the motion of the frame not yet ended, is where it
      entered plus all motion since. */
  lemma {:induction false} AimReached(
      origin: (real, real), local: Display, remote: Display, bridge: Option<Link>, ins: seq<Input>)
    ensures var r0 := Start(origin, local, remote, bridge);
      Loop(r0, ins).active.Some? && Free(r0, ins) ==> Aimed(Loop(r0, ins)) == Aim(r0, ins) && OnScreen(remote, Aim(r0, ins))
  {
    hide Iterate, Enters, Captures, Steady, Configured, MapY;
    var r0 := Start(origin, local, remote, bridge);
    if ins != [] && Loop(r0, ins).active.Some? && Free(r0, ins) {
      var n := |ins| - 1;
      var r := Loop(r0, ins[..n]);
      AimReached(origin, local, remote, bridge, ins[..n]);
      SteadyRun(origin, local, remote, bridge, ins[..n]);
      ConfiguredIs(r, origin, local, remote);
      TurnAims(r, ins[n]);
      TurnActive(r, ins[n]);
      EntryInside(local, remote, if IsActivation(ins[n].event) then ins[n].event.portal.cursorY - origin.1 else 0.0);
      EntersIs(r, ins[n]);
    }
  }

  lemma EntersIs(r: Router, x: Input)
    ensures Enters(r, x) ==> IsActivation(x.event)
  {
  }

  lemma ConfiguredIs(r: Router, origin: (real, real), local: Display, remote: Display)
    requires Configured(r, origin, local, remote)
    ensures r.origin == origin && r.cursor.local == local && r.cursor.remote == remote
  {
  }

  lemma EntryInside(local: Display, remote: Display, y: real)
    ensures OnScreen(remote, (0.0, EntryRow(local, remote, y)))
  {
    hide Proportion;
  }

  /** Motion has come since the last end of a frame, or the entry. */
  function FrameOpen(r0: Router, ins: seq<Input>): bool {
    if ins == [] then false
    else
      var n := |ins| - 1;
      var r, x := Loop(r0, ins[..n]), ins[n];
      if Enters(r, x) then false
      else if Captures(r, x.turn) && x.event.Capture? && x.event.event.Motion? then true
      else FrameOpen(r0, ins[..n]) && !(Captures(r, x.turn) && x.event == Capture(FrameEnd))
  }

  lemma CaptureFrames(r: Router, c: CaptureEvent)
    requires !c.Motion? && (c.FrameEnd? || r.accX == r.accY == 0.0)
    ensures OnCapture(r, c).active.Some? ==> OnCapture(r, c).accX == OnCapture(r, c).accY == 0.0
  {
    hide HidMap.KeycodeToUsage, Canonical, MapY, TruncReal, DetentsOf, OnButton, Hid.Press, Hid.PressBounded;
    if c.Button? {
      ButtonKeepsCapture(r.(seen := true), c.code, c.pressed);
    }
  }

  lemma TurnFrames(r: Router, x: Input)
    requires Steady(r) && Iterate(r, x.turn, x.event).active.Some?
    requires Enters(r, x) || !(Captures(r, x.turn) && x.event.Capture? && x.event.event.Motion?)
    requires Enters(r, x) || (Captures(r, x.turn) && x.event == Capture(FrameEnd)) || r.accX == r.accY == 0.0
    ensures var r' := Iterate(r, x.turn, x.event); r'.accX == r'.accY == 0.0
  {
    hide Inv, TopOfLoop, ForceLocal, MapY, Canonical, Interrupts, OnCapture, Steady;
    TurnActive(r, x);
    SteadyIs(r, x.turn);
    if r.running && !x.turn.shutdown {
      var r1 := TopOfLoop(r, x.turn);
      TopConnectsIff(r, x.turn);
      if r1.active.Some? {
        TopWrites(r, x.turn);
        if x.event.Capture? {
          CaptureFrames(r1, x.event.event);
        }
      }
    }
  }

  /** In every run, between frames no motion is left to be applied. */
  lemma {:induction false} FramesApplied(
      origin: (real, real), local: Display, remote: Display, bridge: Option<Link>, ins: seq<Input>)
    ensures var r0 := Start(origin, local, remote, bridge);
      var r := Loop(r0, ins);
      r.active.Some? && !FrameOpen(r0, ins) ==> Aimed(r) == (r.cursor.x, r.cursor.y) && r.accX == r.accY == 0.0
  {
    hide Iterate, Enters, Captures, Steady;
    var r0 := Start(origin, local, remote, bridge);
    if ins != [] && Loop(r0, ins).active.Some? && !FrameOpen(r0, ins) {
      var n := |ins| - 1;
      var r := Loop(r0, ins[..n]);
      FramesApplied(origin, local, remote, bridge, ins[..n]);
      SteadyRun(origin, local, remote, bridge, ins[..n]);
      TurnActive(r, ins[n]);
      EntersIs(r, ins[n]);
      TurnFrames(r, ins[n]);
    }
  }

  // ----- what the capture stream has pressed --------------------------------------

  /** A key, by its usage, or a button: left, right and middle. */
  datatype Switch = KeyOf(u: u8) | ButtonOf(b: nat)

  predicate IsPress(e: Event, s: Switch, pressed: bool) {
    && e.Capture?
    && match s
       case KeyOf(u) =>
         && e.event.Key? && e.event.pressed == pressed
         && HidMap.KeycodeToUsage(Wrap16(e.event.code)) == Some(u)
       case ButtonOf(b) =>
         && e.event.Button? && e.event.pressed == pressed
         && b < 3 && Wrap16(e.event.code) == 0x110 + b
  }

  /** Event i pressed s in a capture; the capture has lasted ever since, and no
      later event the router took has released s. */
  ghost predicate StillPressed(r0: Router, ins: seq<Input>, i: nat, s: Switch) {
    && i < |ins| && IsPress(ins[i].event, s, true) && Captures(Before(r0, ins, i), ins[i].turn)
    && (forall j :: i < j < |ins| ==> Carries(Before(r0, ins, j), ins[j], s))
    && (forall j :: i < j <= |ins| ==> Before(r0, ins, j).active.Some?)
  }

  /** An input that neither interrupts the capture nor releases s. */
  predicate Carries(r: Router, x: Input, s: Switch) {
    r.running ==> Captures(r, x.turn) && !IsPress(x.event, s, false)
  }

  lemma StillPressedStep(r0: Router, ins: seq<Input>, i: nat, s: Switch)
    requires ins != []
    ensures var n := |ins| - 1;
      StillPressed(r0, ins, i, s) <==>
        && Before(r0, ins, |ins|).active.Some?
        && if i == n then IsPress(ins[n].event, s, true) && Captures(Before(r0, ins, n), ins[n].turn)
           else StillPressed(r0, ins[..n], i, s) && Carries(Before(r0, ins, n), ins[n], s)
  {
    hide Before, IsPress, Captures, Carries;
    var n := |ins| - 1;
    forall j: nat | j <= n ensures Before(r0, ins[..n], j) == Before(r0, ins, j) {
      BeforePrefix(r0, ins, n, j);
    }
    assert forall j :: 0 <= j < n ==> ins[..n][j] == ins[j];
    if StillPressed(r0, ins, i, s) && i < n {
      forall j | i < j < n ensures Carries(Before(r0, ins[..n], j), ins[..n][j], s) {
        assert Carries(Before(r0, ins, j), ins[j], s);
      }
    }
    if i < n && StillPressed(r0, ins[..n], i, s) && Carries(Before(r0, ins, n), ins[n], s) {
      forall j | i < j < |ins| ensures Carries(Before(r0, ins, j), ins[j], s) {
        if j < n {
          assert Carries(Before(r0, ins[..n], j), ins[..n][j], s);
        }
      }
    }
  }

  /** What the router takes to be down. */
  predicate Down(r: Router, s: Switch) {
    match s
    case KeyOf(u) => u in r.past.pressed
    case ButtonOf(b) => b < 3 && HasBit(r.buttons, b)
  }

  ghost predicate PressedOnlyWhileActive(r: Router) {
    r.active.None? ==> r.past.pressed == r.past.held == {} && r.buttons == 0
  }

  lemma NothingDown(r: Router, s: Switch)
    requires PressedOnlyWhileActive(r) && r.active.None?
    ensures !Down(r, s)
  {
    if s.ButtonOf? {
      ZeroHasNoBits(s.b);
    }
  }

  /** One turn: what counts as pressed was pressed just now, or before and
      carried on, in a capture that is still active. */
  lemma TurnPresses(r: Router, t: Turn, e: Event, s: Switch)
    requires r.running && PressedOnlyWhileActive(r)
    ensures var r' := Iterate(r, t, e);
      && PressedOnlyWhileActive(r')
      && (Down(r', s) <==>
            r'.active.Some? && Captures(r, t) && (IsPress(e, s, true) || (Down(r, s) && !IsPress(e, s, false))))
  {
    hide ForceLocal, OnCapture, HidMap.KeycodeToUsage, Canonical, EnterRemote, IsPress, TopOfLoop, HasBit;
    TopPresses(r, t);
    var r1, r' := TopOfLoop(r, t), Iterate(r, t, e);
    OnlyCaptureIsPress(e, s);
    if e.Capture? && r1.active.Some? {
      CapturePresses(r1, e.event, s);
    }
    if r'.active.None? {
      NothingDown(r', s);
    }
    if r.active.None? {
      NothingDown(r, s);
    }
    if r1.active.None? {
      NothingDown(r1, s);
    }
  }

  lemma OnlyCaptureIsPress(e: Event, s: Switch)
    ensures IsPress(e, s, true) || IsPress(e, s, false) ==> e.Capture?
  {
  }

  lemma TopPresses(r: Router, t: Turn)
    requires PressedOnlyWhileActive(r)
    ensures var r' := TopOfLoop(r, t);
      && PressedOnlyWhileActive(r')
      && (r'.active.Some? ==>
            r'.past.pressed == r.past.pressed && r'.past.held == r.past.held && r'.buttons == r.buttons)
      && r'.combo == r.combo && r'.running == r.running
      && (r'.active.Some? ==> r.active.Some?)
  {
    hide GoLocal, SendPosition, SendWheel;
    LocalHoldsNothing();
    assert PressedOnlyWhileActive(Liveness(r, t));
    FlushKeepsAll(DropStale(Failsafe(Reconnect(Liveness(r, t), t), t)));
  }

  lemma LocalHoldsNothing()
    ensures forall s: Router ::
      && PressedOnlyWhileActive(GoLocal(s)) && GoLocal(s).active.None?
      && GoLocal(s).combo == s.combo && GoLocal(s).running == s.running
  {
    hide ForceLocal;
  }

  lemma CapturePresses(r: Router, c: CaptureEvent, s: Switch)
    requires r.active.Some?
    ensures var r' := OnCapture(r, c);
      && PressedOnlyWhileActive(r')
      && (Down(r', s) <==>
            r'.active.Some? && (IsPress(Capture(c), s, true) || (Down(r, s) && !IsPress(Capture(c), s, false))))
  {
    hide ForceLocal, ApplyDelta, HidMap.KeycodeToUsage, ActBytes, Scale, Hid.PressBounded, HasBit, OnButton, TruncReal,
         DetentsOf;
    if c.Key? && HidMap.KeycodeToUsage(Wrap16(c.code)).Some? {
      HidMap.UsagesAreDistinct(Wrap16(c.code), Wrap16(c.code));
    }
    if c.Button? {
      ButtonPresses(r.(seen := true), c.code, c.pressed, s);
    }
    if OnCapture(r, c).active.None? {
      NothingDown(OnCapture(r, c), s);
    }
  }

  lemma ButtonPresses(r: Router, code: u32, pressed: bool, s: Switch)
    ensures var r', e := OnButton(r, code, pressed), Capture(Button(code, pressed));
      && r'.active == r.active && r'.past.pressed == r.past.pressed && r'.past.held == r.past.held
      && (Down(r', s) <==> IsPress(e, s, true) || (Down(r, s) && !IsPress(e, s, false)))
  {
    hide HasBit, WithBit, ActBytes, Canonical, SendPosition;
    PositionKeepsAll(r);
  }

  /** In every run, a key or button counts as down if and only if the event stream has
      pressed it in the capture that is still active, and not released it since. */
  lemma {:induction false} PressedExactly(
      origin: (real, real), local: Display, remote: Display, bridge: Option<Link>, ins: seq<Input>, s: Switch)
    ensures var r0 := Start(origin, local, remote, bridge);
      && PressedOnlyWhileActive(Loop(r0, ins))
      && (Down(Loop(r0, ins), s) <==> exists i: nat :: StillPressed(r0, ins, i, s))
  {
    hide Iterate, IsPress, Captures, StillPressed, Before, Down;
    var r0 := Start(origin, local, remote, bridge);
    if ins == [] {
      NothingDown(r0, s);
      NothingPressed(r0, s);
    } else {
      var n := |ins| - 1;
      PressedExactly(origin, local, remote, bridge, ins[..n], s);
      assert ins[..|ins|] == ins;
      BeforePrefix(r0, ins, |ins|, |ins|);
      BeforePrefix(r0, ins, n, n);
      var r := Loop(r0, ins[..n]);
      TurnOrStop(r, ins[n], s);
      StillPressedStep(r0, ins, n, s);
      if i: nat :| StillPressed(r0, ins, i, s) {
        StillPressedStep(r0, ins, i, s);
      }
      if i: nat :| StillPressed(r0, ins[..n], i, s) {
        StillPressedStep(r0, ins, i, s);
        StillPressedInRange(r0, ins[..n], i, s);
      }
    }
  }

  /** One input, also to a router that has stopped. */
  lemma TurnOrStop(r: Router, x: Input, s: Switch)
    requires PressedOnlyWhileActive(r)
    ensures var r' := Iterate(r, x.turn, x.event);
      && PressedOnlyWhileActive(r')
      && (Down(r', s) <==>
            && r'.active.Some?
            && ((Captures(r, x.turn) && IsPress(x.event, s, true)) || (Down(r, s) && Carries(r, x, s))))
  {
    hide TopOfLoop, OnEvent, GoLocal, IsPress, Down;
    if r.running {
      TurnPresses(r, x.turn, x.event, s);
    } else if r.active.None? {
      NothingDown(r, s);
    }
  }

  lemma StillPressedInRange(r0: Router, ins: seq<Input>, i: nat, s: Switch)
    requires StillPressed(r0, ins, i, s)
    ensures i < |ins|
  {
    hide Before;
  }

  lemma NothingPressed(r0: Router, s: Switch)
    ensures forall i: nat :: !StillPressed(r0, [], i, s)
  {
    hide Before;
  }

  /** Bit b of the buttons is that of event code 0x110 + b, and there are no others. */
  lemma ButtonsExactly(
      origin: (real, real), local: Display, remote: Display, bridge: Option<Link>, ins: seq<Input>)
    ensures var r0 := Start(origin, local, remote, bridge);
      && Loop(r0, ins).buttons < 8
      && forall b: nat :: b < 3 ==>
           (HasBit(Loop(r0, ins).buttons, b) <==> exists i: nat :: StillPressed(r0, ins, i, ButtonOf(b)))
  {
    hide Loop, HasBit, StillPressed, Inside, ReleasedInside, LastTold;
    var r0 := Start(origin, local, remote, bridge);
    LoopInv(origin, local, remote, bridge, ins);
    forall b: nat | b < 3
      ensures HasBit(Loop(r0, ins).buttons, b) <==> exists i: nat :: StillPressed(r0, ins, i, ButtonOf(b))
    {
      PressedExactly(origin, local, remote, bridge, ins, ButtonOf(b));
    }
  }

  // ----- what the capture stream has scrolled ---------------------------------------

  function Units(e: Event): real {
    match e
    case Capture(ScrollDiscrete(y)) => DETENT * DetentsOf(y) as real
    case Capture(ScrollDelta(d)) => d
    case _ => 0.0
  }

  /** The scroll events taken since the last activation. */
  function Scrolled(r0: Router, ins: seq<Input>): real {
    if ins == [] then 0.0
    else
      var n := |ins| - 1;
      var r, x := Loop(r0, ins[..n]), ins[n];
      if Enters(r, x) then 0.0
      else Scrolled(r0, ins[..n]) + if Captures(r, x.turn) then Units(x.event) else 0.0
  }

  lemma TopScrolls(r: Router, t: Turn)
    ensures TopOfLoop(r, t).past.scroll.units == r.past.scroll.units && TopOfLoop(r, t).running == r.running
  {
    hide ForceLocal, SendPosition, SendWheel;
    FlushKeepsAll(DropStale(Failsafe(Reconnect(Liveness(r, t), t), t)));
  }

  lemma CaptureScrolls(r: Router, c: CaptureEvent)
    ensures OnCapture(r, c).past.scroll.units == r.past.scroll.units + Units(Capture(c))
  {
    hide ForceLocal, ApplyDelta, Canonical, ActBytes, HidMap.KeycodeToUsage, Hid.Press, Hid.PressBounded, TruncReal,
         DetentsOf, Scale;
  }

  lemma TurnScrolls(r: Router, x: Input)
    requires Steady(r)
    ensures Iterate(r, x.turn, x.event).past.scroll.units
         == if Enters(r, x) then 0.0
            else r.past.scroll.units + if Captures(r, x.turn) then Units(x.event) else 0.0
  {
    hide ForceLocal, EnterRemote, Canonical, TopOfLoop, OnCapture, DetentsOf, Inv;
    TopScrolls(r, x.turn);
    TopConnectsIff(r, x.turn);
    if x.event.Capture? {
      CaptureScrolls(TopOfLoop(r, x.turn), x.event.event);
    }
  }

  lemma {:induction false} ScrolledExactly(
      origin: (real, real), local: Display, remote: Display, bridge: Option<Link>, ins: seq<Input>)
    ensures var r0 := Start(origin, local, remote, bridge); Loop(r0, ins).past.scroll.units == Scrolled(r0, ins)
  {
    hide Iterate, Enters, Captures, Units, Steady;
    if ins != [] {
      var n := |ins| - 1;
      ScrolledExactly(origin, local, remote, bridge, ins[..n]);
      SteadyRun(origin, local, remote, bridge, ins[..n]);
      TurnScrolls(Loop(Start(origin, local, remote, bridge), ins[..n]), ins[n]);
    }
  }

  /** In every run, while a capture is active on an unbroken connection: the scroll
      events since its activation amount to what its wheel reports turn the wheel
      by, what no report could carry, what is still to be written, and a rest of
      less than a detent; wheels turn against the events. */
  lemma WheelAddsUp(
      origin: (real, real), local: Display, remote: Display, bridge: Option<Link>, ins: seq<Input>)
    ensures var r0 := Start(origin, local, remote, bridge);
      var r := Loop(r0, ins);
      r.active.Some? && r.bridge.Some? && !r.bridge.value.lost ==>
        var s := r.past.scroll;
        && s.mark <= |r.past.acts|
        && var turned, excess := Turned(r.past.acts[s.mark..]), Total(s.counts) - Carried(s.counts);
           && Scrolled(r0, ins) == r.accScroll - DETENT * (turned + excess + r.pendingWheel) as real
           && -DETENT < r.accScroll < DETENT
           && ((forall i :: 0 <= i < |s.counts| ==> -127 <= s.counts[i] <= 127) ==> excess == 0)
  {
    hide Loop, Scrolled, Turned, Carried, Total, Inside, ReleasedInside, LastTold;
    var r := Loop(Start(origin, local, remote, bridge), ins);
    LoopInv(origin, local, remote, bridge, ins);
    ScrollAddsUp(origin, local, remote, bridge, ins);
    ScrolledExactly(origin, local, remote, bridge, ins);
    ScrollExactIff(r.past.scroll.counts);
    assert r.past.scroll.counts[..|r.past.scroll.counts|] == r.past.scroll.counts;
  }

  // ----- six keys -----------------------------------------------------------------

  ghost predicate NeverOverSix(r0: Router, ins: seq<Input>) {
    forall j: nat :: j <= |ins| ==> |Hid.NonModifiers(Before(r0, ins, j).past.pressed)| <= Hid.SLOTS
  }

  ghost predicate HeldIsPressed(r: Router) {
    |Hid.NonModifiers(r.past.pressed)| <= Hid.SLOTS ==> r.past.held == r.past.pressed
  }

  lemma PressFits(s: set<u8>, u: u8, down: bool)
    requires |Hid.NonModifiers(Hid.Press(s, u, down))| <= Hid.SLOTS
    ensures Hid.PressBounded(s, u, down) == Hid.Press(s, u, down)
  {
    if down && !Hid.IsModifier(u) && u != 0 && u !in s {
      Hid.OneMore(s, u);
    }
  }

  lemma TurnHolds(r: Router, t: Turn, e: Event)
    requires PressedOnlyWhileActive(r) && r.past.held <= r.past.pressed
    ensures var r' := Iterate(r, t, e);
      r'.past.held <= r'.past.pressed && (r.past.held == r.past.pressed ==> HeldIsPressed(r'))
  {
    hide ForceLocal, OnCapture, HidMap.KeycodeToUsage, Canonical, EnterRemote, TopOfLoop;
    TopPresses(r, t);
    var r1 := TopOfLoop(r, t);
    if e.Capture? && r1.active.Some? {
      CaptureHolds(r1, e.event);
    }
  }

  lemma CaptureHolds(r: Router, c: CaptureEvent)
    requires r.past.held <= r.past.pressed
    ensures var r' := OnCapture(r, c);
      r'.past.held <= r'.past.pressed && (r.past.held == r.past.pressed ==> HeldIsPressed(r'))
  {
    hide ForceLocal, ApplyDelta, HidMap.KeycodeToUsage, ActBytes, Scale;
    hide Hid.PressBounded, Hid.Press, Hid.NonModifiers;
    if c.Key? && HidMap.KeycodeToUsage(Wrap16(c.code)).Some? {
      var u := HidMap.KeycodeToUsage(Wrap16(c.code)).value;
      PressGrows(r.past.held, r.past.pressed, u, c.pressed);
      if |Hid.NonModifiers(Hid.Press(r.past.pressed, u, c.pressed))| <= Hid.SLOTS {
        PressFits(r.past.pressed, u, c.pressed);
      }
    }
  }

  lemma PressGrows(s: set<u8>, t: set<u8>, u: u8, down: bool)
    requires s <= t
    ensures Hid.PressBounded(s, u, down) <= Hid.Press(t, u, down)
  {
  }

  /** While never more than six non-modifiers are pressed, all of them fit. */
  lemma {:induction false} AllFit(
      origin: (real, real), local: Display, remote: Display, bridge: Option<Link>, ins: seq<Input>)
    requires NeverOverSix(Start(origin, local, remote, bridge), ins)
    ensures var r := Loop(Start(origin, local, remote, bridge), ins); r.past.held == r.past.pressed
  {
    hide Iterate, Before, Hid.NonModifiers;
    var r0 := Start(origin, local, remote, bridge);
    if ins != [] {
      var n := |ins| - 1;
      forall j: nat | j <= n ensures |Hid.NonModifiers(Before(r0, ins[..n], j).past.pressed)| <= Hid.SLOTS {
        BeforePrefix(r0, ins, n, j);
      }
      AllFit(origin, local, remote, bridge, ins[..n]);
      PressedExactly(origin, local, remote, bridge, ins[..n], KeyOf(0));
      TurnHolds(Loop(r0, ins[..n]), ins[n].turn, ins[n].event);
      assert ins[..|ins|] == ins;
      BeforePrefix(r0, ins, |ins|, |ins|);
    }
  }

  lemma {:induction false} HeldWasPressed(
      origin: (real, real), local: Display, remote: Display, bridge: Option<Link>, ins: seq<Input>)
    ensures var r := Loop(Start(origin, local, remote, bridge), ins); r.past.held <= r.past.pressed
  {
    hide Iterate;
    if ins != [] {
      var n := |ins| - 1;
      HeldWasPressed(origin, local, remote, bridge, ins[..n]);
      PressedExactly(origin, local, remote, bridge, ins[..n], KeyOf(0));
      TurnHolds(Loop(Start(origin, local, remote, bridge), ins[..n]), ins[n].turn, ins[n].event);
    }
  }

  // ----- the emergency combination ---------------------------------------------------

  /** Still pressed, and pressed after the last activation. */
  ghost predicate PressedSinceActivation(r0: Router, ins: seq<Input>, i: nat, u: u8) {
    StillPressed(r0, ins, i, KeyOf(u)) && forall j :: i < j < |ins| ==> !IsActivation(ins[j].event)
  }

  lemma TurnTracks(r: Router, x: Input, u: u8)
    requires IsComboKey(u) && Iterate(r, x.turn, x.event).active.Some? && PressedOnlyWhileActive(r)
    requires || (Captures(r, x.turn) && IsPress(x.event, KeyOf(u), true))
             || (InCombo(r.combo, u) && Carries(r, x, KeyOf(u)) && !IsActivation(x.event))
    ensures InCombo(Iterate(r, x.turn, x.event).combo, u)
  {
    hide ForceLocal, OnCapture, HidMap.KeycodeToUsage, TopOfLoop, IsPress, IsComboKey, InCombo;
    TopPresses(r, x.turn);
    OnlyCaptureIsPress(x.event, KeyOf(u));
    if r.running && x.event.Capture? {
      CaptureTracks(TopOfLoop(r, x.turn), x.event.event, u);
    }
  }

  lemma CaptureTracks(r: Router, c: CaptureEvent, u: u8)
    requires IsComboKey(u) && OnCapture(r, c).active.Some?
    requires IsPress(Capture(c), KeyOf(u), true) || (InCombo(r.combo, u) && !IsPress(Capture(c), KeyOf(u), false))
    ensures InCombo(OnCapture(r, c).combo, u)
  {
    hide ForceLocal, ApplyDelta, HidMap.KeycodeToUsage, ActBytes, Scale, Hid.PressBounded, Hid.Press;
  }

  lemma {:induction false} ComboTracks(
      origin: (real, real), local: Display, remote: Display, bridge: Option<Link>, ins: seq<Input>, i: nat, u: u8)
    requires IsComboKey(u) && PressedSinceActivation(Start(origin, local, remote, bridge), ins, i, u)
    ensures InCombo(Loop(Start(origin, local, remote, bridge), ins).combo, u)
    decreases |ins|
  {
    hide Iterate, IsPress, Captures, Carries, Before, IsComboKey, InCombo;
    var r0, n := Start(origin, local, remote, bridge), |ins| - 1;
    StillPressedStep(r0, ins, i, KeyOf(u));
    assert ins[..|ins|] == ins;
    BeforePrefix(r0, ins, |ins|, |ins|);
    BeforePrefix(r0, ins, n, n);
    PressedExactly(origin, local, remote, bridge, ins[..n], KeyOf(u));
    if i < n {
      assert forall j :: 0 <= j < n ==> ins[..n][j] == ins[j];
      ComboTracks(origin, local, remote, bridge, ins[..n], i, u);
    }
    TurnTracks(Loop(r0, ins[..n]), ins[n], u);
  }

  /** In no run is a capture active with left Ctrl, left Alt and backslash all
      pressed since its last activation: the third press has returned to local. */
  lemma EmergencyAlwaysReturns(
      origin: (real, real), local: Display, remote: Display, bridge: Option<Link>,
      ins: seq<Input>, a: nat, b: nat, c: nat)
    ensures var r0 := Start(origin, local, remote, bridge);
      !(PressedSinceActivation(r0, ins, a, 0xe0) && PressedSinceActivation(r0, ins, b, 0xe2)
        && PressedSinceActivation(r0, ins, c, 0x31))
  {
    hide Loop, StillPressed, Inside;
    var r0 := Start(origin, local, remote, bridge);
    LoopInv(origin, local, remote, bridge, ins);
    if PressedSinceActivation(r0, ins, a, 0xe0) { ComboTracks(origin, local, remote, bridge, ins, a, 0xe0); }
    if PressedSinceActivation(r0, ins, b, 0xe2) { ComboTracks(origin, local, remote, bridge, ins, b, 0xe2); }
    if PressedSinceActivation(r0, ins, c, 0x31) { ComboTracks(origin, local, remote, bridge, ins, c, 0x31); }
  }
}
