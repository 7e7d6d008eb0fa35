/** What every turn of the router must do, told without its functions: what it
    writes at the top of the loop, when it drops and makes connections, and what
    ends a capture (linux/input-router/src/router.rs). */
module RouterProgress {
  import opened Bytes
  import opened Geometry
  import opened BridgeMessages
  import opened Protocol
  import opened RouterModel
  import opened RouterSafety
  import HidMap
  import Hid

  // ----- several writes ---------------------------------------------------------

  function PutAll(l: Link, ms: seq<Msg>): Link {
    if ms == [] then l else Put(PutAll(l, ms[..|ms| - 1]), ms[|ms| - 1])
  }

  lemma PutMore(l: Link, ms: seq<Msg>, m: Msg)
    ensures PutAll(l, ms + [m]) == Put(PutAll(l, ms), m)
    ensures PutAll(l, []) == l
  {
    assert (ms + [m])[..|ms|] == ms;
  }

  /** What arrives is what was written, up to the first loss. */
  lemma {:induction false} PutsArrive(l: Link, ms: seq<Msg>)
    ensures var l' := PutAll(l, ms);
      && l.wire <= l'.wire <= l.wire + ms
      && (!l'.lost ==> !l.lost && l'.wire == l.wire + ms)
      && (l'.lost <==> l.lost || |ms| > l.budget)
      && (!l'.lost ==> l'.budget == l.budget - |ms|)
  {
    if ms != [] {
      var n := |ms| - 1;
      PutsArrive(l, ms[..n]);
      assert ms == ms[..n] + [ms[n]];
      assert l.wire + ms == l.wire + ms[..n] + [ms[n]];
    } else {
      assert l.wire + ms == l.wire;
    }
  }

  // ----- the top of the loop -----------------------------------------------------

  /** The keepalive is due on a connection that does not take it, and the loss is
      noticed. */
  predicate Dropped(r: Router, t: Turn) {
    r.bridge.Some? && t.keepaliveDue && t.lossNoticed && (r.bridge.value.lost || r.bridge.value.budget == 0)
  }

  /** Nothing has come from the compositor in this activation when the failsafe is
      due. */
  predicate Unused(r: Router, t: Turn) { t.failsafeDue && !r.seen }

  /** A wheel report's byte: the number of detents, at most 127 either way, in two's
      complement. */
  function WheelByte(w: int): u8 {
    if w > 127 then 127 else if w >= 0 then w else if w >= -127 then 256 + w else 129
  }

  /** What is written while the capture goes on: a keepalive that is due, and in an
      open window the pending position and then the detents. */
  function Due(r: Router, t: Turn): seq<Msg> {
    (if t.keepaliveDue then [KeepAlive] else [])
    + (if t.windowOpen && r.pendingPos.Some? then [PointerAbs(r.pendingPos.value.0, r.pendingPos.value.1)] else [])
    + (if t.windowOpen && r.pendingWheel != 0 then [PointerWheel(WheelByte(r.pendingWheel))] else [])
  }

  lemma WheelBytes(w: int)
    ensures Detents(w) == WheelByte(w)
  {
  }

  lemma LivenessIs(r: Router, t: Turn)
    requires Inv(r)
    ensures var r1 := Liveness(r, t);
      if r.bridge.Some? && !Dropped(r, t) then
        r1 == r.(bridge := Some(PutAll(r.bridge.value, if t.keepaliveDue then [KeepAlive] else [])))
      else r1.bridge.None? && r1.active.None?
  {
    hide ForceLocal, Inside, ReleasedInside, LastTold;
    if r.bridge.Some? {
      PutMore(r.bridge.value, [], KeepAlive);
      assert [] + [KeepAlive] == [KeepAlive];
    }
  }

  /** A capture outlives the top of the loop if and only if its connection is not
      dropped and it is in use, or the failsafe not yet due. */
  lemma TopEndsIff(r: Router, t: Turn)
    requires Inv(r)
    ensures TopOfLoop(r, t).active == if r.active.Some? && !Dropped(r, t) && !Unused(r, t) then r.active else None
  {
    hide ForceLocal, Inside, ReleasedInside, LastTold, Liveness, SendPosition, SendWheel;
    LivenessIs(r, t);
    FlushKeepsAll(DropStale(Failsafe(Reconnect(Liveness(r, t), t), t)));
  }

  /** There is a connection after the top of the loop if and only if there was one
      that is not dropped, or a reconnection is due and its greeting is answered; a
      new one begins with a release. */
  lemma TopConnectsIff(r: Router, t: Turn)
    requires Inv(r)
    ensures var r1, kept := TopOfLoop(r, t), r.bridge.Some? && !Dropped(r, t);
      && (r1.bridge.Some? <==> kept || (t.reconnectDue && Accepted(t.answer)))
      && (!kept && r1.bridge.Some? ==>
            r1.bridge.value.wire == (if t.newBudget > 0 then [ReleaseKeys] else [])
            && (r1.bridge.value.lost <==> t.newBudget == 0))
  {
    hide ForceLocal, Inside, ReleasedInside, LastTold, Liveness, SendPosition, SendWheel, Accepted;
    LivenessIs(r, t);
    FlushKeepsAll(DropStale(Failsafe(Reconnect(Liveness(r, t), t), t)));
  }

  /** What a flush leaves alone. */
  lemma FlushKeepsAll(r: Router)
    ensures var r1 := SendWheel(SendPosition(r));
      && r1 == r.(bridge := r1.bridge, pendingPos := None, pendingWheel := 0, past := r1.past)
      && r1.past == r.past.(acts := r1.past.acts, scroll := r1.past.scroll)
      && r1.past.scroll == r.past.scroll.(counts := r1.past.scroll.counts)
      && (r.bridge.Some? <==> r1.bridge.Some?)
      && (r.pendingPos.None? && r.pendingWheel == 0 ==> r1 == r)
  {
    hide Detents, ActBytes, Canonical;
  }

  lemma FlushWrites(r: Router, l: Link, before: seq<Msg>)
    requires r.bridge == Some(PutAll(l, before))
    ensures var r1 := SendWheel(SendPosition(r));
      r1.bridge == Some(PutAll(l, before
        + (if r.pendingPos.Some? then [PointerAbs(r.pendingPos.value.0, r.pendingPos.value.1)] else [])
        + (if r.pendingWheel != 0 then [PointerWheel(WheelByte(r.pendingWheel))] else [])))
  {
    hide Detents, ActBytes, Canonical, WheelByte, PutAll;
    WheelBytes(r.pendingWheel);
    var pos := if r.pendingPos.Some? then [PointerAbs(r.pendingPos.value.0, r.pendingPos.value.1)] else [];
    var w := PointerWheel(WheelByte(r.pendingWheel));
    if r.pendingPos.Some? {
      PutMore(l, before, pos[0]);
    }
    PutMore(l, before + pos, w);
    assert before + [] == before && before + pos + [] == before + pos;
  }

  /** While the capture goes on, the top of the loop writes exactly what is due, in
      this order, and touches nothing else; in an open window nothing stays
      pending. */
  lemma TopWrites(r: Router, t: Turn)
    requires Inv(r) && TopOfLoop(r, t).active.Some?
    ensures r.bridge.Some?
    ensures var r1 := TopOfLoop(r, t);
      && r1.bridge == Some(PutAll(r.bridge.value, Due(r, t)))
      && r1 == r.(bridge := r1.bridge, past := r1.past,
                  pendingPos := if t.windowOpen then None else r.pendingPos,
                  pendingWheel := if t.windowOpen then 0 else r.pendingWheel)
      && r1.past == r.past.(acts := r1.past.acts, scroll := r1.past.scroll)
      && r1.past.scroll == r.past.scroll.(counts := r1.past.scroll.counts)
  {
    hide ForceLocal, Inside, ReleasedInside, LastTold, Liveness, SendPosition, SendWheel, PutAll, WheelByte;
    TopEndsIff(r, t);
    LivenessIs(r, t);
    var r2 := Failsafe(Reconnect(Liveness(r, t), t), t);
    var keep: seq<Msg> := if t.keepaliveDue then [KeepAlive] else [];
    assert r2 == r.(bridge := Some(PutAll(r.bridge.value, keep)));
    FlushKeepsAll(r2);
    FlushWrites(r2, r.bridge.value, keep);
    assert keep + [] == keep;
  }

  /** When the top of the loop ends a capture and keeps its connection, a keepalive
      that is due is followed by a release. */
  lemma TopReleases(r: Router, t: Turn)
    requires Inv(r) && r.active.Some? && !Dropped(r, t) && Unused(r, t)
    ensures TopOfLoop(r, t).bridge
         == Some(PutAll(r.bridge.value, (if t.keepaliveDue then [KeepAlive] else []) + [ReleaseKeys]))
  {
    hide ForceLocal, Inside, ReleasedInside, LastTold, Liveness, SendPosition, SendWheel, PutAll;
    LivenessIs(r, t);
    var keep: seq<Msg> := if t.keepaliveDue then [KeepAlive] else [];
    PutMore(r.bridge.value, keep, ReleaseKeys);
    FlushKeepsAll(DropStale(Failsafe(Reconnect(Liveness(r, t), t), t)));
  }

  // ----- what ends a capture, and the loop -----------------------------------------

  /** One of the three keys is down in a capture. */
  predicate InCombo(c: Combo, u: u8) {
    (u == 0xe0 && c.ctrl) || (u == 0xe2 && c.alt) || (u == 0x31 && c.backslash)
  }

  /** A key event after which left Ctrl, left Alt and backslash are all down. */
  predicate CompletesCombo(c: Combo, code: u32, pressed: bool) {
    var usage := HidMap.KeycodeToUsage(Wrap16(code));
    && usage.Some?
    && (IsComboKey(usage.value) ==> pressed)
    && forall u: u8 :: IsComboKey(u) && u != usage.value ==> InCombo(c, u)
  }

  predicate IsComboKey(u: u8) { u == 0xe0 || u == 0xe2 || u == 0x31 }

  /** Events that end a capture: the compositor ends it or goes away, the session is
      locked, the emergency combination, and a frame whose motion aims beyond the
      left border of the remote screen. */
  predicate Interrupts(r: Router, e: Event) {
    match e
    case Portal(p) => !p.Activated?
    case Locked => true
    case Capture(Disconnected) => true
    case Capture(Key(code, pressed)) => CompletesCombo(r.combo, code, pressed)
    case Capture(FrameEnd) => r.cursor.x + r.accX < 0.0
    case _ => false
  }

  /** Events that end the loop. */
  predicate Stops(r: Router, e: Event) {
    match e
    case ChannelClosed => true
    case Portal(Disabled(reenabled)) => !reenabled
    case Portal(ZonesChanged) => true
    case Unlocked(rearmed) => !rearmed
    case Capture(Disconnected) => r.active.Some?
    case _ => false
  }

  lemma ComboFullIff(c: Combo, code: u32, pressed: bool)
    requires !Full(c)
    ensures var usage := HidMap.KeycodeToUsage(Wrap16(code));
      usage.Some? && Full(Track(c, usage.value, pressed)) <==> CompletesCombo(c, code, pressed)
  {
    hide HidMap.KeycodeToUsage;
    var usage := HidMap.KeycodeToUsage(Wrap16(code));
    if CompletesCombo(c, code, pressed) {
      var u: u8, a: u8, b: u8 := 0xe0, 0xe2, 0x31;
      assert IsComboKey(u) && IsComboKey(a) && IsComboKey(b);
    }
  }

  /** The screens are as they were configured, the remote one to the right. */
  predicate Configured(r: Router, origin: (real, real), local: Display, remote: Display) {
    r.origin == origin && r.cursor.local == local && r.cursor.remote == remote && r.cursor.edge.RightEdge?
  }

  lemma CaptureEndsIff(r: Router, c: CaptureEvent)
    requires Inv(r) && r.active.Some? && r.cursor.edge.RightEdge?
    ensures OnCapture(r, c).active == if Interrupts(r, Capture(c)) then None else r.active
    ensures OnCapture(r, c).running == (r.running && !Stops(r, Capture(c)))
  {
    hide HidMap.KeycodeToUsage, ActBytes, Canonical, MapY, TruncReal, DetentsOf, CompletesCombo, Hid.Press,
         Hid.PressBounded, ReleasedInside, LastTold, Track, Full;
    match c
    case Key(code, pressed) => ComboFullIff(r.combo, code, pressed);
    case Button(code, pressed) => ButtonKeepsCapture(r.(seen := true), code, pressed);
    case _ =>
  }

  lemma ButtonKeepsCapture(r: Router, code: u32, pressed: bool)
    ensures var r' := OnButton(r, code, pressed);
      && r' == r.(bridge := r'.bridge, buttons := r'.buttons, pendingPos := r'.pendingPos, past := r'.past)
      && r'.past == r.past.(acts := r'.past.acts)
  {
    hide ActBytes, Canonical, SendPosition;
    PositionKeepsAll(r);
  }

  lemma PositionKeepsAll(r: Router)
    ensures forall b: u8 {:trigger SendPosition(r.(buttons := b))} ::
              SendPosition(r.(buttons := b)) == SendPosition(r).(buttons := b)
    ensures var r' := SendPosition(r); r' == r.(bridge := r'.bridge, pendingPos := r'.pendingPos)
    ensures r.bridge.Some? <==> SendPosition(r).bridge.Some?
  {
  }

  /** An event starts a capture if and only if it is an activation and there is a
      connection, and ends the one that is active if and only if it interrupts it. */
  lemma EventEndsIff(r: Router, e: Event)
    requires Inv(r) && r.cursor.edge.RightEdge?
    ensures OnEvent(r, e).active
         == if e.Portal? && e.portal.Activated? then (if r.bridge.Some? then Some(e.portal.id) else None)
            else if r.active.Some? && !Interrupts(r, e) then r.active else None
    ensures OnEvent(r, e).running == (if e.Portal? && e.portal.Disabled? then e.portal.reenabled
                                      else if e.Unlocked? then e.rearmed
                                      else r.running && !Stops(r, e))
  {
    hide OnCapture, ForceLocal, EnterRemote, Canonical, ReleasedInside, LastTold, Inside;
    match e
    case Capture(c) => if r.active.Some? { CaptureEndsIff(r, c); }
    case _ =>
  }
}
