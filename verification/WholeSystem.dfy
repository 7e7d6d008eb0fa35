/** The router, its connection and the bridge together: what the host at the far
    end is holding, where its pointer is and where its clicks land, over every
    run. */
module WholeSystem {
  import opened Bytes
  import opened Bits
  import opened Geometry
  import opened BridgeMessages
  import opened BridgeSession
  import opened Protocol
  import opened RouterModel
  import opened RouterSafety
  import opened RouterProgress
  import opened CaptureStream
  import BridgeServe
  import Hid

  // ----- the reports of button writes ------------------------------------------------

  lemma {:induction false} ActsAreActions(rs: seq<Hid.PtrReport>)
    ensures Acts(Actions(rs)) == Acts(rs)
  {
    if rs != [] {
      var n := |rs| - 1;
      assert rs == rs[..n] + [rs[n]];
      ActsAreActions(rs[..n]);
      ActionsAppend(rs[..n], rs[n]);
      ActsAppend(Actions(rs[..n]), rs[n]);
      ActsAppend(rs[..n], rs[n]);
      assert Actions(rs[..n]) + [] == Actions(rs[..n]);
    }
  }

  // ----- the theorems ----------------------------------------------------------------

  /** rs are the reads and time-outs of the router's connection, its bytes in some
      split, and every reply can be written. */
  ghost predicate Drained(r: Router, env: Env, rs: seq<BridgeServe.Read>) {
    && r.bridge.Some? && (forall k :: env.sendOk(k)) && BridgeServe.Undisturbed(rs)
    && Concat(BridgeServe.Chunks(rs)) == AllBytes([Hello(PROTOCOL_VERSION)] + r.bridge.value.wire)
  }

  function Host(env: Env, visits: seq<BridgeServe.Visit>, rs: seq<BridgeServe.Read>): Session {
    BridgeServe.OnEvents(env, Begin(BridgeServe.AfterVisits(Hid.POWER_ON, visits)), rs)
  }

  /** The bridge is in the session with nothing left over, has the state of the
      messages written applied one by one, and its last reports show it. */
  lemma HostIsPi(
      origin: (real, real), local: Display, remote: Display, bridge: Option<Link>, ins: seq<Input>,
      env: Env, visits: seq<BridgeServe.Visit>, rs: seq<BridgeServe.Read>)
    requires bridge.Some? ==> bridge.value.wire == []
    requires Drained(Loop(Start(origin, local, remote, bridge), ins), env, rs)
    ensures var r, v0 := Loop(Start(origin, local, remote, bridge), ins), BridgeServe.AfterVisits(Hid.POWER_ON, visits);
      var host, pi := Host(env, visits, rs), Pi(r, v0);
      && host.open && host.buf == [] && Hid.Released(v0) && Linked(r, v0)
      && host.hid == pi.(ptr := host.hid.ptr) && InSync(host.hid)
      && Acts(host.hid.ptr) == Acts(pi.ptr) && (pi.ptr != [] ==> host.hid.ptr != [])
  {
    hide Loop, Acts, OnReads, Concat, AllBytes, ApplyAll, Actions, Coalesces, BridgeServe.AfterVisits, Linked,
         BridgeServe.OnEvents;
    var r, v0 := Loop(Start(origin, local, remote, bridge), ins), BridgeServe.AfterVisits(Hid.POWER_ON, visits);
    var chunks := BridgeServe.Chunks(rs);
    CleanBefore(visits);
    BridgeServe.TimeoutsChangeNothing(env, v0, rs);
    BridgeServe.ReadsInSync(env, v0, chunks);
    BridgeFollows(origin, local, remote, bridge, ins, v0);
    ClientStreamApplied(env, v0, r.bridge.value.wire, chunks);
    var host, pi := OnReads(env, Begin(v0), chunks), Pi(r, v0);
    ActsAreActions(host.hid.ptr);
    ActsAreActions(pi.ptr);
    if pi.ptr != [] {
      CoalescesNonEmpty(pi.ptr, host.hid.ptr);
    }
  }

  /** In every run of the router, whatever clients the bridge served before, and
      however the connection's bytes are split into reads with time-outs between
      them: the bridge stays in the session with nothing left over. By the last
      reports attempted, and as long as no write of the router was lost, the host
      holds no modifier, key or button while the router is local. While it is
      remote, the host holds exactly the buttons that this capture pressed and has
      not released; every key it holds is one of those too; and if never more than
      six non-modifiers were, it holds all of these. And the session's button and
      wheel reports are, in order, those the router means, each with the state and
      the position its model had when it was written. */
  lemma NoStuckInput(
      origin: (real, real), local: Display, remote: Display, bridge: Option<Link>, ins: seq<Input>,
      env: Env, visits: seq<BridgeServe.Visit>, rs: seq<BridgeServe.Read>)
    requires bridge.Some? ==> bridge.value.wire == []
    requires Drained(Loop(Start(origin, local, remote, bridge), ins), env, rs)
    ensures var r0 := Start(origin, local, remote, bridge);
      var r, before, host := Loop(r0, ins), BridgeServe.AfterVisits(Hid.POWER_ON, visits), Host(env, visits, rs);
      && host.open && host.buf == []
      && (!r.bridge.value.lost ==>
            if r.active.None? then HostButtons(host.hid) == 0 && forall u: u8 :: !HostHolds(host.hid, u)
            else
              && HostButtons(host.hid) < 8
              && (forall b: nat :: b < 3 ==>
                    (HasBit(HostButtons(host.hid), b) <==> exists i: nat :: StillPressed(r0, ins, i, ButtonOf(b))))
              && (forall u: u8 :: HostHolds(host.hid, u) ==> exists i: nat :: StillPressed(r0, ins, i, KeyOf(u)))
              && (NeverOverSix(r0, ins) ==>
                    forall u: u8, i: nat :: StillPressed(r0, ins, i, KeyOf(u)) ==> HostHolds(host.hid, u)))
      && Acts(host.hid.ptr) == Acts(before.ptr) + r.past.acts
  {
    hide Loop, Acts, BridgeServe.AfterVisits, BridgeServe.OnEvents, StillPressed, NeverOverSix, HostHolds,
         HostButtons, Drained, ApplyAll, HasBit, InSync;
    var r0 := Start(origin, local, remote, bridge);
    var r, v0, host := Loop(r0, ins), BridgeServe.AfterVisits(Hid.POWER_ON, visits), Host(env, visits, rs);
    HostIsPi(origin, local, remote, bridge, ins, env, visits, rs);
    DrainedHasBridge(r, env, rs);
    HostSeesState(host.hid);
    var pi := Pi(r, v0);
    if !r.bridge.value.lost {
      if r.active.None? {
        Hid.ReleasedRefines(host.hid);
      } else {
        SameKeys(pi, host.hid, r.past.held);
        HeldWasPressed(origin, local, remote, bridge, ins);
        ButtonsExactly(origin, local, remote, bridge, ins);
        if NeverOverSix(r0, ins) {
          AllFit(origin, local, remote, bridge, ins);
        }
        forall u: u8 ensures u in r.past.pressed <==> exists i: nat :: StillPressed(r0, ins, i, KeyOf(u)) {
          PressedExactly(origin, local, remote, bridge, ins, KeyOf(u));
        }
      }
    }
  }

  lemma DrainedHasBridge(r: Router, env: Env, rs: seq<BridgeServe.Read>)
    requires Drained(r, env, rs)
    ensures r.bridge.Some?
  {
  }

  /** In every run, after a turn with an open window and no event, while a capture is
      active on a connection that has lost nothing: by its last report the host's
      pointer is at the model's cursor, in halved canonical coordinates; and between
      frames, while the motions have not aimed off the remote screen, that is the
      entry at the border and all motion since. */
  lemma PointerStands(
      origin: (real, real), local: Display, remote: Display, bridge: Option<Link>, ins: seq<Input>, t: Turn,
      env: Env, visits: seq<BridgeServe.Visit>, rs: seq<BridgeServe.Read>)
    requires bridge.Some? ==> bridge.value.wire == []
    requires t.windowOpen && !t.shutdown && Loop(Start(origin, local, remote, bridge), ins).running
    requires Drained(Loop(Start(origin, local, remote, bridge), ins + [Input(t, Timeout)]), env, rs)
    ensures var r0, all := Start(origin, local, remote, bridge), ins + [Input(t, Timeout)];
      var r, host := Loop(r0, all), Host(env, visits, rs);
      r.active.Some? && !r.bridge.value.lost ==>
        && HostPosition(host.hid) == Some((Canonical(r.cursor).0 / 2, Canonical(r.cursor).1 / 2))
        && (Free(r0, all) && !FrameOpen(r0, all) ==>
              var (x, y) := Aim(r0, all);
              HostPosition(host.hid) == Some((Scale(x, remote.width) / 2, Scale(y, remote.height) / 2)))
  {
    hide Loop, Acts, BridgeServe.AfterVisits, BridgeServe.OnEvents, Drained, ApplyAll, InSync, Scale, KeysAre,
         Free, FrameOpen, Aim, Configured, Steady;
    var r0, all := Start(origin, local, remote, bridge), ins + [Input(t, Timeout)];
    var r, host := Loop(r0, all), Host(env, visits, rs);
    HostIsPi(origin, local, remote, bridge, all, env, visits, rs);
    DrainedHasBridge(r, env, rs);
    HostSeesState(host.hid);
    NothingPending(origin, local, remote, bridge, ins, t);
    AimReached(origin, local, remote, bridge, all);
    FramesApplied(origin, local, remote, bridge, all);
    SteadyRun(origin, local, remote, bridge, all);
    ConfiguredIs(r, origin, local, remote);
  }

  lemma NothingPending(
      origin: (real, real), local: Display, remote: Display, bridge: Option<Link>, ins: seq<Input>, t: Turn)
    requires t.windowOpen && !t.shutdown && Loop(Start(origin, local, remote, bridge), ins).running
    ensures var r := Loop(Start(origin, local, remote, bridge), ins + [Input(t, Timeout)]);
      r.active.Some? ==> r.pendingPos.None? && r.pendingWheel == 0
  {
    hide TopOfLoop, Inv;
    var all := ins + [Input(t, Timeout)];
    assert all[..|ins|] == ins;
    LoopInv(origin, local, remote, bridge, ins);
    var r := Loop(Start(origin, local, remote, bridge), ins);
    if TopOfLoop(r, t).active.Some? {
      TopWrites(r, t);
    }
  }

  lemma CleanBefore(visits: seq<BridgeServe.Visit>)
    ensures var v := BridgeServe.AfterVisits(Hid.POWER_ON, visits); Hid.Released(v) && InSync(v)
  {
    BridgeServe.EverySessionEndsReleased(visits, BridgeServe.Visit(Env(_ => true), []));
    hide InSync;
  }
}
