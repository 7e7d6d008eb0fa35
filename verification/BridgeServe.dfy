/** The bridge's session and accept loops, and what every run of them leaves on
    the two HID devices (pi/bridge/src/main.rs). */
module BridgeServe {
  import opened Bytes
  import opened Hid
  import opened BridgeMessages
  import opened BridgeSession

  /** What one turn of the session loop meets. */
  datatype Read =
    | Data(chunk: seq<u8>)  // a read returned bytes
    | Idle                  // it timed out
    | Eof
    | Failed
    | Silent                // heartbeat deadline passed
    | Shutdown

  function OnEvent(env: Env, s: Session, r: Read): Session {
    if !s.open then s
    else
      match r
      case Data(chunk) => OnRead(env, s, chunk)
      case Idle => s
      case _ => Close(s)
  }

  function OnEvents(env: Env, s: Session, rs: seq<Read>): Session {
    if rs == [] then s else OnEvent(env, OnEvents(env, s, rs[..|rs| - 1]), rs[|rs| - 1])
  }

  /** A client as the bridge meets it. */
  datatype Visit = Visit(env: Env, events: seq<Read>)

  /** The device after some visits, each followed by a release. */
  function AfterVisits(v: View, visits: seq<Visit>): View {
    if visits == [] then v
    else
      var last := visits[|visits| - 1];
      ReleaseAll(OnEvents(last.env, Begin(AfterVisits(v, visits[..|visits| - 1])), last.events).hid)
  }

  // ----- the loops -----------------------------------------------------------

  /** The variables of one session. */
  class Client {
    const hid: HidDevice
    const env: Env
    var buf: seq<u8>
    var greeted: bool
    var pending: Option<(u16, u16)>
    var open: bool
    var replies: seq<Reply>

    ghost predicate Valid() {
      hid.Valid()
    }

    ghost function S(): Session
      reads this, hid, hid.keys
    {
      Session(buf, greeted, pending, hid.V(), replies, open)
    }

    constructor (hid: HidDevice, env: Env)
      requires hid.Valid()
      ensures Valid() && this.hid == hid && this.env == env
      ensures S() == Begin(hid.V())
    {
      this.hid, this.env := hid, env;
      buf, greeted, pending, open, replies := [], false, None, true, [];
    }

    method Leave()
      modifies this
      ensures S() == Close(old(S()))
    {
      open, buf := false, [];
    }

    method SendReply(r: Reply)
      modifies this
      ensures S() == Send(env, old(S()), r)
    {
      var ok := env.sendOk(|replies|);
      replies := replies + [r];
      if !ok {
        Leave();
      }
    }

    method FlushPosition()
      requires Valid()
      modifies this, hid
      ensures S() == FlushPending(old(S()))
    {
      if pending.Some? {
        hid.MoveTo(pending.value.0, pending.value.1);
        pending := None;
      }
    }

    method Hail(m: Msg)
      requires Valid()
      modifies this
      ensures S() == Greet(env, old(S()), m)
    {
      if !m.Hello? || m.version != PROTOCOL_VERSION {
        Leave();
        return;
      }
      SendReply(HelloAck(PROTOCOL_VERSION));
      greeted := open;
    }

    /** What a greeted client's message does to the device. */
    method Act(m: Msg)
      requires Valid() && !m.PointerAbs? && !m.GetStatus?
      modifies this, hid, hid.keys
      ensures S() == old(S()).(hid := Apply(old(S()).hid, m))
    {
      match m
      case KeyDown(u) => hid.Key(u, true);
      case KeyUp(u) => hid.Key(u, false);
      case KeyState(mods, slots) => hid.SetState(mods, slots);
      case PointerButton(b) =>
        hid.buttons := b % 8;
        hid.FlushPointer(Click, 0);
      case PointerWheel(d) => hid.FlushPointer(Wheel, d);
      case ReleaseKeys => hid.Release();
      case _ =>
    }

    method Handle(m: Msg)
      requires Valid()
      modifies this, hid, hid.keys
      ensures S() == Dispatch(env, old(S()), m, false)
    {
      hide Apply, HeldKeyCount;
      if !greeted {
        Hail(m);
        return;
      }
      if NeedsFlush(m) {
        FlushPosition();
      }
      if m.PointerAbs? {
        pending := Some((m.x, m.y));
      } else if m.GetStatus? {
        SendReply(Status(hid.modifiers, HeldKeyCount(hid.keys[..]), hid.buttons));
      } else {
        Act(m);
      }
    }

    /** Parses complete frames from the accumulator. */
    method ParseFrames()
      requires Valid()
      modifies this, hid, hid.keys
      ensures S() == Pump(env, old(S()), false)
    {
      hide Dispatch, FrontOf;
      while open
        invariant Pump(env, S(), false) == Pump(env, old(S()), false)
        decreases open, |buf|
      {
        var f := FrontOf(buf);
        if f.Incomplete? {
          return;
        }
        if f.Malformed? {
          Leave();
          return;
        }
        ghost var s0 := S().(buf := buf[f.size..]);
        buf := buf[f.size..];
        DispatchBuffer(env, s0, f.msg, false);
        Handle(f.msg);
      }
    }

    /** One client until it disconnects, errs, times out or sends nonsense. */
    method Run(events: seq<Read>)
      requires Valid()
      modifies this, hid, hid.keys
      ensures S() == OnEvents(env, old(S()), events)
    {
      hide Pump;
      for i := 0 to |events|
        invariant S() == OnEvents(env, old(S()), events[..i])
      {
        assert events[..i + 1][..i] == events[..i];
        if open {
          match events[i]
          case Data(chunk) =>
            buf := buf + chunk;
            ParseFrames();
            if open {
              FlushPosition();
            }
          case Idle =>
          case _ => Leave();
        }
      }
      assert events[..|events|] == events;
    }
  }

  /** Clients one after the other; no session ends with held state. */
  method Serve(hid: HidDevice, visits: seq<Visit>)
    requires hid.Valid()
    modifies hid, hid.keys
    ensures hid.V() == ReleaseAll(AfterVisits(old(hid.V()), visits))
  {
    hide OnEvents, ReleaseAll;
    for i := 0 to |visits|
      invariant hid.V() == AfterVisits(old(hid.V()), visits[..i])
    {
      assert visits[..i + 1][..i] == visits[..i];
      var client := new Client(hid, visits[i].env);
      client.Run(visits[i].events);
      hid.Release();
    }
    assert visits[..|visits|] == visits;
    hid.Release();
  }

  // ----- what ends a session -------------------------------------------------------

  /** Only reads that returned bytes or timed out. */
  predicate Undisturbed(rs: seq<Read>) {
    forall i :: 0 <= i < |rs| ==> rs[i].Data? || rs[i].Idle?
  }

  /** What is read before the peer closes, the connection fails, the heartbeat
      deadline passes, or the bridge is shut down. */
  function Heard(rs: seq<Read>): seq<seq<u8>> {
    if rs == [] then []
    else
      var last := rs[|rs| - 1];
      Heard(rs[..|rs| - 1]) + if Undisturbed(rs) && last.Data? then [last.chunk] else []
  }

  /** A session is what it hears: reads that time out change nothing, and nothing
      does after it is closed. It is open exactly while nothing has ended it and
      what it heard leaves it open. */
  lemma {:induction false} SessionIsItsReads(env: Env, v: View, rs: seq<Read>)
    ensures var s, heard := OnEvents(env, Begin(v), rs), OnReads(env, Begin(v), Heard(rs));
      && s == (if Undisturbed(rs) then heard else Close(heard))
      && (s.open <==> Undisturbed(rs) && heard.open)
  {
    hide OnRead;
    if rs != [] {
      var n := |rs| - 1;
      SessionIsItsReads(env, v, rs[..n]);
      ReadsClose(env, v, Heard(rs[..n]));
      var before, last := Heard(rs[..n]), rs[n];
      assert before + [] == before;
      assert rs == rs[..n] + [last];
      if Undisturbed(rs) && last.Data? {
        assert (before + [last.chunk])[..|before|] == before;
        ClosedHears(env, OnReads(env, Begin(v), before), last.chunk);
      }
    }
  }

  lemma ClosedHears(env: Env, s: Session, chunk: seq<u8>)
    ensures !s.open ==> OnRead(env, s, chunk) == s
  {
  }

  /** While nothing ends it, a session is the same with and without time-outs. */
  lemma {:induction false} TimeoutsChangeNothing(env: Env, v: View, rs: seq<Read>)
    requires Undisturbed(rs)
    ensures OnEvents(env, Begin(v), rs) == OnReads(env, Begin(v), Chunks(rs))
  {
    SessionIsItsReads(env, v, rs);
    HeardIs(rs);
  }

  function Chunks(rs: seq<Read>): seq<seq<u8>> {
    if rs == [] then []
    else Chunks(rs[..|rs| - 1]) + if rs[|rs| - 1].Data? then [rs[|rs| - 1].chunk] else []
  }

  lemma {:induction false} HeardIs(rs: seq<Read>)
    requires Undisturbed(rs)
    ensures Heard(rs) == Chunks(rs)
  {
    if rs != [] {
      HeardIs(rs[..|rs| - 1]);
    }
  }

  // ----- safety over every run ---------------------------------------------------

  ghost predicate LastKbdIsZero(v: View) {
    v.kbd != [] && v.kbd[|v.kbd| - 1] == [0, 0, 0, 0, 0, 0, 0, 0]
  }

  ghost predicate LastPtrHasNoButtons(v: View) {
    v.ptr != [] && |v.ptr[|v.ptr| - 1].bytes| > 0 && v.ptr[|v.ptr| - 1].bytes[0] == 0
  }

  lemma {:induction false} PumpInSync(env: Env, s: Session)
    requires InSync(s.hid)
    ensures InSync(Pump(env, s, false).hid)
    decreases |s.buf|
  {
    hide FrontOf, Apply;
    if s.open && FrontOf(s.buf).Whole? {
      var f := FrontOf(s.buf);
      var s0 := s.(buf := s.buf[f.size..]);
      DispatchBuffer(env, s0, f.msg, false);
      DispatchInSync(env, s0, f.msg);
      PumpInSync(env, Dispatch(env, s0, f.msg, false));
    }
  }

  lemma PendingInSync(s: Session)
    requires InSync(s.hid)
    ensures InSync(FlushPending(s).hid)
  {
    hide PtrBytes;
    if s.pending.Some? {
      FlushShows(s.hid.(x := s.pending.value.0, y := s.pending.value.1), Motion, 0);
    }
  }

  lemma DispatchInSync(env: Env, s: Session, m: Msg)
    requires InSync(s.hid)
    ensures InSync(Dispatch(env, s, m, false).hid)
  {
    hide Apply, HeldKeyCount, PtrBytes;
    if s.greeted {
      PendingInSync(s);
      ApplyInSync(FlushPending(s).hid, m);
      ApplyInSync(s.hid, m);
    }
  }

  lemma {:induction false} PartlyInSync(env: Env, s: Session, n: nat)
    requires InSync(s.hid)
    ensures InSync(Partly(env, s, n).hid)
    decreases n
  {
    hide FrontOf, Dispatch;
    if n > 0 && s.open && FrontOf(s.buf).Whole? {
      var f := FrontOf(s.buf);
      var s0 := s.(buf := s.buf[f.size..]);
      DispatchInSync(env, s0, f.msg);
      PartlyInSync(env, Dispatch(env, s0, f.msg, false), n - 1);
    }
  }

  /** After every event of every session, and within a read after each of its
      messages, the last reports attempted show the modifiers, slots, buttons and
      position as they are. */
  lemma {:induction false} SessionInSync(env: Env, v: View, rs: seq<Read>, chunk: seq<u8>, n: nat)
    requires InSync(v)
    ensures var s := OnEvents(env, Begin(v), rs);
      InSync(s.hid) && InSync(Partly(env, s.(buf := s.buf + chunk), n).hid)
  {
    hide Pump, PtrBytes, Partly;
    if rs != [] {
      var m := |rs| - 1;
      SessionInSync(env, v, rs[..m], chunk, n);
      var s := OnEvents(env, Begin(v), rs[..m]);
      if s.open && rs[m].Data? {
        var fed := s.(buf := s.buf + rs[m].chunk);
        PumpInSync(env, fed);
        PendingInSync(Pump(env, fed, false));
      }
    }
    var s := OnEvents(env, Begin(v), rs);
    PartlyInSync(env, s.(buf := s.buf + chunk), n);
  }

  lemma {:induction false} ReadsInSync(env: Env, v: View, chunks: seq<seq<u8>>)
    requires InSync(v)
    ensures InSync(OnReads(env, Begin(v), chunks).hid)
  {
    hide Pump, PtrBytes;
    if chunks != [] {
      var n := |chunks| - 1;
      ReadsInSync(env, v, chunks[..n]);
      var s := OnReads(env, Begin(v), chunks[..n]);
      var fed := s.(buf := s.buf + chunks[n]);
      PumpInSync(env, fed);
      PendingInSync(Pump(env, fed, false));
    }
  }

  lemma ReleaseIsSafe(v: View)
    ensures var r := ReleaseAll(v);
      Released(r) && InSync(r) && LastKbdIsZero(r) && LastPtrHasNoButtons(r)
  {
    hide Le16;
  }

  /** Whoever connected and whatever they did, once a session has ended and
      before the next begins nothing is held, the last keyboard report is all
      zero and the last pointer report has no buttons; during the next session
      the last reports keep showing the current state; and after
      shutdown nothing is held either. */
  lemma EverySessionEndsReleased(visits: seq<Visit>, next: Visit)
    ensures visits != [] ==>
              var v := AfterVisits(POWER_ON, visits);
              Released(v) && LastKbdIsZero(v) && LastPtrHasNoButtons(v)
    ensures InSync(OnEvents(next.env, Begin(AfterVisits(POWER_ON, visits)), next.events).hid)
    ensures var v := ReleaseAll(AfterVisits(POWER_ON, visits));
              Released(v) && LastKbdIsZero(v) && LastPtrHasNoButtons(v)
  {
    hide OnEvents, ReleaseAll;
    var v := AfterVisits(POWER_ON, visits);
    ReleaseIsSafe(v);
    if visits != [] {
      var last := visits[|visits| - 1];
      ReleaseIsSafe(OnEvents(last.env, Begin(AfterVisits(POWER_ON, visits[..|visits| - 1])), last.events).hid);
    }
    SessionInSync(next.env, v, next.events, [], 0);
  }
}
