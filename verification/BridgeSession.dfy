/** One client session of the bridge: the incremental parser, the dispatcher and
    the coalescing of absolute positions (pi/bridge/src/main.rs). */
module BridgeSession {
  import opened Bytes
  import opened Bits
  import opened Hid
  import opened BridgeMessages

  /** HELLO_ACK, or STATUS without its last byte (the outcome of the last write). */
  datatype Reply = HelloAck(version: u16) | Status(modifiers: u8, held: nat, buttons: u8)

  /** sendOk says whether the k-th reply of the session can be written. */
  datatype Env = Env(sendOk: nat -> bool)

  datatype Session = Session(
    buf: seq<u8>, greeted: bool, pending: Option<(u16, u16)>, hid: View,
    replies: seq<Reply>, open: bool)

  function Begin(v: View): Session {
    Session([], false, None, v, [], true)
  }

  function Close(s: Session): Session {
    s.(open := false, buf := [])
  }

  function Send(env: Env, s: Session, r: Reply): Session {
    var s1 := s.(replies := s.replies + [r]);
    if env.sendOk(|s.replies|) then s1 else Close(s1)
  }

  function FlushPending(s: Session): Session {
    if s.pending.None? then s
    else s.(pending := None,
            hid := FlushPtr(s.hid.(x := s.pending.value.0, y := s.pending.value.1), Motion, 0))
  }

  function StatusOf(v: View): Reply {
    Status(v.modifiers, HeldKeyCount(v.keys), v.buttons)
  }

  function Greet(env: Env, s: Session, m: Msg): Session {
    if !m.Hello? || m.version != PROTOCOL_VERSION then Close(s)
    else
      var s1 := Send(env, s, HelloAck(PROTOCOL_VERSION));
      s1.(greeted := s1.open)
  }

  predicate NeedsFlush(m: Msg) {
    m.PointerButton? || m.PointerWheel? || m.ReleaseKeys?
  }

  /** One message. An eager session reports every position at once; the real
      one keeps it pending until something must see it. */
  function Dispatch(env: Env, s: Session, m: Msg, eager: bool): Session {
    if !s.greeted then Greet(env, s, m)
    else
      var s1 := if NeedsFlush(m) then FlushPending(s) else s;
      if m.PointerAbs? && !eager then s1.(pending := Some((m.x, m.y)))
      else if m.GetStatus? then
        Send(env, s1, StatusOf(s1.hid))
      else s1.(hid := Apply(s1.hid, m))
  }

  lemma DispatchBuffer(env: Env, s: Session, m: Msg, eager: bool)
    ensures Dispatch(env, s, m, eager).buf == s.buf || Dispatch(env, s, m, eager).buf == []
    ensures |Dispatch(env, s, m, eager).buf| <= |s.buf|
  {
  }

  /** Every whole frame in the buffer, in order. */
  function Pump(env: Env, s: Session, eager: bool): Session
    decreases |s.buf|
  {
    if !s.open then s
    else
      var f := FrontOf(s.buf);
      match f
      case Incomplete => s
      case Malformed => Close(s)
      case Whole(m, size) =>
        var s0 := s.(buf := s.buf[size..]);
        DispatchBuffer(env, s0, m, eager);
        Pump(env, Dispatch(env, s0, m, eager), eager)
  }

  /** One read: parse, then report the newest pending position. */
  function OnRead(env: Env, s: Session, chunk: seq<u8>): Session {
    if !s.open then s
    else
      var s1 := Pump(env, s.(buf := s.buf + chunk), false);
      if s1.open then FlushPending(s1) else s1
  }

  function OnReads(env: Env, s: Session, chunks: seq<seq<u8>>): Session {
    if chunks == [] then s
    else OnRead(env, OnReads(env, s, chunks[..|chunks| - 1]), chunks[|chunks| - 1])
  }

  function Concat(chunks: seq<seq<u8>>): seq<u8> {
    if chunks == [] then [] else Concat(chunks[..|chunks| - 1]) + chunks[|chunks| - 1]
  }

  /** The reference: one report per message, all bytes at once. */
  function Immediate(env: Env, s: Session, bytes: seq<u8>): Session {
    if !s.open then s else Pump(env, s.(buf := s.buf + bytes), true)
  }

  // ----- the reference does not see how bytes are split ------------------------

  lemma {:induction false} PumpSplits(env: Env, s: Session, more: seq<u8>)
    requires s.open
    ensures Pump(env, s.(buf := s.buf + more), true) == Immediate(env, Pump(env, s, true), more)
    decreases |s.buf|
  {
    hide Dispatch, FrontOf;
    FrontStable(s.buf, more);
    var f := FrontOf(s.buf);
    if f.Whole? {
      var rest := s.buf[f.size..];
      assert (s.buf + more)[f.size..] == rest + more;
      var s0 := s.(buf := rest);
      DispatchBuffer(env, s0, f.msg, true);
      DispatchExtends(env, s0, f.msg, more);
      var s1 := Dispatch(env, s0, f.msg, true);
      if s1.open {
        PumpSplits(env, s1, more);
      }
    }
  }

  lemma DispatchExtends(env: Env, s: Session, m: Msg, more: seq<u8>)
    requires s.open
    ensures var s1, s2 := Dispatch(env, s, m, true), Dispatch(env, s.(buf := s.buf + more), m, true);
      s2 == if s1.open then s1.(buf := s1.buf + more) else s1
    ensures Dispatch(env, s, m, true).open ==> Dispatch(env, s, m, true).buf == s.buf
  {
    hide Apply, HeldKeyCount;
  }

  // ----- deleting superseded positions -----------------------------------------

  /** act is ref without some Motion reports, each directly followed in ref by
      another Motion report. */
  ghost predicate Coalesces(ref: seq<PtrReport>, act: seq<PtrReport>) {
    if ref == [] then act == []
    else
      || (act != [] && act[0] == ref[0] && Coalesces(ref[1..], act[1..]))
      || (|ref| >= 2 && ref[0].cause.Motion? && ref[1].cause.Motion? && Coalesces(ref[1..], act))
  }

  function Actions(rs: seq<PtrReport>): seq<PtrReport> {
    if rs == [] then []
    else (if rs[0].cause.Motion? then [] else [rs[0]]) + Actions(rs[1..])
  }

  lemma {:induction false} CoalescesAppend(ref: seq<PtrReport>, act: seq<PtrReport>, p: PtrReport)
    requires Coalesces(ref, act)
    ensures Coalesces(ref + [p], act + [p])
  {
    if ref != [] {
      assert (ref + [p])[1..] == ref[1..] + [p];
      if act != [] && act[0] == ref[0] && Coalesces(ref[1..], act[1..]) {
        CoalescesAppend(ref[1..], act[1..], p);
        assert (act + [p])[1..] == act[1..] + [p];
      } else {
        CoalescesAppend(ref[1..], act, p);
      }
    }
  }

  /** A newer position may replace the last one. */
  lemma {:induction false} CoalescesReplace(ref: seq<PtrReport>, act: seq<PtrReport>, q: PtrReport, p: PtrReport)
    requires Coalesces(ref, act + [q]) && q.cause.Motion? && p.cause.Motion?
    ensures Coalesces(ref + [p], act + [p])
  {
    var full := act + [q];
    assert (ref + [p])[1..] == ref[1..] + [p];
    if full[0] == ref[0] && Coalesces(ref[1..], full[1..]) {
      if act == [] {
        assert ref[1..] == [] by {
          if ref[1..] != [] { CoalescesNonEmpty(ref[1..], full[1..]); }
        }
        assert ref == [q] && (ref + [p])[1..] == [p];
        assert [p][1..] == [];
      } else {
        assert full[1..] == act[1..] + [q];
        CoalescesReplace(ref[1..], act[1..], q, p);
        assert (act + [p])[1..] == act[1..] + [p];
      }
    } else {
      CoalescesReplace(ref[1..], act, q, p);
    }
  }

  lemma {:induction false} CoalescesNonEmpty(ref: seq<PtrReport>, act: seq<PtrReport>)
    requires Coalesces(ref, act) && ref != []
    ensures act != []
  {
    if |ref| >= 2 && Coalesces(ref[1..], act) {
      CoalescesNonEmpty(ref[1..], act);
    }
  }

  /** Coalescing touches no button, wheel or release report. */
  lemma {:induction false} CoalescesKeepsActions(ref: seq<PtrReport>, act: seq<PtrReport>)
    requires Coalesces(ref, act)
    ensures Actions(ref) == Actions(act)
  {
    if ref != [] {
      if act != [] && act[0] == ref[0] && Coalesces(ref[1..], act[1..]) {
        CoalescesKeepsActions(ref[1..], act[1..]);
      } else {
        CoalescesKeepsActions(ref[1..], act);
      }
    }
  }

  lemma ActionsFirst(p: PtrReport, rs: seq<PtrReport>)
    ensures Actions([p] + rs) == (if p.cause.Motion? then [] else [p]) + Actions(rs)
  {
    assert ([p] + rs)[1..] == rs;
  }

  lemma {:induction false} ActionsAppend(rs: seq<PtrReport>, p: PtrReport)
    ensures Actions(rs + [p]) == Actions(rs) + if p.cause.Motion? then [] else [p]
  {
    hide Actions;
    var last := if p.cause.Motion? then [] else [p];
    if rs == [] {
      NoActions();
      ActionsFirst(p, []);
      assert [p] + [] == rs + [p] && last + [] == [] + last;
    } else {
      var h, t := rs[0], rs[1..];
      var first := if h.cause.Motion? then [] else [h];
      ActionsAppend(t, p);
      ActionsFirst(h, t);
      ActionsFirst(h, t + [p]);
      assert rs == [h] + t && rs + [p] == [h] + (t + [p]);
      assert first + (Actions(t) + last) == first + Actions(t) + last;
    }
  }

  lemma NoActions()
    ensures Actions([]) == []
  {
  }

  // ----- the real session follows the reference -----------------------------------

  /** The report the pending position will become. */
  function PendingReports(s: Session): seq<PtrReport> {
    if s.pending.None? then []
    else [PtrReport(Motion, PtrBytes(s.hid.(x := s.pending.value.0, y := s.pending.value.1), 0))]
  }

  /** The HID state once the pending position is taken into account, with
      another pointer log. */
  function Settled(s: Session, ptr: seq<PtrReport>): View {
    if s.pending.None? then s.hid.(ptr := ptr)
    else s.hid.(x := s.pending.value.0, y := s.pending.value.1, ptr := ptr)
  }

  /** s is a real session, r the reference after the same bytes. */
  ghost predicate Follows(s: Session, r: Session) {
    && r == Session(s.buf, s.greeted, None, Settled(s, r.hid.ptr), s.replies, s.open)
    && Coalesces(r.hid.ptr, s.hid.ptr + PendingReports(s))
  }

  lemma FlushFollows(s: Session, r: Session)
    requires Follows(s, r)
    ensures Follows(FlushPending(s), r)
  {
    assert s.hid.ptr + PendingReports(s) + [] == s.hid.ptr + PendingReports(s);
    assert FlushPending(s).hid.ptr == s.hid.ptr + PendingReports(s);
    assert s.hid.ptr + [] == s.hid.ptr;
  }

  lemma DispatchFollows(env: Env, s: Session, r: Session, m: Msg)
    requires Follows(s, r) && s.open
    ensures Follows(Dispatch(env, s, m, false), Dispatch(env, r, m, true))
  {
    hide PtrBytes, KeyEvent, HeldKeyCount, Coalesces;
    if s.greeted {
      if NeedsFlush(m) {
        FlushFollows(s, r);
        ActionFollows(FlushPending(s), r, m);
      } else if m.PointerAbs? {
        PositionFollows(s, r, m);
      } else {
        KeyboardFollows(s, r, m);
      }
    }
  }

  lemma KeyboardFollows(s: Session, r: Session, m: Msg)
    requires Follows(s, r) && !NeedsFlush(m) && !m.PointerAbs?
    ensures Follows(s.(hid := Apply(s.hid, m)), r.(hid := Apply(r.hid, m)))
  {
    hide Coalesces, PtrBytes;
    assert Apply(s.hid, m).ptr == s.hid.ptr && Apply(s.hid, m).buttons == s.hid.buttons;
    assert PendingReports(s.(hid := Apply(s.hid, m))) == PendingReports(s) by {
      SamePtrBytes(s.hid, Apply(s.hid, m));
    }
  }

  lemma SamePtrBytes(v: View, w: View)
    requires v.buttons == w.buttons
    ensures forall x: u16, y: u16 {:trigger w.(x := x, y := y)} ::
              PtrBytes(v.(x := x, y := y), 0) == PtrBytes(w.(x := x, y := y), 0)
  {
    hide Le16;
  }

  lemma ActionFollows(s: Session, r: Session, m: Msg)
    requires Follows(s, r) && s.pending.None? && NeedsFlush(m)
    ensures Follows(s.(hid := Apply(s.hid, m)), r.(hid := Apply(r.hid, m)))
  {
    var s', r' := Apply(s.hid, m), Apply(r.hid, m);
    assert s.hid.ptr + [] == s.hid.ptr;
    var p := s'.ptr[|s.hid.ptr|];
    assert s'.ptr == s.hid.ptr + [p] && r'.ptr == r.hid.ptr + [p];
    CoalescesAppend(r.hid.ptr, s.hid.ptr, p);
    assert s'.ptr + [] == s'.ptr;
  }

  lemma PositionFollows(s: Session, r: Session, m: Msg)
    requires Follows(s, r) && m.PointerAbs?
    ensures Follows(s.(pending := Some((m.x, m.y))), r.(hid := Apply(r.hid, m)))
  {
    var s' := s.(pending := Some((m.x, m.y)));
    var p := PendingReports(s')[0];
    assert PendingReports(s') == [p];
    assert Apply(r.hid, m).ptr == r.hid.ptr + [p];
    if s.pending.None? {
      assert s.hid.ptr + [] == s.hid.ptr;
      CoalescesAppend(r.hid.ptr, s.hid.ptr, p);
    } else {
      CoalescesReplace(r.hid.ptr, s.hid.ptr, PendingReports(s)[0], p);
    }
  }

  lemma {:induction false} PumpFollows(env: Env, s: Session, r: Session)
    requires Follows(s, r)
    ensures Follows(Pump(env, s, false), Pump(env, r, true))
    decreases |s.buf|
  {
    hide Dispatch, FrontOf;
    if s.open {
      var f := FrontOf(s.buf);
      if f.Whole? {
        var s0, r0 := s.(buf := s.buf[f.size..]), r.(buf := s.buf[f.size..]);
        DispatchBuffer(env, s0, f.msg, false);
        DispatchFollows(env, s0, r0, f.msg);
        PumpFollows(env, Dispatch(env, s0, f.msg, false), Dispatch(env, r0, f.msg, true));
      }
    }
  }

  lemma {:induction false} ReadsFollow(env: Env, s: Session, r: Session, chunks: seq<seq<u8>>)
    requires Follows(s, r) && s.buf == []
    ensures Follows(OnReads(env, s, chunks), Immediate(env, r, Concat(chunks)))
    ensures OnReads(env, s, chunks).open ==> OnReads(env, s, chunks).pending == None || chunks == []
  {
    hide Pump, Coalesces;
    if chunks == [] {
      EmptyFeed(env, r);
    } else {
      var n := |chunks| - 1;
      var c := chunks[n];
      ReadsFollow(env, s, r, chunks[..n]);
      var s1, r1 := OnReads(env, s, chunks[..n]), Immediate(env, r, Concat(chunks[..n]));
      FeedTwice(env, r, Concat(chunks[..n]), c);
      if s1.open {
        PumpFollows(env, s1.(buf := s1.buf + c), r1.(buf := r1.buf + c));
        var s2, r2 := Pump(env, s1.(buf := s1.buf + c), false), Pump(env, r1.(buf := r1.buf + c), true);
        if s2.open {
          FlushFollows(s2, r2);
        }
      }
    }
  }

  lemma EmptyFeed(env: Env, r: Session)
    requires r.buf == []
    ensures Immediate(env, r, []) == r
  {
  }

  lemma FeedTwice(env: Env, r: Session, a: seq<u8>, b: seq<u8>)
    ensures Immediate(env, r, a + b) == Immediate(env, Immediate(env, r, a), b)
  {
    hide Pump;
    if r.open {
      assert r.buf + (a + b) == r.buf + a + b;
      PumpSplits(env, r.(buf := r.buf + a), b);
    }
  }

  // ----- the theorems --------------------------------------------------------------

  /** However the bytes of a session are split into reads, the keyboard reports,
      the replies and the button, wheel and release reports with their positions
      are the same, and so is every state, counting the newest position even when
      the session closed before reporting it. */
  lemma ChunkingIndependent(env: Env, v: View, cs: seq<seq<u8>>, ds: seq<seq<u8>>)
    requires Concat(cs) == Concat(ds)
    ensures var a, b := OnReads(env, Begin(v), cs), OnReads(env, Begin(v), ds);
      && a.hid.kbd == b.hid.kbd && a.replies == b.replies
      && Actions(a.hid.ptr) == Actions(b.hid.ptr)
      && a.hid.modifiers == b.hid.modifiers && a.hid.keys == b.hid.keys && a.hid.buttons == b.hid.buttons
      && a.open == b.open && a.greeted == b.greeted && a.buf == b.buf
      && Settled(a, []) == Settled(b, [])
      && (a.open ==> a.hid.x == b.hid.x && a.hid.y == b.hid.y)
  {
    hide OnReads, Immediate, Concat, Coalesces, Actions;
    SplitFollows(env, v, cs);
    SplitFollows(env, v, ds);
  }

  lemma SplitFollows(env: Env, v: View, cs: seq<seq<u8>>)
    ensures var a, r := OnReads(env, Begin(v), cs), Immediate(env, Begin(v), Concat(cs));
      && Follows(a, r) && Actions(a.hid.ptr) == Actions(r.hid.ptr)
      && (a.open ==> a.pending == None)
  {
    BeginFollows(v);
    ReadsFollow(env, Begin(v), Begin(v), cs);
    var a, r := OnReads(env, Begin(v), cs), Immediate(env, Begin(v), Concat(cs));
    hide OnReads, Immediate, Concat;
    CoalescesKeepsActions(r.hid.ptr, a.hid.ptr + PendingReports(a));
    if a.pending.Some? {
      ActionsAppend(a.hid.ptr, PendingReports(a)[0]);
    } else {
      assert a.hid.ptr + [] == a.hid.ptr;
    }
  }

  lemma BeginFollows(v: View)
    ensures Follows(Begin(v), Begin(v))
  {
    assert v.ptr + [] == v.ptr;
    CoalescesSelf(v.ptr);
  }

  lemma {:induction false} CoalescesSelf(rs: seq<PtrReport>)
    ensures Coalesces(rs, rs)
  {
    if rs != [] {
      CoalescesSelf(rs[1..]);
    }
  }

  /** In every session, open or closed, the pointer reports, with the one the
      position still pending would become, are the one-report-per-message sequence
      less positions that a later position supersedes before any button, wheel or
      release; the state, with that position, is the reference's; and while the
      session is open nothing is pending between reads and at most eight bytes
      wait for the rest of their frame. */
  lemma CoalescingIsExact(env: Env, v: View, chunks: seq<seq<u8>>)
    ensures var a, r := OnReads(env, Begin(v), chunks), Immediate(env, Begin(v), Concat(chunks));
      && Coalesces(r.hid.ptr, a.hid.ptr + PendingReports(a))
      && Settled(a, []) == r.hid.(ptr := [])
      && a.replies == r.replies && a.open == r.open
      && (if a.open then a.pending == None && |a.buf| <= 8 else a.buf == [])
  {
    SplitFollows(env, v, chunks);
    var a := OnReads(env, Begin(v), chunks);
    if chunks != [] {
      var n := |chunks| - 1;
      var s1 := OnReads(env, Begin(v), chunks[..n]);
      PumpLeavesLittle(env, s1.(buf := s1.buf + chunks[n]), false);
      ReadsClose(env, v, chunks);
    }
  }

  lemma {:induction false} ReadsClose(env: Env, v: View, chunks: seq<seq<u8>>)
    ensures var a := OnReads(env, Begin(v), chunks); !a.open ==> a.buf == []
  {
    hide Pump;
    if chunks != [] {
      var n := |chunks| - 1;
      ReadsClose(env, v, chunks[..n]);
      var s := OnReads(env, Begin(v), chunks[..n]);
      if s.open {
        PumpCloses(env, s.(buf := s.buf + chunks[n]));
      }
    }
  }

  lemma {:induction false} PumpCloses(env: Env, s: Session)
    requires s.open || s.buf == []
    ensures var a := Pump(env, s, false); !a.open ==> a.buf == []
    decreases |s.buf|
  {
    hide FrontOf, Apply;
    if s.open && FrontOf(s.buf).Whole? {
      var f := FrontOf(s.buf);
      var s0 := s.(buf := s.buf[f.size..]);
      DispatchBuffer(env, s0, f.msg, false);
      PumpCloses(env, Dispatch(env, s0, f.msg, false));
    }
  }

  lemma {:induction false} PumpLeavesLittle(env: Env, s: Session, eager: bool)
    ensures Pump(env, s, eager).open ==> |Pump(env, s, eager).buf| <= 8
    decreases |s.buf|
  {
    hide Dispatch;
    if s.open && FrontOf(s.buf).Whole? {
      var f := FrontOf(s.buf);
      var s0 := s.(buf := s.buf[f.size..]);
      DispatchBuffer(env, s0, f.msg, eager);
      PumpLeavesLittle(env, Dispatch(env, s0, f.msg, eager), eager);
    }
  }

  /** The replies messages get: one STATUS for each request, of the state the
      messages before it have left. */
  function Answers(v: View, ms: seq<Msg>): seq<Reply>
    decreases |ms|
  {
    if ms == [] then []
    else (if ms[0].GetStatus? then [StatusOf(v)] else []) + Answers(Apply(v, ms[0]), ms[1..])
  }

  /** From a greeted session with nothing buffered, the bytes of any messages
      are read back as exactly those messages, each answered, and nothing is left
      over, as long as every reply can be written. */
  lemma {:induction false} PumpInverts(env: Env, s: Session, ms: seq<Msg>)
    requires s.open && s.greeted && s.buf == [] && s.pending == None
    requires forall k :: env.sendOk(k)
    ensures var r := Immediate(env, s, AllBytes(ms));
      r.open && r.greeted && r.buf == [] && r.pending == None && r.hid == ApplyAll(s.hid, ms)
      && r.replies == s.replies + Answers(s.hid, ms)
    decreases |ms|
  {
    hide FrontOf, Apply, StatusOf, Dispatch, MsgBytes;
    if ms == [] {
      EmptyFeed(env, s);
      assert s.replies + [] == s.replies;
    } else {
      FrontInverts(ms[0], AllBytes(ms[1..]));
      var rest := AllBytes(ms[1..]);
      assert s.buf + AllBytes(ms) == MsgBytes(ms[0]) + rest;
      var s1 := Dispatch(env, s.(buf := rest), ms[0], true);
      GreetedDispatch(env, s.(buf := rest), ms[0]);
      PumpInverts(env, s1.(buf := []), ms[1..]);
      assert [] + rest == rest;
      ApplyFirst(s.hid, ms);
      var answer := if ms[0].GetStatus? then [StatusOf(s.hid)] else [];
      assert s.replies + answer + Answers(s1.hid, ms[1..]) == s.replies + (answer + Answers(s1.hid, ms[1..]));
    }
  }

  lemma GreetedDispatch(env: Env, s: Session, m: Msg)
    requires s.open && s.greeted && s.pending == None && forall k :: env.sendOk(k)
    ensures var r := Dispatch(env, s, m, true);
      r == s.(hid := Apply(s.hid, m), replies := s.replies + if m.GetStatus? then [StatusOf(s.hid)] else [])
  {
    hide StatusOf;
    assert s.replies + [] == s.replies;
  }

  /** A client that greets and then sends ms: however its bytes are split, the
      session is open with nothing buffered, its state is that of the messages
      applied one by one, and it has answered the greeting and every request. */
  lemma ClientStreamApplied(env: Env, v: View, ms: seq<Msg>, chunks: seq<seq<u8>>)
    requires forall k :: env.sendOk(k)
    requires Concat(chunks) == AllBytes([Hello(PROTOCOL_VERSION)] + ms)
    ensures var a := OnReads(env, Begin(v), chunks);
      && a.open && a.buf == []
      && a.hid == ApplyAll(v, ms).(ptr := a.hid.ptr)
      && Coalesces(ApplyAll(v, ms).ptr, a.hid.ptr)
      && Actions(a.hid.ptr) == Actions(ApplyAll(v, ms).ptr)
      && a.replies == [HelloAck(PROTOCOL_VERSION)] + Answers(v, ms)
  {
    GreetingApplied(env, v, ms);
    SplitFollows(env, v, chunks);
    var a := OnReads(env, Begin(v), chunks);
    assert a.hid.ptr + [] == a.hid.ptr;
  }

  lemma GreetingApplied(env: Env, v: View, ms: seq<Msg>)
    requires forall k :: env.sendOk(k)
    ensures var r := Immediate(env, Begin(v), AllBytes([Hello(PROTOCOL_VERSION)] + ms));
      r.open && r.buf == [] && r.hid == ApplyAll(v, ms)
      && r.replies == [HelloAck(PROTOCOL_VERSION)] + Answers(v, ms)
  {
    hide FrontOf, Apply;
    var hello, rest := Hello(PROTOCOL_VERSION), AllBytes(ms);
    assert ([hello] + ms)[1..] == ms;
    FrontInverts(hello, rest);
    assert [] + AllBytes([hello] + ms) == MsgBytes(hello) + rest;
    var s1 := Dispatch(env, Begin(v).(buf := rest), hello, true);
    PumpInverts(env, s1.(buf := []), ms);
    assert [] + rest == rest;
    assert s1.replies == [HelloAck(PROTOCOL_VERSION)];
  }

  /** A status reply tells what the host sees: its modifiers and buttons, and how many
      other keys it holds. */
  lemma StatusTells(v: View)
    requires InSync(v)
    ensures var s := StatusOf(v);
      && s.buttons == HostButtons(v)
      && (forall j: nat :: j < 8 ==> (HasBit(s.modifiers, j) <==> HostHolds(v, (0xe0 + j) as u8)))
      && (PlainSlots(v) && Distinct(v.keys) ==> s.held == |HostKeys(v)|)
  {
    hide HasBit, HostButtons;
    HostSeesState(v);
    var held := set u: u8 | Holds(v, u);
    assert HostKeys(v) == NonModifiers(held);
    forall j: nat | j < 8 ensures HasBit(v.modifiers, j) <==> HostHolds(v, (0xe0 + j) as u8) {
      var u: u8 := 0xe0 + j;
      assert Holds(v, u) <==> HasBit(v.modifiers, j);
    }
    if PlainSlots(v) && Distinct(v.keys) {
      StatusCountsHeld(v, held);
    }
  }

  /** The keys the host holds, modifiers apart. */
  ghost function HostKeys(v: View): set<u8> {
    set u: u8 | HostHolds(v, u) && !IsModifier(u)
  }

  // ----- the position of a session that ends in the middle of a read ---------------

  /** The messages one read dispatches, the one that ends the session included. */
  function Dispatched(env: Env, s: Session): seq<Msg>
    decreases |s.buf|
  {
    if !s.open || !FrontOf(s.buf).Whole? then []
    else
      var f := FrontOf(s.buf);
      var s0 := s.(buf := s.buf[f.size..]);
      DispatchBuffer(env, s0, f.msg, false);
      [f.msg] + Dispatched(env, Dispatch(env, s0, f.msg, false))
  }

  /** They are the messages its bytes begin with. */
  lemma {:induction false} DispatchedBytes(env: Env, s: Session)
    ensures AllBytes(Dispatched(env, s)) <= s.buf
    decreases |s.buf|
  {
    hide FrontOf, Dispatch, MsgBytes;
    if s.open && FrontOf(s.buf).Whole? {
      var f := FrontOf(s.buf);
      var s0 := s.(buf := s.buf[f.size..]);
      var s1 := Dispatch(env, s0, f.msg, false);
      DispatchBuffer(env, s0, f.msg, false);
      DispatchedBytes(env, s1);
      FrontIsEncoded(s.buf);
      var rest := Dispatched(env, s1);
      assert ([f.msg] + rest)[1..] == rest;
      assert s.buf == MsgBytes(f.msg) + s.buf[f.size..];
    }
  }

  /** The session after at most n messages of a read. */
  function Partly(env: Env, s: Session, n: nat): Session
    decreases n
  {
    if n == 0 || !s.open || !FrontOf(s.buf).Whole? then s
    else
      var f := FrontOf(s.buf);
      Partly(env, Dispatch(env, s.(buf := s.buf[f.size..]), f.msg, false), n - 1)
  }

  /** A greeting that is none, has the wrong version or cannot be answered, and a
      status request that cannot be answered. */
  predicate Refuses(env: Env, s: Session, m: Msg) {
    if !s.greeted then !m.Hello? || m.version != PROTOCOL_VERSION || !env.sendOk(|s.replies|)
    else m.GetStatus? && !env.sendOk(|s.replies|)
  }

  /** What ends a session after n messages of a read. */
  ghost predicate EndsAt(env: Env, s: Session, n: nat) {
    var t := Partly(env, s, n);
    var f := FrontOf(t.buf);
    t.open && (f.Malformed? || (f.Whole? && Refuses(env, t, f.msg)))
  }

  lemma DispatchClosesIff(env: Env, s: Session, m: Msg)
    requires s.open
    ensures Dispatch(env, s, m, false).open <==> !Refuses(env, s, m)
  {
    hide Apply, HeldKeyCount;
  }

  /** A read ends its session if and only if, after some number of its messages,
      a malformed frame or a message that is refused is next. */
  lemma {:induction false} PumpEndsIff(env: Env, s: Session)
    requires s.open
    ensures Pump(env, s, false).open <==> forall n: nat :: !EndsAt(env, s, n)
    decreases |s.buf|
  {
    hide FrontOf, Dispatch, Refuses;
    var f := FrontOf(s.buf);
    if f.Whole? {
      var s0 := s.(buf := s.buf[f.size..]);
      var s1 := Dispatch(env, s0, f.msg, false);
      DispatchBuffer(env, s0, f.msg, false);
      DispatchClosesIff(env, s0, f.msg);
      assert Refuses(env, s, f.msg) == Refuses(env, s0, f.msg) by { SameRefusal(env, s, s0, f.msg); }
      forall n: nat ensures EndsAt(env, s, n + 1) <==> EndsAt(env, s1, n) {
        assert Partly(env, s, n + 1) == Partly(env, s1, n);
      }
      assert EndsAt(env, s, 0) <==> Refuses(env, s, f.msg);
      if s1.open {
        PumpEndsIff(env, s1);
        if n: nat :| EndsAt(env, s, n) {
          assert n > 0 && EndsAt(env, s1, n - 1);
        }
      }
    } else {
      assert EndsAt(env, s, 0) <==> f.Malformed?;
      forall n: nat ensures EndsAt(env, s, n) <==> f.Malformed? {
      }
    }
  }

  lemma SameRefusal(env: Env, s: Session, t: Session, m: Msg)
    requires s.greeted == t.greeted && s.replies == t.replies
    ensures Refuses(env, s, m) == Refuses(env, t, m)
  {
  }

  /** The last position among some messages, at if there is none. */
  function LastAt(at: (u16, u16), ms: seq<Msg>): (u16, u16)
    decreases |ms|
  {
    if ms == [] then at
    else
      var m := ms[|ms| - 1];
      if m.PointerAbs? then (m.x, m.y) else LastAt(at, ms[..|ms| - 1])
  }

  /** The last position ahead of the last button, wheel or release of some
      messages; last is the position before them, at what is set if there is no
      button, wheel or release. */
  function SetAfter(at: (u16, u16), last: (u16, u16), ms: seq<Msg>): (u16, u16)
    decreases |ms|
  {
    if ms == [] then at
    else if NeedsFlush(ms[|ms| - 1]) then LastAt(last, ms[..|ms| - 1])
    else SetAfter(at, last, ms[..|ms| - 1])
  }

  /** A position that no later position, button, wheel or release follows. */
  ghost predicate Unreported(ms: seq<Msg>, i: nat) {
    && i < |ms| && ms[i].PointerAbs?
    && forall j :: i < j < |ms| ==> !ms[j].PointerAbs? && !NeedsFlush(ms[j])
  }

  /** An unreported position is the last one; without one, the last is set. */
  lemma {:induction false} LastUnreported(at: (u16, u16), ms: seq<Msg>)
    ensures (exists i: nat :: Unreported(ms, i)) || LastAt(at, ms) == SetAfter(at, at, ms)
    ensures forall i: nat :: Unreported(ms, i) ==> (ms[i].x, ms[i].y) == LastAt(at, ms)
    decreases |ms|
  {
    if ms != [] {
      var n := |ms| - 1;
      LastUnreported(at, ms[..n]);
      if ms[n].PointerAbs? {
        assert Unreported(ms, n);
        forall i: nat | Unreported(ms, i) ensures i == n {
        }
      } else if !NeedsFlush(ms[n]) {
        forall i: nat ensures Unreported(ms, i) <==> Unreported(ms[..n], i) {
          EarlierUnreported(ms, i);
        }
      }
    }
  }

  lemma EarlierUnreported(ms: seq<Msg>, i: nat)
    requires ms != [] && !ms[|ms| - 1].PointerAbs? && !NeedsFlush(ms[|ms| - 1])
    ensures Unreported(ms, i) <==> Unreported(ms[..|ms| - 1], i)
  {
    var n := |ms| - 1;
    if Unreported(ms[..n], i) {
      forall j | i < j < |ms| ensures !ms[j].PointerAbs? && !NeedsFlush(ms[j]) {
        assert j < n ==> ms[..n][j] == ms[j];
      }
    }
  }

  lemma {:induction false} LastAtFirst(at: (u16, u16), m: Msg, ms: seq<Msg>)
    ensures LastAt(at, [m] + ms) == LastAt(LastAt(at, [m]), ms)
    decreases |ms|
  {
    var all := [m] + ms;
    if ms == [] {
      assert all == [m];
    } else {
      var n := |ms| - 1;
      assert all[..|all| - 1] == [m] + ms[..n];
      LastAtFirst(at, m, ms[..n]);
    }
  }

  lemma {:induction false} SetAfterFirst(at: (u16, u16), last: (u16, u16), m: Msg, ms: seq<Msg>)
    ensures SetAfter(at, last, [m] + ms) == SetAfter(if NeedsFlush(m) then last else at, LastAt(last, [m]), ms)
    decreases |ms|
  {
    hide LastAt;
    var all := [m] + ms;
    if ms == [] {
      assert all == [m] && [m][..0] == [];
      NoneBehind(last);
    } else {
      var n := |ms| - 1;
      assert all[..|all| - 1] == [m] + ms[..n];
      SetAfterFirst(at, last, m, ms[..n]);
      LastAtFirst(last, m, ms[..n]);
    }
  }

  lemma NoneBehind(at: (u16, u16))
    ensures LastAt(at, []) == at
  {
  }

  /** The position set, and the last one received. */
  function SetAt(s: Session): (u16, u16) { (s.hid.x, s.hid.y) }
  function Latest(s: Session): (u16, u16) { if s.pending.Some? then s.pending.value else SetAt(s) }

  /** The messages behind the greeting. */
  function Behind(greeted: bool, ms: seq<Msg>): seq<Msg> {
    if greeted || ms == [] then ms else ms[1..]
  }

  lemma DispatchMoves(env: Env, s: Session, m: Msg)
    requires s.open
    ensures var t := Dispatch(env, s, m, false);
      && SetAt(t) == (if s.greeted && NeedsFlush(m) then Latest(s) else SetAt(s))
      && Latest(t) == (if s.greeted then LastAt(Latest(s), [m]) else Latest(s))
      && (t.open ==> t.greeted)
  {
    hide HeldKeyCount;
    assert [m][..0] == [];
  }

  /** The position set by a read's messages, and the last one among them. */
  lemma {:induction false} PumpMoves(env: Env, s: Session)
    ensures var t, ms := Pump(env, s, false), Behind(s.greeted, Dispatched(env, s));
      SetAt(t) == SetAfter(SetAt(s), Latest(s), ms) && Latest(t) == LastAt(Latest(s), ms)
    decreases |s.buf|
  {
    hide FrontOf, Dispatch, LastAt;
    NoneBehind(Latest(s));
    if s.open && FrontOf(s.buf).Whole? {
      var f := FrontOf(s.buf);
      var s0 := s.(buf := s.buf[f.size..]);
      var s1 := Dispatch(env, s0, f.msg, false);
      DispatchBuffer(env, s0, f.msg, false);
      DispatchMoves(env, s0, f.msg);
      PumpMoves(env, s1);
      NoneBehind(Latest(s1));
      var rest := Dispatched(env, s1);
      assert Behind(s1.greeted, rest) == rest;
      LastAtFirst(Latest(s), f.msg, rest);
      SetAfterFirst(SetAt(s), Latest(s), f.msg, rest);
      assert ([f.msg] + rest)[1..] == rest;
    }
  }

  lemma {:induction false} ClosedStays(env: Env, v: View, chunks: seq<seq<u8>>, k: nat)
    requires k <= |chunks| && !OnReads(env, Begin(v), chunks[..k]).open
    ensures OnReads(env, Begin(v), chunks) == OnReads(env, Begin(v), chunks[..k])
    decreases |chunks|
  {
    hide Pump;
    if k < |chunks| {
      var n := |chunks| - 1;
      assert chunks[..n][..k] == chunks[..k];
      ClosedStays(env, v, chunks[..n], k);
    } else {
      assert chunks[..k] == chunks;
    }
  }

  /** A session closed by its reads was closed by one of them. */
  lemma {:induction false} ClosingRead(env: Env, v: View, chunks: seq<seq<u8>>)
    requires !OnReads(env, Begin(v), chunks).open
    ensures exists k: nat :: k < |chunks|
              && OnReads(env, Begin(v), chunks[..k]).open && !OnReads(env, Begin(v), chunks[..k + 1]).open
    decreases |chunks|
  {
    hide OnRead;
    var n := |chunks| - 1;
    assert chunks[..n + 1] == chunks;
    if !OnReads(env, Begin(v), chunks[..n]).open {
      ClosingRead(env, v, chunks[..n]);
      var k: nat :| k < n && OnReads(env, Begin(v), chunks[..n][..k]).open
                    && !OnReads(env, Begin(v), chunks[..n][..k + 1]).open;
      assert chunks[..n][..k] == chunks[..k] && chunks[..n][..k + 1] == chunks[..k + 1];
    }
  }

  /** When a read ends its session, the reference, which has seen every position,
      ends at the last one and the session at the last one ahead of a button, wheel
      or release. These agree if and only if no position of that read is left
      unreported, or the one that is equals the position set. Which messages a read
      dispatches before it ends the session, and what can end it, is said by
      Dispatched and PumpEndsIff. */
  lemma FinalPositionIff(env: Env, v: View, chunks: seq<seq<u8>>, k: nat)
    requires k < |chunks|
    requires OnReads(env, Begin(v), chunks[..k]).open && !OnReads(env, Begin(v), chunks[..k + 1]).open
    ensures var a, r := OnReads(env, Begin(v), chunks), Immediate(env, Begin(v), Concat(chunks));
      var before := OnReads(env, Begin(v), chunks[..k]);
      var ms := Behind(before.greeted, Dispatched(env, before.(buf := before.buf + chunks[k])));
      var at := SetAt(before);
      && SetAt(a) == SetAfter(at, at, ms) && SetAt(r) == LastAt(at, ms)
      && (SetAt(a) == SetAt(r) <==>
            forall i: nat :: Unreported(ms, i) ==> (ms[i].x, ms[i].y) == SetAfter(at, at, ms))
  {
    hide Pump, Dispatched, Immediate, Concat, LastAt, SetAfter, Coalesces, PendingReports;
    var before := OnReads(env, Begin(v), chunks[..k]);
    var fed := before.(buf := before.buf + chunks[k]);
    ClosedStays(env, v, chunks, k + 1);
    assert chunks[..k + 1][..k] == chunks[..k];
    CoalescingIsExact(env, v, chunks);
    CoalescingIsExact(env, v, chunks[..k]);
    PumpMoves(env, fed);
    LastUnreported(SetAt(before), Behind(before.greeted, Dispatched(env, fed)));
  }

  /** Splitting does matter for a position followed by a malformed frame in the
      same read: that position is dropped, and a report written after the
      session shows the pointer where it was before. */
  lemma MalformedDropsPosition(env: Env, v: View, x: u16, y: u16)
    requires env.sendOk(0) && (v.x != x || v.y != y)
    ensures var good, bad := AllBytes([Hello(PROTOCOL_VERSION), PointerAbs(x, y)]), [0, 0];
      var a, b := OnReads(env, Begin(v), [good + bad]), OnReads(env, Begin(v), [good, bad]);
      && !a.open && !b.open
      && a.hid.x == v.x && a.hid.y == v.y && b.hid.x == x && b.hid.y == y
  {
    hide FrontOf, Pump, PtrBytes;
    var good, bad: seq<u8> := AllBytes([Hello(PROTOCOL_VERSION), PointerAbs(x, y)]), [0, 0];
    var s := Session([], true, Some((x, y)), v, [HelloAck(PROTOCOL_VERSION)], true);
    PositionThen(env, v, x, y, bad);
    PositionThen(env, v, x, y, []);
    BadFront(env, s);
    BadFront(env, FlushPending(s));
    assert [] + (good + bad) == good + bad && [] + good == good + [] && [] + bad == bad;
    var one: seq<seq<u8>>, two, none: seq<seq<u8>> := [good + bad], [good, bad], [];
    assert one[..0] == none && two[..1] == [good] && [good][..0] == none;
    var b1 := OnRead(env, Begin(v), good);
    assert OnReads(env, Begin(v), [good]) == b1 == FlushPending(s);
    assert OnReads(env, Begin(v), two) == OnRead(env, b1, bad);
  }

  lemma PumpWhole(env: Env, s: Session, m: Msg, rest: seq<u8>, eager: bool)
    requires s.open
    ensures Pump(env, s.(buf := MsgBytes(m) + rest), eager)
         == Pump(env, Dispatch(env, s.(buf := rest), m, eager), eager)
  {
    hide FrontOf, Dispatch, MsgBytes;
    FrontInverts(m, rest);
  }

  /** After a greeting and one position, whatever follows. */
  lemma PositionThen(env: Env, v: View, x: u16, y: u16, tail: seq<u8>)
    requires env.sendOk(0)
    ensures Pump(env, Begin(v).(buf := AllBytes([Hello(PROTOCOL_VERSION), PointerAbs(x, y)]) + tail), false)
         == Pump(env, Session(tail, true, Some((x, y)), v, [HelloAck(PROTOCOL_VERSION)], true), false)
  {
    hide Pump, MsgBytes;
    var hello, move := Hello(PROTOCOL_VERSION), PointerAbs(x, y);
    assert [hello, move][1..] == [move] && [move][1..] == [];
    var a, b := MsgBytes(hello), MsgBytes(move);
    assert AllBytes([move]) == b + AllBytes([]) == b;
    assert AllBytes([hello, move]) + tail == a + (b + tail);
    PumpWhole(env, Begin(v), hello, b + tail, false);
    var greeted := Session([], true, None, v, [HelloAck(PROTOCOL_VERSION)], true);
    assert Dispatch(env, Begin(v).(buf := b + tail), hello, false).replies == greeted.replies;
    PumpWhole(env, greeted, move, tail, false);
  }

  lemma BadFront(env: Env, s: Session)
    requires s.open
    ensures Pump(env, s.(buf := [0, 0]), false) == Close(s)
    ensures Pump(env, s.(buf := []), false) == s.(buf := [])
  {
    assert FrontOf([0, 0]) == Malformed && FrontOf([]) == Incomplete;
  }

  /** The same with a status request that cannot be answered in the place of the
      malformed frame. */
  lemma UnsentStatusDropsPosition(env: Env, v: View, x: u16, y: u16)
    requires env.sendOk(0) && !env.sendOk(1) && (v.x != x || v.y != y)
    ensures var good, ask := AllBytes([Hello(PROTOCOL_VERSION), PointerAbs(x, y)]), MsgBytes(GetStatus);
      var a, b := OnReads(env, Begin(v), [good + ask]), OnReads(env, Begin(v), [good, ask]);
      && !a.open && !b.open
      && a.hid.x == v.x && a.hid.y == v.y && b.hid.x == x && b.hid.y == y
  {
    hide FrontOf, Pump, PtrBytes, MsgBytes, StatusOf;
    var good, ask := AllBytes([Hello(PROTOCOL_VERSION), PointerAbs(x, y)]), MsgBytes(GetStatus);
    var s := Session([], true, Some((x, y)), v, [HelloAck(PROTOCOL_VERSION)], true);
    PositionThen(env, v, x, y, ask);
    PositionThen(env, v, x, y, []);
    StatusEnds(env, s);
    StatusEnds(env, FlushPending(s));
    BadFront(env, s);
    assert [] + (good + ask) == good + ask && [] + good == good + [] && [] + ask == ask;
    var one: seq<seq<u8>>, two, none: seq<seq<u8>> := [good + ask], [good, ask], [];
    assert one[..0] == none && two[..1] == [good] && [good][..0] == none;
    var b1 := OnRead(env, Begin(v), good);
    assert OnReads(env, Begin(v), [good]) == b1 == FlushPending(s);
    assert OnReads(env, Begin(v), two) == OnRead(env, b1, ask);
  }

  lemma StatusEnds(env: Env, s: Session)
    requires s.open && s.greeted && !env.sendOk(|s.replies|)
    ensures var t := Pump(env, s.(buf := MsgBytes(GetStatus)), false);
      !t.open && t.hid == s.hid
  {
    hide FrontOf, MsgBytes, StatusOf;
    assert MsgBytes(GetStatus) + [] == MsgBytes(GetStatus);
    PumpWhole(env, s, GetStatus, [], false);
  }
}
