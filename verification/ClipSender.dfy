/** The windowed sender with its single retry: send_transfer and send_with_retry
    of the Linux agent, send_frames of the Windows helper. */
module ClipSender {
  import opened Bytes
  import opened ClipFrame
  import opened ClipTransfer
  import opened ClipRetry

  datatype Outcome = Sent | Stalled | Lost

  /** What one call writes when its window stalls before frame p; the ABORT
      itself may fail to go out, and the sender does not look. */
  ghost predicate StalledAt(w: seq<Frame>, fs: seq<Frame>, p: nat) {
    ACK_WINDOW < p < |fs| - 1 && (w == fs[..p] + [ABORT] || w == fs[..p])
  }

  ghost predicate CutAt(w: seq<Frame>, fs: seq<Frame>, p: nat) {
    p < |fs| && w == fs[..p]
  }

  /** What one call writes, by outcome. */
  ghost predicate Written(w: seq<Frame>, fs: seq<Frame>, o: Outcome) {
    match o
    case Sent => w == fs
    case Stalled => exists p: nat :: StalledAt(w, fs, p)
    case Lost => exists p: nat :: CutAt(w, fs, p)
  }

  lemma StalledWrites(w: seq<Frame>, fs: seq<Frame>, p: nat)
    requires StalledAt(w, fs, p)
    ensures Written(w, fs, Stalled)
  {
  }

  lemma CutWrites(fs: seq<Frame>, p: nat)
    requires p < |fs|
    ensures Written(fs[..p], fs, Lost)
  {
    assert CutAt(fs[..p], fs, p);
  }

  lemma AllWrites(fs: seq<Frame>)
    ensures Written(fs, fs, Sent)
  {
  }

  /** What the connection and the clock do: which writes go out, and how many polls
      fit in the five seconds of each wait. */
  datatype Line = Line(sent: nat -> bool, patience: nat -> nat)

  class Sender {
    const line: Line
    var acked: u32
    var writes: nat             // tried so far
    var waits: nat              // for the window, so far
    ghost var wire: seq<Frame>  // as the receiver will parse it
    ghost var loads: seq<u32>   // the count that released each DATA frame of this attempt
    ghost var polls: seq<u32>   // every count looked at

    constructor (line: Line)
      ensures wire == [] && writes == waits == 0 && polls == [] && this.line == line
    {
      this.line := line;
      acked, writes, waits := 0, 0, 0;
      wire, loads, polls := [], [], [];
    }

    /** The last write did not go out, and those before it since the k-th did. */
    ghost predicate BrokeAfter(k: nat)
      reads this
    {
      k < writes && !line.sent(writes - 1) && forall j :: k <= j < writes - 1 ==> line.sent(j)
    }

    /** Every write since the k-th went out. */
    ghost predicate WroteAll(k: nat)
      reads this
    {
      k <= writes && forall j :: k <= j < writes ==> line.sent(j)
    }

    /** The last wait looked as often as it may, and never found the window open for
        one more than `sent` frames. */
    ghost predicate Starved(sent: nat)
      reads this
    {
      && waits > 0
      && var n := line.patience(waits - 1) + 1;
         && n <= |polls|
         && forall k :: |polls| - n <= k < |polls| ==> sent >= polls[k] + ACK_WINDOW
    }

    /** The reader thread may have stored any count since the last look. */
    method LoadAcked() returns (v: u32)
      modifies this`acked, this`polls
      ensures polls == old(polls) + [v]
    {
      acked := *;
      v := acked;
      polls := polls + [v];
    }

    method Write(f: Raw) returns (ok: bool)
      modifies this`wire, this`writes
      ensures writes == old(writes) + 1 && ok == line.sent(old(writes))
      ensures wire == if ok then old(wire) + [Parse(f)] else old(wire)
    {
      ok := line.sent(writes);
      writes := writes + 1;
      if ok {
        wire := wire + [Parse(f)];
      }
    }

    method WriteAbort()
      modifies this`wire, this`writes
      ensures writes == old(writes) + 1
      ensures wire == if line.sent(old(writes)) then old(wire) + [ABORT] else old(wire)
    {
      var f := BuildFrame(T_ABORT, 0, []);
      ParseInverts(T_ABORT, 0, []);
      var _ := Write(f[..]);
    }

    /** Waits for the window before DATA frame number `sent`: goes on with the first
        count that opens it, and gives up only when it has looked as often as fits in
        five seconds. */
    method AwaitWindow(sent: nat) returns (go: bool)
      modifies this`acked, this`loads, this`polls, this`waits
      ensures old(polls) < polls && waits == old(waits) + 1
      ensures forall k :: |old(polls)| <= k < |polls| - 1 ==> sent >= polls[k] + ACK_WINDOW
      ensures |polls| - |old(polls)| <= line.patience(old(waits)) + 1
      ensures if go then loads == old(loads) + [polls[|polls| - 1]] && sent < polls[|polls| - 1] + ACK_WINDOW
              else loads == old(loads) && Starved(sent) && sent >= ACK_WINDOW
    {
      var patience := line.patience(waits);
      waits := waits + 1;
      var v: u32 := LoadAcked();
      var left := patience;
      while sent >= v + ACK_WINDOW
        invariant loads == old(loads) && waits == old(waits) + 1
        invariant |polls| == |old(polls)| + (patience - left) + 1 && 0 <= left <= patience
        invariant polls[..|old(polls)|] == old(polls) && polls[|polls| - 1] == v
        invariant forall k :: |old(polls)| <= k < |polls| - 1 ==> sent >= polls[k] + ACK_WINDOW
        decreases left
      {
        if left == 0 {
          return false;
        }
        left := left - 1;
        v := LoadAcked();
      }
      loads := loads + [v];
      go := true;
    }

    /** One frame, a DATA frame once the window is open for it. */
    method SendFrame(f: Raw, isData: bool, sent: nat) returns (r: Outcome)
      modifies this
      ensures writes == old(writes) + 1
      ensures r == Sent ==> line.sent(old(writes)) && wire == old(wire) + [Parse(f)]
      ensures old(loads) <= loads && |loads| <= |old(loads)| + 1
      ensures |loads| > |old(loads)| ==> sent < loads[|old(loads)|] + ACK_WINDOW
      ensures r == Sent ==> |loads| == |old(loads)| + if isData then 1 else 0
      ensures r == Stalled ==> loads == old(loads)
      ensures r == Lost ==> wire == old(wire) && !line.sent(old(writes))
      ensures r == Stalled ==>
                isData && Starved(sent) && sent >= ACK_WINDOW && (wire == old(wire) + [ABORT] || wire == old(wire))
    {
      hide Parse;
      if isData {
        var go := AwaitWindow(sent);
        if !go {
          WriteAbort();
          return Stalled;
        }
      }
      var ok := Write(f);
      r := if ok then Sent else Lost;
    }

    /** Every DATA frame goes out only once fewer than ACK_WINDOW of those
        before it are unacknowledged by the count loaded for it; END goes out
        only after everything else. The connection is lost only when a write has
        failed, and the attempt is given up only when the window stayed closed. */
    method SendTransfer(frames: seq<Raw>) returns (r: Outcome)
      requires |frames| >= 2
      modifies this
      ensures exists w :: wire == old(wire) + w && Written(w, ParseAll(frames), r)
      ensures forall k :: 0 <= k < |loads| ==> k < loads[k] + ACK_WINDOW
      ensures r == Sent ==> |loads| == |frames| - 2 && WroteAll(old(writes))
      ensures writes > old(writes)
      ensures r == Lost ==> BrokeAfter(old(writes))
      ensures r == Stalled ==> Starved(|loads|) && |loads| >= ACK_WINDOW
    {
      hide Parse, Written, Starved, ABORT;
      acked := 0;
      loads := [];
      ghost var fs := ParseAll(frames);
      var sent: nat := 0;
      var last := |frames| - 1;
      for i := 0 to |frames|
        invariant wire == old(wire) + fs[..i] && WroteAll(old(writes)) && writes == old(writes) + i
        invariant sent == |loads| == if i == 0 then 0 else if i <= last then i - 1 else last - 1
        invariant forall k :: 0 <= k < |loads| ==> k < loads[k] + ACK_WINDOW
      {
        r := SendFrame(frames[i], 0 < i < last, sent);
        if r == Stalled {
          ghost var w := if wire == old(wire) + fs[..i] then fs[..i] else fs[..i] + [ABORT];
          StalledWrites(w, fs, i);
          assert wire == old(wire) + w;
          return;
        }
        if r == Lost {
          CutWrites(fs, i);
          return;
        }
        if 0 < i < last {
          sent := sent + 1;
        }
        assert fs[..i + 1] == fs[..i] + [fs[i]];
      }
      assert fs[..|frames|] == fs;
      AllWrites(fs);
      r := Sent;
    }

    /** One retry after a stall. Lost means the connection is gone, Stalled that
        both attempts were given up. */
    method SendWithRetry(kind: u8, data: seq<u8>) returns (r: Outcome)
      modifies this
      ensures exists w :: wire == old(wire) + w && Call(kind, data, w, r)
      ensures r == Lost ==> writes > old(writes) && !line.sent(writes - 1)
      ensures r == Stalled ==> Starved(|loads|) && |loads| >= ACK_WINDOW
    {
      hide Parse, TransferFrame, Chunks, Written, Starved;
      var frames := EncodeTransfer(kind, data);
      r := SendTransfer(frames);
      ghost var w1 :| wire == old(wire) + w1 && Written(w1, Transfer(kind, data), r);
      if r != Stalled {
        assert Call(kind, data, w1, r);
        return;
      }
      label retry:
      r := SendTransfer(frames);
      ghost var w2 :| wire == old@retry(wire) + w2 && Written(w2, Transfer(kind, data), r);
      assert wire == old(wire) + (w1 + w2);
      assert TwoWrites(w1 + w2, Transfer(kind, data), w1, w2, r);
      assert Call(kind, data, w1 + w2, r);
    }
  }

  ghost predicate TwoWrites(w: seq<Frame>, fs: seq<Frame>, w1: seq<Frame>, w2: seq<Frame>, o: Outcome) {
    w == w1 + w2 && Written(w1, fs, Stalled) && Written(w2, fs, o)
  }

  /** What one call of the retrying sender writes, by outcome: one attempt that
      did not stall, or one that did and then another. */
  ghost predicate Call(kind: u8, data: seq<u8>, w: seq<Frame>, o: Outcome) {
    var fs := Transfer(kind, data);
    (o != Stalled && Written(w, fs, o)) || exists w1, w2 :: TwoWrites(w, fs, w1, w2, o)
  }

  ghost predicate NoEnd(w: seq<Frame>) {
    forall i :: 0 <= i < |w| ==> w[i].Bad? || w[i].t != T_END
  }

  ghost predicate SecondAttempt(kind: u8, data: seq<u8>, w: seq<Frame>, p: nat) {
    && StallPoint(data, p)
    && (w == Attempts(kind, data, p) || w == Transfer(kind, data)[..p] + Transfer(kind, data))
  }

  lemma NoEndUnlessSent(kind: u8, data: seq<u8>, w: seq<Frame>, o: Outcome)
    requires o != Sent && Written(w, Transfer(kind, data), o)
    ensures NoEnd(w)
  {
    hide TransferFrame, Chunks;
    forall i: nat | i < |w| ensures w[i].Bad? || w[i].t != T_END {
      TransferFrameIs(kind, data, i);
    }
  }

  /** A call that does not report success has written no END. */
  lemma CallNoEnd(kind: u8, data: seq<u8>, w: seq<Frame>, o: Outcome)
    requires o != Sent && Call(kind, data, w, o)
    ensures NoEnd(w)
  {
    hide TransferFrame, Chunks, Written;
    var fs := Transfer(kind, data);
    if o != Stalled && Written(w, fs, o) {
      NoEndUnlessSent(kind, data, w, o);
    } else {
      var w1, w2 :| TwoWrites(w, fs, w1, w2, o);
      NoEndUnlessSent(kind, data, w1, Stalled);
      NoEndUnlessSent(kind, data, w2, o);
    }
  }

  /** A call that reports success has written the transfer, once, or after a
      stalled attempt. */
  lemma CallSent(kind: u8, data: seq<u8>, w: seq<Frame>)
    requires Call(kind, data, w, Sent)
    ensures w == Transfer(kind, data) || exists p: nat :: SecondAttempt(kind, data, w, p)
  {
    hide TransferFrame, Chunks;
    var fs := Transfer(kind, data);
    if w != fs {
      var w1, w2 :| TwoWrites(w, fs, w1, w2, Sent);
      var p: nat :| StalledAt(w1, fs, p);
      assert SecondAttempt(kind, data, w, p);
    }
  }

  /** Every frame a call writes is an ABORT or one of its transfer's. */
  ghost predicate FromTransfer(w: seq<Frame>, kind: u8, data: seq<u8>) {
    forall i :: 0 <= i < |w| ==> w[i] == ABORT || w[i] in Transfer(kind, data)
  }

  lemma CallFrames(kind: u8, data: seq<u8>, w: seq<Frame>, o: Outcome)
    requires Call(kind, data, w, o)
    ensures FromTransfer(w, kind, data)
  {
    hide TransferFrame, Chunks;
    var fs := Transfer(kind, data);
    if !(o != Stalled && Written(w, fs, o)) {
      var w1, w2 :| TwoWrites(w, fs, w1, w2, o);
      WrittenFrames(kind, data, w1, Stalled);
      WrittenFrames(kind, data, w2, o);
    } else {
      WrittenFrames(kind, data, w, o);
    }
  }

  lemma WrittenFrames(kind: u8, data: seq<u8>, w: seq<Frame>, o: Outcome)
    requires Written(w, Transfer(kind, data), o)
    ensures FromTransfer(w, kind, data)
  {
    hide TransferFrame, Chunks;
  }

  // ----- what a lossy channel makes of it ------------------------------------

  /** The same deliveries, seen among frames that include the lost ABORT. */
  function SkipAbort(idx: seq<nat>, p: nat): (r: seq<nat>)
    ensures |r| == |idx|
    ensures forall i :: 0 <= i < |idx| ==> r[i] == if idx[i] < p then idx[i] else idx[i] + 1
  {
    seq(|idx|, i requires 0 <= i < |idx| => if idx[i] < p then idx[i] else idx[i] + 1)
  }

  lemma SkipsAbort<T>(fs: seq<T>, p: nat, abort: T, idx: seq<nat>)
    requires p <= |fs| && Picks(idx, p + |fs|)
    ensures Picks(SkipAbort(idx, p), p + 1 + |fs|)
    ensures Pick(fs[..p] + fs, idx) == Pick(fs[..p] + [abort] + fs, SkipAbort(idx, p))
  {
  }

  lemma {:induction false} NoEndNoComplete(s: Reasm, w: seq<Frame>, q: nat)
    requires NoEnd(w) && q < |w|
    ensures !ResultAt(s, w, q).Complete?
  {
    OnlyEndCompletes(Run(s, w[..q]), w[q]);
  }

  /** Whatever one call wrote and whatever part of it arrives at any idle
      receiver, only the payload itself can complete, provided it has at most
      65536 full chunks; and nothing completes when the send did not succeed. */
  lemma SendIsExact(s: Reasm, kind: u8, data: seq<u8>, w: seq<Frame>, o: Outcome, idx: seq<nat>, q: nat)
    requires Idle(s) && |data| < 65537 * MAX_PAYLOAD && Call(kind, data, w, o)
    requires Picks(idx, |w|) && q < |idx|
    ensures var r := ResultAt(s, Pick(w, idx), q);
      r.Complete? ==> o == Sent && r == Complete(kind, data)
  {
    hide Transfer, TransferFrame, Chunks, Step, Call, Run, ResultAt;
    if o != Sent {
      CallNoEnd(kind, data, w, o);
      NoEndNoComplete(s, Pick(w, idx), q);
    } else {
      CallSent(kind, data, w);
      if w == Transfer(kind, data) {
        LossIsNeverComplete(s, kind, data, idx, q);
      } else {
        var p: nat :| SecondAttempt(kind, data, w, p);
        AttemptIsExact(s, kind, data, w, p, idx, q);
      }
    }
  }

  lemma AttemptIsExact(s: Reasm, kind: u8, data: seq<u8>, w: seq<Frame>, p: nat, idx: seq<nat>, q: nat)
    requires Idle(s) && |data| < 65537 * MAX_PAYLOAD && SecondAttempt(kind, data, w, p)
    requires Picks(idx, |w|) && q < |idx|
    ensures var r := ResultAt(s, Pick(w, idx), q);
      r.Complete? ==> r == Complete(kind, data)
  {
    hide Transfer, TransferFrame, Chunks, Step, ResultAt, Run, Pick, SkipAbort, Picks;
    var idx' := idx;
    if w != Attempts(kind, data, p) {
      idx' := SkipAbort(idx, p);
      SkipsAbort(Transfer(kind, data), p, ABORT, idx);
    }
    SafeWhenShort(s, kind, data, p, idx', q);
  }

  lemma {:induction false} NoEndCompletesNothing(s: Reasm, w: seq<Frame>)
    requires NoEnd(w)
    ensures Completions(s, w) == []
  {
    hide Run, ResultAt;
    if w != [] {
      NoEndCompletesNothing(s, w[..|w| - 1]);
      NoEndNoComplete(s, w, |w| - 1);
    }
  }

  /** Only the last frame may be an END. */
  ghost predicate EndsOnce(w: seq<Frame>) {
    w != [] ==> NoEnd(w[..|w| - 1])
  }

  /** What a call writes holds at most one END, at its end. */
  lemma CallEndsOnce(kind: u8, data: seq<u8>, w: seq<Frame>, o: Outcome)
    requires Call(kind, data, w, o)
    ensures EndsOnce(w)
  {
    hide Transfer, TransferFrame, Chunks, Written;
    if o != Sent {
      CallNoEnd(kind, data, w, o);
    } else {
      var fs := Transfer(kind, data);
      TransferEndsOnce(kind, data);
      if !Written(w, fs, o) {
        var w1, w2 :| TwoWrites(w, fs, w1, w2, o);
        NoEndUnlessSent(kind, data, w1, Stalled);
        WrittenSent(w2, fs);
        assert w[..|w| - 1] == w1 + w2[..|w2| - 1];
      } else {
        WrittenSent(w, fs);
      }
    }
  }

  lemma WrittenSent(w: seq<Frame>, fs: seq<Frame>)
    requires Written(w, fs, Sent)
    ensures w == fs
  {
  }

  lemma TransferEndsOnce(kind: u8, data: seq<u8>)
    ensures EndsOnce(Transfer(kind, data))
  {
    hide TransferFrame, Chunks;
    forall i: nat | i < |Transfer(kind, data)| - 1
      ensures Transfer(kind, data)[i].Frame? && Transfer(kind, data)[i].t != T_END
    {
      TransferFrameIs(kind, data, i);
    }
  }

  lemma PickEndsOnce(w: seq<Frame>, idx: seq<nat>)
    requires EndsOnce(w) && Picks(idx, |w|)
    ensures EndsOnce(Pick(w, idx))
  {
    var got := Pick(w, idx);
    forall i | 0 <= i < |got| - 1 ensures got[i].Bad? || got[i].t != T_END {
      assert idx[i] < idx[|idx| - 1];
      assert w[..|w| - 1][idx[i]] == got[i];
    }
  }

  lemma EndsOnceCompletes(s: Reasm, w: seq<Frame>)
    requires EndsOnce(w)
    ensures Completions(s, w) == if w == [] then [] else Completed(ResultAt(s, w, |w| - 1))
  {
    hide Run, ResultAt;
    if w != [] {
      NoEndCompletesNothing(s, w[..|w| - 1]);
    }
  }

  /** Whatever part of one call arrives, and whatever the receiver was doing, at
      most one transfer completes, and only at its last frame. */
  lemma CallCompletesOnce(s: Reasm, kind: u8, data: seq<u8>, w: seq<Frame>, o: Outcome, idx: seq<nat>)
    requires Call(kind, data, w, o) && Picks(idx, |w|)
    ensures Completions(s, Pick(w, idx))
         == if idx == [] then [] else Completed(ResultAt(s, Pick(w, idx), |idx| - 1))
  {
    hide Call, Run, ResultAt, EndsOnce;
    CallEndsOnce(kind, data, w, o);
    PickEndsOnce(w, idx);
    EndsOnceCompletes(s, Pick(w, idx));
  }

  /** An idle receiver completes the payload once or nothing, and nothing when
      the send did not succeed. */
  lemma CallIsExact(s: Reasm, kind: u8, data: seq<u8>, w: seq<Frame>, o: Outcome, idx: seq<nat>)
    requires Idle(s) && |data| < 65537 * MAX_PAYLOAD && Call(kind, data, w, o) && Picks(idx, |w|)
    ensures Completions(s, Pick(w, idx)) in {[], [(kind, data)]}
    ensures o != Sent ==> Completions(s, Pick(w, idx)) == []
  {
    hide Call, Run, ResultAt;
    CallCompletesOnce(s, kind, data, w, o, idx);
    if idx != [] {
      SendIsExact(s, kind, data, w, o, idx, |idx| - 1);
    }
  }
}
