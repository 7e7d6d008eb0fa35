/** One call of the retrying sender over a queue that may overflow, as interleaved
    steps: the windowed attempts, the stall with its ABORT, the pause, the retry,
    and a connection that can be lost at any write
    (linux/input-router/src/clipboard.rs, windows/clipboard-agent/src/main.rs). */
module FlowCall {
  import opened Bytes
  import opened ClipFrame
  import opened ClipTransfer
  import opened ClipRetry
  import opened ClipSender
  import opened FlowControl

  /** Over: both attempts were given up, or the connection is gone. */
  datatype Phase = First | Pause | Second | Over

  datatype Calling = Calling(net: Net, phase: Phase)

  // ----- steps -----------------------------------------------------------

  predicate Sending(c: Calling) { c.phase == First || c.phase == Second }

  /** DATA is due and the window is closed. */
  predicate CanStall(j: Job, c: Calling) {
    Sending(c) && c.net.next < j.N() + 2 && !CanWrite(j, c.net)
  }

  /** Giving an attempt up; the ABORT itself may fail to go out. */
  function Stall(j: Job, c: Calling, aborted: bool): Calling {
    Calling(if aborted then c.net.(queue := Enqueue(c.net.queue, ABORT, j.cap)) else c.net,
            if c.phase == First then Pause else Over)
  }

  /** The retry starts over, and resets the count. */
  function Resume(c: Calling): Calling {
    Calling(c.net.(next := 0, acked := 0), Second)
  }

  ghost predicate CallStep(j: Job, c: Calling, c': Calling) {
    || (Sending(c) && CanWrite(j, c.net) && c' == c.(net := Write(j, c.net)))
    || (Sending(c) && CanWrite(j, c.net) && c' == c.(phase := Over))
    || (CanStall(j, c) && exists aborted :: c' == Stall(j, c, aborted))
    || (c.phase == Pause && c' == Resume(c))
    || (c.net.queue != [] && c' == c.(net := Deliver(c.net)))
    || (c.net.acks != [] && c' == c.(net := TakeAck(c.net)))
  }

  ghost predicate IsCallRun(j: Job, left: seq<Frame>, stale: seq<u32>, run: seq<Calling>) {
    && |run| > 0 && Initial(run[0].net, left, stale) && run[0].phase == First
    && forall i :: 0 <= i < |run| - 1 ==> CallStep(j, run[i], run[i + 1])
  }

  // ----- what has been written, read and dropped --------------------------------

  /** Positions below n: those of left are the last, those of got come before them. */
  ghost predicate Ordered(got: seq<nat>, left: seq<nat>, n: nat) {
    && Picks(got, n) && Picks(left, n) && |left| <= n
    && (forall i, k :: 0 <= i < |got| && 0 <= k < |left| ==> got[i] < left[k])
    && (forall k :: 0 <= k < |left| ==> left[k] == n - |left| + k)
  }

  /** Of the frames w written so far, the receiver has read those at got and those
      at left are in the queue; the others were dropped. */
  ghost predicate Reads(r0: Reasm, w: seq<Frame>, s: Net, got: seq<nat>, left: seq<nat>) {
    && Ordered(got, left, |w|)
    && s.recv == Run(r0, Pick(w, got)) && s.queue == Pick(w, left)
    && s.completed == Completions(r0, Pick(w, got))
  }

  /** What is left after a write, by whether the queue is full. */
  function LeftAfter(left: seq<nat>, cap: nat, m: nat): seq<nat> {
    (if |left| >= cap && left != [] then left[1..] else left) + [m]
  }

  lemma OrderedWrite(got: seq<nat>, left: seq<nat>, cap: nat, m: nat)
    requires Ordered(got, left, m)
    ensures Ordered(got, LeftAfter(left, cap, m), m + 1)
  {
  }

  lemma PickMore<T>(w: seq<T>, f: T, idx: seq<nat>)
    requires forall i :: 0 <= i < |idx| ==> idx[i] < |w|
    ensures Pick(w + [f], idx) == Pick(w, idx)
  {
  }

  lemma EnqueuePick(w: seq<Frame>, left: seq<nat>, f: Frame, cap: nat)
    requires Ordered([], left, |w|) && Ordered([], LeftAfter(left, cap, |w|), |w| + 1)
    ensures Enqueue(Pick(w, left), f, cap) == Pick(w + [f], LeftAfter(left, cap, |w|))
  {
    hide Pick;
    PickMore(w, f, left);
    if |left| >= cap && left != [] {
      PickTail(w + [f], left);
      PickPush(w + [f], left[1..], |w|);
    } else {
      PickPush(w + [f], left, |w|);
    }
  }

  lemma EnqueueReads(r0: Reasm, w: seq<Frame>, s: Net, got: seq<nat>, left: seq<nat>, f: Frame, cap: nat)
    requires Reads(r0, w, s, got, left)
    ensures Reads(r0, w + [f], s.(queue := Enqueue(s.queue, f, cap)), got, LeftAfter(left, cap, |w|))
  {
    hide Run, Completions, Enqueue, LeftAfter, Pick;
    OrderedWrite(got, left, cap, |w|);
    assert Ordered([], left, |w|) && Ordered([], LeftAfter(left, cap, |w|), |w| + 1);
    PickMore(w, f, got);
    EnqueuePick(w, left, f, cap);
  }

  lemma OrderedDeliver(got: seq<nat>, left: seq<nat>, n: nat)
    requires Ordered(got, left, n) && left != []
    ensures Ordered(got + [left[0]], left[1..], n)
  {
  }

  lemma DeliverReads(r0: Reasm, w: seq<Frame>, s: Net, got: seq<nat>, left: seq<nat>)
    requires Reads(r0, w, s, got, left) && s.queue != []
    ensures left != [] && Reads(r0, w, Deliver(s), got + [left[0]], left[1..])
  {
    hide Step, Run, Completions;
    OrderedDeliver(got, left, |w|);
    PickPush(w, got, left[0]);
    PickTail(w, left);
    RunAppend(r0, Pick(w, got), w[left[0]]);
    CompletionsAppend(r0, Pick(w, got), w[left[0]]);
  }

  /** What has been written, by phase; first is the attempt given up. */
  ghost predicate Wrote(j: Job, c: Calling, first: seq<Frame>, w: seq<Frame>) {
    && c.net.next <= j.N() + 2
    && match c.phase
       case First => first == [] && w == j.Frames()[..c.net.next]
       case Pause => Written(first, j.Frames(), Stalled) && w == first
       case Second => Written(first, j.Frames(), Stalled) && w == first + j.Frames()[..c.net.next]
       case Over => exists o :: o != Sent && Call(j.kind, j.data, w, o)
  }

  /** An attempt under way is one that is complete, or that may yet be lost. */
  lemma WroteAttempt(j: Job, next: nat)
    requires next <= j.N() + 2
    ensures Written(j.Frames()[..next], j.Frames(), if next == j.N() + 2 then Sent else Lost)
  {
    hide Chunks, Transfer;
    if next < j.N() + 2 {
      assert CutAt(j.Frames()[..next], j.Frames(), next);
    }
  }

  lemma OneAttempt(j: Job, w: seq<Frame>, o: Outcome)
    requires o != Stalled && Written(w, j.Frames(), o)
    ensures Call(j.kind, j.data, w, o)
  {
    hide Transfer, Chunks, Written;
  }

  lemma TwoAttempts(j: Job, first: seq<Frame>, second: seq<Frame>, o: Outcome)
    requires Written(first, j.Frames(), Stalled) && Written(second, j.Frames(), o)
    ensures Call(j.kind, j.data, first + second, o)
  {
    hide Transfer, Chunks, Written;
    assert TwoWrites(first + second, j.Frames(), first, second, o);
  }

  /** Whatever is written so far is what a call can have written. */
  lemma WroteCall(j: Job, c: Calling, first: seq<Frame>, w: seq<Frame>) returns (o: Outcome)
    requires Wrote(j, c, first, w)
    ensures Call(j.kind, j.data, w, o)
    ensures o == Sent ==> Sending(c) && c.net.next == j.N() + 2
  {
    hide Chunks, Transfer, Written, Call;
    var next, fs := c.net.next, j.Frames();
    match c.phase {
      case First =>
        WroteAttempt(j, next);
        o := if next == j.N() + 2 then Sent else Lost;
        OneAttempt(j, w, o);
      case Pause =>
        WroteAttempt(j, 0);
        o := Lost;
        assert first + fs[..0] == first;
        TwoAttempts(j, first, fs[..0], o);
      case Second =>
        WroteAttempt(j, next);
        o := if next == j.N() + 2 then Sent else Lost;
        TwoAttempts(j, first, fs[..next], o);
      case Over =>
        o :| o != Sent && Call(j.kind, j.data, w, o);
    }
  }

  /** A stall needs the window to be closed, which takes 256 DATA frames. */
  lemma StallWritten(j: Job, c: Calling, aborted: bool)
    requires CanStall(j, c)
    ensures Written(j.Frames()[..c.net.next] + (if aborted then [ABORT] else []), j.Frames(), Stalled)
  {
    hide Chunks, Transfer;
    var w := j.Frames()[..c.net.next] + if aborted then [ABORT] else [];
    assert StalledAt(w, j.Frames(), c.net.next);
  }

  lemma WriteWrote(j: Job, c: Calling, first: seq<Frame>, w: seq<Frame>)
    requires Wrote(j, c, first, w) && Sending(c) && CanWrite(j, c.net)
    ensures Wrote(j, c.(net := Write(j, c.net)), first, w + [j.Frames()[c.net.next]])
  {
    hide Chunks, Transfer, Written, Call, Enqueue;
    OneMore(first, j.Frames(), c.net.next);
  }

  lemma OneMore(first: seq<Frame>, fs: seq<Frame>, n: nat)
    requires n < |fs|
    ensures fs[..n + 1] == fs[..n] + [fs[n]]
    ensures first + fs[..n + 1] == first + fs[..n] + [fs[n]]
  {
  }

  lemma LoseWrote(j: Job, c: Calling, first: seq<Frame>, w: seq<Frame>)
    requires Wrote(j, c, first, w) && Sending(c) && CanWrite(j, c.net)
    ensures Wrote(j, c.(phase := Over), first, w)
  {
    hide Chunks, Transfer, Written, Call;
    var o := WroteCall(j, c, first, w);
  }

  lemma StallWrote(j: Job, c: Calling, first: seq<Frame>, w: seq<Frame>, aborted: bool)
    requires Wrote(j, c, first, w) && CanStall(j, c)
    ensures var w' := w + if aborted then [ABORT] else [];
      Wrote(j, Stall(j, c, aborted), if c.phase == First then w' else first, w')
  {
    hide Chunks, Transfer, Written;
    StallWritten(j, c, aborted);
    var fs, tail := j.Frames()[..c.net.next], if aborted then [ABORT] else [];
    if c.phase == Second {
      assert first + fs + tail == first + (fs + tail);
      assert TwoWrites(w + tail, j.Frames(), first, fs + tail, Stalled);
      assert Call(j.kind, j.data, w + tail, Stalled);
    }
  }

  lemma ResumeWrote(j: Job, c: Calling, first: seq<Frame>, w: seq<Frame>)
    requires Wrote(j, c, first, w) && c.phase == Pause
    ensures Wrote(j, Resume(c), first, w)
  {
    hide Chunks, Transfer, Written, Call;
    assert first + j.Frames()[..0] == first;
  }

  /** Everything a run has done so far. */
  datatype Past = Past(first: seq<Frame>, w: seq<Frame>, got: seq<nat>, left: seq<nat>)

  ghost predicate Explains(j: Job, r0: Reasm, c: Calling, p: Past) {
    Wrote(j, c, p.first, p.w) && Reads(r0, p.w, c.net, p.got, p.left)
  }

  lemma StallExplained(j: Job, r0: Reasm, c: Calling, p: Past, aborted: bool) returns (p': Past)
    requires Explains(j, r0, c, p) && CanStall(j, c)
    ensures Explains(j, r0, Stall(j, c, aborted), p')
  {
    hide Wrote, Reads, CanStall;
    StallWrote(j, c, p.first, p.w, aborted);
    EnqueueReads(r0, p.w, c.net, p.got, p.left, ABORT, j.cap);
    var w := p.w + if aborted then [ABORT] else [];
    assert p.w + [] == p.w;
    p' := Past(if c.phase == First then w else p.first, w, p.got,
               if aborted then LeftAfter(p.left, j.cap, |p.w|) else p.left);
  }

  lemma WroteSame(j: Job, c: Calling, c': Calling, first: seq<Frame>, w: seq<Frame>)
    requires Wrote(j, c, first, w) && c'.phase == c.phase && c'.net.next == c.net.next
    ensures Wrote(j, c', first, w)
  {
    hide Chunks, Transfer, Written, Call;
  }

  lemma ReadsSame(r0: Reasm, w: seq<Frame>, s: Net, s': Net, got: seq<nat>, left: seq<nat>)
    requires Reads(r0, w, s, got, left)
    requires s'.recv == s.recv && s'.queue == s.queue && s'.completed == s.completed
    ensures Reads(r0, w, s', got, left)
  {
  }

  lemma WriteExplained(j: Job, r0: Reasm, c: Calling, p: Past) returns (p': Past)
    requires Explains(j, r0, c, p) && Sending(c) && CanWrite(j, c.net)
    ensures Explains(j, r0, c.(net := Write(j, c.net)), p')
  {
    hide Wrote, Reads, Chunks, Transfer;
    var f := j.Frames()[c.net.next];
    WriteWrote(j, c, p.first, p.w);
    EnqueueReads(r0, p.w, c.net, p.got, p.left, f, j.cap);
    p' := p.(w := p.w + [f], left := LeftAfter(p.left, j.cap, |p.w|));
    ReadsSame(r0, p'.w, c.net.(queue := Enqueue(c.net.queue, f, j.cap)), Write(j, c.net), p'.got, p'.left);
  }

  lemma ReceiverExplained(j: Job, r0: Reasm, c: Calling, p: Past) returns (p': Past)
    requires Explains(j, r0, c, p) && c.net.queue != []
    ensures Explains(j, r0, c.(net := Deliver(c.net)), p')
  {
    hide Wrote, Reads, Step;
    DeliverReads(r0, p.w, c.net, p.got, p.left);
    WroteSame(j, c, c.(net := Deliver(c.net)), p.first, p.w);
    p' := p.(got := p.got + [p.left[0]], left := p.left[1..]);
  }

  lemma StepExplained(j: Job, r0: Reasm, c: Calling, c': Calling, p: Past) returns (p': Past)
    requires Explains(j, r0, c, p) && CallStep(j, c, c')
    ensures Explains(j, r0, c', p')
  {
    hide Sending, CanStall, CanWrite, Deliver, Write, Stall, Wrote, Reads;
    p' := p;
    if Sending(c) && CanWrite(j, c.net) && c' == c.(net := Write(j, c.net)) {
      p' := WriteExplained(j, r0, c, p);
    } else if Sending(c) && CanWrite(j, c.net) && c' == c.(phase := Over) {
      LoseWrote(j, c, p.first, p.w);
    } else if CanStall(j, c) && exists aborted :: c' == Stall(j, c, aborted) {
      var aborted :| c' == Stall(j, c, aborted);
      p' := StallExplained(j, r0, c, p, aborted);
    } else if c.phase == Pause && c' == Resume(c) {
      ResumeWrote(j, c, p.first, p.w);
      ReadsSame(r0, p.w, c.net, c'.net, p.got, p.left);
    } else if c.net.queue != [] && c' == c.(net := Deliver(c.net)) {
      p' := ReceiverExplained(j, r0, c, p);
    } else {
      WroteSame(j, c, c', p.first, p.w);
      ReadsSame(r0, p.w, c.net, c'.net, p.got, p.left);
    }
  }

  lemma {:induction false} RunExplained(j: Job, stale: seq<u32>, run: seq<Calling>, i: nat) returns (p: Past)
    requires IsCallRun(j, [], stale, run) && i < |run|
    ensures Explains(j, run[0].net.recv, run[i], p)
  {
    hide Explains, CallStep;
    if i == 0 {
      p := Past([], [], [], []);
      NothingYet(j, stale, run[0]);
    } else {
      p := RunExplained(j, stale, run, i - 1);
      p := StepExplained(j, run[0].net.recv, run[i - 1], run[i], p);
    }
  }

  lemma NothingYet(j: Job, stale: seq<u32>, c: Calling)
    requires Initial(c.net, [], stale) && c.phase == First
    ensures Explains(j, c.net.recv, c, Past([], [], [], []))
  {
    hide Chunks, Transfer;
    assert Pick<Frame>([], []) == [] && j.Frames()[..0] == [];
  }

  // ----- the theorems -------------------------------------------------------

  /** However small the queue, whatever it drops, whatever ACKs are left over, and
      whether attempts stall, are aborted and retried or the connection is lost:
      in every run an idle receiver completes the payload at most once and nothing
      else, and nothing at all unless all of an attempt was written. */
  lemma EveryCallIsExact(j: Job, stale: seq<u32>, run: seq<Calling>, i: nat)
    requires IsCallRun(j, [], stale, run) && i < |run|
    requires Idle(run[0].net.recv) && |j.data| < 65537 * MAX_PAYLOAD
    ensures run[i].net.completed == [] || run[i].net.completed == [(j.kind, j.data)]
    ensures run[i].net.completed != [] ==> Sending(run[i]) && run[i].net.next == j.N() + 2
  {
    hide IsCallRun, Run, Chunks, Transfer, Call, Wrote, Completions;
    var p := RunExplained(j, stale, run, i);
    var o := WroteCall(j, run[i], p.first, p.w);
    CallIsExact(run[0].net.recv, j.kind, j.data, p.w, o, p.got);
  }

  /** What is unread is the newest of what one call has written: a full queue drops
      the oldest report and no other, and never holds more than fit. */
  lemma QueueKeepsNewest(j: Job, stale: seq<u32>, run: seq<Calling>, i: nat)
    requires IsCallRun(j, [], stale, run) && i < |run| && j.cap >= 1
    ensures |run[i].net.queue| <= j.cap
    ensures exists w, o ::
      Call(j.kind, j.data, w, o) && |run[i].net.queue| <= |w| && run[i].net.queue == w[|w| - |run[i].net.queue|..]
  {
    hide IsCallRun, Run, Chunks, Transfer, Call, Wrote, Completions;
    var p := RunExplained(j, stale, run, i);
    var o := WroteCall(j, run[i], p.first, p.w);
    var q := run[i].net.queue;
    assert q == p.w[|p.w| - |q|..];
    assert Call(j.kind, j.data, p.w, o);
    QueueFits(j, stale, run, i);
  }

  lemma {:induction false} QueueFits(j: Job, stale: seq<u32>, run: seq<Calling>, i: nat)
    requires IsCallRun(j, [], stale, run) && i < |run| && j.cap >= 1
    ensures |run[i].net.queue| <= j.cap
  {
    hide Step, Chunks, Transfer;
    if i > 0 {
      QueueFits(j, stale, run, i - 1);
      assert CallStep(j, run[i - 1], run[i]);
    }
  }

  /** While no attempt stalls, payloads of every length are safe. */
  lemma AnyQueueIsExact(j: Job, stale: seq<u32>, run: seq<Net>, i: nat)
    requires IsRun(j, [], stale, run) && i < |run| && Idle(run[0].recv) && |j.data| < 0x1_0000_0000
    ensures run[i].completed == [] || run[i].completed == [(j.kind, j.data)]
  {
    hide Run, Chunks, Transfer, Next, ResultAt, Completions, Call;
    var calls := seq(|run|, k requires 0 <= k < |run| => Calling(run[k], First));
    forall k | 0 <= k < |calls| - 1 ensures CallStep(j, calls[k], calls[k + 1]) {
      NextIsCallStep(j, run[k], run[k + 1], First);
    }
    var p := RunExplained(j, stale, calls, i);
    var r0, fs, next := run[0].recv, j.Frames(), run[i].next;
    var o := WroteCall(j, calls[i], p.first, p.w);
    CallCompletesOnce(r0, j.kind, j.data, p.w, o, p.got);
    assert fs == fs[..next] + fs[next..];
    PickBefore(fs[..next], fs[next..], p.got);
    if p.got != [] {
      LossIsNeverComplete(r0, j.kind, j.data, p.got, |p.got| - 1);
    }
  }

  lemma NextIsCallStep(j: Job, s: Net, s': Net, phase: Phase)
    requires Next(j, s, s') && (phase == First || phase == Second)
    ensures CallStep(j, Calling(s, phase), Calling(s', phase))
  {
    hide Write, Deliver, CanWrite;
  }

  /** What is left to do: a later phase always has less of it. */
  function CallMeasure(j: Job, c: Calling): int {
    var attempt := 3 * (j.N() + 2);
    Measure(j, c.net) + match c.phase
                        case First => attempt + 7
                        case Pause => attempt + 4
                        case Second => 3
                        case Over => 0
  }

  lemma CallStepConsumes(j: Job, c: Calling, c': Calling)
    requires CallStep(j, c, c') && c.net.next <= j.N() + 2
    ensures CallMeasure(j, c') < CallMeasure(j, c) && c'.net.next <= j.N() + 2
  {
    hide Step, Chunks;
    if c.net.queue != [] && c' == c.(net := Deliver(c.net)) {
      StepConsumes(j, c.net, c'.net);
    }
  }

  /** Every run of a call ends, within six steps a frame and a few, and it can only
      end with an attempt written whole, both given up, or the connection lost. */
  lemma {:induction false} EveryCallEnds(j: Job, left: seq<Frame>, stale: seq<u32>, run: seq<Calling>)
    requires IsCallRun(j, left, stale, run)
    ensures var c := run[|run| - 1];
      && c.net.next <= j.N() + 2
      && 0 <= CallMeasure(j, c) && |run| + CallMeasure(j, c) <= 6 * (j.N() + 2) + 2 * |left| + |stale| + 8
    ensures var c := run[|run| - 1];
      (forall c' :: !CallStep(j, c, c')) ==> c.phase == Over || (Sending(c) && c.net.next == j.N() + 2)
    decreases |run|
  {
    hide Chunks, Write, Deliver, TakeAck;
    var m := |run| - 1;
    var c := run[m];
    if m > 0 {
      assert IsCallRun(j, left, stale, run[..m]);
      EveryCallEnds(j, left, stale, run[..m]);
      assert CallStep(j, run[m - 1], c);
      CallStepConsumes(j, run[m - 1], c);
    }
    if c.phase != Over && !(Sending(c) && c.net.next == j.N() + 2) {
      Undecided(j, c);
    }
  }

  lemma Undecided(j: Job, c: Calling)
    requires c.net.next <= j.N() + 2 && c.phase != Over && !(Sending(c) && c.net.next == j.N() + 2)
    ensures exists c' :: CallStep(j, c, c')
  {
    hide Chunks, Write;
    if c.phase == Pause {
      assert CallStep(j, c, Resume(c));
    } else if CanWrite(j, c.net) {
      assert CallStep(j, c, c.(phase := Over));
    } else {
      assert CallStep(j, c, Stall(j, c, false));
    }
  }

  // ----- the retry behind a stalled attempt ---------------------------------------

  /** The first attempt up to its stall, and n frames of the retry, none read. */
  function Unread(j: Job, n: nat): seq<Frame>
    requires j.N() > ACK_WINDOW && n <= ACK_WINDOW + 1
  {
    j.Frames()[..ACK_WINDOW + 1] + [ABORT] + j.Frames()[..n]
  }

  lemma UnreadData(j: Job, n: nat)
    requires j.N() > ACK_WINDOW && 1 <= n <= ACK_WINDOW + 1
    ensures DataIn(Unread(j, n)) == ACK_WINDOW + n - 1
  {
    hide Chunks, Transfer, DataIn;
    var fs, m := j.Frames(), ACK_WINDOW + 1;
    DataInFlight(j, 0, m);
    DataInFlight(j, 0, n);
    assert fs[..m] == fs[0..m] && fs[..n] == fs[0..n];
    DataInAppend(fs[..m], ABORT);
    DataInConcat(fs[..m] + [ABORT], fs[..n]);
  }

  function AsCall(run: seq<Net>, phase: Phase): (calls: seq<Calling>)
    ensures |calls| == |run| && forall i :: 0 <= i < |run| ==> calls[i] == Calling(run[i], phase)
  {
    seq(|run|, i requires 0 <= i < |run| => Calling(run[i], phase))
  }

  /** The window closes on a receiver that reads nothing, and the attempt is
      aborted. */
  lemma StallsUnread(j: Job, s: Net)
    requires s == Net(0, 0, [], FRESH, [], []) && j.N() > ACK_WINDOW && j.cap >= ACK_WINDOW + 2
    ensures var c := Calling(Ahead(j, s, ACK_WINDOW + 1), First);
      && CanStall(j, c)
      && Resume(Stall(j, c, true)) == Calling(s.(queue := j.Frames()[..ACK_WINDOW + 1] + [ABORT]), Second)
  {
    hide Chunks, Transfer;
    assert s.queue + j.Frames()[0..ACK_WINDOW + 1] == j.Frames()[..ACK_WINDOW + 1];
  }

  /** A receiver that reads nothing until the retry is under way: START, 256 DATA
      and the ABORT of the attempt that stalled, then n frames of the retry. */
  lemma StalledRun(j: Job, n: nat) returns (run: seq<Calling>)
    requires j.N() > ACK_WINDOW && n <= ACK_WINDOW + 1 && j.cap >= ACK_WINDOW + 2 + n
    ensures IsCallRun(j, [], [], run)
    ensures var c := run[|run| - 1];
      c.phase == Second && c.net.next == n && c.net.acked == 0 && c.net.queue == Unread(j, n)
  {
    hide Chunks, Transfer, DataIn, Ahead, Write, CanWrite, Deliver, CallStep, Next, Stall;
    var s, m := Net(0, 0, [], FRESH, [], []), ACK_WINDOW + 1;
    var s2 := s.(queue := j.Frames()[..m] + [ABORT]);
    AheadRun(j, [], [], s, m);
    AheadRun(j, s2.queue, [], s2, n);
    AheadNone(j, s);
    AheadNone(j, s2);
    StallsUnread(j, s);
    var stuck := Calling(Ahead(j, s, m), First);
    var pausing := Stall(j, stuck, true);
    run := AsCall(Aheads(j, s, m), First) + [pausing] + AsCall(Aheads(j, s2, n), Second);
    StallSteps(j, stuck);
    forall i | 0 <= i < |run| - 1 ensures CallStep(j, run[i], run[i + 1]) {
      if i < m {
        NextIsCallStep(j, Aheads(j, s, m)[i], Aheads(j, s, m)[i + 1], First);
      } else if i > m + 1 {
        var k := i - m - 2;
        NextIsCallStep(j, Aheads(j, s2, n)[k], Aheads(j, s2, n)[k + 1], Second);
      }
    }
    AheadQueue(j, s2, n);
  }

  lemma StallSteps(j: Job, c: Calling)
    requires CanStall(j, c) && c.phase == First
    ensures CallStep(j, c, Stall(j, c, true)) && CallStep(j, Stall(j, c, true), Resume(Stall(j, c, true)))
  {
    hide CanStall, Enqueue;
  }

  lemma AheadQueue(j: Job, s: Net, n: nat)
    requires s.next == 0 && n <= j.N() + 2
    ensures Ahead(j, s, n).queue == s.queue + j.Frames()[..n]
    ensures Ahead(j, s, n).next == n && Ahead(j, s, n).acked == s.acked
  {
  }

  /** One call alone, on an empty channel, can fill the queue with 515 reports, 512
      of them DATA, and overflows every smaller queue: the single retry does not
      count what the attempt that stalled has left unread. */
  lemma RetryOverflows(j: Job) returns (run: seq<Calling>)
    requires j.N() > ACK_WINDOW && j.cap >= ACK_WINDOW + 2
    ensures IsCallRun(j, [], [], run)
    ensures var s := run[|run| - 1].net;
      if j.cap >= 2 * ACK_WINDOW + 3 then |s.queue| == 2 * ACK_WINDOW + 3 && DataIn(s.queue) == 2 * ACK_WINDOW
      else |s.queue| == j.cap && Sending(run[|run| - 1]) && CanWrite(j, s)
  {
    hide Chunks, Transfer, DataIn, IsCallRun;
    var n := if j.cap >= 2 * ACK_WINDOW + 3 then ACK_WINDOW + 1 else j.cap - ACK_WINDOW - 2;
    run := StalledRun(j, n);
    if n > 0 {
      UnreadData(j, n);
    }
  }
}
