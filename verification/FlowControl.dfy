/** One transfer through the windowed sender, the drop-oldest report queue, the
    receiver and the ACK channel, as interleaved steps
    (linux/input-router/src/clipboard.rs, windows/clipboard-agent/src/main.rs). */
module FlowControl {
  import opened Bytes
  import opened ClipFrame
  import opened ClipTransfer

  /** next: frames written; acked: the count last stored by the ACK reader;
      queue: reports not yet read; acks: ACK counts not yet read. */
  datatype Net = Net(
    next: nat, acked: u32, queue: seq<Frame>, recv: Reasm, acks: seq<u32>,
    completed: seq<(u8, seq<u8>)>)

  /** A payload under transfer over a queue of a given capacity. */
  datatype Job = Job(kind: u8, data: seq<u8>, cap: nat) {
    function N(): nat { Chunks(|data|) }
    function Frames(): seq<Frame> { Transfer(kind, data) }

    /** The most reports of this transfer that are unread at a time. */
    function Room(): nat { if N() <= ACK_WINDOW then N() + 2 else ACK_WINDOW + 1 }

    /** There is room for the transfer behind n reports. */
    ghost predicate Fits(n: nat) { |data| <= MAX_TRANSFER && cap >= n + Room() }
  }

  /** DATA frames among the first k frames of a transfer of n DATA frames. */
  function DataAmong(n: nat, k: nat): nat {
    if k == 0 then 0 else if k <= n + 1 then k - 1 else n
  }

  function DataIn(q: seq<Frame>): nat {
    if q == [] then 0
    else DataIn(q[..|q| - 1]) + if q[|q| - 1].Frame? && q[|q| - 1].t == T_DATA then 1 else 0
  }

  // ----- steps -----------------------------------------------------------

  /** DATA frames wait until fewer than ACK_WINDOW are unacknowledged. */
  predicate CanWrite(j: Job, s: Net) {
    && s.next < j.N() + 2
    && (1 <= s.next <= j.N() ==> s.next - 1 < s.acked + ACK_WINDOW)
  }

  function Enqueue(q: seq<Frame>, f: Frame, cap: nat): seq<Frame> {
    (if |q| >= cap && q != [] then q[1..] else q) + [f]
  }

  function Write(j: Job, s: Net): Net
    requires CanWrite(j, s)
  {
    s.(next := s.next + 1, queue := Enqueue(s.queue, j.Frames()[s.next], j.cap))
  }

  function Deliver(s: Net): Net
    requires s.queue != []
  {
    var (recv, r) := Step(s.recv, s.queue[0]);
    s.(queue := s.queue[1..], recv := recv,
       acks := s.acks + if r.Progress? && r.count % ACK_EVERY == 0 then [r.count] else [],
       completed := s.completed + Completed(r))
  }

  function TakeAck(s: Net): Net
    requires s.acks != []
  {
    s.(acked := s.acks[0], acks := s.acks[1..])
  }

  ghost predicate Next(j: Job, s: Net, s': Net) {
    || (CanWrite(j, s) && s' == Write(j, s))
    || (s.queue != [] && s' == Deliver(s))
    || (s.acks != [] && s' == TakeAck(s))
  }

  /** Nothing of this transfer sent yet and the window reset. The receiver may be
      in any state, and earlier transfers may have left reports in the queue and
      ACKs on their way. */
  ghost predicate Initial(s: Net, left: seq<Frame>, stale: seq<u32>) {
    s.next == 0 && s.acked == 0 && s.queue == left && s.acks == stale && s.completed == []
  }

  ghost predicate IsRun(j: Job, left: seq<Frame>, stale: seq<u32>, run: seq<Net>) {
    && |run| > 0 && Initial(run[0], left, stale)
    && forall i :: 0 <= i < |run| - 1 ==> Next(j, run[i], run[i + 1])
  }

  predicate Stuck(j: Job, s: Net) {
    !CanWrite(j, s) && s.queue == [] && s.acks == []
  }

  // ----- the invariant ------------------------------------------------------

  /** Frames of this transfer read so far. */
  function Read(s: Net): int { s.next - |s.queue| }

  /** What the receiver holds after r frames; before is what completed earlier. */
  ghost predicate ReceiverAt(j: Job, before: seq<(u8, seq<u8>)>, s: Net, r: nat) {
    if r == 0 then s.completed == before
    else if r <= j.N() + 1 then
      && s.completed == before && |j.data| <= MAX_TRANSFER
      && s.recv == Reasm(Some(InProgress(j.kind, |j.data|, Wrap16(r - 1), j.data[..ChunkEnd(|j.data|, r - 1)])), r - 1)
    else s.recv.active == None && s.completed == before + [(j.kind, j.data)]
  }

  /** The ACK counts in flight continue the last one taken in steps of
      ACK_EVERY, up to the DATA frames read. */
  ghost predicate AcksInOrder(acked: nat, acks: seq<u32>, got: nat) {
    && (forall i :: 0 <= i < |acks| ==> acks[i] == acked + 128 * (i + 1))
    && acked + 128 * |acks| <= got < acked + 128 * |acks| + 128
    && acked % 128 == 0
  }

  lemma AcksAdvance(acked: nat, acks: seq<u32>, r: u32)
    requires r >= 1 && AcksInOrder(acked, acks, r - 1)
    ensures AcksInOrder(acked, acks + if r % ACK_EVERY == 0 then [r] else [], r)
  {
  }

  /** Once everything left over has been read. */
  ghost predicate Inv(j: Job, before: seq<(u8, seq<u8>)>, s: Net) {
    && s.next <= j.N() + 2 && |s.queue| <= s.next
    && s.queue == j.Frames()[Read(s)..s.next]
    && ReceiverAt(j, before, s, Read(s))
    && AcksInOrder(s.acked, s.acks, DataAmong(j.N(), Read(s)))
    && DataAmong(j.N(), s.next) <= s.acked + ACK_WINDOW
  }

  /** While the first d of the left-over reports have been read. */
  ghost predicate Draining(j: Job, r0: Reasm, left: seq<Frame>, s: Net, d: nat) {
    && d < |left| && s.next <= j.N() + 2
    && s.queue == left[d..] + j.Frames()[..s.next]
    && s.recv == Run(r0, left[..d]) && s.completed == Completions(r0, left[..d])
    && s.acked == 0 && s.acks == [] && DataAmong(j.N(), s.next) <= ACK_WINDOW
  }

  ghost predicate InvFrom(j: Job, r0: Reasm, left: seq<Frame>, s: Net) {
    (exists d: nat :: Draining(j, r0, left, s, d)) || Inv(j, Completions(r0, left), s)
  }

  lemma QueueBound(j: Job, before: seq<(u8, seq<u8>)>, s: Net)
    requires Inv(j, before, s)
    ensures |s.queue| <= j.Room()
    ensures CanWrite(j, s) ==> |s.queue| < j.Room()
  {
    hide Chunks;
  }

  lemma DrainingBound(j: Job, r0: Reasm, left: seq<Frame>, s: Net, d: nat)
    requires Draining(j, r0, left, s, d)
    ensures |s.queue| <= |left| + j.Room()
    ensures CanWrite(j, s) ==> |s.queue| < |left| + j.Room()
  {
    hide Chunks, Run, Completions;
  }

  lemma DataInAppend(q: seq<Frame>, f: Frame)
    ensures DataIn(q + [f]) == DataIn(q) + if f.Frame? && f.t == T_DATA then 1 else 0
  {
    assert (q + [f])[..|q|] == q;
  }

  lemma {:induction false} DataInConcat(q: seq<Frame>, r: seq<Frame>)
    ensures DataIn(q + r) == DataIn(q) + DataIn(r)
  {
    if r == [] {
      assert q + r == q;
    } else {
      var n := |r| - 1;
      DataInConcat(q, r[..n]);
      assert q + r == q + r[..n] + [r[n]];
      DataInAppend(q + r[..n], r[n]);
    }
  }

  lemma {:induction false} DataInFlight(j: Job, r: nat, k: nat)
    requires r <= k <= j.N() + 2
    ensures DataIn(j.Frames()[r..k]) == DataAmong(j.N(), k) - DataAmong(j.N(), r)
    decreases k
  {
    hide TransferFrame, Chunks, DataIn, Transfer;
    var fs := j.Frames();
    if r < k {
      DataInFlight(j, r, k - 1);
      assert fs[r..k] == fs[r..k - 1] + [fs[k - 1]];
      DataInAppend(fs[r..k - 1], fs[k - 1]);
      TransferFrameIs(j.kind, j.data, k - 1);
    } else {
      assert fs[r..k] == [];
      NoDataIn();
    }
  }

  lemma NoDataIn()
    ensures DataIn([]) == 0
  {
  }

  lemma WriteKeeps(j: Job, before: seq<(u8, seq<u8>)>, s: Net)
    requires j.Fits(0) && Inv(j, before, s) && CanWrite(j, s)
    ensures Inv(j, before, Write(j, s))
  {
    hide Transfer, Chunks, ChunkEnd, Wrap16, AcksInOrder;
    QueueBound(j, before, s);
    var r := Read(s);
    assert j.Frames()[r..s.next + 1] == j.Frames()[r..s.next] + [j.Frames()[s.next]];
  }

  lemma TakeAckKeeps(j: Job, before: seq<(u8, seq<u8>)>, s: Net)
    requires Inv(j, before, s) && s.acks != []
    ensures Inv(j, before, TakeAck(s))
  {
    hide Transfer, Chunks, ChunkEnd, Wrap16;
    assert forall i :: 0 <= i < |s.acks| - 1 ==> s.acks[1..][i] == s.acks[i + 1];
  }

  lemma DeliverKeeps(j: Job, before: seq<(u8, seq<u8>)>, s: Net)
    requires |j.data| <= MAX_TRANSFER && Inv(j, before, s) && s.queue != []
    ensures Inv(j, before, Deliver(s))
  {
    hide TransferFrame, Chunks, ChunkEnd, Wrap16, Wrap32, Step, AcksInOrder;
    var r, n := Read(s), j.N();
    assert s.queue[0] == TransferFrame(j.kind, j.data, r);
    assert j.Frames()[r + 1..s.next] == s.queue[1..];
    assert s.acks + [] == s.acks && before + [] == before;
    ChunkBounds(|j.data|);
    if r == 0 {
      StartStep(s.recv, j.kind, j.data);
      assert j.data[..0] == [];
    } else if r <= n {
      DataRead(j, before, s, r);
      AcksAdvance(s.acked, s.acks, r);
    } else {
      EndRead(j, before, s);
    }
  }

  lemma DataRead(j: Job, before: seq<(u8, seq<u8>)>, s: Net, r: nat)
    requires 1 <= r <= j.N() && ReceiverAt(j, before, s, r)
    ensures Step(s.recv, TransferFrame(j.kind, j.data, r))
         == (Reasm(Some(InProgress(j.kind, |j.data|, Wrap16(r), j.data[..ChunkEnd(|j.data|, r)])), r), Progress(r))
  {
    hide TransferFrame, Chunks, ChunkEnd, Wrap16, Wrap32, Step;
    var n := |j.data|;
    ChunkBounds(n);
    ChunkEndGrows(n, r - 1, r);
    WrapsNothing(r);
    var held := j.data[..ChunkEnd(n, r - 1)];
    DataStep(s.recv, j.kind, j.data, n, held, r);
    assert held + Chunk(j.data, r) == j.data[..ChunkEnd(n, r)];
  }

  lemma EndRead(j: Job, before: seq<(u8, seq<u8>)>, s: Net)
    requires ReceiverAt(j, before, s, j.N() + 1)
    ensures Step(s.recv, TransferFrame(j.kind, j.data, j.N() + 1))
         == (s.recv.(active := None), Complete(j.kind, j.data))
  {
    hide TransferFrame, Chunks, ChunkEnd, Wrap16, Wrap32, Step;
    ChunkBounds(|j.data|);
    EndStep(s.recv, j.kind, j.data);
    WrapsNothing(|j.data|);
    Wrap16Next(j.N());
    assert j.data[..|j.data|] == j.data;
  }

  // ----- the invariant, while left-over reports are read ----------------------

  lemma DrainingWrite(j: Job, r0: Reasm, left: seq<Frame>, s: Net, d: nat)
    requires j.Fits(|left|) && Draining(j, r0, left, s, d) && CanWrite(j, s)
    ensures Draining(j, r0, left, Write(j, s), d)
  {
    hide Transfer, Chunks, Run, Completions;
    DrainingBound(j, r0, left, s, d);
    var fs := j.Frames();
    assert fs[..s.next + 1] == fs[..s.next] + [fs[s.next]];
  }

  lemma NotData(left: seq<Frame>, d: nat)
    requires d < |left| && DataIn(left) == 0
    ensures !(left[d].Frame? && left[d].t == T_DATA) && DataIn(left[d..]) == 0
  {
    hide DataIn;
    assert left == left[..d] + left[d..] && left[..d + 1] == left[..d] + [left[d]];
    DataInConcat(left[..d], left[d..]);
    assert left[d..] == [left[d]] + left[d + 1..];
    DataInConcat([left[d]], left[d + 1..]);
    assert [left[d]] == [] + [left[d]];
    DataInAppend([], left[d]);
  }

  lemma OnlyDataAdvances(s: Reasm, f: Frame)
    requires !(f.Frame? && f.t == T_DATA)
    ensures !Step(s, f).1.Progress?
  {
  }

  lemma DrainingDeliver(j: Job, r0: Reasm, left: seq<Frame>, s: Net, d: nat)
    requires Draining(j, r0, left, s, d) && DataIn(left) == 0
    ensures d + 1 < |left| ==> Draining(j, r0, left, Deliver(s), d + 1)
    ensures d + 1 == |left| ==> Inv(j, Completions(r0, left), Deliver(s))
  {
    hide Transfer, Chunks, ChunkEnd, Wrap16, Step, Run, Completions, DataIn;
    assert left[..d + 1] == left[..d] + [left[d]] && left[..|left|] == left;
    NotData(left, d);
    OnlyDataAdvances(s.recv, left[d]);
    RunAppend(r0, left[..d], left[d]);
    CompletionsAppend(r0, left[..d], left[d]);
    assert s.queue[0] == left[d] && s.queue[1..] == left[d + 1..] + j.Frames()[..s.next];
    assert s.acks + [] == [];
    if d + 1 == |left| {
      assert Deliver(s).queue == j.Frames()[0..s.next];
    }
  }

  lemma InitialInv(j: Job, left: seq<Frame>, s: Net)
    requires Initial(s, left, [])
    ensures InvFrom(j, s.recv, left, s)
  {
    hide Transfer, Chunks;
    if left == [] {
      assert j.Frames()[0..0] == [];
      assert Inv(j, Completions(s.recv, left), s);
    } else {
      assert left[..0] == [] && left[0..] + j.Frames()[..0] == left;
      assert Draining(j, s.recv, left, s, 0);
    }
  }

  lemma NextKeeps(j: Job, r0: Reasm, left: seq<Frame>, s: Net, s': Net)
    requires j.Fits(|left|) && DataIn(left) == 0 && InvFrom(j, r0, left, s) && Next(j, s, s')
    ensures InvFrom(j, r0, left, s')
  {
    hide Inv, Draining, Write, Deliver, TakeAck, CanWrite, DataIn, Completions, Run;
    if Inv(j, Completions(r0, left), s) {
      if CanWrite(j, s) { WriteKeeps(j, Completions(r0, left), s); }
      if s.queue != [] { DeliverKeeps(j, Completions(r0, left), s); }
      if s.acks != [] { TakeAckKeeps(j, Completions(r0, left), s); }
    } else {
      var d: nat :| Draining(j, r0, left, s, d);
      DrainingIs(j, r0, left, s, d);
      if CanWrite(j, s) { DrainingWrite(j, r0, left, s, d); }
      DrainingDeliver(j, r0, left, s, d);
    }
  }

  lemma DrainingIs(j: Job, r0: Reasm, left: seq<Frame>, s: Net, d: nat)
    requires Draining(j, r0, left, s, d)
    ensures d < |left| && s.queue != [] && s.acks == []
  {
  }

  lemma {:induction false} RunKeeps(j: Job, left: seq<Frame>, run: seq<Net>, i: nat)
    requires j.Fits(|left|) && DataIn(left) == 0 && IsRun(j, left, [], run) && i < |run|
    ensures InvFrom(j, run[0].recv, left, run[i])
  {
    hide InvFrom, Next, DataIn;
    if i == 0 {
      InitialInv(j, left, run[0]);
    } else {
      RunKeeps(j, left, run, i - 1);
      NextKeeps(j, run[0].recv, left, run[i - 1], run[i]);
    }
  }

  // ----- the theorems -------------------------------------------------------

  /** What completes when everything is read: what was left over, then this. */
  ghost function Everything(j: Job, r0: Reasm, left: seq<Frame>): seq<(u8, seq<u8>)> {
    Completions(r0, left) + [(j.kind, j.data)]
  }

  /** With no ACK and no DATA left over, every interleaving keeps at most 256 DATA
      frames in flight and never finds the queue full, so nothing is dropped; the
      transfers left over complete as they would have, and after them this one,
      once and with exactly the payload; and a run can only stop once it has, with
      the receiver idle. */
  lemma EveryRunIsSafe(j: Job, left: seq<Frame>, run: seq<Net>, i: nat)
    requires j.Fits(|left|) && DataIn(left) == 0 && IsRun(j, left, [], run) && i < |run|
    ensures DataIn(run[i].queue) <= ACK_WINDOW
    ensures CanWrite(j, run[i]) ==> |run[i].queue| < j.cap
    ensures run[i].completed <= Everything(j, run[0].recv, left)
    ensures Stuck(j, run[i]) ==>
      && run[i].completed == Everything(j, run[0].recv, left)
      && run[i].recv.active == None && run[i].next == j.N() + 2
  {
    hide Inv, Draining, Run, Transfer, Chunks, DataIn, Completions, IsRun, CanWrite;
    RunKeeps(j, left, run, i);
    var s, r0 := run[i], run[0].recv;
    if Inv(j, Completions(r0, left), s) {
      InvIsSafe(j, Completions(r0, left), s);
    } else {
      var d: nat :| Draining(j, r0, left, s, d);
      DrainingIsSafe(j, r0, left, s, d);
    }
  }

  lemma InvIsSafe(j: Job, before: seq<(u8, seq<u8>)>, s: Net)
    requires Inv(j, before, s)
    ensures DataIn(s.queue) <= ACK_WINDOW && (CanWrite(j, s) ==> |s.queue| < j.Room())
    ensures s.completed <= before + [(j.kind, j.data)]
    ensures Stuck(j, s) ==>
      s.completed == before + [(j.kind, j.data)] && s.recv.active == None && s.next == j.N() + 2
  {
    hide Chunks, ChunkEnd, Wrap16, Transfer, DataIn;
    QueueBound(j, before, s);
    DataInFlight(j, Read(s), s.next);
  }

  lemma DrainingIsSafe(j: Job, r0: Reasm, left: seq<Frame>, s: Net, d: nat)
    requires j.Fits(|left|) && DataIn(left) == 0 && Draining(j, r0, left, s, d)
    ensures DataIn(s.queue) <= ACK_WINDOW && (CanWrite(j, s) ==> |s.queue| < j.cap)
    ensures s.completed <= Completions(r0, left) && s.queue != []
  {
    hide Chunks, Transfer, DataIn, Run, Completions;
    DrainingBound(j, r0, left, s, d);
    NotData(left, d);
    DataInConcat(left[d..], j.Frames()[..s.next]);
    DataInFlight(j, 0, s.next);
    assert j.Frames()[..s.next] == j.Frames()[0..s.next];
    assert left == left[..d] + left[d..];
    CompletionsConcat(r0, left[..d], left[d..]);
  }

  function Measure(j: Job, s: Net): int {
    3 * (j.N() + 2 - s.next) + 2 * |s.queue| + |s.acks|
  }

  /** Every step consumes: writing trades three for two, reading two for at most
      one, and taking an ACK one for none. */
  lemma StepConsumes(j: Job, s: Net, s': Net)
    requires Next(j, s, s')
    ensures Measure(j, s') < Measure(j, s)
  {
    hide Step, Chunks;
  }

  /** No run is longer than three steps per frame, two per report and one per ACK
      left over; with EveryRunIsSafe, every run that is continued as long as a
      step is possible delivers the payload. */
  lemma {:induction false} EveryRunEnds(j: Job, left: seq<Frame>, stale: seq<u32>, run: seq<Net>)
    requires IsRun(j, left, stale, run)
    ensures |run| <= 3 * (j.N() + 2) + 2 * |left| + |stale| + 1
    ensures |run| - 1 + Measure(j, run[|run| - 1]) <= 3 * (j.N() + 2) + 2 * |left| + |stale|
    ensures run[|run| - 1].next <= j.N() + 2
    decreases |run|
  {
    hide Chunks, Write, Deliver, TakeAck;
    if |run| > 1 {
      var m := |run| - 1;
      assert IsRun(j, left, stale, run[..m]);
      EveryRunEnds(j, left, stale, run[..m]);
      assert Next(j, run[m - 1], run[m]);
      StepConsumes(j, run[m - 1], run[m]);
      NextBounds(j, run[m - 1], run[m]);
    }
  }

  lemma NextBounds(j: Job, s: Net, s': Net)
    requires Next(j, s, s') && s.next <= j.N() + 2
    ensures s'.next <= j.N() + 2
  {
  }

  // ----- writing ahead --------------------------------------------------------

  /** s after n more frames were written and none read. */
  function Ahead(j: Job, s: Net, n: nat): Net
    requires s.next + n <= j.N() + 2
  {
    s.(next := s.next + n, queue := s.queue + j.Frames()[s.next..s.next + n])
  }

  /** With room in the queue, a sender can get ahead of its receiver until the
      window closes. */
  lemma AheadStep(j: Job, s: Net, n: nat)
    requires s.next == 0 && n < j.N() + 2 && (1 <= n <= j.N() ==> n <= s.acked + ACK_WINDOW)
    requires |s.queue| + n < j.cap
    ensures CanWrite(j, Ahead(j, s, n)) && Ahead(j, s, n + 1) == Write(j, Ahead(j, s, n))
  {
    hide Chunks, Transfer, Enqueue;
    EnqueueWithRoom(s.queue + j.Frames()[0..n], j.Frames()[n], j.cap);
    QueueOneMore(s.queue, j.Frames(), n);
  }

  lemma EnqueueWithRoom(q: seq<Frame>, f: Frame, cap: nat)
    requires |q| < cap
    ensures Enqueue(q, f, cap) == q + [f]
  {
  }

  lemma QueueOneMore(q: seq<Frame>, fs: seq<Frame>, n: nat)
    requires n < |fs|
    ensures q + fs[0..n + 1] == q + fs[0..n] + [fs[n]]
  {
  }

  function Aheads(j: Job, s: Net, n: nat): (run: seq<Net>)
    requires s.next == 0 && n <= j.N() + 2
    ensures |run| == n + 1 && forall i :: 0 <= i <= n ==> run[i] == Ahead(j, s, i)
  {
    seq(n + 1, i requires 0 <= i <= n => Ahead(j, s, i))
  }

  /** The run of n writes from an initial state. */
  lemma AheadRun(j: Job, left: seq<Frame>, stale: seq<u32>, s: Net, n: nat)
    requires Initial(s, left, stale) && n <= j.N() + 2 && |left| + n <= j.cap
    requires n <= ACK_WINDOW + 1 || j.N() <= ACK_WINDOW
    ensures IsRun(j, left, stale, Aheads(j, s, n))
    ensures DataIn(Ahead(j, s, n).queue) == DataIn(left) + DataAmong(j.N(), n)
  {
    hide Chunks, Transfer, DataIn, Ahead, Write, CanWrite;
    forall i | 0 <= i < n ensures Next(j, Aheads(j, s, n)[i], Aheads(j, s, n)[i + 1]) {
      AheadStep(j, s, i);
    }
    AheadData(j, s, n);
    AheadNone(j, s);
  }

  lemma AheadNone(j: Job, s: Net)
    requires s.next == 0
    ensures Ahead(j, s, 0) == s
  {
    assert s.queue + j.Frames()[0..0] == s.queue;
  }

  lemma AheadData(j: Job, s: Net, n: nat)
    requires s.next == 0 && n <= j.N() + 2
    ensures DataIn(Ahead(j, s, n).queue) == DataIn(s.queue) + DataAmong(j.N(), n)
  {
    hide Chunks, Transfer, DataIn;
    DataInFlight(j, 0, n);
    DataInConcat(s.queue, j.Frames()[0..n]);
  }

  // ----- room in the queue --------------------------------------------------------

  ghost predicate NothingDropped(j: Job, left: seq<Frame>) {
    forall run: seq<Net>, i ::
      IsRun(j, left, [], run) && 0 <= i < |run| && CanWrite(j, run[i]) ==> |run[i].queue| < j.cap
  }

  /** With no ACK and no DATA left over, no run drops a report exactly when the
      queue holds 257 reports, or the whole of a transfer of up to 256 DATA frames,
      behind those left over. */
  lemma NothingDroppedIff(j: Job, left: seq<Frame>)
    requires |j.data| <= MAX_TRANSFER && DataIn(left) == 0
    ensures NothingDropped(j, left) <==> j.cap >= |left| + j.Room()
  {
    hide Chunks, Transfer, DataIn, IsRun, CanWrite, Ahead;
    if j.cap >= |left| + j.Room() {
      forall run: seq<Net>, i | IsRun(j, left, [], run) && 0 <= i < |run| && CanWrite(j, run[i])
        ensures |run[i].queue| < j.cap
      {
        EveryRunIsSafe(j, left, run, i);
      }
    } else {
      var s, n := Net(0, 0, left, FRESH, [], []), if j.cap < |left| then 0 else j.cap - |left|;
      FullRun(j, left, s, n);
      assert Aheads(j, s, n)[n] == Ahead(j, s, n);
    }
  }

  lemma FullRun(j: Job, left: seq<Frame>, s: Net, n: nat)
    requires Initial(s, left, []) && n < j.Room() && |left| + n >= j.cap && (n > 0 ==> |left| + n == j.cap)
    ensures IsRun(j, left, [], Aheads(j, s, n))
    ensures CanWrite(j, Ahead(j, s, n)) && |Ahead(j, s, n).queue| >= j.cap
  {
    hide Chunks, Transfer, DataIn;
    if n > 0 {
      AheadRun(j, left, [], s, n);
    } else {
      AheadNone(j, s);
    }
  }

  // ----- what earlier transfers leave over ------------------------------------

  /** The window holds on every run. */
  ghost predicate WindowHolds(j: Job, left: seq<Frame>, stale: seq<u32>) {
    forall run: seq<Net>, i ::
      IsRun(j, left, stale, run) && 0 <= i < |run| ==> DataIn(run[i].queue) <= ACK_WINDOW
  }

  /** The unread DATA and a whole window of this transfer. */
  lemma UnreadOvershoots(j: Job, left: seq<Frame>, stale: seq<u32>)
    requires j.cap >= |left| + ACK_WINDOW + 1 && j.N() > ACK_WINDOW && DataIn(left) > 0
    ensures !WindowHolds(j, left, stale)
  {
    hide Chunks, Transfer, DataIn, IsRun, Ahead;
    var s := Net(0, 0, left, FRESH, stale, []);
    AheadRun(j, left, stale, s, ACK_WINDOW + 1);
    var run := Aheads(j, s, ACK_WINDOW + 1);
    assert DataIn(run[ACK_WINDOW + 1].queue) > ACK_WINDOW;
  }

  /** A left-over ACK, taken, opens the window by at least one frame. */
  lemma StaleOvershoots(j: Job, left: seq<Frame>, stale: seq<u32>)
    requires j.cap >= |left| + ACK_WINDOW + 2 && j.N() > ACK_WINDOW && stale != [] && stale[0] > 0
    ensures !WindowHolds(j, left, stale)
  {
    hide Chunks, Transfer, DataIn, Ahead, CanWrite, Write;
    var s, n := Net(0, 0, left, FRESH, stale, []), ACK_WINDOW + 2;
    var s1 := TakeAck(s);
    var run := [s] + Aheads(j, s1, n);
    forall i | 0 <= i < |run| - 1 ensures Next(j, run[i], run[i + 1]) {
      if i == 0 {
        AheadNone(j, s1);
      } else {
        AheadStep(j, s1, i - 1);
      }
    }
    assert IsRun(j, left, stale, run);
    AheadData(j, s1, n);
    assert run[n + 1] == Ahead(j, s1, n);
  }

  /** For a transfer of more than 256 DATA frames the window bound holds on every
      run exactly when the transfers before it left no ACK on its way and no DATA
      unread. */
  lemma WindowHoldsIff(j: Job, left: seq<Frame>, stale: seq<u32>)
    requires |j.data| <= MAX_TRANSFER && j.cap >= |left| + ACK_WINDOW + 2 && j.N() > ACK_WINDOW
    requires forall i :: 0 <= i < |stale| ==> stale[i] > 0
    ensures WindowHolds(j, left, stale) <==> stale == [] && DataIn(left) == 0
  {
    hide Chunks, Transfer, DataIn, IsRun;
    if stale != [] {
      StaleOvershoots(j, left, stale);
    } else if DataIn(left) > 0 {
      UnreadOvershoots(j, left, stale);
    } else {
      forall run: seq<Net>, i | IsRun(j, left, stale, run) && 0 <= i < |run|
        ensures DataIn(run[i].queue) <= ACK_WINDOW
      {
        EveryRunIsSafe(j, left, run, i);
      }
    }
  }

  /** s after n more reports were read. */
  function ReadOn(s: Net, n: nat): (s': Net)
    requires n <= |s.queue|
    ensures |s'.queue| == |s.queue| - n && s'.next == s.next && s'.acked == s.acked
  {
    if n == 0 then s else Deliver(ReadOn(s, n - 1))
  }

  /** A transfer that fits in the window can be written whole, and the send be
      over, before the receiver has read any r frames of it. */
  lemma SendLeaves(j: Job, r: nat) returns (run: seq<Net>)
    requires j.Fits(0) && j.N() <= ACK_WINDOW && 1 <= r <= j.N() + 1
    ensures IsRun(j, [], [], run)
    ensures var s := run[|run| - 1];
      && s.next == j.N() + 2 && s.queue == j.Frames()[r..]
      && |s.acks| == (r - 1) / 128 && forall i :: 0 <= i < |s.acks| ==> s.acks[i] == 128 * (i + 1)
  {
    hide Chunks, Transfer, DataIn, Inv, Write, CanWrite, Deliver, Ahead;
    var s, n := Net(0, 0, [], FRESH, [], []), j.N() + 2;
    AheadRun(j, [], [], s, n);
    AheadIs(j, s, n);
    var full := Ahead(j, s, n);
    var after := seq(r, i requires 0 <= i < r => ReadOn(full, i + 1));
    run := Aheads(j, s, n) + after;
    forall i | 0 <= i < |run| - 1 ensures Next(j, run[i], run[i + 1]) {
      if i < n {
        assert Next(j, Aheads(j, s, n)[i], Aheads(j, s, n)[i + 1]);
      } else {
        assert run[i] == ReadOn(full, i - n) && run[i + 1] == Deliver(ReadOn(full, i - n));
      }
    }
    var last := run[|run| - 1];
    assert last == ReadOn(full, r);
    NoDataIn();
    RunKeeps(j, [], run, |run| - 1);
    InvAcks(j, Completions(s.recv, []), last, r);
  }

  lemma AheadIs(j: Job, s: Net, n: nat)
    requires s.next == 0 && n <= j.N() + 2
    ensures var a := Ahead(j, s, n); a.next == n && |a.queue| == |s.queue| + n && a.acked == s.acked
  {
  }

  lemma InvAcks(j: Job, before: seq<(u8, seq<u8>)>, s: Net, r: nat)
    requires Inv(j, before, s) && s.next == j.N() + 2 && Read(s) == r && 1 <= r <= j.N() + 1 && s.acked == 0
    ensures s.queue == j.Frames()[r..]
    ensures |s.acks| == (r - 1) / 128 && forall i :: 0 <= i < |s.acks| ==> s.acks[i] == 128 * (i + 1)
  {
    hide Chunks, Transfer, ReceiverAt;
  }

  /** After a send of 129 to 256 DATA frames that is over, with no stall and
      nothing lost, the next one can break the window. */
  lemma NextSendOvershoots(first: Job, second: Job) returns (run: seq<Net>)
    requires first.Fits(0) && 128 < first.N() <= ACK_WINDOW
    requires second.N() > ACK_WINDOW && second.cap >= first.N() + ACK_WINDOW + 2
    ensures IsRun(first, [], [], run) && run[|run| - 1].next == first.N() + 2
    ensures run[|run| - 1].acks == [128] && DataIn(run[|run| - 1].queue) == first.N() - 128
    ensures !WindowHolds(second, run[|run| - 1].queue, run[|run| - 1].acks)
  {
    hide Chunks, Transfer, DataIn, WindowHolds;
    run := SendLeaves(first, 129);
    DataInFlight(first, 129, first.N() + 2);
    assert first.Frames()[129..] == first.Frames()[129..first.N() + 2];
    StaleOvershoots(second, run[|run| - 1].queue, run[|run| - 1].acks);
  }
}
