/** Several sends one after the other, any part of each lost: what the receiver
    can complete (linux/input-router/src/clipboard.rs,
    windows/clipboard-agent/src/main.rs, protocol/clipframe/src/lib.rs). */
module ClipHistory {
  import opened Bytes
  import opened ClipFrame
  import opened ClipTransfer
  import opened ClipSplice
  import opened ClipRetry
  import opened ClipSender

  // ----- a receiver in the middle of a transfer --------------------------------

  /** s is still in the transfer that s0 was in. */
  ghost predicate Continues(s0: Reasm, s: Reasm) {
    && s0.active.Some? && s.active.Some?
    && var a0, a := s0.active.value, s.active.value;
       a.kind == a0.kind && a.total == a0.total && a0.data <= a.data
  }

  /** An END frame that finishes the transfer s0 was in. */
  ghost predicate Finishes(s0: Reasm, f: Frame, r: FeedResult) {
    && s0.active.Some? && r.Complete?
    && var a0 := s0.active.value;
       && r.kind == a0.kind && a0.data <= r.data && |r.data| == a0.total
       && f.Frame? && f.t == T_END && |f.payload| == 4 && Le32At(f.payload, 0) == a0.total
  }

  lemma StepAgrees(s: Reasm, t: Reasm, f: Frame)
    requires s.active == t.active
    ensures Step(s, f).0.active == Step(t, f).0.active
    ensures Step(s, f).1.Complete? ==> Step(s, f).1 == Step(t, f).1
  {
    hide Wrap16, Wrap32, FromLe32;
  }

  lemma StepSeparates(s0: Reasm, s: Reasm, t: Reasm, f: Frame)
    requires Continues(s0, s) && Idle(t) && Bounded(s)
    ensures var s', t' := Step(s, f).0, Step(t, f).0;
      (Continues(s0, s') && Idle(t')) || s'.active == t'.active
    ensures Step(s, f).1.Complete? ==> Finishes(s0, f, Step(s, f).1)
  {
    WrapsNothing(|s.active.value.data|);
    hide Wrap16, Wrap32, FromLe32;
  }

  /** Whatever frames arrive in the middle of a transfer: until a START or an
      ABORT arrives the receiver is still in it, and after that it is where a
      receiver without it would be. */
  lemma {:induction false} Separates(s0: Reasm, fs: seq<Frame>)
    requires Bounded(s0)
    ensures var s, t := Run(s0, fs), Run(Cleared(s0), fs);
      (Continues(s0, s) && Idle(t)) || s.active == t.active
  {
    hide Step;
    if fs != [] {
      var n := |fs| - 1;
      Separates(s0, fs[..n]);
      RunBounded(s0, fs[..n]);
      var s, t := Run(s0, fs[..n]), Run(Cleared(s0), fs[..n]);
      if s.active == t.active {
        StepAgrees(s, t, fs[n]);
      } else {
        StepSeparates(s0, s, t, fs[n]);
      }
    }
  }

  /** And what it completes is what a receiver without that transfer would
      complete, or the transfer itself, finished by an END of its length. */
  lemma CompletesOwnOrFinishes(s0: Reasm, fs: seq<Frame>, q: nat)
    requires Bounded(s0) && q < |fs| && ResultAt(s0, fs, q).Complete?
    ensures ResultAt(s0, fs, q) == ResultAt(Cleared(s0), fs, q) || Finishes(s0, fs[q], ResultAt(s0, fs, q))
  {
    hide Step;
    Separates(s0, fs[..q]);
    RunBounded(s0, fs[..q]);
    var s, t := Run(s0, fs[..q]), Run(Cleared(s0), fs[..q]);
    if s.active == t.active {
      StepAgrees(s, t, fs[q]);
    } else {
      StepSeparates(s0, s, t, fs[q]);
    }
  }

  // ----- any number of sends ----------------------------------------------------

  /** One call of the retrying sender, and which of the frames it wrote arrive. */
  datatype Sending = Sending(kind: u8, data: seq<u8>, wire: seq<Frame>, outcome: Outcome, arrived: seq<nat>)

  ghost predicate Sendable(x: Sending) {
    Call(x.kind, x.data, x.wire, x.outcome) && Picks(x.arrived, |x.wire|)
  }

  ghost predicate AllSendable(xs: seq<Sending>) {
    forall i :: 0 <= i < |xs| ==> Sendable(xs[i])
  }

  ghost function Got(x: Sending): seq<Frame>
    requires Sendable(x)
  {
    Pick(x.wire, x.arrived)
  }

  /** Everything that arrives, in order. */
  ghost function Arrived(xs: seq<Sending>): seq<Frame>
    requires AllSendable(xs)
  {
    if xs == [] then [] else Arrived(xs[..|xs| - 1]) + Got(xs[|xs| - 1])
  }

  ghost predicate WasSent(xs: seq<Sending>, r: FeedResult) {
    r.Complete? ==> exists i :: 0 <= i < |xs| && r == Complete(xs[i].kind, xs[i].data)
  }

  /** The transfer in progress has the kind and the length of one of the sends. */
  ghost predicate ActiveWasSent(xs: seq<Sending>, s: Reasm) {
    s.active.Some? ==>
      exists i :: 0 <= i < |xs| && xs[i].kind == s.active.value.kind && |xs[i].data| == s.active.value.total
  }

  lemma OwnStep(s: Reasm, kind: u8, data: seq<u8>, f: Frame)
    requires |data| <= MAX_TRANSFER && (f == ABORT || f in Transfer(kind, data))
    requires s.active.Some? ==> s.active.value.kind == kind && s.active.value.total == |data|
    ensures var s' := Step(s, f).0;
      s'.active.Some? ==> s'.active.value.kind == kind && s'.active.value.total == |data|
    ensures f.Frame? && f.t == T_END && |f.payload| == 4 ==> Le32At(f.payload, 0) == |data|
  {
    hide TransferFrame, Chunks, Wrap16, Wrap32, Le32, FromLe32;
    WrapsNothing(|data|);
    if f != ABORT {
      var i: nat :| i < |Transfer(kind, data)| && f == Transfer(kind, data)[i];
      TransferFrameIs(kind, data, i);
      if i == 0 {
        StartStep(s, kind, data);
      }
    }
  }

  lemma {:induction false} OwnRun(s: Reasm, kind: u8, data: seq<u8>, fs: seq<Frame>)
    requires Idle(s) && |data| <= MAX_TRANSFER && FromTransfer(fs, kind, data)
    ensures var s' := Run(s, fs);
      s'.active.Some? ==> s'.active.value.kind == kind && s'.active.value.total == |data|
  {
    hide Step, Transfer;
    if fs != [] {
      OwnRun(s, kind, data, fs[..|fs| - 1]);
      OwnStep(Run(s, fs[..|fs| - 1]), kind, data, fs[|fs| - 1]);
    }
  }

  lemma GotFrames(x: Sending)
    requires Sendable(x)
    ensures FromTransfer(Got(x), x.kind, x.data)
  {
    hide Call, Transfer;
    CallFrames(x.kind, x.data, x.wire, x.outcome);
  }

  lemma {:induction false} HistoryActive(s: Reasm, xs: seq<Sending>)
    requires Idle(s) && AllSendable(xs)
    requires forall i :: 0 <= i < |xs| ==> |xs[i].data| <= MAX_TRANSFER
    ensures ActiveWasSent(xs, Run(s, Arrived(xs))) && Bounded(Run(s, Arrived(xs)))
  {
    hide Step, Sendable, Transfer;
    RunBounded(s, Arrived(xs));
    if xs != [] {
      var n := |xs| - 1;
      var x, before, got := xs[n], Arrived(xs[..n]), Got(xs[n]);
      HistoryActive(s, xs[..n]);
      RunConcat(s, before, got);
      var s1 := Run(s, before);
      Separates(s1, got);
      GotFrames(x);
      OwnRun(Cleared(s1), x.kind, x.data, got);
      var s2 := Run(s1, got);
      if s2.active.Some? && Continues(s1, s2) {
        var i :| 0 <= i < n && xs[..n][i].kind == s1.active.value.kind && |xs[..n][i].data| == s1.active.value.total;
        assert xs[i] == xs[..n][i];
      } else if s2.active.Some? {
        assert xs[n].kind == s2.active.value.kind;
      }
    }
  }

  /** No two sends have the same length, empty ones apart. */
  predicate Distinguishable(ls: seq<nat>) {
    forall i, j :: 0 <= i < j < |ls| && ls[i] == ls[j] ==> ls[i] == 0
  }

  function Lengths(xs: seq<Sending>): (ls: seq<nat>)
    ensures |ls| == |xs| && forall i :: 0 <= i < |xs| ==> ls[i] == |xs[i].data|
  {
    seq(|xs|, i requires 0 <= i < |xs| => |xs[i].data|)
  }

  /** An END that finishes an earlier transfer repeats its length. */
  lemma FinishedWasSent(s: Reasm, xs: seq<Sending>, k: nat)
    requires xs != [] && AllSendable(xs) && Distinguishable(Lengths(xs))
    requires forall i :: 0 <= i < |xs| ==> |xs[i].data| <= MAX_TRANSFER
    requires ActiveWasSent(xs[..|xs| - 1], s)
    requires k < |Got(xs[|xs| - 1])|
    ensures Finishes(s, Got(xs[|xs| - 1])[k], ResultAt(s, Got(xs[|xs| - 1]), k)) ==>
              WasSent(xs, ResultAt(s, Got(xs[|xs| - 1]), k))
  {
    hide Step, Sendable, Transfer, Run, FromLe32;
    var n := |xs| - 1;
    var x, r := xs[n], ResultAt(s, Got(xs[n]), k);
    GotFrames(x);
    OwnStep(FRESH, x.kind, x.data, Got(x)[k]);
    if Finishes(s, Got(x)[k], r) {
      var i :| 0 <= i < n && xs[..n][i].kind == s.active.value.kind && |xs[..n][i].data| == s.active.value.total;
      assert xs[i] == xs[..n][i];
      assert Lengths(xs)[i] == Lengths(xs)[n] == 0;
      assert r == Complete(xs[i].kind, xs[i].data);
    }
  }

  /** Whatever is lost of any number of sends of different lengths, an idle
      receiver completes nothing but payloads that were sent. */
  lemma {:induction false} EveryCompletionWasSent(s: Reasm, xs: seq<Sending>, q: nat)
    requires Idle(s) && AllSendable(xs) && q < |Arrived(xs)|
    requires Distinguishable(Lengths(xs))
    requires forall i :: 0 <= i < |xs| ==> |xs[i].data| < 65537 * MAX_PAYLOAD
    ensures WasSent(xs, ResultAt(s, Arrived(xs), q))
  {
    hide Step, Sendable, Run;
    var n := |xs| - 1;
    var x, ys, before, got := xs[n], xs[..n], Arrived(xs[..n]), Got(xs[n]);
    assert forall i :: 0 <= i < n ==> ys[i] == xs[i] && Lengths(ys)[i] == Lengths(xs)[i];
    if q < |before| {
      EveryCompletionWasSent(s, ys, q);
      ResultInFirst(s, before, got, q);
    } else {
      var k := q - |before|;
      ResultInSecond(s, before, got, k);
      HistoryActive(s, ys);
      var s1 := Run(s, before);
      if ResultAt(s1, got, k).Complete? {
        CompletesOwnOrFinishes(s1, got, k);
        LastIsExact(Cleared(s1), x, k);
        FinishedWasSent(s1, xs, k);
      }
    }
  }

  lemma LastIsExact(s: Reasm, x: Sending, k: nat)
    requires Idle(s) && Sendable(x) && |x.data| < 65537 * MAX_PAYLOAD && k < |Got(x)|
    ensures ResultAt(s, Got(x), k).Complete? ==> ResultAt(s, Got(x), k) == Complete(x.kind, x.data)
  {
    hide Call, Step;
    SendIsExact(s, x.kind, x.data, x.wire, x.outcome, x.arrived, k);
  }

  /** Each send is told apart from the others by its length, and its two attempts
      from each other by the sequence number. */
  predicate SafeLengths(ls: seq<nat>) {
    Distinguishable(ls) && forall i :: 0 <= i < |ls| ==> ls[i] < 65537 * MAX_PAYLOAD
  }

  // ----- how often, and in which order ------------------------------------------

  /** c is what x sent; of an empty payload only the length is sure. */
  predicate Delivers(c: (u8, seq<u8>), x: Sending) {
    && x.outcome == Sent && c.1 == x.data
    && (x.data != [] ==> c.0 == x.kind)
  }

  /** The completions are those of the sends numbered js, one for each, in the
      order of the sends. */
  ghost predicate InOrder(done: seq<(u8, seq<u8>)>, xs: seq<Sending>, js: seq<nat>) {
    |js| == |done| && Picks(js, |xs|) && forall k :: 0 <= k < |js| ==> Delivers(done[k], xs[js[k]])
  }

  lemma InOrderMore(done: seq<(u8, seq<u8>)>, c: (u8, seq<u8>), xs: seq<Sending>, js: seq<nat>)
    requires xs != [] && InOrder(done, xs[..|xs| - 1], js)
    ensures InOrder(done, xs, js)
    ensures Delivers(c, xs[|xs| - 1]) ==> InOrder(done + [c], xs, js + [|xs| - 1])
  {
    forall k | 0 <= k < |js| ensures Delivers(done[k], xs[js[k]]) {
      assert xs[..|xs| - 1][js[k]] == xs[js[k]];
    }
  }

  lemma NoneInOrder(xs: seq<Sending>)
    ensures InOrder([], xs, [])
  {
  }

  /** What completes while a send arrives is what it sent. */
  lemma LastDelivers(s: Reasm, xs: seq<Sending>, k: nat)
    requires xs != [] && AllSendable(xs) && SafeLengths(Lengths(xs))
    requires Bounded(s) && ActiveWasSent(xs[..|xs| - 1], s) && k < |Got(xs[|xs| - 1])|
    ensures var r := ResultAt(s, Got(xs[|xs| - 1]), k);
      r.Complete? ==> Delivers((r.kind, r.data), xs[|xs| - 1])
  {
    hide Step, Call, Transfer, Run, FromLe32;
    var n := |xs| - 1;
    var x, r := xs[n], ResultAt(s, Got(xs[n]), k);
    assert |x.data| == Lengths(xs)[n];
    if r.Complete? {
      if x.outcome != Sent {
        NothingCompletes(s, x, k);
      }
      CompletesOwnOrFinishes(s, Got(x), k);
      LastIsExact(Cleared(s), x, k);
      if Finishes(s, Got(x)[k], r) {
        GotFrames(x);
        OwnStep(FRESH, x.kind, x.data, Got(x)[k]);
        var i :| 0 <= i < n && xs[..n][i].kind == s.active.value.kind && |xs[..n][i].data| == s.active.value.total;
        assert xs[i] == xs[..n][i];
        assert Lengths(xs)[i] == Lengths(xs)[n] == 0;
      }
    }
  }

  lemma NothingCompletes(s: Reasm, x: Sending, k: nat)
    requires Sendable(x) && x.outcome != Sent && k < |Got(x)|
    ensures !ResultAt(s, Got(x), k).Complete?
  {
    hide Call, ResultAt;
    CallNoEnd(x.kind, x.data, x.wire, x.outcome);
    NoEndNoComplete(s, Got(x), k);
  }

  /** One more send arrives at a receiver in state s1, done completed before. */
  lemma OneMoreSend(s1: Reasm, done: seq<(u8, seq<u8>)>, xs: seq<Sending>, before: seq<nat>) returns (js: seq<nat>)
    requires xs != [] && AllSendable(xs) && SafeLengths(Lengths(xs))
    requires Bounded(s1) && ActiveWasSent(xs[..|xs| - 1], s1) && InOrder(done, xs[..|xs| - 1], before)
    ensures InOrder(done + Completions(s1, Got(xs[|xs| - 1])), xs, js)
  {
    hide Run, ResultAt, Call, InOrder, Completions, SafeLengths, ActiveWasSent, Picks;
    var x := xs[|xs| - 1];
    var got := Got(x);
    CallCompletesOnce(s1, x.kind, x.data, x.wire, x.outcome, x.arrived);
    js := before;
    if got != [] && ResultAt(s1, got, |got| - 1).Complete? {
      var r := ResultAt(s1, got, |got| - 1);
      LastDelivers(s1, xs, |got| - 1);
      InOrderMore(done, (r.kind, r.data), xs, before);
      js := before + [|xs| - 1];
    } else {
      InOrderMore(done, (x.kind, x.data), xs, before);
      assert done + [] == done;
    }
  }

  lemma SafeBefore(xs: seq<Sending>)
    requires xs != [] && SafeLengths(Lengths(xs))
    ensures SafeLengths(Lengths(xs[..|xs| - 1]))
    ensures forall i :: 0 <= i < |xs| ==> |xs[i].data| <= MAX_TRANSFER
  {
    var ls, before := Lengths(xs), Lengths(xs[..|xs| - 1]);
    assert forall i :: 0 <= i < |before| ==> before[i] == ls[i];
    assert forall i :: 0 <= i < |xs| ==> |xs[i].data| == ls[i];
  }

  /** Whatever is lost of any number of sends of different lengths: an idle
      receiver completes each successful one at most once, nothing else, and in
      the order of the sends. */
  lemma {:induction false} CompletionsInOrder(s: Reasm, xs: seq<Sending>) returns (js: seq<nat>)
    requires Idle(s) && AllSendable(xs) && SafeLengths(Lengths(xs))
    ensures InOrder(Completions(s, Arrived(xs)), xs, js)
  {
    hide Step, Run, ResultAt, Sendable, InOrder, SafeLengths, Bounded, ActiveWasSent;
    js := [];
    NoneInOrder(xs);
    if xs != [] {
      var ys, last := xs[..|xs| - 1], xs[|xs| - 1];
      SafeBefore(xs);
      js := CompletionsInOrder(s, ys);
      CompletionsConcat(s, Arrived(ys), Got(last));
      HistoryActive(s, ys);
      js := OneMoreSend(Run(s, Arrived(ys)), Completions(s, Arrived(ys)), xs, js);
    }
  }

  // ----- exactly when sends are safe ------------------------------------------------

  /** Whatever any idle receiver gets of sends of these lengths, and however each
      went, it completes nothing but what was sent. */
  ghost predicate SendsSafe(ls: seq<nat>) {
    forall s: Reasm, xs: seq<Sending>, q: nat ::
      Idle(s) && AllSendable(xs) && Lengths(xs) == ls && q < |Arrived(xs)| ==>
        WasSent(xs, ResultAt(s, Arrived(xs), q))
  }

  function Fill(n: nat, b: u8): (data: seq<u8>)
    ensures |data| == n && forall i :: 0 <= i < n ==> data[i] == b
  {
    seq(n, _ => b)
  }

  lemma WholeTransferSendable(kind: u8, data: seq<u8>, idx: seq<nat>)
    requires Picks(idx, Chunks(|data|) + 2)
    ensures Sendable(Sending(kind, data, Transfer(kind, data), Sent, idx))
  {
    hide TransferFrame, Chunks;
    assert Written(Transfer(kind, data), Transfer(kind, data), Sent);
  }

  lemma AttemptsSendable(kind: u8, data: seq<u8>, p: nat, idx: seq<nat>)
    requires StallPoint(data, p) && Picks(idx, p + Chunks(|data|) + 3)
    ensures Sendable(Sending(kind, data, Attempts(kind, data, p), Sent, idx))
  {
    hide TransferFrame, Chunks;
    var fs := Transfer(kind, data);
    assert StalledAt(fs[..p] + [ABORT], fs, p);
    assert TwoWrites(Attempts(kind, data, p), fs, fs[..p] + [ABORT], fs, Sent);
  }

  /** A send of which nothing arrives. */
  function Quiet(n: nat): Sending {
    Sending(KIND_TAR, Fill(n, 2), Transfer(KIND_TAR, Fill(n, 2)), Sent, [])
  }

  /** Sends of the given lengths of which nothing arrives, except x in place of
      number i and y in place of number j. */
  ghost function OnlyTwo(ls: seq<nat>, i: nat, x: Sending, j: nat, y: Sending): (xs: seq<Sending>)
    ensures |xs| == |ls|
    ensures forall k :: 0 <= k < |ls| ==> xs[k] == if k == i then x else if k == j then y else Quiet(ls[k])
  {
    seq(|ls|, k requires 0 <= k < |ls| => if k == i then x else if k == j then y else Quiet(ls[k]))
  }

  lemma OnlyTwoSendable(ls: seq<nat>, i: nat, x: Sending, j: nat, y: Sending)
    requires Sendable(x) && Sendable(y)
    requires i < |ls| ==> |x.data| == ls[i]
    requires j < |ls| && i != j ==> |y.data| == ls[j]
    ensures AllSendable(OnlyTwo(ls, i, x, j, y)) && Lengths(OnlyTwo(ls, i, x, j, y)) == ls
  {
    hide Sendable, Transfer;
    var xs := OnlyTwo(ls, i, x, j, y);
    forall k | 0 <= k < |ls| ensures Sendable(xs[k]) {
      if k != i && k != j {
        WholeTransferSendable(KIND_TAR, Fill(ls[k], 2), []);
      }
    }
  }

  /** The last send's part, which may be nothing. */
  lemma ArrivedLast(xs: seq<Sending>)
    requires xs != [] && AllSendable(xs)
    ensures AllSendable(xs[..|xs| - 1]) && Arrived(xs) == Arrived(xs[..|xs| - 1]) + Got(xs[|xs| - 1])
    ensures xs[|xs| - 1].arrived == [] ==> Arrived(xs) == Arrived(xs[..|xs| - 1])
  {
    hide Sendable;
    assert Arrived(xs[..|xs| - 1]) + [] == Arrived(xs[..|xs| - 1]);
  }

  lemma {:induction false} ArrivedNone(xs: seq<Sending>)
    requires AllSendable(xs) && forall k :: 0 <= k < |xs| ==> xs[k].arrived == []
    ensures Arrived(xs) == []
  {
    hide Sendable;
    if xs != [] {
      ArrivedLast(xs);
      ArrivedNone(xs[..|xs| - 1]);
    }
  }

  lemma {:induction false} ArrivedOnlyOne(xs: seq<Sending>, i: nat)
    requires AllSendable(xs) && i < |xs|
    requires forall k :: 0 <= k < |xs| && k != i ==> xs[k].arrived == []
    ensures Arrived(xs) == Got(xs[i])
  {
    hide Sendable, Arrived, Got;
    ArrivedLast(xs);
    if i == |xs| - 1 {
      ArrivedNone(xs[..i]);
      assert [] + Got(xs[i]) == Got(xs[i]);
    } else {
      ArrivedOnlyOne(xs[..|xs| - 1], i);
    }
  }

  lemma {:induction false} ArrivedOnlyTwo(xs: seq<Sending>, i: nat, j: nat)
    requires AllSendable(xs) && i < j < |xs|
    requires forall k :: 0 <= k < |xs| && k != i && k != j ==> xs[k].arrived == []
    ensures Arrived(xs) == Got(xs[i]) + Got(xs[j])
  {
    hide Sendable, Arrived, Got;
    ArrivedLast(xs);
    if j == |xs| - 1 {
      ArrivedOnlyOne(xs[..j], i);
    } else {
      ArrivedOnlyTwo(xs[..|xs| - 1], i, j);
    }
  }

  /** Two sends of one length: START of the first and the rest of the second. */
  lemma StolenTransfer(s: Reasm, length: nat)
    requires 0 < length <= MAX_TRANSFER
    ensures var n, a, b := Chunks(length), Fill(length, 0), Fill(length, 1);
      && Picks([0], n + 2) && Picks(Span(1, n + 2), n + 2)
      && ResultAt(s, Pick(Transfer(KIND_TEXT, a), [0]) + Pick(Transfer(KIND_PNG, b), Span(1, n + 2)), n + 1)
         == Complete(KIND_TEXT, b)
  {
    hide Step, Run, ResultAt, Transfer, Chunks, Part;
    var n, a, b, h := Chunks(length), Fill(length, 0), Fill(length, 1), Straight(0);
    ShapeCompletes(s, KIND_TEXT, a, KIND_PNG, b, h);
    assert Span(0, 1) == [0] && Span(1, n + 1) + [n + 1] == Span(1, n + 2);
    PartAll(b, 0);
    PartSize(a, 0, 0);
    PartSize(b, 0, 0);
    assert [] + Part(b, 0, n) == Part(b, 0, n);
  }

  lemma SameLengthUnsafe(ls: seq<nat>, i: nat, j: nat)
    requires i < j < |ls| && 0 < ls[i] == ls[j] <= MAX_TRANSFER
    ensures !SendsSafe(ls)
  {
    hide Step, Transfer, Chunks, Sendable;
    var length, n := ls[i], Chunks(ls[i]);
    var a, b := Fill(length, 0), Fill(length, 1);
    var x := Sending(KIND_TEXT, a, Transfer(KIND_TEXT, a), Sent, [0]);
    var y := Sending(KIND_PNG, b, Transfer(KIND_PNG, b), Sent, Span(1, n + 2));
    WholeTransferSendable(KIND_TEXT, a, [0]);
    WholeTransferSendable(KIND_PNG, b, Span(1, n + 2));
    var xs := OnlyTwo(ls, i, x, j, y);
    OnlyTwoSendable(ls, i, x, j, y);
    ArrivedOnlyTwo(xs, i, j);
    StolenTransfer(FRESH, length);
    var r := ResultAt(FRESH, Arrived(xs), n + 1);
    assert r == Complete(KIND_TEXT, b) && a[0] != b[0];
    assert !WasSent(xs, r);
  }

  /** One send that can complete something else is enough. */
  lemma OneUnsafe(ls: seq<nat>, i: nat, x: Sending, q: nat)
    requires i < |ls| && Sendable(x) && |x.data| == ls[i] && q < |Got(x)|
    requires var r := ResultAt(FRESH, Got(x), q);
      r.Complete? && r != Complete(x.kind, x.data) && r.kind != KIND_TAR
    ensures !SendsSafe(ls)
  {
    hide Step, Run, Transfer, Chunks, Sendable;
    var xs := OnlyTwo(ls, i, x, |ls|, x);
    OnlyTwoSendable(ls, i, x, |ls|, x);
    ArrivedOnlyOne(xs, i);
    assert !WasSent(xs, ResultAt(FRESH, Arrived(xs), q));
  }

  lemma LongRetryUnsafe(ls: seq<nat>, i: nat)
    requires i < |ls| && 65537 * MAX_PAYLOAD <= ls[i] <= MAX_TRANSFER
    ensures !SendsSafe(ls)
  {
    hide Step, Run, ResultAt, Transfer, Attempts, Chunks, Sendable, SendsSafe, LosingRun;
    OvertakenFits(ls[i]);
    var n, data := Chunks(ls[i]), Alterable(ls[i]);
    LosingRunCompletes(FRESH, KIND_TEXT, data, n);
    var idx := LosingRun(ls[i], n);
    AttemptsSendable(KIND_TEXT, data, n, idx);
    OneUnsafe(ls, i, Sending(KIND_TEXT, data, Attempts(KIND_TEXT, data, n), Sent, idx), |idx| - 1);
  }

  /** For payloads within the channel's limit: any number of sends, each retried
      or not, are safe against every loss if and only if each has fewer than
      65537 full frames and no two have the same length, empty ones apart. */
  lemma SendsSafeIff(ls: seq<nat>)
    requires forall i :: 0 <= i < |ls| ==> ls[i] <= MAX_TRANSFER
    ensures SendsSafe(ls) <==> SafeLengths(ls)
  {
    hide Sendable, Step, Chunks, WasSent;
    if SafeLengths(ls) {
      forall s: Reasm, xs: seq<Sending>, q: nat
        | Idle(s) && AllSendable(xs) && Lengths(xs) == ls && q < |Arrived(xs)|
        ensures WasSent(xs, ResultAt(s, Arrived(xs), q))
      {
        assert forall i :: 0 <= i < |xs| ==> |xs[i].data| == ls[i];
        EveryCompletionWasSent(s, xs, q);
      }
    } else if !Distinguishable(ls) {
      var i, j :| 0 <= i < j < |ls| && ls[i] == ls[j] && ls[i] != 0;
      SameLengthUnsafe(ls, i, j);
    } else {
      var i :| 0 <= i < |ls| && ls[i] >= 65537 * MAX_PAYLOAD;
      LongRetryUnsafe(ls, i);
    }
  }
}
