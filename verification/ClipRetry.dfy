/** An aborted attempt at a transfer and its retry, any part of both lost
    (linux/input-router/src/clipboard.rs, windows/clipboard-agent/src/main.rs). */
module ClipRetry {
  import opened Bytes
  import opened ClipFrame
  import opened ClipTransfer
  import opened ClipSplice

  const ABORT := Frame(T_ABORT, 0, [])

  /** What a sender writes that stalls before frame p, aborts and starts over. */
  function Attempts(kind: u8, data: seq<u8>, p: nat): (w: seq<Frame>)
    requires p <= Chunks(|data|)
    ensures |w| == p + Chunks(|data|) + 3
  {
    Transfer(kind, data)[..p] + [ABORT] + Transfer(kind, data)
  }

  /** The window can only stall a sender that has 256 DATA frames out. */
  predicate StallPoint(data: seq<u8>, p: nat) {
    ACK_WINDOW < p <= Chunks(|data|)
  }

  /** Whatever is lost of an aborted attempt and its retry, any idle receiver
      gets a payload of this length as sent or not at all. */
  ghost predicate RetrySafe(length: nat) {
    forall s: Reasm, kind: u8, data: seq<u8>, p: nat, idx: seq<nat>, q: nat ::
      Idle(s) && |data| == length && StallPoint(data, p) && Picks(idx, p + Chunks(length) + 3) && q < |idx| ==>
        RetryResultOk(s, kind, data, p, idx, q)
  }

  ghost predicate RetryResultOk(s: Reasm, kind: u8, data: seq<u8>, p: nat, idx: seq<nat>, q: nat)
    requires p <= Chunks(|data|) && Picks(idx, p + Chunks(|data|) + 3) && q < |idx|
  {
    var r := ResultAt(s, Pick(Attempts(kind, data, p), idx), q);
    r.Complete? ==> r == Complete(kind, data)
  }

  // ----- one wire as two transfers ----------------------------------------------

  /** How many of increasing positions lie below p. */
  function Below(idx: seq<nat>, p: nat): (k: nat)
    ensures k <= |idx| && (forall i :: 0 <= i < k ==> idx[i] < p) && (k < |idx| ==> idx[k] >= p)
  {
    if idx == [] || idx[0] >= p then 0
    else
      var k := Below(idx[1..], p);
      assert forall i :: 1 <= i < k + 1 ==> idx[i] == idx[1..][i - 1];
      k + 1
  }

  function Less(idx: seq<nat>, d: nat): (r: seq<nat>)
    requires forall i :: 0 <= i < |idx| ==> idx[i] >= d
    ensures |r| == |idx| && forall i :: 0 <= i < |idx| ==> r[i] == idx[i] - d
  {
    seq(|idx|, i requires 0 <= i < |idx| => idx[i] - d)
  }

  function More(idx: seq<nat>, d: nat): (r: seq<nat>)
    ensures |r| == |idx| && forall i :: 0 <= i < |idx| ==> r[i] == idx[i] + d
  {
    seq(|idx|, i requires 0 <= i < |idx| => idx[i] + d)
  }

  /** Positions in two attempts: ia in the first, perhaps the ABORT at p, and ib
      in the retry. */
  function Positions(ia: seq<nat>, aborted: bool, ib: seq<nat>, p: nat): seq<nat> {
    ia + (if aborted then [p] else []) + More(ib, p + 1)
  }

  lemma JoinPositions(ia: seq<nat>, aborted: bool, ib: seq<nat>, p: nat, n: nat)
    requires Picks(ia, p) && Picks(ib, n)
    ensures Picks(Positions(ia, aborted, ib, p), p + 1 + n)
  {
  }

  lemma SplitPositions(idx: seq<nat>, p: nat, n: nat) returns (ia: seq<nat>, aborted: bool, ib: seq<nat>)
    requires Picks(idx, p + 1 + n)
    ensures Picks(ia, p) && Picks(ib, n) && idx == Positions(ia, aborted, ib, p)
  {
    hide Picks, Less, More;
    var k := Below(idx, p);
    ia := idx[..k];
    PickedBelow(idx, k, p, n);
    aborted := k < |idx| && idx[k] == p;
    var l := if aborted then k + 1 else k;
    PickedAbove(idx, k, l, p, n);
    ib := Less(idx[l..], p + 1);
    SplitsInThree(idx, k, l);
    assert idx[k..l] == if aborted then [p] else [];
  }

  lemma SplitsInThree(idx: seq<nat>, k: nat, l: nat)
    requires k <= l <= |idx|
    ensures idx == idx[..k] + idx[k..l] + idx[l..]
  {
  }

  lemma PickedBelow(idx: seq<nat>, k: nat, p: nat, n: nat)
    requires Picks(idx, p + 1 + n) && k <= |idx| && (k > 0 ==> idx[k - 1] < p)
    ensures Picks(idx[..k], p)
  {
  }

  lemma PickedAbove(idx: seq<nat>, k: nat, l: nat, p: nat, n: nat)
    requires Picks(idx, p + 1 + n) && k <= l <= |idx|
    requires l < |idx| ==> idx[l] > p || (k < l && idx[k] == p)
    ensures forall i :: 0 <= i < |idx| - l ==> idx[l..][i] >= p + 1
    ensures Picks(Less(idx[l..], p + 1), n) && More(Less(idx[l..], p + 1), p + 1) == idx[l..]
  {
    assert forall i :: 0 <= i < |idx| - l ==> idx[l..][i] == idx[l + i];
  }

  lemma PickBefore<T>(u: seq<T>, v: seq<T>, idx: seq<nat>)
    requires forall i :: 0 <= i < |idx| ==> idx[i] < |u|
    ensures Pick(u + v, idx) == Pick(u, idx)
  {
  }

  lemma PickBehind<T>(u: seq<T>, v: seq<T>, idx: seq<nat>)
    requires forall i :: 0 <= i < |idx| ==> idx[i] < |v|
    ensures Pick(u + v, More(idx, |u|)) == Pick(v, idx)
  {
  }

  /** Frames picked around one that separates a beginning of fs from all of it. */
  lemma PickAround<T>(fs: seq<T>, p: nat, mid: T, ia: seq<nat>, aborted: bool, ib: seq<nat>)
    requires p <= |fs| && Picks(ia, p) && Picks(ib, |fs|)
    ensures Picks(Positions(ia, aborted, ib, p), p + 1 + |fs|)
    ensures Pick(fs[..p] + [mid] + fs, Positions(ia, aborted, ib, p))
         == Pick(fs, ia) + (if aborted then [mid] else []) + Pick(fs, ib)
  {
    hide Pick, More;
    JoinPositions(ia, aborted, ib, p, |fs|);
    var first, at := fs[..p] + [mid], if aborted then [p] else [];
    var w := first + fs;
    PickConcat(w, ia, at);
    PickConcat(w, ia + at, More(ib, p + 1));
    PickBehind(first, fs, ib);
    PickBefore(first, fs, ia + at);
    PickBefore(first, fs, ia);
    PickBefore(fs[..p], [mid], ia);
    assert fs == fs[..p] + fs[p..];
    PickBefore(fs[..p], fs[p..], ia);
    PickOne(w, p, aborted);
  }

  lemma PickOne<T>(w: seq<T>, p: nat, yes: bool)
    requires p < |w|
    ensures Pick(w, if yes then [p] else []) == if yes then [w[p]] else []
  {
  }

  /** A payload spliced with itself is itself, unless a whole lap fits in. */
  lemma OwnSplice(kind: u8, data: seq<u8>, k: u8, d: seq<u8>)
    requires |data| < 65537 * MAX_PAYLOAD && IsSplice(kind, data, data, k, d)
    ensures k == kind && d == data
  {
    hide Chunks, Part;
    var h: Shape :| !h.Ahead? && Fits(|data|, h, Chunks(|data|)) && d == Form(data, data, h, Chunks(|data|));
    if h.Straight? {
      PartAll(data, h.c);
    }
  }

  lemma AbortClears(s: Reasm)
    ensures Step(s, ABORT) == (Cleared(s), Nothing)
  {
  }

  /** The ABORT arrived: two transfers to idle receivers. */
  lemma AbortedResult(s: Reasm, kind: u8, data: seq<u8>, ia: seq<nat>, ib: seq<nat>, q: nat)
    requires Idle(s) && |data| <= MAX_TRANSFER && Picks(ia, Chunks(|data|) + 2) && Picks(ib, Chunks(|data|) + 2)
    requires q < |ia| + 1 + |ib|
    ensures var r := ResultAt(s, Pick(Transfer(kind, data), ia) + [ABORT] + Pick(Transfer(kind, data), ib), q);
      r.Complete? ==> r == Complete(kind, data)
  {
    hide Step, Run, ResultAt, Transfer, Chunks;
    var first, second := Pick(Transfer(kind, data), ia), Pick(Transfer(kind, data), ib);
    if q < |ia| {
      ResultInFirst(s, first + [ABORT], second, q);
      ResultInFirst(s, first, [ABORT], q);
      LossIsNeverComplete(s, kind, data, ia, q);
    } else {
      var s1 := Run(s, first);
      AbortClears(s1);
      RunAppend(s, first, ABORT);
      if q == |ia| {
        ResultInFirst(s, first + [ABORT], second, q);
        LastResult(s, first, ABORT);
      } else {
        ResultInSecond(s, first + [ABORT], second, q - |ia| - 1);
        LossIsNeverComplete(Cleared(s1), kind, data, ib, q - |ia| - 1);
      }
    }
  }

  lemma LastResult(s: Reasm, fs: seq<Frame>, f: Frame)
    ensures ResultAt(s, fs + [f], |fs|) == Step(Run(s, fs), f).1
  {
    hide Step, Run;
    assert (fs + [f])[..|fs|] == fs;
  }

  lemma SafeWhenShort(s: Reasm, kind: u8, data: seq<u8>, p: nat, idx: seq<nat>, q: nat)
    requires Idle(s) && |data| < 65537 * MAX_PAYLOAD && p <= Chunks(|data|)
    requires Picks(idx, p + Chunks(|data|) + 3) && q < |idx|
    ensures RetryResultOk(s, kind, data, p, idx, q)
  {
    hide Step, Run, ResultAt, Transfer, Chunks, IsSplice;
    var ia, aborted, ib := SplitPositions(idx, p, Chunks(|data|) + 2);
    PickAround(Transfer(kind, data), p, ABORT, ia, aborted, ib);
    var first, second := Pick(Transfer(kind, data), ia), Pick(Transfer(kind, data), ib);
    if aborted {
      AbortedResult(s, kind, data, ia, ib, q);
    } else {
      assert first + [] == first;
      var r := ResultAt(s, first + second, q);
      if r.Complete? {
        OnlyThese(s, kind, data, kind, data, ia, ib, q, r.kind, r.data);
        if IsSplice(kind, data, data, r.kind, r.data) {
          OwnSplice(kind, data, r.kind, r.data);
        }
      }
    }
  }

  /** The only END written is the last frame of the retry. */
  lemma EndOfAttempts(kind: u8, data: seq<u8>, p: nat, w: nat)
    requires p <= Chunks(|data|) && w < |Attempts(kind, data, p)|
    ensures var f := Attempts(kind, data, p)[w];
      f.Frame? && f.t == T_END ==> w == p + Chunks(|data|) + 2
  {
    hide Transfer, TransferFrame, Chunks;
    AttemptsAt(kind, data, p, w);
    if w != p {
      TransferFrameIs(kind, data, if w < p then w else w - p - 1);
    }
  }

  lemma AttemptsAt(kind: u8, data: seq<u8>, p: nat, w: nat)
    requires p <= Chunks(|data|) && w < |Attempts(kind, data, p)|
    ensures Attempts(kind, data, p)[w] == if w == p then ABORT else Transfer(kind, data)[if w < p then w else w - p - 1]
  {
    hide Transfer, Chunks;
  }

  /** However much of the two attempts is lost, and whatever the receiver was
      doing, at most one transfer completes, because END is written only by the
      attempt that finishes. */
  lemma RetryCompletesAtMostOnce(s: Reasm, kind: u8, data: seq<u8>, p: nat, idx: seq<nat>, q: nat, r: nat)
    requires p <= Chunks(|data|) && Picks(idx, p + Chunks(|data|) + 3) && q < |idx| && r < |idx|
    requires ResultAt(s, Pick(Attempts(kind, data, p), idx), q).Complete?
    requires ResultAt(s, Pick(Attempts(kind, data, p), idx), r).Complete?
    ensures q == r
  {
    hide Step, Run, Chunks, Transfer;
    var got := Pick(Attempts(kind, data, p), idx);
    OnlyEndCompletes(Run(s, got[..q]), got[q]);
    OnlyEndCompletes(Run(s, got[..r]), got[r]);
    EndOfAttempts(kind, data, p, idx[q]);
    EndOfAttempts(kind, data, p, idx[r]);
  }

  // ----- the length from which a retry can go wrong ----------------------------

  /** The chunk after a lap is taken for the first one: DATA 1 of the retry, where
      DATA 65537 of the first attempt was due. */
  const OVERTAKEN := Caught(LAP, 1)

  lemma OvertakenFits(n: nat)
    requires 65537 * MAX_PAYLOAD <= n <= MAX_TRANSFER
    ensures 65537 <= Chunks(n) && Fits(n, OVERTAKEN, Chunks(n))
  {
  }

  /** The positions delivered by the losing run: START and DATA 1 to 65536 of
      the first attempt, then DATA 1 and DATA 65538 onwards of the retry. */
  function LosingRun(n: nat, p: nat): seq<nat>
    requires Fits(n, OVERTAKEN, Chunks(n))
  {
    Positions(FirstIdx(OVERTAKEN, n), false, SecondIdx(OVERTAKEN, n) + [Chunks(n) + 1], p)
  }

  /** The losing run completes, from any state, with DATA 1 in the place of
      DATA 65537. */
  lemma LosingRunCompletes(s: Reasm, kind: u8, data: seq<u8>, p: nat)
    requires 65537 * MAX_PAYLOAD <= |data| <= MAX_TRANSFER && 65537 <= p <= Chunks(|data|)
    ensures Fits(|data|, OVERTAKEN, Chunks(|data|))
    ensures var idx := LosingRun(|data|, p);
      && idx != [] && Picks(idx, p + Chunks(|data|) + 3)
      && ResultAt(s, Pick(Attempts(kind, data, p), idx), |idx| - 1)
         == Complete(kind, data[..65536 * MAX_PAYLOAD] + data[..MAX_PAYLOAD] + data[65537 * MAX_PAYLOAD..])
  {
    hide Step, Run, ResultAt, Transfer, Chunks, FirstIdx, SecondIdx;
    OvertakenFits(|data|);
    ShapeCompletes(s, kind, data, kind, data, OVERTAKEN);
    FirstBelow(|data|);
    var ia, ib := FirstIdx(OVERTAKEN, |data|), SecondIdx(OVERTAKEN, |data|) + [Chunks(|data|) + 1];
    PickAround(Transfer(kind, data), p, ABORT, ia, false, ib);
    assert Pick(Transfer(kind, data), ia) + [] == Pick(Transfer(kind, data), ia);
    OvertakenForm(data);
  }

  lemma FirstBelow(n: nat)
    requires Fits(n, OVERTAKEN, Chunks(n))
    ensures Picks(FirstIdx(OVERTAKEN, n), 65537)
  {
    hide Chunks;
  }

  lemma OvertakenForm(data: seq<u8>)
    requires Fits(|data|, OVERTAKEN, Chunks(|data|)) && 65537 * MAX_PAYLOAD <= |data|
    ensures Form(data, data, OVERTAKEN, Chunks(|data|))
         == data[..65536 * MAX_PAYLOAD] + data[..MAX_PAYLOAD] + data[65537 * MAX_PAYLOAD..]
  {
    hide Chunks;
    Ends(|data|, 0, 1);
    Ends(|data|, 1, 65536);
    Ends(|data|, 65536, 65537);
    Ends(|data|, 65537, Chunks(|data|));
    assert data[65537 * MAX_PAYLOAD..|data|] == data[65537 * MAX_PAYLOAD..];
  }

  /** A payload that the losing run alters. */
  function Alterable(n: nat): (data: seq<u8>)
    requires 65537 * MAX_PAYLOAD <= n
    ensures |data| == n
    ensures data != data[..65536 * MAX_PAYLOAD] + data[..MAX_PAYLOAD] + data[65537 * MAX_PAYLOAD..]
  {
    var d: seq<u8> := seq(n, i => if i < 65536 * MAX_PAYLOAD then 0 else 1);
    assert (d[..65536 * MAX_PAYLOAD] + d[..MAX_PAYLOAD] + d[65537 * MAX_PAYLOAD..])[65536 * MAX_PAYLOAD] == 0;
    d
  }

  /** Within the channel's limit, a lossy retry to an idle receiver is safe
      exactly up to 65536 full DATA frames: from 65537 on the sequence number
      alone cannot tell the two attempts apart, and a payload of that length can
      be received altered. */
  lemma RetrySafeIff(length: nat)
    requires length <= MAX_TRANSFER
    ensures RetrySafe(length) <==> length < 65537 * MAX_PAYLOAD
  {
    hide Step, Run, ResultAt, Chunks, LosingRun, Attempts;
    if length < 65537 * MAX_PAYLOAD {
      forall s: Reasm, kind: u8, data: seq<u8>, p: nat, idx: seq<nat>, q: nat
        | Idle(s) && |data| == length && StallPoint(data, p) && Picks(idx, p + Chunks(length) + 3) && q < |idx|
        ensures RetryResultOk(s, kind, data, p, idx, q)
      {
        SafeWhenShort(s, kind, data, p, idx, q);
      }
    } else {
      OvertakenFits(length);
      var n := Chunks(length);
      var data := Alterable(length);
      LosingRunCompletes(FRESH, KIND_TEXT, data, n);
      var idx := LosingRun(length, n);
      assert !RetryResultOk(FRESH, KIND_TEXT, data, n, idx, |idx| - 1);
    }
  }
}
