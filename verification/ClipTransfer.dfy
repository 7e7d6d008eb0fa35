/** What an idle receiver gets from the frames of one transfer: all of them, or
    some of them (protocol/clipframe/src/lib.rs). */
module ClipTransfer {
  import opened Bytes
  import opened ClipFrame

  // ----- chunk arithmetic -------------------------------------------------

  lemma ChunkBounds(n: nat)
    ensures n == 0 ==> Chunks(n) == 0
    ensures n > 0 ==> MAX_PAYLOAD * (Chunks(n) - 1) < n <= MAX_PAYLOAD * Chunks(n)
    ensures ChunkEnd(n, 0) == 0 && ChunkEnd(n, Chunks(n)) == n
  {
  }

  lemma ChunkEndGrows(n: nat, i: nat, j: nat)
    requires i < j <= Chunks(n)
    ensures ChunkEnd(n, i) == MAX_PAYLOAD * i < ChunkEnd(n, j) <= n
  {
    ChunkBounds(n);
  }

  // ----- feeding consecutive DATA frames ------------------------------------

  lemma DataStep(s: Reasm, kind: u8, data: seq<u8>, total: u32, d: seq<u8>, i: nat)
    requires 1 <= i <= Chunks(|data|)
    requires Holds(s, kind, total, Wrap16(i - 1), d)
    requires |d| + |Chunk(data, i)| <= total
    ensures Step(s, TransferFrame(kind, data, i))
         == (Reasm(Some(InProgress(kind, total, Wrap16(i), d + Chunk(data, i))), Wrap32(s.dataFrames + 1)),
             Progress(Wrap32(s.dataFrames + 1)))
  {
    TransferFrameIs(kind, data, i);
    Wrap16Next(i - 1);
    DataAccepted(s, TransferFrame(kind, data, i));
    hide Step, TransferFrame, Chunk, Chunks, ChunkEnd, Wrap16, Wrap32;
  }

  /** Taking frame j extends data[a..] by the bytes of chunk j. */
  lemma FeedOne(s: Reasm, kind: u8, data: seq<u8>, total: u32, d: seq<u8>, a: nat, j: nat)
    requires 1 <= j <= Chunks(|data|)
    requires a <= ChunkEnd(|data|, j - 1) && |d| + ChunkEnd(|data|, j) - a <= total
    requires Holds(s, kind, total, Wrap16(j - 1), d + data[a..ChunkEnd(|data|, j - 1)])
    ensures a <= ChunkEnd(|data|, j)
    ensures Step(s, TransferFrame(kind, data, j)).0
         == Reasm(Some(InProgress(kind, total, Wrap16(j), d + data[a..ChunkEnd(|data|, j)])), Wrap32(s.dataFrames + 1))
  {
    hide Step, TransferFrame, Chunks, ChunkEnd, Wrap16, Wrap32;
    ChunkEndGrows(|data|, j - 1, j);
    var b, c := ChunkEnd(|data|, j - 1), ChunkEnd(|data|, j);
    assert Chunk(data, j) == data[b..c];
    DataStep(s, kind, data, total, d + data[a..b], j);
    assert data[a..b] + data[b..c] == data[a..c];
    assert d + data[a..b] + data[b..c] == d + (data[a..b] + data[b..c]);
  }

  /** Frames i to j - 1 extend what is held by exactly the bytes they carry. */
  lemma {:induction false} FeedRange(
      s: Reasm, kind: u8, data: seq<u8>, total: u32, d: seq<u8>, i: nat, j: nat)
    requires 1 <= i <= j <= Chunks(|data|) + 1
    requires Holds(s, kind, total, Wrap16(i - 1), d)
    requires |d| + ChunkEnd(|data|, j - 1) - ChunkEnd(|data|, i - 1) <= total
    ensures ChunkEnd(|data|, i - 1) <= ChunkEnd(|data|, j - 1)
    ensures Holds(Run(s, Transfer(kind, data)[i..j]), kind, total, Wrap16(j - 1),
                  d + data[ChunkEnd(|data|, i - 1)..ChunkEnd(|data|, j - 1)])
    ensures Run(s, Transfer(kind, data)[i..j]).dataFrames == Wrap32(s.dataFrames + (j - i))
    decreases j
  {
    hide Step, TransferFrame, Chunks, ChunkEnd, Wrap16, Wrap32;
    var fs := Transfer(kind, data);
    if i < j {
      ChunkEndGrows(|data|, j - 2, j - 1);
      FeedRange(s, kind, data, total, d, i, j - 1);
      assert fs[i..j] == fs[i..j - 1] + [fs[j - 1]];
      RunAppend(s, fs[i..j - 1], fs[j - 1]);
      FeedOne(Run(s, fs[i..j - 1]), kind, data, total, d, ChunkEnd(|data|, i - 1), j - 1);
      Wrap32Next(s.dataFrames + (j - 1 - i));
    } else {
      assert fs[i..j] == [];
      assert d + data[ChunkEnd(|data|, i - 1)..ChunkEnd(|data|, i - 1)] == d;
      WrapsNothing(s.dataFrames);
    }
  }

  /** Whatever the receiver was doing, after the first j frames it holds
      exactly the bytes of the first j - 1 DATA frames. */
  lemma FeedPrefix(s: Reasm, kind: u8, data: seq<u8>, j: nat)
    requires 1 <= j <= Chunks(|data|) + 1 && |data| <= MAX_TRANSFER
    ensures Run(s, Transfer(kind, data)[..j])
         == Reasm(Some(InProgress(kind, |data|, Wrap16(j - 1), data[..ChunkEnd(|data|, j - 1)])), j - 1)
  {
    hide Step, TransferFrame, Chunks, ChunkEnd, Wrap16, Wrap32;
    var fs := Transfer(kind, data);
    StartStep(s, kind, data);
    var s1 := Step(s, fs[0]).0;
    assert fs[..1] == [] + [fs[0]];
    RunAppend(s, [], fs[0]);
    ChunkBounds(|data|);
    if j > 1 {
      ChunkEndGrows(|data|, j - 2, j - 1);
    }
    FeedRange(s1, kind, data, |data|, [], 1, j);
    assert [] + data[0..ChunkEnd(|data|, j - 1)] == data[..ChunkEnd(|data|, j - 1)];
    assert fs[..j] == fs[..1] + fs[1..j];
    RunConcat(s, fs[..1], fs[1..j]);
    WrapsNothing(j - 1);
  }

  lemma StartStep(s: Reasm, kind: u8, data: seq<u8>)
    requires |data| <= MAX_TRANSFER
    ensures Step(s, TransferFrame(kind, data, 0))
         == (Reasm(Some(InProgress(kind, |data|, Wrap16(0), [])), 0), Nothing)
  {
    hide Le32, FromLe32;
    TransferFrameIs(kind, data, 0);
    WrapsNothing(|data|);
    WrapsNothing(0);
  }

  /** The END frame of a transfer, whatever is held. */
  lemma EndStep(s: Reasm, kind: u8, data: seq<u8>)
    ensures var r := Step(s, TransferFrame(kind, data, Chunks(|data|) + 1));
            && r.0 == s.(active := None)
            && (r.1.Complete? <==>
                  && s.active.Some? && s.active.value.total == Wrap32(|data|) == Wrap32(|s.active.value.data|)
                  && Wrap16(s.active.value.last + 1) == Wrap16(Chunks(|data|) + 1))
            && (r.1.Complete? ==> r.1 == Complete(s.active.value.kind, s.active.value.data))
  {
    TransferFrameIs(kind, data, 0);
    hide Le32, FromLe32, TransferFrame, Wrap16, Wrap32, Chunks;
  }

  lemma OnlyEndCompletes(s: Reasm, f: Frame)
    ensures Step(s, f).1.Complete? ==> f.Frame? && f.t == T_END && s.active.Some?
  {
  }

  // ----- everything arrives -------------------------------------------------

  /** A fully delivered transfer completes with exactly the payload it was
      encoded from, from any receiver state, if and only if the payload is
      within the channel's limit; and the receiver is idle afterwards. */
  lemma DeliveredIff(s: Reasm, kind: u8, data: seq<u8>)
    requires Bounded(s)
    ensures ResultAt(s, Transfer(kind, data), Chunks(|data|) + 1) == Complete(kind, data)
       <==> |data| <= MAX_TRANSFER
    ensures Run(s, Transfer(kind, data)).active == None
    ensures forall i :: 0 <= i <= Chunks(|data|) ==> !ResultAt(s, Transfer(kind, data), i).Complete?
  {
    hide Step, TransferFrame, Chunks, ChunkEnd, Wrap16, Wrap32;
    var fs, n := Transfer(kind, data), Chunks(|data|);
    var before := Run(s, fs[..n + 1]);
    EndStep(before, kind, data);
    RunBounded(s, fs[..n + 1]);
    assert fs == fs[..n + 1] + [fs[n + 1]];
    RunAppend(s, fs[..n + 1], fs[n + 1]);
    if |data| <= MAX_TRANSFER {
      FeedPrefix(s, kind, data, n + 1);
      ChunkBounds(|data|);
      assert data[..|data|] == data;
      WrapsNothing(|data|);
      Wrap16Next(n);
    }
    forall i | 0 <= i <= n ensures !ResultAt(s, fs, i).Complete? {
      TransferFrameIs(kind, data, i);
      OnlyEndCompletes(Run(s, fs[..i]), fs[i]);
    }
  }

  /** No transfer is in progress; the receiver may have had any before. */
  predicate Idle(s: Reasm) { s.active.None? }

  // ----- some frames are lost ------------------------------------------------

  /** What is held never exceeds what the last delivered frame could have
      brought, and reaches it only when nothing was skipped. */
  ghost predicate LossInv(s: Reasm, kind: u8, data: seq<u8>, idx: seq<nat>) {
    s.active.Some? ==>
      var a := s.active.value;
      && |idx| > 0
      && a.kind == kind && a.total == |data|
      && var last := idx[|idx| - 1];
         && last <= Chunks(|data|)
         && |a.data| <= ChunkEnd(|data|, last)
         && (|a.data| == ChunkEnd(|data|, last) ==>
               a.data == data[..ChunkEnd(|data|, last)] && last == |idx| - 1)
  }

  lemma LossStep(s: Reasm, kind: u8, data: seq<u8>, idx: seq<nat>, m: nat)
    requires |data| <= MAX_TRANSFER && LossInv(s, kind, data, idx)
    requires m <= Chunks(|data|) + 1 && (|idx| > 0 ==> idx[|idx| - 1] < m)
    ensures LossInv(Step(s, TransferFrame(kind, data, m)).0, kind, data, idx + [m])
  {
    hide TransferFrame, Chunks, ChunkEnd, Wrap16, Wrap32, Le32, FromLe32;
    var n := |data|;
    ChunkBounds(n);
    if m == 0 {
      StartStep(s, kind, data);
    } else if m == Chunks(n) + 1 {
      EndStep(s, kind, data);
    } else {
      TransferFrameIs(kind, data, m);
      ChunkEndGrows(n, m - 1, m);
      if s.active.Some? {
        var a, last := s.active.value, idx[|idx| - 1];
        if last < m - 1 {
          ChunkEndGrows(n, last, m - 1);
        }
        var joined := a.data + Chunk(data, m);
        WrapsNothing(|joined|);
        if |joined| == ChunkEnd(n, m) {
          assert joined == data[..ChunkEnd(n, m)];
        }
      }
    }
  }

  lemma {:induction false} LossRun(s: Reasm, kind: u8, data: seq<u8>, idx: seq<nat>)
    requires Idle(s) && |data| <= MAX_TRANSFER && Picks(idx, Chunks(|data|) + 2)
    ensures LossInv(Run(s, Pick(Transfer(kind, data), idx)), kind, data, idx)
  {
    hide Step, TransferFrame, Chunks;
    if idx != [] {
      var k := |idx| - 1;
      var fs := Transfer(kind, data);
      assert idx == idx[..k] + [idx[k]];
      LossRun(s, kind, data, idx[..k]);
      assert Pick(fs, idx)[..k] == Pick(fs, idx[..k]);
      LossStep(Run(s, Pick(fs, idx[..k])), kind, data, idx[..k], idx[k]);
    }
  }

  lemma LossAtEnd(s: Reasm, kind: u8, data: seq<u8>, idx: seq<nat>)
    requires |data| <= MAX_TRANSFER && LossInv(s, kind, data, idx) && Bounded(s)
    requires Step(s, TransferFrame(kind, data, Chunks(|data|) + 1)).1.Complete?
    ensures Step(s, TransferFrame(kind, data, Chunks(|data|) + 1)).1 == Complete(kind, data)
    ensures |idx| == Chunks(|data|) + 1
  {
    hide Step, TransferFrame, Chunks, ChunkEnd, Wrap16, Wrap32;
    EndStep(s, kind, data);
    var n, last := Chunks(|data|), idx[|idx| - 1];
    WrapsNothing(|data|);
    WrapsNothing(|s.active.value.data|);
    ChunkBounds(|data|);
    if last < n {
      ChunkEndGrows(|data|, last, n);
    }
    assert data[..|data|] == data;
  }

  lemma LossThenEnd(s: Reasm, kind: u8, data: seq<u8>, idx: seq<nat>)
    requires Idle(s) && |data| < 0x1_0000_0000 && Picks(idx, Chunks(|data|) + 2)
    ensures var r := Step(Run(s, Pick(Transfer(kind, data), idx)),
                          TransferFrame(kind, data, Chunks(|data|) + 1)).1;
      r.Complete? ==> r == Complete(kind, data) && |idx| == Chunks(|data|) + 1
  {
    hide Step, TransferFrame, Chunks, ChunkEnd, Wrap16, Wrap32, Run;
    var got := Pick(Transfer(kind, data), idx);
    TooLongNeverCompletes(s, kind, data, got);
    if |data| <= MAX_TRANSFER && Step(Run(s, got), TransferFrame(kind, data, Chunks(|data|) + 1)).1.Complete? {
      LossRun(s, kind, data, idx);
      RunBounded(s, got);
      LossAtEnd(Run(s, got), kind, data, idx);
    }
  }

  /** Any subsequence of a transfer's frames, fed to any idle receiver, completes
      only when it is the whole transfer, and then with the original payload:
      skipping a multiple of 65536 frames passes the number check but never the
      length check. */
  lemma LossIsNeverComplete(s: Reasm, kind: u8, data: seq<u8>, idx: seq<nat>, q: nat)
    requires Idle(s) && |data| < 0x1_0000_0000 && Picks(idx, Chunks(|data|) + 2) && q < |idx|
    ensures ResultAt(s, Pick(Transfer(kind, data), idx), q).Complete? ==>
              && ResultAt(s, Pick(Transfer(kind, data), idx), q) == Complete(kind, data)
              && q == |idx| - 1 && Pick(Transfer(kind, data), idx) == Transfer(kind, data)
  {
    hide Step, TransferFrame, Chunks, ChunkEnd, Wrap16, Wrap32, Run, Le32;
    var fs := Transfer(kind, data);
    var got := Pick(fs, idx);
    assert got[..q] == Pick(fs, idx[..q]);
    TransferFrameIs(kind, data, idx[q]);
    OnlyEndCompletes(Run(s, got[..q]), got[q]);
    if ResultAt(s, got, q).Complete? {
      LossThenEnd(s, kind, data, idx[..q]);
      PickAll(fs, idx, q);
    }
  }

  /** A pick of as many elements as there are is everything. */
  lemma PickAll<T>(s: seq<T>, idx: seq<nat>, q: nat)
    requires Picks(idx, |s|) && q < |idx| && q == |s| - 1
    ensures q == |idx| - 1 && Pick(s, idx) == s
  {
    PicksSpread(idx, 0, |idx| - 1);
    PicksFull(idx, |s|);
  }

  /** An END repeating a length beyond the limit completes nothing. */
  lemma TooLongNeverCompletes(s: Reasm, kind: u8, data: seq<u8>, fs: seq<Frame>)
    requires |data| < 0x1_0000_0000 && Bounded(s)
    ensures Step(Run(s, fs), TransferFrame(kind, data, Chunks(|data|) + 1)).1.Complete? ==>
              |data| <= MAX_TRANSFER
  {
    hide Step, TransferFrame, Chunks, Wrap16, Wrap32;
    RunBounded(s, fs);
    EndStep(Run(s, fs), kind, data);
    WrapsNothing(|data|);
  }

  /** n increasing positions below n are all of them. */
  lemma {:induction false} PicksFull(idx: seq<nat>, n: nat)
    requires Picks(idx, n) && |idx| == n
    ensures forall i :: 0 <= i < n ==> idx[i] == i
  {
    forall i | 0 <= i < n ensures idx[i] == i {
      PicksSpread(idx, 0, i);
      PicksSpread(idx, i, n - 1);
    }
  }

  lemma {:induction false} PicksSpread(idx: seq<nat>, i: nat, j: nat)
    requires i <= j < |idx| && forall a, b :: 0 <= a < b < |idx| ==> idx[a] < idx[b]
    ensures idx[i] + (j - i) <= idx[j]
    decreases j
  {
    if i < j {
      PicksSpread(idx, i, j - 1);
    }
  }

  // ----- runs in two parts ---------------------------------------------------------

  function Cleared(s: Reasm): Reasm { s.(active := None) }

  lemma ResultInSecond(s: Reasm, fs: seq<Frame>, gs: seq<Frame>, k: nat)
    requires k < |gs|
    ensures ResultAt(s, fs + gs, |fs| + k) == ResultAt(Run(s, fs), gs, k)
  {
    hide Step;
    assert (fs + gs)[..|fs| + k] == fs + gs[..k];
    RunConcat(s, fs, gs[..k]);
  }

  lemma ResultInFirst(s: Reasm, fs: seq<Frame>, gs: seq<Frame>, q: nat)
    requires q < |fs|
    ensures ResultAt(s, fs + gs, q) == ResultAt(s, fs, q)
  {
    hide Step;
    assert (fs + gs)[..q] == fs[..q];
  }

  /** A START resets whatever was there. */
  lemma Started(s: Reasm, kind: u8, data: seq<u8>, idx: seq<nat>, q: nat)
    requires |data| <= MAX_TRANSFER && Picks(idx, Chunks(|data|) + 2) && q < |idx| && idx[0] == 0
    ensures ResultAt(s, Pick(Transfer(kind, data), idx), q) == ResultAt(Cleared(s), Pick(Transfer(kind, data), idx), q)
  {
    hide Step, Run, TransferFrame, Chunks, Wrap16;
    var got := Pick(Transfer(kind, data), idx);
    StartStep(s, kind, data);
    StartStep(Cleared(s), kind, data);
    if q > 0 {
      var first, tail := [got[0]], got[1..q];
      assert got[..q] == first + tail && first == [] + first;
      RunNothing(s);
      RunNothing(Cleared(s));
      RunAppend(s, [], got[0]);
      RunAppend(Cleared(s), [], got[0]);
      RunConcat(s, first, tail);
      RunConcat(Cleared(s), first, tail);
    } else {
      assert got[..0] == [];
      RunNothing(s);
      RunNothing(Cleared(s));
    }
  }

  lemma RunNothing(s: Reasm)
    ensures Run(s, []) == s
  {
  }

  /** A DATA frame that is taken appends its payload and stays within the total. */
  lemma DataAdds(s: Reasm, f: Frame)
    requires f.Frame? && f.t == T_DATA
    ensures var after := Step(s, f).0;
      after.active.Some? ==>
        && s.active.Some? && f.seqno == Wrap16(s.active.value.last + 1)
        && after.active.value == s.active.value.(last := f.seqno, data := s.active.value.data + f.payload)
        && Wrap32(|s.active.value.data + f.payload|) <= s.active.value.total
  {
    hide Wrap16, Wrap32;
  }
}
