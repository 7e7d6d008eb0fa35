/** Two transfers one after the other, any part of each lost: exactly what an
    idle receiver can complete (protocol/clipframe/src/lib.rs). */
module ClipSplice {
  import opened Bytes
  import opened ClipFrame
  import opened ClipTransfer

  /** Sequence numbers come round after this many frames; within the channel's
      limit they do so at most once in a transfer. */
  const LAP := 65536

  // ----- chunks of a payload ----------------------------------------------------

  lemma Ends(n: nat, i: nat, j: nat)
    requires i <= j
    ensures ChunkEnd(n, i) <= ChunkEnd(n, j) <= n
    ensures i * MAX_PAYLOAD <= n ==> ChunkEnd(n, i) == i * MAX_PAYLOAD
    ensures i < Chunks(n) ==> i * MAX_PAYLOAD < n
    ensures ChunkEnd(n, Chunks(n)) == n && n <= Chunks(n) * MAX_PAYLOAD
  {
  }

  lemma WithinLimit(n: nat)
    requires n <= MAX_TRANSFER
    ensures Chunks(n) < LAP + 400
  {
  }

  /** Chunks i + 1 to j of a payload. */
  function Part(d: seq<u8>, i: nat, j: nat): seq<u8>
    requires i <= j
  {
    Ends(|d|, i, j);
    d[ChunkEnd(|d|, i)..ChunkEnd(|d|, j)]
  }

  lemma PartSize(d: seq<u8>, i: nat, j: nat)
    requires i <= j
    ensures |Part(d, i, j)| == ChunkEnd(|d|, j) - ChunkEnd(|d|, i)
    ensures i == j ==> Part(d, i, j) == []
  {
    Ends(|d|, i, j);
  }

  lemma PartNext(d: seq<u8>, i: nat, j: nat)
    requires i <= j < Chunks(|d|)
    ensures Part(d, i, j) + Chunk(d, j + 1) == Part(d, i, j + 1)
  {
    hide ChunkEnd, Chunks;
    Ends(|d|, i, j);
    Ends(|d|, j, j + 1);
    var x, y, z := ChunkEnd(|d|, i), ChunkEnd(|d|, j), ChunkEnd(|d|, j + 1);
    assert d[x..y] + d[y..z] == d[x..z];
  }

  lemma PartAll(d: seq<u8>, c: nat)
    requires c <= Chunks(|d|)
    ensures Part(d, 0, c) + Part(d, c, Chunks(|d|)) == d
  {
    hide Chunks;
    Ends(|d|, 0, c);
    Ends(|d|, c, Chunks(|d|));
    var y := ChunkEnd(|d|, c);
    assert d[..y] + d[y..] == d;
  }

  // ----- what can be held ---------------------------------------------------------

  /** How the chunks held came together, from the first transfer and then the
      second: Straight changes over after chunk c; Back has skipped a lap after
      chunk c0 of the first, and falls back a lap at the change; Ahead falls back
      a lap without having skipped one, and Caught then skips one after chunk k. */
  datatype Shape = Straight(c: nat) | Back(c0: nat, c: nat) | Ahead(c: nat) | Caught(c: nat, k: nat)

  /** The shape is possible with chunk e of the second transfer (or the frame of
      the first with that number) taken last. */
  predicate Fits(n: nat, h: Shape, e: nat) {
    && e <= Chunks(n)
    && match h
       case Straight(c) => c <= e
       case Back(c0, c) => c0 + LAP < c <= e + LAP && c <= Chunks(n) && c * MAX_PAYLOAD <= n
       case Ahead(c) => LAP <= c <= e + LAP && (e + LAP) * MAX_PAYLOAD <= n
       case Caught(c, k) => LAP <= c < k + LAP <= e && (k + LAP) * MAX_PAYLOAD <= n
  }

  /** What is held before the last stretch of chunks of the second transfer. */
  function Head(a: seq<u8>, b: seq<u8>, h: Shape): seq<u8>
    requires match h
      case Straight(_) => true
      case Back(c0, c) => c0 + LAP < c
      case Ahead(c) => true
      case Caught(c, k) => LAP <= c < k + LAP
  {
    match h
    case Straight(c) => Part(a, 0, c)
    case Back(c0, c) => Part(a, 0, c0) + Part(a, c0 + LAP, c)
    case Ahead(c) => Part(a, 0, c)
    case Caught(c, k) => Part(a, 0, c) + Part(b, c - LAP, k)
  }

  /** The chunk after which that stretch begins. */
  function Base(h: Shape): int {
    match h
    case Straight(c) => c
    case Back(_, c) => c - LAP
    case Ahead(c) => c - LAP
    case Caught(_, k) => k + LAP
  }

  function Form(a: seq<u8>, b: seq<u8>, h: Shape, e: nat): seq<u8>
    requires |a| == |b| && Fits(|a|, h, e)
  {
    Head(a, b, h) + Part(b, Base(h), e)
  }

  /** All shapes but Ahead hold as many bytes as chunk e ends with. */
  lemma FormSize(a: seq<u8>, b: seq<u8>, h: Shape, e: nat)
    requires |a| == |b| && Fits(|a|, h, e)
    ensures |Form(a, b, h, e)| == ChunkEnd(|a|, e) + if h.Ahead? then LAP * MAX_PAYLOAD else 0
  {
    hide Part, ChunkEnd, Chunks;
    var n := |a|;
    Ends(n, 0, 0);
    match h
    case Straight(c) =>
      PartSize(a, 0, c);
      PartSize(b, c, e);
    case Back(c0, c) =>
      PartSize(a, 0, c0);
      PartSize(a, c0 + LAP, c);
      PartSize(b, c - LAP, e);
      Ends(n, c0, c);
      Ends(n, c0 + LAP, c);
      Ends(n, c, c);
      Ends(n, c - LAP, c);
    case Ahead(c) =>
      PartSize(a, 0, c);
      PartSize(b, c - LAP, e);
      Ends(n, c, e + LAP);
      Ends(n, c - LAP, e);
      Ends(n, e, e);
    case Caught(c, k) =>
      PartSize(a, 0, c);
      PartSize(b, c - LAP, k);
      PartSize(b, k + LAP, e);
      Ends(n, c, k + LAP);
      Ends(n, c - LAP, k);
      Ends(n, k, k + LAP);
      Ends(n, k + LAP, e);
  }

  lemma FormNext(a: seq<u8>, b: seq<u8>, h: Shape, e: nat)
    requires |a| == |b| && Fits(|a|, h, e) && Fits(|a|, h, e + 1)
    ensures Form(a, b, h, e) + Chunk(b, e + 1) == Form(a, b, h, e + 1)
  {
    FitsBelow(|a|, h, e + 1);
    hide Part, ChunkEnd, Chunks, Chunk, Head;
    PartNext(b, Base(h), e);
    Joins(Head(a, b, h), Part(b, Base(h), e), Chunk(b, e + 1));
  }

  lemma FitsBelow(n: nat, h: Shape, e: nat)
    requires Fits(n, h, e)
    ensures e <= Chunks(n)
  {
  }

  lemma Joins(x: seq<u8>, y: seq<u8>, z: seq<u8>)
    ensures x + y + z == x + (y + z)
  {
  }

  /** Skipping a lap after having fallen back one. */
  lemma FormCatches(a: seq<u8>, b: seq<u8>, c: nat, k: nat)
    requires |a| == |b| && Fits(|a|, Ahead(c), k) && Fits(|a|, Caught(c, k), k + 1 + LAP)
    ensures Form(a, b, Ahead(c), k) + Chunk(b, k + 1 + LAP) == Form(a, b, Caught(c, k), k + 1 + LAP)
  {
    hide Part, ChunkEnd, Chunks, Chunk;
    PartNext(b, k + LAP, k + LAP);
    PartSize(b, k + LAP, k + LAP);
    assert [] + Chunk(b, k + 1 + LAP) == Chunk(b, k + 1 + LAP);
  }

  // ----- what the first transfer leaves behind --------------------------------------

  /** A prefix; a prefix with a lap skipped after chunk c0; or, when the last
      chunk is short, the same with that chunk in it: a stub that is too short
      for anything. m is the last frame delivered. */
  ghost predicate LeftBy(s: Reasm, kind: u8, a: seq<u8>, m: nat) {
    s.active.Some? ==>
      var p := s.active.value;
      && p.kind == kind && p.total == |a| && m <= Chunks(|a|) && p.last == Wrap16(m)
      && ( || p.data == Part(a, 0, m)
           || exists c0: nat :: c0 + LAP < m && p.data == Part(a, 0, c0) + Part(a, c0 + LAP, m))
  }

  lemma SameNumber(i: nat, j: nat)
    requires i < 2 * LAP && j < 2 * LAP && Wrap16(i) == Wrap16(j)
    ensures i == j || i == j + LAP || j == i + LAP
  {
  }

  lemma LeftByData(s: Reasm, kind: u8, a: seq<u8>, m: nat, i: nat)
    requires |a| <= MAX_TRANSFER && LeftBy(s, kind, a, m) && m < i <= Chunks(|a|)
    ensures LeftBy(Step(s, TransferFrame(kind, a, i)).0, kind, a, i)
  {
    hide TransferFrame, Chunks, ChunkEnd, Chunk, Part, Wrap16, Wrap32, Step;
    var f := TransferFrame(kind, a, i);
    TransferFrameIs(kind, a, i);
    WithinLimit(|a|);
    DataAdds(s, f);
    if Step(s, f).0.active.Some? {
      var p := s.active.value;
      Wrap16Next(m);
      SameNumber(i, m + 1);
      PartNext(a, i - 1, i - 1);
      PartSize(a, i - 1, i - 1);
      assert [] + Chunk(a, i) == Chunk(a, i);
      if p.data == Part(a, 0, m) {
        PartNext(a, 0, m);
      } else {
        var c0: nat :| c0 + LAP < m && p.data == Part(a, 0, c0) + Part(a, c0 + LAP, m);
        PartNext(a, c0 + LAP, m);
        Joins(Part(a, 0, c0), Part(a, c0 + LAP, m), Chunk(a, i));
      }
    }
  }

  lemma LeftByFrame(s: Reasm, kind: u8, a: seq<u8>, m: nat, i: nat)
    requires |a| <= MAX_TRANSFER && i <= Chunks(|a|) + 1
    requires LeftBy(s, kind, a, m) && (i == 0 ==> Idle(s)) && (i > 0 ==> m < i)
    ensures LeftBy(Step(s, TransferFrame(kind, a, i)).0, kind, a, i)
  {
    hide TransferFrame, Chunks, ChunkEnd, Part, Wrap16, Wrap32, Step;
    if i == 0 {
      StartStep(s, kind, a);
      PartSize(a, 0, 0);
    } else if i == Chunks(|a|) + 1 {
      EndStep(s, kind, a);
    } else {
      LeftByData(s, kind, a, m, i);
    }
  }

  lemma {:induction false} LeftByRun(s: Reasm, kind: u8, a: seq<u8>, idx: seq<nat>)
    requires Idle(s) && |a| <= MAX_TRANSFER && Picks(idx, Chunks(|a|) + 2)
    ensures LeftBy(Run(s, Pick(Transfer(kind, a), idx)), kind, a, if idx == [] then 0 else idx[|idx| - 1])
  {
    hide Step, TransferFrame, Chunks, LeftBy;
    if idx == [] {
      NothingLeft(s, kind, a);
    } else {
      var k, fs := |idx| - 1, Transfer(kind, a);
      LeftByRun(s, kind, a, idx[..k]);
      assert Pick(fs, idx)[..k] == Pick(fs, idx[..k]);
      if k == 0 {
        assert Pick(fs, idx[..0]) == [];
        NothingLeft(s, kind, a);
      }
      LeftByFrame(Run(s, Pick(fs, idx[..k])), kind, a, if k == 0 then 0 else idx[k - 1], idx[k]);
    }
  }

  lemma NothingLeft(s: Reasm, kind: u8, a: seq<u8>)
    requires Idle(s)
    ensures LeftBy(s, kind, a, 0)
  {
  }

  // ----- what the second transfer makes of it ---------------------------------------

  ghost predicate HasShape(p: InProgress, a: seq<u8>, b: seq<u8>, m: nat, h: Shape, e: nat)
    requires |a| == |b|
  {
    && Fits(|a|, h, e) && p.last == Wrap16(e) && p.data == Form(a, b, h, e)
    && (if m > 0 then e == m && (h.Ahead? ==> h.c < e + LAP)
        else (h.Straight? && e == h.c) || (h.Back? && e + LAP == h.c))
  }

  /** m is the last DATA frame of b delivered, or 0. Without its START, what is
      held has one of the shapes, or is already too short: below the end of chunk
      m, or the stub of the first transfer. */
  ghost predicate Spliced(s: Reasm, ka: u8, a: seq<u8>, b: seq<u8>, m: nat)
    requires |a| == |b|
  {
    s.active.Some? ==>
      var p := s.active.value;
      && p.kind == ka && p.total == |a|
      && ( || (exists h: Shape, e: nat :: HasShape(p, a, b, m, h, e))
           || |p.data| < ChunkEnd(|a|, m)
           || (m == 0 && Stub(p, |a|)))
  }

  ghost predicate Stub(p: InProgress, n: nat) {
    && LAP < Chunks(n) && n < Chunks(n) * MAX_PAYLOAD
    && p.last == Wrap16(Chunks(n)) && |p.data| + LAP * MAX_PAYLOAD == n
  }

  lemma LeftIsSpliced(s: Reasm, ka: u8, a: seq<u8>, b: seq<u8>, m: nat)
    requires |a| == |b| <= MAX_TRANSFER && LeftBy(s, ka, a, m)
    ensures Spliced(s, ka, a, b, 0)
  {
    hide Chunks, ChunkEnd, Part, Wrap16;
    if s.active.Some? {
      var p := s.active.value;
      WithinLimit(|a|);
      if p.data == Part(a, 0, m) {
        PartSize(b, m, m);
        assert Part(a, 0, m) + [] == Part(a, 0, m);
        assert HasShape(p, a, b, 0, Straight(m), m);
      } else {
        var c0: nat :| c0 + LAP < m && p.data == Part(a, 0, c0) + Part(a, c0 + LAP, m);
        SkippedIsSpliced(p, a, b, c0, m);
      }
    }
  }

  lemma SkippedIsSpliced(p: InProgress, a: seq<u8>, b: seq<u8>, c0: nat, m: nat)
    requires |a| == |b| && c0 + LAP < m <= Chunks(|a|) && p.last == Wrap16(m)
    requires p.data == Part(a, 0, c0) + Part(a, c0 + LAP, m)
    ensures (exists h: Shape, e: nat :: HasShape(p, a, b, 0, h, e)) || Stub(p, |a|)
  {
    hide Chunks, ChunkEnd, Part;
    if m * MAX_PAYLOAD <= |a| {
      PartSize(b, m - LAP, m - LAP);
      var d := p.data;
      assert d + [] == d;
      assert HasShape(p, a, b, 0, Back(c0, m), m - LAP);
    } else {
      Ends(|a|, m, m);
      Ends(|a|, c0, c0 + LAP);
      Ends(|a|, c0 + LAP, m);
      Ends(|a|, 0, 0);
      PartSize(a, 0, c0);
      PartSize(a, c0 + LAP, m);
      assert m == Chunks(|a|);
    }
  }

  lemma SplicedData(s: Reasm, ka: u8, a: seq<u8>, kb: u8, b: seq<u8>, m: nat, i: nat)
    requires |a| == |b| <= MAX_TRANSFER && m < i <= Chunks(|a|)
    requires Spliced(s, ka, a, b, m)
    ensures Spliced(Step(s, TransferFrame(kb, b, i)).0, ka, a, b, i)
  {
    hide TransferFrame, Chunks, ChunkEnd, Chunk, Form, Fits, Wrap16, Wrap32, Step;
    var n, f := |a|, TransferFrame(kb, b, i);
    TransferFrameIs(kb, b, i);
    WithinLimit(n);
    DataAdds(s, f);
    var after := Step(s, f).0;
    if after.active.Some? {
      var p := s.active.value;
      ChunkSize(b, i);
      Ends(n, m, i - 1);
      if h: Shape, e: nat :| HasShape(p, a, b, m, h, e) {
        FormSize(a, b, h, e);
        Ends(n, e, e);
        WrapsNothing(|p.data + Chunk(b, i)|);
        ShapeData(p, a, b, m, h, e, i, after.active.value);
      } else if m == 0 && Stub(p, n) {
        Wrap16Next(Chunks(n));
        SameNumber(i, Chunks(n) + 1);
        Ends(n, i, Chunks(n));
        Ends(n, 0, 0);
      }
    }
  }

  lemma ChunkSize(b: seq<u8>, i: nat)
    requires 1 <= i <= Chunks(|b|)
    ensures |Chunk(b, i)| == ChunkEnd(|b|, i) - ChunkEnd(|b|, i - 1) <= MAX_PAYLOAD
    ensures i < Chunks(|b|) ==> |Chunk(b, i)| == MAX_PAYLOAD
  {
    ChunkEndGrows(|b|, i - 1, i);
  }

  /** What taking chunk i makes of a shape. */
  lemma ShapeData(p: InProgress, a: seq<u8>, b: seq<u8>, m: nat, h: Shape, e: nat, i: nat, p': InProgress)
    requires |a| == |b| <= MAX_TRANSFER && m < i <= Chunks(|a|) && HasShape(p, a, b, m, h, e)
    requires Wrap16(i) == Wrap16(p.last + 1) && |p.data| + |Chunk(b, i)| <= |a|
    requires p'.last == Wrap16(i) && p'.data == p.data + Chunk(b, i)
    ensures (exists h': Shape, e': nat :: HasShape(p', a, b, i, h', e')) || |p'.data| < ChunkEnd(|a|, i)
  {
    hide Chunks, ChunkEnd, Chunk, Form, Wrap16;
    var n := |a|;
    WithinLimit(n);
    Wrap16Next(e);
    SameNumber(i, e + 1);
    FormSize(a, b, h, e);
    ChunkSize(b, i);
    Ends(n, i - 1, i);
    if i == e + 1 {
      SameLap(p, a, b, m, h, e, p');
    } else if i + LAP == e + 1 {
      FallsBack(p, a, b, h.c, p');
    } else if h.Ahead? {
      FormCatches(a, b, h.c, e);
      assert HasShape(p', a, b, i, Caught(h.c, e), i);
    } else {
      Ends(n, e, i - 1);
      ChunkEndGrows(n, e, i - 1);
    }
  }

  lemma SameLap(p: InProgress, a: seq<u8>, b: seq<u8>, m: nat, h: Shape, e: nat, p': InProgress)
    requires |a| == |b| <= MAX_TRANSFER && e < Chunks(|a|) && HasShape(p, a, b, m, h, e)
    requires |p.data| + |Chunk(b, e + 1)| <= |a|
    requires p'.last == Wrap16(e + 1) && p'.data == p.data + Chunk(b, e + 1)
    ensures HasShape(p', a, b, e + 1, h, e + 1)
  {
    hide Chunks, ChunkEnd, Chunk, Form, Wrap16;
    FormSize(a, b, h, e);
    ChunkSize(b, e + 1);
    Ends(|a|, e, e + 1);
    Ends(|a|, e, Chunks(|a|));
    AheadLeavesRoom(|a|, h, e);
    FormNext(a, b, h, e);
  }

  lemma AheadLeavesRoom(n: nat, h: Shape, e: nat)
    requires n <= MAX_TRANSFER && Fits(n, h, e) && e < Chunks(n)
    requires h.Ahead? ==> ChunkEnd(n, e + 1) + LAP * MAX_PAYLOAD <= n
    ensures Fits(n, h, e + 1)
  {
  }

  /** Falling back a lap at the change-over. */
  lemma FallsBack(p: InProgress, a: seq<u8>, b: seq<u8>, c: nat, p': InProgress)
    requires |a| == |b| <= MAX_TRANSFER && LAP <= c <= Chunks(|a|) && HasShape(p, a, b, 0, Straight(c), c)
    requires |p.data| + |Chunk(b, c + 1 - LAP)| <= |a|
    requires p'.last == Wrap16(c + 1 - LAP) && p'.data == p.data + Chunk(b, c + 1 - LAP)
    ensures HasShape(p', a, b, c + 1 - LAP, Ahead(c), c + 1 - LAP)
  {
    hide Chunks, ChunkEnd, Chunk, Part, Wrap16;
    var n := |a|;
    WithinLimit(n);
    PartSize(a, 0, c);
    PartSize(b, c, c);
    PartSize(b, c - LAP, c - LAP);
    PartNext(b, c - LAP, c - LAP);
    Ends(n, c, Chunks(n));
    Ends(n, 0, 0);
    ChunkSize(b, c + 1 - LAP);
    assert Part(a, 0, c) + [] == Part(a, 0, c) && [] + Chunk(b, c + 1 - LAP) == Chunk(b, c + 1 - LAP);
  }

  lemma {:induction false} SplicedRun(s: Reasm, ka: u8, a: seq<u8>, kb: u8, b: seq<u8>, idx: seq<nat>)
    requires |a| == |b| <= MAX_TRANSFER && Spliced(s, ka, a, b, 0)
    requires Picks(idx, Chunks(|a|) + 1) && (idx != [] ==> idx[0] > 0)
    ensures Spliced(Run(s, Pick(Transfer(kb, b), idx)), ka, a, b, if idx == [] then 0 else idx[|idx| - 1])
  {
    hide Step, TransferFrame, Chunks, Spliced;
    if idx != [] {
      var k, fs := |idx| - 1, Transfer(kb, b);
      SplicedRun(s, ka, a, kb, b, idx[..k]);
      assert Pick(fs, idx)[..k] == Pick(fs, idx[..k]);
      SplicedData(Run(s, Pick(fs, idx[..k])), ka, a, kb, b, if k == 0 then 0 else idx[k - 1], idx[k]);
    } else {
      assert Pick(Transfer(kb, b), idx) == [];
      RunNothing(s);
    }
  }

  /** A shape of the whole length, at the last chunk. */
  ghost predicate IsSplice(ka: u8, a: seq<u8>, b: seq<u8>, kind: u8, data: seq<u8>) {
    && |a| == |b| && kind == ka
    && exists h: Shape :: !h.Ahead? && Fits(|a|, h, Chunks(|a|)) && data == Form(a, b, h, Chunks(|a|))
  }

  lemma SplicedEnd(s: Reasm, ka: u8, a: seq<u8>, kb: u8, b: seq<u8>, m: nat)
    requires |a| == |b| <= MAX_TRANSFER && m <= Chunks(|a|) && Spliced(s, ka, a, b, m) && Bounded(s)
    requires Step(s, TransferFrame(kb, b, Chunks(|b|) + 1)).1.Complete?
    ensures var r := Step(s, TransferFrame(kb, b, Chunks(|b|) + 1)).1; IsSplice(ka, a, b, r.kind, r.data)
  {
    hide TransferFrame, Chunks, ChunkEnd, Form, Fits, Wrap16, Wrap32, Step;
    EndStep(s, kb, b);
    var n, top, p := |a|, Chunks(|a|), s.active.value;
    WrapsNothing(n);
    WrapsNothing(|p.data|);
    WithinLimit(n);
    Ends(n, m, top);
    if h: Shape, e: nat :| HasShape(p, a, b, m, h, e) {
      FormSize(a, b, h, e);
      Wrap16Next(e);
      Wrap16Next(top);
      FitsBelow(n, h, e);
      SameNumber(e + 1, top + 1);
      Ends(n, e, top);
      WholeForm(a, b, h, e);
    }
  }

  /** The only shapes of the whole length are those at the last chunk, and Ahead
      a lap before it, which is Caught with nothing left to take. */
  lemma WholeForm(a: seq<u8>, b: seq<u8>, h: Shape, e: nat)
    requires |a| == |b| <= MAX_TRANSFER && Fits(|a|, h, e) && |Form(a, b, h, e)| == |a|
    requires e == Chunks(|a|) || e + LAP == Chunks(|a|)
    requires h.Ahead? ==> h.c < e + LAP
    ensures exists h': Shape ::
              !h'.Ahead? && Fits(|a|, h', Chunks(|a|)) && Form(a, b, h, e) == Form(a, b, h', Chunks(|a|))
  {
    hide Chunks, ChunkEnd, Part;
    var n, top := |a|, Chunks(|a|);
    WithinLimit(n);
    FormSize(a, b, h, e);
    Ends(n, e, top);
    Ends(n, e, e);
    if e < top {
      ChunkEndGrows(n, e, top);
    }
    if h.Ahead? {
      PartSize(b, top, top);
      var d := Form(a, b, h, e);
      assert d + [] == d;
      assert Form(a, b, h, e) == Form(a, b, Caught(h.c, e), top);
    }
  }

  // ----- both together --------------------------------------------------------------

  /** Some part of the two transfers makes the receiver complete this. */
  ghost predicate CanComplete(s: Reasm, ka: u8, a: seq<u8>, kb: u8, b: seq<u8>, kind: u8, data: seq<u8>) {
    exists ia: seq<nat>, ib: seq<nat>, q: nat :: Completes(s, ka, a, kb, b, ia, ib, q, kind, data)
  }

  ghost predicate Completes(
      s: Reasm, ka: u8, a: seq<u8>, kb: u8, b: seq<u8>, ia: seq<nat>, ib: seq<nat>, q: nat, kind: u8, data: seq<u8>)
  {
    && Picks(ia, Chunks(|a|) + 2) && Picks(ib, Chunks(|b|) + 2) && q < |ia| + |ib|
    && ResultAt(s, Pick(Transfer(ka, a), ia) + Pick(Transfer(kb, b), ib), q) == Complete(kind, data)
  }

  lemma {:induction false} KeepsTotal(s: Reasm, kb: u8, b: seq<u8>, idx: seq<nat>)
    requires Picks(idx, Chunks(|b|) + 1) && (idx != [] ==> idx[0] > 0)
    ensures var t := Run(s, Pick(Transfer(kb, b), idx));
      t.active.Some? ==> s.active.Some? && t.active.value.total == s.active.value.total
  {
    hide Step, TransferFrame, Chunks;
    if idx != [] {
      var k, fs := |idx| - 1, Transfer(kb, b);
      KeepsTotal(s, kb, b, idx[..k]);
      assert Pick(fs, idx)[..k] == Pick(fs, idx[..k]);
      TransferFrameIs(kb, b, idx[k]);
      DataAdds(Run(s, Pick(fs, idx[..k])), fs[idx[k]]);
    }
  }

  /** The second transfer, without its START, into what the first has left. */
  lemma WithoutStart(s: Reasm, ka: u8, a: seq<u8>, m: nat, kb: u8, b: seq<u8>, idx: seq<nat>, k: nat)
    requires |a| <= MAX_TRANSFER && |b| <= MAX_TRANSFER && Bounded(s) && LeftBy(s, ka, a, m)
    requires Picks(idx, Chunks(|b|) + 2) && k < |idx| && idx[0] > 0
    requires ResultAt(s, Pick(Transfer(kb, b), idx), k).Complete?
    ensures var r := ResultAt(s, Pick(Transfer(kb, b), idx), k); IsSplice(ka, a, b, r.kind, r.data)
  {
    hide Step, Run, TransferFrame, Chunks, Form, Fits, LeftBy, IsSplice, Spliced;
    var got, n := Pick(Transfer(kb, b), idx), Chunks(|b|);
    var before := Run(s, got[..k]);
    OnlyEndCompletes(before, got[k]);
    TransferFrameIs(kb, b, idx[k]);
    assert idx[k] == n + 1;
    assert got[..k] == Pick(Transfer(kb, b), idx[..k]);
    RunBounded(s, got[..k]);
    KeepsTotal(s, kb, b, idx[..k]);
    EndStep(before, kb, b);
    WrapsNothing(|b|);
    LeftTotal(s, ka, a, m);
    LeftIsSpliced(s, ka, a, b, m);
    SplicedRun(s, ka, a, kb, b, idx[..k]);
    SplicedEnd(before, ka, a, kb, b, if k == 0 then 0 else idx[k - 1]);
  }

  lemma LeftTotal(s: Reasm, ka: u8, a: seq<u8>, m: nat)
    requires LeftBy(s, ka, a, m)
    ensures s.active.Some? ==> s.active.value.total == |a|
  {
  }

  lemma OnlyThese(
      s: Reasm, ka: u8, a: seq<u8>, kb: u8, b: seq<u8>, ia: seq<nat>, ib: seq<nat>, q: nat, kind: u8, data: seq<u8>)
    requires Idle(s) && |a| <= MAX_TRANSFER && |b| <= MAX_TRANSFER
    requires Completes(s, ka, a, kb, b, ia, ib, q, kind, data)
    ensures (kind == ka && data == a) || (kind == kb && data == b) || IsSplice(ka, a, b, kind, data)
  {
    hide Step, Run, ResultAt, TransferFrame, Chunks, IsSplice, LeftBy;
    var first, second := Pick(Transfer(ka, a), ia), Pick(Transfer(kb, b), ib);
    if q < |ia| {
      ResultInFirst(s, first, second, q);
      LossIsNeverComplete(s, ka, a, ia, q);
    } else {
      var k, s1 := q - |ia|, Run(s, first);
      ResultInSecond(s, first, second, k);
      RunBounded(s, first);
      if ib[0] == 0 {
        Started(s1, kb, b, ib, k);
        LossIsNeverComplete(Cleared(s1), kb, b, ib, k);
      } else {
        LeftByRun(s, ka, a, ia);
        WithoutStart(s1, ka, a, if ia == [] then 0 else ia[|ia| - 1], kb, b, ib, k);
      }
    }
  }

  // ----- every one of them does complete -----------------------------------------------

  lemma AllOfFirst<T>(u: seq<T>, v: seq<T>)
    ensures Pick(u, Span(0, |u|)) + Pick(v, []) == u
  {
  }

  lemma AllOfSecond<T>(u: seq<T>, v: seq<T>)
    ensures Pick(u, []) + Pick(v, Span(0, |v|)) == v
  {
  }

  lemma SpanPicks(n: nat)
    ensures Picks(Span(0, n), n) && forall m: nat :: Picks([], m)
  {
  }

  lemma FirstCompletes(s: Reasm, ka: u8, a: seq<u8>, kb: u8, b: seq<u8>)
    requires Idle(s) && |a| <= MAX_TRANSFER
    ensures CanComplete(s, ka, a, kb, b, ka, a)
  {
    hide Step, Run, ResultAt, Transfer, Chunks, Picks;
    var n := Chunks(|a|);
    DeliveredIff(s, ka, a);
    AllOfFirst(Transfer(ka, a), Transfer(kb, b));
    SpanPicks(n + 2);
    assert Completes(s, ka, a, kb, b, Span(0, n + 2), [], n + 1, ka, a);
  }

  lemma SecondCompletes(s: Reasm, ka: u8, a: seq<u8>, kb: u8, b: seq<u8>)
    requires Idle(s) && |b| <= MAX_TRANSFER
    ensures CanComplete(s, ka, a, kb, b, kb, b)
  {
    hide Step, Run, ResultAt, Transfer, Chunks, Picks;
    var n := Chunks(|b|);
    DeliveredIff(s, kb, b);
    AllOfSecond(Transfer(ka, a), Transfer(kb, b));
    SpanPicks(n + 2);
    assert Completes(s, ka, a, kb, b, [], Span(0, n + 2), n + 1, kb, b);
  }

  /** Frames i + 1 to j, of either transfer, into something held with the number
      of frame i, on whatever lap. */
  lemma FeedPart(s: Reasm, kind: u8, total: u32, d: seq<u8>, x: seq<u8>, i: nat, j: nat)
    requires i <= j <= Chunks(|x|) && Holds(s, kind, total, Wrap16(i), d)
    requires |d| + ChunkEnd(|x|, j) - ChunkEnd(|x|, i) <= total
    ensures Holds(Run(s, Transfer(kind, x)[i + 1..j + 1]), kind, total, Wrap16(j), d + Part(x, i, j))
  {
    hide Step, Run, TransferFrame, Chunks, ChunkEnd, Wrap16;
    FeedRange(s, kind, x, total, d, i + 1, j + 1);
    Ends(|x|, i, j);
  }

  /** The frames of a shape: those of the first transfer, then, without its START
      and END, those of the second. */
  function FirstIdx(h: Shape, n: nat): seq<nat>
    requires !h.Ahead? && Fits(n, h, Chunks(n))
  {
    match h
    case Straight(c) => Span(0, c + 1)
    case Back(c0, c) => Span(0, c0 + 1) + Span(c0 + LAP + 1, c + 1)
    case Caught(c, k) => Span(0, c + 1)
  }

  function SecondIdx(h: Shape, n: nat): seq<nat>
    requires !h.Ahead? && Fits(n, h, Chunks(n))
  {
    match h
    case Straight(c) => Span(c + 1, Chunks(n) + 1)
    case Back(c0, c) => Span(c - LAP + 1, Chunks(n) + 1)
    case Caught(c, k) => Span(c - LAP + 1, k + 1) + Span(k + LAP + 1, Chunks(n) + 1)
  }

  lemma LapsAgree(i: nat)
    ensures Wrap16(i + LAP) == Wrap16(i)
  {
  }

  lemma StraightHeld(s: Reasm, kind: u8, a: seq<u8>, b: seq<u8>, c: nat)
    requires |a| == |b| <= MAX_TRANSFER && c <= Chunks(|a|)
    ensures var fed := Transfer(kind, a)[..c + 1] + Transfer(kind, b)[c + 1..Chunks(|a|) + 1];
      Holds(Run(s, fed), kind, |a|, Wrap16(Chunks(|a|)), Form(a, b, Straight(c), Chunks(|a|)))
  {
    hide Step, Run, TransferFrame, Chunks, ChunkEnd, Part, Wrap16;
    var n, top := |a|, Chunks(|a|);
    PrefixHeld(s, kind, a, c);
    Ends(n, c, top);
    Ends(n, 0, c);
    PartSize(a, 0, c);
    var fa, fb := Transfer(kind, a)[..c + 1], Transfer(kind, b)[c + 1..top + 1];
    FeedPart(Run(s, fa), kind, n, Part(a, 0, c), b, c, top);
    RunConcat(s, fa, fb);
  }

  lemma PrefixHeld(s: Reasm, kind: u8, a: seq<u8>, c: nat)
    requires |a| <= MAX_TRANSFER && c <= Chunks(|a|)
    ensures Holds(Run(s, Transfer(kind, a)[..c + 1]), kind, |a|, Wrap16(c), Part(a, 0, c))
    ensures ChunkEnd(|a|, 0) == 0
  {
    hide Step, Run, TransferFrame, Chunks, Wrap16;
    FeedPrefix(s, kind, a, c + 1);
    Ends(|a|, 0, c);
  }

  lemma BackHeld(s: Reasm, kind: u8, a: seq<u8>, b: seq<u8>, c0: nat, c: nat)
    requires |a| == |b| <= MAX_TRANSFER && Fits(|a|, Back(c0, c), Chunks(|a|))
    ensures var fed := Transfer(kind, a)[..c0 + 1] + Transfer(kind, a)[c0 + LAP + 1..c + 1]
                       + Transfer(kind, b)[c - LAP + 1..Chunks(|a|) + 1];
      Holds(Run(s, fed), kind, |a|, Wrap16(Chunks(|a|)), Form(a, b, Back(c0, c), Chunks(|a|)))
  {
    hide Step, Run, TransferFrame, Chunks, ChunkEnd, Part, Wrap16;
    var n, top := |a|, Chunks(|a|);
    PrefixHeld(s, kind, a, c0);
    Ends(n, c0, c);
    Ends(n, c0 + LAP, c);
    Ends(n, c - LAP, top);
    Ends(n, c, c);
    PartSize(a, 0, c0);
    PartSize(a, c0 + LAP, c);
    var f1, f2 := Transfer(kind, a)[..c0 + 1], Transfer(kind, a)[c0 + LAP + 1..c + 1];
    var f3 := Transfer(kind, b)[c - LAP + 1..top + 1];
    LapsAgree(c0);
    FeedPart(Run(s, f1), kind, n, Part(a, 0, c0), a, c0 + LAP, c);
    RunConcat(s, f1, f2);
    LapsAgree(c - LAP);
    FeedPart(Run(s, f1 + f2), kind, n, Part(a, 0, c0) + Part(a, c0 + LAP, c), b, c - LAP, top);
    RunConcat(s, f1 + f2, f3);
  }

  lemma CaughtHeld(s: Reasm, kind: u8, a: seq<u8>, b: seq<u8>, c: nat, k: nat)
    requires |a| == |b| <= MAX_TRANSFER && Fits(|a|, Caught(c, k), Chunks(|a|))
    ensures var fed := Transfer(kind, a)[..c + 1] + (Transfer(kind, b)[c - LAP + 1..k + 1]
                       + Transfer(kind, b)[k + LAP + 1..Chunks(|a|) + 1]);
      Holds(Run(s, fed), kind, |a|, Wrap16(Chunks(|a|)), Form(a, b, Caught(c, k), Chunks(|a|)))
  {
    hide Step, Run, TransferFrame, Chunks, ChunkEnd, Part, Wrap16;
    var n, top := |a|, Chunks(|a|);
    PrefixHeld(s, kind, a, c);
    Ends(n, c, k + LAP);
    Ends(n, c - LAP, k);
    Ends(n, k, k);
    Ends(n, k + LAP, top);
    PartSize(a, 0, c);
    PartSize(b, c - LAP, k);
    var f1, f2 := Transfer(kind, a)[..c + 1], Transfer(kind, b)[c - LAP + 1..k + 1];
    var f3 := Transfer(kind, b)[k + LAP + 1..top + 1];
    LapsAgree(c - LAP);
    FeedPart(Run(s, f1), kind, n, Part(a, 0, c), b, c - LAP, k);
    RunConcat(s, f1, f2);
    LapsAgree(k);
    FeedPart(Run(s, f1 + f2), kind, n, Part(a, 0, c) + Part(b, c - LAP, k), b, k + LAP, top);
    RunConcat(s, f1 + f2, f3);
    assert f1 + f2 + f3 == f1 + (f2 + f3);
  }

  /** Two transfers of one payload differ only in the kind their START carries. */
  lemma SameBody(ka: u8, kb: u8, data: seq<u8>)
    ensures forall i :: 1 <= i <= Chunks(|data|) + 1 ==> Transfer(ka, data)[i] == Transfer(kb, data)[i]
  {
    hide Chunks, Wrap16, Wrap32, Le32;
    forall i: nat | 1 <= i <= Chunks(|data|) + 1 ensures Transfer(ka, data)[i] == Transfer(kb, data)[i] {
      TransferFrameIs(ka, data, i);
      TransferFrameIs(kb, data, i);
    }
  }

  lemma BodySpan(ka: u8, kb: u8, data: seq<u8>, i: nat, j: nat)
    requires 1 <= i <= j <= Chunks(|data|) + 2
    ensures Pick(Transfer(kb, data), Span(i, j)) == Transfer(ka, data)[i..j]
  {
    hide Chunks, TransferFrame;
    SameBody(ka, kb, data);
  }

  lemma BodySpans(ka: u8, kb: u8, data: seq<u8>, i: nat, j: nat, k: nat, l: nat)
    requires 1 <= i <= j <= k <= l <= Chunks(|data|) + 2
    ensures Picks(Span(i, j) + Span(k, l), l)
    ensures forall x :: 0 <= x < |Span(i, j) + Span(k, l)| ==> (Span(i, j) + Span(k, l))[x] < |Transfer(kb, data)|
    ensures Pick(Transfer(kb, data), Span(i, j) + Span(k, l)) == Transfer(ka, data)[i..j] + Transfer(ka, data)[k..l]
  {
    hide Chunks, Transfer;
    BodySpan(ka, kb, data, i, j);
    BodySpan(ka, kb, data, k, l);
    PicksConcat(Span(i, j), Span(k, l), l);
    PickConcat(Transfer(kb, data), Span(i, j), Span(k, l));
  }

  /** With all of it held, the second transfer's END completes it. */
  lemma EndFinishes(s: Reasm, ka: u8, kb: u8, b: seq<u8>, fed: seq<Frame>, data: seq<u8>)
    requires |b| == |data| <= MAX_TRANSFER
    requires Holds(Run(s, fed), ka, |b|, Wrap16(Chunks(|b|)), data)
    ensures ResultAt(s, fed + [Transfer(kb, b)[Chunks(|b|) + 1]], |fed|) == Complete(ka, data)
  {
    hide Step, Run, TransferFrame, Chunks, Wrap16, Wrap32;
    EndStep(Run(s, fed), kb, b);
    Wrap16Next(Chunks(|b|));
    WrapsNothing(|b|);
    assert (fed + [Transfer(kb, b)[Chunks(|b|) + 1]])[..|fed|] == fed;
  }

  /** The frames these positions pick hold the whole shape. */
  ghost predicate IdxHolds(s: Reasm, ka: u8, a: seq<u8>, kb: u8, b: seq<u8>, h: Shape)
    requires |a| == |b| <= MAX_TRANSFER && !h.Ahead? && Fits(|a|, h, Chunks(|a|))
  {
    var top, ia, ib := Chunks(|a|), FirstIdx(h, |a|), SecondIdx(h, |a|);
    && Picks(ia, top + 2) && Picks(ib, top + 1)
    && Holds(Run(s, Pick(Transfer(ka, a), ia) + Pick(Transfer(kb, b), ib)), ka, |a|, Wrap16(top), Form(a, b, h, top))
  }

  lemma StraightIdx(s: Reasm, ka: u8, a: seq<u8>, kb: u8, b: seq<u8>, c: nat)
    requires |a| == |b| <= MAX_TRANSFER && Fits(|a|, Straight(c), Chunks(|a|))
    ensures IdxHolds(s, ka, a, kb, b, Straight(c))
  {
    hide Step, Run, TransferFrame, Chunks, Form, Wrap16;
    StraightHeld(s, ka, a, b, c);
    PickSpan(Transfer(ka, a), 0, c + 1);
    BodySpan(ka, kb, b, c + 1, Chunks(|a|) + 1);
  }

  lemma BackIdx(s: Reasm, ka: u8, a: seq<u8>, kb: u8, b: seq<u8>, c0: nat, c: nat)
    requires |a| == |b| <= MAX_TRANSFER && Fits(|a|, Back(c0, c), Chunks(|a|))
    ensures IdxHolds(s, ka, a, kb, b, Back(c0, c))
  {
    hide Step, Run, TransferFrame, Chunks, Form, Wrap16, Picks;
    var fa := Transfer(ka, a);
    var i1, i2 := Span(0, c0 + 1), Span(c0 + LAP + 1, c + 1);
    BackHeld(s, ka, a, b, c0, c);
    PickSpan(fa, 0, c0 + 1);
    PickSpan(fa, c0 + LAP + 1, c + 1);
    PickConcat(fa, i1, i2);
    SpansPick(0, c0 + 1, c0 + LAP + 1, c + 1, Chunks(|a|) + 2);
    SpansPick(0, 0, c - LAP + 1, Chunks(|a|) + 1, Chunks(|a|) + 1);
    BodySpan(ka, kb, b, c - LAP + 1, Chunks(|a|) + 1);
    assert Span(0, 0) + SecondIdx(Back(c0, c), |a|) == SecondIdx(Back(c0, c), |a|);
  }

  lemma SpansPick(i: nat, j: nat, k: nat, l: nat, n: nat)
    requires i <= j <= k <= l <= n
    ensures Picks(Span(i, j) + Span(k, l), n)
  {
  }

  lemma CaughtIdx(s: Reasm, ka: u8, a: seq<u8>, kb: u8, b: seq<u8>, c: nat, k: nat)
    requires |a| == |b| <= MAX_TRANSFER && Fits(|a|, Caught(c, k), Chunks(|a|))
    ensures IdxHolds(s, ka, a, kb, b, Caught(c, k))
  {
    hide Step, Run, TransferFrame, Chunks, Form, Wrap16, Picks, Transfer;
    var top := Chunks(|a|);
    CaughtHeld(s, ka, a, b, c, k);
    PickSpan(Transfer(ka, a), 0, c + 1);
    SpansPick(0, 0, 0, c + 1, top + 2);
    assert Span(0, 0) + Span(0, c + 1) == Span(0, c + 1);
    BodySpans(ka, kb, b, c - LAP + 1, k + 1, k + LAP + 1, top + 1);
  }

  lemma ShapeHeld(s: Reasm, ka: u8, a: seq<u8>, kb: u8, b: seq<u8>, h: Shape)
    requires |a| == |b| <= MAX_TRANSFER && !h.Ahead? && Fits(|a|, h, Chunks(|a|))
    ensures IdxHolds(s, ka, a, kb, b, h)
  {
    hide IdxHolds, Chunks, Fits;
    match h
    case Straight(c) => StraightIdx(s, ka, a, kb, b, c);
    case Back(c0, c) => BackIdx(s, ka, a, kb, b, c0, c);
    case Caught(c, k) => CaughtIdx(s, ka, a, kb, b, c, k);
  }

  /** The frames of a shape and the second END complete it, in any state. */
  lemma ShapeCompletes(s: Reasm, ka: u8, a: seq<u8>, kb: u8, b: seq<u8>, h: Shape)
    requires |a| == |b| <= MAX_TRANSFER && !h.Ahead? && Fits(|a|, h, Chunks(|a|))
    ensures var top, ia, ib := Chunks(|a|), FirstIdx(h, |a|), SecondIdx(h, |a|) + [Chunks(|a|) + 1];
      Completes(s, ka, a, kb, b, ia, ib, |ia| + |ib| - 1, ka, Form(a, b, h, top))
  {
    hide Step, Run, ResultAt, TransferFrame, Chunks, Form, Fits, FirstIdx, SecondIdx, Wrap16;
    var top, ia, ib := Chunks(|a|), FirstIdx(h, |a|), SecondIdx(h, |a|);
    var fa, fb := Transfer(ka, a), Transfer(kb, b);
    ShapeHeld(s, ka, a, kb, b, h);
    FormSize(a, b, h, top);
    Ends(|a|, 0, top);
    PickPush(fb, ib, top + 1);
    PicksConcat(ib, [top + 1], top + 2);
    var fed, last := Pick(fa, ia) + Pick(fb, ib), fb[top + 1];
    EndFinishes(s, ka, kb, b, fed, Form(a, b, h, top));
    assert Pick(fa, ia) + (Pick(fb, ib) + [last]) == fed + [last];
  }

  /** Of two transfers within the channel's limit, one after the other, losing the
      right part can make an idle receiver complete exactly these: the first
      payload, the second, and, if and only if they have the same length, with the
      first's kind, the first's chunks up to any one followed by the second's
      after it, and, where the sequence number comes round, the two shapes that
      skip and fall back a lap. */
  lemma TwoTransfersExactly(s: Reasm, ka: u8, a: seq<u8>, kb: u8, b: seq<u8>, kind: u8, data: seq<u8>)
    requires Idle(s) && |a| <= MAX_TRANSFER && |b| <= MAX_TRANSFER
    ensures CanComplete(s, ka, a, kb, b, kind, data) <==>
              (kind == ka && data == a) || (kind == kb && data == b) || IsSplice(ka, a, b, kind, data)
  {
    hide Completes, Chunks, Form, Fits;
    FirstCompletes(s, ka, a, kb, b);
    SecondCompletes(s, ka, a, kb, b);
    if ia: seq<nat>, ib: seq<nat>, q: nat :| Completes(s, ka, a, kb, b, ia, ib, q, kind, data) {
      OnlyThese(s, ka, a, kb, b, ia, ib, q, kind, data);
    }
    if IsSplice(ka, a, b, kind, data) {
      var h: Shape :| !h.Ahead? && Fits(|a|, h, Chunks(|a|)) && data == Form(a, b, h, Chunks(|a|));
      ShapeCompletes(s, ka, a, kb, b, h);
    }
  }
}
