/** The clipboard channel's frames, the transfer encoder and the receiving
    state machine (protocol/clipframe/src/lib.rs), with the characterisation of
    the receiver by the frames it has seen. */
module ClipFrame {
  import opened Bytes

  const FRAME_LEN := 1024
  const MAX_PAYLOAD := 1018
  const MAX_TRANSFER := 64 * 1024 * 1024
  const ACK_EVERY := 128
  const ACK_WINDOW := 256

  const T_PING: u8 := 0x01
  const T_PONG: u8 := 0x02
  const T_START: u8 := 0x10
  const T_DATA: u8 := 0x11
  const T_END: u8 := 0x12
  const T_ABORT: u8 := 0x13
  const T_ACK: u8 := 0x14
  const T_OFFER: u8 := 0x20
  const T_PULL: u8 := 0x21

  const KIND_TEXT: u8 := 1
  const KIND_PNG: u8 := 2
  const KIND_TAR: u8 := 3

  /** The bytes of one report. */
  type Raw = f: seq<u8> | |f| == FRAME_LEN witness seq(FRAME_LEN, _ => 0)

  type Payload = p: seq<u8> | |p| <= MAX_PAYLOAD

  /** What the receiver makes of a report; Bad has an impossible payload length. */
  datatype Frame = Bad | Frame(t: u8, seqno: u16, payload: Payload)

  datatype Offer = Offer(kind: u8, total: u32, items: u16, id: u32)

  // ----- bytes of one frame ---------------------------------------------

  function FrameBytes(t: u8, seqno: u16, payload: Payload): (f: Raw)
  {
    [t, 0] + Le16(seqno) + Le16(|payload|) + payload + seq(MAX_PAYLOAD - |payload|, _ => 0)
  }

  /** Fills a zeroed report in place. */
  method BuildFrame(t: u8, seqno: u16, payload: Payload) returns (f: array<u8>)
    ensures fresh(f) && f[..] == FrameBytes(t, seqno, payload)
  {
    hide Le16, FrameBytes;
    var sq, len := Le16(seqno), Le16(|payload|);
    f := new u8[FRAME_LEN](_ => 0);
    f[0] := t;
    f[2], f[3] := sq[0], sq[1];
    f[4], f[5] := len[0], len[1];
    for i := 0 to |payload|
      invariant f[0] == t && f[1] == 0 && f[2] == sq[0] && f[3] == sq[1] && f[4] == len[0] && f[5] == len[1]
      invariant f[6..6 + i] == payload[..i]
      invariant forall k :: 6 + i <= k < FRAME_LEN ==> f[k] == 0
    {
      f[6 + i] := payload[i];
    }
    Layout(f[..], t, seqno, payload);
  }

  lemma Layout(f: Raw, t: u8, seqno: u16, payload: Payload)
    requires f[0] == t && f[1] == 0
    requires f[2] == Le16(seqno)[0] && f[3] == Le16(seqno)[1]
    requires f[4] == Le16(|payload|)[0] && f[5] == Le16(|payload|)[1]
    requires f[6..6 + |payload|] == payload
    requires forall k :: 6 + |payload| <= k < FRAME_LEN ==> f[k] == 0
    ensures f == FrameBytes(t, seqno, payload)
  {
    hide Le16;
    var n := 6 + |payload|;
    assert f == f[..2] + f[2..4] + f[4..6] + f[6..n] + f[n..];
    assert f[2..4] == Le16(seqno) && f[4..6] == Le16(|payload|);
    assert f[n..] == seq(MAX_PAYLOAD - |payload|, _ => 0);
    assert f[..2] == [t, 0];
  }

  function Parse(f: Raw): Frame {
    var len := FromLe16(f[4], f[5]);
    if len > MAX_PAYLOAD then Bad
    else Frame(f[0], FromLe16(f[2], f[3]), f[6..6 + len])
  }

  /** Parsing inverts framing, for every type, sequence number and payload. */
  lemma ParseInverts(t: u8, seqno: u16, payload: Payload)
    ensures Parse(FrameBytes(t, seqno, payload)) == Frame(t, seqno, payload)
  {
    hide Le16, FromLe16;
    var f := FrameBytes(t, seqno, payload);
    assert f[6..6 + |payload|] == payload;
  }

  function ParseAck(f: Raw): Option<u32> {
    var p := Parse(f);
    if p.Frame? && p.t == T_ACK && |p.payload| == 4 then
      Some(FromLe32(p.payload[0], p.payload[1], p.payload[2], p.payload[3]))
    else None
  }

  function AckBytes(count: u32): Raw { FrameBytes(T_ACK, 0, Le32(count)) }
  function PullBytes(id: u32): Raw { FrameBytes(T_PULL, 0, Le32(id)) }
  function OfferBytes(o: Offer): Raw {
    FrameBytes(T_OFFER, 0, [o.kind] + Le32(o.total) + Le16(o.items) + Le32(o.id))
  }

  // ----- encoding a transfer --------------------------------------------

  /** Number of DATA frames of an n-byte payload. */
  function Chunks(n: nat): nat { (n + MAX_PAYLOAD - 1) / MAX_PAYLOAD }

  /** Bytes carried by the first i DATA frames of an n-byte payload. */
  function ChunkEnd(n: nat, i: nat): (e: nat)
    ensures e <= n
  {
    if i * MAX_PAYLOAD < n then i * MAX_PAYLOAD else n
  }

  function Chunk(data: seq<u8>, i: nat): (c: seq<u8>)
    requires 1 <= i <= Chunks(|data|)
    ensures 1 <= |c| <= MAX_PAYLOAD
  {
    data[ChunkEnd(|data|, i - 1)..ChunkEnd(|data|, i)]
  }

  /** The i-th frame of a transfer: START, then the DATA frames, then END. */
  function TransferFrame(kind: u8, data: seq<u8>, i: nat): (f: Frame)
    requires i <= Chunks(|data|) + 1
    ensures f.Frame?
  {
    var total := Wrap32(|data|);
    if i == 0 then Frame(T_START, 0, [kind] + Le32(total))
    else if i <= Chunks(|data|) then Frame(T_DATA, Wrap16(i), Chunk(data, i))
    else Frame(T_END, Wrap16(i), Le32(total))
  }

  function Transfer(kind: u8, data: seq<u8>): (fs: seq<Frame>)
    ensures |fs| == Chunks(|data|) + 2
    ensures forall i :: 0 <= i < |fs| ==> fs[i] == TransferFrame(kind, data, i)
  {
    seq(Chunks(|data|) + 2, i requires 0 <= i < Chunks(|data|) + 2 => TransferFrame(kind, data, i))
  }

  function ParseAll(fs: seq<Raw>): (ps: seq<Frame>)
    ensures |ps| == |fs|
    ensures forall i :: 0 <= i < |fs| ==> ps[i] == Parse(fs[i])
  {
    seq(|fs|, i requires 0 <= i < |fs| => Parse(fs[i]))
  }

  /** The encoder has written the first |out| frames of the transfer. */
  ghost predicate EncodedSoFar(out: seq<Raw>, kind: u8, data: seq<u8>) {
    && |out| <= Chunks(|data|) + 2
    && forall i :: 0 <= i < |out| ==> Parse(out[i]) == TransferFrame(kind, data, i)
  }

  lemma TransferFrameIs(kind: u8, data: seq<u8>, i: nat)
    ensures TransferFrame(kind, data, 0) == Frame(T_START, 0, [kind] + Le32(Wrap32(|data|)))
    ensures 1 <= i <= Chunks(|data|) ==>
              TransferFrame(kind, data, i) == Frame(T_DATA, Wrap16(i), Chunk(data, i))
    ensures TransferFrame(kind, data, Chunks(|data|) + 1)
         == Frame(T_END, Wrap16(Chunks(|data|) + 1), Le32(Wrap32(|data|)))
  {
    hide Le32, Wrap16, Wrap32, Chunk, Chunks;
  }

  lemma EncodedAll(out: seq<Raw>, kind: u8, data: seq<u8>)
    ensures EncodedSoFar([], kind, data)
    ensures EncodedSoFar(out, kind, data) && |out| == Chunks(|data|) + 2 ==>
              ParseAll(out) == Transfer(kind, data)
  {
    hide Parse, TransferFrame, Chunks;
  }

  method Push(out: seq<Raw>, t: u8, seqno: u16, payload: Payload, ghost kind: u8, ghost data: seq<u8>)
    returns (longer: seq<Raw>)
    requires EncodedSoFar(out, kind, data) && |out| < Chunks(|data|) + 2
    requires TransferFrame(kind, data, |out|) == Frame(t, seqno, payload)
    ensures EncodedSoFar(longer, kind, data) && |longer| == |out| + 1
  {
    hide Parse, TransferFrame, Chunks;
    var f := BuildFrame(t, seqno, payload);
    ParseInverts(t, seqno, payload);
    longer := out + [f[..]];
  }

  /** The encoder loop with its wrapping 16-bit sequence number. */
  method EncodeTransfer(kind: u8, data: seq<u8>) returns (out: seq<Raw>)
    ensures ParseAll(out) == Transfer(kind, data)
  {
    WrapsNothing(0);
    EncodedAll([], kind, data);
    TransferFrameIs(kind, data, 0);
    hide EncodedSoFar, TransferFrame, Le32, FromLe32, Wrap16, Wrap32, Parse, Chunk, Chunks, ChunkEnd,
         ParseAll, Transfer;
    var n := Chunks(|data|);
    var sq: u16 := 0;
    var total: u32 := Wrap32(|data|);
    out := Push([], T_START, sq, [kind] + Le32(total), kind, data);
    for i := 1 to n + 1
      invariant |out| == i && sq == Wrap16(i - 1) && EncodedSoFar(out, kind, data)
    {
      Wrap16Next(i - 1);
      TransferFrameIs(kind, data, i);
      sq := Wrap16(sq + 1);
      out := Push(out, T_DATA, sq, Chunk(data, i), kind, data);
    }
    Wrap16Next(n);
    sq := Wrap16(sq + 1);
    out := Push(out, T_END, sq, Le32(total), kind, data);
    EncodedAll(out, kind, data);
  }

  // ----- the receiving state machine ------------------------------------

  datatype InProgress = InProgress(kind: u8, total: u32, last: u16, data: seq<u8>)

  datatype Reasm = Reasm(active: Option<InProgress>, dataFrames: u32)

  const FRESH := Reasm(None, 0)

  datatype FeedResult =
    | Nothing
    | Ping
    | Progress(count: u32)
    | Complete(kind: u8, data: seq<u8>)
    | Offered(offer: Offer)
    | Pull(id: u32)
    | Error(msg: string)

  function Le32At(p: seq<u8>, i: nat): u32
    requires i + 4 <= |p|
  {
    FromLe32(p[i], p[i + 1], p[i + 2], p[i + 3])
  }

  function OnStart(s: Reasm, f: Frame): (Reasm, FeedResult)
    requires f.Frame?
  {
    if |f.payload| != 5 then (s, Error("bad START payload"))
    else if Le32At(f.payload, 1) > MAX_TRANSFER then (s.(active := None), Error("transfer too large"))
    else (Reasm(Some(InProgress(f.payload[0], Le32At(f.payload, 1), f.seqno, [])), 0), Nothing)
  }

  function OnData(s: Reasm, f: Frame): (Reasm, FeedResult)
    requires f.Frame?
  {
    if s.active.None? then (s, Error("DATA without START"))
    else
      var a := s.active.value;
      var data := a.data + f.payload;
      if f.seqno != Wrap16(a.last + 1) then (s.(active := None), Error("sequence gap"))
      else if Wrap32(|data|) > a.total then (s.(active := None), Error("overrun"))
      else
        var n := Wrap32(s.dataFrames + 1);
        (Reasm(Some(a.(last := f.seqno, data := data)), n), Progress(n))
  }

  function OnEnd(s: Reasm, f: Frame): (Reasm, FeedResult)
    requires f.Frame?
  {
    if s.active.None? then (s, Error("END without START"))
    else
      var a := s.active.value;
      (s.(active := None),
       if f.seqno != Wrap16(a.last + 1) then Error("sequence gap at END")
       else if |f.payload| != 4 || Le32At(f.payload, 0) != a.total || Wrap32(|a.data|) != a.total
       then Error("length mismatch at END")
       else Complete(a.kind, a.data))
  }

  function Step(s: Reasm, f: Frame): (Reasm, FeedResult) {
    if f.Bad? then (s, Error("unparseable frame"))
    else if f.t == T_PING then (s, Ping)
    else if f.t == T_PONG || f.t == T_ACK then (s, Nothing)
    else if f.t == T_ABORT then (s.(active := None), Nothing)
    else if f.t == T_OFFER then
      if |f.payload| != 11 then (s, Error("bad OFFER payload"))
      else (s, Offered(Offer(f.payload[0], Le32At(f.payload, 1),
                             FromLe16(f.payload[5], f.payload[6]), Le32At(f.payload, 7))))
    else if f.t == T_PULL then
      if |f.payload| != 4 then (s, Error("bad PULL payload"))
      else (s, Pull(Le32At(f.payload, 0)))
    else if f.t == T_START then OnStart(s, f)
    else if f.t == T_DATA then OnData(s, f)
    else if f.t == T_END then OnEnd(s, f)
    else (s, Error("unknown frame type"))
  }

  /** A DATA frame with the next number that still fits is taken. */
  lemma DataAccepted(s: Reasm, f: Frame)
    requires f.Frame? && f.t == T_DATA && s.active.Some?
    requires f.seqno == Wrap16(s.active.value.last + 1)
    requires |s.active.value.data| + |f.payload| <= s.active.value.total
    ensures var a := s.active.value;
      Step(s, f) == (Reasm(Some(a.(last := f.seqno, data := a.data + f.payload)), Wrap32(s.dataFrames + 1)),
                     Progress(Wrap32(s.dataFrames + 1)))
  {
    WrapsNothing(|s.active.value.data + f.payload|);
    hide Wrap16, Wrap32, FromLe32, Le32At;
  }

  /** Bytes received and announced for the transfer in progress. */
  function StatusOf(s: Reasm): Option<(nat, u32)> {
    match s.active
    case None => None
    case Some(a) => Some((|a.data|, a.total))
  }

  class Reassembler {
    var active: Option<InProgress>
    var dataFrames: u32

    ghost function View(): Reasm
      reads this
    {
      Reasm(active, dataFrames)
    }

    constructor ()
      ensures View() == FRESH
    {
      active := None;
      dataFrames := 0;
    }

    method Status() returns (r: Option<(nat, u32)>)
      ensures r == StatusOf(View())
    {
      r := if active.Some? then Some((|active.value.data|, active.value.total)) else None;
    }

    method Feed(raw: Raw) returns (r: FeedResult)
      modifies this
      ensures (View(), r) == Step(old(View()), Parse(raw))
    {
      var p := Parse(raw);
      if p.Bad? {
        return Error("unparseable frame");
      }
      var b := p.payload;
      if p.t == T_PING {
        r := Ping;
      } else if p.t == T_PONG || p.t == T_ACK {
        r := Nothing;
      } else if p.t == T_ABORT {
        active := None;
        r := Nothing;
      } else if p.t == T_OFFER {
        if |b| != 11 {
          return Error("bad OFFER payload");
        }
        r := Offered(Offer(b[0], Le32At(b, 1), FromLe16(b[5], b[6]), Le32At(b, 7)));
      } else if p.t == T_PULL {
        if |b| != 4 {
          return Error("bad PULL payload");
        }
        r := Pull(Le32At(b, 0));
      } else if p.t == T_START {
        r := Start(p);
      } else if p.t == T_DATA {
        r := Data(p);
      } else if p.t == T_END {
        r := End(p);
      } else {
        r := Error("unknown frame type");
      }
    }

    method Start(p: Frame) returns (r: FeedResult)
      requires p.Frame?
      modifies this
      ensures (View(), r) == OnStart(old(View()), p)
    {
      if |p.payload| != 5 {
        return Error("bad START payload");
      }
      var total := Le32At(p.payload, 1);
      if total > MAX_TRANSFER {
        active := None;
        return Error("transfer too large");
      }
      active := Some(InProgress(p.payload[0], total, p.seqno, []));
      dataFrames := 0;
      r := Nothing;
    }

    method Data(p: Frame) returns (r: FeedResult)
      requires p.Frame?
      modifies this
      ensures (View(), r) == OnData(old(View()), p)
    {
      if active.None? {
        return Error("DATA without START");
      }
      if p.seqno != Wrap16(active.value.last + 1) {
        active := None;
        return Error("sequence gap");
      }
      active := Some(active.value.(last := p.seqno, data := active.value.data + p.payload));
      if Wrap32(|active.value.data|) > active.value.total {
        active := None;
        return Error("overrun");
      }
      dataFrames := Wrap32(dataFrames + 1);
      r := Progress(dataFrames);
    }

    method End(p: Frame) returns (r: FeedResult)
      requires p.Frame?
      modifies this
      ensures (View(), r) == OnEnd(old(View()), p)
    {
      if active.None? {
        return Error("END without START");
      }
      var a := active.value;
      active := None;
      if p.seqno != Wrap16(a.last + 1) {
        return Error("sequence gap at END");
      }
      if |p.payload| != 4 || Le32At(p.payload, 0) != a.total || Wrap32(|a.data|) != a.total {
        return Error("length mismatch at END");
      }
      r := Complete(a.kind, a.data);
    }
  }

  /** Control frames survive the wire: whatever is offered, pulled or
      acknowledged comes out as sent, in any receiver state, and moves nothing. */
  lemma OffersRoundTrip(s: Reasm, o: Offer)
    ensures Step(s, Parse(OfferBytes(o))) == (s, Offered(o))
    ensures ParseAck(OfferBytes(o)) == None
  {
    hide Le16, Le32, FromLe16, FromLe32;
    var a, b, c := Le32(o.total), Le16(o.items), Le32(o.id);
    var p := [o.kind] + a + b + c;
    ParseInverts(T_OFFER, 0, p);
    assert p[1] == a[0] && p[2] == a[1] && p[3] == a[2] && p[4] == a[3];
    assert p[5] == b[0] && p[6] == b[1];
    assert p[7] == c[0] && p[8] == c[1] && p[9] == c[2] && p[10] == c[3];
  }

  lemma PullsAndAcksRoundTrip(s: Reasm, n: u32)
    ensures Step(s, Parse(PullBytes(n))) == (s, Pull(n)) && ParseAck(PullBytes(n)) == None
    ensures Step(s, Parse(AckBytes(n))) == (s, Nothing) && ParseAck(AckBytes(n)) == Some(n)
  {
    hide Le16, Le32, FromLe16, FromLe32;
    ParseInverts(T_PULL, 0, Le32(n));
    ParseInverts(T_ACK, 0, Le32(n));
  }

  /** Of all reports, well-formed or not, exactly an ACK frame whose payload is
      the four bytes of n is read as an acknowledgement of n. */
  lemma AckExactly(f: Raw, n: u32)
    ensures ParseAck(f) == Some(n) <==>
            Parse(f).Frame? && Parse(f).t == T_ACK && Parse(f).payload == Le32(n)
  {
    hide FromLe32, Le32;
    var p := Parse(f);
    if p.Frame? && |p.payload| == 4 {
      Le32Unique(p.payload[0], p.payload[1], p.payload[2], p.payload[3]);
      assert p.payload == [p.payload[0], p.payload[1], p.payload[2], p.payload[3]];
    }
  }

  // ----- what the receiver has seen -------------------------------------

  /** Receiver state after feeding fs from s. */
  function Run(s: Reasm, fs: seq<Frame>): Reasm {
    if fs == [] then s else Step(Run(s, fs[..|fs| - 1]), fs[|fs| - 1]).0
  }

  /** Result of feeding the i-th frame of fs. */
  function ResultAt(s: Reasm, fs: seq<Frame>, i: nat): FeedResult
    requires i < |fs|
  {
    Step(Run(s, fs[..i]), fs[i]).1
  }

  lemma RunAppend(s: Reasm, fs: seq<Frame>, f: Frame)
    ensures Run(s, fs + [f]) == Step(Run(s, fs), f).0
  {
    assert (fs + [f])[..|fs|] == fs;
  }

  lemma {:induction false} RunConcat(s: Reasm, fs: seq<Frame>, gs: seq<Frame>)
    ensures Run(s, fs + gs) == Run(Run(s, fs), gs)
  {
    if gs == [] {
      assert fs + gs == fs;
    } else {
      var n := |gs| - 1;
      assert (fs + gs)[..|fs + gs| - 1] == fs + gs[..n];
      RunConcat(s, fs, gs[..n]);
    }
  }

  /** The transfer a result completes, if any. */
  function Completed(r: FeedResult): seq<(u8, seq<u8>)> {
    if r.Complete? then [(r.kind, r.data)] else []
  }

  /** All transfers completed while feeding fs, in order. */
  function Completions(s: Reasm, fs: seq<Frame>): seq<(u8, seq<u8>)> {
    if fs == [] then []
    else Completions(s, fs[..|fs| - 1]) + Completed(ResultAt(s, fs, |fs| - 1))
  }

  lemma CompletionsAppend(s: Reasm, fs: seq<Frame>, f: Frame)
    ensures Completions(s, fs + [f]) == Completions(s, fs) + Completed(Step(Run(s, fs), f).1)
  {
    assert (fs + [f])[..|fs|] == fs;
  }

  lemma {:induction false} CompletionsConcat(s: Reasm, fs: seq<Frame>, gs: seq<Frame>)
    ensures Completions(s, fs + gs) == Completions(s, fs) + Completions(Run(s, fs), gs)
  {
    hide Step, Run;
    if gs == [] {
      assert fs + gs == fs;
    } else {
      var hs, g := gs[..|gs| - 1], gs[|gs| - 1];
      assert fs + gs == fs + hs + [g] && gs == hs + [g];
      CompletionsConcat(s, fs, hs);
      CompletionsAppend(s, fs + hs, g);
      CompletionsAppend(Run(s, fs), hs, g);
      RunConcat(s, fs, hs);
    }
  }

  /** The frames that can touch a transfer. */
  predicate Relevant(f: Frame) {
    f.Frame? && (f.t == T_ABORT || f.t == T_DATA || f.t == T_END || (f.t == T_START && |f.payload| == 5))
  }

  function Relevants(fs: seq<Frame>): (gs: seq<Frame>)
    ensures forall i :: 0 <= i < |gs| ==> Relevant(gs[i])
  {
    if fs == [] then []
    else
      var gs, f := Relevants(fs[..|fs| - 1]), fs[|fs| - 1];
      if Relevant(f) then gs + [f] else gs
  }

  /** Dropping everything irrelevant leaves the receiver in the same state. */
  lemma {:induction false} IrrelevantFramesDoNothing(s: Reasm, fs: seq<Frame>)
    ensures Run(s, fs) == Run(s, Relevants(fs))
  {
    if fs != [] {
      var n := |fs| - 1;
      IrrelevantFramesDoNothing(s, fs[..n]);
      if Relevant(fs[n]) {
        RunAppend(s, Relevants(fs[..n]), fs[n]);
      }
    }
  }

  function Payloads(gs: seq<Frame>): seq<u8> {
    if gs == [] then []
    else
      var g := gs[|gs| - 1];
      Payloads(gs[..|gs| - 1]) + if g.Frame? then g.payload else []
  }

  predicate AcceptedStart(g: Frame, kind: u8, total: u32) {
    && g.Frame? && g.t == T_START && |g.payload| == 5
    && g.payload[0] == kind && Le32At(g.payload, 1) == total <= MAX_TRANSFER
  }

  /** Every frame after the first is DATA and carries the next number. */
  ghost predicate Numbered(gs: seq<Frame>) {
    && |gs| > 0 && gs[0].Frame?
    && forall i :: 1 <= i < |gs| ==>
         gs[i].Frame? && gs[i].t == T_DATA && gs[i].seqno == Wrap16(gs[0].seqno + i)
  }

  /** gs is an accepted START of `total` bytes followed only by consecutively
      numbered DATA frames whose payloads, joined, are data. */
  ghost predicate Unfinished(gs: seq<Frame>, kind: u8, total: u32, data: seq<u8>) {
    && Numbered(gs)
    && AcceptedStart(gs[0], kind, total)
    && data == Payloads(gs[1..])
    && |data| <= total
  }

  ghost predicate UnfinishedFrom(gs: seq<Frame>, k: nat, kind: u8, total: u32, data: seq<u8>) {
    k < |gs| && Unfinished(gs[k..], kind, total, data)
  }

  /** Some suffix of gs is an unfinished transfer. */
  ghost predicate EndsUnfinished(gs: seq<Frame>, kind: u8, total: u32, data: seq<u8>) {
    exists k: nat :: UnfinishedFrom(gs, k, kind, total, data)
  }

  ghost predicate Holds(s: Reasm, kind: u8, total: u32, last: u16, data: seq<u8>) {
    s.active == Some(InProgress(kind, total, last, data))
  }

  function LastSeq(gs: seq<Frame>): u16 {
    if gs == [] || gs[|gs| - 1].Bad? then 0 else gs[|gs| - 1].seqno
  }

  /** What appending one frame to an unfinished transfer takes. */
  ghost predicate Extends(g: Frame, last: u16, data: seq<u8>) {
    && g.Frame? && g.t == T_DATA && g.seqno == Wrap16(last + 1)
    && |g.payload| <= |data| && data[|data| - |g.payload|..] == g.payload
  }

  lemma PayloadsAppend(gs: seq<Frame>, g: Frame)
    requires g.Frame?
    ensures Payloads(gs + [g]) == Payloads(gs) + g.payload
  {
    assert (gs + [g])[..|gs|] == gs;
  }

  lemma NumberedAppend(u: seq<Frame>, g: Frame)
    requires |u| > 0
    ensures Numbered(u + [g]) <==>
            Numbered(u) && g.Frame? && g.t == T_DATA && g.seqno == Wrap16(LastSeq(u) + 1)
  {
    var v, n := u + [g], |u|;
    assert v[n] == g && forall i :: 0 <= i < n ==> v[i] == u[i];
    if Numbered(u) {
      assert LastSeq(u) == Wrap16(u[0].seqno + (n - 1));
      Wrap16Next(u[0].seqno + (n - 1));
    }
    if Numbered(v) {
      assert Numbered(u) by {
        assert forall i :: 1 <= i < n ==> u[i] == v[i];
      }
    }
  }

  lemma UnfinishedAppend(u: seq<Frame>, g: Frame, kind: u8, total: u32, data: seq<u8>)
    requires |u| > 0
    ensures Unfinished(u + [g], kind, total, data) <==>
              && Extends(g, LastSeq(u), data) && |data| <= total
              && Unfinished(u, kind, total, data[..|data| - |g.payload|])
  {
    hide Le32At, FromLe32, Wrap16;
    NumberedAppend(u, g);
    if g.Frame? {
      assert (u + [g])[1..] == u[1..] + [g];
      PayloadsAppend(u[1..], g);
      TailSplits(data, Payloads(u[1..]), g.payload);
    }
  }

  lemma TailSplits(data: seq<u8>, head: seq<u8>, tail: seq<u8>)
    ensures data == head + tail <==>
            |tail| <= |data| && data[|data| - |tail|..] == tail && data[..|data| - |tail|] == head
  {
    if |tail| <= |data| {
      assert data == data[..|data| - |tail|] + data[|data| - |tail|..];
    }
    var joined := head + tail;
    assert joined[..|head|] == head && joined[|head|..] == tail;
  }

  lemma UnfinishedSuffix(gs: seq<Frame>, g: Frame, k: nat, kind: u8, total: u32, data: seq<u8>)
    requires k < |gs|
    ensures UnfinishedFrom(gs + [g], k, kind, total, data) <==>
            && |data| <= total && Extends(g, LastSeq(gs), data)
            && UnfinishedFrom(gs, k, kind, total, data[..|data| - |g.payload|])
  {
    assert (gs + [g])[k..] == gs[k..] + [g];
    UnfinishedAppend(gs[k..], g, kind, total, data);
  }

  ghost predicate Bounded(s: Reasm) {
    s.active.Some? ==> |s.active.value.data| <= s.active.value.total <= MAX_TRANSFER
  }

  lemma {:induction false} RunBounded(s: Reasm, gs: seq<Frame>)
    requires Bounded(s)
    ensures Bounded(Run(s, gs))
  {
    if gs != [] {
      RunBounded(s, gs[..|gs| - 1]);
    }
  }

  /** One DATA frame: what is held afterwards determines what was held before. */
  lemma HoldsStep(s: Reasm, g: Frame, kind: u8, total: u32, last: u16, data: seq<u8>)
    requires g.Frame? && g.t == T_DATA && Bounded(s)
    ensures Holds(Step(s, g).0, kind, total, last, data) <==>
            && last == g.seqno && |data| <= total
            && s.active.Some? && Extends(g, s.active.value.last, data)
            && Holds(s, kind, total, s.active.value.last, data[..|data| - |g.payload|])
  {
    if s.active.Some? {
      TailSplits(data, s.active.value.data, g.payload);
    }
  }

  /** The receiver is in the middle of a transfer exactly when the relevant
      frames end in an accepted START followed by consecutive DATA frames, and
      what it holds is the concatenation of their payloads. */
  lemma {:induction false} HoldsExactly(gs: seq<Frame>, kind: u8, total: u32, last: u16, data: seq<u8>)
    requires forall i :: 0 <= i < |gs| ==> Relevant(gs[i])
    ensures Holds(Run(FRESH, gs), kind, total, last, data) <==>
            last == LastSeq(gs) && EndsUnfinished(gs, kind, total, data)
    decreases |gs|, 0
  {
    if gs != [] {
      var hs, g := gs[..|gs| - 1], gs[|gs| - 1];
      assert gs == hs + [g];
      RunAppend(FRESH, hs, g);
      RunBounded(FRESH, hs);
      if g.t == T_DATA {
        HoldsAfterData(hs, g, kind, total, last, data);
      } else {
        HoldsAfterOther(hs, g, kind, total, last, data);
      }
    }
  }

  lemma {:induction false} HoldsAfterData(hs: seq<Frame>, g: Frame, kind: u8, total: u32, last: u16, data: seq<u8>)
    requires forall i :: 0 <= i < |hs| ==> Relevant(hs[i])
    requires g.Frame? && g.t == T_DATA && Bounded(Run(FRESH, hs))
    ensures Holds(Step(Run(FRESH, hs), g).0, kind, total, last, data) <==>
            last == g.seqno && EndsUnfinished(hs + [g], kind, total, data)
    decreases |hs|, 1
  {
    var s, gs := Run(FRESH, hs), hs + [g];
    HoldsStep(s, g, kind, total, last, data);
    var before := if |g.payload| <= |data| then data[..|data| - |g.payload|] else [];
    if s.active.Some? {
      HoldsExactly(hs, kind, total, s.active.value.last, before);
    }
    HoldsExactly(hs, kind, total, LastSeq(hs), before);
    forall k: nat | k < |hs|
      ensures UnfinishedFrom(gs, k, kind, total, data) <==>
              |data| <= total && Extends(g, LastSeq(hs), data) && UnfinishedFrom(hs, k, kind, total, before)
    {
      UnfinishedSuffix(hs, g, k, kind, total, data);
    }
    assert !UnfinishedFrom(gs, |hs|, kind, total, data);
  }

  lemma HoldsAfterOther(hs: seq<Frame>, g: Frame, kind: u8, total: u32, last: u16, data: seq<u8>)
    requires Relevant(g) && g.t != T_DATA
    ensures Holds(Step(Run(FRESH, hs), g).0, kind, total, last, data) <==>
            last == g.seqno && EndsUnfinished(hs + [g], kind, total, data)
  {
    var gs := hs + [g];
    forall k: nat | k < |hs| ensures !UnfinishedFrom(gs, k, kind, total, data) {
      UnfinishedSuffix(hs, g, k, kind, total, data);
    }
    assert gs[|hs|..] == [g];
    assert UnfinishedFrom(gs, |hs|, kind, total, data) <==>
        AcceptedStart(g, kind, total) && data == [];
  }

  /** Whatever frames arrived since start-up, n of total bytes are reported as
      received exactly when the relevant frames end in an unfinished transfer of
      that many bytes, and nothing is reported when they do not. */
  lemma StatusExactly(fs: seq<Frame>, n: nat, total: u32)
    ensures StatusOf(Run(FRESH, fs)) == Some((n, total)) <==>
              exists kind: u8, data: seq<u8> :: |data| == n && EndsUnfinished(Relevants(fs), kind, total, data)
  {
    var gs := Relevants(fs);
    IrrelevantFramesDoNothing(FRESH, fs);
    hide Run, Relevants, EndsUnfinished, Wrap16;
    var s := Run(FRESH, gs);
    if s.active.Some? {
      var a := s.active.value;
      HoldsExactly(gs, a.kind, a.total, a.last, a.data);
    }
    forall kind: u8, data: seq<u8> | EndsUnfinished(gs, kind, total, data)
      ensures Holds(s, kind, total, LastSeq(gs), data)
    {
      HoldsExactly(gs, kind, total, LastSeq(gs), data);
    }
  }

  lemma EndCompletes(s: Reasm, f: Frame, kind: u8, data: seq<u8>)
    requires Bounded(s)
    ensures Step(s, f).1 == Complete(kind, data) <==>
            && f.Frame? && f.t == T_END && |f.payload| == 4 && Le32At(f.payload, 0) == |data|
            && s.active.Some? && f.seqno == Wrap16(s.active.value.last + 1)
            && Holds(s, kind, |data|, s.active.value.last, data)
  {
    if s.active.Some? {
      WrapsNothing(|s.active.value.data|);
    }
    hide Wrap16, Wrap32, FromLe32;
  }

  /** Whatever frames arrived, the next one completes a transfer exactly when
      the relevant frames so far end in an accepted START followed by
      consecutive DATA frames, their payloads join to the announced length,
      and the frame is an END with the next number that repeats the length. */
  lemma CompletesExactly(fs: seq<Frame>, f: Frame, kind: u8, data: seq<u8>)
    ensures Step(Run(FRESH, fs), f).1 == Complete(kind, data) <==>
            && f.Frame? && f.t == T_END && |f.payload| == 4 && Le32At(f.payload, 0) == |data|
            && f.seqno == Wrap16(LastSeq(Relevants(fs)) + 1)
            && EndsUnfinished(Relevants(fs), kind, |data|, data)
  {
    hide Le32At, FromLe32, Wrap16, Wrap32, Step, Run, Relevants, Relevant, LastSeq, EndsUnfinished, Bounded;
    var gs := Relevants(fs);
    var s := Run(FRESH, gs);
    IrrelevantFramesDoNothing(FRESH, fs);
    RunBounded(FRESH, gs);
    EndCompletes(s, f, kind, data);
    if |data| < 0x1_0000_0000 {
      HoldsExactly(gs, kind, |data|, LastSeq(gs), data);
      if s.active.Some? {
        HoldsExactly(gs, kind, |data|, s.active.value.last, data);
      }
    }
  }

  /** Frames of the other kinds may be inserted anywhere: every later frame
      gives the same result and leaves the same transfer. */
  lemma IrrelevantInsertion(s: Reasm, fs: seq<Frame>, noise: seq<Frame>, gs: seq<Frame>, f: Frame)
    requires forall i :: 0 <= i < |noise| ==> !Relevant(noise[i])
    ensures Step(Run(s, fs + noise + gs), f) == Step(Run(s, fs + gs), f)
  {
    NoiseOnly(Run(s, fs), noise);
    RunConcat(s, fs, noise);
    RunConcat(s, fs + noise, gs);
    RunConcat(s, fs, gs);
  }

  lemma {:induction false} NoiseOnly(s: Reasm, noise: seq<Frame>)
    requires forall i :: 0 <= i < |noise| ==> !Relevant(noise[i])
    ensures Run(s, noise) == s
  {
    if noise != [] {
      NoiseOnly(s, noise[..|noise| - 1]);
    }
  }
}
