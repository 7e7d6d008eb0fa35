/** The Linux agent's frame handler: what it writes back and what it puts on the
    clipboard (linux/input-router/src/clipboard.rs). */
module ClipReceiver {
  import opened Bytes
  import opened ClipFrame
  import opened ClipTransfer
  import FileList
  import Newlines

  datatype Incoming = OfferCame(offer: Offer) | PullCame(id: u32) | Applied(kind: u8)

  type Hash = nat

  /** Whether the clipboard can be set, the paths an archive unpacks to, and the
      signature of these if their batch can be read. */
  datatype World = World(setOk: bool, staged: Option<seq<seq<u8>>>, signature: Option<Hash>)

  function Replies(r: FeedResult): seq<Raw> {
    match r
    case Ping => [FrameBytes(T_PONG, 0, [])]
    case Progress(n) => if n % ACK_EVERY == 0 then [AckBytes(n)] else []
    case _ => []
  }

  /** What a finished transfer puts on the clipboard. */
  function ToApply(r: FeedResult, w: World): Option<(u8, seq<u8>)> {
    if !r.Complete? || !w.setOk then None
    else if r.kind == KIND_TEXT then Some((KIND_TEXT, Newlines.ToLf(r.data)))
    else if r.kind == KIND_PNG then Some((KIND_PNG, r.data))
    else if r.kind == KIND_TAR && w.staged.Some? then Some((KIND_TAR, FileList.ListOf(w.staged.value)))
    else None
  }

  /** The hash that marks what was just set as an echo, for the watcher. */
  function LastSet(r: FeedResult, w: World, hash: (u8, seq<u8>) -> Hash, before: Hash): Hash {
    match ToApply(r, w)
    case None => before
    case Some((kind, data)) =>
      if kind != KIND_TAR then hash(kind, data) else if w.signature.Some? then w.signature.value else before
  }

  /** Progress is logged every 8192 DATA frames. */
  function Progressed(s: Reasm, r: FeedResult): Option<(nat, u32)> {
    if r.Progress? && r.count % 8192 == 0 then StatusOf(s) else None
  }

  function Reported(r: FeedResult, w: World): Option<Incoming> {
    if r.Offered? then Some(OfferCame(r.offer))
    else if r.Pull? then Some(PullCame(r.id))
    else if ToApply(r, w).Some? then Some(Applied(r.kind))
    else None
  }

  function Appended<T>(s: seq<T>, x: Option<T>): seq<T> {
    if x.Some? then s + [x.value] else s
  }

  /** hash is the content hash, whatever it is. */
  class Receiver {
    const reasm: Reassembler
    const hash: (u8, seq<u8>) -> Hash
    var lastSet: Hash
    var written: seq<Raw>              // frames written back
    var clipboard: seq<(u8, seq<u8>)>  // contents set, oldest first

    constructor (hash: (u8, seq<u8>) -> Hash)
      ensures fresh(reasm) && reasm.View() == FRESH && this.hash == hash
      ensures lastSet == 0 && written == [] && clipboard == []
    {
      this.hash := hash;
      reasm := new Reassembler();
      lastSet, written, clipboard := 0, [], [];
    }

    method SetClipboard(kind: u8, data: seq<u8>, ok: bool)
      modifies this`clipboard
      ensures clipboard == if ok then old(clipboard) + [(kind, data)] else old(clipboard)
    {
      if ok {
        clipboard := clipboard + [(kind, data)];
      }
    }

    /** A finished transfer. */
    method Apply(kind: u8, data: seq<u8>, w: World) returns (incoming: Option<Incoming>)
      modifies this`clipboard, this`lastSet
      ensures var r := Complete(kind, data);
        && clipboard == Appended(old(clipboard), ToApply(r, w))
        && lastSet == LastSet(r, w, hash, old(lastSet))
        && incoming == Reported(r, w)
    {
      hide Newlines.ToLf, FileList.ListOf;
      incoming := None;
      if kind == KIND_TEXT {
        var text := Newlines.ToLf(data);
        SetClipboard(kind, text, w.setOk);
        if w.setOk {
          lastSet := hash(kind, text);
          incoming := Some(Applied(kind));
        }
      } else if kind == KIND_PNG {
        SetClipboard(kind, data, w.setOk);
        if w.setOk {
          lastSet := hash(kind, data);
          incoming := Some(Applied(kind));
        }
      } else if kind == KIND_TAR && w.staged.Some? {
        var list := FileList.BuildList(w.staged.value);
        SetClipboard(kind, list, w.setOk);
        if w.setOk {
          if w.signature.Some? {
            lastSet := w.signature.value;
          }
          incoming := Some(Applied(kind));
        }
      }
    }

    method HandleFrame(raw: Raw, w: World) returns (incoming: Option<Incoming>, progress: Option<(nat, u32)>)
      modifies this, reasm
      ensures reasm.View() == Step(old(reasm.View()), Parse(raw)).0
      ensures var r := Step(old(reasm.View()), Parse(raw)).1;
        && written == old(written) + Replies(r)
        && clipboard == Appended(old(clipboard), ToApply(r, w))
        && lastSet == LastSet(r, w, hash, old(lastSet))
        && incoming == Reported(r, w)
        && progress == Progressed(reasm.View(), r)
    {
      hide Step, FrameBytes, Le32;
      var r := reasm.Feed(raw);
      incoming, progress := None, None;
      match r
      case Ping =>
        var f := BuildFrame(T_PONG, 0, []);
        written := written + [f[..]];
      case Progress(n) =>
        if n % ACK_EVERY == 0 {
          var f := BuildFrame(T_ACK, 0, Le32(n));
          written := written + [f[..]];
        }
        if n % 8192 == 0 {
          progress := reasm.Status();
        }
      case Offered(o) => incoming := Some(OfferCame(o));
      case Pull(id) => incoming := Some(PullCame(id));
      case Complete(kind, data) => incoming := Apply(kind, data, w);
      case _ =>
    }
  }

  // ----- a whole transfer ---------------------------------------------------------

  function AllReplies(s: Reasm, fs: seq<Frame>): seq<Raw> {
    if fs == [] then []
    else AllReplies(s, fs[..|fs| - 1]) + Replies(ResultAt(s, fs, |fs| - 1))
  }

  function AllApplied(s: Reasm, fs: seq<Frame>, w: World): seq<(u8, seq<u8>)> {
    if fs == [] then []
    else Appended(AllApplied(s, fs[..|fs| - 1], w), ToApply(ResultAt(s, fs, |fs| - 1), w))
  }

  /** The acknowledgements of the first n DATA frames: one for every 128th. */
  function Acks(n: nat): seq<Raw>
    requires n < 0x1_0000_0000
  {
    seq(n / ACK_EVERY, k requires 0 <= k < n / ACK_EVERY => AckBytes(ACK_EVERY * (k + 1)))
  }

  lemma AcksStep(n: nat)
    requires 1 <= n < 0x1_0000_0000
    ensures Acks(n) == Acks(n - 1) + Replies(Progress(n))
  {
    hide Le32, FrameBytes;
  }

  lemma NoAcks()
    ensures Acks(0) == []
  {
  }

  /** DATA frame i of a transfer is answered with its own count. */
  lemma DataResult(s: Reasm, kind: u8, data: seq<u8>, i: nat)
    requires |data| <= MAX_TRANSFER && 1 <= i <= Chunks(|data|)
    ensures ResultAt(s, Transfer(kind, data), i) == Progress(i)
  {
    hide Step, TransferFrame, Chunks, ChunkEnd, Wrap16, Wrap32;
    var fs := Transfer(kind, data);
    FeedPrefix(s, kind, data, i);
    ChunkBounds(|data|);
    ChunkEndGrows(|data|, i - 1, i);
    DataStep(Run(s, fs[..i]), kind, data, |data|, data[..ChunkEnd(|data|, i - 1)], i);
    WrapsNothing(i);
  }

  lemma StartResult(s: Reasm, kind: u8, data: seq<u8>)
    requires |data| <= MAX_TRANSFER
    ensures ResultAt(s, Transfer(kind, data), 0) == Nothing
  {
    hide Step, TransferFrame, Chunks;
    StartStep(s, kind, data);
  }

  /** One more frame. */
  lemma AllAppend(s: Reasm, fs: seq<Frame>, i: nat, w: World)
    requires i < |fs|
    ensures AllReplies(s, fs[..i + 1]) == AllReplies(s, fs[..i]) + Replies(ResultAt(s, fs, i))
    ensures AllApplied(s, fs[..i + 1], w) == Appended(AllApplied(s, fs[..i], w), ToApply(ResultAt(s, fs, i), w))
  {
    hide Step, Replies, ToApply, Appended;
    assert fs[..i + 1][..i] == fs[..i];
  }

  lemma {:induction false} PrefixReplies(s: Reasm, kind: u8, data: seq<u8>, i: nat, w: World)
    requires |data| <= MAX_TRANSFER && i <= Chunks(|data|)
    ensures i < 0x1_0000_0000
    ensures AllReplies(s, Transfer(kind, data)[..i + 1]) == Acks(i)
    ensures AllApplied(s, Transfer(kind, data)[..i + 1], w) == []
  {
    hide Step, TransferFrame, Chunks, Acks, AllReplies, AllApplied, ResultAt, AckBytes;
    var fs := Transfer(kind, data);
    ChunkBounds(|data|);
    AllAppend(s, fs, i, w);
    if i == 0 {
      NoAcks();
      StartResult(s, kind, data);
      NothingYet(s, fs[..0], w);
    } else {
      PrefixReplies(s, kind, data, i - 1, w);
      DataResult(s, kind, data, i);
      AcksStep(i);
    }
  }

  lemma NothingYet(s: Reasm, fs: seq<Frame>, w: World)
    requires fs == []
    ensures AllReplies(s, fs) == [] && AllApplied(s, fs, w) == []
  {
  }

  /** A transfer that arrives whole, in any state of the receiver, is answered
      with exactly one acknowledgement for every 128th DATA frame and sets the
      clipboard once: a text with its line ends converted, an image as sent, an
      archive as the list of the files it unpacked to, which the agent then reads
      back from its own clipboard as just those paths. */
  lemma TransferApplied(s: Reasm, kind: u8, data: seq<u8>, w: World)
    requires |data| <= MAX_TRANSFER && Bounded(s)
    ensures Chunks(|data|) < 0x1_0000_0000
    ensures AllReplies(s, Transfer(kind, data)) == Acks(Chunks(|data|))
    ensures AllApplied(s, Transfer(kind, data), w)
         == if !w.setOk then []
            else if kind == KIND_TEXT then [(kind, Newlines.ToLf(data))]
            else if kind == KIND_PNG then [(kind, data)]
            else if kind == KIND_TAR && w.staged.Some? then [(kind, FileList.ListOf(w.staged.value))]
            else []
    ensures w.staged.Some? ==> FileList.ParseFileList(FileList.ListOf(w.staged.value)) == w.staged.value
  {
    hide Step, Transfer, Chunks, Acks, AllReplies, AllApplied, ResultAt, ToApply, Replies, Run;
    hide FileList.ListOf, FileList.ParseFileList, Newlines.ToLf;
    var fs, n := Transfer(kind, data), Chunks(|data|);
    PrefixReplies(s, kind, data, n, w);
    DeliveredIff(s, kind, data);
    AllAppend(s, fs, n + 1, w);
    assert fs[..n + 2] == fs;
    CompleteResult(kind, data, w);
    var acks := Acks(n);
    assert acks + [] == acks;
    if w.staged.Some? {
      FileList.FileListRoundTrip(w.staged.value);
    }
  }

  lemma CompleteResult(kind: u8, data: seq<u8>, w: World)
    ensures Replies(Complete(kind, data)) == []
    ensures Appended([], ToApply(Complete(kind, data), w))
         == if !w.setOk then []
            else if kind == KIND_TEXT then [(kind, Newlines.ToLf(data))]
            else if kind == KIND_PNG then [(kind, data)]
            else if kind == KIND_TAR && w.staged.Some? then [(kind, FileList.ListOf(w.staged.value))]
            else []
  {
    hide Newlines.ToLf, FileList.ListOf;
  }

  // ----- control frames and echoes ----------------------------------------------------

  /** A PING, whatever it carries, is answered by one report that reads as a PONG;
      an offer and a pull are reported as sent and answered by nothing; and an ACK
      is left to the sender. None of these touches the clipboard or its mark. */
  lemma ControlAnswered(
      s: Reasm, seqno: u16, payload: Payload, o: Offer, n: u32, w: World, hash: (u8, seq<u8>) -> Hash, mark: Hash)
    ensures var r := Step(s, Parse(FrameBytes(T_PING, seqno, payload))).1;
      |Replies(r)| == 1 && Parse(Replies(r)[0]) == Frame(T_PONG, 0, []) && Untouched(r, w, hash, mark, None)
    ensures var r := Step(s, Parse(OfferBytes(o))).1;
      Replies(r) == [] && Untouched(r, w, hash, mark, Some(OfferCame(o)))
    ensures var r := Step(s, Parse(PullBytes(n))).1;
      Replies(r) == [] && Untouched(r, w, hash, mark, Some(PullCame(n)))
    ensures var r := Step(s, Parse(AckBytes(n))).1;
      Replies(r) == [] && Untouched(r, w, hash, mark, None)
  {
    hide Le16, Le32, FromLe16, FromLe32, FrameBytes, Parse;
    ParseInverts(T_PING, seqno, payload);
    ParseInverts(T_PONG, 0, []);
    OffersRoundTrip(s, o);
    PullsAndAcksRoundTrip(s, n);
  }

  ghost predicate Untouched(
      r: FeedResult, w: World, hash: (u8, seq<u8>) -> Hash, mark: Hash, incoming: Option<Incoming>)
  {
    ToApply(r, w) == None && LastSet(r, w, hash, mark) == mark && Reported(r, w) == incoming
  }

  /** The mark after some frames. */
  function AllMarked(s: Reasm, fs: seq<Frame>, w: World, hash: (u8, seq<u8>) -> Hash, mark: Hash): Hash {
    if fs == [] then mark
    else LastSet(ResultAt(s, fs, |fs| - 1), w, hash, AllMarked(s, fs[..|fs| - 1], w, hash, mark))
  }

  /** Whatever frames arrived: what was put on the clipboard last is marked, by its
      own hash or by the signature of its files, so that the watcher takes it for
      an echo; and with nothing put there the mark is the former one. */
  lemma {:induction false} LastSetIsMarked(
      s: Reasm, fs: seq<Frame>, w: World, hash: (u8, seq<u8>) -> Hash, mark: Hash)
    ensures var applied, m := AllApplied(s, fs, w), AllMarked(s, fs, w, hash, mark);
      if applied == [] then m == mark
      else
        var (kind, data) := applied[|applied| - 1];
        && (kind != KIND_TAR ==> m == hash(kind, data))
        && (kind == KIND_TAR && w.signature.Some? ==> m == w.signature.value)
  {
    hide ResultAt, Newlines.ToLf, FileList.ListOf;
    if fs != [] {
      LastSetIsMarked(s, fs[..|fs| - 1], w, hash, mark);
    }
  }
}
