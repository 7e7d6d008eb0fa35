/** Lazy file offers: a copy of files is only offered, and its bytes move at a
    crossing or when the other side pulls. Both agents' offer logic, and what
    every run of either sends (linux/input-router/src/clipboard.rs,
    windows/clipboard-agent/src/main.rs). */
module LazyOffers {
  import opened Bytes
  import opened ClipFrame

  type Path = seq<u8>
  type Hash = nat

  /** A local copy as the watcher reports it; id is the offer id of its hash. */
  datatype Copy = Copy(kind: u8, paths: seq<Path>, hash: Hash, id: u32)

  /** How packing and sending a batch ended. NotPacked sends nothing; Lost means
      the connection is gone; Abandoned that the receiver stopped acknowledging. */
  datatype Push = NotPacked | Delivered | Lost | Abandoned

  datatype Held = Held(id: u32, paths: seq<Path>)

  /** What an agent has seen and done. Copied is a local copy that was not an
      echo; offered says that it was a readable batch whose OFFER went out. Crossed
      is also logged for the command line's pull; Arrived only on Windows. */
  datatype Act =
    | Copied(copy: Copy, offered: bool)
    | Crossed
    | Arrived(pull: u32)
    | Pulled(id: u32)
    | SentFiles(paths: seq<Path>, result: Push)

  /** The part both agents share: the offer held, and the history. */
  datatype Core = Core(offer: Option<Held>, log: seq<Act>)

  function Logged(c: Core, a: Act): Core { c.(log := c.log + [a]) }

  /** Files offer only; anything else supersedes an offer. */
  function TakeCopy(c: Core, copy: Copy, readable: bool, wrote: bool): Core {
    var offered := copy.kind == KIND_TAR && readable && wrote;
    Logged(c, Copied(copy, offered)).(
      offer := if offered then Some(Held(copy.id, copy.paths))
               else if copy.kind == KIND_TAR then c.offer else None)
  }

  function SendOffer(c: Core, push: Push): Core
    requires c.offer.Some?
  {
    if push.NotPacked? then c else Logged(c, SentFiles(c.offer.value.paths, push))
  }

  /** A pull serves the offer of that id, which stays held unless it was sent. */
  function ServePull(c: Core, id: u32, push: Push): Core {
    var c1 := Logged(c, Pulled(id));
    if c.offer.None? || c.offer.value.id != id then c1
    else
      var c2 := SendOffer(c1, push);
      if push.Delivered? then c2.(offer := None) else c2
  }

  /** A crossing takes the offer out first and puts it back only when the send
      failed with the connection still there. */
  function Cross(c: Core, push: Push): Core {
    var c1 := Logged(c, Crossed);
    if c.offer.None? then c1
    else
      var c2 := SendOffer(c1, push);
      if push.Delivered? || push.Lost? then c2.(offer := None) else c2
  }

  // ----- the Linux agent -------------------------------------------------------

  datatype Remote = Remote(id: u32, requested: bool)
  datatype Ask = NewOffer(id: u32) | AskedFor(id: u32, explicit: bool) | FilesCame

  datatype Linux = Linux(
    core: Core, lastSent: Hash, lastSet: Hash, remote: Option<Remote>, asks: seq<Ask>)

  /** Control messages: the router's crossings and the command line's pull. */
  datatype Signal = ToRemote | ToLocal | PullNow | Unknown

  datatype LinuxEvent =
    | Local(copy: Copy, readable: bool, wrote: bool, push: Push)
    | OfferFrame(id: u32)
    | PullFrame(id: u32, push: Push)
    | Received(kind: u8, hash: Option<Hash>)
    | Control(signal: Signal, push: Push)
    | Other

  const LINUX_START := Linux(Core(None, []), 0, 0, None, [])

  function OnLocal(s: Linux, copy: Copy, readable: bool, wrote: bool, push: Push): Linux {
    if copy.hash == s.lastSent || copy.hash == s.lastSet then s
    else
      var s1 := s.(core := TakeCopy(s.core, copy, readable, wrote));
      if (if copy.kind == KIND_TAR then readable && wrote else !push.Lost?) then s1.(lastSent := copy.hash) else s1
  }

  function OnReceived(s: Linux, kind: u8, hash: Option<Hash>): Linux {
    var s1 := s.(lastSet := if hash.Some? then hash.value else s.lastSet);
    if kind == KIND_TAR then s1.(remote := None, asks := s.asks + [FilesCame]) else s1
  }

  function AskRemote(s: Linux, explicit: bool): Linux {
    if s.remote.None? || (s.remote.value.requested && !explicit) then s
    else s.(remote := Some(s.remote.value.(requested := true)),
            asks := s.asks + [AskedFor(s.remote.value.id, explicit)])
  }

  function OnControl(s: Linux, signal: Signal, push: Push): Linux {
    match signal
    case ToRemote => s.(core := Cross(s.core, push))
    case ToLocal => AskRemote(s, false)
    case PullNow =>
      var s1 := s.(core := Cross(s.core, push));
      if s.core.offer.Some? && push.Lost? then s1 else AskRemote(s1, true)
    case Unknown => s
  }

  function OnLinux(s: Linux, e: LinuxEvent): Linux {
    match e
    case Local(copy, readable, wrote, push) => OnLocal(s, copy, readable, wrote, push)
    case OfferFrame(id) => s.(remote := Some(Remote(id, false)), asks := s.asks + [NewOffer(id)])
    case PullFrame(id, push) => s.(core := ServePull(s.core, id, push))
    case Received(kind, hash) => OnReceived(s, kind, hash)
    case Control(signal, push) => OnControl(s, signal, push)
    case Other => s
  }

  function LinuxRun(es: seq<LinuxEvent>): Linux {
    if es == [] then LINUX_START else OnLinux(LinuxRun(es[..|es| - 1]), es[|es| - 1])
  }

  // ----- the Windows helper --------------------------------------------------------

  /** slot: the pull the reader thread has stored and the send loop not taken. */
  datatype Windows = Windows(core: Core, lastSent: Hash, lastSet: Hash, slot: Option<u32>)

  datatype WindowsEvent =
    | PullArrives(id: u32)
    | Serve(push: Push)
    | Poll(copy: Copy, readable: bool, wrote: bool)
    | Applied(hash: Hash)

  const WINDOWS_START := Windows(Core(None, []), 0, 0, None)

  function OnPoll(s: Windows, copy: Copy, readable: bool, wrote: bool): Windows {
    if copy.hash == s.lastSent || copy.hash == s.lastSet then s
    else
      var s1 := s.(core := TakeCopy(s.core, copy, readable, wrote));
      if copy.kind == KIND_TAR && !(readable && wrote) then s1 else s1.(lastSent := copy.hash)
  }

  function OnServe(s: Windows, push: Push): Windows {
    if s.slot.None? then s
    else s.(core := ServePull(s.core, s.slot.value, push), slot := None)
  }

  function OnWindows(s: Windows, e: WindowsEvent): Windows {
    match e
    case PullArrives(id) => s.(core := Logged(s.core, Arrived(id)), slot := Some(id))
    case Serve(push) => OnServe(s, push)
    case Poll(copy, readable, wrote) => OnPoll(s, copy, readable, wrote)
    case Applied(hash) => s.(lastSet := hash)
  }

  function WindowsRun(es: seq<WindowsEvent>): Windows {
    if es == [] then WINDOWS_START else OnWindows(WindowsRun(es[..|es| - 1]), es[|es| - 1])
  }

  // ----- the loops --------------------------------------------------------------------

  class LinuxAgent {
    var localOffer: Option<Held>
    var remoteOffer: Option<Remote>
    var lastSent: Hash
    var lastSet: Hash
    ghost var log: seq<Act>
    ghost var asks: seq<Ask>

    ghost function S(): Linux
      reads this
    {
      Linux(Core(localOffer, log), lastSent, lastSet, remoteOffer, asks)
    }

    constructor ()
      ensures S() == LINUX_START
    {
      localOffer, remoteOffer, lastSent, lastSet := None, None, 0, 0;
      log, asks := [], [];
    }

    method HandleLocal(copy: Copy, readable: bool, wrote: bool, push: Push)
      modifies this
      ensures S() == OnLocal(old(S()), copy, readable, wrote, push)
    {
      if copy.hash == lastSent || copy.hash == lastSet {
        return;
      }
      if copy.kind == KIND_TAR {
        log := log + [Copied(copy, readable && wrote)];
        if !readable || !wrote {
          return;
        }
        localOffer := Some(Held(copy.id, copy.paths));
        lastSent := copy.hash;
      } else {
        log := log + [Copied(copy, false)];
        localOffer := None;
        if !push.Lost? {
          lastSent := copy.hash;
        }
      }
    }

    /** Packs and sends a batch. */
    method PushOffer(offer: Held, push: Push)
      modifies this`log
      ensures log == if push.NotPacked? then old(log) else old(log) + [SentFiles(offer.paths, push)]
    {
      if !push.NotPacked? {
        log := log + [SentFiles(offer.paths, push)];
      }
    }

    method HandlePull(id: u32, push: Push)
      modifies this
      ensures S() == old(S()).(core := ServePull(old(S()).core, id, push))
    {
      log := log + [Pulled(id)];
      if localOffer.Some? && localOffer.value.id == id {
        PushOffer(localOffer.value, push);
        if push.Delivered? {
          localOffer := None;
        }
      }
    }

    method HandleControl(signal: Signal, push: Push)
      modifies this
      ensures S() == OnControl(old(S()), signal, push)
    {
      if signal.ToRemote? || signal.PullNow? {
        log := log + [Crossed];
        if localOffer.Some? {
          var taken := localOffer.value;
          localOffer := None;
          PushOffer(taken, push);
          if push.Lost? {
            return;
          }
          if !push.Delivered? {
            localOffer := Some(taken);
          }
        }
      }
      if signal.ToLocal? || signal.PullNow? {
        if remoteOffer.Some? && (!remoteOffer.value.requested || signal.PullNow?) {
          remoteOffer := Some(remoteOffer.value.(requested := true));
          asks := asks + [AskedFor(remoteOffer.value.id, signal.PullNow?)];
        }
      }
    }

    method Run(es: seq<LinuxEvent>)
      requires S() == LINUX_START
      modifies this
      ensures S() == LinuxRun(es)
    {
      hide OnLocal, OnControl, ServePull;
      for i := 0 to |es|
        invariant S() == LinuxRun(es[..i])
      {
        assert es[..i + 1][..i] == es[..i];
        match es[i]
        case Local(copy, readable, wrote, push) => HandleLocal(copy, readable, wrote, push);
        case OfferFrame(id) =>
          remoteOffer := Some(Remote(id, false));
          asks := asks + [NewOffer(id)];
        case PullFrame(id, push) => HandlePull(id, push);
        case Received(kind, hash) =>
          if hash.Some? {
            lastSet := hash.value;
          }
          if kind == KIND_TAR {
            remoteOffer := None;
            asks := asks + [FilesCame];
          }
        case Control(signal, push) => HandleControl(signal, push);
        case Other =>
      }
      assert es[..|es|] == es;
    }
  }

  class WindowsHelper {
    var localOffer: Option<Held>
    var pullRequest: Option<u32>
    var lastSent: Hash
    var lastSet: Hash
    ghost var log: seq<Act>

    ghost function S(): Windows
      reads this
    {
      Windows(Core(localOffer, log), lastSent, lastSet, pullRequest)
    }

    constructor ()
      ensures S() == WINDOWS_START
    {
      localOffer, pullRequest, lastSent, lastSet := None, None, 0, 0;
      log := [];
    }

    method ServeRequest(push: Push)
      modifies this
      ensures S() == OnServe(old(S()), push)
    {
      if pullRequest.None? {
        return;
      }
      var id := pullRequest.value;
      pullRequest := None;
      log := log + [Pulled(id)];
      if localOffer.Some? && localOffer.value.id == id && !push.NotPacked? {
        log := log + [SentFiles(localOffer.value.paths, push)];
        if push.Delivered? {
          localOffer := None;
        }
      }
    }

    method PollClipboard(copy: Copy, readable: bool, wrote: bool)
      modifies this
      ensures S() == OnPoll(old(S()), copy, readable, wrote)
    {
      if copy.hash == lastSent || copy.hash == lastSet {
        return;
      }
      if copy.kind == KIND_TAR {
        log := log + [Copied(copy, readable && wrote)];
        if readable && wrote {
          localOffer := Some(Held(copy.id, copy.paths));
          lastSent := copy.hash;
        }
        return;
      }
      log := log + [Copied(copy, false)];
      localOffer := None;
      lastSent := copy.hash;
    }

    /** The send loop, with the reader and applier threads' steps in between. */
    method Run(es: seq<WindowsEvent>)
      requires S() == WINDOWS_START
      modifies this
      ensures S() == WindowsRun(es)
    {
      hide OnServe, OnPoll;
      for i := 0 to |es|
        invariant S() == WindowsRun(es[..i])
      {
        assert es[..i + 1][..i] == es[..i];
        match es[i]
        case PullArrives(id) =>
          pullRequest := Some(id);
          log := log + [Arrived(id)];
        case Serve(push) => ServeRequest(push);
        case Poll(copy, readable, wrote) => PollClipboard(copy, readable, wrote);
        case Applied(hash) => lastSet := hash;
      }
      assert es[..|es|] == es;
    }
  }
}
