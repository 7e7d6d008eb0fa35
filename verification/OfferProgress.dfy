/** What every event of a run makes an agent do: files that are offered are sent
    when they are pulled or crossed with, copies that are no echoes are taken, and
    crossings ask for what the other side offers. */
module OfferProgress {
  import opened Bytes
  import opened ClipFrame
  import opened LazyOffers
  import opened OfferHistory

  /** What packing and sending a batch adds to the history. */
  function Sends(paths: seq<Path>, push: Push): seq<Act> {
    if push.NotPacked? then [] else [SentFiles(paths, push)]
  }

  ghost predicate Stands(log: seq<Act>, h: Held) {
    exists j: nat :: StandsFrom(log, j, h)
  }

  /** An offer of that id stands. */
  ghost predicate Offered(log: seq<Act>, id: u32) {
    exists paths :: Stands(log, Held(id, paths))
  }

  lemma StandsIsHeld(c: Core, h: Held)
    requires HoldsStanding(c)
    ensures Stands(c.log, h) <==> c.offer == Some(h)
  {
    hide StandsFrom;
  }

  lemma OfferedIsHeld(c: Core, id: u32)
    requires HoldsStanding(c)
    ensures Offered(c.log, id) <==> c.offer.Some? && c.offer.value.id == id
  {
    hide HoldsStanding, Stands;
    forall paths ensures Stands(c.log, Held(id, paths)) <==> c.offer == Some(Held(id, paths)) {
      StandsIsHeld(c, Held(id, paths));
    }
    if c.offer.Some? && c.offer.value.id == id {
      assert c.offer == Some(Held(id, c.offer.value.paths));
    }
  }

  // ----- pulls ------------------------------------------------------------------------

  /** A pull that was taken is answered with the files of the standing offer of its
      id, which stands on unless they were delivered, and with nothing if none has
      that id. */
  ghost predicate Answered(c: Core, id: u32, push: Push, c': Core) {
    && (forall paths :: Stands(c.log, Held(id, paths)) ==>
          && c'.log == c.log + [Pulled(id)] + Sends(paths, push)
          && c'.offer == if push.Delivered? then None else Some(Held(id, paths)))
    && (!Offered(c.log, id) ==> c'.log == c.log + [Pulled(id)] && c'.offer == c.offer)
  }

  lemma PullIsAnswered(c: Core, id: u32, push: Push)
    requires HoldsStanding(c)
    ensures Answered(c, id, push, ServePull(c, id, push))
  {
    hide HoldsStanding, Stands, Offered;
    OfferedIsHeld(c, id);
    forall paths | Stands(c.log, Held(id, paths)) ensures c.offer == Some(Held(id, paths)) {
      StandsIsHeld(c, Held(id, paths));
    }
    assert c.log + [Pulled(id)] + [] == c.log + [Pulled(id)];
  }

  lemma LinuxPullIsAnswered(es: seq<LinuxEvent>, id: u32, push: Push)
    ensures Answered(LinuxRun(es).core, id, push, LinuxRun(es + [PullFrame(id, push)]).core)
  {
    hide ServePull, Answered, AllSendsJustified, OnlyFilesOffered, HoldsStanding;
    LinuxSends(es);
    assert (es + [PullFrame(id, push)])[..|es|] == es;
    PullIsAnswered(LinuxRun(es).core, id, push);
  }

  /** The helper takes the pull that is waiting, and with none it does nothing. */
  lemma WindowsPullIsAnswered(es: seq<WindowsEvent>, push: Push)
    ensures var s, s' := WindowsRun(es), WindowsRun(es + [Serve(push)]);
      && (forall p: nat, id: u32 :: Waiting(s.core.log, p, id) ==>
            Answered(s.core, id, push, s'.core) && s'.slot == None)
      && ((forall p: nat, id: u32 :: !Waiting(s.core.log, p, id)) ==> s' == s)
  {
    hide ServePull, Answered, AllSendsJustified, OnlyFilesOffered, HoldsStanding, Waiting;
    WindowsSends(es);
    WindowsPulls(es);
    assert (es + [Serve(push)])[..|es|] == es;
    var s := WindowsRun(es);
    forall p: nat, id: u32 | Waiting(s.core.log, p, id) ensures s.slot == Some(id) {
    }
    if s.slot.Some? {
      PullIsAnswered(s.core, s.slot.value, push);
      var p: nat :| Waiting(s.core.log, p, s.slot.value);
    }
  }

  // ----- crossings ------------------------------------------------------------------------

  /** A crossing sends the standing offer, and gives it up if it was delivered or the
      connection was lost; with none it sends nothing. */
  lemma CrossingSends(es: seq<LinuxEvent>, signal: Signal, push: Push)
    requires signal.ToRemote? || signal.PullNow?
    ensures var c, c' := LinuxRun(es).core, LinuxRun(es + [Control(signal, push)]).core;
      && (forall h :: Stands(c.log, h) ==>
            && c'.log == c.log + [Crossed] + Sends(h.paths, push)
            && c'.offer == if push.Delivered? || push.Lost? then None else Some(h))
      && ((forall h :: !Stands(c.log, h)) ==> c'.log == c.log + [Crossed] && c'.offer == None)
  {
    hide AllSendsJustified, OnlyFilesOffered, HoldsStanding, Stands;
    LinuxSends(es);
    assert (es + [Control(signal, push)])[..|es|] == es;
    var c := LinuxRun(es).core;
    forall h ensures Stands(c.log, h) <==> c.offer == Some(h) {
      StandsIsHeld(c, h);
    }
    if c.offer.Some? {
      assert Stands(c.log, c.offer.value);
    }
    assert c.log + [Crossed] + [] == c.log + [Crossed];
    CrossingCore(LinuxRun(es), signal, push);
  }

  lemma CrossingCore(s: Linux, signal: Signal, push: Push)
    ensures OnControl(s, signal, push).core == if signal.ToRemote? || signal.PullNow? then Cross(s.core, push) else s.core
  {
    hide Cross;
  }

  /** A crossing to this side asks for the newest offer of the other if nothing has,
      and for nothing else; the command asks again, unless its own send has found the
      connection lost. */
  lemma CrossingAsks(es: seq<LinuxEvent>, signal: Signal, push: Push)
    ensures var s, s' := LinuxRun(es), LinuxRun(es + [Control(signal, push)]);
      && (forall id: u32, requested :: Wanted(s.asks, id, requested) ==>
            s'.asks == s.asks + if (signal.ToLocal? && !requested) || (signal.PullNow? && !AskLost(s, push))
                                then [AskedFor(id, signal.PullNow?)] else [])
      && ((forall id: u32, requested :: !Wanted(s.asks, id, requested)) ==> s'.asks == s.asks)
  {
    hide Cross, CrossingsAskOnce, Wanted, Stands;
    CrossingPullsOnce(es);
    LinuxSends(es);
    assert (es + [Control(signal, push)])[..|es|] == es;
    var s := LinuxRun(es);
    if s.core.offer.Some? {
      StandsIsHeld(s.core, s.core.offer.value);
    }
    forall h ensures Stands(s.core.log, h) ==> s.core.offer == Some(h) {
      StandsIsHeld(s.core, h);
    }
    if s.remote.Some? {
      assert s.remote == Some(Remote(s.remote.value.id, s.remote.value.requested));
      assert Wanted(s.asks, s.remote.value.id, s.remote.value.requested);
    }
    assert s.asks + [] == s.asks;
  }

  /** The command had something to send, and the connection was found lost. */
  ghost predicate AskLost(s: Linux, push: Push) {
    push.Lost? && exists h :: Stands(s.core.log, h)
  }

  // ----- what the other side sends ------------------------------------------------------

  /** An offer that arrives is the newest, with nothing asked for it; when files have
      come, nothing is wanted until the next offer. */
  lemma OffersAreNoted(es: seq<LinuxEvent>, id: u32, hash: Option<Hash>)
    ensures var asks := LinuxRun(es + [OfferFrame(id)]).asks;
      asks == LinuxRun(es).asks + [NewOffer(id)] && Wanted(asks, id, false)
    ensures var asks := LinuxRun(es + [Received(KIND_TAR, hash)]).asks;
      asks == LinuxRun(es).asks + [FilesCame] && forall i: u32, requested :: !Wanted(asks, i, requested)
  {
    hide Wanted, CrossingsAskOnce;
    var offered, received := es + [OfferFrame(id)], es + [Received(KIND_TAR, hash)];
    assert offered[..|es|] == es && received[..|es|] == es;
    CrossingPullsOnce(offered);
    CrossingPullsOnce(received);
    assert LinuxRun(offered).remote == Some(Remote(id, false));
  }

  /** A pull that reaches the helper waits, in the place of any that still did. */
  lemma PullWaits(es: seq<WindowsEvent>, id: u32)
    ensures var log, log' := WindowsRun(es).core.log, WindowsRun(es + [PullArrives(id)]).core.log;
      log' == log + [Arrived(id)] && forall p: nat, i: u32 :: Waiting(log', p, i) <==> p == |log| && i == id
  {
    hide WindowsRun;
    PullArrival(es, id);
    var log := WindowsRun(es).core.log;
    var log' := log + [Arrived(id)];
    assert Waiting(log', |log|, id);
    forall p: nat, i: u32 | Waiting(log', p, i) ensures p == |log| && i == id {
      assert log'[|log|] == Arrived(id);
    }
  }

  lemma PullArrival(es: seq<WindowsEvent>, id: u32)
    ensures WindowsRun(es + [PullArrives(id)]).core.log == WindowsRun(es).core.log + [Arrived(id)]
  {
    assert (es + [PullArrives(id)])[..|es|] == es;
  }

  // ----- copies and their echoes --------------------------------------------------------

  /** h is the last of the marks that were set; with none set it is 0. */
  ghost predicate Marked(marks: seq<Option<Hash>>, h: Hash) {
    || (h == 0 && forall k :: 0 <= k < |marks| ==> marks[k] == None)
    || exists k :: 0 <= k < |marks| && LastMark(marks, k, h)
  }

  ghost predicate LastMark(marks: seq<Option<Hash>>, k: nat, h: Hash)
    requires k < |marks|
  {
    marks[k] == Some(h) && forall i :: k < i < |marks| ==> marks[i] == None
  }

  lemma MarkedAppend(marks: seq<Option<Hash>>, m: Option<Hash>, h: Hash)
    ensures Marked(marks + [m], h) <==> if m == None then Marked(marks, h) else m == Some(h)
  {
    var longer := marks + [m];
    assert longer[|marks|] == m;
    if m == Some(h) {
      assert LastMark(longer, |marks|, h);
    }
    forall k | 0 <= k < |marks| ensures m == None ==> (LastMark(longer, k, h) <==> LastMark(marks, k, h)) {
      if m == None && LastMark(longer, k, h) {
        assert forall i :: k < i < |marks| ==> marks[i] == longer[i];
      }
    }
    if m == None && Marked(longer, h) && h == 0 && forall k :: 0 <= k < |longer| ==> longer[k] == None {
      assert forall k :: 0 <= k < |marks| ==> marks[k] == longer[k];
    }
  }

  /** The hashes of what the Linux agent itself has put on the clipboard. */
  function SetMarks(es: seq<LinuxEvent>): (ms: seq<Option<Hash>>)
    ensures |ms| == |es|
  {
    seq(|es|, i requires 0 <= i < |es| => if es[i].Received? then es[i].hash else None)
  }

  /** Whether the agent has taken the copy of event k for new. */
  predicate Taken(es: seq<LinuxEvent>, k: nat)
    requires k < |es|
  {
    es[k].Local? && |LinuxRun(es[..k + 1]).core.log| > |LinuxRun(es[..k]).core.log|
  }

  /** What the event sent: files are sent when they are offered, anything else unless
      the connection was lost. */
  predicate WentOut(e: LinuxEvent) {
    e.Local? && if e.copy.kind == KIND_TAR then e.readable && e.wrote else !e.push.Lost?
  }

  /** The hashes of the copies that it has sent or offered. */
  function SentMarks(es: seq<LinuxEvent>): (ms: seq<Option<Hash>>)
    ensures |ms| == |es|
  {
    seq(|es|, i requires 0 <= i < |es| => if Taken(es, i) && WentOut(es[i]) then Some(es[i].copy.hash) else None)
  }

  lemma MarksAppend(es: seq<LinuxEvent>, e: LinuxEvent)
    ensures SetMarks(es + [e]) == SetMarks(es) + [if e.Received? then e.hash else None]
    ensures SentMarks(es + [e])
         == SentMarks(es) + [if Taken(es + [e], |es|) && WentOut(e) then Some(e.copy.hash) else None]
  {
    hide LinuxRun, WentOut;
    var longer := es + [e];
    forall i | 0 <= i < |es| ensures Taken(longer, i) == Taken(es, i) {
      assert longer[..i] == es[..i] && longer[..i + 1] == es[..i + 1];
    }
  }

  /** The agent remembers the last of each. */
  lemma {:induction false} MarksAre(es: seq<LinuxEvent>)
    ensures forall h: Hash :: Marked(SetMarks(es), h) <==> h == LinuxRun(es).lastSet
    ensures forall h: Hash :: Marked(SentMarks(es), h) <==> h == LinuxRun(es).lastSent
  {
    hide Marked, TakeCopy, ServePull, Cross, SetMarks, SentMarks;
    if es == [] {
      NoMarks();
    } else {
      var n := |es| - 1;
      MarksAre(es[..n]);
      assert es == es[..n] + [es[n]];
      MarksAppend(es[..n], es[n]);
      LastEvent(es);
      forall h: Hash
        ensures Marked(SetMarks(es), h) <==> h == LinuxRun(es).lastSet
        ensures Marked(SentMarks(es), h) <==> h == LinuxRun(es).lastSent
      {
        MarkedAppend(SetMarks(es[..n]), if es[n].Received? then es[n].hash else None, h);
        MarkedAppend(SentMarks(es[..n]), if Taken(es, n) && WentOut(es[n]) then Some(es[n].copy.hash) else None, h);
      }
    }
  }

  /** What the last event does to the two marks. */
  lemma LastEvent(es: seq<LinuxEvent>)
    requires es != []
    ensures var n, s, s' := |es| - 1, LinuxRun(es[..|es| - 1]), LinuxRun(es);
      && s'.lastSet == (if es[n].Received? && es[n].hash.Some? then es[n].hash.value else s.lastSet)
      && s'.lastSent == (if Taken(es, n) && WentOut(es[n]) then es[n].copy.hash else s.lastSent)
  {
    hide OnLinux, WentOut;
    var n := |es| - 1;
    assert es[..n + 1] == es;
    StepMarks(LinuxRun(es[..n]), es[n]);
  }

  lemma StepMarks(s: Linux, e: LinuxEvent)
    ensures var s' := OnLinux(s, e);
      && s'.lastSet == (if e.Received? && e.hash.Some? then e.hash.value else s.lastSet)
      && s'.lastSent == if e.Local? && |s'.core.log| > |s.core.log| && WentOut(e) then e.copy.hash else s.lastSent
  {
    hide ServePull, Cross;
  }

  lemma NoMarks()
    ensures forall h: Hash :: (Marked(SetMarks([]), h) <==> h == 0) && (Marked(SentMarks([]), h) <==> h == 0)
  {
  }

  /** In every run, a copy is taken if and only if it is neither what the agent put on
      the clipboard last nor what it sent last; a copy taken is offered if and only if
      it is a readable batch of files whose OFFER went out, and that offer then
      stands. */
  lemma CopyTakenIff(es: seq<LinuxEvent>, copy: Copy, readable: bool, wrote: bool, push: Push)
    ensures var c, c' := LinuxRun(es).core, LinuxRun(es + [Local(copy, readable, wrote, push)]).core;
      var offered := copy.kind == KIND_TAR && readable && wrote;
      if Marked(SetMarks(es), copy.hash) || Marked(SentMarks(es), copy.hash) then c' == c
      else c'.log == c.log + [Copied(copy, offered)] && (offered ==> Stands(c'.log, Held(copy.id, copy.paths)))
  {
    hide Marked, SetMarks, SentMarks;
    MarksAre(es);
    var longer := es + [Local(copy, readable, wrote, push)];
    assert longer[..|es|] == es;
    LinuxSends(longer);
    StandsIsHeld(LinuxRun(longer).core, Held(copy.id, copy.paths));
  }

  // ----- the same for Windows -------------------------------------------------------------

  function AppliedMarks(es: seq<WindowsEvent>): (ms: seq<Option<Hash>>)
    ensures |ms| == |es|
  {
    seq(|es|, i requires 0 <= i < |es| => if es[i].Applied? then Some(es[i].hash) else None)
  }

  predicate Noticed(es: seq<WindowsEvent>, k: nat)
    requires k < |es|
  {
    es[k].Poll? && |WindowsRun(es[..k + 1]).core.log| > |WindowsRun(es[..k]).core.log|
  }

  /** Files are remembered when they are offered, anything else when it is noticed. */
  predicate Remembered(e: WindowsEvent) {
    e.Poll? && (e.copy.kind == KIND_TAR ==> e.readable && e.wrote)
  }

  function NoticedMarks(es: seq<WindowsEvent>): (ms: seq<Option<Hash>>)
    ensures |ms| == |es|
  {
    seq(|es|, i requires 0 <= i < |es| => if Noticed(es, i) && Remembered(es[i]) then Some(es[i].copy.hash) else None)
  }

  lemma WindowsMarksAppend(es: seq<WindowsEvent>, e: WindowsEvent)
    ensures AppliedMarks(es + [e]) == AppliedMarks(es) + [if e.Applied? then Some(e.hash) else None]
    ensures NoticedMarks(es + [e])
         == NoticedMarks(es) + [if Noticed(es + [e], |es|) && Remembered(e) then Some(e.copy.hash) else None]
  {
    hide WindowsRun, Remembered;
    var longer := es + [e];
    forall i | 0 <= i < |es| ensures Noticed(longer, i) == Noticed(es, i) {
      assert longer[..i] == es[..i] && longer[..i + 1] == es[..i + 1];
    }
  }

  lemma WindowsStepMarks(s: Windows, e: WindowsEvent)
    ensures var s' := OnWindows(s, e);
      && s'.lastSet == (if e.Applied? then e.hash else s.lastSet)
      && s'.lastSent == if e.Poll? && |s'.core.log| > |s.core.log| && Remembered(e) then e.copy.hash else s.lastSent
  {
    hide ServePull;
  }

  lemma {:induction false} WindowsMarksAre(es: seq<WindowsEvent>)
    ensures forall h: Hash :: Marked(AppliedMarks(es), h) <==> h == WindowsRun(es).lastSet
    ensures forall h: Hash :: Marked(NoticedMarks(es), h) <==> h == WindowsRun(es).lastSent
  {
    hide Marked, OnWindows, AppliedMarks, NoticedMarks, Remembered;
    if es == [] {
      NoWindowsMarks();
    } else {
      var n := |es| - 1;
      WindowsMarksAre(es[..n]);
      assert es == es[..n] + [es[n]] && es[..n + 1] == es;
      WindowsMarksAppend(es[..n], es[n]);
      WindowsStepMarks(WindowsRun(es[..n]), es[n]);
      forall h: Hash
        ensures Marked(AppliedMarks(es), h) <==> h == WindowsRun(es).lastSet
        ensures Marked(NoticedMarks(es), h) <==> h == WindowsRun(es).lastSent
      {
        MarkedAppend(AppliedMarks(es[..n]), if es[n].Applied? then Some(es[n].hash) else None, h);
        MarkedAppend(NoticedMarks(es[..n]),
                     if Noticed(es, n) && Remembered(es[n]) then Some(es[n].copy.hash) else None, h);
      }
    }
  }

  lemma NoWindowsMarks()
    ensures forall h: Hash :: (Marked(AppliedMarks([]), h) <==> h == 0) && (Marked(NoticedMarks([]), h) <==> h == 0)
  {
  }

  /** In every run of the helper, a copy it polls is taken if and only if it is neither
      what it put on the clipboard last nor what it noticed and kept last. */
  lemma PollTakenIff(es: seq<WindowsEvent>, copy: Copy, readable: bool, wrote: bool)
    ensures var c, c' := WindowsRun(es).core, WindowsRun(es + [Poll(copy, readable, wrote)]).core;
      var offered := copy.kind == KIND_TAR && readable && wrote;
      if Marked(AppliedMarks(es), copy.hash) || Marked(NoticedMarks(es), copy.hash) then c' == c
      else c'.log == c.log + [Copied(copy, offered)] && (offered ==> Stands(c'.log, Held(copy.id, copy.paths)))
  {
    hide Marked, AppliedMarks, NoticedMarks;
    WindowsMarksAre(es);
    var longer := es + [Poll(copy, readable, wrote)];
    assert longer[..|es|] == es;
    WindowsSends(longer);
    StandsIsHeld(WindowsRun(longer).core, Held(copy.id, copy.paths));
  }
}
