/** Which files an agent may send, told from its history alone, for every run of
    either agent. */
module OfferHistory {
  import opened Bytes
  import opened ClipFrame
  import opened LazyOffers

  // ----- offers standing in a history ---------------------------------------------

  /** An entry after which no earlier offer stands: a newer offer, a copy of
      something else, a send that succeeded, or one that a crossing lost. */
  predicate EndsOffer(log: seq<Act>, a: Act) {
    match a
    case Copied(copy, offered) => offered || copy.kind != KIND_TAR
    case SentFiles(_, result) => result.Delivered? || (result.Lost? && log != [] && log[|log| - 1].Crossed?)
    case _ => false
  }

  predicate Offers(a: Act, h: Held) {
    a.Copied? && a.offered && Held(a.copy.id, a.copy.paths) == h
  }

  /** Copy j offered h, and that offer still stands. */
  ghost predicate StandsFrom(log: seq<Act>, j: nat, h: Held) {
    && j < |log| && Offers(log[j], h)
    && forall k :: j < k < |log| ==> !EndsOffer(log[..k], log[k])
  }

  /** The agent holds exactly the offer that stands. */
  ghost predicate HoldsStanding(c: Core) {
    forall h :: c.offer == Some(h) <==> exists j: nat :: StandsFrom(c.log, j, h)
  }

  /** Entry i sends the files of the offer that copy j made, which still stands,
      directly after a crossing or a pull of that offer's id. */
  ghost predicate SendJustified(log: seq<Act>, i: nat, j: nat, h: Held) {
    && 0 < i < |log| && log[i].SentFiles? && log[i].paths == h.paths
    && (log[i - 1].Crossed? || log[i - 1] == Pulled(h.id))
    && StandsFrom(log[..i - 1], j, h)
  }

  ghost predicate AllSendsJustified(log: seq<Act>) {
    forall i: nat :: i < |log| && log[i].SentFiles? ==> exists j: nat, h :: SendJustified(log, i, j, h)
  }

  ghost predicate OnlyFilesOffered(log: seq<Act>) {
    forall i :: 0 <= i < |log| && log[i].Copied? && log[i].offered ==> log[i].copy.kind == KIND_TAR
  }

  ghost predicate CoreInv(c: Core) {
    HoldsStanding(c) && AllSendsJustified(c.log) && OnlyFilesOffered(c.log)
  }

  lemma StandsAppend(log: seq<Act>, a: Act, j: nat, h: Held)
    ensures StandsFrom(log + [a], j, h) <==>
              if j < |log| then StandsFrom(log, j, h) && !EndsOffer(log, a) else j == |log| && Offers(a, h)
  {
    hide EndsOffer, Offers;
    var longer := log + [a];
    assert longer[..|log|] == log;
    forall k | 0 <= k < |log| ensures longer[..k] == log[..k] {
    }
    if StandsFrom(longer, j, h) && j < |log| {
      assert !EndsOffer(longer[..|log|], longer[|log|]);
      forall k | j < k < |log| ensures !EndsOffer(log[..k], log[k]) {
        assert !EndsOffer(longer[..k], longer[k]);
      }
    }
  }

  function OfferAfter(c: Core, a: Act): Option<Held> {
    if a.Copied? && a.offered then Some(Held(a.copy.id, a.copy.paths))
    else if EndsOffer(c.log, a) then None
    else c.offer
  }

  lemma HoldsStandingStep(c: Core, a: Act)
    requires HoldsStanding(c)
    ensures HoldsStanding(Core(OfferAfter(c, a), c.log + [a]))
  {
    hide StandsFrom, EndsOffer;
    var log, offer := c.log + [a], OfferAfter(c, a);
    forall h ensures offer == Some(h) <==> exists j: nat :: StandsFrom(log, j, h) {
      StandsAppend(c.log, a, |c.log|, h);
      if j: nat :| StandsFrom(log, j, h) {
        StandsAppend(c.log, a, j, h);
        CopyEnds(c.log, a);
      }
      if offer == Some(h) && !(a.Copied? && a.offered) {
        var j: nat :| StandsFrom(c.log, j, h);
        StandsAppend(c.log, a, j, h);
        InRange(c.log, j, h);
      }
    }
  }

  lemma InRange(log: seq<Act>, j: nat, h: Held)
    requires StandsFrom(log, j, h)
    ensures j < |log|
  {
  }

  lemma CopyEnds(log: seq<Act>, a: Act)
    ensures a.Copied? && a.offered ==> EndsOffer(log, a)
  {
  }

  lemma JustifiedStep(log: seq<Act>, a: Act)
    requires AllSendsJustified(log)
    requires a.SentFiles? ==> exists j: nat, h :: SendJustified(log + [a], |log|, j, h)
    ensures AllSendsJustified(log + [a])
  {
    hide StandsFrom;
    var longer := log + [a];
    forall i: nat | i < |longer| && longer[i].SentFiles?
      ensures exists j: nat, h :: SendJustified(longer, i, j, h)
    {
      if i < |log| {
        var j: nat, h :| SendJustified(log, i, j, h);
        assert longer[..i - 1] == log[..i - 1];
        assert SendJustified(longer, i, j, h);
      }
    }
  }

  /** One entry that sends nothing. */
  lemma QuietStep(c: Core, a: Act)
    requires CoreInv(c) && !a.SentFiles? && (a.Copied? && a.offered ==> a.copy.kind == KIND_TAR)
    ensures CoreInv(Core(OfferAfter(c, a), c.log + [a]))
  {
    hide HoldsStanding, AllSendsJustified;
    HoldsStandingStep(c, a);
    JustifiedStep(c.log, a);
  }

  /** A send of the held offer, right after the entry that caused it. */
  lemma SendStep(c: Core, cause: Act, push: Push)
    requires CoreInv(c) && c.offer.Some? && !push.NotPacked?
    requires cause.Crossed? || cause == Pulled(c.offer.value.id)
    ensures var c1, a := Core(c.offer, c.log + [cause]), SentFiles(c.offer.value.paths, push);
      CoreInv(Core(OfferAfter(c1, a), c1.log + [a]))
  {
    hide HoldsStanding, AllSendsJustified, StandsFrom;
    QuietStep(c, cause);
    var c1, a := Core(c.offer, c.log + [cause]), SentFiles(c.offer.value.paths, push);
    HoldsStandingStep(c1, a);
    var h := c.offer.value;
    var j := StandingCopy(c, h);
    var log := c1.log + [a];
    assert log[..|c1.log| - 1] == c.log;
    assert SendJustified(log, |c1.log|, j, h);
    JustifiedStep(c1.log, a);
  }

  lemma StandingCopy(c: Core, h: Held) returns (j: nat)
    requires HoldsStanding(c) && c.offer == Some(h)
    ensures StandsFrom(c.log, j, h)
  {
    j :| StandsFrom(c.log, j, h);
  }

  lemma TakeCopyKeeps(c: Core, copy: Copy, readable: bool, wrote: bool)
    requires CoreInv(c)
    ensures CoreInv(TakeCopy(c, copy, readable, wrote))
  {
    hide CoreInv;
    QuietStep(c, Copied(copy, copy.kind == KIND_TAR && readable && wrote));
  }

  lemma ServePullKeeps(c: Core, id: u32, push: Push)
    requires CoreInv(c)
    ensures CoreInv(ServePull(c, id, push))
  {
    hide CoreInv;
    QuietStep(c, Pulled(id));
    if c.offer.Some? && c.offer.value.id == id && !push.NotPacked? {
      SendStep(c, Pulled(id), push);
    }
  }

  lemma CrossKeeps(c: Core, push: Push)
    requires CoreInv(c)
    ensures CoreInv(Cross(c, push))
  {
    hide CoreInv;
    QuietStep(c, Crossed);
    if c.offer.Some? && !push.NotPacked? {
      SendStep(c, Crossed, push);
    }
  }

  lemma StartInv()
    ensures CoreInv(Core(None, []))
  {
  }

  // ----- every run ------------------------------------------------------------------

  /** In every run of the Linux agent, the offer it holds is exactly the one that
      stands in its history, and it sends files only of a standing offer, right
      after a crossing or a pull of that offer. */
  lemma {:induction false} LinuxSends(es: seq<LinuxEvent>)
    ensures CoreInv(LinuxRun(es).core)
  {
    hide CoreInv, TakeCopy, ServePull, Cross;
    StartInv();
    if es != [] {
      var n := |es| - 1;
      LinuxSends(es[..n]);
      var c := LinuxRun(es[..n]).core;
      match es[n]
      case Local(copy, readable, wrote, _) => TakeCopyKeeps(c, copy, readable, wrote);
      case PullFrame(id, push) => ServePullKeeps(c, id, push);
      case Control(_, push) => CrossKeeps(c, push);
      case _ =>
    }
  }

  /** The same for every run of the Windows helper, which sends only on pulls. */
  lemma {:induction false} WindowsSends(es: seq<WindowsEvent>)
    ensures CoreInv(WindowsRun(es).core)
    ensures forall i :: 0 <= i < |WindowsRun(es).core.log| ==> !WindowsRun(es).core.log[i].Crossed?
  {
    hide CoreInv;
    StartInv();
    if es != [] {
      var n := |es| - 1;
      WindowsSends(es[..n]);
      var s := WindowsRun(es[..n]);
      match es[n]
      case PullArrives(id) => QuietStep(s.core, Arrived(id));
      case Serve(push) => if s.slot.Some? { ServePullKeeps(s.core, s.slot.value, push); }
      case Poll(copy, readable, wrote) => TakeCopyKeeps(s.core, copy, readable, wrote);
      case Applied(_) =>
    }
  }

  // ----- consequences -----------------------------------------------------------------

  /** The history of some run of the Linux agent or of the Windows helper. */
  ghost predicate IsHistory(log: seq<Act>) {
    || (exists es :: log == LinuxRun(es).core.log)
    || (exists es :: log == WindowsRun(es).core.log)
  }

  lemma HistoryInv(log: seq<Act>)
    requires IsHistory(log)
    ensures AllSendsJustified(log) && OnlyFilesOffered(log)
  {
    hide LinuxRun, WindowsRun, AllSendsJustified, OnlyFilesOffered;
    if es :| log == LinuxRun(es).core.log {
      LinuxSends(es);
    } else {
      var es :| log == WindowsRun(es).core.log;
      WindowsSends(es);
    }
  }

  /** No offer is successfully sent twice: between a successful send and any
      later one there is another offer, of the files sent later. */
  lemma NeverSentTwice(log: seq<Act>, i: nat, k: nat)
    requires IsHistory(log) && i < k < |log|
    requires log[i].SentFiles? && log[i].result.Delivered?
    requires log[k].SentFiles?
    ensures exists j :: i < j < k && log[j].Copied? && log[j].offered && log[j].copy.paths == log[k].paths
  {
    HistoryInv(log);
    hide IsHistory;
    var j: nat, h :| SendJustified(log, k, j, h);
    var before := log[..k - 1];
    assert i < k - 1;
    assert before[i] == log[i] && EndsOffer(before[..i], before[i]);
    assert log[j] == before[j];
  }

  /** Copy m is the last one before entry i. */
  ghost predicate LastCopy(log: seq<Act>, i: nat, m: nat) {
    && m < i <= |log| && log[m].Copied?
    && forall k :: m < k < i ==> !log[k].Copied?
  }

  /** In every run, a send follows a copy of files, and it carries the offer of
      that most recent copy if and only if that copy was offered: its batch could
      be read and its OFFER was written. If not, it carries an older copy's. */
  lemma SendsMostRecentIff(log: seq<Act>, i: nat, m: nat)
    requires IsHistory(log) && i < |log| && log[i].SentFiles? && LastCopy(log, i, m)
    ensures log[m].copy.kind == KIND_TAR
    ensures (exists h :: SendJustified(log, i, m, h)) <==> log[m].offered
    ensures exists j: nat, h :: j <= m && SendJustified(log, i, j, h) && (j == m <==> log[m].offered)
  {
    HistoryInv(log);
    hide IsHistory;
    var j: nat, h :| SendJustified(log, i, j, h);
    var before := log[..i - 1];
    assert log[j] == before[j];
    assert j <= m;
    if j < m {
      assert before[m] == log[m];
      assert !EndsOffer(before[..m], before[m]);
    }
    forall h' | SendJustified(log, i, m, h') ensures log[m].offered {
      assert before[m] == log[m];
    }
  }

  /** A run in which the older files go out: the second copy's OFFER could not be
      written, so the crossing sends the first. */
  lemma OlderFilesSent(former: Copy, newer: Copy)
    requires former.kind == newer.kind == KIND_TAR
    requires former.hash != 0 && newer.hash != 0 && former.hash != newer.hash
    ensures var es := [Local(former, true, true, NotPacked), Local(newer, true, false, NotPacked),
                       Control(ToRemote, Delivered)];
      LinuxRun(es).core.log
      == [Copied(former, true), Copied(newer, false), Crossed, SentFiles(former.paths, Delivered)]
  {
    var a, b := Local(former, true, true, NotPacked), Local(newer, true, false, NotPacked);
    var c := Control(ToRemote, Delivered);
    assert [a, b, c][..2] == [a, b] && [a, b][..1] == [a];
    var none: seq<LinuxEvent> := [];
    assert [a][..0] == none;
    assert LinuxRun([a]) == OnLinux(LINUX_START, a);
    assert LinuxRun([a, b]) == OnLinux(LinuxRun([a]), b);
  }

  // ----- pulls on Windows -----------------------------------------------------------------

  /** The pull of entry p is waiting: neither replaced nor served. */
  ghost predicate Waiting(log: seq<Act>, p: nat, id: u32) {
    && p < |log| && log[p] == Arrived(id)
    && forall k :: p < k < |log| ==> !log[k].Arrived? && !log[k].Pulled?
  }

  /** The helper's slot is exactly the pull that is waiting, and every pull it
      serves was waiting just before. */
  ghost predicate SlotIs(log: seq<Act>, slot: Option<u32>) {
    && (forall id: u32 :: slot == Some(id) <==> exists p: nat :: Waiting(log, p, id))
    && (forall i: nat :: i < |log| && log[i].Pulled? ==> exists p: nat :: Waiting(log[..i], p, log[i].id))
  }

  lemma WaitingAppend(log: seq<Act>, a: Act, p: nat, id: u32)
    ensures Waiting(log + [a], p, id) <==>
              if p < |log| then Waiting(log, p, id) && !a.Arrived? && !a.Pulled? else p == |log| && a == Arrived(id)
  {
    var longer := log + [a];
    if p < |log| && Waiting(longer, p, id) {
      assert longer[|log|] == a;
      forall k | p < k < |log| ensures !log[k].Arrived? && !log[k].Pulled? {
        assert longer[k] == log[k];
      }
    }
  }

  lemma SlotStep(log: seq<Act>, slot: Option<u32>, a: Act)
    requires SlotIs(log, slot) && (a.Pulled? ==> slot == Some(a.id))
    ensures SlotIs(log + [a], if a.Arrived? then Some(a.pull) else if a.Pulled? then None else slot)
  {
    hide Waiting;
    var longer := log + [a];
    var slot' := if a.Arrived? then Some(a.pull) else if a.Pulled? then None else slot;
    forall id: u32 ensures slot' == Some(id) <==> exists p: nat :: Waiting(longer, p, id) {
      WaitingAppend(log, a, |log|, id);
      if p: nat :| Waiting(longer, p, id) {
        WaitingAppend(log, a, p, id);
      }
      if slot' == Some(id) && !a.Arrived? {
        var p: nat :| Waiting(log, p, id);
        WaitingAppend(log, a, p, id);
        WaitingInRange(log, p, id);
      }
    }
    forall i: nat | i < |longer| && longer[i].Pulled?
      ensures exists p: nat :: Waiting(longer[..i], p, longer[i].id)
    {
      assert longer[..i] == log[..i];
      assert i == |log| ==> log[..i] == log;
    }
  }

  lemma WaitingInRange(log: seq<Act>, p: nat, id: u32)
    requires Waiting(log, p, id)
    ensures p < |log|
  {
  }

  lemma {:induction false} WindowsPulls(es: seq<WindowsEvent>)
    ensures SlotIs(WindowsRun(es).core.log, WindowsRun(es).slot)
  {
    hide SlotIs;
    if es == [] {
      NothingWaits();
    } else {
      var n := |es| - 1;
      WindowsPulls(es[..n]);
      var s, s' := WindowsRun(es[..n]), WindowsRun(es);
      match es[n]
      case PullArrives(id) => SlotStep(s.core.log, s.slot, Arrived(id));
      case Serve(push) =>
        if s.slot.Some? {
          var a := Pulled(s.slot.value);
          SlotStep(s.core.log, s.slot, a);
          if |s'.core.log| > |s.core.log| + 1 {
            SlotStep(s.core.log + [a], None, s'.core.log[|s'.core.log| - 1]);
          }
        }
      case Poll(copy, readable, wrote) =>
        SlotStep(s.core.log, s.slot, Copied(copy, copy.kind == KIND_TAR && readable && wrote));
      case Applied(_) =>
    }
  }

  lemma NothingWaits()
    ensures SlotIs([], None)
  {
  }

  /** Entry i sends the offer of copy j in answer to the pull of entry p. */
  ghost predicate AnswersPull(log: seq<Act>, i: nat, j: nat, h: Held, p: nat) {
    && SendJustified(log, i, j, h) && Waiting(log[..i - 1], p, h.id)
    && (p > j || Waiting(log[..j], p, h.id))
  }

  /** Every transfer of files by the Windows helper answers a pull of the offer's
      id that arrived and was not answered before. The pull arrived after the
      offer was made, unless it was already waiting, for a former offer of the
      same id, when the offer was made. */
  lemma WindowsAnswersPulls(es: seq<WindowsEvent>, i: nat)
    requires var log := WindowsRun(es).core.log; i < |log| && log[i].SentFiles?
    ensures exists j: nat, h, p: nat :: AnswersPull(WindowsRun(es).core.log, i, j, h, p)
  {
    hide StandsFrom, WindowsRun;
    var log := WindowsRun(es).core.log;
    WindowsSends(es);
    WindowsPulls(es);
    var j: nat, h :| SendJustified(log, i, j, h);
    assert log[i - 1] == Pulled(h.id);
    var p: nat :| Waiting(log[..i - 1], p, h.id);
    var before := log[..i - 1];
    InRange(before, j, h);
    if p <= j {
      EarlierWaits(before, p, h, j);
      assert before[..j] == log[..j];
    }
    assert AnswersPull(log, i, j, h, p);
  }

  lemma EarlierWaits(log: seq<Act>, p: nat, h: Held, j: nat)
    requires Waiting(log, p, h.id) && StandsFrom(log, j, h) && p <= j
    ensures Waiting(log[..j], p, h.id)
  {
    assert log[..j][p..] == log[p..j];
  }

  // ----- pulls asked for by Linux -----------------------------------------------------

  /** Offer n is the newest and its files have not come; asked says whether a
      pull for it has been written. */
  ghost predicate Newest(asks: seq<Ask>, n: nat, id: u32) {
    && n < |asks| && asks[n] == NewOffer(id)
    && forall k :: n < k < |asks| ==> asks[k].AskedFor? && asks[k].id == id
  }

  /** The newest offer has this id and its files have not come; requested says
      whether something has asked for it. */
  ghost predicate Wanted(asks: seq<Ask>, id: u32, requested: bool) {
    exists n: nat :: Newest(asks, n, id) && (requested <==> n < |asks| - 1)
  }

  ghost predicate AskInv(s: Linux) {
    && (forall id: u32, requested :: s.remote == Some(Remote(id, requested)) <==> Wanted(s.asks, id, requested))
    && CrossingsAskOnce(s.asks)
  }

  /** A crossing asks only for the newest offer, when nothing has asked for it yet. */
  ghost predicate CrossingsAskOnce(asks: seq<Ask>) {
    forall k :: 0 <= k < |asks| && asks[k].AskedFor? && !asks[k].explicit ==>
      k > 0 && asks[k - 1] == NewOffer(asks[k].id)
  }

  lemma AskKeeps(s: Linux, explicit: bool)
    requires AskInv(s)
    ensures AskInv(AskRemote(s, explicit))
  {
    var s' := AskRemote(s, explicit);
    if s' != s {
      var id := s.remote.value.id;
      assert Wanted(s.asks, id, s.remote.value.requested);
      var n: nat :| Newest(s.asks, n, id) && (s.remote.value.requested <==> n < |s.asks| - 1);
      assert s'.asks[..|s.asks|] == s.asks;
      assert Newest(s'.asks, n, id);
      OneNewest(s'.asks, n, id);
    }
  }

  /** No other offer is the newest. */
  lemma OneNewest(asks: seq<Ask>, n: nat, id: u32)
    requires Newest(asks, n, id)
    ensures forall m: nat, other: u32 :: Newest(asks, m, other) ==> m == n && other == id
  {
    forall m: nat, other: u32 | Newest(asks, m, other) ensures m == n && other == id {
      assert asks[m] == NewOffer(other) && asks[n] == NewOffer(id);
    }
  }

  /** In every run, a crossing pulls each offer of the other side at most once,
      and only while it is the newest and nothing has pulled it yet; only the
      explicit command pulls again. */
  lemma {:induction false} CrossingPullsOnce(es: seq<LinuxEvent>)
    ensures AskInv(LinuxRun(es))
  {
    hide CrossingsAskOnce, TakeCopy, Cross, ServePull, AskRemote;
    if es == [] {
      NothingAsked();
    } else {
      var n := |es| - 1;
      CrossingPullsOnce(es[..n]);
      var s := LinuxRun(es[..n]);
      match es[n]
      case OfferFrame(id) => NewAsk(s, NewOffer(id), Some(Remote(id, false)));
      case Received(kind, _) => NewAsk(s, FilesCame, None);
      case Control(signal, push) =>
        AskKeeps(s, false);
        AskKeeps(s.(core := Cross(s.core, push)), true);
        AskIgnoresCore(s, Cross(s.core, push));
      case _ =>
    }
  }

  lemma NothingAsked()
    ensures AskInv(LINUX_START)
  {
  }

  lemma AskIgnoresCore(s: Linux, c: Core)
    requires AskInv(s)
    ensures AskInv(s.(core := c))
  {
  }

  lemma NewAsk(s: Linux, a: Ask, remote: Option<Remote>)
    requires AskInv(s) && !a.AskedFor?
    requires remote == if a.NewOffer? then Some(Remote(a.id, false)) else None
    ensures AskInv(s.(asks := s.asks + [a], remote := remote))
  {
    var asks := s.asks + [a];
    if a.NewOffer? {
      assert Newest(asks, |s.asks|, a.id);
      OneNewest(asks, |s.asks|, a.id);
    } else {
      forall m: nat, id: u32 ensures !Newest(asks, m, id) {
        assert asks[|s.asks|] == a;
      }
    }
  }
}
