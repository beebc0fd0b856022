/**
  node.go: the one-slot channel fileOffers. For every accepted offer the event loop drains the
  channel and then sends; the paste handler takes from it at any moment, also in between.
  */
module Mailbox {
  import opened FileSource

  const CAPACITY := 1

  /** Where the event loop is: not accepting, or between the drain and the send of an offer. */
  datatype Phase = Idle | Sending(offer: Received)

  datatype MailboxState = MailboxState(
    phase: Phase,
    slot: seq<Received>,      // the channel
    taken: seq<Received>,     // what the paste handler received
    drained: seq<Received>,   // what the event loop took out again
    accepted: seq<FileOffer>)

  const EMPTY := MailboxState(Idle, [], [], [], [])

  datatype Event = Drain(offer: FileOffer) | Put | Take

  /** Whether the event can happen; a Put that cannot would block the event loop. */
  predicate Enabled(s: MailboxState, e: Event)
  {
    match e
    case Drain(_) => s.phase.Idle?
    case Put => s.phase.Sending? && |s.slot| < CAPACITY
    case Take => s.slot != []
  }

  function Step(s: MailboxState, e: Event): MailboxState
  {
    if !Enabled(s, e) then s
    else
      match e
      case Drain(offer) =>
        var s' := if s.slot == [] then s else s.(slot := s.slot[1..], drained := s.drained + [s.slot[0]]);
        s'.(phase := Sending(Received(|s.accepted|, offer)), accepted := s.accepted + [offer])
      case Put => s.(phase := Idle, slot := s.slot + [s.phase.offer])
      case Take => s.(slot := s.slot[1..], taken := s.taken + [s.slot[0]])
  }

  function Run(events: seq<Event>): MailboxState
  {
    if events == [] then EMPTY else Step(Run(events[..|events| - 1]), events[|events| - 1])
  }

  class Box {
    var phase: Phase
    var slot: seq<Received>
    var accepted: seq<FileOffer>
    ghost var taken: seq<Received>
    ghost var drained: seq<Received>

    ghost function State(): MailboxState
      reads this
    {
      MailboxState(phase, slot, taken, drained, accepted)
    }

    constructor ()
      ensures State() == EMPTY
    {
      phase, slot, accepted, taken, drained := Idle, [], [], [], [];
    }

    /** A receive that does not wait. */
    method Drain(offer: FileOffer)
      requires phase.Idle?
      modifies this
      ensures State() == Step(old(State()), Event.Drain(offer))
    {
      if |slot| > 0 {
        drained := drained + [slot[0]];
        slot := slot[1..];
      }
      phase := Sending(Received(|accepted|, offer));
      accepted := accepted + [offer];
    }

    /** The send, which finds room. */
    method Put()
      requires Enabled(State(), Event.Put)
      modifies this
      ensures State() == Step(old(State()), Event.Put)
    {
      slot := slot + [phase.offer];
      phase := Idle;
    }

    /** The receive of the paste handler. */
    method Take() returns (offer: FileOffer)
      requires slot != []
      modifies this
      ensures State() == Step(old(State()), Event.Take)
      ensures offer == old(slot[0].offer)
    {
      offer := slot[0].offer;
      taken := taken + [slot[0]];
      slot := slot[1..];
    }
  }

  // ----- what every interleaving keeps -----

  /** The accepted offers, numbered. */
  function Numbered(offers: seq<FileOffer>): (r: seq<Received>)
    ensures |r| == |offers|
    ensures forall i :: 0 <= i < |offers| ==> r[i] == Received(i, offers[i])
  {
    seq(|offers|, i requires 0 <= i < |offers| => Received(i, offers[i]))
  }

  function InHand(s: MailboxState): seq<Received>
  {
    if s.phase.Sending? then [s.phase.offer] else []
  }

  /** What is or was on its way to the paste handler. */
  function OnItsWay(s: MailboxState): seq<Received>
  {
    s.taken + s.slot + InHand(s)
  }

  ghost predicate Ordered(offers: seq<Received>, bound: nat)
  {
    && (forall i :: 0 <= i < |offers| ==> offers[i].number < bound)
    && (forall i, j :: 0 <= i < j < |offers| ==> offers[i].number < offers[j].number)
  }

  /** The event loop holds nothing while the slot is full, everything is in order, and the newest is on its way. */
  ghost predicate Sound(s: MailboxState)
  {
    && |s.slot| <= CAPACITY && (s.phase.Sending? ==> s.slot == [])
    && Ordered(OnItsWay(s), |s.accepted|)
    && (s.accepted != [] ==> OnItsWay(s) != [] && Last(OnItsWay(s)) == Last(Numbered(s.accepted)))
    && (forall d :: d in s.drained ==> d.number + 1 < |s.accepted|)
  }

  function Last(offers: seq<Received>): Received
    requires offers != []
  {
    offers[|offers| - 1]
  }

  /** Each accepted offer is in exactly one place. */
  ghost predicate Partitioned(s: MailboxState)
  {
    multiset(OnItsWay(s)) + multiset(s.drained) == multiset(Numbered(s.accepted))
  }

  lemma OrderedNext(taken: seq<Received>, slot: seq<Received>, n: nat, offer: FileOffer)
    requires Ordered(taken + slot, n)
    ensures Ordered(taken + [Received(n, offer)], n + 1)
  {
    var next := taken + [Received(n, offer)];
    forall i | 0 <= i < |next|
      ensures next[i].number < n + 1 && (i < |taken| ==> next[i].number < n)
    {
      assert i < |taken| ==> next[i] == (taken + slot)[i];
    }
    forall i, j | 0 <= i < j < |next|
      ensures next[i].number < next[j].number
    {
      assert next[i] == (taken + slot)[i];
      assert j < |taken| ==> next[j] == (taken + slot)[j];
    }
  }

  lemma DrainStaysSound(s: MailboxState, offer: FileOffer)
    requires Sound(s) && s.phase.Idle?
    ensures Sound(Step(s, Drain(offer)))
  {
    var s', post := Step(s, Drain(offer)), Received(|s.accepted|, offer);
    assert OnItsWay(s') == s.taken + [post] && Last(OnItsWay(s')) == post == Last(Numbered(s'.accepted));
    assert OnItsWay(s) == s.taken + s.slot;
    OrderedNext(s.taken, s.slot, |s.accepted|, offer);
    forall d | d in s'.drained
      ensures d.number + 1 < |s'.accepted|
    {
      if d !in s.drained {
        assert d == s.slot[0] == Last(OnItsWay(s));
      }
    }
  }

  lemma DrainStaysPartitioned(s: MailboxState, offer: FileOffer)
    requires |s.slot| <= CAPACITY && Partitioned(s) && s.phase.Idle?
    ensures Partitioned(Step(s, Drain(offer)))
  {
    var s' := Step(s, Drain(offer));
    var post := Received(|s.accepted|, offer);
    assert Numbered(s'.accepted) == Numbered(s.accepted) + [post];
    assert OnItsWay(s') == s.taken + [post];
    assert OnItsWay(s) == s.taken + s.slot;
    if s.slot != [] {
      assert s.slot == [s.slot[0]];
    }
  }

  lemma StepKeeps(s: MailboxState, e: Event)
    requires Sound(s) && Partitioned(s)
    ensures Sound(Step(s, e)) && Partitioned(Step(s, e))
  {
    if Enabled(s, e) {
      match e
      case Drain(offer) => DrainStaysSound(s, offer); DrainStaysPartitioned(s, offer);
      case Put => assert OnItsWay(Step(s, e)) == OnItsWay(s);
      case Take => assert OnItsWay(Step(s, e)) == OnItsWay(s);
    }
  }

  lemma {:induction false} Invariants(events: seq<Event>)
    ensures Sound(Run(events)) && Partitioned(Run(events))
  {
    if events != [] {
      Invariants(events[..|events| - 1]);
      StepKeeps(Run(events[..|events| - 1]), events[|events| - 1]);
    }
  }

  /** Between the drain and the send the slot stays empty, whatever the paste handler does: the send never blocks. */
  lemma SendNeverBlocks(events: seq<Event>)
    requires Run(events).phase.Sending?
    ensures Enabled(Run(events), Put)
    ensures forall e: Event :: Enabled(Run(events), e) ==> e == Put
  {
    Invariants(events);
  }

  /**
    Every accepted offer was taken, waits, is about to be sent, or was drained for a later one;
    exactly one of these.
    */
  lemma NothingElseGetsLost(events: seq<Event>)
    ensures var s := Run(events);
            && multiset(s.taken) + multiset(s.slot) + multiset(InHand(s)) + multiset(s.drained)
               == multiset(Numbered(s.accepted))
            && (forall d :: d in s.drained ==> d.number + 1 < |s.accepted|)
            && forall i, j :: 0 <= i < j < |s.taken| ==> s.taken[i].number < s.taken[j].number
  {
    Invariants(events);
    var s := Run(events);
    forall i, j | 0 <= i < j < |s.taken|
      ensures s.taken[i].number < s.taken[j].number
    {
      assert s.taken[i] == OnItsWay(s)[i] && s.taken[j] == OnItsWay(s)[j];
    }
  }

  /** The newest accepted offer is not drained: it is about to be sent, or it waits, or it was the last to be taken. */
  predicate NewestKept(s: MailboxState)
  {
    s.accepted != [] ==>
      var newest := Received(|s.accepted| - 1, s.accepted[|s.accepted| - 1]);
      && newest !in s.drained
      && match s.phase
         case Sending(offer) => offer == newest
         case Idle => s.slot == [newest] || (s.slot == [] && s.taken != [] && Last(s.taken) == newest)
  }

  lemma NewestIsKept(events: seq<Event>)
    ensures NewestKept(Run(events))
  {
    Invariants(events);
    var s := Run(events);
    assert OnItsWay(s) == s.taken + s.slot + InHand(s);
  }

  // ----- accepting an offer in one step -----

  /** Accepting, and taking, as whole steps. */
  datatype Whole = Accept(offer: FileOffer) | Collect

  function WholeStep(s: MailboxState, w: Whole): MailboxState
  {
    match w
    case Accept(offer) => Step(Step(s, Drain(offer)), Put)
    case Collect => Step(s, Take)
  }

  function RunWhole(ws: seq<Whole>): MailboxState
  {
    if ws == [] then EMPTY else WholeStep(RunWhole(ws[..|ws| - 1]), ws[|ws| - 1])
  }

  /** The steps of which whole steps consist. */
  function Parts(ws: seq<Whole>): seq<Event>
  {
    if ws == [] then []
    else
      var w := ws[|ws| - 1];
      Parts(ws[..|ws| - 1]) + if w.Accept? then [Drain(w.offer), Put] else [Take]
  }

  lemma {:induction false} WholeRunsAreRuns(ws: seq<Whole>)
    ensures RunWhole(ws) == Run(Parts(ws))
  {
    if ws != [] {
      var before, w := Parts(ws[..|ws| - 1]), ws[|ws| - 1];
      WholeRunsAreRuns(ws[..|ws| - 1]);
      if w.Accept? {
        var drained := before + [Drain(w.offer)];
        assert drained[..|before|] == before;
        assert Parts(ws) == drained + [Put];
        assert Parts(ws)[..|drained|] == drained;
      } else {
        assert Parts(ws)[..|before|] == before;
      }
    }
  }

  lemma WholeStepEndsIdle(s: MailboxState, w: Whole)
    requires s.phase.Idle? && |s.slot| <= CAPACITY
    ensures WholeStep(s, w).phase.Idle? && |WholeStep(s, w).slot| <= CAPACITY
  {
  }

  lemma {:induction false} WholeRunsAreIdle(ws: seq<Whole>)
    ensures RunWhole(ws).phase.Idle? && |RunWhole(ws).slot| <= CAPACITY
  {
    if ws != [] {
      WholeRunsAreIdle(ws[..|ws| - 1]);
      WholeStepEndsIdle(RunWhole(ws[..|ws| - 1]), ws[|ws| - 1]);
    }
  }

  lemma WholeRunKeepsNewest(ws: seq<Whole>)
    ensures RunWhole(ws).phase.Idle? && NewestKept(RunWhole(ws))
  {
    WholeRunsAreIdle(ws);
    WholeRunsAreRuns(ws);
    NewestIsKept(Parts(ws));
  }

  /** The whole steps of an interleaving: an offer counts as sent when the drain is done. */
  function Wholes(events: seq<Event>): seq<Whole>
  {
    if events == [] then []
    else
      var before, e := events[..|events| - 1], events[|events| - 1];
      if !Enabled(Run(before), e) || e.Put? then Wholes(before)
      else Wholes(before) + [WholeOf(e)]
  }

  function WholeOf(e: Event): Whole
  {
    if e.Drain? then Accept(e.offer) else Collect
  }

  /** The send under way is completed. */
  function Settled(s: MailboxState): MailboxState
  {
    Step(s, Put)
  }

  lemma SettledStep(s: MailboxState, e: Event)
    requires Sound(s) && Enabled(s, e)
    ensures Settled(Step(s, e)) == if e.Put? then Settled(s) else WholeStep(Settled(s), WholeOf(e))
  {
  }

  /** Taking cannot come between the drain and the send, so every interleaving amounts to whole steps. */
  lemma {:induction false} AcceptingIsAtomic(events: seq<Event>)
    ensures Settled(Run(events)) == RunWhole(Wholes(events))
  {
    if events != [] {
      var before, e := events[..|events| - 1], events[|events| - 1];
      AcceptingIsAtomic(before);
      Invariants(before);
      if Enabled(Run(before), e) {
        SettledStep(Run(before), e);
        if !e.Put? {
          RunWholeSnoc(Wholes(before), WholeOf(e));
        }
      }
    }
  }

  lemma RunWholeSnoc(ws: seq<Whole>, w: Whole)
    ensures RunWhole(ws + [w]) == WholeStep(RunWhole(ws), w)
  {
    assert (ws + [w])[..|ws|] == ws;
  }
}
