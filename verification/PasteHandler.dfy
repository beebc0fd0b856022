/**
  clipboard_files_windows.go: the select loop that turns a paste of a remote offer into a
  download and the finished download into a second paste. One step per branch, and one for
  the download goroutine's send on the results channel.
  */
module PasteHandler {
  import opened Wrappers
  import opened FileSource

  datatype PasteResult = PasteResult(request: Received, paths: seq<string>, err: Option<string>)

  /** A download put on the clipboard: for which received offer, and which one had been requested. */
  datatype Publication = Publication(current: Received, request: Received, paths: seq<string>)

  datatype PasteState = PasteState(
    current: Option<Received>, wasPasteDown: bool, downloading: bool,
    results: seq<PasteResult>,    // the channel, of capacity 1
    running: seq<Received>,       // download goroutines that have not sent their result
    received: nat,                // how many offers arrived
    published: seq<Publication>,
    pastes: nat)                  // how many pastes were injected

  const INITIAL := PasteState(None, false, false, [], [], 0, [], 0)

  datatype Event =
    | Offer(offer: FileOffer, markerWritten: bool)
    | Result(markerMatches: bool, filesWritten: bool)
    | Tick(pasteDown: bool, markerMatches: bool)
    | Finish(paths: seq<string>, err: Option<string>)

  predicate Enabled(s: PasteState, e: Event)
  {
    match e
    case Offer(_, _) => true
    case Result(_, _) => s.results != []
    case Tick(_, _) => true
    case Finish(_, _) => s.running != []
  }

  predicate StartsDownload(s: PasteState, pasteDown: bool, markerMatches: bool)
  {
    pasteDown && !s.wasPasteDown && !s.downloading && s.current.Some? && markerMatches
  }

  function Step(s: PasteState, e: Event): PasteState
  {
    if !Enabled(s, e) then s
    else
      match e
      case Offer(offer, markerWritten) =>
        s.(received := s.received + 1, current := if markerWritten then Some(Received(s.received, offer)) else None)
      case Result(markerMatches, filesWritten) =>
        var r := s.results[0];
        var s' := s.(results := s.results[1..], downloading := false);
        if r.err.Some? || s.current.None? || s.current.value.offer.id != r.request.offer.id
           || !markerMatches || !filesWritten
        then s'
        else s'.(current := None, published := s.published + [Publication(s.current.value, r.request, r.paths)],
                 pastes := s.pastes + 1)
      case Tick(pasteDown, markerMatches) =>
        var s' := s.(wasPasteDown := pasteDown);
        if StartsDownload(s, pasteDown, markerMatches)
        then s'.(downloading := true, running := s.running + [s.current.value])
        else s'
      case Finish(paths, err) =>
        s.(running := s.running[1..], results := s.results + [PasteResult(s.running[0], paths, err)])
  }

  function Run(events: seq<Event>): PasteState
  {
    if events == [] then INITIAL else Step(Run(events[..|events| - 1]), events[|events| - 1])
  }

  class Handler {
    var current: Option<Received>
    var wasPasteDown: bool
    var downloading: bool
    var results: seq<PasteResult>
    ghost var running: seq<Received>
    var received: nat
    ghost var published: seq<Publication>
    ghost var pastes: nat

    ghost function State(): PasteState
      reads this
    {
      PasteState(current, wasPasteDown, downloading, results, running, received, published, pastes)
    }

    constructor ()
      ensures State() == INITIAL
    {
      current, wasPasteDown, downloading, results, received := None, false, false, [], 0;
      running, published, pastes := [], [], 0;
    }

    method OnOffer(offer: FileOffer, markerWritten: bool)
      modifies this
      ensures State() == Step(old(State()), Event.Offer(offer, markerWritten))
    {
      received := received + 1;
      if !markerWritten {
        current := None;
        return;
      }
      current := Some(Received(received - 1, offer));
    }

    /** A paste is injected when `publish` is true. */
    method OnResult(markerMatches: bool, filesWritten: bool) returns (publish: bool)
      requires results != []
      modifies this
      ensures State() == Step(old(State()), Event.Result(markerMatches, filesWritten))
      ensures pastes == old(pastes) + if publish then 1 else 0
    {
      var result := results[0];
      results := results[1..];
      downloading := false;
      if result.err.Some? {
        return false;
      }
      if current.None? || current.value.offer.id != result.request.offer.id || !markerMatches {
        return false;
      }
      if !filesWritten {
        return false;
      }
      published, pastes := published + [Publication(current.value, result.request, result.paths)], pastes + 1;
      current := None;
      return true;
    }

    /** A download of the current offer is started when `start` is true. */
    method OnTick(pasteDown: bool, markerMatches: bool) returns (start: bool)
      modifies this
      ensures State() == Step(old(State()), Event.Tick(pasteDown, markerMatches))
      ensures start <==> StartsDownload(old(State()), pasteDown, markerMatches)
    {
      start := pasteDown && !wasPasteDown && !downloading && current.Some? && markerMatches;
      if start {
        downloading := true;
        running := running + [current.value];
      }
      wasPasteDown := pasteDown;
    }
  }

  // ----- what every interleaving keeps -----

  ghost predicate OneAtATime(s: PasteState)
  {
    |s.running| + |s.results| == if s.downloading then 1 else 0
  }

  ghost predicate PublishedInOrder(s: PasteState)
  {
    && s.pastes == |s.published|
    && (s.current.Some? ==> s.current.value.number < s.received)
    && (forall i :: 0 <= i < |s.published| ==>
          && s.published[i].current.number < s.received
          && (s.current.Some? ==> s.published[i].current.number < s.current.value.number))
    && (forall i, j :: 0 <= i < j < |s.published| ==>
          s.published[i].current.number < s.published[j].current.number)
  }

  lemma StepKeeps(s: PasteState, e: Event)
    requires OneAtATime(s) && PublishedInOrder(s)
    ensures OneAtATime(Step(s, e)) && PublishedInOrder(Step(s, e))
  {
  }

  lemma {:induction false} Invariants(events: seq<Event>)
    ensures OneAtATime(Run(events)) && PublishedInOrder(Run(events))
  {
    if events != [] {
      Invariants(events[..|events| - 1]);
      StepKeeps(Run(events[..|events| - 1]), events[|events| - 1]);
    }
  }

  /** A download goroutine that is ready to send finds the channel empty, so it never blocks. */
  lemma ResultSendNeverBlocks(events: seq<Event>)
    ensures var s := Run(events);
            && |s.running| + |s.results| == (if s.downloading then 1 else 0)
            && (s.running != [] ==> s.results == [])
  {
    Invariants(events);
  }

  /** Each received offer is published at most once, with one paste. */
  lemma PublishedAtMostOnce(events: seq<Event>, i: nat, j: nat)
    requires i < |Run(events).published| && j < |Run(events).published|
    ensures Run(events).published[i].current.number == Run(events).published[j].current.number ==> i == j
    ensures Run(events).pastes == |Run(events).published|
  {
    Invariants(events);
  }

  // ----- superseded offers -----

  /** The offers received, in order. */
  function Offers(events: seq<Event>): seq<FileOffer>
  {
    if events == [] then []
    else Offers(events[..|events| - 1]) + if Last(events).Offer? then [Last(events).offer] else []
  }

  function Last(events: seq<Event>): Event
    requires events != []
  {
    events[|events| - 1]
  }

  ghost predicate Among(r: Received, offers: seq<FileOffer>)
  {
    r.number < |offers| && offers[r.number] == r.offer
  }

  /** What the handler works on are received offers under their numbers; what it publishes has the requested ID. */
  ghost predicate Traced(s: PasteState, offers: seq<FileOffer>)
  {
    && s.received == |offers|
    && (s.current.Some? ==> Among(s.current.value, offers))
    && (forall r :: r in s.running ==> Among(r, offers) && Before(r, s.current))
    && (forall r :: r in s.results ==> Among(r.request, offers) && Before(r.request, s.current))
    && (forall p :: p in s.published ==>
          && Among(p.current, offers) && Among(p.request, offers)
          && p.request.number <= p.current.number && p.request.offer.id == p.current.offer.id)
  }

  ghost predicate Before(r: Received, current: Option<Received>)
  {
    current.Some? ==> r.number <= current.value.number
  }

  lemma OfferTraced(s: PasteState, offer: FileOffer, markerWritten: bool, offers: seq<FileOffer>)
    requires Traced(s, offers)
    ensures Traced(Step(s, Offer(offer, markerWritten)), offers + [offer])
  {
    assert forall r :: Among(r, offers) ==> Among(r, offers + [offer]);
  }

  lemma OtherTraced(s: PasteState, e: Event, offers: seq<FileOffer>)
    requires Traced(s, offers) && !e.Offer?
    ensures Traced(Step(s, e), offers)
  {
  }

  lemma StepTraced(s: PasteState, e: Event, offers: seq<FileOffer>)
    requires Traced(s, offers)
    ensures Traced(Step(s, e), offers + if e.Offer? then [e.offer] else [])
  {
    if e.Offer? {
      OfferTraced(s, e.offer, e.markerWritten, offers);
    } else {
      OtherTraced(s, e, offers);
      assert offers + [] == offers;
    }
  }

  lemma {:induction false} AlwaysTraced(events: seq<Event>)
    ensures Traced(Run(events), Offers(events))
  {
    if events != [] {
      AlwaysTraced(events[..|events| - 1]);
      StepTraced(Run(events[..|events| - 1]), Last(events), Offers(events[..|events| - 1]));
    }
  }

  ghost predicate DistinctIDs(offers: seq<FileOffer>)
  {
    forall a, b :: 0 <= a < b < |offers| ==> offers[a].id != offers[b].id
  }

  /** Every result was published for the very offer that had been requested. */
  ghost predicate OwnResultsOnly(s: PasteState)
  {
    forall p :: p in s.published ==> p.request == p.current
  }

  lemma DistinctIDsSuffice(events: seq<Event>)
    requires DistinctIDs(Offers(events))
    ensures OwnResultsOnly(Run(events))
  {
    AlwaysTraced(events);
  }

  lemma OneMore(events: seq<Event>, e: Event)
    ensures Run(events + [e]) == Step(Run(events), e)
    ensures Offers(events + [e]) == Offers(events) + if e.Offer? then [e.offer] else []
  {
    assert (events + [e])[..|events|] == events;
  }

  /** Offers arrive, and each is put on the clipboard. */
  function Arriving(events: seq<Event>, offers: seq<FileOffer>): seq<Event>
  {
    if offers == [] then events
    else Arriving(events, offers[..|offers| - 1]) + [Offer(offers[|offers| - 1], true)]
  }

  lemma {:induction false} OffersArrive(events: seq<Event>, offers: seq<FileOffer>)
    ensures Offers(Arriving(events, offers)) == Offers(events) + offers
  {
    if offers != [] {
      var before, offer := offers[..|offers| - 1], offers[|offers| - 1];
      OffersArrive(events, before);
      OneMore(Arriving(events, before), Offer(offer, true));
      Associate(Offers(events), before, [offer]);
      assert before + [offer] == offers;
    }
  }

  lemma {:induction false} NewestIsCurrent(events: seq<Event>, offers: seq<FileOffer>)
    ensures var s := Run(events);
            Run(Arriving(events, offers)) ==
            if offers == [] then s
            else s.(received := s.received + |offers|,
                    current := Some(Received(s.received + |offers| - 1, offers[|offers| - 1])))
  {
    if offers != [] {
      var before := offers[..|offers| - 1];
      NewestIsCurrent(events, before);
      OneMore(Arriving(events, before), Offer(offers[|offers| - 1], true));
    }
  }

  /** The offers up to number a arrive, and the last one is pasted. */
  function Pasted(offers: seq<FileOffer>, a: nat): seq<Event>
    requires a < |offers|
  {
    Arriving([], offers[..a + 1]) + [Tick(true, true)]
  }

  lemma PastedIs(offers: seq<FileOffer>, a: nat)
    requires a < |offers|
    ensures Offers(Pasted(offers, a)) == offers[..a + 1]
    ensures var r := Received(a, offers[a]);
            Run(Pasted(offers, a)) == PasteState(Some(r), true, true, [], [r], a + 1, [], 0)
  {
    OffersArrive([], offers[..a + 1]);
    NewestIsCurrent([], offers[..a + 1]);
    OneMore(Arriving([], offers[..a + 1]), Tick(true, true));
  }

  /** Then the offers up to number b arrive, while number a is downloaded. */
  function Overtaken(offers: seq<FileOffer>, a: nat, b: nat): seq<Event>
    requires a < b < |offers|
  {
    Arriving(Pasted(offers, a), offers[a + 1..b + 1])
  }

  lemma OvertakenIs(offers: seq<FileOffer>, a: nat, b: nat)
    requires a < b < |offers|
    ensures Offers(Overtaken(offers, a, b)) == offers[..b + 1]
    ensures var r, r' := Received(a, offers[a]), Received(b, offers[b]);
            Run(Overtaken(offers, a, b)) == PasteState(Some(r'), true, true, [], [r], b + 1, [], 0)
  {
    PastedIs(offers, a);
    OffersArrive(Pasted(offers, a), offers[a + 1..b + 1]);
    NewestIsCurrent(Pasted(offers, a), offers[a + 1..b + 1]);
    assert offers[..a + 1] + offers[a + 1..b + 1] == offers[..b + 1];
  }

  function Completed(events: seq<Event>): seq<Event>
  {
    events + [Finish([], None)] + [Result(true, true)]
  }

  /** The download ends, and its result is taken for the current offer. */
  lemma ResultTaken(events: seq<Event>, r: Received, r': Received, n: nat)
    requires Run(events) == PasteState(Some(r'), true, true, [], [r], n, [], 0) && r.offer.id == r'.offer.id
    ensures Offers(Completed(events)) == Offers(events)
    ensures Run(Completed(events)) == PasteState(None, true, false, [], [], n, [Publication(r', r, [])], 1)
  {
    OneMore(events, Finish([], None));
    OneMore(events + [Finish([], None)], Result(true, true));
  }

  /** A superseded result is published: offer b has the ID of offer a, whose download it overtakes. */
  lemma SupersededPublished(offers: seq<FileOffer>, a: nat, b: nat) returns (events: seq<Event>)
    requires a < b < |offers| && offers[a].id == offers[b].id
    ensures Offers(events) == offers
    ensures Run(events).published == [Publication(Received(b, offers[b]), Received(a, offers[a]), [])]
  {
    var overtaken := Overtaken(offers, a, b);
    var taken := Completed(overtaken);
    OvertakenIs(offers, a, b);
    ResultTaken(overtaken, Received(a, offers[a]), Received(b, offers[b]), b + 1);
    OffersArrive(taken, offers[b + 1..]);
    NewestIsCurrent(taken, offers[b + 1..]);
    events := Arriving(taken, offers[b + 1..]);
    assert offers[..b + 1] + offers[b + 1..] == offers;
  }

  /**
    Whatever is received, pasted and downloaded, no result of a superseded offer is published: this
    holds of a list of offers if and only if their IDs are pairwise distinct. An offer that arrives
    again under its ID is taken for the one being downloaded.
    */
  lemma SupersededNeverPublished(offers: seq<FileOffer>)
    ensures DistinctIDs(offers) <==> forall events :: Offers(events) == offers ==> OwnResultsOnly(Run(events))
  {
    if DistinctIDs(offers) {
      forall events | Offers(events) == offers
        ensures OwnResultsOnly(Run(events))
      {
        DistinctIDsSuffice(events);
      }
    } else {
      var a, b :| 0 <= a < b < |offers| && offers[a].id == offers[b].id;
      var events := SupersededPublished(offers, a, b);
      var p := Publication(Received(b, offers[b]), Received(a, offers[a]), []);
      assert p in Run(events).published && p.request != p.current;
    }
  }

  /** And when a result is published for another offer than the requested one, that came later under the same ID. */
  lemma PublishedForItsID(events: seq<Event>, p: Publication)
    requires p in Run(events).published
    ensures var offers := Offers(events);
            && p.request.number < |offers| && offers[p.request.number] == p.request.offer
            && p.current.number < |offers| && offers[p.current.number] == p.current.offer
            && p.request.number <= p.current.number && p.request.offer.id == p.current.offer.id
  {
    AlwaysTraced(events);
  }

  // ----- where downloads and publications come from -----

  /** Whether the paste keys were down at the last tick. */
  function WasDown(events: seq<Event>): bool
  {
    if events == [] then false
    else if Last(events).Tick? then Last(events).pasteDown
    else WasDown(events[..|events| - 1])
  }

  /** Event t starts the download of r: a fresh paste, with the marker on the clipboard, and no download under way. */
  ghost predicate StartsAt(events: seq<Event>, t: nat, r: Received)
  {
    && t < |events| && events[t] == Tick(true, true) && !WasDown(events[..t])
    && Run(events[..t]).current == Some(r) && !Run(events[..t]).downloading
  }

  /** Event i ends the download of r, with the given result. */
  ghost predicate EndsAt(events: seq<Event>, i: nat, r: Received, paths: seq<string>, err: Option<string>)
  {
    && i < |events| && events[i] == Finish(paths, err) && Run(events[..i]).running == [r]
    && exists t: nat :: t < i && StartsAt(events, t, r)
  }

  /** Event j publishes p: its download ended without an error, the marker matched and the clipboard took the files. */
  ghost predicate PublishesAt(events: seq<Event>, j: nat, p: Publication)
  {
    && j < |events| && events[j] == Result(true, true) && Run(events[..j]).current == Some(p.current)
    && p.current.offer.id == p.request.offer.id
    && exists i: nat :: i < j && EndsAt(events, i, p.request, p.paths, None)
  }

  ghost predicate Started(events: seq<Event>, r: Received)
  {
    exists t: nat :: StartsAt(events, t, r)
  }

  ghost predicate Ended(events: seq<Event>, r: PasteResult)
  {
    exists i: nat :: EndsAt(events, i, r.request, r.paths, r.err)
  }

  ghost predicate Published(events: seq<Event>, p: Publication)
  {
    exists j: nat :: PublishesAt(events, j, p)
  }

  lemma StartsLater(events: seq<Event>, more: seq<Event>, t: nat, r: Received)
    requires StartsAt(events, t, r) && events <= more
    ensures StartsAt(more, t, r)
  {
    assert more[..t] == events[..t];
  }

  lemma EndsLater(events: seq<Event>, more: seq<Event>, i: nat, r: Received, paths: seq<string>, err: Option<string>)
    requires EndsAt(events, i, r, paths, err) && events <= more
    ensures EndsAt(more, i, r, paths, err)
  {
    assert more[..i] == events[..i];
    var t: nat :| t < i && StartsAt(events, t, r);
    StartsLater(events, more, t, r);
  }

  lemma PublishesLater(events: seq<Event>, more: seq<Event>, j: nat, p: Publication)
    requires PublishesAt(events, j, p) && events <= more
    ensures PublishesAt(more, j, p)
  {
    assert more[..j] == events[..j];
    var i: nat :| i < j && EndsAt(events, i, p.request, p.paths, None);
    EndsLater(events, more, i, p.request, p.paths, None);
  }

  /** Everything under way, queued and published has an event it comes from. */
  ghost predicate Stems(events: seq<Event>, s: PasteState)
  {
    && s.wasPasteDown == WasDown(events)
    && (forall r :: r in s.running ==> Started(events, r))
    && (forall r :: r in s.results ==> Ended(events, r))
    && (forall p :: p in s.published ==> Published(events, p))
  }

  /** What stems from the events before stems from them and one more. */
  lemma StemsLater(events: seq<Event>, e: Event, s: PasteState)
    requires Stems(events, s)
    ensures forall r :: r in s.running ==> Started(events + [e], r)
    ensures forall r :: r in s.results ==> Ended(events + [e], r)
    ensures forall p :: p in s.published ==> Published(events + [e], p)
  {
    forall r | r in s.running
      ensures Started(events + [e], r)
    {
      var t: nat :| StartsAt(events, t, r);
      StartsLater(events, events + [e], t, r);
    }
    forall r | r in s.results
      ensures Ended(events + [e], r)
    {
      var i: nat :| EndsAt(events, i, r.request, r.paths, r.err);
      EndsLater(events, events + [e], i, r.request, r.paths, r.err);
    }
    forall p | p in s.published
      ensures Published(events + [e], p)
    {
      var j: nat :| PublishesAt(events, j, p);
      PublishesLater(events, events + [e], j, p);
    }
  }

  lemma TickStarts(events: seq<Event>, r: Received)
    requires !WasDown(events) && Run(events).current == Some(r) && !Run(events).downloading
    ensures Started(events + [Tick(true, true)], r)
  {
    var more := events + [Tick(true, true)];
    assert more[..|events|] == events;
    assert StartsAt(more, |events|, r);
  }

  lemma FinishEnds(events: seq<Event>, r: Received, paths: seq<string>, err: Option<string>)
    requires Started(events, r) && Run(events).running == [r]
    ensures Ended(events + [Finish(paths, err)], PasteResult(r, paths, err))
  {
    var more := events + [Finish(paths, err)];
    var t: nat :| StartsAt(events, t, r);
    StartsLater(events, more, t, r);
    assert more[..|events|] == events;
    assert EndsAt(more, |events|, r, paths, err);
  }

  lemma ResultPublishes(events: seq<Event>, r: PasteResult, current: Received)
    requires Ended(events, r) && r.err.None? && Run(events).current == Some(current)
    requires current.offer.id == r.request.offer.id
    ensures Published(events + [Result(true, true)], Publication(current, r.request, r.paths))
  {
    var more := events + [Result(true, true)];
    var i: nat :| EndsAt(events, i, r.request, r.paths, None);
    EndsLater(events, more, i, r.request, r.paths, None);
    assert more[..|events|] == events;
    assert PublishesAt(more, |events|, Publication(current, r.request, r.paths));
  }

  lemma StepStems(events: seq<Event>, e: Event)
    requires Stems(events, Run(events)) && OneAtATime(Run(events))
    ensures Stems(events + [e], Run(events + [e]))
  {
    var s := Run(events);
    OneMore(events, e);
    StemsLater(events, e, s);
    WasDownLater(events, e);
    match e
    case Offer(_, _) =>
    case Tick(pasteDown, markerMatches) =>
      if StartsDownload(s, pasteDown, markerMatches) {
        TickStarts(events, s.current.value);
      }
    case Finish(paths, err) =>
      if s.running != [] {
        assert s.running == [s.running[0]];
        FinishEnds(events, s.running[0], paths, err);
      }
    case Result(_, _) =>
      if |Step(s, e).published| > |s.published| {
        ResultPublishes(events, s.results[0], s.current.value);
      }
  }

  lemma WasDownLater(events: seq<Event>, e: Event)
    ensures WasDown(events + [e]) == if e.Tick? then e.pasteDown else WasDown(events)
  {
    assert (events + [e])[..|events|] == events;
  }

  lemma {:induction false} AlwaysStems(events: seq<Event>)
    ensures Stems(events, Run(events))
  {
    if events != [] {
      var before := events[..|events| - 1];
      AlwaysStems(before);
      Invariants(before);
      StepStems(before, Last(events));
      assert events == before + [Last(events)];
    }
  }

  /**
    Every publication has its history: a fresh paste started the download, the download ended without
    an error with the paths published, and then the marker matched and the clipboard took the files.
    */
  lemma PublicationsStem(events: seq<Event>, p: Publication) returns (t: nat, i: nat, j: nat)
    requires p in Run(events).published
    ensures t < i < j < |events|
    ensures events[t] == Tick(true, true) && events[i] == Finish(p.paths, None) && events[j] == Result(true, true)
    ensures StartsAt(events, t, p.request) && Run(events[..i]).running == [p.request]
    ensures Run(events[..j]).current == Some(p.current) && p.current.offer.id == p.request.offer.id
  {
    AlwaysStems(events);
    assert Published(events, p);
    j :| PublishesAt(events, j, p);
    i :| i < j && EndsAt(events, i, p.request, p.paths, None);
    t :| t < i && StartsAt(events, t, p.request);
  }

  /** A result is taken once a download ended and none was taken since; then the next paste can start another. */
  lemma ResultsWait(events: seq<Event>, paths: seq<string>, err: Option<string>)
    requires Run(events).running != []
    ensures var s, s' := Run(events), Run(events + [Finish(paths, err)]);
            s' == s.(running := [], results := [PasteResult(s.running[0], paths, err)])
  {
    OneMore(events, Finish(paths, err));
    Invariants(events);
  }

  /**
    What becomes of a waiting result: it is published, with one paste, exactly when the download did
    not fail, an offer with its ID is current, the marker matches and the clipboard takes the files.
    */
  lemma ResultsPublish(events: seq<Event>, r: PasteResult, markerMatches: bool, filesWritten: bool)
    requires Run(events).results == [r]
    ensures var s, s' := Run(events), Run(events + [Result(markerMatches, filesWritten)]);
            if r.err == None && s.current.Some? && s.current.value.offer.id == r.request.offer.id
               && markerMatches && filesWritten
            then s' == s.(results := [], downloading := false, current := None, pastes := s.pastes + 1,
                          published := s.published + [Publication(s.current.value, r.request, r.paths)])
            else s' == s.(results := [], downloading := false)
  {
    OneMore(events, Result(markerMatches, filesWritten));
  }

  /** Nothing but a result publishes or pastes, and nothing but a fresh paste of the current offer starts a download. */
  lemma OthersDoNot(events: seq<Event>, e: Event)
    ensures var s, s' := Run(events), Run(events + [e]);
            && (!e.Result? ==> s'.published == s.published && s'.pastes == s.pastes)
            && (s'.running != s.running && !e.Finish? <==>
                  e == Tick(true, true) && !WasDown(events) && s.current.Some? && !s.downloading)
            && (e == Tick(true, true) && !WasDown(events) && s.current.Some? && !s.downloading ==>
                  s'.running == [s.current.value] && s'.downloading)
            && (e.Offer? ==> s'.current == if e.markerWritten then Some(Received(s.received, e.offer)) else None)
            && (!e.Offer? && !e.Result? ==> s'.current == s.current)
  {
    OneMore(events, e);
    AlwaysStems(events);
    Invariants(events);
  }
}
