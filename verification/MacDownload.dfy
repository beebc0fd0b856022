/**
  clipboard_files_darwin.go: the mutex-protected state behind the lazy pasteboard. The
  clipboard watcher sets and clears offers, Finder requests them, and downloads complete on
  their own goroutines, in any order. Every mutex section is one step.
  */
module MacDownload {
  import opened Wrappers
  import opened FileSource

  const NO_OFFER := FileOffer(0, "", "", 0, [], [])

  /** A download goroutine; `epoch` is the number of set and clear calls before it was started. */
  datatype Download = Download(epoch: nat, ctx: nat, offer: FileOffer, done: nat)

  /** What happened so far, beside the fields of the state. */
  datatype Log = Log(
    epoch: nat,               // how many set and clear calls there were
    cancelled: set<nat>,      // the contexts that were cancelled
    closes: multiset<nat>,    // the channels closed, once for every close
    started: seq<Download>,
    running: set<nat>,        // the downloads, as indices into `started`, that have not completed
    recorded: seq<(nat, nat)>)  // every recorded result: the download and the epoch at that moment

  /** Contexts and channels are known by the order of their creation. */
  datatype MacState = MacState(
    ctx: Option<nat>, offer: FileOffer, paths: seq<string>, resultErr: Option<string>, resultReady: bool,
    inFlightID: string, done: Option<nat>, cancel: Option<nat>,
    contexts: nat, channels: nat, log: Log)

  const INITIAL := MacState(None, NO_OFFER, [], None, false, "", None, None, 0, 0, Log(0, {}, multiset{}, [], {}, []))

  datatype Event =
    | Set(offer: FileOffer)
    | Clear
    | Request(offerID: string)
    | Complete(download: nat, paths: seq<string>, err: Option<string>)

  /** What requestDownload answers. */
  datatype Answer = NotCurrent | Finished(err: Option<string>) | Pending(start: bool)

  function CancelInFlight(s: MacState): MacState
  {
    var cancelled := s.log.cancelled + (if s.cancel.Some? then {s.cancel.value} else {});
    var closes := s.log.closes + (if s.done.Some? then multiset{s.done.value} else multiset{});
    s.(cancel := None, done := None, inFlightID := "", log := s.log.(cancelled := cancelled, closes := closes))
  }

  /** set and clear forget the result and begin a new epoch. */
  function Fresh(s: MacState, ctx: Option<nat>, offer: FileOffer): MacState
  {
    s.(ctx := ctx, cancel := ctx, offer := offer, paths := [], resultErr := None, resultReady := false,
       log := s.log.(epoch := s.log.epoch + 1))
  }

  function AnswerOf(s: MacState, offerID: string): Answer
  {
    if s.ctx.None? || s.offer.id != offerID then NotCurrent
    else if s.resultReady then Finished(s.resultErr)
    else Pending(s.inFlightID != offerID)
  }

  /** The download that a request starts now. */
  function NewDownload(s: MacState): Download
    requires s.ctx.Some?
  {
    Download(s.log.epoch, s.ctx.value, s.offer, s.channels)
  }

  /** Whether download k still owns the state when it completes. */
  predicate Owns(s: MacState, d: Download)
  {
    s.inFlightID == d.offer.id && s.done == Some(d.done)
  }

  function Step(s: MacState, e: Event): MacState
  {
    match e
    case Set(offer) => Fresh(CancelInFlight(s).(contexts := s.contexts + 1), Some(s.contexts), offer)
    case Clear => Fresh(CancelInFlight(s), None, NO_OFFER)
    case Request(id) =>
      if AnswerOf(s, id) != Pending(true) then s
      else
        s.(inFlightID := id, done := Some(s.channels), channels := s.channels + 1,
           log := s.log.(started := s.log.started + [NewDownload(s)], running := s.log.running + {|s.log.started|}))
    case Complete(k, paths, err) =>
      if k !in s.log.running || k >= |s.log.started| then s
      else
        var d := s.log.started[k];
        var running := s.log.running - {k};
        var closes := s.log.closes + multiset{d.done};
        if !Owns(s, d) then s.(log := s.log.(running := running))
        else if s.offer.id != d.offer.id then
          s.(inFlightID := "", done := None, log := s.log.(running := running, closes := closes))
        else
          s.(inFlightID := "", done := None, paths := paths, resultErr := err, resultReady := true,
             log := s.log.(running := running, closes := closes, recorded := s.log.recorded + [(k, s.log.epoch)]))
  }

  function Run(events: seq<Event>): MacState
  {
    if events == [] then INITIAL else Step(Run(events[..|events| - 1]), events[|events| - 1])
  }

  class MacRemoteFileState {
    var ctx: Option<nat>
    var offer: FileOffer
    var paths: seq<string>
    var resultErr: Option<string>
    var resultReady: bool
    var inFlightID: string
    var done: Option<nat>
    var cancel: Option<nat>
    var contexts: nat
    var channels: nat
    ghost var log: Log

    ghost function State(): MacState
      reads this
    {
      MacState(ctx, offer, paths, resultErr, resultReady, inFlightID, done, cancel, contexts, channels, log)
    }

    constructor ()
      ensures State() == INITIAL
    {
      ctx, offer, paths, resultErr, resultReady := None, NO_OFFER, [], None, false;
      inFlightID, done, cancel := "", None, None;
      contexts, channels := 0, 0;
      log := INITIAL.log;
    }

    method CancelInFlightLocked()
      modifies this
      ensures State() == CancelInFlight(old(State()))
    {
      log := CancelInFlight(State()).log;
      if cancel.Some? {
        cancel := None;
      }
      inFlightID := "";
      done := None;
    }

    method Set(newOffer: FileOffer)
      modifies this
      ensures State() == Step(old(State()), Event.Set(newOffer))
    {
      CancelInFlightLocked();
      ctx, cancel, contexts := Some(contexts), Some(contexts), contexts + 1;
      offer := newOffer;
      paths, resultErr, resultReady := [], None, false;
      log := log.(epoch := log.epoch + 1);
    }

    method Clear()
      modifies this
      ensures State() == Step(old(State()), Event.Clear)
    {
      CancelInFlightLocked();
      ctx := None;
      offer := NO_OFFER;
      paths, resultErr, resultReady := [], None, false;
      log := log.(epoch := log.epoch + 1);
    }

    /** The caller starts a download on a new goroutine when the answer is Pending(true). */
    method RequestDownload(offerID: string) returns (answer: Answer)
      modifies this
      ensures answer == AnswerOf(old(State()), offerID)
      ensures State() == Step(old(State()), Request(offerID))
    {
      if ctx.None? || offer.id != offerID {
        return NotCurrent;
      }
      if resultReady {
        return Finished(resultErr);
      }
      if inFlightID == offerID {
        return Pending(false);
      }
      log := log.(started := log.started + [NewDownload(State())], running := log.running + {|log.started|});
      inFlightID := offerID;
      done, channels := Some(channels), channels + 1;
      return Pending(true);
    }

    /** The mutex section at the end of the goroutine that downloads `theirs` and owns `channel`. */
    method FinishDownload(ghost k: nat, theirs: FileOffer, channel: nat, found: seq<string>, err: Option<string>)
      returns (ready: bool)
      requires k in log.running && k < |log.started| && log.started[k].offer == theirs && log.started[k].done == channel
      modifies this
      ensures State() == Step(old(State()), Complete(k, found, err))
      ensures ready <==> |log.recorded| > |old(log.recorded)| && err.None?
    {
      ready := false;
      log := Step(State(), Complete(k, found, err)).log;
      if inFlightID == theirs.id && done == Some(channel) {
        inFlightID := "";
        done := None;
        if offer.id == theirs.id {
          paths := found;
          resultErr := err;
          resultReady := true;
          ready := err.None?;
        }
      }
    }
  }

  // ----- what every interleaving keeps -----

  /** The current epoch has started a download. */
  ghost predicate StartedNow(s: MacState)
  {
    s.log.started != [] && s.log.started[|s.log.started| - 1].epoch == s.log.epoch
  }

  ghost predicate Channels(s: MacState)
  {
    && (forall c :: s.log.closes[c] <= 1)
    && (forall c: nat :: c >= s.channels ==> s.log.closes[c] == 0)
    && (s.done.Some? ==> s.done.value < s.channels && s.log.closes[s.done.value] == 0)
  }

  ghost predicate Contexts(s: MacState)
  {
    && (forall g: nat :: g in s.log.cancelled <==> g < s.contexts && s.ctx != Some(g))
    && s.cancel == s.ctx && (s.ctx.Some? ==> s.ctx.value < s.contexts)
  }

  ghost predicate Downloads(s: MacState)
  {
    && (s.done.Some? <==> s.inFlightID != "")
    && (s.done.Some? ==> StartedNow(s) && s.log.started[|s.log.started| - 1].done == s.done.value
                         && s.inFlightID == s.offer.id)
    && (StartedNow(s) ==> s.done.Some? || s.resultReady)
    && (StartedNow(s) && |s.log.started| - 1 in s.log.running ==> s.done.Some?)
    && (forall k :: k in s.log.running ==> k < |s.log.started|)
    && (StartedNow(s) ==>
          && s.log.started[|s.log.started| - 1].offer == s.offer
          && s.ctx == Some(s.log.started[|s.log.started| - 1].ctx))
    && (forall k :: 0 <= k < |s.log.started| ==>
          s.log.started[k].epoch <= s.log.epoch && s.log.started[k].done < s.channels)
    && (forall j, k :: 0 <= j < k < |s.log.started| ==>
          s.log.started[j].epoch < s.log.started[k].epoch && s.log.started[j].done != s.log.started[k].done)
  }

  ghost predicate Records(s: MacState)
  {
    && (forall i :: 0 <= i < |s.log.recorded| ==>
          s.log.recorded[i].0 < |s.log.started| && s.log.recorded[i].1 == s.log.started[s.log.recorded[i].0].epoch)
    && (s.resultReady ==> s.log.recorded != [] && s.log.recorded[|s.log.recorded| - 1].1 == s.log.epoch)
    && (forall i :: 0 <= i < |s.log.recorded| ==> s.log.recorded[i].0 !in s.log.running)
    && (forall i, j :: 0 <= i < j < |s.log.recorded| ==> s.log.recorded[i].0 != s.log.recorded[j].0)
  }

  lemma StepChannels(s: MacState, e: Event)
    requires Channels(s) && Downloads(s)
    ensures Channels(Step(s, e))
  {
  }

  lemma StepContexts(s: MacState, e: Event)
    requires Contexts(s)
    ensures Contexts(Step(s, e))
  {
  }

  lemma StepDownloads(s: MacState, e: Event)
    requires Downloads(s) && Channels(s)
    ensures Downloads(Step(s, e))
  {
  }

  /** A completion that owns the state is the only step that records anything. */
  lemma StepRecords(s: MacState, e: Event)
    requires Records(s) && Downloads(s)
    ensures Records(Step(s, e))
  {
    if e.Complete? && e.download in s.log.running && Owns(s, s.log.started[e.download]) {
      RecordOne(s, e.download, e.paths, e.err);
    }
  }

  lemma RecordOne(s: MacState, k: nat, paths: seq<string>, err: Option<string>)
    requires Records(s) && Downloads(s)
    requires k in s.log.running && Owns(s, s.log.started[k])
    ensures Records(Step(s, Complete(k, paths, err)))
  {
    var last := |s.log.started| - 1;
    assert k == last by {
      assert forall j :: 0 <= j < last ==> s.log.started[j].done != s.log.started[last].done;
    }
  }

  lemma {:induction false} Invariants(events: seq<Event>)
    ensures Channels(Run(events)) && Contexts(Run(events)) && Downloads(Run(events)) && Records(Run(events))
  {
    if events != [] {
      var s, e := Run(events[..|events| - 1]), events[|events| - 1];
      Invariants(events[..|events| - 1]);
      StepChannels(s, e);
      StepContexts(s, e);
      StepDownloads(s, e);
      StepRecords(s, e);
    }
  }

  /**
    In every interleaving a channel is pending exactly while a download is in flight, and no
    channel is closed twice.
    */
  lemma ChannelsCloseOnce(events: seq<Event>)
    ensures var s := Run(events);
            && (s.done.Some? <==> s.inFlightID != "")
            && (forall c :: s.log.closes[c] <= 1)
            && (s.done.Some? ==> s.log.closes[s.done.value] == 0)
  {
    Invariants(events);
  }

  /** Each offer that is set starts at most one download, however often Finder asks for it. */
  lemma OneDownloadPerOffer(events: seq<Event>, j: nat, k: nat)
    requires j < k < |Run(events).log.started|
    ensures Run(events).log.started[j].epoch < Run(events).log.started[k].epoch
  {
    Invariants(events);
  }

  /**
    A result is recorded only while the generation that started the download is current, even
    when a later generation offers the same ID again, and at most once per download.
    */
  lemma NoStaleResult(events: seq<Event>, i: nat)
    requires i < |Run(events).log.recorded|
    ensures var s := Run(events);
            && s.log.recorded[i].0 < |s.log.started|
            && s.log.recorded[i].1 == s.log.started[s.log.recorded[i].0].epoch
            && forall j :: 0 <= j < |s.log.recorded| && j != i ==> s.log.recorded[j].0 != s.log.recorded[i].0
  {
    Invariants(events);
  }

  /** Exactly the context of the current offer is alive: superseding an offer cancels its download. */
  lemma OnlyCurrentContextLives(events: seq<Event>, k: nat)
    requires k < |Run(events).log.started|
    ensures var s := Run(events);
            s.log.started[k].ctx in s.log.cancelled <==> s.ctx != Some(s.log.started[k].ctx)
    ensures Run(events).log.started[k].epoch == Run(events).log.epoch ==>
            Run(events).log.started[k].ctx !in Run(events).log.cancelled
  {
    Invariants(events);
    StartedContexts(events);
  }

  lemma {:induction false} StartedContexts(events: seq<Event>)
    ensures forall k :: 0 <= k < |Run(events).log.started| ==> Run(events).log.started[k].ctx < Run(events).contexts
  {
    if events != [] {
      StartedContexts(events[..|events| - 1]);
      Invariants(events[..|events| - 1]);
    }
  }

  lemma CurrentOwns(s: MacState, k: nat)
    requires Downloads(s) && k in s.log.running && k < |s.log.started| && s.log.started[k].epoch == s.log.epoch
    ensures Owns(s, s.log.started[k]) && s.offer == s.log.started[k].offer && s.ctx.Some?
  {
    var last := |s.log.started| - 1;
    assert k == last by {
      assert s.log.started[last].epoch <= s.log.epoch;
      assert forall j :: 0 <= j < last ==> s.log.started[j].epoch < s.log.started[last].epoch;
    }
  }

  /** A download that completes in its own generation is always recorded, and later requests get its result. */
  lemma ResultIsServed(events: seq<Event>, k: nat, paths: seq<string>, err: Option<string>)
    requires var s := Run(events);
             k in s.log.running && k < |s.log.started| && s.log.started[k].epoch == s.log.epoch
    ensures var s' := Step(Run(events), Complete(k, paths, err));
            AnswerOf(s', s'.offer.id) == Finished(err) && s'.paths == paths && s'.done == None
  {
    Invariants(events);
    CurrentOwns(Run(events), k);
  }

  // ----- what the events alone decide -----

  function Last(events: seq<Event>): Event
    requires events != []
  {
    events[|events| - 1]
  }

  /** The offer set last, unless it was cleared. */
  function Current(events: seq<Event>): Option<FileOffer>
  {
    if events == [] then None
    else
      match Last(events)
      case Set(offer) => Some(offer)
      case Clear => None
      case _ => Current(events[..|events| - 1])
  }

  /** Whether it was asked for since; an empty ID cannot be asked for. */
  predicate Asked(events: seq<Event>)
  {
    if events == [] then false
    else
      var before := events[..|events| - 1];
      match Last(events)
      case Set(_) => false
      case Clear => false
      case Request(id) => Asked(before) || Asks(before, id)
      case Complete(_, _, _) => Asked(before)
  }

  /** A request for the current offer. */
  predicate Asks(events: seq<Event>, id: string)
  {
    id != "" && Current(events).Some? && Current(events).value.id == id
  }

  /** How many downloads were started: one for each offer that was asked for. */
  function Downloaded(events: seq<Event>): nat
  {
    if events == [] then 0
    else
      var before, e := events[..|events| - 1], Last(events);
      Downloaded(before) + if e.Request? && Asks(before, e.offerID) && !Asked(before) then 1 else 0
  }

  /** How the download of the current offer ended, if it did. */
  function Outcome(events: seq<Event>): Option<(seq<string>, Option<string>)>
  {
    if events == [] then None
    else
      var before := events[..|events| - 1];
      match Last(events)
      case Set(_) => None
      case Clear => None
      case Request(_) => Outcome(before)
      case Complete(k, paths, err) =>
        if Asked(before) && Outcome(before).None? && k == Downloaded(before) - 1 then Some((paths, err))
        else Outcome(before)
  }

  /** The state is the one that the events decide. */
  ghost predicate Agrees(s: MacState, current: Option<FileOffer>, asked: bool, n: nat,
                         outcome: Option<(seq<string>, Option<string>)>)
  {
    && |s.log.started| == n
    && (s.ctx.Some? <==> current.Some?) && (current.Some? ==> s.offer == current.value)
    && (current.None? ==> !asked && outcome.None?) && (outcome.Some? ==> asked)
    && (asked <==> StartedNow(s))
    && (s.resultReady <==> outcome.Some?) && (outcome.Some? ==> outcome == Some((s.paths, s.resultErr)))
    && (s.inFlightID != "" <==> asked && outcome.None?)
    && (asked && outcome.None? ==> n - 1 in s.log.running && Owns(s, s.log.started[n - 1]))
  }

  lemma RequestAgrees(s: MacState, id: string, current: Option<FileOffer>, asked: bool, n: nat,
                      outcome: Option<(seq<string>, Option<string>)>)
    requires Agrees(s, current, asked, n, outcome) && Downloads(s)
    ensures var asks := id != "" && current.Some? && current.value.id == id;
            Agrees(Step(s, Request(id)), current, asked || asks, n + (if asks && !asked then 1 else 0), outcome)
  {
  }

  lemma CompleteAgrees(s: MacState, k: nat, paths: seq<string>, err: Option<string>, current: Option<FileOffer>,
                       asked: bool, n: nat, outcome: Option<(seq<string>, Option<string>)>)
    requires Agrees(s, current, asked, n, outcome) && Downloads(s)
    ensures Agrees(Step(s, Complete(k, paths, err)), current, asked, n,
                   if asked && outcome.None? && k == n - 1 then Some((paths, err)) else outcome)
  {
    if k in s.log.running && k < n - 1 {
      assert s.log.started[k].done != s.log.started[n - 1].done;
    }
  }

  lemma {:induction false} HistoryDecides(events: seq<Event>)
    ensures Agrees(Run(events), Current(events), Asked(events), Downloaded(events), Outcome(events))
  {
    if events != [] {
      var before := events[..|events| - 1];
      HistoryDecides(before);
      Invariants(before);
      match Last(events)
      case Request(id) =>
        RequestAgrees(Run(before), id, Current(before), Asked(before), Downloaded(before), Outcome(before));
      case Complete(k, paths, err) =>
        CompleteAgrees(Run(before), k, paths, err, Current(before), Asked(before), Downloaded(before), Outcome(before));
      case _ =>
    }
  }

  /**
    What a request is answered: that its offer is not current, how the download ended, or that it
    is pending. Exactly the first request for an offer with an ID starts a download.
    */
  lemma RequestsAnswered(events: seq<Event>, id: string)
    ensures var answer := AnswerOf(Run(events), id);
            if Current(events).None? || Current(events).value.id != id then answer == NotCurrent
            else if Outcome(events).Some? then answer == Finished(Outcome(events).value.1)
            else answer == Pending(id != "" && !Asked(events))
  {
    HistoryDecides(events);
    Invariants(events);
  }

  /** What it does: it starts one download of the current offer, with a context that is alive, or nothing. */
  lemma RequestsDownload(events: seq<Event>, id: string)
    ensures var s, s' := Run(events), Step(Run(events), Request(id));
            if Asks(events, id) && !Asked(events) then
              && |s'.log.started| == |s.log.started| + 1 && s'.log.started[..|s.log.started|] == s.log.started
              && var d := s'.log.started[|s.log.started|];
                 d.offer == Current(events).value && d.ctx !in s'.log.cancelled && |s.log.started| in s'.log.running
            else s' == s
  {
    HistoryDecides(events);
    Invariants(events);
  }

  /** After an offer was set, and neither another one nor a clear came since. */
  lemma {:induction false} AfterSet(before: seq<Event>, offer: FileOffer, since: seq<Event>)
    requires forall e :: e in since ==> !e.Set? && !e.Clear?
    ensures var events := before + [Event.Set(offer)] + since;
            && Current(events) == Some(offer)
            && (Asked(events) <==> offer.id != "" && Request(offer.id) in since)
  {
    var events := before + [Event.Set(offer)] + since;
    if since != [] {
      AfterSet(before, offer, since[..|since| - 1]);
      assert events[..|events| - 1] == before + [Event.Set(offer)] + since[..|since| - 1];
      assert Last(events) == since[|since| - 1] && since[|since| - 1] in since;
      assert since == since[..|since| - 1] + [since[|since| - 1]];
    }
  }

  /** The first request for an offer that was set starts its download, and no later one starts another. */
  lemma FirstRequestStarts(before: seq<Event>, offer: FileOffer, since: seq<Event>)
    requires (forall e :: e in since ==> !e.Set? && !e.Clear?) && offer.id != ""
    ensures var s := Run(before + [Event.Set(offer)] + since);
            var s' := Step(s, Request(offer.id));
            if Request(offer.id) !in since then
              && AnswerOf(s, offer.id) == Pending(true) && |s'.log.started| == |s.log.started| + 1
              && s'.log.started[|s.log.started|].offer == offer
              && s'.log.started[|s.log.started|].ctx !in s'.log.cancelled
            else AnswerOf(s, offer.id) != Pending(true) && s' == s
    ensures forall id :: id != offer.id ==> AnswerOf(Run(before + [Event.Set(offer)] + since), id) == NotCurrent
  {
    var events := before + [Event.Set(offer)] + since;
    AfterSet(before, offer, since);
    RequestsAnswered(events, offer.id);
    RequestsDownload(events, offer.id);
    HistoryDecides(events);
    forall id | id != offer.id
      ensures AnswerOf(Run(events), id) == NotCurrent
    {
      RequestsAnswered(events, id);
    }
  }
}
