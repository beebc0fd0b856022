/**
  peer.go: the retrying sender. Send and Close run on other goroutines than Run and
  writeLoop, so the sender is a step system: one step per channel operation, mutex
  section or write, in any interleaving.
  */
module Peer {
  import opened Wrappers
  import opened Bytes
  import opened Protocol

  const SEND_CAPACITY := 16

  /** Where the goroutine of Run is. */
  datatype Phase =
    | Dialing(pending: Option<Message>)    // in connect
    | Ready(pending: Option<Message>)      // at the head of writeLoop's loop
    | InHand(msg: Message)                 // msg chosen, not encoded yet
    | Writing(msg: Message, conn: nat)     // msg encoded, p.conn read
    | Returned(pending: Option<Message>)   // writeLoop returned to Run
    | Stopped(abandoned: Option<Message>)  // cancelled
  {
    /** The message the goroutine holds, as a sequence of at most one. */
    function Held(): seq<Message>
    {
      match this
      case Dialing(p) => if p.Some? then [p.value] else []
      case Ready(p) => if p.Some? then [p.value] else []
      case InHand(m) => [m]
      case Writing(m, _) => [m]
      case Returned(p) => if p.Some? then [p.value] else []
      case Stopped(p) => if p.Some? then [p.value] else []
    }
  }

  /** What was put on one connection: complete frames, then part of one more. */
  datatype Stream = Stream(frames: seq<Message>, tail: seq<byte>)
  {
    function Bytes(): seq<byte>
    {
      Frames(frames) + tail
    }
  }

  datatype PeerState = PeerState(
    conn: Option<nat>, queue: seq<Message>, phase: Phase,
    accepted: seq<Message>,  // every message Send enqueued
    written: seq<Message>,   // every message whose Write returned no error
    streams: seq<Stream>)    // one per connection ever dialed

  const INITIAL := PeerState(None, [], Dialing(None), [], [], [])

  datatype Event =
    | Send(msg: Message)
    | Close
    | Connect
    | Take
    | Prepare
    | WriteOk
    | WriteFail(sent: nat)  // how many bytes of the frame were put on the wire
    | Reset
    | Cancel

  predicate Enabled(s: PeerState, e: Event)
  {
    match e
    case Send(_) => true
    case Close => true
    case Connect => s.phase.Dialing?
    case Take => s.phase.Ready? && (s.phase.pending.Some? || s.queue != [])
    case Prepare => s.phase.InHand?
    case WriteOk => s.phase.Writing? && s.phase.conn < |s.streams|
    case WriteFail(n) => s.phase.Writing? && s.phase.conn < |s.streams| && n <= |Wire(s.phase.msg)|
    case Reset => s.phase.Returned?
    case Cancel => s.phase.Dialing? || (s.phase.Ready? && s.phase.pending.None?)
  }

  /** The bytes of a frame that reached the wire, added to a connection's stream. */
  function PutOnWire(t: Stream, m: Message, sent: nat): Stream
    requires sent <= |Wire(m)|
  {
    if sent == |Wire(m)| then Stream(t.frames + [m], t.tail) else Stream(t.frames, t.tail + Wire(m)[..sent])
  }

  /** One step; an event that cannot happen now leaves the state alone. */
  function Step(s: PeerState, e: Event): PeerState
  {
    if !Enabled(s, e) then s
    else
      match e
      case Send(m) =>
        if |s.queue| < SEND_CAPACITY then s.(queue := s.queue + [m], accepted := s.accepted + [m]) else s
      case Close => s.(conn := None)
      case Connect =>
        s.(conn := Some(|s.streams|), streams := s.streams + [Stream([], [])], phase := Ready(s.phase.pending))
      case Take =>
        if s.phase.pending.Some? then s.(phase := InHand(s.phase.pending.value))
        else s.(phase := InHand(s.queue[0]), queue := s.queue[1..])
      case Prepare =>
        if !Encodable(s.phase.msg) then s.(phase := Ready(None))
        else if s.conn.None? then s.(phase := Returned(Some(s.phase.msg)))
        else s.(phase := Writing(s.phase.msg, s.conn.value))
      case WriteOk =>
        var c := s.phase.conn;
        s.(streams := s.streams[c := PutOnWire(s.streams[c], s.phase.msg, |Wire(s.phase.msg)|)],
           written := s.written + [s.phase.msg], phase := Ready(None))
      case WriteFail(n) =>
        var c := s.phase.conn;
        s.(streams := s.streams[c := PutOnWire(s.streams[c], s.phase.msg, n)], phase := Returned(Some(s.phase.msg)))
      case Reset => s.(conn := None, phase := Dialing(s.phase.pending))
      case Cancel =>
        if s.phase.Dialing? then s.(phase := Stopped(s.phase.pending)) else s.(phase := Returned(None))
  }

  function Run(events: seq<Event>): PeerState
  {
    if events == [] then INITIAL else Step(Run(events[..|events| - 1]), events[|events| - 1])
  }

  class Peer {
    var conn: Option<nat>
    var sendCh: seq<Message>
    /** The program counter and the local variables of Run and writeLoop. */
    var phase: Phase
    /** How many connections were dialed; a connection is known by its number. */
    var dials: nat
    ghost var accepted: seq<Message>
    ghost var written: seq<Message>
    ghost var streams: seq<Stream>

    ghost function State(): PeerState
      reads this
    {
      PeerState(conn, sendCh, phase, accepted, written, streams)
    }

    ghost predicate Valid()
      reads this
    {
      dials == |streams|
    }

    constructor ()
      ensures Valid() && State() == INITIAL
    {
      conn, sendCh, phase, dials := None, [], Dialing(None), 0;
      accepted, written, streams := [], [], [];
    }

    /** Non-blocking; drops the message when the channel is full. */
    method Send(msg: Message)
      requires Valid()
      modifies this
      ensures Valid() && State() == Step(old(State()), Event.Send(msg))
      ensures sendCh == if |old(sendCh)| < 16 then old(sendCh) + [msg] else old(sendCh)
    {
      if |sendCh| < SEND_CAPACITY {
        sendCh := sendCh + [msg];
        accepted := accepted + [msg];
      }
    }

    method Close()
      requires Valid()
      modifies this
      ensures Valid() && State() == Step(old(State()), Event.Close)
    {
      if conn != None {
        conn := None;
      }
    }

    /** connect: a dial succeeded and the new connection is stored. */
    method Connect()
      requires phase.Dialing?
      requires Valid()
      modifies this
      ensures Valid() && State() == Step(old(State()), Event.Connect)
    {
      conn, dials := Some(dials), dials + 1;
      streams := streams + [Stream([], [])];
      phase := Ready(phase.pending);
    }

    /** writeLoop picks the pending message, or else receives from sendCh. */
    method Take()
      requires phase.Ready? && (phase.pending.Some? || sendCh != [])
      requires Valid()
      modifies this
      ensures Valid() && State() == Step(old(State()), Event.Take)
    {
      if phase.pending.Some? {
        phase := InHand(phase.pending.value);
      } else {
        phase, sendCh := InHand(sendCh[0]), sendCh[1..];
      }
    }

    /** Encode the message, then read p.conn under the mutex. */
    method Prepare()
      requires phase.InHand?
      requires Valid()
      modifies this
      ensures Valid() && State() == Step(old(State()), Event.Prepare)
    {
      var msg := phase.msg;
      var data := Encode(msg);
      if data.Err? {
        phase := Ready(None);
        return;
      }
      if conn == None {
        phase := Returned(Some(msg));
        return;
      }
      phase := Writing(msg, conn.value);
    }

    /** conn.Write; `sent` bytes reach the wire, all of them when there is no error. */
    method Write(failed: bool, sent: nat)
      requires phase.Writing? && phase.conn < |streams| && sent <= |Wire(phase.msg)|
      requires Valid()
      modifies this
      ensures Valid() && State() == Step(old(State()), if failed then WriteFail(sent) else WriteOk)
    {
      ghost var n := if failed then sent else |Wire(phase.msg)|;
      streams := streams[phase.conn := PutOnWire(streams[phase.conn], phase.msg, n)];
      if failed {
        phase := Returned(Some(phase.msg));
      } else {
        written := written + [phase.msg];
        phase := Ready(None);
      }
    }

    /** Run drops the connection and goes back to dialing. */
    method Reset()
      requires phase.Returned?
      requires Valid()
      modifies this
      ensures Valid() && State() == Step(old(State()), Event.Reset)
    {
      if conn != None {
        conn := None;
      }
      phase := Dialing(phase.pending);
    }

    /** The context is done: writeLoop returns nothing, connect returns an error. */
    method Cancel()
      requires Valid()
      requires phase.Dialing? || (phase.Ready? && phase.pending.None?)
      modifies this
      ensures Valid() && State() == Step(old(State()), Event.Cancel)
    {
      phase := if phase.Dialing? then Stopped(phase.pending) else Returned(None);
    }
  }

  // ----- conservation and order -----

  /** The messages Encode does not refuse. */
  function Kept(ms: seq<Message>): (r: seq<Message>)
    ensures forall i :: 0 <= i < |r| ==> Encodable(r[i])
  {
    if ms == [] then []
    else
      var r := Kept(ms[..|ms| - 1]);
      if Encodable(ms[|ms| - 1]) then r + [ms[|ms| - 1]] else r
  }

  lemma {:induction false} KeptConcat(a: seq<Message>, b: seq<Message>)
    ensures Kept(a + b) == Kept(a) + Kept(b)
  {
    if b == [] {
      assert a + b == a;
    } else {
      KeptConcat(a, b[..|b| - 1]);
      assert (a + b)[..|a + b| - 1] == a + b[..|b| - 1];
    }
  }

  /** What the sender still owes: the held message, then the queue. */
  function Owed(s: PeerState): seq<Message>
  {
    s.phase.Held() + s.queue
  }

  ghost predicate Conserved(s: PeerState)
  {
    Kept(s.accepted) == s.written + Kept(Owed(s))
  }

  /** The queue is bounded and holds the newest accepted messages; only a fresh message can be one Encode refuses. */
  ghost predicate Orderly(s: PeerState)
  {
    && |s.queue| <= SEND_CAPACITY
    && |s.queue| <= |s.accepted| && s.accepted[|s.accepted| - |s.queue|..] == s.queue
    && (!s.phase.InHand? ==> forall m :: m in s.phase.Held() ==> Encodable(m))
  }

  lemma StepOrderly(s: PeerState, e: Event)
    requires Orderly(s)
    ensures Orderly(Step(s, e))
  {
    var k := |s.accepted| - |s.queue|;
    if e.Send? {
      assert (s.accepted + [e.msg])[k..] == s.accepted[k..] + [e.msg];
    } else if e.Take? && s.queue != [] {
      assert s.accepted[k + 1..] == s.accepted[k..][1..];
    }
  }

  /** The three steps that change what was accepted, written or owed. */
  lemma StepMoves(s: PeerState, e: Event)
    requires Enabled(s, e)
    ensures var s' := Step(s, e);
            && (e.Send? && |s.queue| < SEND_CAPACITY ==>
                  s'.accepted == s.accepted + [e.msg] && Owed(s') == Owed(s) + [e.msg] && s'.written == s.written)
            && (e.Prepare? && !Encodable(s.phase.msg) ==>
                  s'.accepted == s.accepted && [s.phase.msg] + Owed(s') == Owed(s) && s'.written == s.written)
            && (e.WriteOk? ==>
                  s'.accepted == s.accepted && [s.phase.msg] + Owed(s') == Owed(s)
                  && s'.written == s.written + [s.phase.msg])
            && (!(e.Send? && |s.queue| < SEND_CAPACITY) && !(e.Prepare? && !Encodable(s.phase.msg)) && !e.WriteOk? ==>
                  s'.accepted == s.accepted && Owed(s') == Owed(s) && s'.written == s.written)
  {
  }

  lemma OweMore(accepted: seq<Message>, written: seq<Message>, owed: seq<Message>, m: Message)
    requires Kept(accepted) == written + Kept(owed)
    ensures Kept(accepted + [m]) == written + Kept(owed + [m])
  {
    KeptConcat(accepted, [m]);
    KeptConcat(owed, [m]);
    Associate(written, Kept(owed), Kept([m]));
  }

  lemma OweLess(accepted: seq<Message>, written: seq<Message>, m: Message, owed: seq<Message>)
    requires Kept(accepted) == written + Kept([m] + owed)
    ensures Kept(accepted) == (if Encodable(m) then written + [m] else written) + Kept(owed)
  {
    KeptConcat([m], owed);
    assert [m][..0] == [];
    assert Kept([m]) == if Encodable(m) then [m] else [];
    Associate(written, [m], Kept(owed));
    assert written + ([] + Kept(owed)) == written + Kept(owed);
  }

  lemma StepConserves(s: PeerState, e: Event)
    requires Conserved(s) && Orderly(s)
    requires s.phase.Writing? ==> Encodable(s.phase.msg)
    ensures Conserved(Step(s, e))
  {
    if Enabled(s, e) {
      StepMoves(s, e);
      if e.Send? {
        OweMore(s.accepted, s.written, Owed(s), e.msg);
      } else if (e.Prepare? && !Encodable(s.phase.msg)) || e.WriteOk? {
        OweLess(s.accepted, s.written, s.phase.msg, Owed(Step(s, e)));
      }
    }
  }

  /**
    For every interleaving, the accepted messages that Encode does not refuse are, in FIFO
    order, those written without error, then the one held across reconnects, then the queue.
    */
  lemma {:induction false} NothingLostOrReordered(events: seq<Event>)
    ensures Conserved(Run(events)) && Orderly(Run(events))
  {
    if events == [] {
      InitiallyConserved();
    } else {
      var before, e := Run(events[..|events| - 1]), events[|events| - 1];
      NothingLostOrReordered(events[..|events| - 1]);
      StepOrderly(before, e);
      StepConserves(before, e);
    }
  }

  lemma InitiallyConserved()
    ensures Conserved(INITIAL) && Orderly(INITIAL)
  {
    assert Owed(INITIAL) == [];
  }

  // ----- what becomes of the next message -----

  function Steps(s: PeerState, events: seq<Event>): PeerState
    decreases |events|
  {
    if events == [] then s else Steps(Step(s, events[0]), events[1..])
  }

  lemma {:induction false} RunOn(events: seq<Event>, more: seq<Event>)
    ensures Run(events + more) == Steps(Run(events), more)
    decreases |more|
  {
    if more == [] {
      assert events + more == events;
    } else {
      var first := events + [more[0]];
      assert first[..|events|] == events;
      RunOn(first, more[1..]);
      assert first + more[1..] == events + more;
    }
  }

  /** The connection, when there is one, is the newest, and so is what is put on it. */
  function OnNewest(streams: seq<Stream>, m: Message, sent: nat): seq<Stream>
    requires streams != [] && sent <= |Wire(m)|
  {
    streams[|streams| - 1 := PutOnWire(streams[|streams| - 1], m, sent)]
  }

  const SEND_NEXT: seq<Event> := [Take, Prepare, WriteOk]
  const RECONNECT: seq<Event> := [Reset, Connect]

  lemma Three(s: PeerState, a: Event, b: Event, c: Event)
    ensures Steps(s, [a, b, c]) == Step(Step(Step(s, a), b), c)
  {
    assert [a, b, c][1..] == [b, c];
    assert Steps(s, [a, b, c]) == Steps(Step(s, a), [b, c]);
    Two(Step(s, a), b, c);
  }

  lemma Two(s: PeerState, a: Event, b: Event)
    ensures Steps(s, [a, b]) == Step(Step(s, a), b)
  {
    assert [a, b][1..] == [b] && [b][1..] == [];
    assert Steps(s, [a, b]) == Steps(Step(s, a), [b]) == Step(Step(s, a), b);
  }

  /** The sender is about to pick m. */
  ghost predicate Picks(s: PeerState, m: Message, rest: seq<Message>)
  {
    s.phase.Ready? && Owed(s) == [m] + rest && s.streams != []
    && (s.conn.Some? ==> s.conn.value == |s.streams| - 1)
  }

  /** The sender has nothing in hand; it owes `owed`, and `streams` were put on the connections. */
  ghost predicate SentOff(s: PeerState, owed: seq<Message>, streams: seq<Stream>)
  {
    s.phase == Ready(None) && Owed(s) == owed && s.streams == streams
  }

  lemma PicksNext(s: PeerState, m: Message, rest: seq<Message>)
    requires Picks(s, m, rest)
    ensures Step(s, Take) == s.(phase := InHand(m), queue := rest)
  {
    if s.phase.pending.Some? {
      assert Owed(s)[0] == m && Owed(s)[1..] == rest;
      assert s.queue == Owed(s)[1..];
    } else {
      assert s.queue == Owed(s);
    }
  }

  lemma SendsNext(s: PeerState, m: Message, rest: seq<Message>)
    requires Picks(s, m, rest) && Encodable(m) && s.conn.Some?
    ensures SentOff(Steps(s, SEND_NEXT), rest, OnNewest(s.streams, m, |Wire(m)|))
  {
    PicksNext(s, m, rest);
    Three(s, Take, Prepare, WriteOk);
  }

  lemma FailsNext(s: PeerState, m: Message, rest: seq<Message>, part: nat)
    requires Picks(s, m, rest) && Encodable(m) && s.conn.Some? && part <= |Wire(m)|
    ensures var s' := Steps(s, [Take, Prepare, WriteFail(part)]);
            s'.phase == Returned(Some(m)) && s'.queue == rest && s'.streams == OnNewest(s.streams, m, part)
  {
    PicksNext(s, m, rest);
    Three(s, Take, Prepare, WriteFail(part));
  }

  lemma FindsClosed(s: PeerState, m: Message, rest: seq<Message>)
    requires Picks(s, m, rest) && Encodable(m)
    ensures var s' := Steps(s, [Close, Take, Prepare]);
            s'.phase == Returned(Some(m)) && s'.queue == rest && s'.streams == s.streams
  {
    PicksNext(Step(s, Close), m, rest);
    Three(s, Close, Take, Prepare);
  }

  lemma Reconnects(s: PeerState, m: Message)
    requires s.phase == Returned(Some(m))
    ensures var s' := Steps(s, RECONNECT);
            Picks(s', m, s.queue) && s'.conn.Some? && s'.streams == s.streams + [Stream([], [])]
  {
    Two(s, Reset, Connect);
  }

  lemma SendsAfterReconnect(s: PeerState, m: Message)
    requires s.phase == Returned(Some(m)) && Encodable(m)
    ensures SentOff(Steps(Steps(s, RECONNECT), SEND_NEXT), s.queue, s.streams + [Stream([m], [])])
  {
    Reconnects(s, m);
    SendsNext(Steps(s, RECONNECT), m, s.queue);
    assert PutOnWire(Stream([], []), m, |Wire(m)|) == Stream([m], []);
    assert OnNewest(s.streams + [Stream([], [])], m, |Wire(m)|) == s.streams + [Stream([m], [])];
  }

  lemma RunOnThrice(events: seq<Event>, a: seq<Event>, b: seq<Event>, c: seq<Event>)
    ensures Run(events + a + b + c) == Steps(Steps(Steps(Run(events), a), b), c)
  {
    RunOn(events, a);
    RunOn(events + a, b);
    RunOn(events + a + b, c);
  }

  lemma AboutToPick(events: seq<Event>)
    requires Run(events).phase.Ready? && Owed(Run(events)) != []
    ensures Picks(Run(events), Owed(Run(events))[0], Owed(Run(events))[1..])
  {
    DuplicatesAreConsecutive(events);
  }

  /**
    After any run in which the sender is about to pick its next message: one that Encode does not
    refuse is put on the newest connection while that is up. Once it is closed, or the write fails
    after part of the frame, the same message is the first on a new connection.
    */
  lemma NextIsSent(events: seq<Event>, part: nat)
    requires var s := Run(events); s.phase.Ready? && Owed(s) != [] && Encodable(Owed(s)[0])
    requires part <= |Wire(Owed(Run(events))[0])|
    ensures var s := Run(events);
            var m, rest := Owed(s)[0], Owed(s)[1..];
            && s.streams != []
            && (s.conn.Some? ==> SentOff(Run(events + SEND_NEXT), rest, OnNewest(s.streams, m, |Wire(m)|)))
            && SentOff(Run(events + [Close, Take, Prepare] + RECONNECT + SEND_NEXT), rest,
                       s.streams + [Stream([m], [])])
            && (s.conn.Some? ==>
                  SentOff(Run(events + [Take, Prepare, WriteFail(part)] + RECONNECT + SEND_NEXT), rest,
                          OnNewest(s.streams, m, part) + [Stream([m], [])]))
  {
    var s := Run(events);
    var m, rest := Owed(s)[0], Owed(s)[1..];
    AboutToPick(events);
    if s.conn.Some? {
      SendsNext(s, m, rest);
      RunOn(events, SEND_NEXT);
      FailsNext(s, m, rest, part);
      SendsAfterReconnect(Steps(s, [Take, Prepare, WriteFail(part)]), m);
      RunOnThrice(events, [Take, Prepare, WriteFail(part)], RECONNECT, SEND_NEXT);
    }
    FindsClosed(s, m, rest);
    SendsAfterReconnect(Steps(s, [Close, Take, Prepare]), m);
    RunOnThrice(events, [Close, Take, Prepare], RECONNECT, SEND_NEXT);
  }

  /** And one that Encode refuses is skipped. */
  lemma RefusedIsSkipped(events: seq<Event>)
    requires var s := Run(events); s.phase.Ready? && Owed(s) != [] && !Encodable(Owed(s)[0])
    ensures SentOff(Run(events + [Take, Prepare]), Owed(Run(events))[1..], Run(events).streams)
  {
    AboutToPick(events);
    PicksNext(Run(events), Owed(Run(events))[0], Owed(Run(events))[1..]);
    RunOn(events, [Take, Prepare]);
    Two(Run(events), Take, Prepare);
  }

  // ----- duplicates on the wire -----

  /**
    index[i] says which element of `list` wire[i] is: it starts at 0, ends at the end, and never
    skips or goes back.
    */
  ghost predicate StutterIndex(wire: seq<Message>, list: seq<Message>, index: seq<nat>)
  {
    && |index| == |wire|
    && (forall i :: 0 <= i < |wire| ==> index[i] < |list| && wire[i] == list[index[i]])
    && (forall i :: 0 < i < |wire| ==> index[i] == index[i - 1] || index[i] == index[i - 1] + 1)
    && (if wire == [] then list == [] else index[0] == 0 && index[|wire| - 1] == |list| - 1)
  }

  /** `wire` is `list` with every element repeated consecutively, at least once. */
  ghost predicate Stutters(wire: seq<Message>, list: seq<Message>)
  {
    exists index :: StutterIndex(wire, list, index)
  }

  lemma StutterOnce(wire: seq<Message>, list: seq<Message>, m: Message)
    requires Stutters(wire, list)
    ensures Stutters(wire + [m], list + [m])
  {
    var index :| StutterIndex(wire, list, index);
    var last: nat := |list|;
    assert StutterIndex(wire + [m], list + [m], index + [last]);
  }

  lemma StutterAgain(wire: seq<Message>, list: seq<Message>, m: Message)
    requires Stutters(wire, list + [m])
    ensures Stutters(wire + [m], list + [m])
  {
    var index :| StutterIndex(wire, list + [m], index);
    var last: nat := |list|;
    assert StutterIndex(wire + [m], list + [m], index + [last]);
  }

  /** All complete frames, in the order of the connections. */
  function OnWire(streams: seq<Stream>): seq<Message>
  {
    if streams == [] then [] else OnWire(streams[..|streams| - 1]) + streams[|streams| - 1].frames
  }

  ghost predicate CutOfAccepted(tail: seq<byte>, accepted: seq<Message>)
  {
    tail == [] || exists m :: m in accepted && Encodable(m) && tail < Wire(m)
  }

  /** Nothing follows a cut frame on a connection, and only the newest connection is written to. */
  ghost predicate CleanStreams(s: PeerState)
  {
    && (forall c :: 0 <= c < |s.streams| ==> CutOfAccepted(s.streams[c].tail, s.accepted))
    && (s.conn.Some? && !s.phase.Returned? ==> s.conn.value == |s.streams| - 1)
    && (s.phase.Writing? ==> s.phase.conn == |s.streams| - 1)
    && (s.phase.Dialing? ==> s.conn.None?)
    && (s.phase.Ready? || s.phase.InHand? || s.phase.Writing? ==>
          s.streams != [] && s.streams[|s.streams| - 1].tail == [])
    && (forall m :: m in s.phase.Held() ==> m in s.accepted)
    && (forall m :: m in s.queue ==> m in s.accepted)
  }

  /** `wire` repeats the written messages, and perhaps the held one, in order. */
  ghost predicate Repeats(wire: seq<Message>, written: seq<Message>, held: seq<Message>)
  {
    || Stutters(wire, written)
    || (held != [] && Encodable(held[0]) && Stutters(wire, written + held))
  }

  lemma RepeatsGrows(wire: seq<Message>, written: seq<Message>, m: Message)
    requires Repeats(wire, written, [m]) && Encodable(m)
    ensures Repeats(wire + [m], written + [m], []) && Repeats(wire + [m], written, [m])
  {
    if Stutters(wire, written) {
      StutterOnce(wire, written, m);
    } else {
      StutterAgain(wire, written, m);
    }
  }

  /** A step that neither writes nor is written, and at most changes what is held between nothing and a message. */
  lemma RepeatsStays(wire: seq<Message>, written: seq<Message>, held: seq<Message>, held': seq<Message>)
    requires Repeats(wire, written, held)
    requires held == held' || held == [] || !Encodable(held[0])
    ensures Repeats(wire, written, held')
  {
  }

  ghost predicate OnlyRepeats(s: PeerState)
  {
    Repeats(OnWire(s.streams), s.written, s.phase.Held())
  }

  lemma WireGrows(streams: seq<Stream>, m: Message, sent: nat)
    requires streams != [] && sent <= |Wire(m)|
    ensures var c := |streams| - 1;
            OnWire(streams[c := PutOnWire(streams[c], m, sent)]) ==
            if sent == |Wire(m)| then OnWire(streams) + [m] else OnWire(streams)
  {
    var c := |streams| - 1;
    assert streams[c := PutOnWire(streams[c], m, sent)][..c] == streams[..c];
  }

  lemma StepClean(s: PeerState, e: Event)
    requires CleanStreams(s)
    requires s.phase.Writing? ==> Encodable(s.phase.msg)
    ensures CleanStreams(Step(s, e))
  {
    if e.WriteFail? && Enabled(s, e) {
      assert e.sent < |Wire(s.phase.msg)| ==> Wire(s.phase.msg)[..e.sent] < Wire(s.phase.msg);
    }
  }

  /** What a write does, failed or not. */
  lemma WriteStep(s: PeerState, e: Event)
    requires Enabled(s, e) && (e.WriteOk? || e.WriteFail?)
    ensures var s', m := Step(s, e), s.phase.msg;
            var sent := if e.WriteOk? then |Wire(m)| else e.sent;
            && s'.streams == s.streams[s.phase.conn := PutOnWire(s.streams[s.phase.conn], m, sent)]
            && s'.written == (if e.WriteOk? then s.written + [m] else s.written)
            && s'.phase.Held() == (if e.WriteOk? then [] else [m])
  {
  }

  lemma WriteOnlyRepeats(s: PeerState, e: Event)
    requires OnlyRepeats(s) && Enabled(s, e) && (s.phase.Writing? ==> s.phase.conn == |s.streams| - 1)
    requires (e.WriteOk? || e.WriteFail?) && Encodable(s.phase.msg)
    ensures OnlyRepeats(Step(s, e))
  {
    var s', m := Step(s, e), s.phase.msg;
    WriteStep(s, e);
    WireGrows(s.streams, m, if e.WriteOk? then |Wire(m)| else e.sent);
    RepeatsAfterWrite(OnWire(s.streams), OnWire(s'.streams), s.written, m, e.WriteOk?);
  }

  lemma RepeatsAfterWrite(wire: seq<Message>, wire': seq<Message>, written: seq<Message>, m: Message, ok: bool)
    requires Repeats(wire, written, [m]) && Encodable(m)
    requires wire' == wire + [m] || (!ok && wire' == wire)
    ensures if ok then Repeats(wire', written + [m], []) else Repeats(wire', written, [m])
  {
    RepeatsGrows(wire, written, m);
  }

  lemma StepOnlyRepeats(s: PeerState, e: Event)
    requires CleanStreams(s) && OnlyRepeats(s)
    requires s.phase.Writing? ==> Encodable(s.phase.msg)
    ensures OnlyRepeats(Step(s, e))
  {
    if Enabled(s, e) {
      if e.WriteOk? || e.WriteFail? {
        WriteOnlyRepeats(s, e);
      } else {
        var s' := Step(s, e);
        if e.Connect? {
          assert s'.streams[..|s.streams|] == s.streams;
          assert OnWire(s.streams) + [] == OnWire(s.streams);
        }
        RepeatsStays(OnWire(s.streams), s.written, s.phase.Held(), s'.phase.Held());
      }
    }
  }

  /**
    For every interleaving, what was completely put on the wire over all connections is the
    written messages in order, with consecutive repeats only; a message whose write failed
    after its last byte may follow, and it is the one still held.
    */
  lemma {:induction false} DuplicatesAreConsecutive(events: seq<Event>)
    ensures CleanStreams(Run(events)) && OnlyRepeats(Run(events))
  {
    if events == [] {
      var index: seq<nat> := [];
      assert StutterIndex([], [], index);
    } else {
      var before := events[..|events| - 1];
      DuplicatesAreConsecutive(before);
      NothingLostOrReordered(before);
      StepClean(Run(before), events[|events| - 1]);
      StepOnlyRepeats(Run(before), events[|events| - 1]);
    }
  }

  // ----- what the other end makes of the bytes -----

  ghost predicate KnownTypes(ms: seq<Message>)
  {
    forall m :: m in ms ==> KnownType(m.typ)
  }

  lemma {:induction false} KeptFrom(ms: seq<Message>, m: Message)
    requires m in Kept(ms)
    ensures m in ms && Encodable(m)
  {
    if m != ms[|ms| - 1] {
      KeptFrom(ms[..|ms| - 1], m);
    }
  }

  lemma {:induction false} FramesOnWire(streams: seq<Stream>, c: nat, m: Message)
    requires c < |streams| && m in streams[c].frames
    ensures m in OnWire(streams)
  {
    if c < |streams| - 1 {
      FramesOnWire(streams[..|streams| - 1], c, m);
    }
  }

  lemma StutterFrom(wire: seq<Message>, list: seq<Message>, m: Message)
    requires Stutters(wire, list) && m in wire
    ensures m in list
  {
    var index :| StutterIndex(wire, list, index);
    var i :| 0 <= i < |wire| && wire[i] == m;
    assert list[index[i]] == m;
  }

  /** Every frame on any connection is an accepted message that Encode does not refuse. */
  lemma FramesAreAccepted(events: seq<Event>, c: nat)
    requires c < |Run(events).streams|
    ensures forall m :: m in Run(events).streams[c].frames ==> m in Run(events).accepted && Encodable(m)
  {
    var s := Run(events);
    NothingLostOrReordered(events);
    DuplicatesAreConsecutive(events);
    forall m | m in s.streams[c].frames
      ensures m in s.accepted && Encodable(m)
    {
      FramesOnWire(s.streams, c, m);
      var list := if Stutters(OnWire(s.streams), s.written) then s.written else s.written + s.phase.Held();
      StutterFrom(OnWire(s.streams), list, m);
      if m in s.written {
        assert m in Kept(s.accepted);
        KeptFrom(s.accepted, m);
      }
    }
  }

  /**
    Whatever part of a connection's bytes has arrived decodes to its first complete frames,
    in order and as version 2, and then to a truncation; all its bytes decode to all of them.
    */
  lemma {:induction false} ReceiverSees(events: seq<Event>, c: nat, arrived: seq<byte>) returns (k: nat)
    requires KnownTypes(Run(events).accepted)
    requires c < |Run(events).streams| && arrived <= Run(events).streams[c].Bytes()
    ensures k <= |Run(events).streams[c].frames|
    ensures DecodeAll(arrived) == Decoded(AsReceived(Run(events).streams[c].frames[..k]), Truncated)
    ensures arrived == Run(events).streams[c].Bytes() ==> k == |Run(events).streams[c].frames|
  {
    var s := Run(events);
    var t := s.streams[c];
    FramesAreAccepted(events, c);
    DuplicatesAreConsecutive(events);
    assert CutOfAccepted(t.tail, s.accepted);
    if arrived == t.Bytes() {
      k := |t.frames|;
      assert t.frames[..k] == t.frames;
      StreamDecodes(t.frames, t.tail);
    } else {
      var cut;
      k, cut := PrefixOfStream(t.frames, t.tail, arrived);
      StreamDecodes(t.frames[..k], cut);
    }
  }

  /** The messages decoded from all connections, when everything put on the wire has arrived. */
  function DecodedFrom(streams: seq<Stream>): seq<Message>
  {
    if streams == [] then []
    else DecodedFrom(streams[..|streams| - 1]) + DecodeAll(streams[|streams| - 1].Bytes()).messages
  }

  lemma AsReceivedConcat(a: seq<Message>, b: seq<Message>)
    ensures AsReceived(a + b) == AsReceived(a) + AsReceived(b)
  {
  }

  lemma {:induction false} AllStreams(events: seq<Event>, n: nat)
    requires KnownTypes(Run(events).accepted) && n <= |Run(events).streams|
    ensures DecodedFrom(Run(events).streams[..n]) == AsReceived(OnWire(Run(events).streams[..n]))
  {
    if n > 0 {
      var streams := Run(events).streams;
      AllStreams(events, n - 1);
      assert streams[..n][..n - 1] == streams[..n - 1];
      var k := ReceiverSees(events, n - 1, streams[n - 1].Bytes());
      assert streams[n - 1].frames[..k] == streams[n - 1].frames;
      AsReceivedConcat(OnWire(streams[..n - 1]), streams[n - 1].frames);
    }
  }

  /**
    End to end: the receiver decodes, over all connections together, the accepted messages that
    Encode does not refuse, in order from the first, with consecutive repeats only.
    */
  lemma {:induction false} EndToEnd(events: seq<Event>) returns (list: seq<Message>)
    requires KnownTypes(Run(events).accepted)
    ensures var s := Run(events);
            && s.written <= list <= Kept(s.accepted)
            && |list| <= |s.written| + 1
            && (exists wire :: Stutters(wire, list) && DecodedFrom(s.streams) == AsReceived(wire))
  {
    var s := Run(events);
    NothingLostOrReordered(events);
    DuplicatesAreConsecutive(events);
    AllStreams(events, |s.streams|);
    assert s.streams[..|s.streams|] == s.streams;
    list := Repeated(s);
    assert Stutters(OnWire(s.streams), list);
  }

  /** What the complete frames repeat: the written messages, and perhaps the held one. */
  lemma Repeated(s: PeerState) returns (list: seq<Message>)
    requires Conserved(s) && OnlyRepeats(s)
    ensures Stutters(OnWire(s.streams), list)
    ensures s.written <= list <= Kept(s.accepted) && |list| <= |s.written| + 1
  {
    var held := s.phase.Held();
    if Stutters(OnWire(s.streams), s.written) {
      list := s.written;
    } else {
      list := s.written + held;
      HeldIsNext(s.accepted, s.written, held, s.queue);
    }
  }

  lemma HeldIsNext(accepted: seq<Message>, written: seq<Message>, held: seq<Message>, queue: seq<Message>)
    requires Kept(accepted) == written + Kept(held + queue) && |held| == 1 && Encodable(held[0])
    ensures written + held <= Kept(accepted)
  {
    KeptConcat(held, queue);
    assert held[..0] == [] && Kept(held) == [held[0]] == held;
    Associate(written, held, Kept(queue));
  }
}
