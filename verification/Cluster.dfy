/**
  Nodes, senders and byte streams together. Every run of them is a run of the network: what the
  senders owe are its queues, what the receivers have not decoded yet is its wire.
  */
module Cluster {
  import opened Wrappers
  import opened Bytes
  import opened Protocol
  import opened Node
  import opened Accounting
  import opened Network
  import Peer

  /** A configured peer: which node sends to which. */
  datatype Cable = Cable(from: nat, to: nat)

  datatype Setup = Setup(configs: seq<Config>, cables: seq<Cable>)

  /** One sender, by its history, and how many messages the receiver decoded from each of its connections. */
  datatype Link = Link(cable: Cable, history: seq<Peer.Event>, read: seq<nat>)
  {
    function Sender(): Peer.PeerState
    {
      Peer.Run(history)
    }
  }

  datatype State = State(nodes: seq<Ledger>, links: seq<Link>)

  datatype Event =
    | Acts(n: nat, act: Act)           // a step of node n; an announcement goes to all its senders
    | Sends(l: nat, event: Peer.Event) // a step of sender l, other than being sent to
    // at the other end of link l, the next message is decoded from what arrived of connection c
    | Receives(l: nat, c: nat, arrived: seq<byte>, input: Input)

  function Start(u: Setup): State
  {
    State(seq(|u.configs|, _ => EMPTY),
          seq(|u.cables|, i requires 0 <= i < |u.cables| => Link(u.cables[i], [], [])))
  }

  /** Broadcast: every sender of node n gets the message. */
  function SendToAll(links: seq<Link>, n: nat, msg: Message): (r: seq<Link>)
    ensures |r| == |links|
    ensures forall i :: 0 <= i < |links| ==> r[i] == SendTo(links[i], n, msg)
  {
    seq(|links|, i requires 0 <= i < |links| => SendTo(links[i], n, msg))
  }

  function SendTo(link: Link, n: nat, msg: Message): Link
  {
    if link.cable.from == n then link.(history := link.history + [Peer.Send(msg)]) else link
  }

  /** The watchers report texts and images. */
  predicate Reportable(act: Act)
  {
    act.Notify? && act.input.Watch? ==> act.input.typ == TYPE_TEXT || act.input.typ == TYPE_IMAGE
  }

  predicate Possible(u: Setup, s: State, e: Event)
  {
    match e
    case Acts(n, act) =>
      n < |s.nodes| && n < |u.configs| && !act.Arrive? && Reportable(act) && CanAct(u.configs[n], s.nodes[n], act)
    case Sends(l, event) => l < |s.links| && !event.Send? && Peer.Enabled(s.links[l].Sender(), event)
    case Receives(l, c, arrived, input) =>
      && l < |s.links| && s.links[l].cable.to < |s.nodes| && s.links[l].cable.to < |u.configs|
      && c < |s.links[l].Sender().streams| && c < |s.links[l].read|
      && arrived <= s.links[l].Sender().streams[c].Bytes()
      && s.links[l].read[c] < |DecodeAll(arrived).messages|
      && input.Receive? && input.msg == DecodeAll(arrived).messages[s.links[l].read[c]]
  }

  function Step(u: Setup, s: State, e: Event): State
    requires Possible(u, s, e)
  {
    match e
    case Acts(n, act) => AfterAct(s, n, ActStep(u.configs[n], s.nodes[n], act))
    case Sends(l, event) =>
      s.(links := s.links[l := AfterEvent(s.links[l], event)])
    case Receives(l, c, _, input) =>
      var to := s.links[l].cable.to;
      AfterReceipt(s, l, c, ActStep(u.configs[to], s.nodes[to], Arrive(input)))
  }

  function AfterReceipt(s: State, l: nat, c: nat, receiver: Ledger): State
    requires l < |s.links| && s.links[l].cable.to < |s.nodes| && c < |s.links[l].read|
  {
    State(s.nodes[s.links[l].cable.to := receiver], s.links[l := AfterRead(s.links[l], c)])
  }

  function AfterAct(s: State, n: nat, l: Ledger): State
    requires n < |s.nodes|
  {
    s.(nodes := s.nodes[n := l],
       links := if |l.node.sent| > |s.nodes[n].node.sent| then SendToAll(s.links, n, l.node.sent[|l.node.sent| - 1])
                else s.links)
  }

  function AfterRead(link: Link, c: nat): Link
    requires c < |link.read|
  {
    link.(read := link.read[c := link.read[c] + 1])
  }

  /** Nothing has been read from a new connection. */
  function AfterEvent(link: Link, event: Peer.Event): Link
  {
    link.(history := link.history + [event], read := if event.Connect? then link.read + [0] else link.read)
  }

  function Run(u: Setup, events: seq<Event>): State
  {
    if events == [] then Start(u)
    else
      var s := Run(u, events[..|events| - 1]);
      if Possible(u, s, events[|events| - 1]) then Step(u, s, events[|events| - 1]) else s
  }

  /** A step that moves a message on, or reports a notification. */
  predicate Works(s: State, e: Event)
  {
    match e
    case Acts(_, act) => act.Notify? || act.Coalesce?
    case Sends(l, event) =>
      l < |s.links| && Peer.Enabled(s.links[l].Sender(), event) && DropsMessage(s.links[l].Sender(), event)
    case Receives(_, _, _, _) => true
  }

  predicate FailsToWrite(e: Event)
  {
    e.Sends? && e.event.WriteFail?
  }

  /** How many steps of a run moved a message on or reported a notification. */
  function Work(u: Setup, events: seq<Event>): nat
  {
    if events == [] then 0
    else
      var before, e := events[..|events| - 1], events[|events| - 1];
      Work(u, before) + if Possible(u, Run(u, before), e) && Works(Run(u, before), e) then 1 else 0
  }

  function FailedWrites(u: Setup, events: seq<Event>): nat
  {
    if events == [] then 0
    else
      var before, e := events[..|events| - 1], events[|events| - 1];
      FailedWrites(u, before) + if Possible(u, Run(u, before), e) && FailsToWrite(e) then 1 else 0
  }

  // ----- the network it implements -----

  /** The nodes that node n sends to, once for each cable. */
  function Targets(cables: seq<Cable>, n: nat): seq<nat>
  {
    if cables == [] then []
    else
      var before, cable := Targets(cables[..|cables| - 1], n), cables[|cables| - 1];
      if cable.from == n then before + [cable.to] else before
  }

  function TopologyOf(u: Setup): (t: Topology)
    ensures |t.configs| == |t.peers|
  {
    Topology(u.configs, seq(|u.configs|, n requires 0 <= n < |u.configs| => Targets(u.cables, n)))
  }

  /** The frames of all connections that were not decoded yet. */
  function Unread(streams: seq<Peer.Stream>, read: seq<nat>): seq<Message>
    requires |read| == |streams|
  {
    if streams == [] then []
    else
      var n := |streams| - 1;
      Unread(streams[..n], read[..n])
      + if read[n] <= |streams[n].frames| then streams[n].frames[read[n]..] else []
  }

  /** The messages of a list as packets for one receiver. */
  function PacketsOf(to: nat, ms: seq<Message>): (r: seq<Packet>)
    ensures |r| == |ms| && forall i :: 0 <= i < |ms| ==> r[i] == Packet(to, ms[i])
  {
    seq(|ms|, i requires 0 <= i < |ms| => Packet(to, ms[i]))
  }

  function Queued(): Link -> seq<Packet>
  {
    (link: Link) => PacketsOf(link.cable.to, Peer.Owed(link.Sender()))
  }

  function OnTheWire(): Link -> seq<Packet>
  {
    (link: Link) =>
      if |link.read| == |link.Sender().streams| then PacketsOf(link.cable.to, Unread(link.Sender().streams, link.read))
      else []
  }

  function Gather(f: Link -> seq<Packet>, links: seq<Link>): seq<Packet>
  {
    if links == [] then [] else Gather(f, links[..|links| - 1]) + f(links[|links| - 1])
  }

  function QueuedIn(links: seq<Link>): multiset<Packet>
  {
    multiset(Gather(Queued(), links))
  }

  function WireIn(links: seq<Link>): multiset<Packet>
  {
    multiset(Gather(OnTheWire(), links))
  }

  /** The state of the network. */
  function Seen(s: State): Net
  {
    Net(s.nodes, QueuedIn(s.links), WireIn(s.links))
  }

  /** The message in hand, as a packet. */
  function PacketAt(link: Link): Packet
    requires link.Sender().phase.InHand? || link.Sender().phase.Writing?
  {
    Packet(link.cable.to, link.Sender().phase.msg)
  }

  // ----- packets -----

  lemma {:induction false} GatherUpdate(f: Link -> seq<Packet>, links: seq<Link>, i: nat, link: Link)
    returns (a: seq<Packet>, b: seq<Packet>)
    requires i < |links|
    ensures Gather(f, links) == a + f(links[i]) + b
    ensures Gather(f, links[i := link]) == a + f(link) + b
  {
    var last := |links| - 1;
    if i < last {
      var c;
      a, c := GatherUpdate(f, links[..last], i, link);
      assert links[i := link][..last] == links[..last][i := link];
      b := c + f(links[last]);
      Associate(a + f(links[i]), c, f(links[last]));
      Associate(a + f(link), c, f(links[last]));
    } else {
      assert links[i := link][..last] == links[..last];
      a, b := Gather(f, links[..last]), [];
    }
  }

  lemma LinkGains(f: Link -> seq<Packet>, links: seq<Link>, i: nat, link: Link, p: Packet)
    requires i < |links| && multiset(f(link)) == multiset(f(links[i])) + multiset{p}
    ensures multiset(Gather(f, links[i := link])) == multiset(Gather(f, links)) + multiset{p}
  {
    var a, b := GatherUpdate(f, links, i, link);
  }

  lemma LinkLoses(f: Link -> seq<Packet>, links: seq<Link>, i: nat, link: Link, p: Packet)
    requires i < |links| && multiset(f(links[i])) == multiset(f(link)) + multiset{p}
    ensures p in multiset(Gather(f, links))
    ensures multiset(Gather(f, links[i := link])) == multiset(Gather(f, links)) - multiset{p}
  {
    var links' := links[i := link];
    LinkGains(f, links', i, links[i], p);
    assert links'[i := links[i]] == links;
  }

  lemma LinkStays(f: Link -> seq<Packet>, links: seq<Link>, i: nat, link: Link)
    requires i < |links| && f(link) == f(links[i])
    ensures Gather(f, links[i := link]) == Gather(f, links)
  {
    var a, b := GatherUpdate(f, links, i, link);
  }

  lemma {:induction false} GatherSame(f: Link -> seq<Packet>, links: seq<Link>, links': seq<Link>)
    requires |links| == |links'| && forall i :: 0 <= i < |links| ==> f(links[i]) == f(links'[i])
    ensures Gather(f, links) == Gather(f, links')
  {
    if links != [] {
      GatherSame(f, links[..|links| - 1], links'[..|links| - 1]);
    }
  }

  // ----- one link -----

  /** What was read was there, and the receiver knows the types of what it gets. */
  ghost predicate LinkOk(link: Link)
  {
    var s := link.Sender();
    && |link.read| == |s.streams|
    && (forall c :: 0 <= c < |s.streams| ==> link.read[c] <= |s.streams[c].frames|)
    && Peer.KnownTypes(s.accepted)
  }

  lemma HistoryStep(link: Link, e: Peer.Event)
    ensures AfterEvent(link, e).Sender() == Peer.Step(link.Sender(), e)
    ensures e.Send? ==> AfterEvent(link, e) == link.(history := link.history + [e])
  {
    assert (link.history + [e])[..|link.history|] == link.history;
  }

  lemma UnreadGrows(streams: seq<Peer.Stream>, read: seq<nat>, m: Message, sent: nat)
    requires |read| == |streams| > 0 && read[|read| - 1] <= |streams[|read| - 1].frames| && sent <= |Wire(m)|
    ensures var c := |streams| - 1;
            Unread(streams[c := Peer.PutOnWire(streams[c], m, sent)], read) ==
            if sent == |Wire(m)| then Unread(streams, read) + [m] else Unread(streams, read)
  {
    var c := |streams| - 1;
    var t := Peer.PutOnWire(streams[c], m, sent);
    assert streams[c := t][..c] == streams[..c];
    if sent == |Wire(m)| {
      assert t.frames[read[c]..] == streams[c].frames[read[c]..] + [m];
      Associate(Unread(streams[..c], read[..c]), streams[c].frames[read[c]..], [m]);
    }
  }

  lemma UnreadOpens(streams: seq<Peer.Stream>, read: seq<nat>)
    requires |read| == |streams|
    ensures Unread(streams + [Peer.Stream([], [])], read + [0]) == Unread(streams, read)
  {
    assert (streams + [Peer.Stream([], [])])[..|streams|] == streams && (read + [0])[..|streams|] == read;
  }

  /** Reading the next message of a connection takes it out of the unread ones. */
  lemma {:induction false} UnreadNext(streams: seq<Peer.Stream>, read: seq<nat>, c: nat)
    returns (x: seq<Message>, y: seq<Message>)
    requires |read| == |streams| && c < |streams| && read[c] < |streams[c].frames|
    ensures Unread(streams, read) == x + [streams[c].frames[read[c]]] + y
    ensures Unread(streams, read[c := read[c] + 1]) == x + y
  {
    var n, read' := |streams| - 1, read[c := read[c] + 1];
    var m := streams[c].frames[read[c]];
    if c < n {
      var y';
      x, y' := UnreadNext(streams[..n], read[..n], c);
      assert read'[..n] == read[..n][c := read[c] + 1];
      var rest := if read[n] <= |streams[n].frames| then streams[n].frames[read[n]..] else [];
      y := y' + rest;
      Regroup(x, m, y', rest);
    } else {
      assert read'[..n] == read[..n];
      x, y := Unread(streams[..n], read[..n]), streams[n].frames[read[n] + 1..];
      assert streams[n].frames[read[n]..] == [m] + y;
      Associate(x, [m], y);
    }
  }

  lemma Regroup(x: seq<Message>, m: Message, y: seq<Message>, rest: seq<Message>)
    ensures (x + [m] + y) + rest == x + [m] + (y + rest) && (x + y) + rest == x + (y + rest)
  {
  }

  lemma PacketsConcat(to: nat, a: seq<Message>, b: seq<Message>)
    ensures PacketsOf(to, a + b) == PacketsOf(to, a) + PacketsOf(to, b)
  {
  }

  /** Whether the step completes a frame on the wire. */
  predicate CompletesFrame(s: Peer.PeerState, e: Peer.Event)
    requires Peer.Enabled(s, e)
  {
    e.WriteOk? || (e.WriteFail? && e.sent == |Wire(s.phase.msg)|)
  }

  /** Whether the sender is done with a message: it was written, or Encode refused it. */
  predicate DropsMessage(s: Peer.PeerState, e: Peer.Event)
    requires Peer.Enabled(s, e)
  {
    e.WriteOk? || (e.Prepare? && !Encodable(s.phase.msg))
  }

  /** Every step of a sender, Send excepted, leaves what it owes alone, or takes the first message off. */
  lemma OwedMoves(link: Link, e: Peer.Event)
    requires Peer.Enabled(link.Sender(), e) && !e.Send?
    ensures var s, to := link.Sender(), link.cable.to;
            Queued()(link) ==
            (if DropsMessage(s, e) then [Packet(to, s.phase.msg)] else []) + Queued()(AfterEvent(link, e))
  {
    var s := link.Sender();
    HistoryStep(link, e);
    Peer.StepMoves(s, e);
    if DropsMessage(s, e) {
      PacketsConcat(link.cable.to, [s.phase.msg], Peer.Owed(Peer.Step(s, e)));
    }
  }

  lemma UnreadAfterWrite(s: Peer.PeerState, e: Peer.Event, read: seq<nat>)
    requires Peer.Enabled(s, e) && (e.WriteOk? || e.WriteFail?) && s.phase.conn == |s.streams| - 1
    requires |read| == |s.streams| && read[s.phase.conn] <= |s.streams[s.phase.conn].frames|
    ensures |Peer.Step(s, e).streams| == |read|
    ensures Unread(Peer.Step(s, e).streams, read) ==
            Unread(s.streams, read) + if CompletesFrame(s, e) then [s.phase.msg] else []
  {
    Peer.WriteStep(s, e);
    UnreadGrows(s.streams, read, s.phase.msg, if e.WriteOk? then |Wire(s.phase.msg)| else e.sent);
    assert Unread(s.streams, read) + [] == Unread(s.streams, read);
  }

  lemma UnreadOtherwise(link: Link, e: Peer.Event)
    requires LinkOk(link) && Peer.Enabled(link.Sender(), e) && !e.WriteOk? && !e.WriteFail?
    ensures OnTheWire()(AfterEvent(link, e)) == OnTheWire()(link)
  {
    HistoryStep(link, e);
    if e.Connect? {
      UnreadOpens(link.Sender().streams, link.read);
    }
  }

  /** Every step of a sender leaves what its receiver has not read alone, or adds a message at the end. */
  lemma UnreadMoves(link: Link, e: Peer.Event)
    requires LinkOk(link) && Peer.Enabled(link.Sender(), e) && !e.Send?
    ensures var s, to := link.Sender(), link.cable.to;
            OnTheWire()(AfterEvent(link, e)) ==
            OnTheWire()(link) + if CompletesFrame(s, e) then [Packet(to, s.phase.msg)] else []
  {
    if e.WriteOk? || e.WriteFail? {
      var more := if CompletesFrame(link.Sender(), e) then [link.Sender().phase.msg] else [];
      Peer.DuplicatesAreConsecutive(link.history);
      HistoryStep(link, e);
      UnreadAfterWrite(link.Sender(), e, link.read);
      PacketsConcat(link.cable.to, Unread(link.Sender().streams, link.read), more);
      assert OnTheWire()(AfterEvent(link, e)) == OnTheWire()(link) + PacketsOf(link.cable.to, more);
    } else {
      UnreadOtherwise(link, e);
      assert OnTheWire()(link) + [] == OnTheWire()(link);
    }
  }

  // ----- what every run keeps -----

  ghost predicate Wired(u: Setup, s: State)
  {
    && |s.nodes| == |u.configs| && |s.links| == |u.cables|
    && forall i :: 0 <= i < |s.links| ==> s.links[i].cable == u.cables[i] && LinkOk(s.links[i])
  }

  lemma LinkOkAfter(link: Link, e: Peer.Event)
    requires LinkOk(link) && (e.Send? ==> KnownType(e.msg.typ))
    requires Peer.Enabled(link.Sender(), e)
    ensures LinkOk(AfterEvent(link, e))
  {
    HistoryStep(link, e);
  }

  /** A node announces texts, images and file offers only. */
  lemma AnnouncedType(cfg: Config, s: NodeState, i: Input)
    requires i.Watch? ==> i.typ == TYPE_TEXT || i.typ == TYPE_IMAGE
    ensures var s' := NodeStep(cfg, s, i);
            |s'.sent| > |s.sent| ==> KnownType(s'.sent[|s'.sent| - 1].typ)
  {
  }

  ghost predicate AnnouncesKnown(l: Ledger, l': Ledger)
  {
    |l'.node.sent| > |l.node.sent| ==> KnownType(l'.node.sent[|l'.node.sent| - 1].typ)
  }

  lemma AnnouncedByAct(cfg: Config, l: Ledger, act: Act)
    requires CanAct(cfg, l, act) && !act.Arrive? && Reportable(act)
    ensures AnnouncesKnown(l, ActStep(cfg, l, act))
  {
    ActNode(cfg, l, act);
    if act.Notify? || act.CopyFiles? {
      AnnouncedByNode(cfg, l, ActStep(cfg, l, act), act.input);
    }
  }

  lemma AnnouncedByNode(cfg: Config, l: Ledger, l': Ledger, i: Input)
    requires l'.node == NodeStep(cfg, l.node, i) && (i.Watch? ==> i.typ == TYPE_TEXT || i.typ == TYPE_IMAGE)
    ensures AnnouncesKnown(l, l')
  {
    AnnouncedType(cfg, l.node, i);
  }

  lemma ActNode(cfg: Config, l: Ledger, act: Act)
    requires CanAct(cfg, l, act) && !act.Arrive?
    ensures ActStep(cfg, l, act).node ==
            if act.Notify? || act.CopyFiles? then NodeStep(cfg, l.node, act.input) else l.node
  {
  }

  lemma SendOk(link: Link, n: nat, msg: Message)
    requires LinkOk(link) && KnownType(msg.typ)
    ensures LinkOk(SendTo(link, n, msg))
  {
    if link.cable.from == n {
      HistoryStep(link, Peer.Send(msg));
      LinkOkAfter(link, Peer.Send(msg));
    }
  }

  /** What a receiver decodes from the bytes that arrived is the next frame of the connection. */
  lemma NextFrame(link: Link, c: nat, arrived: seq<byte>)
    requires LinkOk(link) && c < |link.read|
    requires arrived <= link.Sender().streams[c].Bytes() && link.read[c] < |DecodeAll(arrived).messages|
    ensures link.read[c] < |link.Sender().streams[c].frames|
    ensures DecodeAll(arrived).messages[link.read[c]]
         == link.Sender().streams[c].frames[link.read[c]].(version := PROTOCOL_VERSION)
  {
    var k := Peer.ReceiverSees(link.history, c, arrived);
  }

  lemma BroadcastStaysOk(links: seq<Link>, n: nat, msg: Message)
    requires KnownType(msg.typ) && forall i :: 0 <= i < |links| ==> LinkOk(links[i])
    ensures forall i :: 0 <= i < |links| ==>
              LinkOk(SendToAll(links, n, msg)[i]) && SendToAll(links, n, msg)[i].cable == links[i].cable
  {
    forall i | 0 <= i < |links|
      ensures LinkOk(SendTo(links[i], n, msg))
    {
      SendOk(links[i], n, msg);
    }
  }

  lemma AnnouncementStaysWired(u: Setup, s: State, n: nat, l: Ledger)
    requires Wired(u, s) && n < |s.nodes| && AnnouncesKnown(s.nodes[n], l)
    ensures Wired(u, AfterAct(s, n, l))
  {
    if |l.node.sent| > |s.nodes[n].node.sent| {
      BroadcastStaysOk(s.links, n, l.node.sent[|l.node.sent| - 1]);
    }
  }

  lemma ReceiptStaysWired(u: Setup, s: State, l: nat, c: nat, receiver: Ledger)
    requires Wired(u, s) && l < |s.links| && s.links[l].cable.to < |s.nodes|
    requires c < |s.links[l].read| && s.links[l].read[c] < |s.links[l].Sender().streams[c].frames|
    ensures Wired(u, AfterReceipt(s, l, c, receiver))
  {
    assert LinkOk(AfterRead(s.links[l], c));
  }

  lemma SendsStayWired(u: Setup, s: State, l: nat, e: Peer.Event)
    requires Wired(u, s) && Possible(u, s, Sends(l, e))
    ensures Wired(u, Step(u, s, Sends(l, e)))
  {
    LinkOkAfter(s.links[l], e);
  }

  lemma ReceivesStayWired(u: Setup, s: State, l: nat, c: nat, arrived: seq<byte>, input: Input)
    requires Wired(u, s) && Possible(u, s, Receives(l, c, arrived, input))
    ensures Wired(u, Step(u, s, Receives(l, c, arrived, input)))
  {
    var to := s.links[l].cable.to;
    NextFrame(s.links[l], c, arrived);
    ReceiptStaysWired(u, s, l, c, ActStep(u.configs[to], s.nodes[to], Arrive(input)));
  }

  lemma StepStaysWired(u: Setup, s: State, e: Event)
    requires Wired(u, s) && Possible(u, s, e)
    ensures Wired(u, Step(u, s, e))
  {
    match e
    case Acts(n, act) =>
      AnnouncedByAct(u.configs[n], s.nodes[n], act);
      AnnouncementStaysWired(u, s, n, ActStep(u.configs[n], s.nodes[n], act));
    case Sends(l, event) => SendsStayWired(u, s, l, event);
    case Receives(l, c, arrived, input) => ReceivesStayWired(u, s, l, c, arrived, input);
  }

  lemma {:induction false} AlwaysWired(u: Setup, events: seq<Event>)
    ensures Wired(u, Run(u, events))
  {
    if events != [] {
      var s, e := Run(u, events[..|events| - 1]), events[|events| - 1];
      AlwaysWired(u, events[..|events| - 1]);
      if Possible(u, s, e) {
        StepStaysWired(u, s, e);
      }
    }
  }

  // ----- every step is steps of the network -----

  lemma OneAct(t: Topology, acts: seq<NetAct>, a: NetAct)
    requires |t.configs| == |t.peers| && CanStep(t, RunNet(t, acts), a)
    ensures RunNet(t, acts + [a]) == NetStep(t, RunNet(t, acts), a)
    ensures Propagations(t, acts + [a]) == Propagations(t, acts) + if Propagates(a) then 1 else 0
    ensures Failures(t, acts + [a]) == Failures(t, acts) + if a.WriteFails? then 1 else 0
  {
    assert (acts + [a])[..|acts|] == acts;
  }

  /** The steps `acts'` lead from the network seen in s to that seen in s', and do at least as much. */
  ghost predicate Leads(t: Topology, acts: seq<NetAct>, acts': seq<NetAct>, net': Net, work: nat, failures: nat)
    requires |t.configs| == |t.peers|
  {
    && RunNet(t, acts') == net'
    && Propagations(t, acts') >= Propagations(t, acts) + work
    && Failures(t, acts') == Failures(t, acts) + failures
  }

  /** One more step, stated by what it leads to. */
  lemma QueueStep(t: Topology, acts: seq<NetAct>, a: NetAct, p: Packet)
    requires |t.configs| == |t.peers| && p in RunNet(t, acts).queued
    requires a == Transmit(p) || a == Discard(p) || (a.WriteFails? && a.packet == p)
    ensures var net := RunNet(t, acts);
            && (a.Transmit? ==>
                  Leads(t, acts, acts + [a],
                        net.(queued := net.queued - multiset{p}, wire := net.wire + multiset{p}), 1, 0))
            && (a.Discard? ==> Leads(t, acts, acts + [a], net.(queued := net.queued - multiset{p}), 1, 0))
            && (a.WriteFails? ==>
                  Leads(t, acts, acts + [a], if a.whole then net.(wire := net.wire + multiset{p}) else net, 0, 1))
  {
    OneAct(t, acts, a);
  }

  lemma SendsIsAct(u: Setup, s: State, l: nat, e: Peer.Event, acts: seq<NetAct>) returns (acts': seq<NetAct>)
    requires Wired(u, s) && Possible(u, s, Sends(l, e)) && RunNet(TopologyOf(u), acts) == Seen(s)
    ensures Leads(TopologyOf(u), acts, acts', Seen(Step(u, s, Sends(l, e))),
                  if Works(s, Sends(l, e)) then 1 else 0, if e.WriteFail? then 1 else 0)
  {
    acts' := LinkIsAct(TopologyOf(u), s, l, e, acts);
  }

  /** What a step of one sender does to the queues of the network, and to its wire. */
  lemma QueuesMove(links: seq<Link>, l: nat, e: Peer.Event)
    requires l < |links| && Peer.Enabled(links[l].Sender(), e) && !e.Send?
    ensures var queued, queued' := QueuedIn(links), QueuedIn(links[l := AfterEvent(links[l], e)]);
            if DropsMessage(links[l].Sender(), e)
            then PacketAt(links[l]) in queued && queued' == queued - multiset{PacketAt(links[l])}
            else queued' == queued
  {
    var link' := AfterEvent(links[l], e);
    OwedMoves(links[l], e);
    if DropsMessage(links[l].Sender(), e) {
      LinkLoses(Queued(), links, l, link', PacketAt(links[l]));
    } else {
      LinkStays(Queued(), links, l, link');
    }
  }

  lemma WireMoves(links: seq<Link>, l: nat, e: Peer.Event)
    requires l < |links| && LinkOk(links[l]) && Peer.Enabled(links[l].Sender(), e) && !e.Send?
    ensures WireIn(links[l := AfterEvent(links[l], e)]) ==
            WireIn(links) + if CompletesFrame(links[l].Sender(), e) then multiset{PacketAt(links[l])} else multiset{}
  {
    var link' := AfterEvent(links[l], e);
    UnreadMoves(links[l], e);
    if CompletesFrame(links[l].Sender(), e) {
      LinkGains(OnTheWire(), links, l, link', PacketAt(links[l]));
    } else {
      LinkStays(OnTheWire(), links, l, link');
    }
  }

  /** A step of one sender is a Transmit, a WriteFails or a Discard, or nothing. */
  lemma LinkIsAct(t: Topology, s: State, l: nat, e: Peer.Event, acts: seq<NetAct>) returns (acts': seq<NetAct>)
    requires |t.configs| == |t.peers| && RunNet(t, acts) == Seen(s) && l < |s.links|
    requires LinkOk(s.links[l]) && Peer.Enabled(s.links[l].Sender(), e) && !e.Send?
    ensures Leads(t, acts, acts', Seen(s.(links := s.links[l := AfterEvent(s.links[l], e)])),
                  if DropsMessage(s.links[l].Sender(), e) then 1 else 0, if e.WriteFail? then 1 else 0)
  {
    var sender := s.links[l].Sender();
    QueuesMove(s.links, l, e);
    WireMoves(s.links, l, e);
    acts' := acts;
    if e.WriteFail? {
      StillQueued(s.links, l);
      var p, whole := PacketAt(s.links[l]), CompletesFrame(sender, e);
      QueueStep(t, acts, WriteFails(p, whole), p);
      acts' := acts + [WriteFails(p, whole)];
    } else if DropsMessage(sender, e) {
      var p := PacketAt(s.links[l]);
      var a := if e.WriteOk? then Transmit(p) else Discard(p);
      QueueStep(t, acts, a, p);
      acts' := acts + [a];
    }
  }

  /** The message at hand is still owed. */
  lemma StillQueued(links: seq<Link>, l: nat)
    requires l < |links| && links[l].Sender().phase.Writing?
    ensures PacketAt(links[l]) in QueuedIn(links)
  {
    var a, b := GatherUpdate(Queued(), links, l, links[l]);
    assert Queued()(links[l])[0] == PacketAt(links[l]);
    assert Gather(Queued(), links)[|a|] == PacketAt(links[l]);
  }

  /** Decoding the next message of connection c takes its packet off the wire. */
  lemma ReadTakes(link: Link, c: nat)
    requires LinkOk(link) && c < |link.read| && link.read[c] < |link.Sender().streams[c].frames|
    ensures var link' := AfterRead(link, c);
            var p := Packet(link.cable.to, link.Sender().streams[c].frames[link.read[c]]);
            multiset(OnTheWire()(link)) == multiset(OnTheWire()(link')) + multiset{p}
  {
    UnreadTakes(link.cable.to, link.Sender().streams, link.read, c);
  }

  lemma UnreadTakes(to: nat, streams: seq<Peer.Stream>, read: seq<nat>, c: nat)
    requires |read| == |streams| && c < |streams| && read[c] < |streams[c].frames|
    ensures multiset(PacketsOf(to, Unread(streams, read))) ==
            multiset(PacketsOf(to, Unread(streams, read[c := read[c] + 1])))
            + multiset{Packet(to, streams[c].frames[read[c]])}
  {
    var x, y := UnreadNext(streams, read, c);
    PacketsWithout(to, x, streams[c].frames[read[c]], y);
  }

  lemma PacketsWithout(to: nat, x: seq<Message>, m: Message, y: seq<Message>)
    ensures multiset(PacketsOf(to, x + [m] + y)) == multiset(PacketsOf(to, x + y)) + multiset{Packet(to, m)}
  {
    PacketsConcat(to, x, [m]);
    PacketsConcat(to, x + [m], y);
    PacketsConcat(to, x, y);
    assert PacketsOf(to, [m]) == [Packet(to, m)];
  }

  lemma ReceivesIsAct(u: Setup, s: State, l: nat, c: nat, arrived: seq<byte>, input: Input, acts: seq<NetAct>)
    returns (acts': seq<NetAct>)
    requires Wired(u, s) && Possible(u, s, Receives(l, c, arrived, input)) && RunNet(TopologyOf(u), acts) == Seen(s)
    ensures Leads(TopologyOf(u), acts, acts', Seen(Step(u, s, Receives(l, c, arrived, input))), 1, 0)
  {
    NextFrame(s.links[l], c, arrived);
    var p := Packet(s.links[l].cable.to, s.links[l].Sender().streams[c].frames[s.links[l].read[c]]);
    ReadIsDelivery(s, l, c, p, ActStep(u.configs[p.to], s.nodes[p.to], Arrive(input)));
    OneAct(TopologyOf(u), acts, Deliver(p, input));
    acts' := acts + [Deliver(p, input)];
  }

  lemma ReadIsDelivery(s: State, l: nat, c: nat, p: Packet, after: Ledger)
    requires l < |s.links| && LinkOk(s.links[l]) && c < |s.links[l].read| && p.to < |s.nodes|
    requires s.links[l].read[c] < |s.links[l].Sender().streams[c].frames|
    requires p == Packet(s.links[l].cable.to, s.links[l].Sender().streams[c].frames[s.links[l].read[c]])
    ensures p in Seen(s).wire
    ensures AfterDelivery(Seen(s), p, after) ==
            Seen(AfterReceipt(s, l, c, after))
  {
    var link := s.links[l];
    ReadTakes(link, c);
    LinkLoses(OnTheWire(), s.links, l, AfterRead(link, c), p);
    LinkStays(Queued(), s.links, l, AfterRead(link, c));
  }

  /** The copy of a message that finds the send buffer full. */
  function RefusedBy(n: nat, msg: Message): Link -> seq<Packet>
  {
    (link: Link) =>
      if link.cable.from == n && |link.Sender().queue| >= Peer.SEND_CAPACITY then [Packet(link.cable.to, msg)] else []
  }

  /** What is queued once a message was sent, and what it adds when there is room. */
  function QueuedWith(n: nat, msg: Message): Link -> seq<Packet>
  {
    (link: Link) => Queued()(SendTo(link, n, msg))
  }

  function Copy(n: nat, msg: Message): Link -> seq<Packet>
  {
    (link: Link) => CopyOn(link.cable, n, msg)
  }

  function CablesOf(links: seq<Link>): (r: seq<Cable>)
    ensures |r| == |links| && forall i :: 0 <= i < |links| ==> r[i] == links[i].cable
  {
    seq(|links|, i requires 0 <= i < |links| => links[i].cable)
  }

  lemma SendQueues(link: Link, n: nat, msg: Message)
    ensures var sent := link.cable.from == n && |link.Sender().queue| < Peer.SEND_CAPACITY;
            Queued()(SendTo(link, n, msg)) == Queued()(link) + if sent then [Packet(link.cable.to, msg)] else []
    ensures OnTheWire()(SendTo(link, n, msg)) == OnTheWire()(link)
  {
    if link.cable.from == n {
      HistoryStep(link, Peer.Send(msg));
      Peer.StepMoves(link.Sender(), Peer.Send(msg));
      PacketsConcat(link.cable.to, Peer.Owed(link.Sender()), [msg]);
    }
  }

  lemma {:induction false} GatherSum(a: Link -> seq<Packet>, b: Link -> seq<Packet>, c: Link -> seq<Packet>,
                                     d: Link -> seq<Packet>, links: seq<Link>)
    requires forall i :: 0 <= i < |links| ==>
               multiset(a(links[i])) + multiset(b(links[i])) == multiset(c(links[i])) + multiset(d(links[i]))
    ensures multiset(Gather(a, links)) + multiset(Gather(b, links)) ==
            multiset(Gather(c, links)) + multiset(Gather(d, links))
  {
    if links != [] {
      var before, link := links[..|links| - 1], links[|links| - 1];
      GatherSum(a, b, c, d, before);
      AddUp(multiset(Gather(a, before)), multiset(Gather(b, before)),
            multiset(Gather(c, before)), multiset(Gather(d, before)),
            multiset(a(link)), multiset(b(link)), multiset(c(link)), multiset(d(link)));
    }
  }

  lemma AddUp(a: multiset<Packet>, b: multiset<Packet>, c: multiset<Packet>, d: multiset<Packet>,
              a': multiset<Packet>, b': multiset<Packet>, c': multiset<Packet>, d': multiset<Packet>)
    requires a + b == c + d && a' + b' == c' + d'
    ensures (a + a') + (b + b') == (c + c') + (d + d')
  {
    assert (a + a') + (b + b') == (a + b) + (a' + b');
    assert (c + c') + (d + d') == (c + d) + (c' + d');
  }

  lemma {:induction false} GatherSent(links: seq<Link>, n: nat, msg: Message)
    ensures Gather(Queued(), SendToAll(links, n, msg)) == Gather(QueuedWith(n, msg), links)
  {
    if links != [] {
      GatherSent(links[..|links| - 1], n, msg);
      assert SendToAll(links, n, msg)[..|links| - 1] == SendToAll(links[..|links| - 1], n, msg);
    }
  }

  function CopyOn(cable: Cable, n: nat, msg: Message): seq<Packet>
  {
    if cable.from == n then [Packet(cable.to, msg)] else []
  }

  /** What one more cable adds to a fan-out. */
  lemma FanoutCable(cables: seq<Cable>, cable: Cable, n: nat, msg: Message)
    ensures Fanout(Targets(cables + [cable], n), msg) ==
            Fanout(Targets(cables, n), msg) + multiset(CopyOn(cable, n, msg))
  {
    var targets, to := Targets(cables, n), cable.to;
    assert (cables + [cable])[..|cables|] == cables;
    assert (targets + [to])[..|targets|] == targets;
  }

  /** One copy for every cable of node n. */
  lemma {:induction false} GatherCopies(links: seq<Link>, n: nat, msg: Message)
    ensures multiset(Gather(Copy(n, msg), links)) == Fanout(Targets(CablesOf(links), n), msg)
  {
    if links != [] {
      var before, link := links[..|links| - 1], links[|links| - 1];
      GatherCopies(before, n, msg);
      assert CablesOf(links) == CablesOf(before) + [link.cable];
      FanoutCable(CablesOf(before), link.cable, n, msg);
      assert Gather(Copy(n, msg), links) == Gather(Copy(n, msg), before) + CopyOn(link.cable, n, msg);
    }
  }

  /** A broadcast queues one copy for every cable, less those refused. */
  lemma BroadcastQueues(links: seq<Link>, n: nat, msg: Message)
    ensures QueuedIn(SendToAll(links, n, msg)) + multiset(Gather(RefusedBy(n, msg), links))
         == QueuedIn(links) + Fanout(Targets(CablesOf(links), n), msg)
  {
    forall i | 0 <= i < |links|
      ensures multiset(QueuedWith(n, msg)(links[i])) + multiset(RefusedBy(n, msg)(links[i]))
           == multiset(Queued()(links[i])) + multiset(Copy(n, msg)(links[i]))
    {
      SendQueues(links[i], n, msg);
    }
    GatherSum(QueuedWith(n, msg), RefusedBy(n, msg), Queued(), Copy(n, msg), links);
    GatherSent(links, n, msg);
    GatherCopies(links, n, msg);
  }

  lemma {:induction false} DiscardAll(t: Topology, acts: seq<NetAct>, ps: seq<Packet>) returns (acts': seq<NetAct>)
    requires |t.configs| == |t.peers| && multiset(ps) <= RunNet(t, acts).queued
    ensures var net := RunNet(t, acts);
            Leads(t, acts, acts', net.(queued := net.queued - multiset(ps)), 0, 0)
  {
    if ps == [] {
      return acts;
    }
    var n := |ps| - 1;
    assert ps == ps[..n] + [ps[n]];
    acts' := DiscardAll(t, acts, ps[..n]);
    QueueStep(t, acts', Discard(ps[n]), ps[n]);
    acts' := acts' + [Discard(ps[n])];
  }

  lemma LocalIsActs(u: Setup, s: State, n: nat, act: Act, acts: seq<NetAct>) returns (acts': seq<NetAct>)
    requires Wired(u, s) && Possible(u, s, Acts(n, act)) && RunNet(TopologyOf(u), acts) == Seen(s)
    ensures Leads(TopologyOf(u), acts, acts', Seen(Step(u, s, Acts(n, act))),
                  if act.Notify? || act.Coalesce? then 1 else 0, 0)
  {
    OneAct(TopologyOf(u), acts, Local(n, act));
    var l := ActStep(u.configs[n], s.nodes[n], act);
    AnnouncementSeen(u, s, n, l);
    acts' := AnnouncementSpreads(TopologyOf(u), s, n, l, AfterLocal(TopologyOf(u), Seen(s), n, l),
                                 Seen(AfterAct(s, n, l)), acts + [Local(n, act)]);
  }

  /** What node n announced, and what the network sees of it before and after its senders refused copies. */
  lemma AnnouncementSeen(u: Setup, s: State, n: nat, l: Ledger)
    requires Wired(u, s) && n < |s.nodes|
    ensures var net, net' := AfterLocal(TopologyOf(u), Seen(s), n, l), Seen(AfterAct(s, n, l));
            && net.nodes == net'.nodes && net.wire == net'.wire
            && if |l.node.sent| > |s.nodes[n].node.sent| then
                 var msg := l.node.sent[|l.node.sent| - 1];
                 && net.queued == QueuedIn(s.links) + Fanout(Targets(CablesOf(s.links), n), msg)
                 && net'.queued == QueuedIn(SendToAll(s.links, n, msg))
               else net.queued == net'.queued
  {
    assert CablesOf(s.links) == u.cables;
    if |l.node.sent| > |s.nodes[n].node.sent| {
      SameWire(s.links, n, l.node.sent[|l.node.sent| - 1]);
    }
  }

  /** What node n announced reaches its senders as far as they have room. */
  lemma AnnouncementSpreads(t: Topology, s: State, n: nat, l: Ledger, net: Net, net': Net, acts: seq<NetAct>)
    returns (acts': seq<NetAct>)
    requires |t.configs| == |t.peers| && n < |s.nodes| && RunNet(t, acts) == net
    requires net.nodes == net'.nodes && net.wire == net'.wire
    requires if |l.node.sent| > |s.nodes[n].node.sent| then
               var msg := l.node.sent[|l.node.sent| - 1];
               && net.queued == QueuedIn(s.links) + Fanout(Targets(CablesOf(s.links), n), msg)
               && net'.queued == QueuedIn(SendToAll(s.links, n, msg))
             else net.queued == net'.queued
    ensures Leads(t, acts, acts', net', 0, 0)
  {
    acts' := acts;
    if |l.node.sent| > |s.nodes[n].node.sent| {
      acts' := RefusedAreDiscarded(t, acts, net, s.links, n, l.node.sent[|l.node.sent| - 1]);
    }
  }

  /** After a broadcast, the copies refused are discarded. */
  lemma RefusedAreDiscarded(t: Topology, acts: seq<NetAct>, net: Net, links: seq<Link>, n: nat, msg: Message)
    returns (acts': seq<NetAct>)
    requires |t.configs| == |t.peers| && RunNet(t, acts) == net
    requires net.queued == QueuedIn(links) + Fanout(Targets(CablesOf(links), n), msg)
    ensures Leads(t, acts, acts', net.(queued := QueuedIn(SendToAll(links, n, msg))), 0, 0)
  {
    var sent, refused := QueuedIn(SendToAll(links, n, msg)), Gather(RefusedBy(n, msg), links);
    BroadcastQueues(links, n, msg);
    acts' := DiscardAll(t, acts, refused);
    assert sent + multiset(refused) - multiset(refused) == sent;
  }

  lemma SameWire(links: seq<Link>, n: nat, msg: Message)
    ensures Gather(OnTheWire(), SendToAll(links, n, msg)) == Gather(OnTheWire(), links)
  {
    forall i | 0 <= i < |links|
      ensures OnTheWire()(links[i]) == OnTheWire()(SendToAll(links, n, msg)[i])
    {
      SendQueues(links[i], n, msg);
    }
    GatherSame(OnTheWire(), links, SendToAll(links, n, msg));
  }

  lemma {:induction false} NothingYet(f: Link -> seq<Packet>, links: seq<Link>)
    requires forall i :: 0 <= i < |links| ==> f(links[i]) == []
    ensures Gather(f, links) == []
  {
    if links != [] {
      NothingYet(f, links[..|links| - 1]);
    }
  }

  lemma StartIsStart(u: Setup)
    ensures Seen(Start(u)) == Network.Start(TopologyOf(u))
  {
    NothingYet(Queued(), Start(u).links);
    NothingYet(OnTheWire(), Start(u).links);
  }

  lemma StepIsActs(u: Setup, s: State, e: Event, acts: seq<NetAct>) returns (acts': seq<NetAct>)
    requires Wired(u, s) && Possible(u, s, e) && RunNet(TopologyOf(u), acts) == Seen(s)
    ensures Leads(TopologyOf(u), acts, acts', Seen(Step(u, s, e)),
                  if Works(s, e) then 1 else 0, if FailsToWrite(e) then 1 else 0)
  {
    match e
    case Acts(n, act) => acts' := LocalIsActs(u, s, n, act, acts);
    case Sends(l, event) => acts' := SendsIsAct(u, s, l, event, acts);
    case Receives(l, c, arrived, input) => acts' := ReceivesIsAct(u, s, l, c, arrived, input, acts);
  }

  /** Refinement: every run of nodes, senders and byte streams is a run of the network that does at least as much. */
  lemma {:induction false} IsNetwork(u: Setup, events: seq<Event>) returns (acts: seq<NetAct>)
    ensures RunNet(TopologyOf(u), acts) == Seen(Run(u, events))
    ensures Propagations(TopologyOf(u), acts) >= Work(u, events)
    ensures Failures(TopologyOf(u), acts) == FailedWrites(u, events)
  {
    acts := [];
    if events == [] {
      StartIsStart(u);
    } else {
      var s, e := Run(u, events[..|events| - 1]), events[|events| - 1];
      acts := IsNetwork(u, events[..|events| - 1]);
      AlwaysWired(u, events[..|events| - 1]);
      if Possible(u, s, e) {
        acts := StepIsActs(u, s, e, acts);
      }
    }
  }

  /** No node of the whole system announces a content more often than it was copied there or its markers were lost. */
  lemma NeverAmplifies(u: Setup, events: seq<Event>, n: nat)
    requires n < |Run(u, events).nodes|
    ensures var l := Run(u, events).nodes[n];
            l.sent <= l.copies + l.lost
  {
    var acts := IsNetwork(u, events);
    AllBalanced(TopologyOf(u), acts);
    BalanceBoundsSends(Seen(Run(u, events)).nodes[n]);
  }

  /**
    The whole system falls silent: writes, decoded messages and reported notifications are bounded
    by what users copied, markers lost and writes failed, for any cables and any interleaving.
    */
  lemma FallsSilent(u: Setup, events: seq<Event>, price: nat)
    requires Proper(TopologyOf(u), price)
    ensures var nodes := Run(u, events).nodes;
            var copies, losses := Sum(Copies(), nodes), Sum(Losses(), nodes);
            Work(u, events) <= price * copies + copies + price * losses + 2 * FailedWrites(u, events)
  {
    var acts := IsNetwork(u, events);
    PropagationTerminates(TopologyOf(u), acts, price);
  }

  // ----- the system does not fall silent early -----

  /** What a sender that owes something can do next. */
  function NextMove(s: Peer.PeerState): Peer.Event
    requires !s.phase.Stopped?
  {
    match s.phase
    case Dialing(_) => Peer.Connect
    case Ready(_) => Peer.Take
    case InHand(_) => Peer.Prepare
    case Writing(_, _) => Peer.WriteOk
    case Returned(_) => Peer.Reset
  }

  /** How many moves it takes at most until a message is written or refused, but for one. */
  function Distance(s: Peer.PeerState): nat
  {
    match s.phase
    case Writing(_, _) => 0
    case InHand(m) => if Encodable(m) && s.conn.None? then 5 else 1
    case Ready(_) => if s.conn.None? then 6 else 2
    case Dialing(_) => 3
    case Returned(_) => 4
    case Stopped(_) => 0
  }

  lemma MoveHelps(s: Peer.PeerState)
    requires Peer.CleanStreams(s) && !s.phase.Stopped? && Peer.Owed(s) != []
    ensures var e := NextMove(s);
            && Peer.Enabled(s, e) && !e.Send?
            && (!DropsMessage(s, e) ==>
                  var s' := Peer.Step(s, e);
                  !s'.phase.Stopped? && Peer.Owed(s') != [] && Distance(s') < Distance(s))
  {
    Peer.StepMoves(s, NextMove(s));
  }

  /** Steps that neither the user nor a failure causes. */
  predicate GoesOn(e: Event)
  {
    match e
    case Acts(_, act) => act.Coalesce?
    case Sends(_, event) => event.Connect? || event.Take? || event.Prepare? || event.WriteOk? || event.Reset?
    case Receives(_, _, _, _) => true
  }

  lemma OneEvent(u: Setup, events: seq<Event>, e: Event)
    requires Possible(u, Run(u, events), e)
    ensures Run(u, events + [e]) == Step(u, Run(u, events), e)
    ensures Work(u, events + [e]) == Work(u, events) + if Works(Run(u, events), e) then 1 else 0
  {
    assert (events + [e])[..|events|] == events;
  }

  /** What one sender owes can be written or refused. */
  lemma {:induction false} SenderGoesOn(u: Setup, events: seq<Event>, l: nat) returns (more: seq<Event>)
    requires l < |Run(u, events).links|
    requires var s := Run(u, events).links[l].Sender(); !s.phase.Stopped? && Peer.Owed(s) != []
    ensures Work(u, events + more) > Work(u, events) && forall e :: e in more ==> GoesOn(e)
    ensures |more| <= Distance(Run(u, events).links[l].Sender()) + 1
    decreases Distance(Run(u, events).links[l].Sender())
  {
    var link := Run(u, events).links[l];
    var e := Sends(l, NextMove(link.Sender()));
    Peer.DuplicatesAreConsecutive(link.history);
    MoveHelps(link.Sender());
    OneEvent(u, events, e);
    more := [e];
    if !DropsMessage(link.Sender(), e.event) {
      HistoryStep(link, e.event);
      var rest := SenderGoesOn(u, events + [e], l);
      Associate(events, [e], rest);
      more := [e] + rest;
    }
  }

  /** The next message of a connection can be decoded. */
  lemma ReceiverGoesOn(u: Setup, events: seq<Event>, l: nat, c: nat) returns (e: Event)
    requires l < |Run(u, events).links| && Run(u, events).links[l].cable.to < |u.configs|
    requires c < |Run(u, events).links[l].read|
    requires var link := Run(u, events).links[l];
             c < |link.Sender().streams| && link.read[c] < |link.Sender().streams[c].frames|
    ensures Work(u, events + [e]) > Work(u, events) && GoesOn(e)
  {
    AlwaysWired(u, events);
    var link := Run(u, events).links[l];
    var arrived := link.Sender().streams[c].Bytes();
    var k := Peer.ReceiverSees(link.history, c, arrived);
    e := Receives(l, c, arrived, Receive(DecodeAll(arrived).messages[link.read[c]], true, [], None, 0));
    OneEvent(u, events, e);
  }

  /** A notification that is due can be coalesced with another. */
  lemma ReportGoesOn(u: Setup, events: seq<Event>, n: nat) returns (e: Event)
    requires n < |Run(u, events).nodes| && n < |u.configs|
    requires var l := Run(u, events).nodes[n]; l.userPending != multiset{} || l.echoPending != multiset{}
    ensures Work(u, events + [e]) > Work(u, events) && GoesOn(e)
  {
    var l := Run(u, events).nodes[n];
    if l.userPending != multiset{} {
      var k :| k in l.userPending;
      e := Acts(n, Coalesce(k, FromUser));
    } else {
      var k :| k in l.echoPending;
      e := Acts(n, Coalesce(k, FromWrite));
    }
    OneEvent(u, events, e);
  }

  /** Something is owed by a sender that was not cancelled, or on the wire, or not reported. */
  ghost predicate Busy(s: State)
  {
    || (exists l :: 0 <= l < |s.links| && OwesSomething(s.links[l]))
    || (exists l, c :: 0 <= l < |s.links| && 0 <= c < |s.links[l].read| && HasUnread(s.links[l], c))
    || (exists n :: 0 <= n < |s.nodes|
                    && (s.nodes[n].userPending != multiset{} || s.nodes[n].echoPending != multiset{}))
  }

  predicate OwesSomething(link: Link)
  {
    !link.Sender().phase.Stopped? && Peer.Owed(link.Sender()) != []
  }

  predicate HasUnread(link: Link, c: nat)
    requires c < |link.read|
  {
    c < |link.Sender().streams| && link.read[c] < |link.Sender().streams[c].frames|
  }

  /** While the whole system is busy, a few steps do some work, without anyone copying and anything failing. */
  lemma BusyGoesOn(u: Setup, events: seq<Event>) returns (more: seq<Event>)
    requires forall i :: 0 <= i < |u.cables| ==> u.cables[i].to < |u.configs|
    requires Busy(Run(u, events))
    ensures Work(u, events + more) > Work(u, events) && |more| <= 7 && forall e :: e in more ==> GoesOn(e)
  {
    var s := Run(u, events);
    AlwaysWired(u, events);
    if l :| 0 <= l < |s.links| && OwesSomething(s.links[l]) {
      more := SenderGoesOn(u, events, l);
    } else if l, c :| 0 <= l < |s.links| && 0 <= c < |s.links[l].read| && HasUnread(s.links[l], c) {
      var e := ReceiverGoesOn(u, events, l, c);
      more := [e];
    } else {
      var n :| 0 <= n < |s.nodes| && (s.nodes[n].userPending != multiset{} || s.nodes[n].echoPending != multiset{});
      var e := ReportGoesOn(u, events, n);
      more := [e];
    }
  }
}
