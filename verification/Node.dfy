/**
  node.go: the event loop of one node. Each branch of the select in Run is one method of
  the class and one case of NodeStep; the lemmas below are about arbitrary runs of it.
  */
module Node {
  import opened Wrappers
  import opened Bytes
  import opened Loop
  import opened Protocol
  import opened FileSource
  import Mailbox
  import Peer

  /** What does not change while a node runs; xxhash is any function of the bytes. */
  datatype Config = Config(source: seq<byte>, filesEnabled: bool, hash: seq<byte> -> uint64)

  datatype NodeState = NodeState(
    recorded: seq<EventID>,   // every ID added to the ring
    echoes: seq<Echo>,
    lastEventTS: int64,
    provider: ProviderState,
    mailbox: Mailbox.MailboxState,
    sent: seq<Message>)       // every message handed to all peers

  const INITIAL := NodeState([], [], 0, CLEARED, Mailbox.EMPTY, [])

  datatype Selection = NothingCopied | CreateFailed | Created(offer: FileOffer, provider: ProviderState)

  /**
    One event of the loop, with what the clipboard, the clock and JSON answer while it is handled;
    or the paste handler collects an offer, which cannot come between the parts of an event
    (`Mailbox.AcceptingIsAtomic`).
    */
  datatype Input =
    | Watch(typ: byte, data: seq<byte>, containsFiles: bool, now: int, wall: int64)
    | Select(selection: Selection, payload: Option<seq<byte>>, wall: int64)
    | Receive(msg: Message, writeOk: bool, readback: seq<byte>, offer: Option<FileOffer>, now: int)
    | Collect

  // ----- local events -----

  /** Strictly later than the last event, unless that one had the largest possible timestamp. */
  function NextTimestamp(last: int64, wall: int64): int64
  {
    if wall <= last then ToInt64(last + 1) else wall
  }

  function NewMessage(cfg: Config, s: NodeState, typ: byte, data: seq<byte>, wall: int64): Message
  {
    Message(0, typ, cfg.hash(data), cfg.source, NextTimestamp(s.lastEventTS, wall), data)
  }

  function Announce(s: NodeState, msg: Message): NodeState
  {
    s.(recorded := s.recorded + [msg.EventID()], lastEventTS := msg.timestamp, sent := s.sent + [msg])
  }

  function WatchStep(cfg: Config, s: NodeState, typ: byte, data: seq<byte>, containsFiles: bool, now: int,
                     wall: int64): NodeState
  {
    if data == [] || (cfg.filesEnabled && containsFiles) then s
    else
      var t := TakeEcho(s.echoes, typ, cfg.hash(data), now);
      var s' := s.(echoes := t.kept);
      if t.matched.Some? then s'
      else Announce(s'.(provider := CLEARED), NewMessage(cfg, s, typ, data, wall))
  }

  function SelectStep(cfg: Config, s: NodeState, selection: Selection, payload: Option<seq<byte>>,
                      wall: int64): NodeState
  {
    if !selection.Created? || payload.None? || |payload.value| > MAX_PAYLOAD_SIZE then s.(provider := CLEARED)
    else Announce(s.(provider := selection.provider), NewMessage(cfg, s, TYPE_FILE_OFFER, payload.value, wall))
  }

  // ----- remote events -----

  /** The hash under which the notification of a remote write is expected. */
  function ExpectedHash(cfg: Config, msg: Message, readback: seq<byte>): uint64
  {
    if readback != [] then cfg.hash(readback) else msg.contentID
  }

  predicate TakesEffect(cfg: Config, s: NodeState, i: Input)
    requires i.Receive?
  {
    && i.msg.EventID() !in Recent(s.recorded)
    && ( || ((i.msg.typ == TYPE_TEXT || i.msg.typ == TYPE_IMAGE) && i.writeOk)
         || (i.msg.typ == TYPE_FILE_OFFER && cfg.filesEnabled && i.offer.Some?))
  }

  /** Whether the node writes its own clipboard: a text or image, not seen before, that can be written. */
  predicate Writes(s: NodeState, i: Input)
  {
    && i.Receive? && (i.msg.typ == TYPE_TEXT || i.msg.typ == TYPE_IMAGE) && i.writeOk
    && i.msg.EventID() !in Recent(s.recorded)
  }

  /** The clipboard was written: the event is recorded and its notification is expected. */
  function AfterWrite(cfg: Config, s: NodeState, msg: Message, readback: seq<byte>, now: int): NodeState
  {
    var marker := Echo(msg.typ, ExpectedHash(cfg, msg, readback), msg.EventID(), now + ECHO_TTL);
    s.(recorded := s.recorded + [msg.EventID()], provider := CLEARED, echoes := PutEcho(s.echoes, marker))
  }

  function AfterOffer(s: NodeState, msg: Message, offer: FileOffer): NodeState
  {
    s.(recorded := s.recorded + [msg.EventID()], mailbox := Mailbox.WholeStep(s.mailbox, Mailbox.Accept(offer)))
  }

  function ReceiveStep(cfg: Config, s: NodeState, i: Input): NodeState
    requires i.Receive?
  {
    if !TakesEffect(cfg, s, i) then s
    else if i.msg.typ == TYPE_FILE_OFFER then AfterOffer(s, i.msg, i.offer.value)
    else AfterWrite(cfg, s, i.msg, i.readback, i.now)
  }

  function NodeStep(cfg: Config, s: NodeState, i: Input): NodeState
  {
    match i
    case Watch(typ, data, containsFiles, now, wall) => WatchStep(cfg, s, typ, data, containsFiles, now, wall)
    case Select(selection, payload, wall) => SelectStep(cfg, s, selection, payload, wall)
    case Receive(_, _, _, _, _) => ReceiveStep(cfg, s, i)
    case Collect => s.(mailbox := Mailbox.WholeStep(s.mailbox, Mailbox.Collect))
  }

  function RunNode(cfg: Config, inputs: seq<Input>): NodeState
  {
    if inputs == [] then INITIAL else NodeStep(cfg, RunNode(cfg, inputs[..|inputs| - 1]), inputs[|inputs| - 1])
  }

  /** A run that continues from any state. */
  function NodeAfter(cfg: Config, s: NodeState, inputs: seq<Input>): NodeState
  {
    if inputs == [] then s else NodeStep(cfg, NodeAfter(cfg, s, inputs[..|inputs| - 1]), inputs[|inputs| - 1])
  }

  // ----- the node as it is implemented -----

  class Node {
    const cfg: Config
    const ring: RingBuffer
    const echoes: EchoBuffer
    const fileProvider: FileProvider
    const mailbox: Mailbox.Box
    const peers: seq<Peer.Peer>
    var lastEventTS: int64
    ghost var sent: seq<Message>

    ghost predicate Valid()
      reads this, ring, ring.buf, echoes, fileProvider, mailbox, peers
    {
      && ring.Valid() && echoes.Valid()
      && mailbox.phase.Idle? && |mailbox.slot| <= Mailbox.CAPACITY
      && (forall p :: p in peers ==> p.Valid())
      && (forall i, j :: 0 <= i < j < |peers| ==> peers[i] != peers[j])
    }

    ghost function State(): NodeState
      requires Valid()
      reads this, ring, ring.buf, echoes, echoes.buf, fileProvider, mailbox, peers
    {
      NodeState(ring.recorded, echoes.Entries(), lastEventTS, fileProvider.State(), mailbox.State(), sent)
    }

    constructor (cfg: Config, peers: seq<Peer.Peer>)
      requires forall p :: p in peers ==> p.Valid()
      requires forall i, j :: 0 <= i < j < |peers| ==> peers[i] != peers[j]
      ensures Valid() && State() == INITIAL && this.cfg == cfg && this.peers == peers
    {
      this.cfg, this.peers := cfg, peers;
      ring := new RingBuffer();
      echoes := new EchoBuffer();
      fileProvider := new FileProvider();
      mailbox := new Mailbox.Box();
      lastEventTS, sent := 0, [];
    }

    method MakeMessage(typ: byte, data: seq<byte>, wall: int64) returns (msg: Message)
      requires Valid()
      modifies this`lastEventTS
      ensures Valid()
      ensures msg == NewMessage(cfg, old(State()), typ, data, wall)
      ensures State() == old(State()).(lastEventTS := msg.timestamp)
    {
      var timestamp := wall;
      if timestamp <= lastEventTS {
        timestamp := ToInt64(lastEventTS + 1);
      }
      lastEventTS := timestamp;
      msg := Message(0, typ, cfg.hash(data), cfg.source, timestamp, data);
    }

    /** Record the event and hand it to every peer. */
    method Broadcast(msg: Message)
      requires Valid()
      modifies this`sent, ring, ring.buf, peers
      ensures Valid()
      ensures State() == old(State()).(recorded := old(ring.recorded) + [msg.EventID()], sent := old(sent) + [msg])
      ensures forall p :: p in peers ==> p.State() == Peer.Step(old(p.State()), Peer.Send(msg))
    {
      ring.Add(msg.EventID());
      for i := 0 to |peers|
        modifies peers
        invariant Valid()
        invariant forall j :: 0 <= j < i ==> peers[j].State() == Peer.Step(old(peers[j].State()), Peer.Send(msg))
        invariant forall j :: i <= j < |peers| ==> peers[j].State() == old(peers[j].State())
      {
        peers[i].Send(msg);
      }
      sent := sent + [msg];
    }

    /** The text and the image branch, which differ in the message type only. */
    method OnWatch(typ: byte, data: seq<byte>, containsFiles: bool, now: int, wall: int64)
      requires Valid()
      modifies this, ring, ring.buf, echoes, echoes.buf, fileProvider, peers
      ensures Valid() && (echoes.buf == old(echoes.buf) || fresh(echoes.buf))
      ensures State() == NodeStep(cfg, old(State()), Watch(typ, data, containsFiles, now, wall))
      ensures PeersFollow(old(sent))
    {
      if |data| == 0 {
        return;
      }
      if cfg.filesEnabled && containsFiles {
        return;
      }
      var id := cfg.hash(data);
      var event, ok := echoes.Consume(typ, id, now);
      if ok {
        return;
      }
      AnnounceCopy(typ, data, wall);
    }

    /** A user copied something: withdraw any file offer and tell the peers. */
    method AnnounceCopy(typ: byte, data: seq<byte>, wall: int64)
      requires Valid()
      modifies this, ring, ring.buf, fileProvider, peers
      ensures Valid() && sent == old(sent) + [NewMessage(cfg, old(State()), typ, data, wall)]
      ensures State() == Announce(old(State()).(provider := CLEARED), NewMessage(cfg, old(State()), typ, data, wall))
      ensures forall p :: p in peers ==> p.State() == Peer.Step(old(p.State()), Peer.Send(sent[|sent| - 1]))
    {
      var msg := MakeMessage(typ, data, wall);
      fileProvider.Clear();
      Broadcast(msg);
    }

    /** Every message sent since the node had sent `before` was handed to every peer. */
    twostate predicate PeersFollow(before: seq<Message>)
      reads this, peers
    {
      forall p :: p in peers ==>
        p.State() == if |sent| > |before| then Peer.Step(old(p.State()), Peer.Send(sent[|sent| - 1]))
                     else old(p.State())
    }

    /** The file branch; `marshal` is json.Marshal. */
    method OnFiles(sel: seq<Selected>, address: string, token: Option<string>, now: int,
                   marshal: FileOffer -> Option<seq<byte>>, wall: int64) returns (ghost i: Input)
      requires Valid()
      modifies this, ring, ring.buf, fileProvider, peers
      ensures Valid()
      ensures i.Select? && i.wall == wall && OfferMatches(i, marshal)
      ensures i.selection.Created? <==> CanOffer(sel) && token.Some?
      ensures State() == NodeStep(cfg, old(State()), i)
      ensures PeersFollow(old(sent))
    {
      if |sel| == 0 {
        fileProvider.Clear();
        return Select(NothingCopied, None, wall);
      }
      var r := fileProvider.Create(sel, address, token, now);
      if r.Err? {
        return Select(CreateFailed, None, wall);
      }
      var payload := marshal(r.value);
      i := Select(Created(r.value, fileProvider.State()), payload, wall);
      if payload.None? || |payload.value| > MAX_PAYLOAD_SIZE {
        fileProvider.Clear();
        return;
      }
      var msg := MakeMessage(TYPE_FILE_OFFER, payload.value, wall);
      Broadcast(msg);
    }

    /** The incoming branch. */
    method OnReceive(msg: Message, writeOk: bool, readback: seq<byte>, offer: Option<FileOffer>, now: int)
      requires Valid()
      modifies ring, ring.buf, echoes, echoes.buf, fileProvider, mailbox
      ensures Valid() && (echoes.buf == old(echoes.buf) || fresh(echoes.buf))
      ensures State() == NodeStep(cfg, old(State()), Receive(msg, writeOk, readback, offer, now))
    {
      ghost var s, i := State(), Receive(msg, writeOk, readback, offer, now);
      var duplicate := ring.Contains(msg.EventID());
      if duplicate {
        assert !TakesEffect(cfg, s, i);
        return;
      }
      if msg.typ == TYPE_TEXT || msg.typ == TYPE_IMAGE {
        if !writeOk {
          return;
        }
        ExpectEcho(msg, readback, now);
      } else if msg.typ == TYPE_FILE_OFFER {
        if !cfg.filesEnabled || offer.None? {
          return;
        }
        AcceptOffer(msg, offer.value);
      }
    }

    /** The clipboard was written: record the event and expect its notification. */
    method ExpectEcho(msg: Message, readback: seq<byte>, now: int)
      requires Valid()
      modifies ring, ring.buf, echoes, echoes.buf, fileProvider
      ensures Valid() && (echoes.buf == old(echoes.buf) || fresh(echoes.buf))
      ensures State() == AfterWrite(cfg, old(State()), msg, readback, now)
    {
      fileProvider.Clear();
      ring.Add(msg.EventID());
      assert Valid() && echoes.Entries() == old(echoes.Entries());
      var echoID := msg.contentID;
      if |readback| > 0 {
        echoID := cfg.hash(readback);
      }
      echoes.Add(msg.typ, echoID, msg.EventID(), now);
    }

    /** Record the event and put the offer into the mailbox, which has room after the drain. */
    method AcceptOffer(msg: Message, offer: FileOffer)
      requires Valid()
      modifies ring, ring.buf, mailbox
      ensures Valid()
      ensures State() == AfterOffer(old(State()), msg, offer)
    {
      ring.Add(msg.EventID());
      mailbox.Drain(offer);
      mailbox.Put();
    }
  }

  /** The payload is the marshalled offer, and the provider keeps the files of exactly that offer. */
  ghost predicate OfferMatches(i: Input, marshal: FileOffer -> Option<seq<byte>>)
    requires i.Select?
  {
    i.selection.Created? ==>
      && i.payload == marshal(i.selection.offer)
      && i.selection.offer.id == i.selection.provider.id
      && i.selection.offer.entries == EntriesOf(i.selection.provider.files)
  }

  // ----- what each branch does, in terms of the event alone -----

  /** A live marker for a notification. */
  ghost predicate ExpectsEcho(cfg: Config, s: NodeState, typ: byte, data: seq<byte>, now: int)
  {
    exists e :: e in s.echoes && e.typ == typ && e.contentID == cfg.hash(data) && now < e.expires
  }

  /** The timestamp of a new event: the clock, or one more than the last when the clock is not later. */
  ghost predicate Stamped(msg: Message, last: int64, wall: int64)
  {
    msg.timestamp == if wall > last then wall else if last < 0x7FFF_FFFF_FFFF_FFFF then last + 1
                     else -0x8000_0000_0000_0000
  }

  /** The node announced msg, and only recorded it besides. */
  ghost predicate Announces(cfg: Config, s: NodeState, s': NodeState, typ: byte, payload: seq<byte>, wall: int64)
  {
    && |s'.sent| == |s.sent| + 1 && s'.sent[..|s.sent|] == s.sent
    && var msg := s'.sent[|s.sent|];
       && msg.typ == typ && msg.contentID == cfg.hash(payload) && msg.source == cfg.source && msg.payload == payload
       && Stamped(msg, s.lastEventTS, wall) && s'.lastEventTS == msg.timestamp
       && s'.recorded == s.recorded + [EventID(msg.contentID, msg.source, msg.timestamp)]
       && s'.mailbox == s.mailbox
  }

  /**
    A text or image notification is ignored when it is empty or belongs to copied files, suppressed
    when a live marker of its type and hash is stored, and announced otherwise.
    */
  lemma WatchOutcome(cfg: Config, s: NodeState, typ: byte, data: seq<byte>, containsFiles: bool, now: int, wall: int64)
    ensures var s' := NodeStep(cfg, s, Watch(typ, data, containsFiles, now, wall));
            if |data| == 0 || (cfg.filesEnabled && containsFiles) then s' == s
            else if ExpectsEcho(cfg, s, typ, data, now) then s' == s.(echoes := s'.echoes)
            else Announces(cfg, s, s', typ, data, wall) && s'.provider == ProviderState("", 0, [])
  {
    TakeEchoMeans(s.echoes, typ, cfg.hash(data), now);
    assert ExpectsEcho(cfg, s, typ, data, now) <==> TakeEcho(s.echoes, typ, cfg.hash(data), now).matched.Some?;
  }

  /** A selection is announced when an offer of at most 10 MiB of metadata was made of it; else nothing is offered. */
  lemma SelectOutcome(cfg: Config, s: NodeState, selection: Selection, payload: Option<seq<byte>>, wall: int64)
    ensures var s' := NodeStep(cfg, s, Select(selection, payload, wall));
            if selection.Created? && payload.Some? && |payload.value| <= 10_485_760 then
              && Announces(cfg, s, s', 5, payload.value, wall)
              && s'.echoes == s.echoes && s'.provider == selection.provider
            else s' == s.(provider := ProviderState("", 0, []))
  {
  }

  /**
    A received event changes nothing when its ID is among the last 32 recorded, when the clipboard
    cannot be written, when a file offer is not wanted or not valid, and when it is of another type.
    A written event is recorded, withdraws offered files, and leaves a marker for what the clipboard
    now holds, for five seconds.
    */
  lemma ReceiveOutcome(cfg: Config, s: NodeState, i: Input)
    requires i.Receive?
    ensures var s' := NodeStep(cfg, s, i);
            var id := EventID(i.msg.contentID, i.msg.source, i.msg.timestamp);
            if (exists k :: 0 <= k < |s.recorded| && |s.recorded| - k <= 32 && s.recorded[k] == id) then s' == s
            else if i.msg.typ in {1, 2} then
              if !i.writeOk then s' == s
              else
                var marker := Echo(i.msg.typ, if |i.readback| > 0 then cfg.hash(i.readback) else i.msg.contentID, id,
                                   i.now + 5_000_000_000);
                var echoes := if |s.echoes| == 32 then s.echoes[1..] else s.echoes;
                s' == s.(recorded := s.recorded + [id], provider := ProviderState("", 0, []),
                         echoes := echoes + [marker])
            else if i.msg.typ == 5 && cfg.filesEnabled && i.offer.Some? then
              s' == s.(recorded := s.recorded + [id], mailbox := s'.mailbox)
              && (s.mailbox.phase.Idle? ==> s'.mailbox.accepted == s.mailbox.accepted + [i.offer.value])
            else s' == s
  {
    var id := i.msg.EventID();
    if k :| 0 <= k < |s.recorded| && |s.recorded| - k <= 32 && s.recorded[k] == id {
      RecentHolds(s.recorded, k);
    }
  }

  // ----- the node's own writes -----

  /** How many of the inputs may write the clipboard. */
  function RemoteWrites(inputs: seq<Input>): nat
  {
    if inputs == [] then 0
    else
      var i := inputs[|inputs| - 1];
      RemoteWrites(inputs[..|inputs| - 1]) + if i.Receive? && i.msg.typ in {1, 2} && i.writeOk then 1 else 0
  }

  /** No notification of this type and hash, and none after the deadline. */
  ghost predicate OthersOnly(cfg: Config, inputs: seq<Input>, typ: byte, hash: uint64, deadline: int)
  {
    forall k :: 0 <= k < |inputs| && inputs[k].Watch? ==>
      inputs[k].now < deadline && !(inputs[k].typ == typ && cfg.hash(inputs[k].data) == hash)
  }

  /** The marker for what the clipboard held after the write. */
  function WriteMarker(cfg: Config, i: Input): Echo
    requires i.Receive?
  {
    Echo(i.msg.typ, cfg.hash(i.readback), i.msg.EventID(), i.now + 5_000_000_000)
  }

  lemma WriteLeavesMarker(cfg: Config, s: NodeState, i: Input)
    requires Writes(s, i) && i.readback != []
    ensures StoredBefore(NodeStep(cfg, s, i).echoes, WriteMarker(cfg, i), 0)
  {
    PutStores(s.echoes, WriteMarker(cfg, i));
  }

  lemma MarkerStaysOnce(cfg: Config, s: NodeState, i: Input, m: Echo, later: nat)
    requires StoredBefore(s.echoes, m, later)
    requires i.Watch? ==> i.now < m.expires && !(i.typ == m.typ && cfg.hash(i.data) == m.contentID)
    requires later + RemoteWrites([i]) < 32
    ensures StoredBefore(NodeStep(cfg, s, i).echoes, m, later + RemoteWrites([i]))
  {
    assert [i][..0] == [];
    match i
    case Watch(typ, data, containsFiles, now, wall) => TakeKeeps(s.echoes, m, later, typ, cfg.hash(data), now);
    case Receive(msg, _, readback, _, now) =>
      if Writes(s, i) {
        PutKeeps(s.echoes, m, later, Echo(msg.typ, ExpectedHash(cfg, msg, readback), msg.EventID(), now + ECHO_TTL));
      } else {
        StoredLonger(s.echoes, m, later, later + RemoteWrites([i]));
      }
    case _ =>
  }

  lemma StoredLonger(s: seq<Echo>, m: Echo, later: nat, more: nat)
    requires StoredBefore(s, m, later) && later <= more
    ensures StoredBefore(s, m, more)
  {
  }

  lemma {:induction false} MarkerStays(cfg: Config, s: NodeState, inputs: seq<Input>, m: Echo)
    requires StoredBefore(s.echoes, m, 0) && RemoteWrites(inputs) < 32
    requires OthersOnly(cfg, inputs, m.typ, m.contentID, m.expires)
    ensures StoredBefore(NodeAfter(cfg, s, inputs).echoes, m, RemoteWrites(inputs))
  {
    if inputs != [] {
      var before, i := inputs[..|inputs| - 1], inputs[|inputs| - 1];
      MarkerStays(cfg, s, before, m);
      assert [i][..0] == [] && RemoteWrites(inputs) == RemoteWrites(before) + RemoteWrites([i]);
      MarkerStaysOnce(cfg, NodeAfter(cfg, s, before), i, m, RemoteWrites(before));
    }
  }

  /**
    The echo of a remote write is not announced: for five seconds a notification of what the
    clipboard held after the write is recognised, also when that differs from what was received, as
    long as fewer than 32 further writes come between and no other notification of that type and hash.
    */
  lemma OwnWriteIsSilent(cfg: Config, s: NodeState, i: Input, between: seq<Input>, containsFiles: bool, now: int,
                         wall: int64)
    requires Writes(s, i) && i.readback != []
    requires now < i.now + 5_000_000_000 && RemoteWrites(between) < 32
    requires OthersOnly(cfg, between, i.msg.typ, cfg.hash(i.readback), i.now + 5_000_000_000)
    ensures var s' := NodeAfter(cfg, NodeStep(cfg, s, i), between);
            NodeStep(cfg, s', Watch(i.msg.typ, i.readback, containsFiles, now, wall)).sent == s'.sent
  {
    var m := WriteMarker(cfg, i);
    var s' := NodeAfter(cfg, NodeStep(cfg, s, i), between);
    WriteLeavesMarker(cfg, s, i);
    MarkerStays(cfg, NodeStep(cfg, s, i), between, m);
    var p :| 0 <= p < |s'.echoes| && s'.echoes[p] == m;
    assert m in s'.echoes;
    WatchOutcome(cfg, s', i.msg.typ, i.readback, containsFiles, now, wall);
  }

  /** After five seconds the same notification counts as the user's, unless another marker is stored for it. */
  lemma LateEchoIsAnnounced(cfg: Config, s: NodeState, i: Input, now: int, wall: int64)
    requires Writes(s, i) && i.readback != [] && now >= i.now + 5_000_000_000
    requires forall e :: e in s.echoes ==> !(e.typ == i.msg.typ && e.contentID == cfg.hash(i.readback))
    ensures var s' := NodeStep(cfg, s, i);
            Announces(cfg, s', NodeStep(cfg, s', Watch(i.msg.typ, i.readback, false, now, wall)), i.msg.typ, i.readback,
                      wall)
  {
    var s' := NodeStep(cfg, s, i);
    assert forall e :: e in s'.echoes ==> e in s.echoes || e == WriteMarker(cfg, i);
    WatchOutcome(cfg, s', i.msg.typ, i.readback, false, now, wall);
  }

  // ----- whole runs: deduplication -----

  lemma {:induction false} RecordedGrows(cfg: Config, inputs: seq<Input>, k: nat)
    requires k <= |inputs|
    ensures RunNode(cfg, inputs[..k]).recorded <= RunNode(cfg, inputs).recorded
  {
    if k < |inputs| {
      RecordedGrows(cfg, inputs[..|inputs| - 1], k);
      assert inputs[..|inputs| - 1][..k] == inputs[..k];
    } else {
      assert inputs[..k] == inputs;
    }
  }

  /** Input j is an event from the network that takes effect. */
  ghost predicate AppliedAt(cfg: Config, inputs: seq<Input>, j: nat)
  {
    j < |inputs| && inputs[j].Receive? && TakesEffect(cfg, RunNode(cfg, inputs[..j]), inputs[j])
  }

  /**
    At most once: when an event is applied at input j although the node recorded it at input i
    (by applying it, or because the event is its own), at least 32 other events were recorded between.
    */
  lemma AtMostOnce(cfg: Config, inputs: seq<Input>, i: nat, j: nat)
    requires i < j && AppliedAt(cfg, inputs, j)
    requires RunNode(cfg, inputs[..i + 1]).recorded == RunNode(cfg, inputs[..i]).recorded + [inputs[j].msg.EventID()]
    ensures |RunNode(cfg, inputs[..j]).recorded| - |RunNode(cfg, inputs[..i + 1]).recorded| >= RING_SIZE
  {
    var before, after := RunNode(cfg, inputs[..i]).recorded, RunNode(cfg, inputs[..j]).recorded;
    RecordedGrows(cfg, inputs[..j], i + 1);
    assert inputs[..j][..i + 1] == inputs[..i + 1];
    var k := |before|;
    assert after[k] == inputs[j].msg.EventID();
    RecentHolds(after, k);
  }

  /**
    A received event changes the node exactly when it takes effect; otherwise, as after a failed
    write, it can be delivered again.
  */
  lemma IneffectiveIsRetryable(cfg: Config, s: NodeState, i: Input)
    requires i.Receive?
    ensures TakesEffect(cfg, s, i) <==> NodeStep(cfg, s, i) != s
    ensures TakesEffect(cfg, s, i) <==> NodeStep(cfg, s, i).recorded == s.recorded + [i.msg.EventID()]
    ensures TakesEffect(cfg, s, i) ==>
              forall again: Input :: again.Receive? && again.msg.EventID() == i.msg.EventID() ==>
                NodeStep(cfg, NodeStep(cfg, s, i), again) == NodeStep(cfg, s, i)
  {
    if TakesEffect(cfg, s, i) {
      var s' := NodeStep(cfg, s, i);
      assert |s'.recorded| == |s.recorded| + 1;
      assert Recent(s'.recorded)[|Recent(s'.recorded)| - 1] == i.msg.EventID();
    }
  }

  // ----- whole runs: local identities -----

  /** The clock may stall or run back: a new timestamp is later than the last exactly until int64 is exhausted. */
  lemma TimestampIsLater(last: int64, wall: int64)
    ensures NextTimestamp(last, wall) > last <==> last != MAX_INT64
  {
  }

  ghost predicate BelowOverflow(cfg: Config, inputs: seq<Input>)
  {
    forall k :: 0 <= k < |inputs| ==> RunNode(cfg, inputs[..k]).lastEventTS < MAX_INT64
  }

  ghost predicate StrictlyLater(sent: seq<Message>, last: int64)
  {
    && (forall i, j :: 0 <= i < j < |sent| ==> sent[i].timestamp < sent[j].timestamp)
    && (forall i :: 0 <= i < |sent| ==> sent[i].timestamp <= last)
  }

  /** The IDs of the events a node creates are pairwise distinct, whatever its clock does. */
  lemma {:induction false} LocalIDsDistinct(cfg: Config, inputs: seq<Input>)
    requires BelowOverflow(cfg, inputs)
    ensures var s := RunNode(cfg, inputs);
            && StrictlyLater(s.sent, s.lastEventTS)
            && forall i, j :: 0 <= i < j < |s.sent| ==> s.sent[i].EventID() != s.sent[j].EventID()
  {
    if inputs != [] {
      var before := inputs[..|inputs| - 1];
      forall k | 0 <= k < |before|
        ensures RunNode(cfg, before[..k]).lastEventTS < MAX_INT64
      {
        assert before[..k] == inputs[..k];
      }
      LocalIDsDistinct(cfg, before);
      LocalStep(cfg, RunNode(cfg, before), inputs[|inputs| - 1]);
    }
  }

  lemma LocalStep(cfg: Config, s: NodeState, i: Input)
    requires StrictlyLater(s.sent, s.lastEventTS) && s.lastEventTS < MAX_INT64
    ensures StrictlyLater(NodeStep(cfg, s, i).sent, NodeStep(cfg, s, i).lastEventTS)
  {
  }

  // ----- whole runs: the provider and the offers -----

  /** What is servable was handed to the peers, as the last message this node sent. */
  ghost predicate ProviderAnnounced(s: NodeState, marshal: FileOffer -> Option<seq<byte>>)
  {
    s.provider != CLEARED ==>
      && s.sent != [] && s.sent[|s.sent| - 1].typ == TYPE_FILE_OFFER
      && exists offer: FileOffer :: && marshal(offer) == Some(s.sent[|s.sent| - 1].payload)
                         && offer.id == s.provider.id && offer.entries == EntriesOf(s.provider.files)
  }

  /** Whatever replaces the clipboard withdraws the files offered from it. */
  lemma OfferWithdrawn(cfg: Config, s: NodeState, i: Input)
    ensures var s' := NodeStep(cfg, s, i);
            && (Writes(s, i) ==> s'.provider == CLEARED)
            && (i.Watch? && s'.sent != s.sent ==> s'.provider == CLEARED)
            && (i.Select? && s'.sent == s.sent ==> s'.provider == CLEARED)
  {
  }

  lemma AnnouncedStep(cfg: Config, s: NodeState, i: Input, marshal: FileOffer -> Option<seq<byte>>)
    requires ProviderAnnounced(s, marshal)
    requires i.Select? ==> OfferMatches(i, marshal)
    ensures ProviderAnnounced(NodeStep(cfg, s, i), marshal)
  {
  }

  ghost predicate Marshalled(inputs: seq<Input>, marshal: FileOffer -> Option<seq<byte>>)
  {
    forall k :: 0 <= k < |inputs| && inputs[k].Select? ==> OfferMatches(inputs[k], marshal)
  }

  /** Only a selection that creates an offer with this token makes the provider serve it. */
  lemma StartsServing(cfg: Config, s: NodeState, i: Input, marshal: FileOffer -> Option<seq<byte>>)
    requires i.Select? ==> OfferMatches(i, marshal)
    ensures var p := NodeStep(cfg, s, i).provider;
            p == s.provider || p == CLEARED || (Creates(i) && p == i.selection.provider && p.id == i.selection.offer.id)
    ensures i.Select? ==> var p := NodeStep(cfg, s, i).provider;
            p == CLEARED || (Creates(i) && p == i.selection.provider && p.id == i.selection.offer.id)
  {
  }

  /** After every loop iteration, what can be served belongs to the offer announced last, entry by entry. */
  lemma {:induction false} ServedOffersWereAnnounced(cfg: Config, inputs: seq<Input>,
                                                     marshal: FileOffer -> Option<seq<byte>>)
    requires Marshalled(inputs, marshal)
    ensures ProviderAnnounced(RunNode(cfg, inputs), marshal)
  {
    if inputs != [] {
      ServedOffersWereAnnounced(cfg, inputs[..|inputs| - 1], marshal);
      AnnouncedStep(cfg, RunNode(cfg, inputs[..|inputs| - 1]), inputs[|inputs| - 1], marshal);
    }
  }

  /**
    A request is served only for the offer that the last message of this node announces, and what
    is opened is the file whose metadata is the requested entry of that offer.
    */
  lemma ServedAsAnnounced(cfg: Config, inputs: seq<Input>, marshal: FileOffer -> Option<seq<byte>>,
                          id: string, k: int, now: int, stat: string -> Option<FileInfo>) returns (offer: FileOffer)
    requires Marshalled(inputs, marshal)
    requires Serves(RunNode(cfg, inputs).provider, id, k, now, stat)
    ensures var s := RunNode(cfg, inputs);
            && s.sent != [] && s.sent[|s.sent| - 1].typ == TYPE_FILE_OFFER
            && marshal(offer) == Some(s.sent[|s.sent| - 1].payload)
            && offer.id == id && 0 <= k < |offer.entries| && !offer.entries[k].directory
            && stat(s.provider.files[k].path) == Some(FileInfo(true, offer.entries[k].size, offer.entries[k].modTimeNS))
  {
    ServedOffersWereAnnounced(cfg, inputs, marshal);
    var s := RunNode(cfg, inputs);
    offer :| && marshal(offer) == Some(s.sent[|s.sent| - 1].payload)
             && offer.id == s.provider.id && offer.entries == EntriesOf(s.provider.files);
  }

  /** Create draws its tokens at random; no two offers of a run get the same one. */
  ghost predicate FreshTokens(inputs: seq<Input>)
  {
    forall i, j :: 0 <= i < j < |inputs| && Creates(inputs[i]) && Creates(inputs[j]) ==>
      inputs[i].selection.offer.id != inputs[j].selection.offer.id
  }

  predicate Creates(i: Input)
  {
    i.Select? && i.selection.Created?
  }

  /**
    With fresh tokens no earlier offer is ever served: when the provider serves the offer created
    at input j, it keeps exactly the files of that offer, and no offer was created since.
    */
  lemma {:induction false} EarlierOffersAreNotServed(cfg: Config, inputs: seq<Input>, j: nat,
                                                     marshal: FileOffer -> Option<seq<byte>>)
    requires FreshTokens(inputs) && Marshalled(inputs, marshal)
    requires j < |inputs| && Creates(inputs[j]) && inputs[j].selection.offer.id != ""
    requires RunNode(cfg, inputs).provider.id == inputs[j].selection.offer.id
    ensures RunNode(cfg, inputs).provider == inputs[j].selection.provider
    ensures forall m :: j < m < |inputs| ==> !Creates(inputs[m])
  {
    LastInputServes(cfg, inputs, j, marshal);
    if j < |inputs| - 1 {
      EarlierOffersAreNotServed(cfg, inputs[..|inputs| - 1], j, marshal);
    }
  }

  lemma LastInputServes(cfg: Config, inputs: seq<Input>, j: nat, marshal: FileOffer -> Option<seq<byte>>)
    requires FreshTokens(inputs) && Marshalled(inputs, marshal)
    requires j < |inputs| && Creates(inputs[j]) && inputs[j].selection.offer.id != ""
    requires RunNode(cfg, inputs).provider.id == inputs[j].selection.offer.id
    ensures var n := |inputs| - 1;
            if j == n then RunNode(cfg, inputs).provider == inputs[j].selection.provider
            else RunNode(cfg, inputs).provider == RunNode(cfg, inputs[..n]).provider && !Creates(inputs[n])
  {
    var n := |inputs| - 1;
    StartsServing(cfg, RunNode(cfg, inputs[..n]), inputs[n], marshal);
  }

  // ----- whole runs: the mailbox -----

  predicate AcceptsOffer(cfg: Config, s: NodeState, i: Input)
  {
    i.Receive? && i.msg.typ == TYPE_FILE_OFFER && TakesEffect(cfg, s, i)
  }

  /** What an event does to the mailbox. */
  function MailboxStep(cfg: Config, s: NodeState, i: Input): Option<Mailbox.Whole>
  {
    if i.Collect? then Some(Mailbox.Collect)
    else if AcceptsOffer(cfg, s, i) then Some(Mailbox.Accept(i.offer.value))
    else None
  }

  lemma MailboxMoves(cfg: Config, s: NodeState, i: Input)
    ensures NodeStep(cfg, s, i).mailbox ==
            match MailboxStep(cfg, s, i)
            case Some(w) => Mailbox.WholeStep(s.mailbox, w)
            case None => s.mailbox
  {
  }

  /** What a run does to the mailbox. */
  function MailboxSteps(cfg: Config, inputs: seq<Input>): seq<Mailbox.Whole>
  {
    if inputs == [] then []
    else
      var before := inputs[..|inputs| - 1];
      match MailboxStep(cfg, RunNode(cfg, before), inputs[|inputs| - 1])
      case Some(w) => MailboxSteps(cfg, before) + [w]
      case None => MailboxSteps(cfg, before)
  }

  lemma {:induction false} MailboxFollows(cfg: Config, inputs: seq<Input>)
    ensures RunNode(cfg, inputs).mailbox == Mailbox.RunWhole(MailboxSteps(cfg, inputs))
  {
    if inputs != [] {
      var before, i := inputs[..|inputs| - 1], inputs[|inputs| - 1];
      MailboxFollows(cfg, before);
      MailboxMoves(cfg, RunNode(cfg, before), i);
      var w := MailboxStep(cfg, RunNode(cfg, before), i);
      if w.Some? {
        Mailbox.RunWholeSnoc(MailboxSteps(cfg, before), w.value);
      }
    }
  }

  /** The offers that were accepted, in the order of their acceptance. */
  function AcceptedOffers(cfg: Config, inputs: seq<Input>): seq<FileOffer>
  {
    if inputs == [] then []
    else
      var before, i := inputs[..|inputs| - 1], inputs[|inputs| - 1];
      AcceptedOffers(cfg, before) + if AcceptsOffer(cfg, RunNode(cfg, before), i) then [i.offer.value] else []
  }

  lemma {:induction false} MailboxAccepts(cfg: Config, inputs: seq<Input>)
    ensures RunNode(cfg, inputs).mailbox.accepted == AcceptedOffers(cfg, inputs)
  {
    if inputs != [] {
      var before, i := inputs[..|inputs| - 1], inputs[|inputs| - 1];
      MailboxAccepts(cfg, before);
      MailboxIsWell(cfg, before);
      MailboxMoves(cfg, RunNode(cfg, before), i);
    }
  }

  /**
    The newest accepted offer reaches the paste handler: at every moment after its acceptance it
    waits in the mailbox or was the last to be taken out, and it is never drained.
    */
  lemma NewestOfferIsKept(cfg: Config, inputs: seq<Input>)
    requires AcceptedOffers(cfg, inputs) != []
    ensures var m, offers := RunNode(cfg, inputs).mailbox, AcceptedOffers(cfg, inputs);
            var newest := Received(|offers| - 1, offers[|offers| - 1]);
            && newest !in m.drained
            && (m.slot == [newest] || (m.slot == [] && m.taken != [] && Mailbox.Last(m.taken) == newest))
  {
    MailboxAccepts(cfg, inputs);
    MailboxIsWell(cfg, inputs);
  }

  lemma MailboxIsWell(cfg: Config, inputs: seq<Input>)
    ensures RunNode(cfg, inputs).mailbox.phase.Idle? && Mailbox.NewestKept(RunNode(cfg, inputs).mailbox)
  {
    MailboxFollows(cfg, inputs);
    Mailbox.WholeRunKeepsNewest(MailboxSteps(cfg, inputs));
  }

  /** The watchers report text and images, so every message sent has a type that Decode accepts. */
  lemma {:induction false} SentTypesAreKnown(cfg: Config, inputs: seq<Input>)
    requires forall i: Input :: i in inputs && i.Watch? ==> i.typ == TYPE_TEXT || i.typ == TYPE_IMAGE
    ensures Peer.KnownTypes(RunNode(cfg, inputs).sent)
  {
    if inputs != [] {
      SentTypesAreKnown(cfg, inputs[..|inputs| - 1]);
    }
  }
}
