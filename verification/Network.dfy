/**
  A network of nodes. Messages travel from a sender's queue over the wire to the receiver's
  event loop; the network may reorder, repeat and lose them, the clipboards may coalesce
  notifications. However the steps interleave, propagation stops.
  */
module Network {
  import opened Wrappers
  import opened Protocol
  import opened Node
  import opened Accounting

  /** The nodes, each with the nodes it is configured to send to. */
  datatype Topology = Topology(configs: seq<Config>, peers: seq<seq<nat>>)

  /** Peers are nodes, and `price` covers the work of one announcement: three steps for each configured peer. */
  ghost predicate Proper(t: Topology, price: nat)
  {
    && |t.configs| == |t.peers|
    && forall n :: 0 <= n < |t.peers| ==> 3 * |t.peers[n]| <= price && forall p :: p in t.peers[n] ==> p < |t.configs|
  }

  datatype Packet = Packet(to: nat, msg: Message)

  datatype Net = Net(nodes: seq<Ledger>, queued: multiset<Packet>, wire: multiset<Packet>)

  datatype NetAct =
    | Local(n: nat, act: Act)                  // anything but Arrive
    | Transmit(packet: Packet)                 // a write succeeds
    | WriteFails(packet: Packet, whole: bool)  // it stays pending, and may have arrived all the same
    | Discard(packet: Packet)                  // a full send buffer, or a message Encode refuses
    | Vanish(packet: Packet)                   // a connection dies with data in it
    | Deliver(packet: Packet, input: Input)

  function Start(t: Topology): Net
  {
    Net(seq(|t.configs|, _ => EMPTY), multiset{}, multiset{})
  }

  /** One packet for every configured peer. */
  function Fanout(to: seq<nat>, msg: Message): (r: multiset<Packet>)
    ensures |r| == |to| && forall p :: p in r ==> p.to in to
  {
    if to == [] then multiset{} else Fanout(to[..|to| - 1], msg) + multiset{Packet(to[|to| - 1], msg)}
  }

  predicate CanStep(t: Topology, s: Net, a: NetAct)
    requires |t.configs| == |t.peers|
  {
    match a
    case Local(n, act) =>
      n < |s.nodes| && n < |t.configs| && !act.Arrive? && CanAct(t.configs[n], s.nodes[n], act)
    case Transmit(p) => p in s.queued
    case WriteFails(p, _) => p in s.queued
    case Discard(p) => p in s.queued
    case Vanish(p) => p in s.wire
    case Deliver(p, i) =>
      p in s.wire && p.to < |s.nodes| && p.to < |t.configs|
      && i.Receive? && i.msg == p.msg.(version := PROTOCOL_VERSION)
  }

  function NetStep(t: Topology, s: Net, a: NetAct): Net
    requires |t.configs| == |t.peers| && CanStep(t, s, a)
  {
    match a
    case Local(n, act) => AfterLocal(t, s, n, ActStep(t.configs[n], s.nodes[n], act))
    case Transmit(p) => s.(queued := s.queued - multiset{p}, wire := s.wire + multiset{p})
    case WriteFails(p, whole) => if whole then s.(wire := s.wire + multiset{p}) else s
    case Discard(p) => s.(queued := s.queued - multiset{p})
    case Vanish(p) => s.(wire := s.wire - multiset{p})
    case Deliver(p, i) => AfterDelivery(s, p, ActStep(t.configs[p.to], s.nodes[p.to], Arrive(i)))
  }

  /** What node n announced, if anything, is queued for all its peers. */
  function AfterLocal(t: Topology, s: Net, n: nat, l: Ledger): Net
    requires n < |s.nodes| && n < |t.peers|
  {
    var out := if |l.node.sent| > |s.nodes[n].node.sent| then Fanout(t.peers[n], l.node.sent[|l.node.sent| - 1])
               else multiset{};
    s.(nodes := s.nodes[n := l], queued := s.queued + out)
  }

  function AfterDelivery(s: Net, p: Packet, l: Ledger): Net
    requires p.to < |s.nodes|
  {
    s.(nodes := s.nodes[p.to := l], wire := s.wire - multiset{p})
  }

  function RunNet(t: Topology, acts: seq<NetAct>): Net
    requires |t.configs| == |t.peers|
  {
    if acts == [] then Start(t)
    else
      var s := RunNet(t, acts[..|acts| - 1]);
      if CanStep(t, s, acts[|acts| - 1]) then NetStep(t, s, acts[|acts| - 1]) else s
  }

  /** A step that neither the user nor a failing write causes. */
  predicate Propagates(a: NetAct)
  {
    !a.WriteFails? && !(a.Local? && (a.act.UserCopies? || a.act.CopyFiles?))
  }

  /** How many steps of a run propagated something. */
  function Propagations(t: Topology, acts: seq<NetAct>): nat
    requires |t.configs| == |t.peers|
  {
    if acts == [] then 0
    else
      var before, a := acts[..|acts| - 1], acts[|acts| - 1];
      Propagations(t, before) + if CanStep(t, RunNet(t, before), a) && Propagates(a) then 1 else 0
  }

  /** How many writes of a run failed. */
  function Failures(t: Topology, acts: seq<NetAct>): nat
    requires |t.configs| == |t.peers|
  {
    if acts == [] then 0
    else
      var before, a := acts[..|acts| - 1], acts[|acts| - 1];
      Failures(t, before) + if CanStep(t, RunNet(t, before), a) && a.WriteFails? then 1 else 0
  }

  // ----- totals -----

  function Sum(f: Ledger -> int, ls: seq<Ledger>): int
  {
    if ls == [] then 0 else Sum(f, ls[..|ls| - 1]) + f(ls[|ls| - 1])
  }

  lemma {:induction false} SumUpdate(f: Ledger -> int, ls: seq<Ledger>, n: nat, l: Ledger)
    requires n < |ls|
    ensures Sum(f, ls[n := l]) == Sum(f, ls) - f(ls[n]) + f(l)
  {
    var last := |ls| - 1;
    if n < last {
      SumUpdate(f, ls[..last], n, l);
      assert ls[n := l][..last] == ls[..last][n := l];
    } else {
      assert ls[n := l][..last] == ls[..last];
    }
  }

  function Copies(): Ledger -> int
  {
    (l: Ledger) => |l.copies|
  }

  function Losses(): Ledger -> int
  {
    (l: Ledger) => |l.lost|
  }

  /** Pending notifications, less what the announcements already made have used up. */
  function WeightOf(l: Ledger, price: nat): int
  {
    |l.userPending| + |l.echoPending| - price * |l.sent|
  }

  function Weight(price: nat): Ledger -> int
  {
    (l: Ledger) => WeightOf(l, price)
  }

  /** Work left: a queued message costs three steps at most, one on the wire two, a notification one. */
  function Potential(s: Net, price: nat): int
  {
    3 * |s.queued| + 2 * |s.wire| + Sum(Weight(price), s.nodes)
  }

  lemma {:induction false} SumEmpty(f: Ledger -> int, ls: seq<Ledger>)
    requires forall i :: 0 <= i < |ls| ==> f(ls[i]) == 0
    ensures Sum(f, ls) == 0
  {
    if ls != [] {
      SumEmpty(f, ls[..|ls| - 1]);
    }
  }

  // ----- one step -----

  /** How an act changes a node's pending work, by `load`, and its announcements, by `told`. */
  ghost predicate Weighs(l: Ledger, l': Ledger, load: int, told: int)
  {
    && |l'.userPending| + |l'.echoPending| == |l.userPending| + |l.echoPending| + load
    && |l'.sent| == |l.sent| + told && told == (if |l'.node.sent| > |l.node.sent| then 1 else 0)
  }

  lemma ArriveWeighs(cfg: Config, l: Ledger, i: Input)
    requires i.Receive?
    ensures var l' := ActStep(cfg, l, Arrive(i));
            Weighs(l, l', if Writes(l.node, i) then 1 else 0, 0) && l'.copies == l.copies
  {
    assert NodeStep(cfg, l.node, i).sent == l.node.sent;
  }

  lemma NotifyWeighs(cfg: Config, l: Ledger, i: Input, origin: Origin)
    requires CanAct(cfg, l, Notify(i, origin))
    ensures var l' := ActStep(cfg, l, Notify(i, origin));
            Weighs(l, l', -1, |l'.sent| - |l.sent|) && l'.copies == l.copies
  {
    NotifyAnnounces(cfg, l.node, i);
  }

  /** What one act does to a node's pending work and announcements. */
  lemma ActWeighs(cfg: Config, l: Ledger, a: Act)
    requires CanAct(cfg, l, a)
    ensures var l' := ActStep(cfg, l, a);
            var load := |l'.userPending| + |l'.echoPending| - |l.userPending| - |l.echoPending|;
            var told := |l'.sent| - |l.sent|;
            && (a.UserCopies? ==> load == 1 && told == 0 && |l'.copies| == |l.copies| + 1)
            && (a.Coalesce? || a.Notify? ==> load == -1 && l'.copies == l.copies)
            && (a.CopyFiles? ==> load == 0 && |l'.copies| == |l.copies| + told)
            && (a.Arrive? ==> load <= 1 && told == 0 && l'.copies == l.copies)
            && told == (if |l'.node.sent| > |l.node.sent| then 1 else 0)
  {
    match a
    case Notify(i, origin) => NotifyWeighs(cfg, l, i, origin);
    case Arrive(i) => ArriveWeighs(cfg, l, i);
    case _ =>
  }

  lemma OneMore(price: nat, n: nat)
    ensures price * (n + 1) == price * n + price
  {
  }

  lemma {:induction false} WeightChange(cfg: Config, l: Ledger, a: Act, price: nat)
    requires CanAct(cfg, l, a)
    ensures var l' := ActStep(cfg, l, a);
            WeightOf(l', price) == WeightOf(l, price)
              + (|l'.userPending| + |l'.echoPending| - |l.userPending| - |l.echoPending|)
              - (if |l'.node.sent| > |l.node.sent| then price else 0)
  {
    ActWeighs(cfg, l, a);
    WeightDiffers(l, ActStep(cfg, l, a), price);
  }

  lemma WeightDiffers(l: Ledger, l': Ledger, price: nat)
    requires |l'.sent| - |l.sent| == if |l'.node.sent| > |l.node.sent| then 1 else 0
    ensures WeightOf(l', price) == WeightOf(l, price)
              + (|l'.userPending| + |l'.echoPending| - |l.userPending| - |l.echoPending|)
              - (if |l'.node.sent| > |l.node.sent| then price else 0)
  {
    OneMore(price, |l.sent|);
  }

  lemma LocalPays(t: Topology, s: Net, n: nat, act: Act, price: nat)
    requires Proper(t, price) && CanStep(t, s, Local(n, act))
    ensures var s' := NetStep(t, s, Local(n, act));
            && Potential(s', price) <= Potential(s, price)
               + (if act.UserCopies? then 1 else if act.CopyFiles? then 0 else -1)
            && Sum(Copies(), s'.nodes) >= Sum(Copies(), s.nodes) + (if act.UserCopies? then 1 else 0)
  {
    var l := s.nodes[n];
    var l' := ActStep(t.configs[n], l, act);
    ActWeighs(t.configs[n], l, act);
    WeightChange(t.configs[n], l, act, price);
    SumUpdate(Weight(price), s.nodes, n, l');
    SumUpdate(Copies(), s.nodes, n, l');
    assert 3 * |t.peers[n]| <= price;
  }

  lemma DeliverPays(t: Topology, s: Net, p: Packet, i: Input, price: nat)
    requires Proper(t, price) && CanStep(t, s, Deliver(p, i))
    ensures var s' := NetStep(t, s, Deliver(p, i));
            Potential(s', price) <= Potential(s, price) - 1 && Sum(Copies(), s'.nodes) == Sum(Copies(), s.nodes)
  {
    var l := s.nodes[p.to];
    ActWeighs(t.configs[p.to], l, Arrive(i));
    WeightChange(t.configs[p.to], l, Arrive(i), price);
    SumUpdate(Weight(price), s.nodes, p.to, ActStep(t.configs[p.to], l, Arrive(i)));
    SumUpdate(Copies(), s.nodes, p.to, ActStep(t.configs[p.to], l, Arrive(i)));
  }

  /** Every propagation step uses up potential; copies and failed writes are all that adds any. */
  lemma {:induction false} StepPays(t: Topology, s: Net, a: NetAct, price: nat)
    requires Proper(t, price) && CanStep(t, s, a)
    ensures var s' := NetStep(t, s, a);
            Potential(s', price) - Sum(Copies(), s'.nodes) <=
            Potential(s, price) - Sum(Copies(), s.nodes)
            + (if Propagates(a) then -1 else if a.WriteFails? then 2 else 0)
  {
    match a
    case Local(n, act) => LocalPays(t, s, n, act, price);
    case Deliver(p, i) => DeliverPays(t, s, p, i, price);
    case _ =>
  }

  // ----- whole runs -----

  lemma {:induction false} RunPays(t: Topology, acts: seq<NetAct>, price: nat)
    requires Proper(t, price)
    ensures var s := RunNet(t, acts);
            Propagations(t, acts) + Potential(s, price) <= Sum(Copies(), s.nodes) + 2 * Failures(t, acts)
  {
    if acts == [] {
      SumEmpty(Weight(price), Start(t).nodes);
      SumEmpty(Copies(), Start(t).nodes);
    } else {
      var before, a := acts[..|acts| - 1], acts[|acts| - 1];
      RunPays(t, before, price);
      if CanStep(t, RunNet(t, before), a) {
        StepPays(t, RunNet(t, before), a, price);
      }
    }
  }

  lemma {:induction false} AllBalanced(t: Topology, acts: seq<NetAct>)
    requires |t.configs| == |t.peers|
    ensures forall n :: 0 <= n < |RunNet(t, acts).nodes| ==> Balanced(RunNet(t, acts).nodes[n])
  {
    if acts != [] {
      var before, a := acts[..|acts| - 1], acts[|acts| - 1];
      AllBalanced(t, before);
      var s := RunNet(t, before);
      if CanStep(t, s, a) {
        if a.Local? {
          ActBalanced(t.configs[a.n], s.nodes[a.n], a.act);
        } else if a.Deliver? {
          ActBalanced(t.configs[a.packet.to], s.nodes[a.packet.to], Arrive(a.input));
        }
      }
    }
  }

  lemma SubsetSize(a: multiset<Key>, b: multiset<Key>)
    requires forall k :: a[k] <= b[k]
    ensures |a| <= |b|
  {
    forall k: Key
      ensures b[k] == (a + (b - a))[k]
    {
    }
    assert b == a + (b - a);
    assert |a + (b - a)| == |a| + |b - a|;
  }

  lemma SentIsBounded(l: Ledger)
    requires Balanced(l)
    ensures |l.sent| <= |l.copies| + |l.lost|
  {
    BalanceBoundsSends(l);
    SubsetSize(l.sent, l.copies + l.lost);
    assert |l.copies + l.lost| == |l.copies| + |l.lost|;
  }

  lemma WeightIsBounded(l: Ledger, price: nat)
    requires Balanced(l)
    ensures WeightOf(l, price) >= -(price * |l.copies|) - price * |l.lost|
  {
    SentIsBounded(l);
    Scale(price, |l.sent|, |l.copies|, |l.lost|);
  }

  lemma Scale(price: nat, a: nat, b: nat, c: nat)
    requires a <= b + c
    ensures price * a <= price * b + price * c
  {
    assert price * (b + c) == price * b + price * c;
    assert price * (b + c - a) >= 0;
    assert price * a + price * (b + c - a) == price * (b + c);
  }

  lemma Distribute(price: nat, a: int, b: int)
    ensures price * (a + b) == price * a + price * b
  {
  }

  lemma {:induction false} WeightsAreBounded(ls: seq<Ledger>, price: nat)
    requires forall n :: 0 <= n < |ls| ==> Balanced(ls[n])
    ensures Sum(Weight(price), ls) >= -(price * Sum(Copies(), ls)) - price * Sum(Losses(), ls)
  {
    if ls != [] {
      var before, l := ls[..|ls| - 1], ls[|ls| - 1];
      WeightsAreBounded(before, price);
      WeightIsBounded(l, price);
      Distribute(price, Sum(Copies(), before), |l.copies|);
      Distribute(price, Sum(Losses(), before), |l.lost|);
      assert Sum(Copies(), ls) == Sum(Copies(), before) + |l.copies|;
      assert Sum(Losses(), ls) == Sum(Losses(), before) + |l.lost|;
      assert Sum(Weight(price), ls) == Sum(Weight(price), before) + WeightOf(l, price);
    }
  }

  /**
    Quiescence: in any run of any network, the number of propagation steps is bounded by what
    users copied, markers lost and writes failed. Once those stop, propagation stops.
    */
  lemma PropagationTerminates(t: Topology, acts: seq<NetAct>, price: nat)
    requires Proper(t, price)
    ensures var s := RunNet(t, acts);
            var copies, losses := Sum(Copies(), s.nodes), Sum(Losses(), s.nodes);
            Propagations(t, acts) <= price * copies + copies + price * losses + 2 * Failures(t, acts)
  {
    RunPays(t, acts, price);
    AllBalanced(t, acts);
    WeightsAreBounded(RunNet(t, acts).nodes, price);
  }

  /** Every packet is for a node. */
  ghost predicate InRange(t: Topology, s: Net)
  {
    && |s.nodes| == |t.configs|
    && (forall p :: p in s.queued ==> p.to < |t.configs|)
    && (forall p :: p in s.wire ==> p.to < |t.configs|)
  }

  lemma StepInRange(t: Topology, s: Net, a: NetAct, price: nat)
    requires Proper(t, price) && InRange(t, s) && CanStep(t, s, a)
    ensures InRange(t, NetStep(t, s, a))
  {
    if a.Local? {
      assert forall p :: p in t.peers[a.n] ==> p < |t.configs|;
    }
  }

  lemma {:induction false} AlwaysInRange(t: Topology, acts: seq<NetAct>, price: nat)
    requires Proper(t, price)
    ensures InRange(t, RunNet(t, acts))
  {
    if acts != [] {
      var before := acts[..|acts| - 1];
      AlwaysInRange(t, before, price);
      if CanStep(t, RunNet(t, before), acts[|acts| - 1]) {
        StepInRange(t, RunNet(t, before), acts[|acts| - 1], price);
      }
    }
  }

  /**
    A run ends only in silence: while anything is queued, on the wire or waiting to be reported,
    some propagation step other than losing a message is possible.
    */
  lemma BusyCanPropagate(t: Topology, acts: seq<NetAct>, price: nat) returns (a: NetAct)
    requires Proper(t, price)
    requires var s := RunNet(t, acts);
             || s.queued != multiset{} || s.wire != multiset{}
             || exists l :: l in s.nodes && (l.userPending != multiset{} || l.echoPending != multiset{})
    ensures Propagates(a) && CanStep(t, RunNet(t, acts), a) && !a.Discard? && !a.Vanish?
  {
    var s := RunNet(t, acts);
    AlwaysInRange(t, acts, price);
    if s.queued != multiset{} {
      var p :| p in s.queued;
      return Transmit(p);
    }
    if s.wire != multiset{} {
      var p :| p in s.wire;
      return Deliver(p, Receive(p.msg.(version := PROTOCOL_VERSION), true, [], None, 0));
    }
    var n :| 0 <= n < |s.nodes| && (s.nodes[n].userPending != multiset{} || s.nodes[n].echoPending != multiset{});
    if s.nodes[n].userPending != multiset{} {
      var k :| k in s.nodes[n].userPending;
      return Local(n, Coalesce(k, FromUser));
    }
    var k :| k in s.nodes[n].echoPending;
    return Local(n, Coalesce(k, FromWrite));
  }
}
