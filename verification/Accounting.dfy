/**
  Loop prevention as accounting. Markers can expire, be evicted, or be used up by a user who
  copies the same content, so no single echo is certain to be recognised. What always holds is
  a balance per content: announcements never exceed user copies plus markers lost.
  */
module Accounting {
  import opened Wrappers
  import opened Bytes
  import opened Loop
  import opened Protocol
  import opened Node

  /** Content as the echo buffer tells it apart: message type and hash, no more. */
  datatype Key = Key(typ: byte, hash: uint64)

  function KeyOf(e: Echo): Key
  {
    Key(e.typ, e.contentID)
  }

  /** How many markers of es are for k. */
  function Count(es: seq<Echo>, k: Key): nat
  {
    if es == [] then 0 else Count(es[..|es| - 1], k) + if KeyOf(es[|es| - 1]) == k then 1 else 0
  }

  /** The keys of es, each as often as it occurs. */
  function KeysOf(es: seq<Echo>): (m: multiset<Key>)
    ensures forall k :: m[k] == Count(es, k)
  {
    if es == [] then multiset{} else KeysOf(es[..|es| - 1]) + multiset{KeyOf(es[|es| - 1])}
  }

  lemma {:induction false} CountConcat(a: seq<Echo>, b: seq<Echo>, k: Key)
    ensures Count(a + b, k) == Count(a, k) + Count(b, k)
  {
    if b == [] {
      assert a + b == a;
    } else {
      CountConcat(a, b[..|b| - 1], k);
      assert (a + b)[..|a + b| - 1] == a + b[..|b| - 1];
    }
  }

  lemma CountOne(e: Echo, k: Key)
    ensures Count([e], k) == if KeyOf(e) == k then 1 else 0
  {
    assert [e][..0] == [];
  }

  lemma {:induction false} CountSplit(es: seq<Echo>, now: int, k: Key)
    ensures Count(es, k) == Count(Live(es, now), k) + Count(Expired(es, now), k)
  {
    if es != [] {
      var before, e := es[..|es| - 1], es[|es| - 1];
      CountSplit(before, now, k);
      CountConcat(Live(before, now), [e], k);
      CountConcat(Expired(before, now), [e], k);
      CountOne(e, k);
    }
  }

  lemma {:induction false} CountNone(es: seq<Echo>, k: Key)
    requires forall j :: 0 <= j < |es| ==> !Matches(es[j], k.typ, k.hash)
    ensures Count(es, k) == 0
  {
    if es != [] {
      CountNone(es[..|es| - 1], k);
    }
  }

  lemma CountMiddle(a: seq<Echo>, e: Echo, b: seq<Echo>, k: Key)
    ensures Count(a + [e] + b, k) == Count(a + b, k) + if KeyOf(e) == k then 1 else 0
  {
    CountConcat(a + [e], b, k);
    CountConcat(a, [e], k);
    CountOne(e, k);
    CountConcat(a, b, k);
  }

  lemma CountRemove(es: seq<Echo>, i: nat, k: Key)
    requires i < |es|
    ensures Count(es, k) == Count(es[..i] + es[i + 1..], k) + if KeyOf(es[i]) == k then 1 else 0
  {
    CountMiddle(es[..i], es[i], es[i + 1..], k);
    CutAt(es, i);
  }

  /** Taking the echo of q removes the expired markers, and one marker of q or else there was none. */
  lemma {:induction false} CountTaken(es: seq<Echo>, q: Key, now: int, k: Key)
    ensures var t := TakeEcho(es, q.typ, q.hash, now);
            && Count(es, k) == Count(t.kept, k) + Count(Expired(es, now), k)
                               + (if t.matched.Some? && k == q then 1 else 0)
            && (t.matched.None? ==> Count(t.kept, q) == 0)
  {
    CountSplit(es, now, k);
    var live := Live(es, now);
    var i := FirstMatch(live, q.typ, q.hash);
    if i < |live| {
      CountRemove(live, i, k);
    } else {
      CountNone(live, q);
    }
  }

  /** The markers PutEcho evicts, by key. */
  function EvictedKeys(es: seq<Echo>): multiset<Key>
  {
    if |es| == RING_SIZE then multiset{KeyOf(es[0])} else multiset{}
  }

  lemma CountPut(es: seq<Echo>, e: Echo, k: Key)
    ensures Count(PutEcho(es, e), k) + EvictedKeys(es)[k] == Count(es, k) + if KeyOf(e) == k then 1 else 0
  {
    CountOne(e, k);
    CountConcat(es, [e], k);
    if |es| == RING_SIZE {
      CountRemove(es, 0, k);
      assert es[..0] + es[0 + 1..] == es[1..];
      CountConcat(es[1..], [e], k);
    }
  }

  // ----- a node and its clipboard -----

  /** Why the watcher reports a change: the user copied, or the node itself wrote the clipboard. */
  datatype Origin = FromUser | FromWrite

  /**
    A node together with the history of its clipboard. The watcher owes one notification for
    every user copy and every remote write, and may coalesce them: it delivers each at most once.
    */
  datatype Ledger = Ledger(
    node: NodeState,
    copies: multiset<Key>,      // everything the user copied
    sent: multiset<Key>,        // everything announced to the peers
    lost: multiset<Key>,        // markers that expired or were evicted
    userPending: multiset<Key>, // user copies not reported yet
    echoPending: multiset<Key>) // remote writes not reported yet

  const EMPTY := Ledger(INITIAL, multiset{}, multiset{}, multiset{}, multiset{}, multiset{})

  datatype Act =
    | UserCopies(key: Key)
    | Coalesce(key: Key, origin: Origin)
    | Notify(input: Input, origin: Origin)  // a Watch input
    | CopyFiles(input: Input)               // a Select input
    | Arrive(input: Input)                  // a Receive input

  function KeyOfWatch(cfg: Config, i: Input): Key
    requires i.Watch?
  {
    Key(i.typ, cfg.hash(i.data))
  }

  function PendingOf(l: Ledger, origin: Origin): multiset<Key>
  {
    if origin.FromUser? then l.userPending else l.echoPending
  }

  predicate CanAct(cfg: Config, l: Ledger, a: Act)
  {
    match a
    case UserCopies(_) => true
    case Coalesce(k, origin) => k in PendingOf(l, origin)
    case Notify(i, origin) => i.Watch? && KeyOfWatch(cfg, i) in PendingOf(l, origin)
    case CopyFiles(i) => i.Select?
    case Arrive(i) => i.Receive?
  }

  /** The notification of k was delivered or dropped. */
  function Reported(l: Ledger, k: Key, origin: Origin): Ledger
  {
    if origin.FromUser? then l.(userPending := l.userPending - multiset{k})
    else l.(echoPending := l.echoPending - multiset{k})
  }

  /** The message announced when the step made `sent` grow, by key. */
  function Announced(before: seq<Message>, after: seq<Message>): multiset<Key>
  {
    if |after| > |before| then multiset{Key(after[|after| - 1].typ, after[|after| - 1].contentID)} else multiset{}
  }

  function ActStep(cfg: Config, l: Ledger, a: Act): Ledger
    requires CanAct(cfg, l, a)
  {
    match a
    case UserCopies(k) => l.(copies := l.copies + multiset{k}, userPending := l.userPending + multiset{k})
    case Coalesce(k, origin) => Reported(l, k, origin)
    case Notify(i, origin) =>
      var node := NodeStep(cfg, l.node, i);
      var dropped := if Ignored(cfg, i) then multiset{}
                     else KeysOf(Expired(l.node.echoes, i.now));
      Reported(l, KeyOfWatch(cfg, i), origin).(
        node := node, sent := l.sent + Announced(l.node.sent, node.sent), lost := l.lost + dropped)
    case CopyFiles(i) =>
      var node := NodeStep(cfg, l.node, i);
      var told := Announced(l.node.sent, node.sent);
      l.(node := node, copies := l.copies + told, sent := l.sent + told)
    case Arrive(i) =>
      var node := NodeStep(cfg, l.node, i);
      if Writes(l.node, i) then
        l.(node := node, lost := l.lost + EvictedKeys(l.node.echoes),
           echoPending := l.echoPending + multiset{Key(i.msg.typ, ContentHash(cfg, i))})
      else l.(node := node)
  }

  /**
    What the watcher will report of a remote write: what the clipboard holds then. A clipboard that
    cannot be read back is taken to hold the content the event names.
    */
  function ContentHash(cfg: Config, i: Input): uint64
    requires i.Receive?
  {
    if |i.readback| > 0 then cfg.hash(i.readback) else i.msg.contentID
  }

  function Excess(a: nat, b: nat): nat
  {
    if a > b then a - b else 0
  }

  /** The balance for one content. */
  ghost predicate BalancedAt(l: Ledger, k: Key)
  {
    l.copies[k] + l.lost[k] >=
      l.sent[k] + l.userPending[k] + Excess(l.echoPending[k], Count(l.node.echoes, k))
  }

  ghost predicate Balanced(l: Ledger)
  {
    forall k :: BalancedAt(l, k)
  }

  predicate Ignored(cfg: Config, i: Input)
    requires i.Watch?
  {
    i.data == [] || (cfg.filesEnabled && i.containsFiles)
  }

  /** What a notification announces: nothing when it is ignored or recognised as an echo. */
  lemma NotifyAnnounces(cfg: Config, s: NodeState, i: Input)
    requires i.Watch?
    ensures var q, t := KeyOfWatch(cfg, i), TakeEcho(s.echoes, i.typ, cfg.hash(i.data), i.now);
            && (Ignored(cfg, i) ==> NodeStep(cfg, s, i) == s)
            && (!Ignored(cfg, i) ==> NodeStep(cfg, s, i).echoes == t.kept)
            && Announced(s.sent, NodeStep(cfg, s, i).sent)
               == (if Ignored(cfg, i) || t.matched.Some? then multiset{} else multiset{q})
  {
  }

  /** A notification, counted for one content. */
  lemma NotifyCounts(cfg: Config, l: Ledger, i: Input, origin: Origin, k: Key)
    requires CanAct(cfg, l, Notify(i, origin))
    ensures var q, t := KeyOfWatch(cfg, i), TakeEcho(l.node.echoes, i.typ, cfg.hash(i.data), i.now);
            var l' := ActStep(cfg, l, Notify(i, origin));
            var one := if k == q then 1 else 0;
            && l'.copies == l.copies
            && l'.userPending[k] == l.userPending[k] - (if origin.FromUser? then one else 0)
            && l'.echoPending[k] == l.echoPending[k] - (if origin.FromUser? then 0 else one)
            && l'.sent[k] == l.sent[k] + (if Ignored(cfg, i) || t.matched.Some? then 0 else one)
            && l'.lost[k] == l.lost[k] + (if Ignored(cfg, i) then 0 else Count(Expired(l.node.echoes, i.now), k))
            && l'.node.echoes == (if Ignored(cfg, i) then l.node.echoes else t.kept)
  {
    NotifyAnnounces(cfg, l.node, i);
  }

  lemma NotifyBalanced(cfg: Config, l: Ledger, i: Input, origin: Origin, k: Key)
    requires CanAct(cfg, l, Notify(i, origin)) && BalancedAt(l, k)
    ensures BalancedAt(ActStep(cfg, l, Notify(i, origin)), k)
  {
    NotifyCounts(cfg, l, i, origin, k);
    CountTaken(l.node.echoes, KeyOfWatch(cfg, i), i.now, k);
  }

  lemma ArriveBalanced(cfg: Config, l: Ledger, i: Input, k: Key)
    requires CanAct(cfg, l, Arrive(i)) && BalancedAt(l, k)
    ensures BalancedAt(ActStep(cfg, l, Arrive(i)), k)
  {
    if Writes(l.node, i) {
      CountPut(l.node.echoes, Echo(i.msg.typ, ContentHash(cfg, i), i.msg.EventID(), i.now + ECHO_TTL), k);
    }
  }

  lemma ActBalanced(cfg: Config, l: Ledger, a: Act)
    requires CanAct(cfg, l, a) && Balanced(l)
    ensures Balanced(ActStep(cfg, l, a))
  {
    forall k
      ensures BalancedAt(ActStep(cfg, l, a), k)
    {
      assert BalancedAt(l, k);
      match a
      case Notify(i, origin) => NotifyBalanced(cfg, l, i, origin, k);
      case Arrive(i) => ArriveBalanced(cfg, l, i, k);
      case _ =>
    }
  }

  function RunActs(cfg: Config, acts: seq<Act>): Ledger
  {
    if acts == [] then EMPTY
    else
      var l := RunActs(cfg, acts[..|acts| - 1]);
      if CanAct(cfg, l, acts[|acts| - 1]) then ActStep(cfg, l, acts[|acts| - 1]) else l
  }

  lemma {:induction false} AlwaysBalanced(cfg: Config, acts: seq<Act>)
    ensures Balanced(RunActs(cfg, acts))
  {
    if acts != [] {
      AlwaysBalanced(cfg, acts[..|acts| - 1]);
      var l, a := RunActs(cfg, acts[..|acts| - 1]), acts[|acts| - 1];
      if CanAct(cfg, l, a) {
        ActBalanced(cfg, l, a);
      }
    }
  }

  /**
    No amplification: whatever the user, the network, the clock and the watcher do, each content
    is announced at most as often as it was copied plus as often as a marker for it was lost.
    */
  lemma {:induction false} NoAmplification(cfg: Config, acts: seq<Act>)
    ensures var l := RunActs(cfg, acts);
            l.sent <= l.copies + l.lost
  {
    AlwaysBalanced(cfg, acts);
    BalanceBoundsSends(RunActs(cfg, acts));
  }

  lemma BalanceBoundsSends(l: Ledger)
    requires Balanced(l)
    ensures l.sent <= l.copies + l.lost
  {
    forall k
      ensures l.sent[k] <= (l.copies + l.lost)[k]
    {
      assert BalancedAt(l, k);
    }
  }

  /**
    Content the user never copied, and whose markers were never lost, is never announced:
    every outstanding echo of it has a marker.
  */
  lemma {:induction false} RemoteContentStaysSilent(cfg: Config, acts: seq<Act>, k: Key)
    requires var l := RunActs(cfg, acts);
             k !in l.copies && k !in l.lost
    ensures var l := RunActs(cfg, acts);
            k !in l.sent && l.echoPending[k] <= Count(l.node.echoes, k)
  {
    AlwaysBalanced(cfg, acts);
    assert BalancedAt(RunActs(cfg, acts), k);
  }
}
