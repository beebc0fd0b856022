/**
  loop.go: the two bounded memories that keep a clipboard event from circulating.
  RingBuffer remembers the last 32 recorded event IDs; EchoBuffer remembers the
  clipboard notifications that remote writes are expected to cause.
  */
module Loop {
  import opened Wrappers
  import opened Bytes

  const RING_SIZE := 32

  datatype EventID = EventID(contentID: uint64, source: seq<byte>, timestamp: int64)

  /** The last min(|h|, 32) elements of a history. */
  function Recent<T>(h: seq<T>): (r: seq<T>)
    ensures |r| <= RING_SIZE
  {
    if |h| <= RING_SIZE then h else h[|h| - RING_SIZE..]
  }

  /** Position k is remembered as long as fewer than 32 adds followed it. */
  lemma RecentHolds<T>(h: seq<T>, k: nat)
    requires k < |h|
    ensures |h| - k <= RING_SIZE ==> h[k] in Recent(h)
  {
    if |h| - k <= RING_SIZE {
      assert h[k] == Recent(h)[k - (|h| - |Recent(h)|)];
    }
  }

  /** The slot that the t-th add writes. */
  function Slot(t: nat): (i: nat)
    ensures i < RING_SIZE
  {
    t % RING_SIZE
  }

  class RingBuffer {
    const buf: array<EventID>
    var pos: nat
    var count: nat
    /** Every ID ever added, oldest first. */
    ghost var recorded: seq<EventID>

    ghost predicate Valid()
      reads this, buf
    {
      && buf.Length == RING_SIZE
      && pos == Slot(|recorded|)
      && count == (if |recorded| < RING_SIZE then |recorded| else RING_SIZE)
      && forall t :: 0 <= t < |recorded| && |recorded| - RING_SIZE <= t ==> buf[Slot(t)] == recorded[t]
    }

    constructor ()
      ensures Valid() && fresh(buf)
      ensures recorded == []
    {
      buf := new EventID[RING_SIZE](_ => EventID(0, [], 0));
      pos, count := 0, 0;
      recorded := [];
    }

    method Add(id: EventID)
      requires Valid()
      modifies this, buf
      ensures Valid()
      ensures recorded == old(recorded) + [id]
    {
      ghost var n := |recorded|;
      NextSlot(n);
      forall t | 0 <= t < n && n - RING_SIZE < t
        ensures Slot(t) != pos
      {
        SlotsDiffer(t, n);
      }
      buf[pos] := id;
      pos := (pos + 1) % RING_SIZE;
      if count < RING_SIZE {
        count := count + 1;
      }
      recorded := recorded + [id];
    }

    /** Contains scans the slots; the answer is about the order of the adds. */
    method Contains(id: EventID) returns (found: bool)
      requires Valid()
      ensures found == (id in Recent(recorded))
    {
      ghost var base := |recorded| - |Recent(recorded)|;
      var n := if count > RING_SIZE then RING_SIZE else count;
      for i := 0 to n
        invariant forall j :: 0 <= j < i ==> buf[j] != id
      {
        if buf[i] == id {
          ghost var t := SlotOwner(|recorded|, i);
          assert recorded[t] == id && Recent(recorded)[t - base] == id;
          return true;
        }
      }
      forall k | 0 <= k < |Recent(recorded)|
        ensures Recent(recorded)[k] != id
      {
        assert Recent(recorded)[k] == recorded[base + k] == buf[Slot(base + k)];
      }
      return false;
    }
  }

  /** The add whose ID occupies slot i after n adds. */
  lemma SlotOwner(n: nat, i: nat) returns (t: nat)
    requires i < n && i < RING_SIZE
    ensures t < n && n - RING_SIZE <= t && Slot(t) == i
  {
    t := i + RING_SIZE * ((n - 1 - i) / RING_SIZE);
  }

  lemma NextSlot(n: nat)
    ensures (Slot(n) + 1) % RING_SIZE == Slot(n + 1)
  {
  }

  lemma SlotsDiffer(t: nat, n: nat)
    requires n - RING_SIZE < t < n
    ensures Slot(t) != Slot(n)
  {
  }

  // ----- expected echoes -----

  /** echoTTL, in nanoseconds. */
  const ECHO_TTL := 5_000_000_000

  datatype Echo = Echo(typ: byte, contentID: uint64, event: EventID, expires: int)

  predicate Matches(e: Echo, typ: byte, contentID: uint64)
  {
    e.typ == typ && e.contentID == contentID
  }

  function Live(s: seq<Echo>, now: int): (r: seq<Echo>)
    ensures |r| <= |s|
  {
    if s == [] then []
    else
      var r := Live(s[..|s| - 1], now);
      if s[|s| - 1].expires > now then r + [s[|s| - 1]] else r
  }

  function Expired(s: seq<Echo>, now: int): (r: seq<Echo>)
    ensures |r| <= |s|
  {
    if s == [] then []
    else
      var r := Expired(s[..|s| - 1], now);
      if s[|s| - 1].expires > now then r else r + [s[|s| - 1]]
  }

  /** The index of the oldest matching marker, or |s| when there is none. */
  function FirstMatch(s: seq<Echo>, typ: byte, contentID: uint64): (i: nat)
    ensures i <= |s|
    ensures i < |s| ==> Matches(s[i], typ, contentID)
    ensures forall j :: 0 <= j < i ==> !Matches(s[j], typ, contentID)
  {
    if s == [] then 0
    else if Matches(s[0], typ, contentID) then 0
    else 1 + FirstMatch(s[1..], typ, contentID)
  }

  datatype Taken = Taken(kept: seq<Echo>, matched: Option<Echo>)

  /** Drop the expired markers, then remove the oldest live match. */
  function TakeEcho(s: seq<Echo>, typ: byte, contentID: uint64, now: int): (r: Taken)
    ensures |r.kept| <= |s|
  {
    TakeFirst(Live(s, now), typ, contentID)
  }

  /** Remove the oldest match. */
  function TakeFirst(s: seq<Echo>, typ: byte, contentID: uint64): (r: Taken)
    ensures |r.kept| <= |s|
  {
    var i := FirstMatch(s, typ, contentID);
    if i < |s| then Taken(s[..i] + s[i + 1..], Some(s[i])) else Taken(s, None)
  }

  /** Remember e, forgetting the oldest marker when 32 are stored. */
  function PutEcho(s: seq<Echo>, e: Echo): (r: seq<Echo>)
    ensures |s| <= RING_SIZE ==> |r| <= RING_SIZE
  {
    if |s| == RING_SIZE then s[1..] + [e] else s + [e]
  }

  lemma {:induction false} LiveMeans(s: seq<Echo>, now: int)
    ensures forall e :: e in Live(s, now) <==> e in s && e.expires > now
    ensures forall e :: e in Expired(s, now) <==> e in s && e.expires <= now
  {
    if s != [] {
      LiveMeans(s[..|s| - 1], now);
      assert s == s[..|s| - 1] + [s[|s| - 1]];
    }
  }

  lemma {:induction false} FirstMatchSnoc(s: seq<Echo>, e: Echo, typ: byte, contentID: uint64)
    ensures FirstMatch(s + [e], typ, contentID)
         == if FirstMatch(s, typ, contentID) < |s| || Matches(e, typ, contentID)
            then FirstMatch(s, typ, contentID) else |s| + 1
  {
    if s == [] {
      assert (s + [e])[1..] == [];
    } else {
      FirstMatchSnoc(s[1..], e, typ, contentID);
      assert (s + [e])[1..] == s[1..] + [e];
    }
  }

  /** A notification is suppressed exactly when a live marker for its type and hash is stored. */
  lemma TakeEchoMeans(s: seq<Echo>, typ: byte, contentID: uint64, now: int)
    ensures var r := TakeEcho(s, typ, contentID, now);
            && (r.matched.Some? <==> exists e :: e in s && e.expires > now && Matches(e, typ, contentID))
            && (r.matched.Some? ==> r.matched.value in s && r.matched.value.expires > now
                                    && Matches(r.matched.value, typ, contentID))
  {
    LiveMeans(s, now);
    var live := Live(s, now);
    var i := FirstMatch(live, typ, contentID);
    if i < |live| {
      assert live[i] in live;
    } else {
      assert forall e :: e in live ==> !Matches(e, typ, contentID);
    }
  }

  /** One more marker examined: what an iteration of Consume's loop does. */
  lemma TakeEchoSnoc(s: seq<Echo>, e: Echo, typ: byte, contentID: uint64, now: int)
    ensures var r := TakeEcho(s, typ, contentID, now);
            TakeEcho(s + [e], typ, contentID, now) ==
            (if e.expires <= now then r
             else if r.matched.None? && Matches(e, typ, contentID) then Taken(r.kept, Some(e))
             else Taken(r.kept + [e], r.matched))
  {
    assert (s + [e])[..|s|] == s;
    if e.expires > now {
      var live := Live(s, now);
      var i := FirstMatch(live, typ, contentID);
      FirstMatchSnoc(live, e, typ, contentID);
      assert Live(s + [e], now) == live + [e];
      if i < |live| {
        assert (live + [e])[..i] == live[..i];
        assert (live + [e])[i + 1..] == live[i + 1..] + [e];
      } else if Matches(e, typ, contentID) {
        assert (live + [e])[..i] == live && (live + [e])[i + 1..] == [];
      }
    }
  }

  lemma TakeOneMore(s: seq<Echo>, i: nat, typ: byte, contentID: uint64, now: int, before: Taken) returns (after: Taken)
    requires i < |s| && before == TakeEcho(s[..i], typ, contentID, now)
    ensures after == TakeEcho(s[..i + 1], typ, contentID, now)
    ensures after == if s[i].expires <= now then before
                     else if before.matched.None? && Matches(s[i], typ, contentID) then Taken(before.kept, Some(s[i]))
                     else Taken(before.kept + [s[i]], before.matched)
  {
    TakeEchoSnoc(s[..i], s[i], typ, contentID, now);
    assert s[..i + 1] == s[..i] + [s[i]];
    after := TakeEcho(s[..i + 1], typ, contentID, now);
  }

  class EchoBuffer {
    /** The backing array of the slice; its first `size` elements are the slice. */
    var buf: array<Echo>
    var size: nat

    ghost predicate Valid()
      reads this
    {
      size <= buf.Length && size <= RING_SIZE
    }

    ghost function Entries(): (s: seq<Echo>)
      requires Valid()
      reads this, buf
      ensures |s| <= RING_SIZE
    {
      buf[..size]
    }

    constructor ()
      ensures Valid() && fresh(buf)
      ensures Entries() == []
    {
      buf := new Echo[0];
      size := 0;
    }

    method Add(typ: byte, contentID: uint64, event: EventID, now: int)
      requires Valid()
      modifies this, buf
      ensures Valid() && (buf == old(buf) || fresh(buf))
      ensures Entries() == PutEcho(old(Entries()), Echo(typ, contentID, event, now + ECHO_TTL))
    {
      var entry := Echo(typ, contentID, event, now + ECHO_TTL);
      if size == RING_SIZE {
        forall i | 0 <= i < size - 1 {
          buf[i] := buf[i + 1];
        }
        buf[size - 1] := entry;
        return;
      }
      if size == buf.Length {
        // append grows the backing array
        var grown := new Echo[2 * size + 1](_ => entry);
        forall i | 0 <= i < size {
          grown[i] := buf[i];
        }
        buf := grown;
      }
      buf[size] := entry;
      size := size + 1;
    }

    /** append to a slice of the first `kept` elements, which overwrites the next one. */
    method Append(kept: nat, entry: Echo)
      requires kept < buf.Length
      modifies buf
      ensures buf[..kept + 1] == old(buf[..kept]) + [entry]
      ensures forall j :: kept < j < buf.Length ==> buf[j] == old(buf[j])
    {
      buf[kept] := entry;
    }

    /** The kept entries are compacted into the array that is still being read. */
    method Consume(typ: byte, contentID: uint64, now: int) returns (matched: EventID, found: bool)
      requires Valid()
      modifies this, buf
      ensures Valid() && buf == old(buf)
      ensures var r := TakeEcho(old(Entries()), typ, contentID, now);
              && Entries() == r.kept
              && found == r.matched.Some?
              && (found ==> matched == r.matched.value.event)
    {
      ghost var was := Entries();
      ghost var r := Taken([], None);
      var kept := 0;
      matched, found := EventID(0, [], 0), false;
      for i := 0 to size
        invariant buf == old(buf) && size == |was| <= buf.Length && size <= RING_SIZE
        invariant r == TakeEcho(was[..i], typ, contentID, now)
        invariant kept == |r.kept| <= i && buf[..kept] == r.kept
        invariant forall j :: i <= j < size ==> buf[j] == was[j]
        invariant found == r.matched.Some? && (found ==> matched == r.matched.value.event)
      {
        var entry := buf[i];
        r := TakeOneMore(was, i, typ, contentID, now, r);
        if entry.expires <= now {
          continue;
        }
        if !found && Matches(entry, typ, contentID) {
          matched, found := entry.event, true;
          continue;
        }
        Append(kept, entry);
        kept := kept + 1;
      }
      assert was[..size] == was;
      size := kept;
    }
  }

  // ----- how long a marker is stored -----

  /** m is stored, with at most `later` markers behind it. */
  ghost predicate StoredBefore(s: seq<Echo>, m: Echo, later: nat)
  {
    exists p :: 0 <= p < |s| && s[p] == m && |s| - 1 - p <= later
  }

  lemma PutStores(s: seq<Echo>, e: Echo)
    ensures StoredBefore(PutEcho(s, e), e, 0)
  {
    var r := PutEcho(s, e);
    assert r[|r| - 1] == e;
  }

  /** Fewer than 32 further markers do not push m out. */
  lemma PutKeeps(s: seq<Echo>, m: Echo, later: nat, e: Echo)
    requires StoredBefore(s, m, later) && later < 31
    ensures StoredBefore(PutEcho(s, e), m, later + 1)
  {
    var p :| 0 <= p < |s| && s[p] == m && |s| - 1 - p <= later;
    var r := PutEcho(s, e);
    var q := if |r| == |s| then p - 1 else p;
    assert r[q] == m;
  }

  lemma {:induction false} LiveKeeps(s: seq<Echo>, m: Echo, later: nat, now: int)
    requires StoredBefore(s, m, later) && now < m.expires
    ensures StoredBefore(Live(s, now), m, later)
  {
    var p :| 0 <= p < |s| && s[p] == m && |s| - 1 - p <= later;
    var before, live := s[..|s| - 1], Live(s, now);
    if p == |s| - 1 {
      assert live[|live| - 1] == m;
    } else {
      assert before[p] == m;
      LiveKeeps(before, m, later - 1, now);
      var q :| 0 <= q < |Live(before, now)| && Live(before, now)[q] == m && |Live(before, now)| - 1 - q <= later - 1;
      assert live[q] == m;
    }
  }

  /** Before m expires, a notification of other content does not take it. */
  lemma TakeKeeps(s: seq<Echo>, m: Echo, later: nat, typ: byte, contentID: uint64, now: int)
    requires StoredBefore(s, m, later) && now < m.expires && !(m.typ == typ && m.contentID == contentID)
    ensures StoredBefore(TakeEcho(s, typ, contentID, now).kept, m, later)
  {
    LiveKeeps(s, m, later, now);
    var live := Live(s, now);
    var p :| 0 <= p < |live| && live[p] == m && |live| - 1 - p <= later;
    var i := FirstMatch(live, typ, contentID);
    var kept := TakeEcho(s, typ, contentID, now).kept;
    if i < |live| {
      assert kept[if p < i then p else p - 1] == m;
    } else {
      assert kept[p] == m;
    }
  }

  // ----- whole runs of one EchoBuffer -----

  datatype EchoOp =
    | Put(typ: byte, contentID: uint64, event: EventID, now: int)
    | Take(typ: byte, contentID: uint64, now: int)

  /** The markers stored after a run, and where every other added marker went. */
  datatype EchoRun = EchoRun(stored: seq<Echo>, added: multiset<Echo>, taken: multiset<Echo>, lost: multiset<Echo>)

  function RunOne(r: EchoRun, op: EchoOp): EchoRun
  {
    match op
    case Put(typ, contentID, event, now) =>
      var e := Echo(typ, contentID, event, now + ECHO_TTL);
      EchoRun(PutEcho(r.stored, e), r.added + multiset{e}, r.taken, r.lost + Evicted(r.stored))
    case Take(typ, contentID, now) =>
      var t := TakeEcho(r.stored, typ, contentID, now);
      EchoRun(t.kept, r.added, r.taken + Returned(t), r.lost + multiset(Expired(r.stored, now)))
  }

  function RunEchoes(ops: seq<EchoOp>): (r: EchoRun)
    ensures |r.stored| <= RING_SIZE
  {
    if ops == [] then EchoRun([], multiset{}, multiset{}, multiset{})
    else RunOne(RunEchoes(ops[..|ops| - 1]), ops[|ops| - 1])
  }

  lemma {:induction false} LiveAndExpired(s: seq<Echo>, now: int)
    ensures multiset(s) == multiset(Live(s, now)) + multiset(Expired(s, now))
  {
    if s != [] {
      LiveAndExpired(s[..|s| - 1], now);
      assert s == s[..|s| - 1] + [s[|s| - 1]];
    }
  }

  lemma RemoveOne(s: seq<Echo>, i: nat)
    requires i < |s|
    ensures multiset(s) == multiset(s[..i] + s[i + 1..]) + multiset{s[i]}
  {
    assert s == s[..i] + ([s[i]] + s[i + 1..]);
  }

  /** The markers TakeEcho returns, as a multiset of size at most one. */
  function Returned(t: Taken): multiset<Echo>
  {
    if t.matched.Some? then multiset{t.matched.value} else multiset{}
  }

  lemma TakeFirstConserves(s: seq<Echo>, typ: byte, contentID: uint64)
    ensures var t := TakeFirst(s, typ, contentID);
            multiset(s) == multiset(t.kept) + Returned(t)
  {
    var i := FirstMatch(s, typ, contentID);
    if i < |s| {
      RemoveOne(s, i);
    }
  }

  lemma {:induction false} TakeConserves(s: seq<Echo>, typ: byte, contentID: uint64, now: int)
    ensures var t := TakeEcho(s, typ, contentID, now);
            multiset(s) == multiset(t.kept) + Returned(t) + multiset(Expired(s, now))
  {
    LiveAndExpired(s, now);
    TakeFirstConserves(Live(s, now), typ, contentID);
  }

  /** The marker PutEcho forgets, as a multiset of size at most one. */
  function Evicted(s: seq<Echo>): multiset<Echo>
  {
    if |s| == RING_SIZE then multiset{s[0]} else multiset{}
  }

  lemma PutConserves(s: seq<Echo>, e: Echo)
    ensures multiset(s) + multiset{e} == multiset(PutEcho(s, e)) + Evicted(s)
  {
    if |s| == RING_SIZE {
      assert s == [s[0]] + s[1..];
      assert multiset(s) == multiset{s[0]} + multiset(s[1..]);
    }
  }

  ghost predicate Conserving(r: EchoRun)
  {
    r.added == multiset(r.stored) + r.taken + r.lost
  }

  lemma Rebalance(stored: multiset<Echo>, out: multiset<Echo>, lost: multiset<Echo>, add: multiset<Echo>,
                  stored': multiset<Echo>, outNow: multiset<Echo>, lostNow: multiset<Echo>)
    requires stored + add == stored' + outNow + lostNow
    ensures stored + out + lost + add == stored' + (out + outNow) + (lost + lostNow)
  {
    forall e: Echo
      ensures (stored + out + lost + add)[e] == (stored' + (out + outNow) + (lost + lostNow))[e]
    {
      assert (stored + add)[e] == (stored' + outNow + lostNow)[e];
    }
  }

  lemma RunOneConserves(r: EchoRun, op: EchoOp)
    requires Conserving(r)
    ensures Conserving(RunOne(r, op))
  {
    match op
    case Put(typ, contentID, event, now) =>
      var e := Echo(typ, contentID, event, now + ECHO_TTL);
      PutConserves(r.stored, e);
      Rebalance(multiset(r.stored), r.taken, r.lost, multiset{e},
                multiset(PutEcho(r.stored, e)), multiset{}, Evicted(r.stored));
    case Take(typ, contentID, now) =>
      var t := TakeEcho(r.stored, typ, contentID, now);
      TakeConserves(r.stored, typ, contentID, now);
      Rebalance(multiset(r.stored), r.taken, r.lost, multiset{},
                multiset(t.kept), Returned(t), multiset(Expired(r.stored, now)));
  }

  /**
    Over any run, every marker ever added is stored, or was returned, or was lost,
    each exactly as often as it was added: no marker suppresses two notifications.
    */
  lemma {:induction false} EveryMarkerOnce(ops: seq<EchoOp>)
    ensures var r := RunEchoes(ops);
            r.added == multiset(r.stored) + r.taken + r.lost
  {
    if ops != [] {
      EveryMarkerOnce(ops[..|ops| - 1]);
      RunOneConserves(RunEchoes(ops[..|ops| - 1]), ops[|ops| - 1]);
    }
  }

  ghost predicate SortedByExpiry(s: seq<Echo>)
  {
    forall i, j :: 0 <= i < j < |s| ==> s[i].expires <= s[j].expires
  }

  ghost predicate ClockNeverRunsBack(ops: seq<EchoOp>)
  {
    forall i, j :: 0 <= i < j < |ops| ==> ops[i].now <= ops[j].now
  }

  lemma {:induction false} NoneLive(s: seq<Echo>, now: int)
    requires forall i :: 0 <= i < |s| ==> s[i].expires <= now
    ensures Live(s, now) == []
  {
    if s != [] {
      NoneLive(s[..|s| - 1], now);
    }
  }

  lemma {:induction false} SortedSplit(s: seq<Echo>, now: int)
    requires SortedByExpiry(s)
    ensures s == Expired(s, now) + Live(s, now)
  {
    if s != [] {
      var s', e := s[..|s| - 1], s[|s| - 1];
      SortedSplit(s', now);
      assert s == s' + [e];
      if e.expires <= now {
        NoneLive(s', now);
      } else {
        assert s' + [e] == Expired(s', now) + (Live(s', now) + [e]);
      }
    }
  }

  /** Every marker of s expires by `limit`. */
  ghost predicate ExpireBy(s: seq<Echo>, limit: int)
  {
    forall i :: 0 <= i < |s| ==> s[i].expires <= limit
  }

  lemma {:induction false} TakeKeepsSorted(s: seq<Echo>, typ: byte, contentID: uint64, now: int, limit: int)
    requires SortedByExpiry(s) && ExpireBy(s, limit)
    ensures var r := TakeEcho(s, typ, contentID, now).kept;
            SortedByExpiry(r) && ExpireBy(r, limit)
  {
    SortedSplit(s, now);
    var live := Live(s, now);
    var i := FirstMatch(live, typ, contentID);
    assert SortedByExpiry(live) && ExpireBy(live, limit) by {
      assert forall k :: 0 <= k < |live| ==> live[k] == s[|Expired(s, now)| + k];
    }
    if i < |live| {
      RemoveKeepsSorted(live, i, limit);
    }
  }

  lemma RemoveKeepsSorted(s: seq<Echo>, i: nat, limit: int)
    requires i < |s| && SortedByExpiry(s) && ExpireBy(s, limit)
    ensures SortedByExpiry(s[..i] + s[i + 1..]) && ExpireBy(s[..i] + s[i + 1..], limit)
  {
  }

  lemma PutKeepsSorted(s: seq<Echo>, e: Echo)
    requires SortedByExpiry(s) && ExpireBy(s, e.expires)
    ensures SortedByExpiry(PutEcho(s, e)) && ExpireBy(PutEcho(s, e), e.expires)
  {
  }

  lemma RunOneSorted(r: EchoRun, op: EchoOp)
    requires SortedByExpiry(r.stored) && ExpireBy(r.stored, op.now + ECHO_TTL)
    ensures SortedByExpiry(RunOne(r, op).stored) && ExpireBy(RunOne(r, op).stored, op.now + ECHO_TTL)
  {
    match op
    case Put(typ, contentID, event, now) =>
      PutKeepsSorted(r.stored, Echo(typ, contentID, event, now + ECHO_TTL));
    case Take(typ, contentID, now) =>
      TakeKeepsSorted(r.stored, typ, contentID, now, now + ECHO_TTL);
  }

  lemma {:induction false} RunIsSorted(ops: seq<EchoOp>)
    requires ClockNeverRunsBack(ops)
    ensures SortedByExpiry(RunEchoes(ops).stored)
    ensures ops != [] ==> ExpireBy(RunEchoes(ops).stored, ops[|ops| - 1].now + ECHO_TTL)
  {
    if ops != [] {
      var before := ops[..|ops| - 1];
      var last := ops[|ops| - 1];
      var s := RunEchoes(before).stored;
      RunIsSorted(before);
      assert ExpireBy(s, last.now + ECHO_TTL) by {
        if before != [] {
          assert before[|before| - 1].now <= last.now;
        }
      }
      RunOneSorted(RunEchoes(before), last);
    }
  }

  /** Under a clock that never runs back the expired markers are a prefix of the buffer. */
  lemma {:induction false} ExpiredIsPrefix(ops: seq<EchoOp>, now: int)
    requires ClockNeverRunsBack(ops)
    ensures var s := RunEchoes(ops).stored;
            SortedByExpiry(s) && s == Expired(s, now) + Live(s, now)
  {
    RunIsSorted(ops);
    SortedSplit(RunEchoes(ops).stored, now);
  }
}
