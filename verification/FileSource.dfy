/** file_sync.go: the source side of an on-demand file offer. */
module FileSource {
  import opened Wrappers
  import opened Bytes

  const FILE_OFFER_VERSION := 1
  /** 24 hours, in nanoseconds. */
  const FILE_OFFER_LIFETIME := 86_400_000_000_000
  const SECOND := 1_000_000_000
  const MAX_FILE_ENTRIES := 4096

  datatype FileEntry = FileEntry(path: string, size: int64, modTimeNS: int64, directory: bool)

  datatype FileOffer = FileOffer(
    version: int, id: string, address: string, expires: int, roots: seq<string>, entries: seq<FileEntry>)

  /** time.Time.Unix of a time in nanoseconds, rounded down also before 1970. */
  function Unix(ns: int): int
  {
    ns / SECOND
  }

  /** An offer that came from a peer: the how-manieth, and what it says. */
  datatype Received = Received(number: nat, offer: FileOffer)

  datatype ProvidedFile = ProvidedFile(entry: FileEntry, path: string)

  // ----- what the file system answers -----

  datatype Kind = Directory | Regular | Symlink | Special

  /** One callback of filepath.WalkDir. */
  datatype Visit =
    | Found(offerPath: string, path: string, kind: Kind, size: int64, modTimeNS: int64)
    | WalkFailed

  /** A selected path: its base name, the lower-cased name, and the walk below it, which starts at the path itself. */
  datatype Selected = Unresolvable | Selected(rootName: string, rootKey: string, visits: seq<Visit>)

  datatype CreateError =
    | EmptySelection
    | NoToken
    | Unresolved
    | FilesystemRoot
    | DuplicateRoot
    | TooManyEntries
    | Uninspectable

  // ----- what Create collects -----

  predicate Offerable(v: Visit)
  {
    v.Found? && (v.kind == Directory || v.kind == Regular)
  }

  function Provided(v: Visit): ProvidedFile
    requires Offerable(v)
  {
    ProvidedFile(FileEntry(v.offerPath, v.size, v.modTimeNS, v.kind == Directory), v.path)
  }

  function ProvidedAll(vs: seq<Visit>): (r: seq<ProvidedFile>)
    requires forall v :: v in vs ==> Offerable(v)
    ensures |r| == |vs|
  {
    seq(|vs|, i requires 0 <= i < |vs| => Provided(vs[i]))
  }

  /** Everything walked for a selection, in order. */
  function AllVisits(sel: seq<Selected>): seq<Visit>
  {
    if sel == [] then []
    else AllVisits(sel[..|sel| - 1]) + (if sel[|sel| - 1].Selected? then sel[|sel| - 1].visits else [])
  }

  predicate ProperRoot(s: Selected)
  {
    s.Selected? && s.rootName != "." && s.rootName != "/" && s.rootName != ""
  }

  ghost predicate DistinctRoots(sel: seq<Selected>)
  {
    forall i, j :: 0 <= i < j < |sel| && sel[i].Selected? && sel[j].Selected? ==> sel[i].rootKey != sel[j].rootKey
  }

  /** Exactly the selections Create turns into an offer. */
  ghost predicate CanOffer(sel: seq<Selected>)
  {
    && sel != []
    && (forall s :: s in sel ==> ProperRoot(s))
    && DistinctRoots(sel)
    && (forall v :: v in AllVisits(sel) ==> Offerable(v))
    && |AllVisits(sel)| <= MAX_FILE_ENTRIES
  }

  /**
    A selection is offered when it is not empty, every path resolves to something below the file
    system's root, no two have one name but for the case of letters, and the walks find directories
    and regular files only, at most 4096.
    */
  lemma SelectionsOffered(sel: seq<Selected>)
    ensures CanOffer(sel) <==>
              && |sel| > 0 && |AllVisits(sel)| <= 4096
              && (forall i :: 0 <= i < |sel| ==> sel[i].Selected? && sel[i].rootName !in {"", ".", "/"})
              && (forall i, j :: 0 <= i < j < |sel| && sel[i].Selected? && sel[j].Selected? ==>
                    sel[i].rootKey != sel[j].rootKey)
              && (forall k :: 0 <= k < |AllVisits(sel)| ==>
                    var v := AllVisits(sel)[k]; v.Found? && !v.kind.Symlink? && !v.kind.Special?)
  {
    var visits := AllVisits(sel);
    assert (forall s :: s in sel ==> ProperRoot(s)) <==> forall i :: 0 <= i < |sel| ==> ProperRoot(sel[i]);
    assert (forall v :: v in visits ==> Offerable(v)) <==> forall k :: 0 <= k < |visits| ==> Offerable(visits[k]);
  }

  /** What the walk so far amounts to. */
  ghost predicate Collected(sel: seq<Selected>, seen: set<string>, roots: seq<string>, files: seq<ProvidedFile>)
  {
    && (forall s :: s in sel ==> ProperRoot(s))
    && DistinctRoots(sel)
    && (forall v :: v in AllVisits(sel) ==> Offerable(v))
    && (forall k :: k in seen <==> exists i :: 0 <= i < |sel| && sel[i].Selected? && sel[i].rootKey == k)
    && |roots| == |sel| && (forall i :: 0 <= i < |sel| ==> sel[i].Selected? && roots[i] == sel[i].rootName)
    && files == ProvidedAll(AllVisits(sel))
    && |files| <= MAX_FILE_ENTRIES
  }

  /** What a FileFetchRequest finds: the path opened, or nothing. */
  datatype FileInfo = FileInfo(regular: bool, size: int64, modTimeNS: int64)

  /** What the provider keeps of its offer. */
  datatype ProviderState = ProviderState(id: string, expires: int, files: seq<ProvidedFile>)

  const CLEARED := ProviderState("", 0, [])

  function EntriesOf(files: seq<ProvidedFile>): (r: seq<FileEntry>)
    ensures |r| == |files|
    ensures forall i :: 0 <= i < |files| ==> r[i] == files[i].entry
  {
    seq(|files|, i requires 0 <= i < |files| => files[i].entry)
  }

  /** The entries of an offer tell, in order, what the walk found. */
  ghost predicate ListsVisits(entries: seq<FileEntry>, visits: seq<Visit>)
  {
    |entries| == |visits| && forall k :: 0 <= k < |visits| ==>
      && visits[k].Found? && entries[k].path == visits[k].offerPath && entries[k].size == visits[k].size
      && entries[k].modTimeNS == visits[k].modTimeNS && (entries[k].directory <==> visits[k].kind.Directory?)
  }

  lemma EntriesListVisits(visits: seq<Visit>)
    requires forall v :: v in visits ==> Offerable(v)
    ensures ListsVisits(EntriesOf(ProvidedAll(visits)), visits)
  {
    forall k | 0 <= k < |visits|
      ensures EntriesOf(ProvidedAll(visits))[k] == Provided(visits[k]).entry && Offerable(visits[k])
    {
    }
  }

  class FileProvider {
    var id: string
    var expires: int
    var files: seq<ProvidedFile>

    ghost function State(): ProviderState
      reads this
    {
      ProviderState(id, expires, files)
    }

    constructor ()
      ensures State() == CLEARED
    {
      id, expires, files := "", 0, [];
    }

    method Clear()
      modifies this
      ensures State() == CLEARED
    {
      id, expires, files := "", 0, [];
    }

    /** The offer lists, in order, exactly the files kept for serving; a failure leaves nothing to serve. */
    method Create(sel: seq<Selected>, address: string, token: Option<string>, now: int)
      returns (r: Result<FileOffer, CreateError>)
      modifies this
      ensures r.Ok? <==> CanOffer(sel) && token.Some?
      ensures r.Err? ==> State() == CLEARED
      ensures r.Ok? ==>
                && r.value.version == FILE_OFFER_VERSION && r.value.id == token.value && r.value.address == address
                && r.value.expires == Unix(now + FILE_OFFER_LIFETIME)
                && r.value.entries == EntriesOf(files)
                && CanOffer(sel)
                && State() == ProviderState(token.value, now + FILE_OFFER_LIFETIME, ProvidedAll(AllVisits(sel)))
                && |r.value.roots| == |sel|
                && (forall i :: 0 <= i < |sel| ==> sel[i].Selected? && r.value.roots[i] == sel[i].rootName)
                && ListsVisits(r.value.entries, AllVisits(sel))
    {
      Clear();
      if |sel| == 0 {
        return Err(EmptySelection);
      }
      if token.None? {
        return Err(NoToken);
      }
      var seenRoots: set<string>, roots: seq<string>, found: seq<ProvidedFile> := {}, [], [];
      for k := 0 to |sel|
        invariant State() == CLEARED
        invariant Collected(sel[..k], seenRoots, roots, found)
      {
        var s := sel[k];
        assert sel[..k + 1] == sel[..k] + [s];
        if s.Unresolvable? {
          assert !ProperRoot(s);
          return Err(Unresolved);
        }
        if !ProperRoot(s) {
          return Err(FilesystemRoot);
        }
        if s.rootKey in seenRoots {
          DuplicateRootFails(sel, k, seenRoots, roots, found);
          return Err(DuplicateRoot);
        }
        seenRoots := seenRoots + {s.rootKey};
        roots := roots + [s.rootName];
        var ok, more := Walk(s.visits, found);
        if !ok {
          WalkFails(sel, k, found);
          return Err(Uninspectable);
        }
        CollectOne(sel[..k], s, seenRoots - {s.rootKey}, roots[..k], found, more);
        assert roots[..k] + [s.rootName] == roots;
        found := more;
      }
      assert sel[..|sel|] == sel;
      var entries := EntriesOf(found);
      EntriesListVisits(AllVisits(sel));
      id, expires, files := token.value, now + FILE_OFFER_LIFETIME, found;
      return Ok(FileOffer(FILE_OFFER_VERSION, token.value, address, Unix(expires), roots, entries));
    }

    /** filepath.WalkDir with Create's callback: stop at the first entry that cannot be offered. */
    method Walk(visits: seq<Visit>, found: seq<ProvidedFile>) returns (ok: bool, more: seq<ProvidedFile>)
      ensures ok <==> && (forall v :: v in visits ==> Offerable(v))
                      && (|found| + |visits| <= MAX_FILE_ENTRIES || visits == [])
      ensures ok ==> more == found + ProvidedAll(visits)
    {
      more := found;
      for j := 0 to |visits|
        invariant forall v :: v in visits[..j] ==> Offerable(v)
        invariant more == found + ProvidedAll(visits[..j])
        invariant |more| <= MAX_FILE_ENTRIES || j == 0
      {
        var v := visits[j];
        assert v in visits && visits[..j + 1] == visits[..j] + [v];
        if !v.Found? || |more| >= MAX_FILE_ENTRIES || !Offerable(v) {
          return false, more;
        }
        more := more + [Provided(v)];
        assert ProvidedAll(visits[..j + 1]) == ProvidedAll(visits[..j]) + [Provided(v)];
      }
      assert visits[..|visits|] == visits;
      return true, more;
    }

    /** Serve a request (offerID, index) at time `now`; `stat` is what os.Open and Stat find now. */
    method Open(offerID: string, index: int, now: int, stat: string -> Option<FileInfo>)
      returns (served: Option<string>)
      ensures served.Some? <==> Serves(State(), offerID, index, now, stat)
      ensures served.Some? ==> served.value == files[index].path
    {
      if offerID == "" || offerID != id || now > expires {
        return None;
      }
      if index < 0 || index >= |files| {
        return None;
      }
      var provided := files[index];
      if provided.entry.directory {
        return None;
      }
      var info := stat(provided.path);
      if info.None? || !info.value.regular || info.value.size != provided.entry.size
         || info.value.modTimeNS != provided.entry.modTimeNS {
        return None;
      }
      return Some(provided.path);
    }

    /** Answer a request, if it could be parsed; `read` is what a file holds. */
    method Serve(request: Option<(string, int)>, now: int, stat: string -> Option<FileInfo>, read: string -> seq<byte>)
      returns (sent: seq<byte>)
      ensures sent == Reply(State(), request, now, stat, read)
    {
      if request.None? {
        return FetchHeader(FETCH_ERROR, 0);
      }
      var path := Open(request.value.0, request.value.1, now, stat);
      if path.None? {
        return FetchHeader(FETCH_ERROR, 0);
      }
      var size := files[request.value.1].entry.size;
      sent := FetchHeader(FETCH_OK, size) + Prefix(read(path.value), size);
    }
  }

  const FETCH_OK: byte := 0
  const FETCH_ERROR: byte := 1
  const FETCH_HEADER_SIZE := 9

  function FetchHeader(status: byte, size: int64): (h: seq<byte>)
    ensures |h| == FETCH_HEADER_SIZE
  {
    [status] + BigEndian(ToUint64(size), 8)
  }

  /** At most the first n bytes, as io.CopyN takes them. */
  function Prefix(s: seq<byte>, n: int): (r: seq<byte>)
    ensures r <= s && (0 <= n <= |s| ==> |r| == n) && (n > |s| ==> r == s)
  {
    if n <= 0 then [] else if n <= |s| then s[..n] else s
  }

  /** What a request is answered with. */
  ghost function Reply(p: ProviderState, request: Option<(string, int)>, now: int, stat: string -> Option<FileInfo>,
                       read: string -> seq<byte>): seq<byte>
  {
    if request.Some? && Serves(p, request.value.0, request.value.1, now, stat) then
      var f := p.files[request.value.1];
      FetchHeader(FETCH_OK, f.entry.size) + Prefix(read(f.path), f.entry.size)
    else FetchHeader(FETCH_ERROR, 0)
  }

  /** The file behind the request is still the one whose metadata was offered. */
  ghost predicate Unchanged(f: ProvidedFile, stat: string -> Option<FileInfo>)
  {
    stat(f.path) == Some(FileInfo(true, f.entry.size, f.entry.modTimeNS))
  }

  ghost predicate Serves(p: ProviderState, offerID: string, index: int, now: int, stat: string -> Option<FileInfo>)
  {
    && offerID != "" && offerID == p.id && now <= p.expires
    && 0 <= index < |p.files| && !p.files[index].entry.directory
    && Unchanged(p.files[index], stat)
  }

  /**
    What Create offers is what Serve sends. For the k-th thing found by the walk: when it is a
    regular file that is still what it was, and the offer is no older than 24 hours, the reply is a
    zero byte, its size in eight bytes and its first bytes, up to that size; in every other case it
    is a one followed by eight zeros.
    */
  lemma ServedAsWalked(visits: seq<Visit>, token: string, created: int, id: string, k: int, now: int,
                       stat: string -> Option<FileInfo>, read: string -> seq<byte>)
    requires forall v :: v in visits ==> Offerable(v)
    ensures var p := ProviderState(token, created + FILE_OFFER_LIFETIME, ProvidedAll(visits));
            var reply := Reply(p, Some((id, k)), now, stat, read);
            if id == token && id != "" && now - created <= 24 * 3600 * 1_000_000_000 && 0 <= k < |visits|
               && visits[k].Found? && visits[k].kind.Regular?
               && stat(visits[k].path) == Some(FileInfo(true, visits[k].size, visits[k].modTimeNS))
            then
              var size, content := visits[k].size, read(visits[k].path);
              reply == [0] + BigEndian(ToUint64(size), 8)
                       + (if size <= 0 then [] else if size <= |content| then content[..size] else content)
            else reply == [1, 0, 0, 0, 0, 0, 0, 0, 0]
  {
    if 0 <= k < |visits| {
      assert Offerable(visits[k]) && ProvidedAll(visits)[k] == Provided(visits[k]);
    }
    ZeroBytes(8);
  }

  lemma {:induction false} ZeroBytes(n: nat)
    ensures BigEndian(0, n) == seq(n, _ => 0)
  {
    if n > 0 {
      ZeroBytes(n - 1);
    }
  }

  /** Everything the walks find is offered, selection by selection. */
  lemma VisitsInOrder(a: seq<Selected>, s: Selected)
    ensures AllVisits([]) == []
    ensures AllVisits(a + [s]) == AllVisits(a) + if s.Selected? then s.visits else []
  {
    assert (a + [s])[..|a|] == a;
  }

  /**
    The offer runs out for its receivers, who compare seconds, at most a second before it does
    here, and never after.
    */
  lemma ExpiryAgrees(now: int, expires: int)
    ensures Unix(now) < Unix(expires) ==> now <= expires
    ensures now + SECOND <= expires ==> Unix(now) < Unix(expires)
    ensures 1_000_000_000 * Unix(now) <= now < 1_000_000_000 * Unix(now) + 1_000_000_000
  {
  }

  // ----- the walk over the selection -----

  lemma CollectOne(sel: seq<Selected>, s: Selected, seen: set<string>, roots: seq<string>,
                   files: seq<ProvidedFile>, more: seq<ProvidedFile>)
    requires Collected(sel, seen, roots, files)
    requires ProperRoot(s) && s.rootKey !in seen && (forall v :: v in s.visits ==> Offerable(v))
    requires more == files + ProvidedAll(s.visits) && |more| <= MAX_FILE_ENTRIES
    ensures Collected(sel + [s], seen + {s.rootKey}, roots + [s.rootName], more)
  {
    var sel' := sel + [s];
    assert sel'[..|sel|] == sel;
    assert AllVisits(sel') == AllVisits(sel) + s.visits;
    assert forall i :: 0 <= i < |sel| ==> sel'[i] == sel[i];
    forall k | k in seen + {s.rootKey}
      ensures exists i :: 0 <= i < |sel'| && sel'[i].Selected? && sel'[i].rootKey == k
    {
      if k in seen {
        var i :| 0 <= i < |sel| && sel[i].Selected? && sel[i].rootKey == k;
        assert sel'[i].rootKey == k;
      } else {
        assert sel'[|sel|].rootKey == k;
      }
    }
  }

  lemma DuplicateRootFails(sel: seq<Selected>, k: nat, seen: set<string>, roots: seq<string>, files: seq<ProvidedFile>)
    requires k < |sel| && Collected(sel[..k], seen, roots, files)
    requires sel[k].Selected? && sel[k].rootKey in seen
    ensures !CanOffer(sel)
  {
    var i :| 0 <= i < k && sel[..k][i].Selected? && sel[..k][i].rootKey == sel[k].rootKey;
    assert sel[i].rootKey == sel[k].rootKey;
  }

  lemma {:induction false} VisitsPrefix(sel: seq<Selected>, k: nat)
    requires k <= |sel|
    ensures AllVisits(sel[..k]) <= AllVisits(sel)
  {
    if k < |sel| {
      VisitsPrefix(sel[..|sel| - 1], k);
      assert sel[..|sel| - 1][..k] == sel[..k];
    } else {
      assert sel[..k] == sel;
    }
  }

  lemma WalkFails(sel: seq<Selected>, k: nat, files: seq<ProvidedFile>)
    requires k < |sel| && sel[k].Selected?
    requires |files| == |AllVisits(sel[..k])|
    requires (exists v :: v in sel[k].visits && !Offerable(v)) || |files| + |sel[k].visits| > MAX_FILE_ENTRIES
    ensures !CanOffer(sel)
  {
    VisitsPrefix(sel, k + 1);
    assert sel[..k + 1][..k] == sel[..k];
    var upTo := AllVisits(sel[..k + 1]);
    assert upTo == AllVisits(sel[..k]) + sel[k].visits;
    if v :| v in sel[k].visits && !Offerable(v) {
      assert v in upTo && v in AllVisits(sel);
    }
  }

  /** On success the offer has between 1 and 4096 entries: a walk reports at least its own root. */
  lemma OfferSize(sel: seq<Selected>)
    requires CanOffer(sel) && (forall s :: s in sel ==> s.Selected? && s.visits != [])
    ensures 1 <= |AllVisits(sel)| <= MAX_FILE_ENTRIES
  {
    assert sel[|sel| - 1] in sel;
  }
}
