/**
  clipboard_files_darwin.go: a download, from the offer to the Finder folder. What is received is
  what is placed.
  */
module MacPaste {
  import opened Wrappers
  import opened FileSource
  import opened MacPlacement
  import opened MacMoves
  import Staging
  import StagingRuns
  import OfferPath

  /** What is staged can be found by its path below the staging directory. */
  ghost predicate Shows<T>(world: map<string, T>, staging: string, fs: Staging.FileSystem)
  {
    forall p :: p in fs && p != [] ==> staging + "/" + OfferPath.Join(p) in world
  }

  /** Roots are distinct, every root has an entry, and none is named like a temporary copy. */
  ghost predicate Placeable(offer: FileOffer, pid: nat)
  {
    && (forall i, j :: 0 <= i < j < |offer.roots| ==> offer.roots[i] != offer.roots[j])
    && (forall i :: 0 <= i < |offer.roots| ==>
          StagingRuns.HasRoot(offer.entries, offer.roots[i]) && !EndsWith(offer.roots[i], TemporarySuffix(pid)))
  }

  lemma RootPath(offer: FileOffer, ctx: OfferPath.Context, staging: string, i: nat)
    requires OfferPath.ValidOffer(offer, ctx) && OfferPath.CleanDirectory(staging) && i < |offer.roots|
    ensures OfferPath.JoinPath(staging, offer.roots[i]) == JoinName(staging, offer.roots[i])
  {
    OfferPath.StagedInside(staging, offer.roots[i], ctx.upper);
  }

  /** A success of receiving such an offer meets all that placement asks for. */
  lemma ReceivedIsPlaceable<T>(offer: FileOffer, ctx: OfferPath.Context, staging: string, pid: nat, paths: seq<string>,
                               states: seq<Staging.FileSystem>, lucks: seq<Staging.Luck>, world: map<string, T>)
    requires OfferPath.ValidOffer(offer, ctx) && OfferPath.CleanDirectory(staging)
    requires Staging.Harmless(offer.entries) && Placeable(offer, pid)
    requires Staging.IsRun(states, offer.entries, lucks, |offer.entries|)
    requires Staging.StagedRoots(paths, staging, offer.roots)
    requires Shows(world, staging, states[|offer.entries|])
    ensures Distinct(paths) && NoneTemporary(paths, TemporarySuffix(pid)) && Existing(world, paths)
  {
    RootPaths(offer, ctx, staging, paths);
    EntriesHaveSizes(offer, ctx);
    forall i | 0 <= i < |paths|
      ensures paths[i] in world && !EndsWith(paths[i], TemporarySuffix(pid))
    {
      RootFound(offer.entries, offer.roots[i], staging, pid, states, lucks, world);
    }
    forall i, j | 0 <= i < j < |paths|
      ensures paths[i] != paths[j]
    {
      JoinInjective(staging, offer.roots[i], offer.roots[j]);
    }
  }

  lemma EntriesHaveSizes(offer: FileOffer, ctx: OfferPath.Context)
    requires OfferPath.ValidOffer(offer, ctx)
    ensures forall k :: 0 <= k < |offer.entries| ==> offer.entries[k].size >= 0
  {
  }

  lemma JoinInjective(directory: string, a: string, b: string)
    ensures JoinName(directory, a) == JoinName(directory, b) ==> a == b
  {
    assert JoinName(directory, a)[|directory| + 1..] == a && JoinName(directory, b)[|directory| + 1..] == b;
  }

  lemma RootFound<T>(entries: seq<FileEntry>, root: string, staging: string, pid: nat, states: seq<Staging.FileSystem>,
                     lucks: seq<Staging.Luck>, world: map<string, T>)
    requires Staging.Harmless(entries) && forall k :: 0 <= k < |entries| ==> entries[k].size >= 0
    requires Staging.IsRun(states, entries, lucks, |entries|) && Shows(world, staging, states[|entries|])
    requires StagingRuns.HasRoot(entries, root) && !EndsWith(root, TemporarySuffix(pid))
    ensures JoinName(staging, root) in world && !EndsWith(JoinName(staging, root), TemporarySuffix(pid))
  {
    StagingRuns.RootsStaged(states, entries, lucks, root);
    assert OfferPath.Join([root]) == root;
    NameEnds(staging, root, pid);
  }

  lemma NameEnds(directory: string, name: string, pid: nat)
    requires !EndsWith(name, TemporarySuffix(pid))
    ensures !EndsWith(JoinName(directory, name), TemporarySuffix(pid))
  {
    SuffixIs(pid);
    if EndsWith(JoinName(directory, name), TemporarySuffix(pid)) {
      EndAfter(directory, '/', name, TemporarySuffix(pid));
    }
  }

  /**
    download, once the destination is known: receive the offer, then place what was received. `view`
    is how the staged files, and whatever else there is, are found by their paths.
    */
  method ReceiveAndPlace<T>(stager: Staging.Stager, offer: FileOffer, ctx: OfferPath.Context, staging: string,
                            prepared: bool, lucks: seq<Staging.Luck>, view: Staging.FileSystem -> map<string, T>,
                            failing: set<string>, destination: string, pid: nat, moves: seq<Move>, lower: char -> char)
    returns (paths: Option<seq<string>>, placed: bool, ghost world': map<string, T>)
    requires |lucks| == |offer.entries| && |moves| == |offer.roots| && KeepsDigits(lower)
    requires stager.reports == [] && stager.trace == [stager.fs] && stager.fetched == {}
    requires OfferPath.CleanDirectory(staging) && forall fs :: Shows(view(fs), staging, fs)
    modifies stager
    ensures paths.None? ==> !placed && world' == view(stager.fs)
    ensures paths.Some? && Staging.Harmless(offer.entries) && Placeable(offer, pid) ==>
              RootsAt(offer.roots, staging, view(stager.fs), world', paths.value)
  {
    placed := false;
    ghost var done, reached, states;
    var roots;
    roots, done, reached, states := stager.Receive(offer, ctx, staging, prepared, lucks);
    world' := view(stager.fs);
    if roots.None? {
      return None, false, world';
    }
    var k, targets, list, after;
    ghost var world := world';
    placed, list, after, targets, k :=
      PlaceMacDownloadedPaths(view(stager.fs), failing, roots.value, destination, pid, moves, lower);
    world', paths := after, Some(list);
    if Staging.Harmless(offer.entries) && Placeable(offer, pid) {
      ReceivedIsPlaceable(offer, ctx, staging, pid, roots.value, states, lucks, world);
      assert Accounted(world, world', roots.value, list);
      RootPaths(offer, ctx, staging, roots.value);
      RootsFollow(offer.roots, staging, world, world', roots.value, list);
    }
  }

  /** What was at the path of each root, below the staging directory, is at the path that the list gives. */
  ghost predicate RootsAt<T>(roots: seq<string>, staging: string, world: map<string, T>, world': map<string, T>,
                             paths: seq<string>)
  {
    |paths| == |roots| && forall i :: 0 <= i < |roots| ==>
      && JoinName(staging, roots[i]) in world && paths[i] in world'
      && world'[paths[i]] == world[JoinName(staging, roots[i])]
  }

  lemma RootsFollow<T>(roots: seq<string>, staging: string, world: map<string, T>, world': map<string, T>,
                       staged: seq<string>, paths: seq<string>)
    requires Accounted(world, world', staged, paths) && Existing(world, staged) && |staged| == |roots|
    requires forall i :: 0 <= i < |staged| ==> staged[i] == JoinName(staging, roots[i])
    ensures RootsAt(roots, staging, world, world', paths)
  {
  }

  lemma RootPaths(offer: FileOffer, ctx: OfferPath.Context, staging: string, paths: seq<string>)
    requires OfferPath.ValidOffer(offer, ctx) && OfferPath.CleanDirectory(staging)
    requires Staging.StagedRoots(paths, staging, offer.roots)
    ensures forall i :: 0 <= i < |paths| ==> paths[i] == JoinName(staging, offer.roots[i])
  {
    forall i | 0 <= i < |paths|
      ensures paths[i] == JoinName(staging, offer.roots[i])
    {
      RootPath(offer, ctx, staging, i);
    }
  }
}
