/**
  file_sync.go: whole runs of the loop that receives an offer. Which offers it receives without
  losing anything, and at which of the offered roots something is staged in the end.
  */
module StagingRuns {
  import opened Wrappers
  import opened Bytes
  import opened FileSource
  import opened Reporting
  import opened Staging
  import OfferPath

  // ----- single fetches -----

  /**
    A completed fetch of e keeps another staged entry exactly when that is the same file with
    the same size, or has neither the path nor the temporary name of e.
    */
  lemma FetchKeepsOther(fs: FileSystem, e: FileEntry, other: FileEntry, content: seq<byte>)
    requires Staged(fs, other) && !e.directory && |content| == e.size
    ensures Staged(Installed(fs, e, content), other) <==>
            if other.path == e.path then !other.directory && other.size == e.size else other.path != e.path + ".part"
  {
    TargetsMeet(e, other);
  }

  /** Whatever was staged before a fetch that can complete is staged after it. */
  ghost predicate FetchesKeepStaged(entries: seq<FileEntry>)
  {
    forall fs: FileSystem, i: nat, j: nat, content: seq<byte> ::
      i < |entries| && j < |entries| ==> FetchKeeps(fs, entries[j], entries[i], content)
  }

  ghost predicate FetchKeeps(fs: FileSystem, e: FileEntry, other: FileEntry, content: seq<byte>)
  {
    CanFetch(fs, e) && |content| == e.size && Staged(fs, other) ==> Staged(Installed(fs, e, content), other)
  }

  lemma AlongKeeps(fs: FileSystem, e: FileEntry, other: FileEntry, content: seq<byte>)
    requires GetAlong(e, other)
    ensures FetchKeeps(fs, e, other, content)
  {
    if CanFetch(fs, e) && |content| == e.size && Staged(fs, other) {
      FetchKeepsOther(fs, e, other, content);
    }
  }

  /** Two files that do not get along: a file system in which fetching e loses the other, which is complete. */
  lemma NotAlongLoses(e: FileEntry, other: FileEntry) returns (fs: FileSystem, content: seq<byte>)
    requires !GetAlong(e, other) && e.size >= 0 && other.size >= 0
    ensures CanFetch(fs, e) && !Staged(fs, e) && |content| == e.size
    ensures Staged(fs, other) && !Staged(Installed(fs, e, content), other)
  {
    var parent := Target(e)[..|Target(e)| - 1];
    var dirs := AddDirs(map[], parent, |parent|);
    AddDirsAdds(map[], parent, |parent|);
    assert parent[..|parent|] == parent;
    TargetsMeet(e, other);
    assert Part(Target(e))[..|parent|] == parent;
    AddedAreShort(map[], parent, |parent|);
    fs := dirs[Target(other) := File(seq(other.size, _ => 0))];
    content := seq(e.size, _ => 0);
    FetchKeepsOther(fs, e, other, content);
  }

  lemma {:induction false} AddedAreShort(fs: FileSystem, p: Path, depth: nat)
    requires depth <= |p|
    ensures forall q :: q in AddDirs(fs, p, depth) ==> q in fs || |q| <= depth
  {
    if depth > 0 {
      AddedAreShort(fs, p, depth - 1);
    }
  }

  /** The condition on an offer is exact: its fetches never lose a complete entry if and only if its files get along. */
  lemma FetchesKeepStagedIff(entries: seq<FileEntry>)
    requires forall k :: 0 <= k < |entries| ==> entries[k].size >= 0
    ensures FetchesKeepStaged(entries) <==> Harmless(entries)
  {
    if Harmless(entries) {
      forall fs: FileSystem, i: nat, j: nat, content: seq<byte> | i < |entries| && j < |entries|
        ensures FetchKeeps(fs, entries[j], entries[i], content)
      {
        AlongKeeps(fs, entries[j], entries[i], content);
      }
    } else {
      var i: nat, j: nat :| i < |entries| && j < |entries| && !GetAlong(entries[j], entries[i]);
      var fs, content := NotAlongLoses(entries[j], entries[i]);
      assert !FetchKeeps(fs, entries[j], entries[i], content);
    }
  }

  // ----- offers in which no file is a directory -----

  /** No file, and no temporary file, has the path of a directory that is made for an entry. */
  predicate NoFileIsDirectory(entries: seq<FileEntry>)
  {
    forall j, k :: 0 <= j < |entries| && 0 <= k < |entries| && !entries[j].directory ==>
      !(Target(entries[j]) <= DirsOf(entries[k])) && !(Part(Target(entries[j])) <= DirsOf(entries[k]))
  }

  /** There are directories at most where directories are needed, and files at most where files are. */
  ghost predicate Tidy(fs: FileSystem, entries: seq<FileEntry>)
  {
    && (forall k, p :: 0 <= k < |entries| && p in fs && p != [] && p <= DirsOf(entries[k]) ==> fs[p] == Dir)
    && (forall k :: 0 <= k < |entries| && !entries[k].directory ==>
          PartFree(fs, entries[k]) && (Target(entries[k]) in fs ==> fs[Target(entries[k])].File?))
  }

  lemma {:induction false} AddDirsOnly(fs: FileSystem, p: Path, depth: nat)
    requires depth <= |p|
    ensures forall q :: q in AddDirs(fs, p, depth) && q !in fs ==> q != [] && q <= p
  {
    if depth > 0 {
      AddDirsOnly(fs, p, depth - 1);
    }
  }

  lemma DirsStayTidy(fs: FileSystem, entries: seq<FileEntry>, i: nat)
    requires NoFileIsDirectory(entries) && Tidy(fs, entries) && i < |entries|
    ensures Tidy(WithDirs(fs, entries[i]), entries)
  {
    AddDirsAdds(fs, DirsOf(entries[i]), |DirsOf(entries[i])|);
    AddDirsOnly(fs, DirsOf(entries[i]), |DirsOf(entries[i])|);
  }

  lemma InstallStaysTidy(fs: FileSystem, entries: seq<FileEntry>, i: nat, content: seq<byte>)
    requires NoFileIsDirectory(entries) && Tidy(fs, entries) && i < |entries| && !entries[i].directory
    ensures Tidy(Installed(fs, entries[i], content), entries)
  {
  }

  lemma EntryStaysTidy(fs: FileSystem, entries: seq<FileEntry>, i: nat, luck: Luck)
    requires NoFileIsDirectory(entries) && Tidy(fs, entries) && i < |entries|
    ensures Tidy(AfterEntry(fs, entries[i], luck), entries)
  {
    DirsStayTidy(fs, entries, i);
    if !Skips(fs, entries[i], luck) {
      InstallStaysTidy(WithDirs(fs, entries[i]), entries, i, Prefix(Flatten(luck.chunks), entries[i].size));
    }
  }

  /** Everything goes well, and the source sends zeros. */
  function GoodLuck(e: FileEntry): Luck
  {
    Luck(|DirsOf(e)|, true, Some((true, e.size)), true, [Zeros(e.size)], |Zeros(e.size)|, true, true, true)
  }

  lemma GoodLuckSends(e: FileEntry)
    requires e.size >= 0
    ensures Sends(GoodLuck(e), e)
  {
    assert Flatten(GoodLuck(e).chunks) == GoodLuck(e).chunks[0] + [];
  }

  lemma TidyCompletes(fs: FileSystem, entries: seq<FileEntry>, i: nat)
    requires NoFileIsDirectory(entries) && Tidy(fs, entries) && i < |entries| && entries[i].size >= 0
    ensures Completes(fs, entries[i], GoodLuck(entries[i]))
  {
    var e := entries[i];
    var p := DirsOf(e);
    GoodLuckSends(e);
    DirsStayTidy(fs, entries, i);
    assert !Blocked(fs, p, |p|);
    AddDirsAdds(fs, p, |p|);
    assert p[..|p|] == p;
    if !e.directory {
      assert Part(Target(e))[..|Target(e)| - 1] == p;
    }
  }

  // ----- what one entry needs, and what it leaves, in terms of the files before -----

  /** The first d components of p are not a file. */
  ghost predicate Passable(fs: FileSystem, p: Path, d: nat)
  {
    forall k :: 1 <= k <= d && k <= |p| && p[..k] in fs ==> fs[p[..k]] == Dir
  }

  ghost predicate HasSize(fs: FileSystem, p: Path, size: int)
  {
    p in fs && fs[p] != Dir && |fs[p].content| == size
  }

  /** The source agrees to send the declared size, and nothing fails between the request and the rename. */
  ghost predicate AllArrives(luck: Luck, size: int)
  {
    && luck.reply == Some((true, size)) && |Flatten(luck.chunks)| >= size && luck.space >= size
    && luck.opens && luck.closes && luck.renames
  }

  lemma DirsLeaveFiles(fs: FileSystem, e: FileEntry, q: Path)
    requires !e.directory && (q == Target(e) || q == Part(Target(e)))
    ensures q in WithDirs(fs, e) <==> q in fs
    ensures q in fs ==> WithDirs(fs, e)[q] == fs[q]
  {
    AddDirsAdds(fs, DirsOf(e), |DirsOf(e)|);
    AddDirsOnly(fs, DirsOf(e), |DirsOf(e)|);
  }

  lemma CanFetchWhen(fs: FileSystem, e: FileEntry)
    requires !e.directory && Passable(fs, Target(e), |Target(e)| - 1)
    ensures CanFetch(WithDirs(fs, e), e) <==>
              !DirAt(fs, Target(e)) && !DirAt(fs, Part(Target(e)))
  {
    var p := DirsOf(e);
    DirsLeaveFiles(fs, e, Target(e));
    DirsLeaveFiles(fs, e, Part(Target(e)));
    PassableDirs(fs, e);
    AddDirsAdds(fs, p, |p|);
    assert Part(Target(e))[..|Target(e)| - 1] == p && p[..|p|] == p;
  }

  lemma PassableDirs(fs: FileSystem, e: FileEntry)
    ensures Passable(fs, Target(e), |DirsOf(e)|) <==> !Blocked(fs, DirsOf(e), |DirsOf(e)|)
  {
    var p, t := DirsOf(e), Target(e);
    assert forall d :: 1 <= d <= |p| ==> p[..d] == t[..d];
  }

  /**
    An entry is received exactly when its directories can be made, and, for a file that is not there
    yet with its size, when all of it arrives and no directory has its name or temporary name. Then
    there is the directory, the file as it was, or a file of the first bytes sent and no temporary one.
    */
  lemma EntryOutcome(fs: FileSystem, e: FileEntry, luck: Luck)
    requires e.size >= 0
    ensures var p := OfferPath.Split(e.path);
            var n := if e.directory then |p| else |p| - 1;
            var part := OfferPath.Split(e.path + ".part");
            var there := luck.statWorks && HasSize(fs, p, e.size);
            var fs' := AfterEntry(fs, e, luck);
            && (Completes(fs, e, luck) <==>
                  && luck.depth >= n && Passable(fs, p, n)
                  && (e.directory || there || (AllArrives(luck, e.size) && !DirAt(fs, p) && !DirAt(fs, part))))
            && (Completes(fs, e, luck) ==>
                  && (forall k :: 1 <= k <= n ==> DirAt(fs', p[..k]))
                  && (!e.directory && there ==> p in fs' && fs'[p] == fs[p])
                  && (!e.directory && !there ==>
                        p in fs' && fs'[p] == File(Flatten(luck.chunks)[..e.size]) && part !in fs'))
  {
    PassableDirs(fs, e);
    SplitPart(e.path);
    if Completes(fs, e, luck) {
      EntryLeaves(fs, e, luck);
    }
    if !e.directory {
      DirsLeaveFiles(fs, e, Target(e));
      if Passable(fs, Target(e), |Target(e)| - 1) {
        CanFetchWhen(fs, e);
      }
    }
  }

  lemma EntryLeaves(fs: FileSystem, e: FileEntry, luck: Luck)
    requires e.size >= 0 && Completes(fs, e, luck)
    ensures forall k :: 1 <= k <= |DirsOf(e)| ==> DirAt(AfterEntry(fs, e, luck), Target(e)[..k])
    ensures !e.directory && luck.statWorks && HasSize(fs, Target(e), e.size) ==>
              var fs' := AfterEntry(fs, e, luck); Target(e) in fs' && fs'[Target(e)] == fs[Target(e)]
    ensures !e.directory && !(luck.statWorks && HasSize(fs, Target(e), e.size)) ==>
              var fs' := AfterEntry(fs, e, luck);
              && AllArrives(luck, e.size) && Part(Target(e)) !in fs'
              && Target(e) in fs' && fs'[Target(e)] == File(Flatten(luck.chunks)[..e.size])
  {
    var p := DirsOf(e);
    AddDirsAdds(fs, p, |p|);
    assert forall k :: 1 <= k <= |p| ==> p[..k] == Target(e)[..k];
    PartDiffers(Target(e));
    if !e.directory {
      DirsLeaveFiles(fs, e, Target(e));
    }
  }

  // ----- whole runs -----

  /** What was staged at the start still is, and so are the first k entries. */
  ghost predicate Holds(start: FileSystem, fs: FileSystem, entries: seq<FileEntry>, k: nat)
  {
    forall i :: 0 <= i < |entries| && (i < k || Staged(start, entries[i])) ==> Staged(fs, entries[i])
  }

  /** However it starts and whatever happens, a run through k entries has lost nothing. */
  ghost predicate RunsKeepStaged(entries: seq<FileEntry>)
  {
    forall states: seq<FileSystem>, lucks: seq<Luck>, k: nat ::
      IsRun(states, entries, lucks, k) ==> Holds(states[0], states[k], entries, k)
  }

  /** What every completed iteration keeps holds after a run. */
  lemma {:induction false} RunInduction(states: seq<FileSystem>, entries: seq<FileEntry>, lucks: seq<Luck>, k: nat,
                                        n: nat,
                                        inv: (FileSystem, nat) -> bool)
    requires n <= k && IsRun(states, entries, lucks, k) && inv(states[0], 0)
    requires forall fs, i: nat :: i < n && inv(fs, i) && Completes(fs, entries[i], lucks[i]) ==>
               inv(AfterEntry(fs, entries[i], lucks[i]), i + 1)
    ensures inv(states[n], n)
  {
    if n > 0 {
      RunInduction(states, entries, lucks, k, n - 1, inv);
      assert StepsTo(states[n - 1], states[n], entries[n - 1], lucks[n - 1]);
    }
  }

  /** And there is a run when something makes every iteration complete. */
  lemma {:induction false} RunExists(start: FileSystem, entries: seq<FileEntry>, lucks: seq<Luck>, k: nat,
                                     inv: FileSystem -> bool) returns (states: seq<FileSystem>)
    requires k <= |entries| == |lucks| && inv(start)
    requires forall fs, i: nat :: i < k && inv(fs) ==>
               Completes(fs, entries[i], lucks[i]) && inv(AfterEntry(fs, entries[i], lucks[i]))
    ensures IsRun(states, entries, lucks, k) && states[0] == start && inv(states[k])
  {
    if k == 0 {
      return [start];
    }
    states := RunExists(start, entries, lucks, k - 1, inv);
    var fs := AfterEntry(states[k - 1], entries[k - 1], lucks[k - 1]);
    RunGrows(states, fs, entries, lucks, k - 1);
    states := states + [fs];
  }

  lemma EntryIsStaged(fs: FileSystem, e: FileEntry, luck: Luck)
    requires Completes(fs, e, luck) && e.size >= 0
    ensures Staged(AfterEntry(fs, e, luck), e)
  {
    var p := DirsOf(e);
    AddDirsAdds(fs, p, |p|);
    assert p[..|p|] == p;
  }

  /** The iteration for e keeps another staged entry it gets along with. */
  lemma EntryKeeps(fs: FileSystem, e: FileEntry, luck: Luck, other: FileEntry)
    requires Completes(fs, e, luck) && e.size >= 0 && GetAlong(e, other) && Staged(fs, other)
    ensures Staged(AfterEntry(fs, e, luck), other)
  {
    AddDirsAdds(fs, DirsOf(e), |DirsOf(e)|);
    if !Skips(fs, e, luck) {
      AlongKeeps(WithDirs(fs, e), e, other, Prefix(Flatten(luck.chunks), e.size));
    }
  }

  lemma HarmlessStepKeeps(fs: FileSystem, entries: seq<FileEntry>, m: nat, luck: Luck)
    requires Harmless(entries) && m < |entries| && entries[m].size >= 0 && Completes(fs, entries[m], luck)
    ensures Staged(AfterEntry(fs, entries[m], luck), entries[m])
    ensures forall i :: 0 <= i < |entries| && Staged(fs, entries[i]) ==>
              Staged(AfterEntry(fs, entries[m], luck), entries[i])
  {
    EntryIsStaged(fs, entries[m], luck);
    forall i | 0 <= i < |entries| && Staged(fs, entries[i])
      ensures Staged(AfterEntry(fs, entries[m], luck), entries[i])
    {
      EntryKeeps(fs, entries[m], luck, entries[i]);
    }
  }

  lemma HarmlessRunKeeps(states: seq<FileSystem>, entries: seq<FileEntry>, lucks: seq<Luck>, k: nat)
    requires Harmless(entries) && (forall i :: 0 <= i < |entries| ==> entries[i].size >= 0)
    requires IsRun(states, entries, lucks, k)
    ensures Holds(states[0], states[k], entries, k)
  {
    var inv := (fs: FileSystem, n: nat) => Holds(states[0], fs, entries, n);
    forall fs, n: nat | n < k && inv(fs, n) && Completes(fs, entries[n], lucks[n])
      ensures inv(AfterEntry(fs, entries[n], lucks[n]), n + 1)
    {
      HarmlessStepKeeps(fs, entries, n, lucks[n]);
    }
    RunInduction(states, entries, lucks, k, k, inv);
  }

  function AllGoodLuck(entries: seq<FileEntry>): (lucks: seq<Luck>)
    ensures |lucks| == |entries| && forall k :: 0 <= k < |entries| ==> lucks[k] == GoodLuck(entries[k])
  {
    seq(|entries|, k requires 0 <= k < |entries| => GoodLuck(entries[k]))
  }

  lemma GoodStep(fs: FileSystem, entries: seq<FileEntry>, i: nat)
    requires NoFileIsDirectory(entries) && Tidy(fs, entries) && i < |entries| && entries[i].size >= 0
    ensures Completes(fs, entries[i], GoodLuck(entries[i]))
    ensures Tidy(AfterEntry(fs, entries[i], GoodLuck(entries[i])), entries)
  {
    TidyCompletes(fs, entries, i);
    EntryStaysTidy(fs, entries, i, GoodLuck(entries[i]));
  }

  lemma TidyRuns(start: FileSystem, entries: seq<FileEntry>, lucks: seq<Luck>, k: nat) returns (states: seq<FileSystem>)
    requires NoFileIsDirectory(entries) && Tidy(start, entries) && k <= |entries| == |lucks|
    requires forall m :: 0 <= m < |entries| ==> entries[m].size >= 0 && lucks[m] == GoodLuck(entries[m])
    ensures IsRun(states, entries, lucks, k) && states[0] == start
  {
    var inv := (fs: FileSystem) => Tidy(fs, entries);
    forall fs, n: nat | n < k && inv(fs)
      ensures Completes(fs, entries[n], lucks[n]) && inv(AfterEntry(fs, entries[n], lucks[n]))
    {
      GoodStep(fs, entries, n);
    }
    states := RunExists(start, entries, lucks, k, inv);
  }

  function Zeros(n: int): (s: seq<byte>)
    ensures n >= 0 ==> |s| == n
  {
    seq(if n >= 0 then n else 0, _ => 0)
  }

  /** A file system in which the file e is complete, and nothing else is. */
  function OnlyStaged(e: FileEntry): FileSystem
  {
    Installed(WithDirs(map[], e), e, Zeros(e.size))
  }

  lemma OnlyStagedIs(e: FileEntry)
    requires !e.directory && e.size >= 0
    ensures Staged(OnlyStaged(e), e)
    ensures forall q :: q in OnlyStaged(e) ==> q == Target(e) || q <= DirsOf(e)
  {
    AddDirsOnly(map[], DirsOf(e), |DirsOf(e)|);
  }

  lemma OnlyStagedIsTidy(entries: seq<FileEntry>, i: nat)
    requires NoFileIsDirectory(entries) && i < |entries| && !entries[i].directory
    ensures Tidy(OnlyStaged(entries[i]), entries)
  {
    DirsStayTidy(map[], entries, i);
    InstallStaysTidy(WithDirs(map[], entries[i]), entries, i, Zeros(entries[i].size));
  }

  /** Entry i is kept, and j does not become complete, until something in the way of i is fetched. */
  lemma KeptUntil(states: seq<FileSystem>, entries: seq<FileEntry>, lucks: seq<Luck>, k: nat, i: nat, j: nat)
    requires NoFileIsDirectory(entries) && (forall m :: 0 <= m < |entries| ==> entries[m].size >= 0)
    requires IsRun(states, entries, lucks, k) && i < |entries| && j < k && !GetAlong(entries[j], entries[i])
    requires forall m :: 0 <= m < j ==> GetAlong(entries[m], entries[i])
    requires Staged(states[0], entries[i]) && !Present(states[0], entries[j])
    ensures Staged(states[j], entries[i]) && !Present(states[j], entries[j])
  {
    var e, other := entries[j], entries[i];
    var inv := (fs: FileSystem, n: nat) => Staged(fs, other) && !Present(fs, e);
    forall fs, n: nat | n < j && inv(fs, n) && Completes(fs, entries[n], lucks[n])
      ensures inv(AfterEntry(fs, entries[n], lucks[n]), n + 1)
    {
      KeptOnce(fs, entries, n, lucks[n], e, other);
    }
    RunInduction(states, entries, lucks, k, j, inv);
  }

  lemma KeptOnce(fs: FileSystem, entries: seq<FileEntry>, m: nat, luck: Luck, e: FileEntry, other: FileEntry)
    requires NoFileIsDirectory(entries) && e in entries && other in entries && m < |entries|
    requires !GetAlong(e, other) && GetAlong(entries[m], other) && Staged(fs, other) && !Present(fs, e)
    requires Completes(fs, entries[m], luck) && entries[m].size >= 0
    ensures Staged(AfterEntry(fs, entries[m], luck), other) && !Present(AfterEntry(fs, entries[m], luck), e)
  {
    EntryKeeps(fs, entries[m], luck, other);
    StaysAbsent(fs, entries, m, luck, e, other);
  }

  lemma StaysAbsent(fs: FileSystem, entries: seq<FileEntry>, m: nat, luck: Luck, e: FileEntry, other: FileEntry)
    requires NoFileIsDirectory(entries) && e in entries && other in entries && m < |entries|
    requires !GetAlong(e, other) && GetAlong(entries[m], other) && !Present(fs, e)
    requires Completes(fs, entries[m], luck) && entries[m].size >= 0
    ensures !Present(AfterEntry(fs, entries[m], luck), e)
  {
    AddDirsAdds(fs, DirsOf(entries[m]), |DirsOf(entries[m])|);
    TargetsMeet(entries[m], e);
    TargetsMeet(entries[m], other);
    TargetsMeet(e, other);
  }

  lemma OnlyStagedLacks(e: FileEntry, other: FileEntry)
    requires !GetAlong(e, other) && other.size >= 0
    ensures !Present(OnlyStaged(other), e)
  {
    OnlyStagedIs(other);
    TargetsMeet(e, other);
  }

  /** A run from which an entry is lost: it is complete at the start, then something in its way is fetched. */
  lemma NotHarmlessLoses(entries: seq<FileEntry>, i: nat, j: nat) returns (states: seq<FileSystem>, lucks: seq<Luck>)
    requires NoFileIsDirectory(entries) && (forall m :: 0 <= m < |entries| ==> entries[m].size >= 0)
    requires i < |entries| && j < |entries| && !GetAlong(entries[j], entries[i])
    requires forall m :: 0 <= m < j ==> GetAlong(entries[m], entries[i])
    ensures IsRun(states, entries, lucks, j + 1)
    ensures Staged(states[0], entries[i]) && !Staged(states[j + 1], entries[i])
  {
    lucks := AllGoodLuck(entries);
    OnlyStagedIs(entries[i]);
    OnlyStagedLacks(entries[j], entries[i]);
    OnlyStagedIsTidy(entries, i);
    states := TidyRuns(OnlyStaged(entries[i]), entries, lucks, j + 1);
    KeptUntil(states, entries, lucks, j + 1, i, j);
    assert StepsTo(states[j], states[j + 1], entries[j], lucks[j]);
    FetchLoses(states[j], entries[j], lucks[j], entries[i]);
  }

  lemma FetchLoses(fs: FileSystem, e: FileEntry, luck: Luck, other: FileEntry)
    requires Completes(fs, e, luck) && e.size >= 0 && !GetAlong(e, other) && Staged(fs, other) && !Present(fs, e)
    ensures !Staged(AfterEntry(fs, e, luck), other)
  {
    AddDirsAdds(fs, DirsOf(e), |DirsOf(e)|);
    assert !Skips(fs, e, luck);
    FetchKeepsOther(WithDirs(fs, e), e, other, Prefix(Flatten(luck.chunks), e.size));
  }

  lemma {:induction false} FirstInTheWay(entries: seq<FileEntry>, i: nat, n: nat) returns (j: nat)
    requires i < |entries| && n <= |entries| && exists m :: 0 <= m < n && !GetAlong(entries[m], entries[i])
    ensures j < n && !GetAlong(entries[j], entries[i])
    ensures forall m :: 0 <= m < j ==> GetAlong(entries[m], entries[i])
  {
    if exists m :: 0 <= m < n - 1 && !GetAlong(entries[m], entries[i]) {
      j := FirstInTheWay(entries, i, n - 1);
    } else {
      j := n - 1;
    }
  }

  /**
    For offers in which no file is a directory the condition is exact for whole runs: no run loses
    what was complete, or what it completed, if and only if the files get along.
    */
  lemma RunsKeepStagedIff(entries: seq<FileEntry>)
    requires NoFileIsDirectory(entries) && forall k :: 0 <= k < |entries| ==> entries[k].size >= 0
    ensures RunsKeepStaged(entries) <==> Harmless(entries)
  {
    if Harmless(entries) {
      forall states: seq<FileSystem>, lucks: seq<Luck>, k: nat | IsRun(states, entries, lucks, k)
        ensures Holds(states[0], states[k], entries, k)
      {
        HarmlessRunKeeps(states, entries, lucks, k);
      }
    } else {
      var i, m :| 0 <= i < |entries| && 0 <= m < |entries| && !GetAlong(entries[m], entries[i]);
      var j := FirstInTheWay(entries, i, |entries|);
      var states, lucks := NotHarmlessLoses(entries, i, j);
      assert !Holds(states[0], states[j + 1], entries, j + 1);
    }
  }

  /** An offer of two files at the root of the staging directory. */
  function TwoFiles(address: string, ctx: OfferPath.Context, a: string, m: int64, b: string, n: int64): FileOffer
  {
    FileOffer(FILE_OFFER_VERSION, seq(64, _ => '0'), address, ctx.nowUnix + 1, [a, b],
              [FileEntry(a, m, 0, false), FileEntry(b, n, 0, false)])
  }

  lemma TwoFilesAccepted(address: string, ctx: OfferPath.Context, a: string, m: int64, b: string, n: int64)
    requires ctx.tailscale(address) && m >= 0 && n >= 0
    requires OfferPath.ValidName(a, ctx.upper) && OfferPath.ValidName(b, ctx.upper)
    ensures OfferPath.ValidOffer(TwoFiles(address, ctx, a, m, b, n), ctx)
  {
    assert OfferPath.HexDigit('0');
  }

  /** Both files are fetched into an empty staging directory, and the first is lost. */
  lemma FirstIsLost(e: FileEntry, e': FileEntry)
    requires Target(e) == [e.path] && Target(e') == [e'.path] && !e.directory && !e'.directory
    requires e.size == 1 && e'.size == 2 && e.path in {e'.path, e'.path + ".part"}
    ensures var fs := Installed(map[], e, [0]);
            && CanFetch(map[], e) && CanFetch(fs, e') && Staged(fs, e) && !Staged(fs, e')
            && Staged(Installed(fs, e', [0, 0]), e') && !Staged(Installed(fs, e', [0, 0]), e)
    ensures !GetAlong(e', e)
  {
    var fs := Installed(map[], e, [0]);
    assert Target(e) in fs && forall q :: q in fs ==> q == Target(e);
    FetchKeepsOther(fs, e', e, [0, 0]);
  }

  /**
    Accepted offers with files that do not get along: one lists a path twice with two sizes, one
    lists a file under the temporary name of another. Fetching the first file and then the second,
    into an empty staging directory, completes both and loses the first.
    */
  lemma AcceptedYetLost(address: string, ctx: OfferPath.Context, first: string)
    requires ctx.tailscale(address) && first in {"a", "a.part"}
    ensures var offer := TwoFiles(address, ctx, first, 1, "a", 2);
            var e, e' := offer.entries[0], offer.entries[1];
            var fs := Installed(map[], e, [0]);
            && OfferPath.ValidOffer(offer, ctx) && !Harmless(offer.entries)
            && CanFetch(map[], e) && CanFetch(fs, e') && Staged(fs, e) && !Staged(fs, e')
            && Staged(Installed(fs, e', [0, 0]), e') && !Staged(Installed(fs, e', [0, 0]), e)
  {
    OfferPath.ShortNameIsValid("a", ctx.upper);
    OfferPath.ShortNameIsValid(first, ctx.upper);
    TwoFilesAccepted(address, ctx, first, 1, "a", 2);
    var entries := TwoFiles(address, ctx, first, 1, "a", 2).entries;
    assert "a" + ".part" == "a.part";
    FirstIsLost(entries[0], entries[1]);
  }

  /**
    An accepted offer of two files that get along, whose total overflows: what is announced is
    negative, so that already the first report of every run is beyond it.
    */
  lemma TotalOverflows(address: string, ctx: OfferPath.Context, reports: seq<int64>, reached: nat)
    requires ctx.tailscale(address) && Progress(reports, reached)
    ensures var offer := TwoFiles(address, ctx, "a", MAX_INT64, "b", 1);
            var announced := ToInt64(FileBytes(offer.entries));
            && OfferPath.ValidOffer(offer, ctx) && Harmless(offer.entries)
            && announced < 0 && reports[0] > announced
            && !(NonDecreasing(reports) && forall i :: 0 <= i < |reports| ==> reports[i] <= announced)
  {
    OfferPath.ShortNameIsValid("a", ctx.upper);
    OfferPath.ShortNameIsValid("b", ctx.upper);
    TwoFilesAccepted(address, ctx, "a", MAX_INT64, "b", 1);
    var entries := TwoFiles(address, ctx, "a", MAX_INT64, "b", 1).entries;
    assert entries[..1][..0] == [] && entries[..2] == entries;
    assert FileBytes(entries[..1]) == MAX_INT64 && FileBytes(entries) == MAX_INT64 + 1;
    ProgressIff(reports, reached, ToInt64(FileBytes(entries)));
    TwoNamesGetAlong(entries);
  }

  lemma TwoNamesGetAlong(entries: seq<FileEntry>)
    requires |entries| == 2 && entries[0].path != entries[1].path && |entries[0].path| == |entries[1].path|
    ensures Harmless(entries)
  {
    assert |entries[0].path + ".part"| != |entries[0].path| && |entries[1].path + ".part"| != |entries[1].path|;
  }

  // ----- at which roots something is staged -----

  ghost predicate DirAt(fs: FileSystem, p: Path)
  {
    p in fs && fs[p] == Dir
  }

  /** A directory is never removed. */
  lemma DirStays(fs: FileSystem, e: FileEntry, luck: Luck, p: Path)
    requires Completes(fs, e, luck) && (DirAt(fs, p) || DirAt(WithDirs(fs, e), p))
    ensures DirAt(AfterEntry(fs, e, luck), p)
  {
    AddDirsAdds(fs, DirsOf(e), |DirsOf(e)|);
  }

  /** The directory an entry makes at the top of the staging directory. */
  ghost predicate TopDirs(fs: FileSystem, entries: seq<FileEntry>, n: nat)
  {
    forall i :: 0 <= i < n && i < |entries| && DirsOf(entries[i]) != [] ==> DirAt(fs, DirsOf(entries[i])[..1])
  }

  lemma TopDirMade(fs: FileSystem, e: FileEntry, luck: Luck)
    requires Completes(fs, e, luck) && DirsOf(e) != []
    ensures DirAt(AfterEntry(fs, e, luck), DirsOf(e)[..1])
  {
    AddDirsAdds(fs, DirsOf(e), |DirsOf(e)|);
    DirStays(fs, e, luck, DirsOf(e)[..1]);
  }

  lemma TopDirsMade(states: seq<FileSystem>, entries: seq<FileEntry>, lucks: seq<Luck>, k: nat)
    requires IsRun(states, entries, lucks, k)
    ensures TopDirs(states[k], entries, k)
  {
    var inv := (fs: FileSystem, n: nat) => TopDirs(fs, entries, n);
    forall fs, n: nat | n < k && inv(fs, n) && Completes(fs, entries[n], lucks[n])
      ensures inv(AfterEntry(fs, entries[n], lucks[n]), n + 1)
    {
      forall i | 0 <= i < n + 1 && DirsOf(entries[i]) != []
        ensures DirAt(AfterEntry(fs, entries[n], lucks[n]), DirsOf(entries[i])[..1])
      {
        if i < n {
          DirStays(fs, entries[n], lucks[n], DirsOf(entries[i])[..1]);
        } else {
          TopDirMade(fs, entries[n], lucks[n]);
        }
      }
    }
    RunInduction(states, entries, lucks, k, k, inv);
  }

  /** The root of an entry. */
  function RootOf(e: FileEntry): string
  {
    Target(e)[0]
  }

  /** Everything is at or above the place of an entry. */
  ghost predicate OnlyEntries(fs: FileSystem, entries: seq<FileEntry>)
  {
    forall p :: p in fs ==> p != [] && exists k :: 0 <= k < |entries| && p <= Target(entries[k])
  }

  lemma StaysOnlyEntries(fs: FileSystem, entries: seq<FileEntry>, n: nat, luck: Luck)
    requires OnlyEntries(fs, entries) && n < |entries|
    ensures OnlyEntries(AfterEntry(fs, entries[n], luck), entries)
  {
    AddDirsOnly(fs, DirsOf(entries[n]), |DirsOf(entries[n])|);
    forall p | p in AfterEntry(fs, entries[n], luck)
      ensures p != [] && exists k :: 0 <= k < |entries| && p <= Target(entries[k])
    {
      if p !in fs {
        assert p <= Target(entries[n]);
      }
    }
  }

  ghost predicate HasRoot(entries: seq<FileEntry>, root: string)
  {
    exists k :: 0 <= k < |entries| && RootOf(entries[k]) == root
  }

  lemma AlwaysOnlyEntries(states: seq<FileSystem>, entries: seq<FileEntry>, lucks: seq<Luck>, k: nat)
    requires IsRun(states, entries, lucks, k) && states[0] == map[]
    ensures OnlyEntries(states[k], entries)
  {
    var inv := (fs: FileSystem, n: nat) => OnlyEntries(fs, entries);
    forall fs, n: nat | n < k && inv(fs, n) && Completes(fs, entries[n], lucks[n])
      ensures inv(AfterEntry(fs, entries[n], lucks[n]), n + 1)
    {
      StaysOnlyEntries(fs, entries, n, lucks[n]);
    }
    RunInduction(states, entries, lucks, k, k, inv);
  }

  lemma OnlyRoots(fs: FileSystem, entries: seq<FileEntry>, root: string)
    requires OnlyEntries(fs, entries) && [root] in fs
    ensures HasRoot(entries, root)
  {
    var k :| 0 <= k < |entries| && [root] <= Target(entries[k]);
    assert RootOf(entries[k]) == root;
  }

  /**
    After a success something is staged at every root that an entry has. When nothing was staged
    before, there is nothing at any other place at the top of the staging directory, even at a
    root of the offer.
    */
  lemma RootsStaged(states: seq<FileSystem>, entries: seq<FileEntry>, lucks: seq<Luck>, root: string)
    requires Harmless(entries) && forall k :: 0 <= k < |entries| ==> entries[k].size >= 0
    requires IsRun(states, entries, lucks, |entries|)
    ensures HasRoot(entries, root) ==> [root] in states[|entries|]
    ensures states[0] == map[] ==> ([root] in states[|entries|] <==> HasRoot(entries, root))
  {
    var fs := states[|entries|];
    if HasRoot(entries, root) {
      var k :| 0 <= k < |entries| && RootOf(entries[k]) == root;
      HarmlessRunKeeps(states, entries, lucks, |entries|);
      TopDirsMade(states, entries, lucks, |entries|);
      RootIsThere(fs, entries, k);
    }
    if states[0] == map[] && [root] in fs {
      AlwaysOnlyEntries(states, entries, lucks, |entries|);
      OnlyRoots(fs, entries, root);
    }
  }

  lemma RootIsThere(fs: FileSystem, entries: seq<FileEntry>, k: nat)
    requires k < |entries| && Staged(fs, entries[k]) && TopDirs(fs, entries, |entries|)
    ensures [RootOf(entries[k])] in fs
  {
    var e := entries[k];
    if DirsOf(e) == [] {
      assert Target(e) == [RootOf(e)];
    } else {
      assert DirsOf(e)[..1] == [RootOf(e)];
    }
  }

  /** An offer of one file and two roots. */
  function OneFile(address: string, ctx: OfferPath.Context, a: string, b: string): FileOffer
  {
    FileOffer(FILE_OFFER_VERSION, seq(64, _ => '0'), address, ctx.nowUnix + 1, [a, b], [FileEntry(a, 1, 0, false)])
  }

  /**
    Validation accepts a root without an entry, and a root listed twice. The offer is received,
    and nothing exists at the path returned for the root without an entry.
    */
  lemma RootWithoutEntry(address: string, ctx: OfferPath.Context, second: string)
    returns (states: seq<FileSystem>, lucks: seq<Luck>)
    requires ctx.tailscale(address) && second in {"a", "b"}
    ensures var offer := OneFile(address, ctx, "a", second);
            && OfferPath.ValidOffer(offer, ctx) && Harmless(offer.entries)
            && IsRun(states, offer.entries, lucks, 1) && states[0] == map[]
            && ["a"] in states[1] && (second == "b" ==> [second] !in states[1])
  {
    var entries := OneFile(address, ctx, "a", second).entries;
    OfferPath.ShortNameIsValid("a", ctx.upper);
    OfferPath.ShortNameIsValid(second, ctx.upper);
    OneFileAccepted(address, ctx, "a", second);
    OneFileHarmless(entries);
    lucks := AllGoodLuck(entries);
    states := TidyRuns(map[], entries, lucks, 1);
    RootsStaged(states, entries, lucks, "a");
    RootsStaged(states, entries, lucks, second);
    assert RootOf(entries[0]) == "a";
  }

  lemma OneFileHarmless(entries: seq<FileEntry>)
    requires |entries| == 1 && !entries[0].directory && Target(entries[0]) == [entries[0].path]
    ensures Harmless(entries) && NoFileIsDirectory(entries)
  {
    assert |entries[0].path + ".part"| != |entries[0].path|;
  }

  lemma OneFileAccepted(address: string, ctx: OfferPath.Context, a: string, b: string)
    requires ctx.tailscale(address)
    requires OfferPath.ValidName(a, ctx.upper) && OfferPath.ValidName(b, ctx.upper)
    ensures OfferPath.ValidOffer(OneFile(address, ctx, a, b), ctx)
  {
    assert OfferPath.HexDigit('0');
  }
}
