/**
  file_sync.go: receiving an offer into its staging directory. Files are fetched into a
  ".part" file and renamed; a later attempt keeps whatever is already complete. Paths are
  sequences of components below the staging directory.
  */
module Staging {
  import opened Wrappers
  import opened Bytes
  import opened FileSource
  import opened Reporting
  import OfferPath

  type Path = seq<string>

  datatype Item = Dir | File(content: seq<byte>)

  type FileSystem = map<Path, Item>

  // ----- what can go wrong -----

  /** How the outside behaves while one entry is received. */
  datatype Luck = Luck(
    depth: nat,                     // how many levels MkdirAll can create
    statWorks: bool,
    reply: Option<(bool, int64)>,   // the nine-byte header: status OK, size
    opens: bool,
    chunks: seq<seq<byte>>,         // what each conn.Read has to offer
    space: nat,                     // how many bytes of the file can be written
    closes: bool, renames: bool, removes: bool)

  // ----- the file system -----

  /** A file is in the way of the first `depth` levels of p. */
  predicate Blocked(fs: FileSystem, p: Path, depth: nat)
    requires depth <= |p|
  {
    exists d :: 1 <= d <= depth && p[..d] in fs && fs[p[..d]].File?
  }

  /** os.MkdirAll, as far as a given depth. */
  function AddDirs(fs: FileSystem, p: Path, depth: nat): FileSystem
    requires depth <= |p|
  {
    if depth == 0 then fs
    else
      var fs' := AddDirs(fs, p, depth - 1);
      if Blocked(fs, p, depth) || p[..depth] in fs' then fs' else fs'[p[..depth] := Dir]
  }

  lemma {:induction false} AddDirsAdds(fs: FileSystem, p: Path, depth: nat)
    requires depth <= |p|
    ensures forall q :: q in fs ==> q in AddDirs(fs, p, depth) && AddDirs(fs, p, depth)[q] == fs[q]
    ensures forall q :: q in AddDirs(fs, p, depth) && q !in fs ==> AddDirs(fs, p, depth)[q] == Dir
    ensures !Blocked(fs, p, depth) ==>
              forall d :: 1 <= d <= depth ==> p[..d] in AddDirs(fs, p, depth) && AddDirs(fs, p, depth)[p[..d]] == Dir
  {
    if depth > 0 {
      AddDirsAdds(fs, p, depth - 1);
    }
  }

  /** The temporary name of a file. */
  function Part(p: Path): Path
    requires p != []
  {
    p[..|p| - 1] + [p[|p| - 1] + ".part"]
  }

  lemma PartDiffers(p: Path)
    requires p != []
    ensures Part(p) != p
  {
    assert |Part(p)[|p| - 1]| != |p[|p| - 1]|;
  }

  // ----- the entries of an offer -----

  function Target(e: FileEntry): (p: Path)
    ensures p != []
  {
    OfferPath.Split(e.path)
  }

  ghost predicate Staged(fs: FileSystem, e: FileEntry)
  {
    && Target(e) in fs
    && if e.directory then fs[Target(e)] == Dir else fs[Target(e)].File? && |fs[Target(e)].content| == e.size
  }

  /**
    Fetching e does not harm the other file: at one path they have one size, and the other is
    not the temporary file of e.
    */
  predicate GetAlong(e: FileEntry, other: FileEntry)
  {
    !e.directory && !other.directory ==>
      (other.path == e.path ==> other.size == e.size) && other.path != e.path + ".part"
  }

  predicate Harmless(entries: seq<FileEntry>)
  {
    forall i, j :: 0 <= i < |entries| && 0 <= j < |entries| ==> GetAlong(entries[j], entries[i])
  }

  /** The same, for the places in the file system. */
  ghost predicate HarmlessTargets(entries: seq<FileEntry>)
  {
    forall i, j :: 0 <= i < |entries| && 0 <= j < |entries| && !entries[i].directory && !entries[j].directory ==>
      && (Target(entries[i]) == Target(entries[j]) ==> entries[i].size == entries[j].size)
      && Target(entries[i]) != Part(Target(entries[j]))
  }

  lemma {:induction false} SplitPart(s: string)
    ensures OfferPath.Split(s + ".part") == Part(OfferPath.Split(s))
  {
    if s == "" {
      OfferPath.SplitSingle(".part");
      assert s + ".part" == ".part" && "" + ".part" == ".part";
    } else {
      SplitPart(s[1..]);
      assert (s + ".part")[1..] == s[1..] + ".part";
      PartPrepend(s[0], OfferPath.Split(s[1..]));
    }
  }

  lemma PartPrepend(c: char, cs: seq<string>)
    requires |cs| >= 1
    ensures OfferPath.Prepend(c, Part(cs)) == Part(OfferPath.Prepend(c, cs))
  {
    if c != '/' && |cs| == 1 {
      Associate([c], cs[0], ".part");
    }
  }

  /** Where one entry lands, as the other's path and temporary name say. */
  lemma TargetsMeet(e: FileEntry, other: FileEntry)
    ensures Target(other) == Target(e) <==> other.path == e.path
    ensures Target(other) == Part(Target(e)) <==> other.path == e.path + ".part"
  {
    SplitPart(e.path);
    OfferPath.JoinSplit(other.path);
    OfferPath.JoinSplit(e.path);
    OfferPath.JoinSplit(e.path + ".part");
  }

  lemma HarmlessMeans(entries: seq<FileEntry>)
    ensures Harmless(entries) <==> HarmlessTargets(entries)
  {
    forall i, j | 0 <= i < |entries| && 0 <= j < |entries|
      ensures Target(entries[i]) == Target(entries[j]) <==> entries[i].path == entries[j].path
      ensures Target(entries[i]) == Part(Target(entries[j])) <==> entries[i].path == entries[j].path + ".part"
    {
      TargetsMeet(entries[j], entries[i]);
    }
    if Harmless(entries) {
      forall i, j | 0 <= i < |entries| && 0 <= j < |entries|
        ensures GetAlong(entries[j], entries[i])
      {
      }
    }
  }

  /** Every file at a target that was not there at the start has exactly the declared size. */
  ghost predicate Exact(start: FileSystem, fs: FileSystem, entries: seq<FileEntry>)
  {
    forall i :: 0 <= i < |entries| && !entries[i].directory ==> ExactAt(start, fs, entries[i])
  }

  ghost predicate ExactAt(start: FileSystem, fs: FileSystem, e: FileEntry)
  {
    var t := Target(e);
    t in fs && fs[t].File? ==> |fs[t].content| == e.size || (t in start && start[t] == fs[t])
  }

  /** A step that destroys nothing staged and stages nothing inexact. */
  ghost predicate CarefulStep(fs: FileSystem, fs': FileSystem, entries: seq<FileEntry>)
  {
    && (forall i :: 0 <= i < |entries| && Staged(fs, entries[i]) ==> Staged(fs', entries[i]))
    && (forall i :: 0 <= i < |entries| && !entries[i].directory ==>
          var t := Target(entries[i]);
          t in fs' && fs'[t].File? ==> |fs'[t].content| == entries[i].size || (t in fs && fs[t] == fs'[t]))
  }

  /** Steps are careful as long as no entry is in the way of another. */
  ghost predicate Careful(fs: FileSystem, fs': FileSystem, entries: seq<FileEntry>)
  {
    HarmlessTargets(entries) ==> CarefulStep(fs, fs', entries)
  }

  lemma CarefulKeepsExact(start: FileSystem, fs: FileSystem, fs': FileSystem, entries: seq<FileEntry>)
    requires Exact(start, fs, entries) && CarefulStep(fs, fs', entries)
    ensures Exact(start, fs', entries)
  {
    forall i | 0 <= i < |entries| && !entries[i].directory
      ensures ExactAt(start, fs', entries[i])
    {
      assert ExactAt(start, fs, entries[i]);
    }
  }

  lemma CarefulTransitive(a: FileSystem, b: FileSystem, c: FileSystem, entries: seq<FileEntry>)
    requires Careful(a, b, entries) && Careful(b, c, entries)
    ensures Careful(a, c, entries)
  {
  }

  lemma DirsAreCareful(fs: FileSystem, p: Path, depth: nat, entries: seq<FileEntry>)
    requires depth <= |p|
    ensures Careful(fs, AddDirs(fs, p, depth), entries)
  {
    AddDirsAdds(fs, p, depth);
  }

  /** The two file systems differ at p at most. */
  ghost predicate SameExcept(fs: FileSystem, fs': FileSystem, p: Path)
  {
    forall q :: q != p ==> (q in fs <==> q in fs') && (q in fs ==> fs[q] == fs'[q])
  }

  lemma SameTransitive(a: FileSystem, b: FileSystem, c: FileSystem, p: Path)
    requires SameExcept(a, b, p) && SameExcept(b, c, p)
    ensures SameExcept(a, c, p)
  {
  }

  /** No directory has the temporary name of e. */
  predicate PartFree(fs: FileSystem, e: FileEntry)
  {
    Part(Target(e)) in fs ==> fs[Part(Target(e))].File?
  }

  /** The temporary file of e holds `content`. */
  predicate Partial(fs: FileSystem, e: FileEntry, content: seq<byte>)
  {
    Part(Target(e)) in fs && fs[Part(Target(e))] == File(content)
  }

  lemma PartIsCareful(fs: FileSystem, fs': FileSystem, i: nat, entries: seq<FileEntry>)
    requires i < |entries| && !entries[i].directory && PartFree(fs, entries[i])
    requires SameExcept(fs, fs', Part(Target(entries[i])))
    ensures Careful(fs, fs', entries)
  {
  }

  /** The file system after a complete fetch: the temporary file was renamed. */
  function Installed(fs: FileSystem, e: FileEntry, content: seq<byte>): FileSystem
  {
    (fs - {Part(Target(e))})[Target(e) := File(content)]
  }

  /** What is left of the temporary file does not matter once the complete one is installed. */
  lemma InstalledAnyway(fs: FileSystem, fs': FileSystem, e: FileEntry, content: seq<byte>)
    requires SameExcept(fs, fs', Part(Target(e)))
    ensures Installed(fs, e, content) == Installed(fs', e, content)
    ensures Target(e) in fs <==> Target(e) in fs'
    ensures Target(e) in fs ==> fs[Target(e)] == fs'[Target(e)]
  {
    var a, b := Installed(fs, e, content), Installed(fs', e, content);
    PartDiffers(Target(e));
    assert forall q :: q in a <==> q in b;
    assert forall q :: q in a ==> a[q] == b[q];
  }

  /** Nothing is in the way of fetching e. */
  predicate CanFetch(fs: FileSystem, e: FileEntry)
  {
    !e.directory && CanCreate(fs, Part(Target(e))) && (Target(e) in fs ==> fs[Target(e)].File?)
  }

  // ----- what one entry does, and when it completes -----

  /** os.Stat finds a regular file of the declared size. */
  predicate Present(fs: FileSystem, e: FileEntry)
  {
    Target(e) in fs && fs[Target(e)].File? && |fs[Target(e)].content| == e.size
  }

  /** The directories made for an entry: the directory itself, or that of the file. */
  function DirsOf(e: FileEntry): Path
  {
    if e.directory then Target(e) else Target(e)[..|Target(e)| - 1]
  }

  function WithDirs(fs: FileSystem, e: FileEntry): FileSystem
  {
    AddDirs(fs, DirsOf(e), |DirsOf(e)|)
  }

  /** The source sends at least the declared bytes, and they can be written and installed. */
  predicate Sends(luck: Luck, e: FileEntry)
  {
    Accepts(luck, e) && Suffices(luck, e) && luck.closes && luck.renames
  }

  predicate Accepts(luck: Luck, e: FileEntry)
  {
    luck.reply == Some((true, e.size)) && luck.opens
  }

  predicate Suffices(luck: Luck, e: FileEntry)
  {
    |Flatten(luck.chunks)| >= e.size && luck.space >= e.size
  }

  predicate Skips(fs: FileSystem, e: FileEntry, luck: Luck)
  {
    e.directory || (luck.statWorks && Present(WithDirs(fs, e), e))
  }

  /** Exactly when the iteration for e succeeds. */
  predicate Completes(fs: FileSystem, e: FileEntry, luck: Luck)
  {
    && luck.depth >= |DirsOf(e)| && !Blocked(fs, DirsOf(e), |DirsOf(e)|)
    && (Skips(fs, e, luck) || (CanFetch(WithDirs(fs, e), e) && Sends(luck, e)))
  }

  /** The file system after a successful iteration for e. */
  function AfterEntry(fs: FileSystem, e: FileEntry, luck: Luck): FileSystem
  {
    if Skips(fs, e, luck) then WithDirs(fs, e)
    else Installed(WithDirs(fs, e), e, Prefix(Flatten(luck.chunks), e.size))
  }

  predicate StepsTo(fs: FileSystem, fs': FileSystem, e: FileEntry, luck: Luck)
  {
    Completes(fs, e, luck) && fs' == AfterEntry(fs, e, luck)
  }

  /** The file systems before the first entry and after each of the first k, which all complete. */
  ghost predicate IsRun(states: seq<FileSystem>, entries: seq<FileEntry>, lucks: seq<Luck>, k: nat)
  {
    && k <= |entries| == |lucks| && |states| == k + 1
    && forall i :: 0 <= i < k ==> StepsTo(states[i], states[i + 1], entries[i], lucks[i])
  }

  /** And the next one, if any, does not. */
  ghost predicate Stuck(states: seq<FileSystem>, entries: seq<FileEntry>, lucks: seq<Luck>, k: nat)
  {
    IsRun(states, entries, lucks, k) && (k < |entries| ==> !Completes(states[k], entries[k], lucks[k]))
  }

  lemma RunGrows(states: seq<FileSystem>, fs: FileSystem, entries: seq<FileEntry>, lucks: seq<Luck>, k: nat)
    requires IsRun(states, entries, lucks, k) && k < |entries| && StepsTo(states[k], fs, entries[k], lucks[k])
    ensures IsRun(states + [fs], entries, lucks, k + 1)
  {
    var states' := states + [fs];
    forall i | 0 <= i < k + 1
      ensures StepsTo(states'[i], states'[i + 1], entries[i], lucks[i])
    {
      assert i < k ==> states'[i] == states[i] && states'[i + 1] == states[i + 1];
    }
  }

  lemma RenameIsCareful(fs: FileSystem, i: nat, content: seq<byte>, entries: seq<FileEntry>)
    requires i < |entries| && !entries[i].directory && PartFree(fs, entries[i]) && |content| == entries[i].size
    requires Target(entries[i]) in fs ==> fs[Target(entries[i])].File?
    ensures var fs' := Installed(fs, entries[i], content);
            Careful(fs, fs', entries) && Staged(fs', entries[i])
  {
    var t, p := Target(entries[i]), Part(Target(entries[i]));
    var fs' := Installed(fs, entries[i], content);
    assert forall q :: q != t && q != p ==> (q in fs <==> q in fs') && (q in fs ==> fs[q] == fs'[q]);
    assert HarmlessTargets(entries) ==>
             forall j :: 0 <= j < |entries| && !entries[j].directory ==>
               Target(entries[j]) != p && (Target(entries[j]) == t ==> entries[j].size == entries[i].size);
  }

  // ----- reading one file -----

  function Flatten(chunks: seq<seq<byte>>): seq<byte>
  {
    if chunks == [] then [] else chunks[0] + Flatten(chunks[1..])
  }

  /** fileTransferReader: counts what it passes on and reports it on top of `base`. */
  class FileTransferReader {
    var incoming: seq<seq<byte>>
    var total: int64
    const base: int64
    var reports: seq<int64>

    constructor (incoming: seq<seq<byte>>, base: int64)
      ensures this.incoming == incoming && this.base == base && Counted(0)
    {
      this.incoming, this.base, total, reports := incoming, base, 0, [];
    }

    /** n bytes were passed on and reported. */
    ghost predicate Counted(n: nat)
      reads this
    {
      total == n && FileReports(reports, base, n)
    }

    /** At most `limit` bytes, in the order they arrive; an error when nothing more arrives. */
    method Read(limit: nat, ghost n: nat) returns (data: seq<byte>, err: bool)
      requires limit > 0 && n + limit <= MAX_INT64 && Counted(n)
      modifies this
      ensures err <==> old(incoming) == []
      ensures |data| <= limit && Flatten(old(incoming)) == data + Flatten(incoming)
      ensures err ==> data == []
      ensures err || |incoming| < |old(incoming)| || |data| == limit
      ensures Counted(n + |data|)
    {
      if |incoming| == 0 {
        return [], true;
      }
      err := false;
      if |incoming[0]| <= limit {
        data, incoming := incoming[0], incoming[1..];
      } else {
        data := incoming[0][..limit];
        SplitFirst(incoming, limit);
        incoming := [incoming[0][limit..]] + incoming[1..];
      }
      Count(|data|, n);
    }

    method Count(k: nat, ghost n: nat)
      requires n + k <= MAX_INT64 && Counted(n)
      modifies this`total, this`reports
      ensures Counted(n + k)
    {
      if k > 0 {
        OneReport(reports, base, n, n + k);
        total := ToInt64(total + k);
        reports := reports + [ToInt64(base + total)];
      }
    }
  }

  lemma SplitFirst(chunks: seq<seq<byte>>, k: nat)
    requires chunks != [] && k <= |chunks[0]|
    ensures Flatten(chunks) == chunks[0][..k] + Flatten([chunks[0][k..]] + chunks[1..])
  {
    var first, rest := chunks[0], Flatten(chunks[1..]);
    assert ([first[k..]] + chunks[1..])[1..] == chunks[1..];
    assert first == first[..k] + first[k..];
    Associate(first[..k], first[k..], rest);
  }

  /** os.OpenFile with O_CREATE and O_TRUNC can succeed: no directory is in the way, and the parent is one. */
  predicate CanCreate(fs: FileSystem, p: Path)
    requires p != []
  {
    (p in fs ==> fs[p].File?) && (|p| == 1 || (p[..|p| - 1] in fs && fs[p[..|p| - 1]] == Dir))
  }

  class Stager {
    var fs: FileSystem
    /** The two arguments of the progress callback: one total for all calls, and what was complete at each. */
    var announced: int64
    var reports: seq<int64>
    /** Every state the file system went through. */
    ghost var trace: seq<FileSystem>
    /** The entries a fetch was attempted for. */
    ghost var fetched: set<nat>

    constructor (fs: FileSystem)
      ensures this.fs == fs && reports == [] && trace == [fs] && fetched == {}
    {
      this.fs, announced, reports, trace, fetched := fs, 0, [], [fs], {};
    }

    /** Every state so far is exact, as long as no entry is in the way of another. */
    ghost predicate Good(start: FileSystem, entries: seq<FileEntry>)
      reads this
    {
      && trace != [] && trace[|trace| - 1] == fs
      && (HarmlessTargets(entries) ==> forall k :: 0 <= k < |trace| ==> Exact(start, trace[k], entries))
    }

    /** One operation on the file system. */
    method Change(fs': FileSystem, ghost start: FileSystem, ghost entries: seq<FileEntry>)
      requires Good(start, entries) && Careful(fs, fs', entries)
      modifies this`fs, this`trace
      ensures Good(start, entries) && fs == fs'
    {
      if HarmlessTargets(entries) {
        CarefulKeepsExact(start, fs, fs', entries);
      }
      fs := fs';
      trace := trace + [fs'];
    }

    /** Change the temporary file of entry i, or remove it. */
    method ChangePart(fs': FileSystem, entries: seq<FileEntry>, i: nat, ghost start: FileSystem)
      requires i < |entries| && !entries[i].directory && PartFree(fs, entries[i])
      requires Good(start, entries) && SameExcept(fs, fs', Part(Target(entries[i])))
      modifies this`fs, this`trace
      ensures Good(start, entries) && fs == fs'
    {
      PartIsCareful(fs, fs', i, entries);
      Change(fs', start, entries);
    }

    /** io.CopyN into the open temporary file of entry i, chunk by chunk. */
    method CopyN(entries: seq<FileEntry>, i: nat, reader: FileTransferReader, space: nat, ghost start: FileSystem)
      returns (ok: bool, content: seq<byte>, ghost upto: nat)
      requires i < |entries| && !entries[i].directory && entries[i].size >= 0
      requires Good(start, entries) && Partial(fs, entries[i], []) && reader.Counted(0)
      modifies this`fs, this`trace, reader
      ensures Good(start, entries) && SameExcept(old(fs), fs, Part(Target(entries[i])))
      ensures upto <= entries[i].size && reader.Counted(upto)
      ensures ok <==> |Flatten(old(reader.incoming))| >= entries[i].size && space >= entries[i].size
      ensures ok ==> upto == |content| == entries[i].size && content <= Flatten(old(reader.incoming))
      ensures Partial(fs, entries[i], content)
    {
      var part := Part(Target(entries[i]));
      content := [];
      while |content| < entries[i].size
        invariant Good(start, entries) && SameExcept(old(fs), fs, part) && Partial(fs, entries[i], content)
        invariant |content| <= entries[i].size && |content| <= space && reader.Counted(|content|)
        invariant Flatten(old(reader.incoming)) == content + Flatten(reader.incoming)
        decreases entries[i].size - |content|, |reader.incoming|
      {
        var data, err := reader.Read(entries[i].size - |content|, |content|);
        Associate(content, data, Flatten(reader.incoming));
        if err || |content| + |data| > space {
          return false, content, |content| + |data|;
        }
        if |data| > 0 {
          content := content + data;
          ChangePart(fs[part := File(content)], entries, i, start);
        } else {
          assert content + data == content;
        }
      }
      return true, content, |content|;
    }

    method MkdirAll(p: Path, depth: nat, ghost start: FileSystem, ghost entries: seq<FileEntry>) returns (ok: bool)
      requires Good(start, entries)
      modifies this`fs, this`trace
      ensures Good(start, entries) && Careful(old(fs), fs, entries)
      ensures ok <==> depth >= |p| && !Blocked(old(fs), p, |p|)
      ensures ok ==> fs == AddDirs(old(fs), p, |p|) && (p != [] ==> p in fs && fs[p] == Dir)
    {
      var d := if depth < |p| then depth else |p|;
      DirsAreCareful(fs, p, d, entries);
      AddDirsAdds(fs, p, d);
      assert p[..|p|] == p;
      ok := d == |p| && !Blocked(fs, p, d);
      Change(AddDirs(fs, p, d), start, entries);
    }

    /** Remove the temporary file after a failure; an error of the removal is ignored. */
    method Discard(entries: seq<FileEntry>, i: nat, luck: Luck, ghost start: FileSystem)
      requires i < |entries| && !entries[i].directory && PartFree(fs, entries[i])
      requires Good(start, entries)
      modifies this`fs, this`trace
      ensures Good(start, entries) && SameExcept(old(fs), fs, Part(Target(entries[i])))
      ensures if luck.removes then Part(Target(entries[i])) !in fs else fs == old(fs)
    {
      if luck.removes {
        ChangePart(fs - {Part(Target(entries[i]))}, entries, i, start);
      }
    }

    /** The reply of the source is checked before the temporary file is created. */
    method Begin(entries: seq<FileEntry>, i: nat, luck: Luck, ghost start: FileSystem) returns (ok: bool)
      requires i < |entries| && !entries[i].directory
      requires Good(start, entries)
      modifies this`fs, this`trace
      ensures Good(start, entries) && SameExcept(old(fs), fs, Part(Target(entries[i])))
      ensures ok <==> Accepts(luck, entries[i]) && CanCreate(old(fs), Part(Target(entries[i])))
      ensures if ok then PartFree(old(fs), entries[i]) && Partial(fs, entries[i], []) else fs == old(fs)
    {
      var part := Part(Target(entries[i]));
      if luck.reply.None? || !luck.reply.value.0 || luck.reply.value.1 != entries[i].size {
        return false;
      }
      if !luck.opens || !CanCreate(fs, part) {
        return false;
      }
      ChangePart(fs[part := File([])], entries, i, start);
      return true;
    }

    /** fetchOfferedFileWithProgress: into the temporary name, then a rename. */
    method Fetch(entries: seq<FileEntry>, i: nat, luck: Luck, base: int64, ghost start: FileSystem)
      returns (ok: bool, ghost more: seq<int64>, ghost upto: nat)
      requires i < |entries| && !entries[i].directory && entries[i].size >= 0
      requires Good(start, entries)
      modifies this`fs, this`reports, this`trace, this`fetched
      ensures Good(start, entries) && Careful(old(fs), fs, entries)
      ensures fetched == old(fetched) + {i}
      ensures reports == old(reports) + more && FileReports(more, base, upto) && upto <= entries[i].size
      ensures ok <==> CanFetch(old(fs), entries[i]) && Sends(luck, entries[i])
      ensures ok ==> upto == entries[i].size
                     && fs == Installed(old(fs), entries[i], Prefix(Flatten(luck.chunks), entries[i].size))
      ensures !ok ==> SameExcept(old(fs), fs, Part(Target(entries[i])))
      ensures !ok ==> if Accepts(luck, entries[i]) && CanCreate(old(fs), Part(Target(entries[i])))
                      then luck.removes ==> Part(Target(entries[i])) !in fs
                      else fs == old(fs)
    {
      fetched := fetched + {i};
      var begun, content;
      begun, ok, content, more, upto := Download(entries, i, luck, base, start);
      if !begun {
        return;
      }
      ghost var before := fs;
      PartIsCareful(old(fs), before, i, entries);
      InstalledAnyway(old(fs), before, entries[i], content);
      ok := Finish(entries, i, luck, ok, content, start);
      CarefulTransitive(old(fs), before, fs, entries);
    }

    /** The request, and the copy of what is sent into the temporary file. */
    method Download(entries: seq<FileEntry>, i: nat, luck: Luck, base: int64, ghost start: FileSystem)
      returns (begun: bool, ok: bool, content: seq<byte>, ghost more: seq<int64>, ghost upto: nat)
      requires i < |entries| && !entries[i].directory && entries[i].size >= 0
      requires Good(start, entries)
      modifies this`fs, this`reports, this`trace
      ensures Good(start, entries) && SameExcept(old(fs), fs, Part(Target(entries[i])))
      ensures if begun then PartFree(old(fs), entries[i]) && Partial(fs, entries[i], content) else fs == old(fs) && !ok
      ensures begun <==> Accepts(luck, entries[i]) && CanCreate(old(fs), Part(Target(entries[i])))
      ensures ok <==> begun && Suffices(luck, entries[i])
      ensures reports == old(reports) + more && FileReports(more, base, upto) && upto <= entries[i].size
      ensures ok ==> upto == |content| == entries[i].size && content == Prefix(Flatten(luck.chunks), entries[i].size)
    {
      more, upto, content := [], 0, [];
      begun := Begin(entries, i, luck, start);
      if !begun {
        return false, false, [], [], 0;
      }
      ghost var begunFs := fs;
      var reader := new FileTransferReader(luck.chunks, base);
      ok, content, upto := CopyN(entries, i, reader, luck.space, start);
      reports, more := reports + reader.reports, reader.reports;
      SameTransitive(old(fs), begunFs, fs, Part(Target(entries[i])));
    }

    /** Install the complete file, or discard the temporary one after any failure. */
    method Finish(entries: seq<FileEntry>, i: nat, luck: Luck, copied: bool, content: seq<byte>,
                  ghost start: FileSystem)
      returns (ok: bool)
      requires i < |entries| && !entries[i].directory && (copied ==> |content| == entries[i].size)
      requires Good(start, entries) && PartFree(fs, entries[i])
      modifies this`fs, this`trace
      ensures Good(start, entries) && Careful(old(fs), fs, entries)
      ensures ok <==> copied && luck.closes && luck.renames
                      && (Target(entries[i]) in old(fs) ==> old(fs)[Target(entries[i])].File?)
      ensures ok ==> fs == Installed(old(fs), entries[i], content)
      ensures !ok ==> SameExcept(old(fs), fs, Part(Target(entries[i])))
      ensures !ok && luck.removes ==> Part(Target(entries[i])) !in fs
    {
      var target := Target(entries[i]);
      ok := copied && luck.closes && luck.renames && (target in fs ==> fs[target].File?);
      if ok {
        Install(entries, i, content, start);
      } else {
        Discard(entries, i, luck, start);
        PartIsCareful(old(fs), fs, i, entries);
      }
    }

    /** os.Rename of the complete temporary file. */
    method Install(entries: seq<FileEntry>, i: nat, content: seq<byte>, ghost start: FileSystem)
      requires i < |entries| && !entries[i].directory && |content| == entries[i].size
      requires Good(start, entries) && PartFree(fs, entries[i])
      requires Target(entries[i]) in fs ==> fs[Target(entries[i])].File?
      modifies this`fs, this`trace
      ensures Good(start, entries) && Careful(old(fs), fs, entries)
      ensures fs == Installed(old(fs), entries[i], content)
    {
      RenameIsCareful(fs, i, content, entries);
      Change(Installed(fs, entries[i], content), start, entries);
    }

    /** One iteration of the loop over the entries; `sum` bytes are complete before it. */
    method ReceiveOne(entries: seq<FileEntry>, i: nat, luck: Luck, completed: int64, ghost sum: nat,
                      ghost start: FileSystem)
      returns (ok: bool, completed': int64, ghost reached: nat)
      requires i < |entries| && entries[i].size >= 0
      requires Good(start, entries) && Progress(reports, sum) && completed == ToInt64(sum)
      modifies this`fs, this`reports, this`trace, this`fetched
      ensures Good(start, entries) && Careful(old(fs), fs, entries)
      ensures fetched == old(fetched)
              || (&& fetched == old(fetched) + {i} && !entries[i].directory
                  && (HarmlessTargets(entries) && luck.statWorks ==> !Staged(old(fs), entries[i])))
      ensures sum <= reached <= sum + (if entries[i].directory then 0 else entries[i].size)
      ensures Progress(reports, reached)
      ensures ok <==> Completes(old(fs), entries[i], luck)
      ensures ok ==> fs == AfterEntry(old(fs), entries[i], luck) && Staged(fs, entries[i])
      ensures ok ==> completed' == ToInt64(reached)
                     && reached == sum + (if entries[i].directory then 0 else entries[i].size)
    {
      var e := entries[i];
      completed', reached := completed, sum;
      ok := MkdirAll(DirsOf(e), luck.depth, start, entries);
      if !ok || e.directory {
        return;
      }
      ghost var before := fs;
      assert Staged(old(fs), e) && HarmlessTargets(entries) ==> Present(before, e);
      ok, completed', reached := ReceiveFile(entries, i, luck, completed, sum, start);
      CarefulTransitive(old(fs), before, fs, entries);
    }

    /** A file whose directory is there: it is complete, or it is fetched. */
    method ReceiveFile(entries: seq<FileEntry>, i: nat, luck: Luck, completed: int64, ghost sum: nat,
                       ghost start: FileSystem)
      returns (ok: bool, completed': int64, ghost reached: nat)
      requires i < |entries| && entries[i].size >= 0 && !entries[i].directory
      requires Good(start, entries) && Progress(reports, sum) && completed == ToInt64(sum)
      modifies this`fs, this`reports, this`trace, this`fetched
      ensures Good(start, entries) && Careful(old(fs), fs, entries)
      ensures fetched == if luck.statWorks && Present(old(fs), entries[i]) then old(fetched) else old(fetched) + {i}
      ensures sum <= reached <= sum + entries[i].size && Progress(reports, reached)
      ensures if luck.statWorks && Present(old(fs), entries[i]) then ok && fs == old(fs)
              else ok <==> CanFetch(old(fs), entries[i]) && Sends(luck, entries[i])
      ensures ok && !(luck.statWorks && Present(old(fs), entries[i])) ==>
                fs == Installed(old(fs), entries[i], Prefix(Flatten(luck.chunks), entries[i].size))
      ensures ok ==> Staged(fs, entries[i]) && completed' == ToInt64(reached) && reached == sum + entries[i].size
    {
      var e := entries[i];
      if luck.statWorks && Present(fs, e) {
        ProgressStaged(reports, sum, e.size);
        WrapSum(sum, e.size);
        completed', reached := ToInt64(completed + e.size), sum + e.size;
        reports := reports + [completed'];
        return true, completed', reached;
      }
      ok, completed', reached := FetchEntry(entries, i, luck, completed, sum, start);
    }

    method FetchEntry(entries: seq<FileEntry>, i: nat, luck: Luck, completed: int64, ghost sum: nat,
                      ghost start: FileSystem)
      returns (ok: bool, completed': int64, ghost reached: nat)
      requires i < |entries| && entries[i].size >= 0 && !entries[i].directory
      requires Good(start, entries) && Progress(reports, sum) && completed == ToInt64(sum)
      modifies this`fs, this`reports, this`trace, this`fetched
      ensures Good(start, entries) && Careful(old(fs), fs, entries)
      ensures fetched == old(fetched) + {i}
      ensures sum <= reached <= sum + entries[i].size && Progress(reports, reached)
      ensures ok <==> CanFetch(old(fs), entries[i]) && Sends(luck, entries[i])
      ensures ok ==> fs == Installed(old(fs), entries[i], Prefix(Flatten(luck.chunks), entries[i].size))
                     && Staged(fs, entries[i]) && completed' == ToInt64(reached) && reached == sum + entries[i].size
    {
      ghost var more, upto;
      ok, more, upto := Fetch(entries, i, luck, completed, start);
      ProgressFetched(old(reports), sum, more, upto);
      reached := sum + upto;
      WrapSum(sum, entries[i].size);
      completed' := ToInt64(completed + entries[i].size);
    }

    /**
      receiveFileOfferWithProgress. When the files of the offer get along: every state on the way
      is exact, after a success everything is there, after a failure the entries before it are,
      and nothing complete is lost or fetched again. A success returns where the roots are staged.
      */
    method Receive(offer: FileOffer, ctx: OfferPath.Context, staging: string, prepared: bool, lucks: seq<Luck>)
      returns (r: Option<seq<string>>, ghost done: nat, ghost reached: nat, ghost states: seq<FileSystem>)
      requires |lucks| == |offer.entries| && reports == [] && trace == [fs] && fetched == {}
      modifies this
      ensures !OfferPath.ValidOffer(offer, ctx) ==> r.None? && fs == old(fs) && reports == []
      ensures r.Some? ==> StagedRoots(r.value, staging, offer.roots)
      ensures done <= |offer.entries|
      ensures Harmless(offer.entries) ==> Kept(old(fs), offer.entries, lucks, done)
      ensures forall k :: k in fetched ==> k < |offer.entries| && !offer.entries[k].directory
      ensures r.Some? <==> OfferPath.ValidOffer(offer, ctx) && prepared && done == |offer.entries|
      ensures OfferPath.ValidOffer(offer, ctx) && prepared ==>
                Stuck(states, offer.entries, lucks, done) && states[0] == old(fs) && (r.Some? ==> states[done] == fs)
      ensures OfferPath.ValidOffer(offer, ctx) ==>
                && announced == ToInt64(FileBytes(offer.entries))
                && Progress(reports, reached) && reached <= FileBytes(offer.entries)
                && (r.Some? ==> reached == FileBytes(offer.entries))
    {
      if !OfferPath.ValidOffer(offer, ctx) {
        return None, 0, 0, [fs];
      }
      r, done, reached, states := ReceiveAccepted(offer, staging, prepared, lucks);
    }

    /** What follows the validation. */
    method ReceiveAccepted(offer: FileOffer, staging: string, prepared: bool, lucks: seq<Luck>)
      returns (r: Option<seq<string>>, ghost done: nat, ghost reached: nat, ghost states: seq<FileSystem>)
      requires forall k :: 0 <= k < |offer.entries| ==> offer.entries[k].size >= 0
      requires |lucks| == |offer.entries| && reports == [] && trace == [fs] && fetched == {}
      modifies this
      ensures r.Some? ==> StagedRoots(r.value, staging, offer.roots)
      ensures done <= |offer.entries|
      ensures Harmless(offer.entries) ==> Kept(old(fs), offer.entries, lucks, done)
      ensures forall k :: k in fetched ==> k < |offer.entries| && !offer.entries[k].directory
      ensures r.Some? <==> prepared && done == |offer.entries|
      ensures prepared ==>
                Stuck(states, offer.entries, lucks, done) && states[0] == old(fs) && (r.Some? ==> states[done] == fs)
      ensures announced == ToInt64(FileBytes(offer.entries))
      ensures Progress(reports, reached) && reached <= FileBytes(offer.entries)
      ensures r.Some? ==> reached == FileBytes(offer.entries)
    {
      var _, _, total := FileOfferStats(offer.entries);
      announced, reports := total, [0];
      if !prepared {
        return None, 0, 0, [fs];
      }
      var ok;
      ok, done, reached, states := ReceiveEntries(offer.entries, lucks);
      if !ok {
        return None, done, reached, states;
      }
      var roots := RootPaths(staging, offer.roots);
      r := Some(roots);
    }

    /** The loop over the entries, after the first report. */
    method ReceiveEntries(entries: seq<FileEntry>, lucks: seq<Luck>)
      returns (ok: bool, ghost done: nat, ghost reached: nat, ghost states: seq<FileSystem>)
      requires forall k :: 0 <= k < |entries| ==> entries[k].size >= 0
      requires |lucks| == |entries| && reports == [0] && trace == [fs] && fetched == {}
      modifies this`fs, this`reports, this`trace, this`fetched
      ensures done <= |entries| && (ok <==> done == |entries|)
      ensures Harmless(entries) ==> Kept(old(fs), entries, lucks, done)
      ensures forall k :: k in fetched ==> k < |entries| && !entries[k].directory
      ensures Stuck(states, entries, lucks, done) && states[0] == old(fs) && (ok ==> states[done] == fs)
      ensures Progress(reports, reached) && reached <= FileBytes(entries) && (ok ==> reached == FileBytes(entries))
    {
      ghost var start := fs;
      var completed: int64 := 0;
      done, reached, states := 0, 0, [fs];
      for i := 0 to |entries|
        invariant done == i && Through(start, entries, lucks, i, reached, completed)
        invariant IsRun(states, entries, lucks, i) && states[0] == start && states[i] == fs
      {
        ok, completed, reached := Next(entries, lucks, i, completed, reached, start);
        if !ok {
          SoFar(start, entries, lucks, done);
          return;
        }
        RunGrows(states, fs, entries, lucks, i);
        done, states := i + 1, states + [fs];
      }
      SoFar(start, entries, lucks, done);
      assert entries[..|entries|] == entries;
      ok := true;
    }

    lemma SoFar(start: FileSystem, entries: seq<FileEntry>, lucks: seq<Luck>, done: nat)
      requires |lucks| == |entries| && done <= |entries|
      requires Good(start, entries) && Careful(start, fs, entries) && OnlyMissing(fetched, start, entries, lucks)
      requires FirstStaged(fs, entries, done)
      ensures Harmless(entries) ==> Kept(start, entries, lucks, done)
    {
      HarmlessMeans(entries);
    }

    /**
      Every state so far is exact, the first `done` entries are staged, and what was staged at the
      start still is and was not fetched, unless stat failed.
      */
    ghost predicate Kept(start: FileSystem, entries: seq<FileEntry>, lucks: seq<Luck>, done: nat)
      requires |lucks| == |entries| && done <= |entries|
      reads this
    {
      && trace != [] && trace[|trace| - 1] == fs
      && (forall k :: 0 <= k < |trace| ==> Exact(start, trace[k], entries))
      && (forall k :: 0 <= k < done ==> Staged(fs, entries[k]))
      && (forall k :: 0 <= k < |entries| && Staged(start, entries[k]) ==> Staged(fs, entries[k]))
      && (forall k :: k in fetched && k < |entries| && lucks[k].statWorks ==> !Staged(start, entries[k]))
    }

    /** The first i entries are done, and everything promised holds so far. */
    ghost predicate Through(start: FileSystem, entries: seq<FileEntry>, lucks: seq<Luck>, i: nat, sum: nat,
                            completed: int64)
      requires |lucks| == |entries| && i <= |entries|
      reads this
    {
      && Good(start, entries) && Careful(start, fs, entries)
      && FirstStaged(fs, entries, i)
      && OnlyMissing(fetched, start, entries, lucks)
      && Progress(reports, sum) && completed == ToInt64(sum) && sum == FileBytes(entries[..i])
    }

    method Next(entries: seq<FileEntry>, lucks: seq<Luck>, i: nat, completed: int64, ghost sum: nat,
                ghost start: FileSystem)
      returns (ok: bool, completed': int64, ghost reached: nat)
      requires forall k :: 0 <= k < |entries| ==> entries[k].size >= 0
      requires |lucks| == |entries| && i < |entries| && Through(start, entries, lucks, i, sum, completed)
      modifies this`fs, this`reports, this`trace, this`fetched
      ensures ok <==> Completes(old(fs), entries[i], lucks[i])
      ensures ok ==> fs == AfterEntry(old(fs), entries[i], lucks[i])
      ensures ok ==> Through(start, entries, lucks, i + 1, reached, completed')
      ensures Good(start, entries) && Careful(start, fs, entries) && OnlyMissing(fetched, start, entries, lucks)
      ensures FirstStaged(fs, entries, i)
      ensures Progress(reports, reached) && reached <= FileBytes(entries)
    {
      ghost var before, asked := fs, fetched;
      ok, completed', reached := ReceiveOne(entries, i, lucks[i], completed, sum, start);
      CarefulTransitive(start, before, fs, entries);
      StaysStaged(before, fs, entries, i);
      AskedFor(asked, fetched, start, before, entries, lucks, i);
      FileBytesGrow(entries, i);
    }
  }

  /** The paths a success returns: those of the roots, below the staging directory. */
  ghost predicate StagedRoots(paths: seq<string>, staging: string, roots: seq<string>)
  {
    |paths| == |roots| && forall i :: 0 <= i < |roots| ==> paths[i] == OfferPath.JoinPath(staging, roots[i])
  }

  method RootPaths(staging: string, roots: seq<string>) returns (paths: seq<string>)
    ensures StagedRoots(paths, staging, roots)
  {
    paths := [];
    for i := 0 to |roots|
      invariant StagedRoots(paths, staging, roots[..i])
    {
      paths := paths + [OfferPath.JoinPath(staging, roots[i])];
    }
    assert roots[..|roots|] == roots;
  }

  ghost predicate FirstStaged(fs: FileSystem, entries: seq<FileEntry>, i: nat)
    requires i <= |entries|
  {
    HarmlessTargets(entries) ==> forall k :: 0 <= k < i ==> Staged(fs, entries[k])
  }

  lemma StaysStaged(fs: FileSystem, fs': FileSystem, entries: seq<FileEntry>, i: nat)
    requires i < |entries| && FirstStaged(fs, entries, i) && Careful(fs, fs', entries)
    ensures FirstStaged(fs', entries, i) && (Staged(fs', entries[i]) ==> FirstStaged(fs', entries, i + 1))
  {
  }

  /** Every fetched entry is a file that was missing or of the wrong size, unless stat failed. */
  ghost predicate OnlyMissing(fetched: set<nat>, start: FileSystem, entries: seq<FileEntry>, lucks: seq<Luck>)
    requires |lucks| == |entries|
  {
    forall k :: k in fetched ==>
      k < |entries| && !entries[k].directory
      && (HarmlessTargets(entries) && lucks[k].statWorks ==> !Staged(start, entries[k]))
  }

  lemma AskedFor(asked: set<nat>, fetched: set<nat>, start: FileSystem, before: FileSystem,
                 entries: seq<FileEntry>, lucks: seq<Luck>, i: nat)
    requires i < |entries| == |lucks| && OnlyMissing(asked, start, entries, lucks) && Careful(start, before, entries)
    requires fetched == asked
             || (&& fetched == asked + {i} && !entries[i].directory
                 && (HarmlessTargets(entries) && lucks[i].statWorks ==> !Staged(before, entries[i])))
    ensures OnlyMissing(fetched, start, entries, lucks)
  {
  }
}
