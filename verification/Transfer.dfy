/** file_sync.go: the two ends of a file transfer. What is installed is what the source holds. */
module Transfer {
  import opened Wrappers
  import opened Bytes
  import opened FileSource
  import opened Staging

  /** The nine-byte header, when it arrived: whether the source agreed, and the size. */
  function HeaderRead(arrived: seq<byte>): Option<(bool, int64)>
  {
    if |arrived| < FETCH_HEADER_SIZE then None
    else Some((arrived[0] == FETCH_OK, ToInt64(FromBigEndian(arrived[1..FETCH_HEADER_SIZE]))))
  }

  function BodyRead(arrived: seq<byte>): seq<byte>
  {
    if |arrived| < FETCH_HEADER_SIZE then [] else arrived[FETCH_HEADER_SIZE..]
  }

  /** The receiver reads what arrived on its connection, in any chunks. */
  ghost predicate Receives(luck: Luck, arrived: seq<byte>)
  {
    luck.reply == HeaderRead(arrived) && Flatten(luck.chunks) == BodyRead(arrived)
  }

  lemma HeaderArrives(status: byte, size: int64, body: seq<byte>, arrived: seq<byte>)
    requires arrived <= FetchHeader(status, size) + body
    ensures HeaderRead(arrived).Some? ==> HeaderRead(arrived).value == (status == FETCH_OK, size)
    ensures BodyRead(arrived) <= body
    ensures arrived == FetchHeader(status, size) + body ==> HeaderRead(arrived).Some? && BodyRead(arrived) == body
  {
    if |arrived| >= FETCH_HEADER_SIZE {
      var sent := FetchHeader(status, size) + body;
      assert arrived[1..FETCH_HEADER_SIZE] == sent[1..FETCH_HEADER_SIZE] == BigEndian(ToUint64(size), 8);
      Widths();
      DecodeEncode(ToUint64(size), 8);
      assert arrived == sent[..|arrived|];
    }
  }

  lemma RefusalArrives(arrived: seq<byte>)
    ensures arrived <= FetchHeader(FETCH_ERROR, 0) && HeaderRead(arrived).Some? ==> !HeaderRead(arrived).value.0
  {
  }

  /**
    End to end: whatever part of the reply arrives, in whatever chunks, an entry is fetched only if
    the source serves the request, with the size of the entry, and then the file installed holds
    exactly the first bytes of the file served.
    */
  lemma InstalledAsServed(fs: FileSystem, e: FileEntry, luck: Luck, arrived: seq<byte>, p: ProviderState, id: string,
                          index: int, now: int, stat: string -> Option<FileInfo>, read: string -> seq<byte>)
    requires Receives(luck, arrived) && arrived <= Reply(p, Some((id, index)), now, stat, read)
    requires Completes(fs, e, luck) && !Skips(fs, e, luck) && e.size >= 0
    ensures Serves(p, id, index, now, stat) && p.files[index].entry.size == e.size
    ensures var content := read(p.files[index].path);
            |content| >= e.size && AfterEntry(fs, e, luck)[Target(e)] == File(content[..e.size])
  {
    RefusalArrives(arrived);
    var f := p.files[index];
    HeaderArrives(FETCH_OK, f.entry.size, Prefix(read(f.path), f.entry.size), arrived);
    assert Prefix(BodyRead(arrived), e.size) == read(f.path)[..e.size];
  }

  /** And when all of the reply arrives and the receiver can write, the file served is installed as it is. */
  lemma ServedIsInstalled(fs: FileSystem, e: FileEntry, luck: Luck, p: ProviderState, id: string, index: int, now: int,
                          stat: string -> Option<FileInfo>, read: string -> seq<byte>)
    requires Receives(luck, Reply(p, Some((id, index)), now, stat, read))
    requires Serves(p, id, index, now, stat) && p.files[index].entry == e
    requires |read(p.files[index].path)| == e.size
    requires luck.opens && luck.closes && luck.renames && luck.space >= e.size && luck.depth >= |DirsOf(e)|
    requires !Blocked(fs, DirsOf(e), |DirsOf(e)|) && CanFetch(WithDirs(fs, e), e)
    ensures Completes(fs, e, luck)
    ensures !Skips(fs, e, luck) ==> AfterEntry(fs, e, luck)[Target(e)] == File(read(p.files[index].path))
  {
    var f := p.files[index];
    var reply := Reply(p, Some((id, index)), now, stat, read);
    HeaderArrives(FETCH_OK, f.entry.size, Prefix(read(f.path), f.entry.size), reply);
    assert Prefix(BodyRead(reply), e.size) == read(f.path);
  }
}
