/**
  hdrop.go: the Windows CF_HDROP file list, a DROPFILES header followed by a NUL-delimited,
  double-NUL-terminated UTF-16 list, with UTF-16 as in sections 2.1 and 2.2 of RFC 2781.
  */
module HDrop {
  import opened Wrappers
  import opened Bytes
  import opened FileSource

  const DROP_FILES_HEADER_SIZE := 20

  type uint16 = x: int | 0 <= x < 0x1_0000

  /** A Unicode scalar value; converting a Go string to runes yields nothing else. */
  type scalar = c: int | 0 <= c < 0xD800 || 0xE000 <= c < 0x11_0000

  type path = seq<scalar>

  const REPLACEMENT: scalar := 0xFFFD

  // ----- UTF-16 -----

  function EncodeScalar(c: scalar): (w: seq<uint16>)
    ensures 1 <= |w| <= 2
  {
    if c < 0x1_0000 then [c] else [0xD800 + (c - 0x1_0000) / 0x400, 0xDC00 + (c - 0x1_0000) % 0x400]
  }

  function Utf16Encode(s: path): seq<uint16>
  {
    if s == [] then [] else EncodeScalar(s[0]) + Utf16Encode(s[1..])
  }

  predicate HighSurrogate(w: uint16)
  {
    0xD800 <= w < 0xDC00
  }

  predicate LowSurrogate(w: uint16)
  {
    0xDC00 <= w < 0xE000
  }

  /** Lone surrogates become replacement characters. */
  function Utf16Decode(w: seq<uint16>): path
  {
    if w == [] then []
    else if HighSurrogate(w[0]) && |w| > 1 && LowSurrogate(w[1]) then
      [0x1_0000 + (w[0] - 0xD800) * 0x400 + (w[1] - 0xDC00)] + Utf16Decode(w[2..])
    else if HighSurrogate(w[0]) || LowSurrogate(w[0]) then [REPLACEMENT] + Utf16Decode(w[1..])
    else [w[0]] + Utf16Decode(w[1..])
  }

  lemma DecodeOne(c: scalar, rest: seq<uint16>)
    ensures Utf16Decode(EncodeScalar(c) + rest) == [c] + Utf16Decode(rest)
  {
    var w := EncodeScalar(c) + rest;
    if c < 0x1_0000 {
      assert w[1..] == rest;
    } else {
      assert w[2..] == rest;
      assert HighSurrogate(w[0]) && LowSurrogate(w[1]);
    }
  }

  lemma {:induction false} Utf16RoundTrip(s: path)
    ensures Utf16Decode(Utf16Encode(s)) == s
  {
    if s != [] {
      DecodeOne(s[0], Utf16Encode(s[1..]));
      Utf16RoundTrip(s[1..]);
    }
  }

  /** No code unit of a NUL-free string is NUL. */
  lemma {:induction false} EncodedUnits(s: path)
    requires 0 !in s
    ensures forall i :: 0 <= i < |Utf16Encode(s)| ==> Utf16Encode(s)[i] != 0
    ensures s != [] ==> Utf16Encode(s) != []
  {
    if s != [] {
      EncodedUnits(s[1..]);
      assert s[0] != 0;
    }
  }

  lemma {:induction false} DecodedScalars(w: seq<uint16>)
    requires forall i :: 0 <= i < |w| ==> w[i] != 0
    ensures 0 !in Utf16Decode(w)
    ensures w != [] ==> Utf16Decode(w) != []
    decreases |w|
  {
    if w != [] {
      if HighSurrogate(w[0]) && |w| > 1 && LowSurrogate(w[1]) {
        DecodedScalars(w[2..]);
      } else {
        DecodedScalars(w[1..]);
      }
    }
  }

  /** Section 2.1 of RFC 2781: one unit below 0x10000, and else a high and a low surrogate with ten bits each. */
  lemma UnitsOfScalar(c: scalar)
    ensures c < 0x1_0000 ==> Utf16Encode([c]) == [c]
    ensures c >= 0x1_0000 ==>
              var w := Utf16Encode([c]);
              |w| == 2 && 0xD800 <= w[0] <= 0xDBFF && 0xDC00 <= w[1] <= 0xDFFF
              && c == 0x1_0000 + (w[0] as int - 0xD800) * 1024 + (w[1] as int - 0xDC00)
  {
    assert Utf16Encode([c]) == EncodeScalar(c) + Utf16Encode([]);
  }

  /** Section 2.2 of RFC 2781: a surrogate without its partner stands for no character. */
  lemma LoneSurrogates(w: seq<uint16>)
    requires w != [] && 0xD800 <= w[0] <= 0xDFFF
    requires w[0] <= 0xDBFF && |w| > 1 ==> !(0xDC00 <= w[1] <= 0xDFFF)
    ensures Utf16Decode(w) == [0xFFFD] + Utf16Decode(w[1..])
  {
  }

  // ----- the list of words and its bytes -----

  predicate ValidPath(p: path)
  {
    p != [] && 0 !in p
  }

  predicate ValidPaths(ps: seq<path>)
  {
    forall i :: 0 <= i < |ps| ==> ValidPath(ps[i])
  }

  /** Every path followed by a NUL, then one more NUL. */
  function Words(ps: seq<path>): seq<uint16>
  {
    if ps == [] then [0] else Utf16Encode(ps[0]) + [0] + Words(ps[1..])
  }

  function WordBytes(w: seq<uint16>): (b: seq<byte>)
    ensures |b| == 2 * |w|
  {
    seq(2 * |w|, i requires 0 <= i < 2 * |w| => if i % 2 == 0 then w[i / 2] % 256 else w[i / 2] / 256)
  }

  /** binary.LittleEndian.Uint16. */
  function Uint16(low: byte, high: byte): uint16
  {
    low as int + 0x100 * high as int
  }

  function WordsOf(b: seq<byte>): (w: seq<uint16>)
    ensures |w| == |b| / 2
  {
    seq(|b| / 2, i requires 0 <= i < |b| / 2 => Uint16(b[2 * i], b[2 * i + 1]))
  }

  lemma WordsRoundTrip(w: seq<uint16>)
    ensures WordsOf(WordBytes(w)) == w
  {
  }

  /** DROPFILES: the offset of the list, 12 zero bytes, and the wide-character flag. */
  const DROP_FILES_HEADER: seq<byte> := [20, 0, 0, 0, 0, 0, 0, 0, 0, 0, 0, 0, 0, 0, 0, 0, 1, 0, 0, 0]

  function HDropBytes(ps: seq<path>): seq<byte>
  {
    DROP_FILES_HEADER + WordBytes(Words(ps))
  }

  method EncodeHDrop(paths: seq<path>) returns (r: Result<seq<byte>, ()>)
    ensures r.Ok? <==> ValidPaths(paths)
    ensures r.Ok? ==> r.value == HDropBytes(paths)
  {
    var words := [];
    ghost var all := Words(paths);
    for k := 0 to |paths|
      invariant ValidPaths(paths[..k])
      invariant all == words + Words(paths[k..])
    {
      if paths[k] == [] || 0 in paths[k] {
        assert !ValidPath(paths[k]);
        return Err(());
      }
      WordsStep(words, paths, k);
      words := words + Utf16Encode(paths[k]);
      words := words + [0];
      assert paths[..k + 1] == paths[..k] + [paths[k]];
    }
    assert paths[..|paths|] == paths;
    words := words + [0];
    assert words == all;
    var data := MakeBytes(words);
    return Ok(data);
  }

  lemma WordsStep(words: seq<uint16>, ps: seq<path>, k: nat)
    requires k < |ps|
    ensures words + Words(ps[k..]) == words + Utf16Encode(ps[k]) + [0] + Words(ps[k + 1..])
  {
    assert ps[k..][1..] == ps[k + 1..];
    var u, rest := Utf16Encode(ps[k]), Words(ps[k + 1..]);
    assert words + (u + [0] + rest) == words + u + [0] + rest;
  }

  method MakeBytes(words: seq<uint16>) returns (s: seq<byte>)
    ensures s == DROP_FILES_HEADER + WordBytes(words)
  {
    var data := new byte[DROP_FILES_HEADER_SIZE + 2 * |words|](_ => 0);
    data[0] := DROP_FILES_HEADER_SIZE;
    data[16] := 1;
    assert data[..DROP_FILES_HEADER_SIZE] == DROP_FILES_HEADER;
    for i := 0 to |words|
      invariant data[..DROP_FILES_HEADER_SIZE] == DROP_FILES_HEADER
      invariant forall j :: 0 <= j < 2 * i ==> data[DROP_FILES_HEADER_SIZE + j] == WordBytes(words)[j]
    {
      data[DROP_FILES_HEADER_SIZE + i * 2] := words[i] % 256;
      data[DROP_FILES_HEADER_SIZE + i * 2 + 1] := words[i] / 256;
    }
    assert data[DROP_FILES_HEADER_SIZE..] == WordBytes(words);
    return data[..];
  }

  // ----- decoding -----

  datatype HDropError = TruncatedHeader | BadOffset | Ansi | BadLength | TooMany | InvalidPath | NotTerminated

  /** The index of the first NUL from `start` on, or |w|. */
  function FirstZero(w: seq<uint16>, start: nat): (i: nat)
    requires start <= |w|
    ensures start <= i <= |w| && (i < |w| ==> w[i] == 0)
    ensures forall j :: start <= j < i ==> w[j] != 0
    decreases |w| - start
  {
    if start == |w| || w[start] == 0 then start else FirstZero(w, start + 1)
  }

  /** The paths that a list of words holds from `start` on, after those found before. */
  function ParseList(w: seq<uint16>, start: nat, found: seq<path>): Result<seq<path>, HDropError>
    requires start <= |w|
    decreases |w| - start
  {
    var i := FirstZero(w, start);
    if i == |w| then Err(NotTerminated)
    else if i == start then Ok(found)
    else if |found| >= MAX_FILE_ENTRIES then Err(TooMany)
    else if !ValidPath(Utf16Decode(w[start..i])) then Err(InvalidPath)
    else ParseList(w, i + 1, found + [Utf16Decode(w[start..i])])
  }

  function Uint32(s: seq<byte>): nat
    requires |s| == 4
  {
    Uint16(s[0], s[1]) as int + 0x1_0000 * Uint16(s[2], s[3]) as int
  }

  function ParseHDrop(data: seq<byte>): Result<seq<path>, HDropError>
  {
    if |data| < DROP_FILES_HEADER_SIZE then Err(TruncatedHeader)
    else
      var offset := Uint32(data[0..4]);
      if offset < DROP_FILES_HEADER_SIZE || offset > |data| then Err(BadOffset)
      else if Uint32(data[16..20]) == 0 then Err(Ansi)
      else if |data| - offset < 2 || (|data| - offset) % 2 != 0 then Err(BadLength)
      else ParseList(WordsOf(data[offset..]), 0, [])
  }

  method DecodeHDrop(data: seq<byte>) returns (r: Result<seq<path>, HDropError>)
    ensures r == ParseHDrop(data)
  {
    if |data| < DROP_FILES_HEADER_SIZE {
      return Err(TruncatedHeader);
    }
    var offset := Uint32(data[0..4]);
    if offset < DROP_FILES_HEADER_SIZE || offset > |data| {
      return Err(BadOffset);
    }
    if Uint32(data[16..20]) == 0 {
      return Err(Ansi);
    }
    var payload := data[offset..];
    if |payload| < 2 || |payload| % 2 != 0 {
      return Err(BadLength);
    }
    var words := ReadWords(payload);
    r := SplitWords(words);
  }

  method ReadWords(payload: seq<byte>) returns (words: array<uint16>)
    ensures words[..] == WordsOf(payload)
  {
    words := new uint16[|payload| / 2](_ => 0);
    for i := 0 to words.Length
      invariant forall j :: 0 <= j < i ==> words[j] == WordsOf(payload)[j]
    {
      words[i] := Uint16(payload[i * 2], payload[i * 2 + 1]);
    }
  }

  /** The scan for NULs, which moves `start` past each path. */
  method SplitWords(words: array<uint16>) returns (r: Result<seq<path>, HDropError>)
    ensures r == ParseList(words[..], 0, [])
  {
    ghost var all := words[..];
    var paths: seq<path> := [];
    var start := 0;
    for i := 0 to words.Length
      invariant start <= i
      invariant forall j :: start <= j < i ==> all[j] != 0
      invariant ParseList(all, 0, []) == ParseList(all, start, paths)
    {
      if words[i] != 0 {
        continue;
      }
      FirstZeroIs(all, start, i);
      if i == start {
        return Ok(paths);
      }
      if |paths| >= MAX_FILE_ENTRIES {
        return Err(TooMany);
      }
      assert words[start..i] == all[start..i];
      var p := Utf16Decode(words[start..i]);
      if p == [] || 0 in p {
        return Err(InvalidPath);
      }
      paths := paths + [p];
      start := i + 1;
    }
    FirstZeroIs(all, start, words.Length);
    return Err(NotTerminated);
  }

  lemma FirstZeroIs(w: seq<uint16>, start: nat, i: nat)
    requires start <= i <= |w| && (i < |w| ==> w[i] == 0)
    requires forall j :: start <= j < i ==> w[j] != 0
    ensures FirstZero(w, start) == i
  {
  }

  // ----- round trip -----

  lemma {:induction false} ParseWords(w: seq<uint16>, start: nat, ps: seq<path>, found: seq<path>)
    requires start <= |w| && w[start..] == Words(ps)
    requires ValidPaths(ps) && |found| <= MAX_FILE_ENTRIES
    ensures ParseList(w, start, found) ==
            if |found| + |ps| <= MAX_FILE_ENTRIES then Ok(found + ps) else Err(TooMany)
    decreases |ps|
  {
    if ps == [] {
      assert w[start..][0] == 0;
      FirstZeroIs(w, start, start);
      assert found + ps == found;
    } else {
      var next := ParseHead(w, start, ps[0], ps[1..], found);
      if |found| < MAX_FILE_ENTRIES {
        ParseWords(w, next, ps[1..], found + [ps[0]]);
        assert (found + [ps[0]]) + ps[1..] == found + ps;
      }
    }
  }

  /** The first encoded path and its NUL are parsed as that path, and the others are left. */
  lemma ParseHead(w: seq<uint16>, start: nat, p: path, rest: seq<path>, found: seq<path>) returns (next: nat)
    requires start <= |w| && w[start..] == Utf16Encode(p) + [0] + Words(rest) && ValidPath(p)
    ensures start < next <= |w| && w[next..] == Words(rest)
    ensures ParseList(w, start, found) ==
            if |found| >= MAX_FILE_ENTRIES then Err(TooMany) else ParseList(w, next, found + [p])
  {
    EncodedUnits(p);
    Utf16RoundTrip(p);
    var u := Utf16Encode(p);
    next := start + |u| + 1;
    CutHead(w, start, u, Words(rest));
    ParsePast(w, start, u);
    ParseUnits(w, start, u, found);
  }

  lemma ParseUnits(w: seq<uint16>, start: nat, u: seq<uint16>, found: seq<path>)
    requires u != [] && start + |u| < |w| && FirstZero(w, start) == start + |u| && w[start..start + |u|] == u
    requires ValidPath(Utf16Decode(u))
    ensures ParseList(w, start, found) ==
            if |found| >= MAX_FILE_ENTRIES then Err(TooMany)
            else ParseList(w, start + |u| + 1, found + [Utf16Decode(u)])
  {
  }

  lemma CutHead(w: seq<uint16>, start: nat, u: seq<uint16>, rest: seq<uint16>)
    requires start <= |w| && w[start..] == u + [0] + rest
    ensures && start + |u| < |w| && w[start..start + |u|] == u && w[start + |u|] == 0
            && w[start + |u| + 1..] == rest
  {
    var t := w[start..];
    assert w[start..start + |u|] == t[..|u|];
    assert w[start + |u|] == t[|u|];
    assert w[start + |u| + 1..] == t[|u| + 1..];
  }

  lemma ParsePast(w: seq<uint16>, start: nat, u: seq<uint16>)
    requires start + |u| < |w| && w[start..start + |u|] == u && w[start + |u|] == 0
    requires forall i :: 0 <= i < |u| ==> u[i] != 0
    ensures FirstZero(w, start) == start + |u|
  {
    forall j | start <= j < start + |u|
      ensures w[j] != 0
    {
      assert w[j] == u[j - start];
    }
    FirstZeroIs(w, start, start + |u|);
  }

  lemma HeaderFields(b: seq<byte>)
    ensures var data := DROP_FILES_HEADER + b;
            && Uint32(data[0..4]) == DROP_FILES_HEADER_SIZE && Uint32(data[16..20]) == 1
            && data[DROP_FILES_HEADER_SIZE..] == b
  {
  }

  lemma {:induction false} ParseBytes(ps: seq<path>)
    ensures ParseHDrop(HDropBytes(ps)) == ParseList(Words(ps), 0, [])
  {
    HeaderFields(WordBytes(Words(ps)));
    WordsRoundTrip(Words(ps));
  }

  /** Decoding an encoded list gives it back exactly when it has at most 4096 paths; longer lists are refused. */
  lemma {:induction false} RoundTrip(ps: seq<path>)
    requires ValidPaths(ps)
    ensures ParseHDrop(HDropBytes(ps)) == Ok(ps) <==> |ps| <= MAX_FILE_ENTRIES
    ensures |ps| > MAX_FILE_ENTRIES ==> ParseHDrop(HDropBytes(ps)) == Err(TooMany)
  {
    ParseBytes(ps);
    assert Words(ps)[0..] == Words(ps);
    ParseWords(Words(ps), 0, ps, []);
    assert [] + ps == ps;
  }

  lemma {:induction false} ParsedList(w: seq<uint16>, start: nat, found: seq<path>)
    requires start <= |w| && ValidPaths(found) && |found| <= MAX_FILE_ENTRIES
    ensures var r := ParseList(w, start, found);
            && r != Err(InvalidPath)
            && (r.Ok? ==> ValidPaths(r.value) && |r.value| <= MAX_FILE_ENTRIES)
    decreases |w| - start
  {
    var i := FirstZero(w, start);
    if start < i < |w| && |found| < MAX_FILE_ENTRIES {
      DecodedScalars(w[start..i]);
      ParsedList(w, i + 1, found + [Utf16Decode(w[start..i])]);
    }
  }

  /**
    Whatever bytes the clipboard holds, an accepted list is valid, the check for an invalid
    path never fires, and encoding the list again gives bytes that decode to the same list.
    */
  lemma AnyBytes(data: seq<byte>)
    ensures ParseHDrop(data) != Err(InvalidPath)
    ensures ParseHDrop(data).Ok? ==>
              var ps := ParseHDrop(data).value;
              ValidPaths(ps) && |ps| <= MAX_FILE_ENTRIES && ParseHDrop(HDropBytes(ps)) == Ok(ps)
  {
    if |data| >= DROP_FILES_HEADER_SIZE {
      var offset := Uint32(data[0..4]);
      if DROP_FILES_HEADER_SIZE <= offset <= |data| {
        ParsedList(WordsOf(data[offset..]), 0, []);
        if ParseHDrop(data).Ok? {
          RoundTrip(ParseHDrop(data).value);
        }
      }
    }
  }

  // ----- what is decoded, for any layout -----

  /** Words go out with the low byte first. */
  lemma LittleEndianWords(w: seq<uint16>, i: nat)
    requires i < |w|
    ensures WordBytes(w)[2 * i] as int + 256 * WordBytes(w)[2 * i + 1] as int == w[i]
  {
  }

  /** The first four bytes, the low one first. */
  function ListOffset(data: seq<byte>): int
    requires |data| >= 4
  {
    data[0] as int + 256 * data[1] as int + 65_536 * data[2] as int + 16_777_216 * data[3] as int
  }

  ghost predicate Segment(u: seq<uint16>)
  {
    u != [] && forall i :: 0 <= i < |u| ==> u[i] != 0
  }

  function Joined(us: seq<seq<uint16>>): seq<uint16>
  {
    if us == [] then [] else us[0] + [0] + Joined(us[1..])
  }

  function DecodedAll(us: seq<seq<uint16>>): (ps: seq<path>)
    ensures |ps| == |us|
  {
    seq(|us|, i requires 0 <= i < |us| => Utf16Decode(us[i]))
  }

  lemma SegmentParses(w: seq<uint16>, start: nat, u: seq<uint16>, rest: seq<uint16>, found: seq<path>)
    returns (next: nat)
    requires start <= |w| && w[start..] == u + [0] + rest && Segment(u)
    ensures start < next <= |w| && w[next..] == rest
    ensures ParseList(w, start, found) ==
            if |found| >= 4096 then Err(TooMany) else ParseList(w, next, found + [Utf16Decode(u)])
  {
    next := start + |u| + 1;
    CutHead(w, start, u, rest);
    ParsePast(w, start, u);
    assert ValidPath(Utf16Decode(u)) by {
      DecodedScalars(u);
    }
    ParseUnits(w, start, u, found);
  }

  lemma DecodedNext(us: seq<seq<uint16>>, found: seq<path>)
    requires us != []
    ensures found + [Utf16Decode(us[0])] + DecodedAll(us[1..]) == found + DecodedAll(us)
  {
  }

  lemma {:induction false} SegmentsParse(w: seq<uint16>, start: nat, us: seq<seq<uint16>>, tail: seq<uint16>,
                                         found: seq<path>)
    requires start <= |w| && w[start..] == Joined(us) + [0] + tail && |found| + |us| <= 4096
    requires forall i :: 0 <= i < |us| ==> Segment(us[i])
    ensures ParseList(w, start, found) == Ok(found + DecodedAll(us))
    decreases |us|
  {
    if us == [] {
      assert w[start] == w[start..][0] == 0;
      FirstZeroIs(w, start, start);
      assert found + DecodedAll(us) == found;
    } else {
      var rest := Joined(us[1..]) + [0] + tail;
      assert Joined(us) + [0] + tail == us[0] + [0] + rest;
      var next := SegmentParses(w, start, us[0], rest, found);
      SegmentsParse(w, next, us[1..], tail, found + [Utf16Decode(us[0])]);
      DecodedNext(us, found);
    }
  }

  /**
    A list is found at the offset that the first four bytes give, whatever stands between it and the
    header, when any of the four flag bytes is set. It ends at the first empty entry, and what
    follows that is ignored.
    */
  lemma AnyLayout(data: seq<byte>, us: seq<seq<uint16>>, tail: seq<uint16>)
    requires |data| >= 20 && |us| <= 4096 && forall i :: 0 <= i < |us| ==> Segment(us[i])
    requires data[16] != 0 || data[17] != 0 || data[18] != 0 || data[19] != 0
    requires 20 <= ListOffset(data) <= |data| && data[ListOffset(data)..] == WordBytes(Joined(us) + [0] + tail)
    ensures ParseHDrop(data) == Ok(DecodedAll(us))
  {
    var words := Joined(us) + [0] + tail;
    ListIs(data, words);
    JoinedParses(us, tail);
  }

  lemma JoinedParses(us: seq<seq<uint16>>, tail: seq<uint16>)
    requires |us| <= 4096 && forall i :: 0 <= i < |us| ==> Segment(us[i])
    ensures ParseList(Joined(us) + [0] + tail, 0, []) == Ok(DecodedAll(us))
  {
    var words := Joined(us) + [0] + tail;
    assert words[0..] == words;
    SegmentsParse(words, 0, us, tail, []);
    assert [] + DecodedAll(us) == DecodedAll(us);
  }

  lemma ListIs(data: seq<byte>, words: seq<uint16>)
    requires |data| >= 20 && words != []
    requires data[16] != 0 || data[17] != 0 || data[18] != 0 || data[19] != 0
    requires 20 <= ListOffset(data) <= |data| && data[ListOffset(data)..] == WordBytes(words)
    ensures ParseHDrop(data) == ParseList(words, 0, [])
  {
    WordsRoundTrip(words);
    ListRead(data);
  }

  lemma ListRead(data: seq<byte>)
    requires |data| >= 20 && 20 <= ListOffset(data) <= |data| - 2 && (|data| - ListOffset(data)) % 2 == 0
    requires data[16] != 0 || data[17] != 0 || data[18] != 0 || data[19] != 0
    ensures ParseHDrop(data) == ParseList(WordsOf(data[ListOffset(data)..]), 0, [])
  {
    HeaderRead(data);
  }

  lemma HeaderRead(data: seq<byte>)
    requires |data| >= 20
    ensures Uint32(data[0..4]) == ListOffset(data)
    ensures Uint32(data[16..20]) == 0 <==> data[16] == 0 && data[17] == 0 && data[18] == 0 && data[19] == 0
  {
  }

  /** What is refused before any list is read. */
  lemma HeaderRefused(data: seq<byte>)
    ensures |data| < 20 ==> ParseHDrop(data).Err?
    ensures |data| >= 20 ==>
              (ListOffset(data) < 20 || ListOffset(data) > |data| - 2 || (|data| - ListOffset(data)) % 2 == 1
               || (data[16] == 0 && data[17] == 0 && data[18] == 0 && data[19] == 0)) ==> ParseHDrop(data).Err?
  {
    if |data| >= 20 {
      HeaderRead(data);
    }
  }
}
