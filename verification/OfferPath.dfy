/**
  file_sync.go: the checks that keep a received offer inside its staging directory, against
  path/filepath with "/" as separator.
  */
module OfferPath {
  import opened Wrappers
  import opened FileSource

  // ----- path/filepath -----

  /** strings.Split(s, "/"). */
  function Split(s: string): (cs: seq<string>)
    ensures |cs| >= 1
  {
    if s == "" then [""] else Prepend(s[0], Split(s[1..]))
  }

  function Join(cs: seq<string>): string
    requires |cs| >= 1
  {
    if |cs| == 1 then cs[0] else cs[0] + ("/" + Join(cs[1..]))
  }

  /** filepath.Clean: drop empty and "." elements, let ".." remove the element before it. */
  function CleanElements(cs: seq<string>, rooted: bool, out: seq<string>): seq<string>
  {
    if cs == [] then out
    else if cs[0] == "" || cs[0] == "." then CleanElements(cs[1..], rooted, out)
    else if cs[0] != ".." then CleanElements(cs[1..], rooted, out + [cs[0]])
    else if out != [] && out[|out| - 1] != ".." then CleanElements(cs[1..], rooted, out[..|out| - 1])
    else if rooted then CleanElements(cs[1..], rooted, out)
    else CleanElements(cs[1..], rooted, out + [".."])
  }

  predicate IsAbs(path: string)
  {
    path != "" && path[0] == '/'
  }

  function Clean(path: string): string
  {
    var out := CleanElements(Split(path), IsAbs(path), []);
    if IsAbs(path) then "/" + (if out == [] then "" else Join(out))
    else if out == [] then "."
    else Join(out)
  }

  /** filepath.Join of two non-empty elements. */
  function JoinPath(a: string, b: string): string
  {
    Clean(a + "/" + b)
  }

  // ----- the checks -----

  const FORBIDDEN := "<>:\"|?*"

  predicate HasSuffix(s: string, c: char)
  {
    s != "" && s[|s| - 1] == c
  }

  /** strings.SplitN(s, ".", 2)[0]. */
  function BeforeDot(s: string): string
  {
    if s == "" || s[0] == '.' then "" else [s[0]] + BeforeDot(s[1..])
  }

  /** strings.ToUpper, for a given mapping of characters. */
  function ToUpper(s: string, upper: char -> char): (r: string)
    ensures |r| == |s|
  {
    seq(|s|, i requires 0 <= i < |s| => upper(s[i]))
  }

  predicate ReservedName(component: string, upper: char -> char)
  {
    var base := ToUpper(BeforeDot(component), upper);
    || base in {"CON", "PRN", "AUX", "NUL"}
    || (|base| == 4 && ("COM" <= base || "LPT" <= base) && '1' <= base[3] <= '9')
  }

  predicate ValidComponent(c: string, upper: char -> char)
  {
    && c != "" && !HasSuffix(c, '.') && !HasSuffix(c, ' ')
    && (forall i :: 0 <= i < |c| ==> c[i] !in FORBIDDEN && c[i] as int >= 32)
    && !ReservedName(c, upper)
  }

  predicate ValidComponents(path: string, upper: char -> char)
  {
    forall i :: 0 <= i < |Split(path)| ==> ValidComponent(Split(path)[i], upper)
  }

  predicate ValidRelativePath(path: string, upper: char -> char)
  {
    && !(path == "" || '\0' in path || '\\' in path)
    && !(Clean(path) != path || IsAbs(path) || path == ".." || "../" <= path)
    && ValidComponents(path, upper)
  }

  // ----- which names a component may have -----

  /** The names of devices: four words, and two words with a digit from 1 to 9. */
  predicate DeviceName(u: string)
  {
    || u == "CON" || u == "PRN" || u == "AUX" || u == "NUL"
    || exists d :: d in "123456789" && (u == "COM" + [d] || u == "LPT" + [d])
  }

  lemma NumberedDevice(u: string, word: string)
    requires |word| == 3
    ensures |u| == 4 && word <= u && '1' <= u[3] <= '9' <==> exists d :: d in "123456789" && u == word + [d]
  {
    if |u| == 4 && word <= u && '1' <= u[3] <= '9' {
      assert u == word + [u[3]];
      assert u[3] in "123456789" by {
        assert u[3] == "123456789"[u[3] as int - '1' as int];
      }
    }
  }

  lemma BeforeDotIs(base: string, rest: string)
    requires '.' !in base && (rest == "" || rest[0] == '.')
    ensures BeforeDot(base + rest) == base
  {
    if base != "" {
      BeforeDotIs(base[1..], rest);
      assert (base + rest)[1..] == base[1..] + rest;
      assert base == [base[0]] + base[1..];
    } else {
      assert base + rest == rest;
    }
  }

  lemma ReservedIsDevice(base: string, rest: string, upper: char -> char)
    requires '.' !in base && (rest == "" || rest[0] == '.')
    ensures ReservedName(base + rest, upper) <==> DeviceName(ToUpper(base, upper))
  {
    BeforeDotIs(base, rest);
    NumberedDevice(ToUpper(base, upper), "COM");
    NumberedDevice(ToUpper(base, upper), "LPT");
  }

  /**
    A component may not be empty, end with a dot or a space, hold a control character or one of
    seven punctuation marks, or be named like a device, whatever follows the first dot.
    */
  lemma ComponentsAllowed(base: string, rest: string, upper: char -> char)
    requires '.' !in base && (rest == "" || rest[0] == '.')
    ensures var c := base + rest;
            ValidComponent(c, upper) <==>
              && |c| > 0 && c[|c| - 1] != '.' && c[|c| - 1] != ' '
              && (forall i :: 0 <= i < |c| ==>
                    && c[i] >= ' ' && c[i] != '<' && c[i] != '>' && c[i] != ':' && c[i] != '"'
                    && c[i] != '|' && c[i] != '?' && c[i] != '*')
              && !DeviceName(ToUpper(base, upper))
  {
    ReservedIsDevice(base, rest, upper);
  }

  // ----- splitting and cleaning -----

  /** What one more character in front does to the components. */
  function Prepend(c: char, cs: seq<string>): (r: seq<string>)
    requires |cs| >= 1
    ensures |r| >= 1
  {
    if c == '/' then [""] + cs else [[c] + cs[0]] + cs[1..]
  }

  lemma JoinCons(c: string, rest: seq<string>)
    requires |rest| >= 1
    ensures Join([c] + rest) == c + ("/" + Join(rest))
  {
    var cs := [c] + rest;
    assert cs[0] == c && cs[1..] == rest;
  }

  lemma JoinPrepend(c: char, cs: seq<string>)
    requires |cs| >= 1
    ensures Join(Prepend(c, cs)) == [c] + Join(cs)
  {
    var first, rest := cs[0], cs[1..];
    assert cs == [first] + rest;
    if c == '/' {
      JoinCons("", cs);
      assert "" + ("/" + Join(cs)) == "/" + Join(cs);
    } else if |cs| > 1 {
      var tail := "/" + Join(rest);
      JoinCons([c] + first, rest);
      JoinCons(first, rest);
      Associate([c], first, tail);
    } else {
      assert Prepend(c, cs) == [[c] + first];
    }
  }

  lemma {:induction false} JoinSplit(s: string)
    ensures Join(Split(s)) == s
  {
    if s != "" {
      JoinSplit(s[1..]);
      JoinPrepend(s[0], Split(s[1..]));
    }
  }

  lemma PrependConcat(c: char, cs: seq<string>, ds: seq<string>)
    requires |cs| >= 1
    ensures Prepend(c, cs + ds) == Prepend(c, cs) + ds
  {
    assert (cs + ds)[1..] == cs[1..] + ds;
  }

  lemma {:induction false} SplitConcat(a: string, b: string)
    ensures Split(a + "/" + b) == Split(a) + Split(b)
  {
    var s := a + "/" + b;
    if a == "" {
      assert s[1..] == b;
    } else {
      SplitConcat(a[1..], b);
      assert s[1..] == a[1..] + "/" + b;
      PrependConcat(a[0], Split(a[1..]), Split(b));
    }
  }

  lemma {:induction false} SplitSingle(s: string)
    requires '/' !in s
    ensures Split(s) == [s]
  {
    if s != "" {
      SplitSingle(s[1..]);
      assert [s[0]] + s[1..] == s;
    }
  }

  /** A path element that cleaning keeps. */
  predicate Plain(c: string)
  {
    c != "" && c != "." && c != ".."
  }

  lemma {:induction false} CleanKeepsPlain(cs: seq<string>, rooted: bool, out: seq<string>)
    requires forall i :: 0 <= i < |cs| ==> Plain(cs[i])
    ensures CleanElements(cs, rooted, out) == out + cs
  {
    if cs == [] {
      assert out + cs == out;
    } else {
      CleanKeepsPlain(cs[1..], rooted, out + [cs[0]]);
      assert out + [cs[0]] + cs[1..] == out + cs;
    }
  }

  /** A relative path of plain elements is its own cleaning. */
  lemma CleanRelative(path: string)
    requires forall i :: 0 <= i < |Split(path)| ==> Plain(Split(path)[i])
    ensures !IsAbs(path) && Clean(path) == path
  {
    var cs := Split(path);
    assert Plain(cs[0]);
    CleanKeepsPlain(cs, false, []);
    assert [] + cs == cs;
    JoinSplit(path);
  }

  lemma ValidIsPlain(c: string, upper: char -> char)
    requires ValidComponent(c, upper)
    ensures Plain(c)
  {
  }

  /** Every character of a path is a separator or belongs to a component. */
  lemma {:induction false} NoControlCharacter(s: string)
    requires forall i, j :: 0 <= i < |Split(s)| && 0 <= j < |Split(s)[i]| ==> Split(s)[i][j] as int >= 32
    ensures forall k :: 0 <= k < |s| ==> s[k] as int >= 32
  {
    if s != "" {
      var cs, rest := Split(s), Split(s[1..]);
      assert s[0] == '/' || s[0] == cs[0][0];
      forall i, j | 0 <= i < |rest| && 0 <= j < |rest[i]|
        ensures rest[i][j] as int >= 32
      {
        if s[0] == '/' {
          assert rest[i][j] == cs[i + 1][j];
        } else if i == 0 {
          assert rest[i][j] == cs[0][j + 1];
        } else {
          assert rest[i][j] == cs[i][j];
        }
      }
      NoControlCharacter(s[1..]);
    }
  }

  // ----- the check is its simple form -----

  /** The validation accepts exactly the paths without a backslash whose components are all valid. */
  lemma ValidationSimplified(path: string, upper: char -> char)
    ensures ValidRelativePath(path, upper) <==> '\\' !in path && ValidComponents(path, upper)
  {
    if '\\' !in path && ValidComponents(path, upper) {
      forall i | 0 <= i < |Split(path)|
        ensures Plain(Split(path)[i])
      {
        ValidIsPlain(Split(path)[i], upper);
      }
      CleanRelative(path);
      NoNul(path, upper);
      NotParent(path);
    }
  }

  /** An accepted path of one component. */
  predicate ValidName(c: string, upper: char -> char)
  {
    ValidRelativePath(c, upper) && Split(c) == [c] && '/' !in c && '\\' !in c
  }

  lemma ComponentIsName(c: string, upper: char -> char)
    requires ValidComponent(c, upper) && '/' !in c && '\\' !in c
    ensures ValidName(c, upper)
  {
    SplitSingle(c);
    ValidationSimplified(c, upper);
  }

  lemma ShortBaseIsFree(c: string, upper: char -> char)
    requires c != "" && c[0] != '.' && (|c| == 1 || c[1] == '.')
    ensures !ReservedName(c, upper)
  {
    assert BeforeDot(c[1..]) == "";
    assert |ToUpper(BeforeDot(c), upper)| == 1;
  }

  /** A letter, alone or followed by a dot, starts an accepted name, whatever the mapping to upper case. */
  lemma ShortNameIsValid(c: string, upper: char -> char)
    requires c != "" && (|c| == 1 || c[1] == '.') && c[0] != '.' && c[|c| - 1] != '.'
    requires forall i :: 0 <= i < |c| ==> 'a' <= c[i] <= 'z' || '0' <= c[i] <= '9' || c[i] in ".-"
    ensures ValidName(c, upper)
  {
    ShortBaseIsFree(c, upper);
    ComponentIsName(c, upper);
  }

  lemma NoNul(path: string, upper: char -> char)
    requires ValidComponents(path, upper)
    ensures '\0' !in path && path != ""
  {
    assert ValidComponent(Split(path)[0], upper);
    NoControlCharacter(path);
  }

  lemma ParentFirst(path: string)
    requires path == ".." || "../" <= path
    ensures Split(path)[0] == ".."
  {
    SplitSingle("..");
    if "../" <= path {
      SplitConcat("..", path[3..]);
      assert ".." + "/" + path[3..] == path;
    }
  }

  lemma NotParent(path: string)
    requires forall i :: 0 <= i < |Split(path)| ==> Plain(Split(path)[i])
    ensures path != ".." && !("../" <= path)
  {
    assert Plain(Split(path)[0]);
    if path == ".." || "../" <= path {
      ParentFirst(path);
    }
  }

  // ----- where an accepted path ends up -----

  /** A clean absolute directory other than the root, like the staging directory. */
  ghost predicate CleanDirectory(dir: string)
  {
    IsAbs(dir) && |dir| > 1 && forall i :: 1 <= i < |Split(dir)| ==> Plain(Split(dir)[i])
  }

  /** An absolute path whose other elements are plain is its own cleaning. */
  lemma CleanAbsolute(s: string)
    requires IsAbs(s) && |Split(s)| > 1 && forall i :: 1 <= i < |Split(s)| ==> Plain(Split(s)[i])
    ensures Clean(s) == s
  {
    var cs := Split(s);
    var rest := cs[1..];
    assert cs[0] == "";
    assert CleanElements(cs, true, []) == rest by {
      CleanKeepsPlain(rest, true, []);
      assert [] + rest == rest;
    }
    assert "/" + Join(rest) == s by {
      JoinPrepend('/', rest);
      assert Prepend('/', rest) == cs;
      JoinSplit(s);
    }
  }

  /** Joining an accepted path to a clean directory appends its components, and nothing else. */
  lemma StagedInside(dir: string, path: string, upper: char -> char)
    requires CleanDirectory(dir) && ValidRelativePath(path, upper)
    ensures JoinPath(dir, path) == dir + "/" + path
    ensures Split(JoinPath(dir, path)) == Split(dir) + Split(path)
  {
    var s, d, cs := dir + "/" + path, Split(dir), Split(path);
    SplitConcat(dir, path);
    forall i | 1 <= i < |d| + |cs|
      ensures Plain(Split(s)[i])
    {
      if i >= |d| {
        ValidIsPlain(cs[i - |d|], upper);
      }
    }
    CleanAbsolute(s);
  }

  lemma StagedInjectively(dir: string, p: string, q: string, upper: char -> char)
    requires CleanDirectory(dir) && ValidRelativePath(p, upper) && ValidRelativePath(q, upper)
    requires JoinPath(dir, p) == JoinPath(dir, q)
    ensures p == q
  {
    StagedInside(dir, p, upper);
    StagedInside(dir, q, upper);
    assert (dir + "/" + p)[|dir| + 1..] == p && (dir + "/" + q)[|dir| + 1..] == q;
  }

  // ----- validateFileOffer -----

  predicate HexDigit(c: char)
  {
    '0' <= c <= '9' || 'a' <= c <= 'f' || 'A' <= c <= 'F'
  }

  /** What the address and the clock say, and how characters are upper-cased. */
  datatype Context = Context(nowUnix: int, tailscale: string -> bool, upper: char -> char)

  predicate ValidOffer(offer: FileOffer, ctx: Context)
  {
    && offer.version == FILE_OFFER_VERSION && |offer.id| == 64 && 1 <= |offer.entries| <= MAX_FILE_ENTRIES
    && (forall i :: 0 <= i < |offer.id| ==> HexDigit(offer.id[i]))
    && ctx.nowUnix < offer.expires
    && ctx.tailscale(offer.address)
    && (forall i :: 0 <= i < |offer.roots| ==>
          ValidRelativePath(offer.roots[i], ctx.upper) && '/' !in offer.roots[i] && '\\' !in offer.roots[i])
    && (forall i :: 0 <= i < |offer.entries| ==>
          && offer.entries[i].size >= 0
          && ValidRelativePath(offer.entries[i].path, ctx.upper)
          && Split(offer.entries[i].path)[0] in offer.roots)
  }

  /**
    The offers that are accepted: of version 1, with 64 hexadecimal digits as ID, with 1 to 4096
    entries, before their last second, from a Tailscale address. Every root is one valid component,
    and every entry is of a possible size and lies below a root, with valid components only.
    */
  lemma OffersAccepted(offer: FileOffer, ctx: Context)
    ensures ValidOffer(offer, ctx) <==>
              && offer.version == 1 && |offer.id| == 64 && (forall c :: c in offer.id ==> c in "0123456789abcdefABCDEF")
              && 0 < |offer.entries| <= 4096 && ctx.nowUnix < offer.expires && ctx.tailscale(offer.address)
              && (forall i :: 0 <= i < |offer.roots| ==>
                    var root := offer.roots[i]; '/' !in root && '\\' !in root && ValidComponent(root, ctx.upper))
              && (forall i :: 0 <= i < |offer.entries| ==>
                    var e := offer.entries[i];
                    && e.size >= 0 && '\\' !in e.path && ValidComponents(e.path, ctx.upper)
                    && Split(e.path)[0] in offer.roots)
  {
    forall c: char
      ensures HexDigit(c) <==> c in "0123456789abcdefABCDEF"
    {
      HexDigits(c);
    }
    forall i | 0 <= i < |offer.roots|
      ensures ValidRelativePath(offer.roots[i], ctx.upper) && '/' !in offer.roots[i] && '\\' !in offer.roots[i] <==>
              '/' !in offer.roots[i] && '\\' !in offer.roots[i] && ValidComponent(offer.roots[i], ctx.upper)
    {
      ValidationSimplified(offer.roots[i], ctx.upper);
      if '/' !in offer.roots[i] {
        SplitSingle(offer.roots[i]);
      }
    }
    forall i | 0 <= i < |offer.entries|
      ensures ValidRelativePath(offer.entries[i].path, ctx.upper) <==>
              '\\' !in offer.entries[i].path && ValidComponents(offer.entries[i].path, ctx.upper)
    {
      ValidationSimplified(offer.entries[i].path, ctx.upper);
    }
  }

  lemma HexDigits(c: char)
    ensures HexDigit(c) <==> c in "0123456789abcdefABCDEF"
  {
    var digits := "0123456789abcdefABCDEF";
    if '0' <= c <= '9' {
      assert c == digits[c as int - '0' as int];
    } else if 'a' <= c <= 'f' {
      assert c == digits[10 + (c as int - 'a' as int)];
    } else if 'A' <= c <= 'F' {
      assert c == digits[16 + (c as int - 'A' as int)];
    }
  }

  /** Every entry of an accepted offer is staged below the staged path of one of its roots, or is that path. */
  lemma {:induction false} StagedUnderRoot(dir: string, offer: FileOffer, ctx: Context, k: nat) returns (r: nat)
    requires CleanDirectory(dir) && ValidOffer(offer, ctx) && k < |offer.entries|
    ensures r < |offer.roots|
    ensures Split(JoinPath(dir, offer.roots[r])) == Split(dir) + [offer.roots[r]]
    ensures Split(JoinPath(dir, offer.roots[r])) <= Split(JoinPath(dir, offer.entries[k].path))
  {
    var path := offer.entries[k].path;
    r :| 0 <= r < |offer.roots| && offer.roots[r] == Split(path)[0];
    StagedInside(dir, path, ctx.upper);
    StagedInside(dir, offer.roots[r], ctx.upper);
    SplitSingle(offer.roots[r]);
  }
}
