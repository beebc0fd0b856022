/**
  clipboard_files_darwin.go: finding names in the Finder folder under which downloaded items
  overwrite nothing. A path names one item.
  */
module MacPlacement {
  import opened Wrappers

  /** What os.Lstat says about a path. */
  datatype Presence = Present | Absent | Failing

  /** A destination folder: what exists in it, and what cannot be inspected. */
  datatype Folder = Folder(existing: set<string>, failing: set<string>)

  function Lstat(f: Folder, path: string): Presence
  {
    if path in f.failing then Failing else if path in f.existing then Present else Absent
  }

  // ----- names -----

  /** strings.ToLower, for a given mapping of characters. */
  function Lower(s: string, lower: char -> char): (r: string)
    ensures |r| == |s|
    ensures forall i :: 0 <= i < |s| ==> r[i] == lower(s[i])
  {
    seq(|s|, i requires 0 <= i < |s| => lower(s[i]))
  }

  predicate KeepsDigits(lower: char -> char)
  {
    forall c :: '0' <= c <= '9' ==> lower(c) == c
  }

  function Digit(d: nat): char
    requires d < 10
  {
    "0123456789"[d]
  }

  /** The %d of fmt.Sprintf for a non-negative number. */
  function Decimal(n: nat): (s: string)
    ensures s != "" && forall i :: 0 <= i < |s| ==> '0' <= s[i] <= '9'
  {
    if n < 10 then [Digit(n)] else Decimal(n / 10) + [Digit(n % 10)]
  }

  lemma LastDigit(n: nat)
    ensures var s := Decimal(n);
            && s[|s| - 1] == Digit(n % 10)
            && (n >= 10 ==> s[..|s| - 1] == Decimal(n / 10) && |s| > 1)
            && (n < 10 ==> |s| == 1)
  {
  }

  /** The number that decimal digits denote. */
  function Denoted(s: string): nat
    requires forall i :: 0 <= i < |s| ==> '0' <= s[i] <= '9'
  {
    if s == "" then 0 else 10 * Denoted(s[..|s| - 1]) + (s[|s| - 1] - '0') as int
  }

  lemma {:induction false} DecimalDenotes(n: nat)
    ensures Denoted(Decimal(n)) == n
    ensures n > 0 ==> Decimal(n)[0] != '0'
  {
    LastDigit(n);
    if n >= 10 {
      DecimalDenotes(n / 10);
      assert Decimal(n)[0] == Decimal(n / 10)[0];
    } else {
      assert Decimal(n)[..0] == "";
    }
  }

  lemma DecimalInjective(m: nat, n: nat)
    requires Decimal(m) == Decimal(n)
    ensures m == n
  {
    DecimalDenotes(m);
    DecimalDenotes(n);
  }

  /** filepath.Join of a clean folder and the name of an item. */
  function JoinName(directory: string, name: string): string
  {
    directory + "/" + name
  }

  /** filepath.Ext: from the last dot on. */
  function Ext(name: string): string
  {
    if name == "" then ""
    else if name[|name| - 1] == '.' then "."
    else
      var e := Ext(name[..|name| - 1]);
      if e == "" then "" else e + [name[|name| - 1]]
  }

  lemma {:induction false} ExtIsSuffix(name: string)
    ensures |Ext(name)| <= |name| && name[|name| - |Ext(name)|..] == Ext(name)
  {
    if name != "" && name[|name| - 1] != '.' {
      ExtIsSuffix(name[..|name| - 1]);
    }
  }

  function BaseName(name: string): string
  {
    ExtIsSuffix(name);
    name[..|name| - |Ext(name)|]
  }

  /** The names tried, in order: the name itself, then "base (2).ext", "base (3).ext" and so on. */
  function Attempt(directory: string, name: string, t: nat): string
  {
    if t == 0 then JoinName(directory, name)
    else CopyPrefix(directory, name) + Decimal(t + 1) + CopySuffix(name)
  }

  function CopyPrefix(directory: string, name: string): string
  {
    JoinName(directory, BaseName(name) + " (")
  }

  function CopySuffix(name: string): string
  {
    ")" + Ext(name)
  }

  /**
    Copies are numbered from 2 on, before the last dot of a name, and at the end of one without a
    dot.
    */
  lemma CopyNames(directory: string, stem: string, extension: string, n: nat)
    requires '.' !in extension && n >= 2
    ensures Attempt(directory, stem + "." + extension, n - 1) ==
            directory + "/" + stem + " (" + Decimal(n) + ")." + extension
    ensures Attempt(directory, extension, n - 1) == directory + "/" + extension + " (" + Decimal(n) + ")"
  {
    ExtOf(stem, extension);
    var name := stem + "." + extension;
    assert BaseName(name) == name[..|stem|] == stem;
    CopyName(directory, name, stem, "." + extension, n);
    assert BaseName(extension) == extension[..|extension|] == extension;
    CopyName(directory, extension, extension, "", n);
  }

  lemma CopyName(directory: string, name: string, base: string, end: string, n: nat)
    requires n >= 2 && BaseName(name) == base && Ext(name) == end
    ensures Attempt(directory, name, n - 1) == directory + "/" + base + " (" + Decimal(n) + ")" + end
  {
  }

  lemma {:induction false} ExtOf(stem: string, extension: string)
    requires '.' !in extension
    ensures Ext(stem + "." + extension) == "." + extension
    ensures Ext(extension) == ""
    decreases |extension|
  {
    var name := stem + "." + extension;
    if extension != "" {
      var shorter := extension[..|extension| - 1];
      assert extension[|extension| - 1] in extension;
      ExtOf(stem, shorter);
      assert name[..|name| - 1] == stem + "." + shorter;
    }
  }

  /** Two strings that differ in a middle part of digits only, also after lower-casing. */
  lemma MiddleDetermined(p: string, m: string, n: string, s: string, lower: char -> char)
    requires KeepsDigits(lower)
    requires forall i :: 0 <= i < |m| ==> '0' <= m[i] <= '9'
    requires forall i :: 0 <= i < |n| ==> '0' <= n[i] <= '9'
    requires Lower(p + m + s, lower) == Lower(p + n + s, lower)
    ensures m == n
  {
    var a, b := p + m + s, p + n + s;
    assert |Lower(a, lower)| == |a| && |Lower(b, lower)| == |b|;
    assert |m| == |n|;
    forall i | 0 <= i < |m|
      ensures m[i] == n[i]
    {
      assert a[|p| + i] == m[i] && b[|p| + i] == n[i];
      assert Lower(a, lower)[|p| + i] == m[i] && Lower(b, lower)[|p| + i] == n[i];
    }
  }

  lemma AttemptIsLonger(directory: string, name: string, t: nat)
    requires t > 0
    ensures |Attempt(directory, name, t)| > |Attempt(directory, name, 0)|
  {
    ExtIsSuffix(name);
  }

  /** The names tried are pairwise distinct, even after lower-casing. */
  lemma AttemptsDistinct(directory: string, name: string, t: nat, u: nat, lower: char -> char)
    requires KeepsDigits(lower)
    requires Lower(Attempt(directory, name, t), lower) == Lower(Attempt(directory, name, u), lower)
    ensures t == u
  {
    assert |Attempt(directory, name, t)| == |Lower(Attempt(directory, name, t), lower)|;
    assert |Attempt(directory, name, u)| == |Lower(Attempt(directory, name, u), lower)|;
    if t == 0 && u > 0 {
      AttemptIsLonger(directory, name, u);
    } else if u == 0 && t > 0 {
      AttemptIsLonger(directory, name, t);
    } else if t > 0 && u > 0 {
      MiddleDetermined(CopyPrefix(directory, name), Decimal(t + 1), Decimal(u + 1), CopySuffix(name), lower);
      DecimalInjective(t + 1, u + 1);
    }
  }

  // ----- the search for a free name -----

  predicate Free(f: Folder, reserved: set<string>, path: string, lower: char -> char)
  {
    Lstat(f, path) == Absent && Lower(path, lower) !in reserved
  }

  /** A path the search passes over. */
  predicate Taken(f: Folder, reserved: set<string>, path: string, lower: char -> char)
  {
    Lstat(f, path) == Present || (Lstat(f, path) == Absent && Lower(path, lower) in reserved)
  }

  /** A name that can be inspected is free when nothing has it and no target before has it in another case. */
  lemma NamesJudged(f: Folder, reserved: set<string>, path: string, lower: char -> char)
    ensures path in f.failing ==> !Free(f, reserved, path, lower) && !Taken(f, reserved, path, lower)
    ensures path !in f.failing ==>
              (Free(f, reserved, path, lower) <==> path !in f.existing && Lower(path, lower) !in reserved)
              && (Taken(f, reserved, path, lower) <==> path in f.existing || Lower(path, lower) in reserved)
  {
  }

  /** n attempts were passed over; each used up a different existing path or reserved key. */
  ghost predicate UsedUp(directory: string, name: string, n: nat, f: Folder, reserved: set<string>, lower: char -> char,
                         paths: set<string>, keys: set<string>)
  {
    && paths <= f.existing && keys <= reserved && |paths| + |keys| == n
    && (forall p :: p in paths ==> exists t :: 0 <= t < n && p == Attempt(directory, name, t))
    && (forall k :: k in keys ==> exists t :: 0 <= t < n && k == Lower(Attempt(directory, name, t), lower))
  }

  lemma SubsetSize<T>(a: set<T>, b: set<T>)
    requires a <= b
    ensures |a| <= |b|
  {
    assert b == a + (b - a);
  }

  /** The next attempt is none of the paths and keys used up. */
  lemma {:induction false} NothingUsedTwice(directory: string, name: string, n: nat, f: Folder, reserved: set<string>,
                                            lower: char -> char, paths: set<string>, keys: set<string>)
    requires KeepsDigits(lower) && UsedUp(directory, name, n, f, reserved, lower, paths, keys)
    ensures Attempt(directory, name, n) !in paths && Lower(Attempt(directory, name, n), lower) !in keys
  {
    var p := Attempt(directory, name, n);
    var k := Lower(p, lower);
    if p in paths {
      var t :| 0 <= t < n && p == Attempt(directory, name, t);
      AttemptsDistinct(directory, name, t, n, lower);
    }
    if k in keys {
      var t :| 0 <= t < n && k == Lower(Attempt(directory, name, t), lower);
      AttemptsDistinct(directory, name, t, n, lower);
    }
  }

  /** One more attempt is passed over: it uses up something new. */
  lemma {:induction false} UseOne(directory: string, name: string, n: nat, f: Folder, reserved: set<string>,
                                  lower: char -> char, paths: set<string>, keys: set<string>)
    returns (paths': set<string>, keys': set<string>)
    requires KeepsDigits(lower) && UsedUp(directory, name, n, f, reserved, lower, paths, keys)
    requires Taken(f, reserved, Attempt(directory, name, n), lower)
    ensures UsedUp(directory, name, n + 1, f, reserved, lower, paths', keys')
  {
    NothingUsedTwice(directory, name, n, f, reserved, lower, paths, keys);
    var p := Attempt(directory, name, n);
    if p in f.existing {
      paths', keys' := paths + {p}, keys;
      assert |paths'| == |paths| + 1;
    } else {
      paths', keys' := paths, keys + {Lower(p, lower)};
      assert |keys'| == |keys| + 1;
    }
  }

  /** The first n names tried were all passed over. */
  ghost predicate PassedOver(directory: string, name: string, n: nat, f: Folder, reserved: set<string>,
                             lower: char -> char)
  {
    exists paths, keys :: UsedUp(directory, name, n, f, reserved, lower, paths, keys)
  }

  lemma NonePassedOver(directory: string, name: string, f: Folder, reserved: set<string>, lower: char -> char)
    ensures PassedOver(directory, name, 0, f, reserved, lower)
  {
    assert UsedUp(directory, name, 0, f, reserved, lower, {}, {});
  }

  /** The pigeonhole: no more names are passed over than there are existing paths and reserved keys. */
  lemma PassOver(directory: string, name: string, n: nat, f: Folder, reserved: set<string>, lower: char -> char)
    requires KeepsDigits(lower) && PassedOver(directory, name, n, f, reserved, lower)
    requires Taken(f, reserved, Attempt(directory, name, n), lower)
    ensures PassedOver(directory, name, n + 1, f, reserved, lower)
    ensures n + 1 <= |f.existing| + |reserved|
  {
    var paths, keys :| UsedUp(directory, name, n, f, reserved, lower, paths, keys);
    paths, keys := UseOne(directory, name, n, f, reserved, lower, paths, keys);
    SubsetSize(paths, f.existing);
    SubsetSize(keys, reserved);
  }

  ghost predicate AllTaken(directory: string, name: string, n: nat, f: Folder, reserved: set<string>,
                           lower: char -> char)
  {
    forall t :: 0 <= t < n ==> Taken(f, reserved, Attempt(directory, name, t), lower)
  }

  /** n names were tried in vain. */
  ghost predicate Searched(directory: string, name: string, n: nat, f: Folder, reserved: set<string>,
                           lower: char -> char)
  {
    && n <= |f.existing| + |reserved|
    && AllTaken(directory, name, n, f, reserved, lower) && PassedOver(directory, name, n, f, reserved, lower)
  }

  lemma SearchOn(directory: string, name: string, n: nat, f: Folder, reserved: set<string>, lower: char -> char)
    requires KeepsDigits(lower) && Searched(directory, name, n, f, reserved, lower)
    requires Taken(f, reserved, Attempt(directory, name, n), lower)
    ensures Searched(directory, name, n + 1, f, reserved, lower)
  {
    PassOver(directory, name, n, f, reserved, lower);
  }

  /** Look at one candidate: it is free, it cannot be inspected, or the search goes on. */
  method Try(candidate: string, f: Folder, reserved: set<string>, lower: char -> char)
    returns (found: Option<Result<string, string>>)
    ensures match found
            case Some(Ok(path)) => path == candidate && Free(f, reserved, candidate, lower)
            case Some(Err(path)) => path == candidate && Lstat(f, candidate) == Failing
            case None => Taken(f, reserved, candidate, lower)
  {
    if Lstat(f, candidate) == Absent && Lower(candidate, lower) !in reserved {
      return Some(Ok(candidate));
    } else if Lstat(f, candidate) == Failing {
      return Some(Err(candidate));
    }
    return None;
  }

  /**
    The first name that is free, or an error at the first one that cannot be inspected; `t`
    counts the names before it.
    */
  method AvailableMacDestination(directory: string, name: string, reserved: set<string>, f: Folder, lower: char -> char)
    returns (r: Result<string, string>, t: nat)
    requires KeepsDigits(lower)
    ensures t <= |f.existing| + |reserved|
    ensures AllTaken(directory, name, t, f, reserved, lower)
    ensures match r
            case Ok(path) => path == Attempt(directory, name, t) && Free(f, reserved, path, lower)
            case Err(path) => path == Attempt(directory, name, t) && Lstat(f, path) == Failing
  {
    t := 0;
    NonePassedOver(directory, name, f, reserved, lower);
    var found := Try(JoinName(directory, name), f, reserved, lower);
    if found.Some? {
      return found.value, t;
    }
    SearchOn(directory, name, 0, f, reserved, lower);
    var prefix, suffix := CopyPrefix(directory, name), CopySuffix(name);
    var copyNumber := 2;
    while true
      invariant copyNumber >= 2 && Searched(directory, name, copyNumber - 1, f, reserved, lower)
      decreases |f.existing| + |reserved| + 2 - copyNumber
    {
      t := copyNumber - 1;
      found := Try(prefix + Decimal(copyNumber) + suffix, f, reserved, lower);
      if found.Some? {
        return found.value, t;
      }
      SearchOn(directory, name, t, f, reserved, lower);
      copyNumber := copyNumber + 1;
    }
  }

  // ----- placing all items -----

  /** filepath.Base of a path without a trailing separator. */
  function Base(path: string): string
  {
    if path == "" || path[|path| - 1] == '/' then ""
    else Base(path[..|path| - 1]) + [path[|path| - 1]]
  }

  /** The targets are planned one after the other, each reserved for the next ones. */
  ghost predicate Planned(targets: seq<string>, f: Folder, lower: char -> char)
  {
    && (forall i :: 0 <= i < |targets| ==> Lstat(f, targets[i]) == Absent)
    && (forall i, j :: 0 <= i < j < |targets| ==> Lower(targets[i], lower) != Lower(targets[j], lower))
  }

  /** The target is one of the first names tried for an item. */
  ghost predicate EarlyAttempt(target: string, t: nat, directory: string, name: string, bound: nat)
  {
    t <= bound && target == Attempt(directory, name, t)
  }

  /** Every target is an attempt for the name of its item, and an early one. */
  ghost predicate FromAttempts(targets: seq<string>, attempts: seq<nat>, paths: seq<string>, directory: string,
                               existing: nat)
  {
    && |targets| == |attempts| <= |paths|
    && forall i :: 0 <= i < |targets| ==> EarlyAttempt(targets[i], attempts[i], directory, Base(paths[i]), existing + i)
  }

  /** The keys that the planned targets reserve. */
  ghost function ReservedBy(targets: seq<string>, lower: char -> char): set<string>
  {
    set i | 0 <= i < |targets| :: Lower(targets[i], lower)
  }

  ghost predicate Reserving(reserved: set<string>, targets: seq<string>, lower: char -> char)
  {
    reserved == ReservedBy(targets, lower) && |reserved| <= |targets|
  }

  /** The target is the first name tried that is free. */
  ghost predicate FirstFree(target: string, t: nat, directory: string, name: string, f: Folder, reserved: set<string>,
                            lower: char -> char)
  {
    target == Attempt(directory, name, t) && Free(f, reserved, target, lower)
    && AllTaken(directory, name, t, f, reserved, lower)
  }

  /** Each item gets the first name that is free of what exists and of the targets before it. */
  ghost predicate IsPlan(targets: seq<string>, attempts: seq<nat>, paths: seq<string>, directory: string, f: Folder,
                         lower: char -> char)
  {
    && |targets| == |attempts| <= |paths|
    && forall i :: 0 <= i < |targets| ==>
         FirstFree(targets[i], attempts[i], directory, Base(paths[i]), f, ReservedBy(targets[..i], lower), lower)
  }

  lemma PlanGrows(targets: seq<string>, attempts: seq<nat>, paths: seq<string>, directory: string, f: Folder,
                  lower: char -> char, target: string, t: nat)
    requires IsPlan(targets, attempts, paths, directory, f, lower) && |targets| < |paths|
    requires FirstFree(target, t, directory, Base(paths[|targets|]), f, ReservedBy(targets, lower), lower)
    ensures IsPlan(targets + [target], attempts + [t], paths, directory, f, lower)
  {
    var targets', attempts' := targets + [target], attempts + [t];
    forall i | 0 <= i < |targets'|
      ensures FirstFree(targets'[i], attempts'[i], directory, Base(paths[i]), f, ReservedBy(targets'[..i], lower),
                        lower)
    {
      if i < |targets| {
        assert targets'[..i] == targets[..i] && targets'[i] == targets[i] && attempts'[i] == attempts[i];
      } else {
        assert targets'[..i] == targets;
      }
    }
  }

  lemma PlanOneMore(targets: seq<string>, target: string, reserved: set<string>, f: Folder, lower: char -> char)
    requires Planned(targets, f, lower) && Reserving(reserved, targets, lower) && Free(f, reserved, target, lower)
    ensures Planned(targets + [target], f, lower)
    ensures Reserving(reserved + {Lower(target, lower)}, targets + [target], lower)
  {
    ReservedByOneMore(targets, target, lower);
  }

  lemma ReservedByOneMore(targets: seq<string>, target: string, lower: char -> char)
    ensures ReservedBy(targets + [target], lower) == ReservedBy(targets, lower) + {Lower(target, lower)}
  {
    var all := targets + [target];
    forall k | k in ReservedBy(targets, lower) + {Lower(target, lower)}
      ensures k in ReservedBy(all, lower)
    {
      if k in ReservedBy(targets, lower) {
        var i :| 0 <= i < |targets| && Lower(targets[i], lower) == k;
        assert all[i] == targets[i];
      } else {
        assert all[|targets|] == target;
      }
    }
  }

  lemma AttemptsOneMore(targets: seq<string>, attempts: seq<nat>, paths: seq<string>, directory: string, existing: nat,
                        target: string, t: nat)
    requires FromAttempts(targets, attempts, paths, directory, existing) && |targets| < |paths|
    requires EarlyAttempt(target, t, directory, Base(paths[|targets|]), existing + |targets|)
    ensures FromAttempts(targets + [target], attempts + [t], paths, directory, existing)
  {
    var targets', attempts' := targets + [target], attempts + [t];
    forall i | 0 <= i < |targets'|
      ensures EarlyAttempt(targets'[i], attempts'[i], directory, Base(paths[i]), existing + i)
    {
      if i < |targets| {
        assert targets'[i] == targets[i] && attempts'[i] == attempts[i];
      }
    }
  }

  method PlanTargets(paths: seq<string>, destination: string, f: Folder, lower: char -> char)
    returns (ok: bool, targets: seq<string>, attempts: seq<nat>)
    requires KeepsDigits(lower)
    ensures if ok then |targets| == |paths| else paths != []
    ensures Planned(targets, f, lower) && FromAttempts(targets, attempts, paths, destination, |f.existing|)
    ensures IsPlan(targets, attempts, paths, destination, f, lower)
  {
    var reserved: set<string> := {};
    targets, attempts := [], [];
    for index := 0 to |paths|
      invariant |targets| == index && Planned(targets, f, lower) && Reserving(reserved, targets, lower)
      invariant FromAttempts(targets, attempts, paths, destination, |f.existing|)
      invariant IsPlan(targets, attempts, paths, destination, f, lower)
    {
      var target, t := AvailableMacDestination(destination, Base(paths[index]), reserved, f, lower);
      if target.Err? {
        return false, targets, attempts;
      }
      PlanOneMore(targets, target.value, reserved, f, lower);
      PlanGrows(targets, attempts, paths, destination, f, lower, target.value, t);
      AttemptsOneMore(targets, attempts, paths, destination, |f.existing|, target.value, t);
      targets, attempts := targets + [target.value], attempts + [t];
      reserved := reserved + {Lower(target.value, lower)};
    }
    ok := true;
  }
}
