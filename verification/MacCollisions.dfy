/**
  clipboard_files_darwin.go: which downloaded items can be lost, whatever the folder they are moved
  to already holds. An item is lost when another one is copied under the item's name.
  */
module MacCollisions {
  import opened MacPlacement
  import opened MacMoves

  // ----- different names are tried under different names -----

  lemma {:induction false} ExtStarts(name: string)
    ensures Ext(name) == "" <==> '.' !in name
    ensures Ext(name) != "" ==> Ext(name)[0] == '.'
  {
    if name != "" && name[|name| - 1] != '.' {
      ExtStarts(name[..|name| - 1]);
      assert name == name[..|name| - 1] + [name[|name| - 1]];
    }
  }

  /** The extension of a name that ends in an extension. */
  lemma {:induction false} ExtAppended(front: string, e: string)
    requires e != "" && e[0] == '.' && forall i :: 0 < i < |e| ==> e[i] != '.'
    ensures Ext(front + e) == e
  {
    var name := front + e;
    if |e| == 1 {
      assert name[|name| - 1] == '.' && e == ".";
    } else {
      var shorter := e[..|e| - 1];
      ExtAppended(front, shorter);
      assert name[..|name| - 1] == front + shorter;
      assert e == shorter + [e[|e| - 1]];
    }
  }

  /** What the names tried look like. */
  function Numbered(base: string, number: string): string
  {
    base + " " + "(" + number + ")"
  }

  lemma TriedShape(name: string, t: nat)
    requires t > 0
    ensures NameTried(name, t) == Numbered(BaseName(name), Decimal(t + 1)) + Ext(name)
  {
    assert Numbered(BaseName(name), Decimal(t + 1)) == BaseName(name) + " (" + Decimal(t + 1) + ")";
  }

  lemma TriedExt(name: string, t: nat)
    requires t > 0
    ensures Ext(NameTried(name, t)) == Ext(name)
  {
    var front := Numbered(BaseName(name), Decimal(t + 1));
    TriedShape(name, t);
    ExtStarts(name);
    ExtHasOneDot(name);
    NameParts(name);
    if Ext(name) != "" {
      ExtAppended(front, Ext(name));
    } else {
      assert '.' !in Decimal(t + 1);
      ExtStarts(NameTried(name, t));
    }
  }

  lemma SameEnd(a: string, b: string, end: string)
    requires a + end == b + end
    ensures a == b
  {
    assert |a| == |b|;
    assert (a + end)[..|a|] == a && (b + end)[..|b|] == b;
  }

  predicate Digits(s: string)
  {
    forall i :: 0 <= i < |s| ==> '0' <= s[i] <= '9'
  }

  /** What stands in front of the last parenthesis, when only digits follow it. */
  lemma FrontDetermined(p: string, d: string, q: string, e: string)
    requires Digits(d) && Digits(e) && p + "(" + d + ")" == q + "(" + e + ")"
    ensures p == q
  {
    var x, y := p + "(" + d + ")", q + "(" + e + ")";
    assert x[|p|] == '(' && y[|q|] == '(';
    assert p == x[..|p|] && q == y[..|q|];
  }

  lemma TriedUnique(a: string, s: nat, b: string, t: nat)
    requires s > 0 && t > 0 && NameTried(a, s) == NameTried(b, t)
    ensures a == b
  {
    TriedExt(a, s);
    TriedExt(b, t);
    TriedShape(a, s);
    TriedShape(b, t);
    SameEnd(Numbered(BaseName(a), Decimal(s + 1)), Numbered(BaseName(b), Decimal(t + 1)), Ext(a));
    FrontDetermined(BaseName(a) + " ", Decimal(s + 1), BaseName(b) + " ", Decimal(t + 1));
    SameEnd(BaseName(a), BaseName(b), " ");
    NameParts(a);
    NameParts(b);
  }

  lemma NameParts(name: string)
    ensures name == BaseName(name) + Ext(name)
  {
    ExtIsSuffix(name);
  }

  lemma JoinIs(directory: string, a: string, b: string)
    ensures JoinName(directory, a) == JoinName(directory, b) ==> a == b
    ensures JoinName(directory, a) + b == JoinName(directory, a + b)
  {
    assert JoinName(directory, a)[|directory| + 1..] == a && JoinName(directory, b)[|directory| + 1..] == b;
  }

  // ----- items that can be lost -----

  ghost predicate DistinctNames(paths: seq<string>)
  {
    forall i, j :: 0 <= i < j < |paths| ==> Base(paths[i]) != Base(paths[j])
  }

  /**
    Item j comes before item i and is named like the temporary copy of the t-th name tried for
    item i, and no item before i takes that name.
    */
  ghost predicate Twin(paths: seq<string>, suffix: string, i: nat, j: nat, t: nat)
    requires j < i < |paths|
  {
    && Base(paths[j]) == NameTried(Base(paths[i]), t) + suffix
    && forall k :: 0 <= k < i ==> Base(paths[k]) != NameTried(Base(paths[i]), t)
  }

  ghost predicate NoTwins(paths: seq<string>, suffix: string)
  {
    forall i, j, t: nat :: 0 <= j < i < |paths| ==> !Twin(paths, suffix, i, j, t)
  }

  lemma TargetName(paths: seq<string>, targets: seq<string>, attempts: seq<nat>, directory: string, f: Folder,
                   lower: char -> char, i: nat)
    requires IsPlan(targets, attempts, paths, directory, f, lower) && i < |targets|
    ensures targets[i] == JoinName(directory, NameTried(Base(paths[i]), attempts[i]))
  {
    AttemptName(directory, Base(paths[i]), attempts[i]);
  }

  /** A target that is free for item i is not the first name tried for an item before it. */
  lemma NotTakenBefore(paths: seq<string>, targets: seq<string>, attempts: seq<nat>, directory: string, f: Folder,
                       lower: char -> char, i: nat, k: nat)
    requires IsPlan(targets, attempts, paths, directory, f, lower) && k < i < |targets|
    ensures targets[i] != JoinName(directory, Base(paths[k]))
  {
    assert FirstFree(targets[i], attempts[i], directory, Base(paths[i]), f, ReservedBy(targets[..i], lower), lower);
    assert FirstFree(targets[k], attempts[k], directory, Base(paths[k]), f, ReservedBy(targets[..k], lower), lower);
    assert attempts[k] > 0 ==> Taken(f, ReservedBy(targets[..k], lower), Attempt(directory, Base(paths[k]), 0), lower);
    StaysReserved(targets, k, i, lower);
  }

  lemma StaysReserved(targets: seq<string>, k: nat, i: nat, lower: char -> char)
    requires k < i <= |targets|
    ensures ReservedBy(targets[..k], lower) <= ReservedBy(targets[..i], lower)
    ensures Lower(targets[k], lower) in ReservedBy(targets[..i], lower)
  {
    assert forall m :: 0 <= m < k ==> targets[..k][m] == targets[..i][m];
    assert targets[..i][k] == targets[k];
  }

  /** A collision comes from a twin. */
  lemma CollisionIsTwin(paths: seq<string>, targets: seq<string>, attempts: seq<nat>, directory: string, f: Folder,
                        lower: char -> char, pid: nat, i: nat, j: nat)
    requires IsPlan(targets, attempts, paths, directory, f, lower) && j < i < |targets|
    requires Temporary(targets[i], TemporarySuffix(pid)) == targets[j]
    ensures Twin(paths, TemporarySuffix(pid), i, j, attempts[i])
  {
    var suffix, tried := TemporarySuffix(pid), NameTried(Base(paths[i]), attempts[i]);
    TargetName(paths, targets, attempts, directory, f, lower, i);
    TargetName(paths, targets, attempts, directory, f, lower, j);
    assert EndsWith(targets[i] + suffix, suffix);
    assert FirstFree(targets[j], attempts[j], directory, Base(paths[j]), f, ReservedBy(targets[..j], lower), lower);
    AttemptEnds(directory, Base(paths[j]), attempts[j], pid);
    JoinIs(directory, tried, suffix);
    JoinIs(directory, tried + suffix, Base(paths[j]));
    forall k | 0 <= k < i
      ensures Base(paths[k]) != tried
    {
      NotTakenBefore(paths, targets, attempts, directory, f, lower, i, k);
    }
  }

  lemma NoTwinsSuffice(paths: seq<string>, targets: seq<string>, attempts: seq<nat>, directory: string, f: Folder,
                       lower: char -> char, pid: nat)
    requires IsPlan(targets, attempts, paths, directory, f, lower) && |targets| == |paths|
    requires NoTwins(paths, TemporarySuffix(pid)) && Outside(paths, directory)
    ensures Spared(paths, targets, TemporarySuffix(pid))
  {
    var suffix := TemporarySuffix(pid);
    forall i | 0 <= i < |targets|
      ensures SparedAt(paths, targets, suffix, i)
    {
      forall j | 0 <= j < i
        ensures Temporary(targets[i], suffix) != targets[j]
      {
        if Temporary(targets[i], suffix) == targets[j] {
          CollisionIsTwin(paths, targets, attempts, directory, f, lower, pid, i, j);
        }
      }
      TargetName(paths, targets, attempts, directory, f, lower, i);
      TriedInFolder(paths, directory, i, attempts[i], pid);
    }
  }

  /** The temporary copy of a name tried is in the folder, where no staged path is. */
  lemma TriedInFolder(paths: seq<string>, directory: string, i: nat, t: nat, pid: nat)
    requires i < |paths| && Outside(paths, directory)
    ensures var target := JoinName(directory, NameTried(Base(paths[i]), t));
            target !in paths && Temporary(target, TemporarySuffix(pid)) !in paths
  {
    var name, suffix := NameTried(Base(paths[i]), t), TemporarySuffix(pid);
    BaseEnds(paths[i]);
    TriedHasNoSlash(Base(paths[i]), t);
    SuffixIs(pid);
    BaseOfJoin(directory, name);
    BaseOfJoin(directory, name + suffix);
    JoinIs(directory, name, suffix);
  }

  // ----- a folder in which a twin is lost -----

  /** There is always a free name. */
  lemma FreeNameExists(directory: string, name: string, f: Folder, reserved: set<string>, lower: char -> char, t: nat)
    returns (u: nat)
    requires KeepsDigits(lower) && f.failing == {} && Searched(directory, name, t, f, reserved, lower)
    ensures FirstFree(Attempt(directory, name, u), u, directory, name, f, reserved, lower)
    decreases |f.existing| + |reserved| - t
  {
    if Free(f, reserved, Attempt(directory, name, t), lower) {
      return t;
    }
    SearchOn(directory, name, t, f, reserved, lower);
    u := FreeNameExists(directory, name, f, reserved, lower, t + 1);
  }

  lemma {:induction false} PlanExists(paths: seq<string>, directory: string, f: Folder, lower: char -> char, n: nat)
    returns (targets: seq<string>, attempts: seq<nat>)
    requires KeepsDigits(lower) && f.failing == {} && n <= |paths|
    ensures IsPlan(targets, attempts, paths, directory, f, lower) && |targets| == n
  {
    if n == 0 {
      return [], [];
    }
    targets, attempts := PlanExists(paths, directory, f, lower, n - 1);
    var name, reserved := Base(paths[n - 1]), ReservedBy(targets, lower);
    NonePassedOver(directory, name, f, reserved, lower);
    var t := FreeNameExists(directory, name, f, reserved, lower, 0);
    PlanGrows(targets, attempts, paths, directory, f, lower, Attempt(directory, name, t), t);
    targets, attempts := targets + [Attempt(directory, name, t)], attempts + [t];
  }

  function Same(): char -> char
  {
    (c: char) => c
  }

  lemma SameKeys(targets: seq<string>)
    ensures forall x :: x in ReservedBy(targets, Same()) <==> x in targets
  {
    forall x: string
      ensures Lower(x, Same()) == x
    {
    }
  }

  /** A folder that holds the first t names tried for an item. */
  function Crowded(paths: seq<string>, directory: string, name: string, t: nat): Folder
  {
    Folder((set p | p in paths) + (set s | 0 <= s < t :: Attempt(directory, name, s)), {})
  }

  lemma NotAttempted(directory: string, name: string, other: string, s: nat, pid: nat)
    requires EndsWith(other, TemporarySuffix(pid)) && name != other
    ensures Attempt(directory, name, s) != JoinName(directory, other)
  {
    if Attempt(directory, name, s) == JoinName(directory, other) {
      EndsTransitively(JoinName(directory, other), other, TemporarySuffix(pid));
      AttemptEnds(directory, name, s, pid);
      JoinIs(directory, name, other);
    }
  }

  /** A name like a temporary copy is nobody else's target. */
  lemma TwinKeepsName(paths: seq<string>, targets: seq<string>, attempts: seq<nat>, directory: string, pid: nat, i: nat,
                      j: nat, t: nat)
    requires DistinctNames(paths) && Outside(paths, directory) && i < |paths| && j < |paths| && j < |targets| && i != j
    requires EndsWith(Base(paths[j]), TemporarySuffix(pid))
    requires IsPlan(targets, attempts, paths, directory, Crowded(paths, directory, Base(paths[i]), t), Same())
    ensures targets[j] == JoinName(directory, Base(paths[j]))
  {
    var f, x := Crowded(paths, directory, Base(paths[i]), t), JoinName(directory, Base(paths[j]));
    var reserved := ReservedBy(targets[..j], Same());
    assert FirstFree(targets[j], attempts[j], directory, Base(paths[j]), f, reserved, Same());
    assert attempts[j] > 0 ==> Taken(f, reserved, Attempt(directory, Base(paths[j]), 0), Same());
    TriedInFolder(paths, directory, j, 0, pid);
    forall s: nat | s < t
      ensures Attempt(directory, Base(paths[i]), s) != x
    {
      NotAttempted(directory, Base(paths[i]), Base(paths[j]), s, pid);
    }
    forall m | 0 <= m < j
      ensures targets[m] != x
    {
      assert FirstFree(targets[m], attempts[m], directory, Base(paths[m]), f, ReservedBy(targets[..m], Same()), Same());
      NotAttempted(directory, Base(paths[m]), Base(paths[j]), attempts[m], pid);
    }
    NotTaken(f, targets, j, x);
  }

  lemma NotTaken(f: Folder, targets: seq<string>, n: nat, x: string)
    requires n <= |targets| && x !in f.existing && forall m :: 0 <= m < n ==> targets[m] != x
    ensures !Taken(f, ReservedBy(targets[..n], Same()), x, Same())
  {
    SameKeys(targets[..n]);
    SameKeys([x]);
    assert Lower(x, Same()) == x;
    assert x !in targets[..n];
  }

  /** In a folder without any names tried, everybody gets the first name. */
  lemma {:induction false} AllGetFirst(paths: seq<string>, targets: seq<string>, attempts: seq<nat>, directory: string,
                                       name: string, pid: nat, m: nat)
    requires DistinctNames(paths) && Outside(paths, directory) && m < |targets|
    requires IsPlan(targets, attempts, paths, directory, Crowded(paths, directory, name, 0), Same())
    ensures attempts[m] == 0
  {
    var f, x := Crowded(paths, directory, name, 0), JoinName(directory, Base(paths[m]));
    var reserved := ReservedBy(targets[..m], Same());
    assert FirstFree(targets[m], attempts[m], directory, Base(paths[m]), f, reserved, Same());
    assert attempts[m] > 0 ==> Taken(f, reserved, Attempt(directory, Base(paths[m]), 0), Same());
    TriedInFolder(paths, directory, m, 0, pid);
    forall k | 0 <= k < m
      ensures targets[k] != x
    {
      AllGetFirst(paths, targets, attempts, directory, name, pid, k);
      assert FirstFree(targets[k], attempts[k], directory, Base(paths[k]), f, ReservedBy(targets[..k], Same()), Same());
      JoinIs(directory, Base(paths[k]), Base(paths[m]));
    }
    NotTaken(f, targets, m, x);
  }

  /** Nobody before item i gets the t-th name tried for item i. */
  lemma NobodyElse(paths: seq<string>, targets: seq<string>, attempts: seq<nat>, directory: string, pid: nat, i: nat,
                   j: nat, t: nat, m: nat)
    requires DistinctNames(paths) && Outside(paths, directory) && j < i < |paths| && m < i && m < |targets|
    requires Twin(paths, TemporarySuffix(pid), i, j, t)
    requires IsPlan(targets, attempts, paths, directory, Crowded(paths, directory, Base(paths[i]), t), Same())
    ensures targets[m] != Attempt(directory, Base(paths[i]), t)
  {
    var f := Crowded(paths, directory, Base(paths[i]), t);
    TargetName(paths, targets, attempts, directory, f, Same(), m);
    AttemptName(directory, Base(paths[i]), t);
    JoinIs(directory, NameTried(Base(paths[m]), attempts[m]), NameTried(Base(paths[i]), t));
    if t == 0 {
      AllGetFirst(paths, targets, attempts, directory, Base(paths[i]), pid, m);
    } else if attempts[m] > 0 && NameTried(Base(paths[m]), attempts[m]) == NameTried(Base(paths[i]), t) {
      TriedUnique(Base(paths[m]), attempts[m], Base(paths[i]), t);
    }
  }

  lemma CrowdedOut(paths: seq<string>, targets: seq<string>, attempts: seq<nat>, directory: string, pid: nat, i: nat,
                   j: nat, t: nat)
    requires DistinctNames(paths) && Outside(paths, directory) && j < i < |paths| == |targets|
    requires Twin(paths, TemporarySuffix(pid), i, j, t)
    requires IsPlan(targets, attempts, paths, directory, Crowded(paths, directory, Base(paths[i]), t), Same())
    ensures targets[i] == Attempt(directory, Base(paths[i]), t)
  {
    var f, name := Crowded(paths, directory, Base(paths[i]), t), Base(paths[i]);
    var x, reserved := Attempt(directory, name, t), ReservedBy(targets[..i], Same());
    assert FirstFree(targets[i], attempts[i], directory, name, f, reserved, Same());
    assert forall s :: 0 <= s < t ==> Attempt(directory, name, s) in f.existing;
    assert attempts[i] > t ==> Taken(f, reserved, Attempt(directory, name, t), Same());
    AttemptName(directory, name, t);
    TriedInFolder(paths, directory, i, t, pid);
    forall s: nat | s < t
      ensures Attempt(directory, name, s) != x
    {
      if Attempt(directory, name, s) == x {
        AttemptsDistinct(directory, name, s, t, Same());
      }
    }
    forall m | 0 <= m < i
      ensures targets[m] != x
    {
      NobodyElse(paths, targets, attempts, directory, pid, i, j, t, m);
    }
    NotTaken(f, targets, i, x);
  }

  /** A twin is lost in a crowded folder. */
  lemma TwinIsLost(paths: seq<string>, directory: string, pid: nat, i: nat, j: nat, t: nat)
    returns (f: Folder, targets: seq<string>, attempts: seq<nat>)
    requires DistinctNames(paths) && Outside(paths, directory) && j < i < |paths|
    requires Twin(paths, TemporarySuffix(pid), i, j, t)
    ensures f.failing == {} && forall p :: p in paths ==> p in f.existing
    ensures IsPlan(targets, attempts, paths, directory, f, Same()) && |targets| == |paths|
    ensures !SparedAt(paths, targets, TemporarySuffix(pid), i)
  {
    f := Crowded(paths, directory, Base(paths[i]), t);
    targets, attempts := PlanExists(paths, directory, f, Same(), |paths|);
    assert EndsWith(Base(paths[j]), TemporarySuffix(pid));
    TwinKeepsName(paths, targets, attempts, directory, pid, i, j, t);
    CrowdedOut(paths, targets, attempts, directory, pid, i, j, t);
    AttemptName(directory, Base(paths[i]), t);
    JoinIs(directory, NameTried(Base(paths[i]), t), TemporarySuffix(pid));
  }

  // ----- the condition on the names is exact -----

  /** Whatever the folder holds and however the moves go, every item is where the returned list says. */
  ghost predicate AccountedAnywhere<T(!new)>(paths: seq<string>, directory: string, suffix: string)
  {
    forall world: map<string, T>, failing: set<string>, lower: char -> char, targets: seq<string>, attempts: seq<nat> ::
      Existing(world, paths) && KeepsDigits(lower) && |targets| == |paths|
      && IsPlan(targets, attempts, paths, directory, Folder(world.Keys, failing), lower) ==>
        AlwaysAccounted(world, paths, targets, suffix)
  }

  lemma PlanIsPrepared<T>(world: map<string, T>, failing: set<string>, paths: seq<string>, targets: seq<string>,
                          attempts: seq<nat>, directory: string, lower: char -> char)
    requires IsPlan(targets, attempts, paths, directory, Folder(world.Keys, failing), lower) && |targets| == |paths|
    ensures Prepared(world, paths, targets)
  {
    var f := Folder(world.Keys, failing);
    forall i | 0 <= i < |targets|
      ensures Free(f, ReservedBy(targets[..i], lower), targets[i], lower)
    {
      assert FirstFree(targets[i], attempts[i], directory, Base(paths[i]), f, ReservedBy(targets[..i], lower), lower);
    }
    forall i, j | 0 <= i < j < |targets|
      ensures targets[i] != targets[j]
    {
      StaysReserved(targets, i, j, lower);
    }
  }

  lemma NoTwinsAccounted<T>(world: map<string, T>, failing: set<string>, paths: seq<string>, targets: seq<string>,
                            attempts: seq<nat>, directory: string, lower: char -> char, pid: nat)
    requires IsPlan(targets, attempts, paths, directory, Folder(world.Keys, failing), lower) && |targets| == |paths|
    requires DistinctNames(paths) && Outside(paths, directory) && Existing(world, paths)
    requires NoTwins(paths, TemporarySuffix(pid))
    ensures AlwaysAccounted(world, paths, targets, TemporarySuffix(pid))
  {
    SuffixIs(pid);
    NoTwinsSuffice(paths, targets, attempts, directory, Folder(world.Keys, failing), lower, pid);
    PlanIsPrepared(world, failing, paths, targets, attempts, directory, lower);
    AccountedIff(world, paths, targets, TemporarySuffix(pid));
  }

  /** A folder as a world of items, which are all alike. */
  lemma WorldOf<T(00)>(f: Folder) returns (world: map<string, T>)
    requires f.failing == {}
    ensures Folder(world.Keys, {}) == f
  {
    var item: T :| true;
    world := map p | p in f.existing :: item;
    assert world.Keys == f.existing;
  }

  lemma PlanFails<T>(world: map<string, T>, paths: seq<string>, targets: seq<string>, attempts: seq<nat>,
                     directory: string, pid: nat, i: nat)
    requires IsPlan(targets, attempts, paths, directory, Folder(world.Keys, {}), Same()) && i < |targets| == |paths|
    requires Existing(world, paths) && !SparedAt(paths, targets, TemporarySuffix(pid), i)
    ensures !AlwaysAccounted(world, paths, targets, TemporarySuffix(pid))
  {
    SuffixIs(pid);
    PlanIsPrepared(world, {}, paths, targets, attempts, directory, Same());
    AccountedIff(world, paths, targets, TemporarySuffix(pid));
  }

  /**
    For items with different names that are not in the destination folder yet: every item is where
    the returned list says, in any folder and however the moves go, if and only if none is a twin.
    */
  lemma AccountedAnywhereIff<T(!new, 00)>(paths: seq<string>, directory: string, pid: nat)
    requires DistinctNames(paths) && Outside(paths, directory)
    ensures AccountedAnywhere<T>(paths, directory, TemporarySuffix(pid)) <==> NoTwins(paths, TemporarySuffix(pid))
  {
    if NoTwins(paths, TemporarySuffix(pid)) {
      forall world: map<string, T>, failing: set<string>, lower: char -> char, targets: seq<string>, attempts: seq<nat>
        | Existing(world, paths) && KeepsDigits(lower) && |targets| == |paths|
          && IsPlan(targets, attempts, paths, directory, Folder(world.Keys, failing), lower)
        ensures AlwaysAccounted(world, paths, targets, TemporarySuffix(pid))
      {
        NoTwinsAccounted(world, failing, paths, targets, attempts, directory, lower, pid);
      }
    } else {
      var i, j, t: nat :| 0 <= j < i < |paths| && Twin(paths, TemporarySuffix(pid), i, j, t);
      var f, targets, attempts := TwinIsLost(paths, directory, pid, i, j, t);
      var world: map<string, T> := WorldOf(f);
      PlanFails(world, paths, targets, attempts, directory, pid, i);
    }
  }
}
