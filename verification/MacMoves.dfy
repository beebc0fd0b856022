/**
  clipboard_files_darwin.go: moving downloaded items to the names planned for them. Items are
  opaque; what exists is a map from paths to items.
  */
module MacMoves {
  import opened MacPlacement
  import OfferPath

  /** How the move of one item goes. */
  datatype Move =
    | Renamed
    | RenameFails
    | CrossDevice(copies: bool, finishes: bool, removes: bool)

  /** Where a copy is made before it is renamed. */
  function Temporary(target: string, suffix: string): string
  {
    target + suffix
  }

  function TemporarySuffix(pid: nat): string
  {
    ".clipall-" + Decimal(pid) + ".part"
  }

  /** The copy of item i is not made at the place of an item already placed, or of a source that still waits. */
  predicate SparedAt(paths: seq<string>, targets: seq<string>, suffix: string, i: nat)
    requires i < |targets|
  {
    && (forall j :: 0 <= j < i ==> Temporary(targets[i], suffix) != targets[j])
    && (forall j :: i <= j < |paths| ==> Temporary(targets[i], suffix) != paths[j])
  }

  predicate Spared(paths: seq<string>, targets: seq<string>, suffix: string)
  {
    forall i :: 0 <= i < |targets| ==> SparedAt(paths, targets, suffix, i)
  }

  /** Every item that existed is where the returned list says, and the list names nothing else that exists. */
  ghost predicate Accounted<T>(before: map<string, T>, world: map<string, T>, paths: seq<string>, placed: seq<string>)
  {
    |placed| == |paths| && forall i :: 0 <= i < |paths| ==>
      && (paths[i] in before <==> placed[i] in world)
      && (paths[i] in before ==> world[placed[i]] == before[paths[i]])
  }

  /** Nothing changed but the item itself and the temporary name. */
  ghost predicate SameApart<T>(world: map<string, T>, world': map<string, T>, source: string, target: string,
                               temporary: string)
  {
    && (forall p :: p != source && p != target && p != temporary ==>
          (p in world' <==> p in world) && (p in world ==> world'[p] == world[p]))
    && (temporary in world' ==> temporary in world)
  }

  /** Whether the item is moved, and the world afterwards. */
  function MoveEffect<T>(world: map<string, T>, source: string, target: string, suffix: string, move: Move)
    : (bool, map<string, T>)
  {
    match move
    case Renamed => if source in world then (true, (world - {source})[target := world[source]]) else (false, world)
    case RenameFails => (false, world)
    case CrossDevice(copies, finishes, removes) =>
      var cleared := world - {Temporary(target, suffix)};
      if !copies || !finishes || source !in cleared then (false, cleared)
      else
        var moved := cleared[target := cleared[source]];
        (true, if removes then moved - {source} else moved)
  }

  method MoveOne<T>(world: map<string, T>, source: string, target: string, suffix: string, move: Move)
    returns (ok: bool, world': map<string, T>)
    requires suffix != ""
    ensures (ok, world') == MoveEffect(world, source, target, suffix, move)
  {
    if move.Renamed? && source in world {
      return true, (world - {source})[target := world[source]];
    } else if !move.CrossDevice? {
      return false, world;
    }
    var temporary := Temporary(target, suffix);
    world' := world - {temporary};
    if !move.copies || source !in world' {
      return false, world';
    }
    ghost var cleared := world';
    world' := world'[temporary := world'[source]];
    assert world' - {temporary} == cleared;
    if !move.finishes {
      return false, world' - {temporary};
    }
    world' := (world' - {temporary})[target := world'[temporary]];
    if move.removes {
      world' := world' - {source};
    }
    return true, world';
  }

  /** Moving one item puts it at its target, or leaves it at its source, and touches only the temporary name besides. */
  lemma MoveEffectIs<T>(world: map<string, T>, source: string, target: string, suffix: string, move: Move)
    requires target !in world && Temporary(target, suffix) != source && suffix != ""
    ensures var (ok, world') := MoveEffect(world, source, target, suffix, move);
            var at := if ok then target else source;
            && (source in world <==> at in world') && (source in world ==> world'[at] == world[source])
            && (source !in world ==> !ok) && (!ok ==> target !in world')
            && SameApart(world, world', source, target, Temporary(target, suffix))
  {
    assert |Temporary(target, suffix)| > |target|;
  }

  /**
    An item that is there is moved unless the rename fails for another reason than the device, or
    the copy does. A moved item leaves its source unless that cannot be removed, and no attempt
    across devices leaves anything at the temporary name.
    */
  lemma MoveEffectWhen<T>(world: map<string, T>, source: string, target: string, suffix: string, move: Move)
    requires target !in world && Temporary(target, suffix) != source && target != source && suffix != ""
    ensures var (ok, world') := MoveEffect(world, source, target, suffix, move);
            && (ok <==> source in world && !move.RenameFails? && (move.CrossDevice? ==> move.copies && move.finishes))
            && (ok ==> (source in world' <==> move.CrossDevice? && !move.removes))
            && (move.CrossDevice? ==> target + suffix !in world')
            && (!move.CrossDevice? ==> (target + suffix in world' <==> target + suffix in world))
  {
    assert |Temporary(target, suffix)| > |target|;
  }

  /** Targets are what the planning makes them. */
  ghost predicate Prepared<T>(world: map<string, T>, paths: seq<string>, targets: seq<string>)
  {
    && |targets| == |paths|
    && (forall i :: 0 <= i < |targets| ==> targets[i] !in world)
    && (forall i, j :: 0 <= i < j < |targets| ==> targets[i] != targets[j])
  }

  /** Every item has its own source, which is not the target of an earlier item. */
  ghost predicate Ready<T>(world: map<string, T>, paths: seq<string>, targets: seq<string>, suffix: string)
  {
    && Prepared(world, paths, targets) && suffix != "" && Distinct(paths)
    && forall i, j :: 0 <= i < j < |paths| ==> targets[i] != paths[j]
  }

  ghost predicate Distinct(paths: seq<string>)
  {
    forall i, j :: 0 <= i < j < |paths| ==> paths[i] != paths[j]
  }

  ghost predicate Existing<T>(world: map<string, T>, paths: seq<string>)
  {
    forall i :: 0 <= i < |paths| ==> paths[i] in world
  }

  /** What is neither a source nor a temporary name is left alone. */
  ghost predicate BystandersKept<T>(start: map<string, T>, world: map<string, T>, paths: seq<string>,
                                    targets: seq<string>, suffix: string)
  {
    forall p :: p in start && p !in paths && (forall i :: 0 <= i < |targets| ==> p != Temporary(targets[i], suffix)) ==>
      p in world && world[p] == start[p]
  }

  ghost predicate Waiting<T>(world: map<string, T>, targets: seq<string>, index: nat)
  {
    forall i :: index <= i < |targets| ==> targets[i] !in world
  }

  /** The list returned when k items were moved. */
  function PlacedAfter(paths: seq<string>, targets: seq<string>, k: nat): (placed: seq<string>)
    requires |targets| == |paths| && k <= |paths|
    ensures |placed| == |paths|
    ensures forall i :: 0 <= i < |paths| ==> placed[i] == if i < k then targets[i] else paths[i]
  {
    targets[..k] + paths[k..]
  }

  /** k items were moved, and all is well. */
  ghost predicate Moved<T>(start: map<string, T>, world: map<string, T>, paths: seq<string>, targets: seq<string>,
                           suffix: string, k: nat)
    requires |targets| == |paths| && k <= |paths|
  {
    && Accounted(start, world, paths, PlacedAfter(paths, targets, k))
    && (forall i :: 0 <= i < k ==> paths[i] in start)
    && Waiting(world, targets, k)
    && BystandersKept(start, world, paths, targets, suffix)
  }

  lemma {:induction false} MoveNext<T>(start: map<string, T>, world: map<string, T>, paths: seq<string>,
                                       targets: seq<string>, suffix: string, index: nat, move: Move)
    requires Ready(start, paths, targets, suffix) && index < |paths| && SparedAt(paths, targets, suffix, index)
    requires Moved(start, world, paths, targets, suffix, index)
    ensures var (ok, world') := MoveEffect(world, paths[index], targets[index], suffix, move);
            if ok then Moved(start, world', paths, targets, suffix, index + 1)
            else Accounted(start, world', paths, PlacedAfter(paths, targets, index))
                 && BystandersKept(start, world', paths, targets, suffix)
  {
    assert PlacedAfter(paths, targets, index)[index] == paths[index];
    var (ok, world') := MoveEffect(world, paths[index], targets[index], suffix, move);
    MoveEffectIs(world, paths[index], targets[index], suffix, move);
    StaysAccounted(start, world, world', paths, targets, index, suffix, ok);
    StaysKept(start, world, world', paths, targets, index, suffix);
  }

  lemma PlaceOne(paths: seq<string>, targets: seq<string>, k: nat)
    requires |targets| == |paths| && k < |paths|
    ensures PlacedAfter(paths, targets, k)[k := targets[k]] == PlacedAfter(paths, targets, k + 1)
  {
  }

  lemma NothingMoved<T>(world: map<string, T>, paths: seq<string>, targets: seq<string>, suffix: string)
    requires |targets| == |paths|
    ensures PlacedAfter(paths, targets, 0) == paths
    ensures Ready(world, paths, targets, suffix) ==> Moved(world, world, paths, targets, suffix, 0)
  {
  }

  /** What the loop over the items does from item `index` on: how many are moved in all, and the world afterwards. */
  function MoveFrom<T>(world: map<string, T>, paths: seq<string>, targets: seq<string>, suffix: string,
                       moves: seq<Move>,
                       index: nat): (nat, map<string, T>)
    requires |moves| == |paths| == |targets| && index <= |paths|
    decreases |paths| - index
  {
    if index == |paths| then (index, world)
    else
      var (ok, world') := MoveEffect(world, paths[index], targets[index], suffix, moves[index]);
      if ok then MoveFrom(world', paths, targets, suffix, moves, index + 1) else (index, world')
  }

  /** The second loop: move the items in order and stop at the first failure. */
  method MoveAll<T>(world: map<string, T>, paths: seq<string>, targets: seq<string>, suffix: string, moves: seq<Move>)
    returns (ok: bool, k: nat, placed: seq<string>, world': map<string, T>)
    requires |moves| == |paths| == |targets| && suffix != ""
    ensures k <= |paths| && (ok <==> k == |paths|)
    ensures placed == PlacedAfter(paths, targets, k)
    ensures (k, world') == MoveFrom(world, paths, targets, suffix, moves, 0)
    ensures Ready(world, paths, targets, suffix) && Spared(paths, targets, suffix) ==>
              && Accounted(world, world', paths, placed) && BystandersKept(world, world', paths, targets, suffix)
              && (ok ==> Existing(world, paths))
  {
    placed, world' := paths, world;
    ghost var ready := Ready(world, paths, targets, suffix) && Spared(paths, targets, suffix);
    ghost var all := MoveFrom(world, paths, targets, suffix, moves, 0);
    NothingMoved(world, paths, targets, suffix);
    for index := 0 to |paths|
      invariant placed == PlacedAfter(paths, targets, index)
      invariant all == MoveFrom(world', paths, targets, suffix, moves, index)
      invariant ready ==> Moved(world, world', paths, targets, suffix, index)
    {
      if ready {
        assert SparedAt(paths, targets, suffix, index);
        MoveNext(world, world', paths, targets, suffix, index, moves[index]);
      }
      var moved;
      moved, world' := MoveOne(world', paths[index], targets[index], suffix, moves[index]);
      if !moved {
        return false, index, placed, world';
      }
      PlaceOne(paths, targets, index);
      placed := placed[index := targets[index]];
    }
    return true, |paths|, placed, world';
  }

  lemma StaysAccounted<T>(start: map<string, T>, before: map<string, T>, after: map<string, T>, paths: seq<string>,
                          targets: seq<string>, index: nat, suffix: string, moved: bool)
    requires Ready(start, paths, targets, suffix) && index < |paths| && SparedAt(paths, targets, suffix, index)
    requires Accounted(start, before, paths, PlacedAfter(paths, targets, index))
    requires var at := if moved then targets[index] else paths[index];
             (paths[index] in before <==> at in after) && (paths[index] in before ==> after[at] == before[paths[index]])
    requires SameApart(before, after, paths[index], targets[index], Temporary(targets[index], suffix))
    ensures var n := if moved then index + 1 else index;
            Accounted(start, after, paths, PlacedAfter(paths, targets, n))
  {
    var n := if moved then index + 1 else index;
    var was, now := PlacedAfter(paths, targets, index), PlacedAfter(paths, targets, n);
    forall i | 0 <= i < |paths|
      ensures paths[i] in start <==> now[i] in after
      ensures paths[i] in start ==> after[now[i]] == start[paths[i]]
    {
      assert paths[i] in start <==> was[i] in before;
      if i != index {
        assert now[i] == was[i];
      }
    }
  }

  lemma StaysKept<T>(start: map<string, T>, before: map<string, T>, after: map<string, T>, paths: seq<string>,
                     targets: seq<string>, index: nat, suffix: string)
    requires Ready(start, paths, targets, suffix) && index < |paths|
    requires Waiting(before, targets, index) && BystandersKept(start, before, paths, targets, suffix)
    requires paths[index] !in before ==> paths[index] !in after
    requires SameApart(before, after, paths[index], targets[index], Temporary(targets[index], suffix))
    ensures BystandersKept(start, after, paths, targets, suffix)
    ensures Waiting(after, targets, index + 1)
  {
  }

  // ----- exactly when every item is where the list says -----

  /** All items go from one file system to one folder: either they can be renamed, or they have to be copied. */
  predicate OneDevice(moves: seq<Move>)
  {
    forall i, j :: 0 <= i < |moves| && 0 <= j < |moves| ==> !(moves[i].Renamed? && moves[j].CrossDevice?)
  }

  /** However the moves go, every item is where the returned list says. */
  ghost predicate AlwaysAccounted<T>(world: map<string, T>, paths: seq<string>, targets: seq<string>, suffix: string)
    requires |targets| == |paths|
  {
    forall moves: seq<Move> :: |moves| == |paths| && OneDevice(moves) ==>
      AccountedAfter(world, paths, targets, suffix, moves)
  }

  ghost predicate AccountedAfter<T>(world: map<string, T>, paths: seq<string>, targets: seq<string>, suffix: string,
                                    moves: seq<Move>)
    requires |moves| == |paths| == |targets|
  {
    var (k, world') := MoveFrom(world, paths, targets, suffix, moves, 0);
    k <= |paths| && Accounted(world, world', paths, PlacedAfter(paths, targets, k))
  }

  lemma {:induction false} MovesKeep<T>(start: map<string, T>, world: map<string, T>, paths: seq<string>,
                                        targets: seq<string>, suffix: string, moves: seq<Move>, index: nat)
    requires Ready(start, paths, targets, suffix) && Spared(paths, targets, suffix)
    requires |moves| == |paths| && index <= |paths|
    requires Moved(start, world, paths, targets, suffix, index)
    ensures var (k, world') := MoveFrom(world, paths, targets, suffix, moves, index);
            k <= |paths| && Accounted(start, world', paths, PlacedAfter(paths, targets, k))
    decreases |paths| - index
  {
    if index < |paths| {
      var (ok, world') := MoveEffect(world, paths[index], targets[index], suffix, moves[index]);
      MoveNext(start, world, paths, targets, suffix, index, moves[index]);
      if ok {
        MovesKeep(start, world', paths, targets, suffix, moves, index + 1);
      }
    }
  }

  /** What exists after the first n items were renamed. */
  ghost predicate RenamedKeys<T>(world: map<string, T>, w: map<string, T>, paths: seq<string>, targets: seq<string>,
                                 n: nat)
    requires n <= |paths| == |targets|
  {
    forall p :: p in w <==> (p in world && p !in paths[..n]) || p in targets[..n]
  }

  lemma RenameKeys<T>(world: map<string, T>, w: map<string, T>, w': map<string, T>, paths: seq<string>,
                      targets: seq<string>, n: nat)
    requires n < |paths| == |targets| && RenamedKeys(world, w, paths, targets, n)
    requires paths[n] !in targets[..n] && forall p :: p in w' <==> (p in w && p != paths[n]) || p == targets[n]
    ensures RenamedKeys(world, w', paths, targets, n + 1)
  {
    assert paths[..n + 1] == paths[..n] + [paths[n]] && targets[..n + 1] == targets[..n] + [targets[n]];
    forall p
      ensures p in w' <==> (p in world && p !in paths[..n + 1]) || p in targets[..n + 1]
    {
      assert p in paths[..n + 1] <==> p in paths[..n] || p == paths[n];
      assert p in targets[..n + 1] <==> p in targets[..n] || p == targets[n];
    }
  }

  /** The first n items can be renamed, as long as their sources are different. */
  lemma {:induction false} RenamesFirst<T>(world: map<string, T>, paths: seq<string>, targets: seq<string>,
                                           suffix: string, moves: seq<Move>, n: nat) returns (w: map<string, T>)
    requires Prepared(world, paths, targets) && Existing(world, paths) && |moves| == |paths|
    requires n <= |paths| && Distinct(paths[..n])
    requires forall t :: 0 <= t < n ==> moves[t] == Renamed
    ensures MoveFrom(world, paths, targets, suffix, moves, 0) == MoveFrom(w, paths, targets, suffix, moves, n)
    ensures RenamedKeys(world, w, paths, targets, n)
  {
    if n == 0 {
      return world;
    }
    var t := n - 1;
    SourceIsNew(paths, n);
    var before := RenamesFirst(world, paths, targets, suffix, moves, t);
    assert paths[t] in before && paths[t] !in targets[..t];
    w := (before - {paths[t]})[targets[t] := before[paths[t]]];
    RenameKeys(world, before, w, paths, targets, t);
  }

  lemma SourceIsNew(paths: seq<string>, n: nat)
    requires 0 < n <= |paths| && Distinct(paths[..n])
    ensures paths[n - 1] !in paths[..n - 1] && Distinct(paths[..n - 1])
  {
    assert paths[..n - 1] == paths[..n][..n - 1];
    assert forall i :: 0 <= i < n ==> paths[..n][i] == paths[i];
  }

  /** The items up to i are copied, and then nothing more succeeds. */
  function CopyUpTo(n: nat, i: nat): (moves: seq<Move>)
    ensures |moves| == n && OneDevice(moves)
    ensures forall t :: 0 <= t < n ==>
              moves[t] == if t <= i then CrossDevice(true, true, true) else CrossDevice(false, false, false)
  {
    seq(n, t => if t <= i then CrossDevice(true, true, true) else CrossDevice(false, false, false))
  }

  /** Copies succeed as long as none is made in the place of an item. */
  lemma {:induction false} CopiesFirst<T>(world: map<string, T>, paths: seq<string>, targets: seq<string>,
                                          suffix: string, moves: seq<Move>, n: nat) returns (w: map<string, T>)
    requires Ready(world, paths, targets, suffix) && Existing(world, paths) && |moves| == |paths| && n <= |paths|
    requires forall t :: 0 <= t < n ==> moves[t] == CrossDevice(true, true, true) && SparedAt(paths, targets, suffix, t)
    ensures MoveFrom(world, paths, targets, suffix, moves, 0) == MoveFrom(w, paths, targets, suffix, moves, n)
    ensures Moved(world, w, paths, targets, suffix, n)
  {
    if n == 0 {
      NothingMoved(world, paths, targets, suffix);
      return world;
    }
    var before := CopiesFirst(world, paths, targets, suffix, moves, n - 1);
    w := CopyNext(world, before, paths, targets, suffix, n - 1);
    MovedOn(before, paths, targets, suffix, moves, n - 1);
  }

  lemma CopyNext<T>(world: map<string, T>, before: map<string, T>, paths: seq<string>, targets: seq<string>,
                    suffix: string, i: nat) returns (w: map<string, T>)
    requires Ready(world, paths, targets, suffix) && Existing(world, paths) && i < |paths|
    requires SparedAt(paths, targets, suffix, i) && Moved(world, before, paths, targets, suffix, i)
    ensures MoveEffect(before, paths[i], targets[i], suffix, CrossDevice(true, true, true)) == (true, w)
    ensures Moved(world, w, paths, targets, suffix, i + 1)
  {
    MoveNext(world, before, paths, targets, suffix, i, CrossDevice(true, true, true));
    assert PlacedAfter(paths, targets, i)[i] == paths[i];
    CopyClears(before, paths[i], targets[i], suffix);
    w := MoveEffect(before, paths[i], targets[i], suffix, CrossDevice(true, true, true)).1;
  }

  lemma MovedOn<T>(world: map<string, T>, paths: seq<string>, targets: seq<string>, suffix: string,
                   moves: seq<Move>, i: nat)
    requires |targets| == |paths| == |moves| && i < |paths|
    requires MoveEffect(world, paths[i], targets[i], suffix, moves[i]).0
    ensures MoveFrom(world, paths, targets, suffix, moves, i) ==
            MoveFrom(MoveEffect(world, paths[i], targets[i], suffix, moves[i]).1, paths, targets, suffix, moves, i + 1)
  {
  }

  lemma CopyClears<T>(w: map<string, T>, source: string, target: string, suffix: string)
    requires suffix != ""
    ensures Temporary(target, suffix) !in MoveEffect(w, source, target, suffix, CrossDevice(true, true, true)).1
    ensures source in w && source != Temporary(target, suffix) ==>
              MoveEffect(w, source, target, suffix, CrossDevice(true, true, true)).0
    ensures source == Temporary(target, suffix) ==>
              !MoveEffect(w, source, target, suffix, CrossDevice(true, true, true)).0
  {
    assert |Temporary(target, suffix)| > |target|;
  }

  /** Item i is the first whose copy is made in the place of another item, j. */
  lemma NotSparedLoses<T>(world: map<string, T>, paths: seq<string>, targets: seq<string>, suffix: string, i: nat,
                          j: nat)
    requires Ready(world, paths, targets, suffix) && Existing(world, paths) && i < |paths| && j < |paths|
    requires forall t :: 0 <= t < i ==> SparedAt(paths, targets, suffix, t)
    requires Temporary(targets[i], suffix) == if j < i then targets[j] else paths[j]
    ensures !AccountedAfter(world, paths, targets, suffix, CopyUpTo(|paths|, i))
  {
    var moves := CopyUpTo(|paths|, i);
    var w := CopiesFirst(world, paths, targets, suffix, moves, i);
    var lost := Temporary(targets[i], suffix);
    var (ok, w') := MoveEffect(w, paths[i], targets[i], suffix, moves[i]);
    assert PlacedAfter(paths, targets, i)[i] == paths[i] && paths[i] in w;
    CopyClears(w, paths[i], targets[i], suffix);
    var (k, last) := MoveFrom(w, paths, targets, suffix, moves, i);
    assert k == if ok then i + 1 else i;
    assert lost !in last;
    assert PlacedAfter(paths, targets, k)[j] == lost;
  }

  lemma DuplicateLoses<T>(world: map<string, T>, paths: seq<string>, targets: seq<string>, suffix: string, i: nat,
                          j: nat)
    requires Prepared(world, paths, targets) && Existing(world, paths)
    requires i < j < |paths| && paths[i] == paths[j] && Distinct(paths[..j])
    ensures !AccountedAfter(world, paths, targets, suffix, seq(|paths|, _ => Renamed))
  {
    var moves := seq(|paths|, _ => Renamed);
    var w := RenamesFirst(world, paths, targets, suffix, moves, j);
    assert paths[..j][i] == paths[j];
    assert paths[j] !in w;
    assert PlacedAfter(paths, targets, j)[j] == paths[j];
  }

  /** The first item whose source was listed before. */
  lemma {:induction false} FirstDuplicate(paths: seq<string>) returns (i: nat, j: nat)
    requires !Distinct(paths)
    ensures i < j < |paths| && paths[i] == paths[j] && Distinct(paths[..j])
  {
    var before := paths[..|paths| - 1];
    if Distinct(before) {
      i, j :| 0 <= i < j < |paths| && paths[i] == paths[j];
      assert forall k :: 0 <= k < |before| ==> before[k] == paths[k];
      assert j == |paths| - 1;
    } else {
      i, j := FirstDuplicate(before);
      assert before[..j] == paths[..j];
    }
  }

  /**
    The whole placement, for given targets: every item is where the list says, however the moves
    go, if and only if the sources are distinct and no copy is made in the place of an item.
    */
  lemma AccountedIff<T>(world: map<string, T>, paths: seq<string>, targets: seq<string>, suffix: string)
    requires Prepared(world, paths, targets) && Existing(world, paths) && suffix != ""
    ensures AlwaysAccounted(world, paths, targets, suffix) <==> Distinct(paths) && Spared(paths, targets, suffix)
  {
    if !Distinct(paths) {
      var i, j := FirstDuplicate(paths);
      DuplicateLoses(world, paths, targets, suffix, i, j);
      assert OneDevice(seq(|paths|, _ => Renamed));
    } else if !Spared(paths, targets, suffix) {
      var i, j := NotSpared(paths, targets, suffix, |paths|);
      NotSparedLoses(world, paths, targets, suffix, i, j);
    } else {
      forall moves: seq<Move> | |moves| == |paths|
        ensures AccountedAfter(world, paths, targets, suffix, moves)
      {
        NothingMoved(world, paths, targets, suffix);
        MovesKeep(world, world, paths, targets, suffix, moves, 0);
      }
    }
  }

  /** The first item whose copy is made in the place of another, and that one. */
  lemma {:induction false} NotSpared(paths: seq<string>, targets: seq<string>, suffix: string, n: nat)
    returns (i: nat, j: nat)
    requires n <= |targets| == |paths| && exists t :: 0 <= t < n && !SparedAt(paths, targets, suffix, t)
    ensures i < n && j < |paths| && Temporary(targets[i], suffix) == if j < i then targets[j] else paths[j]
    ensures forall t :: 0 <= t < i ==> SparedAt(paths, targets, suffix, t)
  {
    if exists t :: 0 <= t < n - 1 && !SparedAt(paths, targets, suffix, t) {
      i, j := NotSpared(paths, targets, suffix, n - 1);
    } else {
      i := n - 1;
      if b :| 0 <= b < i && Temporary(targets[i], suffix) == targets[b] {
        j := b;
      } else {
        j :| i <= j < |paths| && Temporary(targets[i], suffix) == paths[j];
      }
    }
  }

  // ----- a condition on the names of the items -----

  predicate EndsWith(s: string, end: string)
  {
    |end| <= |s| && s[|s| - |end|..] == end
  }

  /** No downloaded item is named like a temporary copy. */
  predicate NoneTemporary(paths: seq<string>, suffix: string)
  {
    forall i :: 0 <= i < |paths| ==> !EndsWith(paths[i], suffix)
  }

  lemma EndContains(a: string, c: char, b: string, end: string)
    requires EndsWith(a + [c] + b, end) && |end| > |b|
    ensures c in end
  {
    assert end[|end| - |b| - 1] == (a + [c] + b)[|a|];
  }

  lemma EndAfter(a: string, c: char, b: string, end: string)
    requires EndsWith(a + [c] + b, end) && c !in end
    ensures EndsWith(b, end)
  {
    if |end| > |b| {
      EndContains(a, c, b, end);
    } else {
      assert end == (a + [c] + b)[|a| + 1 + |b| - |end|..] == b[|b| - |end|..];
    }
  }

  lemma {:induction false} BaseEnds(path: string)
    ensures EndsWith(path, Base(path)) && '/' !in Base(path)
  {
    if path != "" && path[|path| - 1] != '/' {
      var front := path[..|path| - 1];
      BaseEnds(front);
      assert path[|path| - |Base(path)|..] == front[|front| - |Base(front)|..] + [path[|path| - 1]];
    }
  }

  lemma EndsTransitively(s: string, middle: string, end: string)
    requires EndsWith(s, middle) && EndsWith(middle, end)
    ensures EndsWith(s, end)
  {
    assert s[|s| - |end|..] == s[|s| - |middle|..][|middle| - |end|..];
  }

  /** An extension has no dot but its first character. */
  lemma {:induction false} ExtHasOneDot(name: string)
    ensures forall i :: 0 < i < |Ext(name)| ==> Ext(name)[i] != '.'
  {
    if name != "" && name[|name| - 1] != '.' {
      ExtHasOneDot(name[..|name| - 1]);
    }
  }

  lemma SuffixIs(pid: nat)
    ensures var s := TemporarySuffix(pid);
            '/' !in s && ')' !in s && |s| > 5 && s[|s| - 5] == '.'
  {
    var d := Decimal(pid);
    assert forall c :: c in d ==> '0' <= c <= '9';
  }

  lemma DotInside(e: string, s: string)
    requires EndsWith(e, s) && |s| > 5 && s[|s| - 5] == '.'
    ensures |e| > 5 && e[|e| - 5] == '.'
  {
    assert s[|s| - 5] == e[|e| - |s|..][|s| - 5];
  }

  /** Only a name that ends like a temporary copy is tried as one, and only unchanged. */
  lemma AttemptEnds(directory: string, name: string, t: nat, pid: nat)
    requires EndsWith(Attempt(directory, name, t), TemporarySuffix(pid))
    ensures t == 0 && EndsWith(name, TemporarySuffix(pid))
  {
    var s := TemporarySuffix(pid);
    SuffixIs(pid);
    if t == 0 {
      EndAfter(directory, '/', name, s);
    } else {
      var front, e := CopyPrefix(directory, name) + Decimal(t + 1), Ext(name);
      assert Attempt(directory, name, t) == front + [')'] + e;
      EndAfter(front, ')', e, s);
      ExtHasOneDot(name);
      DotInside(e, s);
    }
  }

  lemma NamesApart(paths: seq<string>, targets: seq<string>, attempts: seq<nat>, directory: string, existing: nat,
                   pid: nat)
    requires FromAttempts(targets, attempts, paths, directory, existing) && NoneTemporary(paths, TemporarySuffix(pid))
    ensures Spared(paths, targets, TemporarySuffix(pid))
  {
    var suffix := TemporarySuffix(pid);
    forall i, j | 0 <= i < |targets| && 0 <= j < |targets|
      ensures Temporary(targets[i], suffix) != targets[j]
    {
      assert EarlyAttempt(targets[j], attempts[j], directory, Base(paths[j]), existing + j);
      if Temporary(targets[i], suffix) == targets[j] {
        assert EndsWith(targets[i] + suffix, suffix);
        AttemptEnds(directory, Base(paths[j]), attempts[j], pid);
        BaseEnds(paths[j]);
        EndsTransitively(paths[j], Base(paths[j]), suffix);
      }
    }
    forall i, j | 0 <= i < |targets| && 0 <= j < |paths|
      ensures Temporary(targets[i], suffix) != paths[j]
    {
      assert EndsWith(targets[i] + suffix, suffix);
    }
  }

  /** No downloaded item is in the destination folder itself. */
  predicate Outside(paths: seq<string>, directory: string)
  {
    forall i :: 0 <= i < |paths| ==> paths[i] != JoinName(directory, Base(paths[i]))
  }

  lemma {:induction false} BaseOfJoin(directory: string, name: string)
    requires '/' !in name
    ensures Base(JoinName(directory, name)) == name
  {
    var path := JoinName(directory, name);
    if name != "" {
      var front := name[..|name| - 1];
      BaseOfJoin(directory, front);
      assert path[..|path| - 1] == JoinName(directory, front);
    }
  }

  /** The names tried, without the folder. */
  function NameTried(name: string, t: nat): string
  {
    if t == 0 then name else BaseName(name) + " (" + Decimal(t + 1) + CopySuffix(name)
  }

  lemma JoinConcat(directory: string, a: string, b: string, c: string)
    ensures JoinName(directory, a) + b + c == JoinName(directory, a + b + c)
  {
  }

  lemma AttemptName(directory: string, name: string, t: nat)
    ensures Attempt(directory, name, t) == JoinName(directory, NameTried(name, t))
  {
    if t > 0 {
      JoinConcat(directory, BaseName(name) + " (", Decimal(t + 1), CopySuffix(name));
    }
  }

  lemma TriedHasNoSlash(name: string, t: nat)
    requires '/' !in name
    ensures '/' !in NameTried(name, t)
  {
    if t > 0 {
      ExtIsSuffix(name);
      assert '/' !in BaseName(name) && '/' !in Ext(name);
      assert '/' !in Decimal(t + 1);
    }
  }

  lemma TargetsOutside(paths: seq<string>, targets: seq<string>, attempts: seq<nat>, directory: string, existing: nat)
    requires FromAttempts(targets, attempts, paths, directory, existing) && Outside(paths, directory)
    ensures forall i, j :: 0 <= i < |targets| && 0 <= j < |paths| ==> targets[i] != paths[j]
  {
    forall i, j | 0 <= i < |targets| && 0 <= j < |paths|
      ensures targets[i] != paths[j]
    {
      assert EarlyAttempt(targets[i], attempts[i], directory, Base(paths[i]), existing + i);
      BaseEnds(paths[i]);
      AttemptName(directory, Base(paths[i]), attempts[i]);
      TriedHasNoSlash(Base(paths[i]), attempts[i]);
      BaseOfJoin(directory, NameTried(Base(paths[i]), attempts[i]));
    }
  }

  lemma PlanIsReady<T>(world: map<string, T>, failing: set<string>, paths: seq<string>, targets: seq<string>,
                       attempts: seq<nat>, directory: string, pid: nat, lower: char -> char)
    requires |targets| == |paths| && Planned(targets, Folder(world.Keys, failing), lower)
    requires FromAttempts(targets, attempts, paths, directory, |world.Keys|)
    ensures Prepared(world, paths, targets) && TemporarySuffix(pid) != ""
    ensures Distinct(paths) && (Existing(world, paths) || Outside(paths, directory)) ==>
              Ready(world, paths, targets, TemporarySuffix(pid))
    ensures NoneTemporary(paths, TemporarySuffix(pid)) ==> Spared(paths, targets, TemporarySuffix(pid))
  {
    SuffixIs(pid);
    forall i | 0 <= i < |paths|
      ensures targets[i] !in world
    {
      assert Lstat(Folder(world.Keys, failing), targets[i]) == Absent;
    }
    if NoneTemporary(paths, TemporarySuffix(pid)) {
      NamesApart(paths, targets, attempts, directory, |world.Keys|, pid);
    }
    if Outside(paths, directory) {
      TargetsOutside(paths, targets, attempts, directory, |world.Keys|);
    }
  }

  /**
    placeMacDownloadedPaths. Nothing moves unless every item has a target, and the returned
    list is targets before the first failed item and staged paths from it on. When the staged
    paths are distinct and none is named like a temporary copy, every item that existed is where
    the list says, if all of them did or none is in the destination folder already; and placement
    succeeds only if all of them did.
    */
  method PlaceMacDownloadedPaths<T>(world: map<string, T>, failing: set<string>, paths: seq<string>,
                                    destination: string, pid: nat, moves: seq<Move>, lower: char -> char)
    returns (ok: bool, placed: seq<string>, world': map<string, T>, targets: seq<string>, k: nat)
    requires KeepsDigits(lower) && |moves| == |paths|
    ensures if |targets| == |paths|
            then k <= |paths| && placed == PlacedAfter(paths, targets, k) && (ok <==> k == |paths|)
            else !ok && placed == paths && world' == world
    ensures Planned(targets, Folder(world.Keys, failing), lower)
    ensures |targets| == |paths| ==>
              && Prepared(world, paths, targets)
              && (k, world') == MoveFrom(world, paths, targets, TemporarySuffix(pid), moves, 0)
    ensures Distinct(paths) && NoneTemporary(paths, TemporarySuffix(pid))
            && (Existing(world, paths) || Outside(paths, destination)) ==>
              && Accounted(world, world', paths, placed) && (ok ==> Existing(world, paths))
              && (|targets| == |paths| ==> BystandersKept(world, world', paths, targets, TemporarySuffix(pid)))
  {
    var f := Folder(world.Keys, failing);
    var planned, attempts;
    planned, targets, attempts := PlanTargets(paths, destination, f, lower);
    if !planned {
      return false, paths, world, [], 0;
    }
    PlanIsReady(world, failing, paths, targets, attempts, destination, pid, lower);
    ok, k, placed, world' := MoveAll(world, paths, targets, TemporarySuffix(pid), moves);
  }

  // ----- the condition fails of names an offer may have -----

  lemma SuffixedNameIsValid(pid: nat, upper: char -> char)
    ensures OfferPath.ValidName("a", upper) && OfferPath.ValidName("a" + TemporarySuffix(pid), upper)
  {
    var name := "a" + TemporarySuffix(pid);
    var d := Decimal(pid);
    assert forall i :: 0 <= i < |name| ==>
             name[i] == "a.clipall-"[i % 10] || (10 <= i < 10 + |d| && name[i] == d[i - 10]) || name[i] in ".part";
    OfferPath.ShortNameIsValid("a", upper);
    OfferPath.ShortNameIsValid(name, upper);
  }

  /** An item below the staging directory keeps its name if that is free. */
  lemma FirstAttempt(staging: string, directory: string, name: string)
    requires '/' !in name
    ensures JoinName(directory, name) == Attempt(directory, Base(JoinName(staging, name)), 0)
  {
    BaseOfJoin(staging, name);
  }

  lemma JoinsDiffer(d: string, a: string, e: string, b: string)
    requires '/' !in a && '/' !in b && a != b
    ensures JoinName(d, a) != JoinName(e, b)
  {
    BaseOfJoin(d, a);
    BaseOfJoin(e, b);
  }

  lemma TemporaryNameTaken<T>(world: map<string, T>, staging: string, directory: string, a: string, suffix: string)
    requires '/' !in a && '/' !in suffix && suffix != ""
    requires JoinName(staging, a) in world && JoinName(staging, a + suffix) in world
    requires JoinName(directory, a) !in world && JoinName(directory, a + suffix) !in world
    ensures var paths := [JoinName(staging, a + suffix), JoinName(staging, a)];
            var targets := [JoinName(directory, a + suffix), JoinName(directory, a)];
            !AccountedAfter(world, paths, targets, suffix, CopyUpTo(2, 1))
  {
    var paths := [JoinName(staging, a + suffix), JoinName(staging, a)];
    var targets := [JoinName(directory, a + suffix), JoinName(directory, a)];
    assert |paths[0]| != |paths[1]| && |targets[0]| != |targets[1]|;
    assert Temporary(targets[1], suffix) == targets[0];
    assert Temporary(targets[0], suffix) == JoinName(directory, a + suffix + suffix);
    assert |a + suffix + suffix| > |a + suffix| > |a|;
    JoinsDiffer(directory, a + suffix + suffix, staging, a + suffix);
    JoinsDiffer(directory, a + suffix + suffix, staging, a);
    NotSparedLoses(world, paths, targets, suffix, 1, 0);
  }

  /**
    Roots an accepted offer may have: "a", and the name of its temporary copy. Both keep their
    names; when both are copied across devices, the first is lost.
    */
  lemma TemporaryNameLoses<T>(world: map<string, T>, staging: string, directory: string, pid: nat, upper: char -> char)
    requires forall n :: n in ["a" + TemporarySuffix(pid), "a"] ==>
               JoinName(staging, n) in world && JoinName(directory, n) !in world
    ensures var suffix := TemporarySuffix(pid);
            var paths := [JoinName(staging, "a" + suffix), JoinName(staging, "a")];
            var targets := [JoinName(directory, "a" + suffix), JoinName(directory, "a")];
            && OfferPath.ValidName("a" + suffix, upper) && OfferPath.ValidName("a", upper)
            && targets[0] == Attempt(directory, Base(paths[0]), 0)
            && targets[1] == Attempt(directory, Base(paths[1]), 0)
            && !AccountedAfter(world, paths, targets, suffix, CopyUpTo(2, 1))
  {
    var suffix := TemporarySuffix(pid);
    SuffixedNameIsValid(pid, upper);
    SuffixIs(pid);
    FirstAttempt(staging, directory, "a" + suffix);
    FirstAttempt(staging, directory, "a");
    assert "a" in ["a" + suffix, "a"] && "a" + suffix in ["a" + suffix, "a"];
    TemporaryNameTaken(world, staging, directory, "a", suffix);
  }
}
