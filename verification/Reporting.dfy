/**
  file_sync.go: the numbers given to the progress callback, and the total announced with them.
  Both are int64 sums, which wrap.
  */
module Reporting {
  import opened Bytes
  import opened FileSource

  ghost predicate NonDecreasing(rs: seq<int64>)
  {
    forall i, j :: 0 <= i < j < |rs| ==> rs[i] <= rs[j]
  }

  /** The reports made while `upto` bytes of one file arrived on top of `base` bytes. */
  ghost predicate FileReports(rs: seq<int64>, base: int64, upto: nat)
  {
    && (rs == [] <==> upto == 0)
    && (rs != [] ==> rs[|rs| - 1] == ToInt64(base + upto))
    && (0 <= base && base + upto <= MAX_INT64 ==>
          NonDecreasing(rs) && forall i :: 0 <= i < |rs| ==> base <= rs[i] <= base + upto)
  }

  /** The reports made while `sum` bytes of the offer were completed. */
  ghost predicate Progress(rs: seq<int64>, sum: nat)
  {
    && rs != [] && rs[0] == 0
    && rs[|rs| - 1] == ToInt64(sum)
    && (sum <= MAX_INT64 ==> NonDecreasing(rs) && forall i :: 0 <= i < |rs| ==> 0 <= rs[i] <= sum)
    && (sum > MAX_INT64 ==> exists i :: 0 <= i < |rs| && rs[i] < 0)
  }

  lemma WrapSum(a: int, b: int)
    ensures ToInt64(ToInt64(a) + b) == ToInt64(a + b)
  {
    var w := 0x1_0000_0000_0000_0000;
    assert (a - ToInt64(a)) % w == 0;
    assert (ToInt64(a) + b) % w == (a + b) % w by {
      var q := (a - ToInt64(a)) / w;
      assert a + b == ToInt64(a) + b + w * q;
    }
  }

  lemma OneReport(rs: seq<int64>, base: int64, upto: nat, more: nat)
    requires FileReports(rs, base, upto) && more > upto
    ensures FileReports(rs + [ToInt64(base + more)], base, more)
  {
  }

  /** A file is fetched: its reports continue those of the offer. */
  lemma ProgressFetched(rs: seq<int64>, sum: nat, more: seq<int64>, upto: nat)
    requires Progress(rs, sum) && FileReports(more, ToInt64(sum), upto) && upto <= MAX_INT64
    ensures Progress(rs + more, sum + upto)
  {
    WrapSum(sum, upto);
    var all := rs + more;
    if upto > 0 {
      assert all[|all| - 1] == more[|more| - 1];
      if sum <= MAX_INT64 < sum + upto {
        assert ToInt64(sum + upto) < 0;
      } else if sum > MAX_INT64 {
        var i :| 0 <= i < |rs| && rs[i] < 0;
        assert all[i] < 0;
      }
    } else {
      assert all == rs;
    }
  }

  /** A file was already staged: one report, also when it is empty. */
  lemma ProgressStaged(rs: seq<int64>, sum: nat, size: nat)
    requires Progress(rs, sum) && size <= MAX_INT64
    ensures Progress(rs + [ToInt64(ToInt64(sum) + size)], sum + size)
  {
    WrapSum(sum, size);
    var all := rs + [ToInt64(sum + size)];
    if sum > MAX_INT64 {
      var i :| 0 <= i < |rs| && rs[i] < 0;
      assert all[i] < 0;
    }
    assert all[|all| - 1] == ToInt64(sum + size);
  }

  /**
    Progress that reached `sum`, in a finished or an unfinished run, is monotone and stays within
    the total announced with it exactly when `sum` did not outgrow an int64 or that total.
    */
  lemma ProgressIff(rs: seq<int64>, sum: nat, announced: int64)
    requires Progress(rs, sum)
    ensures NonDecreasing(rs) && (forall i :: 0 <= i < |rs| ==> rs[i] <= announced) <==>
            sum <= MAX_INT64 && sum <= announced
  {
    if sum > MAX_INT64 {
      var i :| 0 <= i < |rs| && rs[i] < 0;
      assert rs[0] > rs[i];
    } else {
      assert rs[|rs| - 1] == sum;
    }
  }

  /**
    What that means for an offer of `total` bytes. If that fits in an int64, the reports of every
    run are monotone and within the announced total, and those of a success end at it. If it does
    not fit, those of a success never are.
    */
  lemma ProgressIffFits(rs: seq<int64>, sum: nat, total: nat)
    requires Progress(rs, sum) && sum <= total
    ensures total <= MAX_INT64 ==>
              NonDecreasing(rs) && forall i :: 0 <= i < |rs| ==> 0 <= rs[i] <= ToInt64(total) == total
    ensures sum == total ==>
              (total <= MAX_INT64 <==>
                && NonDecreasing(rs) && rs[|rs| - 1] == ToInt64(total)
                && forall i :: 0 <= i < |rs| ==> rs[i] <= ToInt64(total))
  {
    ProgressIff(rs, sum, ToInt64(total));
  }

  /** The bytes of the files among the entries. */
  function FileBytes(entries: seq<FileEntry>): (n: int)
    ensures (forall i :: 0 <= i < |entries| ==> entries[i].size >= 0) ==> n >= 0
  {
    if entries == [] then 0
    else FileBytes(entries[..|entries| - 1])
         + if entries[|entries| - 1].directory then 0 else entries[|entries| - 1].size
  }

  /** Where the directories are among the entries, or the files. */
  function Positions(entries: seq<FileEntry>, directory: bool): (s: set<nat>)
    ensures forall i :: i in s <==> 0 <= i < |entries| && entries[i].directory == directory
  {
    set i: nat | i < |entries| && entries[i].directory == directory
  }

  lemma OnePosition(entries: seq<FileEntry>)
    requires entries != []
    ensures var last := |entries| - 1;
            && |Positions(entries, entries[last].directory)| ==
               |Positions(entries[..last], entries[last].directory)| + 1
            && Positions(entries, !entries[last].directory) == Positions(entries[..last], !entries[last].directory)
  {
    var last := |entries| - 1;
    var d := entries[last].directory;
    assert Positions(entries, d) == Positions(entries[..last], d) + {last};
  }

  /** fileOfferStats: the byte count wraps like any int64 sum. */
  method FileOfferStats(entries: seq<FileEntry>) returns (files: nat, directories: nat, bytes: int64)
    ensures files == |Positions(entries, false)| && directories == |Positions(entries, true)|
    ensures files + directories == |entries|
    ensures bytes == ToInt64(FileBytes(entries))
  {
    files, directories, bytes := 0, 0, 0;
    for i := 0 to |entries|
      invariant files == |Positions(entries[..i], false)| && directories == |Positions(entries[..i], true)|
      invariant files + directories == i
      invariant bytes == ToInt64(FileBytes(entries[..i]))
    {
      assert entries[..i + 1][..i] == entries[..i];
      OnePosition(entries[..i + 1]);
      if entries[i].directory {
        directories := directories + 1;
      } else {
        files := files + 1;
        WrapSum(FileBytes(entries[..i]), entries[i].size);
        bytes := ToInt64(bytes + entries[i].size);
      }
    }
    assert entries[..|entries|] == entries;
  }

  /** The sizes up to and including entry i, and the rest. */
  lemma {:induction false} FileBytesGrow(entries: seq<FileEntry>, i: nat)
    requires i < |entries| && forall k :: 0 <= k < |entries| ==> entries[k].size >= 0
    ensures FileBytes(entries[..i + 1]) ==
            FileBytes(entries[..i]) + (if entries[i].directory then 0 else entries[i].size)
    ensures FileBytes(entries[..i + 1]) <= FileBytes(entries)
    decreases |entries| - i
  {
    assert entries[..i + 1][..i] == entries[..i];
    if i + 1 < |entries| {
      FileBytesGrow(entries, i + 1);
    } else {
      assert entries[..i + 1] == entries;
    }
  }
}
