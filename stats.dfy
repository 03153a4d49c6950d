/** Exact-arithmetic counterparts of the numpy reductions the PSD loop uses:
    np.sum, np.max and np.median, the last defined through an insertion sort. */
module Stats {

  /** np.sum of a window: the sum of all its samples. */
  function Sum(s: seq<real>): real
  {
    if s == [] then 0.0 else s[0] + Sum(s[1..])
  }

  predicate NonNegative(s: seq<real>)
  {
    forall i :: 0 <= i < |s| ==> 0.0 <= s[i]
  }

  lemma {:induction false} SumNonNegative(s: seq<real>)
    requires NonNegative(s)
    ensures Sum(s) >= 0.0
  {
    if s != [] {
      SumNonNegative(s[1..]);
    }
  }

  /** Over non-negative samples, the sum is at least any one sample. */
  lemma {:induction false} SumAtLeastElement(s: seq<real>, k: int)
    requires NonNegative(s) && 0 <= k < |s|
    ensures s[k] <= Sum(s)
  {
    if k == 0 {
      SumNonNegative(s[1..]);
    } else {
      SumAtLeastElement(s[1..], k - 1);
    }
  }

  /** Over non-negative samples, a prefix sums to at most the whole. */
  lemma {:induction false} SumPrefixAtMost(s: seq<real>, k: int)
    requires NonNegative(s) && 0 <= k <= |s|
    ensures Sum(s[..k]) <= Sum(s)
  {
    if k == 0 {
      SumNonNegative(s);
    } else {
      assert s[..k][1..] == s[1..][..k - 1];
      SumPrefixAtMost(s[1..], k - 1);
    }
  }

  /** np.max of a non-empty window. */
  function Max(s: seq<real>): real
    requires |s| > 0
  {
    if |s| == 1 then s[0]
    else
      var rest := Max(s[1..]);
      if s[0] >= rest then s[0] else rest
  }

  /** The maximum is one of the samples, and no sample exceeds it. */
  lemma {:induction false} MaxIsPeak(s: seq<real>)
    requires |s| > 0
    ensures exists k :: 0 <= k < |s| && s[k] == Max(s)
    ensures forall i :: 0 <= i < |s| ==> s[i] <= Max(s)
  {
    if |s| == 1 {
      assert s[0] == Max(s);
    } else {
      MaxIsPeak(s[1..]);
      var k :| 0 <= k < |s| - 1 && s[1..][k] == Max(s[1..]);
      if s[0] >= Max(s[1..]) {
        assert s[0] == Max(s);
      } else {
        assert s[k + 1] == Max(s);
      }
      forall i | 1 <= i < |s|
        ensures s[i] <= Max(s)
      {
        assert s[i] == s[1..][i - 1];
      }
    }
  }

  predicate Sorted(s: seq<real>)
  {
    forall i, j :: 0 <= i < j < |s| ==> s[i] <= s[j]
  }

  /** Inserts x before the first element not below it. */
  function Insert(x: real, s: seq<real>): (r: seq<real>)
    ensures |r| == |s| + 1
  {
    if s == [] || x <= s[0] then [x] + s
    else [s[0]] + Insert(x, s[1..])
  }

  /** Insertion adds exactly x. */
  lemma {:induction false} InsertPermutes(x: real, s: seq<real>)
    ensures multiset(Insert(x, s)) == multiset(s) + multiset{x}
  {
    if s != [] && x > s[0] {
      InsertPermutes(x, s[1..]);
      assert s == [s[0]] + s[1..];
    }
  }

  /** Insertion into a sorted sequence keeps it sorted. */
  lemma {:induction false} InsertSorted(x: real, s: seq<real>)
    requires Sorted(s)
    ensures Sorted(Insert(x, s))
  {
    if s != [] && x > s[0] {
      var tail := Insert(x, s[1..]);
      InsertSorted(x, s[1..]);
      assert tail[0] == x || tail[0] == s[1];
      forall j | 0 <= j < |tail|
        ensures s[0] <= tail[j]
      {
        assert tail[0] <= tail[j];
      }
      assert Insert(x, s) == [s[0]] + tail;
    }
  }

  /** The ascending order of a sequence of samples, by insertion sort. */
  function SortedOf(s: seq<real>): (r: seq<real>)
    ensures |r| == |s|
  {
    if s == [] then [] else Insert(s[0], SortedOf(s[1..]))
  }

  lemma {:induction false} SortedOfSorted(s: seq<real>)
    ensures Sorted(SortedOf(s))
  {
    if s != [] {
      SortedOfSorted(s[1..]);
      InsertSorted(s[0], SortedOf(s[1..]));
    }
  }

  /** SortedOf rearranges the samples and neither adds nor drops any. */
  lemma {:induction false} SortedOfPermutes(s: seq<real>)
    ensures multiset(SortedOf(s)) == multiset(s)
  {
    if s != [] {
      SortedOfPermutes(s[1..]);
      InsertPermutes(s[0], SortedOf(s[1..]));
      assert s == [s[0]] + s[1..];
    }
  }

  /** np.median: the middle of the sorted samples, or the mean of the two
      middle ones when their number is even. */
  function Median(s: seq<real>): real
    requires |s| > 0
  {
    var t := SortedOf(s);
    var h := |s| / 2;
    if |s| % 2 == 1 then t[h] else (t[h - 1] + t[h]) / 2.0
  }

  /** The median lies between two of the samples. */
  lemma MedianBetweenSamples(s: seq<real>)
    requires |s| > 0
    ensures exists i, j :: 0 <= i < |s| && 0 <= j < |s| && s[i] <= Median(s) <= s[j]
  {
    var t := SortedOf(s);
    var h := |s| / 2;
    var lo := if |s| % 2 == 1 then h else h - 1;
    SortedOfSorted(s);
    SortedOfPermutes(s);
    assert t[lo] <= Median(s) <= t[h];
    assert t[lo] in multiset(s) && t[h] in multiset(s);
    var i :| 0 <= i < |s| && s[i] == t[lo];
    var j :| 0 <= j < |s| && s[j] == t[h];
  }

  /** Every sample minus the constant c. */
  function Shifted(s: seq<real>, c: real): seq<real>
  {
    seq(|s|, i requires 0 <= i < |s| => s[i] - c)
  }

  lemma ShiftedCons(h: real, s: seq<real>, c: real)
    ensures Shifted([h] + s, c) == [h - c] + Shifted(s, c)
  {
  }

  /** Shifting commutes with insertion: comparisons against x are unchanged
      when both sides move by c. */
  lemma {:induction false} InsertShifted(x: real, s: seq<real>, c: real)
    ensures Shifted(Insert(x, s), c) == Insert(x - c, Shifted(s, c))
  {
    if s != [] {
      var t := Shifted(s, c);
      assert s == [s[0]] + s[1..];
      ShiftedCons(s[0], s[1..], c);
      assert t == [s[0] - c] + Shifted(s[1..], c);
      if x <= s[0] {
        ShiftedCons(x, s, c);
      } else {
        InsertShifted(x, s[1..], c);
        ShiftedCons(s[0], Insert(x, s[1..]), c);
      }
    }
  }

  /** Shifting commutes with sorting. */
  lemma {:induction false} SortedOfShifted(s: seq<real>, c: real)
    ensures SortedOf(Shifted(s, c)) == Shifted(SortedOf(s), c)
  {
    if s != [] {
      assert Shifted(s, c)[1..] == Shifted(s[1..], c);
      SortedOfShifted(s[1..], c);
      InsertShifted(s[0], SortedOf(s[1..]), c);
    }
  }

  /** Subtracting a constant from every sample subtracts it from the median. */
  lemma MedianShifted(s: seq<real>, c: real)
    requires |s| > 0
    ensures Median(Shifted(s, c)) == Median(s) - c
  {
    SortedOfShifted(s, c);
  }
}
