/** The two location lists of aoc_2024/src/bin/day1.rs.

    The input is a whitespace-separated sequence of location ids read in
    pairs, the first of each pair going to the left list and the second to
    the right list. Both lists are sorted; the solver then reports the total
    distance between the paired lists and a similarity score, which weighs
    every left id by how often it occurs in the right list. */
module LocationLists {
  import opened Wrappers
  import Text

  predicate IsSorted(s: seq<nat>)
  {
    forall i, j :: 0 <= i < j < |s| ==> s[i] <= s[j]
  }

  datatype LocationData = LocationData(left: seq<nat>, right: seq<nat>)

  datatype SortedLocationData = SortedLocationData(left: seq<nat>, right: seq<nat>)

  // ---------------------------------------------------------------------------
  // Parsing
  // ---------------------------------------------------------------------------

  /** `Itertools::tuples` for pairs: consecutive tokens two at a time, an
      odd last token dropped. */
  function Pairs(tokens: seq<string>): (pairs: seq<(string, string)>)
    ensures |pairs| == |tokens| / 2
    ensures forall k :: 0 <= k < |pairs| ==> pairs[k] == (tokens[2 * k], tokens[2 * k + 1])
  {
    if |tokens| < 2 then []
    else
      var rest := Pairs(tokens[2..]);
      assert forall k :: 0 <= k < |rest| ==> rest[k] == (tokens[2 * k + 2], tokens[2 * k + 3]);
      [(tokens[0], tokens[1])] + rest
  }

  /** `LocationData::from_str`: the whitespace-separated tokens are taken in
      pairs; each pair pushes its first id on the left list and its second on
      the right list. Any token of a pair that is not a `usize` fails the
      parse. */
  method ParseLocationData(s: string) returns (r: Result<LocationData>)
    ensures r.Ok? <==> forall k :: 0 <= k < |IdPairs(s)| ==> PairParses(IdPairs(s)[k])
    ensures r.Ok? ==> (
              && |r.value.left| == |r.value.right| == |IdPairs(s)|
              && (forall k :: 0 <= k < |IdPairs(s)| ==> r.value.left[k] == Text.ParseUsize(IdPairs(s)[k].0).value)
              && (forall k :: 0 <= k < |IdPairs(s)| ==> r.value.right[k] == Text.ParseUsize(IdPairs(s)[k].1).value))
  {
    r := ParsePairs(IdPairs(s));
  }

  /** The token pairs of the input. */
  function IdPairs(s: string): seq<(string, string)>
  {
    Pairs(Text.SplitWhitespace(s))
  }

  /** Both ids of a pair are `usize` numbers. */
  predicate PairParses(pair: (string, string))
  {
    Text.ParseUsize(pair.0).Some? && Text.ParseUsize(pair.1).Some?
  }

  /** The loop of `LocationData::from_str` over the token pairs. */
  method ParsePairs(pairs: seq<(string, string)>) returns (r: Result<LocationData>)
    ensures r.Ok? <==> forall k :: 0 <= k < |pairs| ==> PairParses(pairs[k])
    ensures r.Ok? ==> (
              && |r.value.left| == |r.value.right| == |pairs|
              && (forall k :: 0 <= k < |pairs| ==> r.value.left[k] == Text.ParseUsize(pairs[k].0).value)
              && (forall k :: 0 <= k < |pairs| ==> r.value.right[k] == Text.ParseUsize(pairs[k].1).value))
  {
    var left: seq<nat> := [];
    var right: seq<nat> := [];
    var i := 0;
    while i < |pairs|
      invariant i <= |pairs|
      invariant |left| == |right| == i
      invariant forall m :: 0 <= m < i ==> PairParses(pairs[m])
      invariant forall m :: 0 <= m < i ==> left[m] == Text.ParseUsize(pairs[m].0).value
      invariant forall m :: 0 <= m < i ==> right[m] == Text.ParseUsize(pairs[m].1).value
    {
      var l := Text.ParseUsize(pairs[i].0);
      if l.None? {
        assert !PairParses(pairs[i]);
        return Err;
      }
      var rr := Text.ParseUsize(pairs[i].1);
      if rr.None? {
        assert !PairParses(pairs[i]);
        return Err;
      }
      PairStep(left, l.value, pairs, i, 0);
      PairStep(right, rr.value, pairs, i, 1);
      left := left + [l.value as nat];
      right := right + [rr.value as nat];
      i := i + 1;
    }
    if |left| != |right| {
      return Err;
    }
    r := Ok(LocationData(left, right));
  }

  /** The left (side 0) or right (side 1) id of a pair. */
  function IdOf(pair: (string, string), side: nat): string
  {
    if side == 0 then pair.0 else pair.1
  }

  /** Pushing the parsed id of pair i keeps the ids of the pairs before it. */
  lemma {:induction false} PairStep(ids: seq<nat>, v: int, pairs: seq<(string, string)>, i: nat, side: nat)
    requires i < |pairs| && |ids| == i && side <= 1 && v >= 0
    requires Text.ParseUsize(IdOf(pairs[i], side)) == Some(v)
    requires forall m :: 0 <= m < i ==> Text.ParseUsize(IdOf(pairs[m], side)).Some?
    requires forall m :: 0 <= m < i ==> ids[m] == Text.ParseUsize(IdOf(pairs[m], side)).value
    ensures forall m :: 0 <= m < i + 1 ==> (ids + [v as nat])[m] == Text.ParseUsize(IdOf(pairs[m], side)).value
  {
    forall m | 0 <= m < i + 1
      ensures (ids + [v as nat])[m] == Text.ParseUsize(IdOf(pairs[m], side)).value
    {
      if m < i {
        assert (ids + [v as nat])[m] == ids[m];
      }
    }
  }

  // ---------------------------------------------------------------------------
  // Sorting
  // ---------------------------------------------------------------------------

  /** Inserts `x` into a sorted list. */
  function Insert(x: nat, s: seq<nat>): (r: seq<nat>)
    requires IsSorted(s)
    ensures IsSorted(r) && multiset(r) == multiset(s) + multiset{x}
  {
    if s == [] then [x]
    else if x <= s[0] then
      SortedPrepend(x, s);
      [x] + s
    else
      SortedTail(s);
      var rest := Insert(x, s[1..]);
      InsertTailBound(x, s, rest);
      SortedPrepend(s[0], rest);
      TailMultiset(s);
      [s[0]] + rest
  }

  /** Every element of the tail, and x above the head, stay above the head. */
  lemma {:induction false} InsertTailBound(x: nat, s: seq<nat>, rest: seq<nat>)
    requires IsSorted(s) && s != [] && s[0] < x
    requires multiset(rest) == multiset(s[1..]) + multiset{x}
    ensures forall e :: e in rest ==> s[0] <= e
  {
    forall e | e in rest
      ensures s[0] <= e
    {
      assert e in multiset(rest);
      if e != x {
        assert e in multiset(s[1..]);
        var k :| 0 <= k < |s[1..]| && s[1..][k] == e;
        assert s[k + 1] == e;
      }
    }
  }

  lemma {:induction false} SortedPrepend(h: nat, t: seq<nat>)
    requires IsSorted(t)
    requires forall e :: e in t ==> h <= e
    ensures IsSorted([h] + t)
  {
    forall i, j | 0 <= i < j < |t| + 1
      ensures ([h] + t)[i] <= ([h] + t)[j]
    {
      if i > 0 {
        assert ([h] + t)[i] == t[i - 1];
      }
      assert ([h] + t)[j] == t[j - 1];
      assert t[j - 1] in t;
    }
  }

  /** The sorted permutation of a list (`Vec::sort`). */
  function Sort(s: seq<nat>): (r: seq<nat>)
    ensures IsSorted(r) && multiset(r) == multiset(s) && |r| == |s|
  {
    if s == [] then []
    else
      assert s == s[..|s| - 1] + [s[|s| - 1]];
      var r := Insert(s[|s| - 1], Sort(s[..|s| - 1]));
      assert |r| == |multiset(r)|;
      r
  }

  /** A sorted permutation is unique: two sorted lists with the same elements
      are equal. */
  lemma {:induction false} SortedUnique(a: seq<nat>, b: seq<nat>)
    requires IsSorted(a) && IsSorted(b) && multiset(a) == multiset(b)
    ensures a == b
    decreases |a|
  {
    assert |a| == |multiset(a)| == |multiset(b)| == |b|;
    if a != [] {
      SortedHeadsAgree(a, b);
      TailMultiset(a);
      TailMultiset(b);
      SortedTail(a);
      SortedTail(b);
      SortedUnique(a[1..], b[1..]);
      assert a == [a[0]] + a[1..] && b == [b[0]] + b[1..];
    }
  }

  /** Two sorted lists with the same elements start with the same one: the
      least of them. */
  lemma {:induction false} SortedHeadsAgree(a: seq<nat>, b: seq<nat>)
    requires IsSorted(a) && IsSorted(b) && multiset(a) == multiset(b) && a != []
    ensures b != [] && a[0] == b[0]
  {
    assert a[0] in multiset(a);
    assert a[0] in b;
    var i :| 0 <= i < |b| && b[i] == a[0];
    assert b[0] in multiset(b);
    assert b[0] in a;
    var j :| 0 <= j < |a| && a[j] == b[0];
    assert a[0] <= a[j] && b[0] <= b[i];
  }

  lemma {:induction false} TailMultiset(a: seq<nat>)
    requires a != []
    ensures multiset(a[1..]) == multiset(a) - multiset{a[0]}
  {
    assert a == [a[0]] + a[1..];
  }

  lemma {:induction false} SortedTail(a: seq<nat>)
    requires IsSorted(a) && a != []
    ensures IsSorted(a[1..])
  {
    forall i, j | 0 <= i < j < |a| - 1
      ensures a[1..][i] <= a[1..][j]
    {
      assert a[1..][i] == a[i + 1] && a[1..][j] == a[j + 1];
    }
  }

  /** `SortedLocationData::from`: both lists sorted in place. */
  function FromLocationData(d: LocationData): (r: SortedLocationData)
    ensures IsSorted(r.left) && IsSorted(r.right)
    ensures multiset(r.left) == multiset(d.left) && multiset(r.right) == multiset(d.right)
    ensures |r.left| == |d.left| && |r.right| == |d.right|
  {
    SortedLocationData(Sort(d.left), Sort(d.right))
  }

  /** The ids on one side of pairs that all parse: side 0 the left ids, side 1
      the right ids. */
  function ParsedIds(pairs: seq<(string, string)>, side: nat): seq<nat>
    requires forall k :: 0 <= k < |pairs| ==> PairParses(pairs[k])
  {
    seq(|pairs|, k requires 0 <= k < |pairs| => ParsedId(pairs[k], side))
  }

  function ParsedId(pair: (string, string), side: nat): nat
    requires PairParses(pair)
  {
    if side == 0 then Text.ParseUsize(pair.0).value as nat else Text.ParseUsize(pair.1).value as nat
  }

  /** `get_location_data`: the parsed lists, each sorted. It fails exactly
      when some id of a pair is not a `usize`; otherwise each list is the
      sorted permutation of the ids on its side. */
  method GetLocationData(s: string) returns (r: Result<SortedLocationData>)
    ensures r.Ok? <==> forall k :: 0 <= k < |IdPairs(s)| ==> PairParses(IdPairs(s)[k])
    ensures r.Ok? ==> IsSorted(r.value.left) && IsSorted(r.value.right)
    ensures r.Ok? ==> multiset(r.value.left) == multiset(ParsedIds(IdPairs(s), 0))
                      && multiset(r.value.right) == multiset(ParsedIds(IdPairs(s), 1))
  {
    var d := ParseLocationData(s);
    if d.Err? {
      return Err;
    }
    assert d.value.left == ParsedIds(IdPairs(s), 0);
    assert d.value.right == ParsedIds(IdPairs(s), 1);
    r := Ok(FromLocationData(d.value));
  }

  // ---------------------------------------------------------------------------
  // Total distance
  // ---------------------------------------------------------------------------

  function AbsDiff(a: nat, b: nat): nat
  {
    if a < b then b - a else a - b
  }

  /** `sum_of_diffs`: the sum of |l - r| over the pairs that `zip` forms, so
      an extra tail on the longer list is ignored. */
  function SumOfDiffs(left: seq<nat>, right: seq<nat>): nat
  {
    DiffsUpTo(left, right, PairCount(left, right))
  }

  function PairCount(left: seq<nat>, right: seq<nat>): nat
  {
    if |left| < |right| then |left| else |right|
  }

  /** The distance over the first k pairs. */
  function DiffsUpTo(left: seq<nat>, right: seq<nat>, k: nat): nat
    requires k <= |left| && k <= |right|
  {
    if k == 0 then 0 else DiffsUpTo(left, right, k - 1) + AbsDiff(left[k - 1], right[k - 1])
  }

  lemma {:induction false} DiffsUpToZero(left: seq<nat>, right: seq<nat>, k: nat)
    requires k <= |left| && k <= |right|
    ensures DiffsUpTo(left, right, k) == 0 <==> left[..k] == right[..k]
  {
    if k > 0 {
      DiffsUpToZero(left, right, k - 1);
      if left[..k] == right[..k] {
        assert left[..k - 1] == left[..k][..k - 1] && right[..k - 1] == right[..k][..k - 1];
        assert left[k - 1] == left[..k][k - 1] && right[k - 1] == right[..k][k - 1];
      }
      if DiffsUpTo(left, right, k) == 0 {
        assert left[..k] == left[..k - 1] + [left[k - 1]];
        assert right[..k] == right[..k - 1] + [right[k - 1]];
      }
    }
  }

  /** The distance is zero exactly when the paired lists agree pair by pair;
      for lists of equal length, exactly when they are equal. */
  lemma {:induction false} SumOfDiffsZero(left: seq<nat>, right: seq<nat>)
    ensures var m := PairCount(left, right);
            SumOfDiffs(left, right) == 0 <==> left[..m] == right[..m]
    ensures |left| == |right| ==> (SumOfDiffs(left, right) == 0 <==> left == right)
  {
    DiffsUpToZero(left, right, PairCount(left, right));
    assert left[..|left|] == left && right[..|right|] == right;
  }

  lemma {:induction false} DiffsUpToSymmetric(left: seq<nat>, right: seq<nat>, k: nat)
    requires k <= |left| && k <= |right|
    ensures DiffsUpTo(left, right, k) == DiffsUpTo(right, left, k)
  {
    if k > 0 {
      DiffsUpToSymmetric(left, right, k - 1);
    }
  }

  /** The distance does not depend on which list is called left. */
  lemma {:induction false} SumOfDiffsSymmetric(left: seq<nat>, right: seq<nat>)
    ensures SumOfDiffs(left, right) == SumOfDiffs(right, left)
  {
    DiffsUpToSymmetric(left, right, PairCount(left, right));
  }

  // ---------------------------------------------------------------------------
  // Similarity
  // ---------------------------------------------------------------------------

  /** The similarity as defined: every left id times the number of its
      occurrences in the right list, summed over the left list. */
  function SimilarityReference(left: seq<nat>, right: seq<nat>): nat
  {
    SimilarityUpTo(left, right, |left|)
  }

  /** The similarity contributed by the first k left ids. */
  function SimilarityUpTo(left: seq<nat>, right: seq<nat>, k: nat): nat
    requires k <= |left|
  {
    if k == 0 then 0
    else SimilarityUpTo(left, right, k - 1) + left[k - 1] * multiset(right)[left[k - 1]]
  }

  /** The count map built by folding over the right list: each id seen maps
      to its number of occurrences. */
  function CountMap(s: seq<nat>): (m: map<nat, nat>)
    ensures forall v :: v in m <==> v in s
    ensures forall v :: v in m ==> m[v] == multiset(s)[v]
  {
    if s == [] then map[]
    else
      var v := s[|s| - 1];
      var m := CountMap(s[..|s| - 1]);
      assert s == s[..|s| - 1] + [v];
      m[v := (if v in m then m[v] else 0) + 1]
  }

  /** The first k left ids weighted by their count in the map, a missing id
      weighing 0. */
  function WeightedUpTo(left: seq<nat>, counts: map<nat, nat>, k: nat): nat
    requires k <= |left|
  {
    if k == 0 then 0
    else
      var l := left[k - 1];
      WeightedUpTo(left, counts, k - 1) + l * (if l in counts then counts[l] else 0)
  }

  /** `similarity_score`: fold the right list into a count map, then sum the
      weighted left ids. */
  function SimilarityScore(left: seq<nat>, right: seq<nat>): nat
  {
    WeightedUpTo(left, CountMap(right), |left|)
  }

  lemma {:induction false} WeightedUpToIsReference(left: seq<nat>, right: seq<nat>, k: nat)
    requires k <= |left|
    ensures WeightedUpTo(left, CountMap(right), k) == SimilarityUpTo(left, right, k)
  {
    if k > 0 {
      WeightedUpToIsReference(left, right, k - 1);
      if left[k - 1] !in CountMap(right) {
        assert left[k - 1] !in multiset(right);
      }
    }
  }

  /** The count-map computation equals the similarity as defined. */
  lemma {:induction false} SimilarityScoreIsReference(left: seq<nat>, right: seq<nat>)
    ensures SimilarityScore(left, right) == SimilarityReference(left, right)
  {
    WeightedUpToIsReference(left, right, |left|);
  }

  // ---------------------------------------------------------------------------
  // The two-index similarity
  // ---------------------------------------------------------------------------

  /** The outcome of the two-index computation: a score, or a slice index
      out of bounds (a panic in the source). */
  datatype Outcome = Completed(score: nat) | IndexOutOfBounds

  /** `similarity_score_optimized` as written. Its inner loops can move an
      index to the end of its list and then index the list there (the
      right-value skip after the left index has run off, and the unbounded
      counting loop). When it completes, its score is the similarity; it
      cannot complete unless the largest right id exceeds the largest left id;
      and it does complete when, besides, the largest left id occurs on the
      right (or both lists are empty). */
  method SimilarityScoreOptimizedAsWritten(left: seq<nat>, right: seq<nat>) returns (r: Outcome)
    requires IsSorted(left) && IsSorted(right) && |left| == |right|
    ensures r.Completed? ==> r.score == SimilarityReference(left, right)
    ensures r.Completed? && |left| > 0 ==> right[|right| - 1] > left[|left| - 1]
    ensures |left| == 0 || (left[|left| - 1] in right && right[|right| - 1] > left[|left| - 1]) ==> r.Completed?
  {
    var n := |left|;
    ghost var reach := n == 0 || (left[n - 1] in right && right[n - 1] > left[n - 1]);
    var lp, rp := 0, 0;
    var score: nat := 0;
    var cnt: nat := 0;
    var dup: nat := 1;
    while lp < n && rp < n
      invariant lp <= n && (rp < n || n == 0)
      invariant score == SimilarityUpTo(left, right, lp)
      invariant lp < n && rp > 0 ==> right[rp - 1] < left[lp]
      invariant lp > 0 ==> right[rp] > left[lp - 1]
      invariant cnt == 0 && dup == 1
      invariant reach && lp < n ==> right[rp] <= left[n - 1]
    {
      lp := SkipSmallerLeft(left, right, lp, rp);
      if lp == n {
        // the right-value skip reads left[left_ptr] with left_ptr == sz
        return IndexOutOfBounds;
      }
      var v := left[lp];
      rp := SkipSmallerRight(right, rp, v);
      ghost var runStart := lp;
      lp, dup := SkipLeftDuplicates(left, lp);
      ghost var rpStart := rp;
      rp, cnt := CountOnRight(right, rp, v);
      if reach {
        assert v <= left[n - 1];
        CountStopsInside(right, rpStart, rp, v, left[n - 1]);
      }
      if rp == n {
        // the counting loop reads right[right_ptr] with right_ptr == sz
        return IndexOutOfBounds;
      }
      RunScore(left, right, runStart, lp, rpStart, rp, v);
      score := score + dup * (v * cnt);
      dup := 1;
      cnt := 0;
      NextRunIsLarger(left, lp);
      if reach && lp + 1 < n {
        assert left[lp] < left[lp + 1] <= left[n - 1];
        LastLeftStillAhead(right, rp, v, left[n - 1]);
      }
      lp := lp + 1;
    }
    if n > 0 {
      assert right[rp] <= right[n - 1];
    }
    r := Completed(score);
  }

  /** `similarity_score_optimized` with the two missing bounds checks: the
      loop stops once the left index has run off the end, and the counting
      loop stops at the end of the right list. It computes the similarity of
      any two sorted lists of equal length. */
  method SimilarityScoreOptimized(left: seq<nat>, right: seq<nat>) returns (score: nat)
    requires IsSorted(left) && IsSorted(right) && |left| == |right|
    ensures score == SimilarityReference(left, right)
  {
    var n := |left|;
    var lp, rp := 0, 0;
    score := 0;
    var cnt: nat := 0;
    var dup: nat := 1;
    while lp < n && rp < n
      invariant lp <= n && rp <= n
      invariant score == SimilarityUpTo(left, right, lp)
      invariant lp < n && rp > 0 ==> right[rp - 1] < left[lp]
      invariant cnt == 0 && dup == 1
    {
      lp := SkipSmallerLeft(left, right, lp, rp);
      if lp == n {
        break;
      }
      var v := left[lp];
      rp := SkipSmallerRight(right, rp, v);
      ghost var runStart := lp;
      lp, dup := SkipLeftDuplicates(left, lp);
      ghost var rpStart := rp;
      rp, cnt := CountOnRight(right, rp, v);
      RunScore(left, right, runStart, lp, rpStart, rp, v);
      score := score + dup * (v * cnt);
      dup := 1;
      cnt := 0;
      NextRunIsLarger(left, lp);
      lp := lp + 1;
    }
    if lp < n {
      UnmatchedTail(left, right, lp);
    }
  }

  /** The first inner loop: skip the left ids below the current right id.
      The skipped ids occur nowhere on the right and add nothing. */
  method SkipSmallerLeft(left: seq<nat>, right: seq<nat>, lp0: nat, rp: nat) returns (lp: nat)
    requires IsSorted(left) && IsSorted(right) && lp0 <= |left| && rp < |right|
    requires lp0 < |left| && rp > 0 ==> right[rp - 1] < left[lp0]
    ensures lp0 <= lp <= |left|
    ensures lp < |left| ==> right[rp] <= left[lp]
    ensures lp < |left| && rp > 0 ==> right[rp - 1] < left[lp]
    ensures SimilarityUpTo(left, right, lp) == SimilarityUpTo(left, right, lp0)
    ensures lp == |left| && lp0 < |left| ==> left[|left| - 1] < right[rp]
  {
    lp := lp0;
    while lp < |left| && left[lp] < right[rp]
      invariant lp0 <= lp <= |left|
      invariant lp > lp0 ==> left[lp - 1] < right[rp]
      invariant SimilarityUpTo(left, right, lp) == SimilarityUpTo(left, right, lp0)
      invariant lp < |left| && rp > 0 ==> right[rp - 1] < left[lp]
    {
      SkippedLeftScoresNothing(left, right, lp, rp);
      lp := lp + 1;
    }
  }

  /** The second inner loop: skip the right ids below v. */
  method SkipSmallerRight(right: seq<nat>, rp0: nat, v: nat) returns (rp: nat)
    requires rp0 <= |right| && (rp0 > 0 ==> right[rp0 - 1] < v)
    ensures rp0 <= rp <= |right|
    ensures rp > 0 ==> right[rp - 1] < v
    ensures rp < |right| ==> v <= right[rp]
  {
    rp := rp0;
    while rp < |right| && right[rp] < v
      invariant rp0 <= rp <= |right|
      invariant rp > 0 ==> right[rp - 1] < v
    {
      rp := rp + 1;
    }
  }

  /** The third inner loop: move to the last of the left ids equal to
      `left[lp0]`, counting them. */
  method SkipLeftDuplicates(left: seq<nat>, lp0: nat) returns (lp: nat, dup: nat)
    requires lp0 < |left|
    ensures lp0 <= lp < |left| && dup == lp - lp0 + 1
    ensures forall i :: lp0 <= i <= lp ==> left[i] == left[lp0]
    ensures lp + 1 < |left| ==> left[lp] != left[lp + 1]
  {
    lp, dup := lp0, 1;
    while lp + 1 < |left| && left[lp] == left[lp + 1]
      invariant lp0 <= lp < |left| && dup == lp - lp0 + 1
      invariant forall i :: lp0 <= i <= lp ==> left[i] == left[lp0]
    {
      lp := lp + 1;
      dup := dup + 1;
    }
  }

  /** The counting loop, stopped at the end of the right list: the right
      ids equal to v from `rp0` on, counted. */
  method CountOnRight(right: seq<nat>, rp0: nat, v: nat) returns (rp: nat, cnt: nat)
    requires IsSorted(right) && rp0 <= |right| && (rp0 < |right| ==> v <= right[rp0])
    ensures rp0 <= rp <= |right| && cnt == rp - rp0
    ensures forall i :: rp0 <= i < rp ==> right[i] == v
    ensures rp < |right| ==> v < right[rp]
  {
    rp, cnt := rp0, 0;
    while rp < |right| && v == right[rp]
      invariant rp0 <= rp <= |right| && cnt == rp - rp0
      invariant forall i :: rp0 <= i < rp ==> right[i] == v
      invariant rp < |right| ==> v <= right[rp]
    {
      cnt := cnt + 1;
      rp := rp + 1;
    }
  }

  // ---------------------------------------------------------------------------
  // Lemmas behind the two-index proofs
  // ---------------------------------------------------------------------------

  /** In a sorted list, a value above the last id before `rp` and below the
      id at `rp` does not occur. */
  lemma {:induction false} AbsentBetween(right: seq<nat>, rp: nat, v: nat)
    requires IsSorted(right) && rp <= |right|
    requires rp > 0 ==> right[rp - 1] < v
    requires rp < |right| ==> v < right[rp]
    ensures multiset(right)[v] == 0
  {
    forall j | 0 <= j < |right|
      ensures right[j] != v
    {
      if j < rp {
        assert right[j] <= right[rp - 1];
      } else {
        assert right[rp] <= right[j];
      }
    }
    assert v !in right;
  }

  /** A left id below right[rp] that exceeds the right id before rp scores
      nothing, so the skip over it leaves the score unchanged. */
  lemma {:induction false} SkippedLeftScoresNothing(left: seq<nat>, right: seq<nat>, lp: nat, rp: nat)
    requires IsSorted(left) && IsSorted(right) && lp < |left| && rp < |right|
    requires left[lp] < right[rp]
    requires rp > 0 ==> right[rp - 1] < left[lp]
    ensures SimilarityUpTo(left, right, lp + 1) == SimilarityUpTo(left, right, lp)
    ensures lp + 1 < |left| && rp > 0 ==> right[rp - 1] < left[lp + 1]
  {
    AbsentBetween(right, rp, left[lp]);
    if lp + 1 < |left| {
      assert left[lp] <= left[lp + 1];
    }
  }

  /** The counting loop for a value v no larger than an id L that occurs on
      the right, below the last right id, stops inside the right list. */
  lemma {:induction false} CountStopsInside(right: seq<nat>, rp0: nat, rp: nat, v: nat, bound: nat)
    requires IsSorted(right) && rp0 <= rp <= |right|
    requires rp0 > 0 ==> right[rp0 - 1] < v
    requires forall i :: rp0 <= i < rp ==> right[i] == v
    requires v <= bound && bound in right && right[|right| - 1] > bound
    ensures rp < |right|
  {
    assert right[|right| - 1] > v;
  }

  /** After counting v, the right index still sits at or before every
      occurrence of a larger id that occurs on the right. */
  lemma {:induction false} LastLeftStillAhead(right: seq<nat>, rp: nat, v: nat, bound: nat)
    requires IsSorted(right) && rp < |right|
    requires rp > 0 ==> right[rp - 1] <= v
    requires v < bound && bound in right
    ensures right[rp] <= bound
  {
    var j :| 0 <= j < |right| && right[j] == bound;
    assert forall i :: 0 <= i < rp ==> right[i] <= right[rp - 1] < bound;
    assert rp <= j;
  }

  /** After a run of equal left ids ends at lp, the next left id is larger. */
  lemma {:induction false} NextRunIsLarger(left: seq<nat>, lp: nat)
    requires IsSorted(left) && lp < |left|
    requires lp + 1 < |left| ==> left[lp] != left[lp + 1]
    ensures lp + 1 < |left| ==> left[lp] < left[lp + 1]
  {
    if lp + 1 < |left| {
      assert left[lp] <= left[lp + 1];
    }
  }

  /** A block right[a..b] of copies of v in a sorted list, with a smaller id
      before it and a larger id after it, holds every occurrence of v. */
  lemma {:induction false} CountBlock(right: seq<nat>, a: nat, b: nat, v: nat)
    requires IsSorted(right) && a <= b <= |right|
    requires a > 0 ==> right[a - 1] < v
    requires a < |right| ==> right[a] >= v
    requires b > a ==> right[b - 1] == v
    requires b < |right| ==> right[b] > v
    ensures multiset(right)[v] == b - a
  {
    SplitCount(right, a, b, v);
    BelowAbsent(right, a, v);
    AboveAbsent(right, b, v);
    BlockIsCopies(right, a, b, v);
  }

  lemma {:induction false} SplitCount(right: seq<nat>, a: nat, b: nat, v: nat)
    requires a <= b <= |right|
    ensures multiset(right)[v] == multiset(right[..a])[v] + multiset(right[a..b])[v] + multiset(right[b..])[v]
  {
    assert right == right[..a] + right[a..b] + right[b..];
  }

  lemma {:induction false} BlockIsCopies(right: seq<nat>, a: nat, b: nat, v: nat)
    requires IsSorted(right) && a <= b <= |right|
    requires a < |right| ==> right[a] >= v
    requires b > a ==> right[b - 1] == v
    ensures multiset(right[a..b])[v] == b - a
  {
    var block := right[a..b];
    forall j | 0 <= j < |block|
      ensures block[j] == v
    {
      assert block[j] == right[a + j];
      assert right[a] <= right[a + j] <= right[b - 1];
    }
    BlockCount(block, v);
  }

  lemma {:induction false} BelowAbsent(right: seq<nat>, a: nat, v: nat)
    requires IsSorted(right) && a <= |right|
    requires a > 0 ==> right[a - 1] < v
    ensures multiset(right[..a])[v] == 0
  {
    forall j | 0 <= j < a
      ensures right[..a][j] != v
    {
      assert right[j] <= right[a - 1];
    }
    assert v !in right[..a];
  }

  lemma {:induction false} AboveAbsent(right: seq<nat>, b: nat, v: nat)
    requires IsSorted(right) && b <= |right|
    requires b < |right| ==> right[b] > v
    ensures multiset(right[b..])[v] == 0
  {
    var tail := right[b..];
    forall j | 0 <= j < |tail|
      ensures tail[j] != v
    {
      assert tail[j] == right[b + j];
      assert right[b] <= right[b + j];
    }
    assert v !in tail;
  }

  lemma {:induction false} BlockCount(s: seq<nat>, v: nat)
    requires forall j :: 0 <= j < |s| ==> s[j] == v
    ensures multiset(s)[v] == |s|
  {
    if s != [] {
      BlockCount(s[1..], v);
      assert s == [s[0]] + s[1..];
    }
  }

  /** The run of equal left ids left[runStart..lp] (inclusive) scores its
      size times the id times the id's count on the right, which the
      counting loop found as the block right[rpStart..rp]. */
  lemma {:induction false} RunScore(left: seq<nat>, right: seq<nat>, runStart: nat, lp: nat, rpStart: nat, rp: nat, v: nat)
    requires IsSorted(left) && IsSorted(right)
    requires runStart <= lp < |left| && rpStart <= rp <= |right|
    requires left[runStart] == v && left[lp] == v
    requires rpStart > 0 ==> right[rpStart - 1] < v
    requires rp > rpStart ==> right[rp - 1] == v
    requires rpStart < |right| ==> right[rpStart] >= v
    requires rp < |right| ==> right[rp] >= v && right[rp] != v
    ensures SimilarityUpTo(left, right, lp + 1)
            == SimilarityUpTo(left, right, runStart) + (lp - runStart + 1) * (v * (rp - rpStart))
    ensures rp < |right| ==> right[rp] > v
    ensures rp > 0 ==> right[rp - 1] <= v
  {
    CountBlock(right, rpStart, rp, v);
    forall i | runStart <= i < lp + 1
      ensures left[i] == v
    {
      assert left[runStart] <= left[i] <= left[lp];
    }
    RunPrefix(left, right, runStart, lp + 1, v);
  }

  lemma {:induction false} RunPrefix(left: seq<nat>, right: seq<nat>, a: nat, b: nat, v: nat)
    requires a <= b <= |left|
    requires forall i :: a <= i < b ==> left[i] == v
    ensures SimilarityUpTo(left, right, b)
            == SimilarityUpTo(left, right, a) + (b - a) * (v * multiset(right)[v])
    decreases b - a
  {
    if b > a {
      var w := v * multiset(right)[v];
      RunPrefix(left, right, a, b - 1, v);
      assert (b - a) * w == (b - 1 - a) * w + w;
    }
  }

  /** Left ids above every right id score nothing. */
  lemma {:induction false} UnmatchedTail(left: seq<nat>, right: seq<nat>, lp: nat)
    requires IsSorted(left) && IsSorted(right) && lp < |left|
    requires |right| > 0 ==> right[|right| - 1] < left[lp]
    ensures SimilarityReference(left, right) == SimilarityUpTo(left, right, lp)
  {
    UnmatchedFrom(left, right, lp, |left|);
  }

  lemma {:induction false} UnmatchedFrom(left: seq<nat>, right: seq<nat>, lp: nat, k: nat)
    requires IsSorted(left) && IsSorted(right) && lp <= k <= |left| && lp < |left|
    requires |right| > 0 ==> right[|right| - 1] < left[lp]
    ensures SimilarityUpTo(left, right, k) == SimilarityUpTo(left, right, lp)
    decreases k
  {
    if k > lp {
      UnmatchedFrom(left, right, lp, k - 1);
      assert left[lp] <= left[k - 1];
      AbsentBetween(right, |right|, left[k - 1]);
    }
  }

  // ---------------------------------------------------------------------------
  // The sample lists
  // ---------------------------------------------------------------------------

  /** A line of the test input after the first: a line feed, eight spaces
      of indentation, and two ids separated by a space. */
  function IndentedLine(a: string, b: string): string
  {
    "\n        " + a + " " + b
  }

  /** Lines after the first, one per pair of ids. */
  function IndentedLines(pairs: seq<(string, string)>): string
  {
    if pairs == [] then [] else IndentedLine(pairs[0].0, pairs[0].1) + IndentedLines(pairs[1..])
  }

  /** The ids of pairs, in order. */
  function Flatten(pairs: seq<(string, string)>): seq<string>
  {
    if pairs == [] then [] else [pairs[0].0, pairs[0].1] + Flatten(pairs[1..])
  }

  /** The pairs after the first line of the test input. */
  const SampleIndentedPairs: seq<(string, string)> := [("4", "3"), ("2", "5"), ("1", "3"), ("3", "9"), ("3", "3")]

  /** The test input of `get_location_data`: the first line "3   4", then
      the indented lines "4 3", "2 5", "1 3", "3 9" and "3 3". */
  const SampleText: string := "3   4" + IndentedLines(SampleIndentedPairs)

  /** One line of the input: whitespace, an id, whitespace, an id, then the
      rest of the text, which starts with whitespace or is empty. */
  lemma {:induction false} LineTokens(w: string, a: string, g: string, b: string, rest: string)
    requires Text.AllWhitespace(w) && Text.IsToken(a) && Text.AllWhitespace(g) && g != [] && Text.IsToken(b)
    requires rest == [] || Text.IsWhitespace(rest[0])
    ensures Text.SplitWhitespace(w + a + g + b + rest) == [a, b] + Text.SplitWhitespace(rest)
  {
    assert w + a + g + b + rest == w + (a + (g + (b + rest)));
    Text.SplitWhitespaceToken(b, rest);
    Text.SplitWhitespaceSkip(g, b + rest);
    assert (g + (b + rest))[0] == g[0];
    Text.SplitWhitespaceToken(a, g + (b + rest));
    Text.SplitWhitespaceSkip(w, a + (g + (b + rest)));
  }

  /** An indented line yields its two ids as tokens, and the text after it
      starts with its line feed. */
  lemma {:induction false} IndentedLineTokens(a: string, b: string, rest: string)
    requires Text.IsToken(a) && Text.IsToken(b)
    requires rest == [] || Text.IsWhitespace(rest[0])
    ensures Text.SplitWhitespace(IndentedLine(a, b) + rest) == [a, b] + Text.SplitWhitespace(rest)
    ensures (IndentedLine(a, b) + rest)[0] == '\n'
  {
    var indent := "\n        ";
    assert Text.AllWhitespace(indent) by {
      assert forall k :: 0 <= k < |indent| ==> indent[k] == '\n' || indent[k] == ' ';
    }
    assert Text.AllWhitespace(" ") by {
      assert " "[0] == ' ';
    }
    LineTokens(indent, a, " ", b, rest);
  }

  /** Indented lines of ids yield their ids as tokens, in order. */
  lemma {:induction false} IndentedLinesTokens(pairs: seq<(string, string)>)
    requires forall k :: 0 <= k < |pairs| ==> Text.IsToken(pairs[k].0) && Text.IsToken(pairs[k].1)
    ensures Text.SplitWhitespace(IndentedLines(pairs)) == Flatten(pairs)
    ensures IndentedLines(pairs) == [] || IndentedLines(pairs)[0] == '\n'
    decreases |pairs|
  {
    if pairs != [] {
      var rest := IndentedLines(pairs[1..]);
      IndentedLinesTokens(pairs[1..]);
      IndentedLineTokens(pairs[0].0, pairs[0].1, rest);
    } else {
      assert Text.SplitWhitespace([]) == [];
    }
  }

  /** Taking flattened pairs two at a time gives the pairs back. */
  lemma {:induction false} PairsFlatten(pairs: seq<(string, string)>)
    ensures Pairs(Flatten(pairs)) == pairs
    decreases |pairs|
  {
    if pairs != [] {
      PairsFlatten(pairs[1..]);
      var f := Flatten(pairs);
      assert f[2..] == Flatten(pairs[1..]);
      assert Pairs(f) == [(f[0], f[1])] + Pairs(f[2..]);
    }
  }

  /** The first line of the test input: two ids three spaces apart. */
  lemma {:induction false} FirstLineTokens(rest: string)
    requires rest == [] || Text.IsWhitespace(rest[0])
    ensures Text.SplitWhitespace("3   4" + rest) == ["3", "4"] + Text.SplitWhitespace(rest)
  {
    var gap := "   ";
    assert Text.AllWhitespace(gap) by {
      assert gap[0] == gap[1] == gap[2] == ' ';
    }
    LineTokens("", "3", gap, "4", rest);
    assert "3   4" == "" + "3" + gap + "4";
  }

  /** The id pairs of the test input: (3, 4) from the first line, then one
      pair per indented line. */
  lemma {:induction false} SamplePairs()
    ensures IdPairs(SampleText) == [("3", "4")] + SampleIndentedPairs
  {
    var pairs := SampleIndentedPairs;
    assert forall k :: 0 <= k < |pairs| ==> Text.IsToken(pairs[k].0) && Text.IsToken(pairs[k].1);
    IndentedLinesTokens(pairs);
    FirstLineTokens(IndentedLines(pairs));
    PairsFlatten([("3", "4")] + pairs);
    assert Flatten([("3", "4")] + pairs) == ["3", "4"] + Flatten(pairs) by {
      assert ([("3", "4")] + pairs)[1..] == pairs;
    }
  }

  /** The ids of the test input that occur in it. */
  lemma {:induction false} SampleDigits()
    ensures Text.ParseUsize("1") == Some(1) && Text.ParseUsize("2") == Some(2) && Text.ParseUsize("3") == Some(3)
    ensures Text.ParseUsize("4") == Some(4) && Text.ParseUsize("5") == Some(5) && Text.ParseUsize("9") == Some(9)
  {
    Text.DigitParses('1', false, 0, Text.USIZE_MAX);
    Text.DigitParses('2', false, 0, Text.USIZE_MAX);
    Text.DigitParses('3', false, 0, Text.USIZE_MAX);
    Text.DigitParses('4', false, 0, Text.USIZE_MAX);
    Text.DigitParses('5', false, 0, Text.USIZE_MAX);
    Text.DigitParses('9', false, 0, Text.USIZE_MAX);
  }

  /** Every id of the test input parses. */
  lemma {:induction false} SampleIdsParse(pairs: seq<(string, string)>)
    requires pairs == [("3", "4")] + SampleIndentedPairs
    ensures forall k :: 0 <= k < |pairs| ==> PairParses(pairs[k])
  {
    SampleDigits();
  }

  /** The left ids of the test input, unsorted. */
  lemma {:induction false} SampleLeftIds(pairs: seq<(string, string)>)
    requires pairs == [("3", "4")] + SampleIndentedPairs
    requires forall k :: 0 <= k < |pairs| ==> PairParses(pairs[k])
    ensures ParsedIds(pairs, 0) == [3, 4, 2, 1, 3, 3]
  {
    SampleDigits();
  }

  /** The right ids of the test input, unsorted. */
  lemma {:induction false} SampleRightIds(pairs: seq<(string, string)>)
    requires pairs == [("3", "4")] + SampleIndentedPairs
    requires forall k :: 0 <= k < |pairs| ==> PairParses(pairs[k])
    ensures ParsedIds(pairs, 1) == [4, 3, 5, 3, 9, 3]
  {
    SampleDigits();
  }

  /** `get_location_data` on the test input gives the two sorted lists of
      the test. */
  method SampleLocationData() returns (r: Result<SortedLocationData>)
    ensures r == Ok(SortedLocationData([1, 2, 3, 3, 3, 4], [3, 3, 3, 4, 5, 9]))
  {
    var pairs := IdPairs(SampleText);
    SamplePairs();
    SampleIdsParse(pairs);
    SampleLeftIds(pairs);
    SampleRightIds(pairs);
    r := GetLocationData(SampleText);
    SampleSorted(r.value.left, r.value.right);
  }

  /** The sorted permutations of the two unsorted sample lists. */
  lemma {:induction false} SampleSorted(left: seq<nat>, right: seq<nat>)
    requires IsSorted(left) && multiset(left) == multiset([3, 4, 2, 1, 3, 3])
    requires IsSorted(right) && multiset(right) == multiset([4, 3, 5, 3, 9, 3])
    ensures left == [1, 2, 3, 3, 3, 4] && right == [3, 3, 3, 4, 5, 9]
  {
    SampleListsSorted();
    SampleLeftMultiset();
    SampleRightMultiset();
    SortedUnique(left, [1, 2, 3, 3, 3, 4]);
    SortedUnique(right, [3, 3, 3, 4, 5, 9]);
  }

  lemma {:induction false} SampleListsSorted()
    ensures IsSorted([1, 2, 3, 3, 3, 4]) && IsSorted([3, 3, 3, 4, 5, 9])
  {
  }

  lemma {:induction false} SampleLeftMultiset()
    ensures multiset([3, 4, 2, 1, 3, 3]) == multiset([1, 2, 3, 3, 3, 4])
  {
    assert multiset([3, 4, 2, 1, 3, 3]) == multiset{3, 4, 2, 1, 3, 3};
    assert multiset([1, 2, 3, 3, 3, 4]) == multiset{1, 2, 3, 3, 3, 4};
  }

  lemma {:induction false} SampleRightMultiset()
    ensures multiset([4, 3, 5, 3, 9, 3]) == multiset([3, 3, 3, 4, 5, 9])
  {
    assert multiset([4, 3, 5, 3, 9, 3]) == multiset{4, 3, 5, 3, 9, 3};
    assert multiset([3, 3, 3, 4, 5, 9]) == multiset{3, 3, 3, 4, 5, 9};
  }

  /** The sorted sample lists are 11 apart and have similarity 31. */
  lemma {:induction false} SampleScores()
    ensures SumOfDiffs([1, 2, 3, 3, 3, 4], [3, 3, 3, 4, 5, 9]) == 11
    ensures SimilarityReference([1, 2, 3, 3, 3, 4], [3, 3, 3, 4, 5, 9]) == 31
  {
    var r := [3, 3, 3, 4, 5, 9];
    assert multiset(r)[1] == 0 && multiset(r)[2] == 0;
    assert multiset(r)[3] == 3 && multiset(r)[4] == 1;
  }

  /** The corrected two-index method scores the sample 31. */
  method SampleSimilarityOptimized() returns (score: nat)
    ensures score == 31
  {
    SampleScores();
    score := SimilarityScoreOptimized([1, 2, 3, 3, 3, 4], [3, 3, 3, 4, 5, 9]);
  }

  /** The method as written also scores the sample 31: its largest left id,
      4, occurs on the right, whose largest id is 9. */
  method SampleSimilarityOptimizedAsWritten() returns (r: Outcome)
    ensures r == Completed(31)
  {
    SampleScores();
    assert 4 in [3, 3, 3, 4, 5, 9];
    r := SimilarityScoreOptimizedAsWritten([1, 2, 3, 3, 3, 4], [3, 3, 3, 4, 5, 9]);
  }

  /** The method as written fails on the one-pair input [1] / [1], whose
      similarity is 1: the counting loop runs past the end of the right list. */
  method OptimizedAsWrittenFailsOnSinglePair() returns (r: Outcome)
    ensures r == IndexOutOfBounds
    ensures SimilarityReference([1], [1]) == 1
  {
    r := SimilarityScoreOptimizedAsWritten([1], [1]);
  }
}
