/**
 * Closed time intervals and the merge that both the backend
 * (`mergeAttendanceSegments`) and the frontend (`mergeIntervals`,
 * `mergeWorkSegments`) perform: sort by start, then fold every interval that
 * starts no later than the running end into the previous one. The union of a
 * list is the set of real instants it covers.
 */
module Intervals {
  import opened Sorting

  datatype Interval = Interval(start: int, end: int)

  function Length(iv: Interval): int { iv.end - iv.start }

  /** The sum of the lengths of the intervals of a list (overlaps counted twice). */
  function TotalLength(s: seq<Interval>): int { SumOf(s, Length) }

  function StartKey(iv: Interval): real { iv.start as real }

  predicate Proper(iv: Interval) { iv.start < iv.end }

  predicate AllProper(s: seq<Interval>)
  {
    forall k :: 0 <= k < |s| ==> Proper(s[k])
  }

  /** The instant `p` lies in the closed interval. */
  predicate In(iv: Interval, p: real)
  {
    iv.start as real <= p <= iv.end as real
  }

  ghost predicate Covers(s: seq<Interval>, p: real)
  {
    exists k :: 0 <= k < |s| && In(s[k], p)
  }

  ghost predicate SameUnion(a: seq<Interval>, b: seq<Interval>)
  {
    forall p: real :: Covers(a, p) <==> Covers(b, p)
  }

  ghost predicate StartsSorted(s: seq<Interval>)
  {
    forall i, j :: 0 <= i < j < |s| ==> s[i].start <= s[j].start
  }

  /** Every interval ends strictly before any later one starts. */
  ghost predicate Separated(s: seq<Interval>)
  {
    forall i, j :: 0 <= i < j < |s| ==> s[i].end < s[j].start
  }

  /** The normal form of a union: non-empty intervals, in order, with gaps between them. */
  ghost predicate Canonical(s: seq<Interval>)
  {
    AllProper(s) && Separated(s)
  }

  lemma {:induction false} CoversSnoc(s: seq<Interval>, x: Interval, p: real)
    ensures Covers(s + [x], p) <==> Covers(s, p) || In(x, p)
  {
    if Covers(s, p) {
      var k :| 0 <= k < |s| && In(s[k], p);
      assert (s + [x])[k] == s[k];
    }
    if In(x, p) {
      assert (s + [x])[|s|] == x;
    }
    if Covers(s + [x], p) {
      var k :| 0 <= k < |s + [x]| && In((s + [x])[k], p);
      if k < |s| {
        assert (s + [x])[k] == s[k];
      }
    }
  }

  lemma {:induction false} CoversPrefix(s: seq<Interval>, i: nat, p: real)
    requires i < |s|
    ensures Covers(s[..i + 1], p) <==> Covers(s[..i], p) || In(s[i], p)
  {
    assert s[..i + 1] == s[..i] + [s[i]];
    CoversSnoc(s[..i], s[i], p);
  }

  lemma {:induction false} CoversReplaceLast(s: seq<Interval>, x: Interval, p: real)
    requires s != []
    ensures Covers(s[..|s| - 1] + [x], p) <==> Covers(s[..|s| - 1], p) || In(x, p)
    ensures Covers(s, p) <==> Covers(s[..|s| - 1], p) || In(s[|s| - 1], p)
  {
    CoversSnoc(s[..|s| - 1], x, p);
    CoversSnoc(s[..|s| - 1], s[|s| - 1], p);
    assert s[..|s| - 1] + [s[|s| - 1]] == s;
  }

  lemma {:induction false} CoversPermutation(a: seq<Interval>, b: seq<Interval>)
    requires multiset(a) == multiset(b)
    ensures SameUnion(a, b)
  {
    forall p: real | Covers(a, p)
      ensures Covers(b, p)
    {
      var k :| 0 <= k < |a| && In(a[k], p);
      assert a[k] in multiset(b);
      var m :| 0 <= m < |b| && b[m] == a[k];
    }
    forall p: real | Covers(b, p)
      ensures Covers(a, p)
    {
      var k :| 0 <= k < |b| && In(b[k], p);
      assert b[k] in multiset(a);
      var m :| 0 <= m < |a| && a[m] == b[k];
    }
  }

  lemma {:induction false} TotalLengthSnoc(s: seq<Interval>, x: Interval)
    ensures TotalLength(s + [x]) == TotalLength(s) + Length(x)
  {
    SumOfAppend(s, [x], Length);
    assert SumOf([x], Length) == Length(x) + SumOf([x][1..], Length);
    assert [x][1..] == [];
  }

  /** The one interval of `merged` that can still grow, replaced by `x`. */
  function ReplaceLast(merged: seq<Interval>, x: Interval): (r: seq<Interval>)
    requires merged != []
    ensures |r| == |merged| && r[..|r| - 1] == merged[..|merged| - 1] && r[|r| - 1] == x
  {
    merged[..|merged| - 1] + [x]
  }

  /** What holds after the first `i` sorted intervals have been folded into `merged`. */
  ghost predicate MergeInv(merged: seq<Interval>, sorted: seq<Interval>, i: nat, canonicalInput: bool)
  {
    && 1 <= i <= |sorted|
    && 1 <= |merged| <= i
    && StartsSorted(merged) && Separated(merged)
    && merged[|merged| - 1].start <= sorted[i - 1].start
    && SameUnion(merged, sorted[..i])
    && (AllProper(sorted) ==> AllProper(merged) && TotalLength(merged) <= TotalLength(sorted[..i]))
    && (canonicalInput ==> merged == sorted[..i])
  }

  function Grow(last: Interval, current: Interval): Interval
  {
    Interval(last.start, if current.end > last.end then current.end else last.end)
  }

  lemma {:induction false} MergeInit(sorted: seq<Interval>, canonicalInput: bool)
    requires sorted != []
    ensures MergeInv([sorted[0]], sorted, 1, canonicalInput)
  {
    assert sorted[..1] == [sorted[0]];
    assert [sorted[0]][1..] == [];
    assert TotalLength([sorted[0]]) == Length(sorted[0]) + TotalLength([]);
  }

  lemma {:induction false} AbsorbStep(merged: seq<Interval>, sorted: seq<Interval>, i: nat, canonicalInput: bool)
    requires MergeInv(merged, sorted, i, canonicalInput) && i < |sorted|
    requires StartsSorted(sorted) && !canonicalInput
    requires sorted[i].start <= merged[|merged| - 1].end
    ensures MergeInv(ReplaceLast(merged, Grow(merged[|merged| - 1], sorted[i])), sorted, i + 1, canonicalInput)
  {
    var last := merged[|merged| - 1];
    var current := sorted[i];
    var grown := Grow(last, current);
    var next := ReplaceLast(merged, grown);
    assert last.start <= current.start;
    forall p: real
      ensures Covers(next, p) <==> Covers(sorted[..i + 1], p)
    {
      CoversReplaceLast(merged, grown, p);
      CoversPrefix(sorted, i, p);
    }
    if AllProper(sorted) {
      assert Proper(current);
      TotalLengthSnoc(merged[..|merged| - 1], grown);
      TotalLengthSnoc(merged[..|merged| - 1], last);
      assert merged[..|merged| - 1] + [last] == merged;
      assert sorted[..i + 1] == sorted[..i] + [current];
      TotalLengthSnoc(sorted[..i], current);
    }
  }

  lemma {:induction false} PushStep(merged: seq<Interval>, sorted: seq<Interval>, i: nat, canonicalInput: bool)
    requires MergeInv(merged, sorted, i, canonicalInput) && i < |sorted|
    requires StartsSorted(sorted)
    requires sorted[i].start > merged[|merged| - 1].end
    ensures MergeInv(merged + [sorted[i]], sorted, i + 1, canonicalInput)
  {
    var current := sorted[i];
    var next := merged + [current];
    forall p: real
      ensures Covers(next, p) <==> Covers(sorted[..i + 1], p)
    {
      CoversSnoc(merged, current, p);
      CoversPrefix(sorted, i, p);
    }
    assert sorted[..i + 1] == sorted[..i] + [current];
    if AllProper(sorted) {
      TotalLengthSnoc(merged, current);
      TotalLengthSnoc(sorted[..i], current);
    }
  }

  /** The sweep of `mergeIntervals` over intervals already ordered by start. */
  method MergeSorted(sorted: seq<Interval>, ghost canonicalInput: bool) returns (merged: seq<Interval>)
    requires sorted != [] && StartsSorted(sorted)
    requires canonicalInput ==> Separated(sorted)
    ensures MergeInv(merged, sorted, |sorted|, canonicalInput)
  {
    merged := [sorted[0]];
    MergeInit(sorted, canonicalInput);
    var i := 1;
    while i < |sorted|
      invariant MergeInv(merged, sorted, i, canonicalInput)
    {
      if sorted[i].start <= merged[|merged| - 1].end {
        assert !canonicalInput;
        AbsorbStep(merged, sorted, i, canonicalInput);
        merged := ReplaceLast(merged, Grow(merged[|merged| - 1], sorted[i]));
      } else {
        PushStep(merged, sorted, i, canonicalInput);
        merged := merged + [sorted[i]];
      }
      i := i + 1;
    }
  }

  /**
   * `mergeIntervals` / `mergeAttendanceSegments`: the union of `intervals`
   * as a sorted list of separated intervals.
   */
  method MergeIntervals(intervals: seq<Interval>) returns (merged: seq<Interval>)
    ensures StartsSorted(merged) && Separated(merged)
    ensures SameUnion(merged, intervals)
    ensures |merged| <= |intervals| && (merged == [] <==> intervals == [])
    ensures AllProper(intervals) ==> Canonical(merged)
    ensures AllProper(intervals) ==> TotalLength(merged) <= TotalLength(intervals)
    ensures StartsSorted(intervals) && Separated(intervals) ==> merged == intervals
  {
    if |intervals| == 0 {
      return [];
    }
    var sorted := SortBy(intervals, StartKey);
    SortedFacts(intervals);
    ghost var canonicalInput := StartsSorted(intervals) && Separated(intervals);
    if canonicalInput {
      SortBySorted(intervals, StartKey);
    }
    merged := MergeSorted(sorted, canonicalInput);
    assert sorted[..|sorted|] == sorted;
  }

  lemma {:induction false} SortedFacts(intervals: seq<Interval>)
    ensures SameUnion(SortBy(intervals, StartKey), intervals)
    ensures StartsSorted(SortBy(intervals, StartKey))
    ensures AllProper(intervals) ==> AllProper(SortBy(intervals, StartKey))
    ensures TotalLength(SortBy(intervals, StartKey)) == TotalLength(intervals)
  {
    var sorted := SortBy(intervals, StartKey);
    CoversPermutation(sorted, intervals);
    if AllProper(intervals) {
      forall k | 0 <= k < |sorted|
        ensures Proper(sorted[k])
      {
        assert sorted[k] in multiset(intervals);
      }
    }
    SumOfSortBy(intervals, StartKey, Length);
  }

  /** The non-empty intervals of `s`, in their original order. */
  function ProperOnly(s: seq<Interval>): (r: seq<Interval>)
    ensures AllProper(r) && |r| <= |s|
    ensures forall x :: x in r <==> x in s && Proper(x)
  {
    if s == [] then []
    else if Proper(s[0]) then [s[0]] + ProperOnly(s[1..])
    else ProperOnly(s[1..])
  }

  lemma {:induction false} ProperOnlyCovers(s: seq<Interval>, p: real)
    ensures Covers(ProperOnly(s), p) <==> exists k :: 0 <= k < |s| && Proper(s[k]) && In(s[k], p)
  {
    var r := ProperOnly(s);
    if Covers(r, p) {
      var k :| 0 <= k < |r| && In(r[k], p);
      assert r[k] in s;
    }
    if exists k :: 0 <= k < |s| && Proper(s[k]) && In(s[k], p) {
      var k :| 0 <= k < |s| && Proper(s[k]) && In(s[k], p);
      assert s[k] in r;
    }
  }

  /**
   * `mergeWorkSegments`: drop the segments that do not end after they start,
   * then merge the rest.
   */
  method MergeWorkSegments(segments: seq<Interval>) returns (merged: seq<Interval>)
    ensures Canonical(merged)
    ensures forall p: real :: Covers(merged, p) <==>
      exists k :: 0 <= k < |segments| && Proper(segments[k]) && In(segments[k], p)
    ensures TotalLength(merged) <= TotalLength(ProperOnly(segments))
    ensures Canonical(segments) ==> merged == segments
  {
    var kept := ProperOnly(segments);
    if Canonical(segments) {
      ProperOnlyAll(segments);
    }
    merged := MergeIntervals(kept);
    forall p: real
      ensures Covers(merged, p) <==> exists k :: 0 <= k < |segments| && Proper(segments[k]) && In(segments[k], p)
    {
      ProperOnlyCovers(segments, p);
    }
  }

  lemma {:induction false} ProperOnlyAll(s: seq<Interval>)
    requires AllProper(s)
    ensures ProperOnly(s) == s
  {
    if s != [] {
      assert Proper(s[0]);
      ProperOnlyAll(s[1..]);
      assert [s[0]] + s[1..] == s;
    }
  }

  function Max(a: int, b: int): int { if a >= b then a else b }

  /**
   * The idle gaps that the cursor walk of `buildCombinedReport` emits for the
   * work list `work`, starting with the cursor at `cursor` and closing at
   * `windowEnd`.
   */
  function Gaps(work: seq<Interval>, cursor: int, windowEnd: int): seq<Interval>
  {
    if work == [] then
      (if cursor < windowEnd then [Interval(cursor, windowEnd)] else [])
    else
      (if work[0].start > cursor then [Interval(cursor, work[0].start)] else [])
      + Gaps(work[1..], Max(cursor, work[0].end), windowEnd)
  }

  /**
   * The idle segments of one operator in `buildCombinedReport`: a cursor that
   * starts at the window start walks the merged work, emitting the gap before
   * each work interval that starts past it, then the tail up to the window end.
   */
  method IdleSegments(work: seq<Interval>, windowStart: int, windowEnd: int) returns (idle: seq<Interval>)
    ensures idle == Gaps(work, windowStart, windowEnd)
  {
    idle := [];
    var cursor := windowStart;
    var i := 0;
    while i < |work|
      invariant 0 <= i <= |work|
      invariant idle + Gaps(work[i..], cursor, windowEnd) == Gaps(work, windowStart, windowEnd)
    {
      GapsWalk(work, windowStart, windowEnd, i, idle, cursor);
      if work[i].start > cursor {
        idle := idle + [Interval(cursor, work[i].start)];
      }
      cursor := Max(cursor, work[i].end);
      i := i + 1;
    }
    if cursor < windowEnd {
      idle := idle + [Interval(cursor, windowEnd)];
    }
  }

  /** Walking past one work interval emits at most the gap before it. */
  lemma {:induction false} GapsAt(work: seq<Interval>, i: nat, cursor: int, windowEnd: int)
    requires i < |work|
    ensures Gaps(work[i..], cursor, windowEnd)
      == (if work[i].start > cursor then [Interval(cursor, work[i].start)] else [])
         + Gaps(work[i + 1..], Max(cursor, work[i].end), windowEnd)
  {
    assert work[i..][1..] == work[i + 1..];
  }

  /** The loop invariant of `IdleSegments` survives one work interval. */
  lemma {:induction false} GapsWalk(work: seq<Interval>, windowStart: int, windowEnd: int, i: nat, idle: seq<Interval>, cursor: int)
    requires i < |work|
    requires idle + Gaps(work[i..], cursor, windowEnd) == Gaps(work, windowStart, windowEnd)
    ensures (if work[i].start > cursor then idle + [Interval(cursor, work[i].start)] else idle)
            + Gaps(work[i + 1..], Max(cursor, work[i].end), windowEnd) == Gaps(work, windowStart, windowEnd)
  {
    var gap := if work[i].start > cursor then [Interval(cursor, work[i].start)] else [];
    var rest := Gaps(work[i + 1..], Max(cursor, work[i].end), windowEnd);
    GapsAt(work, i, cursor, windowEnd);
    assert idle + (gap + rest) == (idle + gap) + rest;
  }

  predicate Within(s: seq<Interval>, lo: int, hi: int)
  {
    forall k :: 0 <= k < |s| ==> lo <= s[k].start && s[k].end <= hi
  }

  /** The gaps are non-empty and lie apart from each other. */
  lemma {:induction false} GapsCanonical(work: seq<Interval>, cursor: int, windowEnd: int)
    requires AllProper(work)
    ensures Canonical(Gaps(work, cursor, windowEnd))
    ensures forall k :: 0 <= k < |Gaps(work, cursor, windowEnd)| ==> cursor <= Gaps(work, cursor, windowEnd)[k].start
  {
    if work != [] {
      var rest := Gaps(work[1..], Max(cursor, work[0].end), windowEnd);
      GapsCanonical(work[1..], Max(cursor, work[0].end), windowEnd);
      if work[0].start > cursor {
        var g := [Interval(cursor, work[0].start)] + rest;
        assert work[0].start < work[0].end;
        forall i, j | 0 <= i < j < |g|
          ensures g[i].end < g[j].start
        {
          assert g[j] == rest[j - 1];
          if i > 0 {
            assert g[i] == rest[i - 1];
          }
        }
        forall k | 0 <= k < |g|
          ensures cursor <= g[k].start
        {
          if k > 0 {
            assert g[k] == rest[k - 1];
          }
        }
      }
    }
  }

  /** When no work starts after the window end, every gap lies in [cursor, windowEnd]. */
  lemma {:induction false} GapsWithin(work: seq<Interval>, cursor: int, windowEnd: int)
    requires cursor <= windowEnd
    requires forall k :: 0 <= k < |work| ==> work[k].start <= windowEnd
    ensures Within(Gaps(work, cursor, windowEnd), cursor, windowEnd)
  {
    if work != [] {
      var c := Max(cursor, work[0].end);
      var rest := Gaps(work[1..], c, windowEnd);
      if c <= windowEnd {
        GapsWithin(work[1..], c, windowEnd);
      } else {
        GapsBeyond(work[1..], c, windowEnd);
      }
      var head: seq<Interval> := if work[0].start > cursor then [Interval(cursor, work[0].start)] else [];
      assert Gaps(work, cursor, windowEnd) == head + rest;
      forall k | 0 <= k < |head + rest|
        ensures cursor <= (head + rest)[k].start && (head + rest)[k].end <= windowEnd
      {
        if k >= |head| {
          assert (head + rest)[k] == rest[k - |head|];
        }
      }
    }
  }

  /** A cursor already past the window end only emits the gaps before later work. */
  lemma {:induction false} GapsBeyond(work: seq<Interval>, cursor: int, windowEnd: int)
    requires cursor > windowEnd
    requires forall k :: 0 <= k < |work| ==> work[k].start <= windowEnd
    ensures Gaps(work, cursor, windowEnd) == []
  {
    if work != [] {
      GapsBeyond(work[1..], Max(cursor, work[0].end), windowEnd);
    }
  }

  /** No instant strictly inside a gap is covered by work. */
  lemma {:induction false} GapsAreIdle(work: seq<Interval>, cursor: int, windowEnd: int, k: nat, p: real)
    requires StartsSorted(work)
    requires k < |Gaps(work, cursor, windowEnd)|
    requires Gaps(work, cursor, windowEnd)[k].start as real < p < Gaps(work, cursor, windowEnd)[k].end as real
    ensures !Covers(work, p) && cursor as real < p
  {
    if work != [] {
      var c := Max(cursor, work[0].end);
      var rest := Gaps(work[1..], c, windowEnd);
      var head: seq<Interval> := if work[0].start > cursor then [Interval(cursor, work[0].start)] else [];
      assert Gaps(work, cursor, windowEnd) == head + rest;
      if k < |head| {
        forall m | 0 <= m < |work|
          ensures !In(work[m], p)
        {
          assert work[0].start <= work[m].start;
        }
      } else {
        assert (head + rest)[k] == rest[k - |head|];
        GapsAreIdle(work[1..], c, windowEnd, k - |head|, p);
        forall m | 0 <= m < |work|
          ensures !In(work[m], p)
        {
          if m > 0 {
            assert work[m] == work[1..][m - 1];
          }
        }
      }
    }
  }

  /** Every instant of [cursor, windowEnd) that no work covers lies in a gap. */
  lemma {:induction false} GapsCoverIdle(work: seq<Interval>, cursor: int, windowEnd: int, p: real)
    requires cursor as real <= p < windowEnd as real && !Covers(work, p)
    ensures Covers(Gaps(work, cursor, windowEnd), p)
  {
    var g := Gaps(work, cursor, windowEnd);
    if work == [] {
      assert In(g[0], p);
    } else {
      var c := Max(cursor, work[0].end);
      var rest := Gaps(work[1..], c, windowEnd);
      var head: seq<Interval> := if work[0].start > cursor then [Interval(cursor, work[0].start)] else [];
      assert g == head + rest;
      assert !In(work[0], p);
      if p < work[0].start as real {
        assert In(g[0], p);
      } else {
        forall m | 0 <= m < |work[1..]|
          ensures !In(work[1..][m], p)
        {
          assert work[1..][m] == work[m + 1];
        }
        GapsCoverIdle(work[1..], c, windowEnd, p);
        var m :| 0 <= m < |rest| && In(rest[m], p);
        assert g[|head| + m] == rest[m];
      }
    }
  }

  /** Inside the window, the gaps and the canonical work together have exactly the window's length. */
  lemma {:induction false} GapsLength(work: seq<Interval>, cursor: int, windowEnd: int)
    requires Canonical(work) && Within(work, cursor, windowEnd) && cursor <= windowEnd
    ensures TotalLength(Gaps(work, cursor, windowEnd)) + TotalLength(work) == windowEnd - cursor
  {
    var g := Gaps(work, cursor, windowEnd);
    if work == [] {
      if cursor < windowEnd {
        assert g[1..] == [];
      }
    } else {
      var w := work[0];
      assert Proper(w);
      var rest := Gaps(work[1..], w.end, windowEnd);
      var head: seq<Interval> := if w.start > cursor then [Interval(cursor, w.start)] else [];
      assert Max(cursor, w.end) == w.end;
      assert g == head + rest;
      forall m | 0 <= m < |work[1..]|
        ensures w.end <= work[1..][m].start && work[1..][m].end <= windowEnd
      {
        assert work[1..][m] == work[m + 1];
      }
      forall m | 0 <= m < |work[1..]|
        ensures Proper(work[1..][m])
      {
        assert work[1..][m] == work[m + 1];
      }
      forall i, j | 0 <= i < j < |work[1..]|
        ensures work[1..][i].end < work[1..][j].start
      {
        assert work[1..][i] == work[i + 1] && work[1..][j] == work[j + 1];
      }
      GapsLength(work[1..], w.end, windowEnd);
      SumOfAppend(head, rest, Length);
      if head != [] {
        assert head[1..] == [];
      }
    }
  }

  /** No instant strictly inside an interval of `idle` is covered by `work`. */
  ghost predicate FreeInside(idle: seq<Interval>, work: seq<Interval>)
  {
    forall k, p: real :: 0 <= k < |idle| && idle[k].start as real < p < idle[k].end as real ==> !Covers(work, p)
  }

  /** Every instant of [lo, hi) that `work` leaves free is covered by `idle`. */
  ghost predicate FreeCovered(work: seq<Interval>, idle: seq<Interval>, lo: int, hi: int)
  {
    forall p: real :: lo as real <= p < hi as real && !Covers(work, p) ==> Covers(idle, p)
  }

  /**
   * The idle list of `buildCombinedReport` is the complement of the merged
   * work inside the window: it is canonical, lies in the window, every instant
   * strictly inside it is free of work, every free instant of the window lies
   * in it, and idle plus work add up to the window's length.
   */
  lemma {:induction false} IdleIsComplement(work: seq<Interval>, windowStart: int, windowEnd: int)
    requires Canonical(work) && Within(work, windowStart, windowEnd) && windowStart <= windowEnd
    ensures Canonical(Gaps(work, windowStart, windowEnd))
    ensures Within(Gaps(work, windowStart, windowEnd), windowStart, windowEnd)
    ensures FreeInside(Gaps(work, windowStart, windowEnd), work)
    ensures FreeCovered(work, Gaps(work, windowStart, windowEnd), windowStart, windowEnd)
    ensures TotalLength(Gaps(work, windowStart, windowEnd)) + TotalLength(work) == windowEnd - windowStart
  {
    var g := Gaps(work, windowStart, windowEnd);
    GapsCanonical(work, windowStart, windowEnd);
    GapsWithin(work, windowStart, windowEnd);
    GapsLength(work, windowStart, windowEnd);
    forall i, j | 0 <= i < j < |work|
      ensures work[i].start <= work[j].start
    {
      assert Proper(work[i]);
    }
    forall k, p: real | 0 <= k < |g| && g[k].start as real < p < g[k].end as real
      ensures !Covers(work, p)
    {
      GapsAreIdle(work, windowStart, windowEnd, k, p);
    }
    forall p: real | windowStart as real <= p < windowEnd as real && !Covers(work, p)
      ensures Covers(g, p)
    {
      GapsCoverIdle(work, windowStart, windowEnd, p);
    }
  }

  /** In a canonical list every later interval starts after the first one ends. */
  lemma {:induction false} CanonicalHead(a: seq<Interval>, k: nat)
    requires Canonical(a) && 0 < k < |a|
    ensures a[0].start < a[0].end < a[k].start && (k > 1 ==> a[1].start < a[k].start)
  {
    assert Proper(a[0]) && Proper(a[1]);
  }

  lemma {:induction false} CanonicalTail(a: seq<Interval>)
    requires Canonical(a) && a != []
    ensures Canonical(a[1..])
  {
    forall m | 0 <= m < |a[1..]|
      ensures Proper(a[1..][m])
    {
      assert a[1..][m] == a[m + 1];
    }
    forall i, j | 0 <= i < j < |a[1..]|
      ensures a[1..][i].end < a[1..][j].start
    {
      assert a[1..][i] == a[i + 1] && a[1..][j] == a[j + 1];
    }
  }

  /** Two canonical lists with the same union start with the same interval. */
  lemma {:induction false} CanonicalSameHead(a: seq<Interval>, b: seq<Interval>)
    requires Canonical(a) && Canonical(b) && SameUnion(a, b) && a != [] && b != []
    ensures a[0] == b[0]
  {
    if a[0].start < b[0].start {
      HeadStartUncovered(b, a[0].start as real);
      assert In(a[0], a[0].start as real);
    } else if b[0].start < a[0].start {
      HeadStartUncovered(a, b[0].start as real);
      assert In(b[0], b[0].start as real);
    }
    if a[0].end < b[0].end {
      HeadEndUncovered(a, b);
    } else if b[0].end < a[0].end {
      HeadEndUncovered(b, a);
    }
  }

  lemma {:induction false} HeadStartUncovered(a: seq<Interval>, p: real)
    requires Canonical(a) && a != [] && p < a[0].start as real
    ensures !Covers(a, p)
  {
    forall k | 0 <= k < |a|
      ensures !In(a[k], p)
    {
      if k > 0 {
        CanonicalHead(a, k);
      }
    }
  }

  /** If `a`'s first interval ends before `b`'s, an instant just after it is in `b` only. */
  lemma {:induction false} HeadEndUncovered(a: seq<Interval>, b: seq<Interval>)
    requires Canonical(a) && Canonical(b) && a != [] && b != []
    requires a[0].start == b[0].start && a[0].end < b[0].end
    ensures !SameUnion(a, b)
  {
    var bound := if |a| > 1 && a[1].start < b[0].end then a[1].start else b[0].end;
    assert a[0].end < bound by {
      if |a| > 1 {
        CanonicalHead(a, 1);
      }
    }
    var p: real := (a[0].end as real + bound as real) / 2.0;
    assert In(b[0], p) by {
      assert Proper(a[0]);
    }
    forall k | 0 <= k < |a|
      ensures !In(a[k], p)
    {
      if k > 0 {
        CanonicalHead(a, k);
        if k > 1 {
          assert a[1].start <= a[k].start;
        }
      }
    }
    assert Covers(b, p) && !Covers(a, p);
  }

  /**
   * A union has one canonical form: canonical lists with the same union are
   * equal. So the merge is idempotent and ignores the input's order.
   */
  lemma {:induction false} CanonicalUnique(a: seq<Interval>, b: seq<Interval>)
    requires Canonical(a) && Canonical(b) && SameUnion(a, b)
    ensures a == b
    decreases |a|
  {
    EmptyUnion(a, b);
    if a != [] {
      CanonicalSameHead(a, b);
      CanonicalTail(a);
      CanonicalTail(b);
      forall p: real
        ensures Covers(a[1..], p) <==> Covers(b[1..], p)
      {
        TailCovers(a, p);
        TailCovers(b, p);
      }
      CanonicalUnique(a[1..], b[1..]);
      assert a == [a[0]] + a[1..] && b == [b[0]] + b[1..];
    }
  }

  /** Lists of non-empty intervals with the same union are empty together. */
  lemma {:induction false} EmptyUnion(a: seq<Interval>, b: seq<Interval>)
    requires AllProper(a) && AllProper(b) && SameUnion(a, b)
    ensures a == [] <==> b == []
  {
    if a != [] {
      assert Covers(a, a[0].start as real) by {
        assert Proper(a[0]) && In(a[0], a[0].start as real);
      }
    }
    if b != [] {
      assert Covers(b, b[0].start as real) by {
        assert Proper(b[0]) && In(b[0], b[0].start as real);
      }
    }
  }

  /** Past the first interval's end, a canonical list covers what its tail covers. */
  lemma {:induction false} TailCovers(a: seq<Interval>, p: real)
    requires Canonical(a) && a != []
    ensures Covers(a[1..], p) <==> p > a[0].end as real && Covers(a, p)
  {
    if Covers(a[1..], p) {
      var m :| 0 <= m < |a[1..]| && In(a[1..][m], p);
      assert a[1..][m] == a[m + 1];
      CanonicalHead(a, m + 1);
    }
    if p > a[0].end as real && Covers(a, p) {
      var m :| 0 <= m < |a| && In(a[m], p);
      assert a[1..][m - 1] == a[m];
    }
  }
}
