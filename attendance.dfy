/**
 * The attendance report built from clock punches
 * (`buildAttendanceReportFromPunches`): each staff member's punches are
 * paired IN/OUT into raw intervals, the intervals are merged, and the merged
 * length is the member's attendance hours.
 */
module Attendance {
  import opened Wrappers
  import opened Text
  import opened Sorting
  import opened Intervals
  import opened Grouping
  import opened Normalize
  import opened StageReport

  // ---- chunkArray ----

  /** The chunks glued back together. */
  function Flatten<T>(chunks: seq<seq<T>>): seq<T>
  {
    if chunks == [] then [] else Flatten(chunks[..|chunks| - 1]) + chunks[|chunks| - 1]
  }

  /** `chunkArray`: consecutive slices of `size` elements, the last one possibly shorter. */
  method ChunkArray<T>(list: seq<T>, size: nat) returns (chunks: seq<seq<T>>)
    requires size > 0
    ensures Flatten(chunks) == list
    ensures forall k :: 0 <= k < |chunks| ==> 0 < |chunks[k]| <= size
    ensures forall k :: 0 <= k < |chunks| - 1 ==> |chunks[k]| == size
  {
    chunks := [];
    var i := 0;
    while i < |list|
      invariant 0 <= i <= |list|
      invariant Flatten(chunks) == list[..i]
      invariant forall k :: 0 <= k < |chunks| ==> 0 < |chunks[k]| <= size
      invariant forall k :: 0 <= k < |chunks| - 1 ==> |chunks[k]| == size
      invariant i < |list| ==> forall k :: 0 <= k < |chunks| ==> |chunks[k]| == size
      decreases |list| - i
    {
      var j := if i + size <= |list| then i + size else |list|;
      var chunk := list[i..j];
      assert Flatten(chunks + [chunk]) == Flatten(chunks) + chunk by {
        assert (chunks + [chunk])[..|chunks|] == chunks;
      }
      assert list[..i] + list[i..j] == list[..j];
      chunks := chunks + [chunk];
      i := j;
    }
    assert list[..|list|] == list;
  }

  // ---- punches ----

  datatype Action = In | Out | Other

  /** `String(row.action || '').trim().toUpperCase()` compared with `IN` and `OUT`. */
  function ActionOf(raw: string): (a: Action)
    ensures a == In <==> UpperAscii(Trim(raw)) == "IN"
    ensures a == Out <==> UpperAscii(Trim(raw)) == "OUT"
  {
    var action := UpperAscii(Trim(raw));
    if action == "IN" then In else if action == "OUT" then Out else Other
  }

  /** A usable punch: the trimmed staff id, the action, the parsed time in ms. */
  datatype Punch = Punch(staff: string, action: Action, ts: int)

  function Staff(p: Punch): string { p.staff }

  function PunchKey(p: Punch): real { p.ts as real }

  // ---- IN/OUT pairing ----

  /** The pairing loop's state: the open IN time, if any, and the intervals emitted so far. */
  datatype PairState = PairState(open: Option<int>, raw: seq<Interval>)

  /**
   * One punch: an IN opens an interval unless one is open; an OUT closes
   * the open interval, emitting it only when it is later than the IN, and
   * clears it either way; anything else is ignored.
   */
  function Step(st: PairState, p: Punch): PairState
  {
    match p.action
    case In => if st.open.None? then PairState(Some(p.ts), st.raw) else st
    case Out =>
      PairState(None, if st.open.Some? && p.ts > st.open.value then st.raw + [Interval(st.open.value, p.ts)] else st.raw)
    case Other => st
  }

  /** The pairing loop over a prefix of the punches. */
  function Walk(ps: seq<Punch>): PairState
  {
    if ps == [] then PairState(None, []) else Step(Walk(ps[..|ps| - 1]), ps[|ps| - 1])
  }

  /** An IN still open at the end is closed at the window end, if that is later. */
  function Close(st: PairState, windowEnd: int): seq<Interval>
  {
    if st.open.Some? && windowEnd > st.open.value then st.raw + [Interval(st.open.value, windowEnd)] else st.raw
  }

  /** The raw attendance intervals of one staff member's time-sorted punches. */
  function Paired(ps: seq<Punch>, windowEnd: int): seq<Interval>
  {
    Close(Walk(ps), windowEnd)
  }

  /** Each interval ends no later than the next one starts. */
  ghost predicate InOrder(s: seq<Interval>)
  {
    forall i, j :: 0 <= i < j < |s| ==> s[i].end <= s[j].start
  }

  /** Some IN punch, resp. OUT punch, happened at time `t`. */
  ghost predicate InAt(ps: seq<Punch>, t: int)
  {
    exists p :: p in ps && p.action == In && p.ts == t
  }

  ghost predicate OutAt(ps: seq<Punch>, t: int)
  {
    exists p :: p in ps && p.action == Out && p.ts == t
  }

  /** What the pairing loop keeps true over time-sorted punches. */
  ghost predicate WalkInv(st: PairState, ps: seq<Punch>)
  {
    && AllProper(st.raw)
    && InOrder(st.raw)
    && (forall k :: 0 <= k < |st.raw| ==> InAt(ps, st.raw[k].start) && OutAt(ps, st.raw[k].end))
    && (ps != [] ==> forall k :: 0 <= k < |st.raw| ==> st.raw[k].end <= ps[|ps| - 1].ts)
    && (st.open.Some? ==> ps != [] && InAt(ps, st.open.value) && st.open.value <= ps[|ps| - 1].ts)
    && (st.open.Some? ==> forall k :: 0 <= k < |st.raw| ==> st.raw[k].end <= st.open.value)
  }

  lemma {:induction false} WalkStep(init: seq<Punch>, p: Punch)
    requires WalkInv(Walk(init), init)
    requires init != [] ==> init[|init| - 1].ts <= p.ts
    ensures WalkInv(Step(Walk(init), p), init + [p])
  {
    var st := Walk(init);
    if p.action == Out && st.open.Some? && p.ts > st.open.value {
      EmitStep(st, init, p);
    } else if p.action == In && st.open.None? {
      KeepStep(st, init, p, Some(p.ts));
    } else if p.action == Out {
      KeepStep(st, init, p, None);
    } else {
      KeepStep(st, init, p, st.open);
    }
  }

  /** Earlier punches stay in the list. */
  lemma {:induction false} PunchesGrow(init: seq<Punch>, p: Punch)
    ensures forall t :: InAt(init, t) ==> InAt(init + [p], t)
    ensures forall t :: OutAt(init, t) ==> OutAt(init + [p], t)
  {
    forall t | InAt(init, t)
      ensures InAt(init + [p], t)
    {
      var q :| q in init && q.action == In && q.ts == t;
      assert q in init + [p];
    }
    forall t | OutAt(init, t)
      ensures OutAt(init + [p], t)
    {
      var q :| q in init && q.action == Out && q.ts == t;
      assert q in init + [p];
    }
  }

  /** An OUT after an earlier open IN emits the interval between them. */
  lemma {:induction false} EmitStep(st: PairState, init: seq<Punch>, p: Punch)
    requires WalkInv(st, init)
    requires st.open.Some? && p.action == Out && p.ts > st.open.value
    ensures WalkInv(PairState(None, st.raw + [Interval(st.open.value, p.ts)]), init + [p])
  {
    var ps := init + [p];
    var raw := st.raw + [Interval(st.open.value, p.ts)];
    PunchesGrow(init, p);
    assert p in ps;
    assert OutAt(ps, p.ts);
    forall k | 0 <= k < |raw|
      ensures InAt(ps, raw[k].start) && OutAt(ps, raw[k].end)
    {
      if k < |st.raw| {
        assert raw[k] == st.raw[k];
      }
    }
  }

  /** A punch that emits nothing: the intervals stay, the open IN is kept, cleared, or set by an IN. */
  lemma {:induction false} KeepStep(st: PairState, init: seq<Punch>, p: Punch, open: Option<int>)
    requires WalkInv(st, init)
    requires init != [] ==> init[|init| - 1].ts <= p.ts
    requires open == None || open == st.open || (open == Some(p.ts) && p.action == In)
    ensures WalkInv(PairState(open, st.raw), init + [p])
  {
    var ps := init + [p];
    PunchesGrow(init, p);
    assert p in ps;
    if open == Some(p.ts) && p.action == In {
      assert InAt(ps, p.ts);
    }
  }

  /** The pairing loop's invariant holds after every prefix of time-sorted punches. */
  lemma {:induction false} WalkFacts(ps: seq<Punch>)
    requires SortedBy(ps, PunchKey)
    ensures WalkInv(Walk(ps), ps)
  {
    if ps != [] {
      var init := ps[..|ps| - 1];
      assert SortedBy(init, PunchKey);
      WalkFacts(init);
      assert ps == init + [ps[|ps| - 1]];
      if init != [] {
        assert PunchKey(ps[|ps| - 2]) <= PunchKey(ps[|ps| - 1]);
      }
      WalkStep(init, ps[|ps| - 1]);
    }
  }

  /**
   * The raw intervals of time-sorted punches are proper, follow one another
   * without overlap, start at an IN punch, and end at an OUT punch or at the
   * window end.
   */
  lemma {:induction false} PairedFacts(ps: seq<Punch>, windowEnd: int)
    requires SortedBy(ps, PunchKey)
    ensures var r := Paired(ps, windowEnd);
      && AllProper(r) && InOrder(r) && StartsSorted(r)
      && forall k :: 0 <= k < |r| ==> InAt(ps, r[k].start) && (r[k].end == windowEnd || OutAt(ps, r[k].end))
  {
    WalkFacts(ps);
    var st := Walk(ps);
    var r := Paired(ps, windowEnd);
    if st.open.Some? && windowEnd > st.open.value {
      assert r == st.raw + [Interval(st.open.value, windowEnd)];
      forall k | 0 <= k < |r|
        ensures InAt(ps, r[k].start) && (r[k].end == windowEnd || OutAt(ps, r[k].end))
      {
        if k < |st.raw| {
          assert r[k] == st.raw[k];
        }
      }
    }
    assert StartsSorted(r) by {
      forall i, j | 0 <= i < j < |r|
        ensures r[i].start <= r[j].start
      {
        assert Proper(r[i]);
      }
    }
  }

  /**
   * The pairing loop of `buildAttendanceReportFromPunches` over one staff
   * member's punches, already sorted by time.
   */
  method PairPunches(sorted: seq<Punch>, windowEnd: int) returns (raw: seq<Interval>)
    ensures raw == Paired(sorted, windowEnd)
    ensures SortedBy(sorted, PunchKey) ==> AllProper(raw) && InOrder(raw) && StartsSorted(raw)
  {
    var openStart: Option<int> := None;
    raw := [];
    for i := 0 to |sorted|
      invariant PairState(openStart, raw) == Walk(sorted[..i])
    {
      var event := sorted[i];
      assert sorted[..i + 1][..i] == sorted[..i];
      if event.action == In {
        if openStart.None? {
          openStart := Some(event.ts);
        }
      } else if event.action == Out {
        if openStart.Some? && event.ts > openStart.value {
          raw := raw + [Interval(openStart.value, event.ts)];
        }
        openStart := None;
      }
    }
    assert sorted[..|sorted|] == sorted;
    if openStart.Some? && windowEnd > openStart.value {
      raw := raw + [Interval(openStart.value, windowEnd)];
    }
    if SortedBy(sorted, PunchKey) {
      PairedFacts(sorted, windowEnd);
    }
  }

  // ---- per staff member ----

  /** A punch row as fetched: staff id, action and creation time, not yet checked. */
  datatype PunchRow<C> = PunchRow(staffId: string, action: string, createdAt: C)

  /**
   * The punches the grouping loop keeps, in row order: a row whose trimmed
   * staff id is empty, or whose creation time does not parse, is skipped.
   */
  function Usable<C>(rows: seq<PunchRow<C>>, parseTs: C -> Option<int>): (r: seq<Punch>)
    ensures |r| <= |rows|
    ensures forall k :: 0 <= k < |r| ==> r[k].staff != []
  {
    if rows == [] then []
    else
      var row := rows[|rows| - 1];
      var staff := Trim(row.staffId);
      var ts := parseTs(row.createdAt);
      Usable(rows[..|rows| - 1], parseTs) + if staff == [] || ts.None? then [] else [Punch(staff, ActionOf(row.action), ts.value)]
  }

  /** `staffNameMap.get(staffId) || staffId`: the employee name when there is a non-empty one. */
  function DisplayName(staff: string, names: map<string, string>): (r: string)
    ensures r == staff || (staff in names && r == names[staff] != [])
    ensures staff in names && names[staff] != [] ==> r == names[staff]
  {
    if staff in names && names[staff] != [] then names[staff] else staff
  }

  /** The raw intervals of one staff member: the member's punches sorted by time, then paired. */
  function RawOf(staff: string, ps: seq<Punch>, windowEnd: int): seq<Interval>
  {
    Paired(SortBy(Of(ps, Staff, staff), PunchKey), windowEnd)
  }

  /**
   * The pairing and merging for one staff member: the merged intervals are
   * canonical, cover exactly what the raw intervals cover, and are no longer
   * in total.
   */
  method StaffIntervals(punches: seq<Punch>, windowEnd: int) returns (merged: seq<Interval>)
    ensures var raw := Paired(SortBy(punches, PunchKey), windowEnd);
      && Canonical(merged) && SameUnion(merged, raw)
      && TotalLength(merged) <= TotalLength(raw)
      && (merged == [] <==> raw == [])
  {
    var sorted := SortBy(punches, PunchKey);
    var raw := PairPunches(sorted, windowEnd);
    merged := MergeIntervals(raw);
  }

  /** The staff members of `order` that end up with at least one interval, in order. */
  function WithIntervals(order: seq<string>, ps: seq<Punch>, windowEnd: int): seq<string>
  {
    if order == [] then []
    else
      var id := order[|order| - 1];
      WithIntervals(order[..|order| - 1], ps, windowEnd) + if RawOf(id, ps, windowEnd) == [] then [] else [id]
  }

  /** The stat pushed for a staff member with merged intervals `segs`. */
  ghost predicate StaffStat(s: OperatorStat, segs: seq<Interval>, staff: string, ps: seq<Punch>, windowEnd: int, names: map<string, string>)
  {
    var raw := RawOf(staff, ps, windowEnd);
    && s == OperatorStat(DisplayName(staff, names), 0, Hours(TotalLength(segs)), Some(0.0), None)
    && segs != []
    && Canonical(segs) && SameUnion(segs, raw)
    && TotalLength(segs) <= TotalLength(raw)
  }

  /** The hours of the stats, summed. */
  function SumHours(stats: seq<OperatorStat>): real
  {
    if stats == [] then 0.0 else SumHours(stats[..|stats| - 1]) + stats[|stats| - 1].ewhHours
  }

  /** `segments[name]` was written last by the `k`-th stat. */
  ghost predicate WrittenBy(segments: map<string, seq<Interval>>, stats: seq<OperatorStat>, merged: seq<seq<Interval>>, name: string, k: int)
    requires |stats| == |merged|
  {
    && 0 <= k < |stats| && name in segments && stats[k].operator == name && segments[name] == merged[k]
    && forall k' :: k < k' < |stats| ==> stats[k'].operator != name
  }

  /** `segments[name] = ...` in stat order: a later staff member with the same display name overwrites. */
  ghost predicate LastWins(segments: map<string, seq<Interval>>, stats: seq<OperatorStat>, merged: seq<seq<Interval>>)
    requires |stats| == |merged|
  {
    && (forall k :: 0 <= k < |stats| ==> stats[k].operator in segments)
    && (forall name :: name in segments ==> exists k :: WrittenBy(segments, stats, merged, name, k))
  }

  /** What the staff loop has produced for the first members of `order`. */
  ghost predicate StaffDone(order: seq<string>, stats: seq<OperatorStat>, merged: seq<seq<Interval>>, ps: seq<Punch>, windowEnd: int, names: map<string, string>)
  {
    var ids := WithIntervals(order, ps, windowEnd);
    && |stats| == |merged| == |ids|
    && forall k :: 0 <= k < |stats| ==> StaffStat(stats[k], merged[k], ids[k], ps, windowEnd, names)
  }

  lemma {:induction false} WithIntervalsSnoc(order: seq<string>, i: nat, ps: seq<Punch>, windowEnd: int)
    requires i < |order|
    ensures WithIntervals(order[..i + 1], ps, windowEnd) ==
      WithIntervals(order[..i], ps, windowEnd) + if RawOf(order[i], ps, windowEnd) == [] then [] else [order[i]]
  {
    assert order[..i + 1][..i] == order[..i];
  }

  lemma {:induction false} StaffStatsSnoc(stats: seq<OperatorStat>, merged: seq<seq<Interval>>, ids: seq<string>,
                                           s: OperatorStat, segs: seq<Interval>, id: string,
                                           ps: seq<Punch>, windowEnd: int, names: map<string, string>)
    requires |stats| == |merged| == |ids|
    requires forall k :: 0 <= k < |stats| ==> StaffStat(stats[k], merged[k], ids[k], ps, windowEnd, names)
    requires StaffStat(s, segs, id, ps, windowEnd, names)
    ensures forall k :: 0 <= k < |stats| + 1 ==> StaffStat((stats + [s])[k], (merged + [segs])[k], (ids + [id])[k], ps, windowEnd, names)
  {
    forall k | 0 <= k < |stats| + 1
      ensures StaffStat((stats + [s])[k], (merged + [segs])[k], (ids + [id])[k], ps, windowEnd, names)
    {
      if k < |stats| {
        assert (stats + [s])[k] == stats[k] && (merged + [segs])[k] == merged[k] && (ids + [id])[k] == ids[k];
      }
    }
  }

  lemma {:induction false} StaffDoneStep(order: seq<string>, i: nat, stats: seq<OperatorStat>, merged: seq<seq<Interval>>,
                                          ps: seq<Punch>, windowEnd: int, names: map<string, string>, segs: seq<Interval>)
    requires i < |order|
    requires StaffDone(order[..i], stats, merged, ps, windowEnd, names)
    requires var raw := RawOf(order[i], ps, windowEnd);
      Canonical(segs) && SameUnion(segs, raw) && TotalLength(segs) <= TotalLength(raw) && (segs == [] <==> raw == [])
    ensures segs == [] ==> StaffDone(order[..i + 1], stats, merged, ps, windowEnd, names)
    ensures segs != [] ==>
      var s := OperatorStat(DisplayName(order[i], names), 0, Hours(TotalLength(segs)), Some(0.0), None);
      StaffDone(order[..i + 1], stats + [s], merged + [segs], ps, windowEnd, names)
  {
    WithIntervalsSnoc(order, i, ps, windowEnd);
    if segs != [] {
      var s := OperatorStat(DisplayName(order[i], names), 0, Hours(TotalLength(segs)), Some(0.0), None);
      StaffStatsSnoc(stats, merged, WithIntervals(order[..i], ps, windowEnd), s, segs, order[i], ps, windowEnd, names);
    }
  }

  lemma {:induction false} LastWinsStep(segments: map<string, seq<Interval>>, stats: seq<OperatorStat>, merged: seq<seq<Interval>>,
                                         s: OperatorStat, segs: seq<Interval>)
    requires |stats| == |merged|
    requires LastWins(segments, stats, merged)
    ensures LastWins(segments[s.operator := segs], stats + [s], merged + [segs])
  {
    var segments', stats', merged' := segments[s.operator := segs], stats + [s], merged + [segs];
    forall k | 0 <= k < |stats'|
      ensures stats'[k].operator in segments'
    {
      if k < |stats| {
        assert stats'[k] == stats[k];
      }
    }
    forall name | name in segments'
      ensures exists k :: WrittenBy(segments', stats', merged', name, k)
    {
      if name == s.operator {
        assert WrittenBy(segments', stats', merged', name, |stats|);
      } else {
        var k :| WrittenBy(segments, stats, merged, name, k);
        assert stats'[k] == stats[k] && merged'[k] == merged[k];
        assert WrittenBy(segments', stats', merged', name, k);
      }
    }
  }

  lemma {:induction false} SumHoursSnoc(stats: seq<OperatorStat>, s: OperatorStat)
    ensures SumHours(stats + [s]) == SumHours(stats) + s.ewhHours
  {
    assert (stats + [s])[..|stats|] == stats;
  }

  /** The staff loop's invariant after the first `i` members of `order`. */
  ghost predicate StaffLoopInv(order: seq<string>, i: nat, stats: seq<OperatorStat>, segments: map<string, seq<Interval>>, totalHours: real,
                               merged: seq<seq<Interval>>, ps: seq<Punch>, windowEnd: int, names: map<string, string>)
  {
    && i <= |order|
    && StaffDone(order[..i], stats, merged, ps, windowEnd, names)
    && LastWins(segments, stats, merged)
    && totalHours == SumHours(stats)
  }

  lemma {:induction false} StaffLoopStep(order: seq<string>, i: nat, stats: seq<OperatorStat>, segments: map<string, seq<Interval>>, totalHours: real,
                                          merged: seq<seq<Interval>>, ps: seq<Punch>, windowEnd: int, names: map<string, string>, segs: seq<Interval>)
    requires i < |order|
    requires StaffLoopInv(order, i, stats, segments, totalHours, merged, ps, windowEnd, names)
    requires var raw := RawOf(order[i], ps, windowEnd);
      Canonical(segs) && SameUnion(segs, raw) && TotalLength(segs) <= TotalLength(raw) && (segs == [] <==> raw == [])
    ensures segs == [] ==> StaffLoopInv(order, i + 1, stats, segments, totalHours, merged, ps, windowEnd, names)
    ensures segs != [] ==>
      var s := OperatorStat(DisplayName(order[i], names), 0, Hours(TotalLength(segs)), Some(0.0), None);
      StaffLoopInv(order, i + 1, stats + [s], segments[s.operator := segs], totalHours + Hours(TotalLength(segs)), merged + [segs], ps, windowEnd, names)
  {
    StaffDoneStep(order, i, stats, merged, ps, windowEnd, names, segs);
    if segs != [] {
      var s := OperatorStat(DisplayName(order[i], names), 0, Hours(TotalLength(segs)), Some(0.0), None);
      LastWinsStep(segments, stats, merged, s, segs);
      SumHoursSnoc(stats, s);
    }
  }

  /** `StaffIntervals` for the member `staff` of the grouped punches `ps`. */
  method StaffIntervalsOf(punches: seq<Punch>, ghost staff: string, ghost ps: seq<Punch>, windowEnd: int) returns (merged: seq<Interval>)
    requires punches == Of(ps, Staff, staff)
    ensures var raw := RawOf(staff, ps, windowEnd);
      Canonical(merged) && SameUnion(merged, raw) && TotalLength(merged) <= TotalLength(raw) && (merged == [] <==> raw == [])
  {
    merged := StaffIntervals(punches, windowEnd);
  }

  /**
   * The loop over the staff members in order of first punch: the ones with
   * intervals get a stat and their merged intervals, and their hours are
   * summed.
   */
  method StaffLoop(order: seq<string>, groups: map<string, seq<Punch>>, ghost ps: seq<Punch>, windowEnd: int, names: map<string, string>)
    returns (stats: seq<OperatorStat>, segments: map<string, seq<Interval>>, totalHours: real, ghost merged: seq<seq<Interval>>)
    requires forall id :: id in order ==> id in groups && groups[id] == Of(ps, Staff, id)
    ensures StaffDone(order, stats, merged, ps, windowEnd, names)
    ensures LastWins(segments, stats, merged)
    ensures totalHours == SumHours(stats)
  {
    stats, segments, totalHours, merged := [], map[], 0.0, [];
    for i := 0 to |order|
      invariant StaffLoopInv(order, i, stats, segments, totalHours, merged, ps, windowEnd, names)
    {
      stats, segments, totalHours, merged := StaffStep(order, i, groups, ps, windowEnd, names, stats, segments, totalHours, merged);
    }
    assert order[..|order|] == order;
  }

  /** One round of the staff loop: the member `order[i]`. */
  method StaffStep(order: seq<string>, i: nat, groups: map<string, seq<Punch>>, ghost ps: seq<Punch>, windowEnd: int, names: map<string, string>,
                   stats: seq<OperatorStat>, segments: map<string, seq<Interval>>, totalHours: real, ghost merged: seq<seq<Interval>>)
    returns (stats': seq<OperatorStat>, segments': map<string, seq<Interval>>, totalHours': real, ghost merged': seq<seq<Interval>>)
    requires i < |order|
    requires forall id :: id in order ==> id in groups && groups[id] == Of(ps, Staff, id)
    requires StaffLoopInv(order, i, stats, segments, totalHours, merged, ps, windowEnd, names)
    ensures StaffLoopInv(order, i + 1, stats', segments', totalHours', merged', ps, windowEnd, names)
  {
    var staff := order[i];
    assert staff in order;
    var segs := StaffIntervalsOf(groups[staff], staff, ps, windowEnd);
    stats', segments', totalHours', merged' := stats, segments, totalHours, merged;
    if segs != [] {
      var hours := Hours(TotalLength(segs));
      var s := OperatorStat(DisplayName(staff, names), 0, hours, Some(0.0), None);
      totalHours' := totalHours + hours;
      stats' := stats + [s];
      merged' := merged + [segs];
      segments' := segments[s.operator := segs];
    }
    StaffRoundDone(order, i, stats, segments, totalHours, merged, ps, windowEnd, names, segs, stats', segments', totalHours', merged');
  }

  lemma StaffRoundDone(order: seq<string>, i: nat, stats: seq<OperatorStat>, segments: map<string, seq<Interval>>, totalHours: real,
                       merged: seq<seq<Interval>>, ps: seq<Punch>, windowEnd: int, names: map<string, string>, segs: seq<Interval>,
                       stats': seq<OperatorStat>, segments': map<string, seq<Interval>>, totalHours': real, merged': seq<seq<Interval>>)
    requires i < |order|
    requires StaffLoopInv(order, i, stats, segments, totalHours, merged, ps, windowEnd, names)
    requires var raw := RawOf(order[i], ps, windowEnd);
      Canonical(segs) && SameUnion(segs, raw) && TotalLength(segs) <= TotalLength(raw) && (segs == [] <==> raw == [])
    requires segs == [] ==> stats' == stats && segments' == segments && totalHours' == totalHours && merged' == merged
    requires segs != [] ==>
      var s := OperatorStat(DisplayName(order[i], names), 0, Hours(TotalLength(segs)), Some(0.0), None);
      stats' == stats + [s] && segments' == segments[s.operator := segs] && totalHours' == totalHours + Hours(TotalLength(segs)) &&
      merged' == merged + [segs]
    ensures StaffLoopInv(order, i + 1, stats', segments', totalHours', merged', ps, windowEnd, names)
  {
    StaffLoopStep(order, i, stats, segments, totalHours, merged, ps, windowEnd, names, segs);
  }

  // ---- the report ----

  /**
   * The outcome of `buildAttendanceReportFromPunches`: a rejection when the
   * window holds no punch at all or no staff member ends up with an
   * interval, otherwise the report (status pass, coverage 1).
   */
  datatype AttendanceOutcome =
    | NoPunches
    | NoValidPunches
    | AttendanceReport(totalCount: nat, employees: nat, totalHours: real, stats: seq<OperatorStat>, segments: map<string, seq<Interval>>)

  /**
   * The attendance report of the window starting at `start` from the
   * punches fetched for it; `names` is the staff-id-to-name map read from
   * the employee table.
   */
  method BuildAttendanceReport<C>(rows: seq<PunchRow<C>>, start: int, parseTs: C -> Option<int>, names: map<string, string>)
    returns (outcome: AttendanceOutcome, ghost merged: seq<seq<Interval>>)
    ensures outcome.NoPunches? <==> rows == []
    ensures var ps := Usable(rows, parseTs);
      outcome.NoValidPunches? <==> rows != [] && WithIntervals(Keys(ps, Staff), ps, WindowEnd(start)) == []
    ensures outcome.AttendanceReport? ==>
      var ps := Usable(rows, parseTs);
      && outcome.totalCount == |rows|
      && outcome.employees == |outcome.stats|
      && StaffDone(Keys(ps, Staff), outcome.stats, merged, ps, WindowEnd(start), names)
      && LastWins(outcome.segments, outcome.stats, merged)
      && outcome.totalHours == SumHours(outcome.stats)
  {
    merged := [];
    if |rows| == 0 {
      return NoPunches, merged;
    }
    var ps := Usable(rows, parseTs);
    var order, groups := GroupBy(ps, Staff);
    var stats, segments, totalHours;
    stats, segments, totalHours, merged := StaffLoop(order, groups, ps, WindowEnd(start), names);
    if |stats| == 0 {
      return NoValidPunches, merged;
    }
    outcome := AttendanceReport(|rows|, |stats|, totalHours, stats, segments);
  }
}
