/**
 * The timeline rows of the frontend (inside `buildTimelineRowsFromReport`):
 * segment times become minutes of the display day, `mergeSegments` tidies an
 * operator's segments, and `applyAttendanceWindows` cuts idle time into the
 * parts inside and outside the operator's attendance windows.
 */
module Timeline {
  import opened Wrappers
  import opened Sorting
  import opened Intervals

  /** The timeline starts at 05:00: minute 300 of the display day. */
  const DayStart: int := 5 * 60

  const MinuteMs: int := 60000

  /** `dayStart + Math.max(0, Math.floor((ms - baseMs) / 60000))`: the minute a segment starts in. */
  function StartMinute(ms: int, baseMs: int): (m: int)
    ensures m >= DayStart
    ensures ms >= baseMs ==> (m - DayStart) * MinuteMs <= ms - baseMs < (m - DayStart + 1) * MinuteMs
    ensures ms < baseMs ==> m == DayStart
  {
    DayStart + Max(0, (ms - baseMs) / MinuteMs)
  }

  /** `dayStart + Math.max(0, Math.ceil((ms - baseMs) / 60000))`: the minute a segment ends in. */
  function EndMinute(ms: int, baseMs: int): (m: int)
    ensures m >= DayStart
    ensures ms >= baseMs ==> (m - DayStart - 1) * MinuteMs < ms - baseMs <= (m - DayStart) * MinuteMs
    ensures ms <= baseMs ==> m == DayStart
  {
    DayStart + Max(0, -((baseMs - ms) / MinuteMs))
  }

  /** A segment that does not end before it starts keeps that order in minutes. */
  lemma {:induction false} MinutesOrdered(startMs: int, endMs: int, baseMs: int)
    requires startMs <= endMs
    ensures StartMinute(startMs, baseMs) <= EndMinute(endMs, baseMs)
  {
    var a, b := StartMinute(startMs, baseMs), EndMinute(endMs, baseMs);
    if startMs >= baseMs {
      assert (a - DayStart) * MinuteMs <= startMs - baseMs <= endMs - baseMs <= (b - DayStart) * MinuteMs;
    }
  }

  /** The `stage` of a timeline segment. */
  datatype Lane = PickingLane | SortingLane | PackingLane | IdleLane | AttendanceLane

  /** The `type` of a timeline segment. */
  datatype Kind = PickingKind | SortingKind | PackingKind | PackingSingleKind | PackingMultiKind | IdleKind | AttendanceIdleKind

  /** A timeline segment in minutes; `units` is absent where the source has `null`. */
  datatype TimelineSegment = TimelineSegment(start: int, end: int, lane: Lane, kind: Kind, units: Option<int>)

  function SegmentStart(s: TimelineSegment): real { s.start as real }

  predicate IsWork(k: Kind) { k != IdleKind && k != AttendanceIdleKind }

  /** The units a segment counts towards work. */
  function WorkUnitsOf(s: TimelineSegment): int
  {
    if IsWork(s.kind) then s.units.GetOr(0) else 0
  }

  /** The units of the work segments of a list. */
  function WorkUnits(s: seq<TimelineSegment>): int { SumOf(s, WorkUnitsOf) }

  lemma {:induction false} WorkUnitsSnoc(s: seq<TimelineSegment>, x: TimelineSegment)
    ensures WorkUnits(s + [x]) == WorkUnits(s) + WorkUnitsOf(x)
  {
    SumOfAppend(s, [x], WorkUnitsOf);
    assert SumOf([x], WorkUnitsOf) == WorkUnitsOf(x) by { assert [x][1..] == []; }
  }

  /** Replacing the last segment by one of other units changes the units by the difference. */
  lemma {:induction false} WorkUnitsLast(s: seq<TimelineSegment>, x: TimelineSegment)
    requires s != []
    ensures WorkUnits(s[..|s| - 1] + [x]) == WorkUnits(s) - WorkUnitsOf(s[|s| - 1]) + WorkUnitsOf(x)
  {
    assert s == s[..|s| - 1] + [s[|s| - 1]];
    WorkUnitsSnoc(s[..|s| - 1], s[|s| - 1]);
    WorkUnitsSnoc(s[..|s| - 1], x);
  }

  // ---- mergeSegments: coalescing ----

  /** A segment joins the last one when it has the same type and starts at most `gap` minutes after it ends. */
  predicate Mergeable(last: TimelineSegment, seg: TimelineSegment, gap: int)
  {
    seg.kind == last.kind && seg.start - last.end <= gap
  }

  /** The last segment after `seg` joins it; with `sumUnits`, numeric units are added up. */
  function Joined(last: TimelineSegment, seg: TimelineSegment, sumUnits: bool): TimelineSegment
  {
    last.(end := Max(last.end, seg.end),
          units := if sumUnits && seg.units.Some? then Some(last.units.GetOr(0) + seg.units.value) else last.units)
  }

  /** The result of a coalescing pass over `s`. */
  function Coalesce(s: seq<TimelineSegment>, gap: int, sumUnits: bool): seq<TimelineSegment>
  {
    if s == [] then []
    else
      var acc, seg := Coalesce(s[..|s| - 1], gap, sumUnits), s[|s| - 1];
      if acc != [] && Mergeable(acc[|acc| - 1], seg, gap) then acc[..|acc| - 1] + [Joined(acc[|acc| - 1], seg, sumUnits)]
      else acc + [seg]
  }

  lemma {:induction false} CoalesceSnoc(s: seq<TimelineSegment>, i: nat, gap: int, sumUnits: bool)
    requires i < |s|
    ensures Coalesce(s[..i + 1], gap, sumUnits) ==
      var acc := Coalesce(s[..i], gap, sumUnits);
      if acc != [] && Mergeable(acc[|acc| - 1], s[i], gap) then acc[..|acc| - 1] + [Joined(acc[|acc| - 1], s[i], sumUnits)]
      else acc + [s[i]]
  {
    assert s[..i + 1][..i] == s[..i];
  }

  /**
   * A coalescing pass (the first and the last pass of `mergeSegments`): each
   * segment either extends the last output segment or is appended.
   */
  method CoalescePass(s: seq<TimelineSegment>, gap: int, sumUnits: bool) returns (merged: seq<TimelineSegment>)
    ensures merged == Coalesce(s, gap, sumUnits)
  {
    merged := [];
    for i := 0 to |s|
      invariant merged == Coalesce(s[..i], gap, sumUnits)
    {
      CoalesceSnoc(s, i, gap, sumUnits);
      var seg := s[i];
      if |merged| == 0 {
        merged := merged + [seg];
      } else {
        var last := merged[|merged| - 1];
        if seg.kind == last.kind && seg.start - last.end <= gap {
          merged := merged[..|merged| - 1] + [Joined(last, seg, sumUnits)];
        } else {
          merged := merged + [seg];
        }
      }
    }
    assert s[..|s|] == s;
  }

  /** No two neighbours could be coalesced any further. */
  ghost predicate Apart(s: seq<TimelineSegment>, gap: int)
  {
    forall k :: 0 <= k < |s| - 1 ==> !Mergeable(s[k], s[k + 1], gap)
  }

  /** After a coalescing pass no two neighbours could be coalesced: a pass is complete. */
  lemma {:induction false} CoalesceApart(s: seq<TimelineSegment>, gap: int, sumUnits: bool)
    ensures Apart(Coalesce(s, gap, sumUnits), gap)
    ensures |Coalesce(s, gap, sumUnits)| <= |s|
  {
    if s != [] {
      var acc, seg := Coalesce(s[..|s| - 1], gap, sumUnits), s[|s| - 1];
      CoalesceApart(s[..|s| - 1], gap, sumUnits);
      var r := Coalesce(s, gap, sumUnits);
      if acc != [] && Mergeable(acc[|acc| - 1], seg, gap) {
        forall k | 0 <= k < |r| - 1
          ensures !Mergeable(r[k], r[k + 1], gap)
        {
          assert r[k] == acc[k];
          assert r[k + 1].kind == acc[k + 1].kind && r[k + 1].start == acc[k + 1].start;
        }
      } else {
        forall k | 0 <= k < |r| - 1
          ensures !Mergeable(r[k], r[k + 1], gap)
        {
          assert r[k] == (acc + [seg])[k];
        }
      }
    }
  }

  /** A coalescing pass that adds units keeps the units of the work. */
  lemma {:induction false} CoalesceUnits(s: seq<TimelineSegment>, gap: int)
    ensures WorkUnits(Coalesce(s, gap, true)) == WorkUnits(s)
  {
    if s != [] {
      var init, seg := s[..|s| - 1], s[|s| - 1];
      var acc := Coalesce(init, gap, true);
      CoalesceUnits(init, gap);
      assert s == init + [seg];
      WorkUnitsSnoc(init, seg);
      if acc != [] && Mergeable(acc[|acc| - 1], seg, gap) {
        WorkUnitsLast(acc, Joined(acc[|acc| - 1], seg, true));
      } else {
        WorkUnitsSnoc(acc, seg);
      }
    }
  }

  // ---- mergeSegments: bridging short idle time ----

  /** The last output segment with its end set to `end`. */
  function EndAt(out: seq<TimelineSegment>, end: int): seq<TimelineSegment>
    requires out != []
  {
    out[..|out| - 1] + [out[|out| - 1].(end := end)]
  }

  /**
   * The second pass of `mergeSegments` over the first `i` segments of `m`: a
   * short idle segment between two non-idle ones is absorbed into the segment
   * before it; a non-idle segment that follows a non-idle one within `gap`
   * minutes pulls that one's end up to its start.
   */
  function Bridge(m: seq<TimelineSegment>, i: nat, gap: int): seq<TimelineSegment>
    requires i <= |m|
  {
    if i == 0 then []
    else
      var out, seg := Bridge(m, i - 1, gap), m[i - 1];
      var shortIdle := seg.kind == IdleKind && seg.end - seg.start <= gap;
      if shortIdle && out != [] && i < |m| && out[|out| - 1].kind != IdleKind && m[i].kind != IdleKind then
        EndAt(out, Max(out[|out| - 1].end, seg.end))
      else if out != [] && out[|out| - 1].kind != IdleKind && seg.kind != IdleKind
              && seg.start - out[|out| - 1].end <= gap && out[|out| - 1].end < seg.start then
        EndAt(out, seg.start) + [seg]
      else
        out + [seg]
  }

  method BridgePass(m: seq<TimelineSegment>, gap: int) returns (output: seq<TimelineSegment>)
    ensures output == Bridge(m, |m|, gap)
  {
    output := [];
    for i := 0 to |m|
      invariant output == Bridge(m, i, gap)
    {
      var seg := m[i];
      var isShortIdle := seg.kind == IdleKind && seg.end - seg.start <= gap;
      if isShortIdle && |output| > 0 && i + 1 < |m| && output[|output| - 1].kind != IdleKind && m[i + 1].kind != IdleKind {
        output := EndAt(output, Max(output[|output| - 1].end, seg.end));
        continue;
      }
      if |output| > 0 && output[|output| - 1].kind != IdleKind && seg.kind != IdleKind
         && seg.start - output[|output| - 1].end <= gap && output[|output| - 1].end < seg.start {
        output := EndAt(output, seg.start);
      }
      output := output + [seg];
    }
  }

  /** Moving an end does not change units. */
  lemma {:induction false} EndAtUnits(out: seq<TimelineSegment>, end: int)
    requires out != []
    ensures WorkUnits(EndAt(out, end)) == WorkUnits(out)
  {
    WorkUnitsLast(out, out[|out| - 1].(end := end));
  }

  /** The second pass only drops idle segments, so it keeps the units of the work. */
  lemma {:induction false} BridgeUnits(m: seq<TimelineSegment>, i: nat, gap: int)
    requires i <= |m|
    ensures WorkUnits(Bridge(m, i, gap)) == WorkUnits(m[..i])
  {
    if i > 0 {
      var out, seg := Bridge(m, i - 1, gap), m[i - 1];
      BridgeUnits(m, i - 1, gap);
      assert m[..i] == m[..i - 1] + [seg];
      WorkUnitsSnoc(m[..i - 1], seg);
      if out != [] {
        EndAtUnits(out, Max(out[|out| - 1].end, seg.end));
        EndAtUnits(out, seg.start);
        WorkUnitsSnoc(EndAt(out, seg.start), seg);
      }
      WorkUnitsSnoc(out, seg);
    }
  }

  // ---- mergeSegments ----

  /**
   * `mergeSegments` as a function: sort by start, coalesce adding units,
   * bridge short idle time, coalesce again; `sumLast` says whether the last
   * pass adds units.
   */
  function MergedTimeline(segments: seq<TimelineSegment>, gap: int, sumLast: bool): seq<TimelineSegment>
  {
    if segments == [] then []
    else
      var merged := Coalesce(SortBy(segments, SegmentStart), gap, true);
      Coalesce(Bridge(merged, |merged|, gap), gap, sumLast)
  }

  /**
   * `mergeSegments` as written: its last pass does not add units, so units of
   * a work segment that follows a bridged idle gap are lost. Picking 0–10 with
   * 5 units, idle 10–20 and picking 20–30 with 7 units end as one picking
   * segment 0–30 with 5 units.
   */
  lemma {:induction false} MergeSegmentsLosesUnits()
    ensures var segments := [TimelineSegment(0, 10, PickingLane, PickingKind, Some(5)),
                             TimelineSegment(10, 20, IdleLane, IdleKind, None),
                             TimelineSegment(20, 30, PickingLane, PickingKind, Some(7))];
      && WorkUnits(segments) == 12
      && MergedTimeline(segments, 15, false) == [TimelineSegment(0, 30, PickingLane, PickingKind, Some(5))]
  {
    var a := TimelineSegment(0, 10, PickingLane, PickingKind, Some(5));
    var b := TimelineSegment(10, 20, IdleLane, IdleKind, None);
    var c := TimelineSegment(20, 30, PickingLane, PickingKind, Some(7));
    var segments := [a, b, c];
    assert WorkUnits(segments) == 12 by {
      assert WorkUnitsOf(a) == 5 && WorkUnitsOf(b) == 0 && WorkUnitsOf(c) == 7;
      assert segments[1..] == [b, c] && segments[1..][1..] == [c] && segments[1..][1..][1..] == [];
      assert SumOf([c], WorkUnitsOf) == 7;
      assert SumOf([b, c], WorkUnitsOf) == 7;
    }
    SortBySorted(segments, SegmentStart);
    ExampleFirstPass(a, b, c);
    ExampleBridge(a, b, c);
    ExampleLastPass(a.(end := 20), c);
  }

  lemma {:induction false} ExampleFirstPass(a: TimelineSegment, b: TimelineSegment, c: TimelineSegment)
    requires a.kind == c.kind != b.kind
    ensures Coalesce([a, b, c], 15, true) == [a, b, c]
  {
    assert [a, b, c][..2] == [a, b] && [a, b][..1] == [a] && [a][..0] == [];
    assert Coalesce([a], 15, true) == [a];
    assert Coalesce([a, b], 15, true) == [a, b];
  }

  lemma {:induction false} ExampleBridge(a: TimelineSegment, b: TimelineSegment, c: TimelineSegment)
    requires a == TimelineSegment(0, 10, PickingLane, PickingKind, Some(5))
    requires b == TimelineSegment(10, 20, IdleLane, IdleKind, None)
    requires c == TimelineSegment(20, 30, PickingLane, PickingKind, Some(7))
    ensures Bridge([a, b, c], 3, 15) == [a.(end := 20), c]
  {
    assert Bridge([a, b, c], 1, 15) == [a];
    assert Bridge([a, b, c], 2, 15) == [a.(end := 20)];
  }

  lemma {:induction false} ExampleLastPass(a: TimelineSegment, c: TimelineSegment)
    requires a == TimelineSegment(0, 20, PickingLane, PickingKind, Some(5))
    requires c == TimelineSegment(20, 30, PickingLane, PickingKind, Some(7))
    ensures Coalesce([a, c], 15, false) == [a.(end := 30)]
  {
    assert [a, c][..1] == [a] && [a][..0] == [];
    assert Coalesce([a], 15, false) == [a];
    assert Mergeable(a, c, 15);
    assert Joined(a, c, false) == a.(end := 30);
  }

  /**
   * `mergeSegments` with the last pass adding units as the first one does.
   * Empty input gives empty output; the work keeps its units, and no two
   * neighbours of the result could be coalesced any further.
   */
  method MergeSegments(segments: seq<TimelineSegment>, gap: int) returns (finalOut: seq<TimelineSegment>)
    ensures finalOut == MergedTimeline(segments, gap, true)
    ensures WorkUnits(finalOut) == WorkUnits(segments)
    ensures Apart(finalOut, gap)
    ensures |finalOut| <= |segments|
  {
    if |segments| == 0 {
      return [];
    }
    var sorted := SortBy(segments, SegmentStart);
    var merged := CoalescePass(sorted, gap, true);
    var output := BridgePass(merged, gap);
    finalOut := CoalescePass(output, gap, true);
    SumOfSortBy(segments, SegmentStart, WorkUnitsOf);
    CoalesceUnits(sorted, gap);
    BridgeUnits(merged, |merged|, gap);
    assert merged[..|merged|] == merged;
    CoalesceUnits(output, gap);
    CoalesceApart(sorted, gap, true);
    CoalesceApart(output, gap, true);
    BridgeLength(merged, |merged|, gap);
  }

  lemma {:induction false} BridgeLength(m: seq<TimelineSegment>, i: nat, gap: int)
    requires i <= |m|
    ensures |Bridge(m, i, gap)| <= i
  {
    if i > 0 {
      BridgeLength(m, i - 1, gap);
    }
  }

  // ---- applyAttendanceWindows ----

  function Min(a: int, b: int): int { if a <= b then a else b }

  /**
   * The pieces of idle segment `seg` that the walk over `windows` from index
   * `j` on emits with the cursor at `cursor`: before each window that meets
   * the rest of the segment, the idle part up to it, then the part inside it
   * as attendance idle time; at the end, the idle rest of the segment.
   */
  function SplitFrom(seg: TimelineSegment, windows: seq<Interval>, j: nat, cursor: int): seq<TimelineSegment>
    requires j <= |windows|
    decreases |windows| - j
  {
    if j == |windows| then
      (if cursor < seg.end then [seg.(start := cursor)] else [])
    else
      var win := windows[j];
      if win.end <= cursor || win.start >= seg.end then SplitFrom(seg, windows, j + 1, cursor)
      else
        var start, end := Max(cursor, win.start), Min(seg.end, win.end);
        (if start > cursor then [seg.(start := cursor, end := start)] else [])
        + (if end > start then [TimelineSegment(start, end, AttendanceLane, AttendanceIdleKind, None)] else [])
        + SplitFrom(seg, windows, j + 1, end)
  }

  /** The pieces of the segments of `list`: work unchanged, idle split against the windows. */
  function Applied(list: seq<TimelineSegment>, windows: seq<Interval>): seq<TimelineSegment>
  {
    if list == [] then []
    else
      var seg := list[|list| - 1];
      Applied(list[..|list| - 1], windows) + (if seg.kind != IdleKind then [seg] else SplitFrom(seg, windows, 0, seg.start))
  }

  /** The walk over the windows for one idle segment. */
  method SplitIdle(seg: TimelineSegment, windows: seq<Interval>) returns (pieces: seq<TimelineSegment>)
    ensures pieces == SplitFrom(seg, windows, 0, seg.start)
  {
    pieces := [];
    var cursor := seg.start;
    for j := 0 to |windows|
      invariant pieces + SplitFrom(seg, windows, j, cursor) == SplitFrom(seg, windows, 0, seg.start)
    {
      var win := windows[j];
      if win.end <= cursor || win.start >= seg.end {
        continue;
      }
      var start := Max(cursor, win.start);
      var end := Min(seg.end, win.end);
      var before := pieces;
      if start > cursor {
        pieces := pieces + [seg.(start := cursor, end := start)];
      }
      if end > start {
        pieces := pieces + [TimelineSegment(start, end, AttendanceLane, AttendanceIdleKind, None)];
      }
      assert pieces == before + (if start > cursor then [seg.(start := cursor, end := start)] else [])
                              + (if end > start then [TimelineSegment(start, end, AttendanceLane, AttendanceIdleKind, None)] else []);
      cursor := end;
    }
    if cursor < seg.end {
      pieces := pieces + [seg.(start := cursor)];
    }
  }

  /**
   * `applyAttendanceWindows`: without windows the list is returned as it is;
   * otherwise each idle segment is replaced by its pieces.
   */
  method ApplyAttendanceWindows(list: seq<TimelineSegment>, windows: seq<Interval>) returns (output: seq<TimelineSegment>)
    ensures windows == [] ==> output == list
    ensures windows != [] ==> output == Applied(list, windows)
  {
    if |windows| == 0 {
      return list;
    }
    output := [];
    for i := 0 to |list|
      invariant output == Applied(list[..i], windows)
    {
      assert list[..i + 1][..i] == list[..i];
      var seg := list[i];
      if seg.kind != IdleKind {
        output := output + [seg];
      } else {
        var pieces := SplitIdle(seg, windows);
        output := output + pieces;
      }
    }
    assert list[..|list|] == list;
  }

  /** `pieces` cut [a, b] into non-empty parts, each beginning where the previous one ends. */
  ghost predicate Tiles(pieces: seq<TimelineSegment>, a: int, b: int)
  {
    && (pieces == [] ==> a == b)
    && (pieces != [] ==> pieces[0].start == a && pieces[|pieces| - 1].end == b)
    && (forall k :: 0 <= k < |pieces| ==> pieces[k].start < pieces[k].end)
    && (forall k :: 0 <= k < |pieces| - 1 ==> pieces[k].end == pieces[k + 1].start)
  }

  lemma {:induction false} TilesAppend(p: seq<TimelineSegment>, q: seq<TimelineSegment>, a: int, b: int, c: int)
    requires Tiles(p, a, b) && Tiles(q, b, c)
    ensures Tiles(p + q, a, c)
  {
    var r := p + q;
    forall k | 0 <= k < |r| - 1
      ensures r[k].end == r[k + 1].start
    {
      if k < |p| - 1 {
        assert r[k] == p[k] && r[k + 1] == p[k + 1];
      } else if k == |p| - 1 {
        assert r[k] == p[k] && r[k + 1] == q[0];
      } else {
        assert r[k] == q[k - |p|] && r[k + 1] == q[k - |p| + 1];
      }
    }
    forall k | 0 <= k < |r|
      ensures r[k].start < r[k].end
    {
      if k < |p| {
        assert r[k] == p[k];
      } else {
        assert r[k] == q[k - |p|];
      }
    }
    if p == [] {
      assert r == q;
    } else if q == [] {
      assert r == p;
    }
  }

  /** A single non-empty piece, or nothing for an empty span. */
  lemma {:induction false} TilesOne(x: TimelineSegment, a: int, b: int)
    requires a <= b && x.start == a && x.end == b
    ensures Tiles(if b > a then [x] else [], a, b)
  {
  }

  /**
   * With non-empty windows, the pieces of an idle segment cut the segment's
   * rest, from the cursor to its end, into consecutive non-empty parts.
   */
  lemma {:induction false} SplitTiles(seg: TimelineSegment, windows: seq<Interval>, j: nat, cursor: int)
    requires j <= |windows| && AllProper(windows) && cursor <= seg.end
    ensures Tiles(SplitFrom(seg, windows, j, cursor), cursor, seg.end)
    decreases |windows| - j
  {
    if j == |windows| {
      TilesOne(seg.(start := cursor), cursor, seg.end);
    } else {
      var win := windows[j];
      if win.end <= cursor || win.start >= seg.end {
        SplitTiles(seg, windows, j + 1, cursor);
      } else {
        assert Proper(win);
        var start, end := Max(cursor, win.start), Min(seg.end, win.end);
        var gapPart := if start > cursor then [seg.(start := cursor, end := start)] else [];
        var inside := if end > start then [TimelineSegment(start, end, AttendanceLane, AttendanceIdleKind, None)] else [];
        TilesOne(seg.(start := cursor, end := start), cursor, start);
        TilesOne(TimelineSegment(start, end, AttendanceLane, AttendanceIdleKind, None), start, end);
        SplitTiles(seg, windows, j + 1, end);
        TilesAppend(gapPart, inside, cursor, start, end);
        TilesAppend(gapPart + inside, SplitFrom(seg, windows, j + 1, end), cursor, end, seg.end);
      }
    }
  }

  /** The piece lies inside some window. */
  ghost predicate InWindow(x: TimelineSegment, windows: seq<Interval>)
  {
    exists w :: 0 <= w < |windows| && windows[w].start <= x.start && x.end <= windows[w].end
  }

  /** The piece's interior meets no window. */
  ghost predicate OutsideWindows(x: TimelineSegment, windows: seq<Interval>)
  {
    forall w :: 0 <= w < |windows| ==> windows[w].end <= x.start || windows[w].start >= x.end
  }

  /** Every window before `j` is behind the cursor or past the segment, or the segment is used up. */
  ghost predicate Behind(windows: seq<Interval>, j: nat, cursor: int, segEnd: int)
  {
    forall w :: 0 <= w < j && w < |windows| ==> windows[w].end <= cursor || windows[w].start >= segEnd || cursor >= segEnd
  }

  /**
   * The attendance pieces lie inside a window, and the other pieces, when the
   * windows are merged, meet no window: each piece is attendance idle time
   * exactly when it is spent inside the attendance windows.
   */
  ghost predicate Classified(pieces: seq<TimelineSegment>, seg: TimelineSegment, windows: seq<Interval>)
  {
    forall k :: 0 <= k < |pieces| ==>
      if pieces[k].kind == AttendanceIdleKind then
        pieces[k].lane == AttendanceLane && pieces[k].units.None? && InWindow(pieces[k], windows)
      else
        pieces[k].lane == seg.lane && pieces[k].kind == seg.kind && pieces[k].units == seg.units
        && OutsideWindows(pieces[k], windows)
  }

  lemma {:induction false} ClassifiedAppend(p: seq<TimelineSegment>, q: seq<TimelineSegment>, seg: TimelineSegment, windows: seq<Interval>)
    requires Classified(p, seg, windows) && Classified(q, seg, windows)
    ensures Classified(p + q, seg, windows)
  {
    forall k | 0 <= k < |p + q|
      ensures (p + q)[k] == if k < |p| then p[k] else q[k - |p|]
    {
    }
  }

  /** The idle part before window `j` meets no window. */
  lemma {:induction false} GapOutside(seg: TimelineSegment, windows: seq<Interval>, j: nat, cursor: int)
    requires j < |windows| && Canonical(windows) && Behind(windows, j, cursor, seg.end)
    requires cursor < windows[j].start < seg.end
    ensures OutsideWindows(seg.(start := cursor, end := windows[j].start), windows)
  {
    forall w | 0 <= w < |windows|
      ensures windows[w].end <= cursor || windows[w].start >= windows[j].start
    {
      if w > j {
        assert Proper(windows[j]);
      }
    }
  }

  /** The idle rest after the last window meets no window. */
  lemma {:induction false} TailOutside(seg: TimelineSegment, windows: seq<Interval>, cursor: int)
    requires Behind(windows, |windows|, cursor, seg.end) && cursor < seg.end
    ensures OutsideWindows(seg.(start := cursor), windows)
  {
  }

  /** Every piece is classified by whether it lies inside the merged windows. */
  lemma {:induction false} SplitClassified(seg: TimelineSegment, windows: seq<Interval>, j: nat, cursor: int)
    requires j <= |windows| && Canonical(windows) && Behind(windows, j, cursor, seg.end)
    requires seg.kind == IdleKind && cursor <= seg.end
    ensures Classified(SplitFrom(seg, windows, j, cursor), seg, windows)
    decreases |windows| - j
  {
    if j == |windows| {
      if cursor < seg.end {
        TailOutside(seg, windows, cursor);
      }
    } else {
      var win := windows[j];
      if win.end <= cursor || win.start >= seg.end {
        SplitClassified(seg, windows, j + 1, cursor);
      } else {
        var start, end := Max(cursor, win.start), Min(seg.end, win.end);
        var gapPart := if start > cursor then [seg.(start := cursor, end := start)] else [];
        var inside := if end > start then [TimelineSegment(start, end, AttendanceLane, AttendanceIdleKind, None)] else [];
        assert Classified(gapPart, seg, windows) by {
          if start > cursor {
            GapOutside(seg, windows, j, cursor);
            assert gapPart[0] == seg.(start := cursor, end := windows[j].start);
          }
        }
        assert Classified(inside, seg, windows) by {
          if end > start {
            assert windows[j].start <= inside[0].start && inside[0].end <= windows[j].end;
          }
        }
        BehindStep(windows, j, cursor, seg.end, end);
        SplitClassified(seg, windows, j + 1, end);
        ClassifiedAppend(gapPart, inside, seg, windows);
        ClassifiedAppend(gapPart + inside, SplitFrom(seg, windows, j + 1, end), seg, windows);
      }
    }
  }

  /** Passing a window that meets the segment moves the cursor past it, or to the segment's end. */
  lemma {:induction false} BehindStep(windows: seq<Interval>, j: nat, cursor: int, segEnd: int, end: int)
    requires j < |windows| && Behind(windows, j, cursor, segEnd)
    requires end == Min(segEnd, windows[j].end) && end >= cursor
    ensures Behind(windows, j + 1, end, segEnd)
  {
  }

  /**
   * Each idle segment with merged, non-empty windows: its pieces cut it into
   * consecutive parts, the attendance parts inside a window and the others
   * outside every window.
   */
  lemma {:induction false} SplitIsPartition(seg: TimelineSegment, windows: seq<Interval>)
    requires Canonical(windows) && seg.kind == IdleKind && seg.start <= seg.end
    ensures Tiles(SplitFrom(seg, windows, 0, seg.start), seg.start, seg.end)
    ensures Classified(SplitFrom(seg, windows, 0, seg.start), seg, windows)
  {
    SplitTiles(seg, windows, 0, seg.start);
    SplitClassified(seg, windows, 0, seg.start);
  }
}
