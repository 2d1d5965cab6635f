/**
 * The per-stage report of the backend (`computeReport` for sorting and
 * picking, the statistics half of `parsePackingFile` for packing): the
 * in-window scans are grouped by operator in order of first appearance, each
 * operator gets its units, effective work hours and units per hour, and the
 * report carries the totals and the validation verdict.
 */
module StageReport {
  import opened Wrappers
  import opened Sorting
  import opened Segments
  import opened Normalize
  import opened Grouping

  /** The grouping key of the scans. */
  function Operator(e: Event): string { e.operator }

  // ---- one operator ----

  /** The packing split: units and effective hours of the single-item and multi-item scans. */
  datatype PackingSplit = PackingSplit(singleUnits: int, multiUnits: int, singleEwhHours: real, multiEwhHours: real)

  datatype OperatorStat = OperatorStat(operator: string, totalUnits: int, ewhHours: real, uph: Option<real>, packing: Option<PackingSplit>)

  /** Milliseconds to hours. */
  function Hours(ms: int): real { ms as real / 3600000.0 }

  /** Units per hour, absent when no effective time was worked. */
  function PerHour(units: int, hours: real): (r: Option<real>)
    ensures r.Some? <==> hours > 0.0
    ensures r.Some? ==> r.value * hours == units as real
  {
    if hours > 0.0 then Some(units as real / hours) else None
  }

  /** The scans of one packing category, in order. */
  function OfCategory(s: seq<Event>, c: Category): seq<Event>
  {
    if s == [] then [] else (if s[0].category == Some(c) then [s[0]] else []) + OfCategory(s[1..], c)
  }

  /** Every packing scan is single or multi, so the two category sums add up to the operator's units. */
  lemma {:induction false} CategorySplit(s: seq<Event>)
    requires forall k :: 0 <= k < |s| ==> s[k].category.Some?
    ensures SumOf(OfCategory(s, Single), Units) + SumOf(OfCategory(s, Multi), Units) == SumOf(s, Units)
  {
    if s != [] {
      CategorySplit(s[1..]);
      var x := s[0];
      var a, b := OfCategory(s[1..], Single), OfCategory(s[1..], Multi);
      assert x.category.Some?;
      if x.category == Some(Single) {
        assert OfCategory(s, Single) == [x] + a;
        assert ([x] + a)[1..] == a;
        assert OfCategory(s, Multi) == [] + b == b;
      } else {
        assert x.category.value.Multi?;
        assert x.category == Some(Multi);
        assert OfCategory(s, Multi) == [x] + b;
        assert ([x] + b)[1..] == b;
        assert OfCategory(s, Single) == [] + a == a;
      }
    }
  }

  /** `for (const ev of list) units += ev.units` */
  method SumUnits(list: seq<Event>) returns (units: int)
    ensures units == SumOf(list, Units)
  {
    units := 0;
    for i := 0 to |list|
      invariant units == SumOf(list[..i], Units)
    {
      assert list[..i + 1] == list[..i] + [list[i]];
      SumOfAppend(list[..i], [list[i]], Units);
      assert SumOf([list[i]], Units) == list[i].units by { assert [list[i]][1..] == []; }
      units := units + list[i].units;
    }
    assert list[..|list|] == list;
  }

  /** The per-category packing figures of one operator's time-sorted scans. */
  method PackingFigures(list: seq<Event>, listSorted: seq<Event>, start: int, end: int, gapMs: int)
    returns (split: PackingSplit)
    requires multiset(listSorted) == multiset(list)
    ensures split.singleUnits == SumOf(OfCategory(listSorted, Single), Units)
    ensures split.multiUnits == SumOf(OfCategory(listSorted, Multi), Units)
    ensures split.singleEwhHours == Hours(Ewh(SortBy(OfCategory(listSorted, Single), TsKey), gapMs))
    ensures split.multiEwhHours == Hours(Ewh(SortBy(OfCategory(listSorted, Multi), TsKey), gapMs))
    ensures (forall e :: e in list ==> e.category.Some?) ==>
      split.singleUnits + split.multiUnits == SumOf(listSorted, Units)
  {
    var singleEvents := OfCategory(listSorted, Single);
    var multiEvents := OfCategory(listSorted, Multi);
    var singleUnits := SumUnits(singleEvents);
    var multiUnits := SumUnits(multiEvents);
    var singleEwhHours := ComputeEwhForEvents(singleEvents, start, end, gapMs);
    var multiEwhHours := ComputeEwhForEvents(multiEvents, start, end, gapMs);
    split := PackingSplit(singleUnits, multiUnits, singleEwhHours, multiEwhHours);
    CategoriesKept(list, listSorted);
  }

  /** When every scan has a category, reordering keeps that and the two category totals add up. */
  lemma CategoriesKept(list: seq<Event>, listSorted: seq<Event>)
    requires multiset(listSorted) == multiset(list)
    ensures (forall e :: e in list ==> e.category.Some?) ==>
      SumOf(OfCategory(listSorted, Single), Units) + SumOf(OfCategory(listSorted, Multi), Units) == SumOf(listSorted, Units)
  {
    if forall e :: e in list ==> e.category.Some? {
      forall k | 0 <= k < |listSorted|
        ensures listSorted[k].category.Some?
      {
        assert listSorted[k] in multiset(list);
      }
      CategorySplit(listSorted);
    }
  }

  /**
   * The packing figures of one operator's scans: for each category, the units
   * and the effective hours of its scans in time order.
   */
  function PackingOf(list: seq<Event>, gapMs: int): PackingSplit
  {
    var s := SortBy(list, TsKey);
    PackingSplit(SumOf(OfCategory(s, Single), Units), SumOf(OfCategory(s, Multi), Units),
                 Hours(Ewh(SortBy(OfCategory(s, Single), TsKey), gapMs)),
                 Hours(Ewh(SortBy(OfCategory(s, Multi), TsKey), gapMs)))
  }

  /**
   * The statistics of one operator: the scans sorted by time, their units,
   * the segments with idle time (category splitting for packing), the
   * effective hours and units per hour, and for packing the per-category
   * figures.
   */
  method OperatorReport(op: string, list: seq<Event>, start: int, end: int, gapMs: int, packing: bool)
    returns (stat: OperatorStat, segs: seq<Segment>)
    ensures stat.operator == op
    ensures stat.totalUnits == SumOf(list, Units)
    ensures stat.ewhHours == Hours(Ewh(SortBy(list, TsKey), gapMs)) && stat.ewhHours == Hours(WorkTime(segs))
    ensures stat.uph == PerHour(stat.totalUnits, stat.ewhHours)
    ensures Idles(segs) == var s := SortBy(list, TsKey); LeadIdle(s, start) + GapIdles(s, gapMs) + TrailIdle(s, end)
    ensures Ordered(segs)
    ensures gapMs >= 0 ==> AllPositive(segs)
    ensures stat.packing == if packing then Some(PackingOf(list, gapMs)) else None
    ensures packing && (forall e :: e in list ==> e.category.Some?) ==>
      stat.packing.value.singleUnits + stat.packing.value.multiUnits == stat.totalUnits
  {
    var listSorted := SortBy(list, TsKey);
    SortedTs(listSorted);
    TsSortedSorts(listSorted);
    assert multiset(listSorted) == multiset(list);
    var units := SumUnits(listSorted);
    SumOfSortBy(list, TsKey, Units);
    var ewhMs;
    ghost var again, spans;
    segs, ewhMs, again, spans := BuildSegments(listSorted, start, end, gapMs, true, packing);
    var ewhHours := Hours(ewhMs);
    var split := None;
    if packing {
      var figures := PackingFigures(list, listSorted, start, end, gapMs);
      split := Some(figures);
    }
    stat := OperatorStat(op, units, ewhHours, PerHour(units, ewhHours), split);
  }

  // ---- the whole report ----

  /** The effective hours of the groups of `order`, summed. */
  function HoursOver(order: seq<string>, es: seq<Event>, gapMs: int): real
  {
    if order == [] then 0.0
    else HoursOver(order[..|order| - 1], es, gapMs) + Hours(Ewh(SortBy(Of(es, Operator, order[|order| - 1]), TsKey), gapMs))
  }

  /** What the statistics loop promises about the stat of operator `op`. */
  predicate StatOf(s: OperatorStat, op: string, es: seq<Event>, gapMs: int, packing: bool)
  {
    && s.operator == op
    && s.totalUnits == SumOf(Of(es, Operator, op), Units)
    && s.ewhHours == Hours(Ewh(SortBy(Of(es, Operator, op), TsKey), gapMs))
    && s.uph == PerHour(s.totalUnits, s.ewhHours)
    && s.packing == (if packing then Some(PackingOf(Of(es, Operator, op), gapMs)) else None)
  }

  /** The one stat that `StatOf` allows for operator `op`. */
  function StatFor(op: string, es: seq<Event>, gapMs: int, packing: bool): OperatorStat
  {
    var list := Of(es, Operator, op);
    var units := SumOf(list, Units);
    var hours := Hours(Ewh(SortBy(list, TsKey), gapMs));
    OperatorStat(op, units, hours, PerHour(units, hours), if packing then Some(PackingOf(list, gapMs)) else None)
  }

  /** The stats of the operators of `order`, in that order. */
  function StatsFor(order: seq<string>, es: seq<Event>, gapMs: int, packing: bool): seq<OperatorStat>
  {
    seq(|order|, k requires 0 <= k < |order| => StatFor(order[k], es, gapMs, packing))
  }

  /** What the statistics loop promises about the segments of operator `op`. */
  ghost predicate SegmentsOf(segs: seq<Segment>, op: string, es: seq<Event>, start: int, end: int, gapMs: int)
  {
    var s := SortBy(Of(es, Operator, op), TsKey);
    && Hours(WorkTime(segs)) == Hours(Ewh(s, gapMs))
    && Idles(segs) == LeadIdle(s, start) + GapIdles(s, gapMs) + TrailIdle(s, end)
    && Ordered(segs)
  }

  /** One stat per operator of `order`, in that order. */
  predicate StatsDone(order: seq<string>, stats: seq<OperatorStat>, es: seq<Event>, gapMs: int, packing: bool)
  {
    |stats| == |order| && forall k :: 0 <= k < |order| ==> StatOf(stats[k], order[k], es, gapMs, packing)
  }

  /** The statistics loop leaves exactly the stats `StatsFor` describes: every figure of every stat is determined. */
  lemma {:induction false} StatsDoneFor(order: seq<string>, stats: seq<OperatorStat>, es: seq<Event>, gapMs: int, packing: bool)
    requires StatsDone(order, stats, es, gapMs, packing)
    ensures stats == StatsFor(order, es, gapMs, packing)
  {
    forall k | 0 <= k < |order|
      ensures stats[k] == StatsFor(order, es, gapMs, packing)[k]
    {
      assert StatOf(stats[k], order[k], es, gapMs, packing);
    }
  }

  /** One segment list per operator of `order`. */
  ghost predicate SegmentsDone(order: seq<string>, segments: map<string, seq<Segment>>, es: seq<Event>, start: int, end: int, gapMs: int)
  {
    && (forall op :: op in segments <==> op in order)
    && (forall op :: op in segments ==> SegmentsOf(segments[op], op, es, start, end, gapMs))
  }

  lemma {:induction false} StatsStep(order: seq<string>, stats: seq<OperatorStat>, es: seq<Event>, gapMs: int, packing: bool, op: string, stat: OperatorStat)
    requires StatsDone(order, stats, es, gapMs, packing) && StatOf(stat, op, es, gapMs, packing)
    ensures StatsDone(order + [op], stats + [stat], es, gapMs, packing)
  {
    var order', stats' := order + [op], stats + [stat];
    forall k | 0 <= k < |order'|
      ensures StatOf(stats'[k], order'[k], es, gapMs, packing)
    {
      if k < |order| {
        assert stats'[k] == stats[k] && order'[k] == order[k];
      } else {
        assert stats'[k] == stat && order'[k] == op;
      }
    }
  }

  lemma {:induction false} SegmentsStep(order: seq<string>, segments: map<string, seq<Segment>>, es: seq<Event>, start: int, end: int, gapMs: int,
                     op: string, segs: seq<Segment>)
    requires SegmentsDone(order, segments, es, start, end, gapMs) && SegmentsOf(segs, op, es, start, end, gapMs)
    ensures SegmentsDone(order + [op], segments[op := segs], es, start, end, gapMs)
  {
    var segments' := segments[op := segs];
    forall o | o in segments'
      ensures SegmentsOf(segments'[o], o, es, start, end, gapMs)
    {
      if o != op {
        assert segments'[o] == segments[o];
      }
    }
  }

  lemma {:induction false} HoursOverOp(order: seq<string>, es: seq<Event>, gapMs: int, op: string)
    ensures HoursOver(order + [op], es, gapMs) == HoursOver(order, es, gapMs) + Hours(Ewh(SortBy(Of(es, Operator, op), TsKey), gapMs))
  {
    assert (order + [op])[..|order|] == order;
  }

  lemma {:induction false} LoopStep(order: seq<string>, i: nat, stats: seq<OperatorStat>, segments: map<string, seq<Segment>>,
                 totalUnitsAll: int, totalEwhHoursAll: real,
                 es: seq<Event>, start: int, end: int, gapMs: int, packing: bool, stat: OperatorStat, segs: seq<Segment>)
    requires i < |order|
    requires StatsDone(order[..i], stats, es, gapMs, packing)
    requires SegmentsDone(order[..i], segments, es, start, end, gapMs)
    requires totalUnitsAll == GroupSums(order[..i], es, Operator, Units) && totalEwhHoursAll == HoursOver(order[..i], es, gapMs)
    requires StatOf(stat, order[i], es, gapMs, packing) && SegmentsOf(segs, order[i], es, start, end, gapMs)
    ensures StatsDone(order[..i + 1], stats + [stat], es, gapMs, packing)
    ensures SegmentsDone(order[..i + 1], segments[order[i] := segs], es, start, end, gapMs)
    ensures totalUnitsAll + stat.totalUnits == GroupSums(order[..i + 1], es, Operator, Units)
    ensures totalEwhHoursAll + stat.ewhHours == HoursOver(order[..i + 1], es, gapMs)
  {
    var done, op := order[..i], order[i];
    PrefixSnoc(order, i);
    StatsStep(done, stats, es, gapMs, packing, op, stat);
    SegmentsStep(done, segments, es, start, end, gapMs, op, segs);
    GroupSumsSnoc(done, es, Operator, Units, op);
    HoursOverOp(done, es, gapMs, op);
  }

  /** The loop over `byOperator.entries()`: one stat and one segment list per operator, and the running totals. */
  method StatsLoop(order: seq<string>, groups: map<string, seq<Event>>, ghost es: seq<Event>,
                   start: int, end: int, gapMs: int, packing: bool)
    returns (stats: seq<OperatorStat>, segments: map<string, seq<Segment>>, totalUnitsAll: int, totalEwhHoursAll: real)
    requires forall op :: op in order ==> op in groups && groups[op] == Of(es, Operator, op)
    ensures StatsDone(order, stats, es, gapMs, packing)
    ensures SegmentsDone(order, segments, es, start, end, gapMs)
    ensures totalUnitsAll == GroupSums(order, es, Operator, Units)
    ensures totalEwhHoursAll == HoursOver(order, es, gapMs)
  {
    stats, segments, totalUnitsAll, totalEwhHoursAll := [], map[], 0, 0.0;
    for i := 0 to |order|
      invariant StatsDone(order[..i], stats, es, gapMs, packing)
      invariant SegmentsDone(order[..i], segments, es, start, end, gapMs)
      invariant totalUnitsAll == GroupSums(order[..i], es, Operator, Units)
      invariant totalEwhHoursAll == HoursOver(order[..i], es, gapMs)
    {
      var op := order[i];
      var stat, segs := OperatorReport(op, groups[op], start, end, gapMs, packing);
      LoopStep(order, i, stats, segments, totalUnitsAll, totalEwhHoursAll, es, start, end, gapMs, packing, stat, segs);
      stats := stats + [stat];
      segments := segments[op := segs];
      totalUnitsAll := totalUnitsAll + stat.totalUnits;
      totalEwhHoursAll := totalEwhHoursAll + stat.ewhHours;
    }
    assert order[..|order|] == order;
  }

  /** The report's sort key: `stats.sort((a, b) => b.totalUnits - a.totalUnits)`, most units first. */
  function UnitsDesc(s: OperatorStat): real { -(s.totalUnits as real) }

  datatype Meta = Meta(totalCount: nat, inWindowCount: nat, coverageRatio: real, parseFail: nat,
                       minTs: Option<int>, maxTs: Option<int>, spanMs: int,
                       status: Status, warnings: seq<Warning>, errors: seq<Error>)

  datatype Kpi = Kpi(employees: nat, totalUnitsAll: int, totalEwhHoursAll: real, avgUph: Option<real>)

  datatype Report = Report(meta: Meta, kpi: Kpi, stats: seq<OperatorStat>, segments: map<string, seq<Segment>>)

  /** The scans of the window that a report is built from. */
  function WindowScans<C>(rows: seq<Row<C>>, start: int, parseTs: C -> Option<int>, toNumber: string -> Option<int>, packing: bool): seq<Event>
  {
    InWindowEvents(KeptRows(rows, start, parseTs, toNumber, packing))
  }

  /**
   * A stage report: normalisation, the window filter, the coverage, the span
   * of all parsed scans, the grouping, the per-operator statistics sorted by
   * units (most first), the totals and the verdict. `packing` selects the
   * packing variant, which assigns categories and splits segments on them.
   */
  method BuildStageReport<C>(rows: seq<Row<C>>, start: int, gapMs: int, packing: bool,
                             parseTs: C -> Option<int>, toNumber: string -> Option<int>)
    returns (report: Report)
    ensures var m := report.meta;
      && m.totalCount == |rows|
      && m.parseFail == Failures(rows, parseTs)
      && m.inWindowCount == |WindowScans(rows, start, parseTs, toNumber, packing)| <= m.totalCount
      && m.coverageRatio == Coverage(m.totalCount, m.inWindowCount) && 0.0 <= m.coverageRatio <= 1.0
      && (m.minTs.None? <==> KeptRows(rows, start, parseTs, toNumber, packing) == [])
      && (m.maxTs.None? <==> KeptRows(rows, start, parseTs, toNumber, packing) == [])
      && (m.minTs.Some? ==> IsMin(m.minTs.value, KeptRows(rows, start, parseTs, toNumber, packing)))
      && (m.maxTs.Some? ==> IsMax(m.maxTs.value, KeptRows(rows, start, parseTs, toNumber, packing)))
      && m.spanMs == (if m.minTs.Some? then m.maxTs.value - m.minTs.value else 0)
      && m.spanMs >= 0
      && (m.status == Reject <==> Rejected(m.totalCount, m.inWindowCount))
      && (m.status == Pass <==> !Rejected(m.totalCount, m.inWindowCount) && !Suspicious(m.totalCount, m.inWindowCount, m.spanMs))
      && (m.errors == [] <==> m.status != Reject)
      && (ParseFailed(m.parseFail) in m.warnings <==> m.parseFail > 0)
      && (CoverageLow(m.coverageRatio) in m.warnings <==> m.totalCount > 0 && 0.7 <= m.coverageRatio < 0.9)
      && (SpanTooLong(m.spanMs) in m.warnings <==> m.spanMs > SpanLimit)
    ensures var es := WindowScans(rows, start, parseTs, toNumber, packing);
      && report.kpi.employees == |Keys(es, Operator)| == |report.stats|
      && report.kpi.totalUnitsAll == SumOf(es, Units)
      && report.kpi.totalEwhHoursAll == HoursOver(Keys(es, Operator), es, gapMs)
      && report.kpi.avgUph == PerHour(report.kpi.totalUnitsAll, report.kpi.totalEwhHoursAll)
      && report.stats == SortBy(StatsFor(Keys(es, Operator), es, gapMs, packing), UnitsDesc)
      && SortedBy(report.stats, UnitsDesc)
      && (forall s :: s in report.stats ==> s.operator in Keys(es, Operator) && StatOf(s, s.operator, es, gapMs, packing))
      && (forall op :: op in Keys(es, Operator) ==> exists s :: s in report.stats && s.operator == op)
      && (forall op :: op in report.segments <==> op in Keys(es, Operator))
      && (forall op :: op in report.segments ==> SegmentsOf(report.segments[op], op, es, start, WindowEnd(start), gapMs))
  {
    var normalized, parseFail, minTs, maxTs := NormalizeRows(rows, start, parseTs, toNumber, packing);
    KeptPlusFailures(rows, start, parseTs, toNumber, packing);
    var totalCount := |normalized| + parseFail;
    var inWindowEvents := InWindowEvents(normalized);
    var inWindowCount := |inWindowEvents|;
    var coverageRatio := Coverage(totalCount, inWindowCount);
    if totalCount > 0 {
      CoverageThresholds(totalCount, inWindowCount);
    }
    var spanMs := if minTs.Some? && maxTs.Some? then maxTs.value - minTs.value else 0;
    if minTs.Some? {
      var w :| 0 <= w < |normalized| && normalized[w].event.ts == minTs.value;
    }

    var order, groups := GroupBy(inWindowEvents, Operator);
    var stats, segments, totalUnitsAll, totalEwhHoursAll := StatsLoop(order, groups, inWindowEvents, start, WindowEnd(start), gapMs, packing);
    GroupSumsPartition(inWindowEvents, Operator, Units);
    var sortedStats := SortBy(stats, UnitsDesc);
    StatsMembership(stats, sortedStats, order, inWindowEvents, gapMs, packing);
    StatsDoneFor(order, stats, inWindowEvents, gapMs, packing);

    var status, warnings, errors := Validate(totalCount, inWindowCount, parseFail, spanMs);
    var avgUph := PerHour(totalUnitsAll, totalEwhHoursAll);
    report := Report(
      Meta(totalCount, inWindowCount, coverageRatio, parseFail, minTs, maxTs, spanMs, status, warnings, errors),
      Kpi(|sortedStats|, totalUnitsAll, totalEwhHoursAll, avgUph),
      sortedStats, segments);
  }

  /** Sorting the stats keeps one stat per operator. */
  lemma {:induction false} StatsMembership(stats: seq<OperatorStat>, sortedStats: seq<OperatorStat>, order: seq<string>,
                        es: seq<Event>, gapMs: int, packing: bool)
    requires StatsDone(order, stats, es, gapMs, packing)
    requires multiset(sortedStats) == multiset(stats)
    ensures forall s :: s in sortedStats ==> s.operator in order && StatOf(s, s.operator, es, gapMs, packing)
    ensures forall op :: op in order ==> exists s :: s in sortedStats && s.operator == op
  {
    forall s | s in sortedStats
      ensures s.operator in order && StatOf(s, s.operator, es, gapMs, packing)
    {
      assert s in multiset(stats);
      var k :| 0 <= k < |stats| && stats[k] == s;
    }
    forall op | op in order
      ensures exists s :: s in sortedStats && s.operator == op
    {
      var k :| 0 <= k < |order| && order[k] == op;
      assert stats[k] in multiset(sortedStats);
    }
  }
}
