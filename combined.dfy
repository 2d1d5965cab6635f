/**
 * The combined report of the frontend (`buildCombinedReport`): the picking,
 * sorting and packing reports of one work date folded into one row per
 * operator. An operator's effective hours are the length of the union of its
 * work in all three stages, and its idle time is the rest of the window.
 */
module Combined {
  import opened Wrappers
  import opened Sorting
  import opened Intervals
  import opened Segments
  import opened Normalize
  import opened Grouping
  import opened StageReport

  datatype Stage = PickingStage | SortingStage | PackingStage

  /** A stage report together with the window it covers (`meta.windowStart`, `meta.windowEnd`). */
  datatype StageInput = StageInput(windowStart: int, windowEnd: int, report: Report)

  /** A segment of the combined timeline: stage work labelled with its stage, or idle time. */
  datatype CombinedSegment =
    | StageWork(stage: Stage, start: int, end: int, units: int, category: Option<Category>)
    | CombinedIdle(start: int, end: int)

  datatype CombinedStat = CombinedStat(operator: string, totalUnits: int, ewhHours: real, uph: real,
                                       pickingUnits: int, sortingUnits: int, packingUnits: int)

  datatype CombinedMeta = CombinedMeta(windowStart: int, windowEnd: int, status: Status, coverageRatio: real)

  datatype CombinedKpi = CombinedKpi(employees: nat, totalUnitsAll: int, totalEwhHoursAll: real, avgUph: real)

  datatype CombinedReport = CombinedReport(meta: CombinedMeta, kpi: CombinedKpi, stats: seq<CombinedStat>,
                                           segments: map<string, seq<CombinedSegment>>)

  // ---- status and coverage ----

  /** `statusOrder`: pass < warn < reject. */
  function Severity(s: Status): nat
  {
    match s
    case Pass => 0
    case Warn => 1
    case Reject => 2
  }

  function StatusOf(x: Option<StageInput>): seq<Status>
  {
    if x.Some? then [x.value.report.meta.status] else []
  }

  /** The statuses of the reports that are present: picking, sorting, packing. */
  function Statuses(picking: Option<StageInput>, sorting: Option<StageInput>, packing: Option<StageInput>): seq<Status>
  {
    StatusOf(picking) + StatusOf(sorting) + StatusOf(packing)
  }

  /**
   * The reduction over the candidate statuses: a later candidate replaces the
   * accumulator only when it is strictly more severe; no candidate means pass.
   * The result is the most severe candidate.
   */
  function MostSevere(candidates: seq<Status>): (r: Status)
    ensures candidates == [] ==> r == Pass
    ensures candidates != [] ==> r in candidates
    ensures forall c :: c in candidates ==> Severity(c) <= Severity(r)
  {
    if |candidates| <= 1 then
      if candidates == [] then Pass else candidates[0]
    else
      var init, cur := candidates[..|candidates| - 1], candidates[|candidates| - 1];
      assert candidates == init + [cur];
      var acc := MostSevere(init);
      if Severity(cur) > Severity(acc) then cur else acc
  }

  /** A report's coverage ratio; an absent report counts as full coverage. */
  function CoverageOf(x: Option<StageInput>): real
  {
    if x.Some? then x.value.report.meta.coverageRatio else 1.0
  }

  /** `Math.min` of three ratios. */
  function Min3(a: real, b: real, c: real): (r: real)
    ensures r <= a && r <= b && r <= c
    ensures r == a || r == b || r == c
  {
    if a <= b && a <= c then a else if b <= c then b else c
  }

  // ---- the entries of `byOperator` ----

  /** The work segments of a stage's list, relabelled with the stage; idle segments are dropped. */
  function WorkOf(segs: seq<Segment>, stage: Stage): seq<CombinedSegment>
  {
    if segs == [] then []
    else
      var last := segs[|segs| - 1];
      WorkOf(segs[..|segs| - 1], stage)
      + (if last.Work? then [StageWork(stage, last.start, last.end, last.units, last.category)] else [])
  }

  /** The intervals that a list of combined segments spans. */
  function Spans(segs: seq<CombinedSegment>): seq<Interval>
  {
    seq(|segs|, k requires 0 <= k < |segs| => Interval(segs[k].start, segs[k].end))
  }

  lemma {:induction false} SpansAppend(a: seq<CombinedSegment>, b: seq<CombinedSegment>)
    ensures Spans(a + b) == Spans(a) + Spans(b)
  {
    assert forall k :: 0 <= k < |a + b| ==> Spans(a + b)[k] == (Spans(a) + Spans(b))[k];
  }

  /**
   * Relabelling keeps the work time: the relabelled segments span as much
   * time as the work segments of the stage's list.
   */
  lemma {:induction false} WorkOfTime(segs: seq<Segment>, stage: Stage)
    ensures TotalLength(Spans(WorkOf(segs, stage))) == WorkTime(segs)
  {
    if segs != [] {
      var init, last := segs[..|segs| - 1], segs[|segs| - 1];
      var tail := if last.Work? then [StageWork(stage, last.start, last.end, last.units, last.category)] else [];
      WorkOfTime(init, stage);
      SpansAppend(WorkOf(init, stage), tail);
      SumOfAppend(Spans(WorkOf(init, stage)), Spans(tail), Length);
      if last.Work? {
        assert Spans(tail) == [Interval(last.start, last.end)];
        assert SumOf(Spans(tail), Length) == last.end - last.start by {
          assert Spans(tail)[1..] == [];
        }
      }
    }
  }

  /** One stat of a stage report with the segments that report holds for its operator (`|| []` when none). */
  datatype Contribution = Contribution(stage: Stage, stat: OperatorStat, segs: seq<Segment>)

  function Op(c: Contribution): string { c.stat.operator }

  function ContributionUnits(c: Contribution): int { c.stat.totalUnits }

  function SegmentsFor(segments: map<string, seq<Segment>>, op: string): seq<Segment>
  {
    if op in segments then segments[op] else []
  }

  /** The stats of one report as `addStats` visits them; none for an absent report. */
  function Contributions(x: Option<StageInput>, stage: Stage): seq<Contribution>
  {
    if x.None? then []
    else
      var r := x.value.report;
      seq(|r.stats|, k requires 0 <= k < |r.stats| => Contribution(stage, r.stats[k], SegmentsFor(r.segments, r.stats[k].operator)))
  }

  /** `addStats` on the picking, the sorting and the packing report, in that order. */
  function AllContributions(picking: Option<StageInput>, sorting: Option<StageInput>, packing: Option<StageInput>): seq<Contribution>
  {
    Contributions(picking, PickingStage) + Contributions(sorting, SortingStage) + Contributions(packing, PackingStage)
  }

  /** An entry of `byOperator`: the units and the relabelled work of each stage. */
  datatype Entry = Entry(pickingUnits: int, sortingUnits: int, packingUnits: int,
                         pickingSegments: seq<CombinedSegment>, sortingSegments: seq<CombinedSegment>,
                         packingSegments: seq<CombinedSegment>)

  const NoEntry := Entry(0, 0, 0, [], [], [])

  /** What `addStats` adds to the entry of a stat's operator. */
  function Add(e: Entry, c: Contribution): Entry
  {
    var units, work := c.stat.totalUnits, WorkOf(c.segs, c.stage);
    match c.stage
    case PickingStage => e.(pickingUnits := e.pickingUnits + units, pickingSegments := e.pickingSegments + work)
    case SortingStage => e.(sortingUnits := e.sortingUnits + units, sortingSegments := e.sortingSegments + work)
    case PackingStage => e.(packingUnits := e.packingUnits + units, packingSegments := e.packingSegments + work)
  }

  /** The entry of `op` once the contributions `cs` have been added. */
  function EntryOf(cs: seq<Contribution>, op: string): Entry
  {
    if cs == [] then NoEntry
    else
      var e := EntryOf(cs[..|cs| - 1], op);
      if Op(cs[|cs| - 1]) == op then Add(e, cs[|cs| - 1]) else e
  }

  function EntryUnits(e: Entry): int { e.pickingUnits + e.sortingUnits + e.packingUnits }

  /** The work of an entry: picking, then sorting, then packing. */
  function EntryWork(e: Entry): seq<CombinedSegment> { e.pickingSegments + e.sortingSegments + e.packingSegments }

  lemma {:induction false} EntryOfSnoc(cs: seq<Contribution>, i: nat, op: string)
    requires i < |cs|
    ensures EntryOf(cs[..i + 1], op) == if Op(cs[i]) == op then Add(EntryOf(cs[..i], op), cs[i]) else EntryOf(cs[..i], op)
  {
    assert cs[..i + 1][..i] == cs[..i];
  }

  /** An operator without stats has an empty entry. */
  lemma {:induction false} EntryAbsent(cs: seq<Contribution>, op: string)
    requires op !in Keys(cs, Op)
    ensures EntryOf(cs, op) == NoEntry
  {
    if cs != [] {
      assert op !in Keys(cs[..|cs| - 1], Op);
      EntryAbsent(cs[..|cs| - 1], op);
    }
  }

  /** An entry's units are the units of every stat of its operator, in all stages. */
  lemma {:induction false} EntryUnitsSum(cs: seq<Contribution>, op: string)
    ensures EntryUnits(EntryOf(cs, op)) == SumOf(Of(cs, Op, op), ContributionUnits)
  {
    if cs != [] {
      var init, c := cs[..|cs| - 1], cs[|cs| - 1];
      EntryUnitsSum(init, op);
      if Op(c) == op {
        SumOfAppend(Of(init, Op, op), [c], ContributionUnits);
        assert SumOf([c], ContributionUnits) == c.stat.totalUnits by { assert [c][1..] == []; }
      } else {
        assert EntryOf(cs, op) == EntryOf(init, op);
        assert Of(cs, Op, op) == Of(init, Op, op) + [] == Of(init, Op, op);
      }
    }
  }

  /**
   * The `addStats` calls: `byOperator` gets one entry per operator, in order
   * of first appearance, holding everything its stats contribute.
   */
  method CollectEntries(cs: seq<Contribution>) returns (order: seq<string>, byOperator: map<string, Entry>)
    ensures order == Keys(cs, Op) && NoDup(order)
    ensures forall op :: op in byOperator <==> op in order
    ensures forall op :: op in byOperator ==> byOperator[op] == EntryOf(cs, op)
  {
    order, byOperator := [], map[];
    for i := 0 to |cs|
      invariant order == Keys(cs[..i], Op)
      invariant forall op :: op in byOperator <==> op in order
      invariant forall op :: op in byOperator ==> byOperator[op] == EntryOf(cs[..i], op)
    {
      var c := cs[i];
      forall op {
        EntryOfSnoc(cs, i, op);
      }
      OfSnoc(cs, Op, i, c.stat.operator);
      if c.stat.operator !in byOperator {
        EntryAbsent(cs[..i], c.stat.operator);
        order := order + [c.stat.operator];
        byOperator := byOperator[c.stat.operator := NoEntry];
      }
      byOperator := byOperator[c.stat.operator := Add(byOperator[c.stat.operator], c)];
    }
    assert cs[..|cs|] == cs;
    KeysFacts(cs, Op);
  }

  // ---- one operator ----

  /**
   * `merged` is what `mergeWorkSegments` returns for `work`: the canonical
   * form of the union of its non-empty intervals.
   */
  ghost predicate MergeOf(merged: seq<Interval>, work: seq<Interval>)
  {
    && Canonical(merged)
    && (forall p: real :: Covers(merged, p) <==> exists k :: 0 <= k < |work| && Proper(work[k]) && In(work[k], p))
  }

  /** The merge is determined by the work alone. */
  lemma {:induction false} MergeOfUnique(a: seq<Interval>, b: seq<Interval>, work: seq<Interval>)
    requires MergeOf(a, work) && MergeOf(b, work)
    ensures a == b
  {
    CanonicalUnique(a, b);
  }

  /** `uph`: units per effective hour, 0 without effective time. */
  function Ratio(units: int, hours: real): (r: real)
    ensures hours > 0.0 ==> r * hours == units as real
    ensures hours <= 0.0 ==> r == 0.0
  {
    if hours > 0.0 then units as real / hours else 0.0
  }

  /** The idle segments of the combined timeline. */
  function IdleOf(idle: seq<Interval>): seq<CombinedSegment>
  {
    seq(|idle|, k requires 0 <= k < |idle| => CombinedIdle(idle[k].start, idle[k].end))
  }

  /**
   * The row and the segments of operator `op`, whose entry is `e`, when
   * `merged` is the merge of its work.
   */
  ghost predicate CombinedOf(s: CombinedStat, segs: seq<CombinedSegment>, merged: seq<Interval>, op: string, e: Entry,
                             windowStart: int, windowEnd: int)
  {
    && MergeOf(merged, Spans(EntryWork(e)))
    && s.operator == op
    && s.totalUnits == EntryUnits(e)
    && s.ewhHours == Hours(TotalLength(merged))
    && s.uph == Ratio(s.totalUnits, s.ewhHours)
    && s.pickingUnits == e.pickingUnits && s.sortingUnits == e.sortingUnits && s.packingUnits == e.packingUnits
    && segs == EntryWork(e) + IdleOf(Gaps(merged, windowStart, windowEnd))
  }

  /**
   * The body of `byOperator.forEach`: merge the operator's work of all stages,
   * walk the cursor for the idle gaps, and compute hours, units and rate.
   */
  method OperatorRow(op: string, e: Entry, windowStart: int, windowEnd: int)
    returns (s: CombinedStat, segs: seq<CombinedSegment>, ghost merged: seq<Interval>)
    ensures CombinedOf(s, segs, merged, op, e, windowStart, windowEnd)
    ensures TotalLength(merged) <= TotalLength(ProperOnly(Spans(EntryWork(e))))
  {
    var work := EntryWork(e);
    var mergedWork := MergeWorkSegments(Spans(work));
    merged := mergedWork;
    var idle := IdleSegments(mergedWork, windowStart, windowEnd);
    var ewhHours := Hours(TotalLength(mergedWork));
    var totalUnits := EntryUnits(e);
    s := CombinedStat(op, totalUnits, ewhHours, Ratio(totalUnits, ewhHours), e.pickingUnits, e.sortingUnits, e.packingUnits);
    segs := work + IdleOf(idle);
  }

  /** A merge of work that lies in the window lies in the window. */
  lemma {:induction false} MergeWithin(merged: seq<Interval>, work: seq<Interval>, lo: int, hi: int)
    requires MergeOf(merged, work) && Within(work, lo, hi)
    ensures Within(merged, lo, hi)
  {
    forall k | 0 <= k < |merged|
      ensures lo <= merged[k].start && merged[k].end <= hi
    {
      assert Proper(merged[k]);
      assert Covers(merged, merged[k].start as real) by { assert In(merged[k], merged[k].start as real); }
      assert Covers(merged, merged[k].end as real) by { assert In(merged[k], merged[k].end as real); }
      var a :| 0 <= a < |work| && Proper(work[a]) && In(work[a], merged[k].start as real);
      var b :| 0 <= b < |work| && Proper(work[b]) && In(work[b], merged[k].end as real);
    }
  }

  /**
   * When an operator's work lies in the window, its idle segments are exactly
   * the complement of its merged work there: they are canonical and in the
   * window, no instant strictly inside them is worked, every instant of the
   * window that is not worked is idle, and work and idle time add up to the
   * window's length.
   */
  lemma {:induction false} CombinedIdleIsComplement(merged: seq<Interval>, work: seq<Interval>, windowStart: int, windowEnd: int)
    requires MergeOf(merged, work) && Within(work, windowStart, windowEnd) && windowStart <= windowEnd
    ensures var idle := Gaps(merged, windowStart, windowEnd);
      && Canonical(idle) && Within(idle, windowStart, windowEnd)
      && FreeInside(idle, merged)
      && FreeCovered(merged, idle, windowStart, windowEnd)
      && TotalLength(idle) + TotalLength(merged) == windowEnd - windowStart
  {
    MergeWithin(merged, work, windowStart, windowEnd);
    IdleIsComplement(merged, windowStart, windowEnd);
  }

  /** 08:00 to 09:00 and 08:30 to 09:30 (milliseconds of the day) merge into 08:00 to 09:30. */
  lemma {:induction false} ExampleMerge()
    ensures MergeOf([Interval(28800000, 34200000)], [Interval(28800000, 32400000), Interval(30600000, 34200000)])
  {
    var work := [Interval(28800000, 32400000), Interval(30600000, 34200000)];
    var union := [Interval(28800000, 34200000)];
    forall p: real
      ensures Covers(union, p) <==> exists k :: 0 <= k < |work| && Proper(work[k]) && In(work[k], p)
    {
      if Covers(union, p) {
        assert In(union[0], p);
        if p <= 32400000.0 {
          assert Proper(work[0]) && In(work[0], p);
        } else {
          assert Proper(work[1]) && In(work[1], p);
        }
      }
      if exists k :: 0 <= k < |work| && Proper(work[k]) && In(work[k], p) {
        assert In(union[0], p);
      }
    }
  }

  /** Picking from 08:00 to 09:00 and sorting from 08:30 to 09:30 count 1.5 effective hours, not 2. */
  lemma {:induction false} OverlapExample(s: CombinedStat, segs: seq<CombinedSegment>, merged: seq<Interval>, op: string,
                                          windowStart: int, windowEnd: int)
    requires CombinedOf(s, segs, merged, op,
                        Entry(60, 40, 0, [StageWork(PickingStage, 28800000, 32400000, 60, None)],
                              [StageWork(SortingStage, 30600000, 34200000, 40, None)], []),
                        windowStart, windowEnd)
    ensures s.ewhHours == 1.5 && s.totalUnits == 100
  {
    var work := [Interval(28800000, 32400000), Interval(30600000, 34200000)];
    var union := [Interval(28800000, 34200000)];
    var e := Entry(60, 40, 0, [StageWork(PickingStage, 28800000, 32400000, 60, None)],
                   [StageWork(SortingStage, 30600000, 34200000, 40, None)], []);
    assert Spans(EntryWork(e)) == work;
    ExampleMerge();
    MergeOfUnique(merged, union, work);
    assert TotalLength(union) == 5400000 by {
      assert union[1..] == [];
    }
  }

  // ---- all operators ----

  /** What the report holds for operator `op`. */
  ghost predicate RowOf(s: CombinedStat, segments: map<string, seq<CombinedSegment>>, merged: map<string, seq<Interval>>,
                        op: string, cs: seq<Contribution>, windowStart: int, windowEnd: int)
  {
    op in segments && op in merged && CombinedOf(s, segments[op], merged[op], op, EntryOf(cs, op), windowStart, windowEnd)
  }

  /** One row per operator of `done`, in that order, and segments for exactly those operators. */
  ghost predicate RowsDone(done: seq<string>, stats: seq<CombinedStat>, segments: map<string, seq<CombinedSegment>>,
                           merged: map<string, seq<Interval>>, cs: seq<Contribution>, windowStart: int, windowEnd: int)
  {
    && |stats| == |done|
    && (forall op :: op in segments <==> op in done)
    && (forall k :: 0 <= k < |done| ==> RowOf(stats[k], segments, merged, done[k], cs, windowStart, windowEnd))
  }

  function StatUnits(s: CombinedStat): int { s.totalUnits }

  function StatHours(s: CombinedStat): real { s.ewhHours }

  /** The sum of a real-valued `f` over a sequence. */
  function SumReal<T>(s: seq<T>, f: T -> real): real
  {
    if s == [] then 0.0 else f(s[0]) + SumReal(s[1..], f)
  }

  lemma {:induction false} SumRealAppend<T>(a: seq<T>, b: seq<T>, f: T -> real)
    ensures SumReal(a + b, f) == SumReal(a, f) + SumReal(b, f)
  {
    if a == [] {
      assert a + b == b;
    } else {
      assert (a + b)[1..] == a[1..] + b;
      SumRealAppend(a[1..], b, f);
    }
  }

  lemma {:induction false} SumRealInsert<T>(x: T, s: seq<T>, key: T -> real, f: T -> real)
    requires SortedBy(s, key)
    ensures SumReal(Insert(x, s, key), f) == SumReal(s, f) + f(x)
  {
    if s != [] && key(s[0]) <= key(x) {
      SumRealInsert(x, s[1..], key, f);
    }
  }

  /** Sorting does not change a sum. */
  lemma {:induction false} SumRealSortBy<T>(s: seq<T>, key: T -> real, f: T -> real)
    ensures SumReal(SortBy(s, key), f) == SumReal(s, f)
  {
    if s != [] {
      var init, last := s[..|s| - 1], s[|s| - 1];
      var sortedInit := SortBy(init, key);
      assert s == init + [last];
      assert SortBy(s, key) == Insert(last, sortedInit, key);
      SumRealSortBy(init, key, f);
      SumRealInsert(last, sortedInit, key, f);
      SumRealAppend(init, [last], f);
      assert SumReal([last], f) == f(last) by {
        assert [last][1..] == [];
      }
    }
  }

  /** The loop invariant of `byOperator.forEach`, bundled. */
  ghost predicate LoopInv(order: seq<string>, i: nat, stats: seq<CombinedStat>, segments: map<string, seq<CombinedSegment>>,
                          merged: map<string, seq<Interval>>, totalUnitsAll: int, totalEwhHoursAll: real,
                          cs: seq<Contribution>, windowStart: int, windowEnd: int)
  {
    && i <= |order|
    && RowsDone(order[..i], stats, segments, merged, cs, windowStart, windowEnd)
    && totalUnitsAll == SumOf(stats, StatUnits)
    && totalEwhHoursAll == SumReal(stats, StatHours)
  }

  lemma {:induction false} RowKept(s: CombinedStat, segments: map<string, seq<CombinedSegment>>, merged: map<string, seq<Interval>>,
                                   o: string, cs: seq<Contribution>, windowStart: int, windowEnd: int,
                                   op: string, segs: seq<CombinedSegment>, m: seq<Interval>)
    requires RowOf(s, segments, merged, o, cs, windowStart, windowEnd) && o != op
    ensures RowOf(s, segments[op := segs], merged[op := m], o, cs, windowStart, windowEnd)
  {
    assert segments[op := segs][o] == segments[o];
    assert merged[op := m][o] == merged[o];
  }

  lemma {:induction false} RowsStep(done: seq<string>, stats: seq<CombinedStat>, segments: map<string, seq<CombinedSegment>>,
                                    merged: map<string, seq<Interval>>, cs: seq<Contribution>, windowStart: int, windowEnd: int,
                                    op: string, s: CombinedStat, segs: seq<CombinedSegment>, m: seq<Interval>)
    requires RowsDone(done, stats, segments, merged, cs, windowStart, windowEnd) && op !in done
    requires CombinedOf(s, segs, m, op, EntryOf(cs, op), windowStart, windowEnd)
    ensures RowsDone(done + [op], stats + [s], segments[op := segs], merged[op := m], cs, windowStart, windowEnd)
  {
    var done', stats' := done + [op], stats + [s];
    forall k | 0 <= k < |done'|
      ensures RowOf(stats'[k], segments[op := segs], merged[op := m], done'[k], cs, windowStart, windowEnd)
    {
      if k < |done| {
        assert stats'[k] == stats[k] && done'[k] == done[k];
        assert done[k] in done;
        RowKept(stats[k], segments, merged, done[k], cs, windowStart, windowEnd, op, segs, m);
      } else {
        assert stats'[k] == s && done'[k] == op;
      }
    }
  }

  lemma {:induction false} LoopStep(order: seq<string>, i: nat, stats: seq<CombinedStat>, segments: map<string, seq<CombinedSegment>>,
                                    merged: map<string, seq<Interval>>, totalUnitsAll: int, totalEwhHoursAll: real,
                                    cs: seq<Contribution>, windowStart: int, windowEnd: int,
                                    s: CombinedStat, segs: seq<CombinedSegment>, m: seq<Interval>)
    requires i < |order| && NoDup(order)
    requires LoopInv(order, i, stats, segments, merged, totalUnitsAll, totalEwhHoursAll, cs, windowStart, windowEnd)
    requires CombinedOf(s, segs, m, order[i], EntryOf(cs, order[i]), windowStart, windowEnd)
    ensures LoopInv(order, i + 1, stats + [s], segments[order[i] := segs], merged[order[i] := m],
                    totalUnitsAll + s.totalUnits, totalEwhHoursAll + s.ewhHours, cs, windowStart, windowEnd)
  {
    PrefixSnoc(order, i);
    assert order[i] !in order[..i] by {
      forall k | 0 <= k < i
        ensures order[..i][k] != order[i]
      {
        assert order[..i][k] == order[k];
      }
    }
    RowsStep(order[..i], stats, segments, merged, cs, windowStart, windowEnd, order[i], s, segs, m);
    SumOfAppend(stats, [s], StatUnits);
    assert SumOf([s], StatUnits) == s.totalUnits by { assert [s][1..] == []; }
    SumRealAppend(stats, [s], StatHours);
    assert SumReal([s], StatHours) == s.ewhHours by { assert [s][1..] == []; }
  }

  /** `byOperator.forEach`: one row and one segment list per operator, and the running totals. */
  method RowsLoop(order: seq<string>, byOperator: map<string, Entry>, ghost cs: seq<Contribution>, windowStart: int, windowEnd: int)
    returns (stats: seq<CombinedStat>, segments: map<string, seq<CombinedSegment>>, totalUnitsAll: int, totalEwhHoursAll: real,
             ghost merged: map<string, seq<Interval>>)
    requires NoDup(order)
    requires forall op :: op in order ==> op in byOperator && byOperator[op] == EntryOf(cs, op)
    ensures RowsDone(order, stats, segments, merged, cs, windowStart, windowEnd)
    ensures totalUnitsAll == SumOf(stats, StatUnits)
    ensures totalEwhHoursAll == SumReal(stats, StatHours)
  {
    stats, segments, totalUnitsAll, totalEwhHoursAll, merged := [], map[], 0, 0.0, map[];
    for i := 0 to |order|
      invariant LoopInv(order, i, stats, segments, merged, totalUnitsAll, totalEwhHoursAll, cs, windowStart, windowEnd)
    {
      stats, segments, totalUnitsAll, totalEwhHoursAll, merged :=
        RowRound(order, i, byOperator, cs, windowStart, windowEnd, stats, segments, totalUnitsAll, totalEwhHoursAll, merged);
    }
    assert order[..|order|] == order;
  }

  /** One round of the operator loop: the row of `order[i]`. */
  method RowRound(order: seq<string>, i: nat, byOperator: map<string, Entry>, ghost cs: seq<Contribution>, windowStart: int, windowEnd: int,
                  stats: seq<CombinedStat>, segments: map<string, seq<CombinedSegment>>, totalUnitsAll: int, totalEwhHoursAll: real,
                  ghost merged: map<string, seq<Interval>>)
    returns (stats': seq<CombinedStat>, segments': map<string, seq<CombinedSegment>>, totalUnitsAll': int, totalEwhHoursAll': real,
             ghost merged': map<string, seq<Interval>>)
    requires i < |order| && NoDup(order)
    requires forall op :: op in order ==> op in byOperator && byOperator[op] == EntryOf(cs, op)
    requires LoopInv(order, i, stats, segments, merged, totalUnitsAll, totalEwhHoursAll, cs, windowStart, windowEnd)
    ensures LoopInv(order, i + 1, stats', segments', merged', totalUnitsAll', totalEwhHoursAll', cs, windowStart, windowEnd)
  {
    var op := order[i];
    assert op in order;
    var s, segs;
    ghost var m;
    s, segs, m := OperatorRow(op, byOperator[op], windowStart, windowEnd);
    LoopStep(order, i, stats, segments, merged, totalUnitsAll, totalEwhHoursAll, cs, windowStart, windowEnd, s, segs, m);
    stats' := stats + [s];
    segments' := segments[op := segs];
    merged' := merged[op := m];
    totalUnitsAll' := totalUnitsAll + s.totalUnits;
    totalEwhHoursAll' := totalEwhHoursAll + s.ewhHours;
  }

  // ---- the report ----

  /** `sortingReport || pickingReport || packingReport`: the report whose window and date the combined report takes. */
  function Base(picking: Option<StageInput>, sorting: Option<StageInput>, packing: Option<StageInput>): Option<StageInput>
  {
    if sorting.Some? then sorting else if picking.Some? then picking else packing
  }

  /** The sort key of `stats.sort((a, b) => b.totalUnits - a.totalUnits)`: most units first. */
  function CombinedUnitsDesc(s: CombinedStat): real { -(s.totalUnits as real) }

  /** The row of operator `op`, given its entry and its merged work. */
  ghost function RowStat(op: string, e: Entry, merged: seq<Interval>): CombinedStat
  {
    var units := EntryUnits(e);
    var hours := Hours(TotalLength(merged));
    CombinedStat(op, units, hours, Ratio(units, hours), e.pickingUnits, e.sortingUnits, e.packingUnits)
  }

  /** The rows of the operators of `order`, in that order. */
  ghost function RowStats(order: seq<string>, merged: map<string, seq<Interval>>, cs: seq<Contribution>): seq<CombinedStat>
  {
    seq(|order|, k requires 0 <= k < |order| =>
      RowStat(order[k], EntryOf(cs, order[k]), if order[k] in merged then merged[order[k]] else []))
  }

  /** The rows loop leaves exactly the rows `RowStats` describes. */
  lemma {:induction false} RowsDoneStats(order: seq<string>, stats: seq<CombinedStat>, segments: map<string, seq<CombinedSegment>>,
                                         merged: map<string, seq<Interval>>, cs: seq<Contribution>, windowStart: int, windowEnd: int)
    requires RowsDone(order, stats, segments, merged, cs, windowStart, windowEnd)
    ensures stats == RowStats(order, merged, cs)
  {
    forall k | 0 <= k < |order|
      ensures stats[k] == RowStats(order, merged, cs)[k]
    {
      assert RowOf(stats[k], segments, merged, order[k], cs, windowStart, windowEnd);
    }
  }

  /** What the combined report holds about its operators, rows, segments and totals. */
  ghost predicate CombinedFacts(r: CombinedReport, merged: map<string, seq<Interval>>, cs: seq<Contribution>)
  {
    var order := Keys(cs, Op);
    && r.kpi.employees == |r.stats| == |order|
    && r.stats == SortBy(RowStats(order, merged, cs), CombinedUnitsDesc)
    && SortedBy(r.stats, CombinedUnitsDesc)
    && (forall s :: s in r.stats ==> s.operator in order && RowOf(s, r.segments, merged, s.operator, cs, r.meta.windowStart, r.meta.windowEnd))
    && (forall op :: op in order ==> exists s :: s in r.stats && s.operator == op)
    && (forall op :: op in r.segments <==> op in order)
    && r.kpi.totalUnitsAll == SumOf(cs, ContributionUnits)
    && r.kpi.totalEwhHoursAll == SumReal(r.stats, StatHours)
    && r.kpi.avgUph == Ratio(r.kpi.totalUnitsAll, r.kpi.totalEwhHoursAll)
  }

  /** Summing the rows' units sums the units of every stat of every stage. */
  lemma {:induction false} RowsUnits(order: seq<string>, stats: seq<CombinedStat>, cs: seq<Contribution>)
    requires |stats| == |order|
    requires forall k :: 0 <= k < |order| ==> stats[k].totalUnits == SumOf(Of(cs, Op, order[k]), ContributionUnits)
    ensures SumOf(stats, StatUnits) == GroupSums(order, cs, Op, ContributionUnits)
  {
    if order != [] {
      var n := |order| - 1;
      assert order == order[..n] + [order[n]];
      assert stats == stats[..n] + [stats[n]];
      RowsUnits(order[..n], stats[..n], cs);
      SumOfAppend(stats[..n], [stats[n]], StatUnits);
      assert SumOf([stats[n]], StatUnits) == stats[n].totalUnits by { assert [stats[n]][1..] == []; }
      GroupSumsSnoc(order[..n], cs, Op, ContributionUnits, order[n]);
    }
  }

  lemma {:induction false} TotalUnits(order: seq<string>, stats: seq<CombinedStat>, segments: map<string, seq<CombinedSegment>>,
                                      merged: map<string, seq<Interval>>, cs: seq<Contribution>, windowStart: int, windowEnd: int)
    requires order == Keys(cs, Op)
    requires RowsDone(order, stats, segments, merged, cs, windowStart, windowEnd)
    ensures SumOf(stats, StatUnits) == SumOf(cs, ContributionUnits)
  {
    forall k | 0 <= k < |order|
      ensures stats[k].totalUnits == SumOf(Of(cs, Op, order[k]), ContributionUnits)
    {
      assert RowOf(stats[k], segments, merged, order[k], cs, windowStart, windowEnd);
      EntryUnitsSum(cs, order[k]);
    }
    RowsUnits(order, stats, cs);
    GroupSumsPartition(cs, Op, ContributionUnits);
  }

  /** Sorting the rows keeps one row per operator. */
  lemma {:induction false} RowsMembership(order: seq<string>, stats: seq<CombinedStat>, sorted: seq<CombinedStat>,
                                          segments: map<string, seq<CombinedSegment>>, merged: map<string, seq<Interval>>,
                                          cs: seq<Contribution>, windowStart: int, windowEnd: int)
    requires RowsDone(order, stats, segments, merged, cs, windowStart, windowEnd)
    requires multiset(sorted) == multiset(stats)
    ensures forall s :: s in sorted ==> s.operator in order && RowOf(s, segments, merged, s.operator, cs, windowStart, windowEnd)
    ensures forall op :: op in order ==> exists s :: s in sorted && s.operator == op
  {
    forall s | s in sorted
      ensures s.operator in order && RowOf(s, segments, merged, s.operator, cs, windowStart, windowEnd)
    {
      assert s in multiset(stats);
      var k :| 0 <= k < |stats| && stats[k] == s;
      assert RowOf(stats[k], segments, merged, order[k], cs, windowStart, windowEnd);
    }
    forall op | op in order
      ensures exists s :: s in sorted && s.operator == op
    {
      var k :| 0 <= k < |order| && order[k] == op;
      assert RowOf(stats[k], segments, merged, order[k], cs, windowStart, windowEnd);
      assert stats[k] in multiset(sorted);
    }
  }

  lemma {:induction false} ReportFacts(meta: CombinedMeta, order: seq<string>, stats: seq<CombinedStat>,
                                       segments: map<string, seq<CombinedSegment>>, merged: map<string, seq<Interval>>,
                                       cs: seq<Contribution>, totalUnitsAll: int, totalEwhHoursAll: real)
    requires order == Keys(cs, Op)
    requires RowsDone(order, stats, segments, merged, cs, meta.windowStart, meta.windowEnd)
    requires totalUnitsAll == SumOf(stats, StatUnits) && totalEwhHoursAll == SumReal(stats, StatHours)
    ensures var sorted := SortBy(stats, CombinedUnitsDesc);
      CombinedFacts(CombinedReport(meta, CombinedKpi(|sorted|, totalUnitsAll, totalEwhHoursAll, Ratio(totalUnitsAll, totalEwhHoursAll)),
                                   sorted, segments), merged, cs)
  {
    var sorted := SortBy(stats, CombinedUnitsDesc);
    TotalUnits(order, stats, segments, merged, cs, meta.windowStart, meta.windowEnd);
    RowsMembership(order, stats, sorted, segments, merged, cs, meta.windowStart, meta.windowEnd);
    SumRealSortBy(stats, CombinedUnitsDesc, StatHours);
    RowsDoneStats(order, stats, segments, merged, cs, meta.windowStart, meta.windowEnd);
  }

  /**
   * `buildCombinedReport`: null when all three reports are absent; otherwise
   * the window of the base report, the most severe status of the present
   * reports, the lowest coverage (an absent report counting as 1), and one row
   * per operator of any stage, most units first.
   */
  method BuildCombinedReport(picking: Option<StageInput>, sorting: Option<StageInput>, packing: Option<StageInput>)
    returns (result: Option<CombinedReport>, ghost merged: map<string, seq<Interval>>)
    ensures result.None? <==> picking.None? && sorting.None? && packing.None?
    ensures result.Some? ==>
      var base := Base(picking, sorting, packing);
      && base.Some?
      && result.value.meta == CombinedMeta(base.value.windowStart, base.value.windowEnd, MostSevere(Statuses(picking, sorting, packing)),
                                           Min3(CoverageOf(picking), CoverageOf(sorting), CoverageOf(packing)))
      && CombinedFacts(result.value, merged, AllContributions(picking, sorting, packing))
  {
    merged := map[];
    if picking.None? && sorting.None? && packing.None? {
      return None, merged;
    }
    var base := if sorting.Some? then sorting.value else if picking.Some? then picking.value else packing.value;
    var cs := AllContributions(picking, sorting, packing);
    var order, byOperator := CollectEntries(cs);
    var stats, segments, totalUnitsAll, totalEwhHoursAll;
    stats, segments, totalUnitsAll, totalEwhHoursAll, merged := RowsLoop(order, byOperator, cs, base.windowStart, base.windowEnd);
    var sorted := SortBy(stats, CombinedUnitsDesc);
    var status := MostSevere(Statuses(picking, sorting, packing));
    var coverageRatio := Min3(CoverageOf(picking), CoverageOf(sorting), CoverageOf(packing));
    var meta := CombinedMeta(base.windowStart, base.windowEnd, status, coverageRatio);
    ReportFacts(meta, order, stats, segments, merged, cs, totalUnitsAll, totalEwhHoursAll);
    result := Some(CombinedReport(meta, CombinedKpi(|sorted|, totalUnitsAll, totalEwhHoursAll, Ratio(totalUnitsAll, totalEwhHoursAll)),
                                  sorted, segments));
  }
}
