/**
 * The backend's per-operator segment builder (`buildSegmentsForEvents`) and
 * effective-work-hours sum (`computeEwhForEvents`). Events are scans with a
 * millisecond timestamp; two consecutive scans at most `gapMs` apart count
 * as continuous work, a longer pause is idle time.
 */
module Segments {
  import opened Wrappers
  import opened Sorting

  /** The packing category of a scan: a single-item or a multi-item order. */
  datatype Category = Single | Multi

  /** A normalised scan of one operator. */
  datatype Event = Event(operator: string, ts: int, units: int, category: Option<Category>)

  datatype Segment =
    | Work(start: int, end: int, units: int, category: Option<Category>)
    | Idle(start: int, end: int)

  function TsKey(e: Event): real { e.ts as real }

  function Units(e: Event): int { e.units }

  predicate TsSorted(es: seq<Event>)
  {
    forall i, j :: 0 <= i < j < |es| ==> es[i].ts <= es[j].ts
  }

  /** The part of a pause between two scans that counts as work. */
  function Credit(diff: int, gapMs: int): int
  {
    if 0 < diff <= gapMs then diff else 0
  }

  /** The pause before scan `t`. */
  function Diff(es: seq<Event>, t: nat): int
    requires 0 < t < |es|
  {
    es[t].ts - es[t - 1].ts
  }

  predicate ShortGap(es: seq<Event>, t: nat, gapMs: int)
    requires 0 < t < |es|
  {
    0 < Diff(es, t) <= gapMs
  }

  /** Whether a scan of category `next` closes a segment of category `open`. */
  predicate Splits(splitOnCategory: bool, open: Option<Category>, next: Option<Category>)
  {
    splitOnCategory && open.Some? && next.Some? && open != next
  }

  /** Scan `t` continues the work segment that scan `j` opened. */
  predicate Joins(es: seq<Event>, j: nat, t: nat, gapMs: int, splitOnCategory: bool)
    requires j < t < |es|
  {
    ShortGap(es, t, gapMs) && !Splits(splitOnCategory, es[j].category, es[t].category)
  }

  /** The effective work time: the sum of the pauses between consecutive scans that are positive and at most `gapMs`. */
  function Ewh(es: seq<Event>, gapMs: int): int
  {
    if |es| <= 1 then 0
    else Ewh(es[..|es| - 1], gapMs) + Credit(Diff(es, |es| - 1), gapMs)
  }

  /** An idle segment for every pause longer than `gapMs`, in order. */
  function GapIdles(es: seq<Event>, gapMs: int): seq<Segment>
  {
    if |es| <= 1 then []
    else
      GapIdles(es[..|es| - 1], gapMs)
      + (if Diff(es, |es| - 1) > gapMs then [Idle(es[|es| - 2].ts, es[|es| - 1].ts)] else [])
  }

  /** The idle segment before the first scan of the window. */
  function LeadIdle(es: seq<Event>, start: int): seq<Segment>
  {
    if es != [] && es[0].ts > start then [Idle(start, es[0].ts)] else []
  }

  /** The idle segment after the last scan of the window. */
  function TrailIdle(es: seq<Event>, end: int): seq<Segment>
  {
    if es != [] && es[|es| - 1].ts < end then [Idle(es[|es| - 1].ts, end)] else []
  }

  function Idles(segs: seq<Segment>): seq<Segment>
  {
    if segs == [] then []
    else Idles(segs[..|segs| - 1]) + (if segs[|segs| - 1].Idle? then [segs[|segs| - 1]] else [])
  }

  function Works(segs: seq<Segment>): seq<Segment>
  {
    if segs == [] then []
    else Works(segs[..|segs| - 1]) + (if segs[|segs| - 1].Work? then [segs[|segs| - 1]] else [])
  }

  /** The summed duration of the work segments. */
  function WorkTime(segs: seq<Segment>): int
  {
    if segs == [] then 0
    else WorkTime(segs[..|segs| - 1]) + (if segs[|segs| - 1].Work? then segs[|segs| - 1].end - segs[|segs| - 1].start else 0)
  }

  /** The segments tile [a, b]: each begins where the previous one ended. */
  ghost predicate Chain(segs: seq<Segment>, a: int, b: int)
  {
    if segs == [] then a == b
    else
      && segs[0].start == a && segs[|segs| - 1].end == b
      && forall j, k :: 0 <= j < k < |segs| && k == j + 1 ==> segs[j].end == segs[k].start
  }

  /** No segment ends before it starts, and each ends no later than any later one starts. */
  ghost predicate Ordered(segs: seq<Segment>)
  {
    && (forall k :: 0 <= k < |segs| ==> segs[k].start <= segs[k].end)
    && (forall j, k :: 0 <= j < k < |segs| ==> segs[j].end <= segs[k].start)
  }

  predicate AllPositive(segs: seq<Segment>)
  {
    forall k :: 0 <= k < |segs| ==> segs[k].start < segs[k].end
  }

  /** Where the tiling begins: the window start, unless the first scan is not after it. */
  function Origin(es: seq<Event>, start: int): int
    requires es != []
  {
    if es[0].ts > start then start else es[0].ts
  }

  /** Where the tiling ends: the window end, unless the last scan is not before it. */
  function Terminal(es: seq<Event>, end: int): int
    requires es != []
  {
    if es[|es| - 1].ts < end then end else es[|es| - 1].ts
  }

  /** The scans `first` to `last` that a work segment is made of. */
  datatype Span = Span(first: nat, last: nat)

  /**
   * `w` is the work segment of scans `first..last`: it starts at scan `first`
   * with its category, every later scan of the run joins it, the scan after
   * the run does not, its units are those of the run, and it ends at the last
   * scan of the run, or at the next scan when that one was close enough but
   * changed category.
   */
  predicate WorkSpan(es: seq<Event>, gapMs: int, splitOnCategory: bool, w: Segment, sp: Span)
  {
    && sp.first <= sp.last < |es|
    && w.Work? && w.start < w.end
    && w.start == es[sp.first].ts && w.category == es[sp.first].category
    && w.units == SumOf(es[sp.first..sp.last + 1], Units)
    && (forall t :: sp.first < t <= sp.last ==> Joins(es, sp.first, t, gapMs, splitOnCategory))
    && (sp.last + 1 < |es| ==> !Joins(es, sp.first, sp.last + 1, gapMs, splitOnCategory))
    && w.end == (if sp.last + 1 < |es| && ShortGap(es, sp.last + 1, gapMs) then es[sp.last + 1].ts else es[sp.last].ts)
  }

  /** The spans of the work segments, one per segment, in order and apart. */
  predicate WorkSpans(es: seq<Event>, gapMs: int, splitOnCategory: bool, works: seq<Segment>, spans: seq<Span>)
  {
    && |spans| == |works|
    && (forall q :: 0 <= q < |works| ==> WorkSpan(es, gapMs, splitOnCategory, works[q], spans[q]))
    && (forall p, q :: 0 <= p < q < |spans| ==> spans[p].last < spans[q].first)
  }

  lemma {:induction false} SegsSnoc(segs: seq<Segment>, x: Segment)
    ensures Works(segs + [x]) == Works(segs) + (if x.Work? then [x] else [])
    ensures Idles(segs + [x]) == Idles(segs) + (if x.Idle? then [x] else [])
    ensures WorkTime(segs + [x]) == WorkTime(segs) + (if x.Work? then x.end - x.start else 0)
  {
    assert (segs + [x])[..|segs|] == segs;
  }

  lemma {:induction false} EventsPrefixStep(es: seq<Event>, i: nat, gapMs: int)
    requires 1 <= i < |es|
    ensures Ewh(es[..i + 1], gapMs) == Ewh(es[..i], gapMs) + Credit(Diff(es, i), gapMs)
    ensures GapIdles(es[..i + 1], gapMs)
      == GapIdles(es[..i], gapMs) + (if Diff(es, i) > gapMs then [Idle(es[i - 1].ts, es[i].ts)] else [])
  {
    assert es[..i + 1][..i] == es[..i];
  }

  lemma {:induction false} UnitsStep(es: seq<Event>, cs: nat, i: nat)
    requires cs <= i < |es|
    ensures SumOf(es[cs..i + 1], Units) == SumOf(es[cs..i], Units) + es[i].units
  {
    assert es[cs..i + 1] == es[cs..i] + [es[i]];
    SumOfAppend(es[cs..i], [es[i]], Units);
    assert [es[i]][1..] == [];
  }

  /** The open work segment `current` after the first `i` scans: it was opened by scan `cs`, and every later scan joined it. */
  ghost predicate OpenRun(es: seq<Event>, gapMs: int, splitOnCategory: bool, i: nat, current: Segment, cs: nat)
  {
    && 1 <= i <= |es| && cs < i
    && current.Work? && current.end == es[i - 1].ts && current.start == es[cs].ts && current.start <= current.end
    && current.category == es[cs].category && current.units == SumOf(es[cs..i], Units)
    && Joined(es, gapMs, splitOnCategory, cs, i)
  }

  /** Every scan after `cs` and before `i` joined the segment that scan `cs` opened. */
  ghost predicate Joined(es: seq<Event>, gapMs: int, splitOnCategory: bool, cs: nat, i: nat)
    requires cs < i <= |es|
  {
    forall t :: cs < t < i ==> Joins(es, cs, t, gapMs, splitOnCategory)
  }

  /** The credited time so far is the work emitted plus the open segment's length. */
  ghost predicate EwhInv(es: seq<Event>, gapMs: int, i: nat, segs: seq<Segment>, ewhMs: int, current: Segment)
    requires 1 <= i <= |es|
  {
    ewhMs == Ewh(es[..i], gapMs) && WorkTime(segs) + (current.end - current.start) == ewhMs
  }

  ghost predicate IdleInv(es: seq<Event>, start: int, gapMs: int, includeIdle: bool, i: nat, segs: seq<Segment>)
    requires 1 <= i <= |es|
  {
    Idles(segs) == (if includeIdle then LeadIdle(es, start) + GapIdles(es[..i], gapMs) else [])
  }

  /** The emitted segments are ordered up to `reached` and, with idle time on, tile [origin, reached]. */
  ghost predicate ShapeInv(es: seq<Event>, start: int, gapMs: int, includeIdle: bool, segs: seq<Segment>, reached: int)
    requires es != []
  {
    && (includeIdle ==> Chain(segs, Origin(es, start), reached))
    && Ordered(segs) && (segs != [] ==> segs[|segs| - 1].end <= reached)
    && (gapMs >= 0 ==> AllPositive(segs))
  }

  ghost predicate SpanInv(es: seq<Event>, gapMs: int, splitOnCategory: bool, segs: seq<Segment>, cs: nat, spans: seq<Span>)
  {
    WorkSpans(es, gapMs, splitOnCategory, Works(segs), spans) && (spans != [] ==> spans[|spans| - 1].last < cs)
  }

  function Opened(e: Event): Segment { Work(e.ts, e.ts, e.units, e.category) }

  // ---- extending the open segment over a short pause ----

  /** The open segment stretched over scan `i`. */
  function Extended(es: seq<Event>, i: nat, current: Segment): Segment
    requires i < |es| && current.Work?
  {
    current.(end := es[i].ts, units := current.units + es[i].units)
  }

  lemma {:induction false} ExtendOpen(es: seq<Event>, gapMs: int, splitOnCategory: bool, i: nat, current: Segment, cs: nat)
    requires OpenRun(es, gapMs, splitOnCategory, i, current, cs)
    requires i < |es| && ShortGap(es, i, gapMs) && !Splits(splitOnCategory, current.category, es[i].category)
    ensures OpenRun(es, gapMs, splitOnCategory, i + 1, Extended(es, i, current), cs)
  {
    UnitsStep(es, cs, i);
  }

  lemma {:induction false} ExtendEwh(es: seq<Event>, gapMs: int, splitOnCategory: bool, i: nat, segs: seq<Segment>, ewhMs: int, current: Segment, cs: nat)
    requires OpenRun(es, gapMs, splitOnCategory, i, current, cs)
    requires i < |es| && ShortGap(es, i, gapMs)
    requires EwhInv(es, gapMs, i, segs, ewhMs, current)
    ensures EwhInv(es, gapMs, i + 1, segs, ewhMs + Diff(es, i), Extended(es, i, current))
  {
    EventsPrefixStep(es, i, gapMs);
  }

  lemma {:induction false} ExtendIdles(es: seq<Event>, start: int, gapMs: int, includeIdle: bool, splitOnCategory: bool,
                    i: nat, segs: seq<Segment>, current: Segment, cs: nat)
    requires OpenRun(es, gapMs, splitOnCategory, i, current, cs)
    requires i < |es| && ShortGap(es, i, gapMs)
    requires IdleInv(es, start, gapMs, includeIdle, i, segs)
    ensures IdleInv(es, start, gapMs, includeIdle, i + 1, segs)
  {
    EventsPrefixStep(es, i, gapMs);
  }

  // ---- closing the open segment ----

  /** The segment that is closed before scan `i`: extended up to scan `i` when the pause was short. */
  function Closed(es: seq<Event>, i: nat, gapMs: int, current: Segment): Segment
    requires 0 < i < |es| && current.Work?
  {
    if ShortGap(es, i, gapMs) then current.(end := es[i].ts) else current
  }

  /** The emitted segments after closing the open segment before scan `i`. */
  function AfterClose(es: seq<Event>, i: nat, gapMs: int, includeIdle: bool, segs: seq<Segment>, closed: Segment): seq<Segment>
    requires 0 < i < |es|
  {
    segs + (if closed.end > closed.start then [closed] else [])
    + (if includeIdle && Diff(es, i) > gapMs then [Idle(es[i - 1].ts, es[i].ts)] else [])
  }

  lemma {:induction false} AfterCloseSnoc(es: seq<Event>, i: nat, gapMs: int, includeIdle: bool, segs: seq<Segment>, closed: Segment)
    requires 0 < i < |es|
    ensures var r := AfterClose(es, i, gapMs, includeIdle, segs, closed);
      && Works(r) == Works(segs) + (if closed.end > closed.start && closed.Work? then [closed] else [])
      && Idles(r) == Idles(segs) + (if closed.end > closed.start && closed.Idle? then [closed] else [])
                    + (if includeIdle && Diff(es, i) > gapMs then [Idle(es[i - 1].ts, es[i].ts)] else [])
      && WorkTime(r) == WorkTime(segs) + (if closed.end > closed.start && closed.Work? then closed.end - closed.start else 0)
  {
    var mid := segs + (if closed.end > closed.start then [closed] else []);
    if closed.end > closed.start {
      SegsSnoc(segs, closed);
    } else {
      assert mid == segs;
    }
    if includeIdle && Diff(es, i) > gapMs {
      SegsSnoc(mid, Idle(es[i - 1].ts, es[i].ts));
    } else {
      assert AfterClose(es, i, gapMs, includeIdle, segs, closed) == mid;
    }
  }

  lemma {:induction false} CloseEwh(es: seq<Event>, gapMs: int, includeIdle: bool, splitOnCategory: bool,
                 i: nat, segs: seq<Segment>, ewhMs: int, current: Segment, cs: nat)
    requires OpenRun(es, gapMs, splitOnCategory, i, current, cs) && i < |es|
    requires EwhInv(es, gapMs, i, segs, ewhMs, current)
    ensures EwhInv(es, gapMs, i + 1, AfterClose(es, i, gapMs, includeIdle, segs, Closed(es, i, gapMs, current)),
                   ewhMs + Credit(Diff(es, i), gapMs), Opened(es[i]))
  {
    EventsPrefixStep(es, i, gapMs);
    AfterCloseSnoc(es, i, gapMs, includeIdle, segs, Closed(es, i, gapMs, current));
  }

  lemma {:induction false} CloseIdles(es: seq<Event>, start: int, gapMs: int, includeIdle: bool, splitOnCategory: bool,
                   i: nat, segs: seq<Segment>, current: Segment, cs: nat)
    requires OpenRun(es, gapMs, splitOnCategory, i, current, cs) && i < |es|
    requires IdleInv(es, start, gapMs, includeIdle, i, segs)
    ensures IdleInv(es, start, gapMs, includeIdle, i + 1, AfterClose(es, i, gapMs, includeIdle, segs, Closed(es, i, gapMs, current)))
  {
    EventsPrefixStep(es, i, gapMs);
    AfterCloseSnoc(es, i, gapMs, includeIdle, segs, Closed(es, i, gapMs, current));
  }

  lemma {:induction false} CloseShape(es: seq<Event>, start: int, gapMs: int, includeIdle: bool, splitOnCategory: bool,
                   i: nat, segs: seq<Segment>, current: Segment, cs: nat)
    requires TsSorted(es)
    requires OpenRun(es, gapMs, splitOnCategory, i, current, cs) && i < |es|
    requires ShapeInv(es, start, gapMs, includeIdle, segs, current.start)
    ensures ShapeInv(es, start, gapMs, includeIdle, AfterClose(es, i, gapMs, includeIdle, segs, Closed(es, i, gapMs, current)), es[i].ts)
  {
    var closed := Closed(es, i, gapMs, current);
    var mid := segs + (if closed.end > closed.start then [closed] else []);
    var reached := if closed.end > closed.start then closed.end else current.start;
    assert es[i - 1].ts <= es[i].ts;
    if closed.end > closed.start {
      ShapeSnoc(es, start, gapMs, includeIdle, segs, current.start, closed);
    } else {
      assert mid == segs;
    }
    assert ShapeInv(es, start, gapMs, includeIdle, mid, reached);
    var r := AfterClose(es, i, gapMs, includeIdle, segs, closed);
    if includeIdle && Diff(es, i) > gapMs {
      assert reached == es[i - 1].ts;
      assert r == mid + [Idle(es[i - 1].ts, es[i].ts)];
      ShapeSnoc(es, start, gapMs, includeIdle, mid, reached, Idle(es[i - 1].ts, es[i].ts));
    } else {
      assert r == mid;
      assert reached <= es[i].ts && (includeIdle ==> reached == es[i].ts);
      ShapeWiden(es, start, gapMs, includeIdle, mid, reached, es[i].ts);
    }
  }

  lemma {:induction false} ShapeWiden(es: seq<Event>, start: int, gapMs: int, includeIdle: bool, segs: seq<Segment>, a: int, b: int)
    requires es != [] && ShapeInv(es, start, gapMs, includeIdle, segs, a)
    requires a <= b && (includeIdle ==> a == b)
    ensures ShapeInv(es, start, gapMs, includeIdle, segs, b)
  {
  }

  /** Appending `x` that starts where the list reached keeps the list ordered, chained and positive. */
  lemma {:induction false} ShapeSnoc(es: seq<Event>, start: int, gapMs: int, includeIdle: bool, segs: seq<Segment>, reached: int, x: Segment)
    requires es != []
    requires ShapeInv(es, start, gapMs, includeIdle, segs, reached)
    requires x.start == reached && x.start <= x.end && (gapMs >= 0 ==> x.start < x.end)
    ensures ShapeInv(es, start, gapMs, includeIdle, segs + [x], x.end)
  {
    var r := segs + [x];
    forall j, k | 0 <= j < k < |r|
      ensures r[j].end <= r[k].start
    {
      if k == |segs| {
        assert segs[j].end <= segs[|segs| - 1].end;
      }
    }
  }

  lemma {:induction false} CloseSpans(es: seq<Event>, gapMs: int, includeIdle: bool, splitOnCategory: bool,
                   i: nat, segs: seq<Segment>, current: Segment, cs: nat, spans: seq<Span>)
    requires OpenRun(es, gapMs, splitOnCategory, i, current, cs) && i < |es|
    requires !(ShortGap(es, i, gapMs) && !Splits(splitOnCategory, current.category, es[i].category))
    requires SpanInv(es, gapMs, splitOnCategory, segs, cs, spans)
    ensures var closed := Closed(es, i, gapMs, current);
      SpanInv(es, gapMs, splitOnCategory, AfterClose(es, i, gapMs, includeIdle, segs, closed), i,
              spans + (if closed.end > closed.start then [Span(cs, i - 1)] else []))
  {
    var closed := Closed(es, i, gapMs, current);
    AfterCloseSnoc(es, i, gapMs, includeIdle, segs, closed);
    if closed.end > closed.start {
      ClosedSpan(es, gapMs, splitOnCategory, i, current, cs);
      SpansSnoc(es, gapMs, splitOnCategory, Works(segs), spans, closed, Span(cs, i - 1));
    }
  }

  /** A closed segment of positive length is the work segment of the scans from `cs` to the one before `i`. */
  lemma {:induction false} ClosedSpan(es: seq<Event>, gapMs: int, splitOnCategory: bool, i: nat, current: Segment, cs: nat)
    requires OpenRun(es, gapMs, splitOnCategory, i, current, cs) && i < |es|
    requires !(ShortGap(es, i, gapMs) && !Splits(splitOnCategory, current.category, es[i].category))
    requires Closed(es, i, gapMs, current).end > Closed(es, i, gapMs, current).start
    ensures WorkSpan(es, gapMs, splitOnCategory, Closed(es, i, gapMs, current), Span(cs, i - 1))
  {
    assert !Joins(es, cs, i, gapMs, splitOnCategory);
    assert es[cs..(i - 1) + 1] == es[cs..i];
  }

  lemma {:induction false} SpansSnoc(es: seq<Event>, gapMs: int, splitOnCategory: bool, works: seq<Segment>, spans: seq<Span>, w: Segment, sp: Span)
    requires WorkSpans(es, gapMs, splitOnCategory, works, spans)
    requires spans != [] ==> spans[|spans| - 1].last < sp.first
    requires WorkSpan(es, gapMs, splitOnCategory, w, sp)
    ensures WorkSpans(es, gapMs, splitOnCategory, works + [w], spans + [sp])
  {
    var ws, ss := works + [w], spans + [sp];
    forall q | 0 <= q < |ws|
      ensures WorkSpan(es, gapMs, splitOnCategory, ws[q], ss[q])
    {
      if q < |works| {
        assert ws[q] == works[q] && ss[q] == spans[q];
      } else {
        assert ws[q] == w && ss[q] == sp;
      }
    }
    forall p, q | 0 <= p < q < |ss|
      ensures ss[p].last < ss[q].first
    {
      if q < |spans| {
        assert ss[p] == spans[p] && ss[q] == spans[q];
      } else {
        assert ss[p] == spans[p] && ss[q] == sp;
        assert spans[p].last <= spans[|spans| - 1].last by {
          if p < |spans| - 1 {
            assert WorkSpan(es, gapMs, splitOnCategory, works[|spans| - 1], spans[|spans| - 1]);
          }
        }
      }
    }
  }

  /** The builder's state between two scans (`spans` is the proof's record of each work segment's scans). */
  datatype BuildState = BuildState(segs: seq<Segment>, ewhMs: int, current: Segment, cs: nat, spans: seq<Span>)

  /** The state after processing scan `i`, as the loop body of the builder changes it. */
  ghost function Step(es: seq<Event>, gapMs: int, includeIdle: bool, splitOnCategory: bool, i: nat, st: BuildState): (r: BuildState)
    requires 0 < i < |es| && st.current.Work?
    ensures r.current.Work?
  {
    var ewhMs := st.ewhMs + Credit(Diff(es, i), gapMs);
    if Extends(es, gapMs, splitOnCategory, i, st) then
      BuildState(st.segs, ewhMs, Extended(es, i, st.current), st.cs, st.spans)
    else
      var closed := Closed(es, i, gapMs, st.current);
      BuildState(AfterClose(es, i, gapMs, includeIdle, st.segs, closed), ewhMs, Opened(es[i]), i,
                 st.spans + (if closed.end > closed.start then [Span(st.cs, i - 1)] else []))
  }

  /** The state once the first `i` scans are processed. */
  ghost function Run(es: seq<Event>, start: int, gapMs: int, includeIdle: bool, splitOnCategory: bool, i: nat): (r: BuildState)
    requires 1 <= i <= |es|
    ensures r.current.Work?
  {
    if i == 1 then BuildState(Initial(es, start, includeIdle), 0, Opened(es[0]), 0, [])
    else Step(es, gapMs, includeIdle, splitOnCategory, i - 1, Run(es, start, gapMs, includeIdle, splitOnCategory, i - 1))
  }

  /** The segments emitted before the first scan is processed. */
  function Initial(es: seq<Event>, start: int, includeIdle: bool): seq<Segment>
  {
    if includeIdle then LeadIdle(es, start) else []
  }

  lemma {:induction false} InitialSnoc(es: seq<Event>, start: int, includeIdle: bool)
    ensures Works(Initial(es, start, includeIdle)) == [] && WorkTime(Initial(es, start, includeIdle)) == 0
    ensures Idles(Initial(es, start, includeIdle)) == Initial(es, start, includeIdle)
  {
    var segs := Initial(es, start, includeIdle);
    if segs != [] {
      SegsSnoc([], segs[0]);
      assert [] + [segs[0]] == segs;
    }
  }

  /** The run that scan `i` opens. */
  lemma {:induction false} OpenedRun(es: seq<Event>, gapMs: int, splitOnCategory: bool, i: nat)
    requires TsSorted(es) && i < |es|
    ensures OpenRun(es, gapMs, splitOnCategory, i + 1, Opened(es[i]), i)
  {
    assert es[i..i + 1] == [es[i]];
    assert [es[i]][1..] == [];
  }

  /** Whether processing scan `i` extends the open segment rather than closing it. */
  predicate Extends(es: seq<Event>, gapMs: int, splitOnCategory: bool, i: nat, st: BuildState)
    requires 0 < i < |es|
  {
    st.current.Work? && ShortGap(es, i, gapMs) && !Splits(splitOnCategory, st.current.category, es[i].category)
  }

  lemma {:induction false} StepOpen(es: seq<Event>, gapMs: int, includeIdle: bool, splitOnCategory: bool, i: nat, st: BuildState)
    requires TsSorted(es) && OpenRun(es, gapMs, splitOnCategory, i, st.current, st.cs) && i < |es|
    ensures var next := Step(es, gapMs, includeIdle, splitOnCategory, i, st);
      OpenRun(es, gapMs, splitOnCategory, i + 1, next.current, next.cs)
  {
    if Extends(es, gapMs, splitOnCategory, i, st) {
      ExtendOpen(es, gapMs, splitOnCategory, i, st.current, st.cs);
    } else {
      OpenedRun(es, gapMs, splitOnCategory, i);
    }
  }

  lemma {:induction false} StepEwh(es: seq<Event>, gapMs: int, includeIdle: bool, splitOnCategory: bool, i: nat, st: BuildState)
    requires OpenRun(es, gapMs, splitOnCategory, i, st.current, st.cs) && i < |es|
    requires EwhInv(es, gapMs, i, st.segs, st.ewhMs, st.current)
    ensures var next := Step(es, gapMs, includeIdle, splitOnCategory, i, st);
      EwhInv(es, gapMs, i + 1, next.segs, next.ewhMs, next.current)
  {
    if Extends(es, gapMs, splitOnCategory, i, st) {
      ExtendEwh(es, gapMs, splitOnCategory, i, st.segs, st.ewhMs, st.current, st.cs);
    } else {
      CloseEwh(es, gapMs, includeIdle, splitOnCategory, i, st.segs, st.ewhMs, st.current, st.cs);
    }
  }

  lemma {:induction false} StepIdles(es: seq<Event>, start: int, gapMs: int, includeIdle: bool, splitOnCategory: bool, i: nat, st: BuildState)
    requires OpenRun(es, gapMs, splitOnCategory, i, st.current, st.cs) && i < |es|
    requires IdleInv(es, start, gapMs, includeIdle, i, st.segs)
    ensures var next := Step(es, gapMs, includeIdle, splitOnCategory, i, st);
      IdleInv(es, start, gapMs, includeIdle, i + 1, next.segs)
  {
    if Extends(es, gapMs, splitOnCategory, i, st) {
      ExtendIdles(es, start, gapMs, includeIdle, splitOnCategory, i, st.segs, st.current, st.cs);
    } else {
      CloseIdles(es, start, gapMs, includeIdle, splitOnCategory, i, st.segs, st.current, st.cs);
    }
  }

  lemma {:induction false} StepShape(es: seq<Event>, start: int, gapMs: int, includeIdle: bool, splitOnCategory: bool, i: nat, st: BuildState)
    requires TsSorted(es) && OpenRun(es, gapMs, splitOnCategory, i, st.current, st.cs) && i < |es|
    requires ShapeInv(es, start, gapMs, includeIdle, st.segs, st.current.start)
    ensures var next := Step(es, gapMs, includeIdle, splitOnCategory, i, st);
      ShapeInv(es, start, gapMs, includeIdle, next.segs, next.current.start)
  {
    if !Extends(es, gapMs, splitOnCategory, i, st) {
      CloseShape(es, start, gapMs, includeIdle, splitOnCategory, i, st.segs, st.current, st.cs);
    }
  }

  lemma {:induction false} StepSpans(es: seq<Event>, gapMs: int, includeIdle: bool, splitOnCategory: bool, i: nat, st: BuildState)
    requires OpenRun(es, gapMs, splitOnCategory, i, st.current, st.cs) && i < |es|
    requires SpanInv(es, gapMs, splitOnCategory, st.segs, st.cs, st.spans)
    ensures var next := Step(es, gapMs, includeIdle, splitOnCategory, i, st);
      SpanInv(es, gapMs, splitOnCategory, next.segs, next.cs, next.spans)
  {
    if !Extends(es, gapMs, splitOnCategory, i, st) {
      CloseSpans(es, gapMs, includeIdle, splitOnCategory, i, st.segs, st.current, st.cs, st.spans);
    }
  }

  /** What holds of the builder's state once the first `i` scans are processed. */
  ghost predicate StateInv(es: seq<Event>, start: int, gapMs: int, includeIdle: bool, splitOnCategory: bool, i: nat, st: BuildState)
  {
    && TsSorted(es) && OpenRun(es, gapMs, splitOnCategory, i, st.current, st.cs)
    && EwhInv(es, gapMs, i, st.segs, st.ewhMs, st.current)
    && IdleInv(es, start, gapMs, includeIdle, i, st.segs)
    && ShapeInv(es, start, gapMs, includeIdle, st.segs, st.current.start)
    && SpanInv(es, gapMs, splitOnCategory, st.segs, st.cs, st.spans)
  }

  lemma {:induction false} StepInv(es: seq<Event>, start: int, gapMs: int, includeIdle: bool, splitOnCategory: bool, i: nat, st: BuildState)
    requires StateInv(es, start, gapMs, includeIdle, splitOnCategory, i, st) && i < |es|
    ensures StateInv(es, start, gapMs, includeIdle, splitOnCategory, i + 1, Step(es, gapMs, includeIdle, splitOnCategory, i, st))
  {
    StepOpen(es, gapMs, includeIdle, splitOnCategory, i, st);
    StepEwh(es, gapMs, includeIdle, splitOnCategory, i, st);
    StepIdles(es, start, gapMs, includeIdle, splitOnCategory, i, st);
    StepShape(es, start, gapMs, includeIdle, splitOnCategory, i, st);
    StepSpans(es, gapMs, includeIdle, splitOnCategory, i, st);
  }

  lemma {:induction false} RunInit(es: seq<Event>, start: int, gapMs: int, includeIdle: bool, splitOnCategory: bool)
    requires TsSorted(es) && es != []
    ensures StateInv(es, start, gapMs, includeIdle, splitOnCategory, 1, Run(es, start, gapMs, includeIdle, splitOnCategory, 1))
  {
    var st := Run(es, start, gapMs, includeIdle, splitOnCategory, 1);
    assert st == BuildState(Initial(es, start, includeIdle), 0, Opened(es[0]), 0, []);
    OpenedRun(es, gapMs, splitOnCategory, 0);
    InitialSnoc(es, start, includeIdle);
    InitialShape(es, start, gapMs, includeIdle);
    assert GapIdles(es[..1], gapMs) == [];
  }

  lemma {:induction false} InitialShape(es: seq<Event>, start: int, gapMs: int, includeIdle: bool)
    requires es != []
    ensures ShapeInv(es, start, gapMs, includeIdle, Initial(es, start, includeIdle), es[0].ts)
  {
    var segs := Initial(es, start, includeIdle);
    if segs != [] {
      assert segs == [Idle(start, es[0].ts)];
    }
  }

  lemma {:induction false} RunInv(es: seq<Event>, start: int, gapMs: int, includeIdle: bool, splitOnCategory: bool, i: nat)
    requires TsSorted(es) && 1 <= i <= |es|
    ensures StateInv(es, start, gapMs, includeIdle, splitOnCategory, i, Run(es, start, gapMs, includeIdle, splitOnCategory, i))
  {
    if i == 1 {
      RunInit(es, start, gapMs, includeIdle, splitOnCategory);
    } else {
      RunInv(es, start, gapMs, includeIdle, splitOnCategory, i - 1);
      RunStep(es, start, gapMs, includeIdle, splitOnCategory, i);
    }
  }

  lemma {:induction false} RunStep(es: seq<Event>, start: int, gapMs: int, includeIdle: bool, splitOnCategory: bool, i: nat)
    requires 1 < i <= |es|
    requires StateInv(es, start, gapMs, includeIdle, splitOnCategory, i - 1, Run(es, start, gapMs, includeIdle, splitOnCategory, i - 1))
    ensures StateInv(es, start, gapMs, includeIdle, splitOnCategory, i, Run(es, start, gapMs, includeIdle, splitOnCategory, i))
  {
    StepInv(es, start, gapMs, includeIdle, splitOnCategory, i - 1, Run(es, start, gapMs, includeIdle, splitOnCategory, i - 1));
  }

  /**
   * `buildSegmentsForEvents` on scans already in time order: walks the scans
   * keeping an open work segment `current`, credits every pause in (0, gapMs]
   * to the effective work time, extends `current` over such a pause unless the
   * category changes, and otherwise closes it (kept only if it has a positive
   * length), emitting an idle segment for a pause longer than `gapMs`.
   */
  method BuildSegmentsSorted(es: seq<Event>, start: int, end: int, gapMs: int, includeIdle: bool, splitOnCategory: bool)
    returns (segs: seq<Segment>, ewhMs: int, ghost spans: seq<Span>)
    requires TsSorted(es)
    ensures ewhMs == Ewh(es, gapMs) && WorkTime(segs) == ewhMs
    ensures Idles(segs) == if includeIdle then LeadIdle(es, start) + GapIdles(es, gapMs) + TrailIdle(es, end) else []
    ensures es == [] ==> segs == []
    ensures includeIdle && es != [] ==> Chain(segs, Origin(es, start), Terminal(es, end))
    ensures Ordered(segs)
    ensures gapMs >= 0 ==> AllPositive(segs)
    ensures WorkSpans(es, gapMs, splitOnCategory, Works(segs), spans)
  {
    if |es| == 0 {
      return [], 0, [];
    }
    var current, lastEvent;
    ghost var cs;
    segs, ewhMs, current, lastEvent, cs, spans := Scan(es, start, gapMs, includeIdle, splitOnCategory);
    ghost var final := BuildState(segs, ewhMs, current, cs, spans);
    if current.end > current.start {
      segs := segs + [current];
      spans := spans + [Span(cs, |es| - 1)];
    }
    if includeIdle && lastEvent.ts < end {
      segs := segs + [Idle(lastEvent.ts, end)];
    }
    assert segs == AfterLast(es, end, includeIdle, final.segs, final.current);
    RunFinal(es, start, end, gapMs, includeIdle, splitOnCategory, segs, spans);
  }

  /** The scan over the sorted events, up to (not including) the segments emitted after the last event. */
  method Scan(es: seq<Event>, start: int, gapMs: int, includeIdle: bool, splitOnCategory: bool)
    returns (segs: seq<Segment>, ewhMs: int, current: Segment, lastEvent: Event, ghost cs: nat, ghost spans: seq<Span>)
    requires TsSorted(es) && es != []
    ensures lastEvent == es[|es| - 1]
    ensures BuildState(segs, ewhMs, current, cs, spans) == Run(es, start, gapMs, includeIdle, splitOnCategory, |es|)
  {
    segs := [];
    if includeIdle && es[0].ts > start {
      segs := [Idle(start, es[0].ts)];
    }
    current := Work(es[0].ts, es[0].ts, es[0].units, es[0].category);
    lastEvent := es[0];
    cs := 0;
    ewhMs := 0;
    spans := [];
    var i := 1;
    while i < |es|
      invariant 1 <= i <= |es| && lastEvent == es[i - 1]
      invariant BuildState(segs, ewhMs, current, cs, spans) == Run(es, start, gapMs, includeIdle, splitOnCategory, i)
    {
      var event := es[i];
      ghost var st0 := BuildState(segs, ewhMs, current, cs, spans);
      var diff := event.ts - lastEvent.ts;
      assert diff == Diff(es, i);
      if diff > 0 && diff <= gapMs {
        ewhMs := ewhMs + diff;
      }
      assert ewhMs == st0.ewhMs + Credit(Diff(es, i), gapMs);
      var shouldSplitCategory :=
        splitOnCategory && current.category.Some? && event.category.Some? && current.category != event.category;
      assert shouldSplitCategory == Splits(splitOnCategory, current.category, es[i].category);
      if diff > 0 && diff <= gapMs && !shouldSplitCategory {
        current := current.(end := event.ts, units := current.units + event.units);
      } else {
        if shouldSplitCategory && diff > 0 && diff <= gapMs {
          current := current.(end := event.ts);
        }
        assert current == Closed(es, i, gapMs, st0.current);
        ghost var closed := current;
        if current.end > current.start {
          segs := segs + [current];
          spans := spans + [Span(cs, i - 1)];
        }
        assert segs == st0.segs + (if closed.end > closed.start then [closed] else []);
        assert spans == st0.spans + (if closed.end > closed.start then [Span(st0.cs, i - 1)] else []);
        if includeIdle && diff > gapMs {
          segs := segs + [Idle(lastEvent.ts, event.ts)];
        }
        assert segs == AfterClose(es, i, gapMs, includeIdle, st0.segs, closed);
        current := Work(event.ts, event.ts, event.units, event.category);
        cs := i;
      }
      assert BuildState(segs, ewhMs, current, cs, spans) == Step(es, gapMs, includeIdle, splitOnCategory, i, st0);
      lastEvent := event;
      i := i + 1;
    }
  }

  /** The properties of the finished run, for the segments emitted after the last scan. */
  lemma {:induction false} RunFinal(es: seq<Event>, start: int, end: int, gapMs: int, includeIdle: bool, splitOnCategory: bool,
                 segs: seq<Segment>, spans: seq<Span>)
    requires TsSorted(es) && es != []
    requires var st := Run(es, start, gapMs, includeIdle, splitOnCategory, |es|);
      && segs == AfterLast(es, end, includeIdle, st.segs, st.current)
      && spans == st.spans + (if st.current.end > st.current.start then [Span(st.cs, |es| - 1)] else [])
    ensures var st := Run(es, start, gapMs, includeIdle, splitOnCategory, |es|);
      st.ewhMs == Ewh(es, gapMs) && WorkTime(segs) == st.ewhMs
    ensures Idles(segs) == if includeIdle then LeadIdle(es, start) + GapIdles(es, gapMs) + TrailIdle(es, end) else []
    ensures includeIdle ==> Chain(segs, Origin(es, start), Terminal(es, end))
    ensures Ordered(segs)
    ensures gapMs >= 0 ==> AllPositive(segs)
    ensures WorkSpans(es, gapMs, splitOnCategory, Works(segs), spans)
  {
    var st := Run(es, start, gapMs, includeIdle, splitOnCategory, |es|);
    RunInv(es, start, gapMs, includeIdle, splitOnCategory, |es|);
    FinishEwh(es, end, gapMs, includeIdle, splitOnCategory, st);
    FinishIdles(es, start, end, gapMs, includeIdle, splitOnCategory, st);
    FinishShape(es, start, end, gapMs, includeIdle, splitOnCategory, st.segs, st.current, st.cs);
    FinishSpans(es, end, gapMs, includeIdle, splitOnCategory, st);
  }

  lemma {:induction false} FinishEwh(es: seq<Event>, end: int, gapMs: int, includeIdle: bool, splitOnCategory: bool, st: BuildState)
    requires es != [] && OpenRun(es, gapMs, splitOnCategory, |es|, st.current, st.cs)
    requires EwhInv(es, gapMs, |es|, st.segs, st.ewhMs, st.current)
    ensures st.ewhMs == Ewh(es, gapMs) && WorkTime(AfterLast(es, end, includeIdle, st.segs, st.current)) == st.ewhMs
  {
    assert es[..|es|] == es;
    AfterLastSnoc(es, end, includeIdle, st.segs, st.current);
  }

  lemma {:induction false} FinishIdles(es: seq<Event>, start: int, end: int, gapMs: int, includeIdle: bool, splitOnCategory: bool, st: BuildState)
    requires es != [] && OpenRun(es, gapMs, splitOnCategory, |es|, st.current, st.cs)
    requires IdleInv(es, start, gapMs, includeIdle, |es|, st.segs)
    ensures Idles(AfterLast(es, end, includeIdle, st.segs, st.current))
         == if includeIdle then LeadIdle(es, start) + GapIdles(es, gapMs) + TrailIdle(es, end) else []
  {
    assert es[..|es|] == es;
    AfterLastSnoc(es, end, includeIdle, st.segs, st.current);
  }

  lemma {:induction false} FinishSpans(es: seq<Event>, end: int, gapMs: int, includeIdle: bool, splitOnCategory: bool, st: BuildState)
    requires es != [] && OpenRun(es, gapMs, splitOnCategory, |es|, st.current, st.cs)
    requires SpanInv(es, gapMs, splitOnCategory, st.segs, st.cs, st.spans)
    ensures WorkSpans(es, gapMs, splitOnCategory, Works(AfterLast(es, end, includeIdle, st.segs, st.current)),
                      st.spans + (if st.current.end > st.current.start then [Span(st.cs, |es| - 1)] else []))
  {
    var r := AfterLast(es, end, includeIdle, st.segs, st.current);
    AfterLastSnoc(es, end, includeIdle, st.segs, st.current);
    if st.current.end > st.current.start {
      assert Works(r) == Works(st.segs) + [st.current];
      LastSpans(es, gapMs, splitOnCategory, st);
    } else {
      assert Works(r) == Works(st.segs);
    }
  }

  lemma {:induction false} LastSpans(es: seq<Event>, gapMs: int, splitOnCategory: bool, st: BuildState)
    requires es != [] && OpenRun(es, gapMs, splitOnCategory, |es|, st.current, st.cs)
    requires SpanInv(es, gapMs, splitOnCategory, st.segs, st.cs, st.spans)
    requires st.current.end > st.current.start
    ensures WorkSpans(es, gapMs, splitOnCategory, Works(st.segs) + [st.current], st.spans + [Span(st.cs, |es| - 1)])
  {
    LastSpan(es, gapMs, splitOnCategory, st.current, st.cs);
    SpansSnoc(es, gapMs, splitOnCategory, Works(st.segs), st.spans, st.current, Span(st.cs, |es| - 1));
  }

  /** The open segment at the end, if of positive length, is the work segment of the scans from `cs` on. */
  lemma {:induction false} LastSpan(es: seq<Event>, gapMs: int, splitOnCategory: bool, current: Segment, cs: nat)
    requires es != [] && OpenRun(es, gapMs, splitOnCategory, |es|, current, cs)
    requires current.end > current.start
    ensures WorkSpan(es, gapMs, splitOnCategory, current, Span(cs, |es| - 1))
  {
    assert es[cs..(|es| - 1) + 1] == es[cs..|es|];
  }

  /** The emitted segments once the last scan is processed. */
  function AfterLast(es: seq<Event>, end: int, includeIdle: bool, segs: seq<Segment>, current: Segment): seq<Segment>
    requires es != []
  {
    segs + (if current.end > current.start then [current] else [])
    + (if includeIdle && es[|es| - 1].ts < end then [Idle(es[|es| - 1].ts, end)] else [])
  }

  lemma {:induction false} AfterLastSnoc(es: seq<Event>, end: int, includeIdle: bool, segs: seq<Segment>, current: Segment)
    requires es != [] && current.Work?
    ensures var r := AfterLast(es, end, includeIdle, segs, current);
      && Works(r) == Works(segs) + (if current.end > current.start then [current] else [])
      && Idles(r) == Idles(segs) + (if includeIdle then TrailIdle(es, end) else [])
      && WorkTime(r) == WorkTime(segs) + (if current.end > current.start then current.end - current.start else 0)
  {
    var mid := segs + (if current.end > current.start then [current] else []);
    if current.end > current.start {
      SegsSnoc(segs, current);
    } else {
      assert mid == segs;
    }
    if includeIdle && es[|es| - 1].ts < end {
      SegsSnoc(mid, Idle(es[|es| - 1].ts, end));
    } else {
      assert AfterLast(es, end, includeIdle, segs, current) == mid;
    }
  }

  lemma {:induction false} FinishShape(es: seq<Event>, start: int, end: int, gapMs: int, includeIdle: bool, splitOnCategory: bool,
                    segs: seq<Segment>, current: Segment, cs: nat)
    requires OpenRun(es, gapMs, splitOnCategory, |es|, current, cs)
    requires ShapeInv(es, start, gapMs, includeIdle, segs, current.start)
    ensures var segs1 := AfterLast(es, end, includeIdle, segs, current);
      && (includeIdle ==> Chain(segs1, Origin(es, start), Terminal(es, end)))
      && Ordered(segs1)
      && (gapMs >= 0 ==> AllPositive(segs1))
  {
    var mid := segs + (if current.end > current.start then [current] else []);
    if current.end > current.start {
      ShapeSnoc(es, start, gapMs, includeIdle, segs, current.start, current);
    } else {
      assert mid == segs;
    }
    var reached := if current.end > current.start then current.end else current.start;
    if includeIdle && es[|es| - 1].ts < end {
      ShapeSnoc(es, start, gapMs, includeIdle, mid, reached, Idle(es[|es| - 1].ts, end));
    } else {
      assert AfterLast(es, end, includeIdle, segs, current) == mid;
    }
  }

  /** A list sorted by `TsKey` is sorted by timestamp. */
  lemma {:induction false} SortedTs(s: seq<Event>)
    requires SortedBy(s, TsKey)
    ensures TsSorted(s)
  {
    forall i, j | 0 <= i < j < |s|
      ensures s[i].ts <= s[j].ts
    {
      assert TsKey(s[i]) <= TsKey(s[j]);
    }
  }

  /** A list sorted by timestamp is its own stable sort. */
  lemma {:induction false} TsSortedSorts(s: seq<Event>)
    requires TsSorted(s)
    ensures SortBy(s, TsKey) == s
  {
    assert SortedBy(s, TsKey);
    SortBySorted(s, TsKey);
  }

  /**
   * `buildSegmentsForEvents`: the scans are sorted by timestamp (stably) and
   * walked once. With idle segments on and every scan inside [start, end),
   * the segments tile the whole window.
   */
  method BuildSegments(list: seq<Event>, start: int, end: int, gapMs: int, includeIdle: bool, splitOnCategory: bool)
    returns (segs: seq<Segment>, ewhMs: int, ghost sorted: seq<Event>, ghost spans: seq<Span>)
    ensures sorted == SortBy(list, TsKey) && TsSorted(sorted) && multiset(sorted) == multiset(list)
    ensures TsSorted(list) ==> sorted == list
    ensures ewhMs == Ewh(sorted, gapMs) && WorkTime(segs) == ewhMs
    ensures Idles(segs) == if includeIdle then LeadIdle(sorted, start) + GapIdles(sorted, gapMs) + TrailIdle(sorted, end) else []
    ensures list == [] ==> segs == []
    ensures includeIdle && list != [] ==> Chain(segs, Origin(sorted, start), Terminal(sorted, end))
    ensures includeIdle && list != [] && (forall e :: e in list ==> start <= e.ts < end) ==> Chain(segs, start, end)
    ensures Ordered(segs)
    ensures gapMs >= 0 ==> AllPositive(segs)
    ensures WorkSpans(sorted, gapMs, splitOnCategory, Works(segs), spans)
  {
    var byTs := SortBy(list, TsKey);
    sorted := byTs;
    SortedTs(byTs);
    if TsSorted(list) {
      TsSortedSorts(list);
    }
    segs, ewhMs, spans := BuildSegmentsSorted(byTs, start, end, gapMs, includeIdle, splitOnCategory);
    if list != [] && forall e :: e in list ==> start <= e.ts < end {
      WindowEnds(list, byTs, start, end);
    }
  }

  /** When every scan lies in the window, the tiling runs exactly from the window start to its end. */
  lemma {:induction false} WindowEnds(list: seq<Event>, sorted: seq<Event>, start: int, end: int)
    requires sorted != [] && multiset(sorted) == multiset(list)
    requires forall e :: e in list ==> start <= e.ts < end
    ensures Origin(sorted, start) == start && Terminal(sorted, end) == end
  {
    assert sorted[0] in multiset(list) && sorted[|sorted| - 1] in multiset(list);
  }

  /** The effective work time lies between nothing and the whole span of the scans. */
  lemma {:induction false} EwhBounds(es: seq<Event>, gapMs: int)
    requires TsSorted(es) && es != []
    ensures 0 <= Ewh(es, gapMs) <= es[|es| - 1].ts - es[0].ts
  {
    if |es| > 1 {
      var init := es[..|es| - 1];
      EwhBounds(init, gapMs);
      assert init[0] == es[0] && init[|init| - 1] == es[|es| - 2];
    }
  }

  /** One more scan adds the credit of the pause before it. */
  lemma {:induction false} EwhPrefix(es: seq<Event>, k: nat, gapMs: int)
    requires 0 < k < |es|
    ensures Ewh(es[..k + 1], gapMs) == Ewh(es[..k], gapMs) + Credit(es[k].ts - es[k - 1].ts, gapMs)
  {
    var prefix := es[..k + 1];
    assert prefix[..|prefix| - 1] == es[..k];
    assert Diff(prefix, k) == es[k].ts - es[k - 1].ts;
  }

  /** `computeEwhForEvents`: the same pause sum in hours, without the segments. */
  method ComputeEwhForEvents(events: seq<Event>, start: int, end: int, gapMs: int) returns (hours: real)
    ensures hours == Ewh(SortBy(events, TsKey), gapMs) as real / 3600000.0
    ensures events != [] ==>
      var s := SortBy(events, TsKey);
      0.0 <= hours <= (s[|s| - 1].ts - s[0].ts) as real / 3600000.0
    ensures events == [] ==> hours == 0.0
  {
    if |events| == 0 {
      return 0.0;
    }
    var list := SortBy(events, TsKey);
    var ewhMs := SumShortPauses(list, gapMs);
    SortedTs(list);
    EwhBounds(list, gapMs);
    hours := ewhMs as real / 3600000.0;
  }

  /** The index loop of `computeEwhForEvents` over the sorted scans. */
  method SumShortPauses(list: seq<Event>, gapMs: int) returns (ewhMs: int)
    ensures ewhMs == Ewh(list, gapMs)
  {
    if |list| == 0 {
      return 0;
    }
    ewhMs := 0;
    var i := 0;
    while i < |list| - 1
      invariant 0 <= i <= |list| - 1
      invariant ewhMs == Ewh(list[..i + 1], gapMs)
    {
      var a := list[i].ts;
      var b := list[i + 1].ts;
      var diff := b - a;
      if diff > 0 && diff <= gapMs {
        ewhMs := ewhMs + diff;
      }
      i := i + 1;
      EwhPrefix(list, i, gapMs);
    }
    assert list[..|list|] == list;
  }
}
