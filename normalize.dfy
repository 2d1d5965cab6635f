/**
 * Row normalisation and the validation ladder shared by the sorting/picking
 * report (`computeReport`) and the packing report (`parsePackingFile`): every
 * spreadsheet row either becomes a normalised scan or counts as a parse
 * failure; the share of scans inside the 24-hour work window and the time
 * span of all scans then decide whether the report passes, warns or is
 * rejected. Timestamp parsing and JavaScript's `Number` conversion are
 * parameters of the model.
 */
module Normalize {
  import opened Wrappers
  import opened Text
  import opened Segments

  /** `windowForWorkDate`: the window ends 24 hours after it starts. */
  const DayMs: int := 24 * 60 * 60 * 1000

  function WindowEnd(start: int): int { start + DayMs }

  /** A scan is in the window when `start <= ts < start + 24h`. */
  predicate InWindow(ts: int, start: int)
  {
    start <= ts < WindowEnd(start)
  }

  /** The quantity cell of a row as the sheet reader returns it. */
  datatype UnitsCell = NumberCell(n: int) | TextCell(text: string) | NullCell | UndefinedCell

  /** One spreadsheet row: operator, raw timestamp cell (of any cell type `C`), quantity and packing category label. */
  datatype Row<C> = Row(operator: string, ts: C, units: UnitsCell, category: string)

  /** A normalised scan with its window flag. */
  datatype Kept = Kept(event: Event, inWindow: bool)

  /** `s.replace(/,/g, '')` */
  function StripCommas(s: string): (r: string)
    ensures ',' !in r
    ensures |r| <= |s|
    ensures ',' !in s ==> r == s
  {
    if s == [] then []
    else (if s[0] == ',' then [] else [s[0]]) + StripCommas(s[1..])
  }

  /**
   * `Number(rawUnits)` followed by the finiteness test: a number cell is its
   * value, a text cell is converted after its commas are dropped, `null`
   * converts to 0 and a missing cell to NaN; a non-finite result becomes 1.
   */
  function UnitsOf(cell: UnitsCell, toNumber: string -> Option<int>): int
  {
    match cell
    case NumberCell(n) => n
    case TextCell(t) => toNumber(StripCommas(t)).GetOr(1)
    case NullCell => 0
    case UndefinedCell => 1
  }

  /** The packing category rule: a label containing 单品 is a single-item order, anything else multi-item. */
  function CategoryOf(name: string): (c: Category)
    ensures c == Single <==> Includes(Trim(name), "单品")
  {
    if Includes(Trim(name), "单品") then Single else Multi
  }

  /**
   * One row: a timestamp that does not parse, or an operator that is blank
   * once trimmed, makes the row a parse failure (`None`).
   */
  function NormalizeRow<C>(row: Row<C>, start: int, parseTs: C -> Option<int>, toNumber: string -> Option<int>, packing: bool): (k: Option<Kept>)
    ensures k.Some? <==> parseTs(row.ts).Some? && Trim(row.operator) != []
    ensures k.Some? ==>
      && k.value.event.ts == parseTs(row.ts).value
      && k.value.event.operator == Trim(row.operator)
      && k.value.event.units == UnitsOf(row.units, toNumber)
      && (k.value.inWindow <==> InWindow(k.value.event.ts, start))
      && k.value.event.category == (if packing then Some(CategoryOf(row.category)) else None)
  {
    match parseTs(row.ts)
    case None => None
    case Some(ts) =>
      var operator := Trim(row.operator);
      if operator == [] then None
      else
        var category := if packing then Some(CategoryOf(row.category)) else None;
        Some(Kept(Event(operator, ts, UnitsOf(row.units, toNumber), category), InWindow(ts, start)))
  }

  /** The rows that survive normalisation, in row order. */
  function KeptRows<C>(rows: seq<Row<C>>, start: int, parseTs: C -> Option<int>, toNumber: string -> Option<int>, packing: bool): seq<Kept>
  {
    if rows == [] then []
    else
      KeptRows(rows[..|rows| - 1], start, parseTs, toNumber, packing)
      + match NormalizeRow(rows[|rows| - 1], start, parseTs, toNumber, packing)
        case None => []
        case Some(k) => [k]
  }

  /** What every surviving row looks like. */
  predicate WellFormed(k: Kept, start: int, packing: bool)
  {
    && k.event.operator != [] && !IsSpace(k.event.operator[0]) && !IsSpace(k.event.operator[|k.event.operator| - 1])
    && (k.inWindow <==> InWindow(k.event.ts, start))
    && (packing <==> k.event.category.Some?)
  }

  lemma {:induction false} KeptRowsWellFormed<C>(rows: seq<Row<C>>, start: int, parseTs: C -> Option<int>, toNumber: string -> Option<int>, packing: bool)
    ensures var kept := KeptRows(rows, start, parseTs, toNumber, packing);
      |kept| <= |rows| && forall k :: 0 <= k < |kept| ==> WellFormed(kept[k], start, packing)
  {
    if rows != [] {
      var init := rows[..|rows| - 1];
      KeptRowsWellFormed(init, start, parseTs, toNumber, packing);
      var next := NormalizeRow(rows[|rows| - 1], start, parseTs, toNumber, packing);
      RowWellFormed(rows[|rows| - 1], start, parseTs, toNumber, packing);
      WellFormedSnoc(KeptRows(init, start, parseTs, toNumber, packing), if next.Some? then [next.value] else [], start, packing);
    }
  }

  lemma {:induction false} RowWellFormed<C>(row: Row<C>, start: int, parseTs: C -> Option<int>, toNumber: string -> Option<int>, packing: bool)
    ensures var next := NormalizeRow(row, start, parseTs, toNumber, packing);
      next.Some? ==> WellFormed(next.value, start, packing)
  {
    var next := NormalizeRow(row, start, parseTs, toNumber, packing);
    if next.Some? {
      var op := next.value.event.operator;
      assert op == Trim(row.operator) != [];
    }
  }

  lemma {:induction false} WellFormedSnoc(before: seq<Kept>, tail: seq<Kept>, start: int, packing: bool)
    requires forall k :: 0 <= k < |before| ==> WellFormed(before[k], start, packing)
    requires forall k :: 0 <= k < |tail| ==> WellFormed(tail[k], start, packing)
    ensures forall k :: 0 <= k < |before + tail| ==> WellFormed((before + tail)[k], start, packing)
  {
    forall k | 0 <= k < |before + tail|
      ensures WellFormed((before + tail)[k], start, packing)
    {
      if k >= |before| {
        assert (before + tail)[k] == tail[k - |before|];
      }
    }
  }

  /** The number of rows that fail normalisation. */
  function Failures<C>(rows: seq<Row<C>>, parseTs: C -> Option<int>): nat
  {
    if rows == [] then 0
    else
      Failures(rows[..|rows| - 1], parseTs)
      + (if parseTs(rows[|rows| - 1].ts).None? || Trim(rows[|rows| - 1].operator) == [] then 1 else 0)
  }

  /** Every row is either kept or a failure: `totalCount` is the number of rows. */
  lemma {:induction false} KeptPlusFailures<C>(rows: seq<Row<C>>, start: int, parseTs: C -> Option<int>, toNumber: string -> Option<int>, packing: bool)
    ensures |KeptRows(rows, start, parseTs, toNumber, packing)| + Failures(rows, parseTs) == |rows|
  {
    if rows != [] {
      KeptPlusFailures(rows[..|rows| - 1], start, parseTs, toNumber, packing);
    }
  }

  predicate IsMin(m: int, kept: seq<Kept>)
  {
    (exists k :: 0 <= k < |kept| && kept[k].event.ts == m) && forall k :: 0 <= k < |kept| ==> m <= kept[k].event.ts
  }

  predicate IsMax(m: int, kept: seq<Kept>)
  {
    (exists k :: 0 <= k < |kept| && kept[k].event.ts == m) && forall k :: 0 <= k < |kept| ==> kept[k].event.ts <= m
  }

  /**
   * The normalisation loop of `computeReport` / `parsePackingFile`: counts the
   * failed rows, keeps the others, and tracks the earliest and latest
   * timestamp of the kept rows (in or out of the window).
   */
  method NormalizeRows<C>(rows: seq<Row<C>>, start: int, parseTs: C -> Option<int>, toNumber: string -> Option<int>, packing: bool)
    returns (normalized: seq<Kept>, parseFail: nat, minTs: Option<int>, maxTs: Option<int>)
    ensures normalized == KeptRows(rows, start, parseTs, toNumber, packing)
    ensures parseFail == Failures(rows, parseTs)
    ensures minTs.None? <==> normalized == []
    ensures maxTs.None? <==> normalized == []
    ensures minTs.Some? ==> IsMin(minTs.value, normalized)
    ensures maxTs.Some? ==> IsMax(maxTs.value, normalized)
  {
    normalized, parseFail, minTs, maxTs := [], 0, None, None;
    for i := 0 to |rows|
      invariant normalized == KeptRows(rows[..i], start, parseTs, toNumber, packing)
      invariant parseFail == Failures(rows[..i], parseTs)
      invariant minTs.None? <==> normalized == []
      invariant maxTs.None? <==> normalized == []
      invariant minTs.Some? ==> IsMin(minTs.value, normalized)
      invariant maxTs.Some? ==> IsMax(maxTs.value, normalized)
    {
      assert rows[..i + 1][..i] == rows[..i];
      var row := rows[i];
      assert rows[..i + 1][i] == row;
      var k := NormalizeRow(row, start, parseTs, toNumber, packing);
      if k.None? {
        parseFail := parseFail + 1;
        continue;
      }
      minTs, maxTs := Extremes(normalized, minTs, maxTs, k.value);
      normalized := normalized + [k.value];
    }
    assert rows[..|rows|] == rows;
  }

  /** One kept row updates the running earliest and latest timestamps. */
  method Extremes(kept: seq<Kept>, minTs: Option<int>, maxTs: Option<int>, x: Kept) returns (newMin: Option<int>, newMax: Option<int>)
    requires minTs.None? <==> kept == []
    requires maxTs.None? <==> kept == []
    requires minTs.Some? ==> IsMin(minTs.value, kept)
    requires maxTs.Some? ==> IsMax(maxTs.value, kept)
    ensures newMin.Some? && IsMin(newMin.value, kept + [x])
    ensures newMax.Some? && IsMax(newMax.value, kept + [x])
  {
    var ts := x.event.ts;
    var all := kept + [x];
    assert all[|kept|] == x;
    assert forall k :: 0 <= k < |kept| ==> all[k] == kept[k];
    newMin := if minTs.None? || ts < minTs.value then Some(ts) else minTs;
    newMax := if maxTs.None? || ts > maxTs.value then Some(ts) else maxTs;
    if minTs.Some? && ts >= minTs.value {
      var w :| 0 <= w < |kept| && kept[w].event.ts == minTs.value;
      assert all[w].event.ts == minTs.value;
    }
    if maxTs.Some? && ts <= maxTs.value {
      var w :| 0 <= w < |kept| && kept[w].event.ts == maxTs.value;
      assert all[w].event.ts == maxTs.value;
    }
  }

  /** `normalized.filter((item) => item.inWindow)`, as scans. */
  function InWindowEvents(kept: seq<Kept>): (r: seq<Event>)
    ensures |r| <= |kept|
  {
    if kept == [] then []
    else InWindowEvents(kept[..|kept| - 1]) + (if kept[|kept| - 1].inWindow then [kept[|kept| - 1].event] else [])
  }

  lemma {:induction false} InWindowEventsInside(kept: seq<Kept>, start: int, packing: bool)
    requires forall k :: 0 <= k < |kept| ==> WellFormed(kept[k], start, packing)
    ensures forall e :: e in InWindowEvents(kept) ==> InWindow(e.ts, start) && e.operator != [] && (packing <==> e.category.Some?)
  {
    if kept != [] {
      InWindowEventsInside(kept[..|kept| - 1], start, packing);
    }
  }

  // ---- the validation ladder ----

  datatype Status = Pass | Warn | Reject

  /** The warnings of a report, each with the figure its message shows. */
  datatype Warning = ParseFailed(rows: nat) | CoverageLow(ratio: real) | SpanTooLong(spanMs: int) | FewRecords(count: nat)

  datatype Error = NoRecords | CoverageTooLow(ratio: real)

  /** `coverageRatio`: the share of all rows whose scan lies in the window; 0 for an empty file. */
  function Coverage(totalCount: nat, inWindowCount: nat): real
  {
    if totalCount == 0 then 0.0 else inWindowCount as real / totalCount as real
  }

  /** The coverage thresholds as integer comparisons. */
  lemma {:induction false} CoverageThresholds(totalCount: nat, inWindowCount: nat)
    requires totalCount > 0
    ensures Coverage(totalCount, inWindowCount) < 0.7 <==> 10 * inWindowCount < 7 * totalCount
    ensures Coverage(totalCount, inWindowCount) < 0.9 <==> 10 * inWindowCount < 9 * totalCount
    ensures inWindowCount <= totalCount ==> 0.0 <= Coverage(totalCount, inWindowCount) <= 1.0
  {
    var t := totalCount as real;
    var w := inWindowCount as real;
    DivBelow(w, t, 0.7);
    DivBelow(w, t, 0.9);
    if inWindowCount <= totalCount {
      DivBelow(w, t, 1.0);
    }
  }

  lemma {:induction false} DivBelow(a: real, t: real, b: real)
    requires t > 0.0 && a >= 0.0
    ensures a / t < b <==> a < b * t
    ensures 0.0 <= a / t
    ensures a / t <= b <==> a <= b * t
  {
    var q := a / t;
    assert q * t == a;
    if q < b {
      assert q * t < b * t;
    } else {
      assert q * t >= b * t;
    }
    if q <= b {
      assert q * t <= b * t;
    } else {
      assert q * t > b * t;
    }
  }

  /** 24 hours and 10 minutes: a longer span of scans hints at a wrong date. */
  const SpanLimit: int := 24 * 3600000 + 10 * 60000

  /** Fewer rows than this make a report suspicious. */
  const FewRows: nat := 100

  predicate Rejected(totalCount: nat, inWindowCount: nat)
  {
    totalCount == 0 || Coverage(totalCount, inWindowCount) < 0.7
  }

  predicate Suspicious(totalCount: nat, inWindowCount: nat, spanMs: int)
  {
    Coverage(totalCount, inWindowCount) < 0.9 || spanMs > SpanLimit || totalCount < FewRows
  }

  /**
   * The status ladder: an empty file or a coverage under 70% rejects, a
   * coverage under 90% warns; a span over 24h10m or fewer than 100 rows only
   * turn a pass into a warning. Parse failures add a warning and nothing else.
   */
  method Validate(totalCount: nat, inWindowCount: nat, parseFail: nat, spanMs: int)
    returns (status: Status, warnings: seq<Warning>, errors: seq<Error>)
    ensures status == Reject <==> Rejected(totalCount, inWindowCount)
    ensures status == Warn <==> !Rejected(totalCount, inWindowCount) && Suspicious(totalCount, inWindowCount, spanMs)
    ensures status == Pass <==> !Rejected(totalCount, inWindowCount) && !Suspicious(totalCount, inWindowCount, spanMs)
    ensures errors == [] <==> status != Reject
    ensures ParseFailed(parseFail) in warnings <==> parseFail > 0
    ensures CoverageLow(Coverage(totalCount, inWindowCount)) in warnings <==>
      totalCount > 0 && 0.7 <= Coverage(totalCount, inWindowCount) < 0.9
    ensures SpanTooLong(spanMs) in warnings <==> spanMs > SpanLimit
    ensures FewRecords(totalCount) in warnings <==> 0 < totalCount < FewRows
  {
    var coverageRatio := Coverage(totalCount, inWindowCount);
    status, warnings, errors := Pass, [], [];
    if parseFail > 0 {
      warnings := warnings + [ParseFailed(parseFail)];
    }
    if totalCount == 0 {
      status := Reject;
      errors := errors + [NoRecords];
    } else if coverageRatio < 0.7 {
      status := Reject;
      errors := errors + [CoverageTooLow(coverageRatio)];
    } else if coverageRatio < 0.9 {
      status := Warn;
      warnings := warnings + [CoverageLow(coverageRatio)];
    }
    if spanMs > SpanLimit {
      warnings := warnings + [SpanTooLong(spanMs)];
      if status == Pass {
        status := Warn;
      }
    }
    if totalCount > 0 && totalCount < FewRows {
      warnings := warnings + [FewRecords(totalCount)];
      if status == Pass {
        status := Warn;
      }
    }
  }
}
