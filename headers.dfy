/**
 * Spreadsheet header lookup: `findColumn` picks the column of a field from a
 * list of header aliases, and `detectFileKind` guesses which export a sheet
 * is from the marker labels in its header row. Header cells are taken as
 * strings; an empty cell is the empty string.
 */
module Headers {
  import opened Text

  /** The header row as `findColumn` compares it: every cell trimmed. */
  function Normalized(headers: seq<string>): (r: seq<string>)
    ensures |r| == |headers|
    ensures forall k :: 0 <= k < |r| ==> r[k] == Trim(headers[k])
  {
    seq(|headers|, k requires 0 <= k < |headers| => Trim(headers[k]))
  }

  /** The exact pass compares for equality, the fallback pass looks for the alias inside the cell. */
  predicate Hit(cell: string, alias: string, exact: bool)
  {
    if exact then cell == alias else Includes(cell, alias)
  }

  /** `findIndex` for one alias: the first cell it hits, or -1. */
  function FirstHit(cells: seq<string>, alias: string, exact: bool): (i: int)
    ensures -1 <= i < |cells|
    ensures i >= 0 ==> Hit(cells[i], alias, exact)
    ensures forall k :: 0 <= k < |cells| && (i < 0 || k < i) ==> !Hit(cells[k], alias, exact)
  {
    if cells == [] then -1
    else if Hit(cells[0], alias, exact) then 0
    else
      var j := FirstHit(cells[1..], alias, exact);
      if j < 0 then -1 else j + 1
  }

  /** The first alias, from index `from` on, that hits some cell; `|aliases|` when none does. */
  function FirstAlias(cells: seq<string>, aliases: seq<string>, exact: bool, from: nat): (j: nat)
    requires from <= |aliases|
    ensures from <= j <= |aliases|
    ensures forall j' :: from <= j' < j ==> FirstHit(cells, aliases[j'], exact) < 0
    ensures j < |aliases| ==> FirstHit(cells, aliases[j], exact) >= 0
    decreases |aliases| - from
  {
    if from == |aliases| then from
    else if FirstHit(cells, aliases[from], exact) >= 0 then from
    else FirstAlias(cells, aliases, exact, from + 1)
  }

  /** One pass of `findColumn`: the aliases in order, returning the first cell the first hitting alias hits. */
  function Pass(cells: seq<string>, aliases: seq<string>, exact: bool): (r: int)
    ensures -1 <= r < |cells|
    ensures r < 0 <==> forall j, k :: 0 <= j < |aliases| && 0 <= k < |cells| ==> !Hit(cells[k], aliases[j], exact)
    ensures r >= 0 ==> exists j :: 0 <= j < |aliases| && Hit(cells[r], aliases[j], exact)
  {
    var j := FirstAlias(cells, aliases, exact, 0);
    if j < |aliases| then FirstHit(cells, aliases[j], exact) else -1
  }

  /** `findColumn`: the exact pass over all aliases, then the substring pass, then -1. */
  function FindColumn(headers: seq<string>, aliases: seq<string>): (r: int)
    ensures -1 <= r < |headers|
    ensures r >= 0 ==> exists j :: 0 <= j < |aliases| && Includes(Trim(headers[r]), aliases[j])
    ensures r < 0 <==> forall j, k :: 0 <= j < |aliases| && 0 <= k < |headers| ==> !Includes(Trim(headers[k]), aliases[j])
  {
    var cells := Normalized(headers);
    var exact := Pass(cells, aliases, true);
    ExactIsIncluded(cells, aliases);
    if exact >= 0 then exact else Pass(cells, aliases, false)
  }

  lemma {:induction false} ExactIsIncluded(cells: seq<string>, aliases: seq<string>)
    ensures Pass(cells, aliases, true) >= 0 ==>
      var r := Pass(cells, aliases, true);
      exists j :: 0 <= j < |aliases| && Includes(cells[r], aliases[j])
    ensures Pass(cells, aliases, true) >= 0 ==> Pass(cells, aliases, false) >= 0
  {
    var r := Pass(cells, aliases, true);
    if r >= 0 {
      var j :| 0 <= j < |aliases| && Hit(cells[r], aliases[j], true);
      SelfIncluded(cells[r]);
      assert Hit(cells[r], aliases[j], false);
    }
  }

  lemma {:induction false} SelfIncluded(s: string)
    ensures Includes(s, s)
  {
    assert StartsWith(s, s) by { assert s[..|s|] == s; }
  }

  /**
   * Exact matches win: when some alias equals a trimmed header, the column is
   * the first header equal to the earliest such alias, whatever substring
   * matches an earlier alias has.
   */
  lemma {:induction false} ExactWins(headers: seq<string>, aliases: seq<string>, j: nat)
    requires j < |aliases|
    requires exists k :: 0 <= k < |headers| && Trim(headers[k]) == aliases[j]
    requires forall j', k :: 0 <= j' < j && 0 <= k < |headers| ==> Trim(headers[k]) != aliases[j']
    ensures var r := FindColumn(headers, aliases);
      && 0 <= r < |headers| && Trim(headers[r]) == aliases[j]
      && forall k :: 0 <= k < r ==> Trim(headers[k]) != aliases[j]
  {
    var cells := Normalized(headers);
    var k :| 0 <= k < |headers| && Trim(headers[k]) == aliases[j];
    assert cells[k] == aliases[j];
    forall j', k' | 0 <= j' < j && 0 <= k' < |cells|
      ensures cells[k'] != aliases[j']
    {
      assert cells[k'] == Trim(headers[k']);
    }
    ExactPass(cells, aliases, j);
    var r := Pass(cells, aliases, true);
    assert FindColumn(headers, aliases) == r;
    assert forall k' :: 0 <= k' < r ==> cells[k'] != aliases[j];
  }

  /** `ExactWins` on the trimmed cells. */
  lemma {:induction false} ExactPass(cells: seq<string>, aliases: seq<string>, j: nat)
    requires j < |aliases|
    requires exists k :: 0 <= k < |cells| && cells[k] == aliases[j]
    requires forall j', k :: 0 <= j' < j && 0 <= k < |cells| ==> cells[k] != aliases[j']
    ensures var r := Pass(cells, aliases, true);
      && 0 <= r < |cells| && cells[r] == aliases[j]
      && forall k :: 0 <= k < r ==> cells[k] != aliases[j]
  {
    var k :| 0 <= k < |cells| && cells[k] == aliases[j];
    assert Hit(cells[k], aliases[j], true);
    forall j' | 0 <= j' < j
      ensures FirstHit(cells, aliases[j'], true) < 0
    {
      assert forall k' :: 0 <= k' < |cells| ==> !Hit(cells[k'], aliases[j'], true);
    }
    FirstAliasIs(cells, aliases, true, j);
  }

  /** The alias search stops at the first alias that hits. */
  lemma {:induction false} FirstAliasIs(cells: seq<string>, aliases: seq<string>, exact: bool, j: nat)
    requires j < |aliases|
    requires FirstHit(cells, aliases[j], exact) >= 0
    requires forall j' :: 0 <= j' < j ==> FirstHit(cells, aliases[j'], exact) < 0
    ensures FirstAlias(cells, aliases, exact, 0) == j
  {
  }

  /** Without any exact match the substring pass decides, alias by alias. */
  lemma {:induction false} FallbackWhenNoExact(headers: seq<string>, aliases: seq<string>)
    requires forall j, k :: 0 <= j < |aliases| && 0 <= k < |headers| ==> Trim(headers[k]) != aliases[j]
    ensures FindColumn(headers, aliases) == Pass(Normalized(headers), aliases, false)
  {
    var cells := Normalized(headers);
    assert forall j, k :: 0 <= j < |aliases| && 0 <= k < |cells| ==> !Hit(cells[k], aliases[j], true);
  }

  // ---- detectFileKind ----

  datatype FileKind = Picking | Sorting | Packing | Attendance | Mixed | Unknown

  /** Some label equals or occurs in some trimmed header. */
  predicate Has(cells: seq<string>, labels: seq<string>)
  {
    exists i, k :: 0 <= i < |labels| && 0 <= k < |cells| && (cells[k] == labels[i] || Includes(cells[k], labels[i]))
  }

  const PickingCore: seq<string> := ["拣货员", "拣货时间"]
  const PickingUnits: seq<string> := ["拣货数量", "件数", "数量"]
  const SortingTime: seq<string> := ["分拨时间", "操作时间", "扫描时间"]
  const SortingPerson: seq<string> := ["分拨员", "分拣员", "操作人", "操作员"]
  const SortingUnits: seq<string> := ["二分数", "分拨数", "件数", "数量"]
  const PackingMarkers: seq<string> := ["扫描件数", "商品数量分类名称"]
  const AttendanceMarkers: seq<string> := ["考勤日期", "最终核算时长", "班次类型", "班次分类", "班次", "班别"]

  /** The four marker tests of `detectFileKind`. */
  datatype Markers = Markers(picking: bool, sorting: bool, packing: bool, attendance: bool)

  function MarkersOf(headers: seq<string>): Markers
  {
    var cells := Normalized(headers);
    Markers(
      Has(cells, PickingCore) && Has(cells, PickingUnits),
      Has(cells, SortingTime) && Has(cells, SortingPerson) && Has(cells, SortingUnits),
      Has(cells, PackingMarkers) && Has(cells, ["操作人"]) && Has(cells, ["操作时间"]),
      Has(cells, AttendanceMarkers))
  }

  function Count(b: bool): nat { if b then 1 else 0 }

  /** How many of the four marker tests hold, and how many of the three stage tests. */
  function Flags(m: Markers): nat { Count(m.picking) + Count(m.sorting) + Count(m.packing) + Count(m.attendance) }
  function StageFlags(m: Markers): nat { Count(m.picking) + Count(m.sorting) + Count(m.packing) }

  /** The decision ladder of `detectFileKind` on the four marker tests. */
  function Classify(m: Markers): (k: FileKind)
    ensures k in {Picking, Sorting, Packing, Attendance} <==> Flags(m) == 1
    ensures k == Picking ==> m.picking
    ensures k == Sorting ==> m.sorting
    ensures k == Packing ==> m.packing
    ensures k == Attendance ==> m.attendance
    ensures k == Mixed <==> StageFlags(m) >= 2
    ensures k == Unknown <==> Flags(m) == 0 || (m.attendance && StageFlags(m) == 1)
  {
    if m.picking && !m.sorting && !m.attendance && !m.packing then Picking
    else if !m.picking && m.sorting && !m.attendance && !m.packing then Sorting
    else if !m.picking && !m.sorting && !m.attendance && m.packing then Packing
    else if m.attendance && !m.picking && !m.sorting && !m.packing then Attendance
    else if (m.picking && m.sorting) || (m.picking && m.packing) || (m.sorting && m.packing) then Mixed
    else Unknown
  }

  /** `detectFileKind` */
  function DetectFileKind(headers: seq<string>): (k: FileKind)
    ensures k in {Picking, Sorting, Packing, Attendance} <==> Flags(MarkersOf(headers)) == 1
    ensures k == Mixed <==> StageFlags(MarkersOf(headers)) >= 2
  {
    Classify(MarkersOf(headers))
  }
}
