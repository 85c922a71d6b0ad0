/**
 * The analytics of the equipment dashboard: the health score, the flow and pressure
 * averages shown after an upload, the per-type thermal profile, the name search, the
 * category colours, the pressure bar of each table row, and the two state changes
 * (a successful upload, restoring a history entry).
 */
module Dashboard {
  import opened Wrappers
  import opened Seqs
  import opened Ascii
  import opened Equipment
  import History

  // ---------------------------------------------------------------- health score

  /** Points taken off the health score for each critical unit. */
  const HealthPenalty: int := 5

  function Max(a: int, b: int): int { if a < b then b else a }

  /**
   * `calculateHealth`: 100 for absent or empty rows, otherwise 100 minus the penalty for
   * every critical unit, never below 0.
   */
  function CalculateHealth(rows: Option<seq<Row>>): (h: int)
    ensures 0 <= h <= 100
    ensures rows.None? || rows == Some([]) ==> h == 100
  {
    if rows.None? || |rows.value| == 0 then 100
    else Max(0, 100 - |Filter(rows.value, IsCritical)| * HealthPenalty)
  }

  /** The score is 100 minus 5 per row whose pressure exceeds 8.0, floored at 0. */
  lemma HealthFormula(rows: seq<Row>)
    ensures CalculateHealth(Some(rows)) == Max(0, 100 - HealthPenalty * CountWhere(rows, IsCritical))
  {
    FilterLength(rows, IsCritical);
  }

  /** A perfect score means exactly that no unit is critical. */
  lemma PerfectHealthIff(rows: seq<Row>)
    ensures CalculateHealth(Some(rows)) == 100 <==> forall i :: 0 <= i < |rows| ==> !IsCritical(rows[i])
  {
    HealthFormula(rows);
    CountWhereZero(rows, IsCritical);
  }

  /** One more row costs 5 points (down to 0) when it is critical and nothing otherwise. */
  lemma HealthOfOneMoreRow(rows: seq<Row>, r: Row)
    ensures CalculateHealth(Some(rows + [r])) ==
            if IsCritical(r) then Max(0, CalculateHealth(Some(rows)) - HealthPenalty)
            else CalculateHealth(Some(rows))
  {
    HealthFormula(rows);
    HealthFormula(rows + [r]);
    assert (rows + [r])[..|rows|] == rows;
  }

  /** Adding a row never raises the score. */
  lemma HealthNeverRises(rows: seq<Row>, r: Row)
    ensures CalculateHealth(Some(rows + [r])) <= CalculateHealth(Some(rows))
  {
    HealthOfOneMoreRow(rows, r);
  }

  // ---------------------------------------------------------------- averages

  /**
   * A displayed average. JavaScript's `0 / 0` on an empty upload is `NaN`, which the
   * dashboard shows as such; it is not guarded against.
   */
  datatype Mean = Value(v: real) | NaN

  /** `sum / count` in JavaScript: `NaN` for no values. */
  function Average(xs: seq<real>): (m: Mean)
    ensures m.NaN? <==> xs == []
  {
    if |xs| == 0 then NaN else Value(Sum(xs) / |xs| as real)
  }

  /** The average of values that all lie in [lo, hi] lies in [lo, hi] too. */
  lemma AverageBetween(xs: seq<real>, lo: real, hi: real)
    requires xs != []
    requires forall i :: 0 <= i < |xs| ==> lo <= xs[i] <= hi
    ensures Average(xs).Value? && lo <= Average(xs).v <= hi
  {
    MeanBetween(xs, lo, hi);
  }

  /** The flow rate each row contributes to the sum, in row order. */
  function FlowValues(rows: seq<Row>): (fs: seq<real>)
    ensures |fs| == |rows|
    ensures forall i :: 0 <= i < |rows| ==> fs[i] == FlowOf(rows[i])
  {
    seq(|rows|, i requires 0 <= i < |rows| => FlowOf(rows[i]))
  }

  /** The pressure each row contributes to the sum, in row order. */
  function PressureValues(rows: seq<Row>): (ps: seq<real>)
    ensures |ps| == |rows|
    ensures forall i :: 0 <= i < |rows| ==> ps[i] == PressureOf(rows[i])
  {
    seq(|rows|, i requires 0 <= i < |rows| => PressureOf(rows[i]))
  }

  /** Rows without a flow rate add nothing to the flow sum, but still count in the divisor. */
  lemma {:induction false} MissingFlowAddsNothing(rows: seq<Row>, r: Row)
    requires r.flowrate.None?
    ensures Sum(FlowValues(rows + [r])) == Sum(FlowValues(rows))
    ensures |FlowValues(rows + [r])| == |rows| + 1
  {
    assert FlowValues(rows + [r])[..|rows|] == FlowValues(rows);
  }

  /** A two-unit batch: averages 120 and 7, one critical unit. */
  lemma ExampleBatch()
    ensures var batch := [
              Row(Some("P-100"), Some("Pump"), Some(100.0), Some(30.0), Some(9.0)),
              Row(Some("C-200"), Some("Compressor"), Some(140.0), Some(40.0), Some(5.0))];
            && Average(FlowValues(batch)) == Value(120.0)
            && Average(PressureValues(batch)) == Value(7.0)
            && CalculateHealth(Some(batch)) == 95
  {
    var batch := [
      Row(Some("P-100"), Some("Pump"), Some(100.0), Some(30.0), Some(9.0)),
      Row(Some("C-200"), Some("Compressor"), Some(140.0), Some(40.0), Some(5.0))];
    assert FlowValues(batch) == [100.0, 140.0];
    assert [100.0, 140.0][..1] == [100.0];
    assert Sum([100.0]) == 100.0 by { assert [100.0][..0] == []; }
    assert PressureValues(batch) == [9.0, 5.0];
    assert [9.0, 5.0][..1] == [9.0];
    assert Sum([9.0]) == 9.0 by { assert [9.0][..0] == []; }
    assert Filter(batch, IsCritical) == [batch[0]];
  }

  // ---------------------------------------------------------------- thermal profile

  /** The temperatures of the rows grouped under `group`, in row order. */
  function GroupTemps(rows: seq<Row>, group: string): (g: seq<real>)
    ensures |g| <= |rows|
  {
    if rows == [] then []
    else GroupTemps(rows[..|rows| - 1], group)
         + (if TypeOf(rows[|rows| - 1]) == group then [TemperatureOf(rows[|rows| - 1])] else [])
  }

  /** The group labels in order of first occurrence (the key order of a JavaScript object). */
  function Labels(rows: seq<Row>): (ls: seq<string>)
    ensures |ls| <= |rows|
    ensures rows != [] ==> |ls| > 0
  {
    if rows == [] then []
    else
      var ls := Labels(rows[..|rows| - 1]);
      if TypeOf(rows[|rows| - 1]) in ls then ls else ls + [TypeOf(rows[|rows| - 1])]
  }

  /** No label is listed twice. */
  lemma {:induction false} LabelsDistinct(rows: seq<Row>)
    ensures forall i, j :: 0 <= i < j < |Labels(rows)| ==> Labels(rows)[i] != Labels(rows)[j]
  {
    if rows != [] {
      LabelsDistinct(rows[..|rows| - 1]);
    }
  }

  /** The labels are exactly the types present in the rows. */
  lemma {:induction false} LabelsAreTypes(rows: seq<Row>, x: string)
    ensures x in Labels(rows) <==> exists i :: 0 <= i < |rows| && TypeOf(rows[i]) == x
  {
    if rows != [] {
      var init := rows[..|rows| - 1];
      LabelsAreTypes(init, x);
      if x in Labels(init) {
        var i :| 0 <= i < |init| && TypeOf(init[i]) == x;
        assert TypeOf(rows[i]) == x;
      }
      if i :| 0 <= i < |rows| && TypeOf(rows[i]) == x {
        if i < |init| {
          assert TypeOf(init[i]) == x;
        }
      }
    }
  }

  /** A label is listed exactly when its group has at least one row. */
  lemma {:induction false} LabelsAreNonEmptyGroups(rows: seq<Row>, x: string)
    ensures x in Labels(rows) <==> |GroupTemps(rows, x)| > 0
  {
    if rows != [] {
      LabelsAreNonEmptyGroups(rows[..|rows| - 1], x);
    }
  }

  /** The rows of type `group`. */
  function OfType(group: string): Row -> bool
  {
    (row: Row) => TypeOf(row) == group
  }

  /** A group holds the defaulted temperature of each row of its type, one per row, in row order. */
  lemma {:induction false} GroupTempsAreRowsOfType(rows: seq<Row>, group: string)
    ensures |GroupTemps(rows, group)| == |Filter(rows, OfType(group))|
    ensures forall j :: 0 <= j < |GroupTemps(rows, group)| ==>
              GroupTemps(rows, group)[j] == TemperatureOf(Filter(rows, OfType(group))[j])
  {
    if rows != [] {
      var init, last := rows[..|rows| - 1], rows[|rows| - 1];
      assert rows == init + [last];
      GroupTempsAreRowsOfType(init, group);
      FilterSnoc(init, last, OfType(group));
    }
  }

  /** Bounds on the defaulted temperatures of a type's rows bound every value of its group. */
  lemma {:induction false} GroupTempsBounded(rows: seq<Row>, group: string, lo: real, hi: real)
    requires forall i :: 0 <= i < |rows| && TypeOf(rows[i]) == group ==> lo <= TemperatureOf(rows[i]) <= hi
    ensures forall j :: 0 <= j < |GroupTemps(rows, group)| ==> lo <= GroupTemps(rows, group)[j] <= hi
  {
    if rows != [] {
      var init := rows[..|rows| - 1];
      assert forall i :: 0 <= i < |init| ==> init[i] == rows[i];
      GroupTempsBounded(init, group, lo, hi);
    }
  }

  /** A group's average temperature lies between its lowest and highest temperature. */
  lemma GroupAverageBetween(rows: seq<Row>, group: string, lo: real, hi: real)
    requires group in Labels(rows)
    requires forall i :: 0 <= i < |rows| && TypeOf(rows[i]) == group ==> lo <= TemperatureOf(rows[i]) <= hi
    ensures |GroupTemps(rows, group)| > 0
    ensures lo <= Sum(GroupTemps(rows, group)) / |GroupTemps(rows, group)| as real <= hi
  {
    LabelsAreNonEmptyGroups(rows, group);
    GroupTempsBounded(rows, group, lo, hi);
    MeanBetween(GroupTemps(rows, group), lo, hi);
  }

  /** The rows of every type but `gone`. */
  function WithoutType(rows: seq<Row>, gone: string): (r: seq<Row>)
    ensures forall i :: 0 <= i < |r| ==> TypeOf(r[i]) != gone
    ensures forall x :: x in r <==> x in rows && TypeOf(x) != gone
  {
    var p := (row: Row) => TypeOf(row) != gone;
    var r := Filter(rows, p);
    assert forall x :: x in r <==> x in rows && TypeOf(x) != gone by {
      forall x ensures x in r <==> x in rows && TypeOf(x) != gone {
        FilterMembership(rows, p, x);
      }
    }
    r
  }

  /** Dropping every row of one type drops its label and keeps every other label. */
  lemma DroppingATypeDropsItsLabel(rows: seq<Row>, gone: string, x: string)
    ensures x in Labels(WithoutType(rows, gone)) <==> x in Labels(rows) && x != gone
  {
    var kept := WithoutType(rows, gone);
    LabelsAreTypes(kept, x);
    LabelsAreTypes(rows, x);
    if x in Labels(rows) && x != gone {
      var i :| 0 <= i < |rows| && TypeOf(rows[i]) == x;
      assert rows[i] in kept;
    }
    if x in Labels(kept) {
      var j :| 0 <= j < |kept| && TypeOf(kept[j]) == x;
      assert kept[j] in rows;
    }
  }

  /** The running sum of temperatures per type after reading `rows` in order. */
  ghost function TotalsOf(rows: seq<Row>): map<string, real>
  {
    if rows == [] then map[]
    else
      var t, kind := TotalsOf(rows[..|rows| - 1]), TypeOf(rows[|rows| - 1]);
      t[kind := (if kind in t then t[kind] else 0.0) + TemperatureOf(rows[|rows| - 1])]
  }

  /** The running count of rows per type after reading `rows` in order. */
  ghost function CountsOf(rows: seq<Row>): map<string, nat>
  {
    if rows == [] then map[]
    else
      var c, kind := CountsOf(rows[..|rows| - 1]), TypeOf(rows[|rows| - 1]);
      c[kind := (if kind in c then c[kind] else 0) + 1]
  }

  /** Reading row `i` updates the running sum and count of that row's type only. */
  lemma TotalsStep(rows: seq<Row>, i: nat)
    requires i < |rows|
    ensures var kind, t, c := TypeOf(rows[i]), TotalsOf(rows[..i]), CountsOf(rows[..i]);
            && TotalsOf(rows[..i + 1]) == t[kind := (if kind in t then t[kind] else 0.0) + TemperatureOf(rows[i])]
            && CountsOf(rows[..i + 1]) == c[kind := (if kind in c then c[kind] else 0) + 1]
            && Labels(rows[..i + 1]) == if kind in Labels(rows[..i]) then Labels(rows[..i]) else Labels(rows[..i]) + [kind]
  {
    assert rows[..i + 1][..i] == rows[..i];
    assert rows[..i + 1][i] == rows[i];
  }

  /** A running sum and count exist exactly for the types seen so far. */
  lemma {:induction false} TotalsKeys(rows: seq<Row>, k: string)
    ensures k in TotalsOf(rows) <==> k in Labels(rows)
    ensures k in CountsOf(rows) <==> k in Labels(rows)
  {
    if rows != [] {
      TotalsKeys(rows[..|rows| - 1], k);
    }
  }

  /** The running sums and counts are exactly the sums and sizes of the groups. */
  lemma {:induction false} TotalsAreGroupSums(rows: seq<Row>, k: string)
    requires k in Labels(rows)
    ensures k in TotalsOf(rows) && k in CountsOf(rows)
    ensures TotalsOf(rows)[k] == Sum(GroupTemps(rows, k))
    ensures CountsOf(rows)[k] == |GroupTemps(rows, k)| > 0
  {
    TotalsKeys(rows, k);
    var init, last := rows[..|rows| - 1], rows[|rows| - 1];
    LabelsAreNonEmptyGroups(rows, k);
    if k in Labels(init) {
      TotalsAreGroupSums(init, k);
    } else {
      LabelsAreNonEmptyGroups(init, k);
      TotalsKeys(init, k);
    }
    if TypeOf(last) == k {
      SumSnoc(GroupTemps(init, k), TemperatureOf(last));
    } else {
      assert GroupTemps(rows, k) == GroupTemps(init, k) + [];
      assert GroupTemps(rows, k) == GroupTemps(init, k);
    }
  }

  /** Bar chart input: one label per type and that type's average temperature. */
  datatype Thermal = Thermal(labels: seq<string>, averages: seq<real>)

  /**
   * The `forEach` of `thermalAggregate`: one pass that adds each row's temperature to
   * its type's total and 1 to its type's count, recording each new type as a key.
   */
  method AccumulateByType(rows: seq<Row>) returns (keys: seq<string>, totals: map<string, real>, counts: map<string, nat>)
    ensures keys == Labels(rows)
    ensures totals == TotalsOf(rows) && counts == CountsOf(rows)
  {
    totals, counts, keys := map[], map[], [];
    var i := 0;
    while i < |rows|
      invariant 0 <= i <= |rows|
      invariant keys == Labels(rows[..i])
      invariant totals == TotalsOf(rows[..i]) && counts == CountsOf(rows[..i])
    {
      var kind := TypeOf(rows[i]);
      var temp := TemperatureOf(rows[i]);
      TotalsStep(rows, i);
      TotalsKeys(rows[..i], kind);
      if kind !in totals {
        keys := keys + [kind];  // a JavaScript object lists its keys in insertion order
      }
      totals := totals[kind := (if kind in totals then totals[kind] else 0.0) + temp];
      counts := counts[kind := (if kind in counts then counts[kind] else 0) + 1];
      i := i + 1;
    }
    assert rows[..|rows|] == rows;
  }

  /**
   * `thermalAggregate`: no data gives no labels; otherwise one label per type in
   * first-occurrence order, and each type's total divided by its count.
   */
  method ThermalAggregate(data: Option<seq<Row>>) returns (t: Thermal)
    ensures data.None? ==> t == Thermal([], [])
    ensures data.Some? ==> t.labels == Labels(data.value)
    ensures |t.averages| == |t.labels|
    ensures data.Some? ==> forall i :: 0 <= i < |t.labels| ==>
              |GroupTemps(data.value, t.labels[i])| > 0 &&
              t.averages[i] == Sum(GroupTemps(data.value, t.labels[i])) / |GroupTemps(data.value, t.labels[i])| as real
  {
    if data.None? {
      return Thermal([], []);
    }
    var rows := data.value;
    var keys, totals, counts := AccumulateByType(rows);
    forall k | k in keys
      ensures k in totals && k in counts && counts[k] > 0
      ensures totals[k] == Sum(GroupTemps(rows, k)) && counts[k] == |GroupTemps(rows, k)|
    {
      TotalsAreGroupSums(rows, k);
    }
    var averages := seq(|keys|, j requires 0 <= j < |keys| => totals[keys[j]] / counts[keys[j]] as real);
    t := Thermal(keys, averages);
  }

  // ---------------------------------------------------------------- search

  /** The row's name, lower-cased, contains the lower-cased search term. */
  predicate NameMatches(term: string, r: Row)
  {
    ContainsIgnoreCase(NameOf(r), term)
  }

  /** `filteredEquipment`: the rows whose name contains the search term, ignoring case. */
  function FilteredEquipment(data: Option<seq<Row>>, term: string): (r: seq<Row>)
    ensures data.None? ==> r == []
    ensures forall i :: 0 <= i < |r| ==> NameMatches(term, r[i])
  {
    if data.None? then [] else Filter(data.value, row => NameMatches(term, row))
  }

  /**
   * The search keeps rows in order, keeps every occurrence of a matching row and
   * drops every other row.
   */
  lemma FilteredEquipmentSelects(rows: seq<Row>, term: string)
    ensures IsSubsequence(FilteredEquipment(Some(rows), term), rows)
    ensures forall x :: multiset(FilteredEquipment(Some(rows), term))[x] ==
                        if NameMatches(term, x) then multiset(rows)[x] else 0
  {
    FilterIsSubsequence(rows, row => NameMatches(term, row));
    forall x ensures multiset(FilteredEquipment(Some(rows), term))[x] ==
                     if NameMatches(term, x) then multiset(rows)[x] else 0
    {
      FilterCounts(rows, row => NameMatches(term, row), x);
    }
  }

  /** An empty search term shows every row. */
  lemma EmptySearchShowsAll(rows: seq<Row>)
    ensures FilteredEquipment(Some(rows), "") == rows
  {
    forall i | 0 <= i < |rows| ensures NameMatches("", rows[i]) {
      EmptyMatchesAll(NameOf(rows[i]));
    }
    FilterKeepsAll(rows, row => NameMatches("", row));
  }

  // ---------------------------------------------------------------- colours

  /** `EQUIPMENT_COLORS`: a colour per known category, plus the fallback `Default`. */
  const EquipmentColors: map<string, string> := map[
    "Pump" := "#22C1EE",
    "Compressor" := "#FFCE56",
    "Reactor" := "#00FFB2",
    "HeatExchanger" := "#9D50BB",
    "Valve" := "#FF4D8D",
    "Condenser" := "#4E79F3",
    "Default" := DefaultColor]

  /** The fallback grey. */
  const DefaultColor: string := "#6B7280"

  /** `EQUIPMENT_COLORS[t] || EQUIPMENT_COLORS.Default`, as used by both charts. */
  function ColorFor(category: string): (c: string)
    ensures c in EquipmentColors.Values
    ensures category in EquipmentColors ==> c == EquipmentColors[category]
    ensures category !in EquipmentColors ==> c == DefaultColor
  {
    if category in EquipmentColors then EquipmentColors[category] else assert EquipmentColors["Default"] == DefaultColor; DefaultColor
  }

  /** The fallback colour is given to exactly the labels that are not a known category. */
  lemma DefaultColorIff(category: string)
    ensures ColorFor(category) == DefaultColor <==> category !in EquipmentColors || category == "Default"
  {
  }

  /** The chart colours: one per label, in the same order. */
  function ChartColors(labels: seq<string>): (cs: seq<string>)
    ensures |cs| == |labels|
    ensures forall i :: 0 <= i < |labels| ==> cs[i] == ColorFor(labels[i])
  {
    seq(|labels|, i requires 0 <= i < |labels| => ColorFor(labels[i]))
  }

  /** The type tag of a table row is coloured by a direct lookup, with no fallback. */
  function TagColor(r: Row): (c: Option<string>)
    ensures c.Some? <==> r.kind.Some? && r.kind.value in EquipmentColors
    ensures c.Some? ==> c.value == ColorFor(r.kind.value)
  {
    if r.kind.Some? && r.kind.value in EquipmentColors then Some(EquipmentColors[r.kind.value]) else None
  }

  // ---------------------------------------------------------------- pressure bar

  const AlertColor: string := "#FF4D8D"
  const NormalColor: string := "#00FFB2"

  /** The fill of a row's pressure bar: its width in percent and its colour. */
  datatype Bar = Bar(widthPercent: real, color: string)

  /**
   * Width `min(100, p / 10 * 100)` percent; red above 8 bar. The bar is red exactly
   * for the rows the health score penalises.
   */
  function PressureBar(r: Row): (b: Bar)
    ensures b.widthPercent <= 100.0
    ensures b.widthPercent == 100.0 <==> PressureOf(r) >= 10.0
    ensures PressureOf(r) <= 10.0 ==> b.widthPercent == 10.0 * PressureOf(r)
    ensures b.color == AlertColor <==> IsCritical(r)
    ensures b.color == NormalColor <==> !IsCritical(r)
  {
    var p := PressureOf(r);
    var w := p / 10.0 * 100.0;
    Bar(if w < 100.0 then w else 100.0, if p > 8.0 then AlertColor else NormalColor)
  }

  // ---------------------------------------------------------------- dashboard state

  /** What `currentData` holds: the rows and the per-type counts, either possibly absent. */
  datatype Snapshot = Snapshot(data: Option<seq<Row>>, typeDistribution: Option<map<string, int>>)

  /** The three summary boxes. */
  datatype Stats = Stats(avgFlow: Mean, avgPres: Mean, healthScore: int)

  /** `currentData?.data`. */
  function RowsOf(current: Option<Snapshot>): Option<seq<Row>>
  {
    if current.None? then None else current.value.data
  }

  /** The dashboard's state, replaced field by field by its event handlers. */
  class DashboardState {
    var file: Option<string>
    var currentData: Option<Snapshot>
    var searchTerm: string
    var stats: Stats

    /** The health shown always belongs to the rows shown. */
    ghost predicate Valid()
      reads this
    {
      stats.healthScore == CalculateHealth(RowsOf(currentData))
    }

    constructor ()
      ensures Valid()
      ensures file == None && currentData == None && searchTerm == ""
      ensures stats == Stats(Value(0.0), Value(0.0), 100)
    {
      file := None;
      currentData := None;
      searchTerm := "";
      stats := Stats(Value(0.0), Value(0.0), 100);
    }

    /** The file input's change handler. */
    method ChooseFile(chosen: Option<string>)
      requires Valid()
      modifies this
      ensures Valid()
      ensures file == chosen
      ensures currentData == old(currentData) && searchTerm == old(searchTerm) && stats == old(stats)
    {
      file := chosen;
    }

    /** The search box's change handler. */
    method SetSearchTerm(term: string)
      requires Valid()
      modifies this
      ensures Valid()
      ensures searchTerm == term
      ensures file == old(file) && currentData == old(currentData) && stats == old(stats)
    {
      searchTerm := term;
    }

    /**
     * `handleUpload`, given the server's reply (`None` when the request failed). Nothing
     * changes without a file, on a failed request, or when the reply has no rows (the
     * `reduce` throws); otherwise the averages and health of the uploaded rows are shown
     * with those rows.
     */
    method HandleUpload(reply: Option<Snapshot>)
      requires Valid()
      modifies this
      ensures Valid()
      ensures file == old(file) && searchTerm == old(searchTerm)
      ensures old(file).None? || reply.None? || reply.value.data.None? ==>
                currentData == old(currentData) && stats == old(stats)
      ensures old(file).Some? && reply.Some? && reply.value.data.Some? ==>
                currentData == reply &&
                stats == Stats(Average(FlowValues(reply.value.data.value)),
                               Average(PressureValues(reply.value.data.value)),
                               CalculateHealth(reply.value.data))
    {
      if file.None? || reply.None? || reply.value.data.None? {
        return;
      }
      var rows := reply.value.data.value;
      var fSum := Sum(FlowValues(rows));
      var pSum := Sum(PressureValues(rows));
      stats := Stats(
        if |rows| == 0 then NaN else Value(fSum / |rows| as real),
        if |rows| == 0 then NaN else Value(pSum / |rows| as real),
        CalculateHealth(Some(rows)));
      currentData := reply;
    }

    /** "View Data" on a history entry: show its rows and stored averages, recompute health. */
    method RestoreHistoryItem(h: History.Dataset)
      modifies this
      ensures Valid()
      ensures file == old(file) && searchTerm == old(searchTerm)
      ensures currentData == Some(Snapshot(Some(h.dataJson), Some(h.typeDistribution)))
      ensures stats == Stats(Value(h.avgFlowrate), Value(h.avgPressure), CalculateHealth(Some(h.dataJson)))
    {
      currentData := Some(Snapshot(Some(h.dataJson), Some(h.typeDistribution)));
      stats := Stats(Value(h.avgFlowrate), Value(h.avgPressure), CalculateHealth(Some(h.dataJson)));
    }

    /** The table rows currently listed. */
    function Listed(): (rows: seq<Row>)
      reads this
      ensures forall i :: 0 <= i < |rows| ==> NameMatches(searchTerm, rows[i])
    {
      FilteredEquipment(RowsOf(currentData), searchTerm)
    }
  }
}
