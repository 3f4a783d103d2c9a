/** One tab callback (`update_dashboard_status_vaga` and
    `update_dashboard_status_interno`, parameterised by the status column):
    filter, empty-state guard, KPIs and chart data. */
module Dashboard {
  import opened Wrappers
  import opened Records
  import opened Filters
  import opened Sorting
  import opened Histograms
  import opened Kpis
  import opened TopList

  /** The data behind the three figures. */
  datatype Charts = Charts(
    statusBars: seq<Bar>,      // horizontal bars per status, ascending count
    motiveSlices: seq<Bar>,    // donut slices per closure reason
    topBars: seq<TopBar>)      // top-15 longest open, ascending days

  /** The seven outputs: four KPI cards and the figures (None is the
      "Sem dados para os filtros selecionados" placeholder in all three). */
  datatype View = View(
    total: nat,
    meanDaysOpen: Metric,
    breaches: nat,
    breachRate: Metric,
    charts: Option<Charts>)

  /** Total 0, mean N/A, breaches 0, rate N/A, empty figures. */
  const EmptyView := View(0, NotAvailable, 0, NotAvailable, None)

  /** The three figures of a filtered table. */
  function ChartsOf(dff: seq<Record>, col: StatusColumn): Charts
  {
    Charts(AscendingChart(PresentValues(StatusCells(dff, col))),
           ValueCounts(PresentValues(MotiveCells(dff))),
           TopBars(dff, col))
  }

  /** The populated view of a non-empty filtered table. */
  function DataView(dff: seq<Record>, col: StatusColumn): (v: View)
    requires dff != []
    ensures v != EmptyView && v.charts.Some?
  {
    var total := |dff|;
    var breaches := CountBreaches(dff);
    View(total, MeanDaysOpen(dff), breaches, BreachRate(breaches, total), Some(ChartsOf(dff, col)))
  }

  function UpdateDashboard(table: seq<Record>, f: FilterSet, col: StatusColumn): (v: View)
    ensures v == EmptyView <==> ApplyFilters(table, f, col) == [] || !Constrains(f.status)
  {
    var dff := ApplyFilters(table, f, col);
    if dff == [] || !Constrains(f.status) then EmptyView else DataView(dff, col)
  }

  /** On the non-empty path the cards show the number of filtered rows, the
      number of them flagged "Fora do SLA" (never more), and a breach rate
      that is a percentage consistent with the two. */
  lemma KpisOnData(table: seq<Record>, f: FilterSet, col: StatusColumn)
    requires Constrains(f.status) && ApplyFilters(table, f, col) != []
    ensures var v := UpdateDashboard(table, f, col);
            var dff := ApplyFilters(table, f, col);
            v.total == |dff| > 0 &&
            v.breaches <= v.total &&
            (v.breaches == 0 <==> forall r :: r in dff ==> r.sla != Some(BreachMarker)) &&
            v.breachRate.Exact? && 0.0 <= v.breachRate.value <= 100.0 &&
            v.breachRate == BreachRate(v.breaches, v.total) &&
            (v.meanDaysOpen.NotANumber? <==> forall r :: r in dff ==> r.daysOpen.None?)
  {
    var dff := ApplyFilters(table, f, col);
    assert UpdateDashboard(table, f, col) == DataView(dff, col);
    DataViewKpis(dff, col);
  }

  lemma DataViewKpis(dff: seq<Record>, col: StatusColumn)
    requires dff != []
    ensures var v := DataView(dff, col);
            v.total == |dff| > 0 &&
            v.breaches <= v.total &&
            (v.breaches == 0 <==> forall r :: r in dff ==> r.sla != Some(BreachMarker)) &&
            v.breachRate.Exact? && 0.0 <= v.breachRate.value <= 100.0 &&
            v.breachRate == BreachRate(v.breaches, v.total) &&
            (v.meanDaysOpen.NotANumber? <==> forall r :: r in dff ==> r.daysOpen.None?)
  {
    var v := DataView(dff, col);
    assert v.total == |dff| && v.breaches == CountBreaches(dff);
    assert v.breachRate == BreachRate(v.breaches, v.total);
    assert v.meanDaysOpen == MeanDaysOpen(dff);
    BreachCountBounds(dff);
    BreachRateBounds(v.breaches, v.total);
  }

  /** The mean days open lies within the range of the filtered rows' values. */
  lemma MeanOnData(table: seq<Record>, f: FilterSet, col: StatusColumn, lo: real, hi: real)
    requires Constrains(f.status) && ApplyFilters(table, f, col) != []
    requires forall r :: r in table && r.daysOpen.Some? ==> lo <= r.daysOpen.value <= hi
    ensures var v := UpdateDashboard(table, f, col);
            v.meanDaysOpen.Exact? ==> lo <= v.meanDaysOpen.value <= hi
  {
    var dff := ApplyFilters(table, f, col);
    assert UpdateDashboard(table, f, col) == DataView(dff, col);
    forall r | r in dff ensures r in table {
      FilterMembership(table, f, col, r);
    }
    MeanWithinBounds(dff, lo, hi);
  }

  /** Each status bar is a status present in the filtered rows, with the
      number of rows carrying it; every present status has its bar; bars are
      distinct, count all rows with a status, and ascend by count. Each motive
      slice likewise counts the rows with that closure reason. */
  lemma HistogramsOnData(table: seq<Record>, f: FilterSet, col: StatusColumn)
    requires Constrains(f.status) && ApplyFilters(table, f, col) != []
    ensures var c := UpdateDashboard(table, f, col).charts;
            var dff := ApplyFilters(table, f, col);
            c.Some? &&
            IsHistogramOf(c.value.statusBars, PresentValues(StatusCells(dff, col))) &&
            SortedBy(c.value.statusBars, CountAtMost()) &&
            (forall b :: b in c.value.statusBars ==>
               b.count == multiset(StatusCells(dff, col))[Some(b.key)] > 0) &&
            (forall r :: r in dff && StatusOf(r, col).Some? ==> StatusOf(r, col).value in KeysOf(c.value.statusBars)) &&
            IsHistogramOf(c.value.motiveSlices, PresentValues(MotiveCells(dff))) &&
            (forall b :: b in c.value.motiveSlices ==>
               b.count == multiset(MotiveCells(dff))[Some(b.key)] > 0)
  {
    var dff := ApplyFilters(table, f, col);
    assert UpdateDashboard(table, f, col) == DataView(dff, col);
    var statuses := PresentValues(StatusCells(dff, col));
    AscendingChartCorrect(statuses);
    ValueCountsCorrect(PresentValues(MotiveCells(dff)));
    forall r | r in dff && StatusOf(r, col).Some?
      ensures StatusOf(r, col).value in statuses
    {
      var i :| 0 <= i < |dff| && dff[i] == r;
      assert StatusCells(dff, col)[i] == StatusOf(r, col);
    }
  }

  /** The top chart: at most 15 bars, each the label and days of an open
      (not filled) filtered row, ascending by days open; no open row left out
      has more days open than a row shown. */
  lemma TopOnData(table: seq<Record>, f: FilterSet, col: StatusColumn)
    requires Constrains(f.status) && ApplyFilters(table, f, col) != []
    ensures var c := UpdateDashboard(table, f, col).charts;
            var dff := ApplyFilters(table, f, col);
            c.Some? &&
            |c.value.topBars| <= TopN &&
            |c.value.topBars| == |TopOpen(dff)| &&
            multiset(c.value.topBars) == multiset(Labelled(TopOpen(dff), col)) &&
            SortedBy(c.value.topBars, ShortestFirst()) &&
            (forall r :: r in TopOpen(dff) ==> r in dff && r.vagaStatus != Some(FilledStatus)) &&
            (forall x, y :: x in multiset(OpenRows(dff)) - multiset(TopOpen(dff)) && y in TopOpen(dff) ==>
               AtLeastAsLong(y.daysOpen, x.daysOpen))
  {
    var dff := ApplyFilters(table, f, col);
    assert UpdateDashboard(table, f, col) == DataView(dff, col);
    TopOpenCorrect(dff);
    TopBarsCorrect(dff, col);
  }
}
