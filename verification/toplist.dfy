/** The "Top 15 vagas com mais tempo em aberto" chart: the open
    requisitions with the most days open, and their axis labels. */
module TopList {
  import opened Wrappers
  import opened Records
  import opened Filters
  import opened Sorting

  const TopN := 15

  /** `dff['Status da Vaga'] != 'Finalizado - Vaga Preenchida'`; a missing
      status compares unequal, so such a row counts as open. */
  predicate IsOpen(r: Record)
  {
    r.vagaStatus != Some(FilledStatus)
  }

  function OpenMask(): Record -> bool
  {
    (r: Record) => IsOpen(r)
  }

  function OpenRows(rows: seq<Record>): seq<Record>
  {
    Where(rows, OpenMask())
  }

  /** Order of `sort_values('Dias em Aberto', ascending=False)`: a goes no
      later than b; NaN goes last. */
  predicate AtLeastAsLong(a: Option<real>, b: Option<real>)
  {
    b.None? || (a.Some? && a.value >= b.value)
  }

  /** Order of `sort_values('Dias em Aberto', ascending=True)`; NaN goes last. */
  predicate AtMostAsLong(a: Option<real>, b: Option<real>)
  {
    b.None? || (a.Some? && a.value <= b.value)
  }

  function LongestFirst(): (Record, Record) -> bool
  {
    (a: Record, b: Record) => AtLeastAsLong(a.daysOpen, b.daysOpen)
  }

  /** `df_abertas.sort_values(..., ascending=False).head(15)` */
  function TopOpen(rows: seq<Record>): seq<Record>
  {
    var ranked := SortBy(OpenRows(rows), LongestFirst());
    ranked[..if |ranked| < TopN then |ranked| else TopN]
  }

  /** The y-axis label of a bar: `code (title)` on the lifecycle tab,
      `code [STATUS] (title)` on the internal-status tab. */
  function Label(r: Record, col: StatusColumn): (s: string)
    ensures |s| > |r.code| + |r.title| + 2
    ensures s[..|r.code|] == r.code && s[|r.code|] == ' '
    ensures s[|s| - |r.title| - 3] == ' '
    ensures s[|s| - |r.title| - 2..] == "(" + r.title + ")"
    ensures col == LifecycleStatus ==> |s| == |r.code| + |r.title| + 3
    ensures col == InternalStatus ==> |s| == |r.code| + |r.status| + |r.title| + 6 &&
                                      s[|r.code|..|r.code| + |r.status| + 3] == " [" + r.status + "]"
  {
    match col
    case LifecycleStatus => r.code + " (" + r.title + ")"
    case InternalStatus =>
      var s := r.code + " [" + r.status + "] (" + r.title + ")";
      var mid := " [" + r.status + "]";
      assert s == r.code + mid + (" (" + r.title + ")");
      assert s[|r.code|..|r.code| + |mid|] == mid by {
        forall i | 0 <= i < |mid| ensures s[|r.code| + i] == mid[i] { }
      }
      s
  }

  /** One bar of the chart: its label and its length. */
  datatype TopBar = TopBar(axisLabel: string, daysOpen: Option<real>)

  function Labelled(rows: seq<Record>, col: StatusColumn): (bars: seq<TopBar>)
    ensures |bars| == |rows|
    ensures forall i :: 0 <= i < |rows| ==> bars[i] == TopBar(Label(rows[i], col), rows[i].daysOpen)
  {
    if rows == [] then [] else [TopBar(Label(rows[0], col), rows[0].daysOpen)] + Labelled(rows[1..], col)
  }

  function ShortestFirst(): (TopBar, TopBar) -> bool
  {
    (a: TopBar, b: TopBar) => AtMostAsLong(a.daysOpen, b.daysOpen)
  }

  /** The chart data: the labelled top rows, re-sorted ascending. */
  function TopBars(rows: seq<Record>, col: StatusColumn): seq<TopBar>
  {
    SortBy(Labelled(TopOpen(rows), col), ShortestFirst())
  }

  lemma LongestFirstIsTotalPreorder()
    ensures IsTotalPreorder(LongestFirst())
  {
  }

  lemma ShortestFirstIsTotalPreorder()
    ensures IsTotalPreorder(ShortestFirst())
  {
  }

  /** The top list holds min(15, #open) open rows of the filtered table, and
      every open row left out has no more days open than any row kept (a
      row with no value is left out before any row with one). */
  lemma TopOpenCorrect(rows: seq<Record>)
    ensures |TopOpen(rows)| == if |OpenRows(rows)| < TopN then |OpenRows(rows)| else TopN
    ensures forall r :: r in TopOpen(rows) ==> r in rows && r.vagaStatus != Some(FilledStatus)
    ensures multiset(TopOpen(rows)) <= multiset(OpenRows(rows))
    ensures forall x, y :: x in multiset(OpenRows(rows)) - multiset(TopOpen(rows)) && y in TopOpen(rows) ==>
              AtLeastAsLong(y.daysOpen, x.daysOpen)
  {
    var open := OpenRows(rows);
    var ranked := SortBy(open, LongestFirst());
    LongestFirstIsTotalPreorder();
    SortByCorrect(open, LongestFirst());
    var k := if |ranked| < TopN then |ranked| else TopN;
    var top, rest := ranked[..k], ranked[k..];
    assert ranked == top + rest;
    assert multiset(open) == multiset(top) + multiset(rest);
    forall r | r in top ensures r in rows && IsOpen(r) {
      assert r in multiset(ranked);
    }
    PrefixPrecedesRest(ranked, LongestFirst(), k);
    forall x, y | x in multiset(open) - multiset(top) && y in top
      ensures AtLeastAsLong(y.daysOpen, x.daysOpen)
    {
      assert x in multiset(rest);
      assert x in rest;
    }
  }

  /** The chart shows exactly the labelled top rows, shortest first. */
  lemma TopBarsCorrect(rows: seq<Record>, col: StatusColumn)
    ensures |TopBars(rows, col)| == |TopOpen(rows)| <= TopN
    ensures multiset(TopBars(rows, col)) == multiset(Labelled(TopOpen(rows), col))
    ensures SortedBy(TopBars(rows, col), ShortestFirst())
  {
    TopOpenCorrect(rows);
    ShortestFirstIsTotalPreorder();
    SortByCorrect(Labelled(TopOpen(rows), col), ShortestFirst());
  }
}
