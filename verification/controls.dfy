/** The status checklists of the two tabs: their options, the "Marcar
    Todos" / "Limpar Todos" buttons and the collapse toggle. */
module Controls {
  import opened Wrappers
  import opened Text
  import opened Records
  import opened Filters
  import opened Histograms
  import opened Dashboard

  /** Every element strictly below the ones after it: sorted, no repeats. */
  ghost predicate StrictlyAscending(s: seq<string>)
  {
    forall i, j :: 0 <= i < j < |s| ==> StrLess(s[i], s[j])
  }

  /** Places x into an ascending list, unless it is already there. */
  function InsertDistinct(x: string, s: seq<string>): seq<string>
  {
    if s == [] then [x]
    else if x == s[0] then s
    else if StrLess(x, s[0]) then [x] + s
    else [s[0]] + InsertDistinct(x, s[1..])
  }

  lemma {:induction false} InsertDistinctCorrect(x: string, s: seq<string>)
    requires StrictlyAscending(s)
    ensures StrictlyAscending(InsertDistinct(x, s))
    ensures forall v :: v in InsertDistinct(x, s) <==> v == x || v in s
  {
    if s != [] && x != s[0] && !StrLess(x, s[0]) {
      var t := InsertDistinct(x, s[1..]);
      assert StrictlyAscending(s[1..]) by {
        forall i, j | 0 <= i < j < |s[1..]| ensures StrLess(s[1..][i], s[1..][j]) {
          assert s[1..][i] == s[i + 1] && s[1..][j] == s[j + 1];
        }
      }
      InsertDistinctCorrect(x, s[1..]);
      StrLessTrichotomy(x, s[0]);
      forall v | v in t ensures StrLess(s[0], v) {
        if v == x {
        } else {
          var k :| 0 <= k < |s[1..]| && s[1..][k] == v;
          assert s[k + 1] == v;
        }
      }
      forall i, j | 0 <= i < j < |[s[0]] + t| ensures StrLess(([s[0]] + t)[i], ([s[0]] + t)[j]) {
        if i == 0 {
          assert ([s[0]] + t)[j] == t[j - 1];
        } else {
          assert ([s[0]] + t)[i] == t[i - 1] && ([s[0]] + t)[j] == t[j - 1];
        }
      }
    } else if s != [] && x != s[0] && StrLess(x, s[0]) {
      forall i, j | 0 <= i < j < |[x] + s| ensures StrLess(([x] + s)[i], ([x] + s)[j]) {
        if i == 0 {
          if j > 1 {
            StrLessTransitive(x, s[0], s[j - 1]);
          }
        } else {
          assert ([x] + s)[i] == s[i - 1];
        }
      }
    }
  }

  /** `sorted(values.unique())`: the distinct values in ascending code-point
      order. */
  function SortedDistinct(values: seq<string>): seq<string>
  {
    if values == [] then []
    else InsertDistinct(values[|values| - 1], SortedDistinct(values[..|values| - 1]))
  }

  lemma {:induction false} SortedDistinctCorrect(values: seq<string>)
    ensures StrictlyAscending(SortedDistinct(values))
    ensures forall v :: v in SortedDistinct(values) <==> v in values
  {
    if values != [] {
      var init := values[..|values| - 1];
      SortedDistinctCorrect(init);
      InsertDistinctCorrect(values[|values| - 1], SortedDistinct(init));
      assert values == init + [values[|values| - 1]];
    }
  }

  /** `status_vaga_options` / `status_interno_options`: the checklist entries,
      taken from the whole loaded table. */
  function StatusOptions(table: seq<Record>, col: StatusColumn): seq<string>
  {
    SortedDistinct(PresentValues(StatusCells(table, col)))
  }

  /** The options are ascending without repeats, and are exactly the
      statuses that occur in the table. */
  lemma StatusOptionsCorrect(table: seq<Record>, col: StatusColumn)
    ensures StrictlyAscending(StatusOptions(table, col))
    ensures forall v :: v in StatusOptions(table, col) <==> exists r :: r in table && StatusOf(r, col) == Some(v)
  {
    var cells := StatusCells(table, col);
    SortedDistinctCorrect(PresentValues(cells));
    forall v ensures v in StatusOptions(table, col) <==> exists r :: r in table && StatusOf(r, col) == Some(v) {
      if v in StatusOptions(table, col) {
        assert Some(v) in cells;
        var i :| 0 <= i < |cells| && cells[i] == Some(v);
        assert table[i] in table && StatusOf(table[i], col) == Some(v);
      }
      if r :| r in table && StatusOf(r, col) == Some(v) {
        var i :| 0 <= i < |table| && table[i] == r;
        assert cells[i] == Some(v);
      }
    }
  }

  /** Ids of the two buttons above each checklist. */
  function SelectAllId(col: StatusColumn): string
  {
    match col
    case LifecycleStatus => "filtro-status-select-all"
    case InternalStatus => "filtro-status-interno-select-all"
  }

  function ClearAllId(col: StatusColumn): string
  {
    match col
    case LifecycleStatus => "filtro-status-clear-all"
    case InternalStatus => "filtro-status-interno-clear-all"
  }

  /** `prop_id.split('.')[0]`: the component id of a triggering property. */
  function ButtonOf(propId: string): (id: string)
    ensures '.' !in id
    ensures id <= propId
    ensures |id| == |propId| || propId[|id|] == '.'
  {
    var parts := SplitOn(propId, '.');
    JoinSplit(propId, '.');
    JoinPrefix(parts, '.');
    parts[0]
  }

  lemma JoinPrefix(parts: seq<string>, sep: char)
    requires |parts| >= 1
    ensures parts[0] <= JoinWith(parts, sep)
    ensures |parts| == 1 ==> JoinWith(parts, sep) == parts[0]
    ensures |parts| > 1 ==> JoinWith(parts, sep)[|parts[0]|] == sep
  {
  }

  /** A click on `<id>.n_clicks` is attributed to the button `<id>`. */
  lemma ButtonOfClick(id: string)
    requires '.' !in id
    ensures ButtonOf(id + ".n_clicks") == id
  {
    var click := "n_clicks";
    assert '.' !in click;
    assert id + ".n_clicks" == id + ['.'] + click;
    SplitPrefix(id, '.', click);
    assert SplitOn(id + ".n_clicks", '.')[0] == id;
  }

  /** `manage_all_selection_*`: the new checklist value. With no trigger
      (first render), on "Marcar Todos" and on any other trigger all
      options are selected; on "Limpar Todos" none. */
  function ManageSelection(trigger: Option<string>, col: StatusColumn, options: seq<string>): (sel: seq<string>)
    ensures sel == [] || sel == options
    ensures sel != options ==> trigger.Some? && ButtonOf(trigger.value) == ClearAllId(col)
    ensures trigger.Some? && ButtonOf(trigger.value) == ClearAllId(col) ==> sel == []
  {
    match trigger
    case None => options
    case Some(propId) =>
      var button := ButtonOf(propId);
      if button == SelectAllId(col) then options
      else if button == ClearAllId(col) then []
      else options
  }

  /** "Limpar Todos" blanks the tab, whatever the table and other filters. */
  lemma ClearAllBlanksTab(table: seq<Record>, f: FilterSet, col: StatusColumn)
    ensures var sel := ManageSelection(Some(ClearAllId(col) + ".n_clicks"), col, StatusOptions(table, col));
            sel == [] && UpdateDashboard(table, f.(status := Some(sel)), col) == EmptyView
  {
    ButtonOfClick(ClearAllId(col));
  }

  /** "Marcar Todos" selects every status of the table, so the status
      filter then keeps every row that has a status. */
  lemma SelectAllKeepsEveryStatus(table: seq<Record>, col: StatusColumn, r: Record)
    requires r in table && StatusOf(r, col).Some?
    ensures var sel := ManageSelection(Some(SelectAllId(col) + ".n_clicks"), col, StatusOptions(table, col));
            sel == StatusOptions(table, col) && IsIn(StatusOf(r, col), sel)
  {
    ButtonOfClick(SelectAllId(col));
    StatusOptionsCorrect(table, col);
  }

  /** `toggle_collapse_*`: `if n:` holds for a click count that is present
      and non-zero; the panel then flips, otherwise it keeps its state. */
  function ToggleCollapse(nClicks: Option<int>, isOpen: bool): (open: bool)
    ensures open != isOpen <==> nClicks.Some? && nClicks.value != 0
  {
    if nClicks.Some? && nClicks.value != 0 then !isOpen else isOpen
  }
}
