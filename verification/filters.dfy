/** The filter engine shared by both tabs: a date range followed by up to
    three multi-select membership filters, one of them on the tab's status
    column. */
module Filters {
  import opened Wrappers
  import opened Dates
  import opened Records

  /** A multi-select value: None before the user touches it, else the chosen
      values. Both None and [] are falsy, so they leave the column free. */
  type Selection = Option<seq<string>>

  predicate Constrains(sel: Selection)
  {
    sel.Some? && sel.value != []
  }

  /** `column.isin(values)` for one cell: a missing cell is never a member. */
  predicate IsIn(cell: Option<string>, values: seq<string>)
  {
    cell.Some? && cell.value in values
  }

  datatype FilterSet = FilterSet(
    start: Date,            // date-picker start, already parsed
    end: Date,              // date-picker end, already parsed
    status: Selection,      // the tab's status checklist
    groups: Selection,      // Grupo Econômico dropdown
    ufs: Selection)         // UF da OI dropdown

  predicate InDateRange(r: Record, f: FilterSet)
  {
    AtOrBefore(f.start, r.recruited) && AtOrBefore(r.recruited, f.end)
  }

  /** The conjunction all filters together impose on one row. */
  predicate Matches(r: Record, f: FilterSet, col: StatusColumn)
  {
    InDateRange(r, f) &&
    (Constrains(f.status) ==> IsIn(StatusOf(r, col), f.status.value)) &&
    (Constrains(f.groups) ==> IsIn(r.group, f.groups.value)) &&
    (Constrains(f.ufs) ==> IsIn(r.uf, f.ufs.value))
  }

  /** Boolean-mask selection `dff[mask]`: the rows for which `keep` holds,
      in their original order. */
  function Where(rows: seq<Record>, keep: Record -> bool): (kept: seq<Record>)
    ensures |kept| <= |rows|
    ensures forall r :: r in kept <==> r in rows && keep(r)
    ensures forall r :: multiset(kept)[r] == if keep(r) then multiset(rows)[r] else 0
  {
    if rows == [] then []
    else
      var head := if keep(rows[0]) then [rows[0]] else [];
      assert rows == [rows[0]] + rows[1..];
      assert multiset(rows) == multiset{rows[0]} + multiset(rows[1..]);
      head + Where(rows[1..], keep)
  }

  /** The masks of the four successive selections in the tab callbacks. */
  function DateMask(f: FilterSet): Record -> bool
  {
    (r: Record) => InDateRange(r, f)
  }

  function StatusMask(f: FilterSet, col: StatusColumn): Record -> bool
    requires Constrains(f.status)
  {
    (r: Record) => IsIn(StatusOf(r, col), f.status.value)
  }

  function GroupMask(f: FilterSet): Record -> bool
    requires Constrains(f.groups)
  {
    (r: Record) => IsIn(r.group, f.groups.value)
  }

  function UfMask(f: FilterSet): Record -> bool
    requires Constrains(f.ufs)
  {
    (r: Record) => IsIn(r.uf, f.ufs.value)
  }

  /** The filter block of the tab callbacks: the date range, then each
      selection that is truthy. */
  function ApplyFilters(rows: seq<Record>, f: FilterSet, col: StatusColumn): seq<Record>
  {
    var byDate := Where(rows, DateMask(f));
    var byStatus := if Constrains(f.status) then Where(byDate, StatusMask(f, col)) else byDate;
    var byGroup := if Constrains(f.groups) then Where(byStatus, GroupMask(f)) else byStatus;
    if Constrains(f.ufs) then Where(byGroup, UfMask(f)) else byGroup
  }

  /** xs is an order-preserving subsequence of ys. */
  ghost predicate IsSubsequence(xs: seq<Record>, ys: seq<Record>)
    decreases |ys|
  {
    xs == [] ||
    (ys != [] && ((xs[0] == ys[0] && IsSubsequence(xs[1..], ys[1..])) || IsSubsequence(xs, ys[1..])))
  }

  lemma {:induction false} WhereIsSubsequence(rows: seq<Record>, keep: Record -> bool)
    ensures IsSubsequence(Where(rows, keep), rows)
  {
    if rows != [] {
      var rest := Where(rows[1..], keep);
      WhereIsSubsequence(rows[1..], keep);
      if keep(rows[0]) {
        var kept := Where(rows, keep);
        assert kept == [rows[0]] + rest;
        assert kept[0] == rows[0] && kept[1..] == rest;
      } else {
        assert Where(rows, keep) == rest;
      }
    }
  }

  /** Two masks that agree on every row select the same rows. */
  lemma {:induction false} WhereSameMask(rows: seq<Record>, p: Record -> bool, q: Record -> bool)
    requires forall r :: p(r) == q(r)
    ensures Where(rows, p) == Where(rows, q)
  {
    if rows != [] { WhereSameMask(rows[1..], p, q); }
  }

  /** Applying one mask after another is applying their conjunction. */
  lemma {:induction false} WhereThenWhere(rows: seq<Record>, p: Record -> bool, q: Record -> bool, pq: Record -> bool)
    requires forall r :: pq(r) == (p(r) && q(r))
    ensures Where(Where(rows, p), q) == Where(rows, pq)
  {
    if rows != [] {
      WhereThenWhere(rows[1..], p, q, pq);
      if p(rows[0]) {
        var xs := Where(rows, p);
        assert xs == [rows[0]] + Where(rows[1..], p);
        assert xs[0] == rows[0] && xs[1..] == Where(rows[1..], p);
        assert Where(xs, q) == (if q(rows[0]) then [rows[0]] else []) + Where(xs[1..], q);
        assert pq(rows[0]) == q(rows[0]);
      } else {
        assert Where(rows, p) == Where(rows[1..], p);
        assert !pq(rows[0]);
      }
    }
  }

  /** A mask every row satisfies selects everything. */
  lemma {:induction false} WhereKeepsAll(rows: seq<Record>, keep: Record -> bool)
    requires forall r :: r in rows ==> keep(r)
    ensures Where(rows, keep) == rows
  {
    if rows != [] {
      WhereKeepsAll(rows[1..], keep);
      assert [rows[0]] + rows[1..] == rows;
    }
  }

  /** The staged selections are one selection by the conjunction Matches. */
  lemma FiltersAreConjunction(rows: seq<Record>, f: FilterSet, col: StatusColumn)
    ensures ApplyFilters(rows, f, col) == Where(rows, (r: Record) => Matches(r, f, col))
  {
    var s1 := (r: Record) => InDateRange(r, f) &&
      (Constrains(f.status) ==> IsIn(StatusOf(r, col), f.status.value));
    var s2 := (r: Record) => s1(r) && (Constrains(f.groups) ==> IsIn(r.group, f.groups.value));
    var s3 := (r: Record) => s2(r) && (Constrains(f.ufs) ==> IsIn(r.uf, f.ufs.value));
    var byDate := Where(rows, DateMask(f));
    var byStatus := if Constrains(f.status) then Where(byDate, StatusMask(f, col)) else byDate;
    var byGroup := if Constrains(f.groups) then Where(byStatus, GroupMask(f)) else byStatus;
    if Constrains(f.status) {
      WhereThenWhere(rows, DateMask(f), StatusMask(f, col), s1);
    } else {
      WhereSameMask(rows, DateMask(f), s1);
    }
    assert byStatus == Where(rows, s1);
    if Constrains(f.groups) {
      WhereThenWhere(rows, s1, GroupMask(f), s2);
    } else {
      WhereSameMask(rows, s1, s2);
    }
    assert byGroup == Where(rows, s2);
    if Constrains(f.ufs) {
      WhereThenWhere(rows, s2, UfMask(f), s3);
    } else {
      WhereSameMask(rows, s2, s3);
    }
    WhereSameMask(rows, s3, (r: Record) => Matches(r, f, col));
  }

  /** A row survives the filters exactly when it is in the table, its date
      lies in [start, end] (both ends included) and, for each selection that
      is neither None nor empty, its cell is one of the selected values. */
  lemma FilterMembership(rows: seq<Record>, f: FilterSet, col: StatusColumn, r: Record)
    ensures r in ApplyFilters(rows, f, col) <==>
      r in rows &&
      AtOrBefore(f.start, r.recruited) && AtOrBefore(r.recruited, f.end) &&
      (f.status.Some? && f.status.value != [] ==> StatusOf(r, col).Some? && StatusOf(r, col).value in f.status.value) &&
      (f.groups.Some? && f.groups.value != [] ==> r.group.Some? && r.group.value in f.groups.value) &&
      (f.ufs.Some? && f.ufs.value != [] ==> r.uf.Some? && r.uf.value in f.ufs.value)
  {
    FiltersAreConjunction(rows, f, col);
  }

  /** The filtered table keeps the table's row order and never grows. */
  lemma FilterIsSubsequence(rows: seq<Record>, f: FilterSet, col: StatusColumn)
    ensures IsSubsequence(ApplyFilters(rows, f, col), rows)
    ensures |ApplyFilters(rows, f, col)| <= |rows|
  {
    FiltersAreConjunction(rows, f, col);
    WhereIsSubsequence(rows, (r: Record) => Matches(r, f, col));
  }

  /** Filtering the filtered table again with the same filters changes nothing. */
  lemma FilterIdempotent(rows: seq<Record>, f: FilterSet, col: StatusColumn)
    ensures ApplyFilters(ApplyFilters(rows, f, col), f, col) == ApplyFilters(rows, f, col)
  {
    var once := ApplyFilters(rows, f, col);
    FiltersAreConjunction(rows, f, col);
    FiltersAreConjunction(once, f, col);
    WhereKeepsAll(once, (r: Record) => Matches(r, f, col));
  }

  /** Rows dated 01/01/2024 and 15/06/2024 under the range
      [2024-01-01, 2024-06-01]: only the first survives. */
  lemma DateRangeScenario(a: Record, b: Record, f: FilterSet, col: StatusColumn)
    requires a.recruited == Date(2024, 1, 1) && b.recruited == Date(2024, 6, 15)
    requires f == FilterSet(Date(2024, 1, 1), Date(2024, 6, 1), None, None, None)
    ensures ApplyFilters([a, b], f, col) == [a]
  {
    var keep := DateMask(f);
    assert keep(a) && !keep(b);
    assert [a, b][1..] == [b] && [b][1..] == [];
    assert Where([b], keep) == [];
    assert Where([a, b], keep) == [a];
  }
}
