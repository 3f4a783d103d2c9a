/** The scalar KPIs of a tab: SLA-breach count, mean days open and breach
    rate, over exact rationals instead of floats. */
module Kpis {
  import opened Wrappers
  import opened Records
  import opened Filters

  /** A KPI card's value: "N/A", pandas NaN, or a number. */
  datatype Metric = NotAvailable | NotANumber | Exact(value: real)

  predicate IsBreach(r: Record)
  {
    r.sla == Some(BreachMarker)
  }

  function BreachMask(): Record -> bool
  {
    (r: Record) => IsBreach(r)
  }

  /** `dff[dff['Situação Vagas'] == 'Fora do SLA'].shape[0]` */
  function CountBreaches(rows: seq<Record>): nat
  {
    |Where(rows, BreachMask())|
  }

  lemma {:induction false} WhereKeepsAllIff(rows: seq<Record>, keep: Record -> bool)
    ensures |Where(rows, keep)| == |rows| <==> forall r :: r in rows ==> keep(r)
  {
    if rows != [] {
      WhereKeepsAllIff(rows[1..], keep);
      assert rows == [rows[0]] + rows[1..];
      if !keep(rows[0]) {
        assert |Where(rows, keep)| < |rows|;
      }
    }
  }

  /** The breach count never exceeds the row count; it is zero exactly when
      no row is flagged and equals the row count exactly when all are. */
  lemma BreachCountBounds(rows: seq<Record>)
    ensures CountBreaches(rows) <= |rows|
    ensures CountBreaches(rows) == 0 <==> forall r :: r in rows ==> !IsBreach(r)
    ensures CountBreaches(rows) == |rows| <==> forall r :: r in rows ==> IsBreach(r)
  {
    WhereKeepsAllIff(rows, BreachMask());
    if CountBreaches(rows) != 0 {
      assert Where(rows, BreachMask())[0] in Where(rows, BreachMask());
    }
  }

  /** The present values of Dias em Aberto, in row order. */
  function DaysValues(rows: seq<Record>): (xs: seq<real>)
    ensures |xs| <= |rows|
    ensures xs == [] <==> forall r :: r in rows ==> r.daysOpen.None?
    ensures forall r :: r in rows && r.daysOpen.Some? ==> r.daysOpen.value in xs
  {
    if rows == [] then []
    else
      assert rows == [rows[0]] + rows[1..];
      (if rows[0].daysOpen.Some? then [rows[0].daysOpen.value] else []) + DaysValues(rows[1..])
  }

  /** Each value is averaged once for every row whose Dias em Aberto holds
      it, and no other value is averaged. */
  lemma DaysValuesCount(rows: seq<Record>)
    ensures forall x :: multiset(DaysValues(rows))[x] == multiset(DaysCells(rows))[Some(x)]
  {
    forall x {
      DaysValuesCountOf(rows, x);
    }
  }

  lemma {:induction false} DaysValuesCountOf(rows: seq<Record>, x: real)
    ensures multiset(DaysValues(rows))[x] == multiset(DaysCells(rows))[Some(x)]
  {
    if rows != [] {
      DaysValuesCountOf(rows[1..], x);
      var head := if rows[0].daysOpen.Some? then [rows[0].daysOpen.value] else [];
      var rest, cells := DaysValues(rows[1..]), DaysCells(rows[1..]);
      DaysStep(rows);
      assert multiset(DaysValues(rows))[x] == multiset(head)[x] + multiset(rest)[x];
      assert multiset(DaysCells(rows))[Some(x)] == multiset{rows[0].daysOpen}[Some(x)] + multiset(cells)[Some(x)];
    }
  }

  /** One row's contribution to the averaged values and to the column. */
  lemma DaysStep(rows: seq<Record>)
    requires rows != []
    ensures DaysValues(rows) ==
              (if rows[0].daysOpen.Some? then [rows[0].daysOpen.value] else []) + DaysValues(rows[1..])
    ensures DaysCells(rows) == [rows[0].daysOpen] + DaysCells(rows[1..])
  {
    DaysCellsStep(rows);
  }

  lemma DaysCellsStep(rows: seq<Record>)
    requires rows != []
    ensures DaysCells(rows) == [rows[0].daysOpen] + DaysCells(rows[1..])
  {
  }

  function Sum(xs: seq<real>): real
  {
    if xs == [] then 0.0 else xs[0] + Sum(xs[1..])
  }

  /** `dff['Dias em Aberto'].mean()`: NaN cells are skipped; with none left
      the mean is NaN. */
  function MeanDaysOpen(rows: seq<Record>): Metric
  {
    var xs := DaysValues(rows);
    if xs == [] then NotANumber else Exact(Sum(xs) / |xs| as real)
  }

  lemma {:induction false} SumBounds(xs: seq<real>, lo: real, hi: real)
    requires forall x :: x in xs ==> lo <= x <= hi
    ensures |xs| as real * lo <= Sum(xs) <= |xs| as real * hi
  {
    if xs != [] {
      assert forall x :: x in xs[1..] ==> x in xs;
      SumBounds(xs[1..], lo, hi);
      assert xs[0] in xs;
      var n := |xs[1..]| as real;
      assert |xs| as real == n + 1.0;
      assert (n + 1.0) * lo == n * lo + lo && (n + 1.0) * hi == n * hi + hi;
      assert Sum(xs) == xs[0] + Sum(xs[1..]);
    }
  }

  lemma {:induction false} DaysValuesBounded(rows: seq<Record>, lo: real, hi: real)
    requires forall r :: r in rows && r.daysOpen.Some? ==> lo <= r.daysOpen.value <= hi
    ensures forall x :: x in DaysValues(rows) ==> lo <= x <= hi
  {
    if rows != [] {
      assert forall r :: r in rows[1..] ==> r in rows;
      DaysValuesBounded(rows[1..], lo, hi);
      assert rows[0] in rows;
    }
  }

  /** The average of values within [lo, hi] is within [lo, hi]. */
  lemma AverageBounds(xs: seq<real>, lo: real, hi: real)
    requires xs != []
    requires forall x :: x in xs ==> lo <= x <= hi
    ensures lo <= Sum(xs) / |xs| as real <= hi
  {
    SumBounds(xs, lo, hi);
    var n := |xs| as real;
    var m := Sum(xs) / n;
    assert m * n == Sum(xs);
  }

  /** The mean is NaN exactly when no row has a value, and otherwise lies
      between any lower and upper bound of the values. */
  lemma MeanWithinBounds(rows: seq<Record>, lo: real, hi: real)
    requires forall r :: r in rows && r.daysOpen.Some? ==> lo <= r.daysOpen.value <= hi
    ensures MeanDaysOpen(rows).NotANumber? <==> forall r :: r in rows ==> r.daysOpen.None?
    ensures MeanDaysOpen(rows).Exact? ==> lo <= MeanDaysOpen(rows).value <= hi
  {
    var xs := DaysValues(rows);
    if xs != [] {
      DaysValuesBounded(rows, lo, hi);
      AverageBounds(xs, lo, hi);
    }
  }

  /** `(vagas_fora_sla / total_vagas) * 100` when `total_vagas > 0`, else "N/A". */
  function BreachRate(breaches: nat, total: nat): Metric
  {
    if total > 0 then Exact((breaches as real / total as real) * 100.0) else NotAvailable
  }

  /** A fraction b / t of a positive whole t with 0 <= b <= t. */
  lemma FractionBounds(b: real, t: real)
    requires 0.0 <= b <= t && t > 0.0
    ensures 0.0 <= b / t <= 1.0
    ensures b / t == 0.0 <==> b == 0.0
    ensures b / t == 1.0 <==> b == t
    ensures (b / t) * t == b
  {
    var q := b / t;
    assert q * t == b;
  }

  /** With at least one row the rate is a percentage: 0 exactly when nothing
      breached, 100 exactly when everything did. */
  lemma BreachRateBounds(breaches: nat, total: nat)
    requires breaches <= total
    ensures BreachRate(breaches, total).Exact? <==> total > 0
    ensures total > 0 ==> 0.0 <= BreachRate(breaches, total).value <= 100.0
    ensures total > 0 ==> (BreachRate(breaches, total).value == 0.0 <==> breaches == 0)
    ensures total > 0 ==> (BreachRate(breaches, total).value == 100.0 <==> breaches == total)
    ensures total > 0 ==> BreachRate(breaches, total).value * total as real == breaches as real * 100.0
  {
    if total > 0 {
      var q := breaches as real / total as real;
      assert BreachRate(breaches, total).value == q * 100.0;
      FractionBounds(breaches as real, total as real);
    }
  }
}
