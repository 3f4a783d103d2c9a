/** `value_counts()`: the count of rows per distinct value of a column,
    missing cells dropped, and the bar/pie chart data derived from it. */
module Histograms {
  import opened Wrappers
  import opened Sorting

  /** One row of `value_counts().reset_index()`: a value and its count. */
  datatype Bar = Bar(key: string, count: nat)

  function KeysOf(bars: seq<Bar>): (keys: seq<string>)
    ensures |keys| == |bars| && forall i :: 0 <= i < |bars| ==> keys[i] == bars[i].key
  {
    if bars == [] then [] else [bars[0].key] + KeysOf(bars[1..])
  }

  ghost predicate HasDistinctKeys(bars: seq<Bar>)
  {
    forall i, j :: 0 <= i < j < |bars| ==> bars[i].key != bars[j].key
  }

  /** Sum of the counts. */
  function Total(bars: seq<Bar>): nat
  {
    if bars == [] then 0 else bars[0].count + Total(bars[1..])
  }

  /** The present values of a column, in row order (NaN dropped). */
  function PresentValues(cells: seq<Option<string>>): (vs: seq<string>)
    ensures forall v :: v in vs <==> Some(v) in cells
    ensures forall v :: multiset(vs)[v] == multiset(cells)[Some(v)]
  {
    if cells == [] then []
    else
      assert cells == [cells[0]] + cells[1..];
      (if cells[0].Some? then [cells[0].value] else []) + PresentValues(cells[1..])
  }

  /** `bars` is exactly the frequency table of `vs`: one bar per distinct
      value, each with that value's number of occurrences, and nothing else. */
  ghost predicate IsHistogramOf(bars: seq<Bar>, vs: seq<string>)
  {
    HasDistinctKeys(bars) &&
    (forall v :: v in vs <==> v in KeysOf(bars)) &&
    (forall b :: b in bars ==> b.count == multiset(vs)[b.key] && b.count > 0) &&
    Total(bars) == |vs|
  }

  /** Count one more occurrence of k: increment its bar, or append a new one. */
  function Bump(bars: seq<Bar>, k: string): seq<Bar>
  {
    if bars == [] then [Bar(k, 1)]
    else if bars[0].key == k then [Bar(k, bars[0].count + 1)] + bars[1..]
    else [bars[0]] + Bump(bars[1..], k)
  }

  /** Counting every value in turn, first occurrences first. */
  function Histogram(vs: seq<string>): seq<Bar>
  {
    if vs == [] then [] else Bump(Histogram(vs[..|vs| - 1]), vs[|vs| - 1])
  }

  lemma {:induction false} BumpLength(bars: seq<Bar>, k: string)
    ensures |Bump(bars, k)| == |bars| + (if k in KeysOf(bars) then 0 else 1)
    ensures Total(Bump(bars, k)) == Total(bars) + 1
  {
    if bars != [] {
      if bars[0].key != k {
        BumpLength(bars[1..], k);
        assert Bump(bars, k)[1..] == Bump(bars[1..], k);
      } else {
        assert Bump(bars, k)[1..] == bars[1..];
      }
    }
  }

  /** The bar of k gains one; every other bar is unchanged. */
  lemma {:induction false} BumpAt(bars: seq<Bar>, k: string, i: nat)
    requires HasDistinctKeys(bars) && i < |bars|
    ensures i < |Bump(bars, k)|
    ensures Bump(bars, k)[i] == if bars[i].key == k then Bar(k, bars[i].count + 1) else bars[i]
  {
    BumpLength(bars, k);
    if i > 0 && bars[0].key != k {
      BumpAt(bars[1..], k, i - 1);
      assert Bump(bars, k)[1..] == Bump(bars[1..], k);
    } else if i > 0 {
      assert bars[i].key != k;
    }
  }

  /** A value not counted yet gets a new bar of count 1 at the end. */
  lemma {:induction false} BumpNew(bars: seq<Bar>, k: string)
    requires k !in KeysOf(bars)
    ensures Bump(bars, k) == bars + [Bar(k, 1)]
  {
    if bars != [] {
      assert k != KeysOf(bars)[0];
      assert KeysOf(bars)[1..] == KeysOf(bars[1..]);
      BumpNew(bars[1..], k);
      assert bars == [bars[0]] + bars[1..];
    }
  }

  lemma {:induction false} HistogramCorrect(vs: seq<string>)
    ensures IsHistogramOf(Histogram(vs), vs)
  {
    if vs != [] {
      var init, k := vs[..|vs| - 1], vs[|vs| - 1];
      assert vs == init + [k];
      HistogramCorrect(init);
      BumpKeepsHistogram(Histogram(init), init, k);
    }
  }

  /** Counting one more value keeps the frequency table exact. */
  lemma BumpKeepsHistogram(bars: seq<Bar>, vs: seq<string>, k: string)
    requires IsHistogramOf(bars, vs)
    ensures IsHistogramOf(Bump(bars, k), vs + [k])
  {
    BumpLength(bars, k);
    BumpDistinct(bars, k);
    forall v ensures v in vs + [k] <==> v in KeysOf(Bump(bars, k)) {
      BumpKeyMember(bars, k, v);
    }
    BumpCounts(bars, vs, k);
  }

  lemma BumpDistinct(bars: seq<Bar>, k: string)
    requires HasDistinctKeys(bars)
    ensures HasDistinctKeys(Bump(bars, k))
  {
    var next := Bump(bars, k);
    if k !in KeysOf(bars) {
      BumpNew(bars, k);
      forall i, j | 0 <= i < j < |next| ensures next[i].key != next[j].key {
        if j == |bars| { assert KeysOf(bars)[i] == bars[i].key; }
      }
    } else {
      BumpLength(bars, k);
      forall i, j | 0 <= i < j < |next| ensures next[i].key != next[j].key {
        BumpAt(bars, k, i);
        BumpAt(bars, k, j);
      }
    }
  }

  lemma {:induction false} BumpKeyMember(bars: seq<Bar>, k: string, v: string)
    ensures v in KeysOf(Bump(bars, k)) <==> v in KeysOf(bars) || v == k
  {
    if bars != [] && bars[0].key != k {
      BumpKeyMember(bars[1..], k, v);
      assert Bump(bars, k)[1..] == Bump(bars[1..], k);
    } else if bars != [] {
      assert Bump(bars, k)[1..] == bars[1..];
    }
  }

  lemma BumpCounts(bars: seq<Bar>, vs: seq<string>, k: string)
    requires IsHistogramOf(bars, vs)
    ensures forall b :: b in Bump(bars, k) ==> b.count == multiset(vs + [k])[b.key] && b.count > 0
  {
    var next := Bump(bars, k);
    if k !in KeysOf(bars) {
      BumpNew(bars, k);
      assert k !in vs;
    } else {
      BumpLength(bars, k);
      forall b | b in next ensures b.count == multiset(vs + [k])[b.key] && b.count > 0 {
        var i :| 0 <= i < |next| && next[i] == b;
        BumpAt(bars, k, i);
        assert bars[i] in bars;
      }
    }
  }

  /** `value_counts()`: the frequency table, largest count first. */
  function CountAtLeast(): (Bar, Bar) -> bool
  {
    (a: Bar, b: Bar) => a.count >= b.count
  }

  function CountAtMost(): (Bar, Bar) -> bool
  {
    (a: Bar, b: Bar) => a.count <= b.count
  }

  function ValueCounts(vs: seq<string>): seq<Bar>
  {
    SortBy(Histogram(vs), CountAtLeast())
  }

  lemma {:induction false} TotalAppend(a: seq<Bar>, b: seq<Bar>)
    ensures Total(a + b) == Total(a) + Total(b)
  {
    if a != [] {
      assert (a + b)[1..] == a[1..] + b;
      TotalAppend(a[1..], b);
    } else {
      assert a + b == b;
    }
  }

  /** Reordering the bars does not change the sum of the counts. */
  lemma {:induction false} TotalPermutation(a: seq<Bar>, b: seq<Bar>)
    requires multiset(a) == multiset(b)
    ensures Total(a) == Total(b)
    decreases |a|
  {
    if a == [] {
      assert |multiset(b)| == 0;
    } else {
      assert a[0] in multiset(b);
      var i :| 0 <= i < |b| && b[i] == a[0];
      RemoveAt(b, i);
      assert a == [a[0]] + a[1..];
      assert multiset(a[1..]) == multiset(a) - multiset{a[0]};
      TotalPermutation(a[1..], b[..i] + b[i + 1..]);
    }
  }

  lemma RemoveAt(b: seq<Bar>, i: nat)
    requires i < |b|
    ensures multiset(b[..i] + b[i + 1..]) == multiset(b) - multiset{b[i]}
    ensures Total(b) == b[i].count + Total(b[..i] + b[i + 1..])
  {
    RemoveAtMultiset(b, i);
    RemoveAtTotal(b, i);
  }

  lemma RemoveAtMultiset(b: seq<Bar>, i: nat)
    requires i < |b|
    ensures multiset(b[..i] + b[i + 1..]) == multiset(b) - multiset{b[i]}
  {
    var pre, post := b[..i], b[i + 1..];
    assert b == pre + [b[i]] + post;
    assert multiset(b) == multiset(pre) + multiset{b[i]} + multiset(post);
  }

  lemma RemoveAtTotal(b: seq<Bar>, i: nat)
    requires i < |b|
    ensures Total(b) == b[i].count + Total(b[..i] + b[i + 1..])
  {
    var pre, post := b[..i], b[i + 1..];
    var rest := [b[i]] + post;
    assert b == pre + rest;
    TotalAppend(pre, rest);
    TotalAppend(pre, post);
    assert rest[1..] == post;
  }

  lemma {:induction false} DistinctAtMostOnce(s: seq<Bar>)
    requires HasDistinctKeys(s)
    ensures forall x :: multiset(s)[x] <= 1
  {
    if s != [] {
      var init := s[..|s| - 1];
      assert s == init + [s[|s| - 1]];
      DistinctAtMostOnce(init);
      assert s[|s| - 1] !in init;
    }
  }

  lemma TwiceIsTwice(s: seq<Bar>, i: nat, j: nat)
    requires i < j < |s| && s[i] == s[j]
    ensures multiset(s)[s[i]] >= 2
  {
    assert s == s[..j] + [s[j]] + s[j + 1..];
    assert s[i] in s[..j];
  }

  /** Any reordering of a frequency table is a frequency table of the same values. */
  lemma PermutedHistogram(bars: seq<Bar>, chart: seq<Bar>, vs: seq<string>)
    requires IsHistogramOf(bars, vs) && multiset(chart) == multiset(bars)
    ensures IsHistogramOf(chart, vs)
  {
    forall b | b in chart ensures b in bars {
      assert b in multiset(chart);
    }
    forall b | b in bars ensures b in chart {
      assert b in multiset(bars);
    }
    forall v ensures v in vs <==> v in KeysOf(chart) {
      if v in KeysOf(bars) {
        var i :| 0 <= i < |bars| && bars[i].key == v;
        assert bars[i] in chart;
      }
      if v in KeysOf(chart) {
        var i :| 0 <= i < |chart| && chart[i].key == v;
        assert chart[i] in bars;
      }
    }
    DistinctAtMostOnce(bars);
    forall i, j | 0 <= i < j < |chart| ensures chart[i].key != chart[j].key {
      if chart[i].key == chart[j].key {
        assert chart[i] in bars && chart[j] in bars;
        assert chart[i] == chart[j];
        TwiceIsTwice(chart, i, j);
        assert false;
      }
    }
    TotalPermutation(bars, chart);
  }

  /** value_counts(): a frequency table of the values, ordered by count,
      largest first. */
  lemma ValueCountsCorrect(vs: seq<string>)
    ensures IsHistogramOf(ValueCounts(vs), vs)
    ensures SortedBy(ValueCounts(vs), CountAtLeast())
  {
    HistogramCorrect(vs);
    SortByCorrect(Histogram(vs), CountAtLeast());
    PermutedHistogram(Histogram(vs), ValueCounts(vs), vs);
  }

  /** value_counts().sort_values('Quantidade', ascending=True): the same
      table, smallest count first. */
  function AscendingChart(vs: seq<string>): seq<Bar>
  {
    SortBy(ValueCounts(vs), CountAtMost())
  }

  lemma AscendingChartCorrect(vs: seq<string>)
    ensures IsHistogramOf(AscendingChart(vs), vs)
    ensures SortedBy(AscendingChart(vs), CountAtMost())
  {
    ValueCountsCorrect(vs);
    SortByCorrect(ValueCounts(vs), CountAtMost());
    PermutedHistogram(ValueCounts(vs), AscendingChart(vs), vs);
  }
}
