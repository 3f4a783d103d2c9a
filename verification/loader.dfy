/** Load-time normalisation of the table: parse the recruitment date, drop
    the rows whose date is NaT, trim STATUS and fill blanks with a sentinel. */
module Loader {
  import opened Wrappers
  import opened Text
  import opened Dates
  import opened Records

  /** What STATUS holds after the load: never empty, never padded. */
  predicate IsCleanStatus(s: string)
  {
    s != [] && IsTrimmed(s)
  }

  /** `.str.strip().fillna(Unspecified)` then `'' -> Unspecified` on one cell. */
  function NormaliseStatus(raw: Option<string>): (s: string)
    ensures IsCleanStatus(s)
    ensures raw.None? ==> s == Unspecified
    ensures raw.Some? ==> s == (if Strip(raw.value) == "" then Unspecified else Strip(raw.value))
  {
    match raw
    case None => Unspecified
    case Some(text) =>
      var t := Strip(text);
      if t == "" then Unspecified else t
  }

  /** A raw row survives the load: its date parses. */
  predicate Kept(raw: RawRow)
  {
    raw.recruitment.Some? && ParseDmy(raw.recruitment.value).Some?
  }

  /** One raw row after the load: None when its date does not parse (the
      row is dropped), otherwise the row with its date and STATUS cleaned
      and every other cell unchanged. */
  function NormaliseRow(raw: RawRow): (r: Option<Record>)
    ensures r.Some? <==> Kept(raw)
    ensures r.Some? ==> Some(r.value.recruited) == ParseDmy(raw.recruitment.value)
    ensures r.Some? ==> r.value.status == NormaliseStatus(raw.status)
    ensures r.Some? ==> r.value.code == raw.code && r.value.title == raw.title &&
                        r.value.group == raw.group && r.value.uf == raw.uf &&
                        r.value.vagaStatus == raw.vagaStatus && r.value.daysOpen == raw.daysOpen &&
                        r.value.sla == raw.sla && r.value.motive == raw.motive
  {
    if raw.recruitment.None? then None
    else match ParseDmy(raw.recruitment.value)
      case None => None
      case Some(d) =>
        Some(Record(raw.code, raw.title, raw.group, raw.uf, raw.vagaStatus,
                    NormaliseStatus(raw.status), d, raw.daysOpen, raw.sla, raw.motive))
  }

  /** The loaded table, defined row by row over the raw rows in order. */
  function Load(raw: seq<RawRow>): seq<Record>
  {
    if raw == [] then []
    else
      var init := Load(raw[..|raw| - 1]);
      match NormaliseRow(raw[|raw| - 1])
      case None => init
      case Some(r) => init + [r]
  }

  /** Number of raw rows whose date parses. */
  function CountParsed(raw: seq<RawRow>): nat
  {
    if raw == [] then 0
    else CountParsed(raw[..|raw| - 1]) + (if Kept(raw[|raw| - 1]) then 1 else 0)
  }

  /** The load: the in-place `dropna` and the STATUS overwrite, done as one
      pass over the rows that builds the retained table. */
  method LoadTable(raw: seq<RawRow>) returns (table: seq<Record>)
    ensures table == Load(raw)
  {
    table := [];
    var i := 0;
    while i < |raw|
      invariant 0 <= i <= |raw|
      invariant table == Load(raw[..i])
    {
      assert raw[..i + 1][..i] == raw[..i];
      var row := NormaliseRow(raw[i]);
      if row.Some? {
        table := table + [row.value];
      }
      i := i + 1;
    }
    assert raw[..i] == raw;
  }

  /** Every retained row has a parsed, representable date and a clean STATUS. */
  lemma {:induction false} LoadedRowsWellFormed(raw: seq<RawRow>)
    ensures forall r :: r in Load(raw) ==> IsRepresentable(r.recruited) && IsCleanStatus(r.status)
  {
    if raw != [] {
      LoadedRowsWellFormed(raw[..|raw| - 1]);
    }
  }

  /** The last raw row contributes its normalised row, if any, at the end. */
  lemma LoadLast(raw: seq<RawRow>)
    requires raw != []
    ensures NormaliseRow(raw[|raw| - 1]).None? ==> Load(raw) == Load(raw[..|raw| - 1])
    ensures NormaliseRow(raw[|raw| - 1]).Some? ==>
              Load(raw) == Load(raw[..|raw| - 1]) + [NormaliseRow(raw[|raw| - 1]).value]
  {
  }

  /** Every loaded row comes from some raw row. */
  lemma {:induction false} LoadedFrom(raw: seq<RawRow>, r: Record) returns (i: nat)
    requires r in Load(raw)
    ensures i < |raw| && NormaliseRow(raw[i]) == Some(r)
  {
    var init := raw[..|raw| - 1];
    LoadLast(raw);
    if r in Load(init) {
      i := LoadedFrom(init, r);
      assert raw[i] == init[i];
    } else {
      i := |raw| - 1;
    }
  }

  /** Every raw row that normalises ends up in the loaded table. */
  lemma {:induction false} LoadsEveryKept(raw: seq<RawRow>, i: nat)
    requires i < |raw| && NormaliseRow(raw[i]).Some?
    ensures NormaliseRow(raw[i]).value in Load(raw)
  {
    var init := raw[..|raw| - 1];
    LoadLast(raw);
    if i < |init| {
      assert raw[i] == init[i];
      LoadsEveryKept(init, i);
    }
  }

  /** A row is in the loaded table exactly when some raw row normalises to it. */
  lemma LoadMembership(raw: seq<RawRow>, r: Record)
    ensures r in Load(raw) <==> exists i :: 0 <= i < |raw| && NormaliseRow(raw[i]) == Some(r)
  {
    if r in Load(raw) {
      var i := LoadedFrom(raw, r);
    }
    if exists i :: 0 <= i < |raw| && NormaliseRow(raw[i]) == Some(r) {
      var i :| 0 <= i < |raw| && NormaliseRow(raw[i]) == Some(r);
      LoadsEveryKept(raw, i);
    }
  }

  /** Exactly the rows whose date parses are kept. */
  lemma {:induction false} LoadKeepsParsedRows(raw: seq<RawRow>)
    ensures |Load(raw)| == CountParsed(raw) <= |raw|
  {
    if raw != [] {
      LoadKeepsParsedRows(raw[..|raw| - 1]);
      LoadStep(raw);
    }
  }

  /** The last raw row adds one row to the table exactly when it is kept. */
  lemma LoadStep(raw: seq<RawRow>)
    requires raw != []
    ensures |Load(raw)| == |Load(raw[..|raw| - 1])| + (if Kept(raw[|raw| - 1]) then 1 else 0)
  {
  }

  /** The table is as long as the file exactly when every date parses. */
  lemma NothingDroppedIffAllParse(raw: seq<RawRow>)
    ensures |Load(raw)| == |raw| <==> forall i :: 0 <= i < |raw| ==> Kept(raw[i])
  {
    LoadKeepsParsedRows(raw);
    FullCountIffAllParse(raw);
  }

  lemma {:induction false} FullCountIffAllParse(raw: seq<RawRow>)
    ensures CountParsed(raw) <= |raw|
    ensures CountParsed(raw) == |raw| <==> forall i :: 0 <= i < |raw| ==> Kept(raw[i])
  {
    if raw != [] {
      var init, last := raw[..|raw| - 1], raw[|raw| - 1];
      FullCountIffAllParse(init);
      if CountParsed(raw) == |raw| {
        assert Kept(last);
        forall i | 0 <= i < |raw| ensures Kept(raw[i]) {
          if i < |init| { assert raw[i] == init[i]; }
        }
      }
      if forall i :: 0 <= i < |raw| ==> Kept(raw[i]) {
        assert Kept(raw[|raw| - 1]);
        forall i | 0 <= i < |init| ensures Kept(init[i]) {
          assert raw[i] == init[i];
        }
      }
    }
  }

  /** Loading keeps the file's row order: the table of a concatenation is the
      concatenation of the tables. */
  lemma {:induction false} LoadAppend(a: seq<RawRow>, b: seq<RawRow>)
    ensures Load(a + b) == Load(a) + Load(b)
    decreases |b|
  {
    if b == [] {
      assert a + b == a;
    } else {
      var b' := b[..|b| - 1];
      assert (a + b)[..|a + b| - 1] == a + b';
      assert (a + b)[|a + b| - 1] == b[|b| - 1];
      LoadAppend(a, b');
    }
  }
}
