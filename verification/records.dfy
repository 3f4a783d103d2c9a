/** The requisition table: one typed record per row of `dados.csv`, before
    and after the load-time normalisation. Missing cells (pandas NaN) are
    `None`. */
module Records {
  import opened Wrappers
  import opened Dates

  /** A row as the CSV reader hands it over; column names in comments. */
  datatype RawRow = RawRow(
    code: string,                   // Código da Vaga, rendered by astype(str)
    title: string,                  // Título do Cargo
    group: Option<string>,          // Grupo Econômico
    uf: Option<string>,             // UF da OI
    vagaStatus: Option<string>,     // Status da Vaga (lifecycle status)
    status: Option<string>,         // STATUS (internal status, free text)
    recruitment: Option<string>,    // Recrutamento e Seleção, as DD/MM/YYYY text
    daysOpen: Option<real>,         // Dias em Aberto
    sla: Option<string>,            // Situação Vagas
    motive: Option<string>)         // Descrição do Motivo

  /** A row of the loaded table: the date is parsed, STATUS is cleaned. */
  datatype Record = Record(
    code: string,
    title: string,
    group: Option<string>,
    uf: Option<string>,
    vagaStatus: Option<string>,
    status: string,
    recruited: Date,
    daysOpen: Option<real>,
    sla: Option<string>,
    motive: Option<string>)

  /** The two dashboard tabs differ only in the status column they use. */
  datatype StatusColumn = LifecycleStatus | InternalStatus

  function StatusOf(r: Record, col: StatusColumn): Option<string>
  {
    match col
    case LifecycleStatus => r.vagaStatus
    case InternalStatus => Some(r.status)
  }

  /** The active status column of a table, cell by cell. */
  function StatusCells(rows: seq<Record>, col: StatusColumn): (cells: seq<Option<string>>)
    ensures |cells| == |rows| && forall i :: 0 <= i < |rows| ==> cells[i] == StatusOf(rows[i], col)
  {
    seq(|rows|, i requires 0 <= i < |rows| => StatusOf(rows[i], col))
  }

  /** The Descrição do Motivo column of a table, cell by cell. */
  function MotiveCells(rows: seq<Record>): (cells: seq<Option<string>>)
    ensures |cells| == |rows| && forall i :: 0 <= i < |rows| ==> cells[i] == rows[i].motive
  {
    seq(|rows|, i requires 0 <= i < |rows| => rows[i].motive)
  }

  /** The Dias em Aberto column of a table, cell by cell. */
  function DaysCells(rows: seq<Record>): (cells: seq<Option<real>>)
    ensures |cells| == |rows| && forall i :: 0 <= i < |rows| ==> cells[i] == rows[i].daysOpen
  {
    seq(|rows|, i requires 0 <= i < |rows| => rows[i].daysOpen)
  }

  /** Value written into blank or missing STATUS cells. */
  const Unspecified := "Não especificado"
  /** Situação Vagas value of a requisition that breached its SLA. */
  const BreachMarker := "Fora do SLA"
  /** Status da Vaga value of a filled requisition. */
  const FilledStatus := "Finalizado - Vaga Preenchida"
}
