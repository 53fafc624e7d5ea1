/** The spreadsheet as the processor sees it after `pd.read_excel`: the
    set of column headers and the rows, each row mapping a column to the
    text of its cell. A cell is missing (NaN) when its column is absent
    from the row or from the table. Reading the workbook is not modelled. */
module Tables {
  import opened Wrappers

  const ClientColumn := "Numéro_client"
  const AddressColumn := "addresse_client"
  const ContractColumn := "Numéro_contrat"
  const InvoiceColumn := "Numéro_facture"
  const HtColumn := "montant_ht"
  const TvaColumn := "montant_tva"
  const DateColumn := "date"

  /** `InvoiceProcessor.required_columns`, in their declared order. */
  const RequiredColumns: seq<string> :=
    [ClientColumn, AddressColumn, ContractColumn, InvoiceColumn, HtColumn, TvaColumn]

  /** The amount columns, in the order validation checks them. */
  const NumericColumns: seq<string> := [HtColumn, TvaColumn]

  type Row = map<string, string>

  datatype Table = Table(columns: set<string>, rows: seq<Row>)

  /** The cell of `row` in column `col`; None stands for NaN. */
  function Cell(t: Table, row: Row, col: string): Option<string> {
    if col in t.columns && col in row then Some(row[col]) else None
  }
}
