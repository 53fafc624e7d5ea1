/** The middle of `InvoiceProcessor.process_excel_file`: rows missing a
    client, invoice or contract number are dropped, text fields are
    stripped, a missing address becomes "", both amounts go through
    `clean_decimal`, TTC is HT + TVA, and one `Invoice` is appended per
    remaining row. The column-wise pandas assignments are applied row by
    row, which gives the same invoices. */
module Normalise {
  import opened Wrappers
  import opened Text
  import opened Tables
  import opened Models
  import opened Amounts

  /** `dropna(subset=[client, invoice, contract])` keeps the row. */
  predicate Kept(t: Table, row: Row) {
    && Cell(t, row, ClientColumn).Some?
    && Cell(t, row, InvoiceColumn).Some?
    && Cell(t, row, ContractColumn).Some?
  }

  /** `row.get('date', '')`: the date cell when the column exists, else "". */
  function DateOf(t: Table, row: Row): Option<string> {
    if DateColumn in t.columns then Cell(t, row, DateColumn) else Some("")
  }

  /** One row of the data frame after the column-wise cleaning: text
      columns stripped, the address defaulted to "", both amounts cleaned
      and `montant_ttc` added. */
  datatype CleanRow = CleanRow(
    client: string,
    address: string,
    invoice: string,
    contract: string,
    ht: int,
    tva: int,
    ttc: int,
    date: Option<string>)

  function CleanRowOf(t: Table, row: Row): (r: CleanRow)
    requires Kept(t, row)
    ensures exists a :: StripsAt(Cell(t, row, ClientColumn).value, r.client, a)
    ensures exists a :: StripsAt(Cell(t, row, InvoiceColumn).value, r.invoice, a)
    ensures exists a :: StripsAt(Cell(t, row, ContractColumn).value, r.contract, a)
    ensures Cell(t, row, AddressColumn).Some? ==>
              exists a :: StripsAt(Cell(t, row, AddressColumn).value, r.address, a)
    ensures Cell(t, row, AddressColumn).None? ==> r.address == ""
    ensures Trimmed(r.invoice) && Trimmed(r.client) && Trimmed(r.contract) && Trimmed(r.address)
    ensures r.ht == CleanDecimal(Cell(t, row, HtColumn)) && r.tva == CleanDecimal(Cell(t, row, TvaColumn))
    ensures r.ttc == r.ht + r.tva
    ensures r.date == DateOf(t, row)
  {
    var ht := CleanDecimal(Cell(t, row, HtColumn));
    var tva := CleanDecimal(Cell(t, row, TvaColumn));
    var address := if AddressColumn in t.columns && AddressColumn in row then Strip(row[AddressColumn]) else "";
    StripSpec(row[ClientColumn]);
    StripSpec(row[InvoiceColumn]);
    StripSpec(row[ContractColumn]);
    assert Cell(t, row, AddressColumn).Some? ==>
             (StripSpec(row[AddressColumn]);
              Trimmed(address) && exists a :: StripsAt(row[AddressColumn], address, a));
    CleanRow(Strip(row[ClientColumn]), address, Strip(row[InvoiceColumn]), Strip(row[ContractColumn]),
             ht, tva, ht + tva, DateOf(t, row))
  }

  /** The `Invoice(...)` call in the loop body. */
  function InvoiceFrom(r: CleanRow): Invoice {
    Invoice(r.invoice, r.client, r.address, r.contract, r.ht, r.tva, r.ttc, r.date)
  }

  /** `df.dropna(subset=[client, invoice, contract])`: the kept rows in order. */
  function KeptRows(t: Table, rows: seq<Row>): (r: seq<Row>)
    ensures forall row :: row in r ==> row in rows && Kept(t, row)
    ensures forall row :: row in rows && Kept(t, row) ==> row in r
    ensures |r| <= |rows|
  {
    if rows == [] then []
    else
      var last := rows[|rows| - 1];
      var init := rows[..|rows| - 1];
      assert forall row :: row in init ==> row in rows;
      assert forall row :: row in rows ==> row in init || row == last;
      KeptRows(t, init) + (if Kept(t, last) then [last] else [])
  }

  /** Dropping distributes over concatenation of row lists: every row is
      judged on its own. */
  lemma {:induction false} KeptRowsAppend(t: Table, a: seq<Row>, b: seq<Row>)
    ensures KeptRows(t, a + b) == KeptRows(t, a) + KeptRows(t, b)
  {
    if b == [] {
      assert a + b == a;
    } else {
      assert (a + b)[..|a + b| - 1] == a + b[..|b| - 1];
      KeptRowsAppend(t, a, b[..|b| - 1]);
    }
  }

  /** The data frame once dropped and cleaned (invoice_processor.py:69-80). */
  function CleanTable(t: Table): (df: seq<CleanRow>)
    ensures |df| == |KeptRows(t, t.rows)|
    ensures forall i :: 0 <= i < |df| ==> df[i].ttc == df[i].ht + df[i].tva
  {
    var kept := KeptRows(t, t.rows);
    seq(|kept|, i requires 0 <= i < |kept| => CleanRowOf(t, kept[i]))
  }

  /** The invoices built from a cleaned frame, one per row, in order. */
  function InvoicesFrom(df: seq<CleanRow>): seq<Invoice> {
    seq(|df|, i requires 0 <= i < |df| => InvoiceFrom(df[i]))
  }

  /** The invoices built from the table. */
  function InvoicesOf(t: Table): seq<Invoice> {
    InvoicesFrom(CleanTable(t))
  }

  /** The i-th invoice is built from the i-th kept row of the input, and
      every invoice is consistent and has trimmed text fields. */
  lemma NormaliseSound(t: Table)
    ensures |InvoicesOf(t)| == |KeptRows(t, t.rows)| <= |t.rows|
    ensures forall i :: 0 <= i < |InvoicesOf(t)| ==>
              KeptRows(t, t.rows)[i] in t.rows && Kept(t, KeptRows(t, t.rows)[i]) &&
              InvoicesOf(t)[i] == InvoiceFrom(CleanRowOf(t, KeptRows(t, t.rows)[i]))
    ensures forall inv :: inv in InvoicesOf(t) ==>
              && ConsistentInvoice(inv)
              && Trimmed(inv.clientNumber) && Trimmed(inv.invoiceNumber)
              && Trimmed(inv.contractNumber) && Trimmed(inv.clientAddress)
  {
    var kept := KeptRows(t, t.rows);
    var df := CleanTable(t);
    forall i | 0 <= i < |df|
      ensures kept[i] in t.rows && Kept(t, kept[i]) && InvoicesOf(t)[i] == InvoiceFrom(CleanRowOf(t, kept[i]))
    {
      assert kept[i] in kept;
    }
    forall inv | inv in InvoicesOf(t)
      ensures && ConsistentInvoice(inv)
              && Trimmed(inv.clientNumber) && Trimmed(inv.invoiceNumber)
              && Trimmed(inv.contractNumber) && Trimmed(inv.clientAddress)
    {
      var i :| 0 <= i < |df| && inv == InvoicesOf(t)[i];
      InvoiceOfKeptRow(t, kept[i]);
    }
  }

  lemma InvoiceOfKeptRow(t: Table, row: Row)
    requires Kept(t, row)
    ensures var inv := InvoiceFrom(CleanRowOf(t, row));
            && ConsistentInvoice(inv)
            && Trimmed(inv.clientNumber) && Trimmed(inv.invoiceNumber)
            && Trimmed(inv.contractNumber) && Trimmed(inv.clientAddress)
  {
  }

  /** No invoice is built exactly when every row is dropped. */
  lemma NormaliseEmpty(t: Table)
    ensures InvoicesOf(t) == [] <==> forall row :: row in t.rows ==> !Kept(t, row)
  {
    var kept := KeptRows(t, t.rows);
    if kept != [] {
      assert kept[0] in kept;
    }
  }

  /** The loop over the cleaned frame:
      `for _, row in df.iterrows(): invoices.append(Invoice(...))`. */
  method BuildInvoices(df: seq<CleanRow>) returns (invoices: seq<Invoice>)
    ensures invoices == InvoicesFrom(df)
    ensures forall i :: 0 <= i < |df| && df[i].ttc == df[i].ht + df[i].tva ==> ConsistentInvoice(invoices[i])
  {
    invoices := [];
    var i := 0;
    while i < |df|
      invariant 0 <= i <= |df|
      invariant |invoices| == i
      invariant forall j :: 0 <= j < i ==> invoices[j] == InvoiceFrom(df[j])
    {
      invoices := invoices + [InvoiceFrom(df[i])];
      i := i + 1;
    }
  }
}
