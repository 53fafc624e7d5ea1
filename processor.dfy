/** `InvoiceProcessor.process_excel_file` and `get_summary_dataframe`.
    Reading the workbook is outside the model: the method receives what
    `pd.read_excel` produced, a table or the error it raised. */
module Processor {
  import opened Wrappers
  import opened Text
  import opened Models
  import opened Tables
  import opened Validation
  import opened Normalise
  import opened Grouping
  import opened Amounts

  /** f"Traitement réussi : {len(clients)} clients trouvés": the fixed
      prefix and suffix around the decimal digits of the count. */
  function SuccessMessage(n: nat): (m: string)
    ensures |m| > 36 && m[..20] == "Traitement réussi : " && m[|m| - 16..] == " clients trouvés"
    ensures AllDigits(m[20..|m| - 16]) && DigitsValue(m[20..|m| - 16]) == n
  {
    var digits := NatToString(n);
    var m := "Traitement réussi : " + digits + " clients trouvés";
    assert m[20..|m| - 16] == digits;
    m
  }

  /** The count can be read back from the message: different counts give
      different messages. */
  lemma SuccessMessageInjective(a: nat, b: nat)
    requires SuccessMessage(a) == SuccessMessage(b)
    ensures a == b
  {
  }

  /** f"Erreur lors du traitement : {str(e)}" */
  function ErrorMessage(e: string): string {
    "Erreur lors du traitement : " + e
  }

  function ProcessedClients(t: Table): seq<Client> {
    GroupByClientSpec(InvoicesOf(t))
  }

  /** `process_excel_file`: validate, then normalise the rows, build one
      invoice per kept row and group them by client. */
  method ProcessExcelFile(read: Result<Table>, numeric: string -> bool)
    returns (ok: bool, clients: seq<Client>, message: string)
    ensures read.Failure? ==> !ok && clients == [] && message == ErrorMessage(read.error)
    ensures read.Success? ==> (ok <==> Validate(read.value, numeric) == Valid)
    ensures read.Success? && !ok ==> clients == [] && message == Message(Validate(read.value, numeric))
    ensures ok ==> read.Success? && clients == ProcessedClients(read.value)
    ensures ok ==> IsClientList(InvoicesOf(read.value), clients)
    ensures ok ==> message == SuccessMessage(|clients|)
  {
    if read.Failure? {
      return false, [], ErrorMessage(read.error);
    }
    var t := read.value;
    var check := ValidateExcelStructure(t, numeric);
    if !check.0 {
      return false, [], check.1;
    }
    var df := CleanTable(t);
    var invoices := BuildInvoices(df);
    clients := GroupByClient(invoices);
    ok := true;
    message := SuccessMessage(|clients|);
  }

  /** Everything that is processed is accounted for: the clients' invoices
      are exactly the invoices of the kept rows, every client and every
      invoice is consistent, and the grand totals are the sums over the
      rows. */
  lemma ProcessingAccountsForEveryRow(t: Table)
    ensures multiset(Flatten(ProcessedClients(t))) == multiset(InvoicesOf(t))
    ensures |Flatten(ProcessedClients(t))| == |KeptRows(t, t.rows)|
    ensures forall c :: c in ProcessedClients(t) ==> ConsistentClient(c)
    ensures forall inv :: inv in Flatten(ProcessedClients(t)) ==> ConsistentInvoice(inv)
    ensures SumClients(ProcessedClients(t), TotalHt) == SumBy(InvoicesOf(t), AmountHt)
    ensures SumClients(ProcessedClients(t), TotalTva) == SumBy(InvoicesOf(t), AmountTva)
    ensures SumClients(ProcessedClients(t), TotalTtc) == SumBy(InvoicesOf(t), AmountTtc)
  {
    var s := InvoicesOf(t);
    var r := ProcessedClients(t);
    GroupByClientSpecIsClientList(s);
    ClientListWellFormed(s, r);
    ClientListPartition(s, r);
    ClientListTotals(s, r);
    NormaliseSound(t);
    forall inv | inv in Flatten(r) ensures ConsistentInvoice(inv) {
      assert inv in multiset(s);
    }
    SumTtcOfConsistent(s);
  }

  /** Validation looks at the rows before any is dropped, so a valid file
      whose rows all lack a client, invoice or contract number is processed
      successfully into no client at all. */
  lemma AllRowsDroppedGivesNoClients(t: Table, numeric: string -> bool)
    requires Validate(t, numeric) == Valid
    requires forall row :: row in t.rows ==> !Kept(t, row)
    ensures ProcessedClients(t) == []
    ensures SuccessMessage(|ProcessedClients(t)|) == "Traitement réussi : " + "0" + " clients trouvés"
  {
    NormaliseEmpty(t);
    var s := InvoicesOf(t);
    assert FirstKeys(s) == [];
    ZeroClientsMessage();
  }

  lemma ZeroClientsMessage()
    ensures SuccessMessage(0) == "Traitement réussi : " + "0" + " clients trouvés"
  {
    assert NatToString(0) == "0";
  }

  /** One row of the summary table. */
  datatype SummaryRow = SummaryRow(
    client: string,
    invoiceCount: nat,
    totalHt: string,
    totalTva: string,
    totalTtc: string)

  function SummaryRowOf(c: Client): SummaryRow {
    SummaryRow(c.number, |c.invoices|, FormatCents(c.totalHt), FormatCents(c.totalTva), FormatCents(c.totalTtc))
  }

  function Summary(clients: seq<Client>): seq<SummaryRow> {
    seq(|clients|, i requires 0 <= i < |clients| => SummaryRowOf(clients[i]))
  }

  /** `get_summary_dataframe`: one row appended per client. */
  method GetSummary(clients: seq<Client>) returns (data: seq<SummaryRow>)
    ensures data == Summary(clients)
  {
    data := [];
    var i := 0;
    while i < |clients|
      invariant 0 <= i <= |clients|
      invariant data == Summary(clients[..i])
    {
      assert Summary(clients[..i + 1]) == Summary(clients[..i]) + [SummaryRowOf(clients[i])];
      data := data + [SummaryRowOf(clients[i])];
      i := i + 1;
    }
    assert clients[..i] == clients;
  }

  /** The summary shows each client once, in order, with its invoice
      count, and its totals as two-decimal strings that `clean_decimal`
      reads back as the same amounts. */
  lemma SummaryFaithful(clients: seq<Client>, i: nat)
    requires i < |clients|
    requires Abs(clients[i].totalHt) < Pow10(Precision)
    requires Abs(clients[i].totalTva) < Pow10(Precision)
    requires Abs(clients[i].totalTtc) < Pow10(Precision)
    ensures |Summary(clients)| == |clients|
    ensures Summary(clients)[i].client == clients[i].number
    ensures Summary(clients)[i].invoiceCount == |clients[i].invoices|
    ensures CleanDecimal(Some(Summary(clients)[i].totalHt)) == clients[i].totalHt
    ensures CleanDecimal(Some(Summary(clients)[i].totalTva)) == clients[i].totalTva
    ensures CleanDecimal(Some(Summary(clients)[i].totalTtc)) == clients[i].totalTtc
  {
    CleanFormatRoundTrip(clients[i].totalHt);
    CleanFormatRoundTrip(clients[i].totalTva);
    CleanFormatRoundTrip(clients[i].totalTtc);
  }
}
