# Invoice grouping, modelled in Dafny

The application reads an Excel sheet of invoice lines. Each line has a client number, an address, a contract number, an invoice number and the HT and TVA amounts. The application checks the sheet's structure and cleans the rows. It builds one `Invoice` per usable row and groups the invoices by client into `Client` records with totals. It then offers one statement per client for download.

This project models that batch transform and the pure helpers around it, and proves what the code promises.

- **Records** (`Models`). `Invoice`, `Client` and `Company` are datatypes. `DefaultCompany` holds the dataclass defaults. Amounts are integer cents, because every amount the processor produces has been quantized to two decimals.
- **Structure check** (`Validation`). `validate_excel_structure` checks three things in order: the six required columns, then non-emptiness, then that `montant_ht` and then `montant_tva` are numeric. The table is a set of column names plus rows of optional cells. Numeric coercion (`pd.to_numeric`) is a predicate parameter.
- **Amount cleaning** (`Amounts`). `clean_decimal` works as follows:
  - A missing cell gives 0.
  - Otherwise the text is stripped and every `,` becomes `.`.
  - The result is parsed as `sign? digits ('.' digits)?` and quantized to cents with ROUND_HALF_UP, where ties go away from zero.
  - Anything that does not parse gives 0. So does a value whose quantized coefficient exceeds the default 28-digit context precision, where `quantize` raises `InvalidOperation`.
- **Row normalisation** (`Normalise`). This covers the dropping and cleaning inside `process_excel_file`, and the loop that appends one `Invoice` per kept row.
- **Grouping** (`Grouping`). `group_by_client` is a method. It fills a map of lists in one loop over the invoices and appends one client per map entry, in insertion order, in a second loop. It then sorts the clients by `number.lower()`. The method is proved equal to a functional reference, `GroupByClientSpec`. The reference in turn is proved to do four things:
  - partition its input;
  - keep each group in input order;
  - compute exact totals;
  - order clients strictly by sort key.
- **Processing and summary** (`Processor`). This covers `process_excel_file` end to end with its three outcomes, and `get_summary_dataframe` as a loop over the clients.
- **Page helpers** (`Utils`). These are:
  - `validate_upload`;
  - the per-client PDF file name;
  - `format_currency`;
  - the one-vs-many rule of `create_download_button`;
  - the entry names of `create_zip_archive`.

A comma is taken as a decimal comma only. One might expect `"1,234.5"` to be read as 1234.50. Instead the code replaces the comma by a dot, which gives `"1.234.5"`. That text does not parse, so the code yields 0.00. The model follows the code (`Amounts.ThousandsSeparatorDegradesToZero`); `"1234,50"` is read as 1234.50 (`Amounts.DecimalCommaAccepted`). Both examples are about `clean_decimal` on its own. In the full pipeline such a text cell reaches it only if the `numeric` predicate, which stands for `pd.to_numeric`, accepted its column.

## Model

| member | source | states |
|---|---|---|
| Models.DefaultCompanyFields | models.py:29-35 | the default company is "SRM-SM", with its Agadir address, the phone number "05 28 82 96 00 " with its trailing space, the contact e-mail and the logo path "assets/logo.jpg" |
| Models.SumTtcOfConsistent | models.py:5-15 | over invoices with TTC = HT + TVA, the TTC sum equals the HT sum plus the TVA sum |
| Models.SumByPermutation | invoice_processor.py:125-126 | a sum of amounts does not depend on the order of the invoices |
| Models.InvoiceDoesNotEnforceTtc | models.py:5-15 | the `Invoice` record admits a value whose TTC is not HT + TVA, so the invariant comes only from the processor |
| Models.ClientDoesNotEnforceInvariants | models.py:18-26 | the `Client` record admits an empty invoice list with TTC different from HT + TVA |
| Text.StripSpec | invoice_processor.py:47 | `strip()` leaves no whitespace at either end and removes only whitespace, at the two ends |
| Text.ReplaceChar | invoice_processor.py:50 | `replace` keeps the length, puts the new character wherever the old one was, and keeps every other character in place |
| Text.ReplaceCharRemoves | invoice_processor.py:50 | after replacing a character by a different one, none of it is left |
| Text.ReplaceCharAbsent | invoice_processor.py:50 | replacing a character that does not occur changes nothing, so comma-free text such as `:.2f` output is left as it is |
| Text.Join | invoice_processor.py:22 | joining no part gives "", one part gives that part, and a non-empty join starts with its first part; with `JoinSnoc` this fixes every join |
| Text.JoinSnoc | invoice_processor.py:22 | joining one more part appends the separator and that part |
| Text.NatToString | invoice_processor.py:101 | `str(n)` is a non-empty string of decimal digits, without a leading zero, that denotes `n` |
| Text.Lower | invoice_processor.py:112 | `lower()` keeps the length, turns each capital A-Z into its small letter, keeps every other character, and leaves no capital |
| Text.LowerIdempotent | invoice_processor.py:112 | lower-casing an already lower-cased key changes nothing |
| Text.LeIsLexicographic | invoice_processor.py:140 | string `<=` holds iff the first string is a prefix of the second, or has the smaller character at the first position where they differ |
| Text.LeTotal | invoice_processor.py:140 | any two sort keys are comparable |
| Text.LeAntisymmetric | invoice_processor.py:140 | two keys each `<=` the other are equal |
| Text.LeTransitive | invoice_processor.py:140 | `<=` on sort keys is transitive |
| Validation.MissingFrom | invoice_processor.py:20 | the missing columns are exactly the listed ones absent from the table, kept in the listed order |
| Validation.Validate | invoice_processor.py:16-36 | columns are missing iff a required one is absent, and the report names exactly the absent ones in declared order; the table is reported empty iff all columns are present and there are no rows; `montant_ht` is checked before `montant_tva`, and the first non-numeric one is named; the sheet is valid iff none of these applies |
| Validation.Message | invoice_processor.py:21-36 | the message is "Structure valide" iff the structure is valid |
| Validation.ValidateExcelStructure | invoice_processor.py:16-36 | the flag is true iff all six columns are present, there is a row, and both amount columns are numeric. Missing columns give "Colonnes manquantes : " and the missing names joined by ", " in declared order; an empty sheet gives "Le fichier Excel est vide"; a non-numeric `montant_ht`, and otherwise a non-numeric `montant_tva`, gives that column's message. The message is "Structure valide" iff the flag is true |
| Validation.EmptyColumnlessTableReportsMissingColumns | invoice_processor.py:11-26 | a table with no columns and no rows reports all six required columns missing, in declared order, rather than emptiness |
| Validation.EmptyTableWithColumnsReportsEmpty | invoice_processor.py:24-26 | a table with every required column and no row fails with "Le fichier Excel est vide" |
| Amounts.ParseDecimal | invoice_processor.py:53 | a parsed literal is well formed, and its text is the input |
| Amounts.ParseRender | invoice_processor.py:53 | every well-formed literal parses back from its text, so parsing and rendering are inverse |
| Amounts.RoundHalfUpCorrect | invoice_processor.py:53 | the rounding quotient is the nearest integer to n/d, with ties going up |
| Amounts.Quantize | invoice_processor.py:53 | quantizing succeeds iff the rounded cent coefficient fits the 28-digit precision |
| Amounts.QuantizeRounds | invoice_processor.py:53 | a successful quantize gives the literal's value in cents, rounded half away from zero |
| Amounts.CleanTextHasNoComma | invoice_processor.py:47-50 | no comma is left in the text handed to `Decimal` |
| Amounts.CleanDecimal | invoice_processor.py:41-55 | a missing cell gives 0, and a cell whose cleaned text is not a decimal literal gives 0 |
| Amounts.CleanDecimalRounds | invoice_processor.py:47-53 | a cell whose stripped, comma-to-dot text is a literal within precision gives that literal rounded half away from zero to cents, and a literal beyond precision gives 0 |
| Amounts.FormatCents | invoice_processor.py:151-153 | `:.2f` gives a dot followed by exactly two digits, with a leading minus iff the amount is negative |
| Amounts.CleanFormatRoundTrip | invoice_processor.py:41-55 | `clean_decimal` of the two-decimal text of an amount within precision is that amount |
| Amounts.ThousandsSeparatorDegradesToZero | invoice_processor.py:47-55 | "1,234.5" becomes "1.234.5", which does not parse, so it is cleaned to 0 |
| Amounts.DecimalCommaAccepted | invoice_processor.py:47-53 | " 1234,50 " is cleaned to 1234.50 |
| Amounts.HalfUpRoundsPositiveTieUp | invoice_processor.py:53 | 2.675 is rounded to 2.68 |
| Amounts.HalfUpRoundsNegativeTieDown | invoice_processor.py:53 | -2.675 is rounded to -2.68, away from zero |
| Normalise.KeptRows | invoice_processor.py:69 | `dropna` keeps exactly the rows with a client, invoice and contract number, and never adds rows |
| Normalise.KeptRowsAppend | invoice_processor.py:69 | each row is kept or dropped on its own: dropping distributes over concatenation |
| Normalise.CleanRowOf | invoice_processor.py:70-93 | the client, invoice and contract numbers, and a present address, are exactly their cells with the surrounding whitespace removed; a missing address becomes "". HT and TVA are `clean_decimal` of their cells, TTC = HT + TVA, and the date is the row's `date` cell when that column exists, and "" otherwise |
| Normalise.CleanTable | invoice_processor.py:69-80 | one cleaned row per kept row, each with TTC = HT + TVA |
| Normalise.NormaliseSound | invoice_processor.py:69-96 | there is one invoice per kept row, and invoice i is built from the cleaned i-th kept row, which is an input row with client, invoice and contract numbers. Each invoice is consistent and has trimmed text fields |
| Normalise.NormaliseEmpty | invoice_processor.py:69-96 | no invoice is built iff every row lacks a client, invoice or contract number |
| Normalise.BuildInvoices | invoice_processor.py:83-96 | the loop appends one invoice per cleaned row, in order, and each is consistent when its row is |
| Grouping.GroupMembers | invoice_processor.py:111-115 | a group holds exactly the invoices whose lower-cased, stripped client number is its key |
| Grouping.GroupAppend | invoice_processor.py:111-115 | groups keep input order: the group of a concatenation is the first part's group followed by the second's |
| Grouping.FirstKeysSpec | invoice_processor.py:111-114 | the map's keys, in insertion order, are distinct and are exactly the keys of the invoices |
| Grouping.MakeClient | invoice_processor.py:119-136 | a client built from a non-empty group holds that group as its invoices. Its number and address come from the first invoice, HT and TVA are the sums over its invoices, and TTC = HT + TVA |
| Grouping.ClientsFor | invoice_processor.py:118-137 | one client per key, in key order, each built from that key's group |
| Grouping.InsertSorted | invoice_processor.py:140 | inserting into a sorted list keeps it sorted |
| Grouping.SortBy | invoice_processor.py:140 | the sort's output is ordered by the key and is a permutation of its input |
| Grouping.GroupByClientSpecIsClientList | invoice_processor.py:106-142 | the reference grouping meets three conditions. Clients have strictly increasing `number.lower()`. Each client is built from the whole group of its own key. Every invoice's key has a client |
| Grouping.ClientListWellFormed | invoice_processor.py:121-127 | in a client list every client is consistent and no two share a key |
| Grouping.ClientListPartition | invoice_processor.py:108-115 | the clients' invoices are a rearrangement of the input: every invoice lands in exactly one client, and the count is preserved |
| Grouping.ClientListTotals | invoice_processor.py:125-127 | the clients' HT, TVA and TTC totals add up to the HT sum, the TVA sum and their sum over all invoices |
| Grouping.GroupByClient | invoice_processor.py:106-142 | the two loops over a map and the final sort compute exactly the reference grouping, and so a client list |
| Processor.SuccessMessage | invoice_processor.py:101 | the success message is "Traitement réussi : ", then the decimal digits of the client count, then " clients trouvés" |
| Processor.SuccessMessageInjective | invoice_processor.py:101 | different client counts give different messages |
| Processor.ProcessExcelFile | invoice_processor.py:57-104 | a read error gives failure, no client and the error message. Otherwise success holds iff validation passes; on failure there is no client and the validation message is returned. On success the clients are the grouping of the normalised rows and the message gives their count |
| Processor.ProcessingAccountsForEveryRow | invoice_processor.py:69-101 | the clients' invoices are a rearrangement of the built invoices, one per kept row. Every client and every invoice is consistent, and the grand HT, TVA and TTC totals are the sums over the rows |
| Processor.AllRowsDroppedGivesNoClients | invoice_processor.py:64-69 | a valid sheet whose rows are all dropped gives zero clients, and the success message reads "Traitement réussi : 0 clients trouvés" |
| Processor.GetSummary | invoice_processor.py:144-156 | the loop appends one summary row per client, in order |
| Processor.SummaryFaithful | invoice_processor.py:147-154 | summary row i shows client i's number and invoice count, and its three totals as two-decimal text that cleans back to the same amounts |
| Utils.LastSegment | utils.py:77 | the last segment has no dot, ends the name, and is either the whole name or preceded by a dot |
| Utils.ValidateUpload | utils.py:70-73 | a missing upload (`None`) is refused |
| Utils.ValidateUploadIff | utils.py:75-79 | a name is accepted iff, lower-cased, it ends with ".xlsx" or ".xls" or is "xlsx" or "xls" |
| Utils.UpperCaseExtensionAccepted | utils.py:77-79 | "A.XLSX" is accepted: the check ignores case |
| Utils.OnlyLastSegmentCounts | utils.py:77-79 | "a.xlsx.zip" is refused: only the last segment counts |
| Utils.DotlessExtensionNameAccepted | utils.py:77-79 | a name with no dot is judged whole, so "xls" is accepted |
| Utils.FileName | utils.py:34 | the file name is "facture_globale_", then the number with every space made "_", then ".pdf" |
| Utils.FileNameInjective | utils.py:34 | numbers without spaces get distinct file names |
| Utils.SpaceAndUnderscoreCollide | utils.py:34 | "A B" and "A_B" get the same file name |
| Utils.FormatCurrency | utils.py:66-68 | the text ends with a dot, two digits and one space |
| Utils.FormatCurrencyRoundTrip | utils.py:66-68 | `clean_decimal` reads a formatted amount within precision back as itself |
| Utils.ClientAttribute | models.py:18-26 | a `Client` has the text attributes `number`, `address`, `__doc__` (the class docstring) and `__module__` ("models"); any other name it neither declares nor inherits, such as `name`, fails with the `AttributeError` message naming it |
| Utils.SingleClientOfferFails | utils.py:10-18 | with exactly one client the code as written fails on `client.name` instead of offering a document |
| Utils.OfferAsWritten | utils.py:10-61 | the page as written fails to render iff there is exactly one client. Otherwise it shows per-client downloads, and pressing the zip button fails unless there is no client at all, because `create_zip_archive` reads `client.name` |
| Utils.Offer | utils.py:10-61 | with the number in place of `name`, one client gets a single document named after its number. Any other count gets one download per client, in list order, named after that client's number and keyed "download_i", and a zip "factures_globales.zip" whose entries are the per-client file names |
| Utils.OfferAgreesAsWritten | utils.py:10-61 | wherever the page as written renders, its individual downloads are the corrected ones; the two agree entirely only with no client, and with two or more the written zip fails where the corrected one is built |
| Utils.ArchiveFailsForAnyClient | utils.py:57-61 | the zip archive as written fails on `client.name` for any non-empty client list |
| Utils.ArchiveMatchesDownloads | utils.py:29-61 | with the number in place of `name`, the zip has one entry per client, named like that client's individual download |

## Left out

- Reading the workbook (`pd.read_excel`, openpyxl) is not modelled. `Processor.ProcessExcelFile` receives its result: a table, or the error it raised.
- The broad `except Exception` around processing is modelled only for the read error. Nothing else in the model can raise.
- The `except Exception` branch of `validate_excel_structure` is not modelled. Nothing in the modelled check can raise.
- `pd.to_numeric` is the `numeric` predicate parameter. `pd.isna` is the `None` of an optional cell.
- `astype(str)` of non-text cells is not modelled; cells are taken as text. This matters for numbers read as floats, such as `1001.0`.
- A NaN in an existing `date` column is modelled as `None`.
- `str.strip` and `str.lower` are modelled on ASCII only. Unicode whitespace and non-ASCII case mapping are not.
- `Amounts.ParseDecimal` does not cover Python's full `Decimal` grammar. Exponents, `NaN`, `Infinity`, underscores and surrounding-whitespace rules beyond `strip()` are left out.
- Amounts.CleanDecimal does not model negative zero: `-0.001` becomes 0 here, where Python keeps `-0.00`.
- Sums of cents are exact. Python's `sum` over `Decimal` is too, below the 28-digit precision; larger sums are not modelled.
- `Processor.SummaryFaithful` and `Utils.FormatCurrencyRoundTrip` are limited to amounts below 10^28 cents. The restriction comes from that precision.
- Grouping.SortBy: Python's stable Timsort is represented by an insertion sort. The `clients.sort` call sorts in place; the model computes the sorted list as a value. Sort keys are distinct, so any correct sort gives the same list.
- Utils.ClientAttribute: only text-valued attributes are modelled. Its precondition excludes `invoices`, the three totals, and every special `__x__` name other than `__doc__` and `__module__`. Those other special names either hold no text or are absent. Their values are methods, dictionaries, tuples, `None` (`__hash__`, `__weakref__`), the class itself (`__class__`) or other objects (`__dataclass_params__`).
- The PDF itself (pdf_generator.py), the zip bytes, `BytesIO`, the Streamlit widgets and labels, and `show_sample_format` are I/O and presentation. main.py is not part of this model.

## Findings

| source | as written | input that shows it | evidently intended | confidence | as-written member | corrected member |
|---|---|---|---|---|---|---|
| utils.py:16-18 | the single-client download reads `client.name` for its label and file name | any list of exactly one client | use `client.number`, as the multi-client branch at utils.py:32-34 does | not executed | Utils.SingleClientOfferFails | Utils.Offer |
| utils.py:60 | the zip entry name reads `client.name` | any non-empty list of clients | use `client.number`, matching the individual downloads | not executed | Utils.ArchiveFailsForAnyClient | Utils.ArchiveMatchesDownloads |
