/** `InvoiceProcessor.validate_excel_structure`: required columns first,
    then emptiness, then the two amount columns in order. */
module Validation {
  import opened Text
  import opened Tables

  datatype Outcome =
    | Valid
    | MissingColumns(names: seq<string>)
    | EmptyTable
    | NonNumeric(column: string)

  /** `a` is `b` with some elements left out, the rest in `b`'s order. */
  predicate IsSubsequence(a: seq<string>, b: seq<string>) {
    if a == [] then true
    else if b == [] then false
    else if a[0] == b[0] then IsSubsequence(a[1..], b[1..])
    else IsSubsequence(a, b[1..])
  }

  /** The list comprehension `[col for col in cols if col not in present]`. */
  function MissingFrom(cols: seq<string>, present: set<string>): (r: seq<string>)
    ensures forall c :: c in r <==> c in cols && c !in present
    ensures IsSubsequence(r, cols)
  {
    if cols == [] then []
    else if cols[0] !in present then
      var r := [cols[0]] + MissingFrom(cols[1..], present);
      assert r[1..] == MissingFrom(cols[1..], present);
      r
    else
      var r := MissingFrom(cols[1..], present);
      assert r != [] ==> r[0] in r;
      r
  }

  /** `pd.to_numeric(df[col], errors='raise')` succeeds: every present cell
      coerces; a NaN cell stays NaN. The coercion itself is a parameter. */
  predicate ColumnNumeric(t: Table, col: string, numeric: string -> bool) {
    forall i :: 0 <= i < |t.rows| ==> (Cell(t, t.rows[i], col).Some? ==> numeric(Cell(t, t.rows[i], col).value))
  }

  predicate HasRequiredColumns(t: Table) {
    forall c :: c in RequiredColumns ==> c in t.columns
  }

  function Validate(t: Table, numeric: string -> bool): (r: Outcome)
    ensures r.MissingColumns? <==> !HasRequiredColumns(t)
    ensures r.MissingColumns? ==>
              (forall c :: c in r.names <==> c in RequiredColumns && c !in t.columns) &&
              IsSubsequence(r.names, RequiredColumns)
    ensures r == EmptyTable <==> HasRequiredColumns(t) && |t.rows| == 0
    ensures r == NonNumeric(HtColumn) <==>
              HasRequiredColumns(t) && |t.rows| > 0 && !ColumnNumeric(t, HtColumn, numeric)
    ensures r == NonNumeric(TvaColumn) <==>
              HasRequiredColumns(t) && |t.rows| > 0 && ColumnNumeric(t, HtColumn, numeric) &&
              !ColumnNumeric(t, TvaColumn, numeric)
    ensures r.NonNumeric? ==> r.column in NumericColumns
    ensures r == Valid <==>
              HasRequiredColumns(t) && |t.rows| > 0 &&
              ColumnNumeric(t, HtColumn, numeric) && ColumnNumeric(t, TvaColumn, numeric)
  {
    var missing := MissingFrom(RequiredColumns, t.columns);
    assert missing != [] ==> missing[0] in missing;
    if missing != [] then MissingColumns(missing)
    else if |t.rows| == 0 then EmptyTable
    else if !ColumnNumeric(t, HtColumn, numeric) then NonNumeric(HtColumn)
    else if !ColumnNumeric(t, TvaColumn, numeric) then NonNumeric(TvaColumn)
    else Valid
  }

  /** The message returned beside the success flag. Only a valid
      structure is reported as "Structure valide". */
  function Message(o: Outcome): (m: string)
    ensures m == "Structure valide" <==> o == Valid
  {
    match o
    case Valid => "Structure valide"
    case MissingColumns(names) => "Colonnes manquantes : " + Join(names, ", ")
    case EmptyTable => "Le fichier Excel est vide"
    case NonNumeric(col) => "La colonne '" + col + "' doit contenir uniquement des nombres"
  }

  /** The `(bool, str)` pair `validate_excel_structure` returns, in terms
      of the table: the first check that fails decides the message. */
  function ValidateExcelStructure(t: Table, numeric: string -> bool): (r: (bool, string))
    ensures r.0 <==> HasRequiredColumns(t) && |t.rows| > 0 &&
                     ColumnNumeric(t, HtColumn, numeric) && ColumnNumeric(t, TvaColumn, numeric)
    ensures !HasRequiredColumns(t) ==>
              r.1 == "Colonnes manquantes : " + Join(MissingFrom(RequiredColumns, t.columns), ", ")
    ensures HasRequiredColumns(t) && |t.rows| == 0 ==> r.1 == "Le fichier Excel est vide"
    ensures HasRequiredColumns(t) && |t.rows| > 0 && !ColumnNumeric(t, HtColumn, numeric) ==>
              r.1 == "La colonne '" + HtColumn + "' doit contenir uniquement des nombres"
    ensures HasRequiredColumns(t) && |t.rows| > 0 && ColumnNumeric(t, HtColumn, numeric) &&
            !ColumnNumeric(t, TvaColumn, numeric) ==>
              r.1 == "La colonne '" + TvaColumn + "' doit contenir uniquement des nombres"
    ensures r.0 <==> r.1 == "Structure valide"
  {
    var o := Validate(t, numeric);
    (o == Valid, Message(o))
  }

  /** A table without columns or rows reports all six columns missing, not
      emptiness: the column check comes first. */
  lemma EmptyColumnlessTableReportsMissingColumns(numeric: string -> bool)
    ensures Validate(Table({}, []), numeric) == MissingColumns(RequiredColumns)
  {
    var r := Validate(Table({}, []), numeric);
    assert r.MissingColumns?;
    MissingAllIsRequired(r.names);
  }

  lemma MissingAllIsRequired(names: seq<string>)
    requires forall c :: c in names <==> c in RequiredColumns
    requires IsSubsequence(names, RequiredColumns)
    ensures names == RequiredColumns
  {
    // RequiredColumns has distinct entries, so the only subsequence containing all is itself.
    SubsequenceOfDistinctCoveringIsWhole(names, RequiredColumns);
  }

  lemma {:induction false} SubsequenceOfDistinctCoveringIsWhole(a: seq<string>, b: seq<string>)
    requires Distinct(b) && IsSubsequence(a, b)
    requires forall c :: c in b ==> c in a
    ensures a == b
  {
    if b == [] {
    } else if (assert b[0] in a; a[0] == b[0]) {
      forall c | c in b[1..] ensures c in a[1..] {
        assert c in a;
        assert c != b[0];
        assert a == [a[0]] + a[1..];
      }
      assert Distinct(b[1..]);
      SubsequenceOfDistinctCoveringIsWhole(a[1..], b[1..]);
      assert a == [a[0]] + a[1..] && b == [b[0]] + b[1..];
    } else {
      NotInSubsequence(b[0], a, b[1..]);
    }
  }

  /** An element of a subsequence of `b` occurs in `b`. */
  lemma {:induction false} SubsequenceElements(a: seq<string>, b: seq<string>, c: string)
    requires IsSubsequence(a, b) && c in a
    ensures c in b
  {
    if a[0] == b[0] {
      if c != a[0] { SubsequenceElements(a[1..], b[1..], c); }
    } else {
      SubsequenceElements(a, b[1..], c);
    }
  }

  lemma NotInSubsequence(x: string, a: seq<string>, b: seq<string>)
    requires IsSubsequence(a, b) && x !in b
    ensures x !in a
  {
    if x in a { SubsequenceElements(a, b, x); }
  }

  /** With every column present, a table without rows fails as empty. */
  lemma EmptyTableWithColumnsReportsEmpty(t: Table, numeric: string -> bool)
    requires HasRequiredColumns(t) && t.rows == []
    ensures ValidateExcelStructure(t, numeric) == (false, "Le fichier Excel est vide")
  {
  }
}
