/** The records of models.py. Amounts are Decimal values with two
    fractional digits, held here as integer cents. */
module Models {
  import opened Wrappers

  /** One invoice line (models.py `Invoice`); `date` defaults to None. */
  datatype Invoice = Invoice(
    invoiceNumber: string,
    clientNumber: string,
    clientAddress: string,
    contractNumber: string,
    amountHt: int,
    amountTva: int,
    amountTtc: int,
    date: Option<string> := None)

  /** All invoices of one client with their totals (models.py `Client`).
      There is no `name` field. */
  datatype Client = Client(
    number: string,
    address: string,
    invoices: seq<Invoice>,
    totalHt: int,
    totalTva: int,
    totalTtc: int)

  /** The issuing company shown on every statement (models.py `Company`). */
  datatype Company = Company(
    name: string,
    address: string,
    phone: string,
    email: string,
    logoPath: string)

  /** The defaults of the `Company` dataclass. */
  const DefaultCompany := Company(
    "SRM-SM",
    "Rue 18 Novembre Quartier Industriel AGADIR",
    "05 28 82 96 00 ",
    "Contact@srm-sm.ma",
    "assets/logo.jpg")

  /** The default company's fields, field by field; the phone number keeps
      its trailing space. */
  lemma DefaultCompanyFields()
    ensures DefaultCompany.name == "SRM-SM"
    ensures DefaultCompany.address == "Rue 18 Novembre Quartier Industriel AGADIR"
    ensures DefaultCompany.phone == "05 28 82 96 00 " && DefaultCompany.phone[|DefaultCompany.phone| - 1] == ' '
    ensures DefaultCompany.email == "Contact@srm-sm.ma"
    ensures DefaultCompany.logoPath == "assets/logo.jpg"
  {
  }

  /** The invariant the processor establishes for every invoice it builds. */
  predicate ConsistentInvoice(inv: Invoice) {
    inv.amountTtc == inv.amountHt + inv.amountTva
  }

  function AmountHt(inv: Invoice): int { inv.amountHt }
  function AmountTva(inv: Invoice): int { inv.amountTva }
  function AmountTtc(inv: Invoice): int { inv.amountTtc }

  /** Sum of one amount over a list of invoices (Python's `sum(...)`). */
  function SumBy(s: seq<Invoice>, f: Invoice -> int): int {
    if s == [] then 0 else SumBy(s[..|s| - 1], f) + f(s[|s| - 1])
  }

  lemma {:induction false} SumByAppend(a: seq<Invoice>, b: seq<Invoice>, f: Invoice -> int)
    ensures SumBy(a + b, f) == SumBy(a, f) + SumBy(b, f)
  {
    if b == [] {
      assert a + b == a;
    } else {
      assert (a + b)[..|a + b| - 1] == a + b[..|b| - 1];
      SumByAppend(a, b[..|b| - 1], f);
    }
  }

  /** A sum does not depend on the order of the invoices. */
  lemma {:induction false} SumByPermutation(a: seq<Invoice>, b: seq<Invoice>, f: Invoice -> int)
    requires multiset(a) == multiset(b)
    ensures SumBy(a, f) == SumBy(b, f)
  {
    if a != [] {
      var x := a[|a| - 1];
      var init := a[..|a| - 1];
      assert a == init + [x];
      assert x in multiset(b);
      var k :| 0 <= k < |b| && b[k] == x;
      var rest := RemoveAt(b, k);
      assert multiset(rest) == multiset(init) by {
        RemoveAtMultiset(b, k);
        assert multiset(a) == multiset(init) + multiset{x};
      }
      SumByPermutation(init, rest, f);
      SumByRemoveAt(b, k, f);
    }
  }

  /** `s` without its element at position `k`. */
  function RemoveAt(s: seq<Invoice>, k: nat): seq<Invoice>
    requires k < |s|
  {
    s[..k] + s[k + 1..]
  }

  lemma RemoveAtMultiset(s: seq<Invoice>, k: nat)
    requires k < |s|
    ensures multiset(RemoveAt(s, k)) == multiset(s) - multiset{s[k]}
  {
    assert s == s[..k] + [s[k]] + s[k + 1..];
  }

  lemma {:induction false} SumByRemoveAt(s: seq<Invoice>, k: nat, f: Invoice -> int)
    requires k < |s|
    ensures SumBy(s, f) == SumBy(RemoveAt(s, k), f) + f(s[k])
  {
    var x, front, back := s[k], s[..k], s[k + 1..];
    assert s == (front + [x]) + back;
    assert RemoveAt(s, k) == front + back;
    SumByAppend(front + [x], back, f);
    SumByAppend(front, [x], f);
    SumByAppend(front, back, f);
    assert SumBy([x], f) == f(x) by {
      assert [x][..0] == [];
    }
  }

  /** Over consistent invoices the TTC amounts sum to the HT sum plus the TVA sum. */
  lemma {:induction false} SumTtcOfConsistent(s: seq<Invoice>)
    requires forall inv :: inv in s ==> ConsistentInvoice(inv)
    ensures SumBy(s, AmountTtc) == SumBy(s, AmountHt) + SumBy(s, AmountTva)
  {
    if s != [] {
      var last := s[|s| - 1];
      assert last in s && ConsistentInvoice(last);
      assert forall inv :: inv in s[..|s| - 1] ==> inv in s;
      SumTtcOfConsistent(s[..|s| - 1]);
      assert AmountTtc(last) == AmountHt(last) + AmountTva(last);
    }
  }

  /** The invariants the processor establishes for every client it builds:
      a non-empty invoice list, totals that are the sums over it, and
      TTC = HT + TVA. */
  predicate ConsistentClient(c: Client) {
    && c.invoices != []
    && c.number == c.invoices[0].clientNumber
    && c.address == c.invoices[0].clientAddress
    && c.totalHt == SumBy(c.invoices, AmountHt)
    && c.totalTva == SumBy(c.invoices, AmountTva)
    && c.totalTtc == c.totalHt + c.totalTva
  }

  /** The `Invoice` record itself does not enforce TTC = HT + TVA. */
  lemma InvoiceDoesNotEnforceTtc()
    ensures exists inv: Invoice :: !ConsistentInvoice(inv)
  {
    var inv := Invoice("F1", "C1", "", "K1", 100, 20, 0);
    assert !ConsistentInvoice(inv);
  }

  /** The `Client` record itself admits an empty invoice list and wrong totals. */
  lemma ClientDoesNotEnforceInvariants()
    ensures exists c: Client :: c.invoices == [] && c.totalTtc != c.totalHt + c.totalTva
  {
    var c := Client("C1", "", [], 0, 0, 1);
    assert c.invoices == [] && c.totalTtc != c.totalHt + c.totalTva;
  }
}
