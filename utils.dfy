/** The pure helpers of the upload and download page: the upload check,
    the per-client file name, the currency format and the choice between
    one download and one download per client. */
module Utils {
  import opened Wrappers
  import opened Text
  import opened Models
  import opened Amounts

  /** `name.split('.')[-1]`: what follows the last dot, or the whole name. */
  function LastSegment(s: string): (r: string)
    ensures '.' !in r && EndsWith(s, r)
    ensures |r| == |s| || s[|s| - |r| - 1] == '.'
  {
    if s == [] then []
    else if s[|s| - 1] == '.' then []
    else
      var p := LastSegment(s[..|s| - 1]);
      LastSegmentStep(s, p);
      p + [s[|s| - 1]]
  }

  /** One more dot-free character extends the last segment. */
  lemma LastSegmentStep(s: string, p: string)
    requires s != [] && s[|s| - 1] != '.'
    requires '.' !in p && EndsWith(s[..|s| - 1], p)
    requires |p| == |s| - 1 || s[..|s| - 1][|s| - 1 - |p| - 1] == '.'
    ensures var r := p + [s[|s| - 1]];
            '.' !in r && EndsWith(s, r) && (|r| == |s| || s[|s| - |r| - 1] == '.')
  {
    var init := s[..|s| - 1];
    assert init[|init| - |p|..] == s[|s| - 1 - |p|..|s| - 1];
    assert s[|s| - 1 - |p|..] == s[|s| - 1 - |p|..|s| - 1] + [s[|s| - 1]];
  }

  /** A dot followed by a dot-free tail: the tail is the last segment. */
  lemma {:induction false} LastSegmentAfterDot(p: string, r: string)
    requires '.' !in r
    ensures LastSegment(p + "." + r) == r
  {
    var s := p + "." + r;
    if r != [] {
      var r' := r[..|r| - 1];
      assert s[..|s| - 1] == p + "." + r';
      LastSegmentAfterDot(p, r');
      assert r == r' + [r[|r| - 1]];
    }
  }

  /** A dot-free name is its own last segment. */
  lemma {:induction false} LastSegmentNoDot(r: string)
    requires '.' !in r
    ensures LastSegment(r) == r
  {
    if r != [] {
      LastSegmentNoDot(r[..|r| - 1]);
      assert r == r[..|r| - 1] + [r[|r| - 1]];
    }
  }

  /** The last segment is a given dot-free word exactly when the name ends
      with a dot and that word, or is that word. */
  lemma LastSegmentIs(l: string, ext: string, dotted: string)
    requires '.' !in ext && dotted == "." + ext
    ensures LastSegment(l) == ext <==> EndsWith(l, dotted) || l == ext
  {
    if LastSegment(l) == ext {
      LastSegmentShape(l, ext, dotted);
    }
    if EndsWith(l, dotted) {
      var p := l[..|l| - |dotted|];
      assert l == p + "." + ext;
      LastSegmentAfterDot(p, ext);
    } else if l == ext {
      LastSegmentNoDot(ext);
    }
  }

  /** A last segment shorter than the name follows a dot. */
  lemma LastSegmentShape(l: string, ext: string, dotted: string)
    requires dotted == "." + ext && LastSegment(l) == ext
    ensures EndsWith(l, dotted) || l == ext
  {
    if |ext| < |l| {
      assert l[|l| - |dotted|..] == [l[|l| - |dotted|]] + l[|l| - |ext|..];
    }
  }

  const AllowedExtensions: seq<string> := [".xlsx", ".xls"]

  /** `validate_upload`: no file is refused; otherwise the lower-cased
      name's last dot-separated segment must be `xlsx` or `xls`. */
  function ValidateUpload(name: Option<string>): (ok: bool)
    ensures name.None? ==> !ok
  {
    match name
    case None => false
    case Some(n) => "." + LastSegment(Lower(n)) in AllowedExtensions
  }

  lemma AllowedSegment(seg: string)
    ensures "." + seg in AllowedExtensions <==> seg == "xlsx" || seg == "xls"
  {
    var e := "." + seg;
    assert e[1..] == seg;
    assert ".xlsx" == "." + "xlsx" && ".xls" == "." + "xls";
    assert e in AllowedExtensions <==> e == ".xlsx" || e == ".xls";
  }

  /** The extension test on an already lower-cased name. */
  lemma ExtensionAllowedIff(l: string)
    ensures "." + LastSegment(l) in AllowedExtensions <==>
              EndsWith(l, ".xlsx") || EndsWith(l, ".xls") || l == "xlsx" || l == "xls"
  {
    assert ".xlsx" == "." + "xlsx" && ".xls" == "." + "xls";
    LastSegmentIs(l, "xlsx", ".xlsx");
    LastSegmentIs(l, "xls", ".xls");
    AllowedSegment(LastSegment(l));
  }

  /** Acceptance in terms of the name alone: it ends with `.xlsx` or
      `.xls`, or it is `xlsx` or `xls` without any dot, ignoring case. */
  lemma ValidateUploadIff(n: string)
    ensures ValidateUpload(Some(n)) <==>
              EndsWith(Lower(n), ".xlsx") || EndsWith(Lower(n), ".xls") ||
              Lower(n) == "xlsx" || Lower(n) == "xls"
  {
    ExtensionAllowedIff(Lower(n));
  }

  lemma UpperCaseExtensionAccepted()
    ensures ValidateUpload(Some("A.XLSX"))
  {
    assert Lower("A.XLSX") == "a.xlsx";
    ValidateUploadIff("A.XLSX");
  }

  lemma OnlyLastSegmentCounts()
    ensures !ValidateUpload(Some("a.xlsx.zip"))
  {
    assert Lower("a.xlsx.zip") == "a.xlsx.zip";
    ValidateUploadIff("a.xlsx.zip");
  }

  lemma DotlessExtensionNameAccepted()
    ensures ValidateUpload(Some("xls"))
  {
    assert Lower("xls") == "xls";
    ValidateUploadIff("xls");
  }

  /** f"facture_globale_{number.replace(' ', '_')}.pdf" */
  function FileName(number: string): (f: string)
    ensures |f| == |number| + 20
    ensures f[..16] == "facture_globale_" && EndsWith(f, ".pdf")
    ensures ' ' !in f
    ensures forall i :: 0 <= i < |number| ==> f[16 + i] == if number[i] == ' ' then '_' else number[i]
  {
    "facture_globale_" + ReplaceChar(number, ' ', '_') + ".pdf"
  }

  /** Numbers without spaces get file names of their own; the only
      collisions come from spaces turned into underscores. */
  lemma FileNameInjective(a: string, b: string)
    requires ' ' !in a && ' ' !in b
    requires FileName(a) == FileName(b)
    ensures a == b
  {
    forall i | 0 <= i < |a| ensures a[i] == b[i] {
      assert FileName(a)[16 + i] == FileName(b)[16 + i];
    }
  }

  lemma SpaceAndUnderscoreCollide()
    ensures FileName("A B") == FileName("A_B") == "facture_globale_" + "A_B" + ".pdf"
  {
    var r := ReplaceChar("A B", ' ', '_');
    assert r[0] == 'A' && r[1] == '_' && r[2] == 'B';
    assert r == "A_B";
    ReplaceCharAbsent("A_B", ' ', '_');
  }

  /** `format_currency`: two fractional digits and one space. */
  function FormatCurrency(c: int): (r: string)
    ensures |r| >= 5 && r[|r| - 1] == ' ' && r[|r| - 4] == '.'
    ensures IsDigit(r[|r| - 3]) && IsDigit(r[|r| - 2])
  {
    FormatCents(c) + " "
  }

  /** A formatted amount reads back as itself: `clean_decimal` strips the
      space. */
  lemma FormatCurrencyRoundTrip(c: int)
    requires Abs(c) < Pow10(Precision)
    ensures CleanDecimal(Some(FormatCurrency(c))) == c
  {
    var f := FormatCents(c);
    FormatCentsTrimmed(c);
    StripTrailingSpace(f);
    CleanFormatRoundTrip(c);
  }

  /** The fields `Client` declares that do not hold text. */
  const NonTextFields: seq<string> := ["invoices", "total_ht", "total_tva", "total_ttc"]

  /** The docstring of the `Client` dataclass. */
  const ClientDoc := "Représente un client avec ses factures groupées"

  /** A name of the form `__x__`, Python's special attributes. */
  predicate IsDunder(attr: string) {
    |attr| >= 4 && attr[..2] == "__" && attr[|attr| - 2..] == "__"
  }

  /** Python attribute access on a `Client` for names whose value, if any,
      is text: `number` and `address` are its text fields, `__doc__` is the
      class docstring and `__module__` the module name; any other name the
      dataclass neither declares nor inherits raises `AttributeError`. */
  function ClientAttribute(c: Client, attr: string): (r: Result<string>)
    requires attr !in NonTextFields
    requires IsDunder(attr) ==> attr == "__doc__" || attr == "__module__"
    ensures r.Success? <==> attr == "number" || attr == "address" || attr == "__doc__" || attr == "__module__"
    ensures attr == "number" ==> r == Success(c.number)
    ensures attr == "address" ==> r == Success(c.address)
    ensures attr == "__doc__" ==> r == Success(ClientDoc)
    ensures attr == "__module__" ==> r == Success("models")
    ensures r.Failure? ==> r.error == "'Client' object has no attribute '" + attr + "'"
  {
    if attr == "number" then Success(c.number)
    else if attr == "address" then Success(c.address)
    else if attr == "__doc__" then Success(ClientDoc)
    else if attr == "__module__" then Success("models")
    else Failure("'Client' object has no attribute '" + attr + "'")
  }

  /** One download button: its file name and its widget key. */
  datatype Download = Download(fileName: string, key: Option<string>)

  /** The zip download: its file name and the names of its entries. */
  datatype Archive = Archive(fileName: string, entries: seq<string>)

  /** What the page offers. With several clients (or none) it shows one
      download per client, and `archive` is what pressing "Créer l'archive
      ZIP" gives: the zip download, or the error `create_zip_archive` raised. */
  datatype Downloads =
    | Single(download: Download)
    | PerClient(downloads: seq<Download>, archive: Result<Archive>)

  const ArchiveName := "factures_globales.zip"

  function PerClientDownloads(clients: seq<Client>): seq<Download> {
    seq(|clients|, i requires 0 <= i < |clients| =>
      Download(FileName(clients[i].number), Some("download_" + NatToString(i))))
  }

  /** The zip download of `create_zip_archive` as written, once its button
      is pressed. */
  function ArchiveAsWritten(clients: seq<Client>): Result<Archive> {
    match ArchiveEntriesAsWritten(clients)
    case Failure(e) => Failure(e)
    case Success(entries) => Success(Archive(ArchiveName, entries))
  }

  /** `create_download_button` as written: the single-client branch
      builds its file name from `client.name`, so the page itself renders
      only with several clients or none, and then its zip button fails
      unless there is no client at all. */
  function OfferAsWritten(clients: seq<Client>): (r: Result<Downloads>)
    ensures r.Success? <==> |clients| != 1
    ensures r.Success? ==> r.value.PerClient? && (r.value.archive.Success? <==> clients == [])
    ensures clients == [] ==> r == Success(PerClient([], Success(Archive(ArchiveName, []))))
  {
    if |clients| == 1 then
      match ClientAttribute(clients[0], "name")
      case Failure(e) => Failure(e)
      case Success(name) => Success(Single(Download(FileName(name), None)))
    else
      assert clients != [] ==> (ArchiveFailsForAnyClient(clients); ArchiveAsWritten(clients).Failure?);
      assert clients == [] ==> PerClientDownloads(clients) == [] && ArchiveAsWritten(clients).Success?;
      Success(PerClient(PerClientDownloads(clients), ArchiveAsWritten(clients)))
  }

  /** With exactly one client the page fails instead of offering its file. */
  lemma SingleClientOfferFails(c: Client)
    ensures OfferAsWritten([c]) == Failure("'Client' object has no attribute 'name'")
  {
  }

  /** `create_download_button` and `create_zip_archive` with the client's
      number, as the multi-client buttons use: one client gets one document
      named after its number; any other count gets one download per client,
      in list order, keyed by position, and a zip whose entries carry the
      same names. */
  function Offer(clients: seq<Client>): (d: Downloads)
    ensures d.Single? <==> |clients| == 1
    ensures d.Single? ==> d.download == Download(FileName(clients[0].number), None)
    ensures d.PerClient? ==>
              d.archive == Success(Archive(ArchiveName, ArchiveEntries(clients))) &&
              |d.downloads| == |clients| &&
              forall i :: 0 <= i < |clients| ==>
                d.downloads[i].fileName == FileName(clients[i].number) &&
                d.downloads[i].key == Some("download_" + NatToString(i))
  {
    if |clients| == 1 then Single(Download(FileName(clients[0].number), None))
    else PerClient(PerClientDownloads(clients), Success(Archive(ArchiveName, ArchiveEntries(clients))))
  }

  /** Wherever the page as written renders, its individual downloads are
      those of `Offer`; its zip agrees with `Offer`'s only when there is no
      client, and otherwise fails where `Offer`'s is built. */
  lemma OfferAgreesAsWritten(clients: seq<Client>)
    ensures OfferAsWritten(clients).Success? ==>
              OfferAsWritten(clients).value.downloads == Offer(clients).downloads
    ensures clients == [] ==> OfferAsWritten(clients) == Success(Offer(clients))
    ensures |clients| > 1 ==>
              OfferAsWritten(clients).value.archive.Failure? && Offer(clients).archive.Success?
  {
    if clients == [] {
      assert ArchiveEntries(clients) == [];
    }
  }

  /** The zip entry names of `create_zip_archive` as written: the first
      client already fails on `client.name`. */
  function ArchiveEntriesAsWritten(clients: seq<Client>): Result<seq<string>> {
    if clients == [] then Success([])
    else
      match ClientAttribute(clients[0], "name")
      case Failure(e) => Failure(e)
      case Success(name) =>
        match ArchiveEntriesAsWritten(clients[1..])
        case Failure(e) => Failure(e)
        case Success(rest) => Success([FileName(name)] + rest)
  }

  lemma ArchiveFailsForAnyClient(clients: seq<Client>)
    requires clients != []
    ensures ArchiveEntriesAsWritten(clients) == Failure("'Client' object has no attribute 'name'")
  {
  }

  /** The zip entry names with the client's number. */
  function ArchiveEntries(clients: seq<Client>): seq<string> {
    seq(|clients|, i requires 0 <= i < |clients| => FileName(clients[i].number))
  }

  /** The archive holds one entry per client, in order, with the same name
      as that client's individual download. */
  lemma ArchiveMatchesDownloads(clients: seq<Client>)
    requires |clients| != 1
    ensures |Offer(clients).archive.value.entries| == |Offer(clients).downloads|
    ensures forall i :: 0 <= i < |clients| ==>
              Offer(clients).archive.value.entries[i] == Offer(clients).downloads[i].fileName
  {
  }
}
