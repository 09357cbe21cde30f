/** The list view of src/components/InvoiceList.tsx: the search filter, the
    approve/pending toggle, and the by-id update of the local list after the
    server accepted a status change. */
module InvoiceList {
  import opened Wrappers
  import opened Seqs
  import opened Strings
  import opened Storage

  /** The lower-cased term occurs in the lower-cased invoice number or vendor. */
  predicate Matches(inv: Invoice, term: string): (b: bool)
    ensures b <==> (exists i :: OccursAt(ToLower(inv.invoiceNumber), ToLower(term), i))
                   || (exists i :: OccursAt(ToLower(inv.vendor), ToLower(term), i))
  {
    Contains(ToLower(inv.invoiceNumber), ToLower(term)) || Contains(ToLower(inv.vendor), ToLower(term))
  }

  function MatchesTerm(term: string): Invoice -> bool
  {
    (inv: Invoice) => Matches(inv, term)
  }

  /** `filteredInvoices`: the invoices the search term matches. */
  function FilteredInvoices(invoices: seq<Invoice>, term: string): (r: seq<Invoice>)
    ensures forall i :: 0 <= i < |r| ==> r[i] in invoices && Matches(r[i], term)
    ensures forall i :: 0 <= i < |invoices| && Matches(invoices[i], term) ==> invoices[i] in r
  {
    Filter(invoices, MatchesTerm(term))
  }

  /** The filtered list keeps the original order. */
  lemma FilteredKeepsOrder(invoices: seq<Invoice>, term: string)
    ensures IsSubsequence(FilteredInvoices(invoices, term), invoices)
  {
    FilterIsSubsequence(invoices, MatchesTerm(term));
  }

  /** An empty search shows every invoice. */
  lemma EmptyTermKeepsAll(invoices: seq<Invoice>)
    ensures FilteredInvoices(invoices, "") == invoices
  {
    forall i | 0 <= i < |invoices| ensures MatchesTerm("")(invoices[i]) {
      ContainsEmpty(ToLower(invoices[i].invoiceNumber));
    }
    FilterKeepsAll(invoices, MatchesTerm(""));
  }

  /** Lower-casing cannot create a lower-case letter whose two cases are absent. */
  lemma LowerLacks(s: string, lower: char, upper: char)
    requires 'a' <= lower <= 'z' && upper as int == lower as int - 32
    requires lower !in s && upper !in s
    ensures lower !in ToLower(s)
  {
    forall i | 0 <= i < |s| ensures ToLower(s)[i] != lower {
      assert s[i] != lower && s[i] != upper;
    }
  }

  lemma SeedVendorsMatchPremium()
    ensures Matches(Seed()[0], "Premium") && Matches(Seed()[2], "Premium")
  {
    var term := ToLower("Premium");
    assert term == "premium";
    var v := ToLower("Premium Supplier A");
    assert v[..7] == "premium";
    assert OccursAt(v, term, 0);
  }

  /** A record matches no term whose lower-cased form holds a letter that its
      number and vendor lack in both cases. */
  lemma LacksLetterNoMatch(inv: Invoice, term: string, lower: char, upper: char)
    requires 'a' <= lower <= 'z' && upper as int == lower as int - 32
    requires lower in ToLower(term)
    requires lower !in inv.invoiceNumber && upper !in inv.invoiceNumber
    requires lower !in inv.vendor && upper !in inv.vendor
    ensures !Matches(inv, term)
  {
    LowerLacks(inv.invoiceNumber, lower, upper);
    LowerLacks(inv.vendor, lower, upper);
    NotContainsMissingChar(ToLower(inv.invoiceNumber), ToLower(term), lower);
    NotContainsMissingChar(ToLower(inv.vendor), ToLower(term), lower);
  }

  /** The number and vendor of the second seed record. */
  lemma SecondSeedFields()
    ensures Seed()[1].invoiceNumber == "INV123457" && Seed()[1].vendor == "Standard Supplier B"
  {
  }

  /** Neither text spells an `m` in either case. */
  lemma SecondSeedTextsLackM()
    ensures 'm' !in "INV123457" && 'M' !in "INV123457"
    ensures 'm' !in "Standard Supplier B" && 'M' !in "Standard Supplier B"
  {
  }

  /** The second seed record spells no `m` in either case. */
  lemma SecondSeedLacksM()
    ensures 'm' !in Seed()[1].invoiceNumber && 'M' !in Seed()[1].invoiceNumber
    ensures 'm' !in Seed()[1].vendor && 'M' !in Seed()[1].vendor
  {
    SecondSeedFields();
    SecondSeedTextsLackM();
  }

  lemma SecondSeedDoesNotMatchPremium()
    ensures !Matches(Seed()[1], "Premium")
  {
    SecondSeedLacksM();
    assert ToLower("Premium")[3] == 'm';
    LacksLetterNoMatch(Seed()[1], "Premium", 'm', 'M');
  }

  /** Searching the seed records for "Premium" finds exactly the two records of
      vendor "Premium Supplier A". */
  lemma PremiumSearchOnSeed()
    ensures FilteredInvoices(Seed(), "Premium") == [Seed()[0], Seed()[2]]
  {
    var s := Seed();
    SeedVendorsMatchPremium();
    SecondSeedDoesNotMatchPremium();
    KeepFirstAndLast(s, MatchesTerm("Premium"));
  }

  lemma KeepFirstAndLast<T>(s: seq<T>, p: T -> bool)
    requires |s| == 3 && p(s[0]) && !p(s[1]) && p(s[2])
    ensures Filter(s, p) == [s[0], s[2]]
  {
    assert Filter(s[3..], p) == [];
    assert Filter(s[2..], p) == [s[2]] + Filter(s[3..], p);
    assert Filter(s[1..], p) == Filter(s[2..], p);
  }

  /** `invoice.status === 'approved' ? 'pending' : 'approved'`. */
  function Toggle(status: string): (r: string)
    ensures r == "approved" || r == "pending"
    ensures r == "pending" <==> status == "approved"
  {
    if status == "approved" then "pending" else "approved"
  }

  /** Toggling twice restores either of the two statuses. */
  lemma ToggleTwice(status: string)
    requires status == "approved" || status == "pending"
    ensures Toggle(Toggle(status)) == status
  {
  }

  /** `invoices.map(inv => inv.id === id ? { ...inv, status } : inv)`. */
  function SetStatusById(invoices: seq<Invoice>, id: string, status: string): (r: seq<Invoice>)
    ensures |r| == |invoices|
    ensures forall i :: 0 <= i < |r| && invoices[i].id == id ==> r[i] == invoices[i].(status := status)
    ensures forall i :: 0 <= i < |r| && invoices[i].id != id ==> r[i] == invoices[i]
  {
    if invoices == [] then []
    else
      var head := if invoices[0].id == id then invoices[0].(status := status) else invoices[0];
      [head] + SetStatusById(invoices[1..], id, status)
  }

  /** `handleStatusChange(id)`. `seen` is the list the click handler saw, used
      to find the record and compute its new status; `latest` is the list when
      the server's answer arrives, which the state update maps over;
      `requestOk` says whether the PATCH request succeeded. */
  function StatusChange(seen: seq<Invoice>, latest: seq<Invoice>, id: string, requestOk: bool): (r: seq<Invoice>)
    ensures FindById(seen, id).None? || !requestOk ==> r == latest
    ensures |r| == |latest|
    ensures forall i :: 0 <= i < |latest| && latest[i].id != id ==> r[i] == latest[i]
    ensures FindById(seen, id).Some? && requestOk ==>
              forall i :: 0 <= i < |latest| && latest[i].id == id ==>
                r[i] == latest[i].(status := Toggle(FindById(seen, id).value.status))
  {
    match FindById(seen, id)
    case None => latest
    case Some(invoice) =>
      if requestOk then SetStatusById(latest, id, Toggle(invoice.status)) else latest
  }

  /** The first record holding `id` is the one `FindById` returns. */
  lemma FindByIdAt(invoices: seq<Invoice>, id: string, k: nat)
    requires k < |invoices| && invoices[k].id == id
    requires forall j :: 0 <= j < k ==> invoices[j].id != id
    ensures FindById(invoices, id) == Some(invoices[k])
  {
    var i :| 0 <= i < |invoices| && invoices[i] == FindById(invoices, id).value && invoices[i].id == id
             && forall j :: 0 <= j < i ==> invoices[j].id != id;
    assert !(i < k) && !(k < i);
  }

  /** When only position `k` holds `id`, the by-id update changes that entry alone. */
  lemma SetStatusAtOnlyIndex(invoices: seq<Invoice>, id: string, k: nat, status: string)
    requires k < |invoices| && invoices[k].id == id
    requires forall j :: 0 <= j < |invoices| && j != k ==> invoices[j].id != id
    ensures SetStatusById(invoices, id, status) == invoices[k := invoices[k].(status := status)]
  {
  }

  /** One successful click on the record at `k`, the only one holding `id`. */
  lemma ClickOnce(invoices: seq<Invoice>, id: string, k: nat)
    requires k < |invoices| && invoices[k].id == id
    requires forall j :: 0 <= j < |invoices| && j != k ==> invoices[j].id != id
    ensures StatusChange(invoices, invoices, id, true)
              == invoices[k := invoices[k].(status := Toggle(invoices[k].status))]
  {
    FindByIdAt(invoices, id, k);
    SetStatusAtOnlyIndex(invoices, id, k, Toggle(invoices[k].status));
  }

  /** With unique ids, clicking a record twice (both requests succeeding)
      restores a record that was approved or pending. */
  lemma StatusChangeTwice(invoices: seq<Invoice>, id: string)
    requires UniqueIds(invoices)
    requires FindById(invoices, id).Some?
    requires FindById(invoices, id).value.status == "approved" || FindById(invoices, id).value.status == "pending"
    ensures var once := StatusChange(invoices, invoices, id, true);
            StatusChange(once, once, id, true) == invoices
  {
    var k := IndexById(invoices, id).value;
    FindByIdAt(invoices, id, k);
    forall j | 0 <= j < |invoices| && j != k ensures invoices[j].id != id {
      assert IdOf(invoices[j]) != IdOf(invoices[k]);
    }
    ClickOnce(invoices, id, k);
    var once := StatusChange(invoices, invoices, id, true);
    ClickOnce(once, id, k);
  }
}
