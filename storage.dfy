/** The invoice record store of src/lib/storage.ts: the record type, the seed
    records, the validation run before a record is created (shared with the
    mock API route), and the store itself as an in-memory ordered list. */
module Storage {
  import opened Wrappers
  import opened Seqs
  import opened Strings

  /** One stored invoice. `invoiceType` is the record's `type` key. */
  datatype Invoice = Invoice(
    id: string,
    invoiceNumber: string,
    invoiceType: string,
    date: string,
    amount: real,
    vendor: string,
    status: string)

  /** What a caller passes as `amount`. Validation only looks at its JavaScript
      type (number or not) and at its truthiness. */
  datatype AmountValue = Absent | Number(value: real) | Text(text: string)

  /** JavaScript truthiness of an `amount` value. */
  predicate Truthy(v: AmountValue)
  {
    match v
    case Absent => false
    case Number(x) => x != 0.0
    case Text(t) => t != ""
  }

  /** The fields a caller proposes for a new invoice. A string key the caller
      left out is the empty string. The caller may also send `id` and
      `status`; creation overrides both. */
  datatype Candidate = Candidate(
    invoiceNumber: string,
    invoiceType: string,
    date: string,
    amount: AmountValue,
    vendor: string,
    id: Option<string>,
    status: Option<string>)

  /** The required keys of a candidate. */
  datatype Field = InvoiceNumber | Type | Date | Amount | Vendor

  /** The key's name as the error message spells it. */
  function Key(f: Field): string
  {
    match f
    case InvoiceNumber => "invoiceNumber"
    case Type => "type"
    case Date => "date"
    case Amount => "amount"
    case Vendor => "vendor"
  }

  /** The required keys, in the order the error message lists them. */
  const RequiredFields: seq<Field> := [InvoiceNumber, Type, Date, Amount, Vendor]

  function Self(f: Field): Field
  {
    f
  }

  /** No key is required twice. */
  lemma RequiredFieldsDistinct()
    ensures DistinctBy(RequiredFields, Self)
  {
  }

  /** `!!candidate[field]`: the key holds a truthy value. */
  predicate FieldPresent(c: Candidate, f: Field)
  {
    match f
    case InvoiceNumber => c.invoiceNumber != ""
    case Type => c.invoiceType != ""
    case Date => c.date != ""
    case Amount => Truthy(c.amount)
    case Vendor => c.vendor != ""
  }

  function FieldMissing(c: Candidate): Field -> bool
  {
    (f: Field) => !FieldPresent(c, f)
  }

  /** `requiredFields.filter(field => !data[field])`. */
  function MissingFields(c: Candidate): (r: seq<Field>)
    ensures InvoiceNumber in r <==> c.invoiceNumber == ""
    ensures Type in r <==> c.invoiceType == ""
    ensures Date in r <==> c.date == ""
    ensures Amount in r <==> !Truthy(c.amount)
    ensures Vendor in r <==> c.vendor == ""
    ensures r == [] <==> (c.invoiceNumber != "" && c.invoiceType != "" && c.date != ""
                         && Truthy(c.amount) && c.vendor != "")
  {
    var p := FieldMissing(c);
    FilterMember(RequiredFields, p, InvoiceNumber);
    FilterMember(RequiredFields, p, Type);
    FilterMember(RequiredFields, p, Date);
    FilterMember(RequiredFields, p, Amount);
    FilterMember(RequiredFields, p, Vendor);
    Filter(RequiredFields, p)
  }

  /** The missing keys are listed in the order of RequiredFields, each once. */
  lemma MissingFieldsInOrder(c: Candidate)
    ensures IsSubsequence(MissingFields(c), RequiredFields)
    ensures forall i, j :: 0 <= i < j < |MissingFields(c)| ==> MissingFields(c)[i] != MissingFields(c)[j]
  {
    FilterIsSubsequence(RequiredFields, FieldMissing(c));
    RequiredFieldsDistinct();
    FilterDistinctBy(RequiredFields, FieldMissing(c), Self);
  }

  /** Why a store operation failed. */
  datatype StoreError = MissingRequired(fields: seq<Field>) | AmountNotNumber | DuplicateNumber | NotFound

  /** The names of the given keys, in order. */
  function Keys(fields: seq<Field>): (r: seq<string>)
    ensures |r| == |fields| && forall k :: 0 <= k < |fields| ==> r[k] == Key(fields[k])
  {
    seq(|fields|, k requires 0 <= k < |fields| => Key(fields[k]))
  }

  const MissingPrefix: string := "Missing required fields: "

  /** The text of the error thrown (store) or returned (route). */
  function Message(e: StoreError): (m: string)
    ensures e.MissingRequired? ==> MissingPrefix <= m && m[|MissingPrefix|..] == Join(Keys(e.fields), ", ")
    ensures e.AmountNotNumber? ==> m == "Amount must be a number"
    ensures e.DuplicateNumber? ==> m == "Invoice number already exists"
    ensures e.NotFound? ==> m == "Invoice not found"
  {
    match e
    case MissingRequired(fields) => MissingPrefix + Join(Keys(fields), ", ")
    case AmountNotNumber => "Amount must be a number"
    case DuplicateNumber => "Invoice number already exists"
    case NotFound => "Invoice not found"
  }

  function HasNumber(n: string): Invoice -> bool
  {
    (inv: Invoice) => inv.invoiceNumber == n
  }

  /** `invoices.find(inv => inv.invoiceNumber === n)` finds a record. */
  function NumberTaken(invoices: seq<Invoice>, n: string): (r: bool)
    ensures r <==> exists i :: 0 <= i < |invoices| && invoices[i].invoiceNumber == n
  {
    Find(invoices, HasNumber(n)).Some?
  }

  /** The checks run before a record is created, in the source's order: missing
      required fields, then the type of `amount`, then a duplicate number. */
  function CheckCandidate(invoices: seq<Invoice>, c: Candidate): (r: Option<StoreError>)
    ensures r == None <==> MissingFields(c) == [] && c.amount.Number? && !NumberTaken(invoices, c.invoiceNumber)
    ensures MissingFields(c) != [] ==> r == Some(MissingRequired(MissingFields(c)))
    ensures MissingFields(c) == [] && !c.amount.Number? ==> r == Some(AmountNotNumber)
    ensures r == Some(DuplicateNumber) <==>
              MissingFields(c) == [] && c.amount.Number? && NumberTaken(invoices, c.invoiceNumber)
    ensures r != None ==> !r.value.NotFound?
  {
    var missing := MissingFields(c);
    if missing != [] then Some(MissingRequired(missing))
    else if !c.amount.Number? then Some(AmountNotNumber)
    else if NumberTaken(invoices, c.invoiceNumber) then Some(DuplicateNumber)
    else None
  }

  /** A candidate whose amount is a number, with a fresh id and status `pending`. */
  function NewInvoice(c: Candidate, newId: string): (r: Invoice)
    requires c.amount.Number?
    ensures r.id == newId && r.status == "pending"
    ensures r.invoiceNumber == c.invoiceNumber && r.invoiceType == c.invoiceType && r.date == c.date
    ensures r.amount == c.amount.value && r.vendor == c.vendor
  {
    Invoice(newId, c.invoiceNumber, c.invoiceType, c.date, c.amount.value, c.vendor, "pending")
  }

  /** `Partial<Invoice>`: the keys an update overwrites. */
  datatype Patch = Patch(
    id: Option<string>,
    invoiceNumber: Option<string>,
    invoiceType: Option<string>,
    date: Option<string>,
    amount: Option<real>,
    vendor: Option<string>,
    status: Option<string>)

  /** The patch `{ status }`: merged into any record, it sets the status and
      nothing else. */
  function StatusPatch(status: string): (p: Patch)
    ensures forall inv :: Merge(inv, p) == inv.(status := status)
  {
    Patch(None, None, None, None, None, None, Some(status))
  }

  function Pick<T>(o: Option<T>, current: T): T
  {
    if o.Some? then o.value else current
  }

  /** `{ ...inv, ...patch }`: every key the patch holds wins. */
  function Merge(inv: Invoice, p: Patch): (r: Invoice)
    ensures p == Patch(None, None, None, None, None, None, None) ==> r == inv
    ensures p.id.Some? ==> r.id == p.id.value
    ensures p.id.None? ==> r.id == inv.id
    ensures p.invoiceNumber.Some? ==> r.invoiceNumber == p.invoiceNumber.value
    ensures p.invoiceNumber.None? ==> r.invoiceNumber == inv.invoiceNumber
    ensures p.invoiceType.Some? ==> r.invoiceType == p.invoiceType.value
    ensures p.invoiceType.None? ==> r.invoiceType == inv.invoiceType
    ensures p.date.Some? ==> r.date == p.date.value
    ensures p.date.None? ==> r.date == inv.date
    ensures p.amount.Some? ==> r.amount == p.amount.value
    ensures p.amount.None? ==> r.amount == inv.amount
    ensures p.vendor.Some? ==> r.vendor == p.vendor.value
    ensures p.vendor.None? ==> r.vendor == inv.vendor
    ensures p.status.Some? ==> r.status == p.status.value
    ensures p.status.None? ==> r.status == inv.status
  {
    Invoice(
      Pick(p.id, inv.id),
      Pick(p.invoiceNumber, inv.invoiceNumber),
      Pick(p.invoiceType, inv.invoiceType),
      Pick(p.date, inv.date),
      Pick(p.amount, inv.amount),
      Pick(p.vendor, inv.vendor),
      Pick(p.status, inv.status))
  }

  function HasId(id: string): Invoice -> bool
  {
    (inv: Invoice) => inv.id == id
  }

  function LacksId(id: string): Invoice -> bool
  {
    (inv: Invoice) => inv.id != id
  }

  /** `invoices.find(inv => inv.id === id)`. */
  function FindById(invoices: seq<Invoice>, id: string): (r: Option<Invoice>)
    ensures r.None? <==> forall i :: 0 <= i < |invoices| ==> invoices[i].id != id
    ensures r.Some? ==> exists i :: 0 <= i < |invoices| && invoices[i] == r.value && r.value.id == id
                          && forall j :: 0 <= j < i ==> invoices[j].id != id
  {
    var r := Find(invoices, HasId(id));
    if r.Some? then
      var i := FindIndex(invoices, HasId(id)).value;
      assert invoices[i] == r.value && forall j :: 0 <= j < i ==> invoices[j].id != id;
      r
    else r
  }

  /** `invoices.findIndex(inv => inv.id === id)`, with -1 as None. */
  function IndexById(invoices: seq<Invoice>, id: string): (r: Option<nat>)
    ensures r.None? <==> forall i :: 0 <= i < |invoices| ==> invoices[i].id != id
    ensures r.Some? ==> r.value < |invoices| && invoices[r.value].id == id
    ensures r.Some? ==> forall j :: 0 <= j < r.value ==> invoices[j].id != id
  {
    FindIndex(invoices, HasId(id))
  }

  /** `invoices.filter(inv => inv.id !== id)`. */
  function RemoveById(invoices: seq<Invoice>, id: string): (r: seq<Invoice>)
    ensures forall i :: 0 <= i < |r| ==> r[i].id != id && r[i] in invoices
    ensures forall i :: 0 <= i < |invoices| && invoices[i].id != id ==> invoices[i] in r
  {
    Filter(invoices, LacksId(id))
  }

  /** Deleting keeps the surviving records in their original order. */
  lemma RemoveByIdKeepsOrder(invoices: seq<Invoice>, id: string)
    ensures IsSubsequence(RemoveById(invoices, id), invoices)
  {
    FilterIsSubsequence(invoices, LacksId(id));
  }

  /** Deleting twice is deleting once. */
  lemma RemoveByIdIdempotent(invoices: seq<Invoice>, id: string)
    ensures RemoveById(RemoveById(invoices, id), id) == RemoveById(invoices, id)
  {
    FilterIdempotent(invoices, LacksId(id));
  }

  /** Deleting an id nobody has changes nothing. */
  lemma RemoveAbsentId(invoices: seq<Invoice>, id: string)
    requires IndexById(invoices, id).None?
    ensures RemoveById(invoices, id) == invoices
  {
    FilterKeepsAll(invoices, LacksId(id));
  }

  /** Changing one record's status moves no record's id, so the same record
      is found by id afterwards. */
  lemma IndexByIdAfterStatusChange(invoices: seq<Invoice>, i: nat, status: string, id: string)
    requires i < |invoices|
    ensures IndexById(invoices[i := invoices[i].(status := status)], id) == IndexById(invoices, id)
  {
    var changed := invoices[i := invoices[i].(status := status)];
    assert forall j :: 0 <= j < |invoices| ==> changed[j].id == invoices[j].id;
    var a, b := IndexById(changed, id), IndexById(invoices, id);
    if a.Some? && b.Some? {
      assert !(a.value < b.value) && !(b.value < a.value);
    }
  }

  /** `updateStatus(id, 'approved')` then `updateStatus(id, 'pending')` gives
      back the list it started from when that record was pending. */
  lemma StatusRoundTrip(invoices: seq<Invoice>, id: string)
    requires IndexById(invoices, id).Some?
    requires invoices[IndexById(invoices, id).value].status == "pending"
    ensures var i := IndexById(invoices, id).value;
            var approved := invoices[i := invoices[i].(status := "approved")];
            && IndexById(approved, id) == Some(i)
            && approved[i := approved[i].(status := "pending")] == invoices
  {
    var i := IndexById(invoices, id).value;
    IndexByIdAfterStatusChange(invoices, i, "approved", id);
  }

  function NumberOf(inv: Invoice): string
  {
    inv.invoiceNumber
  }

  function IdOf(inv: Invoice): string
  {
    inv.id
  }

  /** No two records share an invoice number. */
  ghost predicate UniqueNumbers(invoices: seq<Invoice>)
  {
    DistinctBy(invoices, NumberOf)
  }

  /** Numbers are unique exactly when looking up any record's number finds
      that very record. */
  lemma UniqueNumbersIffLookupFindsEach(invoices: seq<Invoice>)
    ensures UniqueNumbers(invoices) <==> forall i :: 0 <= i < |invoices| ==>
              FindIndex(invoices, HasNumber(invoices[i].invoiceNumber)) == Some(i)
  {
    if UniqueNumbers(invoices) {
      forall i | 0 <= i < |invoices|
        ensures FindIndex(invoices, HasNumber(invoices[i].invoiceNumber)) == Some(i)
      {
        var r := FindIndex(invoices, HasNumber(invoices[i].invoiceNumber));
        assert HasNumber(invoices[i].invoiceNumber)(invoices[i]);
        assert NumberOf(invoices[r.value]) == NumberOf(invoices[i]);
      }
    }
    if forall i :: 0 <= i < |invoices| ==> FindIndex(invoices, HasNumber(invoices[i].invoiceNumber)) == Some(i) {
      forall i, j | 0 <= i < j < |invoices| ensures NumberOf(invoices[i]) != NumberOf(invoices[j]) {
        var p := HasNumber(invoices[j].invoiceNumber);
        assert FindIndex(invoices, p) == Some(j);
        assert !p(invoices[i]);
      }
    }
  }

  /** No two records share an id. */
  ghost predicate UniqueIds(invoices: seq<Invoice>)
  {
    DistinctBy(invoices, IdOf)
  }

  lemma RemoveByIdKeepsUnique(invoices: seq<Invoice>, id: string)
    ensures UniqueNumbers(invoices) ==> UniqueNumbers(RemoveById(invoices, id))
    ensures UniqueIds(invoices) ==> UniqueIds(RemoveById(invoices, id))
  {
    if UniqueNumbers(invoices) {
      FilterDistinctBy(invoices, LacksId(id), NumberOf);
    }
    if UniqueIds(invoices) {
      FilterDistinctBy(invoices, LacksId(id), IdOf);
    }
  }

  /** The three records the store starts from and `clear` restores. */
  function Seed(): (r: seq<Invoice>)
    ensures |r| == 3 && UniqueNumbers(r) && UniqueIds(r)
  {
    [ Invoice("1", "INV123456", "VAT Special Invoice", "2025-03-15", 12500.0, "Premium Supplier A", "approved"),
      Invoice("2", "INV123457", "VAT General Invoice", "2025-03-10", 8750.5, "Standard Supplier B", "pending"),
      Invoice("3", "INV123458", "Electronic Invoice", "2025-03-05", 3250.0, "Premium Supplier A", "approved") ]
  }

  /** `invoiceStorage`: the ordered list of records, held in memory. */
  class InvoiceStore {
    var invoices: seq<Invoice>

    constructor ()
      ensures invoices == Seed()
    {
      invoices := Seed();
    }

    /** `getAll`: every record, in insertion order. */
    method GetAll() returns (r: seq<Invoice>)
      ensures r == invoices
    {
      r := invoices;
    }

    /** `getById`: the first record with that id, if any. */
    method GetById(id: string) returns (r: Option<Invoice>)
      ensures r.None? <==> forall i :: 0 <= i < |invoices| ==> invoices[i].id != id
      ensures r.Some? ==> r.value.id == id && r.value == invoices[IndexById(invoices, id).value]
    {
      r := FindById(invoices, id);
    }

    /** `create`: validate, then append a pending record with id `newId`. On
        any failure the list is left as it was. */
    method Create(data: Candidate, newId: string) returns (r: Result<Invoice, StoreError>)
      modifies this
      ensures CheckCandidate(old(invoices), data).Some? ==>
                r == Failure(CheckCandidate(old(invoices), data).value) && invoices == old(invoices)
      ensures CheckCandidate(old(invoices), data).None? ==>
                data.amount.Number? && r == Success(NewInvoice(data, newId))
                && invoices == old(invoices) + [r.value]
      ensures r.Success? ==> r.value.status == "pending" && r.value.id == newId
      ensures UniqueNumbers(old(invoices)) ==> UniqueNumbers(invoices)
      ensures (UniqueIds(old(invoices)) && forall i :: 0 <= i < |old(invoices)| ==> old(invoices)[i].id != newId)
                ==> UniqueIds(invoices)
    {
      var check := CheckCandidate(invoices, data);
      if check.Some? {
        r := Failure(check.value);
        return;
      }
      var created := NewInvoice(data, newId);
      invoices := invoices + [created];
      r := Success(created);
    }

    /** `update`: overwrite the first record with that id by its merge with
        `patch`; fail with "Invoice not found" if there is none. */
    method Update(id: string, patch: Patch) returns (r: Result<Invoice, StoreError>)
      modifies this
      ensures IndexById(old(invoices), id).None? ==> r == Failure(NotFound) && invoices == old(invoices)
      ensures IndexById(old(invoices), id).Some? ==>
                var i := IndexById(old(invoices), id).value;
                && invoices == old(invoices)[i := Merge(old(invoices)[i], patch)]
                && r == Success(invoices[i])
      ensures |invoices| == |old(invoices)|
      ensures forall j :: 0 <= j < |invoices| && invoices[j] != old(invoices)[j] ==>
                IndexById(old(invoices), id) == Some(j)
      ensures patch.invoiceNumber.None? && UniqueNumbers(old(invoices)) ==> UniqueNumbers(invoices)
      ensures patch.id.None? && UniqueIds(old(invoices)) ==> UniqueIds(invoices)
    {
      var index := IndexById(invoices, id);
      if index.None? {
        r := Failure(NotFound);
        return;
      }
      var i := index.value;
      invoices := invoices[i := Merge(invoices[i], patch)];
      r := Success(invoices[i]);
    }

    /** `updateStatus`: `update` with the patch `{ status }`. */
    method UpdateStatus(id: string, status: string) returns (r: Result<Invoice, StoreError>)
      modifies this
      ensures IndexById(old(invoices), id).None? ==> r == Failure(NotFound) && invoices == old(invoices)
      ensures IndexById(old(invoices), id).Some? ==>
                var i := IndexById(old(invoices), id).value;
                && invoices == old(invoices)[i := old(invoices)[i].(status := status)]
                && r == Success(invoices[i])
      ensures UniqueNumbers(old(invoices)) ==> UniqueNumbers(invoices)
      ensures UniqueIds(old(invoices)) ==> UniqueIds(invoices)
    {
      r := Update(id, StatusPatch(status));
    }

    /** `delete`: drop every record with that id; an absent id is no error. */
    method Delete(id: string)
      modifies this
      ensures invoices == RemoveById(old(invoices), id)
      ensures UniqueNumbers(old(invoices)) ==> UniqueNumbers(invoices)
    {
      RemoveByIdKeepsUnique(invoices, id);
      invoices := RemoveById(invoices, id);
    }

    /** `clear`: back to the seed records. */
    method Clear()
      modifies this
      ensures invoices == Seed()
    {
      invoices := Seed();
    }
  }

  /** The browser persistence of storage.ts as written: the module-level
      `defaultInvoices` array and the serialized list under the storage key
      (None while the key is unset). */
  datatype Backing = Backing(defaults: seq<Invoice>, stored: Option<seq<Invoice>>)

  /** `create` as written. While the key is unset, `getInvoices` writes the
      defaults to storage and hands back the `defaultInvoices` array itself,
      so a successful `push` also grows the defaults. */
  function CreateAsWritten(b: Backing, data: Candidate, newId: string): (r: Backing)
    ensures b.stored.Some? ==> r.defaults == b.defaults
    ensures r.stored.Some?
  {
    var aliased := b.stored.None?;
    var loaded := if aliased then b.defaults else b.stored.value;
    if CheckCandidate(loaded, data).Some? then Backing(b.defaults, Some(loaded))
    else
      var after := loaded + [NewInvoice(data, newId)];
      Backing(if aliased then after else b.defaults, Some(after))
  }

  /** `clear` as written: store whatever `defaultInvoices` holds now. */
  function ClearAsWritten(b: Backing): (r: Backing)
    ensures r.stored == Some(b.defaults) && r.defaults == b.defaults
  {
    Backing(b.defaults, Some(b.defaults))
  }

  /** On a browser whose storage is empty, a first successful `create`
      followed by `clear` leaves the created record in storage: `clear` does
      not restore the three seed records. */
  lemma ClearAfterFirstCreateKeepsRecord(data: Candidate, newId: string)
    requires CheckCandidate(Seed(), data).None?
    ensures var b := ClearAsWritten(CreateAsWritten(Backing(Seed(), None), data, newId));
            b.stored == Some(Seed() + [NewInvoice(data, newId)]) && b.stored != Some(Seed())
  {
    var after := Seed() + [NewInvoice(data, newId)];
    assert |after| == 4;
  }
}
