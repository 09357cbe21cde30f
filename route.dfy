/** The mock invoice endpoint of src/app/api/invoices/route.ts: `GET` returns the
    module-level `mockInvoices` list and `POST` validates a request body the same
    way the store does before appending to it. */
module Route {
  import opened Wrappers
  import opened Storage

  /** The JSON body of a response. */
  datatype Body = ErrorBody(error: string) | Created(invoice: Invoice) | Listing(invoices: seq<Invoice>)

  datatype Response = Response(status: nat, body: Body)

  /** A request body: either JSON that `request.json()` reads as an object of
      invoice fields, or a body that makes the handler throw before any check
      (not JSON at all, or JSON `null`). */
  datatype RequestBody = Malformed | Json(candidate: Candidate)

  /** The status and message of each validation failure: always 400. */
  function Rejection(e: StoreError): (resp: Response)
    ensures resp.status == 400 && resp.body == ErrorBody(Message(e))
  {
    Response(400, ErrorBody(Message(e)))
  }

  class InvoicesRoute {
    var mockInvoices: seq<Invoice>

    /** The module starts with the same three records as the store's seed. */
    constructor ()
      ensures mockInvoices == Seed()
    {
      mockInvoices := Seed();
    }

    /** `GET`: the whole list, in insertion order, with status 200. */
    method Get() returns (resp: Response)
      ensures resp.status == 200 && resp.body == Listing(mockInvoices)
    {
      resp := Response(200, Listing(mockInvoices));
    }

    /** `POST`: the first failing check answers 400 and leaves the list alone; a
        body that does not parse answers 500; otherwise the new record, with id
        `newId` and status `pending` whatever the body said, is appended and
        returned with 201. */
    method Post(body: RequestBody, newId: string) returns (resp: Response)
      modifies this
      ensures body.Malformed? ==>
                resp == Response(500, ErrorBody("Failed to save invoice")) && mockInvoices == old(mockInvoices)
      ensures body.Json? && CheckCandidate(old(mockInvoices), body.candidate).Some? ==>
                resp == Rejection(CheckCandidate(old(mockInvoices), body.candidate).value)
                && mockInvoices == old(mockInvoices)
      ensures body.Json? && CheckCandidate(old(mockInvoices), body.candidate).None? ==>
                body.candidate.amount.Number?
                && resp == Response(201, Created(NewInvoice(body.candidate, newId)))
                && mockInvoices == old(mockInvoices) + [resp.body.invoice]
      ensures resp.status == 201 ==> resp.body.Created? && resp.body.invoice.id == newId
                                     && resp.body.invoice.status == "pending"
      ensures resp.status in {201, 400, 500}
      ensures UniqueNumbers(old(mockInvoices)) ==> UniqueNumbers(mockInvoices)
    {
      if body.Malformed? {
        return Response(500, ErrorBody("Failed to save invoice"));
      }
      var invoiceData := body.candidate;
      var check := CheckCandidate(mockInvoices, invoiceData);
      if check.Some? {
        return Rejection(check.value);
      }
      var newInvoice := NewInvoice(invoiceData, newId);
      mockInvoices := mockInvoices + [newInvoice];
      resp := Response(201, Created(newInvoice));
    }
  }
}
