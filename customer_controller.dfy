// backend/src/controllers/customerController.ts. Apart from getAllCustomers,
// the store calls these handlers make have no implementation to model, so
// each handler is stated over what its lookup returns and ends either in a
// refusal or in the write it would issue.
module CustomerController {
  import opened Common

  type CustomerId = string

  /** A row of customers. */
  datatype Customer = Customer(
    customerId: CustomerId, name: string, email: string, phone: string,
    address: string, city: string, country: string, neighborhood: string, createdAt: string)

  /** The seven fields the handlers read from req.body; absent when missing. */
  datatype CustomerBody = CustomerBody(
    name: Option<string>, email: Option<string>, phone: Option<string>, address: Option<string>,
    city: Option<string>, country: Option<string>, neighborhood: Option<string>)

  /** The record postCustomer and putCustomer hand to the store. */
  datatype CustomerRecord = CustomerRecord(
    name: string, email: string, phone: string, address: string,
    city: string, country: string, neighborhood: string, createdAt: string)

  /** The store write a handler issues once its guards pass. */
  datatype Write =
    | InsertCustomer(record: CustomerRecord)
    | UpdateCustomer(customerId: CustomerId, record: CustomerRecord)
    | DeleteCustomer(customerId: CustomerId)

  /** Where a handler stops: refused with an error, or at a store write. */
  datatype Step = Refuse(failure: Failure) | Call(write: Write)

  const InternalError := "Internal Server Error"
  const FieldsRequired := "All fields are required!"
  const NotFound := "Customer not found!"
  const Deleted := "Customer deleted successfully!"
  const GetIdRequired := "The id of customer is required!"
  const IdRequired := "Customer id is required!"

  /** The response to a step, given what the write returned. */
  function StepResponse<T>(step: Step, written: Result<T>, okStatus: int): (resp: Response<T>)
    ensures step.Refuse? ==> resp == ErrorResponse(step.failure, InternalError)
    ensures step.Call? ==> resp == Respond(written, okStatus, InternalError)
  {
    match step
    case Refuse(f) => ErrorResponse(f, InternalError)
    case Call(_) => Respond(written, okStatus, InternalError)
  }

  /** getAllCustomers. The service returns the query's promise without
      awaiting it, so a failed read escapes the service's own catch and
      reaches the handler as a plain error. */
  function GetAllCustomersResponse(customers: seq<Customer>, readFails: bool): (resp: Response<seq<Customer>>)
    ensures !readFails ==> resp == Response(200, Success(customers))
    ensures readFails ==> resp == Response(500, Failed(InternalError))
  {
    Respond(if readFails then Err(Fault) else Ok(customers), 200, InternalError)
  }

  /** The guards getCustomerById, putCustomer and deleteCustomer share: the id
      param, then the lookup. */
  function Existing(customerId: CustomerId, lookup: Result<Option<Customer>>, idMessage: string): (r: Result<Customer>)
    ensures customerId == "" ==> r == Err(AppError(400, idMessage))
    ensures customerId != "" && lookup.Err? ==> r == Err(lookup.error)
    ensures customerId != "" && lookup == Ok(None) ==> r == Err(AppError(404, NotFound))
    ensures r.Ok? <==> customerId != "" && lookup.Ok? && lookup.value.Some?
    ensures r.Ok? ==> r.value == lookup.value.value
  {
    if customerId == "" then Err(AppError(400, idMessage))
    else
      match lookup
      case Err(e) => Err(e)
      case Ok(None) => Err(AppError(404, NotFound))
      case Ok(Some(c)) => Ok(c)
  }

  /** getCustomerById */
  function GetCustomerByIdResponse(customerId: CustomerId, lookup: Result<Option<Customer>>): (resp: Response<Customer>)
    ensures resp.body.Success? <==> customerId != "" && lookup.Ok? && lookup.value.Some?
    ensures resp.body.Success? ==> resp == Response(200, Success(lookup.value.value))
    ensures customerId == "" ==> resp == Response(400, Failed(GetIdRequired))
    ensures customerId != "" && lookup == Ok(None) ==> resp == Response(404, Failed(NotFound))
  {
    match Existing(customerId, lookup, GetIdRequired)
    case Err(e) => ErrorResponse(e, InternalError)
    case Ok(c) => Response(200, Success(c))
  }

  /** `!name || !email || ... || !neighborhood` is false. */
  predicate AllFieldsPresent(body: CustomerBody)
  {
    && Truthy(body.name) && Truthy(body.email) && Truthy(body.phone) && Truthy(body.address)
    && Truthy(body.city) && Truthy(body.country) && Truthy(body.neighborhood)
  }

  /** postCustomer: the seven fields and the date as created_at. */
  function PostCustomerStep(body: CustomerBody, date: string): (step: Step)
    ensures step.Call? <==> AllFieldsPresent(body)
    ensures step.Refuse? ==> step.failure == AppError(400, FieldsRequired)
    ensures step.Call? ==> step.write == InsertCustomer(CustomerRecord(
      body.name.value, body.email.value, body.phone.value, body.address.value,
      body.city.value, body.country.value, body.neighborhood.value, date))
  {
    if !AllFieldsPresent(body) then Refuse(AppError(400, FieldsRequired))
    else
      Call(InsertCustomer(CustomerRecord(
        body.name.value, body.email.value, body.phone.value, body.address.value,
        body.city.value, body.country.value, body.neighborhood.value, date)))
  }

  /** `given || stored`: the body's value when truthy, otherwise the stored one. */
  function Fallback(given: Option<string>, stored: string): (v: string)
    ensures Truthy(given) ==> v == given.value
    ensures !Truthy(given) ==> v == stored
  {
    if Truthy(given) then given.value else stored
  }

  /** The record putCustomer builds from the body and the stored row. */
  function Merged(body: CustomerBody, stored: Customer): CustomerRecord
  {
    CustomerRecord(
      Fallback(body.name, stored.name), Fallback(body.email, stored.email),
      Fallback(body.phone, stored.phone), Fallback(body.address, stored.address),
      Fallback(body.city, stored.city), Fallback(body.country, stored.country),
      Fallback(body.neighborhood, stored.neighborhood), stored.createdAt)
  }

  /** The row as it would be after the update. */
  function Updated(stored: Customer, rec: CustomerRecord): Customer
  {
    Customer(stored.customerId, rec.name, rec.email, rec.phone, rec.address, rec.city, rec.country,
             rec.neighborhood, rec.createdAt)
  }

  /** putCustomer */
  function PutCustomerStep(customerId: CustomerId, lookup: Result<Option<Customer>>, body: CustomerBody): (step: Step)
    ensures step.Call? <==> Existing(customerId, lookup, IdRequired).Ok?
    ensures step.Refuse? ==> step.failure == Existing(customerId, lookup, IdRequired).error
    ensures step.Call? ==> step.write == UpdateCustomer(customerId, Merged(body, lookup.value.value))
  {
    match Existing(customerId, lookup, IdRequired)
    case Err(e) => Refuse(e)
    case Ok(stored) => Call(UpdateCustomer(customerId, Merged(body, stored)))
  }

  /** deleteCustomer */
  function DeleteCustomerStep(customerId: CustomerId, lookup: Result<Option<Customer>>): (step: Step)
    ensures step.Call? <==> Existing(customerId, lookup, IdRequired).Ok?
    ensures step.Refuse? ==> step.failure == Existing(customerId, lookup, IdRequired).error
    ensures step.Call? ==> step.write == DeleteCustomer(customerId)
  {
    match Existing(customerId, lookup, IdRequired)
    case Err(e) => Refuse(e)
    case Ok(_) => Call(DeleteCustomer(customerId))
  }

  /** deleteCustomer answers 200, not 201, with its message. */
  function DeleteCustomerResponse(customerId: CustomerId, lookup: Result<Option<Customer>>, written: Result<()>)
    : (resp: Response<string>)
    ensures resp.body.Success? <==> DeleteCustomerStep(customerId, lookup).Call? && written.Ok?
    ensures resp.body.Success? ==> resp == Response(200, Success(Deleted))
  {
    StepResponse(DeleteCustomerStep(customerId, lookup), if written.Ok? then Ok(Deleted) else Err(written.error), 200)
  }

  /** A field the body leaves out, or sends empty, keeps its stored value, so
      no field can be cleared; created_at is always the stored one. */
  lemma EmptyStringCannotClear(body: CustomerBody, stored: Customer)
    requires stored.name != "" && stored.email != "" && stored.phone != "" && stored.address != ""
    requires stored.city != "" && stored.country != "" && stored.neighborhood != ""
    ensures var rec := Merged(body, stored);
      && rec.name != "" && rec.email != "" && rec.phone != "" && rec.address != ""
      && rec.city != "" && rec.country != "" && rec.neighborhood != ""
      && rec.createdAt == stored.createdAt
    ensures Merged(CustomerBody(Some(""), Some(""), Some(""), Some(""), Some(""), Some(""), Some("")), stored)
      == Merged(CustomerBody(None, None, None, None, None, None, None), stored)
  {
  }

  /** An empty body rewrites the row with its own values. */
  lemma EmptyBodyRewritesStoredRow(stored: Customer)
    ensures Updated(stored, Merged(CustomerBody(None, None, None, None, None, None, None), stored)) == stored
  {
  }

  /** Sending the same body twice updates the row once: the second merge
      against the updated row gives the same record. */
  lemma MergeIdempotent(body: CustomerBody, stored: Customer)
    ensures var rec := Merged(body, stored);
      Merged(body, Updated(stored, rec)) == rec
  {
  }

  /** A merge takes every truthy body field, whatever was stored. */
  lemma FullBodyOverridesRow(body: CustomerBody, stored: Customer)
    requires AllFieldsPresent(body)
    ensures Merged(body, stored) == CustomerRecord(
      body.name.value, body.email.value, body.phone.value, body.address.value,
      body.city.value, body.country.value, body.neighborhood.value, stored.createdAt)
  {
  }

  /** No update or delete is issued unless the lookup found the row: a missing
      id is a 400, an unknown customer a 404. */
  lemma NoWriteWithoutRow(customerId: CustomerId, lookup: Result<Option<Customer>>, body: CustomerBody)
    requires customerId == "" || lookup == Ok(None)
    ensures PutCustomerStep(customerId, lookup, body).Refuse?
    ensures DeleteCustomerStep(customerId, lookup).Refuse?
    ensures StepResponse(PutCustomerStep(customerId, lookup, body), Ok(()), 201).status
      == (if customerId == "" then 400 else 404)
  {
  }

  /** The service's own 400 for a failed read is never the answer: the
      handler answers a failed read with 500. */
  lemma ReadFailureIs500(customers: seq<Customer>)
    ensures GetAllCustomersResponse(customers, true).status == 500
    ensures GetAllCustomersResponse(customers, true) != Response(400, Failed("Error getting customers"))
  {
  }
}
