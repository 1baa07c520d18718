/** The order record and the constraints and defaults its persistence schema imposes
    (`src/models/Order.ts`), with the three enumerations it uses. The schema's `enum`
    constraints hold by typing here: a state, status or service status can only be a
    member of its datatype. */
module OrderModel {
  import opened Common

  /** Lifecycle of an order. */
  datatype OrderState = CREATED | ANALYSIS | COMPLETED

  /** Soft-delete flag; no operation sets DELETED, but listings filter on ACTIVE. */
  datatype OrderStatus = ACTIVE | DELETED

  /** Per-line-item status; no operation sets DONE. */
  datatype ServiceStatus = PENDING | DONE

  /** The string a state is stored and queried as. */
  function StateName(s: OrderState): string {
    match s
    case CREATED => "CREATED"
    case ANALYSIS => "ANALYSIS"
    case COMPLETED => "COMPLETED"
  }

  /** The enumeration member a string names, if any (`z.nativeEnum(ServiceStatus)`). */
  function ServiceStatusNamed(name: string): (r: Option<ServiceStatus>)
    ensures r == Some(PENDING) <==> name == "PENDING"
    ensures r == Some(DONE) <==> name == "DONE"
    ensures r.None? <==> name != "PENDING" && name != "DONE"
  {
    if name == "PENDING" then Some(PENDING)
    else if name == "DONE" then Some(DONE)
    else None
  }

  datatype Service = Service(name: string, value: int, status: ServiceStatus)

  /** A stored order. `id` and `createdAt` are assigned by the store. */
  datatype Order = Order(
    id: nat,
    lab: string,
    patient: string,
    customer: string,
    services: seq<Service>,
    state: OrderState,
    status: OrderStatus,
    userId: string,
    createdAt: nat
  )

  /** What a caller hands to the schema: the fields with a default may be left out. */
  datatype ServiceDraft = ServiceDraft(name: string, value: int, status: Option<ServiceStatus>)

  datatype OrderDraft = OrderDraft(
    lab: string,
    patient: string,
    customer: string,
    services: seq<ServiceDraft>,
    state: Option<OrderState>,
    status: Option<OrderStatus>,
    userId: string
  )

  const DefaultState: OrderState := CREATED
  const DefaultStatus: OrderStatus := ACTIVE
  const DefaultServiceStatus: ServiceStatus := PENDING

  /** Message of the error the schema raises when a draft violates a constraint. */
  const ValidationFailed: string := "Order validation failed"

  /** A required string is present and not empty; a number with `min: 0` is not negative. */
  predicate ServiceWellFormed(s: Service) {
    |s.name| > 0 && s.value >= 0
  }

  /** Every constraint of the order schema holds of a stored order. */
  predicate WellFormed(o: Order) {
    && |o.lab| > 0
    && |o.patient| > 0
    && |o.customer| > 0
    && |o.services| > 0
    && (forall i :: 0 <= i < |o.services| ==> ServiceWellFormed(o.services[i]))
    && |o.userId| > 0
  }

  predicate ServiceDraftAccepted(s: ServiceDraft) {
    |s.name| > 0 && s.value >= 0
  }

  /** The schema's validation of a draft handed to `Order.create`. */
  predicate DraftAccepted(d: OrderDraft) {
    && |d.lab| > 0
    && |d.patient| > 0
    && |d.customer| > 0
    && |d.services| > 0
    && (forall i :: 0 <= i < |d.services| ==> ServiceDraftAccepted(d.services[i]))
    && |d.userId| > 0
  }

  function WithDefault<T>(o: Option<T>, default: T): T {
    if o.Some? then o.value else default
  }

  function MaterializeService(s: ServiceDraft): (r: Service)
    ensures r.name == s.name && r.value == s.value
    ensures r.status == WithDefault(s.status, DefaultServiceStatus)
    ensures ServiceDraftAccepted(s) <==> ServiceWellFormed(r)
  {
    Service(s.name, s.value, WithDefault(s.status, DefaultServiceStatus))
  }

  /** `Order.create`: validate the draft against the schema, then fill in the defaults.
      On success the record satisfies every schema constraint and keeps every field
      the draft gave, in order; on failure nothing is created. */
  function SchemaCreate(d: OrderDraft, id: nat, createdAt: nat): (r: Result<Order>)
    ensures r.Ok? <==> DraftAccepted(d)
    ensures r.Err? ==> r.message == ValidationFailed
    ensures r.Ok? ==> WellFormed(r.value)
    ensures r.Ok? ==>
              && r.value.id == id && r.value.createdAt == createdAt
              && r.value.lab == d.lab && r.value.patient == d.patient
              && r.value.customer == d.customer && r.value.userId == d.userId
              && r.value.state == WithDefault(d.state, DefaultState)
              && r.value.status == WithDefault(d.status, DefaultStatus)
              && |r.value.services| == |d.services|
              && (forall i :: 0 <= i < |d.services| ==>
                    r.value.services[i] == MaterializeService(d.services[i]))
  {
    if !DraftAccepted(d) then Err(ValidationFailed)
    else
      var services := seq(|d.services|, i requires 0 <= i < |d.services| =>
                            MaterializeService(d.services[i]));
      Ok(Order(id, d.lab, d.patient, d.customer, services,
               WithDefault(d.state, DefaultState), WithDefault(d.status, DefaultStatus),
               d.userId, createdAt))
  }
}
