/** The order handlers (`src/controllers/orders.controller.ts`) as functions from what
    each handler observes — the parsed body, the request's user identifier, the query
    and what the service call would give — to the answer it sends. A handler that
    answers before reaching the service ignores the service argument: the call is
    never made. */
module OrdersController {
  import opened Common
  import opened JsText
  import opened OrderModel
  import opened Validators
  import opened OrdersService
  import opened Http

  /** `if (!userId)`: an absent or empty identifier counts as no user. */
  predicate HasUserId(userId: Option<string>) {
    userId.Some? && userId.value != ""
  }

  /** The `catch` block every handler shares: a thrown `Error` answers with its message
      and the given status, anything else thrown answers 500 without detail. */
  function Failure<T>(o: Outcome<T>, errorStatus: int): (r: Response)
    requires !o.Returned?
    ensures o.ThrewError? ==> r == Response(errorStatus, ErrorJson(o.message))
    ensures o.ThrewOther? ==> r == Response(500, ErrorJson(InternalError))
  {
    if o.ThrewError? then Response(errorStatus, ErrorJson(o.message))
    else Response(500, ErrorJson(InternalError))
  }

  /** `create`: the body is validated first, then the user is checked, then the
      service runs; 201 with the order, 400 for a validation failure or a service
      `Error`, 401 without a user, 500 for anything else thrown. */
  function Create(parsed: Parsed<CreateOrderInput>, userId: Option<string>, service: Outcome<Order>): (r: Response)
    ensures parsed.Invalid? ==> r == Response(400, ValidationJson(ValidationError, parsed.issues))
    ensures r.status == 401 <==> parsed.Valid? && !HasUserId(userId)
    ensures r.status == 401 ==> r.body == ErrorJson(Unauthorized)
    ensures r.status == 201 <==> parsed.Valid? && HasUserId(userId) && service.Returned?
    ensures r.status == 201 ==> r.body == OrderJson(service.value)
    ensures r.status == 500 <==> parsed.Valid? && HasUserId(userId) && service.ThrewOther?
    ensures parsed.Valid? && HasUserId(userId) && service.ThrewError? ==>
              r == Response(400, ErrorJson(service.message))
  {
    if parsed.Invalid? then Response(400, ValidationJson(ValidationError, parsed.issues))
    else if !HasUserId(userId) then Response(401, ErrorJson(Unauthorized))
    else if service.Returned? then Response(201, OrderJson(service.value))
    else Failure(service, 400)
  }

  /** The query of a listing as it arrives: each parameter may be absent. */
  datatype ListQuery = ListQuery(page: Option<string>, limit: Option<string>, state: Option<string>)

  datatype ListArgs = ListArgs(page: int, limit: int, state: Option<string>)

  /** `parseInt(page) || 1`, `parseInt(limit) || 10`, and the state passed on as given:
      neither number is ever zero, an absent one takes its default, and a present one
      that parses to a non-zero number is kept, sign included. */
  function ListArguments(q: ListQuery): (a: ListArgs)
    ensures a.page != 0 && a.limit != 0
    ensures q.page.None? ==> a.page == 1
    ensures q.limit.None? ==> a.limit == 10
    ensures a.page != 1 ==> q.page.Some? && ParseInt(q.page.value) == Some(a.page)
    ensures a.limit != 10 ==> q.limit.Some? && ParseInt(q.limit.value) == Some(a.limit)
    ensures q.page.Some? && ParseInt(q.page.value).Some? && ParseInt(q.page.value).value != 0 ==>
              a.page == ParseInt(q.page.value).value
    ensures q.limit.Some? && ParseInt(q.limit.value).Some? && ParseInt(q.limit.value).value != 0 ==>
              a.limit == ParseInt(q.limit.value).value
    ensures q.page.Some? && ParseInt(q.page.value) in {None, Some(0)} ==> a.page == 1
    ensures q.limit.Some? && ParseInt(q.limit.value) in {None, Some(0)} ==> a.limit == 10
    ensures a.state == q.state
  {
    ListArgs(NumberOrDefault(q.page, 1), NumberOrDefault(q.limit, 10), q.state)
  }

  /** `list`: the user is checked first; 200 with the page, 400 for a service `Error`,
      500 for anything else thrown. */
  function List(userId: Option<string>, service: Outcome<OrderPage>): (r: Response)
    ensures r.status == 401 <==> !HasUserId(userId)
    ensures r.status == 401 ==> r.body == ErrorJson(Unauthorized)
    ensures r.status == 200 <==> HasUserId(userId) && service.Returned?
    ensures r.status == 200 ==> r.body == PageJson(service.value)
    ensures r.status == 500 <==> HasUserId(userId) && service.ThrewOther?
    ensures HasUserId(userId) && service.ThrewError? ==> r == Response(400, ErrorJson(service.message))
  {
    if !HasUserId(userId) then Response(401, ErrorJson(Unauthorized))
    else if service.Returned? then Response(200, PageJson(service.value))
    else Failure(service, 400)
  }

  /** `advance`: the user is checked first; 200 with the order, 400 for a service
      `Error` (not found, already completed), 500 for anything else thrown. */
  function Advance(userId: Option<string>, service: Outcome<Order>): (r: Response)
    ensures r.status == 401 <==> !HasUserId(userId)
    ensures r.status == 401 ==> r.body == ErrorJson(Unauthorized)
    ensures r.status == 200 <==> HasUserId(userId) && service.Returned?
    ensures r.status == 200 ==> r.body == OrderJson(service.value)
    ensures r.status == 500 <==> HasUserId(userId) && service.ThrewOther?
    ensures HasUserId(userId) && service.ThrewError? ==> r == Response(400, ErrorJson(service.message))
  {
    if !HasUserId(userId) then Response(401, ErrorJson(Unauthorized))
    else if service.Returned? then Response(200, OrderJson(service.value))
    else Failure(service, 400)
  }

  /** Validation comes before the user check: an invalid body is answered 400 with its
      issues whether or not there is a user, and the service is not consulted. */
  lemma CreateRefusesInvalidBodyFirst(issues: seq<Issue>, u1: Option<string>, u2: Option<string>,
                                      s1: Outcome<Order>, s2: Outcome<Order>)
    ensures Create(Invalid(issues), u1, s1) == Create(Invalid(issues), u2, s2)
    ensures Create(Invalid(issues), u1, s1).status == 400
  {
  }

  /** Without a user every handler answers 401 and none consults the service. */
  lemma NoUserNoService(v: CreateOrderInput, s1: Outcome<Order>, s2: Outcome<Order>,
                        p1: Outcome<OrderPage>, p2: Outcome<OrderPage>, u: Option<string>)
    requires !HasUserId(u)
    ensures Create(Valid(v), u, s1) == Create(Valid(v), u, s2) == Response(401, ErrorJson(Unauthorized))
    ensures List(u, p1) == List(u, p2) == Response(401, ErrorJson(Unauthorized))
    ensures Advance(u, s1) == Advance(u, s2) == Response(401, ErrorJson(Unauthorized))
  {
  }
}
