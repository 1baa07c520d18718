/** The HTTP answers the controllers send: a status code and a JSON body. */
module Http {
  import opened OrderModel
  import opened Validators
  import opened OrdersService
  import opened AuthService

  const ValidationError: string := "Validation error"
  const Unauthorized: string := "Unauthorized"
  const InternalError: string := "Internal server error"

  datatype Body =
    | ErrorJson(error: string)                  // { error }
    | ValidationJson(error: string, details: seq<Issue>)  // { error, details: [{ field, message }] }
    | OrderJson(order: Order)
    | PageJson(page: OrderPage)                 // { orders, pagination }
    | AuthJson(auth: AuthResponse)              // { user: { id, email }, token }

  datatype Response = Response(status: int, body: Body)
}
