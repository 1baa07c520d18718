# Order-management API: a Dafny model

This project models the business logic of a small multi-tenant order API. Users
register and log in with an email and password and receive a bearer token. Holding a
token, they create "lab orders" (lab, patient, customer, a list of priced services),
list their own orders page by page, and advance an order through the fixed lifecycle
CREATED → ANALYSIS → COMPLETED.

Every layer is a pure function over immutable data:

- `JsText`: the JavaScript behaviour the code depends on. This covers `parseInt`
  (white space, sign, `0x` prefix, longest digit run, NaN), `split(' ')`, UTF-16
  `length`, and the decimal rendering of identifiers.
- `Crypto`: bcrypt and JSON Web Tokens. They are function-valued fields of a record
  passed to the operations. The three facts assumed about them are stated in `Sound`
  and required only by the lemmas that need them:
  - `compare(p, hash(p, 10))` holds;
  - `verify(sign(c)) = Some(c)`;
  - a signed token contains no space.
- `OrderModel`: the persisted order record and the constraints and defaults of its
  schema (`src/models/Order.ts`).
- `Validators`: the three request schemas. Each is written as an acceptance predicate
  plus a parse that yields the typed input or the list of issues.
- `OrdersService`: create, list, look up and advance orders. It works over an
  in-memory store: records in insertion order, plus a counter that hands out
  identifiers and creation times.
- `AuthService`: register and login over an in-memory user map keyed by email.
- `AuthGate`: the four-step bearer-header check.
- `OrdersController`, `AuthController`: check ordering, query defaulting, and the
  mapping from errors to status codes.
- `App`: the routes composed. For order routes the gate runs first, then the
  handler, then the service. The auth routes have no gate.

The code imports the enumerations `OrderState`, `OrderStatus` and `ServiceStatus` from
a shared types module, whose definitions are not part of this model. The model takes
the members of `OrderState` from the service's transition table. It gives
`OrderStatus` the members ACTIVE and DELETED, and `ServiceStatus` the members PENDING
and DONE. No operation produces DELETED or DONE.

Behaviours of the code worth knowing:

- Looking up or advancing an order is scoped only by identifier and owner. It does
  not filter on status ACTIVE, so a DELETED order could still be advanced. Only
  listings filter on ACTIVE.
- An empty service list is not refused by the service's own check as a validation
  error. It is refused by the total check ("Total order value must be greater than
  0"). Per-item positivity is enforced only by the request schema. The persistence
  schema admits a value of zero.
- Gate failures carry the code's messages: "No token provided", "Token error",
  "Token malformatted" and "Token invalid". A duplicate email answers 400. Not
  found and already completed answer 400.

## Model

| member | source | states |
|---|---|---|
| `JsText.NumberOrDefault` | src/controllers/orders.controller.ts:43-44 | `parseInt(q) \|\| d` is never 0 when d is not 0. An absent parameter gives d. A different result is exactly what `parseInt` read from the parameter. Any non-zero parse, negative ones included, is kept. |
| `JsText.ParseIntOfNatToString` | src/controllers/orders.controller.ts:43-44 | `parseInt` reads back the decimal rendering of every natural number. |
| `JsText.NumberOrDefaultOfPositive` | src/controllers/orders.controller.ts:43-44 | A page or limit parameter holding a positive decimal number is used as given. |
| `JsText.NatToString` | src/services/auth.service.ts:19 | An identifier's string form is non-empty, all decimal digits, and starts with '0' only for 0. |
| `JsText.Split` | src/middlewares/auth.middleware.ts:18 | `split(' ')` gives one more part than there are spaces, and no part contains a space. |
| `JsText.JoinSplit` | src/middlewares/auth.middleware.ts:18 | Joining the parts of a split with the separator rebuilds the header exactly. |
| `JsText.SplitAround` | src/middlewares/auth.middleware.ts:18-25 | Two space-free words joined by one space split into exactly those two words. |
| `JsText.SplitTwoParts` | src/middlewares/auth.middleware.ts:18-25 | A split into two parts is the header cut at its only space. |
| `JsText.Utf16Length` | src/utils/validators.ts:6 | A string's JavaScript length is between its character count and twice that. |
| `OrderModel.ServiceStatusNamed` | src/utils/validators.ts:23 | A status string names PENDING or DONE exactly when it is that name, and nothing otherwise. |
| `OrderModel.MaterializeService` | src/models/Order.ts:6-24 | A stored line item keeps name and value, takes status PENDING when none is given, and is well-formed exactly when its draft passes the schema. |
| `OrderModel.SchemaCreate` | src/models/Order.ts:26-66 | A draft is stored exactly when every schema constraint holds. Strings must be present and non-empty, services non-empty, each with a name and a value of at least 0. The stored record is well-formed, keeps every given field and item in order, and defaults state to CREATED and status to ACTIVE. Otherwise the validation error is raised. |
| `Validators.ParseRegister` | src/utils/validators.ts:4-7 | Registration input is accepted iff the email satisfies the email predicate and the password is at least 6 UTF-16 units long. Accepted input keeps both fields. Refused input has at least one issue. |
| `Validators.ParseLogin` | src/utils/validators.ts:9-12 | Login input is accepted iff the email satisfies the email predicate and the password is non-empty. |
| `Validators.RegisterAcceptedLoginAccepted` | src/utils/validators.ts:4-12 | Any input the register schema accepts, the login schema accepts with the same result. |
| `Validators.ServiceIssues` | src/utils/validators.ts:20-24 | A line item has no issues iff its name is non-empty, its value is strictly positive, and its status is absent or a member of the enumeration. |
| `Validators.ElementIssues` | src/utils/validators.ts:18-25 | The element issues of a service array are empty iff every element is accepted. |
| `Validators.ServicesIssues` | src/utils/validators.ts:18-26 | The services field has no issues iff it is present, holds at least one service, and every service is accepted. |
| `Validators.ParseCreateOrder` | src/utils/validators.ts:14-27 | A create-order body is accepted iff lab, patient and customer are non-empty and there is at least one service, each accepted. The typed input keeps every field and every service in order. Otherwise there is at least one issue. |
| `Validators.SchemaWeakerThanValidator` | src/models/Order.ts:12-16 | Every line item the validator accepts passes the persistence schema. The schema also admits a value of 0, which the validator refuses. |
| `OrdersService.PositiveItemsPositiveTotal` | src/services/orders.service.ts:6-10 | A non-empty list of strictly positive values has a strictly positive total. |
| `OrdersService.PendingServices` | src/services/orders.service.ts:12-15 | The line items keep their names, values and order, and each gets status PENDING whatever the request said. |
| `OrdersService.CreateOrder` | src/services/orders.service.ts:5-28 | Fails with "Total order value must be greater than 0" exactly when the total is 0 or less, and then changes nothing. Succeeds exactly when the total is positive and the persistence schema admits the record: names and owner non-empty, at least one item, each named and worth at least 0. Any other failure is the schema's validation error and leaves the store unchanged. Success appends exactly one well-formed record with the request's fields and owner, PENDING items, state CREATED, status ACTIVE, and the next identifier and creation time. |
| `OrdersService.ValidatedCreateSucceeds` | src/services/orders.service.ts:6-25 | Input the create-order schema accepted, from a caller with a non-empty identifier, has a positive total and is always created. Neither the total check nor the persistence schema fires. |
| `OrdersService.CreatePreservesValidStore` | src/services/orders.service.ts:17-25 | Creation keeps the store invariant: records well-formed, unique identifiers, and creation times strictly increasing and below the counter. |
| `OrdersService.Matches` | src/services/orders.service.ts:32-40 | The listing query yields exactly the caller's ACTIVE records, of the given state when a non-empty state is given. They come newest first by strictly decreasing creation time. |
| `OrdersService.CeilDiv` | src/services/orders.service.ts:52 | `Math.ceil(total / limit)` is the fewest pages of `limit` records that hold `total`. |
| `OrdersService.GetOrders` | src/services/orders.service.ts:30-55 | For page ≥ 1 and limit ≥ 1: the matches from position (page-1)*limit on, at most `limit` of them. `total` is the number of matches and `pages` their page count. Only the caller's listed records appear, newest first. |
| `OrdersService.PageNonEmptyIff` | src/services/orders.service.ts:41-52 | A page holds records exactly when its number is at most the page count. |
| `OrdersService.MatchOnItsPage` | src/services/orders.service.ts:31-42 | The match at position k is entry k mod limit of page k div limit + 1. |
| `OrdersService.FindOwned` | src/services/orders.service.ts:58 | The lookup finds the first record with that identifier and owner, and finds none iff no record has both. |
| `OrdersService.GetOrderById` | src/services/orders.service.ts:57-63 | The result is the caller's record with that identifier. If there is none, the answer is "Order not found", whether the identifier is unknown or belongs to someone else. |
| `OrdersService.LookupSeesOwnedOnly` | src/services/orders.service.ts:58 | A lookup finds the same record among the caller's own records as in the whole store. |
| `OrdersService.LookupIgnoresOtherOwners` | src/services/orders.service.ts:57-63 | Two stores holding the same records of the caller answer every lookup by that caller alike. |
| `OrdersService.Next` | src/services/orders.service.ts:68-72 | The transition table moves exactly one step forward in the lifecycle and has no step from COMPLETED. |
| `OrdersService.AdvanceOrderState` | src/services/orders.service.ts:65-84 | Fails with "Order not found" iff the lookup fails. Fails with "Order is already completed and cannot be advanced" iff the found order is COMPLETED. Succeeds iff the caller's order is found and is not COMPLETED, and no other message is ever raised. A failure leaves the store unchanged. Success moves that record's state to the transition table's next state, changes nothing else in it, and leaves every other record untouched. |
| `OrdersService.AdvanceKeepsPosition` | src/services/orders.service.ts:80-81 | After an advance the same identifier and owner still address the same record, which now holds the next state. |
| `OrdersService.AdvancePreservesValidStore` | src/services/orders.service.ts:80-81 | Advancing keeps the store invariant, including schema well-formedness. |
| `OrdersService.CreatedOrderLifecycle` | src/services/orders.service.ts:65-84 | A fresh order advanced three times becomes ANALYSIS, then COMPLETED. The third advance is refused as already completed and changes nothing. |
| `AuthService.Register` | src/services/auth.service.ts:7-28 | A taken email fails with "Email already registered" and changes nothing. Otherwise exactly one user is added under that email, with the next identifier and `hash(password, 10)`. The answer holds only the identifier, the email and a token signed for them. |
| `AuthService.Login` | src/services/auth.service.ts:30-50 | Fails with "Invalid credentials" iff the email is unknown or the password does not match the stored hash, with the same message for both. Otherwise answers with the stored user's identifier and email and a token signed for them. |
| `AuthService.RegisterPreservesValidUsers` | src/services/auth.service.ts:8-17 | Registration keeps users filed under their own email with unique identifiers. |
| `AuthService.RegisterThenLogin` | src/services/auth.service.ts:7-50 | Under the hashing and token assumptions, logging in with the credentials just registered succeeds. The answer names the same identifier and email, and its token verifies to them. The token is also equal to the one registration issued, but only because the modelled `sign` reads no clock; the real tokens carry issue and expiry times. |
| `AuthService.IssuedTokenVerifies` | src/services/auth.service.ts:52-57 | An issued token verifies to the user's identifier and email. |
| `AuthService.DistinctRegistrationsDistinctTokens` | src/services/auth.service.ts:13-19 | Under the token assumptions, two successive registrations of different emails both succeed, with different identifiers and different tokens. |
| `JsText.NatToStringInjective` | src/services/auth.service.ts:19 | Distinct identifiers render as distinct strings, so the rendered identifier names exactly one user or order. |
| `AuthService.LoginAnswerIgnoresHash` | src/services/auth.service.ts:43-49 | Stores that differ only in stored hashes give identical successful login answers, so the hash never reaches a response. |
| `AuthService.RegisterAnswerIgnoresHash` | src/services/auth.service.ts:21-27 | The registration answer does not depend on the hash function. |
| `AuthService.RegisterTwice` | src/services/auth.service.ts:8-11 | A second registration of the same email fails whatever the password and leaves the store as the first left it. |
| `AuthGate.Gate` | src/middlewares/auth.middleware.ts:5-51 | An absent or empty header gives exactly "No token provided". Otherwise, a space count other than one gives exactly "Token error". Every rejection carries one of the four messages. Admission requires one space, a "Bearer" scheme in any case, and a token that verifies to the admitted user's claims. |
| `AuthGate.GateOnSchemeAndToken` | src/middlewares/auth.middleware.ts:25-46 | For a header of the form scheme, one space, token: a scheme that is not "Bearer" in any case gives "Token malformatted". Otherwise a token that fails verification gives "Token invalid". Otherwise the request is admitted with the verified id and email. |
| `AuthGate.GateSeesSchemeAndToken` | src/middlewares/auth.middleware.ts:18-25 | Every header with exactly one space is such a scheme-space-token header. |
| `AuthGate.DoubleSpaceIsTokenError` | src/middlewares/auth.middleware.ts:18-23 | "Bearer  x" (two spaces) is refused with "Token error". |
| `OrdersController.Failure` | src/controllers/orders.controller.ts:28-31 | A thrown `Error` answers its message with the handler's error status. Anything else thrown answers 500 "Internal server error". |
| `OrdersController.Create` | src/controllers/orders.controller.ts:10-33 | An invalid body answers 400 with "Validation error" and its issues. Otherwise a missing user answers 401 "Unauthorized". Otherwise 201 with the order, 400 with a service error's message, or 500 for a non-Error throw. |
| `OrdersController.ListArguments` | src/controllers/orders.controller.ts:43-45 | Page and limit are never 0. Each takes its default, 1 and 10, when absent or when the parse gives NaN or 0. A parse giving any other number, negative ones included, is kept. A value other than the default always comes from the parse. The state passes through unchanged. |
| `OrdersController.List` | src/controllers/orders.controller.ts:35-55 | A missing user answers 401 "Unauthorized". Otherwise 200 with the page, 400 with a service error's message, or 500 for a non-Error throw. |
| `OrdersController.Advance` | src/controllers/orders.controller.ts:57-74 | A missing user answers 401 "Unauthorized". Otherwise 200 with the order, 400 with a service error's message, or 500 for a non-Error throw. |
| `OrdersController.CreateRefusesInvalidBodyFirst` | src/controllers/orders.controller.ts:12-27 | An invalid body answers 400 whatever the user and whatever the service would do, so validation precedes the user check. |
| `OrdersController.NoUserNoService` | src/controllers/orders.controller.ts:10-74 | Without a user all three handlers answer 401 "Unauthorized" without consulting the service. |
| `AuthController.Register` | src/controllers/auth.controller.ts:9-26 | An invalid body answers 400 with "Validation error" and its issues. Otherwise 201 with the answer, 400 with a service error's message (such as a taken email), or 500 for a non-Error throw. |
| `AuthController.Login` | src/controllers/auth.controller.ts:28-45 | An invalid body answers 400 with "Validation error" and its issues. Otherwise 200 with the answer, 401 with a service error's message, or 500 for a non-Error throw. |
| `AuthController.InvalidBodyIgnoresService` | src/controllers/auth.controller.ts:9-45 | A refused body is answered without consulting the service. |
| `App.HandleOrderRequest` | src/routes/orders.routes.ts:8-12 | A header the gate rejects answers 401 with the gate's message and leaves the store unchanged. An admitted request reaches its handler once, with the verified user. |
| `App.HandleOrderPreservesValidStore` | src/routes/orders.routes.ts:8-12 | Every answered order request keeps the store invariant. |
| `App.OrderWritesOnlyOnSuccess` | src/routes/orders.routes.ts:8-12 | The store changes only when a create answers 201 or an advance answers 200. |
| `App.CreateRefusalsComeFromValidation` | src/controllers/orders.controller.ts:12-19 | Through the route, the service's total check and the persistence schema never answer. A create answers 201 iff the gate admits a non-empty user and the body satisfies the create-order schema. |
| `App.IssuedTokenPassesGate` | src/middlewares/auth.middleware.ts:18-46 | Under the token assumptions, "Bearer " followed by an issued token is admitted as exactly that user's id and email. |
| `App.HandleAuthRequest` | src/controllers/auth.controller.ts:9-45 | Login never changes the user store. Only a registration answering 201 does. |
| `App.HandleAuthPreservesValidUsers` | src/controllers/auth.controller.ts:9-26 | Every auth request keeps the user store invariant. |
| `App.RegisterTwiceAnswers` | src/controllers/auth.controller.ts:9-26 | The same valid registration sent twice answers 201, then 400 "Email already registered" with the store unchanged. |
| `App.LoginFailuresLookAlike` | src/services/auth.service.ts:31-39 | An unknown email and a wrong password get the identical answer 401 "Invalid credentials". |
| `App.RegisterThenCreateOrder` | src/routes/orders.routes.ts:8-10 | Under the library assumptions: register, present the token received as a bearer header, and create a valid order. The answer is 201, and the order belongs to the registered user's identifier. |

## Left out

- Express setup, routing glue other than the gate-before-handler order, the health route, the database connection and the server: process bootstrap and I/O.
- Environment lookup of the signing secret and token lifetime, and the literal fallback secret: configuration, folded into `sign` and `verify`.
- Token expiry and the issued-at and expiry claims: there is no clock. `verify` is arbitrary apart from the round-trip assumption, so expired or tampered tokens are covered only as "verification may fail".
- bcrypt's random salt: `hash` is a deterministic function of password and cost.
- MongoDB identifiers: orders and users get natural-number identifiers from a counter, rendered in decimal. A path identifier that is not a valid ObjectId raises a cast error in the store; the model answers it with "Order not found" like any other unmatched identifier.
- `updatedAt`, which `save()` also refreshes: not modelled. `createdAt` is the store counter.
- OrdersService.GetOrders: requires page ≥ 1 and limit ≥ 1. A parsed negative page or limit reaches the store with a negative skip or limit, whose handling is not visible; the composed handler returns `BeyondModel` for it.
- Request bodies carry only the schema's fields, each either present with the right JSON type or absent ("Required"). Wrongly typed fields, their type-error messages and unknown keys are not modelled.
- Service values are integers. JavaScript floating point (fractions, NaN, rounding of large sums) is not modelled.
- `parseInt` results beyond 2^53 (precision loss, Infinity) and query parameters given as arrays: not modelled.
- Email address syntax: the email check is a parameter `isEmail`.
- The persistence schema's error message is reduced to "Order validation failed"; the per-field detail text is not modelled.
- Store failures (connection loss and the like): in the services these never happen. The controllers' 500 path is modelled on the service-outcome argument.
- The check-then-insert race in registration and the read-modify-write race in advancing: concurrency.
- `OrderModel.StateName`, `OrderModel.ServiceStatusNamed` and `Validators.InvalidServiceStatus` assume each enumeration member's string value equals its name, since the enumerations' definitions are not part of this model.
- The middleware's outer `catch` (a synchronous throw while verifying): verification failure in the model already answers "Token invalid", the same message.
