/** The request paths put together. Every order route runs the bearer gate first
    (`src/routes/orders.routes.ts`), then its handler, then the service; the auth
    routes run their handler and service without the gate. */
module App {
  import opened Common
  import opened JsText
  import opened Crypto
  import opened OrderModel
  import opened Validators
  import opened OrdersService
  import opened AuthService
  import opened AuthGate
  import opened Http
  import OC = OrdersController
  import AC = AuthController

  datatype OrderRequest =
    | CreateRequest(body: OrderBody)          // POST /orders
    | ListRequest(query: OC.ListQuery)        // GET /orders
    | AdvanceRequest(id: string)              // PATCH /orders/:id/advance

  /** The answer and the store afterwards; `BeyondModel` for a listing whose parsed
      page or limit is negative, where the store's behaviour is not modelled. */
  datatype Handled = Handled(response: Response, store: OrderStore) | BeyondModel

  /** An order handler and its service call, for a request the gate admitted. Where the
      handler answers before reaching the service, `ThrewOther` fills the service
      argument, which the handler then ignores. */
  function ServeOrders(user: AuthUser, req: OrderRequest, st: OrderStore): Handled {
    var userId := Some(user.id);
    match req
    case CreateRequest(body) =>
      var parsed := ParseCreateOrder(body);
      if parsed.Valid? && OC.HasUserId(userId) then
        var step := CreateOrder(st, parsed.value, user.id);
        Handled(OC.Create(parsed, userId, ToOutcome(step.result)), step.store)
      else Handled(OC.Create(parsed, userId, ThrewOther), st)
    case ListRequest(q) =>
      var args := OC.ListArguments(q);
      if !OC.HasUserId(userId) then Handled(OC.List(userId, ThrewOther), st)
      else if args.page < 1 || args.limit < 1 then BeyondModel
      else Handled(OC.List(userId, Returned(GetOrders(st, user.id, args.page, args.limit, args.state))), st)
    case AdvanceRequest(id) =>
      if !OC.HasUserId(userId) then Handled(OC.Advance(userId, ThrewOther), st)
      else
        var step := AdvanceOrderState(st, id, user.id);
        Handled(OC.Advance(userId, ToOutcome(step.result)), step.store)
  }

  /** An order route: a rejected header is answered 401 with the gate's message and
      nothing else happens; an admitted one reaches its handler exactly once. */
  function HandleOrderRequest(header: Option<string>, req: OrderRequest, st: OrderStore, c: Crypto): (h: Handled)
    ensures Gate(header, c.verify).Rejected? ==>
              h == Handled(Response(401, ErrorJson(Gate(header, c.verify).message)), st)
    ensures Gate(header, c.verify).Admitted? ==> h == ServeOrders(Gate(header, c.verify).user, req, st)
    ensures h.BeyondModel? ==> req.ListRequest? && Gate(header, c.verify).Admitted?
  {
    match Gate(header, c.verify)
    case Rejected(m) => Handled(Response(401, ErrorJson(m)), st)
    case Admitted(u) => ServeOrders(u, req, st)
  }

  /** Every answered order request leaves a valid store valid. */
  lemma HandleOrderPreservesValidStore(header: Option<string>, req: OrderRequest, st: OrderStore, c: Crypto)
    requires ValidStore(st)
    ensures var h := HandleOrderRequest(header, req, st, c);
            h.Handled? ==> ValidStore(h.store)
  {
    var g := Gate(header, c.verify);
    if g.Admitted? {
      match req
      case CreateRequest(body) =>
        var parsed := ParseCreateOrder(body);
        if parsed.Valid? {
          CreatePreservesValidStore(st, parsed.value, g.user.id);
        }
      case ListRequest(q) =>
      case AdvanceRequest(id) =>
        AdvancePreservesValidStore(st, id, g.user.id);
    }
  }

  /** The store changes only when a create answers 201 or an advance answers 200;
      listings and every refused request write nothing. */
  lemma OrderWritesOnlyOnSuccess(header: Option<string>, req: OrderRequest, st: OrderStore, c: Crypto)
    ensures var h := HandleOrderRequest(header, req, st, c);
            h.Handled? && h.store != st ==>
              (req.CreateRequest? && h.response.status == 201)
              || (req.AdvanceRequest? && h.response.status == 200)
  {
  }

  /** Through the routes the service's total check and the persistence schema never
      refuse an order: the create-order schema and the gate's identity already rule
      out everything they would catch. */
  lemma CreateRefusalsComeFromValidation(header: Option<string>, body: OrderBody, st: OrderStore, c: Crypto)
    ensures var h := HandleOrderRequest(header, CreateRequest(body), st, c);
            && h.Handled?
            && h.response.body != ErrorJson(TotalNotPositive)
            && h.response.body != ErrorJson(ValidationFailed)
            && (h.response.status == 201 <==>
                  Gate(header, c.verify).Admitted? && Gate(header, c.verify).user.id != ""
                  && CreateOrderAccepts(body))
  {
    var g := Gate(header, c.verify);
    if g.Admitted? && ParseCreateOrder(body).Valid? && g.user.id != "" {
      ValidatedCreateSucceeds(st, body, g.user.id);
    }
  }

  /** The signed token a user receives opens the gate as that user. */
  lemma IssuedTokenPassesGate(c: Crypto, u: User)
    requires Sound(c)
    ensures Gate(Some("Bearer " + Respond(c, u).token), c.verify)
              == Admitted(AuthUser(NatToString(u.id), u.email))
  {
    var token := Respond(c, u).token;
    assert ' ' !in token;
    IssuedTokenVerifies(c, u);
    GateOnSchemeAndToken("Bearer", token, c.verify);
    assert "Bearer" + " " + token == "Bearer " + token;
  }

  // ---------------------------------------------------------------------------
  // Auth routes

  datatype AuthRequest =
    | RegisterRequest(body: CredentialsBody)  // POST /auth/register
    | LoginRequest(body: CredentialsBody)     // POST /auth/login

  datatype AuthHandled = AuthHandled(response: Response, store: UserStore)

  /** An auth route: the handler validates, then calls the service. */
  function HandleAuthRequest(req: AuthRequest, us: UserStore, c: Crypto, isEmail: string -> bool): (h: AuthHandled)
    ensures req.LoginRequest? ==> h.store == us
    ensures h.store != us ==> req.RegisterRequest? && h.response.status == 201
  {
    match req
    case RegisterRequest(body) =>
      var parsed := ParseRegister(body, isEmail);
      if parsed.Invalid? then AuthHandled(AC.Register(parsed, ThrewOther), us)
      else
        var reg := AuthService.Register(us, parsed.value, c);
        AuthHandled(AC.Register(parsed, ToOutcome(reg.result)), reg.store)
    case LoginRequest(body) =>
      var parsed := ParseLogin(body, isEmail);
      if parsed.Invalid? then AuthHandled(AC.Login(parsed, ThrewOther), us)
      else AuthHandled(AC.Login(parsed, ToOutcome(AuthService.Login(us, parsed.value, c))), us)
  }

  lemma HandleAuthPreservesValidUsers(req: AuthRequest, us: UserStore, c: Crypto, isEmail: string -> bool)
    requires ValidUsers(us)
    ensures ValidUsers(HandleAuthRequest(req, us, c, isEmail).store)
  {
    if req.RegisterRequest? && ParseRegister(req.body, isEmail).Valid? {
      RegisterPreservesValidUsers(us, ParseRegister(req.body, isEmail).value, c);
    }
  }

  /** The same registration twice: 201, then 400 "Email already registered". */
  lemma RegisterTwiceAnswers(body: CredentialsBody, us: UserStore, c: Crypto, isEmail: string -> bool)
    requires RegisterAccepts(body, isEmail)
    requires body.email.value !in us.byEmail
    ensures var first := HandleAuthRequest(RegisterRequest(body), us, c, isEmail);
            var second := HandleAuthRequest(RegisterRequest(body), first.store, c, isEmail);
            && first.response.status == 201
            && second == AuthHandled(Response(400, ErrorJson(EmailTaken)), first.store)
  {
  }

  /** An unknown email and a wrong password get the very same answer. */
  lemma LoginFailuresLookAlike(unknown: CredentialsBody, wrong: CredentialsBody, us: UserStore,
                               c: Crypto, isEmail: string -> bool)
    requires LoginAccepts(unknown, isEmail) && LoginAccepts(wrong, isEmail)
    requires unknown.email.value !in us.byEmail
    requires wrong.email.value in us.byEmail
    requires !c.compare(wrong.password.value, us.byEmail[wrong.email.value].password)
    ensures HandleAuthRequest(LoginRequest(unknown), us, c, isEmail).response
              == HandleAuthRequest(LoginRequest(wrong), us, c, isEmail).response
              == Response(401, ErrorJson(InvalidCredentials))
  {
  }

  /** End to end: register, then present the token received as a bearer header and
      create an order; the order is created and belongs to the registered user. */
  lemma RegisterThenCreateOrder(cred: CredentialsBody, body: OrderBody, us: UserStore, st: OrderStore,
                                c: Crypto, isEmail: string -> bool)
    requires Sound(c)
    requires RegisterAccepts(cred, isEmail)
    requires cred.email.value !in us.byEmail
    requires CreateOrderAccepts(body)
    ensures var reg := HandleAuthRequest(RegisterRequest(cred), us, c, isEmail);
            && reg.response.status == 201
            && reg.response.body.AuthJson?
            && var auth := reg.response.body.auth;
               var h := HandleOrderRequest(Some("Bearer " + auth.token), CreateRequest(body), st, c);
               && h.Handled?
               && h.response.status == 201
               && h.response.body.order.userId == auth.user.id
               && h.response.body.order.userId == NatToString(us.nextId)
  {
    var data := ParseRegister(cred, isEmail).value;
    var user := User(us.nextId, data.email, c.hash(data.password, SaltRounds));
    assert AuthService.Register(us, data, c).result == Ok(Respond(c, user));
    IssuedTokenPassesGate(c, user);
    ValidatedCreateSucceeds(st, body, NatToString(us.nextId));
  }
}
