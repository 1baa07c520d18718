/** The register and login handlers (`src/controllers/auth.controller.ts`): validate,
    then call the service, then map the outcome to a status. They differ only in the
    success status and in the status of a service `Error`. */
module AuthController {
  import opened Common
  import opened Validators
  import opened AuthService
  import opened Http

  /** `register`: 400 with the issues for an invalid body (the service is not called),
      201 with the answer, 400 with the message of a service `Error` such as a taken
      email, 500 for anything else thrown. */
  function Register(parsed: Parsed<Credentials>, service: Outcome<AuthResponse>): (r: Response)
    ensures parsed.Invalid? ==> r == Response(400, ValidationJson(ValidationError, parsed.issues))
    ensures r.status == 201 <==> parsed.Valid? && service.Returned?
    ensures r.status == 201 ==> r.body == AuthJson(service.value)
    ensures parsed.Valid? && service.ThrewError? ==> r == Response(400, ErrorJson(service.message))
    ensures r.status == 500 <==> parsed.Valid? && service.ThrewOther?
    ensures r.status in {201, 400, 500}
  {
    if parsed.Invalid? then Response(400, ValidationJson(ValidationError, parsed.issues))
    else match service
      case Returned(a) => Response(201, AuthJson(a))
      case ThrewError(m) => Response(400, ErrorJson(m))
      case ThrewOther => Response(500, ErrorJson(InternalError))
  }

  /** `login`: as registration, but success is 200 and a service `Error` (invalid
      credentials) is 401. */
  function Login(parsed: Parsed<Credentials>, service: Outcome<AuthResponse>): (r: Response)
    ensures parsed.Invalid? ==> r == Response(400, ValidationJson(ValidationError, parsed.issues))
    ensures r.status == 200 <==> parsed.Valid? && service.Returned?
    ensures r.status == 200 ==> r.body == AuthJson(service.value)
    ensures r.status == 401 <==> parsed.Valid? && service.ThrewError?
    ensures r.status == 401 ==> r.body == ErrorJson(service.message)
    ensures r.status == 500 <==> parsed.Valid? && service.ThrewOther?
    ensures r.status in {200, 400, 401, 500}
  {
    if parsed.Invalid? then Response(400, ValidationJson(ValidationError, parsed.issues))
    else match service
      case Returned(a) => Response(200, AuthJson(a))
      case ThrewError(m) => Response(401, ErrorJson(m))
      case ThrewOther => Response(500, ErrorJson(InternalError))
  }

  /** A body the schema refuses is answered without consulting the service. */
  lemma InvalidBodyIgnoresService(issues: seq<Issue>, s1: Outcome<AuthResponse>, s2: Outcome<AuthResponse>)
    ensures Register(Invalid(issues), s1) == Register(Invalid(issues), s2)
    ensures Login(Invalid(issues), s1) == Login(Invalid(issues), s2)
  {
  }
}
