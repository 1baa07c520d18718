/** The request-body schemas (`src/utils/validators.ts`): for each schema, the rule it
    enforces as a predicate, and the parse that either yields the typed input or the
    list of issues the controller reports. A JSON field the body lacks is `None`;
    every check of every field runs, so the issues list names every failing field. */
module Validators {
  import opened Common
  import opened JsText
  import opened OrderModel

  /** One failed check: the dotted path of the field and the message. */
  datatype Issue = Issue(field: string, message: string)

  datatype Parsed<+T> = Valid(value: T) | Invalid(issues: seq<Issue>)

  const Required: string := "Required"
  const InvalidEmail: string := "Invalid email format"
  const PasswordTooShort: string := "Password must be at least 6 characters"
  const PasswordRequired: string := "Password is required"
  const LabRequired: string := "Lab is required"
  const PatientRequired: string := "Patient is required"
  const CustomerRequired: string := "Customer is required"
  const ServiceNameRequired: string := "Service name is required"
  const ServiceValueNotPositive: string := "Service value must be greater than 0"
  const NoServices: string := "At least one service is required"

  /** Minimum password lengths of the register and login schemas. */
  const RegisterPasswordMin: nat := 6
  const LoginPasswordMin: nat := 1

  function InvalidServiceStatus(received: string): string {
    "Invalid enum value. Expected 'PENDING' | 'DONE', received '" + received + "'"
  }

  /** A string field with a minimum length (in UTF-16 code units). */
  function MinLengthIssues(field: string, v: Option<string>, min: nat, message: string): (r: seq<Issue>)
    ensures |r| == 0 <==> v.Some? && Utf16Length(v.value) >= min
    ensures |r| <= 1 && (|r| == 1 ==> r[0].field == field)
  {
    if v.None? then [Issue(field, Required)]
    else if Utf16Length(v.value) < min then [Issue(field, message)]
    else []
  }

  /** A string field that must be an email address. */
  function EmailIssues(field: string, v: Option<string>, isEmail: string -> bool): (r: seq<Issue>)
    ensures |r| == 0 <==> v.Some? && isEmail(v.value)
    ensures |r| <= 1 && (|r| == 1 ==> r[0].field == field)
  {
    if v.None? then [Issue(field, Required)]
    else if !isEmail(v.value) then [Issue(field, InvalidEmail)]
    else []
  }

  // ---------------------------------------------------------------------------
  // registerSchema and loginSchema

  datatype CredentialsBody = CredentialsBody(email: Option<string>, password: Option<string>)

  /** The validated register or login input. */
  datatype Credentials = Credentials(email: string, password: string)

  predicate RegisterAccepts(b: CredentialsBody, isEmail: string -> bool) {
    && b.email.Some? && isEmail(b.email.value)
    && b.password.Some? && Utf16Length(b.password.value) >= 6
  }

  predicate LoginAccepts(b: CredentialsBody, isEmail: string -> bool) {
    && b.email.Some? && isEmail(b.email.value)
    && b.password.Some? && |b.password.value| > 0
  }

  function ParseCredentials(b: CredentialsBody, isEmail: string -> bool, min: nat, tooShort: string): (r: Parsed<Credentials>)
    ensures r.Valid? <==> b.email.Some? && isEmail(b.email.value)
                          && b.password.Some? && Utf16Length(b.password.value) >= min
    ensures r.Valid? ==> r.value == Credentials(b.email.value, b.password.value)
    ensures r.Invalid? ==> 1 <= |r.issues| <= 2
  {
    var issues := EmailIssues("email", b.email, isEmail)
                  + MinLengthIssues("password", b.password, min, tooShort);
    if |issues| == 0 then Valid(Credentials(b.email.value, b.password.value))
    else Invalid(issues)
  }

  /** `registerSchema.parse`: a well-formed email and a password of at least six units. */
  function ParseRegister(b: CredentialsBody, isEmail: string -> bool): (r: Parsed<Credentials>)
    ensures r.Valid? <==> RegisterAccepts(b, isEmail)
    ensures r.Valid? ==> r.value == Credentials(b.email.value, b.password.value)
    ensures r.Invalid? ==> |r.issues| > 0
  {
    ParseCredentials(b, isEmail, RegisterPasswordMin, PasswordTooShort)
  }

  /** `loginSchema.parse`: a well-formed email and a non-empty password. */
  function ParseLogin(b: CredentialsBody, isEmail: string -> bool): (r: Parsed<Credentials>)
    ensures r.Valid? <==> LoginAccepts(b, isEmail)
    ensures r.Valid? ==> r.value == Credentials(b.email.value, b.password.value)
    ensures r.Invalid? ==> |r.issues| > 0
  {
    Utf16NonEmpty(if b.password.Some? then b.password.value else "");
    ParseCredentials(b, isEmail, LoginPasswordMin, PasswordRequired)
  }

  /** Whatever registration accepts, login accepts too. */
  lemma RegisterAcceptedLoginAccepted(b: CredentialsBody, isEmail: string -> bool)
    requires ParseRegister(b, isEmail).Valid?
    ensures ParseLogin(b, isEmail) == ParseRegister(b, isEmail)
  {
  }

  // ---------------------------------------------------------------------------
  // createOrderSchema

  datatype ServiceBody = ServiceBody(name: Option<string>, value: Option<int>, status: Option<string>)

  datatype OrderBody = OrderBody(
    lab: Option<string>,
    patient: Option<string>,
    customer: Option<string>,
    services: Option<seq<ServiceBody>>
  )

  /** A validated line item; its status, when given, is a member of the enumeration. */
  datatype ServiceInput = ServiceInput(name: string, value: int, status: Option<ServiceStatus>)

  /** The validated create-order input (`CreateOrderDTO`). */
  datatype CreateOrderInput = CreateOrderInput(
    lab: string,
    patient: string,
    customer: string,
    services: seq<ServiceInput>
  )

  predicate ServiceAccepts(s: ServiceBody) {
    && s.name.Some? && |s.name.value| > 0
    && s.value.Some? && s.value.value > 0
    && (s.status.None? || ServiceStatusNamed(s.status.value).Some?)
  }

  predicate NonEmptyField(v: Option<string>) {
    v.Some? && |v.value| > 0
  }

  /** The rule of the create-order schema: three non-empty names and at least one
      service, each named, worth strictly more than zero, with a known status if any. */
  predicate CreateOrderAccepts(b: OrderBody) {
    && NonEmptyField(b.lab)
    && NonEmptyField(b.patient)
    && NonEmptyField(b.customer)
    && b.services.Some? && |b.services.value| >= 1
    && (forall i :: 0 <= i < |b.services.value| ==> ServiceAccepts(b.services.value[i]))
  }

  function ServiceIssues(path: string, s: ServiceBody): (r: seq<Issue>)
    ensures |r| == 0 <==> ServiceAccepts(s)
  {
    var nameIssues := MinLengthIssues(path + ".name", s.name, 1, ServiceNameRequired);
    var valueIssues :=
      if s.value.None? then [Issue(path + ".value", Required)]
      else if s.value.value <= 0 then [Issue(path + ".value", ServiceValueNotPositive)]
      else [];
    var statusIssues :=
      if s.status.Some? && ServiceStatusNamed(s.status.value).None?
      then [Issue(path + ".status", InvalidServiceStatus(s.status.value))]
      else [];
    Utf16NonEmpty(if s.name.Some? then s.name.value else "");
    nameIssues + valueIssues + statusIssues
  }

  /** Issues of the array elements from index `from` on, in element order. */
  function ElementIssues(ss: seq<ServiceBody>, from: nat): (r: seq<Issue>)
    ensures |r| == 0 <==> forall i :: 0 <= i < |ss| ==> ServiceAccepts(ss[i])
    decreases |ss|
  {
    if |ss| == 0 then []
    else ServiceIssues("services." + NatToString(from), ss[0]) + ElementIssues(ss[1..], from + 1)
  }

  function ServicesIssues(v: Option<seq<ServiceBody>>): (r: seq<Issue>)
    ensures |r| == 0 <==> v.Some? && |v.value| >= 1
                          && forall i :: 0 <= i < |v.value| ==> ServiceAccepts(v.value[i])
  {
    if v.None? then [Issue("services", Required)]
    else (if |v.value| < 1 then [Issue("services", NoServices)] else []) + ElementIssues(v.value, 0)
  }

  function ToServiceInput(s: ServiceBody): (r: ServiceInput)
    requires ServiceAccepts(s)
    ensures r.name == s.name.value && r.value == s.value.value && r.value > 0
    ensures r.status == (if s.status.Some? then ServiceStatusNamed(s.status.value) else None)
  {
    ServiceInput(s.name.value, s.value.value,
                 if s.status.Some? then ServiceStatusNamed(s.status.value) else None)
  }

  /** `createOrderSchema.parse`: the typed input exactly when the schema's rule holds,
      keeping every field and every service in order; otherwise a non-empty issue list. */
  function ParseCreateOrder(b: OrderBody): (r: Parsed<CreateOrderInput>)
    ensures r.Valid? <==> CreateOrderAccepts(b)
    ensures r.Invalid? ==> |r.issues| > 0
    ensures r.Valid? ==>
              && r.value.lab == b.lab.value && r.value.patient == b.patient.value
              && r.value.customer == b.customer.value
              && |r.value.services| == |b.services.value|
              && (forall i :: 0 <= i < |b.services.value| ==>
                    r.value.services[i] == ToServiceInput(b.services.value[i]))
  {
    Utf16NonEmpty(if b.lab.Some? then b.lab.value else "");
    Utf16NonEmpty(if b.patient.Some? then b.patient.value else "");
    Utf16NonEmpty(if b.customer.Some? then b.customer.value else "");
    var issues := MinLengthIssues("lab", b.lab, 1, LabRequired)
                  + MinLengthIssues("patient", b.patient, 1, PatientRequired)
                  + MinLengthIssues("customer", b.customer, 1, CustomerRequired)
                  + ServicesIssues(b.services);
    if |issues| > 0 then Invalid(issues)
    else
      var ss := b.services.value;
      Valid(CreateOrderInput(b.lab.value, b.patient.value, b.customer.value,
                             seq(|ss|, i requires 0 <= i < |ss| => ToServiceInput(ss[i]))))
  }

  /** The persistence schema is weaker than this validator: every line item the
      validator accepts passes the schema whatever status it ends up with, while the
      schema also lets a zero value through, which the validator refuses. */
  lemma SchemaWeakerThanValidator(s: ServiceBody, status: Option<ServiceStatus>)
    requires ServiceAccepts(s)
    ensures ServiceDraftAccepted(ServiceDraft(s.name.value, s.value.value, status))
    ensures ServiceDraftAccepted(ServiceDraft(s.name.value, 0, status))
    ensures !ServiceAccepts(s.(value := Some(0)))
  {
  }
}
