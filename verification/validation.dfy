/** Request validation: the middleware that runs a schema over one part of
    a request, and what the backend's schemas accept. Schema parsing itself
    is the caller's `parse` parameter; the schemas are stated as the
    predicates they decide. */
module Validation {
  import opened Common
  import opened Types
  import opened BackendStore
  import opened ErrorHandler
  import opened PassService
  import opened AuthService

  /** The part of the request a schema checks. */
  datatype Source = Body | Query | Params

  /** One problem the parser found: where, as the path of keys, and what. */
  datatype Issue = Issue(path: seq<string>, message: string)

  datatype Parsed<T> = Success(data: T) | Failure(issues: seq<Issue>)

  datatype Request<T> = Request(body: T, query: T, params: T)

  function Part<T>(req: Request<T>, source: Source): T {
    match source
    case Body => req.body
    case Query => req.query
    case Params => req.params
  }

  /** One field error per issue, named by its path joined with dots. */
  function FieldErrors(issues: seq<Issue>): (r: seq<FieldError>)
    ensures |r| == |issues|
    ensures forall i :: 0 <= i < |issues| ==> r[i] == FieldError(Join(issues[i].path, "."), issues[i].message)
  {
    if issues == [] then []
    else [FieldError(Join(issues[0].path, "."), issues[0].message)] + FieldErrors(issues[1..])
  }

  /** A field name splits back into its path when no key holds a dot. */
  lemma FieldNamesReadBack(issues: seq<Issue>, i: nat)
    requires i < |issues| && |issues[i].path| >= 1
    requires forall k :: 0 <= k < |issues[i].path| ==> '.' !in issues[i].path[k]
    ensures Split(FieldErrors(issues)[i].field, '.') == issues[i].path
  {
    JoinSplits(issues[i].path, '.');
  }

  /** `validate(schema, source)`: a failed parse hands a 400 with one field
      error per issue to the error handler and leaves the request alone; a
      successful one replaces the body, and only the body, with the parsed
      data. */
  function Validate<T>(parse: T -> Parsed<T>, source: Source, req: Request<T>): (r: (Next, Request<T>))
    ensures parse(Part(req, source)).Failure? ==>
              r == (Fail(BadRequest("Validation failed", Some(FieldErrors(parse(Part(req, source)).issues)))), req)
    ensures parse(Part(req, source)).Success? ==>
              r.0 == Continue
              && r.1.query == req.query && r.1.params == req.params
              && r.1.body == (if source == Body then parse(Part(req, source)).data else req.body)
  {
    match parse(Part(req, source))
    case Failure(issues) => (Fail(BadRequest("Validation failed", Some(FieldErrors(issues)))), req)
    case Success(data) => (Continue, if source == Body then req.(body := data) else req)
  }

  /** A failed validation answers 400 BAD_REQUEST with the field errors,
      in production too. */
  lemma FailedValidationAnswers400<T>(parse: T -> Parsed<T>, source: Source, req: Request<T>, production: bool,
                                      stack: Option<string>)
    requires parse(Part(req, source)).Failure?
    ensures var err := Validate(parse, source, req).0.err;
            var (status, body) := HandleError(err, production, stack);
            status == 400 && body.message == "Validation failed" && body.code == Some("BAD_REQUEST")
            && body.details == Some(FieldErrors(parse(Part(req, source)).issues))
  {
  }

  // ---------------------------------------------------------------------
  // The schemas

  /** A string field that is present and at least `n` long. */
  predicate AtLeast(s: Option<string>, n: nat) {
    s.Some? && |s.value| >= n
  }

  /** A string field that is present and between `lo` and `hi` long. */
  predicate Between(s: Option<string>, lo: nat, hi: nat) {
    s.Some? && lo <= |s.value| <= hi
  }

  datatype LoginInput = LoginInput(identifier: Option<string>, phone: Option<string>, email: Option<string>,
                                   password: Option<string>)

  /** `login`: a non-empty password and some way to name the account. */
  predicate LoginAccepts(i: LoginInput) {
    AtLeast(i.password, 1) && (Truthy(i.identifier) || Truthy(i.phone) || Truthy(i.email))
  }

  datatype RegisterInput = RegisterInput(name: Option<string>, phone: Option<string>, email: Option<string>,
                                         password: Option<string>, role: Option<string>,
                                         estateCode: Option<string>, unitNumber: Option<string>)

  /** The roles a user may name when registering. */
  predicate SelfRegistrationRole(r: Option<string>) {
    r == Some("RESIDENT") || r == Some("SECURITY") || r == Some("ESTATE_ADMIN")
  }

  /** `register`. `isEmail` is the email format check. */
  predicate RegisterAccepts(i: RegisterInput, isEmail: string -> bool) {
    AtLeast(i.name, 2) && AtLeast(i.phone, 10) && (i.email.None? || isEmail(i.email.value))
    && AtLeast(i.password, 8) && SelfRegistrationRole(i.role) && AtLeast(i.estateCode, 1)
  }

  datatype AdminUserInput = AdminUserInput(name: Option<string>, phone: Option<string>, password: Option<string>,
                                           email: Option<string>)
  datatype AdminEstateInput = AdminEstateInput(name: Option<string>, address: Option<string>,
                                               description: Option<string>)

  /** `registerEstateAdmin`: the same user rules as `register` but with a
      password of six characters, and an estate name of two. */
  predicate RegisterEstateAdminAccepts(u: AdminUserInput, e: AdminEstateInput, isEmail: string -> bool) {
    AtLeast(u.name, 2) && AtLeast(u.phone, 10) && AtLeast(u.password, 6)
    && (u.email.None? || isEmail(u.email.value)) && AtLeast(e.name, 2)
  }

  /** The estate administrator's sign-up is the weaker one: a password of
      six or seven characters passes it but not `register`. */
  lemma AdminPasswordRuleIsWeaker(name: string, phone: string, password: string, email: Option<string>,
                                  role: string, estateCode: string, estateName: string, isEmail: string -> bool)
    requires |name| >= 2 && |phone| >= 10 && 6 <= |password| < 8 && |estateName| >= 2
    requires email.None? || isEmail(email.value)
    ensures RegisterEstateAdminAccepts(AdminUserInput(Some(name), Some(phone), Some(password), email),
                                       AdminEstateInput(Some(estateName), None, None), isEmail)
    ensures !RegisterAccepts(RegisterInput(Some(name), Some(phone), email, Some(password), Some(role),
                                           Some(estateCode), None), isEmail)
  {
  }

  /** The schema lets a SECURITY registration through; the service is what
      refuses it. */
  lemma SecurityRoleIsRefusedByTheService(db: Db, i: RegisterInput, isEmail: string -> bool, hash: string,
                                          newId: string)
    requires RegisterAccepts(i, isEmail) && i.role == Some("SECURITY")
    ensures Register(db, i.phone.value, i.name.value, hash, ParseRole(i.role.value).value, i.estateCode.value,
                     i.unitNumber, i.email, newId) == Err("Security accounts must be created by Estate Admin")
  {
  }

  datatype PassInput = PassInput(guestName: Option<string>, passType: Option<string>)

  /** `createPass`: a guest name, and a type that is one of the three, or
      ONE_TIME when none is given. The parsed type is returned. */
  function CreatePassType(i: PassInput): (r: Option<PassType>)
    ensures r.Some? <==> AtLeast(i.guestName, 1) && (i.passType.None? || ParsePassType(i.passType.value).Some?)
    ensures r.Some? && i.passType.None? ==> r.value == OneTime
    ensures r.Some? && i.passType.Some? ==> r == ParsePassType(i.passType.value)
  {
    if !AtLeast(i.guestName, 1) then None
    else if i.passType.None? then Some(OneTime)
    else ParsePassType(i.passType.value)
  }

  /** A request the schema accepts never fails in `generatePass` on its
      type, and the pass gets the parsed type. */
  lemma ValidatedPassIsCreated(db: Db, i: PassInput, userId: string, validUntil: Option<int>,
                               exitInstruction: Option<string>, deliveryCompany: Option<string>, now: int, id: string,
                               draw: nat)
    requires draw < 90000 && CreatePassType(i).Some?
    ensures var t := CreatePassType(i).value;
            var r := GeneratePass(db, userId, i.guestName.value, Some(PassTypeName(t)), validUntil, exitInstruction,
                                  deliveryCompany, now, id, draw);
            r.Ok? && r.value.0.passType == t
  {
  }

  /** `pagination`: page at least 1 (default 1) and limit in 1..100 (default
      20), as numbers. */
  function Pagination(page: Option<int>, limit: Option<int>): (r: Option<(int, int)>)
    ensures r.Some? <==> page.GetOr(1) >= 1 && 1 <= limit.GetOr(20) <= 100
    ensures r.Some? ==> r.value.0 >= 1 && 1 <= r.value.1 <= 100
    ensures r.Some? && page.Some? ==> r.value.0 == page.value
    ensures r.Some? && limit.Some? ==> r.value.1 == limit.value
    ensures page.None? && limit.None? ==> r == Some((1, 20))
  {
    var p := page.GetOr(1);
    var l := limit.GetOr(20);
    if p >= 1 && 1 <= l <= 100 then Some((p, l)) else None
  }

  /** A due date as the schema sees it: a string, a `Date` object, or
      some other value. */
  datatype DueDate = DateText(s: string) | DateObject(ms: int) | NotADate

  datatype BillInput = BillInput(userId: Option<string>, billType: Option<string>, amount: Option<real>,
                                 dueDate: Option<DueDate>, description: Option<string>)

  /** The bill kinds a new bill may have. */
  predicate BillTypeName(s: Option<string>) {
    s == Some("SERVICE_CHARGE") || s == Some("POWER") || s == Some("WASTE") || s == Some("WATER")
  }

  /** `createBill`. `isUuid` is the id format check. */
  predicate CreateBillAccepts(i: BillInput, isUuid: string -> bool) {
    i.userId.Some? && isUuid(i.userId.value) && BillTypeName(i.billType)
    && i.amount.Some? && i.amount.value > 0.0
    && i.dueDate.Some? && !i.dueDate.value.NotADate?
    && AtLeast(i.description, 1)
  }

  /** The due date is required: a bill without one, or with one that is
      neither a string nor a `Date`, is refused however good the rest is;
      any string or `Date` will do. */
  lemma CreateBillNeedsDueDate(i: BillInput, isUuid: string -> bool)
    ensures !CreateBillAccepts(i.(dueDate := None), isUuid)
    ensures !CreateBillAccepts(i.(dueDate := Some(NotADate)), isUuid)
    ensures CreateBillAccepts(i, isUuid) ==>
              forall d: DueDate {:trigger i.(dueDate := Some(d))} :: !d.NotADate? ==> CreateBillAccepts(i.(dueDate := Some(d)), isUuid)
  {
  }

  /** `createAnnouncement`. */
  predicate CreateAnnouncementAccepts(title: Option<string>, content: Option<string>) {
    Between(title, 1, 200) && Between(content, 1, 2000)
  }

  /** `createEstate`. */
  predicate CreateEstateAccepts(name: Option<string>, code: Option<string>) {
    AtLeast(name, 2) && Between(code, 4, 20)
  }

  /** `updateProfile`: both fields optional, a given name at least 2 long. */
  predicate UpdateProfileAccepts(name: Option<string>) {
    name.None? || |name.value| >= 2
  }

  /** The generated estate codes are too short for the estate schema when
      the name has one word and the number one digit: `createEstate` would
      refuse a code that `registerEstateAdmin` produces. */
  lemma ShortGeneratedCodeFailsEstateSchema(name: string, word: string, n: nat)
    requires n < 10 && word != [] && ' ' !in word
    ensures |GenerateEstateCode(word, n)| == 2
    ensures !CreateEstateAccepts(Some(name), Some(GenerateEstateCode(word, n)))
  {
    SplitWord(word, ' ');
    assert Initials([word]) == [UpperChar(word[0])] + Initials([]);
    assert |DecimalString(n)| == 1;
  }
}
