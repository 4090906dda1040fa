/**
 * The sign-in form of src/app/login/page.tsx. Before the e-mail sign-in call is made, the
 * chosen store location must be the store of the first employee with the entered e-mail;
 * sign-up makes its call unchecked. The calls into Firebase Auth are modelled as the
 * outcome that names them.
 */
module Login {
  import opened Wrappers
  import opened Types
  import opened Validation
  import opened Text

  datatype LoginValues = LoginValues(companyCode: string, email: string, password: string)

  /** `formSchema`: a store was chosen, the e-mail is valid, the password has at least six characters. */
  function ValidateLoginForm(v: LoginValues): (r: Result<LoginValues>)
    ensures r.Ok? <==> JsLength(v.companyCode) >= 1 && ValidEmail(v.email) && JsLength(v.password) >= 6
    ensures r.Ok? ==> r.value == v
    ensures v.companyCode == "" ==> r == Err("Please select a store location.")
  {
    if JsLength(v.companyCode) < 1 then Err("Please select a store location.")
    else if !ValidEmail(v.email) then Err("Please enter a valid email.")
    else if JsLength(v.password) < 6 then Err("Password must be at least 6 characters.")
    else Ok(v)
  }

  /** What a submit leads to: a refusal toast, or a call into the auth service. */
  datatype AuthCall = EmailSignIn(email: string, password: string) | EmailSignUp(email: string, password: string)
  datatype Outcome = Refused(description: string) | Initiated(call: AuthCall)

  const InvalidStore := "Invalid store location for this email address."

  /** `employees.find(e => e.email === email)`, as a position. */
  function FirstWithEmail(employees: seq<Employee>, email: string): (r: Option<nat>)
    ensures r.None? <==> forall i :: 0 <= i < |employees| ==> employees[i].email != email
    ensures r.Some? ==> r.value < |employees| && employees[r.value].email == email
    ensures r.Some? ==> forall i :: 0 <= i < r.value ==> employees[i].email != email
  {
    if employees == [] then None
    else if employees[0].email == email then Some(0)
    else match FirstWithEmail(employees[1..], email)
      case None => None
      case Some(k) => Some(k + 1)
  }

  /** `employee.store === companyCode`, where an unset store equals no code. */
  predicate StoreMatches(e: Employee, companyCode: string)
  {
    e.store.Some? && StoreName(e.store.value) == companyCode
  }

  /**
   * `onSignIn` over the employee list it is given: the call is made, with exactly the
   * entered e-mail and password, only when the first employee with that e-mail works at
   * the chosen store.
   */
  function OnSignIn(employees: seq<Employee>, v: LoginValues): (r: Outcome)
    ensures r.Initiated? <==> (FirstWithEmail(employees, v.email).Some? &&
      StoreMatches(employees[FirstWithEmail(employees, v.email).value], v.companyCode))
    ensures r.Initiated? ==> r.call == EmailSignIn(v.email, v.password)
    ensures r.Refused? ==> r.description == InvalidStore
  {
    match FirstWithEmail(employees, v.email)
    case None => Refused(InvalidStore)
    case Some(k) =>
      if StoreMatches(employees[k], v.companyCode) then Initiated(EmailSignIn(v.email, v.password))
      else Refused(InvalidStore)
  }

  /** No employee with the e-mail: refused, and no call is made. */
  lemma UnknownEmailRefused(employees: seq<Employee>, v: LoginValues)
    requires forall i :: 0 <= i < |employees| ==> employees[i].email != v.email
    ensures OnSignIn(employees, v) == Refused(InvalidStore)
  {
  }

  /** The first employee with the e-mail decides, whatever the later ones hold. */
  lemma FirstEmployeeDecides(employees: seq<Employee>, v: LoginValues, k: nat)
    requires k < |employees| && employees[k].email == v.email
    requires forall i :: 0 <= i < k ==> employees[i].email != v.email
    ensures OnSignIn(employees, v).Initiated? <==> StoreMatches(employees[k], v.companyCode)
  {
    var f := FirstWithEmail(employees, v.email);
    assert f == Some(k);
  }

  /** An employee with no store is always refused. */
  lemma NoStoreRefused(employees: seq<Employee>, v: LoginValues, k: nat)
    requires k < |employees| && employees[k].email == v.email && employees[k].store.None?
    requires forall i :: 0 <= i < k ==> employees[i].email != v.email
    ensures OnSignIn(employees, v).Refused?
  {
    FirstEmployeeDecides(employees, v, k);
  }

  /** `onSignUp`: the sign-up call with the entered e-mail and password, no store check. */
  function OnSignUp(v: LoginValues): (r: Outcome)
    ensures r.Initiated? && r.call.EmailSignUp?
    ensures r.call.email == v.email && r.call.password == v.password
  {
    Initiated(EmailSignUp(v.email, v.password))
  }

  /** The `employees` the page imports from src/lib/data.ts: the empty list. */
  const DataEmployees: seq<Employee> := []

  /** `onSignIn` as written: it looks the e-mail up in the static, empty list. */
  function OnSignInAsWritten(v: LoginValues): Outcome
  {
    OnSignIn(DataEmployees, v)
  }

  /** As written, every e-mail sign-in is refused, even for a valid form. */
  lemma SignInAsWrittenAlwaysRefused(v: LoginValues)
    ensures OnSignInAsWritten(v) == Refused(InvalidStore)
  {
  }
}
