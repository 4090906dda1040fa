/**
 * The employees page of src/app/employees/page.tsx: the add-employee form, the append
 * with a numbered id, the view dialog and the paginated table. The list starts as the
 * (empty) `employees` of src/lib/data.ts.
 */
module Employees {
  import opened Wrappers
  import opened Text
  import opened Types
  import opened Validation
  import Pagination

  /** What the form holds when submitted. */
  datatype EmployeeFormValues = EmployeeFormValues(name: string, email: string, role: string)

  /** The values once the schema accepted them. */
  datatype EmployeeDraft = EmployeeDraft(name: string, email: string, role: Role)

  /**
   * `formSchema`: a name of at least two characters, a valid e-mail address and one of the
   * three roles. The first failing field gives the message.
   */
  function ValidateEmployeeForm(v: EmployeeFormValues): (r: Result<EmployeeDraft>)
    ensures r.Ok? <==> JsLength(v.name) >= 2 && ValidEmail(v.email) && v.role in {"Scooper", "Shift Lead", "Manager"}
    ensures r.Ok? ==> r.value.name == v.name && r.value.email == v.email && RoleName(r.value.role) == v.role
    ensures JsLength(v.name) < 2 ==> r == Err("Name must be at least 2 characters.")
  {
    if JsLength(v.name) < 2 then Err("Name must be at least 2 characters.")
    else if !ValidEmail(v.email) then Err("Invalid email")
    else match ParseRole(v.role)
      case None => Err("Invalid enum value")
      case Some(role) => Ok(EmployeeDraft(v.name, v.email, role))
  }

  /** Every role the form offers is accepted. */
  lemma FormAcceptsEveryRole(name: string, email: string, role: Role)
    requires JsLength(name) >= 2 && ValidEmail(email)
    ensures ValidateEmployeeForm(EmployeeFormValues(name, email, RoleName(role))) == Ok(EmployeeDraft(name, email, role))
  {
    ParseRoleName(role);
  }

  /**
   * `newEmployee` of `onSubmit`: id `emp-(n+1)` for a list of `n`, onboarding `Pending`,
   * no store and no checklist.
   */
  function NewEmployee(employees: seq<Employee>, d: EmployeeDraft): (e: Employee)
    ensures e.id == NumberedId("emp-", |employees| + 1)
    ensures e.name == d.name && e.email == d.email && e.role == d.role
    ensures e.onboardingStatus == OnboardingPending && e.store == None && e.onboardingChecklist == []
  {
    Employee(NumberedId("emp-", |employees| + 1), d.name, d.email, d.role, OnboardingPending, None, [])
  }

  /** The list after adding `drafts` one after another. */
  function AddAll(employees: seq<Employee>, drafts: seq<EmployeeDraft>): seq<Employee>
    decreases |drafts|
  {
    if drafts == [] then employees else AddAll(employees + [NewEmployee(employees, drafts[0])], drafts[1..])
  }

  lemma {:induction false} AddAllNumbers(employees: seq<Employee>, drafts: seq<EmployeeDraft>)
    requires forall i :: 0 <= i < |employees| ==> employees[i].id == NumberedId("emp-", i + 1)
    ensures var r := AddAll(employees, drafts);
      && |r| == |employees| + |drafts| && r[..|employees|] == employees
      && forall i :: 0 <= i < |r| ==> r[i].id == NumberedId("emp-", i + 1)
    decreases |drafts|
  {
    if drafts != [] {
      var next := employees + [NewEmployee(employees, drafts[0])];
      AddAllNumbers(next, drafts[1..]);
      assert AddAll(employees, drafts)[..|employees|] == AddAll(next, drafts[1..])[..|next|][..|employees|];
    }
  }

  /** From the empty initial list, `k` adds give the ids `emp-1` .. `emp-k`, no two alike. */
  lemma AddsFromEmpty(drafts: seq<EmployeeDraft>)
    ensures var r := AddAll([], drafts);
      && |r| == |drafts|
      && (forall i :: 0 <= i < |r| ==> r[i].id == NumberedId("emp-", i + 1))
      && (forall i, j :: 0 <= i < j < |r| ==> r[i].id != r[j].id)
  {
    AddAllNumbers([], drafts);
    var r := AddAll([], drafts);
    forall i, j | 0 <= i < j < |r| ensures r[i].id != r[j].id {
      NumberedIdInjective("emp-", i + 1, j + 1);
    }
  }

  class EmployeesPage {
    var employees: seq<Employee>
    var selectedEmployee: Option<Employee>
    var addDialogOpen: bool
    var viewDialogOpen: bool
    var currentPage: int

    ghost predicate Valid()
      reads this
    {
      Pagination.InRange(currentPage, |employees|)
    }

    constructor ()
      ensures Valid()
      ensures employees == [] && selectedEmployee == None && currentPage == 1
      ensures !addDialogOpen && !viewDialogOpen
    {
      employees := [];
      selectedEmployee := None;
      addDialogOpen := false;
      viewDialogOpen := false;
      currentPage := 1;
    }

    /** `onSubmit`: the list grows by the new employee, everyone before it kept in order. */
    method Add(d: EmployeeDraft)
      requires Valid()
      modifies this
      ensures Valid()
      ensures employees == old(employees) + [NewEmployee(old(employees), d)]
      ensures !addDialogOpen
      ensures selectedEmployee == old(selectedEmployee) && viewDialogOpen == old(viewDialogOpen)
      ensures currentPage == old(currentPage)
    {
      Pagination.GrowingKeepsInRange(currentPage, |employees|, |employees| + 1);
      employees := employees + [NewEmployee(employees, d)];
      addDialogOpen := false;
    }

    /** `handleViewClick`: selects the employee and opens the view dialog; the list is untouched. */
    method ViewClick(e: Employee)
      requires Valid()
      modifies this
      ensures Valid()
      ensures selectedEmployee == Some(e) && viewDialogOpen
      ensures employees == old(employees) && currentPage == old(currentPage) && addDialogOpen == old(addDialogOpen)
    {
      selectedEmployee := Some(e);
      viewDialogOpen := true;
    }

    /** `paginatedEmployees`: positions `[(page-1)*5, page*5)` of the list, in list order. */
    function PaginatedEmployees(): (r: seq<Employee>)
      reads this
      ensures |r| <= Pagination.ItemsPerPage
      ensures 1 <= currentPage ==> var start := (currentPage - 1) * Pagination.ItemsPerPage;
        |r| == if start >= |employees| then 0 else if |employees| - start < Pagination.ItemsPerPage then |employees| - start else Pagination.ItemsPerPage
      ensures 1 <= currentPage ==> forall k :: 0 <= k < |r| ==>
        (currentPage - 1) * Pagination.ItemsPerPage + k < |employees| &&
        r[k] == employees[(currentPage - 1) * Pagination.ItemsPerPage + k]
    {
      Pagination.PageSliceBounded(employees, currentPage);
      if 1 <= currentPage then
        Pagination.PageSliceAt(employees, currentPage);
        Pagination.PageSlice(employees, currentPage)
      else
        Pagination.PageSlice(employees, currentPage)
    }

    method PreviousPage()
      requires Valid()
      modifies this
      ensures Valid()
      ensures currentPage == Pagination.Previous(old(currentPage))
      ensures employees == old(employees) && selectedEmployee == old(selectedEmployee)
      ensures addDialogOpen == old(addDialogOpen) && viewDialogOpen == old(viewDialogOpen)
    {
      Pagination.StepsStayInRange(currentPage, |employees|);
      currentPage := Pagination.Previous(currentPage);
    }

    method NextPage()
      requires Valid()
      modifies this
      ensures Valid()
      ensures currentPage == Pagination.Next(old(currentPage), |employees|)
      ensures employees == old(employees) && selectedEmployee == old(selectedEmployee)
      ensures addDialogOpen == old(addDialogOpen) && viewDialogOpen == old(viewDialogOpen)
    {
      Pagination.StepsStayInRange(currentPage, |employees|);
      currentPage := Pagination.Next(currentPage, |employees|);
    }
  }
}
