/**
 * The task board of src/app/tasks/page.tsx: the task form, the record a submission
 * stores, the status toggle, the id-to-employee lookup and the sorted, paginated table.
 * The `tasks` and `employees` collections are held as sequences; the two Firestore
 * preconditions the page tests (`firestore` present, a signed-in `user`) are flags.
 */
module Tasks {
  import opened Wrappers
  import opened Text
  import opened Types
  import opened Sorting
  import opened EmployeeIndex
  import Pagination

  // ---------------------------------------------------------------------------------
  // The form
  // ---------------------------------------------------------------------------------

  /** What the form holds when submitted; a field the user never set is `None`. */
  datatype TaskFormValues = TaskFormValues(
    name: string,
    assignedTo: Option<string>,
    dueDate: Option<string>,
    category: string)

  /** The values once the schema accepted them. */
  datatype TaskDraft = TaskDraft(name: string, assignedTo: string, dueDate: string, category: TaskCategory)

  /**
   * `formSchema`: a name of at least three characters, an assignee and a due date that were
   * chosen, and one of the four categories. The first failing field gives the message.
   */
  function ValidateTaskForm(v: TaskFormValues): (r: Result<TaskDraft>)
    ensures r.Ok? <==>
      && JsLength(v.name) >= 3 && v.assignedTo.Some? && v.dueDate.Some?
      && v.category in {"Daily", "Weekly", "Monthly", "One-Time"}
    ensures r.Ok? ==> (r.value.name == v.name && r.value.assignedTo == v.assignedTo.value
      && r.value.dueDate == v.dueDate.value && CategoryName(r.value.category) == v.category)
    ensures JsLength(v.name) < 3 ==> r == Err("Task name is too short")
  {
    if JsLength(v.name) < 3 then Err("Task name is too short")
    else if v.assignedTo.None? then Err("Please assign task to an employee.")
    else if v.dueDate.None? then Err("A due date is required.")
    else match ParseCategory(v.category)
      case None => Err("Invalid enum value")
      case Some(c) => Ok(TaskDraft(v.name, v.assignedTo.value, v.dueDate.value, c))
  }

  /** Every category the form offers is accepted with it. */
  lemma FormAcceptsEveryCategory(name: string, assignedTo: string, dueDate: string, c: TaskCategory)
    requires JsLength(name) >= 3
    ensures ValidateTaskForm(TaskFormValues(name, Some(assignedTo), Some(dueDate), CategoryName(c)))
      == Ok(TaskDraft(name, assignedTo, dueDate, c))
  {
    ParseCategoryName(c);
  }

  /** `newTask` of `onSubmit`, under the document id the store gives it. */
  function NewTask(d: TaskDraft, id: string): (t: Task)
    ensures t.status == Pending
    ensures t.id == id && t.name == d.name && t.assignedTo == d.assignedTo
    ensures t.dueDate == d.dueDate && t.category == d.category
  {
    Task(id, d.name, d.assignedTo, d.dueDate, Pending, d.category)
  }

  // ---------------------------------------------------------------------------------
  // The status toggle
  // ---------------------------------------------------------------------------------

  /** `task.status === 'Pending' ? 'Completed' : 'Pending'`. */
  function Toggled(s: TaskStatus): (r: TaskStatus)
    ensures r != s
    ensures s == Pending <==> r == Completed
  {
    if s == Pending then Completed else Pending
  }

  lemma ToggleTwice(s: TaskStatus)
    ensures Toggled(Toggled(s)) == s
  {
  }

  /** `updateDocumentNonBlocking(doc(tasks, id), { status })`: only that document's status is written. */
  function SetStatus(tasks: seq<Task>, id: string, s: TaskStatus): (r: seq<Task>)
    ensures |r| == |tasks|
    ensures forall i :: 0 <= i < |r| && tasks[i].id == id ==> r[i] == tasks[i].(status := s)
    ensures forall i :: 0 <= i < |r| && tasks[i].id != id ==> r[i] == tasks[i]
  {
    seq(|tasks|, i requires 0 <= i < |tasks| => if tasks[i].id == id then tasks[i].(status := s) else tasks[i])
  }

  /** Toggling a listed task twice gives back the collection it started from. */
  lemma ToggleTwiceRestores(tasks: seq<Task>, task: Task)
    requires forall i :: 0 <= i < |tasks| && tasks[i].id == task.id ==> tasks[i].status == task.status
    ensures var once := SetStatus(tasks, task.id, Toggled(task.status));
      SetStatus(once, task.id, Toggled(Toggled(task.status))) == tasks
  {
    var once := SetStatus(tasks, task.id, Toggled(task.status));
    var twice := SetStatus(once, task.id, Toggled(Toggled(task.status)));
    forall i | 0 <= i < |tasks| ensures twice[i] == tasks[i] {
      if tasks[i].id == task.id {
        ToggleTwice(task.status);
      }
    }
  }

  // ---------------------------------------------------------------------------------
  // The employee map
  // ---------------------------------------------------------------------------------

  /** `employeeMap`: the employees keyed by id; none loaded gives `{}`. */
  method EmployeeMap(employees: Option<seq<Employee>>) returns (m: map<string, Employee>)
    ensures employees.None? ==> m == map[]
    ensures employees.Some? ==> forall id :: id in m <==> exists i :: 0 <= i < |employees.value| && employees.value[i].id == id
    ensures employees.Some? ==> MapsToLast(m, employees.value)
  {
    m := map[];
    if employees.Some? {
      m := IndexById(employees.value);
    }
  }

  /** The assignee column: the mapped employee's name, or `Unassigned`. */
  function AssigneeLabel(m: map<string, Employee>, t: Task): string
  {
    if t.assignedTo in m then m[t.assignedTo].name else "Unassigned"
  }

  /** Over the employee map, a task shows its last matching employee's name, or `Unassigned` when none has its id. */
  lemma AssigneeLabelOfEmployees(m: map<string, Employee>, es: seq<Employee>, t: Task)
    requires MapsToLast(m, es)
    ensures LastWithId(es, t.assignedTo).None? ==> AssigneeLabel(m, t) == "Unassigned"
    ensures LastWithId(es, t.assignedTo).Some? ==>
      AssigneeLabel(m, t) == es[LastWithId(es, t.assignedTo).value].name
  {
  }

  // ---------------------------------------------------------------------------------
  // The table
  // ---------------------------------------------------------------------------------

  /** The comparator of `paginatedTasks`: later due dates first. */
  predicate LaterDue(a: Task, b: Task)
  {
    StrLe(b.dueDate, a.dueDate)
  }

  lemma {:induction false} LaterDueTotalPreorder()
    ensures TotalPreorder(LaterDue)
  {
    forall a, b ensures LaterDue(a, b) || LaterDue(b, a) {
      StrLeTotal(a.dueDate, b.dueDate);
    }
    forall a, b, c | LaterDue(a, b) && LaterDue(b, c) ensures LaterDue(a, c) {
      StrLeTransitive(c.dueDate, b.dueDate, a.dueDate);
    }
  }

  /** `[...tasks].sort(...)`: a copy of the tasks, latest due date first. */
  function LatestDueFirst(tasks: seq<Task>): (r: seq<Task>)
    ensures multiset(r) == multiset(tasks) && |r| == |tasks|
    ensures SortedBy(r, LaterDue)
  {
    LaterDueTotalPreorder();
    SortBy(tasks, LaterDue)
  }

  class TaskBoard {
    /** The documents of the `tasks` collection. */
    var tasks: seq<Task>
    var employees: seq<Employee>
    /** Whether `useFirestore()` gave a store, and whether `useUser()` gave a user. */
    var hasFirestore: bool
    var signedIn: bool
    /** Whether the "Add Task" dialog is open. */
    var addDialogOpen: bool
    var currentPage: int

    /** `tasksQuery` is built only with a store and a user; without it nothing is listed. */
    function Listed(): (r: Option<seq<Task>>)
      reads this
      ensures r.Some? <==> hasFirestore && signedIn
      ensures r.Some? ==> r.value == tasks
    {
      if hasFirestore && signedIn then Some(tasks) else None
    }

    /** `employeesQuery` needs the same store and user, so employees are loaded exactly when tasks are listed. */
    function LoadedEmployees(): (r: Option<seq<Employee>>)
      reads this
      ensures r.Some? <==> hasFirestore && signedIn
      ensures r.Some? ==> r.value == employees
    {
      if hasFirestore && signedIn then Some(employees) else None
    }

    /**
     * The assignee column of the current page, through `employeeMap`: each task shows the
     * name of the last loaded employee with its `assignedTo` id, or `Unassigned`.
     */
    method AssigneeColumn() returns (labels: seq<string>)
      ensures |labels| == |PaginatedTasks()|
      ensures forall k :: 0 <= k < |labels| ==>
        var id := PaginatedTasks()[k].assignedTo;
        if LastWithId(employees, id).Some? then labels[k] == employees[LastWithId(employees, id).value].name
        else labels[k] == "Unassigned"
    {
      var m := EmployeeMap(LoadedEmployees());
      var page := PaginatedTasks();
      labels := seq(|page|, k requires 0 <= k < |page| => AssigneeLabel(m, page[k]));
      if LoadedEmployees().Some? {
        forall k | 0 <= k < |page| ensures
          if LastWithId(employees, page[k].assignedTo).Some?
          then labels[k] == employees[LastWithId(employees, page[k].assignedTo).value].name
          else labels[k] == "Unassigned"
        {
          AssigneeLabelOfEmployees(m, employees, page[k]);
        }
      }
    }

    /** `tasks?.length ?? 0`. */
    function ListedCount(): nat
      reads this
    {
      if Listed().Some? then |tasks| else 0
    }

    ghost predicate Valid()
      reads this
    {
      Pagination.InRange(currentPage, ListedCount())
    }

    constructor (hasFirestore: bool, signedIn: bool)
      ensures Valid()
      ensures tasks == [] && employees == [] && currentPage == 1 && !addDialogOpen
      ensures this.hasFirestore == hasFirestore && this.signedIn == signedIn
    {
      tasks := [];
      employees := [];
      this.hasFirestore := hasFirestore;
      this.signedIn := signedIn;
      addDialogOpen := false;
      currentPage := 1;
    }

    /**
     * `onSubmit`: without a tasks query nothing is written and the dialog stays as it was;
     * otherwise the new `Pending` task is added and the dialog closes.
     */
    method Submit(d: TaskDraft, freshId: string)
      requires Valid()
      requires forall i :: 0 <= i < |tasks| ==> tasks[i].id != freshId
      modifies this
      ensures Valid()
      ensures !(hasFirestore && signedIn) ==> tasks == old(tasks)
      ensures hasFirestore && signedIn ==> tasks == old(tasks) + [NewTask(d, freshId)]
      ensures addDialogOpen == (old(addDialogOpen) && !(hasFirestore && signedIn))
      ensures employees == old(employees) && currentPage == old(currentPage)
      ensures hasFirestore == old(hasFirestore) && signedIn == old(signedIn)
    {
      if !(hasFirestore && signedIn) {
        return;
      }
      Pagination.GrowingKeepsInRange(currentPage, |tasks|, |tasks| + 1);
      tasks := tasks + [NewTask(d, freshId)];
      addDialogOpen := false;
    }

    /** `handleToggleStatus`: writes the flipped status of `task` to its document, given a store. */
    method ToggleStatus(task: Task)
      requires Valid()
      modifies this
      ensures Valid()
      ensures !hasFirestore ==> tasks == old(tasks)
      ensures hasFirestore ==> tasks == SetStatus(old(tasks), task.id, Toggled(task.status))
      ensures employees == old(employees) && currentPage == old(currentPage) && addDialogOpen == old(addDialogOpen)
      ensures hasFirestore == old(hasFirestore) && signedIn == old(signedIn)
    {
      if !hasFirestore {
        return;
      }
      tasks := SetStatus(tasks, task.id, Toggled(task.status));
    }

    /** `paginatedTasks`: the current page of the tasks sorted latest due first; none listed gives `[]`. */
    function PaginatedTasks(): (r: seq<Task>)
      reads this
      ensures Listed().None? ==> r == []
      ensures |r| <= Pagination.ItemsPerPage
      ensures forall k :: 0 <= k < |r| ==> r[k] in tasks
      ensures SortedBy(r, LaterDue)
      ensures Listed().Some? && 1 <= currentPage ==>
        var start, sorted := (currentPage - 1) * Pagination.ItemsPerPage, LatestDueFirst(tasks);
        && |r| == (if start >= |tasks| then 0 else if |tasks| - start < Pagination.ItemsPerPage then |tasks| - start else Pagination.ItemsPerPage)
        && forall k :: 0 <= k < |r| ==> start + k < |tasks| && r[k] == sorted[start + k]
    {
      if Listed().None? then []
      else
        var sorted := LatestDueFirst(tasks);
        SortedCopyPage(tasks, sorted, LaterDue, currentPage);
        Pagination.PageSlice(sorted, currentPage)
    }

    /** The pagination footer: tasks are listed, there is one, and there is more than one page. */
    function ShowFooter(): (show: bool)
      reads this
      ensures show <==> Listed().Some? && |tasks| > Pagination.ItemsPerPage
    {
      Listed().Some? && |tasks| > 0 && Pagination.TotalPages(|tasks|) > 1
    }

    method PreviousPage()
      requires Valid()
      modifies this
      ensures Valid()
      ensures currentPage == Pagination.Previous(old(currentPage))
      ensures tasks == old(tasks) && employees == old(employees) && addDialogOpen == old(addDialogOpen)
      ensures hasFirestore == old(hasFirestore) && signedIn == old(signedIn)
    {
      Pagination.StepsStayInRange(currentPage, ListedCount());
      currentPage := Pagination.Previous(currentPage);
    }

    method NextPage()
      requires Valid()
      modifies this
      ensures Valid()
      ensures currentPage == Pagination.Next(old(currentPage), ListedCount())
      ensures tasks == old(tasks) && employees == old(employees) && addDialogOpen == old(addDialogOpen)
      ensures hasFirestore == old(hasFirestore) && signedIn == old(signedIn)
    {
      Pagination.StepsStayInRange(currentPage, ListedCount());
      currentPage := Pagination.Next(currentPage, ListedCount());
    }
  }
}
