/**
 * The records the dashboard keeps in its collections (src/lib/types.ts). String-literal
 * unions become enumerations; `?` and `| null` fields become `Option`. Each enumeration
 * has the text the pages show and store, and the reading of that text back.
 */
module Types {
  import opened Wrappers

  datatype Role = Scooper | ShiftLead | Manager
  datatype OnboardingStatus = OnboardingPending | OnboardingCompleted
  datatype Store = Coomera | Ipswich | Northlakes

  datatype ChecklistItem = ChecklistItem(id: string, labelText: string, completed: bool)

  datatype Employee = Employee(
    id: string,
    name: string,
    email: string,
    role: Role,
    onboardingStatus: OnboardingStatus,
    store: Option<Store>,
    onboardingChecklist: seq<ChecklistItem>)

  datatype TaskStatus = Pending | Completed
  datatype TaskCategory = Daily | Weekly | Monthly | OneTime

  /** `dueDate` is the `yyyy-MM-dd` text the task form stores. */
  datatype Task = Task(
    id: string,
    name: string,
    assignedTo: string,
    dueDate: string,
    status: TaskStatus,
    category: TaskCategory)

  datatype ItemCategory = IceCream | Toppings | Cones | Supplies
  datatype StockUnit = Tubs | Bags | Boxes | Units

  datatype InventoryItem = InventoryItem(
    id: string,
    name: string,
    category: ItemCategory,
    inStock: int,
    unit: StockUnit,
    lowThreshold: int)

  /** One roster row: the shift text (such as `10AM-6PM`) per weekday name. */
  datatype RosterShift = RosterShift(id: string, employeeId: string, shifts: map<string, string>)

  datatype AttendanceStatus = ClockedIn | ClockedOut | Late

  /** `date` is `yyyy-MM-dd`, the clock times are `HH:mm`. */
  datatype AttendanceRecord = AttendanceRecord(
    id: string,
    employeeId: string,
    date: string,
    clockInTime: string,
    clockOutTime: Option<string>,
    status: AttendanceStatus)

  function RoleName(r: Role): string
  {
    match r
    case Scooper => "Scooper"
    case ShiftLead => "Shift Lead"
    case Manager => "Manager"
  }

  /** zod's `enum(["Scooper", "Shift Lead", "Manager"])`. */
  function ParseRole(s: string): (r: Option<Role>)
    ensures r.Some? ==> RoleName(r.value) == s
  {
    if s == "Scooper" then Some(Scooper)
    else if s == "Shift Lead" then Some(ShiftLead)
    else if s == "Manager" then Some(Manager)
    else None
  }

  lemma ParseRoleName(r: Role)
    ensures ParseRole(RoleName(r)) == Some(r)
  {
  }

  function StoreName(s: Store): string
  {
    match s
    case Coomera => "Coomera"
    case Ipswich => "Ipswich"
    case Northlakes => "Northlakes"
  }

  function StatusName(s: TaskStatus): string
  {
    match s
    case Pending => "Pending"
    case Completed => "Completed"
  }

  function CategoryName(c: TaskCategory): string
  {
    match c
    case Daily => "Daily"
    case Weekly => "Weekly"
    case Monthly => "Monthly"
    case OneTime => "One-Time"
  }

  /** zod's `enum(["Daily", "Weekly", "Monthly", "One-Time"])`. */
  function ParseCategory(s: string): (c: Option<TaskCategory>)
    ensures c.Some? ==> CategoryName(c.value) == s
  {
    if s == "Daily" then Some(Daily)
    else if s == "Weekly" then Some(Weekly)
    else if s == "Monthly" then Some(Monthly)
    else if s == "One-Time" then Some(OneTime)
    else None
  }

  function ItemCategoryName(c: ItemCategory): string
  {
    match c
    case IceCream => "Ice Cream"
    case Toppings => "Toppings"
    case Cones => "Cones"
    case Supplies => "Supplies"
  }

  /** zod's `enum(["Ice Cream", "Toppings", "Cones", "Supplies"])`. */
  function ParseItemCategory(s: string): (c: Option<ItemCategory>)
    ensures c.Some? ==> ItemCategoryName(c.value) == s
  {
    if s == "Ice Cream" then Some(IceCream)
    else if s == "Toppings" then Some(Toppings)
    else if s == "Cones" then Some(Cones)
    else if s == "Supplies" then Some(Supplies)
    else None
  }

  function UnitName(u: StockUnit): string
  {
    match u
    case Tubs => "Tubs"
    case Bags => "Bags"
    case Boxes => "Boxes"
    case Units => "Units"
  }

  /** zod's `enum(["Tubs", "Bags", "Boxes", "Units"])`. */
  function ParseUnit(s: string): (u: Option<StockUnit>)
    ensures u.Some? ==> UnitName(u.value) == s
  {
    if s == "Tubs" then Some(Tubs)
    else if s == "Bags" then Some(Bags)
    else if s == "Boxes" then Some(Boxes)
    else if s == "Units" then Some(Units)
    else None
  }

  lemma ParseCategoryName(c: TaskCategory)
    ensures ParseCategory(CategoryName(c)) == Some(c)
  {
  }

  lemma ParseItemCategoryName(c: ItemCategory)
    ensures ParseItemCategory(ItemCategoryName(c)) == Some(c)
  {
  }

  lemma ParseUnitName(u: StockUnit)
    ensures ParseUnit(UnitName(u)) == Some(u)
  {
  }
}
