/**
 * The dashboard's "tasks completed" bar chart of src/components/dashboard/tasks-chart.tsx:
 * the completed tasks counted per employee name, one bar per name, coloured with the
 * five chart colours in turn.
 */
module TasksChart {
  import opened Wrappers
  import opened Text
  import opened Types
  import opened Counting
  import opened EmployeeIndex

  datatype Bar = Bar(employee: string, tasks: nat, fill: string)

  /**
   * The name a task is counted under: a completed task whose assignee is in the id-to-name
   * `Map` (the last employee with that id wins) under a non-empty name; any other task has none.
   */
  function Credit(es: seq<Employee>, t: Task): (r: Option<string>)
    ensures r.Some? ==> t.status == Completed && LastWithId(es, t.assignedTo).Some?
    ensures r.Some? ==> r.value != "" && r.value == es[LastWithId(es, t.assignedTo).value].name
    ensures (t.status == Completed && LastWithId(es, t.assignedTo).Some? &&
      es[LastWithId(es, t.assignedTo).value].name != "") ==> r.Some?
  {
    match LastWithId(es, t.assignedTo)
    case None => None
    case Some(k) => if t.status == Completed && es[k].name != "" then Some(es[k].name) else None
  }

  function Credits(es: seq<Employee>, ts: seq<Task>): (r: seq<Option<string>>)
    ensures |r| == |ts| && forall i :: 0 <= i < |ts| ==> r[i] == Credit(es, ts[i])
  {
    seq(|ts|, i requires 0 <= i < |ts| => Credit(es, ts[i]))
  }

  lemma CreditsSnoc(es: seq<Employee>, ts: seq<Task>, t: Task)
    ensures Credits(es, ts + [t]) == Credits(es, ts) + [Credit(es, t)]
  {
  }

  /** A task that is not completed adds to no count. */
  lemma PendingNotCounted(es: seq<Employee>, ts: seq<Task>, t: Task, name: string)
    requires t.status != Completed
    ensures Occurrences(Credits(es, ts + [t]), name) == Occurrences(Credits(es, ts), name)
    ensures Tallied(Credits(es, ts + [t])) == Tallied(Credits(es, ts))
  {
    CreditsSnoc(es, ts, t);
    assert (Credits(es, ts) + [Credit(es, t)])[..|ts|] == Credits(es, ts);
  }

  /** A completed task whose assignee is no employee adds to no count. */
  lemma UnknownAssigneeNotCounted(es: seq<Employee>, ts: seq<Task>, t: Task, name: string)
    requires forall i :: 0 <= i < |es| ==> es[i].id != t.assignedTo
    ensures Occurrences(Credits(es, ts + [t]), name) == Occurrences(Credits(es, ts), name)
    ensures Tallied(Credits(es, ts + [t])) == Tallied(Credits(es, ts))
  {
    CreditsSnoc(es, ts, t);
    assert (Credits(es, ts) + [Credit(es, t)])[..|ts|] == Credits(es, ts);
  }

  /**
   * A completed task of a known, named employee adds one to that name's count, whichever
   * employee of that name it is, and to nothing else.
   */
  lemma CompletedCounted(es: seq<Employee>, ts: seq<Task>, t: Task, name: string)
    requires t.status == Completed
    requires LastWithId(es, t.assignedTo).Some?
    requires es[LastWithId(es, t.assignedTo).value].name != ""
    ensures var owner := es[LastWithId(es, t.assignedTo).value].name;
      Occurrences(Credits(es, ts + [t]), name) == Occurrences(Credits(es, ts), name) + (if name == owner then 1 else 0)
    ensures Tallied(Credits(es, ts + [t])) == Tallied(Credits(es, ts)) + 1
  {
    CreditsSnoc(es, ts, t);
    assert (Credits(es, ts) + [Credit(es, t)])[..|ts|] == Credits(es, ts);
  }

  /** The bars drawn for a tally of names: bar `i` gets chart colour `(i mod 5) + 1`. */
  function Bars(entries: seq<(string, nat)>): (r: seq<Bar>)
    ensures |r| == |entries|
    ensures forall i :: 0 <= i < |r| ==> r[i].employee == entries[i].0 && r[i].tasks == entries[i].1
    ensures forall i :: 0 <= i < |r| ==> r[i].fill == ChartFill(i % 5 + 1) && 1 <= i % 5 + 1 <= 5
  {
    seq(|entries|, i requires 0 <= i < |entries| => Bar(entries[i].0, entries[i].1, ChartFill(i % 5 + 1)))
  }

  function BarTotal(bars: seq<Bar>): nat
  {
    if bars == [] then 0 else BarTotal(bars[..|bars| - 1]) + bars[|bars| - 1].tasks
  }

  lemma {:induction false} BarTotalOfEntries(entries: seq<(string, nat)>)
    ensures BarTotal(Bars(entries)) == Total(entries)
  {
    if entries != [] {
      var init := entries[..|entries| - 1];
      BarTotalOfEntries(init);
      assert Bars(entries)[..|entries| - 1] == Bars(init);
    }
  }

  /**
   * `chartData`: nothing without both lists; otherwise one bar per name that completed
   * tasks are credited to, holding how many, the bars adding up to all credited tasks.
   */
  method ChartData(tasks: Option<seq<Task>>, employees: Option<seq<Employee>>) returns (bars: seq<Bar>)
    ensures tasks.None? || employees.None? ==> bars == []
    ensures tasks.Some? && employees.Some? ==> var credits := Credits(employees.value, tasks.value);
      && (forall i, j :: 0 <= i < j < |bars| ==> bars[i].employee != bars[j].employee)
      && (forall i :: 0 <= i < |bars| ==> 1 <= bars[i].tasks == Occurrences(credits, bars[i].employee))
      && (forall name :: Some(name) in credits <==> exists i :: 0 <= i < |bars| && bars[i].employee == name)
      && BarTotal(bars) == Tallied(credits)
    ensures forall i :: 0 <= i < |bars| ==> bars[i].fill == ChartFill(i % 5 + 1)
  {
    if tasks.None? || employees.None? {
      return [];
    }
    var es, ts := employees.value, tasks.value;
    var names := IndexById(es);
    var keys := seq(|ts|, i requires 0 <= i < |ts| =>
      var id := ts[i].assignedTo;
      if ts[i].status == Completed && id in names && names[id].name != "" then Some(names[id].name) else None);
    assert keys == Credits(es, ts);
    var entries := Tally(keys);
    BarTotalOfEntries(entries);
    bars := Bars(entries);
  }
}
