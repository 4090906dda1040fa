/**
 * The attendance time clock (src/app/attendance/page.tsx): clock-in with the lateness
 * rule, clock-out of the first open record, and the sorted, paginated log view.
 * The wall clock is passed in: today's date text, the weekday name, the hour and minute.
 */
module Attendance {
  import opened Wrappers
  import opened Text
  import opened Types
  import opened Sorting
  import Pagination

  /** Start text used when the roster has nothing for the day. */
  const DefaultShiftStart: string := "09AM"

  /** `roster.find(r => r.employeeId === employeeId)`, as a position. */
  function FirstRosterIndex(roster: seq<RosterShift>, employeeId: string): (r: Option<nat>)
    ensures r.None? <==> forall i :: 0 <= i < |roster| ==> roster[i].employeeId != employeeId
    ensures r.Some? ==> r.value < |roster| && roster[r.value].employeeId == employeeId
    ensures r.Some? ==> forall j :: 0 <= j < r.value ==> roster[j].employeeId != employeeId
  {
    if roster == [] then None
    else if roster[0].employeeId == employeeId then Some(0)
    else match FirstRosterIndex(roster[1..], employeeId)
      case None => None
      case Some(i) => Some(i + 1)
  }

  /**
   * `shifts[weekday]?.split('-')[0] || "09AM"` on the employee's first roster row:
   * a missing row, a missing day or an empty start all give the default.
   */
  function ShiftStartText(roster: seq<RosterShift>, employeeId: string, weekday: string): (t: string)
  {
    match FirstRosterIndex(roster, employeeId)
    case None => DefaultShiftStart
    case Some(i) =>
      var shifts := roster[i].shifts;
      if weekday in shifts && Split(shifts[weekday], '-')[0] != "" then Split(shifts[weekday], '-')[0]
      else DefaultShiftStart
  }

  /**
   * The start text is never empty and holds no dash. When the employee's first roster row
   * has a non-empty entry for the day that does not start with a dash, it is that entry up to
   * its first dash; in every other case it is the default.
   */
  lemma ShiftStartFromRoster(roster: seq<RosterShift>, employeeId: string, weekday: string)
    ensures var t := ShiftStartText(roster, employeeId, weekday);
      t != "" && '-' !in t
    ensures var t, f := ShiftStartText(roster, employeeId, weekday), FirstRosterIndex(roster, employeeId);
      if f.Some? && weekday in roster[f.value].shifts && roster[f.value].shifts[weekday] != []
        && roster[f.value].shifts[weekday][0] != '-'
      then
        var entry := roster[f.value].shifts[weekday];
        t <= entry && (|t| == |entry| || entry[|t|] == '-')
      else t == DefaultShiftStart
  {
    var r := FirstRosterIndex(roster, employeeId);
    if r.Some? && weekday in roster[r.value].shifts {
      var entry := roster[r.value].shifts[weekday];
      SplitHead(entry, '-');
    }
  }

  /**
   * `parseInt(start.match(/\d+/)?.[0] || '9')`, plus 12 when the text says `PM` and the
   * hour is not 12.
   */
  function ShiftHour(start: string): (h: nat)
    ensures FirstDigitRun(start).None? && !Includes(start, "PM") ==> h == 9
    ensures FirstDigitRun(start).None? && Includes(start, "PM") ==> h == 21
  {
    var base := match FirstDigitRun(start)
      case Some(d) => ParseDecimal(d)
      case None => 9;
    if Includes(start, "PM") && base != 12 then base + 12 else base
  }

  /**
   * A start text that begins with digits reads as their value, twelve hours later when the
   * rest says `PM` and the value is not 12: `9AM`, `09AM`, `9:30AM`, `10PM`.
   */
  lemma ShiftHourOfDigits(d: string, rest: string)
    requires d != [] && AllDigits(d)
    requires rest == [] || !IsDigit(rest[0])
    ensures ShiftHour(d + rest) ==
      if Includes(rest, "PM") && ParseDecimal(d) != 12 then ParseDecimal(d) + 12 else ParseDecimal(d)
  {
    var s := d + rest;
    DigitPrefixOfDigits(d, rest);
    assert s[0] == d[0] && s[0..] == s;
    assert FirstDigitRun(s) == Some(d);
    IncludesAfterDigits(d, rest, "PM");
  }

  /** An example of `ShiftHour`: the default start text reads as nine o'clock, the same hour as the digit fallback. */
  lemma DefaultShiftHour()
    ensures ShiftHour(DefaultShiftStart) == 9
  {
    assert DefaultShiftStart == "09" + "AM";
    ShiftHourOfDigits("09", "AM");
    assert ParseDecimal("09") == 9 by { assert "09"[..1] == "0"; }
    assert !Includes("M", "PM");
  }

  /** An example of `ShiftHour`: `12AM` is read as noon, not midnight, because only `PM` is looked at. */
  lemma MidnightReadAsNoon()
    ensures ShiftHour("12AM") == 12
  {
    assert "12AM" == "12" + "AM";
    ShiftHourOfDigits("12", "AM");
    assert ParseDecimal("12") == 12 by { assert "12"[..1] == "1"; }
    assert !Includes("M", "PM");
  }

  /**
   * A start text written as an hour and `AM` or `PM` (`9AM`, `10PM`) reads as that hour,
   * twelve hours later for `PM` except at 12.
   */
  lemma ShiftHourOfHourText(n: nat, pm: bool)
    ensures ShiftHour(DecimalString(n) + (if pm then "PM" else "AM")) == if pm && n != 12 then n + 12 else n
  {
    var t, suffix := DecimalString(n), if pm then "PM" else "AM";
    assert suffix[0] == (if pm then 'P' else 'A') && !IsDigit(suffix[0]);
    ParseDecimalString(n);
    ShiftHourOfDigits(t, suffix);
    assert suffix[1..] == "M";
    assert Includes(suffix, "PM") <==> pm;
  }

  /** Late after the start hour, or more than five minutes into it. */
  predicate IsLate(hour: nat, minute: nat, shiftHour: nat)
  {
    hour > shiftHour || (hour == shiftHour && minute > 5)
  }

  /** The same rule counted in minutes since midnight: later than five past the start. */
  lemma IsLateInMinutes(hour: nat, minute: nat, shiftHour: nat)
    requires minute < 60
    ensures IsLate(hour, minute, shiftHour) <==> hour * 60 + minute > shiftHour * 60 + 5
  {
  }

  /** `format(now, "HH:mm")`. */
  function FormatClock(hour: nat, minute: nat): string
    requires hour < 24 && minute < 60
  {
    TwoDigits(hour) + ":" + TwoDigits(minute)
  }

  /** `clockInTime.split(':').map(Number)` reads back the hour and minute it was made from. */
  lemma ClockFieldsRoundTrip(hour: nat, minute: nat)
    requires hour < 24 && minute < 60
    ensures var parts := Split(FormatClock(hour, minute), ':');
      |parts| == 2 && AllDigits(parts[0]) && AllDigits(parts[1]) &&
      ParseDecimal(parts[0]) == hour && ParseDecimal(parts[1]) == minute
  {
    var parts := [TwoDigits(hour), TwoDigits(minute)];
    assert Join(parts, ':') == FormatClock(hour, minute);
    SplitJoin(parts, ':');
  }

  /** The duplicate check of clock-in: an open record with status `Clocked In` (not `Late`). */
  predicate HasClockedIn(log: seq<AttendanceRecord>, employeeId: string)
  {
    exists i :: 0 <= i < |log| && log[i].employeeId == employeeId && log[i].status == ClockedIn
  }

  /** The record clock-out updates: the first of the employee's that is not `Clocked Out`. */
  function FirstOpenIndex(log: seq<AttendanceRecord>, employeeId: string): (r: Option<nat>)
    ensures r.None? <==> forall i :: 0 <= i < |log| ==> !(log[i].employeeId == employeeId && log[i].status != ClockedOut)
    ensures r.Some? ==> r.value < |log| && log[r.value].employeeId == employeeId && log[r.value].status != ClockedOut
    ensures r.Some? ==> forall j :: 0 <= j < r.value ==> !(log[j].employeeId == employeeId && log[j].status != ClockedOut)
  {
    if log == [] then None
    else if log[0].employeeId == employeeId && log[0].status != ClockedOut then Some(0)
    else match FirstOpenIndex(log[1..], employeeId)
      case None => None
      case Some(i) => Some(i + 1)
  }

  /** `currentLog.map(rec => rec.id === id ? { ...rec, clockOutTime, status: 'Clocked Out' } : rec)`. */
  function CloseById(log: seq<AttendanceRecord>, id: string, clockOutTime: string): (r: seq<AttendanceRecord>)
  {
    seq(|log|, i requires 0 <= i < |log| =>
      if log[i].id == id then log[i].(clockOutTime := Some(clockOutTime), status := ClockedOut) else log[i])
  }

  predicate DistinctIds(log: seq<AttendanceRecord>)
  {
    forall i, j :: 0 <= i < j < |log| ==> log[i].id != log[j].id
  }

  /** With distinct ids, closing by id changes the one record at position `k` and no other. */
  lemma CloseByIdChangesOne(log: seq<AttendanceRecord>, k: nat, clockOutTime: string)
    requires DistinctIds(log) && k < |log|
    ensures var r := CloseById(log, log[k].id, clockOutTime);
      |r| == |log| && DistinctIds(r) &&
      r[k] == log[k].(clockOutTime := Some(clockOutTime), status := ClockedOut) &&
      forall i :: 0 <= i < |log| && i != k ==> r[i] == log[i]
  {
  }

  /**
   * The log order: newer date first, then later clock-in first
   * (`new Date(b.date) - new Date(a.date) || b.clockInTime.localeCompare(a.clockInTime)`).
   */
  predicate NewerFirst(a: AttendanceRecord, b: AttendanceRecord)
  {
    if a.date == b.date then StrLe(b.clockInTime, a.clockInTime) else StrLe(b.date, a.date)
  }

  lemma {:induction false} NewerFirstTotalPreorder()
    ensures TotalPreorder(NewerFirst)
  {
    forall a, b ensures NewerFirst(a, b) || NewerFirst(b, a) {
      StrLeTotal(a.date, b.date);
      StrLeTotal(a.clockInTime, b.clockInTime);
    }
    forall a, b, c | NewerFirst(a, b) && NewerFirst(b, c) ensures NewerFirst(a, c) {
      if a.date == b.date && b.date == c.date {
        StrLeTransitive(c.clockInTime, b.clockInTime, a.clockInTime);
      } else if a.date == c.date {
        StrLeAntisymmetric(a.date, b.date);
      } else if a.date != b.date && b.date != c.date {
        StrLeTransitive(c.date, b.date, a.date);
      }
    }
  }

  /** `[...attendanceLog].sort(...)`: the log, newest first. */
  function NewestFirst(log: seq<AttendanceRecord>): (r: seq<AttendanceRecord>)
    ensures multiset(r) == multiset(log) && |r| == |log|
    ensures SortedBy(r, NewerFirst)
  {
    NewerFirstTotalPreorder();
    SortBy(log, NewerFirst)
  }

  class TimeClock {
    var log: seq<AttendanceRecord>
    var roster: seq<RosterShift>
    var employees: seq<Employee>
    var currentPage: int

    ghost predicate Valid()
      reads this
    {
      DistinctIds(log) && Pagination.InRange(currentPage, |log|)
    }

    /** The page's state starts from the empty collections of src/lib/data.ts, on page 1. */
    constructor ()
      ensures Valid()
      ensures log == [] && roster == [] && employees == [] && currentPage == 1
    {
      log := [];
      roster := [];
      employees := [];
      currentPage := 1;
    }

    /**
     * `handleClockIn`. Refused while the employee has a `Clocked In` record; otherwise a
     * new open record is put in front of the log. `freshId` stands for `att-${Date.now()}`.
     */
    method ClockIn(employeeId: string, today: string, weekday: string, hour: nat, minute: nat, freshId: string)
      returns (ok: bool)
      requires Valid() && hour < 24 && minute < 60
      requires forall i :: 0 <= i < |log| ==> log[i].id != freshId
      modifies this
      ensures Valid()
      ensures ok <==> !HasClockedIn(old(log), employeeId)
      ensures !ok ==> log == old(log)
      ensures ok ==> |log| == |old(log)| + 1 && log[1..] == old(log)
      ensures ok ==> var shiftHour := ShiftHour(ShiftStartText(roster, employeeId, weekday));
        log[0] == AttendanceRecord(freshId, employeeId, today, FormatClock(hour, minute), None,
                                   if IsLate(hour, minute, shiftHour) then Late else ClockedIn)
      ensures roster == old(roster) && employees == old(employees) && currentPage == old(currentPage)
    {
      if HasClockedIn(log, employeeId) {
        return false;
      }
      var clockInTime := FormatClock(hour, minute);
      var shiftHour := ShiftHour(ShiftStartText(roster, employeeId, weekday));
      ClockFieldsRoundTrip(hour, minute);
      var fields := Split(clockInTime, ':');
      var clockInHour, clockInMinute := ParseDecimal(fields[0]), ParseDecimal(fields[1]);
      var isLate := IsLate(clockInHour, clockInMinute, shiftHour);
      var record := AttendanceRecord(freshId, employeeId, today, clockInTime, None,
                                     if isLate then Late else ClockedIn);
      Pagination.GrowingKeepsInRange(currentPage, |log|, |log| + 1);
      log := [record] + log;
      ok := true;
    }

    /**
     * `handleClockOut`. Refused when the employee has no record other than `Clocked Out`;
     * otherwise the first such record gets the clock-out time and status `Clocked Out`.
     */
    method ClockOut(employeeId: string, hour: nat, minute: nat) returns (ok: bool)
      requires Valid() && hour < 24 && minute < 60
      modifies this
      ensures Valid()
      ensures ok <==> FirstOpenIndex(old(log), employeeId).Some?
      ensures !ok ==> log == old(log)
      ensures ok ==> var k := FirstOpenIndex(old(log), employeeId).value;
        |log| == |old(log)| &&
        log[k] == old(log)[k].(clockOutTime := Some(FormatClock(hour, minute)), status := ClockedOut) &&
        forall i :: 0 <= i < |log| && i != k ==> log[i] == old(log)[i]
      ensures roster == old(roster) && employees == old(employees) && currentPage == old(currentPage)
    {
      var found := FirstOpenIndex(log, employeeId);
      if found.None? {
        return false;
      }
      var clockOutTime := FormatClock(hour, minute);
      CloseByIdChangesOne(log, found.value, clockOutTime);
      log := CloseById(log, log[found.value].id, clockOutTime);
      ok := true;
    }

    /** `paginatedLog`: the current page of the log sorted newest first. */
    function PaginatedLog(): (r: seq<AttendanceRecord>)
      reads this
      ensures |r| <= Pagination.ItemsPerPage
      ensures forall k :: 0 <= k < |r| ==> r[k] in log
      ensures SortedBy(r, NewerFirst)
      ensures 1 <= currentPage ==>
        var start, sorted := (currentPage - 1) * Pagination.ItemsPerPage, NewestFirst(log);
        && |r| == (if start >= |log| then 0 else if |log| - start < Pagination.ItemsPerPage then |log| - start else Pagination.ItemsPerPage)
        && forall k :: 0 <= k < |r| ==> start + k < |log| && r[k] == sorted[start + k]
    {
      var sorted := NewestFirst(log);
      SortedCopyPage(log, sorted, NewerFirst, currentPage);
      Pagination.PageSlice(sorted, currentPage)
    }

    /** The rows drawn: records of the page whose employee is known (others render nothing). */
    function DisplayedRows(): (r: seq<AttendanceRecord>)
      reads this
      ensures |r| <= |PaginatedLog()|
      ensures forall x :: x in r <==> x in PaginatedLog() && HasEmployee(employees, x.employeeId)
      ensures forall x :: multiset(r)[x] == if HasEmployee(employees, x.employeeId) then multiset(PaginatedLog())[x] else 0
    {
      KnownCounts(PaginatedLog(), employees);
      Known(PaginatedLog(), employees)
    }

    method PreviousPage()
      requires Valid()
      modifies this
      ensures Valid()
      ensures currentPage == Pagination.Previous(old(currentPage))
      ensures log == old(log) && roster == old(roster) && employees == old(employees)
    {
      Pagination.StepsStayInRange(currentPage, |log|);
      currentPage := Pagination.Previous(currentPage);
    }

    method NextPage()
      requires Valid()
      modifies this
      ensures Valid()
      ensures currentPage == Pagination.Next(old(currentPage), |log|)
      ensures log == old(log) && roster == old(roster) && employees == old(employees)
    {
      Pagination.StepsStayInRange(currentPage, |log|);
      currentPage := Pagination.Next(currentPage, |log|);
    }
  }

  /** Some employee has id `id`: `employeeMap[id]` finds an entry. */
  predicate HasEmployee(employees: seq<Employee>, id: string)
  {
    exists e :: e in employees && e.id == id
  }

  /** The records whose employee appears in `employees`, in order. */
  function Known(records: seq<AttendanceRecord>, employees: seq<Employee>): (r: seq<AttendanceRecord>)
    ensures |r| <= |records|
  {
    if records == [] then []
    else (if HasEmployee(employees, records[0].employeeId) then [records[0]] else []) + Known(records[1..], employees)
  }

  /** Exactly the records of known employees are drawn, each as often as it is in `records`. */
  lemma {:induction false} KnownCounts(records: seq<AttendanceRecord>, employees: seq<Employee>)
    ensures forall x :: x in Known(records, employees) <==> x in records && HasEmployee(employees, x.employeeId)
    ensures forall x :: (multiset(Known(records, employees))[x] ==
      if HasEmployee(employees, x.employeeId) then multiset(records)[x] else 0)
  {
    if records != [] {
      KnownCounts(records[1..], employees);
      assert records == [records[0]] + records[1..];
    }
  }

  /** A record in front is drawn in front, when its employee is known. */
  lemma KnownCons(x: AttendanceRecord, rest: seq<AttendanceRecord>, employees: seq<Employee>)
    ensures Known([x] + rest, employees) ==
      (if HasEmployee(employees, x.employeeId) then [x] else []) + Known(rest, employees)
  {
    assert ([x] + rest)[1..] == rest;
  }

  /** The rows keep the records' order: the filter distributes over concatenation. */
  lemma {:induction false} KnownKeepsOrder(a: seq<AttendanceRecord>, b: seq<AttendanceRecord>, employees: seq<Employee>)
    ensures Known(a + b, employees) == Known(a, employees) + Known(b, employees)
  {
    if a == [] {
      assert a + b == b;
    } else {
      var x, tail := a[0], a[1..];
      var head := if HasEmployee(employees, x.employeeId) then [x] else [];
      assert a == [x] + tail && a + b == [x] + (tail + b);
      KnownCons(x, tail, employees);
      KnownCons(x, tail + b, employees);
      KnownKeepsOrder(tail, b, employees);
      assert head + (Known(tail, employees) + Known(b, employees))
        == (head + Known(tail, employees)) + Known(b, employees);
    }
  }
}
