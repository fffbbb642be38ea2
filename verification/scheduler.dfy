/** The slot engine and the reservation step (services/schedulerService.js):
    `generateSlots` and `attemptLockSlot`. The date's weekday, whether it is
    today and the current minute of the day are inputs; the transaction of
    `attemptLockSlot` is one atomic step over the appointment store. */
module Scheduler {
  import opened Wrappers
  import opened TimeOfDay
  import opened AppointmentModel
  import opened BusinessModel
  import opened StaffModel

  /** The entry the generator reads its hours from: the business entry for
      the weekday, or the staff member's own entry that replaced it. */
  datatype Window = BusinessDay(hours: OpeningHours) | StaffDay(entry: AvailabilityEntry)

  /** The open test of line 45 reads `isOpen`. A staff entry stores its flag
      as `isAvailable` and has no `isOpen`, so the read is `undefined` and the
      day counts as closed, whatever the entry says. */
  predicate IsOpen(w: Window) {
    w.BusinessDay? && w.hours.isOpen
  }

  /** "Today?" and the current minute of the day, read from the clock by the
      caller. */
  datatype Clock = Clock(isToday: bool, nowMinutes: int)

  datatype Reason = Past | Booked
  datatype SlotState = Available | Unavailable(reason: Reason)
  datatype Slot = Slot(time: string, state: SlotState)

  /** The holiday test: some holiday falls on the requested date. */
  predicate IsHoliday(b: Business, date: string) {
    exists i :: 0 <= i < |b.holidays| && b.holidays[i].date == date
  }

  /** Whether the staff lookup of lines 34-43 replaces the business entry. */
  function StaffOverride(staff: seq<Staff>, weekday: Weekday, staffId: Option<Id>): (r: Option<AvailabilityEntry>)
    ensures r.Some? <==>
      && staffId.Some?
      && FindStaff(staff, staffId.value).Some?
      && |FindStaff(staff, staffId.value).value.availability| > 0
      && AvailabilityFor(FindStaff(staff, staffId.value).value.availability, weekday).Some?
    ensures r.Some? ==> r.value.day == weekday
  {
    match staffId
    case None => None
    case Some(id) =>
      match FindStaff(staff, id)
      case None => None
      case Some(s) =>
        if |s.availability| > 0 then AvailabilityFor(s.availability, weekday) else None
  }

  /** The window of the day: the staff entry when one overrides, otherwise
      the first business entry for the weekday, if there is one. */
  function ResolveWindow(b: Business, staff: seq<Staff>, weekday: Weekday, staffId: Option<Id>): (r: Option<Window>)
    ensures StaffOverride(staff, weekday, staffId).Some? ==>
      r == Some(StaffDay(StaffOverride(staff, weekday, staffId).value))
    ensures StaffOverride(staff, weekday, staffId).None? ==>
      (r.None? <==> forall i :: 0 <= i < |b.openingHours| ==> b.openingHours[i].day != weekday)
    ensures StaffOverride(staff, weekday, staffId).None? && r.Some? ==>
      r.value.BusinessDay? && r.value.hours.day == weekday && r.value.hours in b.openingHours
    ensures StaffOverride(staff, weekday, staffId).None? && r.Some? ==>
      exists k :: 0 <= k < |b.openingHours| && b.openingHours[k] == r.value.hours
                  && forall i :: 0 <= i < k ==> b.openingHours[i].day != weekday
  {
    match StaffOverride(staff, weekday, staffId)
    case Some(e) => Some(StaffDay(e))
    case None =>
      match FirstForDay(b.openingHours, weekday)
      case Some(h) => Some(BusinessDay(h))
      case None => None
  }

  /** The slot starts of one day: `start + k*step` for k = 0, 1, ... while the
      slot still ends by `end`. */
  function Grid(start: nat, end: int, duration: int, step: int): (g: seq<nat>)
    requires step > 0
    ensures forall i :: 0 <= i < |g| ==> g[i] == start + i * step
    ensures forall i :: 0 <= i < |g| ==> g[i] + duration <= end
    ensures start + |g| * step + duration > end
    decreases if start + duration <= end then end - duration - start + 1 else 0
  {
    if start + duration <= end then
      var rest := Grid(start + step, end, duration, step);
      assert forall i :: 0 <= i < |rest| ==> rest[i] == start + (i + 1) * step by {
        forall i | 0 <= i < |rest| ensures rest[i] == start + (i + 1) * step {
          StepShift(start, step, i);
        }
      }
      StepShift(start, step, |rest|);
      [start] + rest
    else []
  }

  lemma StepShift(start: int, step: int, i: int)
    ensures (start + step) + i * step == start + (i + 1) * step
  {
  }

  /** A record that the generator's query returns: same date, any status but
      Cancelled, and the same staff only when a staff id is given. */
  predicate Blocks(a: Appointment, date: string, staffId: Option<Id>) {
    && a.date == date
    && a.status != Cancelled
    && (staffId.Some? ==> a.staff == staffId)
  }

  /** Some blocking record has exactly this `timeSlot` string. */
  predicate Taken(store: Store, date: string, staffId: Option<Id>, time: string) {
    exists i :: 0 <= i < |store| && Blocks(store[i], date, staffId) && store[i].timeSlot == time
  }

  /** One slot: past first, then booked, else available. */
  function MarkSlot(t: nat, store: Store, date: string, staffId: Option<Id>, clock: Clock): Slot
  {
    var time := MinutesToTime(t);
    if clock.isToday && t <= clock.nowMinutes then Slot(time, Unavailable(Past))
    else if Taken(store, date, staffId, time) then Slot(time, Unavailable(Booked))
    else Slot(time, Available)
  }

  /** The loop of lines 74-96 over an open window `[start, end]`. A step of
      `slotDuration + bufferTime` that is not positive never leaves the loop
      once the first slot fits. */
  function SlotsFor(start: nat, end: nat, duration: int, buffer: int,
                    store: Store, date: string, staffId: Option<Id>, clock: Clock): (r: Result<seq<Slot>>)
    ensures r.Err? <==> start + duration <= end && duration + buffer <= 0
    ensures r.Err? ==> r.error == Diverges
    ensures r.Ok? && duration + buffer <= 0 ==> r.value == []
    ensures r.Ok? && duration + buffer > 0 ==>
      var g := Grid(start, end, duration, duration + buffer);
      && |r.value| == |g|
      && forall i :: 0 <= i < |g| ==>
        && r.value[i].time == MinutesToTime(g[i])
        && (r.value[i].state == Unavailable(Past) <==> clock.isToday && g[i] <= clock.nowMinutes)
        && (r.value[i].state == Unavailable(Booked) <==>
              !(clock.isToday && g[i] <= clock.nowMinutes) && Taken(store, date, staffId, r.value[i].time))
        && (r.value[i].state == Available <==>
              !(clock.isToday && g[i] <= clock.nowMinutes) && !Taken(store, date, staffId, r.value[i].time))
  {
    var step := duration + buffer;
    if start + duration > end then Ok([])
    else if step <= 0 then Err(Diverges)
    else
      var g := Grid(start, end, duration, step);
      Ok(seq(|g|, i requires 0 <= i < |g| => MarkSlot(g[i], store, date, staffId, clock)))
  }

  /** The parsed bounds of the day's window, when it is open; `None` when the
      day is closed or a bound is not a number (`NaN` fails every loop test). */
  function OpenBounds(b: Business, staff: seq<Staff>, weekday: Weekday, staffId: Option<Id>): (r: Option<(nat, nat)>)
    ensures r.Some? ==>
      exists h :: && ResolveWindow(b, staff, weekday, staffId) == Some(BusinessDay(h))
                  && h.isOpen
                  && TimeToMinutes(h.start) == Some(r.value.0)
                  && TimeToMinutes(h.end) == Some(r.value.1)
    ensures r.None? ==>
      || ResolveWindow(b, staff, weekday, staffId).None?
      || !IsOpen(ResolveWindow(b, staff, weekday, staffId).value)
      || TimeToMinutes(ResolveWindow(b, staff, weekday, staffId).value.hours.start).None?
      || TimeToMinutes(ResolveWindow(b, staff, weekday, staffId).value.hours.end).None?
  {
    match ResolveWindow(b, staff, weekday, staffId)
    case None => None
    case Some(w) =>
      if !IsOpen(w) then None
      else
        match (TimeToMinutes(w.hours.start), TimeToMinutes(w.hours.end))
        case (Some(s), Some(e)) => Some((s, e))
        case _ => None
  }

  /** `generateSlots(dateStr, staffId)`. */
  function GenerateSlots(config: Option<Business>, staff: seq<Staff>, store: Store, date: string,
                         weekday: Weekday, staffId: Option<Id>, clock: Clock): (r: Result<seq<Slot>>)
    ensures config.None? <==> r == Err(Thrown("Business settings not configured"))
    ensures config.Some? && IsHoliday(config.value, date) ==> r == Ok([])
    ensures config.Some? && OpenBounds(config.value, staff, weekday, staffId).None? ==> r == Ok([])
    ensures config.Some? && !IsHoliday(config.value, date) && OpenBounds(config.value, staff, weekday, staffId).Some? ==>
      var (s, e) := OpenBounds(config.value, staff, weekday, staffId).value;
      r == SlotsFor(s, e, config.value.slotDuration, config.value.bufferTime, store, date, staffId, clock)
  {
    match config
    case None => Err(Thrown("Business settings not configured"))
    case Some(b) =>
      if IsHoliday(b, date) then Ok([])
      else
        match OpenBounds(b, staff, weekday, staffId)
        case None => Ok([])
        case Some((s, e)) => SlotsFor(s, e, b.slotDuration, b.bufferTime, store, date, staffId, clock)
  }

  /** A record the reservation query finds: same date and time, status
      Pending or Confirmed, and the same staff only when a staff id is given. */
  predicate Conflicts(a: Appointment, date: string, timeSlot: string, staffId: Option<Id>) {
    && a.date == date
    && a.timeSlot == timeSlot
    && Occupying(a.status)
    && (staffId.Some? ==> a.staff == staffId)
  }

  predicate HasConflict(store: Store, date: string, timeSlot: string, staffId: Option<Id>) {
    exists i :: 0 <= i < |store| && Conflicts(store[i], date, timeSlot, staffId)
  }

  const CreatedDuration := 30

  /** The audit entry a reservation starts with; `by` is not set. */
  function CreatedEntry(at: int): AuditEntry {
    AuditEntry("Created", None, at, "User initiated booking")
  }

  /** `attemptLockSlot(userId, staffId, date, timeSlot)` as one atomic step:
      the new store and the created record, or the failure with nothing
      written. */
  function Reserve(store: Store, user: Id, staffId: Option<Id>, date: string, timeSlot: string,
                   at: int): (r: Result<(Store, Appointment)>)
    ensures HasConflict(store, date, timeSlot, staffId) ==> r == Err(Thrown("Slot already reserved."))
    ensures r.Ok? <==> !HasConflict(store, date, timeSlot, staffId) && date != "" && timeSlot != ""
    ensures r.Ok? ==>
      var (store', a) := r.value;
      && store' == store + [a]
      && a.id !in (set i | 0 <= i < |store| :: store[i].id)
      && a.user == user && a.staff == staffId && a.date == date && a.timeSlot == timeSlot
      && a.duration == 30 && a.status == Pending && !a.reminderSent && a.emailLogs == []
      && a.auditLog == [CreatedEntry(at)]
  {
    if HasConflict(store, date, timeSlot, staffId) then Err(Thrown("Slot already reserved."))
    else
      match AppointmentModel.Create(FreshId(store), user, staffId, date, timeSlot, CreatedDuration, [CreatedEntry(at)])
      case Err(e) => Err(e)
      case Ok(a) => Ok((store + [a], a))
  }

  /** The booking invariant: no two Pending/Confirmed records share date, time
      and staff. */
  predicate NoDoubleBooking(store: Store) {
    forall i, j :: 0 <= i < j < |store| && Occupying(store[i].status) && Occupying(store[j].status) ==>
      !(store[i].date == store[j].date && store[i].timeSlot == store[j].timeSlot && store[i].staff == store[j].staff)
  }
}
