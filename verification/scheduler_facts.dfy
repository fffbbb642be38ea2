/** Properties of the slot engine and the reservation step, including the
    places where the two disagree. */
module SchedulerFacts {
  import opened Wrappers
  import opened TimeOfDay
  import opened AppointmentModel
  import opened BusinessModel
  import opened StaffModel
  import opened Scheduler

  function SlotStart(start: nat, step: int, k: nat): int {
    start + k * step
  }

  lemma StepMonotone(start: nat, step: int, k: nat, n: nat)
    requires step > 0 && k >= n
    ensures SlotStart(start, step, k) >= SlotStart(start, step, n)
  {
    assert k * step >= n * step by {
      assert (k - n) * step >= 0;
    }
  }

  /** The grid holds exactly the times `start + k*step` whose slot ends by
      `end`. */
  lemma GridExactly(start: nat, end: int, duration: int, step: int, t: int)
    requires step > 0
    ensures t in Grid(start, end, duration, step) <==>
      exists k: nat :: SlotStart(start, step, k) == t && t + duration <= end
  {
    var g := Grid(start, end, duration, step);
    if t in g {
      var i :| 0 <= i < |g| && g[i] == t;
      assert SlotStart(start, step, i) == t;
    }
    if exists k: nat :: SlotStart(start, step, k) == t && t + duration <= end {
      var k: nat :| SlotStart(start, step, k) == t && t + duration <= end;
      if k >= |g| {
        StepMonotone(start, step, k, |g|);
        assert false;
      }
      assert g[k] == t;
    }
  }

  /** Slot starts strictly increase. */
  lemma GridAscending(start: nat, end: int, duration: int, step: int, i: nat, j: nat)
    requires step > 0
    requires i < j < |Grid(start, end, duration, step)|
    ensures Grid(start, end, duration, step)[i] < Grid(start, end, duration, step)[j]
  {
    var g := Grid(start, end, duration, step);
    assert g[i] == SlotStart(start, step, i) && g[j] == SlotStart(start, step, j);
    StepMonotone(start, step, j, i + 1);
    assert (i + 1) * step == i * step + step;
  }

  /** A successful reservation keeps the booking invariant. */
  lemma ReservePreservesNoDoubleBooking(store: Store, user: Id, staffId: Option<Id>,
                                        date: string, timeSlot: string, at: int)
    requires NoDoubleBooking(store)
    requires Reserve(store, user, staffId, date, timeSlot, at).Ok?
    ensures NoDoubleBooking(Reserve(store, user, staffId, date, timeSlot, at).value.0)
  {
    var (store', a) := Reserve(store, user, staffId, date, timeSlot, at).value;
    forall i, j | 0 <= i < j < |store'| && Occupying(store'[i].status) && Occupying(store'[j].status)
      ensures !(store'[i].date == store'[j].date && store'[i].timeSlot == store'[j].timeSlot
                && store'[i].staff == store'[j].staff)
    {
      if j == |store| {
        assert store'[i] == store[i];
        assert !Conflicts(store[i], date, timeSlot, staffId);
      } else {
        assert store'[i] == store[i] && store'[j] == store[j];
      }
    }
  }

  /** Repeating a successful reservation on the store it produced fails. */
  lemma ReserveTwiceFails(store: Store, user: Id, user2: Id, staffId: Option<Id>,
                          date: string, timeSlot: string, at: int, at2: int)
    requires Reserve(store, user, staffId, date, timeSlot, at).Ok?
    ensures Reserve(Reserve(store, user, staffId, date, timeSlot, at).value.0,
                    user2, staffId, date, timeSlot, at2) == Err(Thrown("Slot already reserved."))
  {
    var (store', a) := Reserve(store, user, staffId, date, timeSlot, at).value;
    assert store'[|store|] == a;
    assert Conflicts(store'[|store|], date, timeSlot, staffId);
  }

  /** After a reservation at a grid time, the grid shows that time Booked
      (unless it is already past). */
  lemma ReservedSlotShowsBooked(store: Store, user: Id, staffId: Option<Id>, date: string,
                                t: nat, at: int, clock: Clock)
    requires Reserve(store, user, staffId, date, MinutesToTime(t), at).Ok?
    ensures
      var store' := Reserve(store, user, staffId, date, MinutesToTime(t), at).value.0;
      MarkSlot(t, store', date, staffId, clock).state ==
        if clock.isToday && t <= clock.nowMinutes then Unavailable(Past) else Unavailable(Booked)
  {
    var (store', a) := Reserve(store, user, staffId, date, MinutesToTime(t), at).value;
    assert store'[|store|] == a;
    assert Blocks(store'[|store|], date, staffId);
  }

  /** A slot the grid shows available can be reserved (the grid's query is
      stricter than the reservation's). */
  lemma AvailableMeansReservable(store: Store, user: Id, staffId: Option<Id>, date: string,
                                 t: nat, at: int, clock: Clock)
    requires date != ""
    requires MarkSlot(t, store, date, staffId, clock).state == Available
    ensures Reserve(store, user, staffId, date, MinutesToTime(t), at).Ok?
  {
    var time := MinutesToTime(t);
    assert !Taken(store, date, staffId, time);
    assert forall i :: 0 <= i < |store| && Conflicts(store[i], date, time, staffId) ==>
      Blocks(store[i], date, staffId);
  }

  /** The two queries disagree: a Rejected, Rescheduled, NoShow or Completed
      record makes its slot show Booked, yet the slot can be reserved. */
  lemma BookedYetReservable(a: Appointment, staffId: Option<Id>, t: nat, user: Id, at: int, clock: Clock)
    requires a.status in {Rejected, Rescheduled, NoShow, Completed}
    requires a.date != "" && a.timeSlot == MinutesToTime(t)
    requires staffId.Some? ==> a.staff == staffId
    requires !(clock.isToday && t <= clock.nowMinutes)
    ensures MarkSlot(t, [a], a.date, staffId, clock).state == Unavailable(Booked)
    ensures Reserve([a], user, staffId, a.date, a.timeSlot, at).Ok?
  {
    assert Blocks([a][0], a.date, staffId);
    assert !Conflicts([a][0], a.date, a.timeSlot, staffId);
  }

  /** Without a staff id neither query filters by staff: a booking with any
      staff member blocks the slot for everyone. */
  lemma NoStaffIdBlocksEveryone(store: Store, k: nat, t: nat, user: Id, at: int, clock: Clock)
    requires k < |store| && Occupying(store[k].status) && store[k].staff.Some?
    requires store[k].timeSlot == MinutesToTime(t)
    requires !(clock.isToday && t <= clock.nowMinutes)
    ensures MarkSlot(t, store, store[k].date, None, clock).state == Unavailable(Booked)
    ensures Reserve(store, user, None, store[k].date, store[k].timeSlot, at) == Err(Thrown("Slot already reserved."))
  {
    assert Blocks(store[k], store[k].date, None);
    assert Conflicts(store[k], store[k].date, store[k].timeSlot, None);
  }

  /** Any day a staff member overrides yields no slots: the override entry has
      no `isOpen`, so the day reads as closed. */
  lemma StaffOverrideClosesDay(b: Business, staff: seq<Staff>, store: Store, date: string,
                               weekday: Weekday, staffId: Option<Id>, clock: Clock)
    requires StaffOverride(staff, weekday, staffId).Some?
    ensures GenerateSlots(Some(b), staff, store, date, weekday, staffId, clock) == Ok([])
  {
    assert OpenBounds(b, staff, weekday, staffId).None?;
  }

  /** The business hours of the seed data. */
  const SeedHours: seq<OpeningHours> := [
    OpeningHours(Monday, "09:00", "17:00", true),
    OpeningHours(Tuesday, "09:00", "17:00", true),
    OpeningHours(Wednesday, "09:00", "17:00", true),
    OpeningHours(Thursday, "09:00", "17:00", true),
    OpeningHours(Friday, "09:00", "17:00", true),
    OpeningHours(Saturday, "10:00", "14:00", true),
    OpeningHours(Sunday, "00:00", "00:00", false)]

  const SeedBusiness := Business("Pro Clinic", "UTC", 30, 0, SeedHours, [])

  const NotToday := Clock(false, 0)

  /** A parsed canonical clock time renders back to itself. */
  lemma RenderParsed(s: string, m: nat)
    requires IsClockTime(s) && TimeToMinutes(s) == Some(m)
    ensures MinutesToTime(m) == s
  {
    ClockTimeRoundTrip(s);
  }

  lemma SeedFirst(day: Weekday, k: nat)
    requires k < 7 && SeedHours[k].day == day
    ensures FirstForDay(SeedHours, day) == Some(SeedHours[k])
  {
    var hours := SeedHours;
    assert hours[0].day == Monday && hours[1].day == Tuesday && hours[2].day == Wednesday
      && hours[3].day == Thursday && hours[4].day == Friday && hours[5].day == Saturday
      && hours[6].day == Sunday;
    assert forall i :: 0 <= i < k ==> hours[i].day != day;
    FirstForDayAt(hours, day, k);
  }

  lemma SeedWindow(day: Weekday, k: nat)
    requires k < 7 && SeedHours[k].day == day
    ensures ResolveWindow(SeedBusiness, [], day, None) == Some(BusinessDay(SeedHours[k]))
  {
    SeedFirst(day, k);
    assert StaffOverride([], day, None).None?;
  }

  lemma ClockLiteral(s: string, m: nat)
    requires IsClockTime(s) && ClockValue(s) == m
    ensures TimeToMinutes(s) == Some(m)
  {
    ParseClock(s);
  }

  /** An open window whose two times parse gives their minute counts. */
  lemma BoundsOf(b: Business, weekday: Weekday, h: OpeningHours, s: nat, e: nat)
    requires ResolveWindow(b, [], weekday, None) == Some(BusinessDay(h))
    requires h.isOpen && TimeToMinutes(h.start) == Some(s) && TimeToMinutes(h.end) == Some(e)
    ensures OpenBounds(b, [], weekday, None) == Some((s, e))
  {
  }

  lemma SeedMondayBounds()
    ensures OpenBounds(SeedBusiness, [], Monday, None) == Some((540, 1020))
  {
    SeedWindow(Monday, 0);
    ClockLiteral("09:00", 540);
    ClockLiteral("17:00", 1020);
    BoundsOf(SeedBusiness, Monday, SeedHours[0], 540, 1020);
  }

  lemma {:induction false} GridCount(start: nat, end: int, duration: int, step: int, n: nat)
    requires step > 0
    requires n >= 1
    requires start + (n - 1) * step + duration <= end < start + n * step + duration
    ensures |Grid(start, end, duration, step)| == n
    decreases n
  {
    if n > 1 {
      assert (n - 1) * step == (n - 2) * step + step;
      GridCount(start + step, end, duration, step, n - 1);
    }
  }

  lemma SeedMondayGrid()
    ensures |Grid(540, 1020, 30, 30)| == 16
    ensures Grid(540, 1020, 30, 30)[0] == 540 && Grid(540, 1020, 30, 30)[15] == 990
  {
    GridCount(540, 1020, 30, 30, 16);
  }

  lemma GenerateFromBounds(b: Business, date: string, weekday: Weekday, clock: Clock, s: nat, e: nat)
    requires !IsHoliday(b, date)
    requires OpenBounds(b, [], weekday, None) == Some((s, e))
    ensures GenerateSlots(Some(b), [], [], date, weekday, None, clock)
      == SlotsFor(s, e, b.slotDuration, b.bufferTime, [], date, None, clock)
  {
  }

  /** With no bookings and a date that is not today, every slot is
      available. */
  lemma FreeDaySlot(s: nat, e: nat, duration: int, buffer: int, date: string,
                    staffId: Option<Id>, i: nat)
    requires duration + buffer > 0 && s + duration <= e
    requires i < |Grid(s, e, duration, duration + buffer)|
    ensures SlotsFor(s, e, duration, buffer, [], date, staffId, NotToday).Ok?
    ensures SlotsFor(s, e, duration, buffer, [], date, staffId, NotToday).value[i]
      == Slot(MinutesToTime(Grid(s, e, duration, duration + buffer)[i]), Available)
  {
  }

  /** Seed Monday, 09:00-17:00 in steps of 30, no bookings: sixteen
      available slots from 09:00 to 16:30. */
  lemma SeedMonday(date: string)
    ensures var r := GenerateSlots(Some(SeedBusiness), [], [], date, Monday, None, NotToday);
      && r.Ok? && |r.value| == 16
      && r.value[0] == Slot("09:00", Available)
      && r.value[15] == Slot("16:30", Available)
  {
    SeedMondayBounds();
    GenerateFromBounds(SeedBusiness, date, Monday, NotToday, 540, 1020);
    SeedMondayGrid();
    FreeDaySlot(540, 1020, 30, 0, date, None, 0);
    FreeDaySlot(540, 1020, 30, 0, date, None, 15);
    ParseClock("09:00");
    ParseClock("16:30");
    RenderParsed("09:00", 540);
    RenderParsed("16:30", 990);
  }

  lemma SeedSaturdayBounds()
    ensures OpenBounds(SeedBusiness, [], Saturday, None) == Some((600, 840))
  {
    SeedWindow(Saturday, 5);
    ClockLiteral("10:00", 600);
    ClockLiteral("14:00", 840);
    BoundsOf(SeedBusiness, Saturday, SeedHours[5], 600, 840);
  }

  /** Seed Saturday, 10:00-14:00: eight slots. */
  lemma SeedSaturday(date: string)
    ensures var r := GenerateSlots(Some(SeedBusiness), [], [], date, Saturday, None, NotToday);
      r.Ok? && |r.value| == 8
  {
    SeedSaturdayBounds();
    GenerateFromBounds(SeedBusiness, date, Saturday, NotToday, 600, 840);
    GridCount(600, 840, 30, 30, 8);
  }

  /** Seed Sunday is closed: no slots. */
  lemma SeedSunday(date: string)
    ensures GenerateSlots(Some(SeedBusiness), [], [], date, Sunday, None, NotToday) == Ok([])
  {
    SeedWindow(Sunday, 6);
  }
}
