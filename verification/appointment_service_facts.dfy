/** Properties of the status change and the reschedule. */
module AppointmentServiceFacts {
  import opened Wrappers
  import opened AppointmentModel
  import opened Scheduler
  import opened AppointmentService
  import SchedulerFacts

  /** The transition table is never consulted: from any status that has a
      table entry, every status of the enum is accepted, listed or not. */
  lemma AnyTargetAccepted(store: Store, id: Id, target: Status, at: int)
    requires Find(store, id).Some?
    requires Transitions(store[Find(store, id).value].status).Some?
    ensures UpdateStatus(store, id, StatusName(target), at).Ok?
    ensures UpdateStatus(store, id, StatusName(target), at).value.1.status == target
  {
    StatusNameRoundTrip(target);
  }

  /** For instance Confirmed back to Pending, which the table does not list. */
  lemma ConfirmedBackToPending(store: Store, id: Id, at: int)
    requires Find(store, id).Some? && store[Find(store, id).value].status == Confirmed
    ensures Pending !in Transitions(Confirmed).value
    ensures UpdateStatus(store, id, "Pending", at).Ok?
  {
    AnyTargetAccepted(store, id, Pending, at);
  }

  /** Replacing one record by a copy that keeps its slot and either frees it
      or already held it keeps the booking invariant. */
  lemma ReplacePreservesNoDoubleBooking(store: Store, k: nat, a: Appointment)
    requires NoDoubleBooking(store) && k < |store|
    requires a.date == store[k].date && a.timeSlot == store[k].timeSlot && a.staff == store[k].staff
    requires Occupying(a.status) ==> Occupying(store[k].status)
    ensures NoDoubleBooking(Put(store, k, a))
  {
    var s' := Put(store, k, a);
    forall i, j | 0 <= i < j < |s'| && Occupying(s'[i].status) && Occupying(s'[j].status)
      ensures !(s'[i].date == s'[j].date && s'[i].timeSlot == s'[j].timeSlot && s'[i].staff == s'[j].staff)
    {
      assert Occupying(store[i].status) && Occupying(store[j].status);
    }
  }

  /** A status change keeps the invariant when it does not turn a free
      record into an occupying one. */
  lemma UpdateStatusPreservesNoDoubleBooking(store: Store, id: Id, name: string, at: int)
    requires NoDoubleBooking(store)
    requires UpdateStatus(store, id, name, at).Ok?
    requires var k := Find(store, id).value;
      Occupying(UpdateStatus(store, id, name, at).value.1.status) ==> Occupying(store[k].status)
    ensures NoDoubleBooking(UpdateStatus(store, id, name, at).value.0)
  {
    var k := Find(store, id).value;
    var (s', a) := UpdateStatus(store, id, name, at).value;
    ReplacePreservesNoDoubleBooking(store, k, a);
    assert s' == Put(store, k, a);
  }

  /** Reopening a cancelled record whose slot was taken again puts two
      occupying records on one slot: the status change alone can break the
      booking invariant. */
  lemma ReopeningCanDoubleBook()
    ensures var cancelled := Appointment(1, 7, Some(3), "2024-05-06", "09:00", 30, Cancelled, false, [], []);
      var rebooked := Appointment(2, 8, Some(3), "2024-05-06", "09:00", 30, Pending, false, [], []);
      var store := [cancelled, rebooked];
      && NoDoubleBooking(store)
      && UpdateStatus(store, 1, "Pending", 0).Ok?
      && !NoDoubleBooking(UpdateStatus(store, 1, "Pending", 0).value.0)
  {
    var cancelled := Appointment(1, 7, Some(3), "2024-05-06", "09:00", 30, Cancelled, false, [], []);
    var rebooked := Appointment(2, 8, Some(3), "2024-05-06", "09:00", 30, Pending, false, [], []);
    var store := [cancelled, rebooked];
    assert Find(store, 1) == Some(0);
    var s' := UpdateStatus(store, 1, "Pending", 0).value.0;
    assert s'[0].status == Pending && s'[1] == rebooked;
  }

  /** A reschedule keeps the booking invariant: the new record passed the
      reservation check and the original stops occupying. */
  lemma ReschedulePreservesNoDoubleBooking(store: Store, id: Id, newDate: string, newTimeSlot: string,
                                           user: Id, at: int)
    requires NoDoubleBooking(store)
    requires Reschedule(store, id, newDate, newTimeSlot, user, at).Ok?
    ensures NoDoubleBooking(Reschedule(store, id, newDate, newTimeSlot, user, at).value.0)
  {
    var k := Find(store, id).value;
    var prior := store[k];
    var grown := Reserve(store, user, prior.staff, newDate, newTimeSlot, at).value.0;
    SchedulerFacts.ReservePreservesNoDoubleBooking(store, user, prior.staff, newDate, newTimeSlot, at);
    var s' := Reschedule(store, id, newDate, newTimeSlot, user, at).value.0;
    ReplacePreservesNoDoubleBooking(grown, k, s'[k]);
    assert s' == Put(grown, k, s'[k]);
  }

  /** Rescheduling an occupying record to its own date and time always fails:
      the original still holds the slot when the new one is requested. */
  lemma RescheduleInPlaceFails(store: Store, id: Id, user: Id, at: int)
    requires Find(store, id).Some?
    requires var a := store[Find(store, id).value]; a.user == user && Occupying(a.status)
    ensures var a := store[Find(store, id).value];
      Reschedule(store, id, a.date, a.timeSlot, user, at) == Err(Thrown("Slot already reserved."))
  {
    var k := Find(store, id).value;
    assert Conflicts(store[k], store[k].date, store[k].timeSlot, store[k].staff);
  }

  /** The new record of a reschedule takes a fresh id. */
  lemma RescheduleKeepsUniqueIds(store: Store, id: Id, d1: string, t1: string, user: Id, at: int)
    requires UniqueIds(store)
    requires Reschedule(store, id, d1, t1, user, at).Ok?
    ensures UniqueIds(Reschedule(store, id, d1, t1, user, at).value.0)
  {
    var k := Find(store, id).value;
    var (s1, a1) := Reschedule(store, id, d1, t1, user, at).value;
    assert a1.id !in (set i | 0 <= i < |store| :: store[i].id) by {
      assert Reserve(store, user, store[k].staff, d1, t1, at).value.1 == a1;
    }
    forall i, j | 0 <= i < j < |s1| ensures s1[i].id != s1[j].id {
      if j == |store| {
        assert store[i].id in (set i | 0 <= i < |store| :: store[i].id);
      }
    }
  }

  /** Rescheduled is not a finalized status, so the same original can be
      rescheduled again, leaving two new records live for one booking. */
  lemma RescheduleAgain(store: Store, id: Id, d1: string, t1: string, d2: string, t2: string,
                        user: Id, at: int, at2: int)
    requires UniqueIds(store)
    requires Reschedule(store, id, d1, t1, user, at).Ok?
    ensures var (s1, a1) := Reschedule(store, id, d1, t1, user, at).value;
      UniqueIds(s1) &&
      (Reschedule(s1, id, d2, t2, user, at2).Ok? <==>
         !HasConflict(s1, d2, t2, a1.staff) && d2 != "" && t2 != "")
  {
    var k := Find(store, id).value;
    var (s1, a1) := Reschedule(store, id, d1, t1, user, at).value;
    RescheduleKeepsUniqueIds(store, id, d1, t1, user, at);
    assert s1[k].id == id;
    UniqueFind(s1, id, k);
    ReschedulableOk(s1, id, k, d2, t2, user, at2);
  }

  lemma UniqueFind(store: Store, id: Id, k: nat)
    requires UniqueIds(store) && k < |store| && store[k].id == id
    ensures Find(store, id) == Some(k)
  {
  }

  /** Once the owner and a live status are settled, a reschedule succeeds
      exactly when the reservation it makes does. */
  lemma ReschedulableOk(store: Store, id: Id, k: nat, d: string, t: string, user: Id, at: int)
    requires Find(store, id) == Some(k)
    requires store[k].user == user && store[k].status !in Finalized
    ensures Reschedule(store, id, d, t, user, at).Ok? <==>
      !HasConflict(store, d, t, store[k].staff) && d != "" && t != ""
  {
  }
}
