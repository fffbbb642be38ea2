/** The write side of services/appointmentService.js: the admin status
    change and the owner's reschedule. */
module AppointmentService {
  import opened Wrappers
  import opened AppointmentModel
  import opened Scheduler

  /** The `validTransitions` table. NoShow and Rejected have no key, so the
      lookup yields `undefined` for them. */
  function Transitions(s: Status): Option<seq<Status>> {
    match s
    case Pending => Some([Confirmed, Rejected, Cancelled])
    case Confirmed => Some([Completed, Cancelled, NoShow])
    case Rescheduled => Some([])
    case Cancelled => Some([])
    case Completed => Some([])
    case NoShow => None
    case Rejected => None
  }

  /** What the runtime throws for `undefined.includes(status)`. */
  const UndefinedIncludes := "Cannot read properties of undefined (reading 'includes')"

  function StatusChangedEntry(name: string, at: int): AuditEntry {
    AuditEntry("Status changed to " + name, None, at, "Admin update")
  }

  /** `updateAppointmentStatus(id, status)`. The table lookup must not crash,
      but its answer is ignored (the throw is commented out); the save then
      rejects a name outside the enum. */
  function UpdateStatus(store: Store, id: Id, name: string, at: int): (r: Result<(Store, Appointment)>)
    ensures Find(store, id).None? ==> r == Err(AppError("Appointment not found", 404))
    ensures Find(store, id).Some? && Transitions(store[Find(store, id).value].status).None? ==>
      r == Err(Thrown(UndefinedIncludes))
    ensures r.Ok? <==>
      && Find(store, id).Some?
      && Transitions(store[Find(store, id).value].status).Some?
      && ParseStatus(name).Some?
    ensures r.Ok? ==>
      var k := Find(store, id).value;
      var (store', a) := r.value;
      && StatusName(a.status) == name
      && a.auditLog == store[k].auditLog + [StatusChangedEntry(name, at)]
      && a.(status := store[k].status, auditLog := store[k].auditLog) == store[k]
      && |store'| == |store| && store'[k] == a
      && (forall i :: 0 <= i < |store| && i != k ==> store'[i] == store[i])
  {
    match Find(store, id)
    case None => Err(AppError("Appointment not found", 404))
    case Some(k) =>
      var current := store[k];
      if Transitions(current.status).None? then Err(Thrown(UndefinedIncludes))
      else
        match ParseStatus(name)
        case None => Err(Thrown("Appointment validation failed"))
        case Some(s) =>
          var a := current.(status := s, auditLog := current.auditLog + [StatusChangedEntry(name, at)]);
          Ok((Put(store, k, a), a))
  }

  const Finalized: set<Status> := {Cancelled, Completed, Rejected}

  function RescheduledEntry(newDate: string, newTimeSlot: string, at: int): AuditEntry {
    AuditEntry("Rescheduled", None, at, "Rescheduled to " + newDate + " at " + newTimeSlot)
  }

  /** `rescheduleAppointment(id, newDate, newTimeSlot, userId)`: only the
      owner, only while not finalized; a new reservation with the same staff,
      then the original is marked Rescheduled. Returns the new record. */
  function Reschedule(store: Store, id: Id, newDate: string, newTimeSlot: string, user: Id,
                      at: int): (r: Result<(Store, Appointment)>)
    ensures Find(store, id).None? ==> r == Err(AppError("Appointment not found", 404))
    ensures Find(store, id).Some? && store[Find(store, id).value].user != user ==>
      r == Err(AppError("Not authorized", 403))
    ensures (Find(store, id).Some? && store[Find(store, id).value].user == user
             && store[Find(store, id).value].status in Finalized) ==>
      r == Err(AppError("Cannot reschedule a finalized appointment", 400))
    ensures (Find(store, id).Some? && store[Find(store, id).value].user == user
             && store[Find(store, id).value].status !in Finalized) ==>
      var reserved := Reserve(store, user, store[Find(store, id).value].staff, newDate, newTimeSlot, at);
      (r.Err? <==> reserved.Err?) && (r.Err? ==> r.error == reserved.error)
    ensures r.Ok? ==>
      var k := Find(store, id).value;
      var prior := store[k];
      var (store', a) := r.value;
      && prior.user == user && prior.status !in Finalized
      && |store'| == |store| + 1 && store'[|store|] == a
      && a.user == user && a.staff == prior.staff && a.date == newDate && a.timeSlot == newTimeSlot
      && a.status == Pending && a.id != prior.id
      && store'[k].status == Rescheduled
      && store'[k].auditLog == prior.auditLog + [RescheduledEntry(newDate, newTimeSlot, at)]
      && store'[k].(status := prior.status, auditLog := prior.auditLog) == prior
      && (forall i :: 0 <= i < |store| && i != k ==> store'[i] == store[i])
  {
    match Find(store, id)
    case None => Err(AppError("Appointment not found", 404))
    case Some(k) =>
      var prior := store[k];
      if prior.user != user then Err(AppError("Not authorized", 403))
      else if prior.status in Finalized then Err(AppError("Cannot reschedule a finalized appointment", 400))
      else
        match Reserve(store, user, prior.staff, newDate, newTimeSlot, at)
        case Err(e) => Err(e)
        case Ok((grown, a)) =>
          var retired := prior.(status := Rescheduled,
                              auditLog := prior.auditLog + [RescheduledEntry(newDate, newTimeSlot, at)]);
          Ok((Put(grown, k, retired), a))
  }
}
