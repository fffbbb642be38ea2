/** The Appointment record (models/Appointment.js): its status enumeration,
    the two logs it carries, and the defaults and required fields Mongoose
    applies when one is created. */
module AppointmentModel {
  import opened Wrappers

  /** Ids of appointments, users and staff profiles. */
  type Id = nat

  /** The seven values of the `status` enum. */
  datatype Status = Pending | Confirmed | Completed | Cancelled | NoShow | Rescheduled | Rejected

  function StatusName(s: Status): string {
    match s
    case Pending => "Pending"
    case Confirmed => "Confirmed"
    case Completed => "Completed"
    case Cancelled => "Cancelled"
    case NoShow => "NoShow"
    case Rescheduled => "Rescheduled"
    case Rejected => "Rejected"
  }

  /** Mongoose's enum check: a name is a status exactly when it spells one. */
  function ParseStatus(name: string): (r: Option<Status>)
    ensures r.Some? ==> StatusName(r.value) == name
  {
    if name == "Pending" then Some(Pending)
    else if name == "Confirmed" then Some(Confirmed)
    else if name == "Completed" then Some(Completed)
    else if name == "Cancelled" then Some(Cancelled)
    else if name == "NoShow" then Some(NoShow)
    else if name == "Rescheduled" then Some(Rescheduled)
    else if name == "Rejected" then Some(Rejected)
    else None
  }

  lemma StatusNameRoundTrip(s: Status)
    ensures ParseStatus(StatusName(s)) == Some(s)
  {
  }

  /** The statuses that hold a slot against a new reservation. */
  predicate Occupying(s: Status) {
    s == Pending || s == Confirmed
  }

  datatype EmailKind = Confirmation | Reminder | Cancellation | RescheduledMail

  /** An `emailLogs` entry; `sentAt` is the clock reading when it was added. */
  datatype EmailLog = EmailLog(kind: EmailKind, recipient: string, sentAt: int, status: string)

  /** An `auditLog` entry; `by` (here `actor`) is optional and no writer in the backend sets it. */
  datatype AuditEntry = AuditEntry(action: string, actor: Option<Id>, timestamp: int, details: string)

  datatype Appointment = Appointment(
    id: Id,
    user: Id,
    staff: Option<Id>,
    date: string,
    timeSlot: string,
    duration: int,
    status: Status,
    reminderSent: bool,
    emailLogs: seq<EmailLog>,
    auditLog: seq<AuditEntry>)

  /** An email log entry as the schema stores it when no status is given. */
  function NewEmailLog(kind: EmailKind, recipient: string, at: int): (e: EmailLog)
    ensures e.status == "Sent"
    ensures e.kind == kind && e.recipient == recipient && e.sentAt == at
  {
    EmailLog(kind, recipient, at, "Sent")
  }

  /** `Appointment.create` with the fields the backend supplies. Mongoose's
      `required` rejects an empty `date` or `timeSlot` (a required string may
      not be empty); status, reminder flag and email log take their defaults. */
  function Create(id: Id, user: Id, staff: Option<Id>, date: string, timeSlot: string,
                  duration: int, auditLog: seq<AuditEntry>): (r: Result<Appointment>)
    ensures r.Ok? <==> date != "" && timeSlot != ""
    ensures r.Ok? ==>
      && r.value.status == Pending
      && !r.value.reminderSent
      && r.value.emailLogs == []
      && r.value.id == id && r.value.user == user && r.value.staff == staff
      && r.value.date == date && r.value.timeSlot == timeSlot
      && r.value.duration == duration && r.value.auditLog == auditLog
    ensures r.Err? ==> r.error.Thrown?
  {
    if date == "" || timeSlot == "" then Err(Thrown("Appointment validation failed"))
    else Ok(Appointment(id, user, staff, date, timeSlot, duration, Pending, false, [], auditLog))
  }

  /** The appointment collection, in insertion order. */
  type Store = seq<Appointment>

  predicate UniqueIds(store: Store) {
    forall i, j :: 0 <= i < j < |store| ==> store[i].id != store[j].id
  }

  function MaxId(store: Store): (m: Id)
    ensures forall i :: 0 <= i < |store| ==> store[i].id <= m
  {
    if |store| == 0 then 0
    else
      var m := MaxId(store[..|store| - 1]);
      var last := store[|store| - 1].id;
      assert forall i :: 0 <= i < |store| - 1 ==> store[i] == store[..|store| - 1][i];
      if last > m then last else m
  }

  /** The id the database gives a new record: one no stored record carries. */
  function FreshId(store: Store): (id: Id)
    ensures forall i :: 0 <= i < |store| ==> store[i].id != id
  {
    MaxId(store) + 1
  }

  /** `findById`: the position of the record with this id, if any. */
  function Find(store: Store, id: Id): (r: Option<nat>)
    ensures r.Some? ==> r.value < |store| && store[r.value].id == id
    ensures r.None? <==> forall i :: 0 <= i < |store| ==> store[i].id != id
  {
    if |store| == 0 then None
    else if store[0].id == id then Some(0)
    else
      match Find(store[1..], id)
      case Some(k) => Some(k + 1)
      case None => None
  }

  /** Saving one document back: position `k` replaced, the rest untouched. */
  function Put(store: Store, k: nat, a: Appointment): (r: Store)
    requires k < |store|
    ensures |r| == |store| && r[k] == a
    ensures forall i :: 0 <= i < |store| && i != k ==> r[i] == store[i]
  {
    store[k := a]
  }
}
