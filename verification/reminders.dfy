/** The hourly job of services/cronService.js. One run selects the
    appointments for tomorrow that are Confirmed and not yet reminded, and
    for each whose user has an email sends the reminder, sets the flag and
    logs the email. "Tomorrow" is an input, as is the clock reading `at`;
    `delivered` holds the appointments whose email actually went out, which
    the job never looks at (the sender swallows failures). */
module Reminders {
  import opened Wrappers
  import opened AppointmentModel
  import opened Accounts
  import opened Scheduler

  /** The query of lines 25-29. */
  predicate Selected(a: Appointment, tomorrow: string) {
    a.date == tomorrow && a.status == Confirmed && !a.reminderSent
  }

  /** The populated user has a truthy email. */
  predicate Reachable(users: Users, user: Id) {
    EmailOf(users, user).Some? && EmailOf(users, user).value != ""
  }

  /** What one run leaves of one appointment. */
  function AfterRun(a: Appointment, users: Users, tomorrow: string, at: int, delivered: set<Id>)
    : (b: Appointment)
    ensures Selected(a, tomorrow) && Reachable(users, a.user) ==>
      && b.reminderSent
      && b.emailLogs == a.emailLogs + [EmailLog(Reminder, EmailOf(users, a.user).value, at, "Sent")]
      && b.(reminderSent := false, emailLogs := a.emailLogs) == a
    ensures !(Selected(a, tomorrow) && Reachable(users, a.user)) ==> b == a
  {
    if Selected(a, tomorrow) && Reachable(users, a.user) then
      var email := EmailOf(users, a.user).value;
      a.(reminderSent := true, emailLogs := a.emailLogs + [NewEmailLog(Reminder, email, at)])
    else a
  }

  /** One run of the job over the whole store. */
  method RunReminderJob(store: Store, users: Users, tomorrow: string, at: int, delivered: set<Id>)
    returns (r: Store)
    ensures |r| == |store|
    ensures forall i :: 0 <= i < |store| ==> r[i] == AfterRun(store[i], users, tomorrow, at, delivered)
  {
    r := [];
    var i := 0;
    while i < |store|
      invariant 0 <= i <= |store|
      invariant |r| == i
      invariant forall j :: 0 <= j < i ==> r[j] == AfterRun(store[j], users, tomorrow, at, delivered)
    {
      var a := store[i];
      if Selected(a, tomorrow) && Reachable(users, a.user) {
        var email := EmailOf(users, a.user).value;
        a := a.(reminderSent := true, emailLogs := a.emailLogs + [NewEmailLog(Reminder, email, at)]);
      }
      r := r + [a];
      i := i + 1;
    }
  }

  /** A second run with the same date changes nothing the first one
      reminded, and nothing else either. */
  lemma RunIdempotent(a: Appointment, users: Users, tomorrow: string, at: int, at2: int,
                      d1: set<Id>, d2: set<Id>)
    ensures var b := AfterRun(a, users, tomorrow, at, d1);
      AfterRun(b, users, tomorrow, at2, d2) == b
  {
  }

  /** Only Confirmed appointments for tomorrow are ever touched; Pending and
      Cancelled ones never get a reminder. */
  lemma OnlySelectedChange(a: Appointment, users: Users, tomorrow: string, at: int, d: set<Id>)
    requires AfterRun(a, users, tomorrow, at, d) != a
    ensures a.status == Confirmed && a.date == tomorrow && !a.reminderSent
    ensures Reachable(users, a.user)
  {
  }

  /** The log says "Sent" whether or not the email was delivered. */
  lemma DeliveryIgnored(a: Appointment, users: Users, tomorrow: string, at: int, d1: set<Id>, d2: set<Id>)
    ensures AfterRun(a, users, tomorrow, at, d1) == AfterRun(a, users, tomorrow, at, d2)
  {
  }

  /** After a run the only appointments still selected are those whose user
      has no email; they are selected again every hour. */
  lemma StillSelected(a: Appointment, users: Users, tomorrow: string, at: int, d: set<Id>)
    ensures Selected(AfterRun(a, users, tomorrow, at, d), tomorrow) <==>
      Selected(a, tomorrow) && !Reachable(users, a.user)
  {
  }

  /** A run changes neither status, date, time nor staff, so it keeps the
      booking invariant. */
  lemma RunPreservesNoDoubleBooking(store: Store, r: Store, users: Users, tomorrow: string, at: int,
                                    d: set<Id>)
    requires NoDoubleBooking(store)
    requires |r| == |store|
    requires forall i :: 0 <= i < |store| ==> r[i] == AfterRun(store[i], users, tomorrow, at, d)
    ensures NoDoubleBooking(r)
  {
    forall i, j | 0 <= i < j < |r| && Occupying(r[i].status) && Occupying(r[j].status)
      ensures !(r[i].date == r[j].date && r[i].timeSlot == r[j].timeSlot && r[i].staff == r[j].staff)
    {
      assert r[i].status == store[i].status && r[i].date == store[i].date;
      assert r[j].status == store[j].status && r[j].date == store[j].date;
    }
  }
}
