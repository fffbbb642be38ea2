/** The staff profile record (models/Staff.js): a per-staff weekly schedule
    that overrides the business hours. */
module StaffModel {
  import opened Wrappers
  import opened BusinessModel
  import AppointmentModel

  /** An `availability` entry. Its flag is `isAvailable`; the entry has no
      `isOpen` field. `start` and `end` are optional free strings. */
  datatype AvailabilityEntry = AvailabilityEntry(day: Weekday, start: Option<string>,
                                                 end: Option<string>, isAvailable: bool)

  datatype Staff = Staff(
    id: AppointmentModel.Id,
    user: AppointmentModel.Id,
    specialties: seq<string>,
    availability: seq<AvailabilityEntry>,
    isActive: bool)

  /** An availability entry as the schema fills it in: available unless told
      otherwise. */
  function NewAvailability(day: Weekday, start: Option<string>, end: Option<string>,
                           isAvailable: Option<bool>): (e: AvailabilityEntry)
    ensures e.day == day && e.start == start && e.end == end
    ensures e.isAvailable <==> isAvailable != Some(false)
  {
    AvailabilityEntry(day, start, end, Or(isAvailable, true))
  }

  /** `Staff.create`: a new profile is active. */
  function NewStaff(id: AppointmentModel.Id, user: AppointmentModel.Id, specialties: seq<string>,
                    availability: seq<AvailabilityEntry>): (s: Staff)
    ensures s.isActive
    ensures s.id == id && s.user == user && s.availability == availability
  {
    Staff(id, user, specialties, availability, true)
  }

  /** The unique index on `user`: at most one profile per user. */
  predicate UniqueUsers(staff: seq<Staff>) {
    forall i, j :: 0 <= i < j < |staff| ==> staff[i].user != staff[j].user
  }

  /** `Staff.findById`. */
  function FindStaff(staff: seq<Staff>, id: AppointmentModel.Id): (r: Option<Staff>)
    ensures r.Some? ==> r.value in staff && r.value.id == id
    ensures r.None? <==> forall i :: 0 <= i < |staff| ==> staff[i].id != id
  {
    if |staff| == 0 then None
    else if staff[0].id == id then Some(staff[0])
    else FindStaff(staff[1..], id)
  }

  /** The profile of a user; with the unique index it is the only one. */
  function ProfileOf(staff: seq<Staff>, user: AppointmentModel.Id): (r: Option<Staff>)
    ensures r.None? <==> forall i :: 0 <= i < |staff| ==> staff[i].user != user
    ensures r.Some? ==> r.value in staff && r.value.user == user
    ensures r.Some? && UniqueUsers(staff) ==>
      forall i :: 0 <= i < |staff| && staff[i].user == user ==> staff[i] == r.value
  {
    if |staff| == 0 then None
    else if staff[0].user == user then Some(staff[0])
    else
      var r := ProfileOf(staff[1..], user);
      assert UniqueUsers(staff) ==> UniqueUsers(staff[1..]);
      r
  }

  /** `availability.find`: the first entry for the weekday. */
  function AvailabilityFor(entries: seq<AvailabilityEntry>, day: Weekday): (r: Option<AvailabilityEntry>)
    ensures r.Some? ==> r.value in entries && r.value.day == day
    ensures r.None? <==> forall i :: 0 <= i < |entries| ==> entries[i].day != day
  {
    if |entries| == 0 then None
    else if entries[0].day == day then Some(entries[0])
    else AvailabilityFor(entries[1..], day)
  }
}
