/** The business configuration record (models/Business.js): one document for
    the whole business, with weekday windows, slot arithmetic and holidays. */
module BusinessModel {
  import opened Wrappers

  /** The seven values of the `day` enum. */
  datatype Weekday = Monday | Tuesday | Wednesday | Thursday | Friday | Saturday | Sunday

  /** An `openingHours` entry. `start` and `end` are free "HH:MM" strings. */
  datatype OpeningHours = OpeningHours(day: Weekday, start: string, end: string, isOpen: bool)

  /** A `holidays` entry; `date` is a "YYYY-MM-DD" string. */
  datatype Holiday = Holiday(date: string, description: string)

  datatype Business = Business(
    name: string,
    timezone: string,
    slotDuration: int,
    bufferTime: int,
    openingHours: seq<OpeningHours>,
    holidays: seq<Holiday>)

  /** The fields a caller supplies to `create` or `Object.assign`; `None` means
      the key is absent. */
  datatype BusinessFields = BusinessFields(
    name: Option<string>,
    timezone: Option<string>,
    slotDuration: Option<int>,
    bufferTime: Option<int>,
    openingHours: Option<seq<OpeningHours>>,
    holidays: Option<seq<Holiday>>)

  const NoFields := BusinessFields(None, None, None, None, None, None)

  function Or<T>(o: Option<T>, default: T): T {
    match o
    case Some(v) => v
    case None => default
  }

  /** An opening-hours entry as the schema fills it in: 09:00 to 17:00, open. */
  function NewOpeningHours(day: Weekday, start: Option<string>, end: Option<string>,
                           isOpen: Option<bool>): (e: OpeningHours)
    ensures e.day == day
    ensures start.None? ==> e.start == "09:00"
    ensures end.None? ==> e.end == "17:00"
    ensures isOpen.None? ==> e.isOpen
    ensures start.Some? ==> e.start == start.value
    ensures end.Some? ==> e.end == end.value
    ensures isOpen.Some? ==> e.isOpen == isOpen.value
  {
    OpeningHours(day, Or(start, "09:00"), Or(end, "17:00"), Or(isOpen, true))
  }

  /** `Business.create(fields)`: absent keys take the schema defaults; an
      empty name fails the `required` check. */
  function Create(fields: BusinessFields): (r: Result<Business>)
    ensures r.Ok? <==> fields.name != Some("")
    ensures r.Ok? ==>
      && r.value.name == (if fields.name.Some? then fields.name.value else "My Business")
      && r.value.timezone == (if fields.timezone.Some? then fields.timezone.value else "UTC")
      && r.value.slotDuration == (if fields.slotDuration.Some? then fields.slotDuration.value else 30)
      && r.value.bufferTime == (if fields.bufferTime.Some? then fields.bufferTime.value else 5)
      && r.value.openingHours == (if fields.openingHours.Some? then fields.openingHours.value else [])
      && r.value.holidays == (if fields.holidays.Some? then fields.holidays.value else [])
  {
    if fields.name == Some("") then Err(Thrown("Business validation failed"))
    else Ok(Business(Or(fields.name, "My Business"), Or(fields.timezone, "UTC"),
                     Or(fields.slotDuration, 30), Or(fields.bufferTime, 5),
                     Or(fields.openingHours, []), Or(fields.holidays, [])))
  }

  /** The record every schema default yields. */
  const SchemaDefaults := Business("My Business", "UTC", 30, 5, [], [])

  /** `b` is `base` with exactly the supplied fields overwritten. */
  predicate Overwrites(base: Business, fields: BusinessFields, b: Business) {
    && b.name == (if fields.name.Some? then fields.name.value else base.name)
    && b.timezone == (if fields.timezone.Some? then fields.timezone.value else base.timezone)
    && b.slotDuration == (if fields.slotDuration.Some? then fields.slotDuration.value else base.slotDuration)
    && b.bufferTime == (if fields.bufferTime.Some? then fields.bufferTime.value else base.bufferTime)
    && b.openingHours == (if fields.openingHours.Some? then fields.openingHours.value else base.openingHours)
    && b.holidays == (if fields.holidays.Some? then fields.holidays.value else base.holidays)
  }

  /** `Object.assign(settings, fields)` followed by `save()`: supplied keys
      overwrite, the others keep their value; an empty name fails on save. */
  function Assign(b: Business, fields: BusinessFields): (r: Result<Business>)
    ensures r.Ok? <==> fields.name != Some("")
    ensures r.Ok? ==>
      && (fields.name.None? ==> r.value.name == b.name)
      && (fields.timezone.None? ==> r.value.timezone == b.timezone)
      && (fields.slotDuration.None? ==> r.value.slotDuration == b.slotDuration)
      && (fields.bufferTime.None? ==> r.value.bufferTime == b.bufferTime)
      && (fields.openingHours.None? ==> r.value.openingHours == b.openingHours)
      && (fields.holidays.None? ==> r.value.holidays == b.holidays)
    ensures r.Ok? ==>
      && (fields.name.Some? ==> r.value.name == fields.name.value)
      && (fields.timezone.Some? ==> r.value.timezone == fields.timezone.value)
      && (fields.slotDuration.Some? ==> r.value.slotDuration == fields.slotDuration.value)
      && (fields.bufferTime.Some? ==> r.value.bufferTime == fields.bufferTime.value)
      && (fields.openingHours.Some? ==> r.value.openingHours == fields.openingHours.value)
      && (fields.holidays.Some? ==> r.value.holidays == fields.holidays.value)
  {
    if fields.name == Some("") then Err(Thrown("Business validation failed"))
    else Ok(Business(Or(fields.name, b.name), Or(fields.timezone, b.timezone),
                     Or(fields.slotDuration, b.slotDuration), Or(fields.bufferTime, b.bufferTime),
                     Or(fields.openingHours, b.openingHours), Or(fields.holidays, b.holidays)))
  }

  /** Assigning no fields leaves a configuration as it was. */
  lemma AssignNothing(b: Business)
    requires b.name != ""
    ensures Assign(b, NoFields) == Ok(b)
  {
  }

  /** `Array.prototype.find` on the weekday: the first entry for that day. */
  function FirstForDay(hours: seq<OpeningHours>, day: Weekday): (r: Option<OpeningHours>)
    ensures r.Some? ==> r.value in hours && r.value.day == day
    ensures r.None? <==> forall i :: 0 <= i < |hours| ==> hours[i].day != day
    ensures r.Some? ==> exists k :: 0 <= k < |hours| && hours[k] == r.value
                          && forall i :: 0 <= i < k ==> hours[i].day != day
  {
    if |hours| == 0 then None
    else if hours[0].day == day then Some(hours[0])
    else
      var r := FirstForDay(hours[1..], day);
      if r.Some? then
        var k :| 0 <= k < |hours[1..]| && hours[1..][k] == r.value
                 && forall i :: 0 <= i < k ==> hours[1..][i].day != day;
        assert hours[k + 1] == r.value;
        r
      else r
  }

  /** `find` stops at the first entry for the day. */
  lemma {:induction false} FirstForDayAt(hours: seq<OpeningHours>, day: Weekday, k: nat)
    requires k < |hours| && hours[k].day == day
    requires forall i :: 0 <= i < k ==> hours[i].day != day
    ensures FirstForDay(hours, day) == Some(hours[k])
  {
    if k > 0 {
      FirstForDayAt(hours[1..], day, k - 1);
    }
  }
}
