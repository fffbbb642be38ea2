/** services/businessService.js: the single configuration document, created
    on first read and overwritten field by field on update. The stored
    configuration is `None` before the first create. */
module BusinessService {
  import opened Wrappers
  import opened BusinessModel
  import opened AppointmentModel
  import opened StaffModel
  import opened Scheduler

  const DefaultFields := NoFields.(name := Some("Default Business"))

  /** `getSettings()`: the stored configuration, or a newly created default
      one; the result is also what is stored afterwards. */
  function GetSettings(config: Option<Business>): (r: Result<Business>)
    ensures config.Some? ==> r == Ok(config.value)
    ensures config.None? ==>
      && r.Ok?
      && r.value.name == "Default Business"
      && r.value.timezone == "UTC"
      && r.value.slotDuration == 30 && r.value.bufferTime == 5
      && r.value.openingHours == [] && r.value.holidays == []
  {
    match config
    case Some(b) => Ok(b)
    case None => BusinessModel.Create(DefaultFields)
  }

  /** `updateSettings(data)`: create from the data when nothing is stored,
      otherwise assign the supplied fields and save. */
  function UpdateSettings(config: Option<Business>, data: BusinessFields): (r: Result<Business>)
    ensures r.Ok? <==> data.name != Some("")
    ensures r.Ok? && config.None? ==> Overwrites(SchemaDefaults, data, r.value)
    ensures r.Ok? && config.Some? ==> Overwrites(config.value, data, r.value)
  {
    match config
    case None => BusinessModel.Create(data)
    case Some(b) => Assign(b, data)
  }

  /** Reading twice is reading once: the second read finds what the first
      one stored and creates nothing. */
  lemma GetSettingsIdempotent(config: Option<Business>)
    ensures GetSettings(Some(GetSettings(config).value)) == GetSettings(config)
  {
  }

  /** An update with no fields keeps a stored configuration. */
  lemma UpdateNothingKeeps(b: Business)
    requires b.name != ""
    ensures UpdateSettings(Some(b), NoFields) == Ok(b)
  {
    AssignNothing(b);
  }

  /** An update followed by a read returns what the update stored. */
  lemma UpdateThenGet(config: Option<Business>, data: BusinessFields)
    requires UpdateSettings(config, data).Ok?
    ensures GetSettings(Some(UpdateSettings(config, data).value)) == UpdateSettings(config, data)
  {
  }

  /** A configuration without opening hours offers nothing on any day. */
  lemma NoHoursNoSlots(b: Business, staff: seq<Staff>, store: Store, date: string,
                       weekday: Weekday, staffId: Option<Id>, clock: Clock)
    requires b.openingHours == []
    ensures GenerateSlots(Some(b), staff, store, date, weekday, staffId, clock) == Ok([])
  {
    assert FirstForDay(b.openingHours, weekday).None?;
    assert OpenBounds(b, staff, weekday, staffId).None?;
  }

  /** The default configuration has no opening hours, so until it is
      configured every date yields an empty slot list, for any staff. */
  lemma DefaultConfigClosed(staff: seq<Staff>, store: Store, date: string,
                            weekday: Weekday, staffId: Option<Id>, clock: Clock)
    ensures var b := GetSettings(None).value;
      GenerateSlots(Some(b), staff, store, date, weekday, staffId, clock) == Ok([])
  {
    NoHoursNoSlots(GetSettings(None).value, staff, store, date, weekday, staffId, clock);
  }
}
