/** The two pieces of controllers/appointmentController.js with logic of
    their own: the missing-date guard of `getSlots` and the CSV built by
    `exportAppointments`. */
module AppointmentController {
  import opened Wrappers
  import opened Text
  import opened AppointmentModel
  import opened BusinessModel
  import opened StaffModel
  import opened Accounts
  import opened Scheduler
  import opened AppointmentQueries

  /** `getSlots`: no date, or an empty one, is a 400 before the generator
      runs; otherwise the generator's answer. */
  function GetSlots(date: Option<string>, staffId: Option<Id>, config: Option<Business>,
                    staff: seq<Staff>, store: Store, weekday: Weekday, clock: Clock)
    : (r: Result<seq<Slot>>)
    ensures (date.None? || date == Some("")) <==> r == Err(AppError("Date is required", 400))
    ensures date.Some? && date.value != "" ==>
      r == GenerateSlots(config, staff, store, date.value, weekday, staffId, clock)
  {
    if date.None? || date.value == "" then Err(AppError("Date is required", 400))
    else GenerateSlots(config, staff, store, date.value, weekday, staffId, clock)
  }

  /** The header's column names; joined by commas they are the header line
      `ID,User,Email,Date,Time,Duration,Status,Staff`. */
  const CsvColumns := ["ID", "User", "Email", "Date", "Time", "Duration", "Status", "Staff"]

  const CsvHeader := Join(CsvColumns, ",")

  /** The limit the export forces onto the listing query. */
  const ExportLimit := 10000

  function Quote(s: string): string { "\"" + s + "\"" }

  /** `x || ''` on an optional string. */
  function OrEmpty(o: Option<string>): string {
    if o.Some? then o.value else ""
  }

  /** The eight fields of one row: the populated user's name and email
      (empty when the user is missing), the staff reference as its id. */
  function RowFields(a: Appointment, users: Users): (f: seq<string>)
    ensures |f| == 8
  {
    [NatToString(a.id),
     Quote(OrEmpty(NameOf(users, a.user))),
     Quote(OrEmpty(EmailOf(users, a.user))),
     a.date,
     a.timeSlot,
     IntToString(a.duration),
     StatusName(a.status),
     Quote(if a.staff.Some? then NatToString(a.staff.value) else "")]
  }

  /** One row: the fields joined by commas, nothing escaped. */
  function Row(a: Appointment, users: Users): string {
    Join(RowFields(a, users), ",")
  }

  /** The lines of the file: the header, then one row per appointment in
      listing order. */
  function CsvLines(header: string, items: seq<Appointment>, users: Users): (lines: seq<string>)
    ensures |lines| == |items| + 1 && lines[0] == header
    ensures forall i :: 0 <= i < |items| ==> lines[i + 1] == Row(items[i], users)
  {
    var rows := seq(|items|, i requires 0 <= i < |items| => Row(items[i], users));
    [header] + rows
  }

  /** `exportAppointments`: the listing with the request's filters and page
      and a limit of 10000, as newline-joined CSV with no trailing newline. */
  function ExportCsv(store: Store, users: Users, q: Query): (csv: string)
    requires PageOf(q) >= 1
    ensures CsvHeader <= csv
    ensures (forall a :: a in store ==> !Matches(a, q)) ==> csv == CsvHeader
  {
    var items := GetAllAppointments(store, q.(limit := Some(ExportLimit))).items;
    assert |items| > 0 ==> items[0] in store && Matches(items[0], q) by {
      if |items| > 0 { assert items[0] in items; }
    }
    Join(CsvLines(CsvHeader, items, users), "\n")
  }

  predicate IsLetter(c: char) {
    'a' <= c <= 'z' || 'A' <= c <= 'Z'
  }

  lemma StatusNameLetters(s: Status)
    ensures forall i :: 0 <= i < |StatusName(s)| ==> IsLetter(StatusName(s)[i])
  {
  }

  /** No character of a decimal rendering is a letter-free separator such
      as ',' or a newline. */
  lemma DigitsAvoid(s: string, c: char)
    requires AllDigits(s) && !IsDigit(c)
    ensures c !in s
  {
  }

  lemma IntToStringAvoids(n: int, c: char)
    requires !IsDigit(c) && c != '-'
    ensures c !in IntToString(n)
  {
    if n < 0 {
      DigitsAvoid(NatToString(-n), c);
    } else {
      DigitsAvoid(NatToString(n), c);
    }
  }

  /** The row holds the character only if a user name, email, date or time
      slot does. */
  lemma RowAvoids(a: Appointment, users: Users, c: char)
    requires !IsDigit(c) && !IsLetter(c) && c != '-' && c != '"' && c != ','
    requires forall u :: u in users ==> c !in u.name && c !in u.email
    requires c !in a.date && c !in a.timeSlot
    ensures forall i :: 0 <= i < 8 ==> c !in RowFields(a, users)[i]
    ensures c !in Row(a, users)
  {
    var f := RowFields(a, users);
    DigitsAvoid(NatToString(a.id), c);
    IntToStringAvoids(a.duration, c);
    if a.staff.Some? { DigitsAvoid(NatToString(a.staff.value), c); }
    if NameOf(users, a.user).Some? {
      assert users[FindUser(users, a.user).value] in users;
    }
    StatusNameLetters(a.status);
    JoinAvoids(f, ",", c);
  }

  lemma HeaderAvoids(c: char)
    requires !IsLetter(c) && c != ','
    ensures c !in CsvHeader
  {
    forall i | 0 <= i < |CsvColumns| ensures c !in CsvColumns[i] {
    }
    JoinAvoids(CsvColumns, ",", c);
  }

  /** When no user name or email, date or time slot holds a newline, the
      file splits back into the header and exactly one row per listed
      appointment, in listing order. */
  lemma ExportLines(store: Store, users: Users, q: Query)
    requires PageOf(q) >= 1
    requires forall u :: u in users ==> '\n' !in u.name && '\n' !in u.email
    requires forall a :: a in store ==> '\n' !in a.date && '\n' !in a.timeSlot
    ensures var items := GetAllAppointments(store, q.(limit := Some(ExportLimit))).items;
      Split(ExportCsv(store, users, q), '\n') == CsvLines(CsvHeader, items, users)
  {
    var items := GetAllAppointments(store, q.(limit := Some(ExportLimit))).items;
    var lines := CsvLines(CsvHeader, items, users);
    HeaderAvoids('\n');
    forall i | 0 <= i < |lines| ensures '\n' !in lines[i] {
      if i > 0 {
        var a := items[i - 1];
        assert a in items;
        assert lines[i] == Row(a, users);
        RowAvoids(a, users, '\n');
      }
    }
    SplitJoin(lines, '\n');
  }

  /** Without a comma in its texts a row splits back into its eight fields. */
  lemma RowFieldsRecovered(a: Appointment, users: Users)
    requires forall u :: u in users ==> ',' !in u.name && ',' !in u.email
    requires ',' !in a.date && ',' !in a.timeSlot
    ensures Split(Row(a, users), ',') == RowFields(a, users)
  {
    var f := RowFields(a, users);
    DigitsAvoid(NatToString(a.id), ',');
    IntToStringAvoids(a.duration, ',');
    if a.staff.Some? { DigitsAvoid(NatToString(a.staff.value), ','); }
    if NameOf(users, a.user).Some? {
      assert users[FindUser(users, a.user).value] in users;
    }
    StatusNameLetters(a.status);
    SplitJoin(f, ',');
  }

  /** The texts of a row other than the user's name and email hold no comma. */
  lemma FixedFieldsAvoidComma(a: Appointment, users: Users)
    requires ',' !in a.date && ',' !in a.timeSlot
    ensures forall i :: i in {0, 3, 4, 5, 6, 7} ==> ',' !in RowFields(a, users)[i]
  {
    DigitsAvoid(NatToString(a.id), ',');
    IntToStringAvoids(a.duration, ',');
    if a.staff.Some? { DigitsAvoid(NatToString(a.staff.value), ','); }
    StatusNameLetters(a.status);
  }

  /** The pieces a row with the name `x,y` splits into: the name's halves
      take two columns, and email, date, time, duration, status and staff
      each move one column to the right. */
  function ShiftedFields(a: Appointment, users: Users, x: string, y: string): seq<string>
  {
    var f := RowFields(a, users);
    [f[0], "\"" + x, y + "\""] + f[2..]
  }

  lemma ShiftedRow(a: Appointment, users: Users, x: string, y: string)
    requires NameOf(users, a.user) == Some(x + "," + y)
    ensures Row(a, users) == Join(ShiftedFields(a, users, x, y), ",")
  {
    var f := RowFields(a, users);
    assert f[1] == ("\"" + x) + "," + (y + "\"");
    assert f == [f[0]] + [f[1]] + f[2..];
    JoinSplitPart([f[0]], "\"" + x, y + "\"", f[2..], ",");
    assert [f[0]] + ["\"" + x, y + "\""] + f[2..] == ShiftedFields(a, users, x, y);
  }

  lemma ShiftedAvoidComma(a: Appointment, users: Users, x: string, y: string)
    requires ',' !in x && ',' !in y
    requires ',' !in OrEmpty(EmailOf(users, a.user))
    requires ',' !in a.date && ',' !in a.timeSlot
    ensures forall i :: 0 <= i < 9 ==> ',' !in ShiftedFields(a, users, x, y)[i]
  {
    var f := RowFields(a, users);
    var pieces := ShiftedFields(a, users, x, y);
    FixedFieldsAvoidComma(a, users);
    assert pieces[0] == f[0] && pieces[3] == f[2];
    assert forall i :: 4 <= i < 9 ==> pieces[i] == f[i - 1];
  }

  /** A reader that splits on every comma, ignoring the double quotes around
      name, email and staff, sees a user name holding one comma (with
      otherwise comma-free texts) as two fields: nine pieces, every column
      after the name one to the right. A quote-aware CSV reader keeps the
      quoted name whole. */
  lemma CommaInNameShiftsColumns(a: Appointment, users: Users, x: string, y: string)
    requires NameOf(users, a.user) == Some(x + "," + y)
    requires ',' !in x && ',' !in y
    requires ',' !in OrEmpty(EmailOf(users, a.user))
    requires ',' !in a.date && ',' !in a.timeSlot
    ensures Split(Row(a, users), ',') == ShiftedFields(a, users, x, y)
    ensures |Split(Row(a, users), ',')| == |RowFields(a, users)| + 1
    ensures Split(Row(a, users), ',')[2] == y + "\""
  {
    ShiftedRow(a, users, x, y);
    ShiftedAvoidComma(a, users, x, y);
    SplitJoin(ShiftedFields(a, users, x, y), ',');
  }

  /** The content of a quoted field as section 2 of RFC 4180 requires it:
      every double quote is doubled. */
  predicate Escaped(s: string)
    decreases |s|
  {
    if |s| == 0 then true
    else if s[0] != '"' then Escaped(s[1..])
    else |s| >= 2 && s[1] == '"' && Escaped(s[2..])
  }

  /** A lone double quote leaves the content unescaped. */
  lemma {:induction false} LoneQuoteNotEscaped(x: string, y: string)
    requires '"' !in x && '"' !in y
    ensures !Escaped(x + "\"" + y)
  {
    var s := x + "\"" + y;
    if |x| > 0 {
      assert s[0] == x[0] && s[1..] == x[1..] + "\"" + y;
      LoneQuoteNotEscaped(x[1..], y);
    } else if |y| > 0 {
      assert s[1] == y[0];
    }
  }

  /** Quotes inside a name are not doubled: the name column is the name
      between two quotes, and a name with one double quote makes that
      column an invalid quoted field. */
  lemma QuoteInNameNotEscaped(a: Appointment, users: Users, x: string, y: string)
    requires NameOf(users, a.user) == Some(x + "\"" + y)
    requires '"' !in x && '"' !in y
    ensures RowFields(a, users)[1] == "\"" + (x + "\"" + y) + "\""
    ensures !Escaped(x + "\"" + y)
  {
    LoneQuoteNotEscaped(x, y);
  }
}
