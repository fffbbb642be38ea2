/** What the request rules let through, and how that meets the services. */
module ValidationFacts {
  import opened Wrappers
  import opened Text
  import opened AppointmentModel
  import opened AppointmentService
  import opened Validation

  /** The date rule checks shape only: ten characters, '-' at positions 4
      and 7, digits everywhere else. */
  lemma DatePatternPositions(s: string)
    ensures DatePattern(s) <==>
      |s| == 10 && forall i :: 0 <= i < 10 ==> if i == 4 || i == 7 then s[i] == '-' else IsDigit(s[i])
  {
    if |s| == 10 {
      assert forall i :: 0 <= i < 4 ==> s[..4][i] == s[i];
      assert forall i :: 5 <= i < 7 ==> s[5..7][i - 5] == s[i];
      assert forall i :: 8 <= i < 10 ==> s[8..][i - 8] == s[i];
    }
  }

  /** A month 13 and a day 45 pass the booking rules, and the time slot may
      be any non-empty string. */
  lemma ImpossibleDateAccepted(timeSlot: string, isEmail: string -> bool)
    ensures Validate(CreateAppointmentSchema, map["date" := "2024-13-45", "timeSlot" := timeSlot], isEmail).Ok?
        <==> timeSlot != ""
  {
    var body := map["date" := "2024-13-45", "timeSlot" := timeSlot];
    assert DatePattern("2024-13-45") by {
      DatePatternPositions("2024-13-45");
    }
    assert body["date"] == "2024-13-45" && body["timeSlot"] == timeSlot;
    assert KeyErrors(CreateAppointmentSchema[0], body, isEmail) == [];
    assert KeyErrors(CreateAppointmentSchema[1], body, isEmail) == [] <==> timeSlot != "";
  }

  /** The status route admits "Approved", which is not a status: the update
      behind it fails for every record. */
  lemma ApprovedPassesButNeverApplies(store: Store, id: Id, at: int, isEmail: string -> bool)
    ensures Validate(UpdateStatusSchema, map["status" := "Approved"], isEmail).Ok?
    ensures UpdateStatus(store, id, "Approved", at).Err?
  {
    assert ParseStatus("Approved").None?;
  }

  /** Anyone may register as an administrator. */
  lemma AdminSelfRegistration(email: string, isEmail: string -> bool)
    requires email != "" && isEmail(email)
    ensures Validate(RegisterSchema,
                     map["name" := "Eve", "email" := email, "password" := "secret", "role" := "admin"],
                     isEmail).Ok?
  {
    var sc := RegisterSchema;
    var body := map["name" := "Eve", "email" := email, "password" := "secret", "role" := "admin"];
    assert body["name"] == "Eve" && body["password"] == "secret" && body["role"] == "admin";
    assert body["email"] == email;
    assert KeyErrors(sc[0], body, isEmail) == [];
    assert KeyErrors(sc[1], body, isEmail) == [];
    assert KeyErrors(sc[2], body, isEmail) == [];
    assert KeyErrors(sc[3], body, isEmail) == [];
  }

  /** A missing key reports the required message, or nothing when optional. */
  lemma AbsentKey(rule: Rule, body: Body, isEmail: string -> bool)
    requires rule.key !in body
    ensures KeyErrors(rule, body, isEmail) == (if rule.required then [RequiredMessage(rule.key)] else [])
  {
  }

  /** An empty registration body fails, reporting every required key in
      schema order. */
  lemma EmptyRegistrationMessages(isEmail: string -> bool)
    ensures Errors(RegisterSchema, map[], isEmail)
         == [RequiredMessage("name"), RequiredMessage("email"), RequiredMessage("password")]
  {
    var sc := RegisterSchema;
    var m: Body := map[];
    AbsentKey(sc[0], m, isEmail);
    AbsentKey(sc[1], m, isEmail);
    AbsentKey(sc[2], m, isEmail);
    AbsentKey(sc[3], m, isEmail);
    assert sc[4..] == [];
    assert Errors(sc[3..], m, isEmail) == [] by { assert sc[3..][1..] == sc[4..]; }
    assert Errors(sc[2..], m, isEmail) == [RequiredMessage("password")] by { assert sc[2..][1..] == sc[3..]; }
    assert Errors(sc[1..], m, isEmail) == [RequiredMessage("email"), RequiredMessage("password")]
      by { assert sc[1..][1..] == sc[2..]; }
  }

  /** A new password shorter than six characters is refused with the length
      message. */
  lemma ShortNewPassword(current: string, pw: string, isEmail: string -> bool)
    requires current != "" && pw != "" && |pw| < 6
    ensures Errors(ChangePasswordSchema, map["oldPassword" := current, "newPassword" := pw], isEmail)
         == [MinLengthMessage("newPassword", 6)]
  {
    var body := map["oldPassword" := current, "newPassword" := pw];
    assert body["oldPassword"] == current && body["newPassword"] == pw;
    assert KeyErrors(ChangePasswordSchema[0], body, isEmail) == [];
    assert KeyErrors(ChangePasswordSchema[1], body, isEmail) == [MinLengthMessage("newPassword", 6)];
    assert ChangePasswordSchema[1..][1..] == [];
  }

  /** An empty status is outside the allow-list and empty: both messages,
      allow-list first. */
  lemma EmptyStatusMessages(isEmail: string -> bool)
    ensures Errors(UpdateStatusSchema, map["status" := ""], isEmail)
         == [OnlyMessage("status", ["Approved", "Rejected"]), EmptyMessage("status")]
  {
    var body := map["status" := ""];
    assert body["status"] == "";
    assert "" !in ["Approved", "Rejected"];
    assert UpdateStatusSchema[1..] == [];
  }
}
