/** middleware/validationMiddleware.js: the Joi schemas of the request
    bodies and the middleware that reports every failed rule at once.
    A body is the map of its string-valued keys; the email syntax check is
    the `isEmail` input. */
module Validation {
  import opened Wrappers
  import opened Text

  /** The string rules one key carries. */
  datatype Shape = Plain | Email | OneOf(values: seq<string>) | DateShape(message: string)

  datatype Rule = Rule(key: string, required: bool, minLength: nat, shape: Shape)

  type Schema = seq<Rule>
  type Body = map<string, string>

  /** `/^\d{4}-\d{2}-\d{2}$/`. */
  predicate DatePattern(s: string) {
    && |s| == 10
    && AllDigits(s[..4]) && s[4] == '-'
    && AllDigits(s[5..7]) && s[7] == '-'
    && AllDigits(s[8..])
  }

  function Label(key: string): string { "\"" + key + "\"" }

  function RequiredMessage(key: string): string { Label(key) + " is required" }

  function MinLengthMessage(key: string, n: nat): string {
    Label(key) + " length must be at least " + NatToString(n) + " characters long"
  }

  function EmptyMessage(key: string): string { Label(key) + " is not allowed to be empty" }

  function OnlyMessage(key: string, values: seq<string>): string {
    Label(key) + " must be one of [" + Join(values, ", ") + "]"
  }

  /** The messages Joi reports for one key, in rule order: a missing key,
      a value outside an allow-list, an empty string, then the length,
      email and pattern rules. With every error collected, a value outside
      the allow-list still meets the string type check, so an empty one
      reports both the allow-list and the emptiness message. */
  function KeyErrors(rule: Rule, body: Body, isEmail: string -> bool): (msgs: seq<string>)
    ensures rule.key !in body ==> (msgs == [] <==> !rule.required)
    ensures rule.key in body && rule.shape.OneOf? ==>
      (msgs == [] <==> body[rule.key] in rule.shape.values)
    ensures rule.key in body && rule.shape.OneOf? && body[rule.key] !in rule.shape.values ==>
      && msgs[0] == OnlyMessage(rule.key, rule.shape.values)
      && (|msgs| == 2 <==> body[rule.key] == "")
      && (|msgs| == 1 <==> body[rule.key] != "")
      && (body[rule.key] == "" ==> msgs[1] == EmptyMessage(rule.key))
    ensures rule.key in body && !rule.shape.OneOf? && body[rule.key] == "" ==>
      msgs == [EmptyMessage(rule.key)]
    ensures rule.key in body && !rule.shape.OneOf? && body[rule.key] != "" ==>
      (msgs == [] <==>
         && |body[rule.key]| >= rule.minLength
         && (rule.shape.Email? ==> isEmail(body[rule.key]))
         && (rule.shape.DateShape? ==> DatePattern(body[rule.key])))
  {
    if rule.key !in body then
      if rule.required then [RequiredMessage(rule.key)] else []
    else
      var v := body[rule.key];
      match rule.shape
      case OneOf(values) =>
        if v in values then []
        else [OnlyMessage(rule.key, values)] + (if v == "" then [EmptyMessage(rule.key)] else [])
      case _ =>
        if v == "" then [EmptyMessage(rule.key)]
        else
          (if |v| < rule.minLength then [MinLengthMessage(rule.key, rule.minLength)] else [])
          + match rule.shape
            case Email => if isEmail(v) then [] else [Label(rule.key) + " must be a valid email"]
            case DateShape(message) => if DatePattern(v) then [] else [message]
            case _ => []
  }

  /** The details of `schema.validate(body, { abortEarly: false })`. */
  function Errors(schema: Schema, body: Body, isEmail: string -> bool): (msgs: seq<string>)
    ensures msgs == [] <==> forall i :: 0 <= i < |schema| ==> KeyErrors(schema[i], body, isEmail) == []
  {
    if |schema| == 0 then []
    else KeyErrors(schema[0], body, isEmail) + Errors(schema[1..], body, isEmail)
  }

  /** `validate(schema)`: the body passes on unchanged, or one 400 error
      joins every message with ", ". */
  function Validate(schema: Schema, body: Body, isEmail: string -> bool): (r: Result<Body>)
    ensures r.Ok? <==> forall i :: 0 <= i < |schema| ==> KeyErrors(schema[i], body, isEmail) == []
    ensures r.Ok? ==> r.value == body
    ensures r.Err? ==> r.error == AppError(Join(Errors(schema, body, isEmail), ", "), 400)
  {
    var msgs := Errors(schema, body, isEmail);
    if msgs == [] then Ok(body) else Err(AppError(Join(msgs, ", "), 400))
  }

  const RegisterSchema: Schema := [
    Rule("name", true, 3, Plain),
    Rule("email", true, 0, Email),
    Rule("password", true, 6, Plain),
    Rule("role", false, 0, OneOf(["user", "admin"]))]

  const LoginSchema: Schema := [
    Rule("email", true, 0, Email),
    Rule("password", true, 0, Plain)]

  const CreateAppointmentSchema: Schema := [
    Rule("date", true, 0, DateShape("Date must be YYYY-MM-DD")),
    Rule("timeSlot", true, 0, Plain)]

  const UpdateStatusSchema: Schema := [
    Rule("status", true, 0, OneOf(["Approved", "Rejected"]))]

  const UpdateProfileSchema: Schema := [
    Rule("name", true, 3, Plain),
    Rule("email", true, 0, Email)]

  const ChangePasswordSchema: Schema := [
    Rule("oldPassword", true, 0, Plain),
    Rule("newPassword", true, 6, Plain)]
}
