/**
 The appointment records, the request fields and reply envelopes of the JSON
 API, and what each handler does to the collection, as functions from the
 collection before a request to the collection and the reply after it.
 */
module Appointments {
  import opened JsStrings
  import opened PhoneCheck

  /** The two status values the service knows, kept as the exact strings the
      clients send and receive: "приём" (booked / waiting) and "отмена"
      (cancelled). */
  const Pending: string := "приём"
  const Cancelled: string := "отмена"

  /** `['приём', 'отмена'].includes(status)` for a string status. */
  predicate IsKnownStatus(status: string) {
    status == Pending || status == Cancelled
  }

  // User-facing messages of the replies.
  const MsgFillIn: string := "Пожалуйста, заполните все поля"
  const MsgBadPhone: string := "Пожалуйста, введите корректный номер телефона"
  const MsgThanks: string := "Спасибо! Ваша заявка принята. Мы свяжемся с вами в ближайшее время."
  const MsgCreateFailed: string := "Произошла ошибка при обработке заявки. Пожалуйста, попробуйте позже."
  const MsgBadStatus: string := "Статус должен быть: приём или отмена"
  const MsgNotFound: string := "Заявка не найдена"
  const MsgDeleted: string := "Заявка удалена"
  const MsgServerError: string := "Ошибка сервера"

  /** One stored appointment. The creation id and timestamp are strings the
      clock produced; the status is whatever string the record holds. */
  datatype Appointment = Appointment(
    id: string,
    name: string,
    phone: string,
    createdAt: string,
    status: string)

  /** A field of a parsed request body. A JSON or form body can hold any
      value there: nothing (`undefined`), a string, or some other value, of
      which only its JavaScript truthiness and its `String(...)` conversion
      matter to the handlers. */
  datatype Field = Absent | Text(text: string) | Other(truthy: bool, coerced: string)

  /** JavaScript truthiness; the only falsy string is the empty one. */
  predicate Truthy(f: Field) {
    match f
    case Absent => false
    case Text(t) => t != []
    case Other(b, _) => b
  }

  /** The string `RegExp.prototype.test` sees: its argument converted by `String(...)`. */
  function ToJsString(f: Field): string {
    match f
    case Absent => "undefined"
    case Text(t) => t
    case Other(_, c) => c
  }

  /** The JSON body of a reply. `success` is false exactly for `Failure`. */
  datatype Body =
    | Failure(message: string)
    | Accepted(message: string, id: string, name: string, phone: string)
    | Listing(count: nat, appointments: seq<Appointment>)
    | Updated(appointment: Appointment)
    | Deleted(message: string)

  datatype Reply = Reply(code: nat, body: Body)

  /** The collection after a request together with the reply to it. */
  datatype Outcome = Outcome(store: seq<Appointment>, reply: Reply)

  /** `appointments.findIndex(a => a.id === id)`: the position of the first
      record with that id, or -1 when there is none. */
  function FirstIndex(s: seq<Appointment>, id: string): (r: int)
    ensures -1 <= r < |s|
    ensures r == -1 <==> forall j :: 0 <= j < |s| ==> s[j].id != id
    ensures 0 <= r ==> s[r].id == id && forall j :: 0 <= j < r ==> s[j].id != id
  {
    if s == [] then -1
    else if s[0].id == id then 0
    else
      var k := FirstIndex(s[1..], id);
      if k == -1 then -1 else k + 1
  }

  /** The record a successful intake builds: trimmed name and phone, status "приём". */
  function NewAppointment(id: string, name: string, phone: string, createdAt: string): (a: Appointment)
    ensures a.id == id && a.createdAt == createdAt && a.status == Pending
    ensures Tight(a.name) && Tight(a.phone) && |a.name| <= |name| && |a.phone| <= |phone|
  {
    Appointment(id, Trim(name), Trim(phone), createdAt, Pending)
  }

  /** POST /api/appointments. `saved` is whether the write of the whole
      collection to the file succeeded; the record is appended before that
      write, so a failed write answers 500 but keeps the record in memory.
      A truthy non-string name or phone makes `trim` throw before anything
      is appended, which the handler answers with 500. */
  function CreateOutcome(s: seq<Appointment>, name: Field, phone: Field,
                         id: string, createdAt: string, saved: bool): Outcome
  {
    if !Truthy(name) || !Truthy(phone) then
      Outcome(s, Reply(400, Failure(MsgFillIn)))
    else if !PhoneRegexTest(ToJsString(phone)) then
      Outcome(s, Reply(400, Failure(MsgBadPhone)))
    else if !name.Text? || !phone.Text? then
      Outcome(s, Reply(500, Failure(MsgCreateFailed)))
    else
      var a := NewAppointment(id, name.text, phone.text, createdAt);
      Outcome(s + [a],
        if saved then Reply(201, Accepted(MsgThanks, a.id, a.name, a.phone))
        else Reply(500, Failure(MsgCreateFailed)))
  }

  /** `!status || !allowed.includes(status)` negated: `includes` compares
      with SameValueZero, so only the two status strings themselves pass. */
  predicate IsAllowedStatus(status: Field) {
    Truthy(status) && status.Text? && IsKnownStatus(status.text)
  }

  /** PATCH /api/appointments/:id. The status is checked before the id is
      looked up; the first record with the id gets the new status. */
  function UpdateStatusOutcome(s: seq<Appointment>, id: string, status: Field, saved: bool): Outcome {
    if !IsAllowedStatus(status) then
      Outcome(s, Reply(400, Failure(MsgBadStatus)))
    else
      var i := FirstIndex(s, id);
      if i == -1 then
        Outcome(s, Reply(404, Failure(MsgNotFound)))
      else
        var s' := s[i := s[i].(status := status.text)];
        Outcome(s',
          if saved then Reply(200, Updated(s'[i]))
          else Reply(500, Failure(MsgServerError)))
  }

  /** DELETE /api/appointments/:id: `splice(index, 1)` of the first record with the id. */
  function DeleteOutcome(s: seq<Appointment>, id: string, saved: bool): Outcome {
    var i := FirstIndex(s, id);
    if i == -1 then
      Outcome(s, Reply(404, Failure(MsgNotFound)))
    else
      Outcome(s[..i] + s[i + 1..],
        if saved then Reply(200, Deleted(MsgDeleted))
        else Reply(500, Failure(MsgServerError)))
  }

  /** How many records carry the id. */
  function IdCount(s: seq<Appointment>, id: string): (n: nat)
    ensures n <= |s|
  {
    if s == [] then 0 else (if s[0].id == id then 1 else 0) + IdCount(s[1..], id)
  }

  /** Every record holds one of the two known statuses. */
  predicate StatusesAllowed(s: seq<Appointment>) {
    forall j :: 0 <= j < |s| ==> IsKnownStatus(s[j].status)
  }
}
