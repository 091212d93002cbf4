/**
 The service's in-memory collection and its four request handlers. Each
 handler changes the collection in place, as the server does with `push`,
 an assignment to one record's `status` and `splice`, and is proved to have
 the effect the matching function of `Appointments` describes.
 */
module Server {
  import opened JsStrings
  import opened PhoneCheck
  import opened Appointments
  import AppointmentLemmas

  class AppointmentStore {
    /** The records, in insertion order. */
    var appointments: seq<Appointment>

    /** Starts from the records read from the file at start-up. */
    constructor (loaded: seq<Appointment>)
      ensures appointments == loaded
    {
      appointments := loaded;
    }

    /** `appointments.findIndex(a => a.id === id)`, a linear scan from the front. */
    method FindIndex(id: string) returns (index: int)
      ensures index == FirstIndex(appointments, id)
    {
      var i := 0;
      while i < |appointments|
        invariant 0 <= i <= |appointments|
        invariant forall j :: 0 <= j < i ==> appointments[j].id != id
      {
        if appointments[i].id == id {
          return i;
        }
        i := i + 1;
      }
      return -1;
    }

    /** POST /api/appointments with body fields `name` and `phone`; `id` and
        `createdAt` are the clock's readings, `saved` the result of the file write. */
    method Create(name: Field, phone: Field, id: string, createdAt: string, saved: bool)
      returns (reply: Reply)
      modifies this
      ensures Outcome(appointments, reply) == CreateOutcome(old(appointments), name, phone, id, createdAt, saved)
    {
      if !Truthy(name) || !Truthy(phone) {
        return Reply(400, Failure(MsgFillIn));
      }
      if !PhoneRegexTest(ToJsString(phone)) {
        return Reply(400, Failure(MsgBadPhone));
      }
      if !name.Text? || !phone.Text? {
        // `trim` is not a method of a non-string: the handler's catch answers.
        return Reply(500, Failure(MsgCreateFailed));
      }
      var appointment := NewAppointment(id, name.text, phone.text, createdAt);
      appointments := appointments + [appointment];
      if !saved {
        return Reply(500, Failure(MsgCreateFailed));
      }
      reply := Reply(201, Accepted(MsgThanks, appointment.id, appointment.name, appointment.phone));
    }

    /** GET /api/appointments: the count and every record, in insertion order. */
    method List() returns (reply: Reply)
      ensures reply.code == 200
      ensures reply.body.Listing? && reply.body.count == |appointments|
      ensures reply.body.appointments == appointments
    {
      reply := Reply(200, Listing(|appointments|, appointments));
    }

    /** PATCH /api/appointments/:id with body field `status`. */
    method UpdateStatus(id: string, status: Field, saved: bool) returns (reply: Reply)
      modifies this
      ensures Outcome(appointments, reply) == UpdateStatusOutcome(old(appointments), id, status, saved)
    {
      if !Truthy(status) || !status.Text? || !IsKnownStatus(status.text) {
        return Reply(400, Failure(MsgBadStatus));
      }
      var index := FindIndex(id);
      if index == -1 {
        return Reply(404, Failure(MsgNotFound));
      }
      appointments := appointments[index := appointments[index].(status := status.text)];
      if !saved {
        return Reply(500, Failure(MsgServerError));
      }
      reply := Reply(200, Updated(appointments[index]));
    }

    /** DELETE /api/appointments/:id. */
    method Delete(id: string, saved: bool) returns (reply: Reply)
      modifies this
      ensures Outcome(appointments, reply) == DeleteOutcome(old(appointments), id, saved)
    {
      var index := FindIndex(id);
      if index == -1 {
        return Reply(404, Failure(MsgNotFound));
      }
      appointments := appointments[..index] + appointments[index + 1..];
      if !saved {
        return Reply(500, Failure(MsgServerError));
      }
      reply := Reply(200, Deleted(MsgDeleted));
    }
  }

  /** An intake followed by a listing: the listing holds the old records in
      insertion order and ends with the new record, field for field, whether
      or not the file write succeeded. */
  method CreateThenList(store: AppointmentStore, name: string, phone: string, id: string,
                        createdAt: string, saved: bool) returns (listing: Reply)
    requires name != [] && PhoneRegexTest(phone)
    modifies store
    ensures listing.code == 200 && listing.body.Listing?
    ensures var l := listing.body.appointments;
      && listing.body.count == |l| == |old(store.appointments)| + 1
      && (forall j :: 0 <= j < |l| - 1 ==> l[j] == old(store.appointments)[j])
      && l[|l| - 1] == Appointment(id, Trim(name), Trim(phone), createdAt, Pending)
  {
    ghost var before := store.appointments;
    var created := store.Create(Text(name), Text(phone), id, createdAt, saved);
    AppointmentLemmas.CreateAppendsOneRecord(before, name, phone, id, createdAt, saved);
    listing := store.List();
  }

  /** A session against one store: book, cancel, list, delete, delete again.
      Only the handlers' contracts are used. */
  method BookCancelDelete(store: AppointmentStore, name: string, phone: string, id: string,
                          createdAt: string) returns (codes: seq<nat>)
    requires name != [] && PhoneRegexTest(phone)
    requires forall j :: 0 <= j < |store.appointments| ==> store.appointments[j].id != id
    modifies store
    ensures codes == [201, 200, 200, 200, 404]
    ensures store.appointments == old(store.appointments)
  {
    ghost var before := store.appointments;
    var r1 := store.Create(Text(name), Text(phone), id, createdAt, true);
    AppointmentLemmas.CreateAppendsOneRecord(before, name, phone, id, createdAt, true);
    ghost var booked := store.appointments;
    ghost var n := |before|;
    assert booked[n].id == id;
    var r2 := store.UpdateStatus(id, Text(Cancelled), true);
    AppointmentLemmas.UpdateChangesOnlyStatus(booked, id, Cancelled, true, n);
    ghost var cancelled := store.appointments;
    var r3 := store.List();
    var r4 := store.Delete(id, true);
    AppointmentLemmas.DeleteRemovesFirstMatch(cancelled, id, true, n);
    assert store.appointments == before;
    var r5 := store.Delete(id, true);
    AppointmentLemmas.DeleteUnknownIdNotFound(before, id, true);
    codes := [r1.code, r2.code, r3.code, r4.code, r5.code];
  }
}
