/**
 What the four handlers promise about the collection and the replies.
 */
module AppointmentLemmas {
  import opened JsStrings
  import opened PhoneCheck
  import opened Appointments

  /** A missing or empty name or phone is refused with 400 before anything
      else is looked at; the collection is untouched. The check is on the raw
      values, so a name of spaces alone is not refused here. */
  lemma CreateRefusesMissingFields(s: seq<Appointment>, name: Field, phone: Field,
                                   id: string, createdAt: string, saved: bool)
    ensures var o := CreateOutcome(s, name, phone, id, createdAt, saved);
      (!Truthy(name) || !Truthy(phone)) <==> (o.store == s && o.reply == Reply(400, Failure(MsgFillIn)))
  {
  }

  /** With both fields present, the phone decides acceptance: a phone that
      fails the pattern gets 400 and no change, and string fields with a
      phone that passes it always grow the collection by the new record. */
  lemma CreateAcceptsExactlyMatchingPhones(s: seq<Appointment>, name: string, phone: string,
                                           id: string, createdAt: string, saved: bool)
    requires name != [] && phone != []
    ensures var o := CreateOutcome(s, Text(name), Text(phone), id, createdAt, saved);
      && (!PhoneRegexTest(phone) <==> o.reply == Reply(400, Failure(MsgBadPhone)))
      && (!PhoneRegexTest(phone) ==> o.store == s)
      && (PhoneRegexTest(phone) <==> |o.store| == |s| + 1)
  {
  }

  /** A successful intake appends exactly one record at the end: the earlier
      records keep their places and values, and the new one has the given
      id and timestamp, the trimmed name and phone and the status "приём".
      The reply echoes id, name and phone of that record. */
  lemma CreateAppendsOneRecord(s: seq<Appointment>, name: string, phone: string,
                               id: string, createdAt: string, saved: bool)
    requires name != [] && PhoneRegexTest(phone)
    ensures var o := CreateOutcome(s, Text(name), Text(phone), id, createdAt, saved);
      && |o.store| == |s| + 1
      && o.store[..|s|] == s
      && o.store[|s|] == Appointment(id, Trim(name), Trim(phone), createdAt, Pending)
      && Tight(o.store[|s|].name) && Tight(o.store[|s|].phone)
      && (saved ==> o.reply == Reply(201, Accepted(MsgThanks, id, Trim(name), Trim(phone))))
      && (!saved ==> o.reply == Reply(500, Failure(MsgCreateFailed)))
  {
  }

  /** A truthy value that is not a string, for name or phone, passes the
      presence check but makes `trim` throw: 500 and no change. */
  lemma CreateNonStringFieldFails(s: seq<Appointment>, name: Field, phone: Field,
                                  id: string, createdAt: string, saved: bool)
    requires Truthy(name) && Truthy(phone) && PhoneRegexTest(ToJsString(phone))
    requires !name.Text? || !phone.Text?
    ensures CreateOutcome(s, name, phone, id, createdAt, saved)
         == Outcome(s, Reply(500, Failure(MsgCreateFailed)))
  {
  }

  /** The status check lets through exactly the two status strings, and
      nothing else: no other string, no absent field, no other value. */
  lemma AllowedStatusExactly(status: Field)
    ensures IsAllowedStatus(status) <==> status == Text(Pending) || status == Text(Cancelled)
  {
  }

  /** A status other than the two known strings is refused with 400 whatever
      the id, even one that no record carries: the status check comes first. */
  lemma UpdateRefusesUnknownStatus(s: seq<Appointment>, id: string, status: Field, saved: bool)
    requires !(status.Text? && IsKnownStatus(status.text))
    ensures UpdateStatusOutcome(s, id, status, saved) == Outcome(s, Reply(400, Failure(MsgBadStatus)))
  {
  }

  /** A known status with an id no record carries gets 404 and no change. */
  lemma UpdateUnknownIdNotFound(s: seq<Appointment>, id: string, status: string, saved: bool)
    requires IsKnownStatus(status)
    requires forall j :: 0 <= j < |s| ==> s[j].id != id
    ensures UpdateStatusOutcome(s, id, Text(status), saved) == Outcome(s, Reply(404, Failure(MsgNotFound)))
  {
  }

  /** A successful update touches only the status of the first record with
      the id: same length, same order, every other record and every other
      field unchanged; the reply carries the updated record. */
  lemma UpdateChangesOnlyStatus(s: seq<Appointment>, id: string, status: string, saved: bool, i: nat)
    requires IsKnownStatus(status)
    requires i < |s| && s[i].id == id && forall j :: 0 <= j < i ==> s[j].id != id
    ensures var o := UpdateStatusOutcome(s, id, Text(status), saved);
      && |o.store| == |s|
      && o.store[i].status == status
      && o.store[i].id == s[i].id && o.store[i].name == s[i].name
      && o.store[i].phone == s[i].phone && o.store[i].createdAt == s[i].createdAt
      && (forall j :: 0 <= j < |s| && j != i ==> o.store[j] == s[j])
      && o.reply == (if saved then Reply(200, Updated(o.store[i])) else Reply(500, Failure(MsgServerError)))
  {
    assert FirstIndex(s, id) == i;
  }

  /** Setting the same status twice is the same as setting it once. */
  lemma UpdateIdempotent(s: seq<Appointment>, id: string, status: Field, saved1: bool, saved2: bool)
    ensures var once := UpdateStatusOutcome(s, id, status, saved1).store;
      UpdateStatusOutcome(once, id, status, saved2).store == once
  {
    var once := UpdateStatusOutcome(s, id, status, saved1).store;
    if IsAllowedStatus(status) {
      var i := FirstIndex(s, id);
      if i != -1 {
        assert forall j :: 0 <= j < |s| ==> once[j].id == s[j].id;
        assert FirstIndex(once, id) == i;
      }
    }
  }

  /** A delete of a present id removes exactly the first record with it; the
      rest keep their relative order and the length drops by one. */
  lemma DeleteRemovesFirstMatch(s: seq<Appointment>, id: string, saved: bool, i: nat)
    requires i < |s| && s[i].id == id && forall j :: 0 <= j < i ==> s[j].id != id
    ensures var o := DeleteOutcome(s, id, saved);
      && |o.store| == |s| - 1
      && (forall j :: 0 <= j < i ==> o.store[j] == s[j])
      && (forall j :: i <= j < |o.store| ==> o.store[j] == s[j + 1])
      && multiset(o.store) + multiset{s[i]} == multiset(s)
      && o.reply == (if saved then Reply(200, Deleted(MsgDeleted)) else Reply(500, Failure(MsgServerError)))
  {
    assert FirstIndex(s, id) == i;
    assert s == s[..i] + [s[i]] + s[i + 1..];
  }

  /** A delete of an id no record carries gets 404 and no change. */
  lemma DeleteUnknownIdNotFound(s: seq<Appointment>, id: string, saved: bool)
    requires forall j :: 0 <= j < |s| ==> s[j].id != id
    ensures DeleteOutcome(s, id, saved) == Outcome(s, Reply(404, Failure(MsgNotFound)))
  {
  }

  lemma {:induction false} IdCountZero(s: seq<Appointment>, id: string)
    ensures IdCount(s, id) == 0 <==> forall j :: 0 <= j < |s| ==> s[j].id != id
  {
    if s != [] {
      IdCountZero(s[1..], id);
      assert forall j :: 1 <= j < |s| ==> s[j] == s[1..][j - 1];
    }
  }

  lemma {:induction false} IdCountConcat(a: seq<Appointment>, b: seq<Appointment>, id: string)
    ensures IdCount(a + b, id) == IdCount(a, id) + IdCount(b, id)
  {
    if a == [] {
      assert a + b == b;
    } else {
      assert (a + b)[1..] == a[1..] + b;
      IdCountConcat(a[1..], b, id);
    }
  }

  /** A delete lowers the number of records carrying the id by exactly one. */
  lemma DeleteLowersIdCount(s: seq<Appointment>, id: string, saved: bool)
    requires FirstIndex(s, id) != -1
    ensures IdCount(DeleteOutcome(s, id, saved).store, id) == IdCount(s, id) - 1
  {
    var i := FirstIndex(s, id);
    assert s == s[..i] + ([s[i]] + s[i + 1..]);
    IdCountConcat(s[..i], [s[i]] + s[i + 1..], id);
    IdCountConcat([s[i]], s[i + 1..], id);
    IdCountConcat(s[..i], s[i + 1..], id);
    assert [s[i]][1..] == [];
  }

  /** Deleting the same id a second time answers 404 exactly when the id was
      carried by one record only; ids are not guaranteed unique, so with a
      duplicate the second delete removes the next record with it. */
  lemma DeleteTwice(s: seq<Appointment>, id: string, saved1: bool, saved2: bool)
    requires FirstIndex(s, id) != -1
    ensures var once := DeleteOutcome(s, id, saved1).store;
      DeleteOutcome(once, id, saved2).reply.code == 404 <==> IdCount(s, id) == 1
  {
    var once := DeleteOutcome(s, id, saved1).store;
    DeleteLowersIdCount(s, id, saved1);
    IdCountZero(once, id);
  }

  lemma AppendKeepsStatusesAllowed(s: seq<Appointment>, a: Appointment)
    requires StatusesAllowed(s) && IsKnownStatus(a.status)
    ensures StatusesAllowed(s + [a])
  {
    assert forall j :: 0 <= j < |s| ==> (s + [a])[j] == s[j];
  }

  /** If every record holds a known status, every handler keeps it so: an
      intake adds "приём", an update writes a checked status, a delete only
      removes. */
  lemma CreateKeepsStatusesAllowed(s: seq<Appointment>, name: Field, phone: Field, id: string,
                                   createdAt: string, saved: bool)
    requires StatusesAllowed(s)
    ensures StatusesAllowed(CreateOutcome(s, name, phone, id, createdAt, saved).store)
  {
    var o := CreateOutcome(s, name, phone, id, createdAt, saved);
    if o.store != s {
      var a := NewAppointment(name := name.text, phone := phone.text, id := id, createdAt := createdAt);
      assert o.store == s + [a];
      AppendKeepsStatusesAllowed(s, a);
    }
  }

  lemma UpdateKeepsStatusesAllowed(s: seq<Appointment>, id: string, status: Field, saved: bool)
    requires StatusesAllowed(s)
    ensures StatusesAllowed(UpdateStatusOutcome(s, id, status, saved).store)
  {
  }

  lemma DeleteKeepsStatusesAllowed(s: seq<Appointment>, id: string, saved: bool)
    requires StatusesAllowed(s)
    ensures StatusesAllowed(DeleteOutcome(s, id, saved).store)
  {
    var i := FirstIndex(s, id);
    if i != -1 {
      var d := DeleteOutcome(s, id, saved).store;
      assert forall j :: 0 <= j < |d| ==> d[j] == (if j < i then s[j] else s[j + 1]);
    }
  }

  /** The file write comes after the change in memory and nothing undoes the
      change when the write fails: the collection is the same whether or not
      the write succeeded, and a failed write turns any successful reply into
      500. */
  lemma FailedSaveKeepsChange(s: seq<Appointment>, name: Field, phone: Field, id: string,
                              createdAt: string, status: Field)
    ensures CreateOutcome(s, name, phone, id, createdAt, false).store
         == CreateOutcome(s, name, phone, id, createdAt, true).store
    ensures UpdateStatusOutcome(s, id, status, false).store == UpdateStatusOutcome(s, id, status, true).store
    ensures DeleteOutcome(s, id, false).store == DeleteOutcome(s, id, true).store
    ensures CreateOutcome(s, name, phone, id, createdAt, false).reply.code in {400, 500}
    ensures UpdateStatusOutcome(s, id, status, false).reply.code in {400, 404, 500}
    ensures DeleteOutcome(s, id, false).reply.code in {404, 500}
  {
  }
}
