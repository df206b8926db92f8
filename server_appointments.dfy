/** The appointment handlers of the Express app: a public create that
    stores the booking as sent, and, behind the verifyToken gate, a listing
    newest first and a delete by id that reports success whether or not the
    id was found. */
module ServerAppointments {
  import opened JsValues
  import opened ServerAuth

  /** The booking fields of an Appointment document, each optional. */
  datatype Booking = Booking(
    name: Option<string>, dob: Option<string>, gender: Option<string>,
    phone: Option<string>, email: Option<string>, address: Option<string>,
    preferredDate: Option<string>, alternateDate: Option<string>,
    preferredTime: Option<string>, alternateTime: Option<string>,
    appointmentType: Option<string>, reason: Option<string>)

  /** A stored appointment: its ObjectId (as 24 lower-case hex digits), the
      booking, and the timestamps the schema adds, in milliseconds. */
  datatype Appointment = Appointment(id: string, booking: Booking, createdAt: int, updatedAt: int)

  // ---------------------------------------------------------------------
  // Object ids

  predicate IsHexDigit(c: char) {
    '0' <= c <= '9' || 'a' <= c <= 'f' || 'A' <= c <= 'F'
  }

  /** The canonical text of an ObjectId. */
  predicate IsObjectId(s: string) {
    |s| == 24 && forall i :: 0 <= i < 24 ==> ('0' <= s[i] <= '9' || 'a' <= s[i] <= 'f')
  }

  function LowerHex(c: char): (l: char)
    requires IsHexDigit(c)
    ensures '0' <= l <= '9' || 'a' <= l <= 'f'
    ensures ('0' <= c <= '9' || 'a' <= c <= 'f') ==> l == c
  {
    if 'A' <= c <= 'F' then (c as int - 'A' as int + 'a' as int) as char else c
  }

  /** Casting the `:id` route parameter to an ObjectId: 24 hex digits in
      either case; anything else makes the query throw a cast error. */
  function CastObjectId(text: string): (r: Option<string>)
    ensures r.Some? <==> |text| == 24 && forall i :: 0 <= i < |text| ==> IsHexDigit(text[i])
    ensures r.Some? ==> IsObjectId(r.value)
    ensures r.Some? ==> forall i :: 0 <= i < 24 ==> r.value[i] == LowerHex(text[i])
    ensures IsObjectId(text) ==> r == Some(text)
  {
    if |text| == 24 && forall i :: 0 <= i < |text| ==> IsHexDigit(text[i]) then
      var lowered := seq(24, i requires 0 <= i < 24 => LowerHex(text[i]));
      assert IsObjectId(text) ==> lowered == text by {
        if IsObjectId(text) {
          assert forall i :: 0 <= i < 24 ==> lowered[i] == text[i];
        }
      }
      Some(lowered)
    else None
  }

  /** The `_id` a new document is saved under: the one the request body
      carries, cast, or else the one the driver generates. None when the
      body's cannot be cast, which makes the save throw. */
  function NewDocumentId(bodyId: Option<string>, generated: string): (r: Option<string>)
    requires IsObjectId(generated)
    ensures bodyId.None? ==> r == Some(generated)
    ensures bodyId.Some? ==> r == CastObjectId(bodyId.value)
    ensures r.Some? ==> IsObjectId(r.value)
  {
    if bodyId.None? then Some(generated) else CastObjectId(bodyId.value)
  }

  /** The `createdAt` the timestamps option leaves on a new document: a
      value the body set is kept, otherwise the save time. `updatedAt` of a
      new document is then set to the same value. */
  function CreationTime(bodyCreatedAt: Option<int>, now: int): (t: int)
    ensures bodyCreatedAt.None? ==> t == now
    ensures bodyCreatedAt.Some? ==> t == bodyCreatedAt.value
  {
    if bodyCreatedAt.Some? then bodyCreatedAt.value else now
  }

  // ---------------------------------------------------------------------
  // The collection

  predicate DistinctIds(s: seq<Appointment>) {
    forall i, j :: 0 <= i < j < |s| ==> s[i].id != s[j].id
  }

  /** The collection invariant: ids are well formed and unique. */
  predicate RecordsValid(s: seq<Appointment>) {
    DistinctIds(s) && forall i :: 0 <= i < |s| ==> IsObjectId(s[i].id)
  }

  /** `find().sort({ createdAt: -1 })` order: newest first. */
  predicate NewestFirstOrder(s: seq<Appointment>) {
    forall i, j :: 0 <= i < j < |s| ==> s[i].createdAt >= s[j].createdAt
  }

  /** Place x among an already newest-first sequence. */
  function InsertNewest(x: Appointment, s: seq<Appointment>): (r: seq<Appointment>)
    requires NewestFirstOrder(s)
    ensures NewestFirstOrder(r)
    ensures multiset(r) == multiset(s) + multiset{x}
    ensures |r| == |s| + 1 && (r[0] == x || (s != [] && r[0] == s[0]))
  {
    if s == [] || x.createdAt >= s[0].createdAt then
      [x] + s
    else
      assert s == [s[0]] + s[1..];
      [s[0]] + InsertNewest(x, s[1..])
  }

  /** One newest-first arrangement of the collection (ties may come out
      in any order from the database; this is one of them). */
  function NewestFirst(s: seq<Appointment>): (r: seq<Appointment>)
    ensures NewestFirstOrder(r)
    ensures multiset(r) == multiset(s)
  {
    if s == [] then []
    else
      assert s == [s[0]] + s[1..];
      InsertNewest(s[0], NewestFirst(s[1..]))
  }

  /** The document with the given id, if any. */
  function Lookup(s: seq<Appointment>, id: string): (r: Option<Appointment>)
    ensures r.None? <==> forall i :: 0 <= i < |s| ==> s[i].id != id
    ensures r.Some? ==> r.value in s && r.value.id == id
  {
    if s == [] then None
    else if s[0].id == id then Some(s[0])
    else Lookup(s[1..], id)
  }

  /** The collection after `findByIdAndDelete(id)`: the document found, if
      any, is removed and nothing else. */
  function Without(s: seq<Appointment>, id: string): (r: seq<Appointment>)
    ensures Lookup(s, id).None? ==> r == s
    ensures Lookup(s, id).Some? ==>
      |r| == |s| - 1 && multiset(r) + multiset{Lookup(s, id).value} == multiset(s)
    ensures forall x :: x in r ==> x in s
  {
    if s == [] then []
    else if s[0].id == id then
      assert s == [s[0]] + s[1..];
      s[1..]
    else
      assert s == [s[0]] + s[1..];
      [s[0]] + Without(s[1..], id)
  }

  /** The records after the first are valid, and none shares its id. */
  lemma TailValid(s: seq<Appointment>)
    requires RecordsValid(s) && s != []
    ensures RecordsValid(s[1..])
    ensures forall x :: x in s[1..] ==> x.id != s[0].id
  {
    var rest := s[1..];
    forall i, j | 0 <= i < j < |rest| ensures rest[i].id != rest[j].id {
      assert rest[i] == s[i + 1] && rest[j] == s[j + 1];
    }
    forall x | x in rest ensures x.id != s[0].id {
      var k :| 0 <= k < |rest| && rest[k] == x;
      assert rest[k] == s[k + 1];
    }
  }

  /** A record whose id is new may be put in front of valid records. */
  lemma ConsValid(x: Appointment, t: seq<Appointment>)
    requires RecordsValid(t) && IsObjectId(x.id)
    requires forall y :: y in t ==> y.id != x.id
    ensures RecordsValid([x] + t)
  {
    var r := [x] + t;
    forall i, j | 0 <= i < j < |r| ensures r[i].id != r[j].id {
      assert r[j] == t[j - 1];
      if i > 0 { assert r[i] == t[i - 1]; }
    }
    forall i | 0 <= i < |r| ensures IsObjectId(r[i].id) {
      if i > 0 { assert r[i] == t[i - 1]; }
    }
  }

  /** With unique ids, a delete leaves no document with that id and keeps
      the collection invariant. */
  lemma {:induction false} WithoutKeepsValid(s: seq<Appointment>, id: string)
    requires RecordsValid(s)
    ensures RecordsValid(Without(s, id))
    ensures Lookup(Without(s, id), id).None?
  {
    if s != [] {
      var rest := s[1..];
      TailValid(s);
      if s[0].id == id {
        assert Without(s, id) == rest;
        forall i | 0 <= i < |rest| ensures rest[i].id != id {
          assert rest[i] in rest;
        }
      } else {
        WithoutKeepsValid(rest, id);
        var tail := Without(rest, id);
        assert Without(s, id) == [s[0]] + tail;
        ConsValid(s[0], tail);
      }
    }
  }

  /** A submission whose creation time is later than every stored one is the
      first entry of any newest-first listing. */
  lemma NewSubmissionListedFirst(s: seq<Appointment>, x: Appointment, listing: seq<Appointment>)
    requires forall i :: 0 <= i < |s| ==> s[i].createdAt < x.createdAt
    requires NewestFirstOrder(listing) && multiset(listing) == multiset(s + [x])
    ensures |listing| > 0 && listing[0] == x
  {
    assert x in multiset(listing);
    var k :| 0 <= k < |listing| && listing[k] == x;
    var first := listing[0];
    assert first in multiset(s + [x]);
    assert first.createdAt >= x.createdAt;
    assert first != x ==> first in s;
  }

  /** A submission that sets its own `createdAt` earlier than some stored
      booking is not the first entry of a newest-first listing. */
  lemma BackdatedSubmissionNotFirst(s: seq<Appointment>, x: Appointment, listing: seq<Appointment>)
    requires exists i :: 0 <= i < |s| && s[i].createdAt > x.createdAt
    requires NewestFirstOrder(listing) && multiset(listing) == multiset(s + [x])
    ensures |listing| > 0 && listing[0] != x
  {
    var i :| 0 <= i < |s| && s[i].createdAt > x.createdAt;
    assert s[i] in multiset(s + [x]);
    assert s[i] in multiset(listing);
    var k :| 0 <= k < |listing| && listing[k] == s[i];
    assert listing[0].createdAt >= listing[k].createdAt;
  }

  // ---------------------------------------------------------------------
  // Handlers

  datatype CreateReply =
    | Saved                // "Appointment saved!"
    | SaveFailed           // 500: the save threw

  datatype ListReply =
    | ListRefused(gate: GateResult)     // 403 from verifyToken
    | Listed(all: seq<Appointment>)

  datatype DeleteReply =
    | DeleteRefused(gate: GateResult)   // 403 from verifyToken
    | Deleted(data: Option<Appointment>) // "Deleted", with the document or null
    | DeleteFailed                      // 500: the id could not be cast

  /** The appointment API over the appointment collection. */
  class AppointmentApi {
    var records: seq<Appointment>

    ghost predicate Valid()
      reads this
    {
      RecordsValid(records)
    }

    constructor ()
      ensures Valid() && records == []
    {
      records := [];
    }

    /** POST /api/appointments (server.js, lines 84-92): the whole body goes
        into the document, so an `_id` or `createdAt` it carries is kept.
        The id is the body's (it must cast and be new) or the generated
        one; both timestamps are the body's `createdAt` or else now. There
        is no check for an identical booking. */
    method Create(booking: Booking, bodyId: Option<string>, generatedId: string,
                  bodyCreatedAt: Option<int>, now: int) returns (reply: CreateReply)
      requires Valid()
      requires IsObjectId(generatedId)
      modifies this
      ensures Valid()
      ensures reply == Saved <==>
        var id := NewDocumentId(bodyId, generatedId);
        id.Some? && Lookup(old(records), id.value).None?
      ensures reply == Saved ==>
        var stamp := CreationTime(bodyCreatedAt, now);
        records == old(records) + [Appointment(NewDocumentId(bodyId, generatedId).value, booking, stamp, stamp)]
      ensures reply == SaveFailed ==> records == old(records)
    {
      var id := generatedId;
      if bodyId.Some? {
        var cast := CastObjectId(bodyId.value);
        if cast.None? {
          return SaveFailed;
        }
        id := cast.value;
      }
      if Lookup(records, id).Some? {
        return SaveFailed;
      }
      var createdAt := now;
      if bodyCreatedAt.Some? {
        createdAt := bodyCreatedAt.value;
      }
      var appointment := Appointment(id, booking, createdAt, createdAt);
      records := records + [appointment];
      reply := Saved;
    }

    /** GET /api/admin/appointments (server.js, lines 195-202): every document, newest
        first, once the gate admits the request. */
    method List(header: Option<string>, jwtVerify: string -> Option<Claims>) returns (reply: ListReply)
      requires Valid()
      ensures reply.Listed? <==> VerifyToken(header, jwtVerify).Admitted?
      ensures reply.ListRefused? ==> reply.gate == VerifyToken(header, jwtVerify)
      ensures reply.Listed? ==>
        NewestFirstOrder(reply.all) && multiset(reply.all) == multiset(records)
    {
      var gate := VerifyToken(header, jwtVerify);
      if !gate.Admitted? {
        return ListRefused(gate);
      }
      var all := NewestFirst(records);
      reply := Listed(all);
    }

    /** DELETE /api/admin/appointments/:id (server.js, lines 207-214): once admitted
        and the id cast, the document with that id is removed if there is
        one; success is reported either way, with the document or null. */
    method Delete(header: Option<string>, jwtVerify: string -> Option<Claims>, idText: string)
      returns (reply: DeleteReply)
      requires Valid()
      modifies this
      ensures Valid()
      ensures !VerifyToken(header, jwtVerify).Admitted? ==>
        reply == DeleteRefused(VerifyToken(header, jwtVerify)) && records == old(records)
      ensures VerifyToken(header, jwtVerify).Admitted? && CastObjectId(idText).None? ==>
        reply == DeleteFailed && records == old(records)
      ensures VerifyToken(header, jwtVerify).Admitted? && CastObjectId(idText).Some? ==>
        var id := CastObjectId(idText).value;
        reply == Deleted(Lookup(old(records), id)) && records == Without(old(records), id)
    {
      var gate := VerifyToken(header, jwtVerify);
      if !gate.Admitted? {
        return DeleteRefused(gate);
      }
      var id := CastObjectId(idText);
      if id.None? {
        return DeleteFailed;
      }
      var deleted := Lookup(records, id.value);
      WithoutKeepsValid(records, id.value);
      records := Without(records, id.value);
      reply := Deleted(deleted);
    }
  }
}
