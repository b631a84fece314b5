/**
 * routes.py: the handler-level rules. HTTP plumbing is reduced to an outcome
 * (Ok, Forbidden for 403 or the unauthorised redirect, NotFound for 404,
 * ServerError for a 500 raised by a failing request); the Guests table is a
 * sequence of rows for the pure rules and of Guest objects where a handler
 * writes or reads the ORM objects.
 */
module Routes {
  import opened Wrappers
  import opened Models
  import Reminders

  datatype Outcome = Ok | Forbidden | NotFound | ServerError

  // ---- the ownership and membership guards ----

  /** The event a handler may act on, or the response it returns instead. */
  datatype Access = Granted(event: Event) | Denied(outcome: Outcome)

  /** Event.query.get_or_404(event_id), then `event.organizerId != current_user.id`. */
  function EventAccess(events: seq<Event>, eventId: int, userId: int): (a: Access)
    ensures a.Granted? ==> a.event in events && a.event.id == eventId && a.event.organizerId == userId
    ensures a.Denied? ==> a.outcome == NotFound || a.outcome == Forbidden
    ensures a == Denied(NotFound) <==> forall e :: e in events ==> e.id != eventId
    ensures a == Denied(Forbidden) ==> exists e :: e in events && e.id == eventId && e.organizerId != userId
  {
    match FindEvent(events, eventId)
    case None => Denied(NotFound)
    case Some(e) => if e.organizerId != userId then Denied(Forbidden) else Granted(e)
  }

  /** With event ids unique, access is granted exactly to the organizer of an existing event. */
  lemma OwnerAccessIff(events: seq<Event>, eventId: int, userId: int)
    requires DistinctIds(events)
    ensures EventAccess(events, eventId, userId).Granted? <==>
            exists e :: e in events && e.id == eventId && e.organizerId == userId
  {
    if exists e :: e in events && e.id == eventId && e.organizerId == userId {
      var e :| e in events && e.id == eventId && e.organizerId == userId;
      var f := FindEvent(events, eventId).value;
      var p :| 0 <= p < |events| && events[p] == e;
      var q :| 0 <= q < |events| && events[q] == f;
      SameIdSameEvent(events, p, q);
    }
  }

  lemma SameIdSameEvent(events: seq<Event>, p: nat, q: nat)
    requires DistinctIds(events) && p < |events| && q < |events| && events[p].id == events[q].id
    ensures p == q
  {
  }

  /** The first row satisfying p: .first() over a filter, or get() on a primary key. */
  function FirstWhere(rows: seq<GuestRow>, p: GuestRow -> bool): (r: Option<nat>)
    ensures r.Some? ==> r.value < |rows| && p(rows[r.value]) && forall k :: 0 <= k < r.value ==> !p(rows[k])
    ensures r.None? ==> forall k :: 0 <= k < |rows| ==> !p(rows[k])
  {
    if rows == [] then None
    else if p(rows[0]) then Some(0)
    else match FirstWhere(rows[1..], p)
         case None => None
         case Some(k) => Some(k + 1)
  }

  predicate HasId(guestId: int, g: GuestRow) {
    g.id == guestId
  }

  /** Guest.query.get_or_404(guest_id), then `guest.eventId != event_id` (404 as well). */
  function GuestInEvent(rows: seq<GuestRow>, guestId: int, eventId: int): (r: Option<nat>)
    ensures r.Some? ==> r.value < |rows| && rows[r.value].id == guestId && rows[r.value].eventId == eventId
  {
    match FirstWhere(rows, g => HasId(guestId, g))
    case None => None
    case Some(k) => if rows[k].eventId != eventId then None else Some(k)
  }

  /** Guest ids are the primary key of Guests. */
  predicate DistinctGuestIds(rows: seq<GuestRow>) {
    forall a, b :: 0 <= a < b < |rows| ==> rows[a].id != rows[b].id
  }

  /** With guest ids unique, the guard finds the guest exactly when it belongs to the event. */
  lemma GuestInEventIff(rows: seq<GuestRow>, guestId: int, eventId: int)
    requires DistinctGuestIds(rows)
    ensures GuestInEvent(rows, guestId, eventId).Some? <==>
            exists k :: 0 <= k < |rows| && rows[k].id == guestId && rows[k].eventId == eventId
  {
    if exists k :: 0 <= k < |rows| && rows[k].id == guestId && rows[k].eventId == eventId {
      var k :| 0 <= k < |rows| && rows[k].id == guestId && rows[k].eventId == eventId;
      var f := FirstWhere(rows, g => HasId(guestId, g));
      assert (g => HasId(guestId, g))(rows[k]);
      SameIdSameGuest(rows, f.value, k);
    }
  }

  lemma SameIdSameGuest(rows: seq<GuestRow>, p: nat, q: nat)
    requires DistinctGuestIds(rows) && p < |rows| && q < |rows| && rows[p].id == rows[q].id
    ensures p == q
  {
  }

  // ---- delete_guest ----

  /** delete_guest(event_id, guest_id): the outcome and the Guests table after the request. */
  function DeleteGuest(events: seq<Event>, rows: seq<GuestRow>, userId: int, eventId: int, guestId: int)
    : (r: (Outcome, seq<GuestRow>))
    ensures r.0 != Ok ==> r.1 == rows
    ensures r.0 == Ok ==>
              && EventAccess(events, eventId, userId).Granted?
              && exists k :: 0 <= k < |rows| && rows[k].id == guestId && rows[k].eventId == eventId &&
                             r.1 == rows[..k] + rows[k + 1..]
    ensures EventAccess(events, eventId, userId).Denied? ==> r.0 == EventAccess(events, eventId, userId).outcome
  {
    match EventAccess(events, eventId, userId)
    case Denied(o) => (o, rows)
    case Granted(_) =>
      match GuestInEvent(rows, guestId, eventId)
      case None => (NotFound, rows)
      case Some(k) => (Ok, rows[..k] + rows[k + 1..])
  }

  /** An owner's request for a guest of that very event succeeds and removes exactly that row. */
  lemma DeleteOwnGuest(events: seq<Event>, rows: seq<GuestRow>, userId: int, eventId: int, guestId: int, k: nat)
    requires DistinctGuestIds(rows)
    requires EventAccess(events, eventId, userId).Granted?
    requires k < |rows| && rows[k].id == guestId && rows[k].eventId == eventId
    ensures DeleteGuest(events, rows, userId, eventId, guestId) == (Ok, rows[..k] + rows[k + 1..])
  {
    GuestInEventIff(rows, guestId, eventId);
    SameIdSameGuest(rows, GuestInEvent(rows, guestId, eventId).value, k);
  }

  /** An owner's request for a missing guest id, or for a guest of another event, is a 404 and deletes nothing. */
  lemma DeleteForeignGuest(events: seq<Event>, rows: seq<GuestRow>, userId: int, eventId: int, guestId: int)
    requires EventAccess(events, eventId, userId).Granted?
    requires forall k :: 0 <= k < |rows| && rows[k].id == guestId ==> rows[k].eventId != eventId
    ensures DeleteGuest(events, rows, userId, eventId, guestId) == (NotFound, rows)
  {
  }

  lemma {:induction false} GuestsOfConcat(a: seq<GuestRow>, b: seq<GuestRow>, eventId: int)
    ensures GuestsOf(a + b, eventId) == GuestsOf(a, eventId) + GuestsOf(b, eventId)
    decreases |b|
  {
    if b == [] {
      assert a + b == a;
    } else {
      var n := |b| - 1;
      var ab := a + b;
      var tail := if b[n].eventId == eventId then [b[n]] else [];
      calc {
        GuestsOf(ab, eventId);
        == { assert ab[..|ab| - 1] == a + b[..n]; assert ab[|ab| - 1] == b[n]; }
        GuestsOf(a + b[..n], eventId) + tail;
        == { GuestsOfConcat(a, b[..n], eventId); }
        GuestsOf(a, eventId) + GuestsOf(b[..n], eventId) + tail;
        == { assert GuestsOf(b, eventId) == GuestsOf(b[..n], eventId) + tail; }
        GuestsOf(a, eventId) + GuestsOf(b, eventId);
      }
    }
  }

  /** Removing a row of another event leaves an event's guests as they were. */
  lemma GuestsOfRemoveOther(rows: seq<GuestRow>, k: nat, e: int)
    requires k < |rows| && rows[k].eventId != e
    ensures GuestsOf(rows[..k] + rows[k + 1..], e) == GuestsOf(rows, e)
  {
    GuestsOfSplitAt(rows, k, e);
    GuestsOfConcat(rows[..k], rows[k + 1..], e);
    assert GuestsOf(rows[..k], e) + [] == GuestsOf(rows[..k], e);
  }

  /** Removing one of an event's rows removes exactly one of its guests. */
  lemma GuestsOfRemoveOwn(rows: seq<GuestRow>, k: nat)
    requires k < |rows|
    ensures |GuestsOf(rows[..k] + rows[k + 1..], rows[k].eventId)| + 1 == |GuestsOf(rows, rows[k].eventId)|
  {
    GuestsOfSplitAt(rows, k, rows[k].eventId);
    GuestsOfConcat(rows[..k], rows[k + 1..], rows[k].eventId);
  }

  lemma GuestsOfSplitAt(rows: seq<GuestRow>, k: nat, e: int)
    requires k < |rows|
    ensures GuestsOf(rows, e) == GuestsOf(rows[..k], e) + (if rows[k].eventId == e then [rows[k]] else []) + GuestsOf(rows[k + 1..], e)
  {
    var x, front, back := rows[k], rows[..k], rows[k + 1..];
    calc {
      GuestsOf(rows, e);
      == { assert rows == (front + [x]) + back; }
      GuestsOf((front + [x]) + back, e);
      == { GuestsOfConcat(front + [x], back, e); }
      GuestsOf(front + [x], e) + GuestsOf(back, e);
      == { GuestsOfConcat(front, [x], e); GuestsOfSingle(x, e); }
      GuestsOf(front, e) + (if x.eventId == e then [x] else []) + GuestsOf(back, e);
    }
  }

  lemma GuestsOfSingle(x: GuestRow, e: int)
    ensures GuestsOf([x], e) == if x.eventId == e then [x] else []
  {
    assert [x][..0] == [];
  }

  /**
   * Deleting a guest never touches another event's guest list, and the event's
   * own list loses exactly that guest.
   */
  lemma DeleteKeepsOtherEvents(events: seq<Event>, rows: seq<GuestRow>, userId: int, eventId: int, guestId: int)
    ensures var r := DeleteGuest(events, rows, userId, eventId, guestId);
            && (forall other :: other != eventId ==> GuestsOf(r.1, other) == GuestsOf(rows, other))
            && (r.0 == Ok ==> |GuestsOf(r.1, eventId)| + 1 == |GuestsOf(rows, eventId)|)
  {
    var r := DeleteGuest(events, rows, userId, eventId, guestId);
    if r.0 == Ok {
      var k :| 0 <= k < |rows| && rows[k].id == guestId && rows[k].eventId == eventId && r.1 == rows[..k] + rows[k + 1..];
      forall other | other != eventId
        ensures GuestsOf(r.1, other) == GuestsOf(rows, other)
      {
        GuestsOfRemoveOther(rows, k, other);
      }
      GuestsOfRemoveOwn(rows, k);
    }
  }

  // ---- rsvp_page POST ----

  /** A key of the request's JSON body: missing, JSON null, or given. */
  datatype Field<T> = Absent | Null | Given(value: T)

  /** The RSVP form body; `status` is None when the key is missing. */
  datatype RsvpBody = RsvpBody(status: Option<string>, plusOneCount: Field<int>, responses: Field<Responses>)

  /** data.get('plus_one_count', 0) as update_status receives it. */
  function PlusOneArg(f: Field<int>): (r: Option<int>)
    ensures r.None? <==> f.Null?
    ensures f.Absent? ==> r == Some(0)
    ensures f.Given? ==> r == Some(f.value)
  {
    match f
    case Absent => Some(0)
    case Null => None
    case Given(n) => Some(n)
  }

  /** data.get('responses', {}) as update_status receives it. */
  function ResponsesArg(f: Field<Responses>): (r: Option<Responses>)
    ensures r.None? <==> f.Null?
    ensures f.Absent? ==> r == Some([])
    ensures f.Given? ==> r == Some(f.value)
  {
    match f
    case Absent => Some([])
    case Null => None
    case Given(m) => Some(m)
  }

  predicate HasToken(token: string, g: GuestRow) {
    g.uniqueAccessToken == token
  }

  /** rsvp_page(token) POST: the outcome and the Guests table after the request. */
  function Rsvp(rows: seq<GuestRow>, token: string, body: RsvpBody, now: Timestamp): (r: (Outcome, seq<GuestRow>))
    ensures |r.1| == |rows|
    ensures r.0 != Ok ==> r.1 == rows
    ensures r.0 == NotFound <==> forall g :: g in rows ==> g.uniqueAccessToken != token
  {
    match FirstWhere(rows, g => HasToken(token, g))
    case None =>
      assert forall g :: g in rows ==> g.uniqueAccessToken != token by {
        forall g | g in rows
          ensures g.uniqueAccessToken != token
        {
          var k :| 0 <= k < |rows| && rows[k] == g;
          assert !(g => HasToken(token, g))(rows[k]);
        }
      }
      (NotFound, rows)
    case Some(k) =>
      if body.status.None? then (ServerError, rows)
      else match ParseStatus(body.status.value)
           case None => (ServerError, rows)
           case Some(s) => (Ok, rows[k := UpdatedRow(rows[k], s, PlusOneArg(body.plusOneCount), ResponsesArg(body.responses), now)])
  }

  /** Access tokens are unique (the column's unique constraint). */
  predicate DistinctTokens(rows: seq<GuestRow>) {
    forall a, b :: 0 <= a < b < |rows| ==> rows[a].uniqueAccessToken != rows[b].uniqueAccessToken
  }

  lemma TokenFindsGuest(rows: seq<GuestRow>, k: nat)
    requires DistinctTokens(rows) && k < |rows|
    ensures FirstWhere(rows, g => HasToken(rows[k].uniqueAccessToken, g)) == Some(k)
  {
    var f := FirstWhere(rows, g => HasToken(rows[k].uniqueAccessToken, g));
    assert (g => HasToken(rows[k].uniqueAccessToken, g))(rows[k]);
    if f.value < k {
      assert rows[f.value].uniqueAccessToken != rows[k].uniqueAccessToken;
    }
  }

  /**
   * An RSVP through guest k's link with a valid status answers for guest k and
   * no one else: its status is set and stamped; an omitted plus_one_count
   * resets the count to 0 while an explicit null keeps it; omitted, null or
   * empty responses keep the stored ones, a non-empty mapping replaces them;
   * the other columns are unchanged.
   */
  lemma RsvpAnswersForTokenGuest(rows: seq<GuestRow>, k: nat, body: RsvpBody, s: Status, now: Timestamp)
    requires DistinctTokens(rows) && k < |rows|
    requires body.status == Some(StatusName(s))
    ensures var r := Rsvp(rows, rows[k].uniqueAccessToken, body, now);
            var g, h := rows[k], r.1[k];
            && r.0 == Ok
            && (forall j :: 0 <= j < |rows| && j != k ==> r.1[j] == rows[j])
            && h.status == s && h.updatedAt == now
            && (body.plusOneCount.Absent? ==> h.plusOneCount == 0)
            && (body.plusOneCount.Null? ==> h.plusOneCount == g.plusOneCount)
            && (body.plusOneCount.Given? ==> h.plusOneCount == body.plusOneCount.value)
            && (body.responses.Given? && body.responses.value != [] ==> h.GetResponses() == body.responses.value)
            && (!(body.responses.Given? && body.responses.value != []) ==> h.responses == g.responses)
            && h.(status := g.status, plusOneCount := g.plusOneCount, responses := g.responses, updatedAt := g.updatedAt) == g
  {
    TokenFindsGuest(rows, k);
    ParseStatusName(s);
  }

  /** A missing or unrecognised status fails the request and leaves every guest as it was. */
  lemma RsvpRejectsBadStatus(rows: seq<GuestRow>, token: string, body: RsvpBody, now: Timestamp)
    requires body.status.None? || ParseStatus(body.status.value).None?
    ensures Rsvp(rows, token, body, now).1 == rows
    ensures Rsvp(rows, token, body, now).0 == NotFound || Rsvp(rows, token, body, now).0 == ServerError
  {
  }

  /** Submitting the same answer twice leaves the same row, up to the timestamp. */
  lemma RsvpResubmitIdempotent(rows: seq<GuestRow>, token: string, body: RsvpBody, t1: Timestamp, t2: Timestamp)
    requires DistinctTokens(rows)
    ensures var once := Rsvp(rows, token, body, t1).1;
            Rsvp(once, token, body, t2).1 == Rsvp(rows, token, body, t2).1
  {
    var r1 := Rsvp(rows, token, body, t1);
    if r1.0 == Ok {
      var k := FirstWhere(rows, g => HasToken(token, g)).value;
      TokenFindsGuest(rows, k);
      assert forall j :: 0 <= j < |rows| ==> r1.1[j].uniqueAccessToken == rows[j].uniqueAccessToken;
      TokenFindsGuest(r1.1, k);
      UpdateIdempotent(rows[k], Parsed(body), PlusOneArg(body.plusOneCount), ResponsesArg(body.responses), t1, t2);
    }
  }

  /** The status an accepted body carries. */
  function Parsed(body: RsvpBody): Status
    requires body.status.Some? && ParseStatus(body.status.value).Some?
  {
    ParseStatus(body.status.value).value
  }

  /** rsvp_page(token) POST on the ORM objects: update_status on the token's guest, then commit. */
  method RsvpPage(guests: seq<Guest>, token: string, body: RsvpBody, now: Timestamp) returns (outcome: Outcome)
    requires forall a, b :: 0 <= a < b < |guests| ==> guests[a] != guests[b]
    modifies guests
    ensures (outcome, Rows(guests)) == Rsvp(old(Rows(guests)), token, body, now)
  {
    var rows := Rows(guests);
    var found := FirstWhere(rows, g => HasToken(token, g));
    if found.None? {
      return NotFound;
    }
    var k := found.value;
    if body.status.None? || ParseStatus(body.status.value).None? {
      return ServerError;
    }
    var s := ParseStatus(body.status.value).value;
    guests[k].UpdateStatus(s, PlusOneArg(body.plusOneCount), ResponsesArg(body.responses), now);
    forall j | 0 <= j < |guests| && j != k
      ensures guests[j].Row() == rows[j]
    {
      assert guests[j] != guests[k];
    }
    assert Rows(guests) == rows[k := UpdatedRow(rows[k], s, PlusOneArg(body.plusOneCount), ResponsesArg(body.responses), now)];
    outcome := Ok;
  }

  // ---- send_bulk_reminders ----

  /** [g for g in event.guests if g.status == 'pending']. */
  function PendingOf(gs: seq<GuestRow>): (ps: seq<GuestRow>)
    ensures |ps| <= |gs|
  {
    if gs == [] then [] else (if gs[0].status == Pending then [gs[0]] else []) + PendingOf(gs[1..])
  }

  /** The reminder list holds exactly the pending guests, as many as the pending tally counts. */
  lemma {:induction false} PendingOfMembers(gs: seq<GuestRow>)
    ensures forall g :: g in PendingOf(gs) <==> g in gs && g.status == Pending
    ensures |PendingOf(gs)| == CountStatus(gs, Pending)
  {
    if gs != [] {
      PendingOfMembers(gs[1..]);
      assert gs == [gs[0]] + gs[1..];
    }
  }

  /** The number of guests whose reminder email the mailer accepted. */
  function SentCount(gs: seq<GuestRow>, sendOk: int -> bool): (n: nat)
    ensures n <= |gs|
  {
    if gs == [] then 0
    else
      var m := |gs| - 1;
      SentCount(gs[..m], sendOk) + (if sendOk(gs[m].id) then 1 else 0)
  }

  /** The count counts exactly the accepted sends: all pending guests when the mailer accepts them all. */
  lemma {:induction false} SentCountExact(gs: seq<GuestRow>, sendOk: int -> bool)
    ensures (forall g :: g in gs ==> sendOk(g.id)) ==> SentCount(gs, sendOk) == |gs|
    ensures (forall g :: g in gs ==> !sendOk(g.id)) ==> SentCount(gs, sendOk) == 0
    ensures SentCount(gs, sendOk) == |gs| ==> forall g :: g in gs ==> sendOk(g.id)
  {
    if gs != [] {
      var m := |gs| - 1;
      SentCountExact(gs[..m], sendOk);
      assert forall g :: g in gs[..m] ==> g in gs;
      if SentCount(gs, sendOk) == |gs| {
        assert sendOk(gs[m].id);
        assert SentCount(gs[..m], sendOk) == m;
      }
    }
  }

  /**
   * send_bulk_reminders(event_id): the count of accepted reminder emails to the
   * event's pending guests. email_utils.send_reminder_email does not write the
   * guest, so the method has no modifies clause.
   */
  method SendBulkReminders(events: seq<Event>, guests: seq<Guest>, userId: int, eventId: int, sendOk: int -> bool)
    returns (outcome: Outcome, count: nat)
    ensures EventAccess(events, eventId, userId).Denied? ==> outcome == EventAccess(events, eventId, userId).outcome && count == 0
    ensures EventAccess(events, eventId, userId).Granted? ==>
              outcome == Ok && count == SentCount(PendingOf(GuestsOf(Rows(guests), eventId)), sendOk)
    ensures count <= CountStatus(GuestsOf(Rows(guests), eventId), Pending)
  {
    var access := EventAccess(events, eventId, userId);
    if access.Denied? {
      return access.outcome, 0;
    }
    var gs := GuestsOf(Rows(guests), eventId);
    var pending := PendingOf(gs);
    PendingOfMembers(gs);
    count := CountSent(pending, sendOk);
    outcome := Ok;
  }

  /** The send loop: one mailer call per pending guest, counting the accepted ones. */
  method CountSent(pending: seq<GuestRow>, sendOk: int -> bool) returns (count: nat)
    ensures count == SentCount(pending, sendOk)
  {
    count := 0;
    var i := 0;
    while i < |pending|
      invariant 0 <= i <= |pending|
      invariant count == SentCount(pending[..i], sendOk)
    {
      assert pending[..i + 1][..i] == pending[..i];
      if sendOk(pending[i].id) {
        count := count + 1;
      }
      i := i + 1;
    }
    assert pending[..i] == pending;
  }

  // ---- export_guest_list ----

  /** A CSV cell before csv.writer renders it; the timestamp's strftime format is not modelled. */
  datatype Cell = Text(text: string) | Number(n: int) | Time(t: Timestamp)

  const Header: seq<Cell> := [Text("Name"), Text("Email"), Text("Phone"), Text("Status"),
                              Text("Plus Ones"), Text("Last Updated"), Text("Responses")]

  function Entry(k: string, v: string): string {
    k + ": " + v
  }

  /** ', '.join(f"{k}: {v}" for k, v in responses.items()), and '' when there are none. */
  function ResponseText(m: Responses): (s: string)
    ensures s == [] <==> m == []
    ensures |m| == 1 ==> s == m[0].0 + ": " + m[0].1
  {
    if m == [] then ""
    else if |m| == 1 then Entry(m[0].0, m[0].1)
    else Entry(m[0].0, m[0].1) + ", " + ResponseText(m[1..])
  }

  /** Rendering two groups of answers is rendering each, separated by ", ". */
  lemma {:induction false} ResponseTextConcat(m1: Responses, m2: Responses)
    requires m1 != [] && m2 != []
    ensures ResponseText(m1 + m2) == ResponseText(m1) + ", " + ResponseText(m2)
  {
    if |m1| == 1 {
      assert (m1 + m2)[1..] == m2;
    } else {
      ResponseTextConcat(m1[1..], m2);
      assert (m1 + m2)[1..] == m1[1..] + m2;
    }
  }

  /** One CSV row of the export. */
  function ExportRow(g: GuestRow): (row: seq<Cell>)
    ensures |row| == |Header|
    ensures row[0] == Text(g.name) && row[1] == Text(g.email)
    ensures g.phone.None? ==> row[2] == Text("")
    ensures g.phone.Some? ==> row[2] == Text(g.phone.value)
    ensures row[3] == Text(StatusName(g.status)) && row[4] == Number(g.plusOneCount) && row[5] == Time(g.updatedAt)
    ensures row[6] == Text(ResponseText(g.GetResponses()))
  {
    [Text(g.name), Text(g.email), Text(if g.phone.Some? then g.phone.value else ""),
     Text(StatusName(g.status)), Number(g.plusOneCount), Time(g.updatedAt),
     Text(if g.GetResponses() != [] then ResponseText(g.GetResponses()) else "")]
  }

  /** A guest who never answered with any responses exports an empty Responses cell. */
  lemma ExportNoResponses(g: GuestRow)
    ensures g.responses.None? ==> ExportRow(g)[6] == Text("")
    ensures ExportRow(g)[6] == Text("") <==> g.GetResponses() == []
  {
  }

  /** After an RSVP with a non-empty mapping, the export shows that mapping. */
  lemma ExportAfterRsvp(rows: seq<GuestRow>, k: nat, s: Status, m: Responses, plusOne: Field<int>, now: Timestamp)
    requires DistinctTokens(rows) && k < |rows| && m != []
    ensures var r := Rsvp(rows, rows[k].uniqueAccessToken, RsvpBody(Some(StatusName(s)), plusOne, Given(m)), now);
            ExportRow(r.1[k])[6] == Text(ResponseText(m)) && ExportRow(r.1[k])[3] == Text(StatusName(s))
  {
    RsvpAnswersForTokenGuest(rows, k, RsvpBody(Some(StatusName(s)), plusOne, Given(m)), s, now);
  }

  /**
   * A reminder moves a guest's "Last Updated" cell to the commit time of the
   * stamp and leaves the other six cells as they were.
   */
  lemma ExportAfterReminder(g: GuestRow, clock: Reminders.Clock)
    ensures ExportRow(Reminders.Stamped(g, clock)) == ExportRow(g)[5 := Time(clock.committedAt(g.id))]
  {
  }

  /** export_guest_list(event_id): the header, then one row per guest of event.guests, in order. */
  method ExportGuestList(events: seq<Event>, guests: seq<Guest>, userId: int, eventId: int)
    returns (outcome: Outcome, table: seq<seq<Cell>>)
    ensures EventAccess(events, eventId, userId).Denied? ==> outcome == EventAccess(events, eventId, userId).outcome && table == []
    ensures EventAccess(events, eventId, userId).Granted? ==>
              var gs := GuestsOf(Rows(guests), eventId);
              && outcome == Ok
              && |table| == |gs| + 1 && table[0] == Header
              && forall i :: 0 <= i < |gs| ==> table[i + 1] == ExportRow(gs[i])
  {
    var access := EventAccess(events, eventId, userId);
    if access.Denied? {
      return access.outcome, [];
    }
    var gs := GuestsOf(Rows(guests), eventId);
    var body := ExportRows(gs);
    table := [Header] + body;
    assert forall i :: 0 <= i < |gs| ==> table[i + 1] == body[i];
    outcome := Ok;
  }

  /** The loop of export_guest_list: one writerow per guest, in order. */
  method ExportRows(gs: seq<GuestRow>) returns (body: seq<seq<Cell>>)
    ensures |body| == |gs|
    ensures forall i :: 0 <= i < |gs| ==> body[i] == ExportRow(gs[i])
  {
    body := [];
    var i := 0;
    while i < |gs|
      invariant 0 <= i <= |gs|
      invariant |body| == i
      invariant forall j :: 0 <= j < i ==> body[j] == ExportRow(gs[j])
    {
      body := body + [ExportRow(gs[i])];
      i := i + 1;
    }
  }
}
