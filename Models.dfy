/**
 * The Event and Guest tables of models.py: status enum, column defaults,
 * Guest.update_status, Guest.get_responses and Event.get_rsvp_stats.
 * Timestamps are integer seconds; JSON columns hold their decoded value.
 */
module Models {
  import opened Wrappers

  type Timestamp = int

  const SecondsPerDay: int := 86400

  /** The Enum('pending', 'confirmed', 'declined') column of Guests. */
  datatype Status = Pending | Confirmed | Declined

  /** The literal the enum column stores for a status. */
  function StatusName(s: Status): string {
    match s
    case Pending => "pending"
    case Confirmed => "confirmed"
    case Declined => "declined"
  }

  /** Reads a literal as a status; None for any string the enum column refuses. */
  function ParseStatus(name: string): (r: Option<Status>)
    ensures r.Some? ==> StatusName(r.value) == name
    ensures r.None? ==> forall s: Status :: StatusName(s) != name
  {
    if name == "pending" then Some(Pending)
    else if name == "confirmed" then Some(Confirmed)
    else if name == "declined" then Some(Declined)
    else None
  }

  lemma ParseStatusName(s: Status)
    ensures ParseStatus(StatusName(s)) == Some(s)
  {
  }

  /**
   * A decoded `responses` JSON object: its entries in the order the JSON text
   * lists them (the order a Python dict iterates), values as str() renders them.
   */
  type Responses = seq<(string, string)>

  /** One row of Events; the core never updates an event. */
  datatype Event = Event(id: int, title: string, organizerId: int, date: Timestamp)

  /** Event ids are the primary key of Events. */
  predicate DistinctIds(es: seq<Event>) {
    forall a, b :: 0 <= a < b < |es| ==> es[a].id != es[b].id
  }

  function Ids(es: seq<Event>): set<int> {
    set e | e in es :: e.id
  }

  /** Event.query.get(id) and get_or_404(id): the event with that primary key, if any. */
  function FindEvent(events: seq<Event>, id: int): (r: Option<Event>)
    ensures r.Some? ==> r.value in events && r.value.id == id
    ensures r.None? ==> forall e :: e in events ==> e.id != id
  {
    if events == [] then None
    else if events[0].id == id then Some(events[0])
    else FindEvent(events[1..], id)
  }

  /** The value of one row of Guests. `responses` is None while the column is NULL. */
  datatype GuestRow = GuestRow(
    id: int,
    eventId: int,
    name: string,
    email: string,
    phone: Option<string>,
    status: Status,
    responses: Option<Responses>,
    plusOneCount: int,
    uniqueAccessToken: string,
    lastReminderSent: Option<Timestamp>,
    createdAt: Timestamp,
    updatedAt: Timestamp)
  {
    /** Guest.get_responses: the stored mapping, or the empty mapping when nothing is stored. */
    function GetResponses(): Responses {
      match responses
      case None => []
      case Some(m) => m
    }
  }

  /** The row after update_status(status, plus_one_count, responses) at time `now`. */
  function UpdatedRow(g: GuestRow, status: Status, plusOneCount: Option<int>,
                      responses: Option<Responses>, now: Timestamp): GuestRow
  {
    var withCount := if plusOneCount.Some? then g.(plusOneCount := plusOneCount.value) else g;
    var withResponses := if responses.Some? && responses.value != [] then withCount.(responses := responses) else withCount;
    withResponses.(status := status, updatedAt := now)
  }

  /** A Guest row as the ORM holds it: every column the core may write is a field. */
  class Guest {
    const id: int
    const eventId: int
    var name: string
    var email: string
    var phone: Option<string>
    var status: Status
    var responses: Option<Responses>
    var plusOneCount: int
    const uniqueAccessToken: string
    var lastReminderSent: Option<Timestamp>
    const createdAt: Timestamp
    var updatedAt: Timestamp

    /** The current value of the row. */
    function Row(): GuestRow
      reads this
    {
      GuestRow(id, eventId, name, email, phone, status, responses, plusOneCount,
               uniqueAccessToken, lastReminderSent, createdAt, updatedAt)
    }

    /**
     * Guest(eventId=…, name=…, email=…, phone=…, uniqueAccessToken=…): the
     * columns not given take their defaults; `now` is the server timestamp.
     */
    constructor (id: int, eventId: int, name: string, email: string, phone: Option<string>,
                 token: string, now: Timestamp)
      ensures Row() == GuestRow(id, eventId, name, email, phone, Pending, None, 0, token, None, now, now)
    {
      this.id := id;
      this.eventId := eventId;
      this.name := name;
      this.email := email;
      this.phone := phone;
      this.status := Pending;
      this.responses := None;
      this.plusOneCount := 0;
      this.uniqueAccessToken := token;
      this.lastReminderSent := None;
      this.createdAt := now;
      this.updatedAt := now;
    }

    /** Guest.update_status; `None` stands for Python's None argument. */
    method UpdateStatus(status: Status, plusOneCount: Option<int>, responses: Option<Responses>, now: Timestamp)
      modifies this
      ensures Row() == UpdatedRow(old(Row()), status, plusOneCount, responses, now)
    {
      this.status := status;
      if plusOneCount.Some? {
        this.plusOneCount := plusOneCount.value;
      }
      if responses.Some? && responses.value != [] {
        this.responses := responses;
      }
      this.updatedAt := now;
    }
  }

  /** The rows of a list of guests, in list order. */
  function Rows(gs: seq<Guest>): (r: seq<GuestRow>)
    reads gs
    ensures |r| == |gs|
    ensures forall i :: 0 <= i < |gs| ==> r[i] == gs[i].Row()
  {
    if gs == [] then [] else [gs[0].Row()] + Rows(gs[1..])
  }

  /**
   * Event.guests: the table positions of the rows whose eventId is the event's,
   * in table order (the relationship selects Guests by foreign key).
   */
  function EventGuests(rows: seq<GuestRow>, eventId: int): (idx: seq<nat>)
    ensures forall j :: 0 <= j < |idx| ==> idx[j] < |rows| && rows[idx[j]].eventId == eventId
    ensures forall k :: 0 <= k < |rows| && rows[k].eventId == eventId ==> k in idx
    ensures forall a, b :: 0 <= a < b < |idx| ==> idx[a] < idx[b]
  {
    if rows == [] then []
    else
      var n := |rows| - 1;
      EventGuests(rows[..n], eventId) + (if rows[n].eventId == eventId then [n] else [])
  }

  /** Guest.query.filter_by(eventId=…): the rows of one event, in table order. */
  function GuestsOf(rows: seq<GuestRow>, eventId: int): (gs: seq<GuestRow>)
    ensures |gs| <= |rows|
  {
    if rows == [] then []
    else
      var n := |rows| - 1;
      GuestsOf(rows[..n], eventId) + (if rows[n].eventId == eventId then [rows[n]] else [])
  }

  /** GuestsOf holds exactly the event's rows. */
  lemma {:induction false} GuestsOfMembers(rows: seq<GuestRow>, eventId: int)
    ensures forall g :: g in GuestsOf(rows, eventId) <==> g in rows && g.eventId == eventId
  {
    if rows != [] {
      var n := |rows| - 1;
      GuestsOfMembers(rows[..n], eventId);
      assert rows == rows[..n] + [rows[n]];
    }
  }

  /** The two views of the relationship agree: the rows at Event.guests' positions are GuestsOf. */
  lemma {:induction false} EventGuestsSelectsGuestsOf(rows: seq<GuestRow>, eventId: int)
    ensures |EventGuests(rows, eventId)| == |GuestsOf(rows, eventId)|
    ensures forall j :: 0 <= j < |GuestsOf(rows, eventId)| ==>
              GuestsOf(rows, eventId)[j] == rows[EventGuests(rows, eventId)[j]]
  {
    if rows != [] {
      var n := |rows| - 1;
      var front := rows[..n];
      EventGuestsSelectsGuestsOf(front, eventId);
      var idx, gs := EventGuests(front, eventId), GuestsOf(front, eventId);
      forall j | 0 <= j < |gs|
        ensures gs[j] == rows[idx[j]]
      {
        assert idx[j] < n;
        assert front[idx[j]] == rows[idx[j]];
      }
    }
  }

  // ---- update_status ----

  lemma UpdateSetsStatusAndStamp(g: GuestRow, status: Status, plusOneCount: Option<int>,
                                 responses: Option<Responses>, now: Timestamp)
    ensures UpdatedRow(g, status, plusOneCount, responses, now).status == status
    ensures UpdatedRow(g, status, plusOneCount, responses, now).updatedAt == now
  {
  }

  /** The plus-one count is replaced exactly when an argument is given, 0 included. */
  lemma UpdatePlusOneCount(g: GuestRow, status: Status, plusOneCount: Option<int>,
                           responses: Option<Responses>, now: Timestamp)
    ensures plusOneCount.Some? ==> UpdatedRow(g, status, plusOneCount, responses, now).plusOneCount == plusOneCount.value
    ensures plusOneCount.None? ==> UpdatedRow(g, status, plusOneCount, responses, now).plusOneCount == g.plusOneCount
    ensures UpdatedRow(g, status, Some(0), responses, now).plusOneCount == 0
  {
  }

  /** Responses are replaced only by a non-empty mapping; None and {} keep the old ones. */
  lemma UpdateResponses(g: GuestRow, status: Status, plusOneCount: Option<int>,
                        responses: Option<Responses>, now: Timestamp)
    ensures (responses.Some? && responses.value != []) ==>
              UpdatedRow(g, status, plusOneCount, responses, now).GetResponses() == responses.value
    ensures (responses.None? || responses == Some([])) ==>
              UpdatedRow(g, status, plusOneCount, responses, now).responses == g.responses
  {
  }

  /** update_status touches status, plusOneCount, responses and updatedAt and nothing else. */
  lemma UpdateKeepsOtherColumns(g: GuestRow, status: Status, plusOneCount: Option<int>,
                                responses: Option<Responses>, now: Timestamp)
    ensures var r := UpdatedRow(g, status, plusOneCount, responses, now);
            r.id == g.id && r.eventId == g.eventId && r.name == g.name && r.email == g.email &&
            r.phone == g.phone && r.uniqueAccessToken == g.uniqueAccessToken &&
            r.lastReminderSent == g.lastReminderSent && r.createdAt == g.createdAt
  {
  }

  /** get_responses yields {} while nothing is stored. */
  lemma GetResponsesDefault(g: GuestRow)
    ensures g.responses.None? ==> g.GetResponses() == []
  {
  }

  /** Two identical submissions leave the row as one does, apart from the second stamp. */
  lemma UpdateIdempotent(g: GuestRow, status: Status, plusOneCount: Option<int>,
                         responses: Option<Responses>, t1: Timestamp, t2: Timestamp)
    ensures UpdatedRow(UpdatedRow(g, status, plusOneCount, responses, t1), status, plusOneCount, responses, t2)
         == UpdatedRow(g, status, plusOneCount, responses, t2)
  {
  }

  // ---- Event.get_rsvp_stats ----

  datatype RsvpStats = RsvpStats(confirmed: nat, declined: nat, pending: nat, totalAttending: int)

  /** Number of guests with the given status. */
  function CountStatus(gs: seq<GuestRow>, s: Status): (n: nat)
    ensures n <= |gs|
  {
    if gs == [] then 0 else (if gs[0].status == s then 1 else 0) + CountStatus(gs[1..], s)
  }

  /** Sum of plusOneCount over the confirmed guests only. */
  function ConfirmedPlusOnes(gs: seq<GuestRow>): int {
    if gs == [] then 0 else (if gs[0].status == Confirmed then gs[0].plusOneCount else 0) + ConfirmedPlusOnes(gs[1..])
  }

  /** Event.get_rsvp_stats over the event's guests. */
  function GetRsvpStats(gs: seq<GuestRow>): RsvpStats {
    var confirmed := CountStatus(gs, Confirmed);
    RsvpStats(confirmed, CountStatus(gs, Declined), CountStatus(gs, Pending), confirmed + ConfirmedPlusOnes(gs))
  }

  /** The three tallies partition the guests, since the status enum has three values. */
  lemma {:induction false} RsvpStatsPartition(gs: seq<GuestRow>)
    ensures var st := GetRsvpStats(gs); st.confirmed + st.declined + st.pending == |gs|
  {
    if gs != [] {
      RsvpStatsPartition(gs[1..]);
    }
  }

  /** What one guest contributes to the head count: itself and its plus-ones, if confirmed. */
  function Attending(g: GuestRow): int {
    if g.status == Confirmed then 1 + g.plusOneCount else 0
  }

  function SumAttending(gs: seq<GuestRow>): int {
    if gs == [] then 0 else Attending(gs[0]) + SumAttending(gs[1..])
  }

  /** total_attending is the per-guest head count summed: only confirmed guests count. */
  lemma {:induction false} TotalAttendingIsHeadCount(gs: seq<GuestRow>)
    ensures GetRsvpStats(gs).totalAttending == SumAttending(gs)
  {
    if gs != [] {
      TotalAttendingIsHeadCount(gs[1..]);
    }
  }

  /** A guest who is not confirmed may keep any plus-one count without changing total_attending. */
  lemma {:induction false} UnconfirmedPlusOnesIgnored(gs: seq<GuestRow>, i: nat, n: int)
    requires i < |gs| && gs[i].status != Confirmed
    ensures GetRsvpStats(gs[i := gs[i].(plusOneCount := n)]) == GetRsvpStats(gs)
  {
    if i > 0 {
      UnconfirmedPlusOnesIgnored(gs[1..], i - 1, n);
      assert gs[i := gs[i].(plusOneCount := n)][1..] == gs[1..][i - 1 := gs[i].(plusOneCount := n)];
    } else {
      assert gs[i := gs[i].(plusOneCount := n)][1..] == gs[1..];
    }
  }
}
