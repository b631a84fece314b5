/**
 * The daily reminder job of reminder.py: which events and guests are examined,
 * when a reminder is due, and the stamp it leaves on lastReminderSent and updatedAt.
 * The clock read at the start of a run is the parameter `now`; the clock reads
 * made while a guest is stamped are `clock`, per guest id; `sendOk(id)` says
 * whether stamping guest `id` commits (false stands for an exception raised
 * while sending, which aborts the batch).
 */
module Reminders {
  import opened Wrappers
  import opened Models

  /** Look-ahead of the event query: timedelta(days=7). */
  const WindowDays: int := 7

  /** The hard-coded list [7, 3, 1] of days before the event that trigger a reminder. */
  const Thresholds: seq<int> := [7, 3, 1]

  /** timedelta.days of (later - earlier): the difference floored to whole days. */
  function WholeDays(later: Timestamp, earlier: Timestamp): (d: int)
    ensures d * SecondsPerDay <= later - earlier < (d + 1) * SecondsPerDay
  {
    (later - earlier) / SecondsPerDay
  }

  /** The query filter Event.date > now and Event.date <= now + 7 days. */
  predicate InWindow(e: Event, now: Timestamp) {
    now < e.date <= now + WindowDays * SecondsPerDay
  }

  /** The events the query returns, in the order it returns them. */
  function Upcoming(events: seq<Event>, now: Timestamp): (u: seq<Event>)
    ensures forall e :: e in u <==> e in events && InWindow(e, now)
  {
    if events == [] then []
    else (if InWindow(events[0], now) then [events[0]] else []) + Upcoming(events[1..], now)
  }

  /** The test applied to each guest of an examined event. */
  predicate ReminderDue(g: GuestRow, date: Timestamp, now: Timestamp) {
    && g.status == Pending
    && WholeDays(date, now) in Thresholds
    && (g.lastReminderSent.None? || WholeDays(now, g.lastReminderSent.value) >= 1)
  }

  /**
   * The times taken when guest `id` is reminded: `sentAt(id)` is the utcnow() read
   * of send_reminder_email, `committedAt(id)` the database's current_timestamp at
   * the UPDATE, which the onupdate of updatedAt writes.
   */
  datatype Clock = Clock(sentAt: int -> Timestamp, committedAt: int -> Timestamp)

  /** The row after send_reminder_email has stamped it and the commit has run its onupdate. */
  function Stamped(g: GuestRow, clock: Clock): (r: GuestRow)
    ensures r.lastReminderSent == Some(clock.sentAt(g.id)) && r.updatedAt == clock.committedAt(g.id)
    ensures r.(lastReminderSent := g.lastReminderSent, updatedAt := g.updatedAt) == g
  {
    g.(lastReminderSent := Some(clock.sentAt(g.id)), updatedAt := clock.committedAt(g.id))
  }

  /** State of the guest table during a run, and whether an exception has ended it. */
  datatype Run = Run(rows: seq<GuestRow>, failed: bool)

  /** Two tables whose rows carry the same ids and foreign keys, position by position. */
  ghost predicate SameKeys(a: seq<GuestRow>, b: seq<GuestRow>) {
    |a| == |b| && forall k :: 0 <= k < |a| ==> a[k].id == b[k].id && a[k].eventId == b[k].eventId
  }

  /** The loop body for the guest at table position k of an event dated `date`. */
  function Visit(st: Run, k: nat, date: Timestamp, now: Timestamp, clock: Clock, sendOk: int -> bool): (r: Run)
    requires k < |st.rows|
    ensures |r.rows| == |st.rows| && SameKeys(st.rows, r.rows)
  {
    if st.failed || !ReminderDue(st.rows[k], date, now) then st
    else if sendOk(st.rows[k].id) then Run(st.rows[k := Stamped(st.rows[k], clock)], false)
    else Run(st.rows, true)
  }

  /** The inner loop: the guests of one event, at table positions idx. */
  function PassEvent(st: Run, idx: seq<nat>, date: Timestamp, now: Timestamp, clock: Clock, sendOk: int -> bool): (r: Run)
    requires forall j :: 0 <= j < |idx| ==> idx[j] < |st.rows|
    ensures |r.rows| == |st.rows| && SameKeys(st.rows, r.rows)
    decreases |idx|
  {
    if idx == [] then st
    else PassEvent(Visit(st, idx[0], date, now, clock, sendOk), idx[1..], date, now, clock, sendOk)
  }

  /** The outer loop over the events `es`, each with its guests as loaded when it is reached. */
  function PassEvents(st: Run, es: seq<Event>, now: Timestamp, clock: Clock, sendOk: int -> bool): (r: Run)
    ensures |r.rows| == |st.rows| && SameKeys(st.rows, r.rows)
    decreases |es|
  {
    if es == [] then st
    else
      var next := PassEvent(st, EventGuests(st.rows, es[0].id), es[0].date, now, clock, sendOk);
      PassEvents(next, es[1..], now, clock, sendOk)
  }

  /** check_and_send_reminders as a function of the guest table before the run. */
  function RunReminders(rows: seq<GuestRow>, events: seq<Event>, now: Timestamp, clock: Clock,
                        sendOk: int -> bool): (r: Run)
    ensures |r.rows| == |rows| && SameKeys(rows, r.rows)
  {
    PassEvents(Run(rows, false), Upcoming(events, now), now, clock, sendOk)
  }

  /**
   * send_reminder_email of reminder.py: prints, stamps lastReminderSent with the
   * time `sentAt` and commits; the UPDATE sets updatedAt to `committedAt`.
   * When the commit raises (`committed` false) the session is rolled back, so the
   * stored row is the old one, and `raised` reports the exception.
   */
  method SendReminderEmail(guest: Guest, sentAt: Timestamp, committedAt: Timestamp, committed: bool)
    returns (raised: bool)
    modifies guest`lastReminderSent, guest`updatedAt
    ensures raised == !committed
    ensures guest.lastReminderSent == if committed then Some(sentAt) else old(guest.lastReminderSent)
    ensures guest.updatedAt == if committed then committedAt else old(guest.updatedAt)
  {
    if committed {
      guest.lastReminderSent := Some(sentAt);
      guest.updatedAt := committedAt;
    }
    raised := !committed;
  }

  /**
   * The body of the inner loop of check_and_send_reminders for the guest at table
   * position k of an event dated `date`: the three tests, then the send.
   */
  method RemindGuest(guests: seq<Guest>, k: nat, date: Timestamp, now: Timestamp, clock: Clock,
                     sendOk: int -> bool) returns (raised: bool)
    requires k < |guests|
    requires forall a, b :: 0 <= a < b < |guests| ==> guests[a] != guests[b]
    modifies guests`lastReminderSent, guests`updatedAt
    ensures Run(Rows(guests), raised) == Visit(Run(old(Rows(guests)), false), k, date, now, clock, sendOk)
  {
    var guest := guests[k];
    ghost var before := Rows(guests);
    raised := false;
    if guest.status == Pending {
      var daysUntilEvent := WholeDays(date, now);
      if daysUntilEvent in Thresholds {
        if guest.lastReminderSent.None? || WholeDays(now, guest.lastReminderSent.value) >= 1 {
          raised := SendReminderEmail(guest, clock.sentAt(guest.id), clock.committedAt(guest.id), sendOk(guest.id));
          forall p | 0 <= p < |guests| && p != k
            ensures Rows(guests)[p] == before[p]
          {
            assert guests[p] != guest;
          }
          if !raised {
            assert Rows(guests)[k] == Stamped(before[k], clock);
            assert Rows(guests) == before[k := Stamped(before[k], clock)];
          } else {
            assert Rows(guests) == before;
          }
        }
      }
    }
  }

  /**
   * The inner loop of check_and_send_reminders: `for guest in event.guests`, the
   * guests sitting at table positions idx. `raised` is an exception leaving the loop.
   */
  method RemindEventGuests(guests: seq<Guest>, idx: seq<nat>, date: Timestamp, now: Timestamp, clock: Clock,
                           sendOk: int -> bool) returns (raised: bool)
    requires forall a, b :: 0 <= a < b < |guests| ==> guests[a] != guests[b]
    requires forall k :: 0 <= k < |idx| ==> idx[k] < |guests|
    modifies guests`lastReminderSent, guests`updatedAt
    ensures Run(Rows(guests), raised) == PassEvent(Run(old(Rows(guests)), false), idx, date, now, clock, sendOk)
  {
    ghost var goal := PassEvent(Run(Rows(guests), false), idx, date, now, clock, sendOk);
    raised := false;
    var j := 0;
    while j < |idx|
      invariant 0 <= j <= |idx|
      invariant PassEvent(Run(Rows(guests), false), idx[j..], date, now, clock, sendOk) == goal
    {
      ghost var current := Run(Rows(guests), false);
      PassEventStep(current, idx, j, date, now, clock, sendOk);
      raised := RemindGuest(guests, idx[j], date, now, clock, sendOk);
      if raised {
        FailedPassEvent(Run(Rows(guests), true), idx[j + 1..], date, now, clock, sendOk);
        return;
      }
      j := j + 1;
    }
  }

  /**
   * check_and_send_reminders. The guests are the Guests table (distinct objects);
   * `failed` reports that an exception ended the batch.
   */
  method CheckAndSendReminders(events: seq<Event>, guests: seq<Guest>, now: Timestamp, clock: Clock,
                               sendOk: int -> bool) returns (failed: bool)
    requires forall a, b :: 0 <= a < b < |guests| ==> guests[a] != guests[b]
    modifies guests`lastReminderSent, guests`updatedAt
    ensures Run(Rows(guests), failed) == RunReminders(old(Rows(guests)), events, now, clock, sendOk)
  {
    ghost var goal := RunReminders(Rows(guests), events, now, clock, sendOk);
    var upcomingEvents := Upcoming(events, now);
    failed := false;
    var i := 0;
    while i < |upcomingEvents|
      invariant 0 <= i <= |upcomingEvents|
      invariant PassEvents(Run(Rows(guests), false), upcomingEvents[i..], now, clock, sendOk) == goal
    {
      var event := upcomingEvents[i];
      var eventGuests := EventGuests(Rows(guests), event.id);
      assert upcomingEvents[i..][1..] == upcomingEvents[i + 1..];
      failed := RemindEventGuests(guests, eventGuests, event.date, now, clock, sendOk);
      if failed {
        FailedPassEvents(Run(Rows(guests), true), upcomingEvents[i + 1..], now, clock, sendOk);
        return;
      }
      i := i + 1;
    }
  }

  // ---- lemmas about a run ----

  /** One turn of the inner loop. */
  lemma PassEventStep(st: Run, idx: seq<nat>, j: nat, date: Timestamp, now: Timestamp, clock: Clock,
                      sendOk: int -> bool)
    requires j < |idx|
    requires forall k :: 0 <= k < |idx| ==> idx[k] < |st.rows|
    ensures PassEvent(st, idx[j..], date, now, clock, sendOk)
         == PassEvent(Visit(st, idx[j], date, now, clock, sendOk), idx[j + 1..], date, now, clock, sendOk)
  {
    assert idx[j..][1..] == idx[j + 1..];
  }

  /** Once an exception has been raised, the rest of the inner loop changes nothing. */
  lemma {:induction false} FailedPassEvent(st: Run, idx: seq<nat>, date: Timestamp, now: Timestamp, clock: Clock,
                                           sendOk: int -> bool)
    requires st.failed
    requires forall j :: 0 <= j < |idx| ==> idx[j] < |st.rows|
    ensures PassEvent(st, idx, date, now, clock, sendOk) == st
    decreases |idx|
  {
    if idx != [] {
      FailedPassEvent(st, idx[1..], date, now, clock, sendOk);
    }
  }

  /** An exception aborts the whole batch: no later event is examined. */
  lemma {:induction false} FailedPassEvents(st: Run, es: seq<Event>, now: Timestamp, clock: Clock,
                                            sendOk: int -> bool)
    requires st.failed
    ensures PassEvents(st, es, now, clock, sendOk) == st
    decreases |es|
  {
    if es != [] {
      FailedPassEvent(st, EventGuests(st.rows, es[0].id), es[0].date, now, clock, sendOk);
      FailedPassEvents(st, es[1..], now, clock, sendOk);
    }
  }

  /** Once the run has failed it stays failed. */
  lemma FailureIsFinal(st: Run, es: seq<Event>, now: Timestamp, clock: Clock, sendOk: int -> bool)
    requires st.failed
    ensures PassEvents(st, es, now, clock, sendOk).failed
  {
    FailedPassEvents(st, es, now, clock, sendOk);
  }

  // ---- the days a reminder can fire ----

  /** Inside the window the whole-day count lies in 0..7, and is 7 only for an event exactly 7 days away. */
  lemma DaysUntilInWindow(e: Event, now: Timestamp)
    requires InWindow(e, now)
    ensures 0 <= WholeDays(e.date, now) <= WindowDays
    ensures WholeDays(e.date, now) == WindowDays <==> e.date == now + WindowDays * SecondsPerDay
  {
  }

  /** A due reminder names one of the thresholds and a last send at least a day old. */
  lemma DueMeansThresholdAndGap(g: GuestRow, date: Timestamp, now: Timestamp)
    requires ReminderDue(g, date, now)
    ensures g.status == Pending
    ensures WholeDays(date, now) == 7 || WholeDays(date, now) == 3 || WholeDays(date, now) == 1
    ensures g.lastReminderSent.None? || now - g.lastReminderSent.value >= SecondsPerDay
  {
  }

  /** A guest stamped at some time is not due again on any run less than a day after that time. */
  lemma StampBlocksSameDay(g: GuestRow, clock: Clock, date: Timestamp, later: Timestamp)
    requires later < clock.sentAt(g.id) + SecondsPerDay
    ensures !ReminderDue(Stamped(g, clock), date, later)
  {
  }

  /**
   * A guest pending for an event a week ahead and stamped during day 0: reminded
   * on day 0, not again on day 0, not on day 3 (four days left), again on day 4
   * (three days left).
   */
  lemma ReminderCadence(g: GuestRow, day0: Timestamp, clock: Clock, t: Timestamp)
    requires g.status == Pending && g.lastReminderSent.None?
    requires day0 <= clock.sentAt(g.id) < day0 + SecondsPerDay
    requires day0 <= t < day0 + SecondsPerDay
    ensures var date := day0 + 7 * SecondsPerDay;
            && ReminderDue(g, date, day0)
            && !ReminderDue(Stamped(g, clock), date, t)
            && !ReminderDue(Stamped(g, clock), date, day0 + 3 * SecondsPerDay)
            && ReminderDue(Stamped(g, clock), date, day0 + 4 * SecondsPerDay)
  {
  }

  // ---- what a run changes ----

  /** Row r of the table, starting from r0: untouched, or stamped because it was due for an examined event. */
  ghost predicate Justified(r0: GuestRow, r: GuestRow, es: seq<Event>, now: Timestamp, clock: Clock) {
    r == r0 || (r == Stamped(r0, clock) && exists e :: e in es && e.id == r0.eventId && ReminderDue(r0, e.date, now))
  }

  ghost predicate AllJustified(rows0: seq<GuestRow>, rows: seq<GuestRow>, es: seq<Event>, now: Timestamp, clock: Clock) {
    |rows| == |rows0| && forall k :: 0 <= k < |rows| ==> Justified(rows0[k], rows[k], es, now, clock)
  }

  lemma {:induction false} PassEventJustified(rows0: seq<GuestRow>, st: Run, idx: seq<nat>, e: Event, es: seq<Event>,
                                              now: Timestamp, clock: Clock, sendOk: int -> bool)
    requires e in es
    requires AllJustified(rows0, st.rows, es, now, clock)
    requires forall j :: 0 <= j < |idx| ==> idx[j] < |st.rows| && rows0[idx[j]].eventId == e.id
    ensures AllJustified(rows0, PassEvent(st, idx, e.date, now, clock, sendOk).rows, es, now, clock)
    decreases |idx|
  {
    if idx != [] {
      var k := idx[0];
      var mid := Visit(st, k, e.date, now, clock, sendOk);
      if mid.rows != st.rows {
        assert mid.rows == st.rows[k := Stamped(st.rows[k], clock)];
        assert ReminderDue(st.rows[k], e.date, now);
        assert Justified(rows0[k], mid.rows[k], es, now, clock);
      }
      PassEventJustified(rows0, mid, idx[1..], e, es, now, clock, sendOk);
    }
  }

  lemma {:induction false} PassEventsJustified(rows0: seq<GuestRow>, st: Run, es: seq<Event>, all: seq<Event>,
                                               now: Timestamp, clock: Clock, sendOk: int -> bool)
    requires forall e :: e in es ==> e in all
    requires AllJustified(rows0, st.rows, all, now, clock)
    ensures AllJustified(rows0, PassEvents(st, es, now, clock, sendOk).rows, all, now, clock)
    decreases |es|
  {
    if es != [] {
      var idx := EventGuests(st.rows, es[0].id);
      forall j | 0 <= j < |idx|
        ensures rows0[idx[j]].eventId == es[0].id
      {
        assert Justified(rows0[idx[j]], st.rows[idx[j]], all, now, clock);
      }
      PassEventJustified(rows0, st, idx, es[0], all, now, clock, sendOk);
      var next := PassEvent(st, idx, es[0].date, now, clock, sendOk);
      PassEventsJustified(rows0, next, es[1..], all, now, clock, sendOk);
    }
  }

  /**
   * A run changes a guest only by stamping it (lastReminderSent and updatedAt, at
   * that guest's clock reads), and only when the guest was pending and due for one
   * of its events inside the window.
   */
  lemma RunOnlyStampsDueGuests(rows: seq<GuestRow>, events: seq<Event>, now: Timestamp, clock: Clock,
                               sendOk: int -> bool)
    ensures var out := RunReminders(rows, events, now, clock, sendOk).rows;
            |out| == |rows| &&
            forall k :: 0 <= k < |rows| ==>
              out[k] == rows[k] ||
              (out[k] == Stamped(rows[k], clock) &&
               exists e :: e in events && InWindow(e, now) && e.id == rows[k].eventId && ReminderDue(rows[k], e.date, now))
  {
    var es := Upcoming(events, now);
    PassEventsJustified(rows, Run(rows, false), es, es, now, clock, sendOk);
  }

  /** Confirmed and declined guests are never reminded: their rows come out of a run unchanged. */
  lemma RunLeavesAnsweredGuests(rows: seq<GuestRow>, events: seq<Event>, now: Timestamp, clock: Clock,
                                sendOk: int -> bool)
    ensures var out := RunReminders(rows, events, now, clock, sendOk).rows;
            forall k :: 0 <= k < |rows| && rows[k].status != Pending ==> out[k] == rows[k]
  {
    RunOnlyStampsDueGuests(rows, events, now, clock, sendOk);
  }

  // ---- a run that does not fail reminds every due guest ----

  lemma {:induction false} UpcomingDistinct(events: seq<Event>, now: Timestamp)
    requires DistinctIds(events)
    ensures DistinctIds(Upcoming(events, now))
  {
    if events != [] {
      UpcomingDistinct(events[1..], now);
      var tail := Upcoming(events[1..], now);
      forall b | 0 <= b < |tail|
        ensures tail[b].id != events[0].id
      {
        assert tail[b] in events[1..];
      }
    }
  }

  /** Rows outside the positions idx are not touched by the inner loop. */
  lemma {:induction false} PassEventFrame(st: Run, idx: seq<nat>, date: Timestamp, now: Timestamp, clock: Clock,
                                          sendOk: int -> bool, k: nat)
    requires forall j :: 0 <= j < |idx| ==> idx[j] < |st.rows|
    requires k < |st.rows| && k !in idx
    ensures PassEvent(st, idx, date, now, clock, sendOk).rows[k] == st.rows[k]
    decreases |idx|
  {
    if idx != [] {
      PassEventFrame(Visit(st, idx[0], date, now, clock, sendOk), idx[1..], date, now, clock, sendOk, k);
    }
  }

  /** Rows of guests of events not in es are not touched by the outer loop. */
  lemma {:induction false} PassEventsFrame(st: Run, es: seq<Event>, now: Timestamp, clock: Clock,
                                           sendOk: int -> bool, k: nat)
    requires k < |st.rows| && st.rows[k].eventId !in Ids(es)
    ensures PassEvents(st, es, now, clock, sendOk).rows[k] == st.rows[k]
    decreases |es|
  {
    if es != [] {
      var idx := EventGuests(st.rows, es[0].id);
      PassEventFrame(st, idx, es[0].date, now, clock, sendOk, k);
      var next := PassEvent(st, idx, es[0].date, now, clock, sendOk);
      assert Ids(es[1..]) <= Ids(es) by {
        forall e | e in es[1..] ensures e in es { }
      }
      PassEventsFrame(next, es[1..], now, clock, sendOk, k);
    }
  }

  /** Without an exception, the inner loop stamps exactly the due guests it visits. */
  lemma {:induction false} PassEventEffect(st: Run, idx: seq<nat>, date: Timestamp, now: Timestamp, clock: Clock,
                                           sendOk: int -> bool, k: nat)
    requires forall j :: 0 <= j < |idx| ==> idx[j] < |st.rows|
    requires forall a, b :: 0 <= a < b < |idx| ==> idx[a] < idx[b]
    requires k in idx
    requires !PassEvent(st, idx, date, now, clock, sendOk).failed
    ensures PassEvent(st, idx, date, now, clock, sendOk).rows[k]
         == if ReminderDue(st.rows[k], date, now) then Stamped(st.rows[k], clock) else st.rows[k]
    decreases |idx|
  {
    var mid := Visit(st, idx[0], date, now, clock, sendOk);
    if mid.failed {
      FailedPassEvent(mid, idx[1..], date, now, clock, sendOk);
    } else if k == idx[0] {
      assert k !in idx[1..];
      PassEventFrame(mid, idx[1..], date, now, clock, sendOk, k);
    } else {
      assert k in idx[1..];
      PassEventEffect(mid, idx[1..], date, now, clock, sendOk, k);
    }
  }

  lemma DistinctTail(es: seq<Event>)
    requires DistinctIds(es) && es != []
    ensures DistinctIds(es[1..]) && es[0].id !in Ids(es[1..])
  {
    var rest := es[1..];
    forall x | x in rest ensures x.id != es[0].id {
      var b :| 0 <= b < |rest| && rest[b] == x;
      assert es[b + 1] == x;
    }
    forall a, b | 0 <= a < b < |rest| ensures rest[a].id != rest[b].id {
      assert rest[a] == es[a + 1] && rest[b] == es[b + 1];
    }
  }

  lemma {:induction false} PassEventsComplete(rows0: seq<GuestRow>, st: Run, es: seq<Event>, now: Timestamp,
                                              clock: Clock, sendOk: int -> bool, k: nat, e: Event)
    requires DistinctIds(es)
    requires SameKeys(rows0, st.rows)
    requires forall p :: 0 <= p < |rows0| && rows0[p].eventId in Ids(es) ==> st.rows[p] == rows0[p]
    requires k < |rows0| && e in es && e.id == rows0[k].eventId && ReminderDue(rows0[k], e.date, now)
    requires !PassEvents(st, es, now, clock, sendOk).failed
    ensures PassEvents(st, es, now, clock, sendOk).rows[k] == Stamped(rows0[k], clock)
    decreases |es|
  {
    var idx := EventGuests(st.rows, es[0].id);
    var next := PassEvent(st, idx, es[0].date, now, clock, sendOk);
    var rest := es[1..];
    if next.failed {
      FailedPassEvents(next, rest, now, clock, sendOk);
    }
    DistinctTail(es);
    assert es[0] in es;
    if e == es[0] {
      assert st.rows[k] == rows0[k];
      PassEventEffect(st, idx, es[0].date, now, clock, sendOk, k);
      PassEventsFrame(next, rest, now, clock, sendOk, k);
    } else {
      assert e in rest;
      forall p | 0 <= p < |rows0| && rows0[p].eventId in Ids(rest)
        ensures next.rows[p] == rows0[p]
      {
        assert rows0[p].eventId in Ids(es);
        PassEventFrame(st, idx, es[0].date, now, clock, sendOk, p);
      }
      PassEventsComplete(rows0, next, rest, now, clock, sendOk, k, e);
    }
  }

  /**
   * A run that raises no exception stamps every guest that is due for its event
   * inside the window; with RunOnlyStampsDueGuests this pins down the whole table.
   */
  lemma RunStampsEveryDueGuest(rows: seq<GuestRow>, events: seq<Event>, now: Timestamp, clock: Clock,
                               sendOk: int -> bool, k: nat, e: Event)
    requires DistinctIds(events)
    requires !RunReminders(rows, events, now, clock, sendOk).failed
    requires k < |rows| && e in events && InWindow(e, now) && e.id == rows[k].eventId
    requires ReminderDue(rows[k], e.date, now)
    ensures RunReminders(rows, events, now, clock, sendOk).rows[k] == Stamped(rows[k], clock)
  {
    UpcomingDistinct(events, now);
    PassEventsComplete(rows, Run(rows, false), Upcoming(events, now), now, clock, sendOk, k, e);
  }

  // ---- running twice on the same day ----

  lemma {:induction false} NothingDuePassEvent(st: Run, idx: seq<nat>, date: Timestamp, now: Timestamp,
                                               clock: Clock, sendOk: int -> bool)
    requires forall j :: 0 <= j < |idx| ==> idx[j] < |st.rows| && !ReminderDue(st.rows[idx[j]], date, now)
    ensures PassEvent(st, idx, date, now, clock, sendOk) == st
    decreases |idx|
  {
    if idx != [] {
      NothingDuePassEvent(st, idx[1..], date, now, clock, sendOk);
    }
  }

  lemma {:induction false} NothingDuePassEvents(st: Run, es: seq<Event>, now: Timestamp, clock: Clock,
                                                sendOk: int -> bool)
    requires forall k :: 0 <= k < |st.rows| ==>
               forall e :: e in es && e.id == st.rows[k].eventId ==> !ReminderDue(st.rows[k], e.date, now)
    ensures PassEvents(st, es, now, clock, sendOk) == st
    decreases |es|
  {
    if es != [] {
      assert es[0] in es;
      NothingDuePassEvent(st, EventGuests(st.rows, es[0].id), es[0].date, now, clock, sendOk);
      NothingDuePassEvents(st, es[1..], now, clock, sendOk);
    }
  }

  /**
   * Idempotence on one day: after a run that raised nothing, a second run at the
   * same `now` (every stamp taken less than a day before that `now`, as
   * utcnow() read after it always is) changes nothing.
   */
  lemma RerunSameDayChangesNothing(rows: seq<GuestRow>, events: seq<Event>, now: Timestamp, clock: Clock,
                                   sendOk: int -> bool, clock2: Clock, sendOk2: int -> bool)
    requires DistinctIds(events)
    requires !RunReminders(rows, events, now, clock, sendOk).failed
    requires forall k :: 0 <= k < |rows| ==> now < clock.sentAt(rows[k].id) + SecondsPerDay
    ensures var first := RunReminders(rows, events, now, clock, sendOk).rows;
            RunReminders(first, events, now, clock2, sendOk2) == Run(first, false)
  {
    var first := RunReminders(rows, events, now, clock, sendOk).rows;
    var es := Upcoming(events, now);
    RunOnlyStampsDueGuests(rows, events, now, clock, sendOk);
    forall k | 0 <= k < |first|
      ensures forall e :: e in es && e.id == first[k].eventId ==> !ReminderDue(first[k], e.date, now)
    {
      forall e | e in es && e.id == first[k].eventId
        ensures !ReminderDue(first[k], e.date, now)
      {
        if ReminderDue(rows[k], e.date, now) {
          RunStampsEveryDueGuest(rows, events, now, clock, sendOk, k, e);
        }
        StampBlocksSameDay(rows[k], clock, e.date, now);
      }
    }
    NothingDuePassEvents(Run(first, false), es, now, clock2, sendOk2);
  }
}
