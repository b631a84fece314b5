# Trisect Event RSVP Manager — a Dafny model of its core

The application lets organizers create events, invite guests through
tokenised links, collect RSVPs, send reminders, export guest lists and view
analytics. This project models the parts of it that carry logic, over an
abstract store of guest and event records whose timestamps are integer
seconds:

- **Guest records and per-event tallies** (`Models.dfy`, models.py). A guest
  is a `class` whose `UpdateStatus` method assigns its fields the way
  `Guest.update_status` does. `GuestRow` is the value of a row; the pure
  rules work on sequences of rows. `GetRsvpStats` models
  `Event.get_rsvp_stats`. `EventGuests` / `GuestsOf` model the
  `Event.guests` relationship and `filter_by(eventId=…)`.
- **The reminder job** (`Reminders.dfy`, reminder.py).
  `CheckAndSendReminders` is the nested loop. It runs over the Guests table
  as a sequence of distinct `Guest` objects. It writes `lastReminderSent`,
  and `updatedAt`, which the column's `onupdate` (models.py:66-67) resets
  when the stamp is committed. It is proved equal to the function `RunReminders`,
  and the lemmas about the job are stated about that function. They cover
  the 7-day window, the floor-of-days thresholds {7, 3, 1}, the one-day gap,
  abort-on-exception, which rows a run may change, and same-day idempotence.
- **Analytics** (`Analytics.dfy`, analytics.py). A rate is an integer
  numerator over a denominator, or the literal 0. The response timeline is
  modelled step by step:
  1. `value_counts().sort_index()` becomes `ValueCounts`.
  2. The strftime day-keyed dict comprehension becomes `DayTimeline` over
     an insertion-ordered dict, `DictSet`.

  The organizer accumulator loop becomes the method `GetOrganizerAnalytics`.
- **Handler rules** (`Routes.dfy`, routes.py):
  - the ownership and `eventId` guards;
  - the RSVP POST path with its default arguments;
  - `delete_guest`;
  - the bulk-reminder counter loop;
  - the CSV export loop.

  An HTTP outcome is one of `Ok`, `Forbidden` (403 or the unauthorised
  redirect), `NotFound` (404) and `ServerError` (500).

The clock, the mailer and the database are parameters:

- `now`: the time a run starts.
- `clock: Clock`: the times taken while guest `id` is reminded.
  `clock.sentAt(id)` is the `datetime.utcnow()` read of that guest's
  send. `clock.committedAt(id)` is the database's `current_timestamp` at
  that guest's UPDATE.
- `sendOk: int -> bool`: whether the send or commit for a guest id succeeds.
- `dbOk`: false when a query inside a `try` raises.

Three behaviours of the code are easy to misread:

- `update_status` replaces responses only when the mapping given is
  non-empty (models.py:76-77). An RSVP without responses keeps the stored
  ones.
- `check_and_send_reminders` wraps the whole scan in one `try`
  (reminder.py:19-35). An exception raised while one guest is stamped ends
  the run, and no later guest or event is examined.
- Each stamp is the `utcnow()` read inside `send_reminder_email`
  (reminder.py:12), taken separately for each guest. It is not the `now`
  read at the start of the run.

## Model

| member | source | states |
|---|---|---|
| Models.ParseStatus | models.py:60 | a name is accepted exactly when it is the name of one of the three enum values |
| Models.ParseStatusName | models.py:60 | every status's name parses back to that status |
| Models.FindEvent | analytics.py:8-10 | the event found has the requested primary key; none means no event has it |
| Models.Guest.constructor | models.py:55-67 | a new guest is pending, with plusOneCount 0, no responses and no reminder sent |
| Models.Guest.UpdateStatus | models.py:72-78 | the new row is UpdatedRow of the old row: the conditional assignments of update_status |
| Models.UpdatedRow | models.py:72-78 | the row update_status leaves; UpdateSetsStatusAndStamp, UpdatePlusOneCount, UpdateResponses, UpdateKeepsOtherColumns and UpdateIdempotent state what it changes and keeps |
| Models.EventGuests | models.py:34 | Event.guests: exactly the table positions whose eventId is the event's, in ascending table order |
| Models.GuestsOf | analytics.py:13 | filter_by(eventId) returns at most all the rows; GuestsOfMembers says which |
| Models.GuestsOfMembers | analytics.py:13 | filter_by(eventId) holds exactly the rows of that event |
| Models.EventGuestsSelectsGuestsOf | models.py:34 | the rows at Event.guests' positions are, in order, the rows filter_by(eventId) returns |
| Models.UpdateSetsStatusAndStamp | models.py:73-78 | update_status always sets the given status and stamps updatedAt |
| Models.UpdatePlusOneCount | models.py:74-75 | plusOneCount changes only for a non-None argument, and 0 does overwrite it |
| Models.UpdateResponses | models.py:76-77 | responses are replaced only by a non-empty mapping (get_responses then yields it), and are kept for None or {} |
| Models.UpdateKeepsOtherColumns | models.py:72-78 | name, email, phone, id, eventId, token, lastReminderSent and createdAt are untouched |
| Models.GetResponsesDefault | models.py:69-70 | get_responses yields {} when nothing is stored |
| Models.GuestRow.GetResponses | models.py:69-70 | the stored mapping, or {} for a NULL column; GetResponsesDefault and UpdateResponses state it |
| Models.UpdateIdempotent | models.py:72-78 | repeating the same update gives the same row, up to the updatedAt stamp |
| Models.CountStatus | models.py:40-42 | a status tally never exceeds the number of guests |
| Models.GetRsvpStats | models.py:39-50 | the four tallies of get_rsvp_stats; RsvpStatsPartition, TotalAttendingIsHeadCount and UnconfirmedPlusOnesIgnored state their meaning |
| Models.RsvpStatsPartition | models.py:40-42 | confirmed + declined + pending equals the number of guests |
| Models.TotalAttendingIsHeadCount | models.py:43-49 | total_attending is the sum over guests of 1 + plusOneCount for confirmed guests and 0 otherwise |
| Models.UnconfirmedPlusOnesIgnored | models.py:43 | the plus-one count of a guest who is not confirmed does not affect any tally |
| Reminders.WholeDays | reminder.py:29 | timedelta.days is the floor of the difference in whole days |
| Reminders.Upcoming | reminder.py:21-24 | the query returns exactly the events with now < date <= now + 7 days |
| Reminders.ReminderDue | reminder.py:28-32 | the three nested tests; DueMeansThresholdAndGap states what a due guest satisfies |
| Reminders.Stamped | reminder.py:12-13 | the stamp sets lastReminderSent to the guest's send time and updatedAt to its commit time, and no other column |
| Reminders.Visit | reminder.py:28-33 | one guest step keeps the table's length, ids and foreign keys; a due guest whose commit succeeds becomes Stamped (lastReminderSent and updatedAt at that guest's clock reads) |
| Reminders.PassEvent | reminder.py:27-33 | the inner loop keeps the table's length, ids and foreign keys |
| Reminders.PassEvents | reminder.py:26-33 | the outer loop keeps the table's length, ids and foreign keys |
| Reminders.RunReminders | reminder.py:15-35 | a run keeps the table's length, ids and foreign keys; the run lemmas below state which rows it stamps |
| Reminders.SendReminderEmail | reminder.py:8-13 | a committed send sets lastReminderSent to the send time and updatedAt to the commit time (the onupdate of models.py:66-67); a failed commit keeps both and raises |
| Reminders.RemindGuest | reminder.py:28-33 | the loop body on the Guest objects, writing lastReminderSent and updatedAt, equals Visit on their rows |
| Reminders.RemindEventGuests | reminder.py:27-33 | the inner loop on the Guest objects, writing lastReminderSent and updatedAt, equals PassEvent on their rows |
| Reminders.CheckAndSendReminders | reminder.py:15-35 | the whole job on the Guest objects, stamping each guest at its own clock reads, equals RunReminders on the table it started from |
| Reminders.FailedPassEvent | reminder.py:19-35 | after an exception, the rest of the inner loop changes nothing |
| Reminders.FailedPassEvents | reminder.py:19-35 | after an exception, no later event is examined |
| Reminders.FailureIsFinal | reminder.py:19-35 | a failed run stays failed |
| Reminders.DaysUntilInWindow | reminder.py:21-29 | inside the window days_until_event is in 0..7, and is 7 only when the event is exactly 7 days away |
| Reminders.DueMeansThresholdAndGap | reminder.py:28-32 | a due guest is pending, the event is 7, 3 or 1 whole days away, and the last send is unset or at least 86400 s old |
| Reminders.StampBlocksSameDay | reminder.py:31-32 | a guest stamped at its send time is not due on any run less than one day after that time |
| Reminders.ReminderCadence | reminder.py:29-32 | for a week-away event and a stamp taken during day 0: due on day 0, not again on day 0, not on day 3, due again on day 4 |
| Reminders.RunOnlyStampsDueGuests | reminder.py:26-33 | each row comes out unchanged, or Stamped (lastReminderSent at its send time, updatedAt at its commit time) because it was due for its own event inside the window |
| Reminders.RunLeavesAnsweredGuests | reminder.py:28 | confirmed and declined guests come out of a run unchanged |
| Reminders.RunStampsEveryDueGuest | reminder.py:26-33 | a run that raises nothing stamps every guest due for its event inside the window, with that guest's own send and commit times |
| Reminders.RerunSameDayChangesNothing | reminder.py:31-33 | after a run without exception whose stamps are all less than a day before `now`, a second run at the same `now` changes no row |
| Analytics.RateOf | analytics.py:38-39 | the rate is 0 exactly when the denominator is 0, and otherwise carries the numerator and denominator |
| Analytics.SortedKeys | analytics.py:26 | the index of value_counts().sort_index() holds each distinct timestamp once, strictly ascending |
| Analytics.ValueCounts | analytics.py:26 | the keys of value_counts().sort_index() ascend strictly, and each is a timestamp of the input with its positive count |
| Analytics.DictSet | analytics.py:27-31 | Python's d[k] = v on an insertion-ordered dict; DictSetMeaning, DictSetReplaces, DictSetDistinct and DictSetAtEnd state its effect |
| Analytics.DictSetMeaning | analytics.py:27-31 | after d[k] = v the dict holds (k, v), keeps every entry of another key and adds nothing else |
| Analytics.DictSetReplaces | analytics.py:27-31 | on a dict with unique keys, d[k] = v leaves v as the only value of k: the old value is gone |
| Analytics.DictSetDistinct | analytics.py:27-31 | d[k] = v keeps a dict's keys unique |
| Analytics.DictSetAtEnd | analytics.py:27-31 | on a dict of ascending days none above k, d[k] = v rewrites the last entry when its day is k and appends otherwise |
| Analytics.DayTimeline | analytics.py:27-31 | the day-keyed comprehension over the sorted counts; DayTimelineOrdered, DayTimelineCovers, DayTimelineEntries and DayTimelineSum state its properties step by step |
| Analytics.Timeline | analytics.py:26-31 | the response timeline of the guests' updatedAt values; TimelineAscending, TimelineCoversDays, TimelineKeepsLatestPerDay and TimelineSumBound state its meaning |
| Analytics.ValueCountsTotal | analytics.py:26 | value_counts tallies every guest exactly once |
| Analytics.TimelineAscending | analytics.py:26-31 | the timeline has one entry per day, in ascending day order |
| Analytics.TimelineCoversDays | analytics.py:26-31 | every day on which a guest was last updated has an entry |
| Analytics.TimelineKeepsLatestPerDay | analytics.py:26-31 | each day's value is the count of the latest timestamp of that day, because later keys of the same day overwrite earlier ones |
| Analytics.TimelineSumBound | analytics.py:26-31 | the timeline's values sum to at most the number of guests |
| Analytics.GetEventAnalytics | analytics.py:5-57 | get_event_analytics; EventAnalyticsErrors, EventStatsAgree and EventRatesOrdered state its results |
| Analytics.EventAnalyticsErrors | analytics.py:7-10 | an exception yields the all-zero result; a missing event yields None |
| Analytics.EventStatsAgree | analytics.py:36-40 | total_guests is the event's guest count. total_attending agrees with get_rsvp_stats. Both rates are 0 with no guests; otherwise they are the non-pending and confirmed shares. The timeline sums to at most total_guests |
| Analytics.EventRatesOrdered | analytics.py:38-39 | confirmed <= responded <= total, over the same denominator |
| Analytics.OwnedEvents | analytics.py:62 | exactly the events of that organizer |
| Analytics.CountAnswered | analytics.py:71 | the number of answered guests never exceeds the number of guests |
| Analytics.CountAnsweredSplit | analytics.py:71 | a guest is answered (confirmed or declined) exactly when it is not pending |
| Analytics.GetOrganizerAnalytics | analytics.py:59-87 | an exception yields all zeros; otherwise the accumulator loop yields OrganizerSummary of the organizer's events |
| Analytics.OrganizerTotalsOrdered | analytics.py:64-72 | total_confirmed <= total_responses <= total_guests |
| Analytics.OrganizerTotals | analytics.py:64-72 | the three accumulators; OrganizerTotalsOrdered and OrganizerGuestsCounted state their meaning |
| Analytics.OrganizerGuestsCounted | analytics.py:68-70 | with unique event ids, total_guests is the number of Guests rows that belong to one of the events |
| Analytics.OrganizerSummaryMeaning | analytics.py:74-79 | total_events counts the owned events and total_guests counts their guests once each. An average is 0 exactly when there are no guests, and confirmed <= responded <= total |
| Analytics.OrganizerSummary | analytics.py:74-79 | the returned dictionary; OrganizerSummaryMeaning states its meaning |
| Routes.EventAccess | routes.py:111-114 | access is granted only on an existing event owned by the user. Otherwise it is 404 when no event has the id, and 403 when another organizer owns it |
| Routes.OwnerAccessIff | routes.py:122-124 | with unique event ids, access is granted exactly to the event's organizer |
| Routes.FirstWhere | routes.py:159 | the index found is the first row satisfying the filter; none means no row does |
| Routes.GuestInEvent | routes.py:268-270 | a guest found by the guard has the requested id and belongs to the event |
| Routes.GuestInEventIff | routes.py:181-183 | with unique guest ids, the guard finds the guest exactly when it belongs to the event |
| Routes.DeleteGuest | routes.py:261-274 | a refused request leaves the table as it was. A successful one removes exactly one row, of the requested guest of that event, on an event the user owns |
| Routes.DeleteOwnGuest | routes.py:268-274 | with unique guest ids, an owner's request for a guest of that event returns Ok and removes exactly that row |
| Routes.DeleteForeignGuest | routes.py:268-271 | an owner's request for a missing guest id, or a guest of another event, is a 404 that removes nothing |
| Routes.DeleteKeepsOtherEvents | routes.py:268-274 | no other event's guest list changes, and the event's own list loses exactly one guest |
| Routes.Rsvp | routes.py:157-170 | 404 exactly when no guest has the token; a failed request writes nothing |
| Routes.PlusOneArg | routes.py:166 | an omitted plus_one_count passes 0, a JSON null passes None, a given count passes itself |
| Routes.ResponsesArg | routes.py:167 | omitted responses pass {}, a JSON null passes None, a given mapping passes itself |
| Routes.RsvpAnswersForTokenGuest | routes.py:164-168 | see the RSVP defaults below this table |
| Routes.RsvpRejectsBadStatus | routes.py:164-169 | a missing or unknown status fails the request and writes nothing |
| Routes.RsvpResubmitIdempotent | routes.py:164-169 | submitting the same answer twice leaves the same table as submitting it once |
| Routes.RsvpPage | routes.py:157-170 | the handler on the Guest objects has the outcome and new table of Rsvp |
| Routes.PendingOf | routes.py:224 | the pending list is at most the guest list; PendingOfMembers says which guests it holds |
| Routes.PendingOfMembers | routes.py:224 | the reminder list holds exactly the event's pending guests, as many as the pending tally |
| Routes.SentCount | routes.py:225-228 | the count of accepted sends never exceeds the guests tried |
| Routes.SentCountExact | routes.py:226-228 | the count equals the number of guests tried when every send succeeds, is 0 when none does, and equals it only if all succeed |
| Routes.CountSent | routes.py:225-228 | the loop's count is the number of pending guests whose send the mailer accepted |
| Routes.SendBulkReminders | routes.py:218-229 | on a refused request nothing is sent. Otherwise the reported count is the number of accepted sends to the event's pending guests, at most the pending tally. No guest field is written |
| Routes.ResponseText | routes.py:245 | the rendering is empty exactly when there are no responses, and a single answer renders as "k: v" |
| Routes.ResponseTextConcat | routes.py:245 | rendering two groups of answers joins their renderings with ", " |
| Routes.ExportRow | routes.py:246-254 | the 7 cells of a row, one per header column. A missing phone becomes the empty string. The Responses cell is the ", "-joined "k: v" rendering of get_responses |
| Routes.ExportNoResponses | routes.py:244-245 | the Responses cell is empty exactly when get_responses is empty |
| Routes.ExportAfterRsvp | routes.py:244-245 | after an RSVP with a non-empty mapping, the export shows that mapping and the new status |
| Routes.ExportAfterReminder | reminder.py:12-13 | a reminder changes a guest's export row only in its Last Updated cell, which becomes the stamp's commit time |
| Routes.ExportGuestList | routes.py:231-259 | a refused request exports nothing. Otherwise the export is the fixed header followed by one row per guest of event.guests, in order |
| Routes.ExportRows | routes.py:243-254 | the export loop writes one row per guest, ExportRow of that guest, in order |

The RSVP defaults that `Routes.RsvpAnswersForTokenGuest` states, for a
valid status submitted through a guest's link:

- only that guest changes;
- the guest takes the status and the stamp;
- an omitted plus_one_count resets the count to 0;
- a null plus_one_count keeps the old count;
- omitted, null or empty responses keep the old responses;
- the other columns are unchanged.

`Models.Guest.constructor`, `Models.Guest.UpdateStatus`, the reminder
methods and `Routes.RsvpPage` change state. Each is proved against a pure
function of the state before the call (`UpdatedRow`, `Visit`, `PassEvent`,
`RunReminders`, `Rsvp`), and the lemmas above are stated about those
functions.

## Left out

- HTTP routing, templates, flash messages, redirects and JSON response bodies: only the outcome of a handler is modelled.
- Authentication, sessions and bcrypt password hashing (routes.py login and registration, app.py): library calls.
- Email delivery through flask_mail (email_utils.py): a send is the oracle `sendOk`. The reminder job's own send_reminder_email only prints and stamps.
- QR image generation (qr_generator.py) and the QR routes' image handling: only the QR routes' guards are modelled, by `Routes.GuestInEvent`.
- The APScheduler thread, its daily interval and the application context (reminder.py:37-51): each run is one call of `CheckAndSendReminders`.
- Configuration (config.py), including REMINDER_DAYS_BEFORE, which the code never reads: reminder.py hard-codes [7, 3, 1].
- Floating-point rates and pandas DataFrame mechanics: rates are kept as integer numerator and denominator.
- Random token generation and the database's uniqueness constraints on ids and tokens: lemmas that need unique ids or tokens state that as a precondition.
- strftime, strptime, JSON and CSV serialisation. A day is the UTC day number `t / 86400`. A timestamp cell is kept as the timestamp. Response values are kept as the strings str() would print. An export row is a list of cells, not CSV text.
- Models.Guest.UpdateStatus: stores the responses mapping itself, not its json.dumps text, so the JSON round trip of get_responses is assumed rather than proved.
- Routes.Rsvp: a JSON null status, which the code would write as SQL NULL, is not modelled, because the model's status has only the three enum values. An unknown status string is modelled as a failed commit (500) that writes nothing, because the database enum rejects it.
- Routes.Rsvp: a plus_one_count that is not an integer is not modelled.
- Routes.Rsvp: a `responses` value that is not a JSON object is not modelled. A non-empty list or string would be stored by update_status, and export_guest_list would then fail with a 500 at `responses.items()`; the model's `Responses` is always a list of key–value pairs.
- Repeated keys in `responses`: the `Responses` type does not exclude them, though a decoded JSON object cannot have them; no lemma depends on keys being distinct.
- One pair of reminder times per guest id (`Clock`): with unique event ids a run visits each guest once, so one send time and one commit time per guest is all the code can take.
- Event creation, editing and deletion, guest creation with its invitation email, the dashboard, and password reset (routes.py): no logic beyond the guards already modelled.
- The failure of the reminder job's own event query: only failures of individual sends or commits (`sendOk`) are modelled.
- Concurrent requests and the races between them.
- Query order: `Event.guests` (models.py:34), the `filter_by` queries (analytics.py:13, 62) and the upcoming-events query (reminder.py:21-24) have no ORDER BY. The model returns their rows in table order. That order decides the order of the export rows and which guests are stamped before an exception ends a reminder run.
- static/script.js and test_app.py.
