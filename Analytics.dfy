/**
 * analytics.py: per-event statistics and response timeline, and the
 * organizer-wide accumulator. Rates are kept as integer numerator and
 * denominator; `dbOk` false stands for an exception inside the try block.
 */
module Analytics {
  import opened Wrappers
  import opened Models

  /** A rate `num / den` with den > 0, or the literal 0 the code returns when there is nothing to divide by. */
  datatype Rate = Zero | Ratio(num: nat, den: nat)

  /** `num / den if den > 0 else 0`. */
  function RateOf(num: nat, den: nat): (r: Rate)
    ensures r.Zero? <==> den == 0
    ensures r.Ratio? ==> r.num == num && r.den == den
  {
    if den > 0 then Ratio(num, den) else Zero
  }

  // ---- the response timeline ----

  /** The '%Y-%m-%d' day of a UTC timestamp, as a day number (distinct days, distinct strings). */
  function Day(t: Timestamp): int {
    t / SecondsPerDay
  }

  /** How often t occurs in ts. */
  function Count(ts: seq<Timestamp>, t: Timestamp): (n: nat)
    ensures n <= |ts|
    ensures n > 0 <==> t in ts
  {
    if ts == [] then 0 else (if ts[0] == t then 1 else 0) + Count(ts[1..], t)
  }

  predicate StrictlyAscending(s: seq<Timestamp>) {
    forall a, b :: 0 <= a < b < |s| ==> s[a] < s[b]
  }

  /** Adds t to a strictly ascending list unless it is already there. */
  function InsertSorted(s: seq<Timestamp>, t: Timestamp): (r: seq<Timestamp>)
    requires StrictlyAscending(s)
    ensures StrictlyAscending(r)
    ensures forall x :: x in r <==> x in s || x == t
  {
    if s == [] then [t]
    else if t < s[0] then [t] + s
    else if t == s[0] then s
    else
      var rest := InsertSorted(s[1..], t);
      ConsAscending(s[0], rest);
      [s[0]] + rest
  }

  lemma ConsAscending(x: Timestamp, s: seq<Timestamp>)
    requires StrictlyAscending(s) && forall y :: y in s ==> x < y
    ensures StrictlyAscending([x] + s)
  {
    var r := [x] + s;
    forall a, b | 0 <= a < b < |r|
      ensures r[a] < r[b]
    {
      assert r[b] == s[b - 1] && s[b - 1] in s;
      if a > 0 {
        assert r[a] == s[a - 1];
      }
    }
  }

  /** The distinct timestamps of ts in ascending order: the index of value_counts().sort_index(). */
  function SortedKeys(ts: seq<Timestamp>): (r: seq<Timestamp>)
    ensures StrictlyAscending(r)
    ensures forall x :: x in r <==> x in ts
  {
    if ts == [] then [] else InsertSorted(SortedKeys(ts[..|ts| - 1]), ts[|ts| - 1])
  }

  /** Pairs each key with its count. */
  function WithCounts(keys: seq<Timestamp>, ts: seq<Timestamp>): (vc: seq<(Timestamp, nat)>)
    ensures |vc| == |keys|
    ensures forall i :: 0 <= i < |keys| ==> vc[i] == (keys[i], Count(ts, keys[i]))
  {
    if keys == [] then [] else [(keys[0], Count(ts, keys[0]))] + WithCounts(keys[1..], ts)
  }

  /** df['response_date'].value_counts().sort_index(). */
  function ValueCounts(ts: seq<Timestamp>): (vc: seq<(Timestamp, nat)>)
    ensures AscendingKeys(vc)
    ensures forall i :: 0 <= i < |vc| ==> vc[i].0 in ts && vc[i].1 == Count(ts, vc[i].0) > 0
  {
    WithCounts(SortedKeys(ts), ts)
  }

  /** An insertion-ordered Python dict from day to count. */
  type DayCounts = seq<(int, nat)>

  function Keys(d: DayCounts): set<int> {
    set p | p in d :: p.0
  }

  /** `d[k] = v`: an existing key keeps its place and takes the new value; a new key goes last. */
  function DictSet(d: DayCounts, k: int, v: nat): DayCounts {
    if d == [] then [(k, v)]
    else if d[0].0 == k then [(k, v)] + d[1..]
    else [d[0]] + DictSet(d[1..], k, v)
  }

  /** After d[k] = v the dict maps k to v, keeps every entry of another key, and adds nothing else. */
  lemma {:induction false} DictSetMeaning(d: DayCounts, k: int, v: nat)
    ensures (k, v) in DictSet(d, k, v)
    ensures forall p :: p in DictSet(d, k, v) ==> p == (k, v) || p in d
    ensures forall p :: p in d && p.0 != k ==> p in DictSet(d, k, v)
  {
    if d != [] {
      assert d == [d[0]] + d[1..];
      if d[0].0 != k {
        DictSetMeaning(d[1..], k, v);
      }
    }
  }

  /** Python dict keys are unique. */
  predicate DistinctKeys(d: DayCounts) {
    forall a, b :: 0 <= a < b < |d| ==> d[a].0 != d[b].0
  }

  lemma DistinctKeysTail(d: DayCounts)
    requires DistinctKeys(d) && d != []
    ensures DistinctKeys(d[1..])
    ensures forall p :: p in d[1..] ==> p.0 != d[0].0
  {
    var t := d[1..];
    forall a, b | 0 <= a < b < |t|
      ensures t[a].0 != t[b].0
    {
      assert t[a] == d[a + 1] && t[b] == d[b + 1];
    }
    forall p | p in t
      ensures p.0 != d[0].0
    {
      var j :| 0 <= j < |t| && t[j] == p;
      assert d[j + 1] == p;
    }
  }

  /** On a dict with unique keys, d[k] = v leaves v as the only value of k. */
  lemma {:induction false} DictSetReplaces(d: DayCounts, k: int, v: nat)
    requires DistinctKeys(d)
    ensures forall p :: p in DictSet(d, k, v) && p.0 == k ==> p.1 == v
  {
    if d != [] {
      DistinctKeysTail(d);
      if d[0].0 != k {
        DictSetReplaces(d[1..], k, v);
        assert DictSet(d, k, v) == [d[0]] + DictSet(d[1..], k, v);
      }
    }
  }

  /** d[k] = v keeps the keys of a dict unique. */
  lemma {:induction false} DictSetDistinct(d: DayCounts, k: int, v: nat)
    requires DistinctKeys(d)
    ensures DistinctKeys(DictSet(d, k, v))
  {
    if d != [] {
      var t := d[1..];
      DistinctKeysTail(d);
      var r := DictSet(d, k, v);
      if d[0].0 == k {
        KeysDistinctCons((k, v), t);
      } else {
        var rt := DictSet(t, k, v);
        DictSetDistinct(t, k, v);
        DictSetMeaning(t, k, v);
        assert forall p :: p in rt ==> p.0 != d[0].0;
        KeysDistinctCons(d[0], rt);
      }
    }
  }

  /** Putting an entry of a new key in front keeps the keys unique. */
  lemma KeysDistinctCons(x: (int, nat), t: DayCounts)
    requires DistinctKeys(t)
    requires forall p :: p in t ==> p.0 != x.0
    ensures DistinctKeys([x] + t)
  {
    var r := [x] + t;
    forall a, b | 0 <= a < b < |r|
      ensures r[a].0 != r[b].0
    {
      assert r[b] == t[b - 1] && r[b] in t;
      if a > 0 {
        assert r[a] == t[a - 1];
      }
    }
  }

  /** The dict comprehension that keys the sorted counts by day: later items overwrite earlier ones. */
  function DayTimeline(vc: seq<(Timestamp, nat)>): DayCounts {
    if vc == [] then []
    else
      var n := |vc| - 1;
      DictSet(DayTimeline(vc[..n]), Day(vc[n].0), vc[n].1)
  }

  /** The timeline of get_event_analytics over the guests' updatedAt values. */
  function Timeline(ts: seq<Timestamp>): DayCounts {
    DayTimeline(ValueCounts(ts))
  }

  function SumValues(d: DayCounts): nat {
    if d == [] then 0 else d[0].1 + SumValues(d[1..])
  }

  function SumCounts(vc: seq<(Timestamp, nat)>): nat {
    if vc == [] then 0 else vc[0].1 + SumCounts(vc[1..])
  }

  // ---- per-event analytics ----

  datatype EventStats = EventStats(totalGuests: nat, responseRate: Rate, confirmationRate: Rate, totalAttending: int)

  datatype EventAnalytics = EventAnalytics(timeline: DayCounts, stats: EventStats)

  /** The result the except branch returns. */
  const Fallback: EventAnalytics := EventAnalytics([], EventStats(0, Zero, Zero, 0))

  /** The response_date column of the guest DataFrame. */
  function UpdatedAts(gs: seq<GuestRow>): (ts: seq<Timestamp>)
    ensures |ts| == |gs|
    ensures forall i :: 0 <= i < |gs| ==> ts[i] == gs[i].updatedAt
  {
    if gs == [] then [] else [gs[0].updatedAt] + UpdatedAts(gs[1..])
  }

  /** get_event_analytics(event_id) over the Events and Guests tables. */
  function GetEventAnalytics(events: seq<Event>, rows: seq<GuestRow>, eventId: int, dbOk: bool): Option<EventAnalytics> {
    if !dbOk then Some(Fallback)
    else if FindEvent(events, eventId).None? then None
    else
      var gs := GuestsOf(rows, eventId);
      var confirmed := CountStatus(gs, Confirmed);
      var responded := CountStatus(gs, Confirmed) + CountStatus(gs, Declined);
      var timeline := if gs == [] then [] else Timeline(UpdatedAts(gs));
      var attending := if gs == [] then 0 else ConfirmedPlusOnes(gs) + confirmed;
      Some(EventAnalytics(timeline, EventStats(|gs|, RateOf(responded, |gs|), RateOf(confirmed, |gs|), attending)))
  }

  // ---- organizer analytics ----

  datatype OrganizerAnalytics = OrganizerAnalytics(totalEvents: nat, totalGuests: nat,
                                                   averageResponseRate: Rate, averageConfirmationRate: Rate)

  /** Event.query.filter_by(organizerId=…), in table order. */
  function OwnedEvents(events: seq<Event>, organizerId: int): (es: seq<Event>)
    ensures forall e :: e in es <==> e in events && e.organizerId == organizerId
  {
    if events == [] then []
    else
      var n := |events| - 1;
      OwnedEvents(events[..n], organizerId) + (if events[n].organizerId == organizerId then [events[n]] else [])
  }

  /** Number of guests whose status is not pending. */
  function CountAnswered(gs: seq<GuestRow>): (n: nat)
    ensures n <= |gs|
  {
    if gs == [] then 0 else (if gs[0].status != Pending then 1 else 0) + CountAnswered(gs[1..])
  }

  datatype Totals = Totals(guests: nat, responses: nat, confirmed: nat)

  /** The three accumulators after the loop has gone through the events es. */
  function OrganizerTotals(es: seq<Event>, rows: seq<GuestRow>): Totals {
    if es == [] then Totals(0, 0, 0)
    else
      var n := |es| - 1;
      var t := OrganizerTotals(es[..n], rows);
      var gs := GuestsOf(rows, es[n].id);
      Totals(t.guests + |gs|, t.responses + CountAnswered(gs), t.confirmed + CountStatus(gs, Confirmed))
  }

  /** The dictionary get_organizer_analytics returns from its try branch. */
  function OrganizerSummary(es: seq<Event>, rows: seq<GuestRow>): OrganizerAnalytics {
    var t := OrganizerTotals(es, rows);
    OrganizerAnalytics(|es|, t.guests, RateOf(t.responses, t.guests), RateOf(t.confirmed, t.guests))
  }

  /** get_organizer_analytics(organizer_id): the accumulator loop over the organizer's events. */
  method GetOrganizerAnalytics(events: seq<Event>, rows: seq<GuestRow>, organizerId: int, dbOk: bool)
    returns (r: OrganizerAnalytics)
    ensures !dbOk ==> r == OrganizerAnalytics(0, 0, Zero, Zero)
    ensures dbOk ==> r == OrganizerSummary(OwnedEvents(events, organizerId), rows)
  {
    if !dbOk {
      return OrganizerAnalytics(0, 0, Zero, Zero);
    }
    var owned := OwnedEvents(events, organizerId);
    var totalGuests: nat, totalResponses: nat, totalConfirmed: nat := 0, 0, 0;
    var i := 0;
    while i < |owned|
      invariant 0 <= i <= |owned|
      invariant Totals(totalGuests, totalResponses, totalConfirmed) == OrganizerTotals(owned[..i], rows)
    {
      var guests := GuestsOf(rows, owned[i].id);
      assert owned[..i + 1][..i] == owned[..i];
      totalGuests := totalGuests + |guests|;
      totalResponses := totalResponses + CountAnswered(guests);
      totalConfirmed := totalConfirmed + CountStatus(guests, Confirmed);
      i := i + 1;
    }
    assert owned[..i] == owned;
    r := OrganizerAnalytics(|owned|, totalGuests, RateOf(totalResponses, totalGuests), RateOf(totalConfirmed, totalGuests));
  }

  // ---- lemmas: the timeline ----

  predicate AscendingKeys(vc: seq<(Timestamp, nat)>) {
    forall a, b :: 0 <= a < b < |vc| ==> vc[a].0 < vc[b].0
  }

  predicate DaysAscending(d: DayCounts) {
    forall a, b :: 0 <= a < b < |d| ==> d[a].0 < d[b].0
  }

  /** vc[i] is the last item of its day. */
  predicate LastOfDay(vc: seq<(Timestamp, nat)>, i: nat)
    requires i < |vc|
  {
    forall i' :: i < i' < |vc| ==> Day(vc[i'].0) != Day(vc[i].0)
  }

  lemma DayMonotone(a: Timestamp, b: Timestamp)
    requires a <= b
    ensures Day(a) <= Day(b)
  {
  }

  lemma AscendingTail(d: DayCounts)
    requires DaysAscending(d) && d != []
    ensures DaysAscending(d[1..])
  {
    var t := d[1..];
    forall a, b | 0 <= a < b < |t|
      ensures t[a].0 < t[b].0
    {
      assert t[a] == d[a + 1] && t[b] == d[b + 1];
    }
  }

  /** d[k] = v for a key k that d does not hold appends the entry. */
  lemma {:induction false} DictSetAppendNew(d: DayCounts, k: int, v: nat)
    requires forall j :: 0 <= j < |d| ==> d[j].0 != k
    ensures DictSet(d, k, v) == d + [(k, v)]
  {
    if d != [] {
      var t := d[1..];
      assert forall j :: 0 <= j < |t| ==> t[j].0 != k by {
        forall j | 0 <= j < |t|
          ensures t[j].0 != k
        {
          assert t[j] == d[j + 1];
        }
      }
      DictSetAppendNew(t, k, v);
      assert d + [(k, v)] == [d[0]] + (t + [(k, v)]);
    }
  }

  /** d[k] = v for the last key of an ascending dict rewrites the last entry in place. */
  lemma {:induction false} DictSetOverwriteLast(d: DayCounts, k: int, v: nat)
    requires DaysAscending(d) && d != [] && d[|d| - 1].0 == k
    ensures DictSet(d, k, v) == d[..|d| - 1] + [(k, v)]
  {
    if |d| > 1 {
      var t := d[1..];
      assert d[0].0 < d[|d| - 1].0;
      AscendingTail(d);
      assert t[|t| - 1] == d[|d| - 1];
      DictSetOverwriteLast(t, k, v);
      assert d[..|d| - 1] + [(k, v)] == [d[0]] + (t[..|t| - 1] + [(k, v)]);
    }
  }

  /** On a dict whose keys ascend and do not exceed k, d[k] = v rewrites the last entry or appends. */
  lemma DictSetAtEnd(d: DayCounts, k: int, v: nat)
    requires DaysAscending(d)
    requires forall j :: 0 <= j < |d| ==> d[j].0 <= k
    ensures DictSet(d, k, v) == if d != [] && d[|d| - 1].0 == k then d[..|d| - 1] + [(k, v)] else d + [(k, v)]
  {
    if d != [] && d[|d| - 1].0 == k {
      DictSetOverwriteLast(d, k, v);
    } else {
      BelowAndNotLastIsBelow(d, k);
      DictSetAppendNew(d, k, v);
    }
  }

  lemma {:induction false} DictSetSum(d: DayCounts, k: int, v: nat)
    ensures SumValues(DictSet(d, k, v)) <= SumValues(d) + v
  {
    if d != [] && d[0].0 != k {
      DictSetSum(d[1..], k, v);
    }
  }

  /** Every day of vc is a key of tl. */
  ghost predicate CoversDays(vc: seq<(Timestamp, nat)>, tl: DayCounts) {
    forall i :: 0 <= i < |vc| ==> Day(vc[i].0) in Keys(tl)
  }

  /** Every entry of tl is the day and count of the last item of vc on that day. */
  ghost predicate EntriesFromLast(vc: seq<(Timestamp, nat)>, tl: DayCounts) {
    forall j :: 0 <= j < |tl| ==> exists i :: 0 <= i < |vc| && LastOfDay(vc, i) && tl[j] == (Day(vc[i].0), vc[i].1)
  }

  /** The days of tl ascend and the last is the day of the last item of vc. */
  ghost predicate Ordered(vc: seq<(Timestamp, nat)>, tl: DayCounts) {
    && DaysAscending(tl)
    && (|vc| > 0 ==> |tl| > 0 && tl[|tl| - 1].0 == Day(vc[|vc| - 1].0))
    && (|vc| == 0 ==> tl == [])
  }

  /** Every day already in the timeline of a prefix is at most the day of the next item. */
  lemma KeysBelow(vc: seq<(Timestamp, nat)>, tl: DayCounts)
    requires |vc| > 0 && AscendingKeys(vc)
    requires Ordered(vc[..|vc| - 1], tl)
    ensures forall j :: 0 <= j < |tl| ==> tl[j].0 <= Day(vc[|vc| - 1].0)
  {
    var n := |vc| - 1;
    if n > 0 {
      DayMonotone(vc[n - 1].0, vc[n].0);
      forall j | 0 <= j < |tl|
        ensures tl[j].0 <= Day(vc[n].0)
      {
        if j < |tl| - 1 {
          assert tl[j].0 < tl[|tl| - 1].0;
        }
      }
    }
  }

  lemma SameDayEntries(vc: seq<(Timestamp, nat)>, tl: DayCounts)
    requires |vc| > 0
    requires DaysAscending(tl) && EntriesFromLast(vc[..|vc| - 1], tl)
    requires tl != [] && tl[|tl| - 1].0 == Day(vc[|vc| - 1].0)
    ensures EntriesFromLast(vc, tl[..|tl| - 1] + [(Day(vc[|vc| - 1].0), vc[|vc| - 1].1)])
  {
    var n := |vc| - 1;
    var front := vc[..n];
    var m := |tl| - 1;
    var r := tl[..m] + [(Day(vc[n].0), vc[n].1)];
    forall j | 0 <= j < |r|
      ensures exists i :: 0 <= i < |vc| && LastOfDay(vc, i) && r[j] == (Day(vc[i].0), vc[i].1)
    {
      if j < m {
        var i :| 0 <= i < n && LastOfDay(front, i) && tl[j] == (Day(front[i].0), front[i].1);
        assert tl[j].0 < tl[m].0;
        assert LastOfDay(vc, i);
      } else {
        assert LastOfDay(vc, n);
      }
    }
  }

  lemma SameDayCovers(vc: seq<(Timestamp, nat)>, tl: DayCounts)
    requires |vc| > 0
    requires CoversDays(vc[..|vc| - 1], tl)
    requires tl != [] && tl[|tl| - 1].0 == Day(vc[|vc| - 1].0)
    ensures CoversDays(vc, tl[..|tl| - 1] + [(Day(vc[|vc| - 1].0), vc[|vc| - 1].1)])
  {
    var n := |vc| - 1;
    var m := |tl| - 1;
    var r := tl[..m] + [(Day(vc[n].0), vc[n].1)];
    forall i | 0 <= i < |vc|
      ensures Day(vc[i].0) in Keys(r)
    {
      if i < n {
        assert Day(vc[..n][i].0) in Keys(tl);
        var p :| p in tl && p.0 == Day(vc[i].0);
        var j :| 0 <= j < |tl| && tl[j] == p;
        if j < m { assert r[j] == p; } else { assert r[m].0 == p.0; }
      } else {
        assert r[m].0 == Day(vc[n].0);
      }
    }
  }

  lemma NewDayEntries(vc: seq<(Timestamp, nat)>, tl: DayCounts)
    requires |vc| > 0
    requires DaysAscending(tl) && EntriesFromLast(vc[..|vc| - 1], tl)
    requires forall j :: 0 <= j < |tl| ==> tl[j].0 < Day(vc[|vc| - 1].0)
    ensures EntriesFromLast(vc, tl + [(Day(vc[|vc| - 1].0), vc[|vc| - 1].1)])
  {
    var n := |vc| - 1;
    var front := vc[..n];
    var r := tl + [(Day(vc[n].0), vc[n].1)];
    forall j | 0 <= j < |r|
      ensures exists i :: 0 <= i < |vc| && LastOfDay(vc, i) && r[j] == (Day(vc[i].0), vc[i].1)
    {
      if j < |tl| {
        var i :| 0 <= i < n && LastOfDay(front, i) && tl[j] == (Day(front[i].0), front[i].1);
        assert LastOfDay(vc, i);
      } else {
        assert LastOfDay(vc, n);
      }
    }
  }

  lemma NewDayCovers(vc: seq<(Timestamp, nat)>, tl: DayCounts)
    requires |vc| > 0
    requires CoversDays(vc[..|vc| - 1], tl)
    ensures CoversDays(vc, tl + [(Day(vc[|vc| - 1].0), vc[|vc| - 1].1)])
  {
    var n := |vc| - 1;
    var r := tl + [(Day(vc[n].0), vc[n].1)];
    forall i | 0 <= i < |vc|
      ensures Day(vc[i].0) in Keys(r)
    {
      if i < n {
        assert Day(vc[..n][i].0) in Keys(tl);
        var p :| p in tl && p.0 == Day(vc[i].0);
        assert p in r;
      } else {
        assert r[|tl|].0 == Day(vc[n].0);
      }
    }
  }

  lemma BelowAndNotLastIsBelow(tl: DayCounts, k: int)
    requires DaysAscending(tl)
    requires forall j :: 0 <= j < |tl| ==> tl[j].0 <= k
    requires !(tl != [] && tl[|tl| - 1].0 == k)
    ensures forall j :: 0 <= j < |tl| ==> tl[j].0 < k
  {
    forall j | 0 <= j < |tl|
      ensures tl[j].0 < k
    {
      if j < |tl| - 1 {
        assert tl[j].0 < tl[|tl| - 1].0;
      }
    }
  }

  lemma SameDayAscending(tl: DayCounts, v: nat)
    requires DaysAscending(tl) && tl != []
    ensures DaysAscending(tl[..|tl| - 1] + [(tl[|tl| - 1].0, v)])
  {
    var r := tl[..|tl| - 1] + [(tl[|tl| - 1].0, v)];
    forall a, b | 0 <= a < b < |r|
      ensures r[a].0 < r[b].0
    {
      assert r[a].0 == tl[a].0 && r[b].0 == tl[b].0;
    }
  }

  lemma NewDayAscending(tl: DayCounts, k: int, v: nat)
    requires DaysAscending(tl)
    requires forall j :: 0 <= j < |tl| ==> tl[j].0 < k
    ensures DaysAscending(tl + [(k, v)])
  {
    var r := tl + [(k, v)];
    forall a, b | 0 <= a < b < |r|
      ensures r[a].0 < r[b].0
    {
      if b < |tl| {
        assert r[a] == tl[a] && r[b] == tl[b];
      }
    }
  }

  /** The timeline's days ascend strictly and end with the day of the latest timestamp. */
  lemma {:induction false} DayTimelineOrdered(vc: seq<(Timestamp, nat)>)
    requires AscendingKeys(vc)
    ensures Ordered(vc, DayTimeline(vc))
    decreases |vc|
  {
    if vc != [] {
      var n := |vc| - 1;
      var tl, k, v := DayTimeline(vc[..n]), Day(vc[n].0), vc[n].1;
      DayTimelineOrdered(vc[..n]);
      KeysBelow(vc, tl);
      DictSetAtEnd(tl, k, v);
      if tl != [] && tl[|tl| - 1].0 == k {
        SameDayAscending(tl, v);
      } else {
        BelowAndNotLastIsBelow(tl, k);
        NewDayAscending(tl, k, v);
      }
    }
  }

  /** Every day of the counted timestamps gets an entry. */
  lemma {:induction false} DayTimelineCovers(vc: seq<(Timestamp, nat)>)
    requires AscendingKeys(vc)
    ensures CoversDays(vc, DayTimeline(vc))
    decreases |vc|
  {
    if vc != [] {
      var n := |vc| - 1;
      var tl, k, v := DayTimeline(vc[..n]), Day(vc[n].0), vc[n].1;
      DayTimelineCovers(vc[..n]);
      DayTimelineOrdered(vc[..n]);
      KeysBelow(vc, tl);
      DictSetAtEnd(tl, k, v);
      if tl != [] && tl[|tl| - 1].0 == k {
        SameDayCovers(vc, tl);
      } else {
        NewDayCovers(vc, tl);
      }
    }
  }

  /** Each entry holds the day and count of the last item of that day. */
  lemma {:induction false} DayTimelineEntries(vc: seq<(Timestamp, nat)>)
    requires AscendingKeys(vc)
    ensures EntriesFromLast(vc, DayTimeline(vc))
    decreases |vc|
  {
    if vc != [] {
      var n := |vc| - 1;
      var tl, k, v := DayTimeline(vc[..n]), Day(vc[n].0), vc[n].1;
      DayTimelineEntries(vc[..n]);
      DayTimelineOrdered(vc[..n]);
      KeysBelow(vc, tl);
      DictSetAtEnd(tl, k, v);
      if tl != [] && tl[|tl| - 1].0 == k {
        SameDayEntries(vc, tl);
      } else {
        BelowAndNotLastIsBelow(tl, k);
        NewDayEntries(vc, tl);
      }
    }
  }

  /** Overwriting can only lose counts: the timeline sums to at most the counts. */
  lemma {:induction false} DayTimelineSum(vc: seq<(Timestamp, nat)>)
    ensures SumValues(DayTimeline(vc)) <= SumCounts(vc)
    decreases |vc|
  {
    if vc != [] {
      var n := |vc| - 1;
      DayTimelineSum(vc[..n]);
      DictSetSum(DayTimeline(vc[..n]), Day(vc[n].0), vc[n].1);
      SumCountsSnoc(vc);
    }
  }

  lemma {:induction false} SumCountsSnoc(vc: seq<(Timestamp, nat)>)
    requires vc != []
    ensures SumCounts(vc) == SumCounts(vc[..|vc| - 1]) + vc[|vc| - 1].1
    decreases |vc|
  {
    if |vc| > 1 {
      SumCountsSnoc(vc[1..]);
      assert vc[1..][..|vc| - 2] == vc[..|vc| - 1][1..];
    }
  }

  /** A key listed once in a strictly ascending list occurs exactly once. */
  lemma {:induction false} CountOnce(keys: seq<Timestamp>, x: Timestamp)
    requires StrictlyAscending(keys) && x in keys
    ensures Count(keys, x) == 1
  {
    if keys[0] != x {
      CountOnce(keys[1..], x);
    } else {
      assert x !in keys[1..] by {
        forall j | 0 < j < |keys|
          ensures keys[j] != x
        {
          assert keys[0] < keys[j];
        }
      }
    }
  }

  lemma {:induction false} CountsSplitHead(keys: seq<Timestamp>, x: Timestamp, rest: seq<Timestamp>)
    ensures SumCounts(WithCounts(keys, [x] + rest)) == Count(keys, x) + SumCounts(WithCounts(keys, rest))
  {
    if keys != [] {
      CountsSplitHead(keys[1..], x, rest);
      assert ([x] + rest)[1..] == rest;
    }
  }

  /** Summing the count of every distinct key gives back the number of timestamps. */
  lemma {:induction false} CountsCoverAll(keys: seq<Timestamp>, ts: seq<Timestamp>)
    requires StrictlyAscending(keys)
    requires forall t :: t in ts ==> t in keys
    ensures SumCounts(WithCounts(keys, ts)) == |ts|
  {
    if ts == [] {
      ZeroCounts(keys);
    } else {
      CountsSplitHead(keys, ts[0], ts[1..]);
      assert [ts[0]] + ts[1..] == ts;
      CountOnce(keys, ts[0]);
      CountsCoverAll(keys, ts[1..]);
    }
  }

  lemma {:induction false} ZeroCounts(keys: seq<Timestamp>)
    ensures SumCounts(WithCounts(keys, [])) == 0
  {
    if keys != [] {
      ZeroCounts(keys[1..]);
    }
  }

  /** value_counts tallies each guest exactly once. */
  lemma ValueCountsTotal(ts: seq<Timestamp>)
    ensures SumCounts(ValueCounts(ts)) == |ts|
  {
    CountsCoverAll(SortedKeys(ts), ts);
  }

  /** t is the latest of the timestamps ts that fall on its day. */
  ghost predicate LatestOfItsDay(ts: seq<Timestamp>, t: Timestamp) {
    t in ts && forall u :: u in ts && Day(u) == Day(t) ==> u <= t
  }

  /** The days of the timeline ascend strictly: one entry per day, oldest first. */
  lemma TimelineAscending(ts: seq<Timestamp>)
    ensures DaysAscending(Timeline(ts))
  {
    DayTimelineOrdered(ValueCounts(ts));
  }

  /** Every day on which some guest was last updated has an entry. */
  lemma TimelineCoversDays(ts: seq<Timestamp>)
    ensures forall t :: t in ts ==> Day(t) in Keys(Timeline(ts))
  {
    var keys := SortedKeys(ts);
    var vc := ValueCounts(ts);
    DayTimelineCovers(vc);
    forall t | t in ts
      ensures Day(t) in Keys(Timeline(ts))
    {
      var i :| 0 <= i < |keys| && keys[i] == t;
      assert Day(vc[i].0) in Keys(Timeline(ts));
    }
  }

  /** The entry (day, n) counts the n guests updated at the latest timestamp of that day. */
  ghost predicate CountsLatestOfDay(ts: seq<Timestamp>, entry: (int, nat)) {
    exists t :: LatestOfItsDay(ts, t) && Day(t) == entry.0 && entry.1 == Count(ts, t)
  }

  /**
   * Each day's value is the number of guests updated at the latest timestamp of
   * that day: the comprehension overwrites the earlier timestamps of the day.
   */
  lemma TimelineKeepsLatestPerDay(ts: seq<Timestamp>)
    ensures forall entry :: entry in Timeline(ts) ==> CountsLatestOfDay(ts, entry)
  {
    forall entry | entry in Timeline(ts)
      ensures CountsLatestOfDay(ts, entry)
    {
      var j :| 0 <= j < |Timeline(ts)| && Timeline(ts)[j] == entry;
      EntryIsLatest(ts, j);
    }
  }

  lemma EntryIsLatest(ts: seq<Timestamp>, j: int)
    requires 0 <= j < |Timeline(ts)|
    ensures CountsLatestOfDay(ts, Timeline(ts)[j])
  {
    var keys := SortedKeys(ts);
    var vc := ValueCounts(ts);
    var tl := Timeline(ts);
    DayTimelineEntries(vc);
    var i :| 0 <= i < |vc| && LastOfDay(vc, i) && tl[j] == (Day(vc[i].0), vc[i].1);
    LastKeyIsLatest(ts, keys, vc, i);
    assert LatestOfItsDay(ts, keys[i]);
  }

  lemma NotAfterLastOfDay(vc: seq<(Timestamp, nat)>, i: nat, i': nat)
    requires i < |vc| && i' < |vc| && LastOfDay(vc, i) && Day(vc[i'].0) == Day(vc[i].0)
    ensures i' <= i
  {
  }

  lemma LastKeyIsLatest(ts: seq<Timestamp>, keys: seq<Timestamp>, vc: seq<(Timestamp, nat)>, i: nat)
    requires keys == SortedKeys(ts) && vc == WithCounts(keys, ts)
    requires i < |vc| && LastOfDay(vc, i)
    ensures LatestOfItsDay(ts, keys[i])
  {
    var t := keys[i];
    forall u | u in ts && Day(u) == Day(t)
      ensures u <= t
    {
      var i' :| 0 <= i' < |keys| && keys[i'] == u;
      NotAfterLastOfDay(vc, i, i');
    }
  }

  /** The per-day values add up to at most the number of guests. */
  lemma TimelineSumBound(ts: seq<Timestamp>)
    ensures SumValues(Timeline(ts)) <= |ts|
  {
    DayTimelineSum(ValueCounts(ts));
    ValueCountsTotal(ts);
  }

  // ---- lemmas: per-event analytics ----

  /** The except branch yields the zero result; a missing event yields nothing (the route's 404). */
  lemma EventAnalyticsErrors(events: seq<Event>, rows: seq<GuestRow>, eventId: int, dbOk: bool)
    ensures !dbOk ==> GetEventAnalytics(events, rows, eventId, dbOk) == Some(Fallback)
    ensures dbOk ==> (GetEventAnalytics(events, rows, eventId, dbOk).None? <==> forall e :: e in events ==> e.id != eventId)
  {
    if dbOk && FindEvent(events, eventId).Some? {
      assert FindEvent(events, eventId).value in events;
    }
  }

  /** Every guest is answered (confirmed or declined) or pending; answered counts both. */
  lemma {:induction false} CountAnsweredSplit(gs: seq<GuestRow>)
    ensures CountAnswered(gs) == CountStatus(gs, Confirmed) + CountStatus(gs, Declined)
    ensures CountAnswered(gs) + CountStatus(gs, Pending) == |gs|
  {
    if gs != [] {
      CountAnsweredSplit(gs[1..]);
    }
  }

  /**
   * The event statistics agree with get_rsvp_stats over Event.guests: all of
   * the event's guests are counted, the response rate is the share of guests
   * who are not pending, the confirmation rate the share who confirmed, both are
   * 0 when there are no guests, and the timeline accounts for at most every guest.
   */
  lemma EventStatsAgree(events: seq<Event>, rows: seq<GuestRow>, eventId: int)
    requires FindEvent(events, eventId).Some?
    ensures var r := GetEventAnalytics(events, rows, eventId, true);
            var gs := GuestsOf(rows, eventId);
            var rsvp := GetRsvpStats(gs);
            && r.Some?
            && r.value.stats.totalGuests == |gs|
            && r.value.stats.totalAttending == rsvp.totalAttending == SumAttending(gs)
            && (gs == [] ==> r.value.stats.responseRate == Zero && r.value.stats.confirmationRate == Zero && r.value.timeline == [])
            && (gs != [] ==> r.value.stats.responseRate == Ratio(|gs| - rsvp.pending, |gs|)
                             && r.value.stats.confirmationRate == Ratio(rsvp.confirmed, |gs|))
            && SumValues(r.value.timeline) <= |gs|
  {
    var gs := GuestsOf(rows, eventId);
    CountAnsweredSplit(gs);
    TotalAttendingIsHeadCount(gs);
    if gs != [] {
      TimelineSumBound(UpdatedAts(gs));
    }
  }

  /** The confirmation rate never exceeds the response rate, which never exceeds 1. */
  lemma EventRatesOrdered(events: seq<Event>, rows: seq<GuestRow>, eventId: int)
    requires FindEvent(events, eventId).Some?
    ensures var st := GetEventAnalytics(events, rows, eventId, true).value.stats;
            st.responseRate.Ratio? ==>
              st.confirmationRate.Ratio? && st.confirmationRate.den == st.responseRate.den == st.totalGuests
              && st.confirmationRate.num <= st.responseRate.num <= st.responseRate.den
  {
    var gs := GuestsOf(rows, eventId);
    RsvpStatsPartition(gs);
  }

  // ---- lemmas: organizer analytics ----

  /** The organizer-wide tallies are ordered like a single event's. */
  lemma {:induction false} OrganizerTotalsOrdered(es: seq<Event>, rows: seq<GuestRow>)
    ensures var t := OrganizerTotals(es, rows); t.confirmed <= t.responses <= t.guests
  {
    if es != [] {
      var n := |es| - 1;
      OrganizerTotalsOrdered(es[..n], rows);
      CountAnsweredSplit(GuestsOf(rows, es[n].id));
    }
  }

  /** The guests whose event is one of ids, in table order. */
  function GuestsIn(rows: seq<GuestRow>, ids: set<int>): seq<GuestRow> {
    if rows == [] then []
    else
      var n := |rows| - 1;
      GuestsIn(rows[..n], ids) + (if rows[n].eventId in ids then [rows[n]] else [])
  }

  lemma {:induction false} GuestsInMembers(rows: seq<GuestRow>, ids: set<int>)
    ensures forall g :: g in GuestsIn(rows, ids) <==> g in rows && g.eventId in ids
  {
    if rows != [] {
      var n := |rows| - 1;
      GuestsInMembers(rows[..n], ids);
      assert rows == rows[..n] + [rows[n]];
    }
  }

  lemma {:induction false} GuestsInAddEvent(rows: seq<GuestRow>, ids: set<int>, id: int)
    requires id !in ids
    ensures |GuestsIn(rows, ids + {id})| == |GuestsIn(rows, ids)| + |GuestsOf(rows, id)|
  {
    if rows != [] {
      GuestsInAddEvent(rows[..|rows| - 1], ids, id);
    }
  }

  lemma {:induction false} OwnedDistinct(events: seq<Event>, organizerId: int)
    requires DistinctIds(events)
    ensures DistinctIds(OwnedEvents(events, organizerId))
  {
    if events != [] {
      var n := |events| - 1;
      OwnedDistinct(events[..n], organizerId);
      var front := OwnedEvents(events[..n], organizerId);
      forall e | e in front
        ensures e.id != events[n].id
      {
        var p :| 0 <= p < n && events[..n][p] == e;
      }
    }
  }

  /**
   * With event ids unique, total_guests counts each guest of the organizer's
   * events exactly once: it is the number of Guests rows whose event is one of them.
   */
  lemma {:induction false} OrganizerGuestsCounted(es: seq<Event>, rows: seq<GuestRow>)
    requires DistinctIds(es)
    ensures OrganizerTotals(es, rows).guests == |GuestsIn(rows, Ids(es))|
  {
    if es == [] {
      assert Ids(es) == {};
      NoGuestsInNothing(rows);
    } else {
      var n := |es| - 1;
      var front := es[..n];
      OrganizerGuestsCounted(front, rows);
      assert Ids(es) == Ids(front) + {es[n].id} by {
        assert es == front + [es[n]];
      }
      assert es[n].id !in Ids(front) by {
        forall e | e in front
          ensures e.id != es[n].id
        {
          var p :| 0 <= p < n && front[p] == e;
        }
      }
      GuestsInAddEvent(rows, Ids(front), es[n].id);
    }
  }

  lemma {:induction false} NoGuestsInNothing(rows: seq<GuestRow>)
    ensures GuestsIn(rows, {}) == []
  {
    if rows != [] {
      NoGuestsInNothing(rows[..|rows| - 1]);
    }
  }

  /**
   * get_organizer_analytics counts the organizer's own events, every guest of
   * them once, and its two averages are ordered shares of those guests, both 0
   * when the organizer has no guests.
   */
  lemma OrganizerSummaryMeaning(events: seq<Event>, rows: seq<GuestRow>, organizerId: int)
    requires DistinctIds(events)
    ensures var owned := OwnedEvents(events, organizerId);
            var s := OrganizerSummary(owned, rows);
            && s.totalEvents == |owned|
            && s.totalGuests == |GuestsIn(rows, Ids(owned))|
            && (s.totalGuests == 0 <==> s.averageResponseRate == Zero)
            && (s.totalGuests == 0 <==> s.averageConfirmationRate == Zero)
            && (s.averageResponseRate.Ratio? ==>
                  s.averageConfirmationRate.num <= s.averageResponseRate.num <= s.averageResponseRate.den == s.totalGuests)
  {
    var owned := OwnedEvents(events, organizerId);
    OwnedDistinct(events, organizerId);
    OrganizerGuestsCounted(owned, rows);
    OrganizerTotalsOrdered(owned, rows);
  }
}
