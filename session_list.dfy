/**
 * The logic of the session list page over the sessions of the list file:
 * personal and track bests, trends, the sort order and the filter. Dates
 * are integer timestamps in milliseconds.
 */
module SessionList {
  import opened Optional
  import opened Text
  import opened JsValues
  import opened IndexTime
  import opened Sorting

  /** One session of the list, with the fields the page reads. */
  datatype Session = Session(
    id: string,
    driver: string,
    trackName: string,
    trackConfig: string,
    date: int,
    fastestLap: Json,
    kart: Option<string>)

  /** The session's fastest lap as the list page reads it; Infinity when it has none. */
  function LapTime(s: Session): JsNum
  {
    IndexParseTime(s.fastestLap)
  }

  // ----- personal and track bests -----

  function TrackKey(s: Session): string
  {
    s.trackName + "_" + s.trackConfig
  }

  function DriverKey(s: Session): string
  {
    s.driver + "_" + TrackKey(s)
  }

  /** The key of the personal bests (per driver, track and configuration) or of the track bests. */
  function BestKey(s: Session, perDriver: bool): string
  {
    if perDriver then DriverKey(s) else TrackKey(s)
  }

  datatype Best = Best(time: JsNum, sessionId: string)

  /** One step of calculatePersonalBests: a new key, or a strictly faster time, takes the record. */
  function Record(m: map<string, Best>, s: Session, perDriver: bool): map<string, Best>
  {
    var k := BestKey(s, perDriver);
    if k !in m || Less(LapTime(s), m[k].time) then m[k := Best(LapTime(s), s.id)] else m
  }

  /** The records after going through the sessions in list order. */
  function Bests(sessions: seq<Session>, perDriver: bool): map<string, Best>
  {
    if sessions == [] then map[]
    else Record(Bests(sessions[..|sessions| - 1], perDriver), sessions[|sessions| - 1], perDriver)
  }

  /** A key has a record exactly when some session has that key. */
  lemma BestsKeys(sessions: seq<Session>, perDriver: bool)
    ensures forall k :: k in Bests(sessions, perDriver) <==>
      exists i :: 0 <= i < |sessions| && BestKey(sessions[i], perDriver) == k
  {
    forall k | k in Bests(sessions, perDriver)
      ensures exists i :: 0 <= i < |sessions| && BestKey(sessions[i], perDriver) == k
    {
      var i := KeyOwner(sessions, perDriver, k);
    }
    forall i | 0 <= i < |sessions|
      ensures BestKey(sessions[i], perDriver) in Bests(sessions, perDriver)
    {
      KeyRecorded(sessions, perDriver, i);
    }
  }

  /** Every session's key has a record. */
  lemma KeyRecorded(sessions: seq<Session>, perDriver: bool, i: nat)
    requires i < |sessions|
    ensures BestKey(sessions[i], perDriver) in Bests(sessions, perDriver)
  {
    KeyInSessionKeys(sessions, perDriver, i);
    BestsKeysAre(sessions, perDriver);
  }

  /** The keys of the sessions, in a set. */
  function SessionKeys(sessions: seq<Session>, perDriver: bool): set<string>
  {
    if sessions == [] then {}
    else SessionKeys(sessions[..|sessions| - 1], perDriver) + {BestKey(sessions[|sessions| - 1], perDriver)}
  }

  /** The records are keyed by exactly the sessions' keys. */
  lemma {:induction false} BestsKeysAre(sessions: seq<Session>, perDriver: bool)
    ensures Bests(sessions, perDriver).Keys == SessionKeys(sessions, perDriver)
  {
    if sessions != [] {
      BestsKeysAre(sessions[..|sessions| - 1], perDriver);
      BestsStepKeys(sessions, perDriver);
    }
  }

  lemma {:induction false} KeyInSessionKeys(sessions: seq<Session>, perDriver: bool, i: nat)
    requires i < |sessions|
    ensures BestKey(sessions[i], perDriver) in SessionKeys(sessions, perDriver)
  {
    var n := |sessions| - 1;
    var init := sessions[..n];
    if i < n {
      KeyInSessionKeys(init, perDriver, i);
      assert init[i] == sessions[i];
    }
  }

  /** Every record belongs to the key of some session. */
  lemma {:induction false} KeyOwner(sessions: seq<Session>, perDriver: bool, k: string) returns (i: nat)
    requires k in Bests(sessions, perDriver)
    ensures i < |sessions| && BestKey(sessions[i], perDriver) == k
  {
    var n := |sessions| - 1;
    var init := sessions[..n];
    BestsStepKeys(sessions, perDriver);
    if k == BestKey(sessions[n], perDriver) {
      i := n;
    } else {
      i := KeyOwner(init, perDriver, k);
      assert init[i] == sessions[i];
    }
  }

  /** A step of the bests adds the session's key and no other. */
  lemma BestsStepKeys(sessions: seq<Session>, perDriver: bool)
    requires sessions != []
    ensures var n := |sessions| - 1;
      Bests(sessions, perDriver).Keys == Bests(sessions[..n], perDriver).Keys + {BestKey(sessions[n], perDriver)}
  {
    var n := |sessions| - 1;
    RecordKeys(Bests(sessions[..n], perDriver), sessions[n], perDriver);
  }

  lemma RecordKeys(m: map<string, Best>, s: Session, perDriver: bool)
    ensures Record(m, s, perDriver).Keys == m.Keys + {BestKey(s, perDriver)}
  {
  }

  /** No session is faster than the record of its key. */
  lemma BestsMinimal(sessions: seq<Session>, perDriver: bool)
    ensures forall i :: 0 <= i < |sessions| ==>
      BestKey(sessions[i], perDriver) in Bests(sessions, perDriver) &&
      !Less(LapTime(sessions[i]), Bests(sessions, perDriver)[BestKey(sessions[i], perDriver)].time)
  {
    forall i | 0 <= i < |sessions|
      ensures BestKey(sessions[i], perDriver) in Bests(sessions, perDriver)
      ensures !Less(LapTime(sessions[i]), Bests(sessions, perDriver)[BestKey(sessions[i], perDriver)].time)
    {
      RecordNotBeaten(sessions, perDriver, i);
    }
  }

  /** Session `i` is not faster than the record of its key. */
  lemma {:induction false} RecordNotBeaten(sessions: seq<Session>, perDriver: bool, i: nat)
    requires i < |sessions|
    ensures BestKey(sessions[i], perDriver) in Bests(sessions, perDriver)
    ensures !Less(LapTime(sessions[i]), Bests(sessions, perDriver)[BestKey(sessions[i], perDriver)].time)
  {
    var n := |sessions| - 1;
    var init := sessions[..n];
    if i < n {
      RecordNotBeaten(init, perDriver, i);
      assert init[i] == sessions[i];
      RecordKeepsBeaten(Bests(init, perDriver), sessions[n], perDriver, sessions[i]);
    } else {
      RecordHolds(Bests(init, perDriver), sessions[n], perDriver);
    }
  }

  /** A step keeps every session that was not faster than its record from beating the new one. */
  lemma RecordKeepsBeaten(m: map<string, Best>, s: Session, perDriver: bool, t: Session)
    requires BestKey(t, perDriver) in m && !Less(LapTime(t), m[BestKey(t, perDriver)].time)
    ensures BestKey(t, perDriver) in Record(m, s, perDriver)
    ensures !Less(LapTime(t), Record(m, s, perDriver)[BestKey(t, perDriver)].time)
  {
    var k := BestKey(s, perDriver);
    if BestKey(t, perDriver) == k && Less(LapTime(s), m[k].time) {
      LessIsStrictOrder(LapTime(t), LapTime(s), m[k].time);
    }
  }

  /** After a step, the session's own key holds a record it does not beat. */
  lemma RecordHolds(m: map<string, Best>, s: Session, perDriver: bool)
    ensures BestKey(s, perDriver) in Record(m, s, perDriver)
    ensures !Less(LapTime(s), Record(m, s, perDriver)[BestKey(s, perDriver)].time)
  {
    var k := BestKey(s, perDriver);
    LessIsStrictOrder(LapTime(s), LapTime(s), LapTime(s));
    if k in m && !Less(LapTime(s), m[k].time) {
      LessIsStrictOrder(LapTime(s), m[k].time, LapTime(s));
    }
  }

  /**
   * Every record is the time and id of a session of its key, the first in
   * list order to reach that time: every earlier session of the key is
   * strictly slower.
   */
  lemma {:induction false} BestsFirst(sessions: seq<Session>, perDriver: bool)
    ensures forall k :: k in Bests(sessions, perDriver) ==>
      FirstFastest(sessions, perDriver, k, Bests(sessions, perDriver)[k])
  {
    if sessions != [] {
      var n := |sessions| - 1;
      var init := sessions[..n];
      var s := sessions[n];
      BestsFirst(init, perDriver);
      BestsMinimal(init, perDriver);
      var m := Bests(init, perDriver);
      var r := Bests(sessions, perDriver);
      var k := BestKey(s, perDriver);
      forall k' | k' in r
        ensures FirstFastest(sessions, perDriver, k', r[k'])
      {
        if k' == k && (k !in m || Less(LapTime(s), m[k].time)) {
          forall j | 0 <= j < n && BestKey(sessions[j], perDriver) == k
            ensures Less(LapTime(s), LapTime(sessions[j]))
          {
            assert init[j] == sessions[j];
            LessIsStrictOrder(LapTime(s), m[k].time, LapTime(sessions[j]));
            LessIsStrictOrder(m[k].time, LapTime(sessions[j]), m[k].time);
          }
          assert FirstFastestAt(sessions, perDriver, k', r[k'], n);
        } else {
          assert r[k'] == m[k'];
          var i :| 0 <= i < n && FirstFastestAt(init, perDriver, k', m[k'], i);
          assert FirstFastestAt(sessions, perDriver, k', r[k'], i) by {
            assert forall j :: 0 <= j <= i ==> init[j] == sessions[j];
          }
        }
      }
    }
  }

  /** Session i has key k, holds record b, and every earlier session of key k is strictly slower. */
  predicate FirstFastestAt(sessions: seq<Session>, perDriver: bool, k: string, b: Best, i: int)
  {
    0 <= i < |sessions| && BestKey(sessions[i], perDriver) == k
    && b == Best(LapTime(sessions[i]), sessions[i].id)
    && forall j :: 0 <= j < i && BestKey(sessions[j], perDriver) == k ==> Less(b.time, LapTime(sessions[j]))
  }

  predicate FirstFastest(sessions: seq<Session>, perDriver: bool, k: string, b: Best)
  {
    exists i :: 0 <= i < |sessions| && FirstFastestAt(sessions, perDriver, k, b, i)
  }

  // ----- trends -----

  datatype Trend = NoTrend | Improving(improvement: JsNum) | Declining(improvement: JsNum) | Stable

  /** The sum of the times, added left to right from 0 as `reduce` does. */
  function SumTimes(times: seq<JsNum>): JsNum
  {
    if times == [] then Finite(0.0) else Add(SumTimes(times[..|times| - 1]), times[|times| - 1])
  }

  /**
   * The trend of the session at position `index` of its group, sorted by
   * date: none for the first two; otherwise its time against the average of
   * the up to three sessions before it, as a percentage of that average.
   */
  function TrendAt(times: seq<JsNum>, index: nat): Trend
    requires index < |times|
  {
    if index < 2 then NoTrend
    else
      var recent := times[if index >= 3 then index - 3 else 0..index];
      if |recent| >= 2 then
        var avg := Div(SumTimes(recent), Finite(|recent| as real));
        var improvement := Mul(Div(Sub(avg, times[index]), avg), Finite(100.0));
        if Greater(improvement, Finite(1.0)) then Improving(improvement)
        else if Less(improvement, Finite(-1.0)) then Declining(improvement)
        else Stable
      else NoTrend
  }

  /** A sum of finite times is finite. */
  lemma {:induction false} SumOfFinite(times: seq<JsNum>)
    requires forall i :: 0 <= i < |times| ==> times[i].Finite?
    ensures SumTimes(times).Finite?
  {
    if times != [] {
      SumOfFinite(times[..|times| - 1]);
    }
  }

  /**
   * The 1% rule: from the third session of a group on, with finite times and
   * a positive average `avg` of the (two or three) sessions before, the trend
   * is improving exactly when the time is below 99% of the average,
   * declining exactly when it is above 101%, and stable otherwise.
   */
  lemma TrendRule(times: seq<JsNum>, index: nat, avg: real)
    requires 2 <= index < |times|
    requires forall i :: 0 <= i < |times| ==> times[i].Finite?
    requires var recent := times[if index >= 3 then index - 3 else 0..index];
      Div(SumTimes(recent), Finite(|recent| as real)) == Finite(avg)
    requires avg > 0.0
    ensures TrendAt(times, index).Improving? <==> times[index].v < 0.99 * avg
    ensures TrendAt(times, index).Declining? <==> times[index].v > 1.01 * avg
    ensures TrendAt(times, index) == Stable <==> 0.99 * avg <= times[index].v <= 1.01 * avg
  {
    var recent := times[if index >= 3 then index - 3 else 0..index];
    assert |recent| >= 2;
    var c := times[index].v;
    var q := (avg - c) / avg;
    assert Div(Sub(Finite(avg), times[index]), Finite(avg)) == Finite(q);
    PercentAbove(avg, c, q);
  }

  lemma PercentAbove(avg: real, c: real, q: real)
    requires avg > 0.0 && q == (avg - c) / avg
    ensures q * 100.0 > 1.0 <==> c < 0.99 * avg
    ensures q * 100.0 < -1.0 <==> c > 1.01 * avg
  {
    assert q * avg == avg - c;
    if q * 100.0 > 1.0 {
      assert q * avg > avg / 100.0 by { MulMore(q, 0.01, avg); }
    }
    if c < 0.99 * avg {
      assert q * avg > 0.01 * avg;
      MulLessBack(0.01, q, avg);
    }
    if q * 100.0 < -1.0 {
      assert q * avg < -0.01 * avg by { MulMore(-0.01, q, avg); }
    }
    if c > 1.01 * avg {
      assert q * avg < -0.01 * avg;
      MulLessBack(q, -0.01, avg);
    }
  }

  lemma MulMore(a: real, b: real, r: real)
    requires a > b && r > 0.0
    ensures a * r > b * r
  {
  }

  lemma MulLessBack(a: real, b: real, r: real)
    requires a * r < b * r && r > 0.0
    ensures a < b
  {
  }

  /** The first two sessions of a group have no trend, and every later one has one. */
  lemma TrendFromThird(times: seq<JsNum>, index: nat)
    requires index < |times|
    ensures TrendAt(times, index).NoTrend? <==> index < 2
  {
  }

  /**
   * The positions of the sessions with key `k`, in list order: the group
   * calculateTrends builds. Its key, driver, track and configuration joined
   * by "_", is the personal-best key.
   */
  function GroupOf(sessions: seq<Session>, k: string): (g: seq<nat>)
    ensures forall i: nat :: i in g <==> i < |sessions| && DriverKey(sessions[i]) == k
  {
    if sessions == [] then []
    else
      var n := |sessions| - 1;
      GroupOf(sessions[..n], k) + (if DriverKey(sessions[n]) == k then [n] else [])
  }

  /** Sessions by date, earliest first: `new Date(a) - new Date(b)`. */
  function EarlierIn(sessions: seq<Session>): (nat, nat) -> bool
  {
    (i: nat, j: nat) => i < |sessions| && j < |sessions| && sessions[i].date < sessions[j].date
  }

  /** A group sorted by date. */
  function DatedGroup(sessions: seq<Session>, k: string): seq<nat>
  {
    InsertionSort(GroupOf(sessions, k), EarlierIn(sessions))
  }

  /** The trend calculateTrends writes into session `i`. */
  function TrendOf(sessions: seq<Session>, i: nat): Trend
    requires i < |sessions|
  {
    var g := DatedGroup(sessions, DriverKey(sessions[i]));
    assert i in multiset(GroupOf(sessions, DriverKey(sessions[i])));
    assert i in multiset(g);
    var times := seq(|g|, q requires 0 <= q < |g| => if g[q] < |sessions| then LapTime(sessions[g[q]]) else PosInf);
    TrendAt(times, Position(g, i))
  }

  /** No position of `g` refers to a later session than a position after it. */
  predicate ByDate(sessions: seq<Session>, g: seq<nat>)
  {
    forall p, q :: 0 <= p < q < |g| && g[p] < |sessions| && g[q] < |sessions| ==>
      sessions[g[p]].date <= sessions[g[q]].date
  }

  /** Each group is sorted by date and holds exactly the sessions of its key. */
  lemma DatedGroupSorted(sessions: seq<Session>, k: string)
    ensures multiset(DatedGroup(sessions, k)) == multiset(GroupOf(sessions, k))
    ensures ByDate(sessions, DatedGroup(sessions, k))
  {
    var before := EarlierIn(sessions);
    assert Transitive(before);
    assert Irreflexive(before);
    SortSorted(GroupOf(sessions, k), before);
    var g := DatedGroup(sessions, k);
    forall p, q | 0 <= p < q < |g| && g[p] < |sessions| && g[q] < |sessions|
      ensures sessions[g[p]].date <= sessions[g[q]].date
    {
      assert !before(g[q], g[p]);
    }
  }

  // ----- the sort order -----

  /**
   * sortSessions' comparator: newest first by date, or fastest first by lap
   * time; a difference of 0, or the NaN of Infinity minus Infinity, falls
   * back to newest first.
   */
  function Compare(a: Session, b: Session, criteria: string): JsNum
  {
    var diff := if criteria == "date" then Finite((b.date - a.date) as real) else Sub(LapTime(a), LapTime(b));
    OrElse(diff, Finite((b.date - a.date) as real))
  }

  /** `a` is placed before `b` when the comparator is negative. */
  predicate Precedes(a: Session, b: Session, criteria: string)
  {
    Less(Compare(a, b, criteria), Finite(0.0))
  }

  /**
   * What the comparator orders by: by date, newer first; otherwise by lap
   * time, faster first, with Infinity last, and among equal times newer
   * first.
   */
  lemma PrecedesMeans(a: Session, b: Session, criteria: string)
    ensures criteria == "date" ==> (Precedes(a, b, criteria) <==> a.date > b.date)
    ensures criteria != "date" ==>
      (Precedes(a, b, criteria) <==> Less(LapTime(a), LapTime(b)) || (LapTime(a) == LapTime(b) && a.date > b.date))
  {
  }

  function SortOrder(criteria: string): (Session, Session) -> bool
  {
    (a: Session, b: Session) => Precedes(a, b, criteria)
  }

  /** The list sortSessions leaves. */
  function SortedSessions(sessions: seq<Session>, criteria: string): seq<Session>
  {
    InsertionSort(sessions, SortOrder(criteria))
  }

  /**
   * The sorted list is a permutation of the list; by date no session is
   * older than one after it, and otherwise no session is slower than one
   * after it, equal times being newest first.
   */
  lemma SortSessionsSpec(sessions: seq<Session>, criteria: string)
    ensures multiset(SortedSessions(sessions, criteria)) == multiset(sessions)
    ensures var r := SortedSessions(sessions, criteria);
      criteria == "date" ==> forall i, j :: 0 <= i < j < |r| ==> r[i].date >= r[j].date
    ensures var r := SortedSessions(sessions, criteria);
      criteria != "date" ==> forall i, j :: 0 <= i < j < |r| ==>
        !Less(LapTime(r[j]), LapTime(r[i])) && (LapTime(r[i]) == LapTime(r[j]) ==> r[i].date >= r[j].date)
  {
    var order := SortOrder(criteria);
    SortOrderIsStrictWeak(criteria);
    SortSorted(sessions, order);
    var r := SortedSessions(sessions, criteria);
    forall i, j | 0 <= i < j < |r|
      ensures criteria == "date" ==> r[i].date >= r[j].date
      ensures criteria != "date" ==>
        !Less(LapTime(r[j]), LapTime(r[i])) && (LapTime(r[i]) == LapTime(r[j]) ==> r[i].date >= r[j].date)
    {
      assert !order(r[j], r[i]);
      PrecedesMeans(r[j], r[i], criteria);
      LessIsStrictOrder(LapTime(r[i]), LapTime(r[j]), LapTime(r[j]));
    }
  }

  /**
   * The comparator is a strict weak order: it is transitive and
   * irreflexive, and sessions neither of which goes before the other (the
   * same date, or the same lap time and date) are interchangeable.
   */
  lemma SortOrderIsStrictWeak(criteria: string)
    ensures StrictWeakOrder(SortOrder(criteria))
  {
    var order := SortOrder(criteria);
    forall a: Session, b: Session, c: Session | order(a, b) && order(b, c)
      ensures order(a, c)
    {
      PrecedesMeans(a, b, criteria);
      PrecedesMeans(b, c, criteria);
      PrecedesMeans(a, c, criteria);
      LessIsStrictOrder(LapTime(a), LapTime(b), LapTime(c));
    }
    forall a: Session
      ensures !order(a, a)
    {
      PrecedesMeans(a, a, criteria);
      LessIsStrictOrder(LapTime(a), LapTime(a), LapTime(a));
    }
    forall a: Session, b: Session, c: Session | order(a, c)
      ensures order(a, b) || order(b, c)
    {
      PrecedesMeans(a, b, criteria);
      PrecedesMeans(b, c, criteria);
      PrecedesMeans(a, c, criteria);
      LessIsStrictOrder(LapTime(a), LapTime(b), LapTime(c));
      LessIsStrictOrder(LapTime(c), LapTime(b), LapTime(a));
      LessIsStrictOrder(LapTime(a), LapTime(c), LapTime(b));
    }
  }

  /**
   * sortSessions is stable: sessions that compare equal to any `e` (the
   * same date, or the same lap time and date) keep the order they had.
   */
  lemma SortedSessionsStable(sessions: seq<Session>, criteria: string, e: Session)
    ensures EquivalentsOf(SortedSessions(sessions, criteria), e, SortOrder(criteria))
         == EquivalentsOf(sessions, e, SortOrder(criteria))
  {
    SortOrderIsStrictWeak(criteria);
    SortStable(sessions, e, SortOrder(criteria));
  }

  // ----- the filter -----

  /** The form fields the filter reads, as strings. */
  datatype Filters = Filters(search: string, track: string, config: string, dateFilter: string, dateFrom: string, dateTo: string)

  /**
   * The instants the filter compares with: the start of today, and the
   * instants the two date inputs denote (read only when the input is not
   * empty).
   */
  datatype Instants = Instants(todayStart: int, fromStart: int, toStart: int)

  const DayMs := 86400000

  /** The start of the day of an instant. */
  function DayStart(t: int): int
  {
    t - t % DayMs
  }

  /** The date condition of the filter. */
  predicate InDateWindow(date: int, f: Filters, at: Instants)
  {
    if f.dateFilter == "today" then DayStart(date) == at.todayStart
    else if f.dateFilter == "week" then date >= at.todayStart - 7 * DayMs
    else if f.dateFilter == "month" then date >= at.todayStart - 30 * DayMs
    else if f.dateFilter == "custom" then
      (f.dateFrom == "" || date >= at.fromStart) && (f.dateTo == "" || date < at.toStart + DayMs)
    else true
  }

  function KartText(kart: Option<string>): string
  {
    match kart
    case None => ""
    case Some(k) => k
  }

  /** The search condition: the lower-cased term occurs in the driver, the track or the kart. */
  predicate MatchesSearch(s: Session, search: string)
  {
    var term := ToLower(search);
    term == "" || Contains(ToLower(s.driver), term) || Contains(ToLower(s.trackName), term)
    || Contains(ToLower(KartText(s.kart)), term)
  }

  /** filterSessions' callback: every active condition holds. */
  predicate Matches(s: Session, f: Filters, at: Instants)
  {
    MatchesSearch(s, f.search)
    && (f.track == "" || s.trackName == f.track)
    && (f.config == "" || s.trackConfig == f.config)
    && InDateWindow(s.date, f, at)
  }

  /** Array.prototype.filter with that callback: the matching sessions, in list order. */
  function FilterList(sessions: seq<Session>, f: Filters, at: Instants): (r: seq<Session>)
    ensures |r| <= |sessions|
    ensures forall s :: s in r <==> s in sessions && Matches(s, f, at)
  {
    if sessions == [] then []
    else
      var n := |sessions| - 1;
      FilterList(sessions[..n], f, at) + (if Matches(sessions[n], f, at) then [sessions[n]] else [])
  }

  /** The filter keeps list order: it is the list with some sessions left out. */
  lemma {:induction false} FilterAppend(a: seq<Session>, b: seq<Session>, f: Filters, at: Instants)
    ensures FilterList(a + b, f, at) == FilterList(a, f, at) + FilterList(b, f, at)
    decreases |b|
  {
    if b == [] {
      assert a + b == a;
    } else {
      var n := |b| - 1;
      assert (a + b)[..|a + b| - 1] == a + b[..n];
      FilterAppend(a, b[..n], f, at);
    }
  }

  /** With no search, no track, no configuration and every date, all sessions stay, in order. */
  lemma {:induction false} EmptyFiltersKeepAll(sessions: seq<Session>, f: Filters, at: Instants)
    requires f.search == "" && f.track == "" && f.config == "" && f.dateFilter == "all"
    ensures FilterList(sessions, f, at) == sessions
  {
    if sessions != [] {
      var n := |sessions| - 1;
      var init, last := sessions[..n], sessions[n];
      assert FilterList(init, f, at) == init by { EmptyFiltersKeepAll(init, f, at); }
      assert FilterList(sessions, f, at) == FilterList(init, f, at) + [last] by {
        EmptyFiltersMatch(last, f, at);
        FilterKeepsLast(sessions, f, at);
      }
      assert init + [last] == sessions;
    }
  }

  /** A matching last session is kept at the end of the filtered list. */
  lemma FilterKeepsLast(sessions: seq<Session>, f: Filters, at: Instants)
    requires sessions != [] && Matches(sessions[|sessions| - 1], f, at)
    ensures FilterList(sessions, f, at) == FilterList(sessions[..|sessions| - 1], f, at) + [sessions[|sessions| - 1]]
  {
  }

  /** With no condition active every session matches. */
  lemma EmptyFiltersMatch(s: Session, f: Filters, at: Instants)
    requires f.search == "" && f.track == "" && f.config == "" && f.dateFilter == "all"
    ensures Matches(s, f, at)
  {
    assert ToLower(f.search) == "";
  }
}
