/**
 * A session's laps as the session page reads them from the session file:
 * the validation filter, lap durations, the fastest lap and the best-lap
 * flags, the delta of the current lap, and the list of sessions to compare.
 */
module Laps {
  import opened Text
  import opened JsValues
  import opened Numerals
  import opened SessionTime
  import opened Sorting

  /** One element of a session's `laps` array: an object with `lap` and `time` fields, or anything else. */
  datatype LapEntry = LapObject(lap: Json, time: Json) | NotAnObject

  /** The `laps` field of a session file: an array, or anything else (missing included). */
  datatype LapsField = LapArray(entries: seq<LapEntry>) | NotAnArray

  /** `lap > 0`, with JavaScript's conversion of the field to a number. */
  predicate PositiveLapNumber(j: Json)
  {
    match j
    case JNull => false
    case JBool(b) => b
    case JNum(x) => x > 0.0
    case JStr(s) => Greater(JsStringToNumber(s), Finite(0.0))
  }

  /** parseTime(lap.time); a non-object has no `time`, and parseTime(undefined) is 0. */
  function Duration(e: LapEntry): real
  {
    match e
    case LapObject(_, time) => ParseTime(time).v
    case NotAnObject => 0.0
  }

  /** The test validateLapData applies to each element. */
  predicate ValidLap(e: LapEntry)
  {
    e.LapObject? && PositiveLapNumber(e.lap) && 0.0 < Duration(e) < 600.0
  }

  /** The filter of validateLapData, element by element and in order. */
  function KeepValid(entries: seq<LapEntry>): (r: seq<LapEntry>)
    ensures |r| <= |entries|
    ensures forall e :: e in r <==> e in entries && ValidLap(e)
  {
    if entries == [] then []
    else (if ValidLap(entries[0]) then [entries[0]] else []) + KeepValid(entries[1..])
  }

  /** validateLapData: [] for anything but an array, else the valid elements. */
  function ValidateLapData(laps: LapsField): (r: seq<LapEntry>)
    ensures forall e :: e in r ==> ValidLap(e)
    ensures laps.NotAnArray? ==> r == []
  {
    match laps
    case NotAnArray => []
    case LapArray(entries) => KeepValid(entries)
  }

  /** The filter distributes over concatenation, so it keeps the order of the elements it keeps. */
  lemma {:induction false} KeepValidAppend(a: seq<LapEntry>, b: seq<LapEntry>)
    ensures KeepValid(a + b) == KeepValid(a) + KeepValid(b)
  {
    if a == [] {
      assert a + b == b;
    } else {
      assert (a + b)[1..] == a[1..] + b;
      KeepValidAppend(a[1..], b);
    }
  }

  /** A list of valid laps passes the filter unchanged. */
  lemma {:induction false} KeepValidAllValid(s: seq<LapEntry>)
    requires forall e :: e in s ==> ValidLap(e)
    ensures KeepValid(s) == s
  {
    if s != [] {
      assert s[0] in s;
      assert forall e :: e in s[1..] ==> e in s;
      KeepValidAllValid(s[1..]);
    }
  }

  /** validateLapData is idempotent: validating the stored (validated) laps again changes nothing. */
  lemma ValidateIdempotent(laps: LapsField)
    ensures ValidateLapData(LapArray(ValidateLapData(laps))) == ValidateLapData(laps)
  {
    KeepValidAllValid(ValidateLapData(laps));
  }

  /** The durations of a list of laps, in order. */
  function Durations(laps: seq<LapEntry>): seq<real>
  {
    seq(|laps|, i requires 0 <= i < |laps| => Duration(laps[i]))
  }

  /** Math.min over a non-empty list of times. */
  function Fastest(times: seq<real>): (m: real)
    requires times != []
    ensures m in times
    ensures forall t :: t in times ==> m <= t
  {
    if |times| == 1 then times[0]
    else
      var rest := Fastest(times[1..]);
      assert forall t :: t in times ==> t == times[0] || t in times[1..];
      if times[0] <= rest then times[0] else rest
  }

  /** `times.length > 0 ? Math.min(...times) : 0`. */
  function FastestOrZero(times: seq<real>): real
  {
    if times == [] then 0.0 else Fastest(times)
  }

  /** Array.prototype.indexOf: the first position of `v`, or -1. */
  function IndexOfTime(times: seq<real>, v: real): (i: int)
    ensures -1 <= i < |times|
    ensures i >= 0 ==> times[i] == v && forall j :: 0 <= j < i ==> times[j] != v
    ensures i == -1 ==> v !in times
  {
    if times == [] then -1
    else if times[0] == v then 0
    else
      var k := IndexOfTime(times[1..], v);
      if k == -1 then -1 else k + 1
  }

  /** Position `i` holds the fastest time, and every earlier time is strictly slower. */
  predicate IsFirstFastest(times: seq<real>, i: int)
  {
    0 <= i < |times|
    && (forall j :: 0 <= j < |times| ==> times[i] <= times[j])
    && (forall j :: 0 <= j < i ==> times[i] < times[j])
  }

  /** indexOf(min) is the first fastest position. */
  lemma FastestIndex(times: seq<real>)
    requires times != []
    ensures IsFirstFastest(times, IndexOfTime(times, Fastest(times)))
  {
    var m := Fastest(times);
    var i := IndexOfTime(times, m);
    assert forall j :: 0 <= j < |times| ==> times[j] in times;
  }

  /** There is at most one first fastest position. */
  lemma FirstFastestUnique(times: seq<real>, i: int, k: int)
    requires IsFirstFastest(times, i) && IsFirstFastest(times, k)
    ensures i == k
  {
    assert times[i] == times[k];
  }

  /**
   * The `best` flags that compareSession sets lap by lap: true exactly at
   * the first fastest lap, so exactly one lap of a non-empty list is best.
   */
  method MarkBestLap(times: seq<real>, best: array<bool>)
    requires best.Length == |times|
    modifies best
    ensures forall i :: 0 <= i < best.Length ==> (best[i] <==> IsFirstFastest(times, i))
  {
    var idx := IndexOfTime(times, FastestOrZero(times));
    if times != [] {
      FastestIndex(times);
    }
    for i := 0 to best.Length
      invariant forall j :: 0 <= j < i ==> (best[j] <==> IsFirstFastest(times, j))
    {
      best[i] := i == idx;
      if times != [] && IsFirstFastest(times, i) {
        FirstFastestUnique(times, i, idx);
      }
    }
  }

  /**
   * calculateCurrentDelta: how much slower the lap under the marker is than
   * the fastest valid lap; 0 when there is no such lap or its time is falsy.
   */
  function CurrentDelta(laps: seq<LapEntry>, lapNumber: int): real
  {
    var i := lapNumber - 1;
    if !(0 <= i < |laps|) then 0.0
    else match laps[i]
      case NotAnObject => 0.0
      case LapObject(_, time) =>
        if !JsonTruthy(time) then 0.0
        else ParseTime(time).v - FastestOrZero(Durations(KeepValid(laps)))
  }

  /**
   * On a session's stored (validated) laps the delta of an existing lap is
   * never negative, and it is 0 exactly when that lap is a fastest one.
   */
  lemma DeltaOfStoredLaps(laps: seq<LapEntry>, lapNumber: int)
    requires forall e :: e in laps ==> ValidLap(e)
    requires 1 <= lapNumber <= |laps|
    ensures CurrentDelta(laps, lapNumber) >= 0.0
    ensures CurrentDelta(laps, lapNumber) == 0.0 <==> Duration(laps[lapNumber - 1]) == Fastest(Durations(laps))
  {
    var e := laps[lapNumber - 1];
    assert e in laps;
    if !JsonTruthy(e.time) {
      FalsyTimeIsZero(e.time);
    }
    KeepValidAllValid(laps);
    var times := Durations(laps);
    assert times[lapNumber - 1] in times;
  }

  /** Outside the lap list the delta is 0. */
  lemma DeltaOutsideLaps(laps: seq<LapEntry>, lapNumber: int)
    requires !(1 <= lapNumber <= |laps|)
    ensures CurrentDelta(laps, lapNumber) == 0.0
  {
  }

  // ----- the sessions to compare with -----

  predicate NoDuplicates(ids: seq<string>)
  {
    forall i, j :: 0 <= i < j < |ids| ==> ids[i] != ids[j]
  }

  /** Array.from(new Set(ids)): each id once, where it first occurs. */
  function Dedupe(ids: seq<string>): (r: seq<string>)
    ensures forall x :: x in r <==> x in ids
    ensures NoDuplicates(r)
  {
    if ids == [] then []
    else
      var d := Dedupe(ids[..|ids| - 1]);
      var x := ids[|ids| - 1];
      assert forall y :: y in ids <==> y in ids[..|ids| - 1] || y == x;
      if x in d then d else d + [x]
  }

  /** A list without duplicates is its own deduplication. */
  lemma {:induction false} DedupeDistinct(ids: seq<string>)
    requires NoDuplicates(ids)
    ensures Dedupe(ids) == ids
  {
    if ids != [] {
      var init := ids[..|ids| - 1];
      DedupeDistinct(init);
      assert ids[|ids| - 1] !in init;
      assert init + [ids[|ids| - 1]] == ids;
    }
  }

  /** The Set keeps the ids in the order in which each first occurs. */
  lemma {:induction false} DedupeFirstSeen(ids: seq<string>)
    ensures forall i, j :: 0 <= i < j < |Dedupe(ids)| ==>
      Position(ids, Dedupe(ids)[i]) < Position(ids, Dedupe(ids)[j])
  {
    if ids != [] {
      var n := |ids| - 1;
      var init := ids[..n];
      var x := ids[n];
      var d := Dedupe(init);
      DedupeFirstSeen(init);
      forall y | y in init
        ensures Position(ids, y) == Position(init, y)
      {
        PositionAt(ids, y, Position(init, y));
      }
      if x !in d {
        PositionAt(ids, x, n);
        assert Dedupe(ids) == d + [x];
      }
    }
  }

  /** The ids kept by the filter: non-empty and not the session being shown. */
  function KeepIds(ids: seq<string>, sessionId: string): (r: seq<string>)
    ensures forall x :: x in r <==> x in ids && x != "" && x != sessionId
  {
    if ids == [] then []
    else (if ids[0] != "" && ids[0] != sessionId then [ids[0]] else []) + KeepIds(ids[1..], sessionId)
  }

  /** The filter works id by id, so it keeps list order. */
  lemma {:induction false} KeepIdsAppend(a: seq<string>, b: seq<string>, sessionId: string)
    ensures KeepIds(a + b, sessionId) == KeepIds(a, sessionId) + KeepIds(b, sessionId)
  {
    if a == [] {
      assert a + b == b;
    } else {
      assert (a + b)[0] == a[0] && (a + b)[1..] == a[1..] + b;
      KeepIdsAppend(a[1..], b, sessionId);
    }
  }

  /** Of two kept ids, the one kept first comes first in the unfiltered list too. */
  lemma {:induction false} KeptOrder(t: seq<string>, sessionId: string, x: string, y: string)
    requires x in KeepIds(t, sessionId) && y in KeepIds(t, sessionId)
    requires Position(KeepIds(t, sessionId), x) < Position(KeepIds(t, sessionId), y)
    ensures Position(t, x) < Position(t, y)
  {
    var k := KeepIds(t, sessionId);
    var rest := KeepIds(t[1..], sessionId);
    if t[0] != "" && t[0] != sessionId {
      assert k == [t[0]] + rest;
      if x != t[0] {
        assert y != t[0];
        assert k[1..] == rest;
        KeptOrder(t[1..], sessionId, x, y);
      }
    } else {
      assert k == rest;
      KeptOrder(t[1..], sessionId, x, y);
    }
  }

  /** The comma-separated parts of the input, each trimmed. */
  function TrimmedParts(input: string): (r: seq<string>)
    ensures forall x :: x in r <==> exists p :: p in Split(JsTrim(input), ',') && x == JsTrim(p)
  {
    var parts := Split(JsTrim(input), ',');
    var r := seq(|parts|, i requires 0 <= i < |parts| => JsTrim(parts[i]));
    assert forall p :: p in parts ==> JsTrim(p) in r by {
      forall p | p in parts ensures JsTrim(p) in r {
        var i :| 0 <= i < |parts| && parts[i] == p;
        assert r[i] == JsTrim(p);
      }
    }
    r
  }

  /**
   * The ids compareSession fetches: the trimmed comma-separated parts of the
   * input that are non-empty and differ from the session shown, each once.
   */
  function CompareIds(input: string, sessionId: string): (r: seq<string>)
    ensures NoDuplicates(r)
    ensures forall x :: x in r <==> x != "" && x != sessionId && exists p :: p in Split(JsTrim(input), ',') && x == JsTrim(p)
    ensures FirstSeenOrder(r, TrimmedParts(input))
  {
    var parts := TrimmedParts(input);
    var r := Dedupe(KeepIds(parts, sessionId));
    KeptFirstSeen(parts, sessionId);
    r
  }

  /** The ids of `r` come in the order in which each first occurs in `parts`. */
  predicate FirstSeenOrder(r: seq<string>, parts: seq<string>)
  {
    forall i, j :: 0 <= i < j < |r| ==> r[i] in parts && r[j] in parts && Position(parts, r[i]) < Position(parts, r[j])
  }

  /** The ids kept and deduplicated come in the order in which each first occurs in the list. */
  lemma KeptFirstSeen(parts: seq<string>, sessionId: string)
    ensures FirstSeenOrder(Dedupe(KeepIds(parts, sessionId)), parts)
  {
    var kept := KeepIds(parts, sessionId);
    var r := Dedupe(kept);
    DedupeFirstSeen(kept);
    forall i, j | 0 <= i < j < |r|
      ensures r[i] in parts && r[j] in parts && Position(parts, r[i]) < Position(parts, r[j])
    {
      KeptOrder(parts, sessionId, r[i], r[j]);
    }
  }
}
