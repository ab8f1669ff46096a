/**
 * The older index generator kept under sessions/ (sessions/generate_list.py).
 * It shares the time helpers of the root script, but counts every lap time
 * that parses (zero and negative ones included), copies fastest_lap from the
 * file instead of computing it, and has no numeric metrics. Its
 * parse_time_to_seconds calls strip() before looking at the type, so a truthy
 * lap time that is not a string raises an AttributeError that nothing
 * catches; `Outcome` models that exception.
 *
 * format_seconds_to_time is the same code as the root script's
 * (IndexScript.FormatSecondsToTime), and a session file has the same shape
 * (IndexScript.SessionFile).
 */
module SessionsScript {
  import opened Optional
  import opened JsValues
  import IndexScript

  /** A computation that either finishes with a value or raises an exception nobody catches. */
  datatype Outcome<T> = Done(value: T) | Raises

  // ----- parse_time_to_seconds -----

  /**
   * Falsy values are None, a truthy string is read exactly as the root
   * script reads it, and any other truthy value has no strip() and raises.
   */
  function ParseTimeToSeconds(t: Json): (r: Outcome<Option<real>>)
    ensures !JsonTruthy(t) ==> r == Done(None)
    ensures r.Raises? <==> Unstrippable(t)
    ensures r.Done? ==> r.value == IndexScript.ParseTimeToSeconds(t)
  {
    if !JsonTruthy(t) then Done(None)
    else
      match t
      case JStr(s) => Done(IndexScript.ParseTimeText(s))
      case _ => Raises
  }

  // ----- process_session_file -----

  /** One entry of the sessions list this script writes. */
  datatype SessionsSummary = SessionsSummary(
    id: Json, driver: Json, track: Json, sessionDate: Json, kart: Json,
    fastestLap: Json, lapsCount: nat, averageLap: Option<string>)

  /** Every lap time that parses, in lap order, or Raises when some lap time raises. */
  function ParsedTimes(laps: seq<Json>): (r: Outcome<seq<real>>)
    ensures r.Done? ==> |r.value| <= |laps|
  {
    if laps == [] then Done([])
    else
      match ParsedTimes(laps[..|laps| - 1])
      case Raises => Raises
      case Done(init) =>
        match ParseTimeToSeconds(laps[|laps| - 1])
        case Raises => Raises
        case Done(Some(v)) => Done(init + [v])
        case Done(None) => Done(init)
  }

  /** A lap time this script cannot read: truthy, but without strip(). */
  predicate Unstrippable(t: Json)
  {
    JsonTruthy(t) && !t.JStr?
  }

  /** The lap loop raises exactly when some lap time is truthy but not a string. */
  lemma ParsedTimesRaises(laps: seq<Json>)
    ensures ParsedTimes(laps).Raises? <==> exists i :: 0 <= i < |laps| && Unstrippable(laps[i])
  {
    if exists i :: 0 <= i < |laps| && Unstrippable(laps[i]) {
      var i :| 0 <= i < |laps| && Unstrippable(laps[i]);
      UnstrippableRaises(laps, i);
    }
    if ParsedTimes(laps).Raises? {
      var i := RaisingLap(laps);
    }
  }

  /** One lap time without strip() makes the whole loop raise. */
  lemma {:induction false} UnstrippableRaises(laps: seq<Json>, i: nat)
    requires i < |laps| && Unstrippable(laps[i])
    ensures ParsedTimes(laps).Raises?
  {
    if i < |laps| - 1 {
      UnstrippableRaises(laps[..|laps| - 1], i);
    }
  }

  /** A loop that raises has a lap time without strip(). */
  lemma {:induction false} RaisingLap(laps: seq<Json>) returns (i: nat)
    requires ParsedTimes(laps).Raises?
    ensures i < |laps| && Unstrippable(laps[i])
  {
    var init := laps[..|laps| - 1];
    if ParsedTimes(init).Raises? {
      i := RaisingLap(init);
      assert init[i] == laps[i];
    } else {
      i := |laps| - 1;
    }
  }

  /** The loop of process_session_file that collects the parsed lap times. */
  method CollectParsedTimes(laps: seq<Json>) returns (r: Outcome<seq<real>>)
    ensures r == ParsedTimes(laps)
  {
    var times: seq<real> := [];
    var i := 0;
    while i < |laps|
      invariant 0 <= i <= |laps|
      invariant ParsedTimes(laps[..i]) == Done(times)
    {
      assert laps[..i + 1][..i] == laps[..i];
      var seconds := ParseTimeToSeconds(laps[i]);
      if seconds.Raises? {
        UnstrippableRaises(laps, i);
        return Raises;
      }
      if seconds.value.Some? {
        times := times + [seconds.value.value];
      }
      i := i + 1;
    }
    assert laps[..|laps|] == laps;
    r := Done(times);
  }

  /** The positive entries of a list of times, in order. */
  function Positives(times: seq<real>): (r: seq<real>)
    ensures |r| <= |times|
    ensures forall v :: v in r ==> v > 0.0 && v in times
  {
    if times == [] then []
    else
      var init := Positives(times[..|times| - 1]);
      if times[|times| - 1] > 0.0 then init + [times[|times| - 1]] else init
  }

  /**
   * Where this script finishes, the root script keeps exactly the positive
   * times among those this script counts.
   */
  lemma {:induction false} RootKeepsPositives(laps: seq<Json>)
    requires ParsedTimes(laps).Done?
    ensures IndexScript.ValidTimes(laps) == Positives(ParsedTimes(laps).value)
  {
    if laps != [] {
      var init := laps[..|laps| - 1];
      RootKeepsPositives(init);
      var v := ParsedTimes(init).value;
      var u := ParsedTimes(laps).value;
      match ParseTimeToSeconds(laps[|laps| - 1])
      case Done(Some(x)) =>
        assert u == v + [x];
        assert u[..|u| - 1] == v;
      case Done(None) =>
        assert u == v;
    }
  }

  /**
   * process_session_file: None for a file that is not JSON or a falsy
   * session_id; otherwise the summary of every lap time that parses, unless
   * some lap time raises.
   */
  method ProcessSessionFile(file: Option<IndexScript.SessionFile>) returns (r: Outcome<Option<SessionsSummary>>)
    ensures r.Raises? <==>
      file.Some? && JsonTruthy(file.value.sessionId)
      && exists i :: 0 <= i < |file.value.lapTimes| && Unstrippable(file.value.lapTimes[i])
    ensures r.Done? && r.value.None? <==> file.None? || !JsonTruthy(file.value.sessionId)
    ensures r.Done? && r.value.Some? ==>
      file.Some? && ParsedTimes(file.value.lapTimes).Done? &&
      var f := file.value; var s := r.value.value; var times := ParsedTimes(f.lapTimes).value;
      && s.id == f.sessionId && s.driver == f.driver && s.track == f.track
      && s.sessionDate == f.sessionDate && s.kart == f.kart && s.fastestLap == f.fastestLap
      && s.lapsCount == |times|
      && (times == [] ==> s.averageLap.None?)
      && (times != [] ==> s.averageLap == IndexScript.FormatSecondsToTime(Some(IndexScript.Average(times))))
      && |IndexScript.ValidTimes(f.lapTimes)| <= s.lapsCount
  {
    if file.None? {
      return Done(None);
    }
    var f := file.value;
    if !JsonTruthy(f.sessionId) {
      return Done(None);
    }
    var parsed := CollectParsedTimes(f.lapTimes);
    ParsedTimesRaises(f.lapTimes);
    if parsed.Raises? {
      return Raises;
    }
    var times := parsed.value;
    RootKeepsPositives(f.lapTimes);
    var average: Option<string> := None;
    if |times| > 0 {
      average := IndexScript.FormatSecondsToTime(Some(IndexScript.Average(times)));
    }
    r := Done(Some(SessionsSummary(f.sessionId, f.driver, f.track, f.sessionDate, f.kart,
                                   f.fastestLap, |times|, average)));
  }

  // ----- generate_sessions_list -----

  /** A summary as the dictionary the script writes out. */
  function AsDict(s: SessionsSummary): (d: map<string, Json>)
    ensures "id" in d && d["id"] == s.id
    ensures d.Keys == {"id", "driver", "track", "session_date", "kart", "fastest_lap", "laps_count", "average_lap"}
  {
    map["id" := s.id, "driver" := s.driver, "track" := s.track, "session_date" := s.sessionDate,
        "kart" := s.kart, "fastest_lap" := s.fastestLap, "laps_count" := JNum(s.lapsCount as real),
        "average_lap" := if s.averageLap.Some? then JStr(s.averageLap.value) else JNull]
  }

  /** summary['id'] = summary.pop('id'): removing the key and putting its value back changes nothing. */
  function ReassignId(d: map<string, Json>): (r: map<string, Json>)
    requires "id" in d
    ensures r == d
  {
    var id := d["id"];
    (d - {"id"})["id" := id]
  }
}
