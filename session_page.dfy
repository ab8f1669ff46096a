/**
 * The state of the session page and the handlers that change it: loading
 * the session, the two embedded players kept in step, lap navigation, the
 * live statistics tick, remote commands and click-to-seek.
 *
 * Each handler is a method of `Page` that updates its fields in place and is
 * specified by a function from the old page state to the new one; the
 * properties of the handlers are lemmas about those functions.
 */
module SessionPage {
  import opened Optional
  import opened JsValues
  import opened Numerals
  import opened SessionTime
  import opened Laps
  import opened Timeline
  import opened Chart

  // ----- the players -----

  /** The states the player SDK reports. */
  datatype PlayerState = Unstarted | Ended | Playing | Paused | Buffering | Cued

  datatype PlayerCommand = PlayVideo | PauseVideo | SeekTo(seconds: JsNum)

  /**
   * An embedded player: the state it last reported, whether its API methods
   * are available yet, and the commands the page has issued to it.
   */
  datatype Player = Player(state: PlayerState, ready: bool, received: seq<PlayerCommand>)

  /**
   * Calling a player method: a player that is there and ready records the
   * command; a missing player is skipped, and one whose API is not ready
   * yet throws, which ends the handler with nothing further done.
   */
  function Send(p: Option<Player>, c: PlayerCommand): (r: Option<Player>)
    ensures r.Some? <==> p.Some?
    ensures r.Some? ==> r.value.state == p.value.state && r.value.ready == p.value.ready
    ensures r.Some? && p.value.ready ==> r.value.received == p.value.received + [c]
    ensures r.Some? && !p.value.ready ==> r == p
  {
    if p.Some? && p.value.ready then Some(p.value.(received := p.value.received + [c])) else p
  }

  /** The commands a decision issues: none, or the one decided on. */
  function Issued(c: Option<PlayerCommand>): seq<PlayerCommand>
  {
    match c
    case None => []
    case Some(x) => [x]
  }

  /**
   * The sync rule: when one player reports, the other is told to play if
   * the report is PLAYING and it is not playing, told to pause if the
   * report is anything else and it is playing, and otherwise left alone.
   */
  function SyncCommand(isPlaying: bool, other: PlayerState): (c: Option<PlayerCommand>)
    ensures c == Some(PlayVideo) <==> isPlaying && other != Playing
    ensures c == Some(PauseVideo) <==> !isPlaying && other == Playing
    ensures c.None? <==> (isPlaying <==> other == Playing)
  {
    if isPlaying && other != Playing then Some(PlayVideo)
    else if !isPlaying && other == Playing then Some(PauseVideo)
    else None
  }

  /** The state a player reaches once it carries out a decision. */
  function Follow(s: PlayerState, c: Option<PlayerCommand>): PlayerState
  {
    match c
    case None => s
    case Some(PlayVideo) => Playing
    case Some(PauseVideo) => Paused
    case Some(SeekTo(_)) => s
  }

  /** Once the other player carries out the sync decision, it plays exactly when the reporter plays. */
  lemma SyncConverges(isPlaying: bool, other: PlayerState)
    ensures Follow(other, SyncCommand(isPlaying, other)) == Playing <==> isPlaying
  {
  }

  /** The other player after the sync rule: asked for its state, then sent the decision. */
  function Sync(other: Option<Player>, isPlaying: bool): Option<Player>
  {
    match other
    case None => None
    case Some(p) =>
      match SyncCommand(isPlaying, p.state)
      case None => other
      case Some(c) => Send(other, c)
  }

  // ----- the page state -----

  /**
   * Everything the handlers read and write: the stored (validated) laps of
   * the session, the lap-start table, the current lap marker, the two player
   * slots, whether the statistics tick runs, the video time of the chart's
   * playhead and the error the page shows.
   */
  datatype PageState = PageState(
    laps: Option<seq<LapEntry>>,
    lapStartTimes: seq<LapStart>,
    marker: int,
    main: Option<Player>,
    compare: Option<Player>,
    statsRunning: bool,
    playhead: Option<real>,
    loadError: Option<string>)

  /**
   * What every handler keeps: before loading there is no table and the
   * marker is 1; once loaded the laps are valid and non-empty and the table
   * has one well-formed entry per lap; the marker is never below 1.
   */
  predicate Invariant(s: PageState)
  {
    1 <= s.marker
    && (s.laps.None? ==> s.lapStartTimes == [] && s.marker == 1)
    && (s.laps.Some? ==>
          s.laps.value != []
          && (forall e :: e in s.laps.value ==> ValidLap(e))
          && |s.lapStartTimes| == |s.laps.value|
          && WellFormed(s.lapStartTimes))
  }

  /** The page before anything is loaded, with the players the SDK created. */
  function Initial(main: Option<Player>, compare: Option<Player>): (s: PageState)
    ensures Invariant(s)
  {
    PageState(None, [], 1, main, compare, false, None, None)
  }

  /** The table renderSession builds, as a value. */
  function StartTable(start: real, durations: seq<real>): seq<LapStart>
  {
    seq(TableLength(durations), k requires 0 <= k < TableLength(durations) =>
      LapStart(k + 1, start + Sum(durations[..k])))
  }

  /** The table the loop of renderSession builds is the table above. */
  lemma BuiltIsStartTable(start: real, durations: seq<real>, table: seq<LapStart>)
    requires |table| == TableLength(durations)
    requires forall k :: 0 <= k < |table| ==> table[k] == LapStart(k + 1, start + Sum(durations[..k]))
    ensures table == StartTable(start, durations)
  {
  }

  /** The message loadSessionData shows when no lap survives validation. */
  const NoValidLaps := "No valid lap data found"

  /** loadSessionData followed by renderSession, once the session file is read. */
  function Loaded(s: PageState, data: LapsField, videoStart: Json): (r: PageState)
    ensures Invariant(s) ==> Invariant(r)
    ensures r.marker == s.marker && r.main == s.main && r.compare == s.compare && r.playhead == s.playhead
  {
    var valid := ValidateLapData(data);
    if valid == [] then s.(loadError := Some(NoValidLaps))
    else
      var table := StartTable(VideoStart(videoStart), Durations(valid));
      ValidDurationsPositive(valid);
      BuiltTableWellFormed(VideoStart(videoStart), Durations(valid), table);
      s.(laps := Some(valid), lapStartTimes := table)
  }

  /** The durations of valid laps are positive. */
  lemma ValidDurationsPositive(valid: seq<LapEntry>)
    requires forall e :: e in valid ==> ValidLap(e)
    ensures forall i :: 0 <= i < |Durations(valid)| ==> Durations(valid)[i] > 0.0
  {
    forall i | 0 <= i < |valid|
      ensures Durations(valid)[i] > 0.0
    {
      assert valid[i] in valid;
    }
  }

  /**
   * Loading keeps the invariant. A session without valid laps is refused
   * with the error and changes no lap state; otherwise the validated laps are
   * stored and the table starts at the parsed video start time with one
   * entry per lap.
   */
  lemma LoadEffect(s: PageState, data: LapsField, videoStart: Json)
    requires Invariant(s)
    ensures Invariant(Loaded(s, data, videoStart))
    ensures ValidateLapData(data) == [] ==>
      Loaded(s, data, videoStart) == s.(loadError := Some(NoValidLaps))
    ensures ValidateLapData(data) != [] ==>
      var r := Loaded(s, data, videoStart);
      r.laps == Some(ValidateLapData(data)) && r.marker == s.marker
      && |r.lapStartTimes| == |ValidateLapData(data)|
      && r.lapStartTimes[0].videoTime == ParseTime(videoStart).v
  {
    var valid := ValidateLapData(data);
    if valid != [] {
      var start := VideoStart(videoStart);
      var durations := Durations(valid);
      var table := StartTable(start, durations);
      ValidDurationsPositive(valid);
      BuiltTableWellFormed(start, durations, table);
      VideoStartDefault(videoStart);
    }
  }

  // ----- play and pause -----

  /** onPlayerStateChange: the reporter's new state, the statistics tick, and the sync rule. */
  function StateChanged(s: PageState, fromMain: bool, reported: PlayerState): (r: PageState)
    requires fromMain ==> s.main.Some?
    requires !fromMain ==> s.compare.Some?
    ensures Invariant(s) ==> Invariant(r)
  {
    var isPlaying := reported == Playing;
    if fromMain then
      s.(main := Some(s.main.value.(state := reported)), compare := Sync(s.compare, isPlaying), statsRunning := isPlaying)
    else
      s.(compare := Some(s.compare.value.(state := reported)), main := Sync(s.main, isPlaying), statsRunning := isPlaying)
  }

  /**
   * A state report starts the statistics tick exactly on PLAYING, and the
   * other player, when it is there and ready, receives exactly the command
   * of the sync rule; nothing else changes.
   */
  lemma StateChangeSyncs(s: PageState, fromMain: bool, reported: PlayerState)
    requires fromMain ==> s.main.Some?
    requires !fromMain ==> s.compare.Some?
    ensures var r := StateChanged(s, fromMain, reported);
      var other := if fromMain then s.compare else s.main;
      var other' := if fromMain then r.compare else r.main;
      r.statsRunning == (reported == Playing)
      && (other'.Some? <==> other.Some?)
      && (other.Some? && other.value.ready ==>
            other'.value.received == other.value.received + Issued(SyncCommand(reported == Playing, other.value.state)))
      && (other.Some? && !other.value.ready ==> other' == other)
      && r.laps == s.laps && r.lapStartTimes == s.lapStartTimes && r.marker == s.marker && r.playhead == s.playhead
  {
  }

  /** togglePlayPause: pause both if the main player plays, else play both; nothing without a ready main player. */
  function Toggled(s: PageState): (r: PageState)
    ensures Invariant(s) ==> Invariant(r)
  {
    if s.main.Some? && s.main.value.ready then
      var c := if s.main.value.state == Playing then PauseVideo else PlayVideo;
      s.(main := Send(s.main, c), compare := Send(s.compare, c))
    else s
  }

  /**
   * With a ready main player the toggle sends one and the same command to
   * both players, a pause exactly when the main player was playing, so that
   * carried out it flips whether the main player plays.
   */
  lemma ToggleBoth(s: PageState)
    ensures !(s.main.Some? && s.main.value.ready) ==> Toggled(s) == s
    ensures s.main.Some? && s.main.value.ready ==>
      var c := if s.main.value.state == Playing then PauseVideo else PlayVideo;
      var r := Toggled(s);
      r.main.value.received == s.main.value.received + [c]
      && r.compare == Send(s.compare, c)
      && (Follow(s.main.value.state, Some(c)) == Playing <==> s.main.value.state != Playing)
      && r.marker == s.marker && r.laps == s.laps
  {
  }

  // ----- lap navigation -----

  /** The clamp of seekToLap: first raise to 1, then lower to the lap count. */
  function ClampLap(n: int, maxLap: int): (r: int)
    ensures maxLap >= 1 ==> 1 <= r <= maxLap
    ensures 1 <= n <= maxLap ==> r == n
    ensures n < 1 && maxLap >= 1 ==> r == 1
    ensures n > maxLap ==> r == maxLap
  {
    var raised := if n < 1 then 1 else n;
    if raised > maxLap then maxLap else raised
  }

  /** seekToLap: clamp, look the lap up, seek both players there and move the marker and the playhead. */
  function SoughtToLap(s: PageState, n: int): (r: PageState)
    ensures Invariant(s) ==> Invariant(r)
  {
    if s.laps.None? then s
    else
      var lap := ClampLap(n, |s.laps.value|);
      match FindStart(s.lapStartTimes, lap)
      case None => s
      case Some(t) =>
        s.(main := Send(s.main, SeekTo(Finite(t))), compare := Send(s.compare, SeekTo(Finite(t))),
           marker := lap, playhead := Some(t))
  }

  /**
   * On a loaded page seekToLap sets the marker to the clamped lap, which is
   * a lap of the session, sends both players to that lap's start in the
   * table, the same time for both, where the lap lookup reports that very
   * lap. Before loading it does nothing.
   */
  lemma SeekToLapEffect(s: PageState, n: int)
    requires Invariant(s)
    ensures Invariant(SoughtToLap(s, n))
    ensures s.laps.None? ==> SoughtToLap(s, n) == s
    ensures s.laps.Some? ==>
      var r := SoughtToLap(s, n);
      var m := ClampLap(n, |s.laps.value|);
      var t := s.lapStartTimes[m - 1].videoTime;
      r.marker == m && 1 <= m <= |s.laps.value|
      && r.playhead == Some(t)
      && r.main == Send(s.main, SeekTo(Finite(t)))
      && r.compare == Send(s.compare, SeekTo(Finite(t)))
      && LapNumberAt(s.lapStartTimes, t) == m
      && r.laps == s.laps && r.lapStartTimes == s.lapStartTimes
  {
    if s.laps.Some? {
      var m := ClampLap(n, |s.laps.value|);
      FindStartWellFormed(s.lapStartTimes, m);
      LapNumberAtStart(s.lapStartTimes, m);
    }
  }

  /** nextLap: one past the marker, if that is still a lap. */
  function NextLapOf(s: PageState): (r: PageState)
    ensures Invariant(s) ==> Invariant(r)
  {
    if s.laps.None? then s
    else
      var next := (if s.marker != 0 then s.marker else 0) + 1;
      if next <= |s.laps.value| then SoughtToLap(s, next) else s
  }

  /** previousLap: one before the marker, if that is at least lap 1. */
  function PreviousLapOf(s: PageState): (r: PageState)
    ensures Invariant(s) ==> Invariant(r)
  {
    var prev := (if s.marker != 0 then s.marker else 1) - 1;
    if prev >= 1 then SoughtToLap(s, prev) else s
  }

  /** At the last lap nextLap does nothing; before it, it moves the marker one lap on. */
  lemma NextLapEffect(s: PageState)
    requires Invariant(s) && s.laps.Some?
    ensures s.marker >= |s.laps.value| ==> NextLapOf(s) == s
    ensures s.marker < |s.laps.value| ==> NextLapOf(s) == SoughtToLap(s, s.marker + 1)
    ensures s.marker < |s.laps.value| ==> NextLapOf(s).marker == s.marker + 1
  {
    if s.marker < |s.laps.value| {
      SeekToLapEffect(s, s.marker + 1);
    }
  }

  /** At the first lap previousLap does nothing; after it, it moves the marker one lap back. */
  lemma PreviousLapEffect(s: PageState)
    requires Invariant(s)
    ensures s.marker <= 1 ==> PreviousLapOf(s) == s
    ensures s.laps.Some? && 1 < s.marker <= |s.laps.value| + 1 ==> PreviousLapOf(s).marker == s.marker - 1
  {
    if s.laps.Some? && 1 < s.marker {
      SeekToLapEffect(s, s.marker - 1);
    }
  }

  // ----- the statistics tick -----

  /** updateLiveStats: with a ready main player, the marker follows the lap under the video time. */
  function StatsUpdated(s: PageState, videoTime: real): (r: PageState)
    ensures Invariant(s) ==> Invariant(r)
  {
    if s.main.Some? && s.main.value.ready then
      s.(marker := LapNumberAt(s.lapStartTimes, videoTime),
         playhead := if s.laps.Some? then Some(videoTime) else s.playhead)
    else s
  }

  /**
   * The tick keeps the invariant; on a loaded page with a ready main player
   * it puts the marker on the lap whose interval of the table holds the video
   * time, and moves the playhead to that time.
   */
  lemma StatsFollowVideo(s: PageState, videoTime: real)
    requires Invariant(s)
    ensures Invariant(StatsUpdated(s, videoTime))
    ensures s.laps.Some? && s.main.Some? && s.main.value.ready ==>
      var r := StatsUpdated(s, videoTime);
      1 <= r.marker <= |s.laps.value|
      && (r.marker > 1 ==> s.lapStartTimes[r.marker - 1].videoTime <= videoTime)
      && (r.marker < |s.laps.value| ==> videoTime < s.lapStartTimes[r.marker].videoTime)
      && r.playhead == Some(videoTime)
  {
    if s.laps.Some? {
      LapNumberAtInterval(s.lapStartTimes, videoTime);
    }
  }

  // ----- remote commands -----

  /** `parseFloat(data.value)`: a number is kept, a string is read, anything else is NaN. */
  function SeekValue(j: Json): JsNum
  {
    match j
    case JNum(x) => Finite(x)
    case JStr(s) => JsParseFloat(s)
    case _ => NaN
  }

  /** handleRemoteCommand; `value` is None when the message has no `value` field. */
  function RemoteCommand(s: PageState, kind: string, value: Option<Json>): (r: PageState)
    ensures Invariant(s) ==> Invariant(r)
  {
    if kind == "NEXT_LAP" then NextLapOf(s)
    else if kind == "PREV_LAP" then PreviousLapOf(s)
    else if kind == "PLAY_PAUSE" then Toggled(s)
    else if kind == "SEEK" && value.Some? then
      var t := SeekValue(value.value);
      s.(main := Send(s.main, SeekTo(t)), compare := Send(s.compare, SeekTo(t)))
    else s
  }

  /**
   * An unknown command, or SEEK without a value, changes nothing; SEEK with
   * a value sends both players to the same time and leaves the marker alone.
   */
  lemma RemoteCommandEffect(s: PageState, kind: string, value: Option<Json>)
    ensures kind !in {"NEXT_LAP", "PREV_LAP", "PLAY_PAUSE", "SEEK"} ==> RemoteCommand(s, kind, value) == s
    ensures kind == "SEEK" && value.None? ==> RemoteCommand(s, kind, value) == s
    ensures kind == "SEEK" && value.Some? ==>
      var r := RemoteCommand(s, kind, value);
      r.main == Send(s.main, SeekTo(SeekValue(value.value)))
      && r.compare == Send(s.compare, SeekTo(SeekValue(value.value)))
      && r.marker == s.marker && r.playhead == s.playhead && r.laps == s.laps
  {
  }

  // ----- click to seek -----

  /** The chart's click handler: seek both players to the click target, when there is one and the main player is ready. */
  function ClickSought(s: PageState, f: Frame, x: real): (r: PageState)
    ensures Invariant(s) ==> Invariant(r)
    ensures r.marker == s.marker && r.laps == s.laps && r.playhead == s.playhead
  {
    if s.laps.None? then s
    else
      match ClickTarget(f, Durations(s.laps.value), s.lapStartTimes, x)
      case None => s
      case Some(t) =>
        if s.main.Some? && s.main.value.ready then
          s.(main := Send(s.main, SeekTo(Finite(t))), compare := Send(s.compare, SeekTo(Finite(t))))
        else s
  }

  /**
   * A click on a loaded chart sends both players to the same time, which
   * lies within the lap clicked, and a click on the playhead's position
   * sends them back to the playhead's time.
   */
  lemma ClickSeeksBoth(s: PageState, f: Frame, x: real, e: real, i: int)
    requires Invariant(s) && s.laps.Some?
    requires s.main.Some? && s.main.value.ready
    requires ClickIndex(f, x) == Some(e) && i == MathFloor(e) && 0 <= i < |s.laps.value|
    ensures var t := ClickTarget(f, Durations(s.laps.value), s.lapStartTimes, x).value;
      var r := ClickSought(s, f, x);
      r.main.value.received == s.main.value.received + [SeekTo(Finite(t))]
      && r.compare == Send(s.compare, SeekTo(Finite(t)))
      && s.lapStartTimes[i].videoTime <= t < s.lapStartTimes[i].videoTime + Duration(s.laps.value[i])
  {
    assert s.laps.value[i] in s.laps.value;
    ClickWithinLap(f, Durations(s.laps.value), s.lapStartTimes, x, e, i);
    FindStartWellFormed(s.lapStartTimes, i + 1);
  }

  // ----- the page -----

  /** The page's global variables, updated in place by its handlers. */
  class Page {
    var laps: Option<seq<LapEntry>>
    var lapStartTimes: seq<LapStart>
    var marker: int
    var main: Option<Player>
    var compare: Option<Player>
    var statsRunning: bool
    var playhead: Option<real>
    var loadError: Option<string>

    function State(): PageState
      reads this
    {
      PageState(laps, lapStartTimes, marker, main, compare, statsRunning, playhead, loadError)
    }

    ghost predicate Valid()
      reads this
    {
      Invariant(State())
    }

    constructor(mainPlayer: Option<Player>, comparePlayer: Option<Player>)
      ensures Valid()
      ensures State() == Initial(mainPlayer, comparePlayer)
    {
      laps := None;
      lapStartTimes := [];
      marker := 1;
      main := mainPlayer;
      compare := comparePlayer;
      statsRunning := false;
      playhead := None;
      loadError := None;
    }

    /** loadSessionData and renderSession, once the session file has been fetched and parsed. */
    method Load(data: LapsField, videoStart: Json)
      requires Valid()
      modifies this
      ensures Valid()
      ensures State() == Loaded(old(State()), data, videoStart)
    {
      LoadEffect(State(), data, videoStart);
      var valid := ValidateLapData(data);
      if valid == [] {
        loadError := Some(NoValidLaps);
        return;
      }
      laps := Some(valid);
      var start := VideoStart(videoStart);
      var durations := Durations(valid);
      var table := BuildLapStartTimes(start, durations);
      BuiltIsStartTable(start, durations, table);
      lapStartTimes := table;
    }

    method OnPlayerStateChange(fromMain: bool, reported: PlayerState)
      requires Valid()
      requires fromMain ==> main.Some?
      requires !fromMain ==> compare.Some?
      modifies this
      ensures Valid()
      ensures State() == StateChanged(old(State()), fromMain, reported)
    {
      var isPlaying := reported == Playing;
      statsRunning := isPlaying;
      if fromMain {
        main := Some(main.value.(state := reported));
        if compare.Some? {
          var c := SyncCommand(isPlaying, compare.value.state);
          if c.Some? {
            compare := Send(compare, c.value);
          }
        }
      } else {
        compare := Some(compare.value.(state := reported));
        if main.Some? {
          var c := SyncCommand(isPlaying, main.value.state);
          if c.Some? {
            main := Send(main, c.value);
          }
        }
      }
    }

    method TogglePlayPause()
      requires Valid()
      modifies this
      ensures Valid()
      ensures State() == Toggled(old(State()))
    {
      if main.None? || !main.value.ready {
        return;
      }
      if main.value.state == Playing {
        main := Send(main, PauseVideo);
        compare := Send(compare, PauseVideo);
      } else {
        main := Send(main, PlayVideo);
        compare := Send(compare, PlayVideo);
      }
    }

    method SeekToLap(n: int)
      requires Valid()
      modifies this
      ensures Valid()
      ensures State() == SoughtToLap(old(State()), n)
    {
      SeekToLapEffect(State(), n);
      if laps.None? {
        return;
      }
      var maxLap := |laps.value|;
      var lap := n;
      if lap < 1 {
        lap := 1;
      }
      if lap > maxLap {
        lap := maxLap;
      }
      var start := FindStart(lapStartTimes, lap);
      if start.Some? {
        main := Send(main, SeekTo(Finite(start.value)));
        compare := Send(compare, SeekTo(Finite(start.value)));
        marker := lap;
        playhead := Some(start.value);
      }
    }

    method NextLap()
      requires Valid()
      modifies this
      ensures Valid()
      ensures State() == NextLapOf(old(State()))
    {
      if laps.None? {
        return;
      }
      var next := (if marker != 0 then marker else 0) + 1;
      if next <= |laps.value| {
        SeekToLap(next);
      }
    }

    method PreviousLap()
      requires Valid()
      modifies this
      ensures Valid()
      ensures State() == PreviousLapOf(old(State()))
    {
      var prev := (if marker != 0 then marker else 1) - 1;
      if prev >= 1 {
        SeekToLap(prev);
      }
    }

    /** updateLiveStats, given the main player's current video time. */
    method UpdateLiveStats(videoTime: real)
      requires Valid()
      modifies this
      ensures Valid()
      ensures State() == StatsUpdated(old(State()), videoTime)
    {
      StatsFollowVideo(State(), videoTime);
      if main.None? || !main.value.ready {
        return;
      }
      var lap := GetCurrentLapNumber(lapStartTimes, videoTime);
      marker := lap;
      if laps.Some? {
        playhead := Some(videoTime);
      }
    }

    method HandleRemoteCommand(kind: string, value: Option<Json>)
      requires Valid()
      modifies this
      ensures Valid()
      ensures State() == RemoteCommand(old(State()), kind, value)
    {
      if kind == "NEXT_LAP" {
        NextLap();
      } else if kind == "PREV_LAP" {
        PreviousLap();
      } else if kind == "PLAY_PAUSE" {
        TogglePlayPause();
      } else if kind == "SEEK" {
        if value.Some? {
          main := Send(main, SeekTo(SeekValue(value.value)));
          compare := Send(compare, SeekTo(SeekValue(value.value)));
        }
      }
    }

    /** The chart's click handler, on the frame the chart was last drawn with. */
    method ClickSeek(f: Frame, x: real)
      requires Valid()
      modifies this
      ensures Valid()
      ensures State() == ClickSought(old(State()), f, x)
    {
      if laps.None? {
        return;
      }
      var target := ClickTarget(f, Durations(laps.value), lapStartTimes, x);
      if target.Some? && main.Some? && main.value.ready {
        main := Send(main, SeekTo(Finite(target.value)));
        compare := Send(compare, SeekTo(Finite(target.value)));
      }
    }
  }
}
