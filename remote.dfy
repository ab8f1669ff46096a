/**
 * The phone remote (js/remote.js): buttons and a seek bar that send
 * commands to the session page over a peer connection, and the statistics
 * the page sends back. Its state is the position and length of the video
 * as the remote believes them, whether a seek is in progress, whether the
 * seek bar is being dragged, and the messages sent so far.
 */
module Remote {
  import opened Text
  import opened JsValues
  import opened Optional
  import opened RealArith
  import SessionPage

  /** A message as it travels over the connection, `{type, value}` serialised as JSON. */
  datatype Message = Message(kind: string, value: Json)

  /** JSON serialisation of a number: a number that is not finite becomes null. */
  function NumberToJson(n: JsNum): Json
  {
    if n.Finite? then JNum(n.v) else JNull
  }

  /** Math.min: NaN when either argument is NaN. */
  function Min(a: JsNum, b: JsNum): (r: JsNum)
    ensures !a.NaN? && !b.NaN? ==> (r == a || r == b) && !Less(a, r) && !Less(b, r)
  {
    if a.NaN? || b.NaN? then NaN else if Less(b, a) then b else a
  }

  /** Math.max: NaN when either argument is NaN. */
  function Max(a: JsNum, b: JsNum): (r: JsNum)
    ensures !a.NaN? && !b.NaN? ==> (r == a || r == b) && !Less(r, a) && !Less(r, b)
  {
    if a.NaN? || b.NaN? then NaN else if Less(a, b) then b else a
  }

  /** The remote's variables, as one value. */
  datatype RemoteState = RemoteState(
    currentTime: JsNum,
    currentDuration: JsNum,
    isSeeking: bool,
    isDragging: bool,
    connected: bool,
    sent: seq<Message>)

  /** The duration is 0 until the page reports a positive one. */
  predicate Invariant(s: RemoteState)
  {
    s.currentDuration == Finite(0.0) || Greater(s.currentDuration, Finite(0.0))
  }

  /** sendCommand: a message goes out only over an open connection. */
  function Sent(s: RemoteState, kind: string, value: Json): RemoteState
  {
    if s.connected then s.(sent := s.sent + [Message(kind, value)]) else s
  }

  /** handleQuickSeek: move by `seconds` within [0, duration], tell the page, and mark a seek in progress. */
  function QuickSought(s: RemoteState, seconds: real): (r: RemoteState)
    ensures Invariant(s) ==> Invariant(r)
    ensures r.isSeeking && r.currentDuration == s.currentDuration && r.isDragging == s.isDragging
  {
    var t := Max(Finite(0.0), Min(Add(s.currentTime, Finite(seconds)), s.currentDuration));
    Sent(s.(currentTime := t), "SEEK", NumberToJson(t)).(isSeeking := true)
  }

  /** The seek bar position of a pointer `rel` pixels from its left end, on a bar `width` pixels wide. */
  function BarFraction(rel: real, width: real): JsNum
  {
    var x := if rel < 0.0 then 0.0 else if rel > width then (if width < 0.0 then 0.0 else width) else rel;
    Div(Finite(x), Finite(width))
  }

  /** updatePosition: the pointer's place on the bar picks the same fraction of the video; nothing while the duration is 0. */
  function PositionUpdated(s: RemoteState, clientX: real, left: real, width: real): (r: RemoteState)
    ensures Invariant(s) ==> Invariant(r)
    ensures r == s.(currentTime := r.currentTime)
  {
    if s.currentDuration == Finite(0.0) then s
    else s.(currentTime := Mul(BarFraction(clientX - left, width), s.currentDuration))
  }

  /** mousedown and touchstart on the bar: a drag starts, and with it a seek. */
  function DragStarted(s: RemoteState, clientX: real, left: real, width: real): (r: RemoteState)
    ensures Invariant(s) ==> Invariant(r)
    ensures r.isDragging && r.isSeeking && r.sent == s.sent && r.currentDuration == s.currentDuration
  {
    PositionUpdated(s.(isDragging := true, isSeeking := true), clientX, left, width)
  }

  /** mousemove and touchmove: the position follows the pointer only while dragging. */
  function Dragged(s: RemoteState, clientX: real, left: real, width: real): (r: RemoteState)
    ensures Invariant(s) ==> Invariant(r)
    ensures r == s.(currentTime := r.currentTime)
    ensures !s.isDragging ==> r == s
  {
    if s.isDragging then PositionUpdated(s, clientX, left, width) else s
  }

  /** endSeek: a drag ends with one SEEK to the position reached. */
  function SeekEnded(s: RemoteState): (r: RemoteState)
    ensures Invariant(s) ==> Invariant(r)
    ensures !r.isDragging && r.currentTime == s.currentTime && |s.sent| <= |r.sent| <= |s.sent| + 1
  {
    if !s.isDragging then s
    else Sent(s.(isDragging := false, isSeeking := false), "SEEK", NumberToJson(s.currentTime))
  }

  /** The timer set by handleQuickSeek: half a second later the seek is over. */
  function SeekTimerFired(s: RemoteState): (r: RemoteState)
    ensures Invariant(s) ==> Invariant(r)
    ensures !r.isSeeking && r.currentTime == s.currentTime && r.sent == s.sent
  {
    s.(isSeeking := false)
  }

  /**
   * updateStats, for the video position: the page's duration and time are
   * taken only when no seek is in progress and the duration is positive. A
   * field missing from the message, or null, is NaN here: both fail
   * `> 0` and both are falsy.
   */
  function StatsReceived(s: RemoteState, duration: JsNum, time: JsNum): (r: RemoteState)
    ensures Invariant(s) ==> Invariant(r)
    ensures r.sent == s.sent && r.isSeeking == s.isSeeking && r.isDragging == s.isDragging
  {
    if !s.isSeeking && Greater(duration, Finite(0.0)) then
      s.(currentDuration := duration, currentTime := OrElse(time, Finite(0.0)))
    else s
  }

  /** updateSeekUI: the position as a percentage of the duration; 0 while the duration is not positive. */
  function SeekPercentage(s: RemoteState): JsNum
  {
    if Greater(s.currentDuration, Finite(0.0)) then Mul(Div(s.currentTime, s.currentDuration), Finite(100.0))
    else Finite(0.0)
  }

  // ----- what the handlers promise -----

  /** `lo <= a <= hi` brought into range, written out. */
  function Clamp(a: real, lo: real, hi: real): real
  {
    if a < lo then lo else if a > hi then hi else a
  }

  /**
   * A quick seek from a known position stays within the video: the new time
   * is the old one moved by `seconds` and clamped to [0, duration], the page
   * is sent exactly that time, and a seek is in progress.
   */
  lemma QuickSeekClamps(s: RemoteState, seconds: real)
    requires Invariant(s) && s.currentTime.Finite? && s.currentDuration.Finite?
    ensures var r := QuickSought(s, seconds);
      var c := Clamp(s.currentTime.v + seconds, 0.0, s.currentDuration.v);
      r.currentTime == Finite(c) && 0.0 <= c <= s.currentDuration.v
      && r.sent == s.sent + (if s.connected then [Message("SEEK", JNum(c))] else [])
      && r.isSeeking && r.isDragging == s.isDragging && r.connected == s.connected
      && r.currentDuration == s.currentDuration && Invariant(r)
  {
  }

  /** Without a known duration the remote has nowhere to seek to: a quick seek goes to 0. */
  lemma QuickSeekBeforeStats(s: RemoteState, seconds: real)
    requires s.currentDuration == Finite(0.0) && s.currentTime.Finite?
    ensures QuickSought(s, seconds).currentTime == Finite(0.0)
  {
  }

  /** The fraction of the bar under the pointer, clamped to [0, 1]. */
  function PointerFraction(rel: real, width: real): real
    requires width > 0.0
  {
    if rel <= 0.0 then 0.0 else if rel >= width then 1.0 else rel / width
  }

  /**
   * updatePosition changes only the time, and nothing while the duration is
   * 0; on a bar of width 0 the time becomes NaN (0/0).
   */
  lemma PositionChangesOnlyTime(s: RemoteState, clientX: real, left: real, width: real)
    ensures s.currentDuration == Finite(0.0) ==> PositionUpdated(s, clientX, left, width) == s
    ensures PositionUpdated(s, clientX, left, width) == s.(currentTime := PositionUpdated(s, clientX, left, width).currentTime)
    ensures s.currentDuration != Finite(0.0) && width == 0.0 ==> PositionUpdated(s, clientX, left, width).currentTime == NaN
  {
  }

  /**
   * With a positive duration and a bar of positive width, the time picked
   * is the pointer's fraction of the bar times the duration, inside
   * [0, duration].
   */
  lemma PositionWithinVideo(s: RemoteState, clientX: real, left: real, width: real)
    requires s.currentDuration.Finite? && s.currentDuration.v > 0.0 && width > 0.0
    ensures var p := PointerFraction(clientX - left, width);
      PositionUpdated(s, clientX, left, width).currentTime == Finite(p * s.currentDuration.v)
      && 0.0 <= p * s.currentDuration.v <= s.currentDuration.v
  {
    var p := PointerFraction(clientX - left, width);
    BarFractionClamped(clientX - left, width);
    MulMono(s.currentDuration.v, p, 1.0);
    MulMono(s.currentDuration.v, 0.0, p);
  }

  lemma BarFractionClamped(rel: real, width: real)
    requires width > 0.0
    ensures BarFraction(rel, width) == Finite(PointerFraction(rel, width))
    ensures 0.0 <= PointerFraction(rel, width) <= 1.0
  {
    if rel <= 0.0 {
      assert BarFraction(rel, width) == Div(Finite(0.0), Finite(width));
      assert 0.0 / width == 0.0;
    } else if rel >= width {
      assert BarFraction(rel, width) == Div(Finite(width), Finite(width));
      assert width / width == 1.0;
    } else {
      assert BarFraction(rel, width) == Div(Finite(rel), Finite(width));
      DivBelowOne(rel, width);
    }
  }

  /**
   * A drag ends with exactly one SEEK, carrying the time reached (null when
   * that time is not finite), and clears both flags; when no drag is in
   * progress nothing happens.
   */
  lemma SeekEndsOnce(s: RemoteState)
    ensures !s.isDragging ==> SeekEnded(s) == s
    ensures s.isDragging ==>
      var r := SeekEnded(s);
      !r.isDragging && !r.isSeeking
      && r.currentTime == s.currentTime && r.currentDuration == s.currentDuration && r.connected == s.connected
      && r.sent == s.sent + (if s.connected then [Message("SEEK", NumberToJson(s.currentTime))] else [])
  {
  }

  /**
   * While a seek is in progress, or when the page reports no positive
   * duration, the statistics leave the position alone; otherwise the
   * remote takes the page's duration, and its time or 0.
   */
  lemma StatsGuarded(s: RemoteState, duration: JsNum, time: JsNum)
    ensures s.isSeeking || !Greater(duration, Finite(0.0)) ==> StatsReceived(s, duration, time) == s
    ensures !s.isSeeking && Greater(duration, Finite(0.0)) ==>
      var r := StatsReceived(s, duration, time);
      r.currentDuration == duration
      && r.currentTime == (if time.NaN? || time == Finite(0.0) then Finite(0.0) else time)
      && r.isSeeking == s.isSeeking && r.isDragging == s.isDragging && r.sent == s.sent
    ensures Invariant(s) ==> Invariant(StatsReceived(s, duration, time))
  {
  }

  /** Every handler keeps the duration 0 or positive. */
  lemma HandlersKeepInvariant(s: RemoteState, seconds: real, clientX: real, left: real, width: real)
    requires Invariant(s)
    ensures Invariant(QuickSought(s, seconds))
    ensures Invariant(DragStarted(s, clientX, left, width)) && Invariant(Dragged(s, clientX, left, width))
    ensures Invariant(SeekEnded(s)) && Invariant(SeekTimerFired(s))
  {
  }

  /** The seek bar shows a percentage in [0, 100] for a time within the video, and 0 before any duration is known. */
  lemma PercentageInRange(s: RemoteState)
    ensures !Greater(s.currentDuration, Finite(0.0)) ==> SeekPercentage(s) == Finite(0.0)
    ensures (s.currentDuration.Finite? && s.currentDuration.v > 0.0
      && s.currentTime.Finite? && 0.0 <= s.currentTime.v <= s.currentDuration.v) ==>
      SeekPercentage(s).Finite? && 0.0 <= SeekPercentage(s).v <= 100.0
  {
    if s.currentDuration.Finite? && s.currentDuration.v > 0.0
      && s.currentTime.Finite? && 0.0 <= s.currentTime.v <= s.currentDuration.v {
      DivUnit(s.currentTime.v, s.currentDuration.v);
    }
  }

  // ----- the clock shown on the remote -----

  /** Math.trunc. */
  function Trunc(y: real): int
  {
    if y >= 0.0 then MathFloor(y) else -MathFloor(-y)
  }

  /** JavaScript's `%` on finite numbers: the remainder takes the sign of the dividend. */
  function JsRem(a: real, b: real): real
    requires b != 0.0
  {
    a - b * Trunc(a / b) as real
  }

  /** formatTime: "0:00" for 0 and NaN, otherwise whole minutes, a colon and whole seconds padded to two digits. */
  function FormatTime(n: JsNum): (r: string)
    ensures ':' in r
  {
    if !Truthy(n) then "0:00"
    else match n
      case Finite(v) => IntToString(MathFloor(v / 60.0)) + ":" + PadStart(IntToString(MathFloor(JsRem(v, 60.0))), 2, '0')
      // Math.floor(Infinity / 60) is Infinity and Infinity % 60 is NaN
      case PosInf => "Infinity:NaN"
      case _ => "-Infinity:NaN"
  }

  /**
   * The clock of a positive time reads back as its whole seconds: two digit
   * fields around one colon, the second exactly two digits below 60, and
   * minutes times 60 plus seconds is Math.floor of the time.
   */
  lemma FormatTimeReadsBack(v: real)
    requires v > 0.0
    ensures var parts := Split(FormatTime(Finite(v)), ':');
      |parts| == 2 && AllDigits(parts[0]) && AllDigits(parts[1]) && |parts[1]| == 2
      && DigitsValue(parts[1]) < 60
      && DigitsValue(parts[0]) * 60 + DigitsValue(parts[1]) == MathFloor(v)
  {
    var m, sec := ClockOf(v);
    ClockFieldsRead(m, sec, FormatTime(Finite(v)));
  }

  /** The minutes and seconds a positive time shows, and the clock text they make. */
  lemma ClockOf(v: real) returns (m: nat, sec: nat)
    requires v > 0.0
    ensures sec < 60 && 60 * m + sec == MathFloor(v)
    ensures FormatTime(Finite(v)) == NatToString(m) + [':'] + PadStart(NatToString(sec), 2, '0')
  {
    m, sec := WholeMinutesSeconds(v);
    ClockText(v, m, sec);
  }

  /** The clock text of a positive time, from its whole minutes and seconds. */
  lemma ClockText(v: real, m: nat, sec: nat)
    requires v > 0.0 && m == MathFloor(v / 60.0) && sec == MathFloor(JsRem(v, 60.0))
    ensures FormatTime(Finite(v)) == NatToString(m) + [':'] + PadStart(NatToString(sec), 2, '0')
  {
    assert Truthy(Finite(v));
  }

  /** Math.floor(v / 60) and Math.floor(v % 60) for a positive v: minutes, and seconds below 60. */
  lemma WholeMinutesSeconds(v: real) returns (m: nat, sec: nat)
    requires v > 0.0
    ensures m == MathFloor(v / 60.0) && sec == MathFloor(JsRem(v, 60.0))
    ensures sec < 60 && 60 * m + sec == MathFloor(v)
  {
    m := MathFloor(v / 60.0);
    assert Trunc(v / 60.0) == m;
    var r := v - 60.0 * m as real;
    assert JsRem(v, 60.0) == r;
    assert 0.0 <= r < 60.0;
    sec := MathFloor(r);
    assert (60 * m + sec) as real <= v < (60 * m + sec) as real + 1.0;
  }

  /** Whole minutes and seconds below 60, written as the remote writes them, read back. */
  lemma ClockFieldsRead(m: nat, sec: nat, clock: string)
    requires sec < 60 && clock == NatToString(m) + [':'] + PadStart(NatToString(sec), 2, '0')
    ensures var parts := Split(clock, ':');
      |parts| == 2 && AllDigits(parts[0]) && AllDigits(parts[1]) && |parts[1]| == 2
      && DigitsValue(parts[1]) < 60
      && DigitsValue(parts[0]) * 60 + DigitsValue(parts[1]) == 60 * m + sec
  {
    var a := NatToString(m);
    var digits := NatToString(sec);
    var b := PadStart(digits, 2, '0');
    LeadingZeros(|b| - |digits|, digits);
    TwoDigitsAtMost(sec);
    NoColonInDigits(a);
    NoColonInDigits(b);
    SplitTwo(a, ':', b);
  }

  /** A natural below 100 is written with at most two digits. */
  lemma TwoDigitsAtMost(n: nat)
    requires n < 100
    ensures |NatToString(n)| <= 2
  {
    if n >= 10 {
      assert n / 10 < 10;
    }
  }

  /** falsy input shows "0:00". */
  lemma FormatTimeFalsy(n: JsNum)
    requires n == Finite(0.0) || n.NaN?
    ensures FormatTime(n) == "0:00"
  {
  }

  // ----- what the page does with the remote's messages -----

  /**
   * A SEEK from the remote sends both of the page's players to the same
   * time: the remote's time when it is finite, and NaN otherwise, since the
   * null it then sends passes the page's `!== undefined` check.
   */
  lemma SeekReachesPage(page: SessionPage.PageState, t: JsNum)
    ensures var r := SessionPage.RemoteCommand(page, "SEEK", Some(NumberToJson(t)));
      var target := if t.Finite? then t else NaN;
      r.main == SessionPage.Send(page.main, SessionPage.SeekTo(target))
      && r.compare == SessionPage.Send(page.compare, SessionPage.SeekTo(target))
  {
  }

  // ----- the remote page -----

  /** The remote page's variables, updated in place by its handlers. */
  class RemotePage {
    var currentTime: JsNum
    var currentDuration: JsNum
    var isSeeking: bool
    var isDragging: bool
    var connected: bool
    var sent: seq<Message>

    function State(): RemoteState
      reads this
    {
      RemoteState(currentTime, currentDuration, isSeeking, isDragging, connected, sent)
    }

    predicate Valid()
      reads this
    {
      Invariant(State())
    }

    /** The page as loaded: position and duration 0, no seek, no drag, no connection yet. */
    constructor ()
      ensures Valid()
      ensures State() == RemoteState(Finite(0.0), Finite(0.0), false, false, false, [])
    {
      currentTime := Finite(0.0);
      currentDuration := Finite(0.0);
      isSeeking := false;
      isDragging := false;
      connected := false;
      sent := [];
    }

    /** The peer connection opens or closes. */
    method SetConnected(open: bool)
      requires Valid()
      modifies this
      ensures Valid()
      ensures State() == old(State()).(connected := open)
    {
      connected := open;
    }

    method SendCommand(kind: string, value: Json)
      requires Valid()
      modifies this
      ensures Valid()
      ensures State() == Sent(old(State()), kind, value)
    {
      if connected {
        sent := sent + [Message(kind, value)];
      }
    }

    method HandleQuickSeek(seconds: real)
      requires Valid()
      modifies this
      ensures Valid()
      ensures State() == QuickSought(old(State()), seconds)
    {
      HandlersKeepInvariant(State(), seconds, 0.0, 0.0, 0.0);
      currentTime := Max(Finite(0.0), Min(Add(currentTime, Finite(seconds)), currentDuration));
      SendCommand("SEEK", NumberToJson(currentTime));
      isSeeking := true;
    }

    method UpdatePosition(clientX: real, left: real, width: real)
      requires Valid()
      modifies this
      ensures Valid()
      ensures State() == PositionUpdated(old(State()), clientX, left, width)
    {
      if currentDuration == Finite(0.0) {
        return;
      }
      var x := if clientX - left < 0.0 then 0.0
        else if clientX - left > width then (if width < 0.0 then 0.0 else width)
        else clientX - left;
      var percentage := Div(Finite(x), Finite(width));
      currentTime := Mul(percentage, currentDuration);
    }

    method StartDrag(clientX: real, left: real, width: real)
      requires Valid()
      modifies this
      ensures Valid()
      ensures State() == DragStarted(old(State()), clientX, left, width)
    {
      isDragging := true;
      isSeeking := true;
      UpdatePosition(clientX, left, width);
    }

    method Drag(clientX: real, left: real, width: real)
      requires Valid()
      modifies this
      ensures Valid()
      ensures State() == Dragged(old(State()), clientX, left, width)
    {
      if isDragging {
        UpdatePosition(clientX, left, width);
      }
    }

    method EndSeek()
      requires Valid()
      modifies this
      ensures Valid()
      ensures State() == SeekEnded(old(State()))
    {
      if !isDragging {
        return;
      }
      isDragging := false;
      isSeeking := false;
      SendCommand("SEEK", NumberToJson(currentTime));
    }

    method SeekTimerElapsed()
      requires Valid()
      modifies this
      ensures Valid()
      ensures State() == SeekTimerFired(old(State()))
    {
      isSeeking := false;
    }

    method UpdateStats(duration: JsNum, time: JsNum)
      requires Valid()
      modifies this
      ensures Valid()
      ensures State() == StatsReceived(old(State()), duration, time)
    {
      StatsGuarded(State(), duration, time);
      if !isSeeking && Greater(duration, Finite(0.0)) {
        currentDuration := duration;
        currentTime := OrElse(time, Finite(0.0));
      }
    }
  }
}
