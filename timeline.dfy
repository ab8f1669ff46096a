/**
 * The lap timeline of the session page: the table of video times at which
 * each lap starts, built once the session is loaded, and the lookup of the
 * lap under a given video time.
 */
module Timeline {
  import opened JsValues
  import opened SessionTime

  /** One entry of `lapStartTimes`. */
  datatype LapStart = LapStart(lapNumber: int, videoTime: real)

  /** The sum of a list of durations. */
  function Sum(s: seq<real>): real
  {
    if s == [] then 0.0 else Sum(s[..|s| - 1]) + s[|s| - 1]
  }

  /** The number of entries of the table: one per lap, and one for an empty list. */
  function TableLength(durations: seq<real>): nat
  {
    if |durations| == 0 then 1 else |durations|
  }

  /** `parseTime(data.video_start_time || "0:00")`. */
  function VideoStart(v: Json): real
  {
    ParseTime(if JsonTruthy(v) then v else JStr("0:00")).v
  }

  /** The "0:00" default changes nothing: a falsy start time parses to 0 as well. */
  lemma VideoStartDefault(v: Json)
    ensures VideoStart(v) == ParseTime(v).v
  {
    if !JsonTruthy(v) {
      FalsyTimeIsZero(v);
      ZeroClockIsZero("0:00");
    }
  }

  /**
   * The table renderSession builds: entry k starts lap k+1 at the video start
   * plus the durations of the k laps before it.
   */
  method BuildLapStartTimes(start: real, durations: seq<real>) returns (table: seq<LapStart>)
    ensures |table| == TableLength(durations)
    ensures forall k :: 0 <= k < |table| ==> table[k] == LapStart(k + 1, start + Sum(durations[..k]))
  {
    var cumulative := start;
    assert durations[..0] == [];
    table := [LapStart(1, cumulative)];
    var i := 0;
    while i < |durations| - 1
      invariant 0 <= i < TableLength(durations)
      invariant |table| == i + 1
      invariant cumulative == start + Sum(durations[..i])
      invariant forall k :: 0 <= k < |table| ==> table[k] == LapStart(k + 1, start + Sum(durations[..k]))
    {
      assert durations[..i + 1][..i] == durations[..i];
      cumulative := cumulative + durations[i];
      table := table + [LapStart(i + 2, cumulative)];
      i := i + 1;
    }
  }

  /** The shape the built table has: lap numbers 1, 2, ... in order, and start times that increase. */
  predicate WellFormed(table: seq<LapStart>)
  {
    |table| >= 1
    && (forall k :: 0 <= k < |table| ==> table[k].lapNumber == k + 1)
    && (forall j, k :: 0 <= j < k < |table| ==> table[j].videoTime < table[k].videoTime)
  }

  /** Adding a positive duration makes the running sum grow. */
  lemma {:induction false} SumGrows(s: seq<real>, j: nat, k: nat)
    requires j < k <= |s|
    requires forall i :: 0 <= i < |s| ==> s[i] > 0.0
    ensures Sum(s[..j]) < Sum(s[..k])
    decreases k
  {
    assert s[..k][..k - 1] == s[..k - 1];
    if j < k - 1 {
      SumGrows(s, j, k - 1);
    }
  }

  /** With positive lap durations (as every valid lap has), the built table is well formed. */
  lemma BuiltTableWellFormed(start: real, durations: seq<real>, table: seq<LapStart>)
    requires forall i :: 0 <= i < |durations| ==> durations[i] > 0.0
    requires |table| == TableLength(durations)
    requires forall k :: 0 <= k < |table| ==> table[k] == LapStart(k + 1, start + Sum(durations[..k]))
    ensures WellFormed(table)
    ensures table[0].videoTime == start
  {
    assert durations[..0] == [];
    forall j, k | 0 <= j < k < |table|
      ensures table[j].videoTime < table[k].videoTime
    {
      SumGrows(durations, j, k);
    }
  }

  /** Entry k+1 starts where entry k starts plus lap k's duration. */
  lemma NextStart(start: real, durations: seq<real>, table: seq<LapStart>, k: nat)
    requires |table| == TableLength(durations)
    requires forall k :: 0 <= k < |table| ==> table[k] == LapStart(k + 1, start + Sum(durations[..k]))
    requires k + 1 < |table|
    ensures table[k + 1].videoTime == table[k].videoTime + durations[k]
  {
    assert durations[..k + 1][..k] == durations[..k];
  }

  /**
   * getCurrentLapNumber as a function: the lap number of the last entry
   * starting at or before `t`, or 1 when there is none.
   */
  function LapNumberAt(table: seq<LapStart>, t: real): (r: int)
    ensures (r == 1 && forall j :: 0 <= j < |table| ==> t < table[j].videoTime)
      || exists k :: 0 <= k < |table| && table[k].videoTime <= t && r == table[k].lapNumber
           && forall j :: k < j < |table| ==> t < table[j].videoTime
  {
    if table == [] then 1
    else if t >= table[|table| - 1].videoTime then table[|table| - 1].lapNumber
    else
      var init := table[..|table| - 1];
      var r := LapNumberAt(init, t);
      assert forall j :: 0 <= j < |init| ==> init[j] == table[j];
      r
  }

  /** getCurrentLapNumber: scan the table from its end. */
  method GetCurrentLapNumber(table: seq<LapStart>, t: real) returns (n: int)
    ensures n == LapNumberAt(table, t)
  {
    var i := |table| - 1;
    assert table[..i + 1] == table;
    while i >= 0
      invariant -1 <= i < |table|
      invariant LapNumberAt(table, t) == LapNumberAt(table[..i + 1], t)
    {
      if t >= table[i].videoTime {
        return table[i].lapNumber;
      }
      assert table[..i + 1][..i] == table[..i];
      i := i - 1;
    }
    return 1;
  }

  /** When no entry starts at or before `t`, the lookup answers lap 1. */
  lemma {:induction false} LapNumberAtNoneBefore(table: seq<LapStart>, t: real)
    requires forall k :: 0 <= k < |table| ==> t < table[k].videoTime
    ensures LapNumberAt(table, t) == 1
  {
    if table != [] {
      var init := table[..|table| - 1];
      assert forall k :: 0 <= k < |init| ==> init[k] == table[k];
      LapNumberAtNoneBefore(init, t);
    }
  }

  /**
   * The lookup finds the last entry at or before `t`: when entry `i` starts
   * at or before `t` and every later entry starts after it, the answer is
   * entry `i`'s lap number.
   */
  lemma {:induction false} LapNumberAtLast(table: seq<LapStart>, t: real, i: nat)
    requires i < |table| && table[i].videoTime <= t
    requires forall k :: i < k < |table| ==> t < table[k].videoTime
    ensures LapNumberAt(table, t) == table[i].lapNumber
  {
    if i < |table| - 1 {
      var init := table[..|table| - 1];
      assert forall k :: 0 <= k < |init| ==> init[k] == table[k];
      LapNumberAtLast(init, t, i);
    }
  }

  /** On a well-formed table the lap under `t` is the one whose interval holds `t`. */
  lemma {:induction false} LapNumberAtInterval(table: seq<LapStart>, t: real)
    requires WellFormed(table)
    ensures 1 <= LapNumberAt(table, t) <= |table|
    ensures LapNumberAt(table, t) > 1 ==> table[LapNumberAt(table, t) - 1].videoTime <= t
    ensures LapNumberAt(table, t) < |table| ==> t < table[LapNumberAt(table, t)].videoTime
  {
    var n := |table|;
    if t < table[0].videoTime {
      forall k | 0 <= k < n
        ensures t < table[k].videoTime
      {
        if k > 0 {
          assert table[0].videoTime < table[k].videoTime;
        }
      }
      LapNumberAtNoneBefore(table, t);
    } else {
      var i := LastAtOrBefore(table, t);
      LapNumberAtLast(table, t, i);
      assert table[i].lapNumber == i + 1;
    }
  }

  /** The position of the last entry starting at or before `t`, when the first one does. */
  lemma {:induction false} LastAtOrBefore(table: seq<LapStart>, t: real) returns (i: nat)
    requires WellFormed(table) && table[0].videoTime <= t
    ensures i < |table| && table[i].videoTime <= t
    ensures forall k :: i < k < |table| ==> t < table[k].videoTime
  {
    i := 0;
    while i + 1 < |table| && table[i + 1].videoTime <= t
      invariant i < |table| && table[i].videoTime <= t
      decreases |table| - i
    {
      i := i + 1;
    }
    forall k | i < k < |table|
      ensures t < table[k].videoTime
    {
      if i + 1 < |table| && k > i + 1 {
        assert table[i + 1].videoTime < table[k].videoTime;
      }
    }
  }

  /** Seeking to the start of lap n puts the video where the lookup reports lap n. */
  lemma LapNumberAtStart(table: seq<LapStart>, n: int)
    requires WellFormed(table) && 1 <= n <= |table|
    ensures LapNumberAt(table, table[n - 1].videoTime) == n
  {
    LapNumberAtLast(table, table[n - 1].videoTime, n - 1);
  }

  /** A later video time never gives an earlier lap. */
  lemma LapNumberAtMonotone(table: seq<LapStart>, t: real, u: real)
    requires WellFormed(table) && t <= u
    ensures LapNumberAt(table, t) <= LapNumberAt(table, u)
  {
    LapNumberAtInterval(table, t);
    LapNumberAtInterval(table, u);
    var b := LapNumberAt(table, u);
    if b < |table| {
      assert forall k :: b <= k < |table| ==> t < table[k].videoTime by {
        forall k | b <= k < |table| ensures t < table[k].videoTime {
          if k > b {
            assert table[b].videoTime < table[k].videoTime;
          }
        }
      }
    }
  }
}
