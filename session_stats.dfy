/**
 * Per-node session statistics: update_render_stats keeps the last ten render
 * times and three running totals; get_render_stats summarises them.
 */
module SessionStats {
  import opened Wrappers
  import opened TimeFormat

  /** The record kept per node path for the session. */
  datatype Stats = Stats(times: seq<real>, totalRenders: nat, framesRendered: int, totalTime: real)

  /** How many render times the window keeps. */
  const WindowSize: nat := 10

  /** The record a node path starts from on its first completed render. */
  const NoRenders := Stats([], 0, 0, 0.0)

  /** The record for a path, or the zeroed one when the path has none yet. */
  function StatsOf(session: map<string, Stats>, path: string): Stats
  {
    if path in session then session[path] else NoRenders
  }

  /** A completed render and the frames it produced. */
  datatype Render = Render(time: real, frames: int)

  /**
   * One completed render added to a record: the time is appended to the
   * window, which drops its oldest entry once it holds more than ten, and
   * the three totals grow by one render, its frames and its time.
   */
  function Record(s: Stats, renderTime: real, frameCount: int): (r: Stats)
    ensures r.totalRenders == s.totalRenders + 1
    ensures |s.times| <= WindowSize ==> 0 < |r.times| <= WindowSize
  {
    var times := s.times + [renderTime];
    var window := if |times| > WindowSize then times[1..] else times;
    Stats(window, s.totalRenders + 1, s.framesRendered + frameCount, s.totalTime + renderTime)
  }

  /**
   * What Record keeps: the totals grow by one render, its frames and its
   * time; the window grows by one up to ten entries, is a suffix of the old
   * window followed by the new time, and ends with the new time.
   */
  lemma RecordShape(s: Stats, renderTime: real, frameCount: int)
    ensures var r := Record(s, renderTime, frameCount);
            && r.totalRenders == s.totalRenders + 1
            && r.framesRendered == s.framesRendered + frameCount
            && r.totalTime == s.totalTime + renderTime
            && |r.times| == (if |s.times| < WindowSize then |s.times| + 1 else |s.times|)
            && r.times == (s.times + [renderTime])[|s.times| + 1 - |r.times|..]
            && r.times[|r.times| - 1] == renderTime
  {
  }

  /** The records of a sequence of renders, oldest first, added to `s`. */
  function RecordAll(s: Stats, renders: seq<Render>): Stats
  {
    if renders == [] then s
    else var last := renders[|renders| - 1];
      Record(RecordAll(s, renders[..|renders| - 1]), last.time, last.frames)
  }

  function TimesOf(renders: seq<Render>): (ts: seq<real>)
    ensures |ts| == |renders|
    ensures forall i | 0 <= i < |renders| :: ts[i] == renders[i].time
  {
    seq(|renders|, i requires 0 <= i < |renders| => renders[i].time)
  }

  function SumTimes(renders: seq<Render>): real
  {
    if renders == [] then 0.0 else SumTimes(renders[..|renders| - 1]) + renders[|renders| - 1].time
  }

  function SumFrames(renders: seq<Render>): int
  {
    if renders == [] then 0 else SumFrames(renders[..|renders| - 1]) + renders[|renders| - 1].frames
  }

  function Min(a: int, b: int): int { if a < b then a else b }

  /** The last min(n, 10) elements of a sequence of n. */
  function Latest(ts: seq<real>): (w: seq<real>)
    ensures |w| == Min(|ts|, WindowSize)
  {
    ts[|ts| - Min(|ts|, WindowSize)..]
  }

  /** Recording a render into a window that holds the latest ten times gives the latest ten times with the new one. */
  lemma RecordLatest(s: Stats, ts: seq<real>, t: real, frames: int)
    requires s.times == Latest(ts)
    ensures Record(s, t, frames).times == Latest(ts + [t])
  {
    var r := Record(s, t, frames).times;
    RecordShape(s, t, frames);
    if |ts| < WindowSize {
      assert s.times == ts;
      assert r == ts + [t];
    } else {
      assert |s.times| == WindowSize;
      assert r == (s.times + [t])[1..];
      assert (s.times + [t])[1..] == s.times[1..] + [t];
      assert s.times[1..] == ts[|ts| - WindowSize + 1..];
      assert Latest(ts + [t]) == (ts + [t])[|ts| + 1 - WindowSize..];
      assert (ts + [t])[|ts| + 1 - WindowSize..] == ts[|ts| - WindowSize + 1..] + [t];
    }
  }

  /** The window of the record holds the last min(10, n) of the n render times, in order. */
  lemma {:induction false} RecordAllTimes(renders: seq<Render>)
    ensures RecordAll(NoRenders, renders).times == Latest(TimesOf(renders))
  {
    if renders != [] {
      var init := renders[..|renders| - 1];
      var last := renders[|renders| - 1];
      RecordAllTimes(init);
      assert TimesOf(renders) == TimesOf(init) + [last.time];
      RecordLatest(RecordAll(NoRenders, init), TimesOf(init), last.time, last.frames);
    }
  }

  /** The totals count every render, frame and second, not only those still in the window. */
  lemma {:induction false} RecordAllTotals(renders: seq<Render>)
    ensures var s := RecordAll(NoRenders, renders);
            && s.totalRenders == |renders|
            && s.framesRendered == SumFrames(renders)
            && s.totalTime == SumTimes(renders)
  {
    if renders != [] {
      RecordAllTotals(renders[..|renders| - 1]);
    }
  }

  /**
   * Over a whole session the record of a path holds exactly the last
   * min(10, n) of its n render times, in order, and the totals count every
   * render, frame and second, not only those still in the window.
   */
  lemma {:induction false} RecordAllKeepsLatest(renders: seq<Render>)
    ensures var s := RecordAll(NoRenders, renders);
            && s.times == TimesOf(renders)[|renders| - Min(|renders|, WindowSize)..]
            && s.totalRenders == |renders|
            && s.framesRendered == SumFrames(renders)
            && s.totalTime == SumTimes(renders)
  {
    RecordAllTimes(renders);
    RecordAllTotals(renders);
  }

  /** What get_render_stats reports: the average per frame, the render count, the latest time. */
  datatype Summary = Summary(average: Clock, totalRenders: nat, lastRender: Clock)

  /** The session's time per frame: total time over total frames, or zero when no frame was counted. */
  function AveragePerFrame(s: Stats): (avg: real)
    ensures s.framesRendered > 0 ==> avg * s.framesRendered as real == s.totalTime
    ensures s.framesRendered <= 0 ==> avg == 0.0
  {
    if s.framesRendered > 0 then s.totalTime / s.framesRendered as real else 0.0
  }

  /** The summary of a record whose window is not empty. */
  function Summarize(s: Stats): (r: Summary)
    requires s.times != []
    ensures r.totalRenders == s.totalRenders
    ensures r.lastRender == FormatTime(s.times[|s.times| - 1])
    ensures r.average == FormatTime(AveragePerFrame(s))
  {
    Summary(FormatTime(AveragePerFrame(s)), s.totalRenders, FormatTime(s.times[|s.times| - 1]))
  }

  /** get_render_stats: nothing for a path with no record or an empty window. */
  function GetRenderStats(session: map<string, Stats>, path: string): (r: Option<Summary>)
    ensures r.None? <==> path !in session || session[path].times == []
    ensures r.Some? ==> r.value == Summarize(session[path])
  {
    if path !in session then None
    else if session[path].times == [] then None
    else Some(Summarize(session[path]))
  }

  /** A record that update_render_stats could have produced. */
  ghost predicate Consistent(s: Stats)
  {
    && 0 < |s.times| <= WindowSize
    && |s.times| <= s.totalRenders
  }

  /** Recording keeps a record consistent, and turns the zeroed record into a consistent one. */
  lemma RecordConsistent(s: Stats, renderTime: real, frameCount: int)
    requires Consistent(s) || s == NoRenders
    ensures Consistent(Record(s, renderTime, frameCount))
  {
    RecordShape(s, renderTime, frameCount);
  }

  /**
   * Right after a render is recorded for a path, the query for that path
   * answers, with the new time as the latest and one more render counted;
   * the query for any other path is what it was.
   */
  lemma RecordThenQuery(session: map<string, Stats>, path: string, other: string, renderTime: real, frameCount: int)
    requires other != path
    ensures var after := session[path := Record(StatsOf(session, path), renderTime, frameCount)];
            && GetRenderStats(after, path).Some?
            && GetRenderStats(after, path).value.lastRender == FormatTime(renderTime)
            && GetRenderStats(after, path).value.totalRenders == StatsOf(session, path).totalRenders + 1
            && GetRenderStats(after, other) == GetRenderStats(session, other)
  {
    var r := Record(StatsOf(session, path), renderTime, frameCount);
    QueryRecorded(session, path, r, renderTime, frameCount);
    QueryOther(session, path, other, r);
  }

  lemma QueryRecorded(session: map<string, Stats>, path: string, r: Stats, renderTime: real, frameCount: int)
    requires r == Record(StatsOf(session, path), renderTime, frameCount)
    ensures GetRenderStats(session[path := r], path) == Some(Summarize(r))
    ensures Summarize(r).lastRender == FormatTime(renderTime)
    ensures Summarize(r).totalRenders == StatsOf(session, path).totalRenders + 1
  {
    RecordShape(StatsOf(session, path), renderTime, frameCount);
  }

  lemma QueryOther(session: map<string, Stats>, path: string, other: string, r: Stats)
    requires other != path
    ensures GetRenderStats(session[path := r], other) == GetRenderStats(session, other)
  {
    var after := session[path := r];
    if other in session {
      assert after[other] == session[other];
    }
  }
}
