/**
 * The render-progress tracker behind on_render_event: a table from node
 * path to the state of the render running there, the session statistics,
 * and the on/off switch. Host clock and chat API are inputs (`Host`); what
 * the handler posts to the chat API is its output (`Outbound`).
 */
module Tracker {
  import opened Wrappers
  import opened TimeFormat
  import opened Progress
  import opened SessionStats
  import opened Nodes

  /** Seconds between two progress edits of one render's message. */
  const UpdateInterval: real := 2.0

  /** The entry kept for a render that is running. Times are in seconds. */
  datatype RenderState = RenderState(
    startTime: real,
    messageId: Option<int>,
    completed: set<real>,
    totalFrames: int,
    startFrame: int,
    endFrame: int,
    lastUpdate: real,
    updateInterval: real)

  /**
   * initialize_render_state: a fresh entry, started now, with no message,
   * no completed frame, and int(end - start + 1) expected frames.
   */
  function InitRenderState(p: RangeParms, now: real): (s: RenderState)
    ensures s.completed == {} && s.messageId == None
    ensures s.startTime == now && s.lastUpdate == now && s.updateInterval == UpdateInterval
    ensures s.totalFrames == Trunc(SequenceRange(p).1 - SequenceRange(p).0 + 1.0)
  {
    var (start, end) := SequenceRange(p);
    RenderState(now, None, {}, Trunc(end - start + 1.0), Trunc(start), Trunc(end), now, UpdateInterval)
  }

  /** A node with no frame range set (no `trange`, or trange 0) renders one frame, frame 1. */
  lemma DefaultRangeIsOneFrame(p: RangeParms, now: real)
    requires p.trange.None? || p.trange == Some(0)
    ensures var s := InitRenderState(p, now);
            s.totalFrames == 1 && s.startFrame == 1 && s.endFrame == 1
  {
  }

  /** With whole frame numbers the expected count is the size of the inclusive range. */
  lemma WholeRangeCount(p: RangeParms, now: real, start: int, end: int)
    requires p.trange.Some? && p.trange.value != 0
    requires p.f1 == Some(start as real) && p.f2 == Some(end as real)
    ensures var s := InitRenderState(p, now);
            s.startFrame == start && s.endFrame == end && s.totalFrames == end - start + 1
  {
    assert (end as real) - (start as real) + 1.0 == (end - start + 1) as real;
  }

  /** The kinds of message the tracker posts, with the figures they show. */
  datatype Report =
    | Started(engine: string, startFrame: int, endFrame: int, totalFrames: int)
    | InProgress(done: nat, total: int, bar: seq<Cell>, elapsed: Clock, remaining: Clock, perFrame: Clock)
    | Halted(done: nat, expected: int, elapsed: Clock, lastFrame: real)
    | Completed(startFrame: int, endFrame: int, done: nat, duration: Clock, average: Clock, totalRenders: nat)
    | Finished(duration: Clock, done: nat, expected: int)
    | Failed(elapsed: Clock)
    | ErrorDetails

  /** A post to the chat API: a new message, or an edit of the render's message. */
  datatype Outbound = Send(report: Report) | Edit(messageId: int, report: Report)

  /** One render lifecycle event from the host. Other event types are ignored. */
  datatype EventType = PreRender | PostFrame | PostRender | OtherEvent
  datatype Event = Event(kind: EventType, node: Node, frameTime: real)

  /**
   * What the outside world contributes to one event: the clock, the message
   * id the chat API returned for a new message (None when no chat accepted
   * it), and whether an edit post raised.
   */
  datatype Host = Host(now: real, sentId: Option<int>, editRaises: bool)

  /** Python truthiness of a message id: present and non-zero. */
  predicate Truthy(id: Option<int>)
  {
    id.Some? && id.value != 0
  }

  /** should_update_progress's test: at least the update interval since the last update. */
  predicate ProgressDue(s: RenderState, now: real)
  {
    now - s.lastUpdate >= s.updateInterval
  }

  /** How a render that ended is classified, on frames done against frames expected. */
  datatype Outcome = Interrupted | Complete | Failure

  function Classify(done: nat, expected: int): (o: Outcome)
    ensures o == Interrupted <==> 0 < done < expected
    ensures o == Complete <==> done == expected
    ensures o == Failure <==> (done == 0 && expected > 0) || done > expected
  {
    if 0 < done < expected then Interrupted
    else if done == expected then Complete
    else Failure
  }

  /** The whole tracker state: the enable switch, CURRENT_RENDERS and SESSION_RENDERS. */
  datatype Tracker = Tracker(enabled: bool, current: map<string, RenderState>, session: map<string, Stats>)

  datatype Transition = Transition(after: Tracker, out: seq<Outbound>)

  /**
   * The state the source keeps consistent: a stored message id is always
   * truthy, every entry updates at the standard interval, and every session
   * record is one update_render_stats produced (one to ten times in its
   * window, no more than its render count).
   */
  ghost predicate Invariant(t: Tracker)
  {
    IdsTruthy(t.current) && StandardIntervals(t.current) && AllConsistent(t.session)
  }

  ghost predicate StandardIntervals(current: map<string, RenderState>)
  {
    forall p | p in current :: current[p].updateInterval == UpdateInterval
  }

  ghost predicate IdsTruthy(current: map<string, RenderState>)
  {
    forall p | p in current :: current[p].messageId.None? || Truthy(current[p].messageId)
  }

  ghost predicate AllConsistent(session: map<string, Stats>)
  {
    forall p | p in session :: Consistent(session[p])
  }

  /**
   * An event for node `path` leaves the switch, every other node's entry and
   * every other node's statistics as they were.
   */
  predicate OnlyTouches(t: Tracker, u: Tracker, path: string)
  {
    && u.enabled == t.enabled
    && (forall q | q in t.current && q != path :: q in u.current && u.current[q] == t.current[q])
    && (forall q | q in u.current && q != path :: q in t.current)
    && (forall q | q in t.session && q != path :: q in u.session && u.session[q] == t.session[q])
    && (forall q | q in u.session && q != path :: q in t.session)
  }

  /** An edit of the render's message; when the edit post raises, a new message instead. */
  function EditOrResend(id: int, r: Report, h: Host): (out: seq<Outbound>)
  {
    if h.editRaises then [Send(r)] else [Edit(id, r)]
  }

  /** The posts made for a render that ended, by its outcome. */
  function FinalPosts(s: RenderState, o: Outcome, elapsed: real, stats: Option<Summary>, h: Host): (out: seq<Outbound>)
    requires o == Classify(|s.completed|, s.totalFrames)
    requires o == Complete ==> stats.Some?
    ensures |out| <= (if o == Complete then 2 else 1)
  {
    var done := |s.completed|;
    match o
    case Interrupted =>
      // no message id: nothing is posted for an interrupted render
      if Truthy(s.messageId)
      then EditOrResend(s.messageId.value, Halted(done, s.totalFrames, FormatTime(elapsed), MaxFrame(s.completed)), h)
      else []
    case Complete =>
      var report := Completed(s.startFrame, s.endFrame, done, FormatTime(elapsed), stats.value.average, stats.value.totalRenders);
      (if Truthy(s.messageId) then EditOrResend(s.messageId.value, report, h) else [Send(report)])
      + [Send(Finished(FormatTime(elapsed), done, s.totalFrames))]
    case Failure =>
      if Truthy(s.messageId)
      then EditOrResend(s.messageId.value, Failed(FormatTime(elapsed)), h)
      else [Send(Failed(FormatTime(elapsed)))]
  }

  lemma NonEmptyHasElement(s: set<real>)
    requires s != {}
    ensures exists z :: z in s
  {
    if forall z :: z !in s {
      assert false;
    }
  }

  /** A non-empty finite set of reals has a largest element. */
  lemma {:induction false} HasMax(s: set<real>)
    requires s != {}
    ensures exists m :: m in s && forall y | y in s :: y <= m
  {
    NonEmptyHasElement(s);
    var x :| x in s;
    var rest := s - {x};
    if rest == {} {
      forall y | y in s
        ensures y <= x
      {
        assert y !in rest;
      }
    } else {
      HasMax(rest);
      var m :| m in rest && forall y | y in rest :: y <= m;
      var top := if x > m then x else m;
      forall y | y in s
        ensures y <= top
      {
        if y != x {
          assert y in rest;
        }
      }
      assert top in s;
    }
  }

  /** Python's max() of the completed frames: the last frame reported done. */
  function MaxFrame(s: set<real>): (m: real)
    requires s != {}
    ensures m in s && forall y | y in s :: y <= m
  {
    HasMax(s);
    var m :| m in s && forall y | y in s :: y <= m;
    m
  }

  /** The progress report for a render with `s`'s state, at time `now`, when total is not zero. */
  function ProgressReport(s: RenderState, now: real): (r: Report)
    requires s.totalFrames != 0
    ensures r.InProgress? && r.done == |s.completed| && r.total == s.totalFrames
    ensures |s.completed| <= s.totalFrames ==> |r.bar| == BarLength
  {
    var elapsed := now - s.startTime;
    var done := |s.completed|;
    var eta := Estimate(elapsed, done, s.totalFrames);
    ProgressFraction(done, s.totalFrames);
    InProgress(done, s.totalFrames, ProgressBar(done as real / s.totalFrames as real),
               FormatTime(elapsed), FormatTime(eta.remaining), FormatTime(eta.perFrame))
  }

  /** The fraction of frames done lies in [0, 1] while no more frames are done than expected. */
  lemma ProgressFraction(done: nat, total: int)
    requires total != 0
    ensures done <= total ==> 0.0 <= done as real / total as real <= 1.0
  {
    if done <= total {
      var q := done as real / total as real;
      assert q * total as real == done as real;
    }
  }

  /** PreRender: start tracking a node that is not tracked yet, and announce the render. */
  function OnPreRender(t: Tracker, node: Node, h: Host): (r: Transition)
    ensures OnlyTouches(t, r.after, node.path) && r.after.session == t.session
    ensures node.path in r.after.current
    ensures |r.out| <= 1
  {
    if node.path in t.current then Transition(t, [])
    else
      var s := InitRenderState(node.parms, h.now);
      var report := Started(RenderEngine(node.typeName), s.startFrame, s.endFrame, s.totalFrames);
      var stored := if Truthy(h.sentId) then s.(messageId := h.sentId) else s;
      Transition(t.(current := t.current[node.path := stored]), [Send(report)])
  }

  /** PostFrame: note the frame as done and, when the throttle allows, edit the progress message. */
  function OnPostFrame(t: Tracker, node: Node, frameTime: real, h: Host): (r: Transition)
    ensures OnlyTouches(t, r.after, node.path) && r.after.session == t.session
    ensures r.after.current.Keys <= t.current.Keys
    ensures |r.out| <= 1
  {
    var path := node.path;
    if path !in t.current then Transition(t, [])
    else
      var before := t.current[path];
      var s := before.(completed := before.completed + {frameTime});
      if !ProgressDue(s, h.now) then Transition(t.(current := t.current[path := s]), [])
      else if s.totalFrames == 0 then
        // frames_done / total_frames raises ZeroDivisionError; the handler
        // reports the error and drops the entry
        Transition(t.(current := t.current - {path}), [Send(ErrorDetails)])
      else
        var out := if Truthy(s.messageId) && !h.editRaises
                   then [Edit(s.messageId.value, ProgressReport(s, h.now))] else [];
        Transition(t.(current := t.current[path := s.(lastUpdate := h.now)]), out)
  }

  /** The tracker after a PostRender for a tracked path: the entry is dropped and a complete render is recorded. */
  function EndRender(t: Tracker, path: string, now: real): (u: Tracker)
    requires path in t.current
    ensures OnlyTouches(t, u, path)
    ensures u.current.Keys == t.current.Keys - {path}
    ensures path in u.session <==> path in t.session || Classify(|t.current[path].completed|, t.current[path].totalFrames) == Complete
  {
    var s := t.current[path];
    var done := |s.completed|;
    var session := if Classify(done, s.totalFrames) == Complete
                   then t.session[path := Record(StatsOf(t.session, path), now - s.startTime, done)]
                   else t.session;
    Tracker(t.enabled, t.current - {path}, session)
  }

  /** PostRender: classify the run, record a complete one, report, and stop tracking the node. */
  function OnPostRender(t: Tracker, node: Node, h: Host): (r: Transition)
    ensures OnlyTouches(t, r.after, node.path)
    ensures node.path !in r.after.current
    ensures |r.out| <= 2
  {
    var path := node.path;
    if path !in t.current then Transition(t, [])
    else
      var s := t.current[path];
      var after := EndRender(t, path, h.now);
      Transition(after, FinalPosts(s, Classify(|s.completed|, s.totalFrames), h.now - s.startTime, GetRenderStats(after.session, path), h))
  }

  lemma PostRenderOf(t: Tracker, node: Node, h: Host)
    requires node.path in t.current
    ensures var s := t.current[node.path];
            var after := EndRender(t, node.path, h.now);
            OnPostRender(t, node, h) == Transition(after, FinalPosts(s, Classify(|s.completed|, s.totalFrames), h.now - s.startTime, GetRenderStats(after.session, node.path), h))
  {
  }

  /** on_render_event as a transition of the whole tracker. */
  function Step(t: Tracker, e: Event, h: Host): (r: Transition)
    ensures OnlyTouches(t, r.after, e.node.path)
    ensures !t.enabled || e.kind == OtherEvent ==> r == Transition(t, [])
  {
    if !t.enabled then Transition(t, [])
    else match e.kind
      case PreRender => OnPreRender(t, e.node, h)
      case PostFrame => OnPostFrame(t, e.node, e.frameTime, h)
      case PostRender => OnPostRender(t, e.node, h)
      case OtherEvent => Transition(t, [])
  }

  /** With notifications switched off, no event changes anything or posts anything. */
  lemma DisabledIgnoresEvents(t: Tracker, e: Event, h: Host)
    requires !t.enabled
    ensures Step(t, e, h) == Transition(t, [])
  {
  }

  /** A PreRender for a node already being tracked changes nothing and posts nothing. */
  lemma DuplicatePreRenderIgnored(t: Tracker, e: Event, h: Host)
    requires e.kind == PreRender && e.node.path in t.current
    ensures Step(t, e, h) == Transition(t, [])
  {
  }

  /** A PostFrame or PostRender for a node that is not tracked changes nothing and posts nothing. */
  lemma UntrackedEventIgnored(t: Tracker, e: Event, h: Host)
    requires e.kind == PostFrame || e.kind == PostRender
    requires e.node.path !in t.current
    ensures Step(t, e, h) == Transition(t, [])
  {
  }

  /**
   * An enabled PreRender for a new node tracks it with a fresh entry, stores
   * the message id the chat API returned when it is truthy (and none
   * otherwise), posts the started message with the engine and the frame
   * range, and touches no other entry, no statistics and not the switch.
   */
  lemma PreRenderStartsTracking(t: Tracker, e: Event, h: Host)
    requires t.enabled && e.kind == PreRender && e.node.path !in t.current
    ensures var r := Step(t, e, h);
            var init := InitRenderState(e.node.parms, h.now);
            var s := r.after.current[e.node.path];
            && r.after.current.Keys == t.current.Keys + {e.node.path}
            && (forall p | p in t.current :: r.after.current[p] == t.current[p])
            && s == init.(messageId := s.messageId)
            && s.messageId == (if Truthy(h.sentId) then h.sentId else None)
            && r.after.session == t.session && r.after.enabled == t.enabled
            && r.out == [Send(Started(RenderEngine(e.node.typeName), init.startFrame, init.endFrame, init.totalFrames))]
  {
  }

  /**
   * PostFrame adds the frame to a set, so a frame reported twice counts
   * once; the entry's update time moves to now exactly when the update is
   * due, and nothing is posted when it is not.
   */
  lemma PostFrameCountsDistinctFrames(t: Tracker, e: Event, h: Host)
    requires t.enabled && e.kind == PostFrame && e.node.path in t.current
    ensures var before := t.current[e.node.path];
            var due := ProgressDue(before, h.now);
            var r := Step(t, e, h);
            && r.after.session == t.session && r.after.enabled == t.enabled
            && (forall q | q in t.current && q != e.node.path :: q in r.after.current && r.after.current[q] == t.current[q])
            && r.after.current.Keys <= t.current.Keys
            && (!(due && before.totalFrames == 0) ==>
                  && e.node.path in r.after.current
                  && var s := r.after.current[e.node.path];
                  && s.completed == before.completed + {e.frameTime}
                  && |s.completed| == |before.completed| + (if e.frameTime in before.completed then 0 else 1)
                  && (s.lastUpdate == (if due then h.now else before.lastUpdate))
                  && s.messageId == before.messageId && s.totalFrames == before.totalFrames)
            && (!due ==> r.out == [])
  {
    var before := t.current[e.node.path];
    if e.frameTime in before.completed {
      assert before.completed + {e.frameTime} == before.completed;
    }
  }

  /**
   * A due PostFrame of a render that expects frames edits the render's
   * message with the progress report, when a message id is stored and the
   * edit post does not raise, and posts nothing otherwise; the entry keeps
   * the frame and moves its update time to now.
   */
  lemma PostFrameProgressUpdate(t: Tracker, e: Event, h: Host)
    requires t.enabled && e.kind == PostFrame && e.node.path in t.current
    requires ProgressDue(t.current[e.node.path], h.now) && t.current[e.node.path].totalFrames != 0
    ensures var before := t.current[e.node.path];
            var s := before.(completed := before.completed + {e.frameTime});
            var r := Step(t, e, h);
            && r.after == t.(current := t.current[e.node.path := s.(lastUpdate := h.now)])
            && (Truthy(s.messageId) && !h.editRaises ==> r.out == [Edit(s.messageId.value, ProgressReport(s, h.now))])
            && (!Truthy(s.messageId) || h.editRaises ==> r.out == [])
  {
  }

  /**
   * A due PostFrame of a render that expects zero frames divides by zero:
   * the handler posts the error details and the entry is dropped.
   */
  lemma PostFrameZeroTotal(t: Tracker, e: Event, h: Host)
    requires t.enabled && e.kind == PostFrame && e.node.path in t.current
    requires ProgressDue(t.current[e.node.path], h.now) && t.current[e.node.path].totalFrames == 0
    ensures var r := Step(t, e, h);
            && r.after == t.(current := t.current - {e.node.path})
            && r.out == [Send(ErrorDetails)]
  {
  }

  /**
   * Nothing bounds the frame set by the expected count: a node left at the
   * one-frame default that reports two distinct frames holds two.
   */
  lemma FrameSetCanExceedTotal(t: Tracker, node: Node, h: Host)
    requires node.path in t.current
    requires t.current[node.path].totalFrames == 1 && t.current[node.path].completed == {1.0}
    requires !ProgressDue(t.current[node.path].(completed := {1.0, 2.0}), h.now)
    ensures var after := OnPostFrame(t, node, 2.0, h).after.current[node.path];
            |after.completed| == 2 > after.totalFrames
  {
    assert {1.0} + {2.0} == {1.0, 2.0};
  }

  /**
   * Two progress updates of one render are at least two seconds apart: after
   * a PostFrame that updated at h1.now, the next PostFrame for the node is
   * due, and posts anything, only from h1.now + 2s on.
   */
  lemma ProgressEditsSpaced(t: Tracker, e1: Event, h1: Host, e2: Event, h2: Host)
    requires Invariant(t) && t.enabled
    requires e1.kind == PostFrame && e2.kind == PostFrame && e1.node.path == e2.node.path
    requires e1.node.path in t.current && ProgressDue(t.current[e1.node.path], h1.now)
    ensures var t1 := Step(t, e1, h1).after;
            && (e1.node.path in t1.current && ProgressDue(t1.current[e1.node.path], h2.now) ==> h2.now - h1.now >= UpdateInterval)
            && (Step(t1, e2, h2).out != [] ==> h2.now - h1.now >= UpdateInterval)
  {
    var path := e1.node.path;
    var t1 := Step(t, e1, h1).after;
    if path in t1.current {
      assert t.current[path].totalFrames != 0;
      assert t1.current[path].lastUpdate == h1.now;
      assert t1.current[path].updateInterval == UpdateInterval;
    }
  }

  /** The remaining time a progress report shows is never negative. */
  lemma ProgressRemainingNonNegative(s: RenderState, now: real)
    requires s.totalFrames != 0
    ensures ProgressReport(s, now).remaining == FormatTime(Estimate(now - s.startTime, |s.completed|, s.totalFrames).remaining)
    ensures Estimate(now - s.startTime, |s.completed|, s.totalFrames).remaining >= 0.0
  {
  }

  /**
   * A PostRender for a tracked node ends its tracking in every outcome and
   * leaves every other entry as it was; the statistics change, for this
   * path only, exactly when the render is complete.
   */
  lemma PostRenderEndsTracking(t: Tracker, e: Event, h: Host)
    requires t.enabled && e.kind == PostRender && e.node.path in t.current
    ensures var r := Step(t, e, h);
            var s := t.current[e.node.path];
            var o := Classify(|s.completed|, s.totalFrames);
            && r.after.current == t.current - {e.node.path}
            && (o == Complete ==>
                  r.after.session == t.session[e.node.path := Record(StatsOf(t.session, e.node.path), h.now - s.startTime, |s.completed|)])
            && (o != Complete ==> r.after.session == t.session)
  {
    PostRenderPosts(t, e, h);
  }

  /**
   * The posts for an ended render: an interrupted one is reported only by
   * editing its message; a complete one gets its report and then a separate
   * finished notice; a failed one gets one failure report.
   */
  lemma FinalPostsByOutcome(s: RenderState, o: Outcome, elapsed: real, stats: Option<Summary>, h: Host)
    requires o == Classify(|s.completed|, s.totalFrames)
    requires o == Complete ==> stats.Some?
    ensures var out := FinalPosts(s, o, elapsed, stats, h);
            && (o == Interrupted ==> (out == [] <==> !Truthy(s.messageId)) && |out| <= 1)
            && (o == Interrupted && out != [] ==> out[0].report.Halted?)
            && (o == Complete ==> |out| == 2 && out[0].report.Completed? && out[1] == Send(Finished(FormatTime(elapsed), |s.completed|, s.totalFrames)))
            && (o == Failure ==> |out| == 1 && out[0].report.Failed?)
            && (forall k | 0 <= k < |out| :: out[k].Edit? ==> Truthy(s.messageId) && out[k].messageId == s.messageId.value && !h.editRaises)
            && (Truthy(s.messageId) && !h.editRaises && out != [] ==> out[0] == Edit(s.messageId.value, out[0].report))
            && ((!Truthy(s.messageId) || h.editRaises) ==> forall k | 0 <= k < |out| :: out[k].Send?)
  {
  }

  /** What a PostRender for a tracked node posts: the final posts for its outcome, with the statistics as just updated. */
  lemma PostRenderPosts(t: Tracker, e: Event, h: Host)
    requires t.enabled && e.kind == PostRender && e.node.path in t.current
    ensures var r := Step(t, e, h);
            var s := t.current[e.node.path];
            && r.after == EndRender(t, e.node.path, h.now)
            && r.out == FinalPosts(s, Classify(|s.completed|, s.totalFrames), h.now - s.startTime, GetRenderStats(r.after.session, e.node.path), h)
  {
  }

  /** A complete render's report carries the statistics get_render_stats gives right after recording it. */
  lemma CompletedReportUsesStats(t: Tracker, node: Node, h: Host)
    requires node.path in t.current
    requires Classify(|t.current[node.path].completed|, t.current[node.path].totalFrames) == Complete
    ensures var r := OnPostRender(t, node, h);
            var stats := GetRenderStats(r.after.session, node.path);
            && stats.Some?
            && |r.out| == 2
            && r.out[0].report.Completed?
            && r.out[0].report.average == stats.value.average
            && r.out[0].report.totalRenders == stats.value.totalRenders
  {
    var path := node.path;
    var s := t.current[path];
    var elapsed := h.now - s.startTime;
    var recorded := Record(StatsOf(t.session, path), elapsed, |s.completed|);
    var after := EndRender(t, path, h.now);
    EndRenderFields(t, path, h.now);
    PostRenderOf(t, node, h);
    assert after.session == t.session[path := recorded];
    var summary := Summarize(recorded);
    assert GetRenderStats(after.session, path) == Some(summary);
    CompletePosts(s, elapsed, summary, h);
  }

  /** The two posts for a complete render: its report, carrying the given summary, then the finished notice. */
  lemma CompletePosts(s: RenderState, elapsed: real, summary: Summary, h: Host)
    requires Classify(|s.completed|, s.totalFrames) == Complete
    ensures var out := FinalPosts(s, Complete, elapsed, Some(summary), h);
            && |out| == 2
            && out[0].report == Completed(s.startFrame, s.endFrame, |s.completed|, FormatTime(elapsed), summary.average, summary.totalRenders)
            && out[1] == Send(Finished(FormatTime(elapsed), |s.completed|, s.totalFrames))
  {
  }

  lemma PostRenderKeepsValid(t: Tracker, e: Event, h: Host)
    requires Invariant(t) && t.enabled && e.kind == PostRender && e.node.path in t.current
    ensures Invariant(Step(t, e, h).after)
  {
    PostRenderPosts(t, e, h);
    EndRenderKeepsValid(t, e.node.path, h.now);
  }

  /** Dropping an entry and recording a complete render keep the invariant. */
  lemma EndRenderKeepsValid(t: Tracker, path: string, now: real)
    requires Invariant(t) && path in t.current
    ensures Invariant(EndRender(t, path, now))
  {
    var s := t.current[path];
    var after := EndRender(t, path, now);
    var recorded := Record(StatsOf(t.session, path), now - s.startTime, |s.completed|);
    var complete := Classify(|s.completed|, s.totalFrames) == Complete;
    EndRenderFields(t, path, now);
    DropKeepsIdsTruthy(t.current, path);
    assert IdsTruthy(after.current);
    if complete {
      RecordConsistent(StatsOf(t.session, path), now - s.startTime, |s.completed|);
      UpdateKeepsConsistent(t.session, path, recorded);
      assert after.session == t.session[path := recorded];
    } else {
      assert after.session == t.session;
    }
    assert AllConsistent(after.session);
  }

  lemma EndRenderFields(t: Tracker, path: string, now: real)
    requires path in t.current
    ensures var s := t.current[path];
            var r := EndRender(t, path, now);
            && r.current == t.current - {path}
            && r.session == if Classify(|s.completed|, s.totalFrames) == Complete
                            then t.session[path := Record(StatsOf(t.session, path), now - s.startTime, |s.completed|)]
                            else t.session
  {
  }

  lemma DropKeepsIdsTruthy(current: map<string, RenderState>, path: string)
    requires IdsTruthy(current)
    ensures IdsTruthy(current - {path})
  {
  }

  lemma UpdateKeepsConsistent(session: map<string, Stats>, path: string, v: Stats)
    requires AllConsistent(session) && Consistent(v)
    ensures AllConsistent(session[path := v])
  {
  }

  /** Every event keeps the tracker's invariant. */
  lemma StepKeepsValid(t: Tracker, e: Event, h: Host)
    requires Invariant(t)
    ensures Invariant(Step(t, e, h).after)
  {
    if t.enabled && e.kind == PostRender && e.node.path in t.current {
      PostRenderKeepsValid(t, e, h);
    }
  }

  /** With the invariant, the truthiness test on a stored message id is just "there is one". */
  lemma StoredIdsTruthy(t: Tracker, path: string)
    requires Invariant(t) && path in t.current
    ensures Truthy(t.current[path].messageId) <==> t.current[path].messageId.Some?
  {
  }

  /** With the invariant, get_render_stats answers for exactly the paths that have a record. */
  lemma StatsAnswerForRecordedPaths(t: Tracker, path: string)
    requires Invariant(t)
    ensures GetRenderStats(t.session, path).Some? <==> path in t.session
  {
  }

  /**
   * The module-level state of the notifier (NOTIFICATIONS_ENABLED,
   * CURRENT_RENDERS, SESSION_RENDERS) and the functions that update it in place.
   */
  class Notifier {
    var enabled: bool
    var current: map<string, RenderState>
    var session: map<string, Stats>

    /** The state as a value, for stating what each method does. */
    function State(): Tracker
      reads this
    {
      Tracker(enabled, current, session)
    }

    /** At load time notifications are off and nothing is tracked or recorded. */
    constructor ()
      ensures State() == Tracker(false, map[], map[])
      ensures Invariant(State())
    {
      enabled := false;
      current := map[];
      session := map[];
    }

    /** The GUI's on/off button flips the switch and changes nothing else. */
    method ToggleNotifications() returns (on: bool)
      modifies this
      ensures enabled == !old(enabled) && on == enabled
      ensures current == old(current) && session == old(session)
    {
      enabled := !enabled;
      on := enabled;
    }

    /**
     * should_update_progress: due when the update interval has passed since
     * the last update, and only then is the last update moved to now.
     */
    method ShouldUpdateProgress(path: string, now: real) returns (due: bool)
      requires path in current
      modifies this
      ensures due == ProgressDue(old(current[path]), now)
      ensures current == old(current)[path := if due then old(current[path]).(lastUpdate := now) else old(current[path])]
      ensures enabled == old(enabled) && session == old(session)
    {
      var sinceUpdate := now - current[path].lastUpdate;
      if sinceUpdate >= current[path].updateInterval {
        current := current[path := current[path].(lastUpdate := now)];
        return true;
      }
      return false;
    }

    /**
     * update_render_stats: the record for the path (created zeroed if it is
     * missing) gets the render appended to its window and added to its
     * totals; the window then drops its oldest entry if it holds more than ten.
     */
    method UpdateRenderStats(path: string, renderTime: real, frameCount: int)
      modifies this
      ensures session == old(session)[path := Record(StatsOf(old(session), path), renderTime, frameCount)]
      ensures enabled == old(enabled) && current == old(current)
    {
      ghost var start := StatsOf(session, path);
      if path !in session {
        session := session[path := NoRenders];
      }
      var s := session[path];
      assert s == start;
      s := s.(times := s.times + [renderTime]);
      s := s.(totalRenders := s.totalRenders + 1);
      s := s.(framesRendered := s.framesRendered + frameCount);
      s := s.(totalTime := s.totalTime + renderTime);
      if |s.times| > WindowSize {
        s := s.(times := s.times[1..]);
      }
      session := session[path := s];
    }

    /**
     * on_render_event: reacts to one lifecycle event of a render node and
     * returns the posts it makes; the new state and the posts are those of
     * Step, so every lemma about Step holds of this handler, and it keeps
     * the invariant.
     */
    method OnRenderEvent(e: Event, h: Host) returns (out: seq<Outbound>)
      modifies this
      ensures Transition(State(), out) == Step(old(State()), e, h)
      ensures Invariant(old(State())) ==> Invariant(State())
    {
      ghost var before := State();
      out := [];
      if !enabled {
        return;
      }
      match e.kind {
        case PreRender =>
          out := PreRenderEvent(e.node, h);
        case PostFrame =>
          out := PostFrameEvent(e.node, e.frameTime, h);
        case PostRender =>
          out := PostRenderEvent(e.node, h);
        case OtherEvent =>
      }
      if Invariant(before) {
        StepKeepsValid(before, e, h);
      }
    }

    /** The PreRender branch: start tracking a node not yet tracked and post the started message. */
    method PreRenderEvent(node: Node, h: Host) returns (out: seq<Outbound>)
      requires enabled
      modifies this
      ensures Transition(State(), out) == OnPreRender(old(State()), node, h)
    {
      var path := node.path;
      if path in current {
        return [];
      }
      current := current[path := InitRenderState(node.parms, h.now)];
      var s := current[path];
      out := [Send(Started(RenderEngine(node.typeName), s.startFrame, s.endFrame, s.totalFrames))];
      if Truthy(h.sentId) {
        current := current[path := current[path].(messageId := h.sentId)];
      }
    }

    /** The PostFrame branch: record the frame and, when due, edit the progress message. */
    method PostFrameEvent(node: Node, frameTime: real, h: Host) returns (out: seq<Outbound>)
      requires enabled
      modifies this
      ensures Transition(State(), out) == OnPostFrame(old(State()), node, frameTime, h)
    {
      var path := node.path;
      if path !in current {
        return [];
      }
      out := [];
      current := current[path := current[path].(completed := current[path].completed + {frameTime})];
      var due := ShouldUpdateProgress(path, h.now);
      if due {
        var s := current[path];
        if s.totalFrames == 0 {
          // the progress fraction divides by zero; the exception handler
          // posts the error details and drops the entry
          out := [Send(ErrorDetails)];
          current := current - {path};
        } else if Truthy(s.messageId) && !h.editRaises {
          out := [Edit(s.messageId.value, ProgressReport(s, h.now))];
        }
      }
    }

    /** The PostRender branch: classify the render, record statistics when complete, post and stop tracking. */
    method PostRenderEvent(node: Node, h: Host) returns (out: seq<Outbound>)
      requires enabled
      modifies this
      ensures Transition(State(), out) == OnPostRender(old(State()), node, h)
    {
      var path := node.path;
      if path !in current {
        return [];
      }
      ghost var before := State();
      var s := current[path];
      var elapsed := h.now - s.startTime;
      var done := |s.completed|;
      var o := Classify(done, s.totalFrames);
      if o == Complete {
        UpdateRenderStats(path, elapsed, done);
      }
      ghost var after := EndRender(before, path, h.now);
      EndRenderFields(before, path, h.now);
      assert session == after.session;
      var stats := GetRenderStats(session, path);
      out := FinalPosts(s, o, elapsed, stats, h);
      current := current - {path};
      assert State() == after;
      PostRenderOf(before, node, h);
    }
  }
}
