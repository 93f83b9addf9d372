# Render-progress tracker of the Houdini Telegram notifier, in Dafny

`telegram_notifications.py` hooks into Houdini's render output nodes (Mantra
`ifd` and Karma `usdrender_rop`) and reports each render to Telegram chats.
This project models the tracker at its core.

- **State.** The module-level state is the on/off switch
  `NOTIFICATIONS_ENABLED`, the table `CURRENT_RENDERS` from node path to
  render state, and the session statistics `SESSION_RENDERS`. It is the class
  `Tracker.Notifier`. Its methods update the maps in place, as the Python
  code does.
- **Event handler.** `on_render_event` is `Tracker.Notifier.OnRenderEvent`.
  It reacts to PreRender, PostFrame and PostRender and returns the chat posts
  it makes. Its postcondition equates each new state and its posts with the
  pure transition function `Tracker.Step`, and the lemmas about `Step` state
  what the handler promises.
  - The guards: the switch is off, a PreRender for a node already tracked, or
    an event for a node that is not tracked.
  - The update throttle: two progress updates of one render are at least
    2 s apart. Also the progress estimate, and what a due update posts.
  - The three-way classification of a finished render, with the statistics
    recorded only for a complete one.
  - The `ZeroDivisionError` of a progress update when the expected frame count
    is zero. The handler catches it, posts the error details and drops the
    entry.
- **Pure helpers.** These are functions with lemmas:
  - `format_time`, `get_progress_bar`, `get_sequence_range` and
    `initialize_render_state`;
  - the statistics query `get_render_stats`;
  - the choice of preview frames in `send_telegram_animation`;
  - the glob pattern for the frame files;
  - the comma-separated chat-id list.

The host application and the chat API are inputs.
- **Node.** A node is its path, its type name (`None` when asking for it
  raises), and the `trange`, `f1` and `f2` parameters (`None` when missing).
- **Host.** One `Host` value per event holds the clock reading, the message id
  that `send_telegram_message` returned (`None` when no chat accepted the
  message), and whether the edit post raised.
- **Posts.** A post is `Send(report)` or `Edit(messageId, report)`. A
  `Report` records which message is posted and the figures it shows, not its
  text.

Python semantics are written out where they matter:
- `//` and `%` on floats floor;
- `int()` truncates toward zero;
- `round()` rounds halves to even;
- repeating a string a negative number of times gives the empty string;
- a message id is truthy when it is present and not zero.

PostFrame never bounds the set of completed frames by the expected frame
count: it adds any frame time it is given (line 469).
`Tracker.FrameSetCanExceedTotal` shows a one-frame render that holds two
frames. So the model's invariant does not include such a bound.

The report for a complete render shows `total_renders` on the line labelled
"Total frames rendered". The model carries the render count there, as the
code does.

## Model

| member | source | states |
|---|---|---|
| TimeFormat.ModHour | telegram_notifications.py:270 | `seconds % 3600` on a real lies in [0, 3600) for every input, negative included |
| TimeFormat.ModMinute | telegram_notifications.py:271 | `seconds % 60` on a real lies in [0, 60) |
| TimeFormat.SplitSeconds | telegram_notifications.py:269-271 | the minutes and seconds fields are in [0, 59], however negative the input; `SplitSecondsDecomposes` shows the fields add up to the whole seconds |
| TimeFormat.SplitSecondsDecomposes | telegram_notifications.py:269-271 | minutes and seconds each in [0, 59], and hours*3600 + minutes*60 + secs equals the floor of the input, for every real input |
| TimeFormat.FormatTime | telegram_notifications.py:268-276 | h/m/s layout exactly when hours > 0; m/s layout exactly when hours ≤ 0 and minutes > 0; seconds only otherwise. The shown fields are the floor-division fields |
| TimeFormat.FormatTimeShowsWholeSeconds | telegram_notifications.py:268-276 | for a non-negative duration the shown fields add up to its whole seconds, and every field after the first is in [0, 59] |
| Progress.RoundHalfEven | telegram_notifications.py:198 | the result is within 0.5 of the input, and a tie goes to the even neighbour |
| Progress.RoundHalfEvenUnique | telegram_notifications.py:198 | only one integer has both of those properties, so they define Python's `round` |
| Progress.ProgressBar | telegram_notifications.py:196-199 | for progress in [0, 1] the bar has exactly ten cells; `ProgressBarShape` states which are filled |
| Progress.Repeat | telegram_notifications.py:199 | definition of string repetition: n copies of a cell, none for a negative n. `ProgressBarShape` states what it gives in the bar |
| Progress.ProgressBarShape | telegram_notifications.py:196-199 | for progress in [0, 1]: exactly 10 cells, round(10·progress) of them filled, and every filled cell before every empty one |
| Progress.ProgressBarLength | telegram_notifications.py:196-199 | for any progress the bar has max(k, 0) + max(10 − k, 0) cells, where k = round(10·progress) |
| Progress.Estimate | telegram_notifications.py:471-476 | per-frame time × frames done = elapsed time (0 when no frame is done). The remaining time is never negative, and × frames done it equals max(0, elapsed × (total − done)) |
| SessionStats.RecordShape | telegram_notifications.py:400-413 | one update: the totals grow by 1 render, the frame count and the time. The window grows by one up to ten entries, is a suffix of the old window plus the new time, and ends with the new time |
| SessionStats.Record | telegram_notifications.py:408-413 | one update counts one more render, and a window of at most ten stays non-empty and at most ten long |
| SessionStats.RecordLatest | telegram_notifications.py:408-413 | if the window held the last ten of a list of times, after one update it holds the last ten with the new time added |
| SessionStats.RecordAllTimes | telegram_notifications.py:400-413 | after n renders from a fresh record, the window is exactly the last min(10, n) render times, in order |
| SessionStats.RecordAllTotals | telegram_notifications.py:400-411 | after n renders from a fresh record, the totals are n, the sum of the frames and the sum of the times |
| SessionStats.RecordAllKeepsLatest | telegram_notifications.py:400-413 | both of the above together: the window keeps only the latest ten times, while the totals count every render |
| SessionStats.AveragePerFrame | telegram_notifications.py:421-423 | average × frames rendered = total time when frames were counted; 0 otherwise |
| SessionStats.Summarize | telegram_notifications.py:424-428 | definition of the summary: the formatted average, the render count and the formatted latest time. `RecordThenQuery` and `CompletedReportUsesStats` state how it is used |
| SessionStats.GetRenderStats | telegram_notifications.py:415-428 | definition of the query: None exactly when the path has no record or an empty window, and the record's summary otherwise. `RecordThenQuery` and `StatsAnswerForRecordedPaths` state its properties |
| SessionStats.RecordConsistent | telegram_notifications.py:400-413 | an update turns a fresh or well-formed record into a well-formed one (1 to 10 window entries, no more than its render count) |
| SessionStats.RecordThenQuery | telegram_notifications.py:400-428 | right after an update, the query for that path answers with the new time as latest and one more render. The query for any other path is unchanged |
| SessionStats.QueryRecorded | telegram_notifications.py:415-428 | after an update the query for the recorded path yields its summary, with the new time as latest |
| SessionStats.QueryOther | telegram_notifications.py:415-428 | updating one path leaves the query for every other path as it was |
| Nodes.Trunc | telegram_notifications.py:432 | `int()` on a float truncates toward zero |
| Nodes.TruncWhole | telegram_notifications.py:432 | truncating a whole number gives it back |
| Nodes.SequenceRange | telegram_notifications.py:381-391 | definition: (1, 1) without `trange`, with `trange` 0, or when `f1`/`f2` cannot be read; otherwise (f1, f2). `DefaultRangeIsOneFrame` and `WholeRangeCount` state its effect on the expected frames |
| Nodes.RenderEngine | telegram_notifications.py:364-373 | definition: `ifd` is Mantra, `usdrender_rop` is Karma, an unreadable type is Unknown, and any other type shows its own name. `RenderNodeEngine` relates it to `IsRenderNode` |
| Nodes.IsRenderNode | telegram_notifications.py:393-398 | definition: true exactly for `ifd` and `usdrender_rop`, false when the type cannot be read. `RenderNodeEngine` relates it to `RenderEngine` |
| Nodes.RenderNodeEngine | telegram_notifications.py:364-398 | a render node is always reported as Mantra or Karma |
| Tracker.InitRenderState | telegram_notifications.py:430-442 | definition of a fresh entry: started and last updated now, no message, no frame done, interval 2 s, int(end − start + 1) frames expected. `DefaultRangeIsOneFrame`, `WholeRangeCount` and `PreRenderStartsTracking` state its properties |
| Tracker.DefaultRangeIsOneFrame | telegram_notifications.py:381-442 | without `trange`, or with `trange` 0, the render expects one frame, frame 1 to frame 1 |
| Tracker.WholeRangeCount | telegram_notifications.py:430-442 | with whole frame numbers the expected count is end − start + 1 |
| Tracker.Classify | telegram_notifications.py:511-589 | exactly one outcome: interrupted iff 0 < done < expected; complete iff done = expected; failed iff done = 0 < expected, or done > expected |
| Tracker.FinalPosts | telegram_notifications.py:511-614 | the posts of an ended render: at most two for a complete render, at most one otherwise. `FinalPostsByOutcome` states which |
| Tracker.EndRender | telegram_notifications.py:536-615 | the state after a PostRender drops the node's entry. The node has a statistics record afterwards exactly when it had one or the render is complete. Every other node's entry and record, and the switch, stay as they were |
| Tracker.OnPreRender | telegram_notifications.py:450-464 | a PreRender leaves the node tracked, touches no other node, the statistics or the switch, and posts at most once |
| Tracker.OnPostFrame | telegram_notifications.py:465-503 | a PostFrame adds no entry, touches no other node, the statistics or the switch, and posts at most once |
| Tracker.OnPostRender | telegram_notifications.py:504-615 | a PostRender leaves the node untracked, touches no other node, and posts at most twice |
| Tracker.Step | telegram_notifications.py:444-632 | an event touches only its own node's entry and statistics and never the switch. With the switch off, or for another event type, nothing changes and nothing is posted |
| Tracker.HasMax | telegram_notifications.py:519 | a non-empty set of frame times has a largest element |
| Tracker.MaxFrame | telegram_notifications.py:519 | `max()` of the completed frames is in the set and not below any of them |
| Tracker.FinalPostsByOutcome | telegram_notifications.py:511-614 | interrupted: one post when a message id is stored, else nothing. Complete: the report, then a separate finished notice. Failed: one failure report. With a stored id and an edit that does not raise, the first post is an edit of that id. Without a stored id, or when the edit raises, every post is a new message. An edit always targets the stored id |
| Tracker.CompletePosts | telegram_notifications.py:558-588 | a complete render's two posts: the report with the given statistics, then the finished notice with duration and frame counts |
| Tracker.DisabledIgnoresEvents | telegram_notifications.py:444-447 | with the switch off, no event changes anything or posts anything |
| Tracker.DuplicatePreRenderIgnored | telegram_notifications.py:450-452 | a PreRender for a node already tracked changes nothing and posts nothing |
| Tracker.UntrackedEventIgnored | telegram_notifications.py:465-506 | a PostFrame or PostRender for an untracked node changes nothing and posts nothing |
| Tracker.PreRenderStartsTracking | telegram_notifications.py:450-464 | a new node gets the fresh entry of `InitRenderState`, whose message id is the id the chat API returned when that id is truthy and none otherwise. The one post is the started message with the engine and the frame range. No other entry, no statistic and not the switch changes |
| Tracker.PostFrameCountsDistinctFrames | telegram_notifications.py:465-477 | the frame joins a set, so a repeated frame adds nothing. The update time moves to now exactly when the update is due, and nothing is posted when it is not. Every other entry, the statistics and the switch stay as they were, and no entry is added |
| Tracker.FrameSetCanExceedTotal | telegram_notifications.py:469 | a one-frame render that reports two distinct frames holds two, more than expected |
| Tracker.ProgressEditsSpaced | telegram_notifications.py:250-256 | after a PostFrame whose update was due at h1.now, the next PostFrame for that node is due, and posts anything, only if at least 2 s have passed |
| Tracker.PostFrameProgressUpdate | telegram_notifications.py:470-503 | a due PostFrame of a render that expects frames keeps the frame and moves the update time to now. It edits the stored message with the progress report when an id is stored and the edit post does not raise, and posts nothing otherwise |
| Tracker.PostFrameZeroTotal | telegram_notifications.py:477 | a due PostFrame of a render that expects zero frames drops the entry and posts the error details, as the exception handler at lines 616–632 does |
| Tracker.ProgressReport | telegram_notifications.py:471-491 | the progress report shows the frames done and the frames expected. While no more frames are done than expected, its bar has ten cells |
| Tracker.ProgressFraction | telegram_notifications.py:477-480 | with no more frames done than expected, frames_done / total_frames lies in [0, 1] |
| Tracker.ProgressRemainingNonNegative | telegram_notifications.py:471-476 | the remaining time a progress report shows is the estimate's, and never negative |
| Tracker.PostRenderEndsTracking | telegram_notifications.py:504-615 | a PostRender for a tracked node removes its entry in every outcome and keeps every other entry. The statistics change, for this path only, exactly when the render is complete |
| Tracker.PostRenderPosts | telegram_notifications.py:504-615 | what a PostRender posts is the final posts for its outcome, with the statistics just updated |
| Tracker.CompletedReportUsesStats | telegram_notifications.py:536-566 | a complete render's report carries the average and the render count that get_render_stats gives right after the update |
| Tracker.EndRenderKeepsValid | telegram_notifications.py:536-615 | ending a render keeps the invariant: stored message ids stay truthy, every entry keeps the 2 s interval, and every statistics record stays well-formed |
| Tracker.PostRenderKeepsValid | telegram_notifications.py:504-615 | a PostRender keeps the invariant |
| Tracker.StepKeepsValid | telegram_notifications.py:444-632 | every event keeps the invariant |
| Tracker.StoredIdsTruthy | telegram_notifications.py:462-463 | under the invariant, testing a stored message id for truthiness is just testing that there is one |
| Tracker.StatsAnswerForRecordedPaths | telegram_notifications.py:415-428 | under the invariant, get_render_stats answers for exactly the paths that have a record |
| Tracker.Notifier.constructor | telegram_notifications.py:14-16 | at load time notifications are off, nothing is tracked or recorded, and the invariant holds |
| Tracker.Notifier.ToggleNotifications | telegram_notifications.py:956-961 | the switch flips and nothing else changes |
| Tracker.Notifier.ShouldUpdateProgress | telegram_notifications.py:250-256 | due exactly when at least the interval has passed since the last update. Only then does the last update move to now; nothing else changes |
| Tracker.Notifier.UpdateRenderStats | telegram_notifications.py:400-413 | the path's record, created zeroed if missing, becomes its updated record. Every other path and the other state stay as they were |
| Tracker.Notifier.OnRenderEvent | telegram_notifications.py:444-632 | the new state and the posts are those of `Step`, and the invariant is kept |
| Tracker.Notifier.PreRenderEvent | telegram_notifications.py:450-464 | the PreRender branch does what `OnPreRender` says |
| Tracker.Notifier.PostFrameEvent | telegram_notifications.py:465-503 | the PostFrame branch does what `OnPostFrame` says, including the dropped entry and error post of the zero-division handler |
| Tracker.Notifier.PostRenderEvent | telegram_notifications.py:504-615 | the PostRender branch does what `OnPostRender` says |
| Preview.Range | telegram_notifications.py:312-314 | definition of `range(lo, hi, step)` for a positive step: ceil((hi − lo)/step) entries, none when lo ≥ hi, the i-th being lo + i·step. `RangeLength`, `RangeBounds` and `RangeIncreasing` state its properties |
| Preview.RangeLength | telegram_notifications.py:313 | a non-empty range has k entries with (k − 1)·step < hi − lo ≤ k·step |
| Preview.RangeBounds | telegram_notifications.py:313 | every entry of a range is in [lo, hi) |
| Preview.RangeIncreasing | telegram_notifications.py:312-314 | a range is strictly increasing |
| Preview.Middle | telegram_notifications.py:313 | for n > 30 the step (n − 20)//10 is at least 1. The middle part has 10 to 19 strictly increasing indices in [10, n − 10) |
| Preview.SampleIndices | telegram_notifications.py:311-315 | the sample of more than 30 frames has 30 to 39 indices; `SampleIndicesShape` states which |
| Preview.TenConsecutive | telegram_notifications.py:312-314 | `range(lo, lo + 10)` is the ten consecutive indices from lo |
| Preview.SampleIndicesShape | telegram_notifications.py:311-315 | the sampled indices are strictly increasing, in [0, n), 30 to 39 of them, starting 0..9 and ending n−10..n−1 |
| Preview.ThreeParts | telegram_notifications.py:312-315 | the sample's shape follows from the shapes of its first ten, its middle and its last ten |
| Preview.ConcatIncreasing | telegram_notifications.py:314-315 | two increasing lists, the first all below the second, concatenate to an increasing list |
| Preview.Pick | telegram_notifications.py:316 | definition of `[frames[i] for i in idx]`: one frame per index, in index order. `SampleFrames` and `SampleFramesKeepsEnds` state what it picks |
| Preview.SampleFrames | telegram_notifications.py:311-316 | up to 30 frames are kept as they are. Beyond that, the preview holds the frames at the sampled indices, in order |
| Preview.SampleFramesKeepsEnds | telegram_notifications.py:311-316 | a long sequence's preview has 30 to 39 frames and keeps the first ten and the last ten |
| Preview.IncreasingUnique | telegram_notifications.py:316 | two strictly increasing lists with the same elements are equal |
| Preview.SortedSetOfSampleIsSample | telegram_notifications.py:316 | `sorted(set(indices))` leaves the sampled indices exactly as they are |
| FramePattern.RFind | telegram_notifications.py:548-551 | the last index holding a character, or −1 when there is none |
| FramePattern.RStripSlashes | telegram_notifications.py:548 | a prefix of the input without a trailing slash; what it drops is all slashes |
| FramePattern.Basename | telegram_notifications.py:549 | the basename holds no slash |
| FramePattern.SplitExt | telegram_notifications.py:550 | root and extension concatenate back to the name |
| FramePattern.Dirname | telegram_notifications.py:548 | the directory part is a prefix of the path, and empty for a path without `/` |
| FramePattern.Join | telegram_notifications.py:551 | `posixpath.join(a, b)` ends with b, and starts with a unless b is absolute |
| FramePattern.FramesPattern | telegram_notifications.py:548-551 | the pattern ends in `.*` followed by the output's extension; `FramesPatternOfFrameFile` states the whole pattern for frame files |
| FramePattern.WildcardPattern | telegram_notifications.py:551 | the directory joined with `stem.*ext` ends in `.*ext`, whatever the directory |
| FramePattern.BeforeLastDot | telegram_notifications.py:551 | `rsplit('.', 1)[0]`: the whole string when it has no dot. When it has one, the prefix before its last dot, with no dot after that point |
| FramePattern.SplitDirectory | telegram_notifications.py:548-549 | for `dir/base`, dirname is `dir` and basename is `base` |
| FramePattern.SplitExtension | telegram_notifications.py:550 | splitext of `root.ext` is (`root`, `.ext`) when the root does not start with a dot |
| FramePattern.BeforeFrameDot | telegram_notifications.py:551 | dropping the last dot-suffix of `stem.frame` leaves `stem` |
| FramePattern.FramesPatternFromParts | telegram_notifications.py:548-551 | the pattern is the directory joined with the stem, `.*` and the extension |
| FramePattern.FramesPatternOfFrameFile | telegram_notifications.py:548-551 | the output `dir/stem.frame.ext` gives the pattern `dir/stem.*.ext`: only the frame part is replaced |
| FramePattern.PatternFindsEveryFrame | telegram_notifications.py:551 | every frame file `stem.F.ext` of the sequence matches `stem.*.ext` |
| FramePattern.NoFramePartNotFound | telegram_notifications.py:548-551 | an output name without a frame part, `dir/beauty.exr`, gives `dir/beauty.*.exr`, which that file does not match |
| ChatIds.Split | telegram_notifications.py:28 | `str.split(",")` always yields at least one part |
| ChatIds.SplitJoin | telegram_notifications.py:28 | joining the parts with the separator gives the input back |
| ChatIds.JoinSplit | telegram_notifications.py:28 | splitting a join of separator-free parts gives the parts back |
| ChatIds.PartFree | telegram_notifications.py:28 | a separator-free piece followed by a separator splits off as a part of its own |
| ChatIds.SplitCount | telegram_notifications.py:28 | one part more than there are commas |
| ChatIds.SplitPartsFree | telegram_notifications.py:28 | no part holds the separator |
| ChatIds.StripLeft | telegram_notifications.py:28 | a suffix of the input that does not start with whitespace; what it dropped is all whitespace |
| ChatIds.StripRight | telegram_notifications.py:28 | a prefix of the input that does not end with whitespace; what it dropped is all whitespace |
| ChatIds.Strip | telegram_notifications.py:28 | definition of `str.strip()`: leading, then trailing whitespace removed. `StripIsSlice`, `StripResultTrimmed` and `StripIdempotent` state its properties |
| ChatIds.StripIsSlice | telegram_notifications.py:28 | `strip()` gives a slice of the input; everything before and after it is whitespace |
| ChatIds.StripRightSlice | telegram_notifications.py:28 | the trailing whitespace cut within a suffix of the input is trailing whitespace of the input |
| ChatIds.StripResultTrimmed | telegram_notifications.py:28 | the stripped string has no whitespace at either end |
| ChatIds.StripTrimmed | telegram_notifications.py:28 | a string without whitespace at either end is left as it is |
| ChatIds.StripIdempotent | telegram_notifications.py:28 | stripping twice is stripping once |
| ChatIds.ParseChatIds | telegram_notifications.py:28 | definition of `[cid.strip() for cid in s.split(",")]`: one id per part, each the stripped part. `ParsedIdsShape` and `ParseJoinedIds` state its properties |
| ChatIds.ParsedIdsShape | telegram_notifications.py:28 | commas + 1 ids, none holding a comma or surrounding whitespace |
| ChatIds.ParseJoinedIds | telegram_notifications.py:932 | ids without commas or surrounding whitespace, entered joined by commas, are read back unchanged |

## Left out

- **Host application (`hou`).** Node traversal, parameter evaluation, `references()`, callback registration and removal, `clear_duplicates`, shelf-tool creation, and `get_node_name`. The node's path, type name and range parameters are inputs instead.
- **Network (`requests`).** `send_telegram_message` is not modelled. It stops at the first chat that accepts the message and returns that chat's message id. The model takes that result as `Host.sentId`. The edit posts are `Edit` outputs, and whether an edit raises is `Host.editRaises`. Failures of the fallback send itself are not modelled.
- **Preview upload.** The GIF/PNG built in `send_telegram_animation` is left out: `glob` on the file system, PIL/numpy/imageio image work, temporary files and the photo and animation uploads. The frame choice (lines 311–316) and the pattern (lines 548–551) are modelled. How the output path is read from the node (lines 542–547) is host API.
- **Path rules.** The frame pattern follows the POSIX rules of `posixpath`: `/` is the only separator and `join` inserts `/`. On Windows `os.path` is `ntpath`, where `\\` also separates, `join` inserts `\\`, and drive letters split paths. That behaviour is not modelled.
- **FramePattern.GlobMatch.** It covers only one `*` that matches any run without `/`. Glob's rule that `*` does not match a leading dot of a name is not modelled.
- **Message text.** Emoji text, the `:.1f` percentages and the `strftime` completion time are left out. Reports carry the figures they show.
- **Floating point.** Times and frame numbers are exact reals. Float rounding in `//`, `%`, division and `round` is not modelled.
- **Clock.** Each event reads one clock value, `Host.now`. The PostFrame branch reads the clock three times: in `should_update_progress` (line 251), for the duration (line 471) and for the completion time (line 478). `initialize_render_state` reads it twice (lines 434 and 440). The model treats all readings of one event as the same instant.
- **Exceptions.** Only the `ZeroDivisionError` of a progress update with zero expected frames is modelled. Exceptions raised by host calls inside the handler are not. `get_render_engine`, `get_sequence_range` and `is_render_node` catch those and give their fallbacks, which the model keeps as `None` inputs.
- **GUI, configuration and startup.** The Qt class `TelegramNotificationsUI`, the dialogs, the JSON config file and module start-up are I/O. Of them, only the on/off toggle (lines 956–961) and the chat-id expression (lines 28 and 932) are modelled.
