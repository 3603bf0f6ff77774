# Scheduled HLS streaming: a Dafny model

This project models the scheduling and streaming core of a small scheduled-video streaming service. The service has several parts:

- **Day manifest compiler** (`app/utils.py`): turns a day's schedule into an ffmpeg concat manifest. Each event is a `file` line plus a `duration` line, and blank filler fills the gaps before events and after the last one.
- **Live-manifest variant** (`test_mod.py`): starts at the clock reading, skips events already in the past, and fills gaps with whole 20-second blank clips.
- **Asset generators** (`test_mod.py`, `test.py`): write test playlists.
- **Upload handlers** (`FileUploadHandler`, four copies): watch the encoder's output folder and push HLS segments and playlists to the bucket under `hls/`.
- **Stream session** (`app/stream_handler.py`): three globals (the encoder process, the monitor thread and the stop flag) changed by `stop_ffmpeg`, `start_stream` and `stop_stream`.
- **Back-to-back schedule builder** (`script.py`): lays clips out cyclically, with one-second offsets and random colours and identifiers.
- **HH:MM playlist player** (`mytask/scheduled_stream.py`): reads a `time file` playlist and picks the video for the current minute.
- **Schedule monitor guard** (`test2.py`): hands each start time to the encoder at most once.

Model conventions:

- Times are integer microseconds on one clock. `Day` is 86 400 seconds and the end of a day is midnight + `Day` − 1, i.e. 23:59:59.999999.
- Everything the scripts read from or do to the outside world is a parameter of the model or a recorded effect. This covers the schedule store, the clock, the random source, the file system, the bucket and the encoder.

Modules, one per component: `Wrappers`, `Text` (the Python string and path operations used), `Schedules` (events and the stable sort by start), `DayManifest`, `ChunkedManifest`, `AssetLists`, `UploadRouter`, `StreamControl`, `ClipScheduler`, `PlaylistSchedule` and `ScheduleMonitor`.

Loops in the source are methods with loops in the model, each proved equal to a recursive or closed-form specification function. Properties are then proved about that function.

## Model

| member | source | states |
|---|---|---|
| Text.BeforeFirst | app/stream_handler.py:48 | `s.split(sep)[0]` is a prefix of `s` with no earlier occurrence of `sep`; it is all of `s` or is followed by `sep` |
| Text.BeforeFirstOfSuffixed | app/stream_handler.py:47-48 | for a path ending in the separator, the prefix ends at the first occurrence, at the latest where the suffix begins |
| Text.Basename | app/stream_handler.py:69 | `Path(p).name` holds no '/' and ends the path once trailing slashes are dropped; it is that whole path or is preceded in it by '/' |
| Text.JoinPathWithBasename | test2.py:167 | `os.path.join` of a folder ending in '/' with a base name is plain concatenation |
| Text.Join | app/utils.py:48 | `'\n'.join` of one or more lines is as long as the lines together plus one separator between each two, and starts with the first line |
| Text.Split | app/utils.py:48 | splitting gives at least one part, none containing the separator |
| Text.SplitAtFirst | app/utils.py:48 | splitting at the first separator gives the text before it, then the split of the rest |
| Text.SplitJoin | app/utils.py:48 | splitting the joined text gives the lines back when no line contains a newline |
| Text.JoinEndsWithLastLine | app/utils.py:48 | the written text ends with the last line itself, with no trailing newline |
| Text.Strip | mytask/scheduled_stream.py:33 | `strip()` is empty iff the line is all whitespace; otherwise it is the middle of the line, bounded by non-space characters, with only whitespace around it |
| Text.SplitFirstWord | mytask/scheduled_stream.py:35 | `split(maxsplit=1)` gives at most two parts, none exactly when the text is all whitespace; each part is non-empty and starts with a non-space; the first holds no whitespace |
| Text.SplitFirstWordSingle | mytask/scheduled_stream.py:35 | a text left in one part is that word followed by whitespace only |
| Text.SplitFirstWordPair | mytask/scheduled_stream.py:35 | a text split in two is the word, a non-empty whitespace run and the remainder |
| Schedules.SortByStart | app/utils.py:24 | `sorted(events, key=start_time)` is ordered by start and is a permutation of the events |
| Schedules.SortedCons | app/utils.py:24 | an event starting no later than the head of a start-ordered list keeps it start-ordered when put in front |
| Schedules.SortSorted | app/utils.py:24 | sorting events already in start order leaves them unchanged |
| Schedules.InsertWithStart | app/utils.py:24 | inserting an event puts it ahead of the events with the same start and leaves their order |
| Schedules.SortStable | app/utils.py:24 | the sort is stable: the events with any one start come out in their input order |
| DayManifest.GenerateEventFile | app/utils.py:16-48 | the loop computes the timeline from midnight over the sorted events; an empty or missing schedule gives the single filler pair for the whole day; the text is the lines joined by newlines |
| DayManifest.BuildTimeline | app/utils.py:21-44 | the loop over the sorted events, with the trailing filler, computes exactly the timeline from the start cursor |
| DayManifest.TimelineAlternates | app/utils.py:30-44 | lines alternate `file` / `duration`, starting with `file` |
| DayManifest.EventEntry | app/utils.py:28-36 | a filler of exactly `start - cursor` precedes an event iff the cursor is before its start, then the event's URL and its length follow; nothing precedes touching or overlapping events |
| DayManifest.TrailingFiller | app/utils.py:38-44 | the manifest ends with the filler from the final cursor, the last event's end (the cursor is set unconditionally), to the end of day; that filler is present when the cursor is before the end of day |
| DayManifest.NothingAfterEndOfDay | app/utils.py:38-44 | when the final cursor is at or past the end of day, no filler follows: the manifest ends with the last event's pair, and is empty for no events |
| DayManifest.DurationsCoverDay | app/utils.py:22-44 | for sorted, non-overlapping events inside the day, the durations sum to end of day minus midnight |
| DayManifest.NoFillerWhenGapless | app/utils.py:28-31 | events leaving no gap and reaching the end of day give exactly two lines each and no filler |
| DayManifest.EventUrlIsNotBlank | app/utils.py:33 | an event's URL is never the blank filler's path |
| DayManifest.RenderAll | app/utils.py:30-48 | the rendered lines correspond one to one with the manifest entries |
| DayManifest.ManifestText | app/utils.py:48 | the written text splits back at newlines into exactly the rendered lines |
| DayManifest.RenderHasNoNewline | app/utils.py:30-44 | a rendered line holds no newline when its path and duration text hold none |
| DayManifest.TotalDurationAppend | app/utils.py:31-44 | the duration total of a concatenation is the sum of the totals |
| ChunkedManifest.GenerateEventFile | test_mod.py:24-94 | the loop computes the chunked timeline from the seconds-truncated clock reading over the sorted events; an empty schedule gives only trailing blanks; the text is the lines joined by newlines |
| ChunkedManifest.BuildLines | test_mod.py:40-87 | the loop over the sorted events, with the trailing blanks, computes exactly the chunked timeline from the start cursor |
| ChunkedManifest.AppendBlanks | test_mod.py:59-60 | each of the chunk loops (also lines 86-87) appends exactly the requested number of blank lines |
| ChunkedManifest.ChunksIn | test_mod.py:54-60 | a gap yields the number of whole 20-second chunks that fit, dropping the remainder; there are none without a gap |
| ChunkedManifest.Watermark | test_mod.py:34-36 | the clock reading loses its microseconds when formatted and parsed back |
| ChunkedManifest.Blanks | test_mod.py:59-60 | the blank run holds exactly the requested number of blank lines |
| ChunkedManifest.OnlyFileLines | test_mod.py:60-87 | every line written is a `file '…'` line; no `duration` line is ever written |
| ChunkedManifest.PastEventsExcluded | test_mod.py:49-51 | no emitted event starts before the cursor it was compared with, which is at first the clock reading |
| ChunkedManifest.EmittedSnoc | test_mod.py:49-74 | an event is emitted iff it starts at or after the cursor the events before it left, and only an emitted event moves the cursor, to its end |
| ChunkedManifest.AllUpcomingEmitted | test_mod.py:49-74 | start-ordered, non-overlapping events, none ending before it starts and the first at or after the cursor, are all emitted in order |
| ChunkedManifest.TrailingBlanks | test_mod.py:81-87 | the lines end with the whole 20-second blanks that fit between the cursor the events leave and the end of the day |
| ChunkedManifest.AllPastSkipped | test_mod.py:49-87 | events that all start before the cursor leave only the trailing blanks |
| ChunkedManifest.EventsAmongBlanks | test_mod.py:54-74 | leaving out the blank lines leaves exactly one line per emitted event, in order |
| ChunkedManifest.EventLineIsNotBlank | test_mod.py:65-66 | an event line is never the blank line |
| ChunkedManifest.NonBlankOfBlanks | test_mod.py:59-60 | a run of blanks contributes no non-blank line |
| ChunkedManifest.EventLines | test_mod.py:65-66 | the event lines correspond one to one with the events |
| ChunkedManifest.FileLineShape | test_mod.py:60-66 | every `file '<path>'` line has the `file '…'` shape |
| AssetLists.CropPairs | test_mod.py:100-108 | `generate_asset_file(n)` writes 2n lines, the rsystems2crop line then the rsystems1crop line at every step |
| AssetLists.RangeShape | test_mod.py:102 | `range(lo, hi)` has hi − lo values, none when hi ≤ lo, and its k-th value is lo + k |
| AssetLists.StepsCountsRange | test_mod.py:102 | `range(1, n + 1)` takes the values 1 to n, so it has n steps, none for n ≤ 0 |
| AssetLists.EveryTenth | test.py:28-37 | the loop writes exactly the lines of `TenthLines` |
| AssetLists.TenthLines | test.py:30-37 | line i, counted from 1, is the bucket clip iff i is a multiple of 10, and the blank clip otherwise |
| AssetLists.BucketLineCount | test.py:30-37 | exactly ⌊n/10⌋ bucket lines and n − ⌊n/10⌋ blank lines |
| AssetLists.WritesAreLines | test.py:34-37 | every write is one newline-terminated line |
| AssetLists.ClipLine | test.py:34-37 | a clip line is `file '`, the address, and `'` plus a newline |
| AssetLists.ClipLineIsOneLine | test.py:34-37 | a clip line for an address without newlines has its only newline at the end |
| AssetLists.BucketLineIsNotBlank | test.py:34-37 | the bucket line differs from the blank line |
| UploadRouter.Route | app/stream_handler.py:31-63 | an event kind a handler does not override leads to no upload; any upload goes under the key built from its local path, is a `.ts` or `.m3u8` upload, and a segment uploads the file that the event names |
| UploadRouter.WrittenUploads | app/stream_handler.py:31-42 | created and closed events upload `.ts` as `.ts` and `.m3u8` as `.m3u8`, with the path unchanged; they upload iff the path has one of the two suffixes |
| UploadRouter.PlaylistIsNeverTmp | test_mod.py:192-196 | a `.m3u8` path never ends in `.tmp`, so the skip is unreachable |
| UploadRouter.SegmentIsNotPlaylist | test.py:168-172 | a `.ts` path never ends in `.m3u8` |
| UploadRouter.MovedUploads | test_mod.py:179-182 | a move uploads iff the source ends in `.tmp`; it uploads the prefix before the first `.tmp`, labelled `.m3u8` |
| UploadRouter.KeyIsFolderAndName | test2.py:167 | every variant's key, `os.path.join` included, is `"hls/" + basename` |
| UploadRouter.KeyShape | test_mod.py:203 | the key starts with `hls/`, holds no further '/', and its name ends the local path, trailing slashes dropped, as that whole path or after a '/' |
| UploadRouter.CreatedIsClosed | app/stream_handler.py:31-63 | `on_created` and `on_closed` route identically |
| UploadRouter.TestCopiesAgree | test.py:157-187 | the handlers of test.py and test_mod.py route identically |
| UploadRouter.Issued | app/stream_handler.py:31-63 | a sequence of events issues at most one upload per event |
| UploadRouter.SegmentUploadedTwice | app/stream_handler.py:33-56 | a segment reported both created and closed is uploaded twice; no record of past uploads is kept |
| UploadRouter.IssuedTwo | app/stream_handler.py:31-63 | two events that each lead to an upload issue both uploads, in order |
| UploadRouter.Attempted | app/stream_handler.py:65-73 | the attempted uploads correspond one to one with the reports |
| UploadRouter.FailuresDoNotStopHandling | app/stream_handler.py:65-73 | whichever storage calls raise, the same uploads are attempted in the same order |
| StreamControl.StopEncoder | app/stream_handler.py:176-192 | the encoder afterwards is none or unchanged; effects are issued iff a running encoder is present |
| StreamControl.StopWithoutRunningEncoder | app/stream_handler.py:178-192 | with no encoder or an exited one, nothing changes and nothing is issued |
| StreamControl.StopRunningEncoder | app/stream_handler.py:179-190 | a running encoder is terminated first, killed iff the wait times out, and forgotten on every path |
| StreamControl.StopIsIdempotent | app/stream_handler.py:176-192 | a second stop finds nothing to do |
| StreamControl.Session.constructor | app/stream_handler.py:22-24 | no encoder, no monitor, flag clear |
| StreamControl.Session.EncoderExits | app/stream_handler.py:178 | the encoder exiting only makes its poll report it finished |
| StreamControl.Session.StopFfmpeg | app/stream_handler.py:176-192 | the state and effects are those of `StopEncoder`; the monitor and the flag are untouched |
| StreamControl.Session.Join | app/stream_handler.py:139-143 | joining a live monitor with the flag set ends it, since its loop runs only while the flag is clear |
| StreamControl.Session.StartStream | app/stream_handler.py:196-216 | stop, set the flag, clear both folders, join a live monitor, then clear the flag and start the monitor and the encoder, in that order; a live monitor never sees the flag set |
| StreamControl.Session.StopStream | app/stream_handler.py:219-226 | stop the encoder and set the flag; a live monitor is joined and reset to none, a finished one is kept; nothing is left running |
| StreamControl.StartThenStop | app/stream_handler.py:196-226 | after start then stop, and a second stop, nothing runs and the last effect is setting the flag |
| ClipScheduler.ScheduleEvents | script.py:12-60 | an error iff the range is shorter than the total duration; otherwise one day record holding the start's date, the layout's events and a fresh identifier |
| ClipScheduler.Pass | script.py:28-45 | the `for` loop emits exactly one pass of the layout and leaves the cursor where that pass ends |
| ClipScheduler.LaySlots | script.py:30-45 | each slot starts one second after the cursor, ends after the clip's duration, and clips come cyclically in input order |
| ClipScheduler.LayStops | script.py:27-49 | the layout stops at the first clip whose duration would pass the end, or at a wrap with the cursor at or past the end |
| ClipScheduler.SlotBounds | script.py:30-35 | every slot starts after the range start and ends at most one second past the range end, never more |
| ClipScheduler.Ascending | script.py:34-45 | each slot starts at least one second after the cursor before it |
| ClipScheduler.RoundIsLayPrefix | script.py:27-49 | one pass of the `while` body is a prefix of the layout, which goes on from the cursor the pass leaves when the loop goes round again |
| ClipScheduler.RoundGoesOn | script.py:27-49 | the loop goes round again after a pass iff the cursor it leaves is before the end, and then the pass has advanced it |
| ClipScheduler.LayStep | script.py:34-45 | a clip that fits heads the layout from its cursor, and the layout goes on from its end with the next clip |
| ClipScheduler.RoundStep | script.py:34-45 | a clip that fits is placed and the pass continues from its end |
| ClipScheduler.EmptyDataNeverStops | script.py:27-49 | with no clips and start < end, the cursor never moves and the loop never ends |
| ClipScheduler.Total | script.py:18 | the total is at least the first clip's duration |
| ClipScheduler.TotalAppend | script.py:18 | the total of two clip lists together is the sum of their totals |
| ClipScheduler.RandInt | script.py:6-10 | a draw lies in the inclusive range |
| ClipScheduler.RandIntCovers | script.py:6-10 | every value of the range can be drawn |
| ClipScheduler.NumericId | script.py:8-10 | the identifier lies in [10^17, 10^18 − 1] |
| ClipScheduler.IdRange | script.py:10 | the bounds are 10^17 and 10^18 − 1 |
| ClipScheduler.IdHasEighteenDigits | script.py:8-10 | every identifier has exactly 18 decimal digits, the first not 0 |
| ClipScheduler.DecimalLength | script.py:9 | a number from 10^(k−1) to below 10^k has k digits |
| ClipScheduler.Color | script.py:4-6 | the colour is '#' followed by six upper-case hexadecimal digits |
| ClipScheduler.ColorRoundTrip | script.py:6 | reading the colour's three bytes back gives the three draws |
| ClipScheduler.HexDigitRoundTrip | script.py:6 | a hexadecimal digit reads back as its value |
| ClipScheduler.Hex2 | script.py:6 | `{b:02X}` is two upper-case hexadecimal digits |
| ClipScheduler.EmitAll | script.py:37-43 | one event per placed slot |
| ClipScheduler.EmitAllAt | script.py:37-43 | event k is slot k with the k-th identifier and colour draws |
| ClipScheduler.EmitAllSnoc | script.py:37-43 | appending a slot appends its event |
| PlaylistSchedule.ReadSchedule | mytask/scheduled_stream.py:28-38 | the loop returns or raises exactly what the fold of the parsed lines does; a missing file gives an empty schedule |
| PlaylistSchedule.ParseCases | mytask/scheduled_stream.py:33-35 | a line is blank iff it is all whitespace; a single word carries the stripped line; a pair has a space-free time and a non-empty file |
| PlaylistSchedule.Entries | mytask/scheduled_stream.py:32-37 | one entry per line read, entry i being line i parsed |
| PlaylistSchedule.EntriesAppend | mytask/scheduled_stream.py:32-37 | the entries of two runs of lines together are the entries of each, in order |
| PlaylistSchedule.ParseUnpaired | mytask/scheduled_stream.py:35 | a line raises iff, stripped, it is non-empty and holds no whitespace |
| PlaylistSchedule.PairShape | mytask/scheduled_stream.py:35-37 | a pair is the time, a whitespace run and the file, which may hold spaces but neither starts nor ends with one |
| PlaylistSchedule.BlankLinesIgnored | mytask/scheduled_stream.py:32-34 | inserting a blank or whitespace-only line anywhere changes nothing |
| PlaylistSchedule.BlankPassedOver | mytask/scheduled_stream.py:34 | a blank entry anywhere leaves the fold unchanged |
| PlaylistSchedule.LastLineWins | mytask/scheduled_stream.py:37 | the last line for a time decides its entry; later lines override earlier ones |
| PlaylistSchedule.UnsetTimeKept | mytask/scheduled_stream.py:29-37 | a time no line sets is not scheduled |
| PlaylistSchedule.FailsAtFirstSingleWord | mytask/scheduled_stream.py:35 | the first single-word line raises, carrying that line |
| PlaylistSchedule.SucceedsWithoutSingleWord | mytask/scheduled_stream.py:32-38 | without a single-word line, reading succeeds |
| PlaylistSchedule.SelectScheduledOrBlank | mytask/scheduled_stream.py:95-104 | what is chosen is the blank video or the existing file scheduled for the minute; the scheduled file is chosen whenever the minute is scheduled and its file exists, and the blank video otherwise |
| PlaylistSchedule.Player.constructor | mytask/scheduled_stream.py:88 | `processed_times` starts empty |
| PlaylistSchedule.Player.Step | mytask/scheduled_stream.py:90-111 | a round re-reads the playlist, raises its error, and otherwise streams the selected video or stops when the pipe is gone; the minute is recorded iff its file exists, and the record never affects the choice |
| ScheduleMonitor.Monitor.Pass | test2.py:111-133 | one pass launches exactly the guarded candidates, each with its regional URL and record date, and records their starts; every start is launched at most once across passes |
| ScheduleMonitor.Monitor.constructor | test2.py:111 | `processed_events` starts empty |
| ScheduleMonitor.RunsAreGuarded | test2.py:127 | every run is a candidate starting today, no later than now, with an unrecorded start; no two runs share a start |
| ScheduleMonitor.StartRunsIff | test2.py:127-133 | a start time runs iff it was unrecorded and some candidate with that start is due |
| ScheduleMonitor.SharedStartRunsOnce | test2.py:127-133 | two due events sharing a start time trigger a single run, the first |
| ScheduleMonitor.DistinctAfterPass | test2.py:133 | launches of unrecorded, distinct starts extend the history without repeating a start |
| ScheduleMonitor.StartsAppend | test2.py:133 | the recorded starts of two histories together are the union of their starts |
| ScheduleMonitor.Url | test2.py:128 | the video path is the regional bucket address followed by the file name |

## Left out

- I/O is left out: the schedule store, the clock, the file system, the pipe, the bucket client and the encoder subprocesses. Each is a parameter or a recorded effect. The text written to a file is returned rather than written.
- DayManifest.GenerateEventFile and ChunkedManifest.GenerateEventFile: the `try … except Exception` around each body is not modelled. In the source a raised error, such as the `KeyError` of a record without `events` or an event without `file_name` or `end_time`, is printed, nothing is written and an earlier file is left as it was. The model's records always carry these fields, so it always produces lines and text.
- Floating point: `total_seconds()` durations are integer microseconds. Python's rendering of the float in `duration {x}` is the parameter `fmt` of `DayManifest.GenerateEventFile`.
- Date parsing, `strftime`, `strptime` and the `pytz` localisation are left out. All times are integers on one clock, and the `%Y-%m-%d` rendering is the parameter `dateOf` of `ClipScheduler.ScheduleEvents`.
- Randomness: the draws of `random.randint` come from a parameter `draws`, a draw `raw` giving `lo + raw % (hi − lo + 1)`. Draws 4k to 4k+3 are event k's identifier and colour, and draw 4n is the day's identifier.
- Concurrency: the monitor thread, the `run_ffmpeg` thread, the watchdog observer and every `time.sleep` loop are left out. Session operations run one after another, and a handler call is modelled as the upload it issues.
- ClipScheduler.ScheduleEvents: clip durations are natural numbers of microseconds, so negative durations are not modelled. The `ValueError` guard compares the range with the total in the same unit.
- ClipScheduler.ScheduleEvents: returns an empty day for an empty `data`, where script.py loops for ever. See Findings.
- Text.Basename: does not model `pathlib` normalisation of `.` components and repeated slashes.
- Text.Strip and Text.SplitFirstWord: whitespace is Python's `str.isspace` set as listed in `Text.IsSpace`. No Unicode normalisation is done.
- PlaylistSchedule.Player.Step: the playlist file is its lines, or `None` when it does not exist, and file existence is a predicate. The `setup_environment`, `start_ffmpeg` and `write_to_pipe` subprocess calls are left out. A raised error in a round ends `main`; that is the `ReadFailed` result.
- ScheduleMonitor.Monitor.Pass: in test2.py the guard at line 127 is indented outside the inner `for event` loop. Which events reach it is therefore taken as a parameter, the candidates, and the candidate derivation is not modelled. A failing `strptime` ends the loop and is left out. Dates are whole days of the one clock (`t / Day`).
- Schedules.SortByStart: orders by the parsed instant. The source sorts by the raw `start_time` strings, so the two agree only when every `start_time` is written in one fixed-width format.
- AssetLists.CropPairs and AssetLists.EveryTenth: the line count is a parameter. The default counts, 1000 in test_mod.py and 3000 in test.py, are not modelled.
- StreamControl.Session.StartStream: `stop_ffmpeg`'s outcome and the spawned encoder's pid, or a failure to spawn, are parameters. Making the temporary folder, the folder clearing and the encoder command line are recorded as effects only.
- UploadRouter.Handle: whether a storage call raises is a parameter. The error is logged and swallowed, as in the source.
- The code keeps no set of uploaded files, does not retry a failed upload, has no failed session state and does not detect an encoder that crashes, so the model has none of these either.
- The Flask routes, the JSON database wrapper, the job scheduler, the HTTP clients, `get_video_duration_from_s3`, `generate_presigned_url` and `app/utils.py`'s `start_stream` are not part of this model.

## Findings

| source | as written | input that shows it | evidently intended | confidence | as-written member | corrected member |
|---|---|---|---|---|---|---|
| script.py:27-49 | with `data == []` the `for` loop does nothing, so `current_time` never moves and `while current_time <= schedule_end_time` never ends when start < end | `schedule_events([], "2024-01-01 00:00:00", "2024-01-01 01:00:00")`: total 0 passes the length check, then the loop spins | an empty day record | not executed | ClipScheduler.EmptyDataNeverStops | ClipScheduler.ScheduleEvents |
