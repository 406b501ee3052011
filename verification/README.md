# autoviral-video-renderer, modelled in Dafny

A Dafny model of the render service in `autoviral-video-renderer`, with proofs about the model. Clients submit a
script, a niche and a topic. The service stores a job and answers at once. A background
task then fetches images, synthesises a voice-over from a cleaned-up copy of
the script, renders a slideshow video with ffmpeg and records the result on
the job. Clients poll the job by id. An hourly sweep forgets jobs older than
one hour.

The model covers:

- the job store: create with validation, lookup and the age-based sweep (`JobStore`);
- the voice-over sanitiser `/\[.*?\]/g` then `/#\w+/g` (`Voiceover`);
- the output file name and public URL of a job (`OutputLocation`, `Paths`);
- the background task `processVideo` with its outer `.catch`, as the sequence
  of store snapshots it leaves (`Orchestrator`);
- the Remotion composition's segment layout and fade envelopes
  (`Timeline`, on top of a model of Remotion's `interpolate` in `Interpolation`);
- the ffmpeg renderer:
  - naming in the temporary directory;
  - the concat list it writes;
  - the download/write/encode/clean-up control flow over an abstract file
    system in which every step may throw (`Slideshow`);
- the reply decoding of the video-generation API (`Veo`);
- the image search with its placeholder fallback (`Unsplash`).

Shared helpers live in `Wrappers` (`Option`, `Result`) and `Text`. `Text` holds JavaScript's `\s`, `\w`, `split`/`join` and
decimal rendering of numbers.

Notes on the code's behaviour:

- `processVideo` holds the job object it read at the start. Its final
  `jobs.set(jobId, job)` (src/server.ts, lines 138 and 144) puts the job back
  even when the hourly sweep evicted it while the render was running. A client
  that polled in between gets 404 and later 200 with the finished job.
- `POST /render` answers `200` (`res.json`).
- The sanitiser keeps the space left after a removed `[...]`. So
  `"[excited] Keep going! #motivation"` becomes `" Keep going! "`, with a leading space.
- A failed job carries no `error` text when the thrown value has no `message`.
- A thrown `null`/`undefined` makes `error.message` throw inside the
  `catch` block. The job object is already marked failed at that point. The outer `.catch` then records the
  resulting `TypeError`'s message, if the job is still stored.
- Of the video-generation client, only the single-reply decoders
  `generateVideoTask` and `checkStatus` are modelled.

Inputs of the outside world are parameters:

- `randomUUID()` → `freshId`;
- `Date.now()` → `now`;
- the sweep times during a task → `sweeps`;
- how the task's awaited steps end → `outcome`;
- which file-system or network step throws, and with what message → `fails`;
- whether a failing ffmpeg run had already created the output file → `partialOutput`;
- the configured access key → `accessKey`;
- the search or HTTP reply → `search`, `response`;
- `JSON.parse` → `parse`.

## Model

| member | source | states |
|---|---|---|
| JobStore.Submit | src/server.ts:70-85 | 400 with "Missing required fields" and an unchanged store exactly when a field is missing or empty; otherwise 200 with the fresh id, a new pending job without URL or error created at `now`, and every other job untouched |
| JobStore.Lookup | src/server.ts:59-68 | 404 with "Job not found" exactly when the id is not stored, otherwise 200 with the stored record |
| JobStore.Sweep | src/server.ts:39-46 | keeps exactly the jobs with `now - createdAt <= 3600000`, whatever their status, and keeps them unchanged |
| JobStore.NewJob | src/server.ts:78-82 | no contract; characterised by Submit and SubmitCreatesFreshJob |
| JobStore.Expired | src/server.ts:42 | no contract; characterised by Sweep and SweepBoundary |
| JobStore.SubmitCreatesFreshJob | src/server.ts:77-85 | a valid request under an unused id is accepted and grows the store by one job whose fields match its status |
| JobStore.SweepBoundary | src/server.ts:42 | a job exactly one hour old survives a sweep; one millisecond older is evicted |
| JobStore.SweepLaterSubsumes | src/server.ts:39-46 | an earlier sweep followed by a later one removes the same jobs as the later sweep alone |
| JobStore.PollAfterEviction | src/server.ts:42-64 | polling a job evicted by the sweep answers 404 |
| JobStore.SweepKeepsConsistency | src/server.ts:41-45 | the sweep preserves the status/field agreement of every stored job |
| Voiceover.RemoveBracketed | src/server.ts:113 | no contract; characterised by RemoveBracketedPrefix, DropLeadingDirection, KeepUnclosedOpen and RemoveBracketedLeavesNoSpan |
| Voiceover.RemoveHashtags | src/server.ts:113 | no contract; characterised by RemoveHashtagsPrefix, DropTag, KeepBareHash and RemoveHashtagsLeavesNoHashtag |
| Voiceover.Sanitise | src/server.ts:113 | no contract; characterised by SanitisePlainPrefix, SanitiseDropsDirection, SanitiseIsSubsequence and SanitiseLeavesNoMarkup |
| Voiceover.CloseAt | src/server.ts:113 | the lazy `.*?` of `\[.*?\]` closes at the first `]` with no line terminator before it, and finds none when every `]` is preceded by a line terminator |
| Voiceover.SanitiseIsSubsequence | src/server.ts:113 | the voice-over text is obtained from the script by deleting characters only, and everything before the first `[` or `#` is kept, the rest being sanitised on its own |
| Voiceover.RemoveBracketedPrefix | src/server.ts:113 | text before the first `[` is kept as it is by the first replacement |
| Voiceover.KeepUnclosedOpen | src/server.ts:113 | a `[` with no `]` after it on its line is kept, and the scan resumes right after it |
| Voiceover.RemoveHashtagsPrefix | src/server.ts:113 | text before the first `#` is kept as it is by the second replacement |
| Voiceover.KeepBareHash | src/server.ts:113 | a `#` not followed by a word character is kept |
| Voiceover.DropTag | src/server.ts:113 | a `#` and its whole run of word characters are removed, and the scan resumes after the run |
| Voiceover.SanitisePlainPrefix | src/server.ts:113 | text without `[` and `#` in front of the rest of a script is spoken as written, followed by the sanitised rest |
| Voiceover.SanitiseDropsDirection | src/server.ts:113 | a closed one-line `[...]` at the start of the script is not spoken, and the rest is sanitised |
| Voiceover.RemoveBracketedLeavesNoSpan | src/server.ts:113 | after the first replacement no `[` starts a span that `/\[.*?\]/` would match |
| Voiceover.RemoveHashtagsLeavesNoHashtag | src/server.ts:113 | after the second replacement no `#` is followed by a word character |
| Voiceover.SanitiseLeavesNoMarkup | src/server.ts:113 | the voice-over text contains neither a bracketed span nor a hashtag |
| Voiceover.SanitiseIdempotent | src/server.ts:113 | sanitising the voice-over text again changes nothing |
| Voiceover.SanitisePlainScript | src/server.ts:113 | a script without `[` and `#` is spoken unchanged |
| Voiceover.SanitiseKeepsLines | src/server.ts:113 | the voice-over text keeps every line terminator of the script, in order |
| Voiceover.DropLeadingDirection | src/server.ts:113 | a closed `[...]` at the start of the text is removed whole |
| Voiceover.DropTrailingTag | src/server.ts:113 | a trailing `#word` after tag-free text is removed whole |
| Voiceover.SanitiseExample | src/server.ts:113 | `"[excited] Keep going! #motivation"` becomes `" Keep going! "` |
| OutputLocation.FileName | src/server.ts:117 | no contract; characterised by VideoUrlOfPlainTopic |
| OutputLocation.OutputPath | src/server.ts:117 | no contract; characterised by VideoUrlOfPlainTopic |
| OutputLocation.VideoUrl | src/server.ts:134 | no contract; characterised by VideoUrlShape and VideoUrlOfPlainTopic |
| OutputLocation.CollapseSpaces | src/server.ts:117 | `replace(/\s+/g, '_')` is never longer than its input and leaves no whitespace |
| OutputLocation.CollapseSpacesIdentity | src/server.ts:117 | a topic without whitespace is kept as it is |
| OutputLocation.CollapseSpacesIdempotent | src/server.ts:117 | replacing whitespace runs twice is the same as once |
| OutputLocation.CollapseSpacesBetweenWords | src/server.ts:117 | a run of whitespace of any length between two words becomes exactly one `_` |
| OutputLocation.CollapseLeadingRun | src/server.ts:117 | a run of whitespace at the start becomes exactly one `_` |
| OutputLocation.CollapseTrailingRun | src/server.ts:117 | a run of whitespace at the end becomes exactly one `_` |
| OutputLocation.CollapseAppend | src/server.ts:117 | no run crosses a boundary after a non-space character, so the two sides are replaced independently |
| OutputLocation.VideoUrlOfPlainTopic | src/server.ts:117-134 | for an id and topic without `/` the file lies directly in `<cwd>/out` and the URL is `/out/<id>_<topic>.mp4` |
| OutputLocation.VideoUrlShape | src/server.ts:134 | whatever the topic, the URL is `/out/` followed by a single path component |
| Paths.JoinPath | src/services/ffmpeg-renderer.ts:31 | no contract; characterised by BasenameOfJoin, DirnameOfJoin and UnderJoin |
| Paths.Dirname | src/services/ffmpeg-renderer.ts:73 | no contract; characterised by DirnameOfJoin |
| Paths.Basename | src/server.ts:134 | `path.basename` yields a suffix of the path containing no `/` |
| Paths.BasenameOfJoin | src/server.ts:134 | the base name of `dir/name` is `name` when the name has no `/` |
| Paths.DirnameOfJoin | src/services/ffmpeg-renderer.ts:73 | the directory of `dir/name` is `dir` |
| Paths.UnderJoin | src/services/ffmpeg-renderer.ts:31 | every file joined onto a directory lies below it |
| Orchestrator.SweepDuring | src/server.ts:39-46 | the sweeps during the task only remove jobs, never add or change one |
| Orchestrator.OuterCatch | src/server.ts:88-96 | the `.catch` marks a stored job failed with the message, keeps its id, creation time and URL and every other job, and leaves an evicted job absent |
| Orchestrator.Finish | src/server.ts:88-145 | no contract beyond a non-empty trace; characterised by FinishIsTerminal, FinishKeepsOthers and TaskOutcome |
| Orchestrator.ProcessVideo | src/server.ts:99-146 | no contract beyond a non-empty trace; characterised by ProcessVideoAbsent and ProcessVideoPublishesUrl |
| Orchestrator.Task | src/server.ts:105-146 | no contract beyond a non-empty trace; characterised by TaskOutcome, TaskPhases, TaskMonotone, TaskIsolated and TaskOthersAtEnd |
| Orchestrator.SweepDuringKeeps | src/server.ts:39-46 | after a series of sweeps exactly the jobs young enough at every sweep time remain |
| Orchestrator.ProcessVideoAbsent | src/server.ts:102-103 | the task for an id that is not stored changes nothing |
| Orchestrator.ProcessVideoPublishesUrl | src/server.ts:99-138 | for a stored job whose render finishes, whatever sweeps ran meanwhile, the final store holds it completed with URL `/out/` plus the base name of the resolved output path, every other field unchanged |
| Orchestrator.BeforeFinish | src/server.ts:105-123 | the store the last write starts from holds exactly the jobs, including the task's own, that survived every sweep, unchanged |
| Orchestrator.LastOfTask | src/server.ts:99-146 | the final snapshot of the task is the final snapshot of its last step |
| Orchestrator.SurvivalOfHeld | src/server.ts:105-123 | the task's own job is still stored before the last write exactly when it survived every sweep |
| Orchestrator.RenderedOutcome | src/server.ts:134-138 | after a finished render the job is stored as completed with its URL, even when a sweep evicted it meanwhile |
| Orchestrator.RaisedOutcome | src/server.ts:140-145 | after a thrown error the job is stored as failed with the error's message (none if it had none), even when evicted meanwhile |
| Orchestrator.NullishOutcome | src/server.ts:88-145 | after a `null`/`undefined` throw the job is stored exactly when it survived every sweep, and then as failed with the `TypeError` message |
| Orchestrator.TaskOutcome | src/server.ts:99-146 | a stored job ends completed exactly when the render finished and failed exactly when a step threw |
| Orchestrator.TaskPhases | src/server.ts:105-145 | the snapshots show the job processing up to a point and terminal from then on |
| Orchestrator.TaskMonotone | src/server.ts:105-145 | a pending job is first seen processing and its status never moves backwards |
| Orchestrator.FinishIsTerminal | src/server.ts:134-145 | every snapshot of the last step that holds the job shows it completed or failed |
| Orchestrator.FinishKeepsOthers | src/server.ts:88-145 | the last step writes no other job's record |
| Orchestrator.TaskIsolated | src/server.ts:99-146 | the task itself adds or changes no other job: apart from sweep evictions, every snapshot shows the other jobs as they were |
| Orchestrator.TaskOthersAtEnd | src/server.ts:39-46 | the task itself adds or changes no other job: of the other jobs stored at its start, exactly those that survived every sweep remain at the end, unchanged |
| Orchestrator.TaskConsistent | src/server.ts:99-146 | every snapshot keeps a fresh job's fields in line with its status; in the final snapshot, a failed job lacks an error exactly when a non-null value without `message` was thrown |
| Orchestrator.SubmitThenRender | src/server.ts:70-138 | a valid request whose render finishes before any sweep leaves a completed job with URL `/out/<id>_<topic>.mp4` |
| Interpolation.Interpolate | src/compositions/MotivationalVideo.tsx:111-116 | no contract; characterised by SegmentInside, SegmentClampLeft and SegmentClampRight |
| Interpolation.FadeInOut | src/compositions/MotivationalVideo.tsx:111-116 | no contract; characterised by FadeInOutIsReference |
| Interpolation.InterpolateSegment | src/compositions/MotivationalVideo.tsx:111-116 | no contract; characterised by SegmentInside, SegmentClampLeft and SegmentClampRight |
| Interpolation.FindRange | src/compositions/MotivationalVideo.tsx:111-116 | the chosen segment is the first whose right breakpoint is not below the input, or the last one |
| Interpolation.SegmentInside | src/compositions/MotivationalVideo.tsx:111-116 | within a segment the value is the straight line through its end points |
| Interpolation.SegmentClampLeft | src/compositions/MotivationalVideo.tsx:115 | clamped on the left, inputs before the range give the first output |
| Interpolation.SegmentClampRight | src/compositions/MotivationalVideo.tsx:115 | clamped on the right, inputs after the range give the last output |
| Interpolation.FadeInOutIsReference | src/compositions/MotivationalVideo.tsx:111-116 | `interpolate` over `[s, s+a, s+b, s+c] -> [0, 1, 1, 0]`, clamped, equals the piecewise envelope everywhere |
| Interpolation.FadeInOutShape | src/compositions/MotivationalVideo.tsx:111-116 | the envelope is 0, rises linearly, holds at 1, falls linearly, and is 0 again, each on its closed interval |
| Interpolation.FadeInOutBounds | src/compositions/MotivationalVideo.tsx:111-116 | the envelope lies in `[0, 1]` and is positive exactly strictly inside the window |
| Interpolation.FadeInOutMonotone | src/compositions/MotivationalVideo.tsx:148-153 | the envelope never decreases before the hold ends and never increases after it starts |
| Interpolation.RiseShape | src/compositions/MotivationalVideo.tsx:35-37 | `[0, d] -> [0, 1]` clamped on the right is `x / d` up to `d` and 1 after |
| Timeline.NonBlank | src/compositions/MotivationalVideo.tsx:32 | the kept lines are lines of the input, all with a non-whitespace character, and at most as many as the input; order is stated by NonBlankAppend and NonBlankSingle |
| Timeline.NonBlankAppend | src/compositions/MotivationalVideo.tsx:32 | filtering a concatenation is filtering each part, in the same order |
| Timeline.NonBlankSingle | src/compositions/MotivationalVideo.tsx:32 | one line is kept, untrimmed, exactly when it has a non-whitespace character |
| Timeline.CaptionLines | src/compositions/MotivationalVideo.tsx:32 | no contract; characterised by CaptionLinesAround, CaptionLinesOfLine and CaptionLinesExact |
| Timeline.CaptionLinesAround | src/compositions/MotivationalVideo.tsx:32 | the captions of `a + "\n" + b` are the captions of `a` followed by those of `b` |
| Timeline.CaptionLinesOfLine | src/compositions/MotivationalVideo.tsx:32 | a single line is one caption, untrimmed, when it is not blank, and none otherwise |
| Timeline.NonBlankKeeps | src/compositions/MotivationalVideo.tsx:32 | every line with a non-whitespace character is kept |
| Timeline.NonBlankIdentity | src/compositions/MotivationalVideo.tsx:32 | with no blank line nothing is dropped |
| Timeline.CaptionLinesExact | src/compositions/MotivationalVideo.tsx:32 | the set of caption lines is exactly the set of `\n`-separated pieces of the script with a non-whitespace character (order: CaptionLinesAround) |
| Timeline.CaptionLinesOfPlainScript | src/compositions/MotivationalVideo.tsx:32 | a script without blank lines is its caption lines joined by `\n` |
| Timeline.Compose | src/compositions/MotivationalVideo.tsx:109-184 | no contract; characterised by ComposeCounts, ComposeFrames and TitleAndOutro |
| Timeline.ComposeCounts | src/compositions/MotivationalVideo.tsx:109-146 | one image segment per image in order, and `min(lines, 5)` caption segments for the first caption lines in order |
| Timeline.ComposeFrames | src/compositions/MotivationalVideo.tsx:110-156 | image `i` spans 180 frames from `90 + 180 i` with 30-frame fades; caption `i` spans 150 frames from `90 + 150 i` with 20-frame fades |
| Timeline.TitleAndOutro | src/compositions/MotivationalVideo.tsx:184 | the title is mounted on frames `[0, 90)`; the call to action on the last 90 frames, ending at `durationInFrames` |
| Timeline.ImagesContiguous | src/compositions/MotivationalVideo.tsx:110-122 | the images follow the title and each other without gap or overlap |
| Timeline.ImageOnScreen | src/compositions/MotivationalVideo.tsx:110-122 | image `i` is mounted on frame `f` exactly when `f >= 90` and `(f - 90) / 180 == i` |
| Timeline.AtMostOneImage | src/compositions/MotivationalVideo.tsx:110-122 | no frame mounts two images |
| Timeline.WindowOpacity | src/compositions/MotivationalVideo.tsx:111-116 | a window's opacity lies in `[0, 1]`, is positive exactly inside it, is 1 on the hold, and rises then falls |
| Timeline.VisibleOnlyWhenActive | src/compositions/MotivationalVideo.tsx:109-156 | an image or caption has positive opacity only on frames where its sequence is mounted |
| Timeline.TitleOpacity | src/compositions/MotivationalVideo.tsx:35-37 | the title fades in linearly over frames 0 to 30 and stays opaque |
| Slideshow.TempDir | src/services/ffmpeg-renderer.ts:20 | no contract; characterised by TempDirPerMillisecond |
| Slideshow.ConcatContent | src/services/ffmpeg-renderer.ts:77-79 | no contract; characterised by ConcatContentLines and ConcatContentEntries |
| Slideshow.TempDirPerMillisecond | src/services/ffmpeg-renderer.ts:20 | the temporary directory lies in `<cwd>/temp` and differs for different start milliseconds |
| Slideshow.ImagePaths | src/services/ffmpeg-renderer.ts:28-34 | the collected paths are `image_<i>.jpg` in the temporary directory, in image order |
| Slideshow.ImagePathInjective | src/services/ffmpeg-renderer.ts:31 | different images are downloaded to different files |
| Slideshow.ConcatPath | src/services/ffmpeg-renderer.ts:73 | locating the list fails with Node's `TypeError` exactly when there is no image |
| Slideshow.ConcatBesideImages | src/services/ffmpeg-renderer.ts:73 | with at least one image the list is `concat.txt` beside the images |
| Slideshow.ListLinesAt | src/services/ffmpeg-renderer.ts:77-79 | line `2i` of the list names image `i` and line `2i + 1` holds its duration |
| Slideshow.JoinEntries | src/services/ffmpeg-renderer.ts:77-79 | joining the two-line entries by `\n` is joining their lines by `\n` |
| Slideshow.ConcatContentLines | src/services/ffmpeg-renderer.ts:77-79 | for paths without line breaks the list splits into a file and duration line per image and a final file line for the last image |
| Slideshow.ListLinesTargets | src/services/ffmpeg-renderer.ts:77-79 | reading back the per-image lines gives the paths in order and one duration per path |
| Slideshow.ConcatContentEntries | src/services/ffmpeg-renderer.ts:77-79 | reading back the whole list gives every image in order, then the last again, with one duration line per image |
| Slideshow.RemoveTree | src/services/ffmpeg-renderer.ts:50 | the recursive forced removal keeps exactly the paths not below the directory |
| Slideshow.DownloadImages | src/services/ffmpeg-renderer.ts:30-36 | images are fetched in order into `image_<i>.jpg`, stopping at the first failing download, with nothing outside the directory touched |
| Slideshow.FinishRender | src/services/ffmpeg-renderer.ts:38-81 | audio, list and encode run in order until one fails; success exactly when all succeed with at least one image; the directory is removed either way; outside it only the output file is added, on success or when the failing encode had already created it |
| Slideshow.TryBlock | src/services/ffmpeg-renderer.ts:25-61 | the `try` block runs its steps in order until the first failure, reports that step's error, always removes the directory, and outside it adds only the output file, on success or when the failing encode had already created it |
| Slideshow.RenderVideoWithFFmpeg | src/services/ffmpeg-renderer.ts:14-62 | a failed `mkdir` changes nothing and is reported; otherwise the plan runs until the first failure, the result is the output path exactly when every step succeeded with at least one image, nothing below the temporary directory remains, and elsewhere only the output file is added, on success or when the failing encode had already created it |
| Slideshow.PrependRun | src/services/ffmpeg-renderer.ts:20-30 | a run of the later steps after successful earlier steps is a run of the whole sequence |
| Slideshow.PlanOrder | src/services/ffmpeg-renderer.ts:20-42 | the directory is made first if missing, image `i` is fetched at position `i` after it, then the audio |
| Slideshow.BodyOrder | src/services/ffmpeg-renderer.ts:30-42 | inside the `try` block image `i` is fetched at position `i`, then the audio |
| Slideshow.AudioAfterImages | src/services/ffmpeg-renderer.ts:30-42 | the audio is fetched once, after every image, and no image after it |
| Veo.GenerateVideoTask | src/services/veo.ts:14-32 | the task id exactly when the reply code is 200; otherwise `Veo API Error: <msg>`; a transport error is re-thrown unchanged |
| Veo.DecodeUrls | src/services/veo.ts:46-60 | flag 1 yields a success status or one of the two messages "no video URLs" / "Failed to parse" |
| Veo.CheckStatus | src/services/veo.ts:34-74 | a transport error is re-thrown unchanged |
| Veo.CheckStatusCases | src/services/veo.ts:40-69 | non-200 is `Veo Status Error: <msg>`; flag 0 is generating; flag 1 needs a present, parseable, non-empty list and yields its first URL; any other flag is failed |
| Veo.SuccessOnlyFromUrls | src/services/veo.ts:44-56 | a success status comes only from code 200, flag 1, and the first element of a non-empty parsed list |
| Veo.EmptyListErrorReplaced | src/services/veo.ts:51-59 | the empty-list error never reaches the caller; the parse-failure message replaces it |
| Veo.StatusErrorInjective | src/services/veo.ts:69 | different reply messages give different status errors |
| Veo.CodeGatesEverything | src/services/veo.ts:23-69 | without code 200 neither a task id nor a status is produced |
| Unsplash.FetchImages | src/services/unsplash.ts:5-33 | no contract; characterised by NoKeyGivesPlaceholders, FailureFallsBackLikeNoKey and SuccessGivesRegularUrls |
| Unsplash.Placeholders | src/services/unsplash.ts:9-11 | `count` placeholders, entry `i` numbered `i + 1` |
| Unsplash.RegularUrls | src/services/unsplash.ts:26 | one `urls.regular` per result, in order |
| Unsplash.NoKeyGivesPlaceholders | src/services/unsplash.ts:5-12 | without a key, whatever the search would give, the result is `count` placeholders, five by default |
| Unsplash.FailureFallsBackLikeNoKey | src/services/unsplash.ts:27-33 | a failed search returns the same list as having no key |
| Unsplash.SuccessGivesRegularUrls | src/services/unsplash.ts:14-26 | a successful search returns one URL per result in order, however many results there are |
| Unsplash.PlaceholderNumber | src/services/unsplash.ts:10 | the number at the end of placeholder `i` reads back as `i + 1` |
| Unsplash.PlaceholdersDistinct | src/services/unsplash.ts:9-11 | placeholders at different positions differ |
| Text.Split | src/compositions/MotivationalVideo.tsx:32 | no separator in any piece and at least one piece; characterised by JoinSplit and SplitJoin |
| Text.Join | src/services/ffmpeg-renderer.ts:77-79 | no contract; characterised by JoinSplit and SplitJoin |
| Text.JoinSplit | src/compositions/MotivationalVideo.tsx:32 | joining the pieces of `split(sep)` with `sep` gives the string back |
| Text.SplitJoin | src/services/ffmpeg-renderer.ts:77-79 | splitting pieces joined with a separator they do not contain gives the pieces back |

## Left out

- HTTP plumbing is left out: routing, CORS, JSON body parsing and the health route. Only the status code and payload of the two job routes are modelled.
- The Supabase client and `app.listen` are left out because they have no effect on jobs.
- `setInterval`, `randomUUID()`, `Date.now()` and `process.cwd()` are parameters. The sweep is modelled at the task's suspension points.
- Orchestrator.Task: other requests and other jobs' tasks that run while the task is suspended are not interleaved; the trace shows only this task's writes and the sweeps. TaskIsolated and TaskOthersAtEnd therefore speak only of what the task itself does.
- The speech synthesis (`src/services/tts.ts`) is not part of this model. The task's awaited steps appear only through how they end (`RenderOutcome`).
- Remotion rendering itself, `spring` and styling are left out. Only the segment windows and opacity envelopes are modelled. `interpolate` is modelled with linear easing, which is the only kind the composition uses.
- The ffmpeg encode, the `axios` downloads and file writes are steps that succeed or throw through the `fails` parameter.
  - File contents are not tracked, only which paths exist.
  - `mkdirSync`'s creation of parent directories is not tracked.
  - `rmSync` with `force` is treated as unable to fail.
- The topic is pasted unescaped into the ffmpeg `-vf` filter string (`drawtext=text='<topic>'`, src/services/ffmpeg-renderer.ts, line 93). A topic that breaks the filter syntax makes the encode fail, which ends the job failed. That effect is covered only through the Encode step's entry in `fails`; the filter string itself and the text it draws are not modelled.
- Paths.JoinPath: `path.join`/`path.resolve` normalisation (`..`, `.`, repeated `/`) is not modelled. Paths are a normalised directory plus one name.
- Veo.GenerateVideoTask: a reply without `data`, which throws a `TypeError` in the source, is not modelled.
  - A `code` that is not a number is treated as "not 200".
- Veo.GenerateVideoTask: the task id is a string. A 200 reply whose `data` has no `taskId`, for which the source returns `undefined`, is not modelled.
- Veo.CheckStatus: a 200 reply without `data`, on which reading `data.successFlag` throws a `TypeError` that is re-thrown, is not modelled.
- Veo.CheckStatus: `JSON.parse` is an oracle returning a list or nothing.
  - A parsed value that is a non-empty string or a non-list object is treated like a parse failure. In the source, `urls[0]` of such a value is returned.
  - A parsed non-zero number or `true` is treated like a parse failure too. In the source its `length` is undefined, so success is returned with an undefined URL.
  - A non-string `resultUrls` is not modelled.
- Interpolation.FadeInOutIsReference: the model computes in exact `real` arithmetic, while Remotion computes in double-precision floating point. The equality with the piecewise envelope holds exactly in the model only, up to rounding in the source.
- Timeline.TitleOpacity: the title's opacity `f / 30` is exact in the model only, up to floating-point rounding in the source.
- `downloadVideo` in `src/services/veo.ts` is left out. It is a stream pipe with no decision logic.
- `src/Root.tsx` and `src/test-render.ts` are not part of this model.
- Unsplash.FetchImages: `count` is a natural number. A negative or fractional `count`, on which `Array(count)` throws, is not modelled.
- Two renders that start in the same millisecond share a temporary directory. The model covers an existing directory (no `mkdir`, removed at the end) but not two renders interleaving in it.
- JobStore.Submit: body fields are strings or absent. Non-string truthy values, which the source would accept, are not modelled.
