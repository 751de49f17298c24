# ganglia-common, modelled in Dafny

A Dafny model of the sequential cores of the `ganglia_common` utility library
of a voice-assistant pipeline. The network clients, subprocesses, threads,
files and clock around those cores are abstracted away.

- **Event bus** (`pubsub.dfy`, module `PubSub`). `PubSub` is an immutable
  record: the subscriber registry (event type to ordered callback list), the
  FIFO queue, the running flag and a delivery log. Callbacks are identifiers.
  Calling one appends a `Delivery` to the log. A `raises` oracle says whether
  that call raised. The background thread becomes an explicit `Step`, which is
  one iteration of `_process_events`. `Run` takes n steps.
- **Chat history** (`query_dispatch.dfy`, module `QueryDispatch`). This covers
  the message history of `ChatGPTQueryDispatcher`, word-count tokens,
  front-trimming rotation to 4097 words, sentence segmentation of a streamed
  reply, and the bounded retry of the DALL-E content filter. The chat API's
  replies and chunks are parameters.
- **Retry** (`retry.dfy`, module `Retry`). `exponential_backoff` runs over
  abstract attempt outcomes and abstract `random()` draws.
- **Text-to-speech text handling**:
  - `base_tts.dfy`, module `BaseTts`: `split_text` and the ffplay command.
  - `google_tts.dfy`, module `GoogleTts`: the duplicate `split_text`, the file
    name snippet, the retried conversion and the all-or-nothing streaming path.
  - `openai_tts.dfy`, module `OpenAiTts`: voice fallback, the blank-text
    guard, routing by length, the ordered chunk and sentence loops, and the
    concatenation with its fallback and the errors it lets escape.

  Synthesis and ffmpeg results are parameters, and so is whether the
  temporary `tts` directory exists.
- **Console text shaping** (`logger.dfy`, module `Logger`). This covers the
  debug and timestamp flags, the timestamp prefix, terminal-width selection,
  ANSI stripping, carriage-return truncation and the greedy word wrap of
  `print_user_input`.
- **Statistics** (`profiler.dfy`, module `Profiler`). This covers the timing
  flag, `PerformanceStats` record/get_stats/reset, the `ConversationTimer`
  duration getters, and what `print_breakdown` records.
- Shared helpers: `common.dfy` (`Option`) and `text.dfy` (Python's ASCII
  whitespace, `strip`, `split()`, `join`).

`GoogleTTS.prepare_playback` (src/ganglia_common/tts/google_tts.py:183-188) is
the same code as the base class's. `BaseTts.PlayCommand` models both.

Behaviour of the code worth noting:
- `stop` only clears the running flag. The queue is kept, so pending events are
  dispatched after a later `start` (`PubSub.PendingEventsSurviveRestart`).
  They are not abandoned.
- The registry has no lock, and none is modelled.
- `publish` does not check its argument, so there is no fail-fast case for a
  missing event.

## Model

| member | source | states |
|---|---|---|
| PubSub.NewEvent | src/ganglia_common/pubsub/pubsub.py:60-65 | type, source and target are stored as given; data is stored as given, and a missing mapping becomes `{}`; id and timestamp come from the uuid and clock parameters |
| PubSub.New | src/ganglia_common/pubsub/pubsub.py:76-85 | a new bus is stopped, its queue and log are empty, and every event type has an empty subscriber list |
| PubSub.Start | src/ganglia_common/pubsub/pubsub.py:87-95 | afterwards the bus is running; a running bus is returned unchanged; registry, queue and log are untouched |
| PubSub.Stop | src/ganglia_common/pubsub/pubsub.py:97-103 | afterwards the bus is not running; a stopped bus is unchanged; the queue is kept |
| PubSub.Subscribe | src/ganglia_common/pubsub/pubsub.py:113-116 | the callback goes to the end of its type's list, duplicates are kept, and every other type's list is unchanged |
| PubSub.RemoveFirst | src/ganglia_common/pubsub/pubsub.py:131 | `list.remove` drops exactly the first occurrence, leaves an absent value's list alone, and removes one copy from the multiset |
| PubSub.Unsubscribe | src/ganglia_common/pubsub/pubsub.py:127-131 | removes the first occurrence when present, otherwise the bus is unchanged; other types, queue and flag are untouched |
| PubSub.UnsubscribeUndoesSubscribe | src/ganglia_common/pubsub/pubsub.py:113-131 | unsubscribing a callback that was just subscribed, and was not listed before, restores the bus |
| PubSub.UnsubscribeStopsDelivery | src/ganglia_common/pubsub/pubsub.py:127-168 | after removing a callback listed once, the next dispatch of that type never calls it, and earlier deliveries stay in the log |
| PubSub.Publish | src/ganglia_common/pubsub/pubsub.py:141 | the event goes to the back of the queue and no subscriber list changes |
| PubSub.Deliveries | src/ganglia_common/pubsub/pubsub.py:163-168 | one call per listed callback, in list order, each with the event, whether or not earlier ones raised |
| PubSub.Step | src/ganglia_common/pubsub/pubsub.py:144-152 | a running bus with a non-empty queue removes the front event; a stopped bus or an empty queue changes nothing; the log only grows |
| PubSub.DispatchCallsListedCallbacks | src/ganglia_common/pubsub/pubsub.py:156-168 | a step calls exactly the callbacks listed for the front event's type at dispatch time, in order, and never a callback not listed for it |
| PubSub.RaisingDoesNotChangeRun | src/ganglia_common/pubsub/pubsub.py:165-168 | whichever callbacks raise, any number of steps make the same calls and leave the same queue |
| PubSub.TargetIsIgnored | src/ganglia_common/pubsub/pubsub.py:156-168 | changing the front event's target does not change which callbacks a step calls |
| PubSub.DrainDispatchesInOrder | src/ganglia_common/pubsub/pubsub.py:144-152 | one step per queued event empties the queue and logs each event's deliveries in publish order |
| PubSub.SoleSubscriberSeesPublishOrder | src/ganglia_common/pubsub/pubsub.py:141-149 | a sole subscriber receives the queued events exactly in publish order |
| PubSub.PendingEventsSurviveRestart | src/ganglia_common/pubsub/pubsub.py:97-103 | events queued before `stop` are all dispatched, in order, after a later `start` |
| PubSub.StoppedBusIsIdle | src/ganglia_common/pubsub/pubsub.py:146 | a stopped bus dispatches nothing however many steps pass |
| PubSub.GetPubSub | src/ganglia_common/pubsub/pubsub.py:175-181 | the first call builds and starts a bus and stores it; later calls return the stored bus unchanged |
| PubSub.GetPubSubIsStable | src/ganglia_common/pubsub/pubsub.py:172-181 | in a process that makes no other bus call, every call returns the bus the first call built and stored, running and with no subscribers |
| PubSub.GetPubSubDoesNotRestart | src/ganglia_common/pubsub/pubsub.py:177-181 | a stored bus that was stopped comes back stopped, with its subscriptions and queue; `get_pubsub` never starts it again |
| QueryDispatch.NewHistory | src/ganglia_common/query_dispatch.py:40-46 | the history is one system message holding a non-empty pre-prompt, otherwise empty |
| QueryDispatch.AddSystemContext | src/ganglia_common/query_dispatch.py:54-55 | one system message per line is appended, in order; earlier messages are unchanged |
| QueryDispatch.TokenCount | src/ganglia_common/query_dispatch.py:231-236 | the loop's total equals the sum over messages of their whitespace-separated word counts |
| QueryDispatch.CountTokensAppend | src/ganglia_common/query_dispatch.py:231-236 | the count of two histories laid end to end is the sum of their counts |
| QueryDispatch.RotateSessionHistory | src/ganglia_common/query_dispatch.py:213-224 | the result is a suffix of the history, within 4097 words, the longest such suffix, and the whole history when it already fits |
| QueryDispatch.AppendUserAndRotate | src/ganglia_common/query_dispatch.py:160-163 | the history becomes the longest suffix of the old history plus the user message that fits in 4097 words; it is non-empty exactly when the message alone fits, and a longer message empties the history, itself included |
| QueryDispatch.SendQuery | src/ganglia_common/query_dispatch.py:67-132 | the messages before the reply are the longest within-limit suffix of the old history plus the user message; the user message is kept exactly when it alone fits; the text reply comes last |
| QueryDispatch.SentenceComplete | src/ganglia_common/query_dispatch.py:175-188 | the completion test holds exactly when the right-stripped buffer ends in `.`, `!` or `?`; the newline ending never fires |
| QueryDispatch.ScanChunks | src/ganglia_common/query_dispatch.py:178-193 | a sentence is emitted at the first chunk after which the buffer, stripped, is non-empty and ends in `. ! ?`, and at no earlier chunk; it is the stripped text since the previous cut; the buffer is the text after the last cut; no visible character is lost |
| QueryDispatch.StripKeepsLast | src/ganglia_common/query_dispatch.py:188-189 | stripping a completed buffer keeps its terminator as the last character |
| QueryDispatch.SegmentStream | src/ganglia_common/query_dispatch.py:173-198 | the sentences are the ones cut at those first completing chunks, then the stripped remainder when it is not blank; each is non-empty and stripped, all but the last are terminated, and no visible character is lost or reordered |
| QueryDispatch.SegmentedUnique | src/ganglia_common/query_dispatch.py:178-193 | after any number of chunks the loop state (cut positions, emitted sentences, buffer) is the only one `Segmented` admits |
| QueryDispatch.SegmentationUnique | src/ganglia_common/query_dispatch.py:173-198 | the sentences of a stream are determined by its chunks: two segmentations of the same chunks agree |
| QueryDispatch.SendQueryStreaming | src/ganglia_common/query_dispatch.py:148-201 | the history before the reply is the rotation of the old history plus the user message, which is kept exactly when it alone fits; the stored reply is all chunks joined; the yielded sentences are the segmentation of the chunks |
| QueryDispatch.DallePrompt | src/ganglia_common/query_dispatch.py:268-287 | the prompt holds the content verbatim between the fixed instructions and the closing line |
| QueryDispatch.FilterContentForDalle | src/ganglia_common/query_dispatch.py:250-266 | at most `max_attempts` queries; the first reply is returned stripped; caught errors are retried; every attempt failing, or no attempts, gives `(False, None)` |
| Retry.Backoff | src/ganglia_common/utils/retry_utils.py:29-54 | returns the first success and makes no further call; at most `max_retries` calls; the last failure is re-raised with no sleep after it; one doubling jittered sleep between attempts; a negative initial delay makes the first sleep raise; with fewer than one retry nothing is called and `raise None` fails |
| Retry.DelayBounds | src/ganglia_common/utils/retry_utils.py:41-43 | the jittered delay lies between half and one and a half times `initial_delay * 2^(k-1)` |
| BaseTts.Sentences | src/ganglia_common/tts/base_tts.py:65 | each match is a run of characters other than `. ! ?` followed by one of them |
| BaseTts.SentencesCover | src/ganglia_common/tts/base_tts.py:65 | the matches laid end to end are a prefix of the text, and what follows holds no terminator, so it is discarded |
| BaseTts.SentencesUnique | src/ganglia_common/tts/base_tts.py:65 | the matches are the only split of the text into sentences followed by a terminator-free rest |
| BaseTts.NoSentencesIffNoTerminator | src/ganglia_common/tts/base_tts.py:65 | there is no match exactly when the text holds no terminator |
| BaseTts.SliceChunks | src/ganglia_common/tts/base_tts.py:68-73 | a sentence gives at least one chunk, each at most `max_length` long |
| BaseTts.RawSlicesRebuild | src/ganglia_common/tts/base_tts.py:68-73 | before stripping, the slices concatenate back to the sentence; all but the last are `max_length` long; each chunk is its slice stripped |
| BaseTts.SliceChunksCount | src/ganglia_common/tts/base_tts.py:68-73 | a non-empty sentence gives ceil(len / max_length) chunks |
| BaseTts.SplitTextShape | src/ganglia_common/tts/base_tts.py:65-75 | every chunk fits and is stripped; the chunks keep, in order, the visible text up to the last terminator; no terminator gives no chunk |
| BaseTts.BlankChunkExample | src/ganglia_common/tts/base_tts.py:68-75 | a whitespace-only slice becomes an empty chunk |
| BaseTts.SplitTextLoop | src/ganglia_common/tts/base_tts.py:65-75 | the nested loops of `split_text` produce the chunk list of the functional definition |
| BaseTts.PlayCommand | src/ganglia_common/tts/base_tts.py:164-169 | a `.mp4` path gets the command without the volume filter, any other path gets `-af volume=5`, and the path is the last argument |
| GoogleTts.SplitText | src/ganglia_common/tts/google_tts.py:84-94 | the duplicate `split_text` returns exactly the base class's chunks |
| GoogleTts.Sanitize | src/ganglia_common/tts/google_tts.py:297-300 | length is preserved; characters outside word characters, whitespace and `-` become `_`, the rest are kept |
| GoogleTts.SanitizeIdempotent | src/ganglia_common/tts/google_tts.py:299 | sanitising twice gives the same as sanitising once |
| GoogleTts.SnippetShape | src/ganglia_common/tts/google_tts.py:295-301 | the snippet uses only word characters and `-`, is empty exactly for blank text, and is as long as the first three words plus one `_` between each pair |
| GoogleTts.ResponseFileName | src/ganglia_common/tts/google_tts.py:304-308 | the file name is `chatgpt_response_`, then the snippet, then `_<timestamp>.mp3` |
| GoogleTts.Convert | src/ganglia_common/tts/google_tts.py:329-340 | 1 to 5 synthesis calls; the first success gives its file; if all five fail, an API or IO error on the fifth gives `(False, None)` and any other error escapes; each sleep is 2^j s times a jitter factor in [0.5, 1.5) |
| GoogleTts.ConvertStreaming | src/ganglia_common/tts/google_tts.py:356-421 | no sentence gives `(False, None)`; one sentence delegates; otherwise all-or-nothing: any failure gives `(False, None)`, an escaping error escapes, and concatenation decides success |
| GoogleTts.AudioFiles | src/ganglia_common/tts/google_tts.py:379 | at most one path per result; when every conversion succeeded the list is exactly their paths in input order; it is empty exactly when none succeeded |
| GoogleTts.AudioFilesAppend | src/ganglia_common/tts/google_tts.py:379 | the paths of two result lists in a row are the paths of the first followed by those of the second, so every path keeps its result's place |
| OpenAiTts.InstanceVoice | src/ganglia_common/tts/openai_tts.py:48 | a known voice is kept, anything else becomes `onyx` |
| OpenAiTts.RequestVoice | src/ganglia_common/tts/openai_tts.py:70 | the call's voice is `voice_id` when it is known, otherwise the instance voice, also for a missing `voice_id` |
| OpenAiTts.Impl | src/ganglia_common/tts/openai_tts.py:63-106 | empty or blank text fails before any request; otherwise one request carries the text unchanged, and an endpoint error gives `(False, None)` |
| OpenAiTts.ConcatenateAudio | src/ganglia_common/tts/openai_tts.py:196-249 | a missing `tts` directory or a missing ffmpeg raises out of the call; a joined file gives the output path; an ffmpeg error exit gives the first input file, or None exactly when there is none |
| OpenAiTts.ConvertEach | src/ganglia_common/tts/openai_tts.py:128-139 | chunks are converted in order and the loop stops at the first failure; the files are in chunk order; requests are the converted chunks plus one for a failing non-blank chunk |
| OpenAiTts.Conversion | src/ganglia_common/tts/openai_tts.py:108-145 | a text of at most 4000 characters gives the one request's result; a longer one gives `(False, None)` exactly when some chunk of `split_text(text, 4000)` fails, raises exactly when all convert and ffmpeg is missing or there are no chunks and no `tts` directory, and otherwise reports success with the concatenation of the chunks' files |
| OpenAiTts.Convert | src/ganglia_common/tts/openai_tts.py:108-145 | the loop computes `Conversion`; one request for a short non-blank text and none for a blank one; for a long text at most one request per chunk, exactly one per chunk unless a chunk failed |
| OpenAiTts.LongTextWithoutTerminator | src/ganglia_common/tts/openai_tts.py:122-143 | `convert_text_to_speech` on a long text without `. ! ?` makes no request; it raises unless the `tts` directory already exists and ffmpeg is installed, and otherwise reports success, with no file exactly when ffmpeg fails |
| OpenAiTts.ConvertStreaming | src/ganglia_common/tts/openai_tts.py:147-194 | no sentence fails; one sentence, long or not, gives what `convert_text_to_speech` gives; several fail exactly when some sentence fails, raise exactly when all convert and ffmpeg is missing, and otherwise concatenate the files in input order |
| Logger.EnableTimestamps | src/ganglia_common/logger.py:66-69 | sets the timestamp flag and leaves the debug flag alone |
| Logger.DisableTimestamps | src/ganglia_common/logger.py:71-74 | clears the timestamp flag and leaves the debug flag alone |
| Logger.EnableDebug | src/ganglia_common/logger.py:76-79 | sets the debug flag and leaves the timestamp flag alone |
| Logger.DisableDebug | src/ganglia_common/logger.py:81-84 | clears the debug flag and leaves the timestamp flag alone |
| Logger.TimestampPrefix | src/ganglia_common/logger.py:86-91 | the prefix is empty when timestamps are off, else the bracketed clock reading and a space |
| Logger.LogLine | src/ganglia_common/logger.py:200-257 | a debug message prints nothing while debug is off; otherwise the output is the prefix and the message |
| Logger.DebugSilentAfterDisable | src/ganglia_common/logger.py:253-254 | after enabling and then disabling debug, debug output is silent again |
| Logger.ParseShowInt | src/ganglia_common/logger.py:112-113 | every decimal integer, with or without surrounding whitespace, parses back to itself |
| Logger.TerminalWidth | src/ganglia_common/logger.py:108-121 | the width is the environment value when it parses, otherwise the detected width, otherwise 80 |
| Logger.StripAnsiCode | src/ganglia_common/logger.py:126 | a complete `ESC[<digits;>m` or `ESC[...K` sequence is removed entirely |
| Logger.StripAnsiPlainPrefix | src/ganglia_common/logger.py:126 | text without escape characters passes the ANSI removal unchanged |
| Logger.CleanText | src/ganglia_common/logger.py:126-127 | the measured text is no longer than the input and holds no carriage return |
| Logger.CleanColoredText | src/ganglia_common/logger.py:125-127 | a coloured plain message measures as the plain message |
| Logger.TruncateShape | src/ganglia_common/logger.py:129-142 | above width 8 the interim line is `...` plus the last width-8 characters; at 8 the whole text is kept; below 8 the first 8-width characters are dropped |
| Logger.WrapGroups | src/ganglia_common/logger.py:147-164 | the greedy loop keeps every word once and in order; each line fits or is a single word; each line is full, so the next line's first word would not fit on it |
| Logger.WrapWords | src/ganglia_common/logger.py:145-168 | wrapped lines are non-empty; joined with spaces they equal the words joined with spaces; only a single over-long word may exceed the limit |
| Logger.PrintUserInput | src/ganglia_common/logger.py:93-174 | interim text longer than width-5 is truncated; final text longer than width-2 is wrapped to width-2; everything else is printed as given |
| Profiler.TimingFlagIsLastCall | src/ganglia_common/utils/performance_profiler.py:14-32 | `is_timing_enabled` reflects the most recent enable or disable call, and is off before any |
| Profiler.Record | src/ganglia_common/utils/performance_profiler.py:41-50 | the duration is appended to the name's list, which is created if absent; other names are unchanged |
| Profiler.Reset | src/ganglia_common/utils/performance_profiler.py:103-105 | no recorded name is left |
| Profiler.Sort | src/ganglia_common/utils/performance_profiler.py:64 | the sorted values are in order and are a permutation of the recorded ones |
| Profiler.SortedPermutationUnique | src/ganglia_common/utils/performance_profiler.py:64 | any two sorted permutations of the same values are equal |
| Profiler.GetStats | src/ganglia_common/utils/performance_profiler.py:52-81 | None exactly for an unknown name or an empty list; otherwise count is the number of records, and min and max are recorded values bounding all the others |
| Profiler.GetStatsOfSorted | src/ganglia_common/utils/performance_profiler.py:64-80 | the summary is read off any sorted arrangement: the middle value for odd n, the mean of the two middle values for even n, min and max its ends |
| Profiler.SingleRecordStats | src/ganglia_common/utils/performance_profiler.py:77-78 | a single record is its own median, p95, p99, min and max |
| Profiler.RecordThenStats | src/ganglia_common/utils/performance_profiler.py:41-80 | after a record the count grows by one and the new value lies between min and max |
| Profiler.Between | src/ganglia_common/utils/performance_profiler.py:246-283 | a getter gives None unless both ends are set and non-zero, otherwise end minus start |
| Profiler.TimerGetters | src/ganglia_common/utils/performance_profiler.py:189-283 | a fresh timer has no durations; marking both STT ends gives their difference |
| Profiler.BreakdownRecordsNonZero | src/ganglia_common/utils/performance_profiler.py:285-374 | with timing on and the user end marked, each of STT, LLM, TTS and Roundtrip gains exactly its non-zero duration; nothing else changes |

## Left out

- Threads: the bus's daemon thread, its 0.1 s `get` timeout and 1.0 s join, and
  the thread pools of both streaming paths. Dispatch is the explicit
  `PubSub.Step`, and pool results are ordered sequences.
- PubSub.GetPubSub: the module-level singleton is a stored value, not a shared
  object. A caller gets Python's behaviour only by threading the result of
  each bus operation back into the stored `_instance`; the model does not
  tie them together.
- Callbacks that subscribe or unsubscribe while a dispatch is iterating over
  the live list are not modelled, because each dispatch reads the list once.
- Network clients are replaced by oracle parameters. These are the OpenAI chat
  and speech calls, Google synthesis and `utils/cloud_utils.py`.
- ffmpeg, ffplay and ffprobe are out. So are playback, `monitor_enter_keypress`,
  colours, `print_legend` and the printing itself. Google's concatenation
  result is a parameter; OpenAI's is one of three ffmpeg outcomes (joined,
  error exit, not installed).
- QueryDispatch.SendQueryStreaming: the source is a generator, and the model
  runs it to exhaustion in one call. In the source the user message is
  appended and the history rotated only at the first `next()`, sentences are
  yielded one at a time, and the assistant message is stored only when the
  chunk stream is exhausted. A consumer that stops early, or a chunk stream
  that raises, leaves the user message in the history with no reply; that
  case is not modelled.
- Files, the environment, the clock and ids are out: `utils/file_utils.py`,
  temp directories, uuid4 and `time.time()`. Only whether `<temp_dir>/tts`
  exists is kept, as a parameter of the OpenAI conversion. Timestamps, ids and the
  environment width are parameters.
- QueryDispatch.SendQuery: the reply is a string. In the source the text
  branch stores `message.content` unguarded (query_dispatch.py:130-131), so a
  None content is appended to the history and then raises TypeError at
  `len(reply)` or `file.write(reply)` (135, 144); a later rotation would fail
  on it too. That path is not modelled.
- The audio-output branch of `send_query` is not modelled, nor is the
  history-writing side effect of the `send_query` calls made inside
  `filter_content_for_dalle`. Both are API-dependent.
- Profiler.GetStats: the mean is left out (floating-point sum). The p95/p99
  index for n > 1 uses exact `n*95/100` and `n*99/100` rounded down rather
  than `int(n*0.95)` in binary floating point.
- Retry.Backoff: jitter is a parameter in [0, 1) and `sleep` is recorded, not
  performed.
- The `Timer` context manager, the `timed` decorator, `print_summary`,
  `get_global_stats` and the `mark_*` setters are clock wrappers and output.
  A mark is modelled as an optional reading in `Profiler.Timer`.
- Logger.ParseInt: Python `int` also accepts `_` digit separators and
  non-ASCII digits; those are not modelled.
- Text handling is ASCII-only. Whitespace is ASCII `isspace`, and `\w` is
  ASCII letters, digits and `_`. Unicode classes are not modelled.
- BaseTts.SplitText: `max_length < 1` with any terminator present never ends
  in the source. The model requires `max_length >= 1` in that case.
- `tts/types.py`, `setup.py` and the `__init__.py` re-exports are plain data
  and packaging. `tts/openai_tts.py` imports unresolved top-level modules;
  only its logic is modelled.
