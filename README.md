# YouTube downloader core in Dafny

This project models the logic at the heart of `YoutubeDownload.py`, a
command-line YouTube downloader. The network, the clock and the keyboard
are replaced by oracle inputs, and each piece is proved against a
specification.

The model covers these pieces:

- **The resumable download loop.** `download_with_retries` resends
  `Range: bytes=<size>-` after every failure and appends the body to the
  output file. It retries with a fixed back-off and resets the displayed
  count when one attempt spanned a long outage. When it runs out of
  attempts, it hands over to the `s`/`n` prompt of
  `handle_download_failure`.
- **The orchestration of `download_video`.**
  1. Confirm the output name; a taken name is asked about and replaced by
     the least free `name(i).ext`.
  2. Fetch a stream that carries its own audio directly.
  3. Otherwise, fetch the video into `{title}_temp.{ext}` and then the best
     audio stream.
  4. Launch the combiner with the codec pair `codec_map` gives for the
     container.
- **The stream list.** `list_available_streams` keeps streams with a known
  resolution and size, and sorts them by the number before the first `p`
  of their label. If any one label has no such number, the whole list falls
  back to the fallback rank order.
- **The small helpers.** The unit choice of `format_filesize`, the free-name
  search of `get_unique_filename` and the row-number check of
  `get_user_choice`.

## How it is modelled

The modules follow the program's structure:

- **`Text`**: Python's `str(n)`, `int(s)`, `strip()`, `split(c)` and the
  prompt answers.
- **`HttpRange`**: the `Range` header (section 14.1.2 and 14.2 of RFC 9110)
  and the total read back from `Content-Range` (section 14.4 of RFC 9110).
- **`Process`**: the state that outlives one call. It holds the output
  folder as a map from names to bytes, the globals `progress_bar`,
  `start_time`, `video_path` and `audio_path`, the lines still to be typed,
  and ghost traces of requests, sleeps and launches.
- **`Retry`**: the download loop and its prompt, as functions of that
  state.
- **`Naming`**, **`FileSize`**, **`Sorting`** and **`Catalog`**: the
  helpers and the stream list.
- **`Session`**: `confirm_download_choice` and `download_video`.
- **`Program`**: the class `Downloader`.

The oracles are modelled as follows:

- **The network** is a function from the process-wide request number to
  what that request meets. It gives the `time.time()` reading at the start
  of the attempt, and either an exception or a status, a `content-range`
  value and the body chunks. The stream of chunks can end normally or
  raise part-way.
- **Standard input** is the sequence of lines the user will type. Running
  out of it is Python's `EOFError`.

`Downloader` is the running program. It holds the same state in mutable
fields and has one method per source function that reads or changes
that state; the loops of those functions are `while` and `for` loops.
The helpers that do not touch it (`list_available_streams`,
`get_user_choice`, `get_unique_filename` and `format_filesize`) are
methods of `Catalog`, `Naming` and `FileSize`. Each method is proved to produce
exactly the state and outcome that the pure functions of `Retry` and
`Session` compute. Each property below is proved about those functions.

The code is modelled as written, including where it departs from what
its own messages and comments say:

- **The reset does not restore the budget.** The message at line 118 says
  the count of attempts restarts. Only the displayed `attempt` and
  `wait_time` are reset. `total_attempts`, which bounds the loop, never is.
  The wait restored is the literal 5, not the caller's `wait_time`.
- **The reset is measured after the sleep.** The span tested is from the
  start of the failed attempt to the clock reading after the back-off
  sleep. It is tested only on the connection-error path.
- **The fallback sort key is the stream object.** The comment at line 63
  says file size, but the code sorts by the stream object. The model gives
  each stream an abstract rank.
- **Running out of attempts asks the user.** The call does not fail. An
  `s` restarts the download with the default parameters; `n` exits.
- **Without a progress bar, the handlers raise.** Both handlers call
  `progress_bar.close()`, a global first bound at line 97. A failure before
  any progress bar existed in the process therefore raises `NameError`
  out of the loop.

## Model

| member | source | states |
|---|---|---|
| Text.Decimal | YoutubeDownload.py:86 | `str(n)` of a size is a non-empty run of ASCII digits without a leading zero |
| Text.ParseNat | YoutubeDownload.py:95 | a digit string is read exactly when it is non-empty and all ASCII digits |
| Text.DecimalRoundTrip | YoutubeDownload.py:86 | reading back a printed number gives the number |
| Text.DecimalInjective | YoutubeDownload.py:290 | distinct numbers print differently |
| Text.Strip | YoutubeDownload.py:277 | `strip()` leaves no whitespace at either end and never lengthens the text |
| Text.StripKeeps | YoutubeDownload.py:277 | a non-space character survives `strip()` at its offset less the leading spaces |
| Text.StripIdempotent | YoutubeDownload.py:134 | stripping twice is stripping once |
| Text.ParseInt | YoutubeDownload.py:95 | `int(s)` reads a value only when the stripped text is non-empty and every character stripped around it is whitespace `int` itself skips (not U+001C to U+001F) |
| Text.ParseIntStripped | YoutubeDownload.py:277 | `int(s.strip())` reads the stripped text as an optional sign and digits. It equals `int(s)` when no information separator (U+001C to U+001F) is among the stripped whitespace; otherwise `int(s)` raises ValueError |
| Text.LeadingSeparatorRefused | YoutubeDownload.py:95 | `int` raises ValueError on a text that starts with an information separator |
| Text.InfoSeparatorRefused | YoutubeDownload.py:277 | `int('\x1c5')` raises ValueError while `int('\x1c5'.strip())` is 5 |
| Text.ParseIntDecimal | YoutubeDownload.py:277 | `int(str(n)) == n` |
| Text.ParseIntRejects | YoutubeDownload.py:277 | `int` raises ValueError when a non-digit follows the first non-space character |
| Text.ParseIntLoneSign | YoutubeDownload.py:277 | `int` raises ValueError on a lone sign |
| Text.Split | YoutubeDownload.py:184 | `split(c)` gives at least one piece; no piece contains `c`; the pieces joined with `c` give the text back |
| Text.SplitUnique | YoutubeDownload.py:95 | those are the only separator-free pieces that join back to the text |
| Text.SplitAfter | YoutubeDownload.py:95 | text before the first separator comes out as the first piece |
| Text.SplitSeparates | YoutubeDownload.py:184 | `split('/')` has a second piece exactly when the text contains `/` |
| Text.SplitFirst | YoutubeDownload.py:60 | the first piece of `split('p')` is the text before the first `p` |
| Text.AnswerOf | YoutubeDownload.py:134 | `input().strip().lower()` compared with `s` and `n`: only `s`/`S` answer yes and only `n`/`N` answer no; its contract is stated by `AnswerIgnoresSpaces` and the prompt lemmas |
| Text.AnswerIgnoresSpaces | YoutubeDownload.py:134 | surrounding whitespace never changes an answer to the `s`/`n` prompts |
| Text.FirstAnswer | YoutubeDownload.py:170-177 | the index of the line that settles a prompt lies within the lines typed |
| Text.FirstAnswerSpec | YoutubeDownload.py:170-177 | there is no settling line exactly when no line is `s` or `n`; the settling line answers and every earlier line does not |
| HttpRange.RangeHeader | YoutubeDownload.py:86 | the header value `bytes=<size>-`; its contract is stated by `RangeRoundTrip` and `RangeHeaderInjective` |
| HttpRange.RangeRoundTrip | YoutubeDownload.py:86 | every `Range` header sent is well formed and names exactly the file size it was built from |
| HttpRange.RangeHeaderInjective | YoutubeDownload.py:86 | two headers are equal exactly when their offsets are |
| HttpRange.TotalSize | YoutubeDownload.py:95 | a total is read only from a value that contains `/`; `int` reads the text after the first `/` unstripped |
| HttpRange.TotalSizeMissing | YoutubeDownload.py:95 | without `content-range` the default value has no `/`, so the total cannot be read |
| HttpRange.TotalSizeOf | YoutubeDownload.py:95 | a well-formed `bytes a-b/n` yields `n`, whatever the local size |
| HttpRange.TotalSizeUnknown | YoutubeDownload.py:95 | a `*` total is not an integer, so the total cannot be read |
| HttpRange.TotalSizeRefusesSeparator | YoutubeDownload.py:95 | `bytes 0-9/\x1c10` has no readable total: `int` does not skip the information separator |
| Retry.AfterFault | YoutubeDownload.py:109-127 | a handler raises NameError exactly when no progress bar ever existed. Otherwise it counts the attempt and sleeps `wait_time` only if an attempt remains. A connection error whose span exceeded the interval resets `attempt` to 0 and the wait to 5. Otherwise the wait is kept, and `attempt` grows on connection errors only |
| Retry.Begin | YoutubeDownload.py:80-87 | an attempt records its start time and sends one request to the URL, whose `Range` reads back as the file's current size (0 when absent) |
| Retry.Append | YoutubeDownload.py:97-102 | the body is appended after the file's bytes; no other file changes; a progress bar now exists |
| Retry.Handle | YoutubeDownload.py:88-127 | for a sent request, only the output file (by appending), the progress-bar flag and the sleep trace may change; no request is sent and no input read. A retry counts one attempt, and the wait stays the caller's or becomes 5. The call stops with 416, another status, a completed body or NameError, and NameError only before any progress bar existed |
| Retry.HandleKeepsStart | YoutubeDownload.py:80-127 | handling a reply leaves the recorded `start_time` of the attempt as it was |
| Retry.Streamed | YoutubeDownload.py:97-108 | a readable 200/206 body is appended; the call completes or the mid-stream exception is handled like any failure |
| Retry.Step | YoutubeDownload.py:79-127 | one pass sends exactly one request, to the URL, resuming from the file's size. The file is only appended to, and the pass sleeps once at most, only before another attempt |
| Retry.Attempts | YoutubeDownload.py:78-127 | the loop sends at most `max_attempts - total_attempts` requests and exactly that many when it runs out. It sends at least one when it returns, leaves other files alone and only appends to the output |
| Retry.Download | YoutubeDownload.py:74-129 | `download_with_retries` never ends by running out of attempts. It sends at most `max_attempts` requests, plus 7 per line read at the prompt, and only appends to the output |
| Retry.Escalate | YoutubeDownload.py:132-142 | the prompt ends by restart, exit or end of input. It sends at most 7 requests per line it reads, and only appends to the output |
| Retry.EscalateReads | YoutubeDownload.py:134-142 | one line: `s` restarts the download with the default parameters on the rest, `n` exits, anything else asks again |
| Retry.EscalateSkips | YoutubeDownload.py:133-142 | lines that answer neither `s` nor `n` are only consumed |
| Retry.EscalateAnswers | YoutubeDownload.py:133-142 | the first `s` or `n` line settles the prompt, consuming every line up to it: `n` exits, `s` restarts with the default parameters on the lines after it; with no such line all input is consumed and the prompt meets the end of input |
| Retry.Status416Stops | YoutubeDownload.py:88-90 | status 416 ends the call after one request, with no byte written and no sleep |
| Retry.OtherStatusStops | YoutubeDownload.py:92-94 | any status but 200, 206 and 416 ends the call after one request, with no byte written and no sleep |
| Retry.FullReplyLikePartial | YoutubeDownload.py:92-102 | a 200 is handled exactly like a 206: its body is appended after the bytes on disk |
| Retry.UnreadableTotalFails | YoutubeDownload.py:95-127 | a missing or `*` total is a generic failure: nothing is written, one attempt is counted, the wait and `attempt` are kept; before any progress bar it is NameError |
| Retry.NameErrorOnlyBeforeAnyBar | YoutubeDownload.py:109-127 | once a progress bar has existed the loop never raises NameError |
| Retry.SleepsBetweenRequests | YoutubeDownload.py:112-127 | the loop sleeps only between requests: one sleep fewer than requests |
| Retry.SleepsAreWaitTimes | YoutubeDownload.py:114-127 | every back-off sleep lasts the caller's `wait_time` or the reset value 5 |
| Retry.AttemptsResume | YoutubeDownload.py:81-87 | every request of a call goes to its URL; the offsets are no lower than the initial size, never decrease and never exceed the final size |
| Retry.ThreeQuickFailures | YoutubeDownload.py:109-127 | with 3 attempts, wait 1 and interval 100, three quick connection failures give three requests, two one-second sleeps, no write and exhaustion |
| Retry.LongOutageResets | YoutubeDownload.py:117-120 | a connection failure spanning more than the interval resets `attempt` and the wait to 5 while `total_attempts` still counts it |
| Retry.NoAttemptsAllowed | YoutubeDownload.py:78-129 | with no attempt allowed the call goes straight to the prompt |
| Naming.LastIndex | YoutubeDownload.py:287 | the last occurrence of a character, or -1 |
| Naming.SplitExt | YoutubeDownload.py:287 | `splitext` splits the name into root and extension that concatenate back to it; the extension is empty or one dot-led final component |
| Naming.SplitExtOfTitle | YoutubeDownload.py:287 | a name `title.ext`, with no `.` or `/` in the extension and a title whose last component is not all dots, splits back into the title and `.ext` |
| Naming.CandidateInjective | YoutubeDownload.py:290 | different indices give different candidate names |
| Naming.LeastFreeFrom | YoutubeDownload.py:288-294 | the search from an index reaches a free candidate, and every candidate before it is taken |
| Naming.UniqueName | YoutubeDownload.py:286-294 | the name chosen is free, differs from the original, and is `root(i)ext` for the least free `i` from 1 |
| Naming.UniqueNameOfTitle | YoutubeDownload.py:286-294 | for such a name the chosen variant is `title(i).ext`: the number goes between the title and the extension |
| Naming.GetUniqueFilename | YoutubeDownload.py:286-294 | the loop returns exactly that least free candidate |
| FileSize.FormatFilesize | YoutubeDownload.py:67-71 | the unit is the first of B, KB, MB, GB, TB whose scaled amount is below 1024, and the amount is the size divided by that unit; from 1024^5 on the result is `None` |
| Sorting.Insert | YoutubeDownload.py:60 | insertion adds exactly one element |
| Sorting.SortBy | YoutubeDownload.py:60-63 | the sort is a permutation of its input |
| Sorting.SortByOrders | YoutubeDownload.py:60-63 | the sort's output is ascending in the key |
| Sorting.SortByStable | YoutubeDownload.py:60-63 | the sort is stable: elements sharing a key keep their input order |
| Catalog.ResolutionKey | YoutubeDownload.py:60 | the sort key `int(label.split('p')[0].strip())`, `None` for the ValueError; its contract is stated by `KeyBeforeP` and `KeyFromResolution` |
| Catalog.KeyBeforeP | YoutubeDownload.py:60 | the sort key is the signed integer the stripped text before the label's first `p` spells |
| Catalog.DashRejects | YoutubeDownload.py:56 | no integer contains the `" - "` that follows the resolution in a label |
| Catalog.KeyFromResolution | YoutubeDownload.py:56-60 | a label's key is determined by its resolution alone: the integer the stripped text before its first `p` spells, or none when it has no `p` |
| Catalog.Offered | YoutubeDownload.py:46-57 | the kept entries come from the input, each with a resolution and a size, each labelled from its own stream |
| Catalog.OfferedOne | YoutubeDownload.py:46-57 | a single stream is kept, with its label, exactly when it has a resolution and a size |
| Catalog.OfferedConcat | YoutubeDownload.py:45-57 | the kept entries of a concatenation are those of its parts, in turn: filtering keeps the input order |
| Catalog.UsableIsOffered | YoutubeDownload.py:46-57 | every stream with a resolution and a size is kept |
| Catalog.Ordered | YoutubeDownload.py:58-64 | the shown order: by resolution key when every label has one, else by the fallback rank; its contract is stated by `OrderedSpec` |
| Catalog.OrderedSpec | YoutubeDownload.py:58-64 | the shown list is a permutation of the kept entries. When every label has a number, it is ascending in that number; else the whole list is ascending in the fallback key. Ties keep their order |
| Catalog.CollectOffered | YoutubeDownload.py:45-57 | the filtering loop builds exactly the kept entries, in input order |
| Catalog.ListAvailableStreams | YoutubeDownload.py:44-64 | the returned list is the kept entries in the shown order |
| Catalog.OneBadLabelFallsBack | YoutubeDownload.py:58-64 | labels `1080p`, `bad`, `720p` make the whole list fall back to the fallback rank order |
| Catalog.ChoiceIndex | YoutubeDownload.py:277-280 | an accepted choice is a valid row index |
| Catalog.ChoiceIndexExactly | YoutubeDownload.py:277-280 | a line selects a row exactly when its stripped text is an optional sign and digits whose value is between 1 and the row count; a line `int` reads unstripped selects by that same value |
| Catalog.ChoiceOfListedNumber | YoutubeDownload.py:275-280 | the number printed beside a row selects that row |
| Catalog.GetUserChoice | YoutubeDownload.py:271-283 | the prompt returns the stream of the row named by the first line that names one; every earlier line was rejected; without such a line all input is consumed |
| Session.CodecFor | YoutubeDownload.py:210-219 | exactly mp4, webm and mkv have codecs: H.264 with AAC for mp4 and mkv, VP8 with Vorbis for webm |
| Session.AskOverwrite | YoutubeDownload.py:170-177 | the prompt consumes input and nothing else; an `s` gives the least free numbered variant |
| Session.AskOverwriteAnswers | YoutubeDownload.py:170-177 | the prompt is settled by the first `s` or `n` line, consuming all lines up to it; with none, all input is consumed and the prompt meets the end of input |
| Session.Confirm | YoutubeDownload.py:156-178 | a free name is used as it is; a confirmed name never names an existing file; only input is consumed |
| Session.EndingOf | YoutubeDownload.py:227-228 | an exception out of a download ends `download_video` as the exit exactly when it is the exit from answering `n`, which `except Exception` does not catch; any other is caught and logged as it is |
| Session.StreamDownload | YoutubeDownload.py:145-147 | a download is recorded as launched, leaves the temporary paths alone and never ends by running out of attempts |
| Session.DualTrack | YoutubeDownload.py:202-226 | the separate-audio path ends combined, unsupported, or by an exception from a download |
| Session.AfterVideo | YoutubeDownload.py:205-226 | after the video download, the path ends combined, unsupported, or by an exception |
| Session.AfterAudio | YoutubeDownload.py:209-226 | after the audio download, the path ends combined, unsupported, or by an exception |
| Session.AfterAudioCombines | YoutubeDownload.py:210-226 | the combiner is launched exactly when the audio download returned and the container has codecs, with those codecs; otherwise the state is unchanged |
| Session.DualTrackOrder | YoutubeDownload.py:202-209 | the temporary paths are set first, then the video is fetched. The audio is fetched whenever the video download returned, whatever it returned |
| Session.DualTrackLaunches | YoutubeDownload.py:205-225 | a combined session launched the video, the audio, then the combiner with the container's codecs, and nothing else |
| Session.DualTrackUnsupported | YoutubeDownload.py:205-219 | an unknown container still fetches the video and the audio, in order, and never launches the combiner |
| Session.VideoSession | YoutubeDownload.py:181-228 | `download_video`: its `Failed` ending carries only NameError or EOFError; a MIME type without `/` ends as `MalformedMime` (the IndexError of line 184, also caught and logged); the exit from `n` leaves it |
| Session.MalformedMimeFirst | YoutubeDownload.py:184 | a MIME type without `/` ends the call before anything happens; any other gets past that point |
| Session.ConfirmBeforeFetching | YoutubeDownload.py:185-191 | a declined or unanswered confirmation ends the call having only consumed input |
| Session.IntegratedShortCircuit | YoutubeDownload.py:193-196 | a stream with its own audio is fetched under the confirmed name alone; the audio stream is not consulted and no temporary path is set |
| Session.NoAudioNoFetch | YoutubeDownload.py:197-201 | without an audio stream nothing is fetched or written |
| Program.Downloader.constructor | YoutubeDownload.py:13 | a fresh process has no progress bar, no temporary paths and nothing sent |
| Program.Downloader.Send | YoutubeDownload.py:80-87 | the state after starting an attempt is `Begin` of the state before, and the reply is the oracle's for this request |
| Program.Downloader.Receive | YoutubeDownload.py:97-102 | writing the non-empty chunks gives the state `Append` computes |
| Program.Downloader.Recover | YoutubeDownload.py:109-127 | the handlers' in-place updates give the state and counters `AfterFault` computes |
| Program.Downloader.DownloadWithRetries | YoutubeDownload.py:74-129 | the loop ends in the state and outcome `Download` computes |
| Program.Downloader.HandleDownloadFailure | YoutubeDownload.py:132-142 | the prompt loop ends in the state and outcome `Escalate` computes |
| Program.Downloader.DownloadWithProgress | YoutubeDownload.py:145-147 | the launch ends as `StreamDownload` computes |
| Program.Downloader.ConfirmDownloadChoice | YoutubeDownload.py:156-178 | the confirmation ends as `Confirm` computes |
| Program.Downloader.DownloadVideo | YoutubeDownload.py:181-228 | `download_video` ends in the state and ending that `VideoSession` computes |
| Program.Downloader.DownloadSeparately | YoutubeDownload.py:202-206 | the separate-audio part ends as `DualTrack` computes |
| Program.Downloader.AudioAfterVideo | YoutubeDownload.py:207-209 | after the video download, it ends as `AfterVideo` computes |
| Program.Downloader.CombineAfterAudio | YoutubeDownload.py:210-226 | after the audio download, it ends as `AfterAudio` computes |

## Left out

- The HTTP transport (`requests.get`, `iter_content`) is an oracle: a reply per request number. Redirects, chunk sizes and connection reuse are not modelled.
- The clock is read through the oracle, and times are exact reals. `time.sleep` is recorded in a ghost trace, not performed.
- pytube is not modelled: `fetch_video_details`, `check_video_audio`, and the `filter`/`order_by`/`first` calls. The best audio stream is an input, and so is the text of each label after the resolution. The side-audio size in a label only changes that text.
- The moviepy combiner is external. Its launch and codec pair are recorded as an event; the output file it writes is not modelled.
- tqdm, logging and `print` are left out: they only display.
- FileSize.FormatFilesize: the `.2f` rendering of the amount is not modelled, only the amount and the unit.
- `main` and its `finally` cleanup of the temporary files are not part of this model. That cleanup can re-raise `OSError`.
- `os.path.join` and the output directory are left out: files are keyed by name within one folder.
- Naming.SplitExt follows the POSIX `os.path.splitext`. On Windows, `ntpath.splitext` also treats `\` as a separator and ignores a leading drive letter; that variant is not modelled.
- Text.ParseInt covers ASCII digits, an optional sign and the whitespace `int` skips. It does not cover underscores between digits or non-ASCII decimal digits, which Python's `int` also accepts.
- A MIME type without `/` makes `list_available_streams` raise IndexError at line 56, uncaught there. The text of a label after the resolution is an input to the model, so this failure is not modelled; `download_video` checks the same split itself (Session.MalformedMimeFirst).
- The fallback sort key is an abstract integer rank per stream. In Python, comparing the stream objects themselves may instead raise `TypeError`, which the source does not catch.
- `KeyboardInterrupt`, and exceptions raised by the combiner or the filesystem, are not modelled.
- Concurrency is not modelled: the program has none.
