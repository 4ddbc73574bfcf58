# Bitrate comparison player: download, progress and decode core

This project models the acquisition core of a browser tool that compares
one audio track encoded at ten Opus bitrates. For every bitrate the page
fetches a file, wraps the response so that each chunk of the body is
reported to a shared progress accumulator, decodes the file into left and
right sample channels, and finally hands every channel to a real-time
audio worklet. Everything modelled lives in `js/index.js`.

The model has four parts:

- `Config`: the `BITRATES` list (ten values, listed ascending and then reversed).
- `Progress`: the `ProgressManager` accumulator. The module holds its state
  as a `Counters` value, the functions `Registered`, `Reported` and `Updated`
  for what each call does, and `Run` for a whole sequence of calls. The class
  `ProgressManager` is the mutable object, and its methods are proved against
  those functions. Progress is computed in exact `real` arithmetic.
- `Download`: `downloadProgressResponse`. This covers the pure status, body
  and size-header checks (`CheckResponse`), the registration of the parsed
  size (`DownloadProgressResponse`), and the `read()` loop (`ReadLoop`). The
  loop pumps the source body into a `StreamController`.
  `Decimal` holds the two conversions the wrapper depends on: `String(status)`
  and `parseInt(s, 10)`.
- `Acquisition`: `fetchAndDecode`. Each bitrate's work is the function
  `FileTask`, and the decoder is a function parameter. The method
  `FetchAndDecode` builds the tasks, and `Collect` (the `Promise.all`) takes
  their outcomes in a given completion order. It fills result slots by
  bitrate index and pushes the channel copies in completion order.

## Behaviour as written

The model follows the code as written, including:

- The read loop passes the running total `bytesDownloaded` to `report`, and
  `report` adds it to `totalDownloaded` (js/index.js:195-196, 231). So one
  body raises `totalDownloaded` by the sum of its running totals, not by its
  length. `ReadLoopAddsRunningTotals` proves this. `TwoChunksAdd150` shows
  that a 100-byte file read as two 50-byte chunks counts 150 bytes. No claim
  is made that the fraction stays at or below 1, or that it reaches 1.
- Nothing calls `report` with `decoded`, so `totalDecoded` stays 0 during
  downloads (`ReadLoopAddsRunningTotals`: the loop's reports add no decodes).
- `updateUI` has no guard of its own against dividing by a zero byte total,
  and `register` calls `updateUI` itself (js/index.js:227). The division at
  js/index.js:239 is safe only when every registered size is a positive
  number. The code does not ensure that:
  - A first size of 0 makes `0 / 0`, so `lastTotalProgress` becomes `NaN`
    until a later call computes a number.
  - `parseInt` gives `NaN` for a size header without digits. Then the byte
    total is `NaN`, every later `totalProgress` is `NaN`, and
    `totalProgress < lastTotalProgress` (js/index.js:243) is always false.
    So `lastTotalProgress` stays `NaN` for good.
  - `parseInt("-5")` is -5, so a negative size lowers the byte total.
  The model requires a positive size for every registration (`Allowed`,
  `ProgressManager.Register`, `Download.HasPositiveSize`) and a prior
  registration for every report (`Allowed`, `Admissible`). It does not
  cover zero, `NaN` or negative sizes.
- The accumulator is one page-wide object (js/index.js:212). It is never
  reset when another folder is chosen, so its counters keep growing across
  folder changes. The model does not add a reset.
- `decoderWeight` is `1 - 0.8` (js/index.js:214). In exact arithmetic that is
  0.2; in binary floating point it is 0.19999999999999996.
- A `content-encoding` header whose value is the empty string counts as
  absent, because `''` is falsy. In that case `content-length` is read.

## Model

| member | source | states |
|---|---|---|
| Config.Reverse | js/index.js:1 | `.reverse()` moves element `i` to position `n - 1 - i` and keeps the length |
| Config.BitratesDescending | js/index.js:1 | `BITRATES` has ten entries, strictly descending from 512 to 2 |
| Decimal.DecimalString | js/index.js:164 | the status number is written as a non-empty string of decimal digits |
| Decimal.ParseInt | js/index.js:177 | `parseInt(s, 10)` of empty text is NaN, and a negative result needs a minus sign after the leading white space |
| Decimal.ParseIntOfDecimal | js/index.js:177 | `parseInt(s, 10)` reads back any decimal number, ignoring trailing text that does not start with a digit |
| Decimal.ParseIntNegative | js/index.js:177 | `parseInt` skips leading white space and honours a minus sign |
| Decimal.ParseIntEmpty | js/index.js:177 | a value with no digits (empty, blank, letters) parses to NaN |
| Decimal.ParseIntOfNonDigit | js/index.js:177 | text that starts with neither white space, a sign nor a digit parses to NaN |
| Progress.Start | js/index.js:217-222 | the accumulator starts with all counters and the accepted fraction at 0, expecting `BITRATES.length` = 10 files |
| Progress.ComputedProgress | js/index.js:237-241 | the weighted fraction is never negative, and is 0 while no file has registered |
| Progress.Updated | js/index.js:243-245 | the accepted fraction becomes the larger of the old value and the computed one; nothing else changes |
| Progress.Registered | js/index.js:224-228 | `register` adds the size to the byte total and one to the registered count, leaves the other counters alone, and never lowers the accepted fraction |
| Progress.Reported | js/index.js:230-234 | `report` adds `bytesDownloaded` and `decoded` (absent fields as 0), leaves the other counters alone, and never lowers the accepted fraction |
| Progress.Run | js/index.js:224-245 | any admissible sequence of calls keeps the accumulator valid and its expected file count fixed |
| Progress.RunConcat | js/index.js:224-234 | running two call sequences one after the other equals running their concatenation |
| Progress.ProgressNeverDecreases | js/index.js:243-245 | over any admissible sequence of `register`/`report` calls, the accepted fraction after a later prefix is at least that after an earlier one |
| Progress.RunTotals | js/index.js:224-234 | after a sequence of calls, each counter equals its start plus the sizes, registrations, bytes and decodes the calls carried |
| Progress.ProgressComplete | js/index.js:237-241 | with every file registered, downloaded and decoded exactly, the computed fraction is 1 |
| Progress.ProgressAtMostOne | js/index.js:237-241 | while no counter exceeds its expected total, the computed fraction is at most 1 |
| Progress.ReportsRaiseProgress | js/index.js:237-241 | with sizes and registrations fixed, more bytes or decodes never lower the computed fraction |
| Progress.RegistrationCanLowerProgress | js/index.js:243 | registering a larger file can lower the computed fraction (0.08 to about 0.0145); the guard keeps 0.08 |
| Progress.ProgressManager.constructor | js/index.js:212-222 | a fresh object is in the start state |
| Progress.ProgressManager.Register | js/index.js:224-228 | the object's new state is `Registered` of its old state |
| Progress.ProgressManager.Report | js/index.js:230-234 | the object's new state is `Reported` of its old state |
| Progress.ProgressManager.UpdateUI | js/index.js:236-246 | the object's new state is `Updated` of its old state: only `lastTotalProgress` may change |
| Download.Message | js/index.js:163-174 | the status error's message reads back under `parseInt` as the status and ends with a space and the status text; the two fixed messages read as NaN |
| Download.SizeHeaderName | js/index.js:171-172 | the size header is `x-file-size` exactly when a non-empty `content-encoding` is present, else `content-length` |
| Download.CheckResponse | js/index.js:162-175 | a non-ok status fails with status and status text; otherwise a missing body fails; otherwise a missing size header fails; otherwise the size header's text is returned |
| Download.DownloadProgressResponse | js/index.js:162-180 | every failed check throws that check's error and leaves the accumulator untouched; success registers the parsed size exactly once |
| Download.DeclaredSizeOfDecimal | js/index.js:171-177 | a size header holding a positive decimal number, optionally followed by text that does not start with a digit, registers exactly that number |
| Download.StreamController.Enqueue | js/index.js:197 | enqueueing appends the chunk to the stream's queue |
| Download.StreamController.Close | js/index.js:191-193 | closing ends the stream and keeps the queue |
| Download.StreamController.Error | js/index.js:199-202 | erroring ends the stream with the reason and keeps the queue |
| Download.CumulativeReports | js/index.js:195-196 | the loop makes one report per chunk, none with a `decoded` field |
| Download.CumulativeReportsAt | js/index.js:195-196 | the `k`-th report carries the total length of the first `k + 1` chunks as `bytesDownloaded`: the running total, not the chunk's own length |
| Download.ReadLoop | js/index.js:184-203 | every chunk is forwarded unchanged and in order; the running total equals the bytes read; the bytes joined from the queue are the bytes joined before plus the body's bytes; the stream closes on `done` and errors on a failed read; the accumulator ends in the state the running-total reports produce |
| Download.DownloadWithProgress | js/index.js:162-209 | one download is one registration followed by the running-total reports; a failed check makes no call and builds no stream |
| Download.ReadLoopAddsRunningTotals | js/index.js:195-196 | the loop's reports add the sum of the running totals to `totalDownloaded`, and add no registration, size or decode |
| Download.RunningTotalsCoverLength | js/index.js:195-196 | the sum of the running totals is at least the body length |
| Download.TwoChunksOvercount | js/index.js:195-196 | two 50-byte chunks make a 100-byte body whose running totals sum to 150 |
| Download.TwoChunksAdd150 | js/index.js:195-196 | after a registration, two 50-byte chunks add 150 to the downloaded counter and nothing to the byte total |
| Download.ReportsAdmissible | js/index.js:180 | once a file has registered, all of its reports are allowed and leave the registered count unchanged |
| Acquisition.ChannelPair | js/index.js:95-98 | left is channel 0; right is channel 1 when there are two or more channels, and left itself for a mono file; no channel at all is an error |
| Acquisition.FileTask | js/index.js:90-101 | a successful task's entry carries the bitrate it was started for |
| Acquisition.FileTaskSteps | js/index.js:91-101 | a task fails with the error of the first failing step: the fetch's reason, the check's message, the read's reason, the decoder's error, or `IndexSizeError` for audio without channels; on success it read the whole body, decoded it, and carries the `content-length` text and the chosen channels |
| Acquisition.MonoFileSharesChannel | js/index.js:95-98 | for a file decoded to a single channel, the entry's right channel is its left channel |
| Acquisition.CompletionBuffers | js/index.js:100 | `buffers` holds two entries per finished file |
| Acquisition.CompletionBuffersAt | js/index.js:100 | entries `2k` and `2k + 1` of `buffers` are the left and right channels of the `k`-th file to finish |
| Acquisition.Collect | js/index.js:90-102 | `Promise.all` over the outcomes succeeds exactly when every task does; on failure it gives the first failure in finishing order; on success `files[i]` is task `i`'s entry and `buffers` lists two channels per file in finishing order |
| Acquisition.FetchAndDecode | js/index.js:88-105 | the call succeeds exactly when every file does; on failure it reports the first failure in finishing order; on success `files[i]` is bitrate `i`'s entry whatever the finishing order, and `buffers` has `2 * n` entries in finishing order |

## Left out

- DOM and UI: `showError`, `showWarning`, `initDropdown`, `initDOM` and its `fileSize` formatter (js/index.js:8-57, 107-147). These are presentation only.
- The deferred `requestAnimationFrame` render of `Math.floor(totalProgress * 100)` (js/index.js:247-249). This is float-to-text output; only the accepted `lastTotalProgress` is modelled.
- Web Audio: `AudioContext`, `initAudioWorklet`, the worklet itself, `postMessage` with transfer, and `setValueAtTime` (js/index.js:75-86, 149-160). These are browser APIs. Decoding is a function parameter (`Acquisition.Decoder`).
- `init`'s `.catch(showError)` (js/index.js:78-81) resolves to `undefined`, which the destructuring then fails on. This is glue code outside the core.
- Network I/O: `fetch`, `fetchFolders`, `response.json()` and `arrayBuffer()` (js/index.js:59-65, 91-94). Each file's network outcome is an input (`Acquisition.Exchange`). `arrayBuffer()` is the concatenation of the body's chunks.
- Concurrency of `Promise.all` and of the asynchronous `read()` calls. Only the outcome of one finishing order is modelled. A read failure is modelled after the chunks that were read before it.
- Acquisition.FetchAndDecode: does not model the accumulator calls that each file's download makes. Those are modelled per file by `Download.DownloadWithProgress`.
- Acquisition.FetchAndDecode: `.slice().buffer` copies and `pcmRight` aliasing `pcmLeft` are represented as equal sequence values. Object identity and the later transfer of ownership are not modelled.
- JavaScript numbers: NaN, infinities and IEEE rounding. Counters are unbounded naturals and the fraction is an exact real.
- Progress.ProgressManager.Register: requires a positive size. The code also accepts 0, `NaN` and negative numbers from `parseInt`, with the effects listed under "Behaviour as written". The counters are naturals and cannot hold a negative size. `Download.HasPositiveSize` states the same requirement for a response.
- Progress.ProgressManager.Report: requires at least one prior registration, so the byte total is never zero. Each file registers before it reports.
- Header lookup is by lower-case name. Case-insensitive matching and the joining of repeated headers by `Headers.get` are not modelled.
- Errors thrown inside the `read()` continuation (`controller.enqueue` on a cancelled stream) also reach the `.catch`. They are not modelled, and neither is consumer cancellation.
- `https_server.py` is not part of this model. It is TLS and directory-listing plumbing.
