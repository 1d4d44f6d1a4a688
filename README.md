# go-utils core, modelled in Dafny

This project models the core of the Go package `go-utils`:

- **Checkpointed producer-consumer runner** (`model/producerconsumer.go`): one producer fills a bounded buffer and `num` consumers drain it. On failure, each exit path proposes a *marker*, the position from which a later run should resume. The runner keeps the smallest one and writes it to a marker file only when it is set (non-zero).
- **Second runner** (`model/producerconsumer2.go`): has no marker. Its one-shot `fail` channel stops every goroutine, and `Run` reports the producer's error first, then the first consumer error by index.
- **`Speedometer`** (`tool/speedometer.go`): a progress counter with two independent report triggers, a count delta and elapsed seconds. It emits a final summary and renders durations with `humanTime`.
- **Slice predicates** (`slice.go`).
- **Base-10 / base-36 id conversion** (`number.go`): includes Go's `strconv.ParseUint`/`FormatInt` behaviour and the int64 wrap of large values.
- **Request-id decoder** (`reqid.go`): base64url (RFC 4648 section 5, padded) into a little-endian uint32 pid and a signed 64-bit nanosecond timestamp.

Files and modules:

- `wrappers.dfy` (`Wrappers`): `Option` and `Result`.
- `arith.dfy` (`Arith`): small nonlinear-arithmetic lemmas.
- `goint.dfy` (`GoInt`): Go's `byte`, the int64/uint64 reinterpretation and Go's truncating `/` and `%`.
- `strconv.dfy` (`Strconv`): Go's `ParseUint`, `FormatUint` and `FormatInt` for bases 2..36.
- `base64.dfy` (`Base64`): Go's `base64.URLEncoding.DecodeString`, with an encoder as its partner.
- `number.dfy` (`Number`), `slice.dfy` (`Slice`), `reqid.dfy` (`Reqid`): the three small source files.
- `speedometer.dfy` (`Tool`): the speedometer.
- `channel.dfy` (`Channel`): a `chan struct{}` used as a signal, which counts its `close` calls; a second close is where Go panics.
- `producerconsumer.dfy` (`ProducerConsumer`) and `producerconsumer2.dfy` (`ProducerConsumer2`): the two runners.

How the runners are modelled:

- The runners are classes. Each method is one step that one goroutine can take.
- A method's precondition is the channel state under which Go's `select` can take that branch. For example, a push needs room in the buffer, and a receive of "closed" needs a closed, drained buffer.
- The results of the user's `Produce`/`Consume` functions arrive as parameters.
- Ghost fields record what was pushed, what was received and which marker candidates were proposed. Class invariants (`Valid`) tie the real fields to them. For example, the marker is always the fold of the min rule over the proposals, and `stop` is closed iff some consumer failed.
- Time is a `now` parameter in Unix seconds.
- An entry of the first runner is an `Option<Entry>`, because `Produce` may return a nil `E` with a nil error. A nil entry is pushed and counted like any other, and it becomes the producer's last committed entry. `setMarker` ignores a nil entry, so a producer that exits after pushing one proposes nothing. A consumer whose `Consume` fails on one proposes nothing either.

Where the code's own comments promise more than the code does, the model follows the code:

- **The min rule.** The comment on `setMarker` (`model/producerconsumer.go:188`) says the smallest marker is kept. In the code that holds for every non-zero candidate, negative ones included. The one exception is `0`, which also means "unset". A candidate `0` puts an unset or positive marker back to unset, so the next candidate replaces it whatever its size; after a negative marker it is ignored like any larger candidate. A failure at position 0 is therefore never persisted once nothing follows it. `ProducerConsumer.MarkerIsMin` requires non-zero candidates, and `ProducerConsumer.ZeroCandidate` shows both behaviours of `0`.
- **Consumers after a failure.** The comment on `Run` (`model/producerconsumer.go:97`) says that when a consumer fails the producer exits at once and the other consumers process what remains in the buffer. In the code the producer's `select` may still take the send branch after `stop` is closed, so more entries can be pushed and consumed. `ProducerConsumer.ConsumeFailScenario` pushes entry 22 after `stop` closed, and consumer 1 still receives it (and fails on it too).

## Model

| member | source | states |
|---|---|---|
| Slice.IsSliceEqual | slice.go:4-16 | true iff both have the same length and agree at every index; a length mismatch returns before any element is compared; otherwise the scan stops at the first mismatch |
| Slice.ElementwiseEqualIsEquality | slice.go:4-16 | element-wise equality is exactly sequence equality, so it is reflexive and symmetric |
| Slice.ContainString | slice.go:21-28 | true iff `s` occurs in `m`; hence false for an empty `m` |
| Slice.EqualToLast | slice.go:32-37 | true iff `m` is non-empty and `s` is its last element; false for empty `m`; true implies `s` is in `m` |
| Strconv.ParseUintCorrect | number.go:10 | ParseUint succeeds iff the input is a non-empty digit string (either letter case) whose value fits the bit size; the result is that value; empty input is a syntax error, an all-digit input above the range a range error |
| Strconv.AccumulateCorrect | number.go:10 | Go's digit loop, with its cutoff test and the wrapped-addition test, accepts exactly the values up to the maximum and computes the positional value |
| Strconv.FormatUint | number.go:15 | the output is the canonical spelling in the base (lowercase digits, no leading zero, "0" for zero) and its value is the input |
| Strconv.FormatInt | number.go:25 | non-negative input gives the canonical spelling of its value; negative input gives '-' followed by the canonical spelling of its magnitude |
| Strconv.CanonicalUnique | number.go:15 | every canonical digit string is the FormatUint of its own value, so canonical spellings are unique |
| Strconv.ParseFormat | number.go:20 | parsing what FormatUint wrote gives back the value whenever it fits the bit size |
| GoInt.Int64 | number.go:15 | reinterpreting a uint64 as int64 keeps values below 2^63 and subtracts 2^64 from the others; the result is negative iff the input is at least 2^63 |
| GoInt.Rem | reqid.go:26 | Go's `%`: quotient times divisor plus remainder is the dividend, the remainder is smaller than the divisor in magnitude, and it takes the dividend's sign |
| GoInt.QuoRemUnique | reqid.go:26 | a quotient and remainder with those properties are Go's `/` and `%` |
| Number.ConvertTo36 | number.go:9-17 | fails, with an empty string, iff the input is not a non-empty decimal string of at most 2^32-1 (syntax error for empty input, range error above the range); otherwise the output is the canonical base-36 spelling of the same value |
| Number.ConvertTo10 | number.go:19-27 | fails, with an empty string, iff the input is not a non-empty base-36 string of at most 2^64-1; values below 2^63 come out as their canonical decimal, larger ones wrap through int64 and print as '-' and then 2^64 minus the value |
| Number.RoundTrip36 | number.go:9-27 | every id ConvertTo36 accepts comes back from ConvertTo10 as the canonical decimal of its value |
| Number.RoundTrip36Canonical | number.go:9-27 | a decimal id of at most 32 bits without leading zeros survives ConvertTo36 then ConvertTo10 unchanged |
| Number.RoundTrip10Canonical | number.go:9-27 | a canonical base-36 id of at most 32 bits survives ConvertTo10 then ConvertTo36 unchanged |
| Base64.DecodeString | reqid.go:15 | CR and LF are skipped; the decode succeeds iff what remains is well formed (whole groups of four URL-safe letters, with "=" or "==" only at the end of the last group); a successful decode returns three bytes per group, fewer in a padded last group |
| Base64.DecodeGroupsAccepts | reqid.go:15 | the group loop succeeds exactly on well-formed strings: a whole number of four-character groups, every character a URL-safe letter except a final "=" or "==" |
| Base64.PaddingBitsIgnored | reqid.go:15 | the decoder is not strict: "QR==" decodes to the same byte as its canonical spelling "QQ==", the encoding of that byte |
| Base64.EncodeToString | reqid.go:15 | the padded URL-safe encoding has four letters per started group of three bytes and no line breaks |
| Base64.RoundTrip | reqid.go:15 | decoding what the encoder wrote gives back the bytes |
| Reqid.Uint32 | reqid.go:24 | the little-endian value of four bytes, b[0] + 2^8 b[1] + 2^16 b[2] + 2^24 b[3], below 2^32 |
| Reqid.Uint64 | reqid.go:25 | the little-endian value of eight bytes, below 2^64 |
| Reqid.TopByteSign | reqid.go:25 | the 64-bit value is below 2^63 (non-negative as int64) iff its last byte is below 0x80 |
| Reqid.Unix | reqid.go:26 | time.Unix normalises the nanoseconds into [0, 1e9) and keeps the instant the same |
| Reqid.DecodeReqid | reqid.go:14-28 | undecodable base64 gives "base64 decode failed", a decoded length other than 12 gives "len(b) != 12", in both cases with pid 0 and the zero time; otherwise pid is below 2^32 and the time is normalised |
| Reqid.DecodeReqidFields | reqid.go:24-26 | on success the pid is the little-endian uint32 of bytes 0..3, the nanosecond count is the int64 of bytes 4..11 (negative iff byte 11 is at least 0x80), Go's truncated second and nanosecond split recombines to it, and the time is its floor split |
| Reqid.DecodeEncode | reqid.go:14-28 | decoding an id encoded from a pid below 2^32 and an int64 nanosecond count gives back that pid and the floor split of that count |
| Tool.HumanTime | tool/speedometer.go:144-161 | the loop's result is the duration in the largest of s, m, h, d it reaches, truncated, with '-' before a negative duration's magnitude |
| Tool.DivDiv | tool/speedometer.go:153-159 | dividing by 60 and then 60 (and 24) is dividing by their product, and the first quotient is below the next ratio iff the duration is below the next unit |
| Tool.HumanTimeNegative | tool/speedometer.go:146-149 | a negative duration renders as '-' followed by the rendering of its magnitude |
| Tool.HumanTimeOneDay | tool/speedometer_test.go:59 | 86400 seconds render as "1d" |
| Tool.Join | tool/speedometer.go:163-166 | the field is the key, ": ", the value and ", ", in that order |
| Tool.JoinKeyRecoverable | tool/speedometer.go:163-166 | when the key has no ':', the first ':' of the field ends the key |
| Tool.Speedometer.constructor | tool/speedometer.go:47-59 | copies total, processedBefore and both intervals; nothing processed; start and last report at `now`; no reports |
| Tool.Speedometer.Simple | tool/speedometer.go:35-44 | only the time interval is set; total, processedBefore and the count interval are zero |
| Tool.Speedometer.ProcessingStatics | tool/speedometer.go:67-88 | appends one report: the count; when time has passed, the truncated speed; with a total, the time left as humanTime of left items times elapsed over processed |
| Tool.Report | tool/speedometer.go:75-86 | the report carries the processed count; it has a speed exactly when time has passed, and the speed is processed over elapsed seconds truncated toward zero; it has a time left exactly when time has passed and the total is known, and that is humanTime of the items still left times elapsed over processed, truncated |
| Tool.ComputeReport | tool/speedometer.go:75-86 | the step-by-step body of processingStatics yields `Report` for its count, elapsed time, total and earlier count |
| Tool.Speedometer.OutputCheck | tool/speedometer.go:109-119 | the count trigger and the time trigger are checked independently; each fires iff its interval is non-zero and reached, moves only its own mark and appends one report |
| Tool.Speedometer.Start | tool/speedometer.go:122-124 | only startTime changes |
| Tool.Speedometer.Increase | tool/speedometer.go:127-130 | processed grows by exactly one, then the trigger rules apply; lastOutputNum <= processed is kept |
| Tool.Speedometer.IncreaseN | tool/speedometer.go:133-136 | processed grows by exactly n, then the trigger rules apply; for n >= 0, lastOutputNum <= processed is kept |
| Tool.Speedometer.Close | tool/speedometer.go:91-107 | the summary total is processed plus processedBefore, the use time is humanTime of the elapsed seconds, and a speed is given iff time has passed, as processed over elapsed truncated |
| Tool.CountTriggerScenario | tool/speedometer_test.go:46-56 | with a count interval of 100, 1000 increments write exactly ten reports |
| Channel.Signal.Close | model/producerconsumer.go:239 | `close` marks the channel closed and counts one more close |
| ProducerConsumer.SafeClose | model/producerconsumer.go:235-241 | afterwards the channel is closed; it is closed by this call iff it was open when the call began, so calls that run one after another close it once |
| ProducerConsumer.SafeCloseTwice | model/producerconsumer.go:235-241 | two safeClose calls on a fresh channel close it exactly once |
| ProducerConsumer.NewProducerConsumerRunner | model/producerconsumer.go:70-91 | a consumer count below one gives the error and no runner; otherwise a runner with the config's count, outStop and marker path, marker 0, an empty open buffer and every goroutine running, and a speedometer with the config's total, processedBefore and both intervals, nothing counted, no reports, and start and last report time at `now` |
| ProducerConsumer.ProducerConsumerRunner.constructor | model/producerconsumer.go:76-90 | count, outStop and marker path from the config; marker 0, an empty open buffer, no last entry, every goroutine running; a fresh stop channel; a fresh speedometer with the config's total, processedBefore and both intervals, nothing counted, no reports, and start and last report time at `now` |
| ProducerConsumer.Adopt | model/producerconsumer.go:200-202 | the new marker is the candidate or the old marker, and a set marker never grows |
| ProducerConsumer.Proposal | model/producerconsumer.go:189-199 | a nil entry offers no candidate; any other entry offers exactly one, its next marker when asked and its own marker otherwise |
| ProducerConsumer.MarkerIsMin | model/producerconsumer.go:188-204 | for non-zero candidates, negative ones included, the marker is unset iff nothing was proposed, and otherwise is one of the candidates and no larger than any of them |
| ProducerConsumer.ZeroCandidate | model/producerconsumer.go:200-202 | for any earlier proposals: when the marker is unset or positive, a candidate 0 makes it unset and any candidate after that becomes the marker whatever its size; when the marker is negative, a candidate 0 leaves it unchanged |
| ProducerConsumer.MarkerNeverIncreases | model/producerconsumer.go:200-202 | once set, further non-zero candidates never make the marker larger or unset |
| ProducerConsumer.ProducerConsumerRunner.SetMarker | model/producerconsumer.go:189-204 | a missing entry changes nothing; otherwise the candidate (next marker when asked, own marker otherwise) is adopted iff the marker is unset or the candidate is smaller |
| ProducerConsumer.ProducerConsumerRunner.Push | model/producerconsumer.go:158-162 | the entry, nil or not, joins the buffer and becomes the last committed entry; the speedometer counts exactly one and then applies Increase's trigger rules (each due trigger moves its own mark and appends one report), and its total, start time and intervals are untouched; the marker is untouched |
| ProducerConsumer.ProducerConsumerRunner.ProduceErr | model/producerconsumer.go:135-145 | ErrFinished proposes nothing; any other error proposes the next marker of the last pushed entry, or nothing when none was pushed or it was nil; the buffer is closed either way |
| ProducerConsumer.ProducerConsumerRunner.ProducerStopped | model/producerconsumer.go:147-157 | when outStop or stop is closed, the producer proposes the next marker of the last pushed entry, if there is one and it is not nil, and closes the buffer |
| ProducerConsumer.ProducerConsumerRunner.ConsumeOk | model/producerconsumer.go:171-184 | the oldest buffered entry is received and nothing else changes |
| ProducerConsumer.ProducerConsumerRunner.ConsumeFail | model/producerconsumer.go:177-183 | the oldest buffered entry is received, its own marker (nothing for a nil entry) is proposed and combined by the min rule, stop is closed exactly once overall, and this consumer becomes Failed |
| ProducerConsumer.ProducerConsumerRunner.ConsumerExit | model/producerconsumer.go:171-176 | a consumer exits normally only from a closed, drained buffer |
| ProducerConsumer.ProducerConsumerRunner.Finish | model/producerconsumer.go:117-126 | the marker is recorded iff it is set and written, as its decimal, iff also a path is given; the summary counts every pushed entry, its use time is humanTime of the time since the speedometer's start, and it has a speed, pushed entries over elapsed seconds truncated, iff time has passed; unless every consumer failed, every pushed entry was received |
| ProducerConsumer.ProduceFailScenario | model/producerconsumer_test.go:128-136 | a producer failing after entries 1..20 leaves marker 21 and writes "21" |
| ProducerConsumer.ConsumeFailScenario | model/producerconsumer_test.go:144-153 | a consumer failing on entry 21, with the producer stopping after 22 and the other consumer failing on 22, leaves marker 21, writes "21" and counts 22 entries |
| ProducerConsumer.NilEntryScenario | model/producerconsumer.go:135-162 | when a nil entry is the last one pushed before Produce fails, the producer proposes nothing, so no marker is recorded or written |
| ProducerConsumer.FinishScenario | model/producerconsumer_test.go:118-126 | entries 1..40 then ErrFinished leave the marker unset, write nothing and count 40; with no time passed since the start the summary has no speed |
| ProducerConsumer2.NewProducerConsumer | model/producerconsumer2.go:32-51 | a consumer count below one gives the error and no runner; otherwise a runner with that count, an empty open buffer and every goroutine running |
| ProducerConsumer2.ProducerConsumer.constructor | model/producerconsumer2.go:39-50 | the fields as built, with a fresh fail channel and no errors |
| ProducerConsumer2.ProducerConsumer.BufferStatus | model/producerconsumer2.go:54-56 | the number of buffered entries, never above the capacity |
| ProducerConsumer2.CloseChanSafely | model/producerconsumer2.go:138-144 | afterwards the channel is closed; it is closed by this call iff it was open |
| ProducerConsumer2.PickError | model/producerconsumer2.go:78-88 | the producer's error if there is one; otherwise the first consumer error by index; nil iff there is none |
| ProducerConsumer2.ProducerConsumer.Wait | model/producerconsumer2.go:76-88 | after all goroutines return, the error is picked as above, and a nil result means fail never fired and every pushed entry was received |
| ProducerConsumer2.ProducerConsumer.ProduceErr | model/producerconsumer2.go:93-104 | ErrFinished closes the buffer and the producer returns nil; another error fires fail, leaves the buffer open and is returned; the buffer contents, the histories and the consumers are untouched |
| ProducerConsumer2.ProducerConsumer.Push | model/producerconsumer2.go:110-112 | the entry joins the buffer, which has room, and the history of pushed entries; nothing else changes |
| ProducerConsumer2.ProducerConsumer.ProducerSeesFail | model/producerconsumer2.go:107-109 | seeing fail, the producer returns nil and leaves the buffer open; only producerDone changes |
| ProducerConsumer2.ProducerConsumer.ConsumerSeesFail | model/producerconsumer2.go:119-121 | seeing fail, the consumer returns nil; only its done flag changes |
| ProducerConsumer2.ProducerConsumer.ConsumerSeesClosed | model/producerconsumer2.go:122-126 | from a closed, drained buffer, the consumer returns nil; only its done flag changes |
| ProducerConsumer2.ProducerConsumer.ConsumeOk | model/producerconsumer2.go:128-134 | the oldest buffered entry is received and nothing else changes |
| ProducerConsumer2.ProducerConsumer.ConsumeFailed | model/producerconsumer2.go:128-133 | the oldest buffered entry is received, the consume error fires fail and becomes this consumer's result; the producer's state, the buffer's open flag and the pushed history are untouched |
| ProducerConsumer2.ConsumeFailScenario | model/producerconsumer2.go:78-88 | when consumer 1 fails while an entry is still buffered and the others then see fail, Run returns that consumer's error |

## Left out

- Logging: every `xl.Info`/`Error`/`Debug` call and `output`. The report text that `processingStatics` and `overallStatics` build is represented by the `Progress` and `Summary` values of what they report.
- `recordMarker`'s file operations: checking that the file exists, renaming it to `.backup`, creating it and writing it. This is filesystem I/O. `Finish` returns the decimal text that would be written, and only the decision of whether to write.
- Goroutines, the `WaitGroup` and the scheduler's choice among ready `select` branches. Which steps happen in which order is the caller's choice of methods. Deadlock and termination of `Run` are not modelled.
- The user's Produce and Consume functions belong to the caller. Their results are the parameters of the step methods.
- `time.Now()`: the clock is the `now` parameter. Go reads the clock up to four times in one `outputCheck`; the model uses one instant per call.
- Tool.Speedometer.ProcessingStatics: requires `processed != 0` whenever a total is set and time has passed, because Go's division by `processed` there would panic on zero. `Increase` and `IncreaseN` pass this requirement on.
- Tool.HumanTimeOf: integers are unbounded, so the int64 overflow of negating the minimum int64 in `humanTime` is not modelled. Overflow of the speedometer's int64 counters is not modelled either.
- Tool.Speedometer.Close: Go's `Close` always returns a nil error; the model returns only the summary.
- Strconv.ParseUint: only the bit sizes 32 and 64 are modelled, which are the ones `number.go` uses.
- Strconv.ParseUint: the error value's text, function name and input are not modelled; only which of ErrSyntax or ErrRange it is.
- The `String()` method of the `E` interface is used only for logging, so `Entry` leaves it out.
- The logger parameters of `ConvertTo36`, `ConvertTo10` and the runners are used only for logging.
- ProducerConsumer.MarkerIsMin: states the minimum only for non-zero candidates, because a candidate 0 puts an unset or positive marker back to unset and the next candidate then replaces it (after a negative marker, 0 is ignored like any larger candidate).
- ProducerConsumer.SafeClose and ProducerConsumer2.CloseChanSafely: the receive check and the `close` are one atomic step here. In Go two goroutines can both take `default` before either closes, and then the second `close` panics. That interleaving is not modelled, so the model cannot show the panic.
- Reqid.DecodeReqid: the returned time is only its instant (seconds and nanoseconds); the Local location that Go's `time.Unix` attaches is not modelled, because it depends on the machine's time zone setting.
- Reqid.DecodeReqid: the error is modelled by its message, not by `errors.WithMessage` wrapping of `errInvalidArgs`.
- file.go, crc32util.go, error.go, output.go and time.go are not part of this model. They are filesystem I/O, checksums over files, JSON output and local-time formatting.
