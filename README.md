# Ryzen telemetry bridge: a Dafny model

This project models the core of a Windows tool chain that reads AMD Ryzen CPU
telemetry through the Ryzen Master Monitoring SDK and passes it on. It covers
the following parts:

- **Shared-memory telemetry channel** (`src/telemetry.cpp`). One owning process
  writes a seqlock-protected record into a named file mapping; any process reads
  it. Ownership is arbitrated by a named mutex, and a named event tells readers
  that the background service is running. `rm_monitor_init` runs the SDK's
  preconditions in a fixed order.
- **Taskbar plugin** (`tm_plugin/RyzenTMPlugin.cpp`). On every tick it prefers
  the service's published values, otherwise tries to become the SDK owner, reads
  the SDK and publishes. It falls back to cached text for a grace period, then to
  "N/A".
- **Rust service/CLI** (`rust/src/main.rs`). Builds the 64-byte status and init
  frames for a Deepcool USB display, retries SDK reads, polls the service state,
  and builds the service command line.
- **C++ sample application** (`src/sampleApp.cpp`). Streams telemetry to the same
  display with its own encoder, a retry lambda and a loop that gives the device up
  after a failed write.
- **LD-device sender** (`rust/src/ld_device.rs`). Argument parsing with the
  standard library's integer parsing rules, the hex payload reader, the 65-byte
  output report and the 12-byte metrics payload.
- **Small helpers.** The SDK path holder and driver path (`src/Utility.cpp`), and
  the console monitor's field formatter and line choice
  (`rmmon_console/src/main.rs`).

Modules follow the sources:

| module | file | source |
|---|---|---|
| `Telemetry` | telemetry.dfy | src/telemetry.cpp |
| `RyzenTMPlugin` | ryzen_tm_plugin.dfy | tm_plugin/RyzenTMPlugin.cpp |
| `MonitorService` | monitor_service.dfy | rust/src/main.rs |
| `SampleApp` | sample_app.dfy | src/sampleApp.cpp |
| `LdDevice` | ld_device.dfy | rust/src/ld_device.rs |
| `Utility` | utility.dfy | src/Utility.cpp |
| `RmmonConsole` | rmmon_console.dfy | rmmon_console/src/main.rs |

Shared modules:

- `BoundedInts`: the fixed-width integers, with wrap-around, reinterpreting casts
  and clamping written out.
- `Wrappers`: `Option` and `Result`.
- `Text`: decimal formatting and parsing, zero padding and UTF-16.
- `DeepcoolFrame`: the single description of the display's frame layout, which
  both encoders are proved to fill.

### How the environment appears

Parts of the environment the model cannot see are passed in as parameters:

- The clock (`GetTickCount64`) is a `now` argument: one value per plugin tick, and
  one per read.
- HID writes are booleans.
- SDK reads are oracles such as `nat -> bool` or `nat -> Result<…>`, indexed by
  attempt number.
- The seqlock reader's view of a concurrent writer is an `Attempt(seq1, copy,
  seq2)` for each of the three tries.

Operating-system objects are fields of one `Telemetry.Host` object: the file
mapping, the owner mutex with its owner and abandoned flag, the service event's
handle count, and each process's statics. Each exported `rm_ipc_*` function is a
method on that object for a given process id; `rm_monitor_init`, which touches none
of them, is the function `Telemetry.MonitorInit` of the environment's answers.

`f32`/`double` values are never computed with. They are carried as their bit
patterns: `Double(bits: bv64)`, and the `uint32` from `to_bits`.

### Where the model follows the code rather than its description

- A `max_age_ms` of 0 turns the age check off, so the read is OK (`Telemetry.StaleExactly`).
- The plugin's cache window is inclusive at both ends: `last_update_ms_ <= now <= last_update_ms_ + max_age`.
- `parse_payload_hex` checks the size limit before the empty case. The two checks cannot both hold, so their order does not change any result.

## Model

| member | source | states |
|---|---|---|
| Telemetry.Increment | src/telemetry.cpp:705-714 | `InterlockedIncrement` on the 32-bit `seq` wraps modulo 2^32 and flips its parity |
| Telemetry.SharedRecord.Zeroed | src/telemetry.cpp:657-663 | a new mapping's record reads as all zeros |
| Telemetry.SharedRecord.ZeroAndStamp | src/telemetry.cpp:680-685 | the creator leaves the record zeroed except version 1 and size 64 |
| Telemetry.SharedRecord.Publish | src/telemetry.cpp:705-714 | publishing writes exactly `Published(old record, …)`: seq +2, header stamped, status, timestamp, values and writer pid set |
| Telemetry.PublishKeepsSeqEven | src/telemetry.cpp:705-714 | a publish from an even `seq` ends even and exactly 2 further on (mod 2^32), and sets every field it names |
| Telemetry.NullValuePointerIsError | src/telemetry.cpp:726-729 | a null value pointer gives IPC_ERROR with nothing written, whatever the shared state |
| Telemetry.OutputOnlyOnOk | src/telemetry.cpp:779-787 | outputs are written exactly on IPC_OK, and the status exactly when its pointer is non-null |
| Telemetry.HeaderMismatchNotReady | src/telemetry.cpp:737-740 | a wrong version or size stamp gives NOT_READY |
| Telemetry.CopyIsInitialOrObserved | src/telemetry.cpp:742-762 | the written loop hands on the zeroed snapshot or a copy taken after an even `seq1` |
| Telemetry.SeqlockCopy | src/telemetry.cpp:742-762 | the retry loop exactly as written; no ensures of its own: its behaviour is stated by `CopyIsInitialOrObserved`, `FirstStableAttemptWins` and `TornCopyReturnedAsOk` |
| Telemetry.ReadOutcomeAsWritten | src/telemetry.cpp:742-787 | the read after the mapping, with the loop as written; no ensures of its own: `TornCopyReturnedAsOk` shows it returning a torn copy as IPC_OK, `UnpublishedIsNotReady` its NOT_READY case |
| Telemetry.UnpublishedIsNotReady | src/telemetry.cpp:764-767 | if no copy was ever published (timestamp 0), the read is NOT_READY, in both the written and the corrected loop |
| Telemetry.FreshRecordNotReady | src/telemetry.cpp:680-767 | reading a freshly created record before any publish gives NOT_READY |
| Telemetry.FirstStableAttemptWins | src/telemetry.cpp:743-757 | the first attempt with `seq1 == seq2` even ends the loop with its copy |
| Telemetry.TornThirdAttemptNotReady | src/telemetry.cpp:753-761 | two unstable attempts, then an even but changed `seq` on the third, give NOT_READY |
| Telemetry.StaleExactly | src/telemetry.cpp:769-787 | STALE exactly when `max_age > 0`, `now >= timestamp` and the age exceeds the limit; otherwise OK with the snapshot's values and status |
| Telemetry.PublishThenRead | src/telemetry.cpp:697-788 | a reader after a complete publish, with no writer active, gets back exactly the published values and status |
| Telemetry.TornCopyReturnedAsOk | src/telemetry.cpp:743-767 | as written, three unstable attempts can return a torn copy as IPC_OK; the corrected loop says NOT_READY |
| Telemetry.SeqlockCopyFixed | src/telemetry.cpp:743-762 | the corrected loop returns a copy only from a stable attempt, and None only when no attempt was stable |
| Telemetry.FixedAgreesWhenSomeAttemptStable | src/telemetry.cpp:743-762 | the corrected loop and the written one agree whenever some attempt is stable |
| Telemetry.MonitorInit | src/telemetry.cpp:486-531 | a context is handed out exactly when the status is OK |
| Telemetry.MonitorInitFirstFailure | src/telemetry.cpp:486-531 | the status is that of the first failing check in call order, and OK exactly when every check passes |
| Telemetry.EventExistsIffHolder | src/telemetry.cpp:819-828 | the service event's handle count is positive exactly when some process holds a handle |
| Telemetry.AtMostOneHolder | src/telemetry.cpp:843-848 | with one OS owner of the mutex, at most one process has `g_ipc_owner_held` set |
| Telemetry.Host.constructor | src/telemetry.cpp:596-598 | nothing exists before the first process: no mapping, a free mutex, no event handles |
| Telemetry.Host.Spawn | src/telemetry.cpp:596-598 | a new process starts with all its statics null or false |
| Telemetry.Host.Exit | src/telemetry.cpp:843-849 | a process exiting while holding the mutex leaves it free and abandoned; its event handle goes away |
| Telemetry.Host.GetSharedTelemetry | src/telemetry.cpp:647-688 | returns the cached view; otherwise maps the record, and the creator zeroes and stamps it; a failure leaves nothing cached |
| Telemetry.Host.Publish | src/telemetry.cpp:697-717 | IPC_ERROR without a mapping, leaving the segment as it was; otherwise the record becomes `Published(…)` with this process's pid; only this process's `mapped` flag can change, and the mutex and event are untouched |
| Telemetry.Host.Read | src/telemetry.cpp:719-788 | the result and the outputs are `ReadOutcome` of what the reader observes, with the retry loop corrected; the record is never written, only this process's `mapped` flag can change (as GetSharedTelemetry's outcome), and the mutex and event are untouched |
| Telemetry.SeqlockRead | src/telemetry.cpp:742-762 | the retry loop over the three attempts returns exactly `SeqlockCopyFixed`: a copy only from a stable attempt, None when no attempt was stable |
| Telemetry.ReadRecord | src/telemetry.cpp:737-787 | once mapped and with all value pointers set, the header check, the loop and the checks after it give exactly `ReadOutcome` |
| Telemetry.Host.ServiceStart | src/telemetry.cpp:790-808 | 1 without change when this process already has the event; otherwise 1 and one more handle exactly when creation succeeds |
| Telemetry.Host.ServiceStop | src/telemetry.cpp:810-817 | closes and forgets this process's event handle, if any |
| Telemetry.Host.IsServiceRunning | src/telemetry.cpp:819-828 | 1 exactly when some process holds an event handle |
| Telemetry.Host.OwnerTryAcquire | src/telemetry.cpp:830-853 | 1 at once when already held; WAIT_OBJECT_0 and WAIT_ABANDONED take the mutex, keep the handle and clear the abandoned state, changing nothing else of the caller; anything else closes it and returns 0 with no change |
| Telemetry.Host.OwnerRelease | src/telemetry.cpp:855-867 | with a handle open: release only if held, then handle null and held false; a no-op otherwise, so it is idempotent |
| Telemetry.OwnershipScenario | src/telemetry.cpp:830-867 | of two processes racing for a free mutex only the first acquires; after it calls `rm_ipc_owner_release`, or exits without releasing, the second one's next try acquires |
| BoundedInts.Int32RoundTrip | src/telemetry.cpp:708 | a status stored as `uint32_t` reads back as the same `int` |
| RyzenTMPlugin.RyzenMonitorPlugin.constructor | tm_plugin/RyzenTMPlugin.cpp:326-333 | the member defaults, then SetUnavailable(L""): three "N/A" and an empty tooltip |
| RyzenTMPlugin.RyzenMonitorPlugin.ShutdownContext | tm_plugin/RyzenTMPlugin.cpp:391-396 | shuts down and clears `ctx_` if set; nothing else changes |
| RyzenTMPlugin.RyzenMonitorPlugin.ReleaseSdkOwnership | tm_plugin/RyzenTMPlugin.cpp:398-404 | when owning: shut down the context, release the mutex, clear `owns_sdk_` |
| RyzenTMPlugin.RyzenMonitorPlugin.UseCachedValuesIfFresh | tm_plugin/RyzenTMPlugin.cpp:375-389 | serves the cache exactly when it is fresh, and then changes only the tooltip |
| RyzenTMPlugin.RyzenMonitorPlugin.SetUnavailable | tm_plugin/RyzenTMPlugin.cpp:406-415 | all three values become "N/A"; the tooltip is the argument, or empty for null |
| RyzenTMPlugin.RyzenMonitorPlugin.UpdateValues | tm_plugin/RyzenTMPlugin.cpp:417-430 | the three rendered values, `has_cache_` set and `last_update_ms_ = now` |
| RyzenTMPlugin.RyzenMonitorPlugin.EnsureInitialized | tm_plugin/RyzenTMPlugin.cpp:337-364 | the new state, the calls made and the result are those of `EnsureInit` |
| RyzenTMPlugin.RyzenMonitorPlugin.FallBack | tm_plugin/RyzenTMPlugin.cpp:278-282 | serve the cache fresh within 5 s with the given tooltip, else "N/A" with the unavailable tooltip |
| RyzenTMPlugin.RyzenMonitorPlugin.OwnedPart | tm_plugin/RyzenTMPlugin.cpp:276-297 | the owner's half of a tick has exactly the state and calls of `OwnedTick` |
| RyzenTMPlugin.RyzenMonitorPlugin.ServiceRunningPart | tm_plugin/RyzenTMPlugin.cpp:244-257 | the service-running branch has exactly the state and calls of `Step` |
| RyzenTMPlugin.RyzenMonitorPlugin.PeerPart | tm_plugin/RyzenTMPlugin.cpp:260-274 | the non-owner branch has exactly the state and calls of `Step` |
| RyzenTMPlugin.RyzenMonitorPlugin.DataRequired | tm_plugin/RyzenTMPlugin.cpp:240-298 | a tick has exactly the state and calls of `Step`, and keeps the invariant |
| RyzenTMPlugin.StepPreservesInv | tm_plugin/RyzenTMPlugin.cpp:240-298 | every tick keeps `ctx_ != nullptr ==> owns_sdk_` and three value texts |
| RyzenTMPlugin.OwnedTickKeepsInv | tm_plugin/RyzenTMPlugin.cpp:273-297 | once ownership is taken, the rest of the tick keeps the invariant |
| RyzenTMPlugin.ServiceRunningReleases | tm_plugin/RyzenTMPlugin.cpp:244-247 | with the service running, the tick ends with no ownership, no context, and no acquire or init call |
| RyzenTMPlugin.PeerReadSkipsAcquire | tm_plugin/RyzenTMPlugin.cpp:260-264 | without ownership, a good IPC read shows its values, clears the tooltip and never calls try-acquire |
| RyzenTMPlugin.InitBackoff | tm_plugin/RyzenTMPlugin.cpp:337-345 | nothing is tried with a context (true) or within 10 s of the last attempt (false), using wrapping 64-bit subtraction; otherwise `now` is stamped first and the result is init's status |
| RyzenTMPlugin.OwnedTickOutcome | tm_plugin/RyzenTMPlugin.cpp:276-297 | the owner's tick ends publishing status 0 and keeping ownership, or releasing as its last call with no context |
| RyzenTMPlugin.OwnedTickEnds | tm_plugin/RyzenTMPlugin.cpp:276-297 | the same, for the part after ownership is taken |
| RyzenTMPlugin.PublishOnlyWhenOwned | tm_plugin/RyzenTMPlugin.cpp:285-297 | a tick publishes at most once, as its last call, while owning, with status 0 and the SDK's values |
| RyzenTMPlugin.ServiceTickNoPublish | tm_plugin/RyzenTMPlugin.cpp:244-257 | the service-running branch never publishes |
| RyzenTMPlugin.PeerTickNoPublish | tm_plugin/RyzenTMPlugin.cpp:260-272 | a non-owner that does not acquire never publishes |
| RyzenTMPlugin.OwnedTickPublishesLast | tm_plugin/RyzenTMPlugin.cpp:276-297 | after ownership is taken, a publish can only be the last call |
| RyzenTMPlugin.CacheWindowInclusive | tm_plugin/RyzenTMPlugin.cpp:375-389 | fresh exactly when `has_cache_` and `last_update_ms_ <= now <= last_update_ms_ + max_age`; only the tooltip changes |
| RyzenTMPlugin.GraceScenario | tm_plugin/RyzenTMPlugin.cpp:266-271 | a cache 2000 ms old is shown with the unavailable tooltip; at 6000 ms old the values are "N/A" |
| RyzenTMPlugin.ShowsPublishedValues | tm_plugin/RyzenTMPlugin.cpp:244-251 | with the service running and a completed publish, the plugin shows exactly the published values |
| RyzenTMPlugin.GetItem | tm_plugin/RyzenTMPlugin.cpp:233-238 | an item exactly for 0..2, the one with that index; null otherwise |
| RyzenTMPlugin.ItemIdsDistinct | tm_plugin/RyzenTMPlugin.cpp:154-191 | the three items have distinct ids, names and labels |
| RyzenTMPlugin.ItemName | tm_plugin/RyzenTMPlugin.cpp:154-165 | the display name of each item; no ensures of its own: `ItemIdsDistinct` proves the names unique |
| RyzenTMPlugin.ItemId | tm_plugin/RyzenTMPlugin.cpp:167-178 | the identifier of each item; no ensures of its own: `ItemIdsDistinct` proves the ids unique |
| RyzenTMPlugin.ItemLabel | tm_plugin/RyzenTMPlugin.cpp:180-191 | the label of each item; no ensures of its own: `ItemIdsDistinct` proves the labels unique |
| RyzenTMPlugin.ToIndexOneToOne | tm_plugin/RyzenTMPlugin.cpp:42-44 | distinct items have distinct cells of `values_`, and the three items cover cells 0, 1 and 2 |
| RyzenTMPlugin.RyzenMonitorPlugin.ValueText | tm_plugin/RyzenTMPlugin.cpp:321-323 | the text shown for an item is its cell of `values_`; no ensures of its own: `ToIndexOneToOne` makes the cells one per item, and `DataRequired` fixes what they hold |
| RyzenTMPlugin.JoinPath | tm_plugin/RyzenTMPlugin.cpp:46-56 | "" for an empty base; otherwise the base, one `\` unless it ends in `\` or `/`, then the suffix |
| BoundedInts.Sub64 | tm_plugin/RyzenTMPlugin.cpp:342 | `ULONGLONG` subtraction wraps modulo 2^64 |
| DeepcoolFrame.StatusFrameLayout | rust/src/main.rs:826-855 | header 16,104,1,1,11,1,2,5; `256*p[8]+p[9]` = clamped power; byte 10 zero; bytes 11..14 the big-endian temperature word; byte 15 clamped usage; byte 16 the mod-256 sum of 1..15, which fits a u16; byte 17 is 22; the rest zero |
| DeepcoolFrame.BigEndian32RoundTrip | rust/src/main.rs:841-845 | the four bytes reassemble to the temperature word |
| DeepcoolFrame.InitFramesDifferOnlyIn5And7 | rust/src/main.rs:803-822 | the two init frames differ only in byte 5 (3, then 2) and byte 7 (112, then 111); byte 8 is 22 |
| DeepcoolFrame.FillStatusBody | rust/src/main.rs:826-848 | the stores into a zeroed buffer leave exactly the status body in bytes 0..15 and zeros after |
| DeepcoolFrame.WriteStatusHeader | rust/src/main.rs:827-834 | bytes 0..7 become the header; nothing else changes |
| DeepcoolFrame.WriteStatusFields | rust/src/main.rs:836-848 | bytes 8..15 become the measured fields; nothing else changes |
| DeepcoolFrame.NewFirstInitPacket | rust/src/main.rs:804-815 | the copied and extended buffer is exactly the first init frame |
| DeepcoolFrame.RewriteToSecondInitPacket | rust/src/main.rs:820-821 | two stores turn the first init frame into the second |
| MonitorService.SendStatusPacket | rust/src/main.rs:825-858 | the frame written is `StatusFrame` of the inputs, and the result is the write's |
| MonitorService.InitHidDevice | rust/src/main.rs:803-823 | sends the first frame, and the second only after a good first write; true exactly when both writes succeed |
| MonitorService.ReadTelemetryWithRetries | rust/src/main.rs:677-693 | at most `max_attempts` reads; the first Ok is returned; otherwise the last failing status, or READ_FAILED when `max_attempts == 0`; a stop request ends the retries early |
| MonitorService.WaitServiceState | rust/src/main.rs:518-530 | at most ⌈min(timeout, u32::MAX)/250⌉ polls with a saturating `elapsed`; true exactly when some poll within that bound sees the state, and then the last poll saw it |
| MonitorService.ToWide | rust/src/main.rs:559-561 | the UTF-16 of the string followed by one 0 |
| MonitorService.ToWideTerminatedOnce | rust/src/main.rs:559-561 | for a NUL-free string, that 0 is the only zero |
| MonitorService.BuildServiceBinPath | rust/src/main.rs:547-557 | `"` + exe path + `"` + ` ` + `--service` + NUL, or the prefixed error when the exe path is unavailable |
| MonitorService.ServiceCommandRoundTrip | rust/src/main.rs:547-557 | splitting the quoted command line gives back the exe path and `--service` |
| MonitorService.StatusMessage | rust/src/main.rs:650-664 | "unknown error" exactly for codes outside 0..9 |
| MonitorService.StatusMessagesDistinct | rust/src/main.rs:650-664 | each of the statuses 0..9 has its own message |
| MonitorService.ServiceStateLabelsDistinct | rust/src/main.rs:313-319 | each service state has its own label |
| MonitorService.ServiceStateLabel | rust/src/main.rs:313-319 | the label of each service state; no ensures of its own: `ServiceStateLabelsDistinct` proves them distinct |
| BoundedInts.Clamp | rust/src/main.rs:836 | `clamp(lo, hi)` lies in the range, keeps values inside it and moves the others to the nearer end |
| SampleApp.InitUsbDevice | src/sampleApp.cpp:397-441 | the handle, result, frames sent and handles closed are `UsbStart` of the environment's answers |
| SampleApp.UsbStartFacts | src/sampleApp.cpp:397-441 | success exactly when a handle was opened and both writes went through; on failure after opening that handle is closed and INVALID kept; the second frame only after a good first write |
| SampleApp.SendUsbStatusPacket | src/sampleApp.cpp:443-480 | the frame written is `StatusFrame` of the inputs, and the result is the write's |
| SampleApp.EncodersAgree | src/sampleApp.cpp:443-480 | the C++ and Rust encoders produce byte-identical 64-byte frames for equal inputs |
| SampleApp.TryReadTelemetry | src/sampleApp.cpp:498-516 | true exactly when one of the first `maxAttempts` reads succeeds; it stops at the first success; no reads when `maxAttempts <= 0` |
| SampleApp.StreamPass | src/sampleApp.cpp:518-542 | one pass of the loop body has exactly the effect of `StreamStep`: break when both rounds fail, otherwise write while ready and give the device up after a failed write; `usbReady` stays equivalent to holding a handle |
| SampleApp.StreamToConsoleAndUsb | src/sampleApp.cpp:482-552 | the device state after the loop and the final close is `Run` of the inputs |
| SampleApp.StreamAppend | src/sampleApp.cpp:492-545 | the loop is a fold over its passes |
| SampleApp.StoppedStaysStopped | src/sampleApp.cpp:519-527 | after the break, later passes change nothing |
| SampleApp.DisabledStaysDisabled | src/sampleApp.cpp:534-542 | once the device is given up, it stays given up and no frame is sent |
| SampleApp.FailedWriteDisables | src/sampleApp.cpp:534-542 | a failed status write closes the handle, sets it INVALID and clears `usbReady` |
| SampleApp.StreamCoherent | src/sampleApp.cpp:534-542 | every pass keeps `usbReady` true exactly while a handle is held |
| SampleApp.StopsIffBothRoundsFail | src/sampleApp.cpp:518-528 | the loop breaks exactly when some pass fails both rounds of ten reads |
| SampleApp.RunClosesHandle | src/sampleApp.cpp:547-550 | every handle the run opened is closed by the end |
| SampleApp.HandleKeptOrClosed | src/sampleApp.cpp:534-550 | from a ready start, the handle is either still held or has been closed |
| LdDevice.ScanMeaning | rust/src/ld_device.rs:119-126 | the digit scan succeeds exactly on an all-digit string whose value fits, with that value; an all-digit value that does not fit is an overflow |
| LdDevice.DecimalParses | rust/src/ld_device.rs:150-152 | a formatted number parses back to itself when it fits, and is an overflow otherwise |
| LdDevice.Trim | rust/src/ld_device.rs:120 | `trim` returns a slice with only white space removed around it, and no white space at its ends |
| LdDevice.TrimPadded | rust/src/ld_device.rs:120 | white space around a string with non-blank ends is removed, and nothing else |
| LdDevice.TrimmedAlready | rust/src/ld_device.rs:120-125 | a string with non-blank ends is parsed as it is |
| LdDevice.ParseU16Decimal | rust/src/ld_device.rs:119-126 | a padded decimal number parses to itself when ≤ 65535, and gives the overflow text otherwise |
| LdDevice.ParseU16Hex | rust/src/ld_device.rs:121-122 | after a lowercase `0x`, hex digits of either case are read in base 16, with the overflow text above 65535 |
| LdDevice.ParseU16Value | rust/src/ld_device.rs:119-126 | a value that is all white space (or empty) gives the empty-string error, and every failure reports one of the three `IntErrorKind` texts; the numeric results are `ParseU16Decimal`, `ParseU16Hex` and `UpperCasePrefixRejected` |
| LdDevice.ParseU16Trimmed | rust/src/ld_device.rs:121-125 | "" and a bare `0x` give the empty-string error, and every failure reports one of the three `IntErrorKind` texts |
| LdDevice.UpperCasePrefixRejected | rust/src/ld_device.rs:121-124 | `0X…` is read in base 10 and fails with the invalid-digit text |
| LdDevice.FindArgValue | rust/src/ld_device.rs:137-142 | some value exactly when the name occurs before the last token; the token after its first occurrence |
| LdDevice.Position | rust/src/ld_device.rs:138-139 | the first index holding the name, or the length when it is absent |
| LdDevice.FindArgValueMeaning | rust/src/ld_device.rs:137-142 | given the first occurrence, the value is the next token, or none when it is last |
| LdDevice.ParseInterval | rust/src/ld_device.rs:144-157 | 1000 ms when absent; an accepted interval is a non-zero u64 |
| LdDevice.ParseCount | rust/src/ld_device.rs:159-172 | None exactly when absent; an accepted count is a non-zero usize |
| LdDevice.IntervalAndCountFromDecimal | rust/src/ld_device.rs:144-172 | a decimal argument is accepted exactly when non-zero, and is then that number; 0 gives the "greater than zero" errors |
| LdDevice.PairParses | rust/src/ld_device.rs:209-211 | two hex digits always parse as a u8, high digit first |
| LdDevice.ParseHexBytes | rust/src/ld_device.rs:202-223 | the loop's result is `HexBytes`: non-hex characters skipped, each pair one byte in order, an odd count an error |
| LdDevice.PairBytesAt | rust/src/ld_device.rs:209-213 | byte k is hex digits 2k and 2k+1 |
| LdDevice.SeparatorSkipped | rust/src/ld_device.rs:206-207 | a non-hex character anywhere changes nothing |
| LdDevice.HexRoundTrip | rust/src/ld_device.rs:202-223 | any bytes written as hex digits parse back to the same bytes |
| LdDevice.ParsePayloadHex | rust/src/ld_device.rs:225-239 | accepted exactly when the hex parse succeeds with 1..=63 bytes; errors and texts otherwise |
| LdDevice.PayloadRoundTrip | rust/src/ld_device.rs:225-239 | any 1..=63 bytes written as hex are accepted as the payload |
| LdDevice.BuildPacket | rust/src/ld_device.rs:241-253 | refused exactly above 63 bytes, with its text; otherwise 65 bytes: report id 0, the payload at 1..=len, zeros after |
| LdDevice.LittleEndian32RoundTrip | rust/src/ld_device.rs:113-115 | the four little-endian bytes reassemble to the word |
| LdDevice.BuildMetricsPayload | rust/src/ld_device.rs:111-117 | exactly 12 bytes: temperature, power, utilisation, each as 4 little-endian bytes |
| Utility.MonitorSdkPath.constructor | src/Utility.cpp:10 | the global starts empty |
| Utility.MonitorSdkPath.Set | src/Utility.cpp:12-22 | null or "" clears the path; any other string is stored |
| Utility.MonitorSdkPath.Get | src/Utility.cpp:24-31 | null exactly when the path is empty, otherwise the path |
| Utility.SetThenGet | src/Utility.cpp:12-31 | a method that calls `Set(p)` on the holder, then `Get` returns p for a non-empty p, and null otherwise |
| Utility.Terminated | src/Utility.cpp:123 | `%s` reads a buffer up to its first NUL |
| Utility.MonitorSdkPath.GetDriverPath | src/Utility.cpp:111-127 | fails exactly when no SDK path is set or the path does not fit the 200-character buffer with its terminator; otherwise the path followed directly by `bin\AMDRyzenMasterDriver.sys` |
| Utility.SourceWrites | src/Utility.cpp:119-121 | the buffer indices the source writes, in order: one per character, then the terminator at index `length` |
| Utility.SourceWritesInBufferIff | src/Utility.cpp:114-121 | every index the source writes lies within `driverPath[200]` exactly when the path is shorter than 200 characters |
| Utility.LongPathOverflows | src/Utility.cpp:114-121 | a 200-character path has its terminator written at index 200, past the buffer |
| RmmonConsole.Fmt3Shape | rmmon_console/src/main.rs:18-27 | the field is always exactly three decimal digits |
| RmmonConsole.Fmt3Clamps | rmmon_console/src/main.rs:18-25 | "000" below zero and "999" above 999 |
| RmmonConsole.Fmt3RoundTrip | rmmon_console/src/main.rs:26 | within 0..=999 the field reads back as the value |
| RmmonConsole.Fmt3 | rmmon_console/src/main.rs:18-27 | clamp to 0..=999, then three zero-padded digits; no ensures of its own: `Fmt3Shape`, `Fmt3Clamps` and `Fmt3RoundTrip` state its properties |
| RmmonConsole.Line.Rendered | rmmon_console/src/main.rs:62-64 | a metrics line starts with `PPT=` and ends with `%`; a failure line starts with `rm_read failed: `. `MetricsLineLength` gives the metrics line's length |
| RmmonConsole.Report | rmmon_console/src/main.rs:56-65 | the metrics line exactly when `rc == 0` and bit 0 of the flags is set (`flags & 1` against `flags % 2`), else the failure line with `rc` |
| RmmonConsole.MetricsLineLength | rmmon_console/src/main.rs:58-62 | a metrics line is always 31 characters |

## Left out

- The Service Control Manager, the driver install, registry reads, and the OS and vendor checks (`IsSupportedOS`, `Authentic_AMD`, `IsSupportedProcessor`, `QueryDrvService`, `InstallDriver`). They are Win32 calls or a CPUID table. `rm_monitor_init` takes their answers as inputs.
- HID enumeration (SetupDi*, hidapi) and `CreateFile`/`WriteFile`. A write is a boolean, and an opened handle is a number.
- The vendor SDK (`InitMonitoringContext`, `ReadCPUTelemetry`, `rm_monitor_read` internals) and the rmmon wrapper DLL. They are foreign code and floating point; their results are inputs.
- Floating point: `round`/`lround`, `%.0f` rendering, `f32` conversion and `to_le_bytes`/`to_bits`, and stdin float parsing. Values are carried as bit patterns and rounded integers.
- Real concurrency and the seqlock's memory ordering. A reader's interleaving with a writer is supplied as the three observations.
- Sleeps, `wait_or_stop` and `GetTickCount64`. Time is a `now` parameter, and the stop request is an oracle.
- The security descriptor and the names of the kernel objects.
- `ResolveSdkRoot`, `GetModuleDirectory` and the plugin's file probing. The resolved root is an input to the tick.
- The plugin host's item texts and info strings, other than the ids, names and labels.
- `parse_u16_arg`, `parse_f32_arg` and `read_stdin_payload`: argument lookup with float parsing, and stdin I/O.
- `run`, `run_cli`, `run_monitor_loop` and `main`: the command dispatch and the endless loops.
- SampleApp.StreamToConsoleAndUsb: the `while (true)` loop is modelled over a finite sequence of passes. A run that never breaks is captured by its finite prefixes.
- Telemetry.Host.Read: models the retry loop (`Telemetry.SeqlockRead`) with the correction described under Findings. The loop exactly as written is `Telemetry.SeqlockCopy` and `Telemetry.ReadOutcomeAsWritten`.
- RyzenTMPlugin.RyzenMonitorPlugin.DataRequired: reads the clock once per tick. The source calls `GetTickCount64` separately in EnsureInitialized, UseCachedValuesIfFresh and UpdateValues.
- Utility.MonitorSdkPath.GetDriverPath: the size of the caller's output buffer is not modelled. A path of 200 or more characters is refused, as described under Findings.

## Findings

| source | as written | input that shows it | evidently intended | confidence | as-written member | corrected member |
|---|---|---|---|---|---|---|
| src/telemetry.cpp:743-767 | an odd `seq1` `continue`s past the `attempt == 2` check, so when the last attempt sees a write in progress the loop just ends and the copy taken by an earlier, unstable attempt is used | attempts (seq1, seq2) = (4, 5), (5, 5), (5, 5) with a published copy: IPC_OK with a torn record | no stable attempt means IPC_NOT_READY | high (not executed) | Telemetry.TornCopyReturnedAsOk | Telemetry.SeqlockCopyFixed |
| src/Utility.cpp:114-121 | the SDK path is copied into `wchar_t driverPath[200]` with `wcsncpy(driverPath, pTemp, wcslen(pTemp))`, and the terminator goes at `driverPath[wcslen(pTemp)]`, with no check of the length | an SDK path of 200 characters: the terminator is written at index 200, past the buffer; longer paths also overrun it in the copy | a path that does not fit the buffer with its terminator is refused (`false`) | medium (not executed) | Utility.SourceWritesInBufferIff | Utility.MonitorSdkPath.GetDriverPath |
