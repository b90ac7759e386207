/** The cross-process telemetry channel of src/telemetry.cpp: a seqlock-protected
    shared record, a named "owner" mutex with a per-process held flag, a
    "service present" event whose existence is the signal, and the order of
    checks in `rm_monitor_init`.

    Operating-system objects are modelled by `Host`: the named file mapping
    (`segment`), the named mutex (its owner and abandoned flag), the named
    event (its count of open handles) and, per process id, the statics each
    process keeps (`ProcessGlobals`). A concurrent writer is not simulated:
    `Read` is given, per attempt, the `(seq1, copy, seq2)` it observes. */
module Telemetry {
  import opened BoundedInts
  import opened Wrappers

  /** A double the channel only copies, kept as its IEEE-754 bit pattern;
      zero-filled memory holds the pattern 0. */
  datatype Double = Double(bits: bv64)
  const ZeroDouble: Double := Double(0)

  type Pid = uint32

  const IpcVersion: uint32 := 1
  /** sizeof(RMSharedTelemetry) on x64: 4+4+4+4+4, 4 bytes of padding, 8, 3*8, 4+4. */
  const RecordSize: uint32 := 64
  /** rm_ipc_read makes at most this many seqlock attempts. */
  const ReadAttempts: nat := 3

  /** rm_monitor_* status codes. */
  const StatusOk: int := 0
  const StatusInvalidArg: int := 1
  const StatusNotAdmin: int := 2
  const StatusUnsupportedOs: int := 3
  const StatusNotAmd: int := 4
  const StatusDriver: int := 5
  const StatusUnsupportedCpu: int := 6
  const StatusAllocFailed: int := 7
  const StatusSdkInitFailed: int := 8
  const StatusReadFailed: int := 9

  datatype IpcResult = IpcOk | IpcNotReady | IpcStale | IpcError {
    function Code(): (c: int)
      ensures 0 <= c <= 3
      ensures c == 0 <==> this == IpcOk
    {
      match this
      case IpcOk => 0
      case IpcNotReady => 1
      case IpcStale => 2
      case IpcError => 3
    }
  }

  /** A byte-for-byte copy of the shared record (`snapshot = *shared`);
      the two reserved words are always zero and are not kept. */
  datatype Snapshot = Snapshot(
    version: uint32,
    size: uint32,
    sequence: uint32,
    status: uint32,
    timestampMs: uint64,
    temperatureC: Double,
    powerW: Double,
    usagePercent: Double,
    writerPid: uint32)

  /** `RMSharedTelemetry snapshot{}`: all fields zero. */
  const ZeroSnapshot: Snapshot := Snapshot(0, 0, 0, 0, 0, ZeroDouble, ZeroDouble, ZeroDouble, 0)

  /** The record as its creator leaves it: zeroed, then version and size stamped. */
  const CreatedSnapshot: Snapshot := ZeroSnapshot.(version := IpcVersion, size := RecordSize)

  /** `seq & 1`: the sequence word is odd while a publish is in progress. */
  predicate Odd(s: uint32) { s % 2 == 1 }

  /** InterlockedIncrement on the 32-bit `seq`, which wraps. */
  function Increment(s: uint32): (r: uint32)
    ensures r == (s + 1) % TwoTo32
    ensures Odd(r) <==> !Odd(s)
  {
    if s == Uint32Max then 0 else s + 1
  }

  /** The live shared record (`*s_view`); `Publish` mutates it field by field. */
  class SharedRecord {
    var version: uint32
    var size: uint32
    var sequence: uint32
    var status: uint32
    var timestampMs: uint64
    var temperatureC: Double
    var powerW: Double
    var usagePercent: Double
    var writerPid: uint32

    function Contents(): Snapshot
      reads this
    {
      Snapshot(version, size, sequence, status, timestampMs, temperatureC, powerW, usagePercent, writerPid)
    }

    /** A new file mapping: the pages start zero-filled. */
    constructor Zeroed()
      ensures Contents() == ZeroSnapshot
    {
      version, size, sequence, status, timestampMs := 0, 0, 0, 0, 0;
      temperatureC, powerW, usagePercent := ZeroDouble, ZeroDouble, ZeroDouble;
      writerPid := 0;
    }

    /** The creator's `ZeroMemory` followed by stamping version and size. */
    method ZeroAndStamp()
      modifies this
      ensures Contents() == CreatedSnapshot
    {
      version, size, sequence, status, timestampMs := 0, 0, 0, 0, 0;
      temperatureC, powerW, usagePercent := ZeroDouble, ZeroDouble, ZeroDouble;
      writerPid := 0;
      version := IpcVersion;
      size := RecordSize;
    }

    /** The body of rm_ipc_publish once the record is mapped: make `seq` odd,
        write every field, make `seq` even again. */
    method Publish(temperature: Double, power: Double, usage: Double, status': int32, now: uint64, pid: Pid)
      modifies this
      ensures Contents() == Published(old(Contents()), temperature, power, usage, status', now, pid)
    {
      sequence := Increment(sequence);
      version := IpcVersion;
      size := RecordSize;
      status := Int32ToUint32(status');
      timestampMs := now;
      temperatureC := temperature;
      powerW := power;
      usagePercent := usage;
      writerPid := pid;
      sequence := Increment(sequence);
    }
  }

  /** The record after one complete publish. */
  function Published(s: Snapshot, temperature: Double, power: Double, usage: Double, status: int32, now: uint64, pid: Pid): Snapshot
  {
    Snapshot(IpcVersion, RecordSize, Increment(Increment(s.sequence)), Int32ToUint32(status),
             now, temperature, power, usage, pid)
  }

  /** A publish that starts from an even `seq` ends on an even `seq` two further
      on (modulo 2^32), stamps version and size and carries every value written. */
  lemma PublishKeepsSeqEven(s: Snapshot, temperature: Double, power: Double, usage: Double, status: int32, now: uint64, pid: Pid)
    requires !Odd(s.sequence)
    ensures var r := Published(s, temperature, power, usage, status, now, pid);
      && !Odd(r.sequence)
      && r.sequence == (s.sequence + 2) % TwoTo32
      && r.version == IpcVersion && r.size == RecordSize
      && Uint32ToInt32(r.status) == status
      && r.timestampMs == now && r.writerPid == pid
      && r.temperatureC == temperature && r.powerW == power && r.usagePercent == usage
  {
    Int32RoundTrip(status);
  }

  // ---------------------------------------------------------------------
  // rm_ipc_read
  // ---------------------------------------------------------------------

  /** Which out-pointers the caller passed as non-null, and the age limit. */
  datatype ReadRequest = ReadRequest(
    hasTemperature: bool, hasPower: bool, hasUsage: bool, hasStatus: bool, maxAgeMs: uint32)

  /** What one seqlock attempt observes: `seq1`, the record copy, `seq2`. */
  datatype Attempt = Attempt(seq1: uint32, copy: Snapshot, seq2: uint32)

  /** What rm_ipc_read writes through its pointers; `status` is None when the
      status pointer was null. */
  datatype Reading = Reading(temperatureC: Double, powerW: Double, usagePercent: Double, status: Option<int32>)

  /** The return code, and what was written through the pointers (None: nothing). */
  datatype ReadReply = ReadReply(result: IpcResult, output: Option<Reading>)

  /** A consistent attempt: both sequence reads agree and are even. */
  predicate Stable(a: Attempt) { a.seq1 == a.seq2 && !Odd(a.seq2) }

  /** The retry loop of rm_ipc_read as written, from attempt `attempt` with the
      current `snapshot`: None is the early `return IPC_NOT_READY`, Some is the
      snapshot the code goes on to validate. An odd `seq1` `continue`s past the
      `attempt == 2` check, so after a third odd attempt the loop simply ends
      and whatever an earlier attempt copied is used. */
  function SeqlockCopy(obs: seq<Attempt>, attempt: nat, snapshot: Snapshot): Option<Snapshot>
    requires |obs| == ReadAttempts && attempt <= ReadAttempts
    decreases ReadAttempts - attempt
  {
    if attempt == ReadAttempts then Some(snapshot)
    else if Odd(obs[attempt].seq1) then SeqlockCopy(obs, attempt + 1, snapshot)
    else if Stable(obs[attempt]) then Some(obs[attempt].copy)
    else if attempt == ReadAttempts - 1 then None
    else SeqlockCopy(obs, attempt + 1, obs[attempt].copy)
  }

  /** The checks after the loop: never published, too old, or a good reading. */
  function Classify(s: Snapshot, req: ReadRequest, now: uint64): ReadReply
  {
    if s.timestampMs == 0 then ReadReply(IpcNotReady, None)
    else if req.maxAgeMs > 0 && now >= s.timestampMs && now - s.timestampMs > req.maxAgeMs then
      ReadReply(IpcStale, None)
    else
      ReadReply(IpcOk, Some(Reading(s.temperatureC, s.powerW, s.usagePercent,
                                    if req.hasStatus then Some(Uint32ToInt32(s.status)) else None)))
  }

  /** The version and size of the live record; None when it could not be mapped. */
  datatype Header = Header(version: uint32, size: uint32)

  /** rm_ipc_read around its retry loop, given what the loop produced. */
  function ReadWith(req: ReadRequest, header: Option<Header>, copied: Option<Snapshot>, now: uint64): ReadReply
  {
    if !(req.hasTemperature && req.hasPower && req.hasUsage) then ReadReply(IpcError, None)
    else if header.None? then ReadReply(IpcNotReady, None)
    else if header.value.version != IpcVersion || header.value.size != RecordSize then ReadReply(IpcNotReady, None)
    else match copied
      case None => ReadReply(IpcNotReady, None)
      case Some(s) => Classify(s, req, now)
  }

  /** rm_ipc_read as a function of what it observes, with the retry loop
      corrected (see SeqlockCopyFixed). */
  function ReadOutcome(req: ReadRequest, header: Option<Header>, obs: seq<Attempt>, now: uint64): ReadReply
    requires |obs| == ReadAttempts
  {
    ReadWith(req, header, SeqlockCopyFixed(obs, 0), now)
  }

  /** rm_ipc_read with the retry loop exactly as written. */
  function ReadOutcomeAsWritten(req: ReadRequest, header: Option<Header>, obs: seq<Attempt>, now: uint64): ReadReply
    requires |obs| == ReadAttempts
  {
    ReadWith(req, header, SeqlockCopy(obs, 0, ZeroSnapshot), now)
  }

  /** A null value pointer is an error whatever the shared state. */
  lemma NullValuePointerIsError(req: ReadRequest, header: Option<Header>, obs: seq<Attempt>, now: uint64)
    requires |obs| == ReadAttempts
    requires !req.hasTemperature || !req.hasPower || !req.hasUsage
    ensures ReadOutcome(req, header, obs, now) == ReadReply(IpcError, None)
  {
  }

  /** Outputs are written exactly on IPC_OK, and the status is written exactly
      when its pointer is non-null. */
  lemma OutputOnlyOnOk(req: ReadRequest, header: Option<Header>, obs: seq<Attempt>, now: uint64)
    requires |obs| == ReadAttempts
    ensures var r := ReadOutcome(req, header, obs, now);
      && (r.output.Some? <==> r.result == IpcOk)
      && (r.output.Some? ==> (r.output.value.status.Some? <==> req.hasStatus))
  {
  }

  /** A record with the wrong version or size stamp is not ready. */
  lemma HeaderMismatchNotReady(req: ReadRequest, h: Header, obs: seq<Attempt>, now: uint64)
    requires |obs| == ReadAttempts
    requires req.hasTemperature && req.hasPower && req.hasUsage
    requires h.version != IpcVersion || h.size != RecordSize
    ensures ReadOutcome(req, Some(h), obs, now).result == IpcNotReady
  {
  }

  /** The snapshot the loop hands on is the zero-initialised one or a copy taken
      by an attempt whose `seq1` was even. */
  lemma {:induction false} CopyIsInitialOrObserved(obs: seq<Attempt>, attempt: nat, snapshot: Snapshot)
    requires |obs| == ReadAttempts && attempt <= ReadAttempts
    ensures var r := SeqlockCopy(obs, attempt, snapshot);
      r.Some? ==> r.value == snapshot || exists k :: attempt <= k < ReadAttempts && !Odd(obs[k].seq1) && r.value == obs[k].copy
    decreases ReadAttempts - attempt
  {
    if attempt < ReadAttempts {
      if Odd(obs[attempt].seq1) {
        CopyIsInitialOrObserved(obs, attempt + 1, snapshot);
      } else if !Stable(obs[attempt]) && attempt < ReadAttempts - 1 {
        CopyIsInitialOrObserved(obs, attempt + 1, obs[attempt].copy);
      }
    }
  }

  /** If no copy the reader could take was ever published (timestamp 0),
      the read is NOT_READY: in particular before the first publish. */
  lemma UnpublishedIsNotReady(req: ReadRequest, header: Option<Header>, obs: seq<Attempt>, now: uint64)
    requires |obs| == ReadAttempts
    requires req.hasTemperature && req.hasPower && req.hasUsage
    requires forall k :: 0 <= k < ReadAttempts ==> obs[k].copy.timestampMs == 0
    ensures ReadOutcome(req, header, obs, now).result == IpcNotReady
    ensures ReadOutcomeAsWritten(req, header, obs, now).result == IpcNotReady
  {
    CopyIsInitialOrObserved(obs, 0, ZeroSnapshot);
  }

  /** What a reader sees when no writer is active: the live record, three times. */
  function Quiescent(s: Snapshot): (obs: seq<Attempt>)
    ensures |obs| == ReadAttempts
  {
    [Attempt(s.sequence, s, s.sequence), Attempt(s.sequence, s, s.sequence), Attempt(s.sequence, s, s.sequence)]
  }

  /** Reading a freshly created record before any publish gives NOT_READY. */
  lemma FreshRecordNotReady(req: ReadRequest, now: uint64)
    requires req.hasTemperature && req.hasPower && req.hasUsage
    ensures ReadOutcome(req, Some(Header(CreatedSnapshot.version, CreatedSnapshot.size)),
                        Quiescent(CreatedSnapshot), now).result == IpcNotReady
  {
  }

  /** The first stable attempt ends the loop with its copy, provided every
      earlier attempt was not stable. */
  lemma FirstStableAttemptWins(obs: seq<Attempt>, k: nat)
    requires |obs| == ReadAttempts && k < ReadAttempts
    requires Stable(obs[k])
    requires forall i :: 0 <= i < k ==> !Stable(obs[i])
    ensures SeqlockCopyFixed(obs, 0) == Some(obs[k].copy)
    ensures SeqlockCopy(obs, 0, ZeroSnapshot) == Some(obs[k].copy)
  {
  }

  /** A third attempt with an even but changed `seq` gives NOT_READY when the
      two before it were not stable. */
  lemma TornThirdAttemptNotReady(req: ReadRequest, h: Header, obs: seq<Attempt>, now: uint64)
    requires |obs| == ReadAttempts
    requires req.hasTemperature && req.hasPower && req.hasUsage
    requires h.version == IpcVersion && h.size == RecordSize
    requires !Stable(obs[0]) && !Stable(obs[1])
    requires !Odd(obs[2].seq1) && obs[2].seq1 != obs[2].seq2
    ensures ReadOutcome(req, Some(h), obs, now) == ReadReply(IpcNotReady, None)
    ensures ReadOutcomeAsWritten(req, Some(h), obs, now) == ReadReply(IpcNotReady, None)
  {
  }

  /** Staleness: with a published snapshot in hand, the result is STALE exactly
      when the age check is on, the clock has not gone backwards and the age
      exceeds the limit; otherwise it is OK and carries the snapshot's values.
      A limit of 0 turns the age check off. */
  lemma StaleExactly(s: Snapshot, req: ReadRequest, now: uint64)
    requires s.timestampMs != 0
    ensures Classify(s, req, now).result == IpcStale
            <==> req.maxAgeMs > 0 && now >= s.timestampMs && now - s.timestampMs > req.maxAgeMs
    ensures Classify(s, req, now).result != IpcStale ==>
      Classify(s, req, now) == ReadReply(IpcOk, Some(Reading(s.temperatureC, s.powerW, s.usagePercent,
        if req.hasStatus then Some(Uint32ToInt32(s.status)) else None)))
    ensures req.maxAgeMs == 0 ==> Classify(s, req, now).result == IpcOk
  {
  }

  /** End to end: a reader that starts after a complete publish and sees no
      writer gets back exactly the published values and status, unless the
      publish is older than the age limit. */
  lemma PublishThenRead(before: Snapshot, temperature: Double, power: Double, usage: Double, status: int32,
                        at: uint64, pid: Pid, req: ReadRequest, now: uint64)
    requires !Odd(before.sequence) && at != 0
    requires req.hasTemperature && req.hasPower && req.hasUsage
    requires req.maxAgeMs == 0 || now < at || now - at <= req.maxAgeMs
    ensures var s := Published(before, temperature, power, usage, status, at, pid);
      ReadOutcome(req, Some(Header(s.version, s.size)), Quiescent(s), now)
        == ReadReply(IpcOk, Some(Reading(temperature, power, usage, if req.hasStatus then Some(status) else None)))
  {
    PublishKeepsSeqEven(before, temperature, power, usage, status, at, pid);
  }

  /** As written, three attempts none of which is stable can still end in
      IPC_OK: the first copies a record being rewritten (seq 4 becomes 5),
      the next two see the odd 5 and `continue` out of the loop, and the torn
      copy is returned. The corrected loop answers NOT_READY. */
  lemma TornCopyReturnedAsOk(torn: Snapshot, req: ReadRequest, now: uint64)
    requires torn.timestampMs != 0
    requires req.hasTemperature && req.hasPower && req.hasUsage && req.maxAgeMs == 0
    ensures var obs := [Attempt(4, torn, 5), Attempt(5, torn, 5), Attempt(5, torn, 5)];
      && (forall k :: 0 <= k < ReadAttempts ==> !Stable(obs[k]))
      && ReadOutcomeAsWritten(req, Some(Header(IpcVersion, RecordSize)), obs, now).result == IpcOk
      && ReadOutcome(req, Some(Header(IpcVersion, RecordSize)), obs, now).result == IpcNotReady
  {
  }

  /** The evidently intended loop: running out of attempts without a stable
      one is NOT_READY, whatever the last attempt saw. It is the loop as
      written plus that one check after it. */
  function SeqlockCopyFixed(obs: seq<Attempt>, attempt: nat): (r: Option<Snapshot>)
    requires |obs| == ReadAttempts && attempt <= ReadAttempts
    ensures r.Some? ==> exists k :: attempt <= k < ReadAttempts && Stable(obs[k]) && r.value == obs[k].copy
    ensures r.None? ==> forall k :: attempt <= k < ReadAttempts ==> !Stable(obs[k])
    decreases ReadAttempts - attempt
  {
    if attempt == ReadAttempts then None
    else if Odd(obs[attempt].seq1) then SeqlockCopyFixed(obs, attempt + 1)
    else if Stable(obs[attempt]) then Some(obs[attempt].copy)
    else SeqlockCopyFixed(obs, attempt + 1)
  }

  /** With the fixed loop, a snapshot is only ever one a stable attempt copied,
      and the fixed loop agrees with the written one whenever some attempt is stable. */
  lemma FixedAgreesWhenSomeAttemptStable(obs: seq<Attempt>)
    requires |obs| == ReadAttempts
    requires exists k :: 0 <= k < ReadAttempts && Stable(obs[k])
    ensures SeqlockCopyFixed(obs, 0) == SeqlockCopy(obs, 0, ZeroSnapshot)
  {
  }

  // ---------------------------------------------------------------------
  // rm_monitor_init
  // ---------------------------------------------------------------------

  /** The answers of the environment checks rm_monitor_init makes, in call order. */
  datatype InitEnvironment = InitEnvironment(
    outCtxValid: bool, isAdmin: bool, supportedOs: bool, authenticAmd: bool,
    driverQuery: int, installDriverOk: bool, supportedProcessor: bool,
    allocOk: bool, sdkInitOk: bool)

  /** The status returned and whether `*out_ctx` ends up holding a context. */
  datatype InitOutcome = InitOutcome(status: int, contextCreated: bool)

  function MonitorInit(e: InitEnvironment): (r: InitOutcome)
    ensures r.contextCreated <==> r.status == StatusOk
  {
    if !e.outCtxValid then InitOutcome(StatusInvalidArg, false)
    else if !e.isAdmin then InitOutcome(StatusNotAdmin, false)
    else if !e.supportedOs then InitOutcome(StatusUnsupportedOs, false)
    else if !e.authenticAmd then InitOutcome(StatusNotAmd, false)
    else if e.driverQuery < 0 && !e.installDriverOk then InitOutcome(StatusDriver, false)
    else if !e.supportedProcessor then InitOutcome(StatusUnsupportedCpu, false)
    else if !e.allocOk then InitOutcome(StatusAllocFailed, false)
    else if !e.sdkInitOk then InitOutcome(StatusSdkInitFailed, false)
    else InitOutcome(StatusOk, true)
  }

  /** The checks as a list of (passed, status on failure), in call order. */
  function InitChecks(e: InitEnvironment): seq<(bool, int)>
  {
    [(e.outCtxValid, StatusInvalidArg), (e.isAdmin, StatusNotAdmin), (e.supportedOs, StatusUnsupportedOs),
     (e.authenticAmd, StatusNotAmd), (e.driverQuery >= 0 || e.installDriverOk, StatusDriver),
     (e.supportedProcessor, StatusUnsupportedCpu), (e.allocOk, StatusAllocFailed),
     (e.sdkInitOk, StatusSdkInitFailed)]
  }

  /** The status of the first failed check, or OK when all pass. */
  function FirstFailure(checks: seq<(bool, int)>): int
  {
    if checks == [] then StatusOk
    else if !checks[0].0 then checks[0].1
    else FirstFailure(checks[1..])
  }

  /** rm_monitor_init reports the first failing check in its call order (the
      first ensures lines the nested checks up as a list), and, the point of
      the lemma, succeeds exactly when every check passes. */
  lemma MonitorInitFirstFailure(e: InitEnvironment)
    ensures MonitorInit(e).status == FirstFailure(InitChecks(e))
    ensures MonitorInit(e).status == StatusOk <==> forall i :: 0 <= i < |InitChecks(e)| ==> InitChecks(e)[i].0
  {
    var c0 := InitChecks(e);
    var c1 := c0[1..];
    var c2 := c1[1..];
    var c3 := c2[1..];
    var c4 := c3[1..];
    var c5 := c4[1..];
    var c6 := c5[1..];
    var c7 := c6[1..];
    assert c7 == [(e.sdkInitOk, StatusSdkInitFailed)];
    assert FirstFailure(c7[1..]) == StatusOk;
    assert FirstFailure(c6) == if !c6[0].0 then c6[0].1 else FirstFailure(c7);
    assert FirstFailure(c5) == if !c5[0].0 then c5[0].1 else FirstFailure(c6);
    assert FirstFailure(c4) == if !c4[0].0 then c4[0].1 else FirstFailure(c5);
    assert FirstFailure(c3) == if !c3[0].0 then c3[0].1 else FirstFailure(c4);
    assert FirstFailure(c2) == if !c2[0].0 then c2[0].1 else FirstFailure(c3);
    assert FirstFailure(c1) == if !c1[0].0 then c1[0].1 else FirstFailure(c2);
    FirstFailureOkIff(c0);
  }

  /** When no check's failure status is OK, the first-failure status is OK
      exactly when every check passes. */
  lemma {:induction false} FirstFailureOkIff(checks: seq<(bool, int)>)
    requires forall i :: 0 <= i < |checks| ==> checks[i].1 != StatusOk
    ensures FirstFailure(checks) == StatusOk <==> forall i :: 0 <= i < |checks| ==> checks[i].0
  {
    if checks != [] && checks[0].0 {
      FirstFailureOkIff(checks[1..]);
      assert forall i :: 1 <= i < |checks| ==> checks[i] == checks[1..][i - 1];
    }
  }

  // ---------------------------------------------------------------------
  // The operating-system objects and the per-process statics
  // ---------------------------------------------------------------------

  /** One process's statics: `s_view` set, `g_ipc_owner_mutex` open,
      `g_ipc_owner_held`, `g_ipc_service_event` open. */
  datatype ProcessGlobals = ProcessGlobals(mapped: bool, ownerMutex: bool, ownerHeld: bool, serviceEvent: bool)
  const FreshProcess: ProcessGlobals := ProcessGlobals(false, false, false, false)

  /** The outcome of `WaitForSingleObject(mutex, 0)`. */
  datatype WaitResult = WaitObject0 | WaitAbandoned | WaitTimeout

  /** A zero-timeout wait on the named mutex: a free mutex is taken, and
      reported abandoned when its previous owner died holding it. */
  function WaitZero(owner: Option<Pid>, abandoned: bool, pid: Pid): WaitResult
  {
    if owner.None? then (if abandoned then WaitAbandoned else WaitObject0)
    else if owner == Some(pid) then WaitObject0
    else WaitTimeout
  }

  /** rm_ipc_owner_try_acquire keeps the handle on these two results only. */
  predicate Acquired(w: WaitResult) { w == WaitObject0 || w == WaitAbandoned }

  /** Processes holding a handle to the service event. */
  function EventHolders(procs: map<Pid, ProcessGlobals>): set<Pid>
  {
    set p | p in procs && procs[p].serviceEvent
  }

  /** Replacing one process's statics moves the event's handle count by
      exactly the change in that process's `serviceEvent`. */
  lemma EventHolderCount(procs: map<Pid, ProcessGlobals>, pid: Pid, g: ProcessGlobals)
    requires pid in procs
    ensures |EventHolders(procs[pid := g])| ==
      |EventHolders(procs)| - (if procs[pid].serviceEvent then 1 else 0) + (if g.serviceEvent then 1 else 0)
  {
    var rest := EventHolders(procs - {pid});
    CountWith(rest, pid, procs[pid].serviceEvent);
    CountWith(rest, pid, g.serviceEvent);
    HoldersSplit(procs, pid);
    HoldersSplit(procs[pid := g], pid);
    assert procs[pid := g] - {pid} == procs - {pid};
  }

  /** The holders are those of the other processes, plus `pid` if it holds one. */
  lemma HoldersSplit(procs: map<Pid, ProcessGlobals>, pid: Pid)
    requires pid in procs
    ensures pid !in EventHolders(procs - {pid})
    ensures EventHolders(procs) == EventHolders(procs - {pid}) + (if procs[pid].serviceEvent then {pid} else {})
  {
  }

  lemma CountWith(rest: set<Pid>, pid: Pid, present: bool)
    requires pid !in rest
    ensures |rest + (if present then {pid} else {})| == |rest| + (if present then 1 else 0)
  {
  }

  /** A process leaving takes its handle (if any) with it. */
  lemma EventHolderCountRemove(procs: map<Pid, ProcessGlobals>, pid: Pid)
    requires pid in procs
    ensures |EventHolders(procs - {pid})| == |EventHolders(procs)| - (if procs[pid].serviceEvent then 1 else 0)
  {
    HoldersSplit(procs, pid);
    CountWith(EventHolders(procs - {pid}), pid, procs[pid].serviceEvent);
  }

  /** A new process holds no handle. */
  lemma EventHolderCountAdd(procs: map<Pid, ProcessGlobals>, pid: Pid)
    requires pid !in procs
    ensures EventHolders(procs[pid := FreshProcess]) == EventHolders(procs)
  {
  }

  /** The event exists (can be opened) exactly when some process holds a handle. */
  lemma {:induction false} EventExistsIffHolder(procs: map<Pid, ProcessGlobals>)
    ensures |EventHolders(procs)| > 0 <==> exists p :: p in procs && procs[p].serviceEvent
  {
    if exists p :: p in procs && procs[p].serviceEvent {
      var p :| p in procs && procs[p].serviceEvent;
      assert p in EventHolders(procs);
    }
  }

  /** The named mutex is owned by exactly the process whose held flag is set. */
  ghost predicate OwnershipCoherent(procs: map<Pid, ProcessGlobals>, owner: Option<Pid>)
  {
    && (owner.Some? ==> owner.value in procs && procs[owner.value].ownerHeld)
    && (forall p :: p in procs && procs[p].ownerHeld ==> owner == Some(p))
  }

  /** With one OS owner, at most one process has `g_ipc_owner_held` set. */
  lemma AtMostOneHolder(procs: map<Pid, ProcessGlobals>, owner: Option<Pid>, p: Pid, q: Pid)
    requires OwnershipCoherent(procs, owner)
    requires p in procs && q in procs && procs[p].ownerHeld && procs[q].ownerHeld
    ensures p == q
  {
  }

  /** The retry loop of rm_ipc_read over the three observed attempts, with
      the correction: a copy only from a stable attempt, None when the loop
      gives up or ends without one. */
  method SeqlockRead(obs: seq<Attempt>) returns (copy: Option<Snapshot>)
    requires |obs| == ReadAttempts
    ensures copy == SeqlockCopyFixed(obs, 0)
  {
    var snapshot := ZeroSnapshot;
    var attempt := 0;
    while attempt < ReadAttempts
      invariant 0 <= attempt <= ReadAttempts
      invariant SeqlockCopyFixed(obs, 0) == SeqlockCopyFixed(obs, attempt)
    {
      var seq1 := obs[attempt].seq1;
      if Odd(seq1) {
        attempt := attempt + 1;
        continue;
      }
      snapshot := obs[attempt].copy;
      var seq2 := obs[attempt].seq2;
      if seq1 == seq2 && !Odd(seq2) {
        return Some(snapshot);
      }
      if attempt == ReadAttempts - 1 {
        return None;
      }
      attempt := attempt + 1;
    }
    // The correction: no stable attempt means no trustworthy copy.
    copy := None;
  }

  /** rm_ipc_read once the record is mapped and all value pointers are
      non-null: the header check, the retry loop and the checks after it. */
  method ReadRecord(req: ReadRequest, version: uint32, size: uint32, obs: seq<Attempt>, now: uint64)
    returns (r: IpcResult, output: Option<Reading>)
    requires req.hasTemperature && req.hasPower && req.hasUsage && |obs| == ReadAttempts
    ensures ReadReply(r, output) == ReadOutcome(req, Some(Header(version, size)), obs, now)
  {
    if version != IpcVersion || size != RecordSize {
      return IpcNotReady, None;
    }
    var copy := SeqlockRead(obs);
    if copy.None? {
      return IpcNotReady, None;
    }
    var snapshot := copy.value;
    if snapshot.timestampMs == 0 {
      return IpcNotReady, None;
    }
    if req.maxAgeMs > 0 {
      if now >= snapshot.timestampMs && now - snapshot.timestampMs > req.maxAgeMs {
        return IpcStale, None;
      }
    }
    var status := if req.hasStatus then Some(Uint32ToInt32(snapshot.status)) else None;
    r, output := IpcOk, Some(Reading(snapshot.temperatureC, snapshot.powerW, snapshot.usagePercent, status));
  }

  class Host {
    /** The named file mapping, once some process has created it. */
    var segment: SharedRecord?
    /** The named owner mutex: its owning process and WAIT_ABANDONED flag. */
    var mutexOwner: Option<Pid>
    var mutexAbandoned: bool
    /** Open handles to the named service event; it exists while this is positive. */
    var eventHandles: nat
    /** Each running process's statics. */
    var procs: map<Pid, ProcessGlobals>

    ghost predicate Valid()
      reads this
    {
      && (forall p :: p in procs && procs[p].mapped ==> segment != null)
      && (forall p :: p in procs ==> (procs[p].ownerHeld <==> procs[p].ownerMutex))
      && OwnershipCoherent(procs, mutexOwner)
      && eventHandles == |EventHolders(procs)|
    }

    /** The live record's header as a process sees it: None if it has no view. */
    function HeaderFor(pid: Pid): Option<Header>
      requires pid in procs
      reads this, segment
    {
      if procs[pid].mapped && segment != null then Some(Header(segment.version, segment.size)) else None
    }

    constructor ()
      ensures Valid()
      ensures segment == null && mutexOwner == None && !mutexAbandoned && eventHandles == 0 && procs == map[]
    {
      segment := null;
      mutexOwner := None;
      mutexAbandoned := false;
      eventHandles := 0;
      procs := map[];
      assert EventHolders(map[]) == {};
    }

    /** A process starts: all its statics are null/false. */
    method Spawn(pid: Pid)
      requires Valid() && pid !in procs
      modifies this
      ensures Valid()
      ensures procs == old(procs)[pid := FreshProcess]
      ensures segment == old(segment) && mutexOwner == old(mutexOwner)
      ensures mutexAbandoned == old(mutexAbandoned) && eventHandles == old(eventHandles)
    {
      EventHolderCountAdd(procs, pid);
      procs := procs[pid := FreshProcess];
    }

    /** A process ends, however it ends: the OS closes its handles. A held
        mutex becomes abandoned, its event handle goes, and the mapping is torn
        down once no process maps it. */
    method Exit(pid: Pid)
      requires Valid() && pid in procs
      modifies this
      ensures Valid()
      ensures procs == old(procs) - {pid}
      ensures old(procs[pid].ownerHeld) ==> mutexOwner == None && mutexAbandoned
      ensures !old(procs[pid].ownerHeld) ==> mutexOwner == old(mutexOwner) && mutexAbandoned == old(mutexAbandoned)
      ensures eventHandles == old(eventHandles) - (if old(procs[pid].serviceEvent) then 1 else 0)
      ensures segment == null || segment == old(segment)
    {
      var g := procs[pid];
      if g.ownerHeld {
        mutexOwner := None;
        mutexAbandoned := true;
      }
      EventHolderCountRemove(procs, pid);
      if g.serviceEvent {
        eventHandles := eventHandles - 1;
      }
      procs := procs - {pid};
      if !(exists p :: p in procs && procs[p].mapped) {
        segment := null;
      }
    }

    /** GetSharedTelemetry: the cached view, or create/open the mapping and map
        it. `mapOk` and `viewOk` are the outcomes of CreateFileMappingW and
        MapViewOfFile. The creator zeroes the record and stamps version/size. */
    method GetSharedTelemetry(pid: Pid, mapOk: bool, viewOk: bool) returns (rec: SharedRecord?)
      requires Valid() && pid in procs
      modifies this, segment
      ensures Valid()
      ensures procs.Keys == old(procs.Keys)
      ensures mutexOwner == old(mutexOwner) && mutexAbandoned == old(mutexAbandoned) && eventHandles == old(eventHandles)
      ensures forall p :: p in procs && p != pid ==> procs[p] == old(procs[p])
      ensures procs[pid] == old(procs[pid]).(mapped := procs[pid].mapped)
      ensures rec != null <==> procs[pid].mapped
      ensures rec != null ==> rec == segment
      ensures old(procs[pid].mapped) ==> rec == old(segment) && unchanged(old(segment))
      ensures !old(procs[pid].mapped) ==> (procs[pid].mapped <==> mapOk && viewOk)
      ensures !old(procs[pid].mapped) && mapOk && viewOk && old(segment) == null ==>
        fresh(segment) && segment.Contents() == CreatedSnapshot
      ensures old(segment) != null ==> segment == old(segment) && unchanged(old(segment))
      ensures rec == null ==> segment == old(segment)
    {
      if procs[pid].mapped {
        return segment;
      }
      if !mapOk {
        return null;
      }
      var created := segment == null;
      if !viewOk {
        // The map handle is closed again; a mapping this call created disappears with it.
        return null;
      }
      if created {
        segment := new SharedRecord.Zeroed();
        segment.ZeroAndStamp();
      }
      EventHolderCount(procs, pid, procs[pid].(mapped := true));
      procs := procs[pid := procs[pid].(mapped := true)];
      rec := segment;
    }

    /** rm_ipc_publish: IPC_ERROR when the record cannot be mapped, otherwise
        one complete publish stamped with `now` and the caller's pid. */
    method Publish(pid: Pid, mapOk: bool, viewOk: bool, temperature: Double, power: Double, usage: Double,
                   status: int32, now: uint64) returns (r: IpcResult)
      requires Valid() && pid in procs
      modifies this, segment
      ensures Valid()
      ensures procs.Keys == old(procs.Keys)
      ensures mutexOwner == old(mutexOwner) && mutexAbandoned == old(mutexAbandoned) && eventHandles == old(eventHandles)
      ensures forall p :: p in procs && p != pid ==> procs[p] == old(procs[p])
      ensures procs[pid] == old(procs[pid]).(mapped := procs[pid].mapped)
      ensures !old(procs[pid].mapped) ==> (procs[pid].mapped <==> mapOk && viewOk)
      ensures r == IpcError ==> segment == old(segment)
      ensures r == IpcOk || r == IpcError
      ensures r == IpcOk <==> procs[pid].mapped
      ensures r == IpcOk ==> (segment != null && segment.Contents() ==
        Published(if old(segment) == null then CreatedSnapshot else old(segment.Contents()),
                  temperature, power, usage, status, now, pid))
    {
      var rec := GetSharedTelemetry(pid, mapOk, viewOk);
      if rec == null {
        return IpcError;
      }
      rec.Publish(temperature, power, usage, status, now, pid);
      r := IpcOk;
    }

    /** rm_ipc_read, given per attempt what the reader observes, with the
        retry loop corrected to refuse a copy no stable attempt confirmed. */
    method Read(pid: Pid, req: ReadRequest, mapOk: bool, viewOk: bool, obs: seq<Attempt>, now: uint64)
      returns (r: IpcResult, output: Option<Reading>)
      requires Valid() && pid in procs && |obs| == ReadAttempts
      modifies this, segment
      ensures Valid()
      ensures procs.Keys == old(procs.Keys)
      ensures mutexOwner == old(mutexOwner) && mutexAbandoned == old(mutexAbandoned) && eventHandles == old(eventHandles)
      ensures forall p :: p in procs && p != pid ==> procs[p] == old(procs[p])
      ensures procs[pid] == old(procs[pid]).(mapped := procs[pid].mapped)
      ensures req.hasTemperature && req.hasPower && req.hasUsage && !old(procs[pid].mapped) ==>
        (procs[pid].mapped <==> mapOk && viewOk)
      ensures !procs[pid].mapped ==> segment == old(segment)
      ensures old(segment) != null ==> unchanged(old(segment))
      ensures !(req.hasTemperature && req.hasPower && req.hasUsage) ==> procs == old(procs) && segment == old(segment)
      ensures ReadReply(r, output) == ReadOutcome(req, HeaderFor(pid), obs, now)
    {
      if !req.hasTemperature || !req.hasPower || !req.hasUsage {
        return IpcError, None;
      }
      var shared := GetSharedTelemetry(pid, mapOk, viewOk);
      if shared == null {
        return IpcNotReady, None;
      }
      assert HeaderFor(pid) == Some(Header(shared.version, shared.size));
      r, output := ReadRecord(req, shared.version, shared.size, obs, now);
    }

    /** rm_ipc_service_start: 1 at once if this process already has the event;
        otherwise create/open it (`createOk`), 0 on failure. */
    method ServiceStart(pid: Pid, createOk: bool) returns (r: int)
      requires Valid() && pid in procs
      modifies this
      ensures Valid()
      ensures segment == old(segment) && mutexOwner == old(mutexOwner) && mutexAbandoned == old(mutexAbandoned)
      ensures old(procs[pid].serviceEvent) ==> r == 1 && procs == old(procs) && eventHandles == old(eventHandles)
      ensures !old(procs[pid].serviceEvent) ==>
        && (r == 1 <==> createOk) && (r == 0 || r == 1)
        && procs == old(procs)[pid := old(procs[pid]).(serviceEvent := createOk)]
        && eventHandles == old(eventHandles) + (if createOk then 1 else 0)
    {
      if procs[pid].serviceEvent {
        return 1;
      }
      if !createOk {
        return 0;
      }
      EventHolderCount(procs, pid, procs[pid].(serviceEvent := true));
      procs := procs[pid := procs[pid].(serviceEvent := true)];
      eventHandles := eventHandles + 1;
      // SetEvent: the signalled state carries no meaning.
      r := 1;
    }

    /** rm_ipc_service_stop: close and forget this process's event handle. */
    method ServiceStop(pid: Pid)
      requires Valid() && pid in procs
      modifies this
      ensures Valid()
      ensures segment == old(segment) && mutexOwner == old(mutexOwner) && mutexAbandoned == old(mutexAbandoned)
      ensures procs == old(procs)[pid := old(procs[pid]).(serviceEvent := false)]
      ensures eventHandles == old(eventHandles) - (if old(procs[pid].serviceEvent) then 1 else 0)
    {
      EventHolderCount(procs, pid, procs[pid].(serviceEvent := false));
      if procs[pid].serviceEvent {
        eventHandles := eventHandles - 1;
      }
      procs := procs[pid := procs[pid].(serviceEvent := false)];
    }

    /** rm_ipc_is_service_running: OpenEventW succeeds exactly while some
        process holds a handle to the event; the probe's own handle is closed
        again at once. */
    method IsServiceRunning() returns (r: int)
      requires Valid()
      ensures r == 0 || r == 1
      ensures r == 1 <==> exists p :: p in procs && procs[p].serviceEvent
    {
      EventExistsIffHolder(procs);
      r := if eventHandles > 0 then 1 else 0;
    }

    /** rm_ipc_owner_try_acquire: 1 at once when already held; otherwise
        create/open the mutex (`createOk`) and wait with zero timeout. */
    method OwnerTryAcquire(pid: Pid, createOk: bool) returns (r: int)
      requires Valid() && pid in procs
      modifies this
      ensures Valid()
      ensures segment == old(segment) && eventHandles == old(eventHandles)
      ensures procs.Keys == old(procs.Keys)
      ensures forall p :: p in procs && p != pid ==> procs[p] == old(procs[p])
      ensures r == 0 || r == 1
      ensures r == 1 <==> procs[pid].ownerHeld
      ensures old(procs[pid].ownerHeld) ==> r == 1 && procs == old(procs) && mutexOwner == old(mutexOwner)
      ensures !old(procs[pid].ownerHeld) ==>
        (r == 1 <==> createOk && Acquired(WaitZero(old(mutexOwner), old(mutexAbandoned), pid)))
      ensures r == 1 ==> mutexOwner == Some(pid)
      ensures !old(procs[pid].ownerHeld) && r == 1 ==>
        procs == old(procs)[pid := old(procs[pid]).(ownerMutex := true, ownerHeld := true)] && !mutexAbandoned
      ensures r == 0 ==> procs == old(procs) && mutexOwner == old(mutexOwner) && mutexAbandoned == old(mutexAbandoned)
    {
      if procs[pid].ownerHeld {
        return 1;
      }
      if !createOk {
        return 0;
      }
      var wait := WaitZero(mutexOwner, mutexAbandoned, pid);
      if wait == WaitObject0 || wait == WaitAbandoned {
        mutexOwner := Some(pid);
        mutexAbandoned := false;
        EventHolderCount(procs, pid, procs[pid].(ownerMutex := true, ownerHeld := true));
        procs := procs[pid := procs[pid].(ownerMutex := true, ownerHeld := true)];
        return 1;
      }
      // CloseHandle(mutex): nothing of this process's state changes.
      r := 0;
    }

    /** rm_ipc_owner_release: with a handle open, release the mutex if held,
        close the handle and clear both statics; otherwise nothing. */
    method OwnerRelease(pid: Pid)
      requires Valid() && pid in procs
      modifies this
      ensures Valid()
      ensures segment == old(segment) && eventHandles == old(eventHandles)
      ensures procs == old(procs)[pid := old(procs[pid]).(ownerMutex := false, ownerHeld := false)]
      ensures old(procs[pid].ownerHeld) ==> mutexOwner == None && mutexAbandoned == old(mutexAbandoned)
      ensures !old(procs[pid].ownerMutex) ==> procs == old(procs) && mutexOwner == old(mutexOwner)
      ensures !old(procs[pid].ownerHeld) ==> mutexOwner == old(mutexOwner) && mutexAbandoned == old(mutexAbandoned)
    {
      if procs[pid].ownerMutex {
        if procs[pid].ownerHeld {
          // ReleaseMutex
          mutexOwner := None;
        }
        EventHolderCount(procs, pid, procs[pid].(ownerMutex := false, ownerHeld := false));
        procs := procs[pid := procs[pid].(ownerMutex := false, ownerHeld := false)];
      }
    }
  }

  /** Two processes racing for a free mutex: the first to try gets it, and
      the other's try-acquire returns 0 until the holder lets go, by
      rm_ipc_owner_release or by dying without releasing (WAIT_ABANDONED).
      Either way the other process's next try gets it. */
  method OwnershipScenario(h: Host, a: Pid, b: Pid, holderExits: bool) returns (ra: int, rb: int, rbAfter: int)
    requires h.Valid() && a in h.procs && b in h.procs && a != b
    requires h.mutexOwner == None
    modifies h
    ensures h.Valid()
    ensures ra == 1 && rb == 0 && rbAfter == 1
    ensures h.mutexOwner == Some(b)
    ensures holderExits ==> a !in h.procs
    ensures !holderExits ==> a in h.procs && !h.procs[a].ownerHeld
  {
    ra := h.OwnerTryAcquire(a, true);
    assert h.mutexOwner == Some(a);
    rb := h.OwnerTryAcquire(b, true);
    if holderExits {
      h.Exit(a);
    } else {
      h.OwnerRelease(a);
    }
    assert h.mutexOwner == None;
    rbAfter := h.OwnerTryAcquire(b, true);
  }

}
