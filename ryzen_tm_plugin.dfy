/** The TrafficMonitor plugin of tm_plugin/RyzenTMPlugin.cpp: each
    `DataRequired` tick decides between reading the shared record, taking
    ownership and driving the SDK itself, serving cached text, or "N/A".

    Every call out of the plugin is either answered by a `Tick` (the
    environment of one tick) or recorded in the returned list of `Call`s.
    All `GetTickCount64` calls of one tick read the same `now`. */
module RyzenTMPlugin {
  import opened BoundedInts
  import opened Wrappers
  import Telemetry

  const StatusOk: int := 0
  const InitRetryMs: uint64 := 10000
  const IpcMaxAgeMs: uint32 := 4000
  const CacheGraceMs: uint64 := 5000
  const NotAvailableText: string := "N/A"
  const UnavailableTooltip: string := "Ryzen SDK unavailable"
  const WaitingForServiceTooltip: string := "Waiting for service data"

  /** The three items, in `values_` order. */
  datatype ItemIndex = Temp | Usage | Power {
    function ToIndex(): (i: nat)
      ensures i < ItemCount
    {
      match this
      case Temp => 0
      case Usage => 1
      case Power => 2
    }
  }
  const ItemCount: nat := 3

  /** An opaque `RMMonitorContext*` returned by rm_monitor_init. */
  datatype Handle = Handle(id: nat)

  /** A temperature/power/usage triple as the plugin passes it around. */
  datatype Values = Values(temperature: Telemetry.Double, power: Telemetry.Double, usage: Telemetry.Double)
  const ZeroValues: Values := Values(Telemetry.ZeroDouble, Telemetry.ZeroDouble, Telemetry.ZeroDouble)

  /** An item's text: a fixed string, or a `%.0f` rendering of a value with
      its unit (the rendering itself is not modelled). */
  datatype Cell = Fixed(text: string) | Formatted(value: Telemetry.Double, unit: string)

  const TempUnit: string := " \U{2103}"
  const UsageUnit: string := " %"
  const PowerUnit: string := " W"

  /** The member fields of RyzenMonitorPlugin that DataRequired reads and writes. */
  datatype PluginState = PluginState(
    ownsSdk: bool,
    ctx: Option<Handle>,
    hasCache: bool,
    lastUpdateMs: uint64,
    lastInitAttempt: uint64,
    lastStatus: int,
    values: seq<Cell>,
    tooltip: string)

  /** The answers to one tick's calls out of the plugin. */
  datatype InitReply = InitReply(status: int, ctx: Option<Handle>)
  datatype MonitorReply = MonitorReply(status: int, values: Values)
  datatype Tick = Tick(
    now: uint64,
    serviceRunning: bool,
    ipc: Telemetry.ReadReply,
    acquireResult: int,
    sdkRoot: string,
    init: InitReply,
    read: MonitorReply)

  /** The calls the plugin makes into the telemetry library, in order. */
  datatype Call =
    | ProbeService
    | IpcRead(maxAgeMs: uint32)
    | TryAcquire
    | OwnerRelease
    | SetSdkPath(path: string)
    | MonitorInit
    | MonitorRead(ctx: Option<Handle>)
    | MonitorShutdown(handle: Handle)
    | IpcPublish(values: Values, status: int)

  datatype Outcome = Outcome(state: PluginState, calls: seq<Call>)

  /** `ctx_` is only ever set while ownership is held, and there are always
      three item texts. */
  predicate Inv(s: PluginState)
  {
    (s.ctx.Some? ==> s.ownsSdk) && |s.values| == ItemCount
  }

  // ---------------------------------------------------------------------
  // Specification of each member function
  // ---------------------------------------------------------------------

  /** ReleaseSdkOwnership (with ShutdownContext inlined). */
  function Release(s: PluginState): Outcome
  {
    if !s.ownsSdk then Outcome(s, [])
    else Outcome(s.(ctx := None, ownsSdk := false),
                 (if s.ctx.Some? then [MonitorShutdown(s.ctx.value)] else []) + [OwnerRelease])
  }

  /** The test in UseCachedValuesIfFresh. */
  predicate CacheFresh(s: PluginState, now: uint64, maxAgeMs: uint64)
  {
    s.hasCache && !(now < s.lastUpdateMs || now - s.lastUpdateMs > maxAgeMs)
  }

  function TooltipText(tip: Option<string>): string
  {
    tip.GetOr("")
  }

  /** The state UseCachedValuesIfFresh leaves. */
  function CachedIfFresh(s: PluginState, now: uint64, maxAgeMs: uint64, tip: Option<string>): PluginState
  {
    if CacheFresh(s, now, maxAgeMs) then s.(tooltip := TooltipText(tip)) else s
  }

  function Unavailable(s: PluginState, tip: Option<string>): PluginState
  {
    s.(values := [Fixed(NotAvailableText), Fixed(NotAvailableText), Fixed(NotAvailableText)],
       tooltip := TooltipText(tip))
  }

  function Updated(s: PluginState, v: Values, now: uint64): PluginState
  {
    s.(values := [Formatted(v.temperature, TempUnit), Formatted(v.usage, UsageUnit), Formatted(v.power, PowerUnit)],
       hasCache := true, lastUpdateMs := now)
  }

  /** What the tick falls back to: cached text with `tip`, else "N/A". */
  function FallBackState(s: PluginState, now: uint64, tip: string): PluginState
  {
    if CacheFresh(s, now, CacheGraceMs) then CachedIfFresh(s, now, CacheGraceMs, Some(tip))
    else Unavailable(s, Some(UnavailableTooltip))
  }

  /** Rendered values with the tooltip cleared. */
  function Shown(s: PluginState, v: Values, now: uint64): PluginState
  {
    Updated(s, v, now).(tooltip := "")
  }

  /** The status rm_ipc_read leaves in TryReadIpc's local (initially OK). */
  function IpcStatus(r: Telemetry.ReadReply): int
  {
    if r.output.Some? && r.output.value.status.Some? then r.output.value.status.value as int else StatusOk
  }

  /** The three doubles after rm_ipc_read (0.0 unless written). */
  function IpcValues(r: Telemetry.ReadReply): Values
  {
    if r.output.Some? then Values(r.output.value.temperatureC, r.output.value.powerW, r.output.value.usagePercent)
    else ZeroValues
  }

  /** TryReadIpc's result: both the call and the status it reports are OK. */
  predicate IpcGood(r: Telemetry.ReadReply)
  {
    r.result == Telemetry.IpcOk && IpcStatus(r) == StatusOk
  }

  /** The request TryReadIpc makes: all four pointers and a 4 s age limit. */
  const PluginReadRequest: Telemetry.ReadRequest := Telemetry.ReadRequest(true, true, true, true, IpcMaxAgeMs)

  datatype InitStep = InitStep(ok: bool, state: PluginState, calls: seq<Call>)

  /** EnsureInitialized: already initialised, backing off, or one attempt. */
  function EnsureInit(s: PluginState, t: Tick): InitStep
  {
    if s.ctx.Some? then InitStep(true, s, [])
    else if Sub64(t.now, s.lastInitAttempt) < InitRetryMs then InitStep(false, s, [])
    else
      var tried := s.(lastInitAttempt := t.now, lastStatus := t.init.status);
      var calls := (if t.sdkRoot != [] then [SetSdkPath(t.sdkRoot)] else []) + [MonitorInit];
      if t.init.status != StatusOk then
        InitStep(false, tried, calls + (if t.init.ctx.Some? then [MonitorShutdown(t.init.ctx.value)] else []))
      else
        InitStep(true, tried.(ctx := t.init.ctx), calls)
  }

  /** rm_monitor_read's status when given `ctx`: a null context is INVALID_ARG. */
  function ReadStatus(ctx: Option<Handle>, t: Tick): int
  {
    if ctx.None? then Telemetry.StatusInvalidArg else t.read.status
  }

  /** The rest of the tick once this plugin owns the SDK. */
  function OwnedTick(s: PluginState, t: Tick, before: seq<Call>): Outcome
  {
    var init := EnsureInit(s, t);
    if !init.ok then
      var rel := Release(init.state);
      Outcome(FallBackState(rel.state, t.now, UnavailableTooltip), before + init.calls + rel.calls)
    else
      var ctx := init.state.ctx;
      var read := before + init.calls + [MonitorRead(ctx)];
      if ReadStatus(ctx, t) != StatusOk then
        var rel := Release(init.state);
        Outcome(FallBackState(rel.state, t.now, UnavailableTooltip), read + rel.calls)
      else
        Outcome(Shown(init.state, t.read.values, t.now), read + [IpcPublish(t.read.values, StatusOk)])
  }

  /** DataRequired. */
  function Step(s: PluginState, t: Tick): Outcome
  {
    if t.serviceRunning then
      var rel := Release(s);
      var calls := [ProbeService] + rel.calls + [IpcRead(IpcMaxAgeMs)];
      if IpcGood(t.ipc) then Outcome(Shown(rel.state, IpcValues(t.ipc), t.now), calls)
      else Outcome(FallBackState(rel.state, t.now, WaitingForServiceTooltip), calls)
    else if !s.ownsSdk then
      var probed := [ProbeService, IpcRead(IpcMaxAgeMs)];
      if IpcGood(t.ipc) then Outcome(Shown(s, IpcValues(t.ipc), t.now), probed)
      else if t.acquireResult == 0 then Outcome(FallBackState(s, t.now, UnavailableTooltip), probed + [TryAcquire])
      else OwnedTick(s.(ownsSdk := true), t, probed + [TryAcquire])
    else OwnedTick(s, t, [ProbeService])
  }

  // ---------------------------------------------------------------------
  // The plugin object
  // ---------------------------------------------------------------------

  class RyzenMonitorPlugin {
    var ownsSdk: bool
    var ctx: Option<Handle>
    var hasCache: bool
    var lastUpdateMs: uint64
    var lastInitAttempt: uint64
    var lastStatus: int
    var values: seq<Cell>
    var tooltip: string

    function State(): PluginState
      reads this
    {
      PluginState(ownsSdk, ctx, hasCache, lastUpdateMs, lastInitAttempt, lastStatus, values, tooltip)
    }

    /** The private constructor: member defaults, then SetUnavailable(L""). */
    constructor ()
      ensures State() == Unavailable(PluginState(false, None, false, 0, 0, StatusOk, [], ""), Some(""))
      ensures Inv(State())
    {
      ownsSdk, ctx, hasCache := false, None, false;
      lastUpdateMs, lastInitAttempt, lastStatus := 0, 0, StatusOk;
      values := [Fixed(NotAvailableText), Fixed(NotAvailableText), Fixed(NotAvailableText)];
      tooltip := "";
    }

    /** The text of one item (`GetItemValueText`). */
    function ValueText(i: ItemIndex): Cell
      requires |values| == ItemCount
      reads this
    {
      values[i.ToIndex()]
    }

    method ShutdownContext() returns (calls: seq<Call>)
      modifies this
      ensures State() == old(State()).(ctx := None)
      ensures calls == if old(ctx).Some? then [MonitorShutdown(old(ctx).value)] else []
    {
      calls := [];
      if ctx.Some? {
        calls := [MonitorShutdown(ctx.value)];
        ctx := None;
      }
    }

    method ReleaseSdkOwnership() returns (calls: seq<Call>)
      modifies this
      ensures State() == Release(old(State())).state
      ensures calls == Release(old(State())).calls
    {
      calls := [];
      if ownsSdk {
        calls := ShutdownContext();
        calls := calls + [OwnerRelease];
        ownsSdk := false;
      }
    }

    method UseCachedValuesIfFresh(now: uint64, maxAgeMs: uint64, tip: Option<string>) returns (served: bool)
      modifies this
      ensures served == CacheFresh(old(State()), now, maxAgeMs)
      ensures State() == CachedIfFresh(old(State()), now, maxAgeMs, tip)
    {
      if !hasCache {
        return false;
      }
      if now < lastUpdateMs || now - lastUpdateMs > maxAgeMs {
        return false;
      }
      if tip.Some? {
        tooltip := tip.value;
      } else {
        tooltip := "";
      }
      served := true;
    }

    method SetUnavailable(tip: Option<string>)
      requires |values| == ItemCount
      modifies this
      ensures State() == Unavailable(old(State()), tip)
    {
      var i := 0;
      while i < ItemCount
        invariant 0 <= i <= ItemCount && |values| == ItemCount
        invariant forall j :: 0 <= j < i ==> values[j] == Fixed(NotAvailableText)
        invariant State() == old(State()).(values := values)
      {
        values := values[i := Fixed(NotAvailableText)];
        i := i + 1;
      }
      assert values == [Fixed(NotAvailableText), Fixed(NotAvailableText), Fixed(NotAvailableText)];
      if tip.Some? {
        tooltip := tip.value;
      } else {
        tooltip := "";
      }
    }

    method UpdateValues(v: Values, now: uint64)
      modifies this
      ensures State() == Updated(old(State()), v, now)
    {
      values := [Formatted(v.temperature, TempUnit), Formatted(v.usage, UsageUnit), Formatted(v.power, PowerUnit)];
      hasCache := true;
      lastUpdateMs := now;
    }

    method EnsureInitialized(t: Tick) returns (ok: bool, calls: seq<Call>)
      modifies this
      ensures ok == EnsureInit(old(State()), t).ok
      ensures State() == EnsureInit(old(State()), t).state
      ensures calls == EnsureInit(old(State()), t).calls
    {
      calls := [];
      if ctx.Some? {
        return true, calls;
      }
      var now := t.now;
      if Sub64(now, lastInitAttempt) < InitRetryMs {
        return false, calls;
      }
      lastInitAttempt := now;
      if t.sdkRoot != [] {
        calls := calls + [SetSdkPath(t.sdkRoot)];
      }
      calls := calls + [MonitorInit];
      var status := t.init.status;
      var created := t.init.ctx;
      lastStatus := status;
      if status != StatusOk {
        if created.Some? {
          calls := calls + [MonitorShutdown(created.value)];
        }
        return false, calls;
      }
      ctx := created;
      ok := true;
    }

    /** The fallback both branches share. */
    method FallBack(now: uint64, tip: string)
      requires |values| == ItemCount
      modifies this
      ensures State() == FallBackState(old(State()), now, tip)
    {
      var served := UseCachedValuesIfFresh(now, CacheGraceMs, Some(tip));
      if served {
        return;
      }
      SetUnavailable(Some(UnavailableTooltip));
    }

    /** The second half of DataRequired, from the point where this plugin
        owns the SDK; `before` are the calls already made this tick. */
    method OwnedPart(t: Tick, before: seq<Call>) returns (calls: seq<Call>)
      requires |values| == ItemCount
      modifies this
      ensures State() == OwnedTick(old(State()), t, before).state
      ensures calls == OwnedTick(old(State()), t, before).calls
    {
      var ok, initCalls := EnsureInitialized(t);
      calls := before + initCalls;
      if !ok {
        var rel := ReleaseSdkOwnership();
        calls := calls + rel;
        FallBack(t.now, UnavailableTooltip);
        return;
      }
      calls := calls + [MonitorRead(ctx)];
      var status := ReadStatus(ctx, t);
      if status != StatusOk {
        var rel := ReleaseSdkOwnership();
        calls := calls + rel;
        FallBack(t.now, UnavailableTooltip);
        return;
      }
      calls := calls + [IpcPublish(t.read.values, status)];
      UpdateValues(t.read.values, t.now);
      tooltip := "";
    }

    /** The branch of DataRequired taken while the service runs: give up
      ownership, then read only over IPC. */
    method ServiceRunningPart(t: Tick) returns (calls: seq<Call>)
      requires t.serviceRunning && |values| == ItemCount
      modifies this
      ensures State() == Step(old(State()), t).state
      ensures calls == Step(old(State()), t).calls
    {
      calls := [ProbeService];
      if ownsSdk {
        var rel := ReleaseSdkOwnership();
        calls := calls + rel;
      }
      calls := calls + [IpcRead(IpcMaxAgeMs)];
      if IpcGood(t.ipc) {
        UpdateValues(IpcValues(t.ipc), t.now);
        tooltip := "";
        return;
      }
      FallBack(t.now, WaitingForServiceTooltip);
    }

    /** The branch of DataRequired taken by a process that does not own the
      SDK: IPC first, then one attempt to become the owner. */
    method PeerPart(t: Tick) returns (calls: seq<Call>)
      requires !t.serviceRunning && !ownsSdk && |values| == ItemCount
      modifies this
      ensures State() == Step(old(State()), t).state
      ensures calls == Step(old(State()), t).calls
    {
      calls := [ProbeService, IpcRead(IpcMaxAgeMs)];
      if IpcGood(t.ipc) {
        UpdateValues(IpcValues(t.ipc), t.now);
        tooltip := "";
        return;
      }
      calls := calls + [TryAcquire];
      if t.acquireResult == 0 {
        FallBack(t.now, UnavailableTooltip);
        return;
      }
      ownsSdk := true;
      calls := OwnedPart(t, calls);
    }

    method DataRequired(t: Tick) returns (calls: seq<Call>)
      requires Inv(State())
      modifies this
      ensures State() == Step(old(State()), t).state
      ensures calls == Step(old(State()), t).calls
      ensures Inv(State())
    {
      StepPreservesInv(State(), t);
      if t.serviceRunning {
        calls := ServiceRunningPart(t);
      } else if !ownsSdk {
        calls := PeerPart(t);
      } else {
        calls := OwnedPart(t, [ProbeService]);
      }
    }
  }

  // ---------------------------------------------------------------------
  // Properties of a tick
  // ---------------------------------------------------------------------

  /** Every tick keeps `ctx_ != nullptr ==> owns_sdk_` and the three texts. */
  lemma StepPreservesInv(s: PluginState, t: Tick)
    requires Inv(s)
    ensures Inv(Step(s, t).state)
  {
    if t.serviceRunning || (!s.ownsSdk && (IpcGood(t.ipc) || t.acquireResult == 0)) {
    } else if !s.ownsSdk {
      var before := [ProbeService, IpcRead(IpcMaxAgeMs), TryAcquire];
      assert Step(s, t) == OwnedTick(s.(ownsSdk := true), t, before);
      OwnedTickKeepsInv(s.(ownsSdk := true), t, before);
    } else {
      OwnedTickKeepsInv(s, t, [ProbeService]);
    }
  }

  lemma OwnedTickKeepsInv(s: PluginState, t: Tick, before: seq<Call>)
    requires Inv(s) && s.ownsSdk
    ensures Inv(OwnedTick(s, t, before).state)
  {
  }

  /** With a service running, the tick ends without ownership or a context. */
  lemma ServiceRunningReleases(s: PluginState, t: Tick)
    requires Inv(s) && t.serviceRunning
    ensures !Step(s, t).state.ownsSdk && Step(s, t).state.ctx.None?
    ensures TryAcquire !in Step(s, t).calls && MonitorInit !in Step(s, t).calls
  {
  }

  /** Without ownership, a good IPC read shows its values, clears the tooltip
      and never tries to acquire. */
  lemma PeerReadSkipsAcquire(s: PluginState, t: Tick)
    requires !t.serviceRunning && !s.ownsSdk && IpcGood(t.ipc)
    ensures Step(s, t) == Outcome(Shown(s, IpcValues(t.ipc), t.now), [ProbeService, IpcRead(IpcMaxAgeMs)])
    ensures Step(s, t).state.tooltip == "" && Step(s, t).state.lastUpdateMs == t.now
  {
  }

  /** EnsureInitialized tries nothing when a context exists (true) or when the
      last attempt was under 10 s ago (false); otherwise it stamps `now` first. */
  lemma InitBackoff(s: PluginState, t: Tick)
    ensures s.ctx.Some? ==> EnsureInit(s, t) == InitStep(true, s, [])
    ensures s.ctx.None? && Sub64(t.now, s.lastInitAttempt) < InitRetryMs ==> EnsureInit(s, t) == InitStep(false, s, [])
    ensures s.ctx.None? && Sub64(t.now, s.lastInitAttempt) >= InitRetryMs ==>
      && EnsureInit(s, t).state.lastInitAttempt == t.now
      && MonitorInit in EnsureInit(s, t).calls
      && (EnsureInit(s, t).ok <==> t.init.status == StatusOk)
  {
  }

  /** Once owned, a tick either reads successfully and publishes status 0
      (keeping ownership), or releases ownership as its last call and
      falls back; nothing is ever published while not owning. */
  lemma OwnedTickOutcome(s: PluginState, t: Tick)
    requires Inv(s) && !t.serviceRunning
    requires s.ownsSdk || (!IpcGood(t.ipc) && t.acquireResult != 0)
    ensures var o := Step(s, t);
      && |o.calls| > 0
      && (o.state.ownsSdk <==> o.calls[|o.calls| - 1] == IpcPublish(t.read.values, StatusOk))
      && (!o.state.ownsSdk ==> o.calls[|o.calls| - 1] == OwnerRelease && o.state.ctx.None?)
      && (o.state.ownsSdk ==> o.state == Shown(o.state, t.read.values, t.now) && o.state.ctx.Some?)
  {
    if s.ownsSdk {
      OwnedTickEnds(s, t, [ProbeService]);
    } else {
      var before := [ProbeService, IpcRead(IpcMaxAgeMs), TryAcquire];
      assert Step(s, t) == OwnedTick(s.(ownsSdk := true), t, before);
      OwnedTickEnds(s.(ownsSdk := true), t, before);
    }
  }

  lemma OwnedTickEnds(s: PluginState, t: Tick, before: seq<Call>)
    requires Inv(s) && s.ownsSdk
    ensures var o := OwnedTick(s, t, before);
      && |o.calls| > 0
      && (o.state.ownsSdk <==> o.calls[|o.calls| - 1] == IpcPublish(t.read.values, StatusOk))
      && (!o.state.ownsSdk ==> o.calls[|o.calls| - 1] == OwnerRelease && o.state.ctx.None?)
      && (o.state.ownsSdk ==> o.state == Shown(o.state, t.read.values, t.now) && o.state.ctx.Some?)
  {
  }

  predicate NoPublish(calls: seq<Call>)
  {
    forall i :: 0 <= i < |calls| ==> !calls[i].IpcPublish?
  }

  lemma NoPublishAppend(a: seq<Call>, b: seq<Call>)
    requires NoPublish(a) && NoPublish(b)
    ensures NoPublish(a + b)
  {
  }

  /** The property of a tick's calls: no publish at all, or exactly one, last,
      by the owner, with status 0 and the SDK's values. */
  predicate PublishesOnlyLast(o: Outcome, v: Values)
  {
    NoPublish(o.calls) || (
      && NoPublish(o.calls[..|o.calls| - 1])
      && o.calls[|o.calls| - 1] == IpcPublish(v, StatusOk)
      && o.state.ownsSdk)
  }

  /** A publish only comes from the owner, with status 0, as the last call,
      and carries the values the SDK read. */
  lemma PublishOnlyWhenOwned(s: PluginState, t: Tick)
    ensures PublishesOnlyLast(Step(s, t), t.read.values)
  {
    if t.serviceRunning {
      ServiceTickNoPublish(s, t);
    } else if !s.ownsSdk && (IpcGood(t.ipc) || t.acquireResult == 0) {
      PeerTickNoPublish(s, t);
    } else if !s.ownsSdk {
      var before := [ProbeService, IpcRead(IpcMaxAgeMs), TryAcquire];
      assert Step(s, t) == OwnedTick(s.(ownsSdk := true), t, before);
      OwnedTickPublishesLast(s.(ownsSdk := true), t, before);
    } else {
      assert Step(s, t) == OwnedTick(s, t, [ProbeService]);
      OwnedTickPublishesLast(s, t, [ProbeService]);
    }
  }

  lemma ServiceTickNoPublish(s: PluginState, t: Tick)
    requires t.serviceRunning
    ensures NoPublish(Step(s, t).calls)
  {
    NoPublishAppend([ProbeService], Release(s).calls);
    NoPublishAppend([ProbeService] + Release(s).calls, [IpcRead(IpcMaxAgeMs)]);
  }

  lemma PeerTickNoPublish(s: PluginState, t: Tick)
    requires !t.serviceRunning && !s.ownsSdk && (IpcGood(t.ipc) || t.acquireResult == 0)
    ensures NoPublish(Step(s, t).calls)
  {
  }

  lemma OwnedTickPublishesLast(s: PluginState, t: Tick, before: seq<Call>)
    requires NoPublish(before) && s.ownsSdk
    ensures PublishesOnlyLast(OwnedTick(s, t, before), t.read.values)
  {
    var init := EnsureInit(s, t);
    NoPublishAppend(before, init.calls);
    if !init.ok {
      NoPublishAppend(before + init.calls, Release(init.state).calls);
    } else {
      var read := before + init.calls + [MonitorRead(init.state.ctx)];
      NoPublishAppend(before + init.calls, [MonitorRead(init.state.ctx)]);
      if ReadStatus(init.state.ctx, t) != StatusOk {
        NoPublishAppend(read, Release(init.state).calls);
      } else {
        assert (read + [IpcPublish(t.read.values, StatusOk)])[..|read|] == read;
      }
    }
  }

  /** UseCachedValuesIfFresh's window is inclusive at both ends, and it only
      ever changes the tooltip. */
  lemma CacheWindowInclusive(s: PluginState, now: uint64, maxAgeMs: uint64, tip: Option<string>)
    ensures CacheFresh(s, now, maxAgeMs) <==> s.hasCache && s.lastUpdateMs <= now <= s.lastUpdateMs + maxAgeMs
    ensures CachedIfFresh(s, now, maxAgeMs, tip).(tooltip := s.tooltip) == s
  {
  }

  /** A cache entry 2000 ms old is shown; 6000 ms old gives "N/A". */
  lemma GraceScenario(s: PluginState, t: Tick)
    requires Inv(s) && s.hasCache && !s.ownsSdk && s.lastUpdateMs <= Uint64Max - 6000
    requires !t.serviceRunning && !IpcGood(t.ipc) && t.acquireResult == 0
    ensures var young := t.(now := s.lastUpdateMs + 2000);
      Step(s, young).state == s.(tooltip := UnavailableTooltip)
    ensures var late := t.(now := s.lastUpdateMs + 6000);
      Step(s, late).state.values == [Fixed(NotAvailableText), Fixed(NotAvailableText), Fixed(NotAvailableText)]
  {
  }

  /** End to end: after a publish and with no writer active, a plugin that
      sees the service running shows exactly the published values. */
  lemma ShowsPublishedValues(s: PluginState, t: Tick, before: Telemetry.Snapshot, v: Values, at: uint64, pid: Telemetry.Pid)
    requires Inv(s) && t.serviceRunning
    requires !Telemetry.Odd(before.sequence) && at != 0 && (t.now < at || t.now - at <= IpcMaxAgeMs as int)
    requires var rec := Telemetry.Published(before, v.temperature, v.power, v.usage, 0, at, pid);
      t.ipc == Telemetry.ReadOutcome(PluginReadRequest, Some(Telemetry.Header(rec.version, rec.size)), Telemetry.Quiescent(rec), t.now)
    ensures Step(s, t).state.values == [Formatted(v.temperature, TempUnit), Formatted(v.usage, UsageUnit), Formatted(v.power, PowerUnit)]
    ensures Step(s, t).state.tooltip == "" && !Step(s, t).state.ownsSdk
  {
    Telemetry.PublishThenRead(before, v.temperature, v.power, v.usage, 0, at, pid, PluginReadRequest, t.now);
  }

  // ---------------------------------------------------------------------
  // Items and paths
  // ---------------------------------------------------------------------

  /** GetItem: an item for 0..2, null otherwise. */
  function GetItem(index: int): (r: Option<ItemIndex>)
    ensures r.Some? <==> 0 <= index < ItemCount
    ensures r.Some? ==> r.value.ToIndex() == index
  {
    if index == 0 then Some(Temp) else if index == 1 then Some(Usage) else if index == 2 then Some(Power) else None
  }

  function ItemName(i: ItemIndex): string
  {
    match i
    case Temp => "Ryzen Temperature"
    case Usage => "Ryzen Usage"
    case Power => "Ryzen Power"
  }

  function ItemId(i: ItemIndex): string
  {
    match i
    case Temp => "RyzenTemp"
    case Usage => "RyzenUsage"
    case Power => "RyzenPower"
  }

  function ItemLabel(i: ItemIndex): string
  {
    match i
    case Temp => "Temp"
    case Usage => "Usage"
    case Power => "Power"
  }

  /** Each item has its own cell of `values_`, and every cell belongs to
      an item: ValueText and UpdateValues address the cells one to one. */
  lemma ToIndexOneToOne(i: ItemIndex, j: ItemIndex)
    ensures i.ToIndex() == j.ToIndex() <==> i == j
    ensures {Temp.ToIndex(), Usage.ToIndex(), Power.ToIndex()} == {0, 1, 2} && ItemCount == 3
  {
  }

  /** The host tells items apart by id and name: both are unique. */
  lemma ItemIdsDistinct(i: ItemIndex, j: ItemIndex)
    requires i != j
    ensures ItemId(i) != ItemId(j) && ItemName(i) != ItemName(j) && ItemLabel(i) != ItemLabel(j)
  {
    if i == Temp && j == Usage {
      assert ItemId(i)[5] != ItemId(j)[5];
      assert ItemName(i)[6] != ItemName(j)[6];
      assert ItemLabel(i)[0] != ItemLabel(j)[0];
    } else if i == Usage && j == Temp {
      assert ItemId(i)[5] != ItemId(j)[5];
      assert ItemName(i)[6] != ItemName(j)[6];
      assert ItemLabel(i)[0] != ItemLabel(j)[0];
    }
  }

  predicate IsSeparator(c: char) { c == '\\' || c == '/' }

  /** JoinPath: "" for an empty base, otherwise base, one `\` unless the base
      already ends in a separator, then the suffix. */
  function JoinPath(base: string, suffix: string): (r: string)
    ensures base == [] ==> r == []
    ensures base != [] && IsSeparator(base[|base| - 1]) ==> |r| == |base| + |suffix|
    ensures base != [] && !IsSeparator(base[|base| - 1]) ==> |r| == |base| + 1 + |suffix| && r[|base|] == '\\'
    ensures base != [] ==> r[..|base|] == base && r[|r| - |suffix|..] == suffix
  {
    if base == [] then []
    else if IsSeparator(base[|base| - 1]) then base + suffix
    else base + "\\" + suffix
  }
}
