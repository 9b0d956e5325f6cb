/** Event state of the synchronization validator: how a wait-events command
    classifies an event (`SyncEventState::IsIgnoredByWait`, `HasBarrier`,
    `ResetFirstScope`) and how pipeline barriers and tagged waits widen the
    barrier mask of every tracked event (`SyncEventsContext::ApplyBarrier`,
    `ApplyTaggedWait`). */
module Events {

  type EventId = nat

  /** A pipeline stage, by its bit position in `VkPipelineStageFlags2`. */
  type StageBit = nat

  /** `VkPipelineStageFlags2`, as the set of stage bits it holds: `&` is
      intersection, `|` is union and a test against zero is a test for
      emptiness. */
  type StageMask = set<StageBit>

  /** `VK_PIPELINE_STAGE_2_ALL_COMMANDS_BIT` (bit 16, equal to the Vulkan 1.0 bit of the same name) */
  const ALL_COMMANDS: StageBit := 16

  /** `a & b != 0` */
  predicate Meets(a: StageMask, b: StageMask) {
    a * b != {}
  }

  /** The commands an event can remember (`vvl::Func`); every other command is `OtherCommand`. */
  datatype Func =
    | Empty
    | CmdSetEvent | CmdSetEvent2 | CmdSetEvent2KHR
    | CmdResetEvent | CmdResetEvent2 | CmdResetEvent2KHR
    | CmdWaitEvents | CmdWaitEvents2 | CmdWaitEvents2KHR
    | OtherCommand

  /** `SyncExecScope`: the stage mask as passed (`mask_param`) and its expansion
      (`exec_scope`). The expansion is computed by code that is not part of this
      model, so scopes are given as values. */
  datatype SyncExecScope = SyncExecScope(maskParam: StageMask, execScope: StageMask)

  /** `SyncExecScope()` */
  const DefaultScope := SyncExecScope({}, {})

  /** `SyncEventState::IgnoreReason` */
  datatype IgnoreReason = NotIgnored | ResetWaitRace | Reset2WaitRace | SetRace | MissingStageBits | SetVsWait2 | MissingSetEvent

  /** `SyncEventState`. `firstScope` stands for the presence of the first-scope
      access-context snapshot, whose contents are not part of this model. */
  datatype SyncEventState = SyncEventState(
    lastCommand: Func,
    lastCommandTag: nat,
    unsynchronizedSet: Func,
    barriers: StageMask,
    scope: SyncExecScope,
    firstScope: bool,
    firstScopeTag: nat)

  /** `HasBarrier(stageMask, exec_scope)`: the event has no command yet, the
      stage mask holds ALL_COMMANDS, or the accumulated barriers meet the scope
      or hold ALL_COMMANDS. */
  function HasBarrier(e: SyncEventState, stageMask: StageMask, execScopeArg: StageMask): bool {
    || e.lastCommand == Empty
    || ALL_COMMANDS in stageMask
    || Meets(e.barriers, execScopeArg)
    || ALL_COMMANDS in e.barriers
  }

  /** The reset commands `IsIgnoredByWait` recognises, as written: the core
      `vkCmdResetEvent2` is missing. */
  predicate IsCheckedReset(f: Func) {
    f == CmdResetEvent || f == CmdResetEvent2KHR
  }

  /** Every reset-event command, core and extension. */
  predicate IsReset(f: Func) {
    f == CmdResetEvent || f == CmdResetEvent2 || f == CmdResetEvent2KHR
  }

  /** The wait-events command of synchronization2, core or extension. */
  predicate IsWait2(f: Func) {
    f == CmdWaitEvents2KHR || f == CmdWaitEvents2
  }

  /** `IsIgnoredByWait(command, srcStageMask)`, as written: the reasons are tried
      in a fixed order and the first that applies wins. */
  function IsIgnoredByWaitAsWritten(e: SyncEventState, command: Func, srcStageMask: StageMask): IgnoreReason {
    if IsWait2(command) && e.lastCommand == CmdSetEvent then SetVsWait2
    else if IsCheckedReset(e.lastCommand) && !HasBarrier(e, {}, {}) then
      if e.lastCommand == CmdResetEvent then ResetWaitRace else Reset2WaitRace
    else if e.unsynchronizedSet != Empty then SetRace
    else if e.firstScope then
      if !(e.scope.maskParam <= srcStageMask) then MissingStageBits else NotIgnored
    else MissingSetEvent
  }

  /** An event last reset by the core `vkCmdResetEvent2`, with no barrier since,
      is not reported as a reset race by the as-written check: it falls through
      to "missing set event". */
  lemma AsWrittenMissesCoreReset2()
    ensures var e := SyncEventState(CmdResetEvent2, 1, Empty, {}, DefaultScope, false, 0);
      && IsIgnoredByWaitAsWritten(e, CmdWaitEvents2, {}) == MissingSetEvent
      && IsIgnoredByWait(e, CmdWaitEvents2, {}) == Reset2WaitRace
  {
  }

  /** `IsIgnoredByWait`, as intended: a reset by either synchronization2
      reset command races an unsynchronized wait. */
  function IsIgnoredByWait(e: SyncEventState, command: Func, srcStageMask: StageMask): IgnoreReason {
    if IsWait2(command) && e.lastCommand == CmdSetEvent then SetVsWait2
    else if IsReset(e.lastCommand) && !HasBarrier(e, {}, {}) then
      if e.lastCommand == CmdResetEvent then ResetWaitRace else Reset2WaitRace
    else if e.unsynchronizedSet != Empty then SetRace
    else if e.firstScope then
      if !(e.scope.maskParam <= srcStageMask) then MissingStageBits else NotIgnored
    else MissingSetEvent
  }

  /** The intended check differs from the written one only for an event last
      reset by the core `vkCmdResetEvent2`. */
  lemma IgnoredAgreesBesidesCoreReset2(e: SyncEventState, command: Func, srcStageMask: StageMask)
    requires e.lastCommand != CmdResetEvent2
    ensures IsIgnoredByWait(e, command, srcStageMask) == IsIgnoredByWaitAsWritten(e, command, srcStageMask)
  {
  }

  /** A wait uses an event exactly when no earlier reason applies, a set-event has
      recorded a first scope, and the wait's source mask covers every stage the
      set-event named. */
  lemma NotIgnoredIff(e: SyncEventState, command: Func, srcStageMask: StageMask)
    ensures IsIgnoredByWait(e, command, srcStageMask) == NotIgnored <==>
      && !(IsWait2(command) && e.lastCommand == CmdSetEvent)
      && !(IsReset(e.lastCommand) && !HasBarrier(e, {}, {}))
      && e.unsynchronizedSet == Empty
      && e.firstScope
      && e.scope.maskParam <= srcStageMask
  {
  }

  /** The priority of the reasons: each is reported exactly when its own
      condition holds and no earlier one does. */
  lemma IgnoreReasonPriority(e: SyncEventState, command: Func, srcStageMask: StageMask)
    ensures var r := IsIgnoredByWait(e, command, srcStageMask);
      var setVsWait2 := IsWait2(command) && e.lastCommand == CmdSetEvent;
      var resetRace := IsReset(e.lastCommand) && !HasBarrier(e, {}, {});
      && (r == SetVsWait2 <==> setVsWait2)
      && (r == ResetWaitRace <==> !setVsWait2 && resetRace && e.lastCommand == CmdResetEvent)
      && (r == Reset2WaitRace <==> !setVsWait2 && resetRace && e.lastCommand != CmdResetEvent)
      && (r == SetRace <==> !setVsWait2 && !resetRace && e.unsynchronizedSet != Empty)
      && (r == MissingStageBits <==> !setVsWait2 && !resetRace && e.unsynchronizedSet == Empty
                                     && e.firstScope && !(e.scope.maskParam <= srcStageMask))
      && (r == MissingSetEvent <==> !setVsWait2 && !resetRace && e.unsynchronizedSet == Empty && !e.firstScope)
  {
  }

  /** Naming more source stages in a wait never makes a used event ignored. */
  lemma WiderSourceMaskStaysNotIgnored(e: SyncEventState, command: Func, m: StageMask, m': StageMask)
    requires m <= m'
    requires IsIgnoredByWait(e, command, m) == NotIgnored
    ensures IsIgnoredByWait(e, command, m') == NotIgnored
  {
  }

  /** `ResetFirstScope()`: forget the first scope, its snapshot and its tag. */
  function ResetFirstScope(e: SyncEventState): (r: SyncEventState)
    ensures !r.firstScope && r.scope == DefaultScope && r.firstScopeTag == 0
    ensures r.lastCommand == e.lastCommand && r.lastCommandTag == e.lastCommandTag
    ensures r.unsynchronizedSet == e.unsynchronizedSet && r.barriers == e.barriers
  {
    e.(firstScope := false, scope := DefaultScope, firstScopeTag := 0)
  }

  /** After its first scope is reset, no wait can use an event. */
  lemma ResetFirstScopeIgnored(e: SyncEventState, command: Func, srcStageMask: StageMask)
    ensures IsIgnoredByWait(ResetFirstScope(e), command, srcStageMask) != NotIgnored
  {
    NotIgnoredIff(ResetFirstScope(e), command, srcStageMask);
  }

  /** Whether `ApplyBarrier(src, dst, tag)` touches an event: its barriers meet the
      source scope or the source names ALL_COMMANDS, and the event's last
      command is not after the barrier. */
  predicate BarrierApplies(e: SyncEventState, src: SyncExecScope, tag: nat) {
    (Meets(e.barriers, src.execScope) || ALL_COMMANDS in src.maskParam) && e.lastCommandTag <= tag
  }

  /** The barriers `ApplyBarrier` ORs into a touched event: the destination's
      expanded scope and, unexpanded, its ALL_COMMANDS bit. */
  function DstBarrierBits(dst: SyncExecScope): StageMask {
    dst.execScope + (dst.maskParam * {ALL_COMMANDS})
  }

  /** One event after `ApplyBarrier(src, dst, tag)`. */
  function BarrierApplied(e: SyncEventState, src: SyncExecScope, dst: SyncExecScope, tag: nat): SyncEventState {
    if BarrierApplies(e, src, tag) then e.(barriers := e.barriers + DstBarrierBits(dst)) else e
  }

  /** `ApplyBarrier` only ORs bits into an event's barriers: nothing else about the
      event changes, no bit is cleared, and a touched event gains the destination
      bits. */
  lemma BarrierOnlyWidens(e: SyncEventState, src: SyncExecScope, dst: SyncExecScope, tag: nat)
    ensures var r := BarrierApplied(e, src, dst, tag);
      && r == e.(barriers := r.barriers)
      && e.barriers <= r.barriers
      && (BarrierApplies(e, src, tag) ==> DstBarrierBits(dst) <= r.barriers)
      && (!BarrierApplies(e, src, tag) ==> r == e)
  {
  }

  /** Applying the same barrier twice is applying it once. */
  lemma BarrierIdempotent(e: SyncEventState, src: SyncExecScope, dst: SyncExecScope, tag: nat)
    ensures BarrierApplied(BarrierApplied(e, src, dst, tag), src, dst, tag) == BarrierApplied(e, src, dst, tag)
  {
  }

  /** A barrier never takes away what lets a wait through: an event that had a
      barrier for a scope still has one. */
  lemma BarrierKeepsHasBarrier(e: SyncEventState, src: SyncExecScope, dst: SyncExecScope, tag: nat, stageMask: StageMask, execScopeArg: StageMask)
    requires HasBarrier(e, stageMask, execScopeArg)
    ensures HasBarrier(BarrierApplied(e, src, dst, tag), stageMask, execScopeArg)
  {
  }

  /** A tagged wait at `tag` marks every event whose last command is not after it
      with ALL_COMMANDS, so a later wait on such an event no longer reports a
      reset race. */
  lemma TaggedWaitClearsResetRace(e: SyncEventState, srcExec: StageMask, dstExec: StageMask, tag: nat, command: Func, srcStageMask: StageMask)
    requires e.lastCommandTag <= tag
    ensures var r := BarrierApplied(e, SyncExecScope({ALL_COMMANDS}, srcExec), SyncExecScope({ALL_COMMANDS}, dstExec), tag);
      && ALL_COMMANDS in r.barriers
      && HasBarrier(r, {}, {})
      && IsIgnoredByWait(r, command, srcStageMask) != ResetWaitRace
      && IsIgnoredByWait(r, command, srcStageMask) != Reset2WaitRace
  {
  }

  /** All events after `ApplyBarrier(src, dst, tag)`. */
  function EventsAfterBarrier(events: map<EventId, SyncEventState>, src: SyncExecScope, dst: SyncExecScope, tag: nat): (r: map<EventId, SyncEventState>)
    ensures r.Keys == events.Keys
  {
    map id | id in events :: BarrierApplied(events[id], src, dst, tag)
  }

  /** Over all events: the same barrier applied twice is applied once, every event
      keeps all its barrier bits, and the events the barrier does not reach are
      untouched. */
  lemma EventsAfterBarrierProperties(events: map<EventId, SyncEventState>, src: SyncExecScope, dst: SyncExecScope, tag: nat)
    ensures var r := EventsAfterBarrier(events, src, dst, tag);
      && EventsAfterBarrier(r, src, dst, tag) == r
      && (forall id :: id in r ==> events[id].barriers <= r[id].barriers)
      && (forall id :: id in r && !BarrierApplies(events[id], src, tag) ==> r[id] == events[id])
  {
    var r := EventsAfterBarrier(events, src, dst, tag);
    forall id | id in r
      ensures BarrierApplied(r[id], src, dst, tag) == r[id]
      ensures events[id].barriers <= r[id].barriers
    {
      BarrierIdempotent(events[id], src, dst, tag);
      BarrierOnlyWidens(events[id], src, dst, tag);
    }
  }

  /** `SyncEventsContext`: the events referenced by one recording or batch. */
  class SyncEventsContext {
    var events: map<EventId, SyncEventState>

    constructor ()
      ensures events == map[]
    {
      events := map[];
    }

    /** `ApplyBarrier(src, dst, tag)`: widen, in place, the barriers of every event
        the barrier reaches; every other event is left as it was. */
    method ApplyBarrier(src: SyncExecScope, dst: SyncExecScope, tag: nat)
      modifies this
      ensures events == EventsAfterBarrier(old(events), src, dst, tag)
    {
      var remaining := events.Keys;
      while remaining != {}
        invariant remaining <= old(events).Keys && events.Keys == old(events).Keys
        invariant forall id :: id in remaining ==> events[id] == old(events)[id]
        invariant forall id :: id in events && id !in remaining ==> events[id] == BarrierApplied(old(events)[id], src, dst, tag)
        decreases remaining
      {
        var id :| id in remaining;
        var syncEvent := events[id];
        if BarrierApplies(syncEvent, src, tag) {
          events := events[id := syncEvent.(barriers := syncEvent.barriers + DstBarrierBits(dst))];
        }
        remaining := remaining - {id};
      }
      assert events == EventsAfterBarrier(old(events), src, dst, tag);
    }

    /** `ApplyTaggedWait(queue_flags, tag)`: a barrier from ALL_COMMANDS (with the
        host stage excluded from the expanded source scope) to ALL_COMMANDS; the
        expanded scopes, which depend on the queue flags, are given. */
    method ApplyTaggedWait(srcExec: StageMask, dstExec: StageMask, tag: nat)
      modifies this
      ensures events == EventsAfterBarrier(old(events), SyncExecScope({ALL_COMMANDS}, srcExec), SyncExecScope({ALL_COMMANDS}, dstExec), tag)
      ensures forall id :: id in events && old(events)[id].lastCommandTag <= tag ==> HasBarrier(events[id], {}, {})
    {
      var srcScope := SyncExecScope({ALL_COMMANDS}, srcExec);
      var dstScope := SyncExecScope({ALL_COMMANDS}, dstExec);
      ApplyBarrier(srcScope, dstScope, tag);
      forall id | id in events && old(events)[id].lastCommandTag <= tag
        ensures HasBarrier(events[id], {}, {})
      {
        TaggedWaitClearsResetRace(old(events)[id], srcExec, dstExec, tag, CmdWaitEvents, {});
      }
    }
  }
}
