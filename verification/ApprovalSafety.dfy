/** What every interleaving of hooks, taps, replies, snoozes, re-posts and shutdown keeps. */
module ApprovalSafety {
  import opened Text
  import opened ApprovalMachine

  // ----- invariants -----------------------------------------------------------

  /** Tasks, sleepers and table entries stay right when one slot advances. */
  lemma SlotAdvanceKeepsInv(s: State, ref: nat, slot: Slot)
    requires Inv(s) && ref < |s.slots| && Advances(s.slots[ref], slot) && SlotInv(slot, s.clock)
    requires Done(slot) && !Done(s.slots[ref]) && slot.phase.cause == Expired ==>
               s.clock >= slot.deadline && slot.phase.at == s.clock
    requires slot.phase.Returned? && InFlight(s.slots[ref]) ==> slot.id !in s.table
    requires slot.phase.Returned? && Done(s.slots[ref]) ==> slot.phase.at == s.slots[ref].phase.at
    ensures Inv(s.(slots := s.slots[ref := slot]))
  {
    var t := s.(slots := s.slots[ref := slot]);
    forall z | z in t.sleepers ensures SleeperInv(z, t.slots) {
      assert SleeperInv(z, s.slots);
    }
    forall k | k in t.tasks ensures TaskInv(k, t.slots) {
      assert TaskInv(k, s.slots);
    }
    forall id | id in t.table ensures EntryInv(id, t.table[id], t.slots) {
      assert EntryInv(id, s.table[id], s.slots);
    }
  }

  lemma FewerEntriesKeepInv(s: State, t: State)
    requires Inv(s) && t.slots == s.slots && t.clock == s.clock
    requires forall id :: id in t.table ==> id in s.table && t.table[id] == s.table[id]
    requires forall k :: k in t.tasks ==> k in s.tasks || TaskInv(k, s.slots)
    requires forall z :: z in t.sleepers ==> z in s.sleepers || SleeperInv(z, s.slots)
    ensures Inv(t)
  {
    forall id | id in t.table ensures EntryInv(id, t.table[id], t.slots) {
      assert EntryInv(id, s.table[id], s.slots);
    }
  }

  lemma HookKeepsInv(s: State, id: string, timeout: real)
    requires Inv(s)
    ensures Inv(Step(s, Hook(id, timeout)))
  {
    var t := Step(s, Hook(id, timeout));
    forall z | z in t.sleepers ensures SleeperInv(z, t.slots) { assert SleeperInv(z, s.slots); }
    forall k | k in t.tasks ensures TaskInv(k, t.slots) { assert TaskInv(k, s.slots); }
    forall i | i in t.table ensures EntryInv(i, t.table[i], t.slots) {
      if i != id { assert EntryInv(i, s.table[i], s.slots); }
    }
  }

  lemma ExtensionIsSound(slot: Slot, clock: real, seconds: real)
    requires SlotInv(slot, clock)
    ensures var x := Extended(slot, clock, seconds);
      SlotInv(x, clock) && Advances(slot, x) && clock + seconds in x.floors && x.phase == slot.phase && x.id == slot.id
  {
  }

  lemma ExtensionKeepsInv(s: State, ref: nat, seconds: real)
    requires Inv(s) && ref < |s.slots|
    ensures Inv(s.(slots := s.slots[ref := Extended(s.slots[ref], s.clock, seconds)]))
  {
    assert SlotInv(s.slots[ref], s.clock);
    ExtensionIsSound(s.slots[ref], s.clock, seconds);
    hide SlotInv, Advances, Extended, Inv;
    SlotAdvanceKeepsInv(s, ref, Extended(s.slots[ref], s.clock, seconds));
  }

  lemma SnoozerSleeps(slot: Slot, clock: real, seconds: real, z: Sleeper, slots: seq<Slot>)
    requires SlotInv(slot, clock) && z.ref < |slots| && slots[z.ref] == Extended(slot, clock, seconds + SNOOZE_BUFFER)
    requires z.id == slot.id && z.due == clock + seconds && (z.early ==> !Done(slot))
    ensures SleeperInv(z, slots)
  {
    ExtensionIsSound(slot, clock, seconds + SNOOZE_BUFFER);
    assert z.due + SNOOZE_BUFFER == clock + (seconds + SNOOZE_BUFFER);
  }

  lemma DoneTaskKeepsInv(s: State, task: Task)
    requires Inv(s)
    ensures Inv(s.(tasks := s.tasks - multiset{task}))
  {
    hide SlotInv, TaskInv, EntryInv, SleeperInv;
    FewerEntriesKeepInv(s, s.(tasks := s.tasks - multiset{task}));
  }

  function Asleep(s: State, task: Task): Sleeper
    requires task.Snoozer? && task.ref < |s.slots|
  {
    Sleeper(task.id, task.ref, s.clock + task.seconds, !Done(s.slots[task.ref]))
  }

  function Snoozed(s: State, task: Task): State
    requires task.Snoozer? && task.ref < |s.slots|
  {
    s.(slots := s.slots[task.ref := Extended(s.slots[task.ref], s.clock, task.seconds + SNOOZE_BUFFER)])
  }

  lemma SnoozeInSteps(s: State, task: Task)
    requires task.Snoozer? && task.ref < |s.slots|
    ensures var t := Snoozed(s.(tasks := s.tasks - multiset{task}), task);
      ApplyTask(s, task, None) == t.(sleepers := t.sleepers + multiset{Asleep(s, task)})
  {
  }

  lemma SnoozeKeepsInv(s: State, task: Task)
    requires Inv(s) && task.Snoozer? && TaskInv(task, s.slots)
    ensures Inv(ApplyTask(s, task, None))
  {
    var t := s.(tasks := s.tasks - multiset{task});
    var slot := s.slots[task.ref];
    assert SlotInv(slot, s.clock);
    DoneTaskKeepsInv(s, task);
    ExtensionKeepsInv(t, task.ref, task.seconds + SNOOZE_BUFFER);
    SnoozerSleeps(slot, s.clock, task.seconds, Asleep(s, task), Snoozed(t, task).slots);
    SnoozeInSteps(s, task);
    hide SlotInv, Inv, Extended, ApplyTask, SleeperInv;
    NewSleeperKeepsInv(Snoozed(t, task), Asleep(s, task));
  }

  lemma NewSleeperKeepsInv(s: State, z: Sleeper)
    requires Inv(s) && SleeperInv(z, s.slots)
    ensures Inv(s.(sleepers := s.sleepers + multiset{z}))
  {
    FewerEntriesKeepInv(s, s.(sleepers := s.sleepers + multiset{z}));
  }

  lemma ApplyKeepsInv(s: State, task: Task, handle: Option<int>)
    requires Inv(s) && task in s.tasks
    ensures Inv(ApplyTask(s, task, handle))
  {
    hide SleeperInv, EntryInv;
    assert TaskInv(task, s.slots);
    if task.Snoozer? {
      SnoozeKeepsInv(s, task);
    } else {
      var t := s.(tasks := s.tasks - multiset{task});
      DoneTaskKeepsInv(s, task);
      var slot := s.slots[task.ref];
      assert SlotInv(slot, s.clock);
      SlotAdvanceKeepsInv(t, task.ref,
        if task.Resolver? then Resolved(slot, task.response) else slot.(handle := handle));
    }
  }

  lemma EndOfHookKeepsInv(s: State, ref: nat, phase: Phase)
    requires Inv(s) && ref < |s.slots| && InFlight(s.slots[ref]) && phase.Returned?
    requires Advances(s.slots[ref], s.slots[ref].(phase := phase)) && SlotInv(s.slots[ref].(phase := phase), s.clock)
    requires !Done(s.slots[ref]) ==> phase.cause != Expired
    ensures Inv(s.(slots := s.slots[ref := s.slots[ref].(phase := phase)], table := s.table - {s.slots[ref].id}))
  {
    var t := s.(table := s.table - {s.slots[ref].id});
    FewerEntriesKeepInv(s, t);
    SlotAdvanceKeepsInv(t, ref, s.slots[ref].(phase := phase));
  }

  lemma LaterKeepsInv(s: State, clock: real)
    requires Inv(s) && s.clock <= clock
    ensures Inv(s.(clock := clock))
  {
  }

  lemma LookUpKeepsInv(s: State, id: string, task: Task)
    requires Inv(s) && id in s.table && task.ref == s.table[id]
    requires match task
             case Resolver(_, response) => response.requestId == id
             case Snoozer(_, i, seconds) => i == id && seconds >= 0.0
             case Reposter(_, i) => i == id
    ensures Inv(s.(tasks := s.tasks + multiset{task}))
  {
    assert EntryInv(id, s.table[id], s.slots);
    FewerEntriesKeepInv(s, s.(tasks := s.tasks + multiset{task}));
  }

  lemma ShutdownKeepsInv(s: State)
    requires Inv(s)
    ensures Inv(Step(s, Shutdown))
  {
    forall k | k in Cancellers(s.table) ensures TaskInv(k, s.slots) {
      var id :| id in s.table && k == Resolver(s.table[id], ShutdownResponse(id));
      assert EntryInv(id, s.table[id], s.slots);
    }
    FewerEntriesKeepInv(s, Step(s, Shutdown));
  }

  lemma RepostKeepsInv(s: State, z: Sleeper)
    requires Inv(s)
    ensures Inv(Step(s, RepostDue(z)))
  {
    var t := s.(sleepers := s.sleepers - multiset{z});
    FewerEntriesKeepInv(s, t);
    if z.id in s.table {
      LookUpKeepsInv(t, z.id, Reposter(s.table[z.id], z.id));
    }
  }

  /** A thread of the hook that has not finished waiting: what its next phase may be. */
  lemma PhaseKeepsInv(s: State, ref: nat, phase: Phase, handle: Option<int>)
    requires Inv(s) && ref < |s.slots| && !Done(s.slots[ref]) && !phase.Returned?
    requires phase.Finishing? ==>
               && phase.at == s.clock && phase.response.requestId == s.slots[ref].id
               && (phase.cause == Answered ==> phase.response in s.slots[ref].written)
               && (phase.cause == Expired ==> s.clock >= s.slots[ref].deadline && phase.response.decision == "timeout")
               && (phase.cause == SendFailure ==> phase.response.decision == "ask")
    ensures Inv(s.(slots := s.slots[ref := s.slots[ref].(phase := phase, handle := handle)]))
  {
    assert SlotInv(s.slots[ref], s.clock);
    SlotAdvanceKeepsInv(s, ref, s.slots[ref].(phase := phase, handle := handle));
  }

  lemma WaitStepKeepsInv(s: State, ref: nat)
    requires Inv(s)
    ensures Inv(Step(s, Poll(ref))) && Inv(Step(s, Wake(ref)))
  {
    if Has(s, ref) {
      var slot := s.slots[ref];
      assert SlotInv(slot, s.clock);
      if slot.phase.Top? {
        PhaseKeepsInv(s, ref, Polled(slot, s.clock).phase, slot.handle);
        assert Polled(slot, s.clock) == slot.(phase := Polled(slot, s.clock).phase, handle := slot.handle);
      }
      if slot.phase.Blocked? {
        PhaseKeepsInv(s, ref, Woken(slot, s.clock).phase, slot.handle);
        assert Woken(slot, s.clock) == slot.(phase := Woken(slot, s.clock).phase, handle := slot.handle);
      }
    }
  }

  lemma SentKeepsInv(s: State, ref: nat, handle: Option<int>)
    requires Inv(s)
    ensures Inv(Step(s, CardSent(ref, handle)))
  {
    if Has(s, ref) && s.slots[ref].phase.SendingCard? {
      PhaseKeepsInv(s, ref, Top, if handle.Some? then handle else s.slots[ref].handle);
    }
  }

  lemma SendFailureKeepsInv(s: State, ref: nat)
    requires Inv(s)
    ensures Inv(Step(s, CardFailed(ref)))
  {
    if Has(s, ref) && s.slots[ref].phase.SendingCard? {
      assert SlotInv(s.slots[ref], s.clock);
      EndOfHookKeepsInv(s, ref, Returned(Response("ask", s.slots[ref].id, "daemon:send-failed"), SendFailure, s.clock));
    }
  }

  lemma LeaveKeepsInv(s: State, ref: nat)
    requires Inv(s)
    ensures Inv(Step(s, Leave(ref)))
  {
    if Has(s, ref) && s.slots[ref].phase.Finishing? {
      var p := s.slots[ref].phase;
      assert SlotInv(s.slots[ref], s.clock);
      EndOfHookKeepsInv(s, ref, Returned(p.response, p.cause, p.at));
    }
  }

  lemma StepKeepsInv(s: State, e: Event)
    requires Inv(s)
    ensures Inv(Step(s, e))
  {
    hide ApplyTask, Cancellers, SlotInv, EntryInv, SleeperInv;
    match e {
      case Hook(id, timeout) => HookKeepsInv(s, id, timeout);
      case Apply(task, handle) => if task in s.tasks && Has(s, task.ref) { ApplyKeepsInv(s, task, handle); }
      case Tick(seconds) => if seconds >= 0.0 { LaterKeepsInv(s, s.clock + seconds); }
      case Shutdown => ShutdownKeepsInv(s);
      case Tap(id, action, responder) =>
        if id in s.table && ActionDecision(action).Some? {
          LookUpKeepsInv(s, id, Resolver(s.table[id], Response(ActionDecision(action).value, id, responder)));
        }
      case HttpReply(id, decision, responder) =>
        if id in s.table { LookUpKeepsInv(s, id, Resolver(s.table[id], Response(decision, id, responder))); }
      case Snooze(id, seconds) =>
        if id in s.table && seconds >= 0.0 { LookUpKeepsInv(s, id, Snoozer(s.table[id], id, seconds)); }
      case RepostDue(z) => RepostKeepsInv(s, z);
      case CardSent(ref, handle) => SentKeepsInv(s, ref, handle);
      case CardFailed(ref) => SendFailureKeepsInv(s, ref);
      case Poll(ref) => WaitStepKeepsInv(s, ref);
      case Wake(ref) => WaitStepKeepsInv(s, ref);
      case Leave(ref) => LeaveKeepsInv(s, ref);
    }
  }

  lemma {:induction false} RunKeepsInv(events: seq<Event>)
    ensures Inv(Run(events))
  {
    if events != [] {
      RunKeepsInv(events[..|events| - 1]);
      StepKeepsInv(Run(events[..|events| - 1]), events[|events| - 1]);
    }
  }

  // ----- where an answer comes from -------------------------------------------

  /** The event can have produced the response for this request. */
  predicate Origin(e: Event, r: Response)
  {
    match e
    case Tap(id, action, responder) => id == r.requestId && ActionDecision(action) == Some(r.decision)
    case HttpReply(id, decision, _) => id == r.requestId && decision == r.decision
    case Shutdown => r == ShutdownResponse(r.requestId)
    case _ => false
  }

  /** At event `i` the request's table entry was this hook's slot. */
  ghost predicate DeliveredAt(events: seq<Event>, i: nat, ref: nat, r: Response)
    requires i < |events|
  {
    var s := Run(events[..i]);
    Origin(events[i], r) && r.requestId in s.table && s.table[r.requestId] == ref
  }

  ghost predicate Delivered(events: seq<Event>, ref: nat, r: Response)
  {
    exists i :: 0 <= i < |events| && DeliveredAt(events, i, ref, r)
  }

  ghost predicate OriginInv(events: seq<Event>, s: State)
  {
    && (forall k :: k in s.tasks && k.Resolver? ==> Delivered(events, k.ref, k.response))
    && (forall i, r :: 0 <= i < |s.slots| && r in s.slots[i].written ==> Delivered(events, i, r))
  }

  lemma DeliveryPersists(events: seq<Event>, e: Event, ref: nat, r: Response)
    requires Delivered(events, ref, r)
    ensures Delivered(events + [e], ref, r)
  {
    var i :| 0 <= i < |events| && DeliveredAt(events, i, ref, r);
    assert (events + [e])[..i] == events[..i];
    assert DeliveredAt(events + [e], i, ref, r);
  }

  lemma DeliveryHappens(events: seq<Event>, e: Event, ref: nat, r: Response)
    requires Origin(e, r) && r.requestId in Run(events).table && Run(events).table[r.requestId] == ref
    ensures Delivered(events + [e], ref, r)
  {
    assert (events + [e])[..|events|] == events;
    assert DeliveredAt(events + [e], |events|, ref, r);
  }

  /** New resolver tasks come from a tap, a reply or a shutdown that found the entry. */
  lemma NewTasksAreDelivered(events: seq<Event>, e: Event, k: Task)
    requires Inv(Run(events)) && k.Resolver? && k in Step(Run(events), e).tasks && k !in Run(events).tasks
    ensures Delivered(events + [e], k.ref, k.response)
  {
    hide Inv, Delivered, Run;
    var s := Run(events);
    match e {
      case Tap(id, action, responder) => DeliveryHappens(events, e, k.ref, k.response);
      case HttpReply(id, decision, responder) => DeliveryHappens(events, e, k.ref, k.response);
      case Shutdown =>
        assert k in Cancellers(s.table);
        DeliveryHappens(events, e, k.ref, k.response);
      case _ =>
        assert false;
    }
  }

  /** A step adds an answer to a slot only from a resolver task. */
  lemma NewAnswersWereTasks(s: State, e: Event, i: nat, r: Response)
    requires i < |Step(s, e).slots| && r in Step(s, e).slots[i].written
    ensures (i < |s.slots| && r in s.slots[i].written) || Resolver(i, r) in s.tasks
  {
    hide ApplyTask, Cancellers, ActionDecision, Polled, Woken;
    if e.Apply? && Has(s, e.task.ref) {
      AppliedSlot(s, e.task, e.handle);
    }
    if i < |s.slots| {
      OnlyAddressedSlotsChange(s, e, i);
    }
  }

  predicate Addresses(e: Event, i: nat)
  {
    match e
    case CardSent(ref, _) => ref == i
    case CardFailed(ref) => ref == i
    case Poll(ref) => ref == i
    case Wake(ref) => ref == i
    case Leave(ref) => ref == i
    case Apply(task, _) => task.ref == i
    case _ => false
  }

  lemma TasksChangeOneSlot(s: State, task: Task, handle: Option<int>, i: nat)
    requires Has(s, task.ref) && i < |s.slots|
    ensures var t := ApplyTask(s, task, handle);
            |t.slots| == |s.slots| && (i != task.ref ==> t.slots[i] == s.slots[i])
  {
  }

  lemma OnlyAddressedSlotsChange(s: State, e: Event, i: nat)
    requires i < |s.slots|
    ensures i < |Step(s, e).slots|
    ensures !Addresses(e, i) ==> Step(s, e).slots[i] == s.slots[i]
    ensures !e.Apply? ==> Step(s, e).slots[i].written == s.slots[i].written
  {
    hide ApplyTask, Cancellers, ActionDecision;
    if e.Apply? && Has(s, e.task.ref) {
      TasksChangeOneSlot(s, e.task, e.handle, i);
    }
  }

  lemma AppliedSlot(s: State, task: Task, handle: Option<int>)
    requires Has(s, task.ref)
    ensures var t := ApplyTask(s, task, handle);
            && t.table == s.table && |t.slots| == |s.slots|
            && t.slots[task.ref].phase == s.slots[task.ref].phase && t.slots[task.ref].id == s.slots[task.ref].id
            && t.slots[task.ref].written == s.slots[task.ref].written + (if task.Resolver? then [task.response] else [])
  {
  }

  lemma OnlyPollExpires(s: State, e: Event, ref: nat)
    requires ref < |s.slots| && !Done(s.slots[ref])
    requires ref < |Step(s, e).slots| && Done(Step(s, e).slots[ref]) && Step(s, e).slots[ref].phase.cause == Expired
    ensures e == Poll(ref) && s.clock >= s.slots[ref].deadline
  {
    OnlyAddressedSlotsChange(s, e, ref);
    if e.Apply? && Has(s, e.task.ref) {
      AppliedSlot(s, e.task, e.handle);
    }
  }

  lemma StepKeepsOrigins(events: seq<Event>, e: Event)
    requires Inv(Run(events)) && OriginInv(events, Run(events))
    ensures OriginInv(events + [e], Step(Run(events), e))
  {
    var s := Run(events);
    var t := Step(s, e);
    forall k | k in t.tasks && k.Resolver? ensures Delivered(events + [e], k.ref, k.response) {
      if k in s.tasks {
        DeliveryPersists(events, e, k.ref, k.response);
      } else {
        NewTasksAreDelivered(events, e, k);
      }
    }
    forall i, r | 0 <= i < |t.slots| && r in t.slots[i].written ensures Delivered(events + [e], i, r) {
      NewAnswersWereTasks(s, e, i, r);
      assert Resolver(i, r) in s.tasks ==> Delivered(events, Resolver(i, r).ref, Resolver(i, r).response);
      DeliveryPersists(events, e, i, r);
    }
  }

  lemma {:induction false} RunKeepsOrigins(events: seq<Event>)
    ensures OriginInv(events, Run(events))
  {
    if events != [] {
      RunSnoc(events[..|events| - 1], events[|events| - 1]);
      hide Inv, OriginInv, Run, Step;
      var before := events[..|events| - 1];
      RunKeepsOrigins(before);
      RunKeepsInv(before);
      StepKeepsOrigins(before, events[|events| - 1]);
      assert before + [events[|events| - 1]] == events;
    }
  }

  predicate Approves(e: Event, id: string)
  {
    (e.Tap? && e.id == id && e.action == "approve") || (e.HttpReply? && e.id == id && e.decision == "allow")
  }

  /**
   * A hook's response carries its own request id, and it is `allow` only if an
   * approving tap or an allowing reply for that id arrived while the hook's own
   * slot was in the table.
   */
  lemma AllowNeedsApproval(events: seq<Event>, ref: nat)
    requires ref < |Run(events).slots| && Done(Run(events).slots[ref])
    ensures var slot := Run(events).slots[ref];
            && slot.phase.response.requestId == slot.id
            && (slot.phase.response.decision == "allow" ==>
                  exists i :: 0 <= i < |events| && Approves(events[i], slot.id)
                              && slot.id in Run(events[..i]).table && Run(events[..i]).table[slot.id] == ref)
  {
    RunKeepsInv(events);
    RunKeepsOrigins(events);
    var slot := Run(events).slots[ref];
    var r := slot.phase.response;
    AnswersAllow(slot, Run(events).clock);
    if r.decision == "allow" {
      assert Delivered(events, ref, r);
      hide Inv, OriginInv, Run;
      var i :| 0 <= i < |events| && DeliveredAt(events, i, ref, r);
      AllowComesFromApproval(events[i], r);
    }
  }

  lemma AnswersAllow(slot: Slot, clock: real)
    requires SlotInv(slot, clock) && Done(slot)
    ensures slot.phase.response.requestId == slot.id
    ensures slot.phase.response.decision == "allow" ==> slot.phase.response in slot.written
  {
    assert "allow"[0] == 'a' && "timeout"[0] == 't' && "ask"[1] == 's' && "allow"[1] == 'l';
  }

  lemma AllowComesFromApproval(e: Event, r: Response)
    requires Origin(e, r) && r.decision == "allow"
    ensures Approves(e, r.requestId)
  {
    assert "allow"[0] == 'a' && "ask"[1] == 's' && "allow"[1] == 'l' && "deny"[0] == 'd';
  }

  /** The answer a hook takes is the last one written before it looked. */
  lemma LastAnswerWins(events: seq<Event>, ref: nat)
    requires ref < |Run(events).slots| && !Done(Run(events).slots[ref])
    requires Done(Step(Run(events), Wake(ref)).slots[ref])
    ensures var w := Run(events).slots[ref].written;
            w != [] && Step(Run(events), Wake(ref)).slots[ref].phase.response == w[|w| - 1]
  {
    hide Run;
    RunKeepsInv(events);
    assert SlotInv(Run(events).slots[ref], Run(events).clock);
  }

  // ----- after the return ----------------------------------------------------------

  /** Leaving removes the id; without an entry, taps, replies and snoozes change nothing. */
  lemma LeavingRemovesTheId(s: State, ref: nat, action: string, decision: string, responder: string, seconds: real)
    requires Has(s, ref) && s.slots[ref].phase.Finishing?
    ensures var t := Step(s, Leave(ref));
            var id := s.slots[ref].id;
            && id !in t.table && t.slots[ref].phase.Returned?
            && Step(t, Tap(id, action, responder)) == t
            && Step(t, HttpReply(id, decision, responder)) == t
            && Step(t, Snooze(id, seconds)) == t
  {
  }

  lemma ReturnedStays(s: State, e: Event, ref: nat)
    requires ref < |s.slots| && s.slots[ref].phase.Returned?
    ensures ref < |Step(s, e).slots| && Step(s, e).slots[ref].phase == s.slots[ref].phase
  {
    StepAdvances(s, e, ref);
  }

  lemma RunSnoc(events: seq<Event>, e: Event)
    ensures Run(events + [e]) == Step(Run(events), e)
  {
    assert (events + [e])[..|events|] == events;
  }

  /** What a hook returned never changes, whatever follows. */
  lemma {:induction false} ReturnIsFinal(events: seq<Event>, more: seq<Event>, ref: nat)
    requires ref < |Run(events).slots| && Run(events).slots[ref].phase.Returned?
    ensures ref < |Run(events + more).slots| && Run(events + more).slots[ref].phase == Run(events).slots[ref].phase
    decreases |more|
  {
    hide Run, Step;
    if more == [] {
      assert events + more == events;
    } else {
      var shorter := more[..|more| - 1];
      ReturnIsFinal(events, shorter, ref);
      var e := more[|more| - 1];
      assert events + more == (events + shorter) + [e];
      RunSnoc(events + shorter, e);
      ReturnedStays(Run(events + shorter), e, ref);
    }
  }

  /** No table entry leads to a hook that has returned. */
  lemma NoEntryForReturned(events: seq<Event>, ref: nat, id: string)
    requires ref < |Run(events).slots| && Run(events).slots[ref].phase.Returned? && id in Run(events).table
    ensures Run(events).table[id] != ref
  {
    RunKeepsInv(events);
    assert EntryInv(id, Run(events).table[id], Run(events).slots);
  }

  // ----- deadlines ---------------------------------------------------------------------

  /**
   * A hook expires only at or after every deadline that was asked for: its own
   * timeout and each snooze plus thirty seconds.
   */
  lemma ExpiryIsLate(events: seq<Event>, e: Event, ref: nat)
    requires var s := Run(events);
             var t := Step(s, e);
             && ref < |s.slots| && !Done(s.slots[ref])
             && ref < |t.slots| && Done(t.slots[ref]) && t.slots[ref].phase.cause == Expired
    ensures var s := Run(events);
            && s.clock >= s.slots[ref].created + s.slots[ref].timeout
            && (forall f :: f in s.slots[ref].floors ==> s.clock >= f)
  {
    RunKeepsInv(events);
    assert SlotInv(Run(events).slots[ref], Run(events).clock);
    OnlyPollExpires(Run(events), e, ref);
  }

  /** A snooze that found the hook waiting re-posts, under thirty seconds late, to a request not expired. */
  lemma RepostFindsItUnexpired(events: seq<Event>, z: Sleeper)
    requires var s := Run(events); z in s.sleepers && z.early && s.clock < z.due + 30.0
    ensures var s := Run(events);
            && z.ref < |s.slots| && s.slots[z.ref].id == z.id
            && (Done(s.slots[z.ref]) ==> s.slots[z.ref].phase.cause != Expired)
  {
    RunKeepsInv(events);
    assert SleeperInv(z, Run(events).slots);
    assert SlotInv(Run(events).slots[z.ref], Run(events).clock);
  }

  // ----- reachability --------------------------------------------------------------------

  /** Every hook in flight can be answered: its id leads to its own slot. */
  ghost predicate AllReachable(s: State)
  {
    forall i :: 0 <= i < |s.slots| && InFlight(s.slots[i]) ==>
      s.slots[i].id in s.table && s.table[s.slots[i].id] == i
  }

  /** A new hook keeps everyone reachable exactly when its id is not in the table. */
  lemma DuplicateIdLosesAHook(s: State, id: string, timeout: real)
    requires Inv(s) && AllReachable(s)
    ensures AllReachable(Step(s, Hook(id, timeout))) <==> id !in s.table
  {
    var t := Step(s, Hook(id, timeout));
    if id in s.table {
      assert EntryInv(id, s.table[id], s.slots);
      assert t.slots[s.table[id]] == s.slots[s.table[id]];
    } else {
      forall i | 0 <= i < |t.slots| && InFlight(t.slots[i])
        ensures t.slots[i].id in t.table && t.table[t.slots[i].id] == i
      {
        if i < |s.slots| { assert t.slots[i] == s.slots[i]; }
      }
    }
  }

  lemma EndKeepsReachable(s: State, ref: nat, phase: Phase)
    requires AllReachable(s) && ref < |s.slots| && InFlight(s.slots[ref]) && phase.Returned?
    ensures AllReachable(s.(slots := s.slots[ref := s.slots[ref].(phase := phase)],
                            table := s.table - {s.slots[ref].id}))
  {
  }

  lemma SlotKeepsReachable(s: State, ref: nat, slot: Slot)
    requires AllReachable(s) && ref < |s.slots| && slot.id == s.slots[ref].id
    requires InFlight(slot) ==> InFlight(s.slots[ref])
    ensures AllReachable(s.(slots := s.slots[ref := slot]))
  {
  }

  lemma ReachabilityIgnoresTheRest(s: State, t: State)
    requires AllReachable(s) && t.slots == s.slots && t.table == s.table
    ensures AllReachable(t)
  {
  }

  lemma ApplyKeepsReachable(s: State, task: Task, handle: Option<int>)
    requires AllReachable(s) && Has(s, task.ref)
    ensures AllReachable(ApplyTask(s, task, handle))
  {
    hide AllReachable;
    var t := ApplyTask(s, task, handle);
    AppliedSlot(s, task, handle);
    SlotKeepsReachable(s, task.ref, t.slots[task.ref]);
    assert t.slots == s.slots[task.ref := t.slots[task.ref]];
    ReachabilityIgnoresTheRest(s.(slots := t.slots), t);
  }

  lemma WaitKeepsReachable(s: State, ref: nat)
    requires AllReachable(s)
    ensures AllReachable(Step(s, Poll(ref))) && AllReachable(Step(s, Wake(ref)))
  {
    hide AllReachable;
    if Has(s, ref) && s.slots[ref].phase.Top? {
      SlotKeepsReachable(s, ref, Polled(s.slots[ref], s.clock));
    }
    if Has(s, ref) && s.slots[ref].phase.Blocked? {
      SlotKeepsReachable(s, ref, Woken(s.slots[ref], s.clock));
    }
  }

  lemma EndsKeepReachable(s: State, ref: nat)
    requires AllReachable(s)
    ensures AllReachable(Step(s, CardFailed(ref))) && AllReachable(Step(s, Leave(ref)))
  {
    hide AllReachable;
    if Has(s, ref) && s.slots[ref].phase.SendingCard? {
      EndKeepsReachable(s, ref, Returned(Response("ask", s.slots[ref].id, "daemon:send-failed"), SendFailure, s.clock));
    }
    if Has(s, ref) && s.slots[ref].phase.Finishing? {
      var p := s.slots[ref].phase;
      EndKeepsReachable(s, ref, Returned(p.response, p.cause, p.at));
    }
  }

  lemma SentKeepsReachable(s: State, ref: nat, handle: Option<int>)
    requires AllReachable(s)
    ensures AllReachable(Step(s, CardSent(ref, handle)))
  {
    hide AllReachable;
    if Has(s, ref) && s.slots[ref].phase.SendingCard? {
      SlotKeepsReachable(s, ref, Step(s, CardSent(ref, handle)).slots[ref]);
    }
  }

  lemma RepliesLeaveSlots(s: State, e: Event)
    requires e.Tap? || e.HttpReply?
    ensures Step(s, e).slots == s.slots && Step(s, e).table == s.table
  {
    DeliveryLeavesSlots(s, e.id);
    hide Deliver, ActionDecision, ApplyTask, Cancellers;
  }

  lemma SnoozesLeaveSlots(s: State, e: Event)
    requires e.Snooze? || e.Tick?
    ensures Step(s, e).slots == s.slots && Step(s, e).table == s.table
  {
    hide ActionDecision, Cancellers, ApplyTask, Deliver, Polled, Woken;
  }

  lemma RepostsLeaveSlots(s: State, z: Sleeper)
    ensures Step(s, RepostDue(z)).slots == s.slots && Step(s, RepostDue(z)).table == s.table
  {
    hide ActionDecision, Cancellers, ApplyTask, Deliver, Polled, Woken;
  }

  lemma QuietStep(s: State, e: Event)
    requires e.Tap? || e.HttpReply? || e.Snooze? || e.RepostDue? || e.Tick?
    ensures Step(s, e).slots == s.slots && Step(s, e).table == s.table
  {
    hide Step;
    if e.Tap? || e.HttpReply? {
      RepliesLeaveSlots(s, e);
    } else if e.RepostDue? {
      RepostsLeaveSlots(s, e.sleeper);
    } else {
      SnoozesLeaveSlots(s, e);
    }
  }

  lemma OtherStepsKeepReachable(s: State, e: Event)
    requires AllReachable(s) && !e.Hook? && !e.Shutdown?
    ensures AllReachable(Step(s, e))
  {
    hide AllReachable, ApplyTask;
    match e {
      case CardFailed(ref) => EndsKeepReachable(s, ref);
      case Leave(ref) => EndsKeepReachable(s, ref);
      case CardSent(ref, handle) => SentKeepsReachable(s, ref, handle);
      case Poll(ref) => WaitKeepsReachable(s, ref);
      case Wake(ref) => WaitKeepsReachable(s, ref);
      case Apply(task, handle) => if Has(s, task.ref) { ApplyKeepsReachable(s, task, handle); }
      case _ =>
        QuietStep(s, e);
        hide Step;
        ReachabilityIgnoresTheRest(s, Step(s, e));
    }
  }

  ghost predicate DistinctInFlight(events: seq<Event>)
  {
    forall i :: 0 <= i < |events| ==>
      !events[i].Shutdown? && (events[i].Hook? ==> events[i].id !in Run(events[..i]).table)
  }

  /** With distinct in-flight ids and no shutdown, every waiting hook stays answerable. */
  lemma {:induction false} DistinctIdsStayReachable(events: seq<Event>)
    requires DistinctInFlight(events)
    ensures AllReachable(Run(events))
  {
    if events != [] {
      var before := events[..|events| - 1];
      var e := events[|events| - 1];
      forall i | 0 <= i < |before|
        ensures !before[i].Shutdown? && (before[i].Hook? ==> before[i].id !in Run(before[..i]).table)
      {
        assert before[..i] == events[..i] && before[i] == events[i];
      }
      DistinctIdsStayReachable(before);
      RunKeepsInv(before);
      if e.Hook? {
        DuplicateIdLosesAHook(Run(before), e.id, e.timeout);
      } else {
        OtherStepsKeepReachable(Run(before), e);
      }
    }
  }

  lemma DecisionsAreRouted(busCards: set<string>, id: string, approve: bool, responder: string, snooze: real)
    ensures var action := if approve then "approve" else "reject";
            && ActionDecision(action) == Some(if approve then "allow" else "deny")
            && Route(busCards, id, action, responder, snooze)
               == if id in busCards then ToBus else ToApprovals(Tap(id, action, responder))
  {
    assert "approve"[0] == 'a' && "reject"[0] == 'r' && "details"[0] == 'd' && "snooze"[0] == 's';
  }

  lemma TapQueuesTheAnswer(s: State, id: string, action: string, responder: string, r: Response)
    requires id in s.table && ActionDecision(action) == Some(r.decision) && r == Response(r.decision, id, responder)
    ensures Step(s, Tap(id, action, responder)) == s.(tasks := s.tasks + multiset{Resolver(s.table[id], r)})
  {
    hide ActionDecision;
  }

  lemma QueuedAnswerIsWritten(s: State, ref: nat, r: Response)
    requires ref < |s.slots| && Resolver(ref, r) in s.tasks
    ensures var t := Step(s, Apply(Resolver(ref, r), None));
            && |t.slots| == |s.slots| && t.slots[ref] == Resolved(s.slots[ref], r) && t.clock == s.clock
  {
  }

  lemma WakingChangesThePhase(s: State, ref: nat, r: Response)
    requires ref < |s.slots| && s.slots[ref].phase.Blocked? && s.slots[ref].answer == Some(r)
    ensures Step(s, Wake(ref))
            == s.(slots := s.slots[ref := s.slots[ref].(phase := Finishing(r, Answered, s.clock))])
  {
  }

  /**
   * A deciding reply for a reachable hook that is waiting answers it, and the hook
   * wakes to it next, exactly when no bus card has its id; else it is untouched.
   */
  lemma TapReachesTheHook(s: State, ref: nat, busCards: set<string>, approve: bool, responder: string, snooze: real)
    requires AllReachable(s) && ref < |s.slots| && s.slots[ref].phase.Blocked?
    ensures var id := s.slots[ref].id;
            var r := Response(if approve then "allow" else "deny", id, responder);
            var found := Inbound(s, Route(busCards, id, if approve then "approve" else "reject", responder, snooze));
            if id in busCards then found == s
            else
              var told := Step(found, Apply(Resolver(ref, r), None));
              && Resolver(ref, r) in found.tasks && ref < |told.slots|
              && Step(told, Wake(ref))
                 == told.(slots := told.slots[ref := told.slots[ref].(phase := Finishing(r, Answered, s.clock))])
  {
    var id := s.slots[ref].id;
    var action := if approve then "approve" else "reject";
    var r := Response(if approve then "allow" else "deny", id, responder);
    DecisionsAreRouted(busCards, id, approve, responder, snooze);
    hide ActionDecision, Route, Step;
    if id !in busCards {
      TapQueuesTheAnswer(s, id, action, responder, r);
      QueuedAnswerIsWritten(Step(s, Tap(id, action, responder)), ref, r);
      WakingChangesThePhase(Step(Step(s, Tap(id, action, responder)), Apply(Resolver(ref, r), None)), ref, r);
    }
  }

  // ----- shutdown ------------------------------------------------------------------------

  /** Shutdown empties the table and answers every entry with `ask`. */
  lemma ShutdownAnswersEveryEntry(s: State, id: string)
    requires id in s.table
    ensures var t := Step(s, Shutdown);
            t.table == map[] && Resolver(s.table[id], ShutdownResponse(id)) in t.tasks
  {
    assert Resolver(s.table[id], ShutdownResponse(id)) in Cancellers(s.table);
  }

  /** Another answer is written into the hook's slot. */
  predicate Answers(e: Event, ref: nat)
  {
    e.Apply? && e.task.Resolver? && e.task.ref == ref
  }

  lemma TaskKeepsAnswer(s: State, task: Task, handle: Option<int>, ref: nat)
    requires Has(s, task.ref) && ref < |s.slots| && !(task.Resolver? && task.ref == ref)
    ensures var t := ApplyTask(s, task, handle);
            ref < |t.slots| && t.slots[ref].answer == s.slots[ref].answer && t.slots[ref].id == s.slots[ref].id
  {
  }

  lemma AnswerStays(s: State, e: Event, ref: nat)
    requires ref < |s.slots| && !Answers(e, ref)
    ensures ref < |Step(s, e).slots| && Step(s, e).slots[ref].answer == s.slots[ref].answer
    ensures Step(s, e).slots[ref].id == s.slots[ref].id
  {
    hide Cancellers, ActionDecision, ApplyTask;
    if e.Apply? && Has(s, e.task.ref) {
      TaskKeepsAnswer(s, e.task, e.handle, ref);
    }
  }

  lemma {:induction false} AnswerStaysOverRun(events: seq<Event>, more: seq<Event>, ref: nat)
    requires ref < |Run(events).slots| && forall i :: 0 <= i < |more| ==> !Answers(more[i], ref)
    ensures ref < |Run(events + more).slots|
    ensures Run(events + more).slots[ref].answer == Run(events).slots[ref].answer
    decreases |more|
  {
    hide Run, Step;
    if more == [] {
      assert events + more == events;
    } else {
      var shorter, e := more[..|more| - 1], more[|more| - 1];
      AnswerStaysOverRun(events, shorter, ref);
      RunSnoc(events + shorter, e);
      assert events + more == events + shorter + [e];
      AnswerStays(Run(events + shorter), e, ref);
    }
  }

  lemma ShutdownWritesAsk(s: State, id: string)
    requires id in s.table && s.table[id] < |s.slots|
    ensures var ref := s.table[id];
            var t := Step(Step(s, Shutdown), Apply(Resolver(ref, ShutdownResponse(id)), None));
            ref < |t.slots| && t.slots[ref].answer == Some(ShutdownResponse(id))
  {
    ShutdownAnswersEveryEntry(s, id);
    hide Cancellers;
  }

  lemma WakingTakesTheAnswer(s: State, ref: nat, r: Response)
    requires ref < |s.slots| && s.slots[ref].phase.Blocked? && s.slots[ref].answer == Some(r)
    ensures Step(s, Wake(ref)).slots[ref].phase == Finishing(r, Answered, s.clock)
  {
  }

  /**
   * A hook whose entry the shutdown found, and that is still blocked after its
   * resolver ran, wakes to `ask` with its own id, whatever happens in between,
   * unless another answer is written later, which then wins.
   */
  lemma ShutdownReachesTheHook(events: seq<Event>, id: string, more: seq<Event>)
    requires id in Run(events).table
    requires var ref := Run(events).table[id];
             var resolver := Apply(Resolver(ref, ShutdownResponse(id)), None);
             var v := Run(events + [Shutdown] + [resolver] + more);
             && (forall i :: 0 <= i < |more| ==> !Answers(more[i], ref))
             && ref < |v.slots| && v.slots[ref].phase.Blocked?
    ensures var ref := Run(events).table[id];
            var resolver := Apply(Resolver(ref, ShutdownResponse(id)), None);
            var v := Run(events + [Shutdown] + [resolver] + more);
            Step(v, Wake(ref)).slots[ref].phase == Finishing(Response("ask", id, "daemon:shutdown"), Answered, v.clock)
  {
    RunKeepsInv(events);
    var s := Run(events);
    var ref := s.table[id];
    var resolver := Apply(Resolver(ref, ShutdownResponse(id)), None);
    assert EntryInv(id, ref, s.slots);
    hide Run, Inv, Step;
    RunSnoc(events, Shutdown);
    RunSnoc(events + [Shutdown], resolver);
    ShutdownWritesAsk(s, id);
    AnswerStaysOverRun(events + [Shutdown] + [resolver], more, ref);
    WakingTakesTheAnswer(Run(events + [Shutdown] + [resolver] + more), ref, ShutdownResponse(id));
  }
}
